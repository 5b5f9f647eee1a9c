/**
 The guard stack and its sessions.  A log records every guard call.  The classes are the code run by
 one thread; the step system interleaves any number of sessions one guard call at a time.
 */
module GuardStack {
  import opened Net
  import opened Sets
  import Throttle

  type SessionId = nat

  /** What one guard call did; `guard` is the guard's position in the stack. */
  datatype Call =
    | Accepted(guard: nat)      // on_reserve returned Ok
    | Refused(guard: nat)       // on_reserve returned Err
    | Closed(guard: nat)        // on_close
    | Established(guard: nat)   // on_established
    | Activity(guard: nat)      // on_activity
    | Payload(guard: nat)       // on_payload

  datatype Event = Event(session: SessionId, call: Call)

  // ---------------------------------------------------------------------------------------------
  // The exact guard calls of one session's reservation and close
  // ---------------------------------------------------------------------------------------------

  function Accepts(n: nat): (calls: seq<Call>)
    ensures |calls| == n
  {
    seq(n, i requires 0 <= i < n => Accepted(i))
  }

  /** Rollback in reverse: guards `hi - 1` down to `lo`. */
  function RollBack(hi: nat, lo: nat): (calls: seq<Call>)
    requires lo <= hi
    ensures |calls| == hi - lo
  {
    seq(hi - lo, i requires 0 <= i < hi - lo => Closed(hi - 1 - i))
  }

  function Closes(n: nat): (calls: seq<Call>)
    ensures |calls| == n
  {
    seq(n, i requires 0 <= i < n => Closed(i))
  }

  function Rejection(failed: nat, left: nat): seq<Call>
    requires left <= failed
  {
    Accepts(failed) + [Refused(failed)] + RollBack(failed, left)
  }

  function Tagged(id: SessionId, calls: seq<Call>): (events: seq<Event>)
    ensures |events| == |calls|
  {
    seq(|calls|, i requires 0 <= i < |calls| => Event(id, calls[i]))
  }

  /** Position of the first guard that refuses, or the number of guards. */
  function FirstRefusal(verdicts: seq<bool>): (k: nat)
    ensures k <= |verdicts|
    ensures k < |verdicts| ==> !verdicts[k]
    ensures forall i :: 0 <= i < k ==> verdicts[i]
  {
    if verdicts == [] || !verdicts[0] then 0 else 1 + FirstRefusal(verdicts[1..])
  }

  /** How many guards a loop with early return asks. */
  function CallsMade(outcomes: seq<bool>): nat {
    var k := FirstRefusal(outcomes);
    if k == |outcomes| then k else k + 1
  }

  /** The guard calls of `reserve` when guard `i` would answer `verdicts[i]`. */
  function Reservation(verdicts: seq<bool>): seq<Call> {
    var k := FirstRefusal(verdicts);
    if k == |verdicts| then Accepts(k) else Rejection(k, 0)
  }

  class Stack {
    const size: nat
    var allowlist: set<IpAddr>
    var log: seq<Event>

    constructor (size: nat)
      ensures this.size == size && allowlist == {} && log == []
    {
      this.size := size;
      allowlist, log := {}, [];
    }

    method Reserve(id: SessionId, ip: IpAddr, verdicts: seq<bool>) returns (session: Option<GuardSession>)
      requires |verdicts| == size
      modifies this`log
      ensures log == old(log) + if ip in allowlist then [] else Tagged(id, Reservation(verdicts))
      ensures session.Some? <==> ip in allowlist || forall i :: 0 <= i < size ==> verdicts[i]
      ensures session.Some? ==>
                && fresh(session.value) && session.value.stack == this && session.value.id == id
                && !session.value.closed && !session.value.established
                && session.value.allowed == (ip in allowlist)
    {
      if ip in allowlist {
        var s := new GuardSession(this, id, true);
        return Some(s);
      }
      var i := 0;
      while i < size
        invariant i <= FirstRefusal(verdicts)
        invariant log == old(log) + Tagged(id, Accepts(i))
      {
        if !verdicts[i] {
          log := log + [Event(id, Refused(i))];
          var left := i;
          while left > 0
            invariant left <= i && log == old(log) + Tagged(id, Rejection(i, left))
          {
            left := left - 1;
            log := log + [Event(id, Closed(left))];
          }
          return None;
        }
        log := log + [Event(id, Accepted(i))];
        i := i + 1;
      }
      var s := new GuardSession(this, id, false);
      return Some(s);
    }
  }

  class GuardSession {
    const stack: Stack
    const id: SessionId
    const allowed: bool
    var closed: bool
    var established: bool

    constructor (stack: Stack, id: SessionId, allowed: bool)
      ensures this.stack == stack && this.id == id && this.allowed == allowed && !closed && !established
    {
      this.stack, this.id, this.allowed := stack, id, allowed;
      closed, established := false, false;
    }

    /** Each guard hears of establishment once, in order, until one of them fails. */
    method MarkEstablished(outcomes: seq<bool>) returns (ok: bool)
      requires |outcomes| == stack.size
      modifies this`established, stack`log
      ensures ok == (allowed || old(established) || FirstRefusal(outcomes) == stack.size)
      ensures stack.log == old(stack.log)
                + if allowed || old(established) then [] else Tagged(id, Establishments(CallsMade(outcomes)))
      ensures established == (old(established) || !allowed)
    {
      if allowed {
        return true;
      }
      var was := established;
      established := true;
      if was {
        return true;
      }
      var i := 0;
      while i < stack.size
        invariant i <= FirstRefusal(outcomes) && established
        invariant stack.log == old(stack.log) + Tagged(id, Establishments(i))
      {
        stack.log := stack.log + [Event(id, Established(i))];
        if !outcomes[i] {
          return false;
        }
        i := i + 1;
      }
      return true;
    }

    /** `touch`: every guard is asked in order until one fails. */
    method Touch(outcomes: seq<bool>) returns (ok: bool)
      requires |outcomes| == stack.size
      modifies stack`log
      ensures ok == (allowed || FirstRefusal(outcomes) == stack.size)
      ensures stack.log == old(stack.log) + if allowed then [] else Tagged(id, Touches(CallsMade(outcomes)))
    {
      if allowed {
        return true;
      }
      var i := 0;
      while i < stack.size
        invariant i <= FirstRefusal(outcomes)
        invariant stack.log == old(stack.log) + Tagged(id, Touches(i))
      {
        stack.log := stack.log + [Event(id, Activity(i))];
        if !outcomes[i] {
          return false;
        }
        i := i + 1;
      }
      return true;
    }

    /** `record_payload`: each guard sees the activity, then the payload; the first failure stops the loop. */
    method RecordPayload(activity: seq<bool>, payload: seq<bool>) returns (ok: bool)
      requires |activity| == |payload| == stack.size
      modifies stack`log
      ensures ok == (allowed || forall i :: 0 <= i < stack.size ==> activity[i] && payload[i])
      ensures stack.log == old(stack.log) + if allowed then [] else Tagged(id, Inspection(activity, payload, 0))
    {
      if allowed {
        return true;
      }
      var i := 0;
      while i < stack.size
        invariant 0 <= i <= stack.size
        invariant forall j :: 0 <= j < i ==> activity[j] && payload[j]
        invariant stack.log + Tagged(id, Inspection(activity, payload, i))
               == old(stack.log) + Tagged(id, Inspection(activity, payload, 0))
      {
        stack.log := stack.log + [Event(id, Activity(i))];
        if !activity[i] {
          return false;
        }
        stack.log := stack.log + [Event(id, Payload(i))];
        if !payload[i] {
          return false;
        }
        i := i + 1;
      }
      return true;
    }

    /** At most one close ever reaches the guards; `drop` calls this again. */
    method Close()
      modifies this`closed, stack`log
      ensures closed == (old(closed) || !allowed)
      ensures stack.log == old(stack.log) + if allowed || old(closed) then [] else Tagged(id, Closes(stack.size))
    {
      if allowed {
        return;
      }
      var was := closed;
      closed := true;
      if was {
        return;
      }
      var i := 0;
      while i < stack.size
        invariant 0 <= i <= stack.size && closed
        invariant stack.log == old(stack.log) + Tagged(id, Closes(i))
      {
        stack.log := stack.log + [Event(id, Closed(i))];
        i := i + 1;
      }
    }
  }

  function Establishments(n: nat): (calls: seq<Call>)
    ensures |calls| == n
  {
    seq(n, i requires 0 <= i < n => Established(i))
  }

  function Touches(n: nat): (calls: seq<Call>)
    ensures |calls| == n
  {
    seq(n, i requires 0 <= i < n => Activity(i))
  }

  /** The guard calls of `record_payload` from guard `i` on. */
  function Inspection(activity: seq<bool>, payload: seq<bool>, i: nat): seq<Call>
    requires |activity| == |payload| && i <= |activity|
    decreases |activity| - i
  {
    if i == |activity| then []
    else if !activity[i] then [Activity(i)]
    else if !payload[i] then [Activity(i), Payload(i)]
    else [Activity(i), Payload(i)] + Inspection(activity, payload, i + 1)
  }

  // ---------------------------------------------------------------------------------------------
  // What those calls are, one by one
  // ---------------------------------------------------------------------------------------------

  /** Guards accept in order up to the first that refuses; those that accepted are then closed, last first. */
  lemma ReservationInOrder(verdicts: seq<bool>, k: nat)
    requires k <= |verdicts| && (forall i :: 0 <= i < k ==> verdicts[i]) && (k < |verdicts| ==> !verdicts[k])
    ensures var calls := Reservation(verdicts);
            && |calls| == (if k == |verdicts| then k else 2 * k + 1)
            && (forall i :: 0 <= i < k ==> calls[i] == Accepted(i))
            && (k < |verdicts| ==> calls[k] == Refused(k))
            && (forall i :: k < i < |calls| ==> calls[i] == Closed(2 * k - i))
  {
    assert FirstRefusal(verdicts) == k;
  }

  /** A loop with early return asks guards in order up to and including the first that fails. */
  lemma AskedUpToFailure(outcomes: seq<bool>)
    ensures CallsMade(outcomes) <= |outcomes|
    ensures forall i :: 0 <= i < CallsMade(outcomes) - 1 ==> outcomes[i]
    ensures CallsMade(outcomes) < |outcomes| ==> CallsMade(outcomes) > 0 && !outcomes[CallsMade(outcomes) - 1]
  {
  }

  /** Whether the `i`-th call of an inspection succeeds. */
  predicate Passed(activity: seq<bool>, payload: seq<bool>, i: nat)
    requires |activity| == |payload| && i < 2 * |activity|
  {
    if i % 2 == 0 then activity[i / 2] else payload[i / 2]
  }

  function InspectionCall(i: nat): Call {
    if i % 2 == 0 then Activity(i / 2) else Payload(i / 2)
  }

  /** From guard `i` on. */
  lemma {:induction false} InspectionFrom(activity: seq<bool>, payload: seq<bool>, i: nat)
    requires |activity| == |payload| && i <= |activity|
    ensures var calls := Inspection(activity, payload, i);
            && |calls| <= 2 * (|activity| - i)
            && (forall k :: 0 <= k < |calls| ==> calls[k] == InspectionCall(2 * i + k))
            && (forall p :: 2 * i <= p < 2 * i + |calls| - 1 ==> Passed(activity, payload, p))
            && (|calls| < 2 * (|activity| - i) ==>
                  |calls| > 0 && !Passed(activity, payload, 2 * i + |calls| - 1))
    decreases |activity| - i
  {
    if i < |activity| && activity[i] && payload[i] {
      InspectionFrom(activity, payload, i + 1);
      InspectionGrows(activity, payload, i, Inspection(activity, payload, i), Inspection(activity, payload, i + 1));
    }
  }

  lemma InspectionGrows(activity: seq<bool>, payload: seq<bool>, i: nat, calls: seq<Call>, rest: seq<Call>)
    requires |activity| == |payload| && i < |activity| && activity[i] && payload[i]
    requires calls == [Activity(i), Payload(i)] + rest && |rest| <= 2 * (|activity| - i - 1)
    requires forall k :: 0 <= k < |rest| ==> rest[k] == InspectionCall(2 * (i + 1) + k)
    requires forall p :: 2 * (i + 1) <= p < 2 * (i + 1) + |rest| - 1 ==> Passed(activity, payload, p)
    ensures forall k :: 0 <= k < |calls| ==> calls[k] == InspectionCall(2 * i + k)
    ensures forall p :: 2 * i <= p < 2 * i + |calls| - 1 ==> Passed(activity, payload, p)
  {
    forall k | 0 <= k < |calls| ensures calls[k] == InspectionCall(2 * i + k) {
      if k >= 2 { assert calls[k] == rest[k - 2]; }
    }
  }

  /**
   A payload goes to the guards in order, each asked about the activity and directly after that about
   the payload, and nothing follows the first failure.
   */
  lemma InspectionInOrder(activity: seq<bool>, payload: seq<bool>)
    requires |activity| == |payload|
    ensures var calls := Inspection(activity, payload, 0);
            && |calls| <= 2 * |activity|
            && (forall k :: 0 <= k < |calls| ==> calls[k] == if k % 2 == 0 then Activity(k / 2) else Payload(k / 2))
            && (forall k :: 0 <= k < |calls| - 1 ==> Passed(activity, payload, k))
            && (|calls| < 2 * |activity| ==> |calls| > 0 && !Passed(activity, payload, |calls| - 1))
  {
    InspectionFrom(activity, payload, 0);
    assert forall k :: 0 <= k < |Inspection(activity, payload, 0)| ==>
        Inspection(activity, payload, 0)[k] == InspectionCall(2 * 0 + k);
  }

  // ---------------------------------------------------------------------------------------------
  // Any number of interleaved sessions
  // ---------------------------------------------------------------------------------------------

  datatype Life =
    | Reserving(next: nat)                    // guards below `next` have accepted
    | RollingBack(failed: nat, left: nat)     // `failed` refused; guards below `left` are still to be closed
    | Rejected(failed: nat)
    | Bypassed                                // allowlisted when it arrived
    | Open
    | Closing(next: nat)                      // guards below `next` have been closed
    | Done

  /** How far `mark_established` has got; its flag is set from the first call on. */
  datatype Est = NotYet | Telling(next: nat) | Told(calls: nat)

  datatype Session = Session(addr: SocketAddr, life: Life, est: Est)

  /** Guard `at` is a throttle with limits `cfg`; the other guards answer as they please. */
  datatype World = World(
    size: nat, at: nat, cfg: Throttle.Config, tally: Throttle.Tally,
    allowlist: set<IpAddr>, sessions: map<SessionId, Session>, log: seq<Event>)

  datatype Action =
    | Arrive(id: SessionId, addr: SocketAddr)
    | SetAllowlist(ips: set<IpAddr>)
    | AskReserve(id: SessionId, ok: bool)
    | FinishReserve(id: SessionId)
    | RollBackOne(id: SessionId)
    | FinishRollback(id: SessionId)
    | BeginClose(id: SessionId)               // close(), again close(), or drop
    | CloseOne(id: SessionId)
    | FinishClose(id: SessionId)
    | BeginEstablish(id: SessionId)
    | TellOne(id: SessionId, ok: bool)
    | Inspect(id: SessionId, call: Call)      // touch or record_payload reaches a guard

  predicate HasSession(w: World, id: SessionId) {
    id in w.sessions && (w.sessions[id].life.Open? || w.sessions[id].life.Closing?
                         || w.sessions[id].life.Done? || w.sessions[id].life.Bypassed?)
  }

  predicate Enabled(w: World, a: Action) {
    match a
    case Arrive(id, _) => id !in w.sessions
    case SetAllowlist(_) => true
    case AskReserve(id, ok) =>
      && id in w.sessions && w.sessions[id].life.Reserving? && w.sessions[id].life.next < w.size
      && (w.sessions[id].life.next == w.at ==> ok == Throttle.Admits(w.cfg, w.tally, w.sessions[id].addr.ip))
    case FinishReserve(id) => id in w.sessions && w.sessions[id].life == Reserving(w.size)
    case RollBackOne(id) => id in w.sessions && w.sessions[id].life.RollingBack? && w.sessions[id].life.left > 0
    case FinishRollback(id) => id in w.sessions && w.sessions[id].life.RollingBack? && w.sessions[id].life.left == 0
    case BeginClose(id) => HasSession(w, id)
    case CloseOne(id) => id in w.sessions && w.sessions[id].life.Closing? && w.sessions[id].life.next < w.size
    case FinishClose(id) => id in w.sessions && w.sessions[id].life == Closing(w.size)
    case BeginEstablish(id) => HasSession(w, id)
    case TellOne(id, _) => id in w.sessions && w.sessions[id].est.Telling? && w.sessions[id].est.next < w.size
    case Inspect(id, call) => HasSession(w, id) && !w.sessions[id].life.Bypassed? && (call.Activity? || call.Payload?)
  }

  /** How the throttle at position `at` responds to one guard call. */
  function Respond(cfg: Throttle.Config, t: Throttle.Tally, ip: IpAddr, at: nat, call: Call): Throttle.Tally {
    match call
    case Accepted(g) => if g == at then Throttle.Acquired(cfg, t, ip) else t
    case Refused(g) => if g == at then Throttle.Acquired(cfg, t, ip) else t
    case Closed(g) => if g == at then Throttle.Released(t, ip) else t
    case _ => t
  }

  /** A guard is called for session `id`. */
  function Called(w: World, id: SessionId, call: Call): World
    requires id in w.sessions
  {
    w.(log := w.log + [Event(id, call)], tally := Respond(w.cfg, w.tally, w.sessions[id].addr.ip, w.at, call))
  }

  function SetLife(w: World, id: SessionId, life: Life): World
    requires id in w.sessions
  {
    w.(sessions := w.sessions[id := w.sessions[id].(life := life)])
  }

  function SetEst(w: World, id: SessionId, est: Est): World
    requires id in w.sessions
  {
    w.(sessions := w.sessions[id := w.sessions[id].(est := est)])
  }

  function Step(w: World, a: Action): World
    requires Enabled(w, a)
  {
    match a
    case Arrive(id, addr) =>
      w.(sessions := w.sessions[id := Session(addr, if addr.ip in w.allowlist then Bypassed else Reserving(0), NotYet)])
    case SetAllowlist(ips) => w.(allowlist := ips)
    case AskReserve(id, ok) =>
      var i := w.sessions[id].life.next;
      if ok then SetLife(Called(w, id, Accepted(i)), id, Reserving(i + 1))
      else SetLife(Called(w, id, Refused(i)), id, RollingBack(i, i))
    case FinishReserve(id) => SetLife(w, id, Open)
    case RollBackOne(id) =>
      var life := w.sessions[id].life;
      SetLife(Called(w, id, Closed(life.left - 1)), id, RollingBack(life.failed, life.left - 1))
    case FinishRollback(id) => SetLife(w, id, Rejected(w.sessions[id].life.failed))
    case BeginClose(id) => if w.sessions[id].life.Open? then SetLife(w, id, Closing(0)) else w
    case CloseOne(id) =>
      var i := w.sessions[id].life.next;
      SetLife(Called(w, id, Closed(i)), id, Closing(i + 1))
    case FinishClose(id) => SetLife(w, id, Done)
    case BeginEstablish(id) =>
      if w.sessions[id].life.Bypassed? || !w.sessions[id].est.NotYet? then w else SetEst(w, id, Telling(0))
    case TellOne(id, ok) =>
      var i := w.sessions[id].est.next;
      SetEst(Called(w, id, Established(i)), id, if ok then Telling(i + 1) else Told(i + 1))
    case Inspect(id, call) => Called(w, id, call)
  }

  function Start(size: nat, at: nat, cfg: Throttle.Config): World {
    World(size, at, cfg, Throttle.Tally(0, map[]), {}, map[], [])
  }

  /** A schedule is any sequence of actions; an action that is not enabled has no effect. */
  function Run(w: World, actions: seq<Action>): World {
    if actions == [] then w
    else
      var before, a := Run(w, actions[..|actions| - 1]), actions[|actions| - 1];
      if Enabled(before, a) then Step(before, a) else before
  }

  // ---------------------------------------------------------------------------------------------
  // What the log says
  // ---------------------------------------------------------------------------------------------

  predicate Lifecycle(c: Call) {
    c.Accepted? || c.Refused? || c.Closed?
  }

  /** One session's reserve and close calls, in the order they happened. */
  function Calls(log: seq<Event>, id: SessionId): seq<Call> {
    if log == [] then []
    else
      var last := log[|log| - 1];
      Calls(log[..|log| - 1], id) + if last.session == id && Lifecycle(last.call) then [last.call] else []
  }

  function Announcements(log: seq<Event>, id: SessionId): seq<Call> {
    if log == [] then []
    else
      var last := log[|log| - 1];
      Announcements(log[..|log| - 1], id) + if last.session == id && last.call.Established? then [last.call] else []
  }

  predicate LifeInRange(size: nat, life: Life) {
    match life
    case Reserving(next) => next <= size
    case RollingBack(failed, left) => left <= failed < size
    case Rejected(failed) => failed < size
    case Closing(next) => next <= size
    case _ => true
  }

  /** The exact guard calls a session has made by the time it reaches `life`. */
  function Script(size: nat, life: Life): seq<Call>
    requires LifeInRange(size, life)
  {
    match life
    case Reserving(next) => Accepts(next)
    case RollingBack(failed, left) => Rejection(failed, left)
    case Rejected(failed) => Rejection(failed, 0)
    case Bypassed => []
    case Open => Accepts(size)
    case Closing(next) => Accepts(size) + Closes(next)
    case Done => Accepts(size) + Closes(size)
  }

  function CallsOf(est: Est): nat {
    match est
    case NotYet => 0
    case Telling(next) => next
    case Told(calls) => calls
  }

  ghost predicate OnScript(w: World, id: SessionId) {
    if id in w.sessions then
      && LifeInRange(w.size, w.sessions[id].life)
      && Calls(w.log, id) == Script(w.size, w.sessions[id].life)
      && Announcements(w.log, id) == Establishments(CallsOf(w.sessions[id].est))
    else
      Calls(w.log, id) == [] && Announcements(w.log, id) == []
  }

  lemma CallsSnoc(log: seq<Event>, e: Event, id: SessionId)
    ensures Calls(log + [e], id) == Calls(log, id) + if e.session == id && Lifecycle(e.call) then [e.call] else []
    ensures Announcements(log + [e], id)
         == Announcements(log, id) + if e.session == id && e.call.Established? then [e.call] else []
  {
    assert (log + [e])[..|log|] == log;
  }

  lemma ScriptGrows(i: nat)
    ensures Accepts(i) + [Accepted(i)] == Accepts(i + 1)
    ensures Accepts(i) + [Refused(i)] == Rejection(i, i)
    ensures Closes(i) + [Closed(i)] == Closes(i + 1)
    ensures Establishments(i) + [Established(i)] == Establishments(i + 1)
  {
  }

  lemma RejectionGrows(failed: nat, left: nat)
    requires 0 < left <= failed
    ensures Rejection(failed, left) + [Closed(left - 1)] == Rejection(failed, left - 1)
  {
  }

  /** An action of session `id` appends at most one call, tagged `id`, and touches no other session. */
  function Subject(a: Action): Option<SessionId> {
    if a.SetAllowlist? then None else Some(a.id)
  }

  lemma StepTouchesSubject(w: World, a: Action, id: SessionId)
    requires Enabled(w, a) && Subject(a) != Some(id)
    ensures var w' := Step(w, a);
            && w'.size == w.size
            && (id in w'.sessions <==> id in w.sessions)
            && (id in w.sessions ==> w'.sessions[id] == w.sessions[id])
  {
  }

  lemma StepLogsSubject(w: World, a: Action, id: SessionId)
    requires Enabled(w, a) && Subject(a) != Some(id)
    ensures var w' := Step(w, a);
            w'.log == w.log || (|w'.log| == |w.log| + 1 && w'.log[..|w.log|] == w.log && w'.log[|w.log|].session != id)
  {
  }

  lemma OthersUntouched(w: World, a: Action, id: SessionId)
    requires Enabled(w, a) && Subject(a) != Some(id) && OnScript(w, id)
    ensures OnScript(Step(w, a), id)
  {
    StepTouchesSubject(w, a, id);
    StepLogsSubject(w, a, id);
  }

  lemma ReserveFollowsScript(w: World, a: Action, id: SessionId)
    requires Enabled(w, a) && a.AskReserve? && a.id == id && OnScript(w, id)
    ensures OnScript(Step(w, a), id)
  {
    var i := w.sessions[id].life.next;
    CallsSnoc(w.log, Event(id, if a.ok then Accepted(i) else Refused(i)), id);
    ScriptGrows(i);
  }

  lemma RollbackFollowsScript(w: World, a: Action, id: SessionId)
    requires Enabled(w, a) && a.RollBackOne? && a.id == id && OnScript(w, id)
    ensures OnScript(Step(w, a), id)
  {
    var life := w.sessions[id].life;
    CallsSnoc(w.log, Event(id, Closed(life.left - 1)), id);
    RejectionGrows(life.failed, life.left);
  }

  lemma CloseFollowsScript(w: World, a: Action, id: SessionId)
    requires Enabled(w, a) && a.CloseOne? && a.id == id && OnScript(w, id)
    ensures OnScript(Step(w, a), id)
  {
    var i := w.sessions[id].life.next;
    CallsSnoc(w.log, Event(id, Closed(i)), id);
    ScriptGrows(i);
    assert Accepts(w.size) + Closes(i) + [Closed(i)] == Accepts(w.size) + (Closes(i) + [Closed(i)]);
  }

  lemma OtherCallsFollowScript(w: World, a: Action, id: SessionId)
    requires Enabled(w, a) && (a.TellOne? || a.Inspect?) && a.id == id && OnScript(w, id)
    ensures OnScript(Step(w, a), id)
  {
    if a.TellOne? {
      CallsSnoc(w.log, Event(id, Established(w.sessions[id].est.next)), id);
      ScriptGrows(w.sessions[id].est.next);
    } else {
      CallsSnoc(w.log, Event(id, a.call), id);
    }
  }

  lemma MarksFollowScript(w: World, a: Action, id: SessionId)
    requires Enabled(w, a) && Subject(a) == Some(id) && OnScript(w, id)
    requires a.Arrive? || a.FinishReserve? || a.FinishRollback? || a.BeginClose? || a.FinishClose? || a.BeginEstablish?
    ensures OnScript(Step(w, a), id)
  {
    assert Accepts(w.size) + Closes(0) == Accepts(w.size);
    assert Step(w, a).log == w.log;
    assert Accepts(0) == [] && Establishments(0) == [];
  }

  /**
   Under every interleaving, with closes repeated at will and the allowlist changing at any time,
   each session's guard calls are exactly its script: reservations in order up to the first refusal
   and rollback in reverse, or all reservations and then one close per guard in order.
   */
  lemma {:induction false} EverySessionFollowsItsScript(size: nat, at: nat, cfg: Throttle.Config,
                                                        actions: seq<Action>, id: SessionId)
    ensures OnScript(Run(Start(size, at, cfg), actions), id)
    ensures Run(Start(size, at, cfg), actions).size == size
  {
    var w0 := Start(size, at, cfg);
    if actions != [] {
      var w, a := Run(w0, actions[..|actions| - 1]), actions[|actions| - 1];
      EverySessionFollowsItsScript(size, at, cfg, actions[..|actions| - 1], id);
      if Enabled(w, a) {
        if Subject(a) != Some(id) {
          OthersUntouched(w, a, id);
        } else {
          match a {
            case AskReserve(_, _) => ReserveFollowsScript(w, a, id);
            case RollBackOne(_) => RollbackFollowsScript(w, a, id);
            case CloseOne(_) => CloseFollowsScript(w, a, id);
            case TellOne(_, _) => OtherCallsFollowScript(w, a, id);
            case Inspect(_, _) => OtherCallsFollowScript(w, a, id);
            case _ => MarksFollowScript(w, a, id);
          }
        }
      }
    }
  }

  // ---------------------------------------------------------------------------------------------
  // Conservation
  // ---------------------------------------------------------------------------------------------

  /** Guard `g` has accepted the session and not yet been told of its close. */
  predicate Owes(size: nat, life: Life, g: nat) {
    match life
    case Reserving(next) => g < next
    case RollingBack(_, left) => g < left
    case Open => g < size
    case Closing(next) => next <= g < size
    case _ => false
  }

  function Times(calls: seq<Call>, c: Call): nat {
    multiset(calls)[c]
  }

  lemma {:induction false} TimesInScripts(n: nat, g: nat)
    ensures Times(Accepts(n), Accepted(g)) == (if g < n then 1 else 0) && Times(Accepts(n), Closed(g)) == 0
    ensures Times(Closes(n), Closed(g)) == (if g < n then 1 else 0) && Times(Closes(n), Accepted(g)) == 0
  {
    if n > 0 {
      TimesInScripts(n - 1, g);
      ScriptGrows(n - 1);
    }
  }

  lemma {:induction false} TimesInRollBack(hi: nat, lo: nat, g: nat)
    requires lo <= hi
    ensures Times(RollBack(hi, lo), Closed(g)) == (if lo <= g < hi then 1 else 0)
    ensures Times(RollBack(hi, lo), Accepted(g)) == 0
    decreases hi - lo
  {
    if lo < hi {
      TimesInRollBack(hi, lo + 1, g);
      assert RollBack(hi, lo) == RollBack(hi, lo + 1) + [Closed(lo)];
    }
  }

  lemma TimesConcat(a: seq<Call>, b: seq<Call>, c: Call)
    ensures Times(a + b, c) == Times(a, c) + Times(b, c)
  {
  }

  lemma TimesInRejection(failed: nat, left: nat, g: nat)
    requires left <= failed
    ensures Times(Rejection(failed, left), Accepted(g)) == (if g < failed then 1 else 0)
    ensures Times(Rejection(failed, left), Closed(g)) == (if left <= g < failed then 1 else 0)
  {
    TimesInScripts(failed, g);
    TimesInRollBack(failed, left, g);
    var front, back := Accepts(failed) + [Refused(failed)], RollBack(failed, left);
    TimesConcat(Accepts(failed), [Refused(failed)], Accepted(g));
    TimesConcat(Accepts(failed), [Refused(failed)], Closed(g));
    TimesConcat(front, back, Accepted(g));
    TimesConcat(front, back, Closed(g));
  }

  lemma TimesInClosing(size: nat, next: nat, g: nat)
    ensures Times(Accepts(size) + Closes(next), Accepted(g)) == (if g < size then 1 else 0)
    ensures Times(Accepts(size) + Closes(next), Closed(g)) == (if g < next then 1 else 0)
  {
    TimesInScripts(size, g);
    TimesInScripts(next, g);
    TimesConcat(Accepts(size), Closes(next), Accepted(g));
    TimesConcat(Accepts(size), Closes(next), Closed(g));
  }

  /** In any script a guard is closed at most once, and exactly as often as it accepted once nothing is owed. */
  lemma ScriptIsBalanced(size: nat, life: Life, g: nat)
    requires LifeInRange(size, life)
    ensures var calls := Script(size, life);
            && Times(calls, Accepted(g)) == Times(calls, Closed(g)) + (if Owes(size, life, g) then 1 else 0)
            && Times(calls, Accepted(g)) <= 1
    ensures life.Rejected? && g >= life.failed ==>
              Times(Script(size, life), Accepted(g)) == Times(Script(size, life), Closed(g)) == 0
  {
    match life {
      case Reserving(next) => TimesInScripts(next, g);
      case RollingBack(failed, left) => TimesInRejection(failed, left, g);
      case Rejected(failed) => TimesInRejection(failed, 0, g);
      case Bypassed =>
      case Open => TimesInScripts(size, g);
      case Closing(next) => TimesInClosing(size, next, g);
      case Done => TimesInClosing(size, size, g);
    }
  }

  predicate Finished(life: Life) {
    life.Rejected? || life.Bypassed? || life.Done?
  }

  /**
   Conservation: each guard sees exactly one close for each session it accepted once that session is
   closed or rolled back, none before, and none at all for sessions it did not accept.
   */
  lemma CloseMatchesReserve(size: nat, at: nat, cfg: Throttle.Config, actions: seq<Action>, id: SessionId, g: nat)
    ensures var w := Run(Start(size, at, cfg), actions);
            var accepted, closed := Times(Calls(w.log, id), Accepted(g)), Times(Calls(w.log, id), Closed(g));
            && closed <= accepted <= 1
            && (id in w.sessions && Finished(w.sessions[id].life) ==> closed == accepted)
            && (id in w.sessions && w.sessions[id].life.Open? && g < size ==> accepted == 1 && closed == 0)
            && (id in w.sessions && w.sessions[id].life.Bypassed? ==> accepted == 0)
            && (id in w.sessions && w.sessions[id].life.Rejected? && g >= w.sessions[id].life.failed ==> accepted == 0)
  {
    EverySessionFollowsItsScript(size, at, cfg, actions, id);
    var w := Run(Start(size, at, cfg), actions);
    if id in w.sessions { ScriptIsBalanced(size, w.sessions[id].life, g); }
  }

  // ---------------------------------------------------------------------------------------------
  // With the throttle as one of the guards
  // ---------------------------------------------------------------------------------------------

  /** Sessions, of one address or of any, that hold a throttle slot. */
  function Holders(w: World, ip: Option<IpAddr>): set<SessionId> {
    set id | id in w.sessions && Owes(w.size, w.sessions[id].life, w.at)
             && (ip.None? || w.sessions[id].addr.ip == ip.value)
  }

  ghost predicate TallyExact(w: World, ip: IpAddr) {
    && w.tally.global == |Holders(w, None)|
    && CountOf(w.tally.perIp, ip) == |Holders(w, Some(ip))|
    && (w.cfg.maxPerIp > 0 && ip in w.tally.perIp ==> w.tally.perIp[ip] > 0)
  }

  /** Only the acting session can start or stop holding a slot. */
  lemma HoldersChange(w: World, w': World, id: SessionId, ip: Option<IpAddr>)
    requires w'.size == w.size && w'.at == w.at && id in w'.sessions
    requires w'.sessions == w.sessions[id := w'.sessions[id]]
    ensures |Holders(w', ip)| == |Holders(w, ip)| - Bit(id in Holders(w, ip)) + Bit(id in Holders(w', ip))
  {
    SizeSplit(Holders(w, ip), id);
    SizeSplit(Holders(w', ip), id);
    OthersHold(w, w', id, ip);
  }

  lemma OthersHold(w: World, w': World, id: SessionId, ip: Option<IpAddr>)
    requires w'.size == w.size && w'.at == w.at && id in w'.sessions
    requires w'.sessions == w.sessions[id := w'.sessions[id]]
    ensures Holders(w, ip) - {id} == Holders(w', ip) - {id}
  {
  }

  predicate Holding(w: World, id: SessionId) {
    id in w.sessions && Owes(w.size, w.sessions[id].life, w.at)
  }

  lemma QuietStepKeepsTally(w: World, w': World, id: SessionId, ip: IpAddr)
    requires w'.size == w.size && w'.at == w.at && w'.cfg == w.cfg && w'.tally == w.tally
    requires id in w'.sessions && w'.sessions == w.sessions[id := w'.sessions[id]]
    requires id in w.sessions ==> w'.sessions[id].addr == w.sessions[id].addr
    requires Holding(w', id) == Holding(w, id) && TallyExact(w, ip)
    ensures TallyExact(w', ip)
  {
    HoldersChange(w, w', id, None);
    HoldersChange(w, w', id, Some(ip));
  }

  lemma AcquireKeepsTally(w: World, a: Action, ip: IpAddr)
    requires Enabled(w, a) && a.AskReserve? && w.sessions[a.id].life.next == w.at && TallyExact(w, ip)
    ensures TallyExact(Step(w, a), ip)
  {
    var w' := Step(w, a);
    HoldersChange(w, w', a.id, None);
    HoldersChange(w, w', a.id, Some(ip));
  }

  lemma ReleaseKeepsTally(w: World, w': World, id: SessionId, ip: IpAddr)
    requires w'.size == w.size && w'.at == w.at && w'.cfg == w.cfg && TallyExact(w, ip)
    requires id in w.sessions && id in w'.sessions && w'.sessions == w.sessions[id := w'.sessions[id]]
    requires w'.sessions[id].addr == w.sessions[id].addr
    requires Holding(w, id) && !Holding(w', id)
    requires w'.tally == Throttle.Released(w.tally, w.sessions[id].addr.ip)
    ensures TallyExact(w', ip)
  {
    HoldersChange(w, w', id, None);
    HoldersChange(w, w', id, Some(ip));
    assert id in Holders(w, None);
    assert w.sessions[id].addr.ip == ip ==> id in Holders(w, Some(ip));
  }

  lemma StepKeepsTally(w: World, a: Action, ip: IpAddr)
    requires Enabled(w, a) && TallyExact(w, ip) && (a.SetAllowlist? || OnScript(w, a.id))
    ensures TallyExact(Step(w, a), ip)
  {
    if a.SetAllowlist? {
      AllowlistKeepsTally(w, a, ip);
    } else if !ReachesThrottle(w, a) {
      UnheardKeepsTally(w, a, ip);
    } else if a.AskReserve? {
      AcquireKeepsTally(w, a, ip);
    } else {
      CloseKeepsTally(w, a, ip);
    }
  }

  lemma AllowlistKeepsTally(w: World, a: Action, ip: IpAddr)
    requires a.SetAllowlist? && TallyExact(w, ip)
    ensures TallyExact(Step(w, a), ip)
  {
    var w' := Step(w, a);
    assert Holders(w', None) == Holders(w, None) && Holders(w', Some(ip)) == Holders(w, Some(ip));
  }

  /** The action calls guard `w.at` to reserve or to close. */
  predicate ReachesThrottle(w: World, a: Action)
    requires Enabled(w, a)
  {
    match a
    case AskReserve(id, _) => w.sessions[id].life.next == w.at
    case RollBackOne(id) => w.sessions[id].life.left - 1 == w.at
    case CloseOne(id) => w.sessions[id].life.next == w.at
    case _ => false
  }

  lemma UnheardKeepsTally(w: World, a: Action, ip: IpAddr)
    requires Enabled(w, a) && !a.SetAllowlist? && !ReachesThrottle(w, a) && TallyExact(w, ip)
    ensures TallyExact(Step(w, a), ip)
  {
    StepChangesOnly(w, a);
    UnheardKeepsHolding(w, a);
    QuietStepKeepsTally(w, Step(w, a), a.id, ip);
  }

  lemma UnheardKeepsHolding(w: World, a: Action)
    requires Enabled(w, a) && !a.SetAllowlist? && !ReachesThrottle(w, a)
    ensures Step(w, a).tally == w.tally && Holding(Step(w, a), a.id) == Holding(w, a.id)
  {
  }

  lemma CloseKeepsTally(w: World, a: Action, ip: IpAddr)
    requires Enabled(w, a) && (a.RollBackOne? || a.CloseOne?) && ReachesThrottle(w, a) && TallyExact(w, ip)
    ensures TallyExact(Step(w, a), ip)
  {
    StepChangesOnly(w, a);
    ReleaseKeepsTally(w, Step(w, a), a.id, ip);
  }

  /** Only session `id` changes. */
  predicate ChangesOnly(w: World, w': World, id: SessionId) {
    && w'.size == w.size && w'.at == w.at && w'.cfg == w.cfg && id in w'.sessions
    && w'.sessions == w.sessions[id := w'.sessions[id]]
    && (id in w.sessions ==> w'.sessions[id].addr == w.sessions[id].addr)
  }

  lemma StepChangesOnly(w: World, a: Action)
    requires Enabled(w, a) && !a.SetAllowlist?
    ensures ChangesOnly(w, Step(w, a), a.id)
  {
  }

  lemma {:induction false} ThrottleCountsHolders(size: nat, at: nat, cfg: Throttle.Config, actions: seq<Action>,
                                                 ip: IpAddr)
    ensures var w := Run(Start(size, at, cfg), actions);
            TallyExact(w, ip) && w.size == size && w.at == at && w.cfg == cfg
  {
    var w0 := Start(size, at, cfg);
    if actions == [] {
      assert Holders(w0, None) == {} && Holders(w0, Some(ip)) == {};
    } else {
      var before := actions[..|actions| - 1];
      ThrottleCountsHolders(size, at, cfg, before, ip);
      var a := actions[|actions| - 1];
      if !a.SetAllowlist? { EverySessionFollowsItsScript(size, at, cfg, before, a.id); }
      if Enabled(Run(w0, before), a) { StepKeepsTally(Run(w0, before), a, ip); }
    }
  }

  /** No reserve or close is in progress. */
  predicate Quiet(w: World) {
    forall id :: id in w.sessions ==> w.sessions[id].life.Open? || Finished(w.sessions[id].life)
  }

  /** The sessions that went through the guards and are open, of one address or of any. */
  function OpenSessions(w: World, ip: Option<IpAddr>): set<SessionId> {
    set id | id in w.sessions && w.sessions[id].life.Open? && (ip.None? || w.sessions[id].addr.ip == ip.value)
  }

  /** When no call is in progress the throttle counts exactly the open sessions that were not bypassed. */
  lemma ThrottleCountsOpenSessions(size: nat, at: nat, cfg: Throttle.Config, actions: seq<Action>, ip: IpAddr)
    requires at < size && Quiet(Run(Start(size, at, cfg), actions))
    ensures var w := Run(Start(size, at, cfg), actions);
            && w.tally.global == |OpenSessions(w, None)|
            && CountOf(w.tally.perIp, ip) == |OpenSessions(w, Some(ip))|
  {
    ThrottleCountsHolders(size, at, cfg, actions, ip);
    var w := Run(Start(size, at, cfg), actions);
    assert Holders(w, None) == OpenSessions(w, None);
    assert Holders(w, Some(ip)) == OpenSessions(w, Some(ip));
  }

  /** What a sequence of guard calls for `ip` does to the throttle at position `at`. */
  function Effect(cfg: Throttle.Config, t: Throttle.Tally, ip: IpAddr, at: nat, calls: seq<Call>): Throttle.Tally {
    if calls == [] then t
    else Respond(cfg, Effect(cfg, t, ip, at, calls[..|calls| - 1]), ip, at, calls[|calls| - 1])
  }

  lemma EffectSnoc(cfg: Throttle.Config, t: Throttle.Tally, ip: IpAddr, at: nat, calls: seq<Call>, c: Call)
    ensures Effect(cfg, t, ip, at, calls + [c]) == Effect(cfg, Effect(cfg, t, ip, at, calls), ip, at, [c])
  {
    assert (calls + [c])[..|calls|] == calls && [c][..0] == [];
  }

  lemma {:induction false} EffectOfAccepts(cfg: Throttle.Config, t: Throttle.Tally, ip: IpAddr, at: nat, n: nat)
    ensures Effect(cfg, t, ip, at, Accepts(n)) == if at < n then Throttle.Acquired(cfg, t, ip) else t
  {
    if n > 0 {
      EffectOfAccepts(cfg, t, ip, at, n - 1);
      ScriptGrows(n - 1);
      EffectSnoc(cfg, t, ip, at, Accepts(n - 1), Accepted(n - 1));
      assert [Accepted(n - 1)][..0] == [];
    }
  }

  lemma {:induction false} EffectOfRejection(cfg: Throttle.Config, t: Throttle.Tally, ip: IpAddr, at: nat,
                                             failed: nat, left: nat)
    requires left <= failed
    ensures Effect(cfg, t, ip, at, Rejection(failed, left))
         == if at > failed then t
            else if at == failed || at < left then Throttle.Acquired(cfg, t, ip)
            else Throttle.Released(Throttle.Acquired(cfg, t, ip), ip)
    decreases failed - left
  {
    if left == failed {
      EffectOfAccepts(cfg, t, ip, at, failed);
      ScriptGrows(failed);
      EffectSnoc(cfg, t, ip, at, Accepts(failed), Refused(failed));
      assert [Refused(failed)][..0] == [];
    } else {
      EffectOfRejection(cfg, t, ip, at, failed, left + 1);
      RejectionGrows(failed, left + 1);
      EffectSnoc(cfg, t, ip, at, Rejection(failed, left + 1), Closed(left));
      assert [Closed(left)][..0] == [];
    }
  }

  /**
   A rejected reserve leaves the throttle exactly as it was, wherever in the stack the refusal came
   from, provided no zero count is stored; with a per-IP limit of zero the throttle's own refusal
   is the one case that leaves a trace.
   */
  lemma RejectedReserveRestoresThrottle(cfg: Throttle.Config, t: Throttle.Tally, ip: IpAddr, at: nat,
                                        verdicts: seq<bool>)
    requires at < |verdicts| && verdicts[at] == Throttle.Admits(cfg, t, ip)
    requires FirstRefusal(verdicts) < |verdicts|
    requires cfg.maxPerIp > 0 ==> forall x :: x in t.perIp ==> t.perIp[x] > 0
    ensures Effect(cfg, t, ip, at, Reservation(verdicts)) == t
       <==> FirstRefusal(verdicts) != at || t.global + 1 > cfg.maxGlobal || ip in t.perIp || cfg.maxPerIp > 0
  {
    var failed := FirstRefusal(verdicts);
    EffectOfRejection(cfg, t, ip, at, failed, 0);
    if at == failed {
      Throttle.RefusalIsSilent(cfg, t, ip);
    } else if at < failed {
      Throttle.ReleaseUndoesAcquire(cfg, t, ip);
    }
  }

  /** In any run the premise on stored counts holds, so this is what a rejected reserve does from there. */
  lemma RejectedReserveInAnyRun(size: nat, at: nat, cfg: Throttle.Config, actions: seq<Action>, ip: IpAddr,
                                verdicts: seq<bool>)
    requires var t := Run(Start(size, at, cfg), actions).tally;
             && at < |verdicts| && verdicts[at] == Throttle.Admits(cfg, t, ip)
             && FirstRefusal(verdicts) < |verdicts|
    ensures var t := Run(Start(size, at, cfg), actions).tally;
            (Effect(cfg, t, ip, at, Reservation(verdicts)) == t <==>
             FirstRefusal(verdicts) != at || t.global + 1 > cfg.maxGlobal || ip in t.perIp || cfg.maxPerIp > 0)
  {
    var t := Run(Start(size, at, cfg), actions).tally;
    forall x | cfg.maxPerIp > 0 && x in t.perIp ensures t.perIp[x] > 0 {
      ThrottleCountsHolders(size, at, cfg, actions, x);
    }
    RejectedReserveRestoresThrottle(cfg, t, ip, at, verdicts);
  }
}
