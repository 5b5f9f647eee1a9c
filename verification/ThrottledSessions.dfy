/**
 The guard stack with a throttle whose `acquire` and `release` are interleaved access by access: while one
 session is between two accesses of the throttle, any other session may act anywhere in the stack.
 */
module ThrottledSessions {
  import opened Net
  import opened Sets
  import opened GuardStack
  import Throttle

  /** Sessions are the throttle's callers. */
  datatype Joint = Joint(stack: World, throttle: Throttle.World)

  datatype Move =
    | Do(action: Action)      // a whole guard call elsewhere, or the return from the throttle
    | Access(id: SessionId)   // one access inside `acquire` or `release`

  predicate InAcquire(w: World, th: nat, id: SessionId) {
    id in w.sessions && w.sessions[id].life == Reserving(th)
  }

  predicate InRelease(w: World, th: nat, id: SessionId) {
    id in w.sessions &&
    match w.sessions[id].life
    case RollingBack(failed, left) => left == th + 1
    case Closing(next) => next == th
    case _ => false
  }

  predicate Holds(t: Throttle.World, id: SessionId) {
    id in t.callers && t.callers[id].Admitted?
  }

  predicate HasLeft(t: Throttle.World, id: SessionId) {
    id in t.callers && t.callers[id].Gone?
  }

  /** `acquire` has returned once its caller is admitted or gone, `release` once it is gone. */
  predicate Returned(j: Joint, th: nat, a: Action)
    requires GuardStack.Enabled(j.stack, a)
  {
    match a
    case AskReserve(id, ok) =>
      j.stack.sessions[id].life.next == th ==> if ok then Holds(j.throttle, id) else HasLeft(j.throttle, id)
    case RollBackOne(id) => j.stack.sessions[id].life.left - 1 == th ==> HasLeft(j.throttle, id)
    case CloseOne(id) => j.stack.sessions[id].life.next == th ==> HasLeft(j.throttle, id)
    case _ => true
  }

  predicate Enabled(j: Joint, th: nat, m: Move) {
    match m
    case Do(a) => GuardStack.Enabled(j.stack, a) && Returned(j, th, a)
    case Access(id) =>
      && Throttle.Enabled(j.throttle, id) && !HasLeft(j.throttle, id)
      && ((InAcquire(j.stack, th, id) && !Holds(j.throttle, id)) || InRelease(j.stack, th, id))
  }

  function Step(j: Joint, th: nat, m: Move): Joint
    requires Enabled(j, th, m)
  {
    match m
    case Do(a) => j.(stack := GuardStack.Step(j.stack, a))
    case Access(id) => j.(throttle := Throttle.Advance(j.throttle, id, j.stack.sessions[id].addr.ip))
  }

  function Begin(size: nat, cfg: Throttle.Config): Joint {
    Joint(Start(size, size, cfg), Throttle.World(cfg, 0, map[], None, map[]))
  }

  /** Any sequence of moves; one that is not enabled has no effect. */
  function Run(start: Joint, th: nat, moves: seq<Move>): Joint {
    if moves == [] then start
    else
      var before, m := Run(start, th, moves[..|moves| - 1]), moves[|moves| - 1];
      if Enabled(before, th, m) then Step(before, th, m) else before
  }

  // ---------------------------------------------------------------------------------------------
  // Where a session stands in the throttle
  // ---------------------------------------------------------------------------------------------

  datatype Stage = Outside | Entering | Inside | Leaving | Away

  /** How far a session is, by its place in the stack. */
  function StageOf(th: nat, life: Life): Stage {
    match life
    case Reserving(next) => if next < th then Outside else if next == th then Entering else Inside
    case RollingBack(failed, left) =>
      if failed < th then Outside
      else if failed == th then Away
      else if left > th + 1 then Inside else if left == th + 1 then Leaving else Away
    case Rejected(failed) => if failed < th then Outside else Away
    case Bypassed => Outside
    case Open => Inside
    case Closing(next) => if next < th then Inside else if next == th then Leaving else Away
    case Done => Away
  }

  /** The caller's phase agrees with that. */
  predicate PhaseFits(t: Throttle.World, id: SessionId, stage: Stage) {
    match stage
    case Outside => id !in t.callers
    case Entering => id in t.callers ==> !t.callers[id].Uncounting?
    case Inside => Holds(t, id)
    case Leaving => id in t.callers && (t.callers[id].Admitted? || t.callers[id].Uncounting? || t.callers[id].Gone?)
    case Away => HasLeft(t, id)
  }

  predicate SessionFits(j: Joint, th: nat, id: SessionId) {
    && (id in j.throttle.callers ==>
          id in j.stack.sessions && j.throttle.callers[id].ip == j.stack.sessions[id].addr.ip)
    && (id in j.stack.sessions ==>
          && LifeInRange(j.stack.size, j.stack.sessions[id].life)
          && PhaseFits(j.throttle, id, StageOf(th, j.stack.sessions[id].life)))
  }

  ghost predicate Fits(j: Joint, th: nat) {
    && j.stack.at == j.stack.size > th
    && Throttle.Inv(j.throttle)
    && forall id: SessionId :: SessionFits(j, th, id)
  }

  // ---------------------------------------------------------------------------------------------
  // One move
  // ---------------------------------------------------------------------------------------------

  lemma DoKeepsOwn(j: Joint, th: nat, a: Action)
    requires Enabled(j, th, Do(a)) && !a.SetAllowlist? && SessionFits(j, th, a.id) && th < j.stack.size
    ensures SessionFits(Step(j, th, Do(a)), th, a.id)
  {
  }

  lemma DoKeepsOthers(j: Joint, th: nat, a: Action, id: SessionId)
    requires Enabled(j, th, Do(a)) && Subject(a) != Some(id) && SessionFits(j, th, id)
    ensures SessionFits(Step(j, th, Do(a)), th, id)
  {
    StepTouchesSubject(j.stack, a, id);
  }

  lemma AccessKeepsOwn(j: Joint, th: nat, id: SessionId)
    requires Enabled(j, th, Access(id)) && SessionFits(j, th, id)
    ensures SessionFits(Step(j, th, Access(id)), th, id)
  {
  }

  lemma AccessKeepsOthers(j: Joint, th: nat, id: SessionId, other: SessionId)
    requires Enabled(j, th, Access(id)) && id != other && SessionFits(j, th, other)
    ensures SessionFits(Step(j, th, Access(id)), th, other)
  {
  }

  lemma StepFits(j: Joint, th: nat, m: Move)
    requires Fits(j, th) && Enabled(j, th, m)
    ensures Fits(Step(j, th, m), th)
  {
    forall id: SessionId ensures SessionFits(Step(j, th, m), th, id) {
      assert SessionFits(j, th, id);
      match m {
        case Do(a) =>
          if Subject(a) == Some(id) { DoKeepsOwn(j, th, a); } else { DoKeepsOthers(j, th, a, id); }
        case Access(own) =>
          if own == id { AccessKeepsOwn(j, th, id); } else { AccessKeepsOthers(j, th, own, id); }
      }
    }
    match m {
      case Do(a) => if !a.SetAllowlist? { StepChangesOnly(j.stack, a); }
      case Access(id) =>
        var next := Step(j, th, m).throttle;
        assert Throttle.CallerStep(j.throttle, next, id, j.stack.sessions[id].addr.ip);
        Throttle.StepKeepsInv(j.throttle, next);
    }
  }

  // ---------------------------------------------------------------------------------------------
  // Whole runs
  // ---------------------------------------------------------------------------------------------

  lemma {:induction false} EveryRunFits(size: nat, cfg: Throttle.Config, th: nat, moves: seq<Move>)
    requires th < size
    ensures Fits(Run(Begin(size, cfg), th, moves), th)
    ensures Run(Begin(size, cfg), th, moves).throttle.cfg == cfg
  {
    var start := Begin(size, cfg);
    if moves == [] {
      assert Throttle.Behaviour([start.throttle]);
      Throttle.EveryInterleavingIsExact([start.throttle]);
    } else {
      var before, m := Run(start, th, moves[..|moves| - 1]), moves[|moves| - 1];
      EveryRunFits(size, cfg, th, moves[..|moves| - 1]);
      if Enabled(before, th, m) { StepFits(before, th, m); }
    }
  }

  /** At every moment, inside calls or between them, the open sessions respect both limits. */
  lemma LimitsHoldThroughout(size: nat, cfg: Throttle.Config, th: nat, moves: seq<Move>, ip: IpAddr)
    requires th < size
    ensures var w := Run(Begin(size, cfg), th, moves).stack;
            |OpenSessions(w, None)| <= cfg.maxGlobal && |OpenSessions(w, Some(ip))| <= cfg.maxPerIp
  {
    EveryRunFits(size, cfg, th, moves);
    var j := Run(Begin(size, cfg), th, moves);
    forall id | id in OpenSessions(j.stack, None) ensures id in Throttle.Holding(j.throttle.callers) {
      assert SessionFits(j, th, id);
    }
    forall id | id in OpenSessions(j.stack, Some(ip)) ensures id in Throttle.CountedAt(j.throttle.callers, ip) {
      assert SessionFits(j, th, id);
    }
    SubsetSize(OpenSessions(j.stack, None), Throttle.Holding(j.throttle.callers));
    SubsetSize(OpenSessions(j.stack, Some(ip)), Throttle.CountedAt(j.throttle.callers, ip));
    assert Throttle.IpInv(j.throttle, ip);
  }

  /** With no reserve or close in progress the counters are exactly the open sessions, and the lock is free. */
  lemma QuietCountsAreOpenSessions(size: nat, cfg: Throttle.Config, th: nat, moves: seq<Move>, ip: IpAddr)
    requires th < size && Quiet(Run(Begin(size, cfg), th, moves).stack)
    ensures var j := Run(Begin(size, cfg), th, moves);
            && j.throttle.global == |OpenSessions(j.stack, None)|
            && CountOf(j.throttle.perIp, ip) == |OpenSessions(j.stack, Some(ip))|
            && j.throttle.lock == None
  {
    EveryRunFits(size, cfg, th, moves);
    var j := Run(Begin(size, cfg), th, moves);
    forall id: SessionId ensures id in Throttle.Open(j.throttle.callers) <==> id in OpenSessions(j.stack, None) {
      assert SessionFits(j, th, id);
    }
    forall id | id in j.throttle.callers ensures Holds(j.throttle, id) || HasLeft(j.throttle, id) {
      assert SessionFits(j, th, id);
    }
    assert Throttle.Quiet(j.throttle);
    Throttle.QuietCountsAreOpenConnections(j.throttle);
    assert Throttle.Open(j.throttle.callers) == OpenSessions(j.stack, None);
    forall id | id in OpenSessions(j.stack, None)
      ensures j.throttle.callers[id].ip == j.stack.sessions[id].addr.ip
    {
      assert SessionFits(j, th, id);
    }
    assert OpenSessions(j.stack, Some(ip)) ==
           set c | c in Throttle.Open(j.throttle.callers) && j.throttle.callers[c].ip == ip;
  }
}
