/**
 The blocking server: an accept loop that takes a permit per connection, a first-in first-out channel
 of jobs, and a fixed set of worker threads. Every atomic operation, every channel operation and every
 acquisition of the receiver's lock is one step, and steps of different threads interleave freely.
 Handlers take any time but return.
 */
module SyncServer {
  type Job = nat

  datatype Worker =
    | Waiting              // about to lock the receiver
    | Receiving            // holds the receiver's lock, blocked in `recv`
    | Running(job: Job)    // inside the handler
    | Finishing(job: Job)  // the handler has returned, the permit is not yet given back
    | Exited

  datatype Acceptor =
    | Starting
    | Checking             // loop head: look at the shutdown signal
    | Accepting
    | Counting(job: Job)   // accepted, about to take a permit
    | Undoing(job: Job)    // one permit too many, about to give it back
    | Sending(job: Job)
    | Draining             // polling until no permit is out
    | Dropping(ok: bool)   // returning: the pool is about to be dropped
    | Joining(ok: bool, k: nat)
    | Returned(ok: bool)

  /** `accepted` to `refused` record what happened so far, oldest first. */
  datatype Server = Server(
    maxConnections: nat,
    pollsSignal: bool,
    stop: bool,
    acceptor: Acceptor,
    queue: seq<Job>,
    senderAlive: bool,
    workers: seq<Worker>,
    active: int,
    accepted: seq<Job>,
    sent: seq<Job>,
    taken: seq<Job>,
    finished: seq<Job>,
    refused: seq<Job>)

  datatype Accept = Accepted(job: Job) | WouldBlock | Failed

  datatype Step =
    | Start(ok: bool)
    | Stop
    | CheckSignal
    | TryAccept(result: Accept)
    | TakePermit
    | UndoPermit
    | Send
    | CheckDrained
    | DropSender
    | Join
    | Lock(w: nat)
    | Receive(w: nat)
    | HandlerReturns(w: nat)
    | GiveBack(w: nat)

  /** `ThreadPool::new` spawns at least one worker. */
  function PoolSize(size: nat): nat {
    if size == 0 then 1 else size
  }

  function Init(maxConnections: nat, size: nat, pollsSignal: bool): Server {
    var workers := seq(PoolSize(size), _ => Waiting);
    Server(maxConnections, pollsSignal, false, Starting, [], true, workers, 0, [], [], [], [], [])
  }

  // ---------------------------------------------------------------------------------------------
  // Steps
  // ---------------------------------------------------------------------------------------------

  predicate ReceiverLocked(workers: seq<Worker>) {
    Receiving in workers
  }

  /** The receiver is dropped when the last worker has let go of it. */
  predicate ReceiverAlive(workers: seq<Worker>) {
    exists w :: 0 <= w < |workers| && workers[w] != Exited
  }

  predicate WorkerAt(s: Server, w: nat) {
    w < |s.workers|
  }

  predicate Enabled(s: Server, step: Step) {
    match step
    case Start(_) => s.acceptor == Starting
    case Stop => true
    case CheckSignal => s.acceptor == Checking
    case TryAccept(result) => s.acceptor == Accepting && (result.WouldBlock? ==> s.pollsSignal)
    case TakePermit => s.acceptor.Counting?
    case UndoPermit => s.acceptor.Undoing?
    case Send => s.acceptor.Sending?
    case CheckDrained => s.acceptor == Draining
    case DropSender => s.acceptor.Dropping?
    case Join => s.acceptor.Joining? && (s.acceptor.k < |s.workers| ==> s.workers[s.acceptor.k] == Exited)
    case Lock(w) => WorkerAt(s, w) && s.workers[w] == Waiting && !ReceiverLocked(s.workers)
    case Receive(w) => WorkerAt(s, w) && s.workers[w] == Receiving && (s.queue != [] || !s.senderAlive)
    case HandlerReturns(w) => WorkerAt(s, w) && s.workers[w].Running?
    case GiveBack(w) => WorkerAt(s, w) && s.workers[w].Finishing?
  }

  function AfterAccept(s: Server, result: Accept): Server {
    match result
    case Accepted(job) => s.(accepted := s.accepted + [job], acceptor := Counting(job))
    case WouldBlock => s.(acceptor := Checking)
    case Failed => s.(acceptor := Dropping(false))
  }

  function AfterTakePermit(s: Server): Server
    requires s.acceptor.Counting?
  {
    var permit := s.active + 1;
    if permit > s.maxConnections then s.(active := permit, acceptor := Undoing(s.acceptor.job))
    else s.(active := permit, acceptor := Sending(s.acceptor.job))
  }

  function AfterSend(s: Server): Server
    requires s.acceptor.Sending?
  {
    if ReceiverAlive(s.workers) then
      s.(queue := s.queue + [s.acceptor.job], sent := s.sent + [s.acceptor.job], acceptor := Checking)
    else
      s.(active := s.active - 1, acceptor := Dropping(false))
  }

  function AfterJoin(s: Server): Server
    requires s.acceptor.Joining?
  {
    if s.acceptor.k < |s.workers| then s.(acceptor := Joining(s.acceptor.ok, s.acceptor.k + 1))
    else s.(acceptor := Returned(s.acceptor.ok))
  }

  /** Buffered jobs come out before the channel reports that its sender is gone. */
  function AfterReceive(s: Server, w: nat): Server
    requires WorkerAt(s, w)
  {
    if s.queue != [] then
      s.(queue := s.queue[1..], taken := s.taken + [s.queue[0]], workers := s.workers[w := Running(s.queue[0])])
    else
      s.(workers := s.workers[w := Exited])
  }

  function Next(s: Server, step: Step): Server
    requires Enabled(s, step)
  {
    match step
    case Start(ok) => s.(acceptor := if ok then Checking else Dropping(false))
    case Stop => s.(stop := true)
    case CheckSignal => s.(acceptor := if s.pollsSignal && s.stop then Draining else Accepting)
    case TryAccept(result) => AfterAccept(s, result)
    case TakePermit => AfterTakePermit(s)
    case UndoPermit => s.(active := s.active - 1, refused := s.refused + [s.acceptor.job], acceptor := Checking)
    case Send => AfterSend(s)
    case CheckDrained => if s.active > 0 then s else s.(acceptor := Dropping(true))
    case DropSender => s.(senderAlive := false, acceptor := Joining(s.acceptor.ok, 0))
    case Join => AfterJoin(s)
    case Lock(w) => s.(workers := s.workers[w := Receiving])
    case Receive(w) => AfterReceive(s, w)
    case HandlerReturns(w) => s.(workers := s.workers[w := Finishing(s.workers[w].job)])
    case GiveBack(w) =>
      s.(active := s.active - 1, finished := s.finished + [s.workers[w].job], workers := s.workers[w := Waiting])
  }

  predicate CanRun(s: Server, steps: seq<Step>)
    decreases |steps|
  {
    steps != [] ==> Enabled(s, steps[0]) && CanRun(Next(s, steps[0]), steps[1..])
  }

  function Run(s: Server, steps: seq<Step>): Server
    requires CanRun(s, steps)
    decreases |steps|
  {
    if steps == [] then s else Run(Next(s, steps[0]), steps[1..])
  }

  // ---------------------------------------------------------------------------------------------
  // Sums over the workers
  // ---------------------------------------------------------------------------------------------

  function Total(workers: seq<Worker>, weight: Worker -> nat): nat {
    if workers == [] then 0 else weight(workers[0]) + Total(workers[1..], weight)
  }

  lemma {:induction false} TotalUpdate(workers: seq<Worker>, weight: Worker -> nat, w: nat, next: Worker)
    requires w < |workers|
    ensures Total(workers[w := next], weight) == Total(workers, weight) - weight(workers[w]) + weight(next)
  {
    if w == 0 {
      assert workers[0 := next][1..] == workers[1..];
    } else {
      assert workers[w := next][1..] == workers[1..][w - 1 := next];
      TotalUpdate(workers[1..], weight, w - 1, next);
    }
  }

  function Busy(w: Worker): nat {
    if w.Running? || w.Finishing? then 1 else 0
  }

  function Held(workers: seq<Worker>): multiset<Job> {
    if workers == [] then multiset{} else HeldBy(workers[0]) + Held(workers[1..])
  }

  function HeldBy(w: Worker): multiset<Job> {
    if w.Running? || w.Finishing? then multiset{w.job} else multiset{}
  }

  lemma {:induction false} HeldUpdate(workers: seq<Worker>, w: nat, next: Worker)
    requires w < |workers|
    ensures Held(workers[w := next]) + HeldBy(workers[w]) == Held(workers) + HeldBy(next)
  {
    HeldHead(workers);
    HeldHead(workers[w := next]);
    if w == 0 {
      assert workers[0 := next][1..] == workers[1..];
      AddToBoth(HeldBy(next), HeldBy(workers[0]), HeldBy(workers[0]), HeldBy(next), Held(workers[1..]));
    } else {
      HeldUpdate(workers[1..], w - 1, next);
      assert workers[w := next][1..] == workers[1..][w - 1 := next];
      AddToBoth(Held(workers[1..][w - 1 := next]), HeldBy(workers[w]), Held(workers[1..]), HeldBy(next),
                HeldBy(workers[0]));
    }
  }

  lemma HeldHead(workers: seq<Worker>)
    requires workers != []
    ensures Held(workers) == HeldBy(workers[0]) + Held(workers[1..])
    ensures Held(workers) == Held(workers[1..]) + HeldBy(workers[0])
  {
  }

  lemma AddToBoth(a: multiset<Job>, b: multiset<Job>, c: multiset<Job>, d: multiset<Job>, more: multiset<Job>)
    requires a + b == c + d
    ensures more + a + b == more + c + d
  {
    assert more + a + b == more + (a + b) == more + (c + d);
  }

  lemma TakeFromBoth(taken: multiset<Job>, finished: multiset<Job>, held: multiset<Job>, now: multiset<Job>,
                     job: multiset<Job>)
    requires taken == finished + held && now + job == held
    ensures taken == (finished + job) + now
  {
  }

  lemma {:induction false} AllIdle(workers: seq<Worker>)
    requires forall w :: 0 <= w < |workers| ==> workers[w] == Exited || workers[w] == Waiting
    ensures Total(workers, Busy) == 0 && Held(workers) == multiset{}
  {
    if workers != [] { AllIdle(workers[1..]); }
  }

  // ---------------------------------------------------------------------------------------------
  // The invariant
  // ---------------------------------------------------------------------------------------------

  function InHand(a: Acceptor): nat {
    if a.Undoing? || a.Sending? then 1 else 0
  }

  function Promised(a: Acceptor): nat {
    if a.Sending? then 1 else 0
  }

  /** Jobs that are queued or running. */
  function Load(s: Server): nat {
    |s.queue| + Total(s.workers, Busy)
  }

  /** Every permit out is a queued job, a running job, or in the acceptor's hand. */
  predicate PermitsInv(s: Server) {
    && s.active == Load(s) + InHand(s.acceptor)
    && Load(s) + Promised(s.acceptor) <= s.maxConnections
  }

  /** Jobs leave the channel in the order sent, and each one taken is running or has run. */
  predicate JobsInv(s: Server) {
    InOrder(s.sent, s.taken, s.queue) && RunOnce(s.taken, s.finished, s.workers)
  }

  predicate InOrder(sent: seq<Job>, taken: seq<Job>, queue: seq<Job>) {
    sent == taken + queue
  }

  predicate RunOnce(taken: seq<Job>, finished: seq<Job>, workers: seq<Worker>) {
    multiset(taken) == multiset(finished) + Held(workers)
  }

  predicate NoneExited(workers: seq<Worker>) {
    forall w :: 0 <= w < |workers| ==> workers[w] != Exited
  }

  predicate ExitedUpTo(workers: seq<Worker>, k: nat) {
    k <= |workers| && forall w :: 0 <= w < k ==> workers[w] == Exited
  }

  predicate PoolInv(s: Server) {
    && s.workers != []
    && s.senderAlive == !(s.acceptor.Joining? || s.acceptor.Returned?)
    && (s.senderAlive || s.queue != [] ==> NoneExited(s.workers))
    && (s.acceptor.Joining? ==> ExitedUpTo(s.workers, s.acceptor.k))
    && (s.acceptor.Returned? ==> ExitedUpTo(s.workers, |s.workers|))
  }

  predicate OneReceiver(workers: seq<Worker>) {
    forall i, j :: 0 <= i < j < |workers| && workers[i] == Receiving ==> workers[j] != Receiving
  }

  /** The connection the acceptor has in hand. */
  function HandOf(a: Acceptor): seq<Job> {
    if a.Counting? || a.Undoing? || a.Sending? then [a.job] else []
  }

  /** Every accepted connection is refused, sent, or in the acceptor's hand, once. */
  predicate EachOnce(s: Server) {
    Partition(s.accepted, s.sent, s.refused, HandOf(s.acceptor))
  }

  predicate Partition(all: seq<Job>, a: seq<Job>, b: seq<Job>, c: seq<Job>) {
    multiset(all) == multiset(a) + multiset(b) + multiset(c)
  }

  /** The loop was left for a stop request. */
  predicate Stopped(a: Acceptor) {
    a == Draining || ((a.Dropping? || a.Joining? || a.Returned?) && a.ok)
  }

  /** That takes a request, and what follows the drain has no permit out. */
  predicate ShutdownInv(s: Server) {
    Stopped(s.acceptor) ==> s.pollsSignal && s.stop && (s.acceptor != Draining ==> s.active == 0)
  }

  predicate Inv(s: Server) {
    PermitsInv(s) && JobsInv(s) && PoolInv(s) && OneReceiver(s.workers) && EachOnce(s) && ShutdownInv(s)
  }

  lemma InitInv(maxConnections: nat, size: nat, pollsSignal: bool)
    ensures Inv(Init(maxConnections, size, pollsSignal))
  {
    AllIdle(Init(maxConnections, size, pollsSignal).workers);
  }

  predicate WorkerStep(step: Step) {
    step.Lock? || step.Receive? || step.HandlerReturns? || step.GiveBack?
  }

  lemma AcceptorLeavesWorkers(s: Server, step: Step)
    requires Enabled(s, step) && !WorkerStep(step)
    ensures var t := Next(s, step); t.taken == s.taken && t.finished == s.finished && t.workers == s.workers
  {
  }

  lemma KeepsPermits(s: Server, step: Step)
    requires Enabled(s, step) && PermitsInv(s) && PoolInv(s)
    ensures PermitsInv(Next(s, step))
  {
    if WorkerStep(step) {
      WorkersKeepPermits(s, step);
    } else {
      AcceptorLeavesWorkers(s, step);
    }
  }

  lemma WorkersKeepPermits(s: Server, step: Step)
    requires Enabled(s, step) && WorkerStep(step) && PermitsInv(s)
    ensures PermitsInv(Next(s, step))
  {
    match step
    case Lock(w) => TotalUpdate(s.workers, Busy, w, Receiving);
    case Receive(w) => TotalUpdate(s.workers, Busy, w, Next(s, step).workers[w]);
    case HandlerReturns(w) => TotalUpdate(s.workers, Busy, w, Finishing(s.workers[w].job));
    case GiveBack(w) => TotalUpdate(s.workers, Busy, w, Waiting);
  }

  lemma KeepsOrder(s: Server, step: Step)
    requires Enabled(s, step) && InOrder(s.sent, s.taken, s.queue)
    ensures var t := Next(s, step); InOrder(t.sent, t.taken, t.queue)
  {
  }

  lemma KeepsRunOnce(s: Server, step: Step)
    requires Enabled(s, step) && RunOnce(s.taken, s.finished, s.workers)
    ensures var t := Next(s, step); RunOnce(t.taken, t.finished, t.workers)
  {
    if WorkerStep(step) {
      WorkersRunOnce(s, step);
    } else {
      AcceptorLeavesWorkers(s, step);
    }
  }

  lemma WorkersRunOnce(s: Server, step: Step)
    requires Enabled(s, step) && WorkerStep(step) && RunOnce(s.taken, s.finished, s.workers)
    ensures var t := Next(s, step); RunOnce(t.taken, t.finished, t.workers)
  {
    match step
    case Lock(w) => SameHeld(s.workers, w, Receiving);
    case Receive(w) =>
      if s.queue == [] {
        SameHeld(s.workers, w, Exited);
      } else {
        TakingHolds(s.taken, s.finished, s.workers, w, s.queue[0]);
      }
    case HandlerReturns(w) => SameHeld(s.workers, w, Finishing(s.workers[w].job));
    case GiveBack(w) => FinishingLets(s.taken, s.finished, s.workers, w);
  }

  lemma SameHeld(workers: seq<Worker>, w: nat, next: Worker)
    requires w < |workers| && HeldBy(next) == HeldBy(workers[w])
    ensures Held(workers[w := next]) == Held(workers)
  {
    HeldUpdate(workers, w, next);
    var before, after, one := Held(workers), Held(workers[w := next]), HeldBy(next);
    assert (after + one) - one == after && (before + one) - one == before;
  }

  lemma TakingHolds(taken: seq<Job>, finished: seq<Job>, workers: seq<Worker>, w: nat, job: Job)
    requires w < |workers| && workers[w] == Receiving
    requires RunOnce(taken, finished, workers)
    ensures RunOnce(taken + [job], finished, workers[w := Running(job)])
  {
    HeldUpdate(workers, w, Running(job));
    assert Held(workers[w := Running(job)]) == Held(workers) + multiset{job};
  }

  lemma FinishingLets(taken: seq<Job>, finished: seq<Job>, workers: seq<Worker>, w: nat)
    requires w < |workers| && workers[w].Finishing?
    requires RunOnce(taken, finished, workers)
    ensures RunOnce(taken, finished + [workers[w].job], workers[w := Waiting])
  {
    HeldUpdate(workers, w, Waiting);
    var now, job := Held(workers[w := Waiting]), multiset{workers[w].job};
    assert Held(workers) + multiset{} == Held(workers);
    TakeFromBoth(multiset(taken), multiset(finished), Held(workers), now, job);
    assert multiset(finished + [workers[w].job]) == multiset(finished) + job;
  }

  lemma WorkersLeaveAcceptor(s: Server, step: Step)
    requires Enabled(s, step) && WorkerStep(step)
    ensures var t := Next(s, step);
            && t.acceptor == s.acceptor && t.senderAlive == s.senderAlive && t.maxConnections == s.maxConnections
            && t.pollsSignal == s.pollsSignal && t.stop == s.stop
            && t.accepted == s.accepted && t.sent == s.sent && t.refused == s.refused
            && |t.workers| == |s.workers|
  {
  }

  lemma KeepsPool(s: Server, step: Step)
    requires Enabled(s, step) && PoolInv(s)
    ensures PoolInv(Next(s, step))
  {
    if WorkerStep(step) {
      WorkersKeepPool(s, step);
    } else {
      AcceptorKeepsPool(s, step);
    }
  }

  lemma AcceptorKeepsPool(s: Server, step: Step)
    requires Enabled(s, step) && !WorkerStep(step) && PoolInv(s)
    ensures PoolInv(Next(s, step))
  {
    AcceptorLeavesWorkers(s, step);
  }

  lemma WorkersKeepPool(s: Server, step: Step)
    requires Enabled(s, step) && WorkerStep(step) && PoolInv(s)
    ensures PoolInv(Next(s, step))
  {
    WorkersLeaveAcceptor(s, step);
    var w := WorkerOf(step);
    assert s.workers[w] != Exited;
    assert forall v :: 0 <= v < |s.workers| && v != w ==> Next(s, step).workers[v] == s.workers[v];
  }

  function WorkerOf(step: Step): nat
    requires WorkerStep(step)
  {
    match step
    case Lock(w) => w
    case Receive(w) => w
    case HandlerReturns(w) => w
    case GiveBack(w) => w
  }

  lemma HandSent(all: seq<Job>, a: seq<Job>, b: seq<Job>, job: Job)
    requires Partition(all, a, b, [job])
    ensures Partition(all, a + [job], b, [])
  {
    assert multiset(a + [job]) == multiset(a) + multiset([job]);
  }

  lemma HandRefused(all: seq<Job>, a: seq<Job>, b: seq<Job>, job: Job)
    requires Partition(all, a, b, [job])
    ensures Partition(all, a, b + [job], [])
  {
    assert multiset(b + [job]) == multiset(b) + multiset([job]);
  }

  lemma HandTaken(all: seq<Job>, a: seq<Job>, b: seq<Job>, job: Job)
    requires Partition(all, a, b, [])
    ensures Partition(all + [job], a, b, [job])
  {
    assert multiset(all + [job]) == multiset(all) + multiset([job]);
  }

  lemma SendKeepsEachOnce(s: Server)
    requires s.acceptor.Sending? && PoolInv(s) && EachOnce(s)
    ensures EachOnce(Next(s, Send))
  {
    SendNeverFails(s);
    HandSent(s.accepted, s.sent, s.refused, s.acceptor.job);
  }

  lemma UndoKeepsEachOnce(s: Server)
    requires s.acceptor.Undoing? && EachOnce(s)
    ensures EachOnce(Next(s, UndoPermit))
  {
    HandRefused(s.accepted, s.sent, s.refused, s.acceptor.job);
  }

  lemma AcceptKeepsEachOnce(s: Server, job: Job)
    requires s.acceptor == Accepting && EachOnce(s)
    ensures EachOnce(Next(s, TryAccept(Accepted(job))))
  {
    HandTaken(s.accepted, s.sent, s.refused, job);
  }

  lemma KeepsEachOnce(s: Server, step: Step)
    requires Enabled(s, step) && PoolInv(s) && EachOnce(s)
    ensures EachOnce(Next(s, step))
  {
    if WorkerStep(step) {
      WorkersLeaveAcceptor(s, step);
    } else if step.Send? {
      SendKeepsEachOnce(s);
    } else if step.UndoPermit? {
      UndoKeepsEachOnce(s);
    } else if step.TryAccept? && step.result.Accepted? {
      AcceptKeepsEachOnce(s, step.result.job);
    } else {
      KeepsHand(s, step);
    }
  }

  lemma KeepsHand(s: Server, step: Step)
    requires Enabled(s, step) && !WorkerStep(step) && !step.Send? && !step.UndoPermit?
    requires !(step.TryAccept? && step.result.Accepted?)
    ensures var t := Next(s, step);
            && t.accepted == s.accepted && t.sent == s.sent && t.refused == s.refused
            && HandOf(t.acceptor) == HandOf(s.acceptor)
  {
  }

  lemma KeepsOneReceiver(s: Server, step: Step)
    requires Enabled(s, step) && OneReceiver(s.workers)
    ensures OneReceiver(Next(s, step).workers)
  {
  }

  lemma StepKeepsInv(s: Server, step: Step)
    requires Enabled(s, step) && Inv(s)
    ensures Inv(Next(s, step))
  {
    KeepsPermits(s, step);
    KeepsOrder(s, step);
    KeepsRunOnce(s, step);
    KeepsPool(s, step);
    KeepsOneReceiver(s, step);
    KeepsEachOnce(s, step);
    KeepsShutdown(s, step);
  }

  lemma {:induction false} BusyIsCounted(workers: seq<Worker>, w: nat)
    requires w < |workers|
    ensures Total(workers, Busy) >= Busy(workers[w])
  {
    if w > 0 { BusyIsCounted(workers[1..], w - 1); }
  }

  lemma KeepsShutdown(s: Server, step: Step)
    requires Enabled(s, step) && PermitsInv(s) && ShutdownInv(s)
    ensures ShutdownInv(Next(s, step))
  {
    if WorkerStep(step) {
      WorkersLeaveAcceptor(s, step);
      if step.GiveBack? { BusyIsCounted(s.workers, step.w); }
    }
  }

  lemma {:induction false} RunKeepsInv(s: Server, steps: seq<Step>)
    requires CanRun(s, steps) && Inv(s)
    ensures Inv(Run(s, steps))
    decreases |steps|
  {
    if steps != [] {
      StepKeepsInv(s, steps[0]);
      RunKeepsInv(Next(s, steps[0]), steps[1..]);
    }
  }

  // ---------------------------------------------------------------------------------------------
  // Safety
  // ---------------------------------------------------------------------------------------------

  /**
   In every interleaving: never more than `max_connections` jobs queued or running, jobs leave the
   channel first in first out, every job sent is queued, running or finished, and every accepted
   connection is refused, sent or in the acceptor's hand, exactly once.
   */
  lemma EveryInterleavingIsSafe(maxConnections: nat, size: nat, pollsSignal: bool, steps: seq<Step>)
    requires CanRun(Init(maxConnections, size, pollsSignal), steps)
    ensures var s := Run(Init(maxConnections, size, pollsSignal), steps);
            && Load(s) <= maxConnections && |s.workers| == (if size == 0 then 1 else size)
            && s.sent == s.taken + s.queue
            && multiset(s.sent) == multiset(s.queue) + Held(s.workers) + multiset(s.finished)
            && multiset(s.accepted) == multiset(s.sent) + multiset(s.refused) + multiset(HandOf(s.acceptor))
  {
    InitInv(maxConnections, size, pollsSignal);
    RunKeepsInv(Init(maxConnections, size, pollsSignal), steps);
    RunKeepsLimit(Init(maxConnections, size, pollsSignal), steps);
  }

  lemma {:induction false} RunKeepsLimit(s: Server, steps: seq<Step>)
    requires CanRun(s, steps)
    ensures var t := Run(s, steps);
            t.maxConnections == s.maxConnections && t.pollsSignal == s.pollsSignal && |t.workers| == |s.workers|
    decreases |steps|
  {
    if steps != [] {
      StepKeepsLimit(s, steps[0]);
      RunKeepsLimit(Next(s, steps[0]), steps[1..]);
    }
  }

  lemma StepKeepsLimit(s: Server, step: Step)
    requires Enabled(s, step)
    ensures var t := Next(s, step);
            t.maxConnections == s.maxConnections && t.pollsSignal == s.pollsSignal && |t.workers| == |s.workers|
  {
    if WorkerStep(step) { WorkersLeaveAcceptor(s, step); } else { AcceptorLeavesWorkers(s, step); }
  }

  /**
   However `run_internal` returns, through the shutdown signal or an error, every job ever sent has run
   to its end exactly once, no worker is left and no permit is out.
   */
  lemma ReturnsDrained(maxConnections: nat, size: nat, pollsSignal: bool, steps: seq<Step>)
    requires CanRun(Init(maxConnections, size, pollsSignal), steps)
    requires Run(Init(maxConnections, size, pollsSignal), steps).acceptor.Returned?
    ensures var s := Run(Init(maxConnections, size, pollsSignal), steps);
            && s.queue == [] && s.active == 0
            && ExitedUpTo(s.workers, |s.workers|)
            && multiset(s.finished) == multiset(s.sent) && s.taken == s.sent
            && multiset(s.accepted) == multiset(s.finished) + multiset(s.refused)
            && (s.acceptor.ok ==> pollsSignal && s.stop)
  {
    InitInv(maxConnections, size, pollsSignal);
    RunKeepsInv(Init(maxConnections, size, pollsSignal), steps);
    AllIdle(Run(Init(maxConnections, size, pollsSignal), steps).workers);
    RunKeepsLimit(Init(maxConnections, size, pollsSignal), steps);
  }

  /** A connection is turned away exactly when as many jobs as allowed are queued or running. */
  lemma RefusedIffFull(s: Server)
    requires Inv(s) && s.acceptor.Counting?
    ensures Next(s, TakePermit).acceptor.Undoing? <==> Load(s) == s.maxConnections
  {
  }

  /** The channel's receiver outlives its sender, so sending a job never fails. */
  lemma SendNeverFails(s: Server)
    requires PoolInv(s) && s.acceptor.Sending?
    ensures var t := Next(s, Send);
            && t.acceptor == Checking && t.active == s.active
            && t.queue == s.queue + [s.acceptor.job] && t.sent == s.sent + [s.acceptor.job]
            && t.accepted == s.accepted && t.refused == s.refused
  {
    assert s.workers[0] != Exited;
  }

  // ---------------------------------------------------------------------------------------------
  // The drain ends
  // ---------------------------------------------------------------------------------------------

  predicate Leaving(a: Acceptor) {
    a == Draining || a.Dropping? || a.Joining? || a.Returned?
  }

  function Ahead(w: Worker): nat {
    match w
    case Running(_) => 4
    case Finishing(_) => 3
    case Waiting => 2
    case Receiving => 1
    case Exited => 0
  }

  function StagesLeft(a: Acceptor, workers: nat): nat {
    match a
    case Accepting => workers + 11
    case Counting(_) => workers + 10
    case Sending(_) => workers + 9
    case Undoing(_) => workers + 5
    case Starting => workers + 5
    case Checking => workers + 4
    case Draining => workers + 3
    case Dropping(_) => workers + 2
    case Joining(_, k) => if k <= workers then workers + 1 - k else 1
    case Returned(_) => 0
  }

  function Effort(s: Server): nat {
    4 * |s.queue| + Total(s.workers, Ahead) + StagesLeft(s.acceptor, |s.workers|)
  }

  /** A poll that finds permits still out, or a repeated request to stop. */
  predicate Idle(s: Server, step: Step) {
    step == Stop || (step == CheckDrained && s.active > 0)
  }

  /** The loop has been left, or it has been asked to stop and will see that. */
  predicate Stopping(s: Server) {
    Leaving(s.acceptor) || (s.pollsSignal && s.stop)
  }

  /** From then on every step that is not idle brings the return closer. */
  lemma DrainStepsShrinkEffort(s: Server, step: Step)
    requires Inv(s) && Stopping(s) && Enabled(s, step) && !Idle(s, step)
    ensures Stopping(Next(s, step)) && Effort(Next(s, step)) < Effort(s)
  {
    if WorkerStep(step) {
      WorkersShrinkEffort(s, step);
      WorkersLeaveAcceptor(s, step);
    } else if step.Send? {
      SendNeverFails(s);
    } else {
      AcceptorLeavesWorkers(s, step);
      StageShrinks(s, step);
    }
  }

  lemma StageShrinks(s: Server, step: Step)
    requires PoolInv(s) && Stopping(s) && Enabled(s, step)
    requires !WorkerStep(step) && !step.Send? && !Idle(s, step)
    ensures var t := Next(s, step);
            && Stopping(t) && t.queue == s.queue
            && StagesLeft(t.acceptor, |s.workers|) < StagesLeft(s.acceptor, |s.workers|)
  {
  }

  lemma WorkersShrinkEffort(s: Server, step: Step)
    requires Enabled(s, step) && WorkerStep(step)
    ensures Next(s, step).acceptor == s.acceptor && Effort(Next(s, step)) < Effort(s)
  {
    WorkersLeaveAcceptor(s, step);
    var w := WorkerOf(step);
    var t := Next(s, step);
    assert t.workers == s.workers[w := t.workers[w]];
    TotalUpdate(s.workers, Ahead, w, t.workers[w]);
  }

  function Moves(s: Server, steps: seq<Step>): nat
    requires CanRun(s, steps)
    decreases |steps|
  {
    if steps == [] then 0
    else if Idle(s, steps[0]) then Moves(Next(s, steps[0]), steps[1..])
    else 1 + Moves(Next(s, steps[0]), steps[1..])
  }

  /** So a stop request, or an error, is followed by a bounded number of steps, however the threads interleave. */
  lemma {:induction false} DrainIsBounded(s: Server, steps: seq<Step>)
    requires CanRun(s, steps) && Inv(s) && Stopping(s)
    ensures Stopping(Run(s, steps))
    ensures Moves(s, steps) + Effort(Run(s, steps)) <= Effort(s)
    decreases |steps|
  {
    if steps != [] {
      StopStep(s, steps[0]);
      DrainIsBounded(Next(s, steps[0]), steps[1..]);
    }
  }

  lemma StopStep(s: Server, step: Step)
    requires Inv(s) && Stopping(s) && Enabled(s, step)
    ensures var t := Next(s, step);
            && Inv(t) && Stopping(t)
            && Effort(t) + (if Idle(s, step) then 0 else 1) <= Effort(s)
  {
    StepKeepsInv(s, step);
    if Idle(s, step) { IdleKeepsEffort(s, step); } else { DrainStepsShrinkEffort(s, step); }
  }

  lemma IdleKeepsEffort(s: Server, step: Step)
    requires Stopping(s) && Enabled(s, step) && Idle(s, step)
    ensures Stopping(Next(s, step)) && Effort(Next(s, step)) == Effort(s)
  {
    var t := Next(s, step);
    assert t.queue == s.queue && t.workers == s.workers && t.acceptor == s.acceptor;
  }

  /** Until it has returned, some step that is not idle can be taken: neither loop nor drain can deadlock. */
  lemma DrainNeverStuck(s: Server) returns (step: Step)
    requires Inv(s) && Stopping(s) && !s.acceptor.Returned?
    ensures Enabled(s, step) && !Idle(s, step)
  {
    if !Leaving(s.acceptor) {
      return match s.acceptor
        case Starting => Start(true)
        case Checking => CheckSignal
        case Accepting => TryAccept(WouldBlock)
        case Counting(_) => TakePermit
        case Undoing(_) => UndoPermit
        case _ => Send;
    }
    if s.acceptor == Draining && s.active == 0 {
      return CheckDrained;
    } else if s.acceptor.Dropping? {
      return DropSender;
    } else if s.acceptor.Joining? && (s.acceptor.k < |s.workers| ==> s.workers[s.acceptor.k] == Exited) {
      return Join;
    }
    step := SomeWorkerMoves(s);
  }

  /** Stopping can always be completed. */
  lemma {:induction false} StoppingCanReturn(s: Server) returns (steps: seq<Step>)
    requires Inv(s) && Stopping(s)
    ensures CanRun(s, steps) && Run(s, steps).acceptor.Returned?
    decreases Effort(s)
  {
    if s.acceptor.Returned? {
      steps := [];
    } else {
      var step := DrainNeverStuck(s);
      DrainStepsShrinkEffort(s, step);
      StepKeepsInv(s, step);
      var rest := StoppingCanReturn(Next(s, step));
      steps := [step] + rest;
      assert steps[1..] == rest;
    }
  }

  /** The accept loop is left only for a failed start, a failed accept, or a stop request seen at its head. */
  lemma LoopIsLeftIff(s: Server, step: Step)
    requires PoolInv(s) && Enabled(s, step) && !Leaving(s.acceptor)
    ensures Leaving(Next(s, step).acceptor) <==>
              step == Start(false) || step == TryAccept(Failed) || (step == CheckSignal && s.pollsSignal && s.stop)
    ensures Next(s, step).acceptor == Draining <==> step == CheckSignal && s.pollsSignal && s.stop
  {
    if WorkerStep(step) { WorkersLeaveAcceptor(s, step); }
    if step.Send? { SendNeverFails(s); }
  }

  /** What the acceptor may yet accept before it sees the request. */
  function Arriving(s: Server): nat {
    |s.accepted| + if s.acceptor == Accepting then 1 else 0
  }

  /** After a stop request at most one more connection is accepted, in any run. */
  lemma {:induction false} AtMostOneMore(s: Server, steps: seq<Step>)
    requires CanRun(s, steps) && Inv(s) && s.pollsSignal && s.stop
    ensures Arriving(Run(s, steps)) <= Arriving(s) && |Run(s, steps).accepted| <= |s.accepted| + 1
    decreases |steps|
  {
    if steps != [] {
      StopStepArrivals(s, steps[0]);
      StepKeepsInv(s, steps[0]);
      AtMostOneMore(Next(s, steps[0]), steps[1..]);
    }
  }

  lemma StopStepArrivals(s: Server, step: Step)
    requires Enabled(s, step) && s.pollsSignal && s.stop
    ensures var t := Next(s, step); Arriving(t) <= Arriving(s) && t.pollsSignal && t.stop
  {
    if WorkerStep(step) { WorkersLeaveAcceptor(s, step); }
  }

  lemma {:induction false} BusyWorker(workers: seq<Worker>) returns (w: nat)
    requires Total(workers, Busy) > 0
    ensures w < |workers| && Busy(workers[w]) == 1
  {
    if Busy(workers[0]) == 1 { return 0; }
    var later := BusyWorker(workers[1..]);
    return later + 1;
  }

  lemma SomeWorkerMoves(s: Server) returns (step: Step)
    requires Inv(s)
    requires (s.active > 0 && s.acceptor == Draining) || (s.acceptor.Joining? && !ExitedUpTo(s.workers, |s.workers|))
    ensures Enabled(s, step) && !Idle(s, step)
  {
    if w :| 0 <= w < |s.workers| && Busy(s.workers[w]) == 1 {
      return if s.workers[w].Running? then HandlerReturns(w) else GiveBack(w);
    }
    if Total(s.workers, Busy) > 0 {
      var w := BusyWorker(s.workers);
      assert false;
    }
    if ReceiverLocked(s.workers) {
      var w :| 0 <= w < |s.workers| && s.workers[w] == Receiving;
      return Receive(w);
    }
    var w :| 0 <= w < |s.workers| && s.workers[w] == Waiting;
    return Lock(w);
  }
}
