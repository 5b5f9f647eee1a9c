/**
 The guard stack with a SYN guard in it: what the guard hears from any interleaving of sessions, and
 so what its counts say about them.
 */
module HalfOpenSessions {
  import opened Net
  import opened GuardStack
  import SynGuard
  import SynLimits
  import Throttle

  /** The stack, and every call its guard at position `syn` has heard so far. */
  datatype Traced = Traced(stack: World, heard: seq<SynGuard.Op>)

  datatype Move = Move(action: Action, now: Instant)

  datatype Heard = Nothing | Heard(op: SynGuard.Op)

  /** What the guard hears of an action. */
  function HeardOf(w: World, a: Action, syn: nat, now: Instant): Heard
    requires GuardStack.Enabled(w, a)
  {
    match a
    case AskReserve(id, _) =>
      if w.sessions[id].life.next == syn then Heard(SynGuard.Reserving(w.sessions[id].addr, now)) else Nothing
    case RollBackOne(id) =>
      if w.sessions[id].life.left - 1 == syn then Heard(SynGuard.Closing(w.sessions[id].addr)) else Nothing
    case CloseOne(id) =>
      if w.sessions[id].life.next == syn then Heard(SynGuard.Closing(w.sessions[id].addr)) else Nothing
    case TellOne(id, _) =>
      if w.sessions[id].est.next == syn then Heard(SynGuard.Establishing(w.sessions[id].addr)) else Nothing
    case _ => Nothing
  }

  /**
   A peer address is used again only after its last session has ended, and no session is established
   once it closes.
   */
  predicate Orderly(w: World, a: Action) {
    match a
    case Arrive(_, addr) =>
      forall id :: id in w.sessions && w.sessions[id].addr == addr ==> Finished(w.sessions[id].life)
    case TellOne(id, _) => id in w.sessions && w.sessions[id].life.Open?
    case _ => true
  }

  /** The guard answers for itself. */
  predicate Enabled(t: Traced, syn: nat, cfg: SynGuard.Config, m: Move) {
    && GuardStack.Enabled(t.stack, m.action) && Orderly(t.stack, m.action)
    && var h := HeardOf(t.stack, m.action, syn, m.now);
       h.Heard? && m.action.AskReserve? ==> m.action.ok == SynGuard.Accepts(SynGuard.Run(cfg, t.heard), cfg, h.op)
  }

  function Step(t: Traced, syn: nat, m: Move): Traced
    requires GuardStack.Enabled(t.stack, m.action)
  {
    var h := HeardOf(t.stack, m.action, syn, m.now);
    Traced(GuardStack.Step(t.stack, m.action), if h.Heard? then t.heard + [h.op] else t.heard)
  }

  /** Any sequence of moves; one that is not enabled has no effect. */
  function Run(start: World, syn: nat, cfg: SynGuard.Config, moves: seq<Move>): Traced {
    if moves == [] then Traced(start, [])
    else
      var before, m := Run(start, syn, cfg, moves[..|moves| - 1]), moves[|moves| - 1];
      if Enabled(before, syn, cfg, m) then Step(before, syn, m) else before
  }

  // ---------------------------------------------------------------------------------------------
  // Where each session stands with the guard
  // ---------------------------------------------------------------------------------------------

  datatype Side = Away | HalfOpen | Settled

  function SideOf(size: nat, syn: nat, s: Session): Side {
    if !Owes(size, s.life, syn) then Away
    else if syn < CallsOf(s.est) then Settled
    else HalfOpen
  }

  /** The peer addresses of the sessions on one side. */
  function On(w: World, syn: nat, side: Side): set<SocketAddr> {
    set id | id in w.sessions && SideOf(w.size, syn, w.sessions[id]) == side :: w.sessions[id].addr
  }

  predicate UniquePeers(w: World) {
    forall i, j :: i in w.sessions && j in w.sessions && i != j && w.sessions[i].addr == w.sessions[j].addr ==>
      Finished(w.sessions[i].life) || Finished(w.sessions[j].life)
  }

  predicate NotYetWhileReserving(w: World) {
    forall id :: id in w.sessions && w.sessions[id].life.Reserving? ==> w.sessions[id].est.NotYet?
  }

  function Actual(w: World, syn: nat): SynGuard.Sessions {
    SynGuard.Sessions(On(w, syn, HalfOpen), On(w, syn, Settled))
  }

  ghost predicate Follows(t: Traced, syn: nat, cfg: SynGuard.Config) {
    && UniquePeers(t.stack) && NotYetWhileReserving(t.stack)
    && SynGuard.LegalRun(cfg, t.heard)
    && SynGuard.SessionRun(cfg, t.heard) == Actual(t.stack, syn)
  }

  lemma FinishedIsAway(size: nat, syn: nat, s: Session)
    requires Finished(s.life)
    ensures SideOf(size, syn, s) == Away
  {
  }

  predicate AloneAt(w: World, id: SessionId, addr: SocketAddr) {
    forall j :: j in w.sessions && j != id && w.sessions[j].addr == addr ==> Finished(w.sessions[j].life)
  }

  lemma MovedOn(w: World, w': World, id: SessionId, syn: nat, side: Side)
    requires ChangesOnly(w, w', id) && AloneAt(w, id, w'.sessions[id].addr) && side != Away
    ensures var addr, here := w'.sessions[id].addr, SideOf(w.size, syn, w'.sessions[id]) == side;
            On(w', syn, side) == On(w, syn, side) - {addr} + if here then {addr} else {}
  {
    var addr := w'.sessions[id].addr;
    forall a | a in On(w, syn, side) && a != addr ensures a in On(w', syn, side) {
      var j :| j in w.sessions && SideOf(w.size, syn, w.sessions[j]) == side && w.sessions[j].addr == a;
      assert w'.sessions[j] == w.sessions[j];
    }
  }

  lemma StaysOn(w: World, w': World, id: SessionId, syn: nat, side: Side)
    requires ChangesOnly(w, w', id) && side != Away
    requires SideOf(w.size, syn, w'.sessions[id])
          == if id in w.sessions then SideOf(w.size, syn, w.sessions[id]) else Away
    ensures On(w', syn, side) == On(w, syn, side)
  {
    forall a | a in On(w, syn, side) ensures a in On(w', syn, side) {
      var j :| j in w.sessions && SideOf(w.size, syn, w.sessions[j]) == side && w.sessions[j].addr == a;
      assert SideOf(w.size, syn, w'.sessions[j]) == side && w'.sessions[j].addr == a;
    }
    forall a | a in On(w', syn, side) ensures a in On(w, syn, side) {
      var j :| j in w'.sessions && SideOf(w.size, syn, w'.sessions[j]) == side && w'.sessions[j].addr == a;
      assert j in w.sessions && SideOf(w.size, syn, w.sessions[j]) == side && w.sessions[j].addr == a;
    }
  }

  // ---------------------------------------------------------------------------------------------
  // One move
  // ---------------------------------------------------------------------------------------------

  lemma StepKeepsFinished(w: World, a: Action, id: SessionId)
    requires GuardStack.Enabled(w, a) && id in w.sessions && Finished(w.sessions[id].life)
    ensures var t := GuardStack.Step(w, a); id in t.sessions && Finished(t.sessions[id].life)
  {
  }

  lemma StepKeepsUnique(w: World, a: Action)
    requires GuardStack.Enabled(w, a) && Orderly(w, a) && UniquePeers(w)
    ensures UniquePeers(GuardStack.Step(w, a))
  {
    if !a.SetAllowlist? {
      StepChangesOnly(w, a);
      if a.id in w.sessions && Finished(w.sessions[a.id].life) { StepKeepsFinished(w, a, a.id); }
    }
  }

  lemma StepKeepsNotYet(w: World, a: Action)
    requires GuardStack.Enabled(w, a) && NotYetWhileReserving(w)
    ensures NotYetWhileReserving(GuardStack.Step(w, a))
  {
  }

  /** An action the guard does not hear leaves its session on its side. */
  lemma UnheardKeepsSide(w: World, a: Action, syn: nat, now: Instant)
    requires GuardStack.Enabled(w, a) && !a.SetAllowlist? && HeardOf(w, a, syn, now).Nothing?
    ensures SideOf(w.size, syn, GuardStack.Step(w, a).sessions[a.id])
         == if a.id in w.sessions then SideOf(w.size, syn, w.sessions[a.id]) else Away
  {
  }

  lemma UnheardKeepsActual(w: World, a: Action, syn: nat, now: Instant)
    requires GuardStack.Enabled(w, a) && HeardOf(w, a, syn, now).Nothing?
    ensures Actual(GuardStack.Step(w, a), syn) == Actual(w, syn)
  {
    if !a.SetAllowlist? {
      StepChangesOnly(w, a);
      UnheardKeepsSide(w, a, syn, now);
      StaysOn(w, GuardStack.Step(w, a), a.id, syn, HalfOpen);
      StaysOn(w, GuardStack.Step(w, a), a.id, syn, Settled);
    }
  }

  /** What the guard hears, the session's side before and after. */
  lemma HeardMovesSide(w: World, a: Action, syn: nat, now: Instant)
    requires GuardStack.Enabled(w, a) && Orderly(w, a) && NotYetWhileReserving(w) && HeardOf(w, a, syn, now).Heard?
    ensures !a.SetAllowlist? && a.id in w.sessions && !Finished(w.sessions[a.id].life)
    ensures var op := HeardOf(w, a, syn, now).op;
            var before := SideOf(w.size, syn, w.sessions[a.id]);
            var after := SideOf(w.size, syn, GuardStack.Step(w, a).sessions[a.id]);
            && op.addr == w.sessions[a.id].addr
            && (op.Reserving? ==> a.AskReserve? && before == Away && after == if a.ok then HalfOpen else Away)
            && (op.Establishing? ==> before == HalfOpen && after == Settled)
            && (op.Closing? ==> before != Away && after == Away)
  {
  }

  /** The acting session is the only one at its address that the guard can know. */
  lemma OwnSide(w: World, id: SessionId, syn: nat, side: Side)
    requires id in w.sessions && AloneAt(w, id, w.sessions[id].addr) && side != Away
    ensures w.sessions[id].addr in On(w, syn, side) <==> SideOf(w.size, syn, w.sessions[id]) == side
  {
    var addr := w.sessions[id].addr;
    if addr in On(w, syn, side) {
      var j :| j in w.sessions && SideOf(w.size, syn, w.sessions[j]) == side && w.sessions[j].addr == addr;
      if j != id { FinishedIsAway(w.size, syn, w.sessions[j]); }
    }
  }

  lemma HeardIsLegal(w: World, a: Action, syn: nat, now: Instant)
    requires GuardStack.Enabled(w, a) && Orderly(w, a) && NotYetWhileReserving(w) && UniquePeers(w)
    requires HeardOf(w, a, syn, now).Heard?
    ensures SynGuard.Legal(Actual(w, syn), HeardOf(w, a, syn, now).op)
  {
    HeardMovesSide(w, a, syn, now);
    OwnSide(w, a.id, syn, HalfOpen);
    OwnSide(w, a.id, syn, Settled);
  }

  lemma HeardMovesActual(w: World, a: Action, syn: nat, now: Instant)
    requires GuardStack.Enabled(w, a) && Orderly(w, a) && NotYetWhileReserving(w) && UniquePeers(w)
    requires HeardOf(w, a, syn, now).Heard?
    ensures Actual(GuardStack.Step(w, a), syn)
         == SynGuard.SessionStep(Actual(w, syn), HeardOf(w, a, syn, now).op, a.AskReserve? && a.ok)
  {
    HeardMovesSide(w, a, syn, now);
    StepChangesOnly(w, a);
    OwnSide(w, a.id, syn, HalfOpen);
    OwnSide(w, a.id, syn, Settled);
    MovedOn(w, GuardStack.Step(w, a), a.id, syn, HalfOpen);
    MovedOn(w, GuardStack.Step(w, a), a.id, syn, Settled);
  }

  lemma StepFollows(t: Traced, syn: nat, cfg: SynGuard.Config, m: Move)
    requires Follows(t, syn, cfg) && Enabled(t, syn, cfg, m)
    ensures Follows(Step(t, syn, m), syn, cfg)
  {
    StepKeepsUnique(t.stack, m.action);
    StepKeepsNotYet(t.stack, m.action);
    var h := HeardOf(t.stack, m.action, syn, m.now);
    if h.Nothing? {
      UnheardKeepsActual(t.stack, m.action, syn, m.now);
    } else {
      HeardMovesSide(t.stack, m.action, syn, m.now);
      HeardIsLegal(t.stack, m.action, syn, m.now);
      HeardMovesActual(t.stack, m.action, syn, m.now);
      assert (t.heard + [h.op])[..|t.heard|] == t.heard;
    }
  }

  // ---------------------------------------------------------------------------------------------
  // Whole runs
  // ---------------------------------------------------------------------------------------------

  /**
   In every interleaving, rollback closes included, the guard hears a legal run, and the sessions it
   takes for half open and established are exactly those that are.
   */
  lemma {:induction false} GuardHearsLegalRun(size: nat, at: nat, limits: Throttle.Config, syn: nat,
                                              cfg: SynGuard.Config, moves: seq<Move>)
    ensures Follows(Run(Start(size, at, limits), syn, cfg, moves), syn, cfg)
  {
    var start := Start(size, at, limits);
    if moves == [] {
      assert On(start, syn, HalfOpen) == {} && On(start, syn, Settled) == {};
    } else {
      var before, m := Run(start, syn, cfg, moves[..|moves| - 1]), moves[|moves| - 1];
      GuardHearsLegalRun(size, at, limits, syn, cfg, moves[..|moves| - 1]);
      if Enabled(before, syn, cfg, m) { StepFollows(before, syn, cfg, m); }
    }
  }

  lemma GuardCountsHalfOpenPeers(size: nat, at: nat, limits: Throttle.Config, syn: nat, cfg: SynGuard.Config,
                                 moves: seq<Move>, ip: IpAddr)
    requires cfg.maxTracked <= USIZE_MAX
    ensures var t := Run(Start(size, at, limits), syn, cfg, moves);
            var s, open := SynGuard.Run(cfg, t.heard), On(t.stack, syn, HalfOpen);
            && s.total <= |open| && CountOf(s.perIp, ip) <= |SynGuard.At(open, ip)|
            && (SynGuard.EvictionFree(cfg, t.heard) ==>
                  s.total == |open| && CountOf(s.perIp, ip) == |SynGuard.At(open, ip)|)
            && (SynLimits.Adequate(cfg) ==>
                  && SynGuard.EvictionFree(cfg, t.heard)
                  && |open| <= cfg.maxGlobal && |SynGuard.At(open, ip)| <= cfg.maxPerIp)
  {
    GuardHearsLegalRun(size, at, limits, syn, cfg, moves);
    var heard := Run(Start(size, at, limits), syn, cfg, moves).heard;
    SynGuard.AccountsAreOneSided(cfg, heard);
    if SynLimits.Adequate(cfg) {
      SynLimits.AdequateNeverEvicts(cfg, heard);
      SynGuard.LimitsHoldWithoutEviction(cfg, heard, ip);
    }
  }

  // ---------------------------------------------------------------------------------------------
  // Counting sessions
  // ---------------------------------------------------------------------------------------------

  predicate HalfOpenAt(w: World, syn: nat, id: SessionId, ip: Option<IpAddr>)
    requires id in w.sessions
  {
    SideOf(w.size, syn, w.sessions[id]) == HalfOpen && (ip.None? || w.sessions[id].addr.ip == ip.value)
  }

  /** The half-open sessions, of one address or of any. */
  function HalfOpenIds(w: World, syn: nat, ip: Option<IpAddr>): set<SessionId> {
    set id | id in w.sessions && HalfOpenAt(w, syn, id, ip)
  }

  function PeersOf(w: World, ids: set<SessionId>): set<SocketAddr>
    requires ids <= w.sessions.Keys
  {
    set id | id in ids :: w.sessions[id].addr
  }

  ghost predicate DifferentPeers(w: World, ids: set<SessionId>)
    requires ids <= w.sessions.Keys
  {
    forall i, j :: i in ids && j in ids && w.sessions[i].addr == w.sessions[j].addr ==> i == j
  }

  lemma {:induction false} AsManyPeers(w: World, ids: set<SessionId>)
    requires ids <= w.sessions.Keys && DifferentPeers(w, ids)
    ensures |PeersOf(w, ids)| == |ids|
    decreases |ids|
  {
    if ids != {} {
      var id :| id in ids;
      AsManyPeers(w, ids - {id});
      assert PeersOf(w, ids) == PeersOf(w, ids - {id}) + {w.sessions[id].addr};
      assert w.sessions[id].addr !in PeersOf(w, ids - {id});
    }
  }

  /** With unique peers, sessions and the peer addresses the guard knows are equally many. */
  lemma SessionsArePeers(w: World, syn: nat, ip: IpAddr)
    requires UniquePeers(w)
    ensures |HalfOpenIds(w, syn, None)| == |On(w, syn, HalfOpen)|
    ensures |HalfOpenIds(w, syn, Some(ip))| == |SynGuard.At(On(w, syn, HalfOpen), ip)|
  {
    HalfOpenDiffer(w, syn, None);
    HalfOpenDiffer(w, syn, Some(ip));
    AsManyPeers(w, HalfOpenIds(w, syn, None));
    AsManyPeers(w, HalfOpenIds(w, syn, Some(ip)));
    assert PeersOf(w, HalfOpenIds(w, syn, None)) == On(w, syn, HalfOpen);
    PeersAt(w, syn, ip);
  }

  lemma PeersAt(w: World, syn: nat, ip: IpAddr)
    ensures PeersOf(w, HalfOpenIds(w, syn, Some(ip))) == SynGuard.At(On(w, syn, HalfOpen), ip)
  {
    forall a | a in SynGuard.At(On(w, syn, HalfOpen), ip) ensures a in PeersOf(w, HalfOpenIds(w, syn, Some(ip))) {
      var id :| id in w.sessions && SideOf(w.size, syn, w.sessions[id]) == HalfOpen && w.sessions[id].addr == a;
      assert HalfOpenAt(w, syn, id, Some(ip));
    }
  }

  lemma HalfOpenDiffer(w: World, syn: nat, ip: Option<IpAddr>)
    requires UniquePeers(w)
    ensures DifferentPeers(w, HalfOpenIds(w, syn, ip))
  {
  }

  /**
   The guard's total and its count for each address never exceed the half-open sessions, and equal
   them if nothing was evicted; if the configuration is adequate nothing ever is, and its limits
   bound the sessions themselves.
   */
  lemma GuardCountsHalfOpenSessions(size: nat, at: nat, limits: Throttle.Config, syn: nat, cfg: SynGuard.Config,
                                    moves: seq<Move>, ip: IpAddr)
    requires cfg.maxTracked <= USIZE_MAX
    ensures var t := Run(Start(size, at, limits), syn, cfg, moves);
            var s := SynGuard.Run(cfg, t.heard);
            var all, own := |HalfOpenIds(t.stack, syn, None)|, |HalfOpenIds(t.stack, syn, Some(ip))|;
            && s.total <= all && CountOf(s.perIp, ip) <= own
            && (SynGuard.EvictionFree(cfg, t.heard) ==> s.total == all && CountOf(s.perIp, ip) == own)
            && (SynLimits.Adequate(cfg) ==>
                  SynGuard.EvictionFree(cfg, t.heard) && all <= cfg.maxGlobal && own <= cfg.maxPerIp)
  {
    GuardHearsLegalRun(size, at, limits, syn, cfg, moves);
    GuardCountsHalfOpenPeers(size, at, limits, syn, cfg, moves, ip);
    SessionsArePeers(Run(Start(size, at, limits), syn, cfg, moves).stack, syn, ip);
  }

  predicate Known(w: World, syn: nat, id: SessionId) {
    id in w.sessions && SideOf(w.size, syn, w.sessions[id]) != Away
  }

  /** Each peer address on a side is that of exactly one session there. */
  lemma OneSessionPerPeer(size: nat, at: nat, limits: Throttle.Config, syn: nat, cfg: SynGuard.Config,
                          moves: seq<Move>, i: SessionId, j: SessionId)
    requires Known(Run(Start(size, at, limits), syn, cfg, moves).stack, syn, i)
    requires Known(Run(Start(size, at, limits), syn, cfg, moves).stack, syn, j)
    ensures var w := Run(Start(size, at, limits), syn, cfg, moves).stack;
            w.sessions[i].addr == w.sessions[j].addr ==> i == j
  {
    GuardHearsLegalRun(size, at, limits, syn, cfg, moves);
  }
}
