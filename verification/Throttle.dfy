/**
 The connection throttle: one atomic global counter and one locked per-IP map, updated in separate
 steps and undone on refusal.  The class is the code run by one caller; the step system is the same
 code run by any number of callers, one atomic access at a time.
 */
module Throttle {
  import opened Net
  import opened Sets

  datatype Config = Config(maxPerIp: nat, maxGlobal: nat)

  predicate IpHasRoom(cfg: Config, perIp: Counts, ip: IpAddr) {
    CountOf(perIp, ip) + 1 <= cfg.maxPerIp
  }

  /** The locked region of `acquire`: a refusal leaves the entry it created, at its old count. */
  function CountUp(cfg: Config, perIp: Counts, ip: IpAddr): Counts {
    perIp[ip := CountOf(perIp, ip) + if IpHasRoom(cfg, perIp, ip) then 1 else 0]
  }

  /** The locked region of `release`. */
  function CountDown(perIp: Counts, ip: IpAddr): Counts {
    if ip !in perIp then perIp else if perIp[ip] > 1 then perIp[ip := perIp[ip] - 1] else perIp - {ip}
  }

  // ---------------------------------------------------------------------------------------------
  // One caller
  // ---------------------------------------------------------------------------------------------

  datatype Tally = Tally(global: nat, perIp: Counts)

  predicate Admits(cfg: Config, t: Tally, ip: IpAddr) {
    t.global + 1 <= cfg.maxGlobal && IpHasRoom(cfg, t.perIp, ip)
  }

  function Acquired(cfg: Config, t: Tally, ip: IpAddr): Tally {
    if t.global + 1 > cfg.maxGlobal then t
    else Tally(if IpHasRoom(cfg, t.perIp, ip) then t.global + 1 else t.global, CountUp(cfg, t.perIp, ip))
  }

  /** `AtomicUsize::fetch_sub(1)`, which wraps. */
  function WrappingPred(n: nat): nat {
    if n == 0 then USIZE_MAX else n - 1
  }

  function Released(t: Tally, ip: IpAddr): Tally {
    Tally(WrappingPred(t.global), CountDown(t.perIp, ip))
  }

  class Throttle {
    const cfg: Config
    var global: nat
    var perIp: Counts

    constructor (cfg: Config)
      ensures this.cfg == cfg && Now() == Tally(0, map[])
    {
      this.cfg := cfg;
      global, perIp := 0, map[];
    }

    ghost function Now(): Tally
      reads this
    {
      Tally(global, perIp)
    }

    method Acquire(ip: IpAddr) returns (ok: bool)
      modifies this
      ensures ok == Admits(cfg, old(Now()), ip)
      ensures Now() == Acquired(cfg, old(Now()), ip)
    {
      global := global + 1;
      if global > cfg.maxGlobal {
        global := global - 1;
        return false;
      }
      if ip !in perIp {
        perIp := perIp[ip := 0];
      }
      perIp := perIp[ip := perIp[ip] + 1];
      if perIp[ip] > cfg.maxPerIp {
        perIp := perIp[ip := perIp[ip] - 1];
        global := global - 1;
        return false;
      }
      return true;
    }

    method Release(ip: IpAddr)
      modifies this
      ensures Now() == Released(old(Now()), ip)
    {
      global := WrappingPred(global);
      if ip in perIp {
        if perIp[ip] > 1 {
          perIp := perIp[ip := perIp[ip] - 1];
        } else {
          perIp := perIp - {ip};
        }
      }
    }
  }

  /** On any counts at all, the one thing a release may not put back is a stored zero. */
  lemma ReleaseUndoesAcquire(cfg: Config, t: Tally, ip: IpAddr)
    requires Admits(cfg, t, ip)
    ensures Released(Acquired(cfg, t, ip), ip) == t <==> !(ip in t.perIp && t.perIp[ip] == 0)
  {
    var up := CountUp(cfg, t.perIp, ip);
    if ip !in t.perIp {
      assert up - {ip} == t.perIp;
    } else if t.perIp[ip] == 0 {
      assert ip !in up - {ip};
    } else {
      assert up[ip := t.perIp[ip]] == t.perIp;
    }
  }

  /** A refused call leaves the throttle as it was, except that a zero per-IP limit stores an entry. */
  lemma RefusalIsSilent(cfg: Config, t: Tally, ip: IpAddr)
    requires !Admits(cfg, t, ip)
    ensures Acquired(cfg, t, ip) == t <==> t.global + 1 > cfg.maxGlobal || ip in t.perIp || cfg.maxPerIp > 0
    ensures forall x :: CountOf(Acquired(cfg, t, ip).perIp, x) == CountOf(t.perIp, x)
    ensures Acquired(cfg, t, ip).global == t.global
  {
    if t.global + 1 <= cfg.maxGlobal && ip in t.perIp {
      assert CountUp(cfg, t.perIp, ip) == t.perIp;
    }
  }

  /** The refusal that leaves a trace: an entry that counts nothing. */
  lemma ZeroLimitLeavesTrace(ip: IpAddr)
    ensures !Admits(Config(0, 1), Tally(0, map[]), ip)
    ensures Acquired(Config(0, 1), Tally(0, map[]), ip) == Tally(0, map[ip := 0])
  {
  }

  datatype Call = Acquiring(ip: IpAddr) | Releasing(ip: IpAddr)

  function AfterCall(cfg: Config, t: Tally, call: Call): Tally {
    match call
    case Acquiring(ip) => Acquired(cfg, t, ip)
    case Releasing(ip) => Released(t, ip)
  }

  function AfterCalls(cfg: Config, calls: seq<Call>): Tally {
    if calls == [] then Tally(0, map[])
    else AfterCall(cfg, AfterCalls(cfg, calls[..|calls| - 1]), calls[|calls| - 1])
  }

  ghost predicate StoresNoZero(perIp: Counts) {
    forall ip :: ip in perIp ==> perIp[ip] > 0
  }

  /** Under a positive limit no sequence of calls, spurious releases included, ever stores a zero. */
  lemma {:induction false} CallsStoreNoZero(cfg: Config, calls: seq<Call>)
    requires cfg.maxPerIp > 0
    ensures StoresNoZero(AfterCalls(cfg, calls).perIp)
  {
    if calls != [] { CallsStoreNoZero(cfg, calls[..|calls| - 1]); }
  }

  /** So after any sequence of calls a release undoes an admitted acquire exactly. */
  lemma ReleaseAlwaysUndoesAcquire(cfg: Config, calls: seq<Call>, ip: IpAddr)
    requires Admits(cfg, AfterCalls(cfg, calls), ip)
    ensures AfterCalls(cfg, calls + [Acquiring(ip), Releasing(ip)]) == AfterCalls(cfg, calls)
  {
    var t := AfterCalls(cfg, calls);
    CallsStoreNoZero(cfg, calls);
    ReleaseUndoesAcquire(cfg, t, ip);
    var acquired := calls + [Acquiring(ip)];
    assert calls + [Acquiring(ip), Releasing(ip)] == acquired + [Releasing(ip)];
    assert acquired[..|calls|] == calls && (acquired + [Releasing(ip)])[..|acquired|] == acquired;
  }

  // ---------------------------------------------------------------------------------------------
  // Any number of callers
  // ---------------------------------------------------------------------------------------------

  type Caller = nat

  /** Where a connection's calls stand; the comment names the access it makes next. */
  datatype Phase =
    | Fresh(ip: IpAddr)         // fetch_add
    | Overflowed(ip: IpAddr)    // fetch_sub of a refused global claim
    | Counting(ip: IpAddr)      // lock and count
    | Refused(ip: IpAddr)       // fetch_sub of a refused per-IP claim, the lock still held
    | Admitted(ip: IpAddr)      // connection open; then fetch_sub of `release`
    | Uncounting(ip: IpAddr)    // lock and uncount
    | Gone(ip: IpAddr)

  /** `lock` is the caller that has stopped inside the locked region, if any. */
  datatype World = World(cfg: Config, global: int, perIp: Counts, lock: Option<Caller>, callers: map<Caller, Phase>)

  predicate Init(w: World) {
    w.global == 0 && w.perIp == map[] && w.lock == None && w.callers == map[]
  }

  function Move(w: World, c: Caller, p: Phase): World {
    w.(callers := w.callers[c := p])
  }

  /** A caller inside the locked region keeps every other caller out of the map. */
  predicate Enabled(w: World, c: Caller) {
    if c !in w.callers then true
    else match w.callers[c]
      case Counting(_) => w.lock.None?
      case Uncounting(_) => w.lock.None?
      case Gone(_) => false
      case _ => true
  }

  /** The next atomic access of caller `c`; a new caller arrives for `ip`. */
  function Advance(w: World, c: Caller, ip: IpAddr): World {
    if c !in w.callers then Move(w, c, Fresh(ip))
    else match w.callers[c]
      case Fresh(a) =>
        Move(w, c, if w.global + 1 > w.cfg.maxGlobal then Overflowed(a) else Counting(a)).(global := w.global + 1)
      case Overflowed(a) =>
        Move(w, c, Gone(a)).(global := w.global - 1)
      case Counting(a) =>
        (if IpHasRoom(w.cfg, w.perIp, a) then Move(w, c, Admitted(a)) else Move(w, c, Refused(a)).(lock := Some(c)))
          .(perIp := CountUp(w.cfg, w.perIp, a))
      case Refused(a) =>
        Move(w, c, Gone(a)).(global := w.global - 1, lock := None)
      case Admitted(a) =>
        Move(w, c, Uncounting(a)).(global := w.global - 1)
      case Uncounting(a) =>
        Move(w, c, Gone(a)).(perIp := CountDown(w.perIp, a))
      case Gone(_) => w
  }

  ghost predicate CallerStep(w: World, w': World, c: Caller, ip: IpAddr) {
    Enabled(w, c) && w' == Advance(w, c, ip)
  }

  ghost predicate Next(w: World, w': World) {
    exists c: Caller, ip: IpAddr :: CallerStep(w, w', c, ip)
  }

  /** Callers whose claim is included in the global counter. */
  predicate Claims(p: Phase) { p.Overflowed? || Slot(p) }

  /** Callers past the global check whose slot has not been given back. */
  predicate Slot(p: Phase) { p.Counting? || p.Refused? || p.Admitted? }

  /** Callers counted in the per-IP map. */
  predicate Counted(p: Phase) { p.Admitted? || p.Uncounting? }

  function Those(callers: map<Caller, Phase>, which: Phase -> bool): set<Caller> {
    set c | c in callers && which(callers[c])
  }

  function CountedFor(ip: IpAddr): Phase -> bool {
    (p: Phase) => Counted(p) && p.ip == ip
  }

  function Claiming(callers: map<Caller, Phase>): set<Caller> {
    Those(callers, Claims)
  }

  function Holding(callers: map<Caller, Phase>): set<Caller> {
    Those(callers, Slot)
  }

  function CountedAt(callers: map<Caller, Phase>, ip: IpAddr): set<Caller> {
    Those(callers, CountedFor(ip))
  }

  /** The global counter is exact and the slots behind it never exceed the limit. */
  ghost predicate GlobalInv(w: World) {
    w.global == |Claiming(w.callers)| && |Holding(w.callers)| <= w.cfg.maxGlobal
  }

  /** One per-IP count is exact, within its limit, and stored only while needed. */
  ghost predicate IpInv(w: World, ip: IpAddr) {
    && CountOf(w.perIp, ip) == |CountedAt(w.callers, ip)| <= w.cfg.maxPerIp
    && (w.cfg.maxPerIp > 0 && ip in w.perIp ==> w.perIp[ip] > 0)
  }

  ghost predicate LockInv(w: World) {
    forall c :: (c in w.callers && w.callers[c].Refused?) <==> w.lock == Some(c)
  }

  ghost predicate Inv(w: World) {
    GlobalInv(w) && LockInv(w) && forall ip :: IpInv(w, ip)
  }

  lemma MovedSize(callers: map<Caller, Phase>, c: Caller, p: Phase, which: Phase -> bool)
    ensures |Those(callers[c := p], which)|
         == |Those(callers, which)| - Bit(c in callers && which(callers[c])) + Bit(which(p))
  {
    ThoseMoved(callers, c, p, which);
    SizeSplit(Those(callers, which), c);
    SizeSplit(Those(callers[c := p], which), c);
  }

  lemma ThoseMoved(callers: map<Caller, Phase>, c: Caller, p: Phase, which: Phase -> bool)
    ensures Those(callers[c := p], which) - {c} == Those(callers, which) - {c}
    ensures c in Those(callers[c := p], which) <==> which(p)
  {
  }

  lemma StepKeepsGlobal(w: World, w': World, c: Caller, ip: IpAddr)
    requires GlobalInv(w) && CallerStep(w, w', c, ip)
    ensures GlobalInv(w')
  {
    MovedSize(w.callers, c, w'.callers[c], Claims);
    MovedSize(w.callers, c, w'.callers[c], Slot);
    SubsetSize(Holding(w.callers), Claiming(w.callers));
  }

  lemma StepKeepsIp(w: World, w': World, c: Caller, ip: IpAddr, at: IpAddr)
    requires IpInv(w, at) && CallerStep(w, w', c, ip)
    ensures IpInv(w', at)
  {
    MovedSize(w.callers, c, w'.callers[c], CountedFor(at));
    if c in w.callers && w.callers[c].Uncounting? && w.callers[c].ip == at {
      assert c in CountedAt(w.callers, at);
    }
  }

  lemma StepKeepsInv(w: World, w': World)
    requires Inv(w) && Next(w, w')
    ensures Inv(w')
  {
    var c: Caller, ip: IpAddr :| CallerStep(w, w', c, ip);
    StepKeepsGlobal(w, w', c, ip);
    forall at ensures IpInv(w', at) {
      StepKeepsIp(w, w', c, ip, at);
    }
  }

  ghost predicate Behaviour(run: seq<World>) {
    run != [] && Init(run[0]) && forall i :: 0 <= i < |run| - 1 ==> Next(run[i], run[i + 1])
  }

  /** In every interleaving of any number of callers both counters are exact and within their limits. */
  lemma {:induction false} EveryInterleavingIsExact(run: seq<World>)
    requires Behaviour(run)
    ensures Inv(run[|run| - 1])
  {
    var last := |run| - 1;
    if last == 0 {
      assert Claiming(run[0].callers) == {} && Holding(run[0].callers) == {};
      assert forall ip :: CountedAt(run[0].callers, ip) == {};
    } else {
      EveryInterleavingIsExact(run[..last]);
      assert Next(run[last - 1], run[last - 1 + 1]);
      StepKeepsInv(run[last - 1], run[last]);
    }
  }

  /** No decrement underflows: a caller about to decrement a counter is itself counted in it. */
  lemma NoUnderflow(w: World, c: Caller)
    requires Inv(w) && c in w.callers
    ensures w.callers[c].Overflowed? || w.callers[c].Refused? || w.callers[c].Admitted? ==> w.global >= 1
    ensures w.callers[c].Uncounting? ==> w.callers[c].ip in w.perIp && w.perIp[w.callers[c].ip] >= 1
  {
    if Claims(w.callers[c]) {
      assert c in Claiming(w.callers);
    }
    if w.callers[c].Uncounting? {
      assert IpInv(w, w.callers[c].ip);
      assert c in CountedAt(w.callers, w.callers[c].ip);
    }
  }

  /** No call in progress: every connection is open or finished. */
  predicate Quiet(w: World) {
    forall c :: c in w.callers ==> w.callers[c].Admitted? || w.callers[c].Gone?
  }

  function Open(callers: map<Caller, Phase>): set<Caller> {
    set c | c in callers && callers[c].Admitted?
  }

  /** Between calls the counters are the open connections, and an admission decision is exact. */
  lemma QuietCountsAreOpenConnections(w: World)
    requires Inv(w) && Quiet(w)
    ensures w.global == |Open(w.callers)| <= w.cfg.maxGlobal
    ensures forall ip :: CountOf(w.perIp, ip) == |set c | c in Open(w.callers) && w.callers[c].ip == ip|
    ensures w.lock == None
  {
    assert Claiming(w.callers) == Open(w.callers) == Holding(w.callers);
    forall ip ensures CountOf(w.perIp, ip) == |set c | c in Open(w.callers) && w.callers[c].ip == ip| {
      assert IpInv(w, ip);
      assert CountedAt(w.callers, ip) == set c | c in Open(w.callers) && w.callers[c].ip == ip;
    }
  }

  function TallyOf(w: World): Tally
    requires w.global >= 0
  {
    Tally(w.global, w.perIp)
  }

  /** In the same way, wherever an interleaving has got to, an admitted slot is given back without a trace. */
  lemma ReleaseRestoresReachable(run: seq<World>, ip: IpAddr)
    requires Behaviour(run)
    ensures var w := run[|run| - 1];
            && w.global >= 0
            && (Admits(w.cfg, TallyOf(w), ip) ==> Released(Acquired(w.cfg, TallyOf(w), ip), ip) == TallyOf(w))
  {
    EveryInterleavingIsExact(run);
    var w := run[|run| - 1];
    assert IpInv(w, ip);
    if Admits(w.cfg, TallyOf(w), ip) { ReleaseUndoesAcquire(w.cfg, TallyOf(w), ip); }
  }

  /** A caller running alone through `acquire`, access by access, does what the sequential code does. */
  lemma AloneAcquireIsSequential(w: World, c: Caller, ip: IpAddr)
    requires w.global >= 0 && w.lock == None && c in w.callers && w.callers[c] == Fresh(ip)
    ensures var w1 := Advance(w, c, ip);
            var w2 := Advance(w1, c, ip);
            var w3 := if w2.callers[c].Refused? then Advance(w2, c, ip) else w2;
            && Enabled(w, c) && Enabled(w1, c) && Enabled(w2, c) == !w2.callers[c].Gone?
            && w3.global >= 0 && w3.lock == None
            && TallyOf(w3) == Acquired(w.cfg, TallyOf(w), ip)
            && w3.callers[c] == if Admits(w.cfg, TallyOf(w), ip) then Admitted(ip) else Gone(ip)
  {
  }

  /** Likewise for `release`. */
  lemma AloneReleaseIsSequential(w: World, c: Caller, ip: IpAddr)
    requires w.global > 0 && w.lock == None && c in w.callers && w.callers[c] == Admitted(ip)
    ensures var w2 := Advance(Advance(w, c, ip), c, ip);
            w2.global >= 0 && TallyOf(w2) == Released(TallyOf(w), ip) && w2.callers[c] == Gone(ip)
  {
  }

  /** Callers whose claim is counted although their connection is not, or not yet, admitted. */
  function Pending(callers: map<Caller, Phase>): set<Caller> {
    set c | c in callers && (callers[c].Overflowed? || callers[c].Counting? || callers[c].Refused?)
  }

  predicate NonePending(w: World) {
    Pending(w.callers) == {}
  }

  /**
   A global refusal happens exactly when that many callers hold or are undoing a claim.  It is spurious,
   with fewer connections open than allowed, exactly when pending claims make up the difference; with
   no claim pending it happens exactly when that many connections are open.
   */
  lemma RefusedIffClaimsFull(w: World, c: Caller, ip: IpAddr)
    requires Inv(w) && c in w.callers && w.callers[c] == Fresh(ip)
    ensures Advance(w, c, ip).callers[c].Overflowed? <==> |Claiming(w.callers)| >= w.cfg.maxGlobal
    ensures Advance(w, c, ip).callers[c].Overflowed? && |Open(w.callers)| < w.cfg.maxGlobal
       <==> |Open(w.callers)| < w.cfg.maxGlobal <= |Open(w.callers)| + |Pending(w.callers)|
    ensures NonePending(w) ==> (Advance(w, c, ip).callers[c].Overflowed? <==> |Open(w.callers)| >= w.cfg.maxGlobal)
  {
    assert Claiming(w.callers) == Open(w.callers) + Pending(w.callers);
    assert Open(w.callers) !! Pending(w.callers);
  }

  /** The per-IP stage refuses exactly when that many connections of the address are counted, and admits otherwise. */
  lemma CountingRefusesIff(w: World, c: Caller, ip: IpAddr)
    requires Inv(w) && c in w.callers && w.callers[c] == Counting(ip)
    ensures Advance(w, c, ip).callers[c]
         == if |CountedAt(w.callers, ip)| >= w.cfg.maxPerIp then Refused(ip) else Admitted(ip)
  {
    assert IpInv(w, ip);
  }

  function OpenAt(callers: map<Caller, Phase>, ip: IpAddr): set<Caller> {
    set c | c in Open(callers) && callers[c].ip == ip
  }

  /** With no call in progress, `acquire` admits exactly while both numbers of open connections are below the limits. */
  lemma QuietVerdict(w: World, ip: IpAddr)
    requires Inv(w) && Quiet(w)
    ensures w.global >= 0
    ensures Admits(w.cfg, TallyOf(w), ip)
       <==> |Open(w.callers)| < w.cfg.maxGlobal && |OpenAt(w.callers, ip)| < w.cfg.maxPerIp
  {
    QuietCountsAreOpenConnections(w);
    assert OpenAt(w.callers, ip) == set c | c in Open(w.callers) && w.callers[c].ip == ip;
  }

  /**
   A refused claim still counts until it is undone, so a caller can be refused although fewer than
   `maxGlobal` connections are open: limit two, one connection open, and the other slot held by a
   per-IP refusal that has not yet been undone.
   */
  lemma TransientRefusalIsReachable() returns (run: seq<World>)
    ensures Behaviour(run)
    ensures run[|run| - 1].cfg == Config(1, 2)
    ensures run[|run| - 1].callers == map[0 := Admitted(V4(1)), 1 := Gone(V4(1)), 2 := Overflowed(V4(2))]
  {
    var a, b := V4(1), V4(2);
    run := [World(Config(1, 2), 0, map[], None, map[])];
    run := Extended(run, 0, a);
    run := Extended(run, 0, a);
    run := Extended(run, 0, a);
    run := Extended(run, 1, a);
    run := Extended(run, 1, a);
    run := Extended(run, 1, a);
    run := Extended(run, 2, b);
    run := Extended(run, 2, b);
    run := Extended(run, 1, a);
  }

  lemma Extended(run: seq<World>, c: Caller, ip: IpAddr) returns (longer: seq<World>)
    requires Behaviour(run) && Enabled(run[|run| - 1], c)
    ensures Behaviour(longer) && |longer| == |run| + 1
    ensures longer[|run|] == Advance(run[|run| - 1], c, ip)
  {
    longer := run + [Advance(run[|run| - 1], c, ip)];
    assert CallerStep(longer[|run| - 1], longer[|run|], c, ip);
    forall i | 0 <= i < |longer| - 1 ensures Next(longer[i], longer[i + 1]) {
      if i < |run| - 1 { assert Next(run[i], run[i + 1]); }
    }
  }
}
