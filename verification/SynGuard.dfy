/**
 Half-open accounting: a total, per-IP counts, a lazily cleaned FIFO of tracked addresses, the time
 each address's first half-open connection began, and the set of established connections.
 */
module SynGuard {
  import opened Net
  import opened Sets

  datatype Config = Config(maxPerIp: nat, maxGlobal: nat, maxTracked: nat)

  datatype HalfOpen = HalfOpen(
    total: nat, perIp: Counts, ipOrder: seq<IpAddr>, startedAt: map<IpAddr, Instant>, established: set<SocketAddr>)

  const EMPTY := HalfOpen(0, map[], [], map[], {})

  function Minus(a: nat, b: nat): nat {
    if a < b then 0 else a - b
  }

  // ---------------------------------------------------------------------------------------------
  // The code's transitions
  // ---------------------------------------------------------------------------------------------

  /** Number of untracked addresses in front of the first tracked one. */
  function StalePrefix(tracked: set<IpAddr>, order: seq<IpAddr>): (k: nat)
    ensures k <= |order|
  {
    if order == [] || order[0] in tracked then 0 else 1 + StalePrefix(tracked, order[1..])
  }

  function EvictOldest(s: HalfOpen): HalfOpen {
    var k := StalePrefix(s.perIp.Keys, s.ipOrder);
    if k == |s.ipOrder| then s.(ipOrder := [])
    else Forgotten(s, s.ipOrder[k], s.ipOrder[k + 1..])
  }

  function Forgotten(s: HalfOpen, victim: IpAddr, order: seq<IpAddr>): HalfOpen {
    s.(total := Minus(s.total, CountOf(s.perIp, victim)), perIp := s.perIp - {victim},
       startedAt := s.startedAt - {victim}, ipOrder := order)
  }

  /** Tracked addresses not in `seen`, each at its first occurrence. */
  function Dedup(tracked: set<IpAddr>, order: seq<IpAddr>, seen: set<IpAddr>): seq<IpAddr> {
    if order == [] then []
    else if order[0] in tracked && order[0] !in seen then [order[0]] + Dedup(tracked, order[1..], seen + {order[0]})
    else Dedup(tracked, order[1..], seen)
  }

  function Compacted(s: HalfOpen, maxTracked: nat): HalfOpen {
    if |s.ipOrder| <= CompactionThreshold(maxTracked) then s
    else s.(ipOrder := Dedup(s.perIp.Keys, s.ipOrder, {}))
  }

  datatype Verdict = Ok | GlobalFull | IpFull

  function Judge(s: HalfOpen, cfg: Config, ip: IpAddr): Verdict {
    if s.total + 1 > cfg.maxGlobal then GlobalFull
    else if CountOf(s.perIp, ip) + 1 > cfg.maxPerIp then IpFull
    else Ok
  }

  predicate AtTrackingCap(s: HalfOpen, cfg: Config, ip: IpAddr) {
    ip !in s.perIp && |s.perIp| >= cfg.maxTracked
  }

  function MadeRoom(s: HalfOpen, cfg: Config, ip: IpAddr): HalfOpen {
    if AtTrackingCap(s, cfg, ip) then EvictOldest(s) else s
  }

  function Counted(s: HalfOpen, next: nat, isNew: bool, ip: IpAddr, now: Instant): HalfOpen {
    s.(total := s.total + 1,
       perIp := s.perIp[ip := next],
       ipOrder := if isNew then s.ipOrder + [ip] else s.ipOrder,
       startedAt := if ip in s.startedAt then s.startedAt else s.startedAt[ip := now])
  }

  /** An accepted reservation, before the queue is compacted. */
  function Recounted(s: HalfOpen, cfg: Config, ip: IpAddr, now: Instant): HalfOpen {
    Counted(MadeRoom(s, cfg, ip), CountOf(s.perIp, ip) + 1, ip !in s.perIp, ip, now)
  }

  function AfterReserve(s: HalfOpen, cfg: Config, ip: IpAddr, now: Instant): HalfOpen {
    if Judge(s, cfg, ip) != Ok then s
    else Compacted(Recounted(s, cfg, ip, now), cfg.maxTracked)
  }

  /** The decrement shared by `establish` and `close`. */
  function Settle(s: HalfOpen, cfg: Config, ip: IpAddr): HalfOpen {
    var t := s.(total := Minus(s.total, 1));
    if ip !in s.perIp then t
    else if s.perIp[ip] > 1 then t.(perIp := s.perIp[ip := s.perIp[ip] - 1])
    else Compacted(t.(perIp := s.perIp - {ip}, startedAt := s.startedAt - {ip}), cfg.maxTracked)
  }

  function AfterEstablish(s: HalfOpen, cfg: Config, addr: SocketAddr): HalfOpen {
    var t := Settle(s, cfg, addr.ip);
    t.(established := t.established + {addr})
  }

  function AfterClose(s: HalfOpen, cfg: Config, addr: SocketAddr): HalfOpen {
    if addr in s.established then s.(established := s.established - {addr}) else Settle(s, cfg, addr.ip)
  }

  datatype Op = Reserving(addr: SocketAddr, now: Instant) | Establishing(addr: SocketAddr) | Closing(addr: SocketAddr)

  function Step(s: HalfOpen, cfg: Config, op: Op): HalfOpen {
    match op
    case Reserving(addr, now) => AfterReserve(s, cfg, addr.ip, now)
    case Establishing(addr) => AfterEstablish(s, cfg, addr)
    case Closing(addr) => AfterClose(s, cfg, addr)
  }

  function Run(cfg: Config, ops: seq<Op>): HalfOpen {
    if ops == [] then EMPTY else Step(Run(cfg, ops[..|ops| - 1]), cfg, ops[|ops| - 1])
  }

  /** Whether activity of the address is refused. */
  predicate Stalled(s: HalfOpen, ip: IpAddr, timeout: real, now: Instant) {
    ip in s.startedAt && Elapsed(s.startedAt[ip], now) > timeout
  }

  class SynGuardState {
    const cfg: Config
    var total: nat
    var perIp: Counts
    var ipOrder: seq<IpAddr>
    var startedAt: map<IpAddr, Instant>
    var established: set<SocketAddr>

    constructor (cfg: Config)
      ensures this.cfg == cfg && State() == EMPTY
    {
      this.cfg := cfg;
      total, perIp, ipOrder, startedAt, established := 0, map[], [], map[], {};
    }

    ghost function State(): HalfOpen
      reads this
    {
      HalfOpen(total, perIp, ipOrder, startedAt, established)
    }

    method EvictOldestTrackedIp()
      modifies this
      ensures State() == EvictOldest(old(State()))
    {
      var i: nat := 0;
      while |ipOrder| > 0
        invariant i <= |old(ipOrder)| && ipOrder == old(ipOrder)[i..]
        invariant State() == old(State()).(ipOrder := ipOrder)
        invariant StalePrefix(perIp.Keys, old(ipOrder)) == i + StalePrefix(perIp.Keys, ipOrder)
        decreases |ipOrder|
      {
        var oldIp := ipOrder[0];
        ipOrder := ipOrder[1..];
        if oldIp in perIp {
          total := Minus(total, perIp[oldIp]);
          perIp := perIp - {oldIp};
          startedAt := startedAt - {oldIp};
          return;
        }
        i := i + 1;
      }
    }

    method MaybeCompactIpOrder()
      modifies this
      ensures State() == Compacted(old(State()), cfg.maxTracked)
    {
      if |ipOrder| <= CompactionThreshold(cfg.maxTracked) {
        return;
      }
      var seen: set<IpAddr> := {};
      var compacted: seq<IpAddr> := [];
      while |ipOrder| > 0
        invariant State() == old(State()).(ipOrder := ipOrder)
        invariant compacted + Dedup(perIp.Keys, ipOrder, seen) == Dedup(perIp.Keys, old(ipOrder), {})
        decreases |ipOrder|
      {
        var ip := ipOrder[0];
        ipOrder := ipOrder[1..];
        if ip in perIp && ip !in seen {
          seen := seen + {ip};
          compacted := compacted + [ip];
        }
      }
      ipOrder := compacted;
    }

    method Reserve(ip: IpAddr, now: Instant) returns (verdict: Verdict)
      modifies this
      ensures verdict == Judge(old(State()), cfg, ip)
      ensures State() == AfterReserve(old(State()), cfg, ip, now)
    {
      var nextTotal := total + 1;
      var nextIp := CountOf(perIp, ip) + 1;
      if nextTotal > cfg.maxGlobal {
        return GlobalFull;
      }
      if nextIp > cfg.maxPerIp {
        return IpFull;
      }
      Admit(nextIp, ip, now);
      return Ok;
    }

    method Admit(nextIp: nat, ip: IpAddr, now: Instant)
      requires nextIp == CountOf(perIp, ip) + 1
      modifies this
      ensures State() == Compacted(Recounted(old(State()), cfg, ip, now), cfg.maxTracked)
    {
      var isNewIp := ip !in perIp;
      MakeRoom(isNewIp, ip);
      Count(nextIp, isNewIp, ip, now);
      MaybeCompactIpOrder();
    }

    method MakeRoom(isNewIp: bool, ip: IpAddr)
      requires isNewIp == (ip !in perIp)
      modifies this
      ensures State() == MadeRoom(old(State()), cfg, ip)
    {
      if isNewIp && |perIp| >= cfg.maxTracked {
        EvictOldestTrackedIp();
      }
    }

    method Count(nextIp: nat, isNewIp: bool, ip: IpAddr, now: Instant)
      modifies this
      ensures State() == Counted(old(State()), nextIp, isNewIp, ip, now)
    {
      total := total + 1;
      if isNewIp {
        ipOrder := ipOrder + [ip];
      }
      perIp := perIp[ip := nextIp];
      if ip !in startedAt {
        startedAt := startedAt[ip := now];
      }
    }

    method SettleOne(ip: IpAddr)
      modifies this
      ensures State() == Settle(old(State()), cfg, ip)
    {
      if total > 0 {
        total := total - 1;
      }
      if ip in perIp {
        if perIp[ip] > 1 {
          perIp := perIp[ip := perIp[ip] - 1];
        } else {
          perIp := perIp - {ip};
          startedAt := startedAt - {ip};
          MaybeCompactIpOrder();
        }
      }
    }

    method Establish(addr: SocketAddr)
      modifies this
      ensures State() == AfterEstablish(old(State()), cfg, addr)
    {
      SettleOne(addr.ip);
      established := established + {addr};
    }

    method OnActivity(ip: IpAddr, timeout: real, now: Instant) returns (ok: bool)
      ensures ok == !Stalled(State(), ip, timeout, now)
    {
      if ip in startedAt {
        if Elapsed(startedAt[ip], now) > timeout {
          return false;
        }
      }
      return true;
    }

    method Close(addr: SocketAddr)
      modifies this
      ensures State() == AfterClose(old(State()), cfg, addr)
    {
      if addr in established {
        established := established - {addr};
        return;
      }
      SettleOne(addr.ip);
    }
  }

  // ---------------------------------------------------------------------------------------------
  // Sums of counts
  // ---------------------------------------------------------------------------------------------

  ghost function Sum(m: Counts): nat {
    if m == map[] then 0 else var ip :| ip in m; m[ip] + Sum(m - {ip})
  }

  lemma {:induction false} SumSplit(m: Counts, ip: IpAddr)
    requires ip in m
    ensures Sum(m) == m[ip] + Sum(m - {ip})
    decreases |m|
  {
    var pick :| pick in m && Sum(m) == m[pick] + Sum(m - {pick});
    if pick != ip {
      assert m.Keys == (m - {pick}).Keys + {pick} == (m - {ip}).Keys + {ip};
      SumSplit(m - {pick}, ip);
      SumSplit(m - {ip}, pick);
      assert (m - {pick}) - {ip} == (m - {ip}) - {pick};
    }
  }

  lemma SumUpdate(m: Counts, ip: IpAddr, n: nat)
    ensures Sum(m[ip := n]) == Sum(m) - CountOf(m, ip) + n
  {
    SumSplit(m[ip := n], ip);
    assert m[ip := n] - {ip} == m - {ip};
    if ip in m { SumSplit(m, ip); } else { assert m - {ip} == m; }
  }

  // ---------------------------------------------------------------------------------------------
  // The invariant of every operation sequence
  // ---------------------------------------------------------------------------------------------

  ghost predicate Coupled(s: HalfOpen) {
    s.startedAt.Keys == s.perIp.Keys <= Elems(s.ipOrder)
  }

  ghost predicate Limited(s: HalfOpen, cfg: Config) {
    && (forall ip :: ip in s.perIp ==> 1 <= s.perIp[ip] <= cfg.maxPerIp)
    && s.total <= Sum(s.perIp)
    && s.total <= cfg.maxGlobal
  }

  ghost predicate Bounded(s: HalfOpen, cfg: Config) {
    && |s.perIp| <= AtLeastOne(cfg.maxTracked)
    && |s.ipOrder| <= CompactionThreshold(cfg.maxTracked)
  }

  ghost predicate Inv(s: HalfOpen, cfg: Config) {
    Coupled(s) && Limited(s, cfg) && Bounded(s, cfg)
  }

  lemma {:induction false} StalePrefixFacts(tracked: set<IpAddr>, order: seq<IpAddr>)
    ensures var k := StalePrefix(tracked, order);
            && (k < |order| ==> order[k] in tracked)
            && (forall ip :: ip in tracked && ip in order ==> k < |order| && (ip == order[k] || ip in order[k + 1..]))
  {
    if order != [] && order[0] !in tracked {
      StalePrefixFacts(tracked, order[1..]);
      var k := StalePrefix(tracked, order[1..]);
      if k < |order[1..]| { assert order[1..][k + 1..] == order[k + 2..]; }
    }
  }

  lemma EvictedVictim(s: HalfOpen) returns (victim: IpAddr, order: seq<IpAddr>)
    requires Coupled(s) && s.perIp != map[]
    ensures EvictOldest(s) == Forgotten(s, victim, order) && victim in s.perIp
    ensures |order| <= |s.ipOrder| && s.perIp.Keys - {victim} <= Elems(order)
  {
    var k := StalePrefix(s.perIp.Keys, s.ipOrder);
    StalePrefixFacts(s.perIp.Keys, s.ipOrder);
    var ip :| ip in s.perIp;
    assert ip in Elems(s.ipOrder);
    victim, order := s.ipOrder[k], s.ipOrder[k + 1..];
    forall ip | ip in s.perIp && ip != victim ensures ip in Elems(order) {
      assert ip in Elems(s.ipOrder);
    }
  }

  lemma NothingToEvict(s: HalfOpen)
    requires s.perIp == map[]
    ensures EvictOldest(s) == s.(ipOrder := [])
  {
    StalePrefixFacts(s.perIp.Keys, s.ipOrder);
  }

  lemma ForgottenCoupled(s: HalfOpen, victim: IpAddr, order: seq<IpAddr>)
    requires Coupled(s) && victim in s.perIp && s.perIp.Keys - {victim} <= Elems(order)
    ensures Coupled(Forgotten(s, victim, order)) && |s.perIp - {victim}| == |s.perIp| - 1
  {
    assert s.perIp.Keys == (s.perIp - {victim}).Keys + {victim};
  }

  lemma ForgottenLimited(s: HalfOpen, cfg: Config, victim: IpAddr, order: seq<IpAddr>)
    requires Limited(s, cfg) && victim in s.perIp
    ensures Limited(Forgotten(s, victim, order), cfg)
  {
    SumSplit(s.perIp, victim);
  }

  /** What an eviction can change: the queue gets no longer, counts are kept or forgotten, the total sinks. */
  predicate OnlyForgets(s: HalfOpen, t: HalfOpen) {
    && |t.ipOrder| <= |s.ipOrder| && t.total <= s.total && t.established == s.established
    && (forall ip :: ip in t.perIp ==> ip in s.perIp && t.perIp[ip] == s.perIp[ip])
  }

  /** Eviction forgets one tracked address whenever there is one. */
  lemma EvictionFacts(s: HalfOpen, cfg: Config)
    requires Coupled(s) && Limited(s, cfg)
    ensures var t := EvictOldest(s);
            && Coupled(t) && Limited(t, cfg) && OnlyForgets(s, t)
            && |t.perIp| == Minus(|s.perIp|, 1)
            && (if s.perIp == map[] then t == s.(ipOrder := []) else t.total < s.total || t.total == 0)
  {
    if s.perIp == map[] {
      NothingToEvict(s);
    } else {
      var victim, order := EvictedVictim(s);
      ForgottenCoupled(s, victim, order);
      ForgottenLimited(s, cfg, victim, order);
    }
  }

  lemma {:induction false} DedupFacts(tracked: set<IpAddr>, order: seq<IpAddr>, seen: set<IpAddr>)
    ensures Elems(Dedup(tracked, order, seen)) == Elems(order) * tracked - seen
    ensures |Dedup(tracked, order, seen)| == |Elems(Dedup(tracked, order, seen))|
  {
    if order != [] {
      var head, tail := order[0], order[1..];
      ElemsCons(order);
      if head in tracked && head !in seen {
        var rest := Dedup(tracked, tail, seen + {head});
        DedupFacts(tracked, tail, seen + {head});
        ElemsCons([head] + rest);
        assert Elems(order) * tracked - seen == {head} + (Elems(tail) * tracked - (seen + {head}));
      } else {
        DedupFacts(tracked, tail, seen);
        assert Elems(order) * tracked - seen == Elems(tail) * tracked - seen;
      }
    }
  }

  lemma CompactionFacts(s: HalfOpen, cfg: Config)
    requires Coupled(s) && |s.perIp| <= AtLeastOne(cfg.maxTracked) && cfg.maxTracked <= USIZE_MAX
    ensures var t := Compacted(s, cfg.maxTracked);
            && Coupled(t) && |t.ipOrder| <= CompactionThreshold(cfg.maxTracked)
            && t == s.(ipOrder := t.ipOrder)
  {
    DedupFacts(s.perIp.Keys, s.ipOrder, {});
    var d := Dedup(s.perIp.Keys, s.ipOrder, {});
    assert Elems(d) == s.perIp.Keys;
    assert |d| == |s.perIp.Keys| == |s.perIp|;
  }

  lemma CountingKeepsCoupled(s: HalfOpen, next: nat, ip: IpAddr, now: Instant)
    requires Coupled(s)
    ensures var t := Counted(s, next, ip !in s.perIp, ip, now); Coupled(t)
    ensures |s.perIp[ip := next]| == |s.perIp| + if ip in s.perIp then 0 else 1
  {
    assert s.perIp[ip := next].Keys == s.perIp.Keys + {ip};
    ElemsSnoc(s.ipOrder, s.ipOrder + [ip], ip);
    assert ip in s.perIp ==> ip in Elems(s.ipOrder);
  }

  lemma CountingKeepsLimits(s: HalfOpen, cfg: Config, next: nat, isNew: bool, ip: IpAddr, now: Instant)
    requires Limited(s, cfg) && s.total + 1 <= cfg.maxGlobal
    requires next == CountOf(s.perIp, ip) + 1 <= cfg.maxPerIp
    ensures Limited(Counted(s, next, isNew, ip, now), cfg)
  {
    SumUpdate(s.perIp, ip, next);
  }

  lemma RoomForOne(s: HalfOpen, cfg: Config, ip: IpAddr)
    requires Inv(s, cfg)
    ensures var room := MadeRoom(s, cfg, ip);
            && Coupled(room) && Limited(room, cfg) && room.total <= s.total
            && CountOf(room.perIp, ip) == CountOf(s.perIp, ip) && (ip in room.perIp <==> ip in s.perIp)
            && |room.perIp| + (if ip in s.perIp then 0 else 1) <= AtLeastOne(cfg.maxTracked)
  {
    if AtTrackingCap(s, cfg, ip) { EvictionFacts(s, cfg); }
  }

  lemma RecountKeepsCoupled(s: HalfOpen, cfg: Config, ip: IpAddr, now: Instant)
    requires Inv(s, cfg)
    ensures var t := Recounted(s, cfg, ip, now); Coupled(t) && |t.perIp| <= AtLeastOne(cfg.maxTracked)
  {
    RoomForOne(s, cfg, ip);
    CountingKeepsCoupled(MadeRoom(s, cfg, ip), CountOf(s.perIp, ip) + 1, ip, now);
  }

  lemma RecountKeepsLimits(s: HalfOpen, cfg: Config, ip: IpAddr, now: Instant)
    requires Inv(s, cfg) && Judge(s, cfg, ip) == Ok
    ensures Limited(Recounted(s, cfg, ip, now), cfg)
  {
    RoomForOne(s, cfg, ip);
    CountingKeepsLimits(MadeRoom(s, cfg, ip), cfg, CountOf(s.perIp, ip) + 1, ip !in s.perIp, ip, now);
  }

  lemma ReserveKeepsInv(s: HalfOpen, cfg: Config, ip: IpAddr, now: Instant)
    requires Inv(s, cfg) && cfg.maxTracked <= USIZE_MAX
    ensures Inv(AfterReserve(s, cfg, ip, now), cfg)
  {
    if Judge(s, cfg, ip) == Ok {
      RecountKeepsCoupled(s, cfg, ip, now);
      RecountKeepsLimits(s, cfg, ip, now);
      CompactionFacts(Recounted(s, cfg, ip, now), cfg);
    }
  }

  lemma ForgetKeepsCoupled(s: HalfOpen, ip: IpAddr)
    requires Coupled(s) && ip in s.perIp
    ensures Coupled(s.(perIp := s.perIp - {ip}, startedAt := s.startedAt - {ip}))
    ensures |s.perIp - {ip}| == |s.perIp| - 1
  {
    assert (s.perIp - {ip}).Keys == s.perIp.Keys - {ip} == (s.startedAt - {ip}).Keys;
  }

  lemma SettleKeepsLimits(s: HalfOpen, cfg: Config, ip: IpAddr)
    requires Limited(s, cfg)
    ensures Limited(Settle(s, cfg, ip), cfg)
  {
    if ip in s.perIp {
      SumSplit(s.perIp, ip);
      SumUpdate(s.perIp, ip, s.perIp[ip] - 1);
    }
  }

  /** The compaction in `establish` and `close` never fires: the queue did not grow. */
  lemma SettleKeepsShape(s: HalfOpen, cfg: Config, ip: IpAddr)
    requires Coupled(s) && Bounded(s, cfg)
    ensures Coupled(Settle(s, cfg, ip)) && Bounded(Settle(s, cfg, ip), cfg)
    ensures Settle(s, cfg, ip).ipOrder == s.ipOrder
  {
    if ip in s.perIp {
      if s.perIp[ip] > 1 {
        assert s.perIp[ip := s.perIp[ip] - 1].Keys == s.perIp.Keys;
        assert |s.perIp[ip := s.perIp[ip] - 1].Keys| == |s.perIp.Keys|;
      } else {
        ForgetKeepsCoupled(s.(total := Minus(s.total, 1)), ip);
      }
    }
  }

  /** The invariant holds after every sequence of calls, in any order and with any evictions. */
  lemma {:induction false} RunKeepsInv(cfg: Config, ops: seq<Op>)
    requires cfg.maxTracked <= USIZE_MAX
    ensures Inv(Run(cfg, ops), cfg)
  {
    if ops != [] {
      var s, op := Run(cfg, ops[..|ops| - 1]), ops[|ops| - 1];
      RunKeepsInv(cfg, ops[..|ops| - 1]);
      match op {
        case Reserving(addr, now) => ReserveKeepsInv(s, cfg, addr.ip, now);
        case Establishing(addr) =>
          SettleKeepsLimits(s, cfg, addr.ip);
          SettleKeepsShape(s, cfg, addr.ip);
        case Closing(addr) =>
          SettleKeepsLimits(s, cfg, addr.ip);
          SettleKeepsShape(s, cfg, addr.ip);
      }
    }
  }

  // ---------------------------------------------------------------------------------------------
  // Compaction keeps the eviction order
  // ---------------------------------------------------------------------------------------------

  /** The victims of repeated evictions, in order. */
  function Drain(tracked: set<IpAddr>, order: seq<IpAddr>): seq<IpAddr>
    decreases |order|
  {
    var k := StalePrefix(tracked, order);
    if k == |order| then [] else [order[k]] + Drain(tracked - {order[k]}, order[k + 1..])
  }

  /** `Drain` is what evicting does: its head is the next victim, its tail what eviction leaves. */
  lemma DrainIsRepeatedEviction(s: HalfOpen)
    ensures var d := Drain(s.perIp.Keys, s.ipOrder);
            var t := EvictOldest(s);
            if d == [] then t.perIp == s.perIp
            else t.perIp == s.perIp - {d[0]} && Drain(t.perIp.Keys, t.ipOrder) == d[1..]
  {
    var k := StalePrefix(s.perIp.Keys, s.ipOrder);
    if k < |s.ipOrder| {
      assert (s.perIp - {s.ipOrder[k]}).Keys == s.perIp.Keys - {s.ipOrder[k]};
    }
  }

  /** The drain order is the deduplicated queue. */
  lemma {:induction false} DrainIsDedup(tracked: set<IpAddr>, order: seq<IpAddr>, seen: set<IpAddr>)
    ensures Drain(tracked - seen, order) == Dedup(tracked, order, seen)
    decreases |order|
  {
    if order != [] {
      if order[0] in tracked - seen {
        assert order[0 + 1..] == order[1..];
        assert tracked - seen - {order[0]} == tracked - (seen + {order[0]});
        DrainIsDedup(tracked, order[1..], seen + {order[0]});
      } else {
        DrainIsDedup(tracked, order[1..], seen);
        DrainSkipsStale(tracked - seen, order);
      }
    }
  }

  lemma DrainSkipsStale(tracked: set<IpAddr>, order: seq<IpAddr>)
    requires order != [] && order[0] !in tracked
    ensures Drain(tracked, order) == Drain(tracked, order[1..])
  {
    var k := StalePrefix(tracked, order[1..]);
    if k < |order[1..]| { SliceOfTail(order, k); }
  }

  lemma SliceOfTail(order: seq<IpAddr>, k: nat)
    requires k + 1 < |order|
    ensures order[1..][k] == order[k + 1] && order[1..][k + 1..] == order[k + 1 + 1..]
  {
  }

  lemma {:induction false} DedupIdempotent(tracked: set<IpAddr>, order: seq<IpAddr>, seen: set<IpAddr>)
    ensures Dedup(tracked, Dedup(tracked, order, seen), seen) == Dedup(tracked, order, seen)
  {
    if order != [] {
      if order[0] in tracked && order[0] !in seen {
        DedupIdempotent(tracked, order[1..], seen + {order[0]});
        var rest := Dedup(tracked, order[1..], seen + {order[0]});
        assert ([order[0]] + rest)[1..] == rest;
      } else {
        DedupIdempotent(tracked, order[1..], seen);
      }
    }
  }

  /**
   Compaction preserves the next victim and the whole order in which evictions would empty the
   table; what it leaves is that order, each tracked address once.
   */
  lemma CompactionKeepsEvictionOrder(s: HalfOpen, maxTracked: nat)
    requires Coupled(s) && |s.ipOrder| > CompactionThreshold(maxTracked)
    ensures var t := Compacted(s, maxTracked);
            && Drain(t.perIp.Keys, t.ipOrder) == Drain(s.perIp.Keys, s.ipOrder) == t.ipOrder
            && Elems(t.ipOrder) == s.perIp.Keys && |t.ipOrder| == |s.perIp|
  {
    var tracked := s.perIp.Keys;
    assert tracked - {} == tracked;
    DrainIsDedup(tracked, s.ipOrder, {});
    DrainIsDedup(tracked, Dedup(tracked, s.ipOrder, {}), {});
    DedupIdempotent(tracked, s.ipOrder, {});
    DedupFacts(tracked, s.ipOrder, {});
    assert |s.perIp.Keys| == |s.perIp|;
  }

  // ---------------------------------------------------------------------------------------------
  // Against the sessions that drive it
  // ---------------------------------------------------------------------------------------------

  /** The connections that are really half open, and those established and not yet closed. */
  datatype Sessions = Sessions(halfOpen: set<SocketAddr>, settled: set<SocketAddr>)

  /** Open peer addresses are unique, a session is established at most once and not after its close. */
  predicate Legal(ss: Sessions, op: Op) {
    match op
    case Reserving(addr, _) => addr !in ss.halfOpen + ss.settled
    case Establishing(addr) => addr in ss.halfOpen
    case Closing(addr) => addr in ss.halfOpen + ss.settled
  }

  function SessionStep(ss: Sessions, op: Op, ok: bool): Sessions {
    match op
    case Reserving(addr, _) => if ok then ss.(halfOpen := ss.halfOpen + {addr}) else ss
    case Establishing(addr) => Sessions(ss.halfOpen - {addr}, ss.settled + {addr})
    case Closing(addr) => Sessions(ss.halfOpen - {addr}, ss.settled - {addr})
  }

  predicate Accepts(s: HalfOpen, cfg: Config, op: Op) {
    op.Reserving? && Judge(s, cfg, op.addr.ip) == Ok
  }

  /** The operation evicts a tracked address. */
  predicate Evicts(s: HalfOpen, cfg: Config, op: Op) {
    Accepts(s, cfg, op) && AtTrackingCap(s, cfg, op.addr.ip) && s.perIp != map[]
  }

  function SessionRun(cfg: Config, ops: seq<Op>): Sessions {
    if ops == [] then Sessions({}, {})
    else
      var before, op := ops[..|ops| - 1], ops[|ops| - 1];
      SessionStep(SessionRun(cfg, before), op, Accepts(Run(cfg, before), cfg, op))
  }

  predicate LegalRun(cfg: Config, ops: seq<Op>) {
    ops == [] || (LegalRun(cfg, ops[..|ops| - 1]) && Legal(SessionRun(cfg, ops[..|ops| - 1]), ops[|ops| - 1]))
  }

  predicate EvictionFree(cfg: Config, ops: seq<Op>) {
    ops == [] || (EvictionFree(cfg, ops[..|ops| - 1]) && !Evicts(Run(cfg, ops[..|ops| - 1]), cfg, ops[|ops| - 1]))
  }

  function At(addrs: set<SocketAddr>, ip: IpAddr): set<SocketAddr> {
    set a | a in addrs && a.ip == ip
  }

  ghost predicate SameSettled(s: HalfOpen, ss: Sessions) {
    s.established == ss.settled && ss.halfOpen !! ss.settled
  }

  /** The guard never counts a connection that is not half open. */
  ghost predicate NeverOver(s: HalfOpen, ss: Sessions) {
    && s.total <= |ss.halfOpen|
    && (forall ip :: CountOf(s.perIp, ip) <= |At(ss.halfOpen, ip)|)
  }

  ghost predicate Exact(s: HalfOpen, ss: Sessions) {
    && s.total == |ss.halfOpen|
    && (forall ip :: CountOf(s.perIp, ip) == |At(ss.halfOpen, ip)|)
  }

  lemma AddedSize(h: set<SocketAddr>, a: SocketAddr, ip: IpAddr)
    requires a !in h
    ensures |h + {a}| == |h| + 1
    ensures |At(h + {a}, ip)| == |At(h, ip)| + if a.ip == ip then 1 else 0
  {
    assert At(h + {a}, ip) == At(h, ip) + if a.ip == ip then {a} else {};
  }

  lemma RemovedSize(h: set<SocketAddr>, a: SocketAddr, ip: IpAddr)
    requires a in h
    ensures |h - {a}| == |h| - 1
    ensures |At(h - {a}, ip)| == |At(h, ip)| - if a.ip == ip then 1 else 0
  {
    AddedSize(h - {a}, a, ip);
    assert h - {a} + {a} == h;
  }

  lemma SettleAccounts(s: HalfOpen, cfg: Config, a: SocketAddr, ss: Sessions, after: Sessions)
    requires a in ss.halfOpen && after.halfOpen == ss.halfOpen - {a}
    ensures NeverOver(s, ss) ==> NeverOver(Settle(s, cfg, a.ip), after)
    ensures Exact(s, ss) && (forall ip :: ip in s.perIp ==> s.perIp[ip] >= 1) ==> Exact(Settle(s, cfg, a.ip), after)
  {
    var t := Settle(s, cfg, a.ip);
    forall ip
      ensures CountOf(t.perIp, ip) == (if ip == a.ip then Minus(CountOf(s.perIp, ip), 1) else CountOf(s.perIp, ip))
    {
    }
    forall ip ensures |At(after.halfOpen, ip)| == |At(ss.halfOpen, ip)| - (if ip == a.ip then 1 else 0) {
      RemovedSize(ss.halfOpen, a, ip);
    }
    RemovedSize(ss.halfOpen, a, a.ip);
    assert a in At(ss.halfOpen, a.ip);
  }

  predicate NoMore(few: Counts, many: Counts) {
    forall ip :: ip in few ==> CountOf(few, ip) <= CountOf(many, ip)
  }

  lemma CountingAccounts(s: HalfOpen, room: HalfOpen, t: HalfOpen, a: SocketAddr, ss: Sessions)
    requires a !in ss.halfOpen
    requires room.total <= s.total && NoMore(room.perIp, s.perIp)
    requires t.total == room.total + 1 && t.perIp == room.perIp[a.ip := CountOf(s.perIp, a.ip) + 1]
    ensures var after := ss.(halfOpen := ss.halfOpen + {a});
            && (NeverOver(s, ss) ==> NeverOver(t, after))
            && (Exact(s, ss) && room.total == s.total && room.perIp == s.perIp ==> Exact(t, after))
            && |after.halfOpen| == |ss.halfOpen| + 1
  {
    forall ip ensures |At(ss.halfOpen + {a}, ip)| == |At(ss.halfOpen, ip)| + (if ip == a.ip then 1 else 0) {
      AddedSize(ss.halfOpen, a, ip);
    }
    AddedSize(ss.halfOpen, a, a.ip);
  }

  lemma RoomFacts(s: HalfOpen, cfg: Config, op: Op)
    requires Coupled(s) && Limited(s, cfg) && Accepts(s, cfg, op)
    ensures var room := MadeRoom(s, cfg, op.addr.ip);
            && room.total <= s.total && room.established == s.established
            && NoMore(room.perIp, s.perIp)
            && (!Evicts(s, cfg, op) ==> room.total == s.total && room.perIp == s.perIp)
            && (Evicts(s, cfg, op) ==> room.total < s.total || room.total == 0)
  {
    if AtTrackingCap(s, cfg, op.addr.ip) { EvictionFacts(s, cfg); }
  }

  ghost predicate StepIsFaithful(s: HalfOpen, cfg: Config, op: Op, ss: Sessions, s': HalfOpen, ss': Sessions) {
    && SameSettled(s', ss')
    && (NeverOver(s, ss) ==> NeverOver(s', ss'))
    && (Exact(s, ss) && !Evicts(s, cfg, op) ==> Exact(s', ss'))
  }

  lemma AcceptedStep(s: HalfOpen, cfg: Config, op: Op)
    requires Accepts(s, cfg, op)
    ensures var room := MadeRoom(s, cfg, op.addr.ip);
            var t := Step(s, cfg, op);
            && t.total == room.total + 1 && t.established == room.established
            && t.perIp == room.perIp[op.addr.ip := CountOf(s.perIp, op.addr.ip) + 1]
  {
    CompactionOnlyQueue(Recounted(s, cfg, op.addr.ip, op.now), cfg.maxTracked);
  }

  lemma CompactionOnlyQueue(s: HalfOpen, maxTracked: nat)
    ensures var t := Compacted(s, maxTracked); t == s.(ipOrder := t.ipOrder)
  {
  }

  lemma AcceptedAccounts(s: HalfOpen, cfg: Config, op: Op, ss: Sessions)
    requires Inv(s, cfg) && Accepts(s, cfg, op) && Legal(ss, op) && SameSettled(s, ss)
    ensures StepIsFaithful(s, cfg, op, ss, Step(s, cfg, op), SessionStep(ss, op, true))
  {
    RoomFacts(s, cfg, op);
    AcceptedStep(s, cfg, op);
    CountingAccounts(s, MadeRoom(s, cfg, op.addr.ip), Step(s, cfg, op), op.addr, ss);
  }

  lemma ReserveAccounts(s: HalfOpen, cfg: Config, op: Op, ss: Sessions)
    requires Inv(s, cfg) && op.Reserving? && Legal(ss, op) && SameSettled(s, ss)
    ensures StepIsFaithful(s, cfg, op, ss, Step(s, cfg, op), SessionStep(ss, op, Accepts(s, cfg, op)))
  {
    if Accepts(s, cfg, op) {
      AcceptedAccounts(s, cfg, op, ss);
    } else {
      assert Step(s, cfg, op) == s;
    }
  }

  lemma EstablishAccounts(s: HalfOpen, cfg: Config, op: Op, ss: Sessions)
    requires Inv(s, cfg) && op.Establishing? && Legal(ss, op) && SameSettled(s, ss)
    ensures StepIsFaithful(s, cfg, op, ss, Step(s, cfg, op), SessionStep(ss, op, false))
  {
    SettleAccounts(s, cfg, op.addr, ss, SessionStep(ss, op, false));
  }

  lemma CloseAccounts(s: HalfOpen, cfg: Config, op: Op, ss: Sessions)
    requires Inv(s, cfg) && op.Closing? && Legal(ss, op) && SameSettled(s, ss)
    ensures StepIsFaithful(s, cfg, op, ss, Step(s, cfg, op), SessionStep(ss, op, false))
  {
    if op.addr in ss.halfOpen {
      SettleAccounts(s, cfg, op.addr, ss, SessionStep(ss, op, false));
      assert ss.settled - {op.addr} == ss.settled;
    } else {
      SettledClose(s, ss, SessionStep(ss, op, false), op.addr);
    }
  }

  lemma SettledClose(s: HalfOpen, ss: Sessions, after: Sessions, a: SocketAddr)
    requires a in ss.settled && a !in ss.halfOpen && SameSettled(s, ss)
    requires after == Sessions(ss.halfOpen - {a}, ss.settled - {a})
    ensures after.halfOpen == ss.halfOpen && SameSettled(s.(established := s.established - {a}), after)
  {
  }

  /** One legal step: never over, and exact again unless it evicts. */
  lemma StepAccounts(s: HalfOpen, cfg: Config, op: Op, ss: Sessions)
    requires Inv(s, cfg) && Legal(ss, op) && SameSettled(s, ss)
    ensures StepIsFaithful(s, cfg, op, ss, Step(s, cfg, op), SessionStep(ss, op, Accepts(s, cfg, op)))
  {
    match op {
      case Reserving(_, _) => ReserveAccounts(s, cfg, op, ss);
      case Establishing(_) => EstablishAccounts(s, cfg, op, ss);
      case Closing(_) => CloseAccounts(s, cfg, op, ss);
    }
  }

  /**
   In every run of legal sessions the guard never counts more than the connections that are really
   half open, in total and per address; without evictions it counts exactly those.
   */
  lemma {:induction false} AccountsAreOneSided(cfg: Config, ops: seq<Op>)
    requires cfg.maxTracked <= USIZE_MAX && LegalRun(cfg, ops)
    ensures NeverOver(Run(cfg, ops), SessionRun(cfg, ops)) && SameSettled(Run(cfg, ops), SessionRun(cfg, ops))
    ensures EvictionFree(cfg, ops) ==> Exact(Run(cfg, ops), SessionRun(cfg, ops))
  {
    if ops != [] {
      var before := ops[..|ops| - 1];
      AccountsAreOneSided(cfg, before);
      RunKeepsInv(cfg, before);
      StepAccounts(Run(cfg, before), cfg, ops[|ops| - 1], SessionRun(cfg, before));
    }
  }

  lemma SomeoneIsHalfOpen(s: HalfOpen, cfg: Config, ss: Sessions)
    requires Limited(s, cfg) && NeverOver(s, ss) && s.perIp != map[]
    ensures |ss.halfOpen| >= 1
  {
    var ip :| ip in s.perIp;
    assert CountOf(s.perIp, ip) >= 1;
    var a :| a in At(ss.halfOpen, ip);
    assert a in ss.halfOpen;
  }

  lemma EvictingStep(s: HalfOpen, cfg: Config, op: Op, ss: Sessions)
    requires Inv(s, cfg) && NeverOver(s, ss) && Legal(ss, op) && Evicts(s, cfg, op)
    ensures Step(s, cfg, op).total < |SessionStep(ss, op, true).halfOpen|
  {
    RoomFacts(s, cfg, op);
    AcceptedStep(s, cfg, op);
    SomeoneIsHalfOpen(s, cfg, ss);
    AddedSize(ss.halfOpen, op.addr, op.addr.ip);
  }

  /** Right after an eviction the total is too low. */
  lemma EvictionUndercounts(cfg: Config, ops: seq<Op>, op: Op)
    requires cfg.maxTracked <= USIZE_MAX && LegalRun(cfg, ops + [op]) && Evicts(Run(cfg, ops), cfg, op)
    ensures Run(cfg, ops + [op]).total < |SessionRun(cfg, ops + [op]).halfOpen|
  {
    assert (ops + [op])[..|ops|] == ops;
    AccountsAreOneSided(cfg, ops);
    RunKeepsInv(cfg, ops);
    EvictingStep(Run(cfg, ops), cfg, op, SessionRun(cfg, ops));
  }

  /** Without evictions the configured limits hold of the connections that are really half open. */
  lemma LimitsHoldWithoutEviction(cfg: Config, ops: seq<Op>, ip: IpAddr)
    requires cfg.maxTracked <= USIZE_MAX && LegalRun(cfg, ops) && EvictionFree(cfg, ops)
    ensures |SessionRun(cfg, ops).halfOpen| <= cfg.maxGlobal
    ensures |At(SessionRun(cfg, ops).halfOpen, ip)| <= cfg.maxPerIp
  {
    AccountsAreOneSided(cfg, ops);
    RunKeepsInv(cfg, ops);
    assert CountOf(Run(cfg, ops).perIp, ip) == |At(SessionRun(cfg, ops).halfOpen, ip)|;
  }

  /** With evictions they need not: three half-open connections under a global limit of two. */
  lemma EvictionBreaksTheLimit(a: SocketAddr, b: SocketAddr, c: SocketAddr, now: Instant) returns (ops: seq<Op>)
    requires a.ip != b.ip && b.ip != c.ip && a.ip != c.ip
    ensures LegalRun(Config(1, 2, 1), ops) && SessionRun(Config(1, 2, 1), ops).halfOpen == {a, b, c}
    ensures |{a, b, c}| == 3
  {
    ops := [Reserving(a, now)];
    FirstReservation(a, now);
    ops := OneMore(ops, {a}, a.ip, b, now);
    ops := OneMore(ops, {a} + {b}, b.ip, c, now);
    ThreeDiffer(a, b, c);
  }

  lemma ThreeDiffer(a: SocketAddr, b: SocketAddr, c: SocketAddr)
    requires a != b && b != c && a != c
    ensures |{a, b, c}| == 3 && {a} + {b} + {c} == {a, b, c}
  {
  }

  lemma FirstReservation(a: SocketAddr, now: Instant)
    ensures var ops := [Reserving(a, now)]; Tracking(ops, {a}, a.ip, now)
  {
    assert [Reserving(a, now)][..0] == [];
    assert AfterReserve(EMPTY, Config(1, 2, 1), a.ip, now) == Single(a.ip, now);
  }

  /** So far only reservations, and only the last address is still tracked. */
  predicate Tracking(ops: seq<Op>, live: set<SocketAddr>, ip: IpAddr, now: Instant) {
    && LegalRun(Config(1, 2, 1), ops)
    && Run(Config(1, 2, 1), ops) == Single(ip, now)
    && SessionRun(Config(1, 2, 1), ops) == Sessions(live, {})
  }

  lemma OneMore(ops: seq<Op>, live: set<SocketAddr>, ip: IpAddr, addr: SocketAddr,
                now: Instant) returns (longer: seq<Op>)
    requires Tracking(ops, live, ip, now) && addr !in live && addr.ip != ip
    ensures Tracking(longer, live + {addr}, addr.ip, now)
  {
    longer := ops + [Reserving(addr, now)];
    assert longer[..|ops|] == ops;
    NextReservation(ip, addr.ip, now);
  }

  function Single(ip: IpAddr, now: Instant): HalfOpen {
    HalfOpen(1, map[ip := 1], [ip], map[ip := now], {})
  }

  lemma NextReservation(x: IpAddr, y: IpAddr, now: Instant)
    requires x != y
    ensures Judge(Single(x, now), Config(1, 2, 1), y) == Ok
    ensures AfterReserve(Single(x, now), Config(1, 2, 1), y, now) == Single(y, now)
  {
    SingleEvicts(x, now);
    assert |Single(x, now).perIp| == 1;
    assert Counted(EMPTY, 1, true, y, now) == Single(y, now);
  }

  lemma SingleEvicts(x: IpAddr, now: Instant)
    ensures EvictOldest(Single(x, now)) == EMPTY
  {
    var s := Single(x, now);
    assert StalePrefix(s.perIp.Keys, s.ipOrder) == 0;
    assert s.perIp - {x} == map[] && s.startedAt - {x} == map[] && s.ipOrder[0 + 1..] == [];
  }
}
