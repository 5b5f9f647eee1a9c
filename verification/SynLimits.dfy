/**
 When the half-open limits are limits on the real number of half-open connections, when the accounts
 are exact, and when a close undoes a reservation.
 */
module SynLimits {
  import opened Net
  import opened Sets
  import opened SynGuard

  // ---------------------------------------------------------------------------------------------
  // Exact accounts
  // ---------------------------------------------------------------------------------------------

  ghost predicate ExactAfter(cfg: Config, ops: seq<Op>) {
    Exact(Run(cfg, ops), SessionRun(cfg, ops))
  }

  lemma EvictionIsNotExact(cfg: Config, ops: seq<Op>)
    requires cfg.maxTracked <= USIZE_MAX && LegalRun(cfg, ops) && ops != []
    requires Evicts(Run(cfg, ops[..|ops| - 1]), cfg, ops[|ops| - 1])
    ensures !ExactAfter(cfg, ops)
  {
    var before, op := ops[..|ops| - 1], ops[|ops| - 1];
    assert before + [op] == ops;
    EvictionUndercounts(cfg, before, op);
  }

  /** The accounts are exact after every call of the run. */
  ghost predicate AlwaysExact(cfg: Config, ops: seq<Op>) {
    && ExactAfter(cfg, ops)
    && (ops != [] ==> AlwaysExact(cfg, ops[..|ops| - 1]))
  }

  /** The accounts are exact throughout a run if and only if nothing was evicted in it. */
  lemma {:induction false} AlwaysExactIffEvictionFree(cfg: Config, ops: seq<Op>)
    requires cfg.maxTracked <= USIZE_MAX && LegalRun(cfg, ops)
    ensures AlwaysExact(cfg, ops) <==> EvictionFree(cfg, ops)
  {
    AccountsAreOneSided(cfg, ops);
    if ops != [] {
      var before := ops[..|ops| - 1];
      AlwaysExactIffEvictionFree(cfg, before);
      if Evicts(Run(cfg, before), cfg, ops[|ops| - 1]) { EvictionIsNotExact(cfg, ops); }
    }
  }

  /** Whatever was evicted, a refusal is justified by the connections that are really half open. */
  lemma RefusalIsJustified(cfg: Config, ops: seq<Op>, ip: IpAddr)
    requires cfg.maxTracked <= USIZE_MAX && LegalRun(cfg, ops)
    ensures Judge(Run(cfg, ops), cfg, ip) == GlobalFull ==> |SessionRun(cfg, ops).halfOpen| >= cfg.maxGlobal
    ensures Judge(Run(cfg, ops), cfg, ip) == IpFull ==> |At(SessionRun(cfg, ops).halfOpen, ip)| >= cfg.maxPerIp
  {
    AccountsAreOneSided(cfg, ops);
    assert CountOf(Run(cfg, ops).perIp, ip) <= |At(SessionRun(cfg, ops).halfOpen, ip)|;
  }

  /** Without evictions it happens exactly then. */
  lemma ReserveRefusesIff(cfg: Config, ops: seq<Op>, ip: IpAddr)
    requires cfg.maxTracked <= USIZE_MAX && LegalRun(cfg, ops) && EvictionFree(cfg, ops)
    ensures var halfOpen := SessionRun(cfg, ops).halfOpen;
            && (Judge(Run(cfg, ops), cfg, ip) == GlobalFull <==> |halfOpen| >= cfg.maxGlobal)
            && (Judge(Run(cfg, ops), cfg, ip) == IpFull <==>
                  |halfOpen| < cfg.maxGlobal && |At(halfOpen, ip)| >= cfg.maxPerIp)
  {
    AccountsAreOneSided(cfg, ops);
    assert CountOf(Run(cfg, ops).perIp, ip) == |At(SessionRun(cfg, ops).halfOpen, ip)|;
  }

  // ---------------------------------------------------------------------------------------------
  // The condition on the configuration
  // ---------------------------------------------------------------------------------------------

  /** No session is ever accepted, or every accepted one can be tracked by its own address. */
  predicate Adequate(cfg: Config) {
    cfg.maxPerIp == 0 || cfg.maxGlobal <= AtLeastOne(cfg.maxTracked)
  }

  ghost predicate BoundsHalfOpen(cfg: Config) {
    forall ops :: LegalRun(cfg, ops) ==> |SessionRun(cfg, ops).halfOpen| <= cfg.maxGlobal
  }

  ghost predicate BoundsEveryIp(cfg: Config) {
    forall ops, ip :: LegalRun(cfg, ops) ==> |At(SessionRun(cfg, ops).halfOpen, ip)| <= cfg.maxPerIp
  }

  ghost predicate NeverEvicts(cfg: Config) {
    forall ops :: LegalRun(cfg, ops) ==> EvictionFree(cfg, ops)
  }

  function IpsOf(addrs: set<SocketAddr>): set<IpAddr> {
    set a | a in addrs :: a.ip
  }

  lemma {:induction false} ImageSize(addrs: set<SocketAddr>)
    ensures |IpsOf(addrs)| <= |addrs|
    decreases |addrs|
  {
    if addrs != {} {
      var a :| a in addrs;
      ImageSize(addrs - {a});
      assert IpsOf(addrs) == IpsOf(addrs - {a}) + {a.ip};
    }
  }

  /** With exact accounts, no more addresses are tracked than connections are counted. */
  lemma TrackedWithinTotal(s: HalfOpen, cfg: Config, ss: Sessions)
    requires Inv(s, cfg) && Exact(s, ss)
    ensures |s.perIp| <= s.total
  {
    forall ip | ip in s.perIp ensures ip in IpsOf(ss.halfOpen) {
      assert CountOf(s.perIp, ip) >= 1;
      var a :| a in At(ss.halfOpen, ip);
    }
    SubsetSize(s.perIp.Keys, IpsOf(ss.halfOpen));
    ImageSize(ss.halfOpen);
    assert |s.perIp.Keys| == |s.perIp|;
  }

  lemma AdequateStep(s: HalfOpen, cfg: Config, op: Op, ss: Sessions)
    requires Adequate(cfg) && Inv(s, cfg) && Exact(s, ss)
    ensures !Evicts(s, cfg, op)
  {
    TrackedWithinTotal(s, cfg, ss);
  }

  lemma {:induction false} AdequateNeverEvicts(cfg: Config, ops: seq<Op>)
    requires cfg.maxTracked <= USIZE_MAX && Adequate(cfg) && LegalRun(cfg, ops)
    ensures EvictionFree(cfg, ops)
  {
    if ops != [] {
      var before := ops[..|ops| - 1];
      AdequateNeverEvicts(cfg, before);
      AccountsAreOneSided(cfg, before);
      RunKeepsInv(cfg, before);
      AdequateStep(Run(cfg, before), cfg, ops[|ops| - 1], SessionRun(cfg, before));
    }
  }

  // ---------------------------------------------------------------------------------------------
  // Without it: reserving for one address after another, never a tracked one
  // ---------------------------------------------------------------------------------------------

  ghost predicate AllOnes(perIp: Counts) {
    forall ip :: ip in perIp ==> perIp[ip] == 1
  }

  lemma {:induction false} SumOfOnes(perIp: Counts)
    requires AllOnes(perIp)
    ensures Sum(perIp) == |perIp|
    decreases |perIp|
  {
    if perIp != map[] {
      var ip :| ip in perIp;
      SumSplit(perIp, ip);
      assert perIp.Keys == (perIp - {ip}).Keys + {ip};
      SumOfOnes(perIp - {ip});
    }
  }

  /** `n` sessions are half open, all from the pool, and every tracked address counts one of them. */
  ghost predicate Flooded(cfg: Config, ops: seq<Op>, n: nat) {
    && LegalRun(cfg, ops)
    && AllOnes(Run(cfg, ops).perIp)
    && var ss := SessionRun(cfg, ops);
       |ss.halfOpen| == n && ss.settled == {} && FromPool(ss.halfOpen, AtLeastOne(cfg.maxTracked) + 1, n)
  }

  predicate FromPool(addrs: set<SocketAddr>, ips: nat, ports: nat) {
    forall a :: a in addrs ==> a.ip in FirstIps(ips) && a.port < ports
  }

  lemma UntrackedIp(s: HalfOpen, cfg: Config) returns (ip: IpAddr)
    requires Inv(s, cfg)
    ensures ip !in s.perIp && ip in FirstIps(AtLeastOne(cfg.maxTracked) + 1)
  {
    var pool := FirstIps(AtLeastOne(cfg.maxTracked) + 1);
    FirstIpsSize(AtLeastOne(cfg.maxTracked) + 1);
    assert |s.perIp.Keys| == |s.perIp|;
    if pool <= s.perIp.Keys {
      SubsetSize(pool, s.perIp.Keys);
      assert false;
    }
    ip :| ip in pool && ip !in s.perIp;
  }

  /** An untracked address is always accepted, and afterwards every count is still one. */
  lemma FloodStep(s: HalfOpen, cfg: Config, op: Op)
    requires Inv(s, cfg) && AllOnes(s.perIp) && !Adequate(cfg)
    requires op.Reserving? && op.addr.ip !in s.perIp
    ensures Accepts(s, cfg, op) && AllOnes(Step(s, cfg, op).perIp)
  {
    SumOfOnes(s.perIp);
    AcceptedStep(s, cfg, op);
    if AtTrackingCap(s, cfg, op.addr.ip) { EvictionFacts(s, cfg); }
  }

  lemma {:induction false} Flood(cfg: Config, n: nat) returns (ops: seq<Op>)
    requires cfg.maxTracked <= USIZE_MAX && !Adequate(cfg)
    ensures Flooded(cfg, ops, n)
  {
    if n == 0 {
      ops := [];
    } else {
      var before := Flood(cfg, n - 1);
      RunKeepsInv(cfg, before);
      var ip := UntrackedIp(Run(cfg, before), cfg);
      ops := FloodMore(cfg, before, n - 1, ip);
    }
  }

  lemma FloodMore(cfg: Config, before: seq<Op>, n: nat, ip: IpAddr) returns (ops: seq<Op>)
    requires cfg.maxTracked <= USIZE_MAX && !Adequate(cfg) && Flooded(cfg, before, n)
    requires ip !in Run(cfg, before).perIp && ip in FirstIps(AtLeastOne(cfg.maxTracked) + 1)
    ensures Flooded(cfg, ops, n + 1)
  {
    var op := Reserving(SocketAddr(ip, n), 0.0);
    ops := before + [op];
    assert ops[..|before|] == before;
    RunKeepsInv(cfg, before);
    FloodStep(Run(cfg, before), cfg, op);
    FloodSessions(SessionRun(cfg, before), op, AtLeastOne(cfg.maxTracked) + 1, n);
  }

  lemma FloodSessions(ss: Sessions, op: Op, ips: nat, n: nat)
    requires |ss.halfOpen| == n && ss.settled == {} && FromPool(ss.halfOpen, ips, n)
    requires op.Reserving? && op.addr.ip in FirstIps(ips) && op.addr.port == n
    ensures Legal(ss, op)
    ensures var t := SessionStep(ss, op, true);
            |t.halfOpen| == n + 1 && t.settled == {} && FromPool(t.halfOpen, ips, n + 1)
  {
    AddedSize(ss.halfOpen, op.addr, op.addr.ip);
  }

  /** More sessions than `p` for each of `k` addresses: one address has more than `p`. */
  lemma {:induction false} Pigeonhole(addrs: set<SocketAddr>, k: nat, p: nat) returns (ip: IpAddr)
    requires |addrs| > k * p && forall a :: a in addrs ==> a.ip in FirstIps(k)
    ensures |At(addrs, ip)| > p
  {
    var a :| a in addrs;
    assert a.ip in FirstIps(k);
    if k == 0 {
      assert false;
    } else {
      var own := At(addrs, V4(k - 1));
      if |own| > p {
        ip := V4(k - 1);
      } else {
        assert addrs == own + (addrs - own);
        assert k * p == (k - 1) * p + p;
        ip := Pigeonhole(addrs - own, k - 1, p);
        SubsetSize(At(addrs - own, ip), At(addrs, ip));
      }
    }
  }

  /** Any other configuration can be flooded: any number of half-open sessions, any number from one address. */
  lemma InadequateIsUnbounded(cfg: Config, n: nat) returns (ops: seq<Op>, ip: IpAddr)
    requires cfg.maxTracked <= USIZE_MAX && !Adequate(cfg)
    ensures LegalRun(cfg, ops)
    ensures |SessionRun(cfg, ops).halfOpen| > n && |At(SessionRun(cfg, ops).halfOpen, ip)| > n
  {
    var k := AtLeastOne(cfg.maxTracked) + 1;
    ops := Flood(cfg, k * n + 1);
    var h := SessionRun(cfg, ops).halfOpen;
    ip := Pigeonhole(h, k, n);
    SubsetSize(At(h, ip), h);
  }

  /**
   The exact condition, for every configuration: the global limit bounds the half-open connections,
   the per-IP limit bounds each address's, and no legal run ever evicts, each if and only if the
   limits accept nothing or the global limit is no more than the number of addresses tracked.
   */
  lemma LimitsHoldIff(cfg: Config)
    requires cfg.maxTracked <= USIZE_MAX
    ensures BoundsHalfOpen(cfg) <==> Adequate(cfg)
    ensures BoundsEveryIp(cfg) <==> Adequate(cfg)
    ensures NeverEvicts(cfg) <==> Adequate(cfg)
  {
    if Adequate(cfg) {
      forall ops | LegalRun(cfg, ops) ensures EvictionFree(cfg, ops) {
        AdequateNeverEvicts(cfg, ops);
      }
      forall ops | LegalRun(cfg, ops) ensures |SessionRun(cfg, ops).halfOpen| <= cfg.maxGlobal {
        LimitsHoldWithoutEviction(cfg, ops, V4(0));
      }
      forall ops, ip | LegalRun(cfg, ops) ensures |At(SessionRun(cfg, ops).halfOpen, ip)| <= cfg.maxPerIp {
        LimitsHoldWithoutEviction(cfg, ops, ip);
      }
    } else {
      var ops, ip := InadequateIsUnbounded(cfg, cfg.maxGlobal + cfg.maxPerIp);
      if EvictionFree(cfg, ops) {
        LimitsHoldWithoutEviction(cfg, ops, ip);
        assert false;
      }
    }
  }

  // ---------------------------------------------------------------------------------------------
  // How long an address has been half open
  // ---------------------------------------------------------------------------------------------

  lemma StartStep(s: HalfOpen, cfg: Config, op: Op, ip: IpAddr)
    requires Inv(s, cfg) && ip in Step(s, cfg, op).perIp && ip in Step(s, cfg, op).startedAt
    ensures ip in s.perIp ==> ip in s.startedAt && Step(s, cfg, op).startedAt[ip] == s.startedAt[ip]
    ensures ip !in s.perIp ==>
              op.Reserving? && op.addr.ip == ip && Accepts(s, cfg, op) && Step(s, cfg, op).startedAt[ip] == op.now
  {
    match op
    case Reserving(addr, now) => ReserveStarts(s, cfg, addr.ip, now, ip);
    case Establishing(addr) => SettleStarts(s, cfg, addr.ip, ip);
    case Closing(addr) => SettleStarts(s, cfg, addr.ip, ip);
  }

  lemma ReserveStarts(s: HalfOpen, cfg: Config, own: IpAddr, now: Instant, ip: IpAddr)
    requires Inv(s, cfg) && ip in AfterReserve(s, cfg, own, now).perIp && ip in AfterReserve(s, cfg, own, now).startedAt
    ensures ip in s.perIp ==> ip in s.startedAt && AfterReserve(s, cfg, own, now).startedAt[ip] == s.startedAt[ip]
    ensures ip !in s.perIp ==>
              own == ip && Judge(s, cfg, own) == Ok && AfterReserve(s, cfg, own, now).startedAt[ip] == now
  {
    if Judge(s, cfg, own) == Ok {
      RoomForOne(s, cfg, own);
      RoomKeepsStarts(s, cfg, own);
      CompactionOnlyQueue(Recounted(s, cfg, own, now), cfg.maxTracked);
    }
  }

  lemma RoomKeepsStarts(s: HalfOpen, cfg: Config, own: IpAddr)
    requires Inv(s, cfg)
    ensures var room := MadeRoom(s, cfg, own);
            forall ip :: ip in room.startedAt ==> ip in s.startedAt && room.startedAt[ip] == s.startedAt[ip]
  {
  }

  lemma SettleStarts(s: HalfOpen, cfg: Config, own: IpAddr, ip: IpAddr)
    requires Inv(s, cfg)
    ensures var t := Settle(s, cfg, own);
            ip in t.perIp ==>
              ip in s.perIp && (ip in t.startedAt ==> ip in s.startedAt && t.startedAt[ip] == s.startedAt[ip])
  {
  }

  /** Call `k` is where the address began to be tracked, and it has been ever since. */
  ghost predicate TrackedFrom(cfg: Config, ops: seq<Op>, ip: IpAddr, k: nat) {
    && k < |ops| && ops[k].Reserving? && ops[k].addr.ip == ip
    && ip !in Run(cfg, ops[..k]).perIp
    && forall j :: k < j <= |ops| ==> TrackedAfter(cfg, ops, ip, j)
  }

  predicate TrackedAfter(cfg: Config, ops: seq<Op>, ip: IpAddr, j: nat)
    requires j <= |ops|
  {
    ip in Run(cfg, ops[..j]).perIp
  }

  /** The recorded time is that of the reservation with which the address began to be tracked. */
  lemma {:induction false} StartIsTrackingStart(cfg: Config, ops: seq<Op>, ip: IpAddr) returns (k: nat)
    requires cfg.maxTracked <= USIZE_MAX && ip in Run(cfg, ops).startedAt
    ensures TrackedFrom(cfg, ops, ip, k) && Run(cfg, ops).startedAt[ip] == ops[k].now
  {
    var before := ops[..|ops| - 1];
    LastStart(cfg, ops, ip);
    if ip in Run(cfg, before).perIp {
      k := StartIsTrackingStart(cfg, before, ip);
      TrackedLonger(cfg, ops, ip, k);
    } else {
      k := |ops| - 1;
      assert ops[..|ops|] == ops;
      TrackedNow(cfg, ops, ip, k);
    }
  }

  lemma LastStart(cfg: Config, ops: seq<Op>, ip: IpAddr)
    requires cfg.maxTracked <= USIZE_MAX && ops != [] && ip in Run(cfg, ops).startedAt
    ensures var before, op := Run(cfg, ops[..|ops| - 1]), ops[|ops| - 1];
            && ip in Run(cfg, ops).perIp
            && (ip in before.perIp ==> ip in before.startedAt && Run(cfg, ops).startedAt[ip] == before.startedAt[ip])
            && (ip !in before.perIp ==>
                  op.Reserving? && op.addr.ip == ip && Run(cfg, ops).startedAt[ip] == op.now)
  {
    RunKeepsInv(cfg, ops);
    RunKeepsInv(cfg, ops[..|ops| - 1]);
    StartStep(Run(cfg, ops[..|ops| - 1]), cfg, ops[|ops| - 1], ip);
  }

  lemma TrackedNow(cfg: Config, ops: seq<Op>, ip: IpAddr, k: nat)
    requires |ops| == k + 1 && TrackedAfter(cfg, ops, ip, k + 1) && !TrackedAfter(cfg, ops, ip, k)
    ensures ops[k].Reserving? && ops[k].addr.ip == ip ==> TrackedFrom(cfg, ops, ip, k)
  {
  }

  lemma TrackedLonger(cfg: Config, ops: seq<Op>, ip: IpAddr, k: nat)
    requires ops != [] && ip in Run(cfg, ops).perIp && TrackedFrom(cfg, ops[..|ops| - 1], ip, k)
    ensures TrackedFrom(cfg, ops, ip, k)
  {
    var before := ops[..|ops| - 1];
    assert before[..k] == ops[..k] && ops[..|ops|] == ops;
    forall j | k < j <= |ops| ensures TrackedAfter(cfg, ops, ip, j) {
      if j < |ops| { assert TrackedAfter(cfg, before, ip, j) && before[..j] == ops[..j]; }
    }
  }

  /** Activity is refused exactly when the address has been tracked without a break for longer than the timeout. */
  lemma StalledIff(cfg: Config, ops: seq<Op>, ip: IpAddr, timeout: real, now: Instant)
    requires cfg.maxTracked <= USIZE_MAX
    ensures Stalled(Run(cfg, ops), ip, timeout, now)
       <==> exists k: nat :: TrackedFrom(cfg, ops, ip, k) && Elapsed(ops[k].now, now) > timeout
  {
    RunKeepsInv(cfg, ops);
    if ip in Run(cfg, ops).startedAt {
      var k := StartIsTrackingStart(cfg, ops, ip);
      forall l: nat | TrackedFrom(cfg, ops, ip, l) ensures l == k { OneStart(cfg, ops, ip, k, l); }
    } else {
      assert ops[..|ops|] == ops;
      assert !TrackedAfter(cfg, ops, ip, |ops|);
    }
  }

  lemma OneStart(cfg: Config, ops: seq<Op>, ip: IpAddr, k: nat, l: nat)
    requires TrackedFrom(cfg, ops, ip, k) && TrackedFrom(cfg, ops, ip, l)
    ensures k == l
  {
    assert k < l ==> TrackedAfter(cfg, ops, ip, l);
    assert l < k ==> TrackedAfter(cfg, ops, ip, k);
  }

  // ---------------------------------------------------------------------------------------------
  // Rollback
  // ---------------------------------------------------------------------------------------------

  /** Everything but the queue, which keeps a stale entry. */
  predicate SameCounts(s: HalfOpen, t: HalfOpen) {
    s.total == t.total && s.perIp == t.perIp && s.startedAt == t.startedAt && s.established == t.established
  }

  lemma SettleUndoesCount(room: HalfOpen, cfg: Config, ip: IpAddr, now: Instant, t: HalfOpen)
    requires room.startedAt.Keys == room.perIp.Keys && forall x :: x in room.perIp ==> room.perIp[x] >= 1
    requires SameCounts(t, Counted(room, CountOf(room.perIp, ip) + 1, ip !in room.perIp, ip, now))
    ensures SameCounts(Settle(t, cfg, ip), room)
  {
    if ip in room.perIp {
      assert t.perIp[ip := room.perIp[ip]] == room.perIp;
    } else {
      assert t.perIp - {ip} == room.perIp && t.startedAt - {ip} == room.startedAt;
    }
  }

  lemma RoomIsSameIff(s: HalfOpen, cfg: Config, op: Op)
    requires Inv(s, cfg) && Accepts(s, cfg, op)
    ensures SameCounts(MadeRoom(s, cfg, op.addr.ip), s) <==> !Evicts(s, cfg, op)
  {
    if AtTrackingCap(s, cfg, op.addr.ip) {
      if s.perIp == map[] {
        NothingToEvict(s);
      } else {
        var victim, _ := EvictedVictim(s);
      }
    }
  }

  lemma CloseOfReserve(s: HalfOpen, cfg: Config, addr: SocketAddr, now: Instant)
    requires Inv(s, cfg) && addr !in s.established && Accepts(s, cfg, Reserving(addr, now))
    ensures SameCounts(AfterClose(AfterReserve(s, cfg, addr.ip, now), cfg, addr), MadeRoom(s, cfg, addr.ip))
  {
    var room, t := MadeRoom(s, cfg, addr.ip), AfterReserve(s, cfg, addr.ip, now);
    RoomForOne(s, cfg, addr.ip);
    CompactionOnlyQueue(Recounted(s, cfg, addr.ip, now), cfg.maxTracked);
    SettleUndoesCount(room, cfg, addr.ip, now, t);
    RoomKeepsEstablished(s, cfg, addr.ip);
  }

  lemma RoomKeepsEstablished(s: HalfOpen, cfg: Config, ip: IpAddr)
    ensures MadeRoom(s, cfg, ip).established == s.established
  {
  }

  /** Closing an accepted reservation restores the counts if and only if the reservation evicted nothing. */
  lemma CloseUndoesReserveIff(s: HalfOpen, cfg: Config, addr: SocketAddr, now: Instant)
    requires Inv(s, cfg) && addr !in s.established && Accepts(s, cfg, Reserving(addr, now))
    ensures SameCounts(AfterClose(AfterReserve(s, cfg, addr.ip, now), cfg, addr), s)
       <==> !Evicts(s, cfg, Reserving(addr, now))
  {
    CloseOfReserve(s, cfg, addr, now);
    RoomIsSameIff(s, cfg, Reserving(addr, now));
  }
}
