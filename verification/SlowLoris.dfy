/** The slow-loris guard: the mutable activity map and the idle check it drives. */
module SlowLoris {
  import opened Net
  import opened ActivityMap

  class BoundedActivityMap {
    var entries: Entries
    var order: seq<Stamp>
    var nextSeq: nat
    const max: nat
    /** Number of `pop_front` calls made so far. */
    ghost var pops: nat

    ghost function State(): Activity
      reads this
    {
      Activity(entries, order, nextSeq)
    }

    constructor (max: nat)
      ensures State() == ActivityMap.EMPTY && this.max == AtLeastOne(max) && pops == 0
    {
      entries, order, nextSeq, pops := map[], [], 0, 0;
      this.max := AtLeastOne(max);
    }

    method EvictOldestLive()
      modifies this
      ensures State() == ActivityMap.EvictOldestLive(old(State()))
      ensures pops == old(pops) + EvictionPops(old(State()))
    {
      var i: nat := 0;
      while |order| > 0
        invariant i <= |old(order)| && order == old(order)[i..] && pops == old(pops) + i
        invariant entries == old(entries) && nextSeq == old(nextSeq)
        invariant StalePrefix(entries, old(order)) == i + StalePrefix(entries, order)
        decreases |order|
      {
        var stamp := order[0];
        order, pops := order[1..], pops + 1;
        if IsLive(entries, stamp) {
          entries := entries - {stamp.addr};
          return;
        }
        i := i + 1;
      }
    }

    method CompactOrder()
      modifies this
      ensures State() == Compact(old(State()))
      ensures pops == old(pops) + |old(order)|
    {
      var compacted: seq<Stamp> := [];
      while |order| > 0
        invariant entries == old(entries) && nextSeq == old(nextSeq)
        invariant compacted + LiveStamps(entries, order) == LiveStamps(entries, old(order))
        invariant pops + |order| == old(pops) + |old(order)|
        decreases |order|
      {
        var stamp := order[0];
        order, pops := order[1..], pops + 1;
        if IsLive(entries, stamp) {
          compacted := compacted + [stamp];
        }
      }
      order := compacted;
    }

    method Note(addr: SocketAddr, now: Instant)
      modifies this
      ensures State() == Step(old(State()), max, Op.Note(addr, now))
      ensures pops == old(pops) + StepPops(old(State()), max, Op.Note(addr, now))
    {
      nextSeq := WrappingSucc(nextSeq);
      var isNew := addr !in entries;
      entries := entries[addr := Entry(now, nextSeq)];
      order := order + [Stamp(addr, nextSeq)];
      assert isNew ==> entries.Keys == old(entries).Keys + {addr};
      if isNew && |entries| > max {
        EvictOldestLive();
      }
      if |order| > CompactionThreshold(max) {
        CompactOrder();
      }
    }

    method Get(addr: SocketAddr) returns (lastSeen: Option<Instant>)
      ensures lastSeen == Lookup(State(), addr)
    {
      lastSeen := if addr in entries then Some(entries[addr].lastSeen) else None;
    }

    method Remove(addr: SocketAddr)
      modifies this
      ensures State() == Step(old(State()), max, Op.Remove(addr))
      ensures pops == old(pops) + StepPops(old(State()), max, Op.Remove(addr))
    {
      entries := entries - {addr};
      if |order| > CompactionThreshold(max) {
        CompactOrder();
      }
    }
  }

  /** Whether an activity check at `now` refuses the connection. */
  predicate IdleExpired(a: Activity, addr: SocketAddr, timeout: real, now: Instant) {
    Lookup(a, addr).Some? && Elapsed(Lookup(a, addr).value, now) > timeout
  }

  class SlowLorisGuard {
    const idleTimeout: real
    const gracePeriod: real
    const lastActivity: BoundedActivityMap

    constructor (idleTimeout: real, gracePeriod: real, maxTrackedConnections: nat)
      ensures fresh(lastActivity) && lastActivity.State() == ActivityMap.EMPTY
      ensures this.idleTimeout == idleTimeout && this.gracePeriod == gracePeriod
      ensures lastActivity.max == AtLeastOne(maxTrackedConnections)
    {
      this.idleTimeout, this.gracePeriod := idleTimeout, gracePeriod;
      lastActivity := new BoundedActivityMap(maxTrackedConnections);
    }

    method CheckIdle(addr: SocketAddr, now: Instant) returns (ok: bool)
      ensures ok == !IdleExpired(lastActivity.State(), addr, idleTimeout + gracePeriod, now)
    {
      var last := lastActivity.Get(addr);
      if last.Some? {
        if Elapsed(last.value, now) > idleTimeout + gracePeriod {
          return false;
        }
      }
      return true;
    }

    method OnReserve(addr: SocketAddr, now: Instant)
      modifies lastActivity
      ensures lastActivity.State() == Step(old(lastActivity.State()), lastActivity.max, Op.Note(addr, now))
    {
      lastActivity.Note(addr, now);
    }

    /** The clock is read once for the check and once more for the note. */
    method OnActivity(addr: SocketAddr, checkedAt: Instant, notedAt: Instant) returns (ok: bool)
      modifies lastActivity
      ensures ok == !IdleExpired(old(lastActivity.State()), addr, idleTimeout + gracePeriod, checkedAt)
      ensures lastActivity.State() ==
              if ok then Step(old(lastActivity.State()), lastActivity.max, Op.Note(addr, notedAt))
              else old(lastActivity.State())
    {
      ok := CheckIdle(addr, checkedAt);
      if ok {
        lastActivity.Note(addr, notedAt);
      }
    }

    method OnPayload(addr: SocketAddr, now: Instant)
      modifies lastActivity
      ensures lastActivity.State() == Step(old(lastActivity.State()), lastActivity.max, Op.Note(addr, now))
    {
      lastActivity.Note(addr, now);
    }

    method OnClose(addr: SocketAddr)
      modifies lastActivity
      ensures lastActivity.State() == Step(old(lastActivity.State()), lastActivity.max, Op.Remove(addr))
    {
      lastActivity.Remove(addr);
    }
  }

  /**
   When the guard times a connection out: after its last note at `seen`, and whatever other
   connections were noted and closed later, an activity check refuses it if and only if it has been
   idle for longer than the timeout and at no point were `max` others noted and not yet closed.
   */
  lemma TimeoutIsExact(max: nat, ops: seq<Op>, addr: SocketAddr, seen: Instant, later: seq<Op>,
                       timeout: real, now: Instant)
    requires 1 <= max <= USIZE_MAX && |ops| + 1 + |later| <= U64_MAX
    requires forall op <- later :: op.addr != addr
    ensures IdleExpired(Run(max, ops + [Op.Note(addr, seen)] + later), addr, timeout, now)
       <==> Elapsed(seen, now) > timeout && Uncrowded(max, later)
  {
    GetRefinesLru(max, ops + [Op.Note(addr, seen)] + later, addr);
    StackDistance(max, ops, addr, seen, later);
  }
}
