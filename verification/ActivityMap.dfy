/**
 The slow-loris activity map: a hash map plus a queue of (address, sequence number) stamps that is
 cleaned lazily.  The transition functions below follow the code; the LRU list is what it is for.
 */
module ActivityMap {
  import opened Net
  import opened Sets

  datatype Entry = Entry(lastSeen: Instant, seqNo: nat)

  datatype Stamp = Stamp(addr: SocketAddr, seqNo: nat)

  type Entries = map<SocketAddr, Entry>

  datatype Activity = Activity(entries: Entries, order: seq<Stamp>, nextSeq: nat)

  // ---------------------------------------------------------------------------------------------
  // The code's transitions
  // ---------------------------------------------------------------------------------------------

  const EMPTY := Activity(map[], [], 0)

  predicate IsLive(entries: Entries, stamp: Stamp) {
    stamp.addr in entries && entries[stamp.addr].seqNo == stamp.seqNo
  }

  /** Number of stale stamps in front of the first live one. */
  function StalePrefix(entries: Entries, order: seq<Stamp>): (k: nat)
    ensures k <= |order|
  {
    if order == [] || IsLive(entries, order[0]) then 0 else 1 + StalePrefix(entries, order[1..])
  }

  function LiveStamps(entries: Entries, order: seq<Stamp>): seq<Stamp> {
    if order == [] then []
    else if IsLive(entries, order[0]) then [order[0]] + LiveStamps(entries, order[1..])
    else LiveStamps(entries, order[1..])
  }

  function EvictOldestLive(a: Activity): Activity {
    var k := StalePrefix(a.entries, a.order);
    if k == |a.order| then a.(order := [])
    else a.(entries := a.entries - {a.order[k].addr}, order := a.order[k + 1..])
  }

  function EvictionPops(a: Activity): nat {
    var k := StalePrefix(a.entries, a.order);
    if k == |a.order| then k else k + 1
  }

  function Compact(a: Activity): Activity {
    a.(order := LiveStamps(a.entries, a.order))
  }

  /** `u64::wrapping_add(1)`. */
  function WrappingSucc(n: nat): (r: nat)
    ensures n < U64_MAX ==> r == n + 1
  {
    (n + 1) % (U64_MAX + 1)
  }

  function Inserted(a: Activity, addr: SocketAddr, now: Instant): Activity {
    var seqNo := WrappingSucc(a.nextSeq);
    Activity(a.entries[addr := Entry(now, seqNo)], a.order + [Stamp(addr, seqNo)], seqNo)
  }

  predicate Overfull(a: Activity, max: nat, addr: SocketAddr) {
    addr !in a.entries && |a.entries| + 1 > max
  }

  function Trimmed(a: Activity, max: nat, addr: SocketAddr, now: Instant): Activity {
    var inserted := Inserted(a, addr, now);
    if Overfull(a, max, addr) then EvictOldestLive(inserted) else inserted
  }

  function Settled(a: Activity, max: nat): Activity {
    if |a.order| > CompactionThreshold(max) then Compact(a) else a
  }

  datatype Op = Note(addr: SocketAddr, now: Instant) | Remove(addr: SocketAddr)

  function Step(a: Activity, max: nat, op: Op): Activity {
    match op
    case Note(addr, now) => Settled(Trimmed(a, max, addr, now), max)
    case Remove(addr) => Settled(a.(entries := a.entries - {addr}), max)
  }

  /** How many `pop_front` calls the operation makes. */
  function StepPops(a: Activity, max: nat, op: Op): nat {
    match op
    case Note(addr, now) =>
      var inserted := Inserted(a, addr, now);
      var trimmed := Trimmed(a, max, addr, now);
      (if Overfull(a, max, addr) then EvictionPops(inserted) else 0) + SettlePops(trimmed, max)
    case Remove(addr) =>
      SettlePops(a, max)
  }

  function SettlePops(a: Activity, max: nat): nat {
    if |a.order| > CompactionThreshold(max) then |a.order| else 0
  }

  function Run(max: nat, ops: seq<Op>): Activity {
    if ops == [] then EMPTY else Step(Run(max, ops[..|ops| - 1]), max, ops[|ops| - 1])
  }

  function RunPops(max: nat, ops: seq<Op>): nat {
    if ops == [] then 0
    else
      var before := ops[..|ops| - 1];
      RunPops(max, before) + StepPops(Run(max, before), max, ops[|ops| - 1])
  }

  function Notes(ops: seq<Op>): nat {
    if ops == [] then 0 else Notes(ops[..|ops| - 1]) + (if ops[|ops| - 1].Note? then 1 else 0)
  }

  function Lookup(a: Activity, addr: SocketAddr): Option<Instant> {
    if addr in a.entries then Some(a.entries[addr].lastSeen) else None
  }

  // ---------------------------------------------------------------------------------------------
  // The specification: a recency list, least recently noted address first
  // ---------------------------------------------------------------------------------------------

  datatype Seen = Seen(addr: SocketAddr, at: Instant)

  function Without(l: seq<Seen>, addr: SocketAddr): seq<Seen> {
    if l == [] then []
    else if l[0].addr == addr then Without(l[1..], addr)
    else [l[0]] + Without(l[1..], addr)
  }

  function LruStep(l: seq<Seen>, max: nat, op: Op): seq<Seen> {
    match op
    case Note(addr, now) =>
      var noted := Without(l, addr) + [Seen(addr, now)];
      if |noted| > max then noted[1..] else noted
    case Remove(addr) => Without(l, addr)
  }

  function LruRun(max: nat, ops: seq<Op>): seq<Seen> {
    if ops == [] then [] else LruStep(LruRun(max, ops[..|ops| - 1]), max, ops[|ops| - 1])
  }

  function LruLookup(l: seq<Seen>, addr: SocketAddr): Option<Instant> {
    if l == [] then None else if l[0].addr == addr then Some(l[0].at) else LruLookup(l[1..], addr)
  }

  /** The abstraction: live stamps, in queue order, with the time stored in the map. */
  function Recency(entries: Entries, order: seq<Stamp>): seq<Seen> {
    if order == [] then []
    else if IsLive(entries, order[0]) then
      [Seen(order[0].addr, entries[order[0].addr].lastSeen)] + Recency(entries, order[1..])
    else Recency(entries, order[1..])
  }

  /** Sequence numbers strictly increase along the queue and never exceed the counter. */
  ghost predicate Increasing(order: seq<Stamp>, lo: nat, hi: nat) {
    order == [] || (lo < order[0].seqNo <= hi && Increasing(order[1..], order[0].seqNo, hi))
  }

  /** The address's current stamp is still queued. */
  ghost predicate Queued(entries: Entries, order: seq<Stamp>, addr: SocketAddr)
    requires addr in entries
  {
    Stamp(addr, entries[addr].seqNo) in order
  }

  ghost predicate Consistent(a: Activity) {
    && Increasing(a.order, 0, a.nextSeq)
    && (forall addr :: addr in a.entries ==> Queued(a.entries, a.order, addr))
  }

  ghost predicate Bounded(a: Activity, max: nat) {
    && |a.entries| <= max
    && |a.order| <= CompactionThreshold(max)
  }

  // ---------------------------------------------------------------------------------------------
  // Lemmas about the abstraction
  // ---------------------------------------------------------------------------------------------

  lemma {:induction false} RecencyAppend(entries: Entries, order: seq<Stamp>, stamp: Stamp)
    ensures Recency(entries, order + [stamp]) == Recency(entries, order) + Recency(entries, [stamp])
  {
    if order != [] {
      assert (order + [stamp])[1..] == order[1..] + [stamp];
      RecencyAppend(entries, order[1..], stamp);
    } else {
      assert order + [stamp] == [stamp];
    }
  }

  lemma WithoutCons(x: Seen, l: seq<Seen>, addr: SocketAddr)
    ensures Without([x] + l, addr) == if x.addr == addr then Without(l, addr) else [x] + Without(l, addr)
  {
    assert ([x] + l)[1..] == l;
  }

  lemma RecencyCons(entries: Entries, stamp: Stamp, order: seq<Stamp>)
    ensures Recency(entries, [stamp] + order) == Recency(entries, [stamp]) + Recency(entries, order)
  {
    assert ([stamp] + order)[1..] == order;
    assert [stamp][1..] == [];
  }

  lemma {:induction false} IncreasingAppend(order: seq<Stamp>, lo: nat, hi: nat, stamp: Stamp)
    requires Increasing(order, lo, hi) && lo <= hi < stamp.seqNo
    ensures Increasing(order + [stamp], lo, stamp.seqNo)
  {
    if order != [] {
      assert (order + [stamp])[1..] == order[1..] + [stamp];
      IncreasingAppend(order[1..], order[0].seqNo, hi, stamp);
    }
  }

  lemma {:induction false} IncreasingWeaken(order: seq<Stamp>, lo: nat, lo': nat, hi: nat)
    requires Increasing(order, lo, hi) && lo' <= lo
    ensures Increasing(order, lo', hi)
  {
  }

  lemma {:induction false} IncreasingDrop(order: seq<Stamp>, lo: nat, hi: nat, k: nat)
    requires Increasing(order, lo, hi) && k < |order|
    ensures Increasing(order[k + 1..], order[k].seqNo, hi) && lo < order[k].seqNo <= hi
  {
    if k > 0 {
      IncreasingDrop(order[1..], order[0].seqNo, hi, k - 1);
      assert order[1..][k..] == order[k + 1..];
    }
  }

  /** Re-noting an address makes its old stamp stale and touches no other. */
  lemma {:induction false} RecencyOverwrite(entries: Entries, order: seq<Stamp>, addr: SocketAddr, entry: Entry,
                                            lo: nat, hi: nat)
    requires Increasing(order, lo, hi) && hi < entry.seqNo
    ensures Recency(entries[addr := entry], order) == Without(Recency(entries, order), addr)
  {
    if order != [] {
      RecencyOverwrite(entries, order[1..], addr, entry, order[0].seqNo, hi);
      if IsLive(entries, order[0]) {
        var first := Seen(order[0].addr, entries[order[0].addr].lastSeen);
        WithoutCons(first, Recency(entries, order[1..]), addr);
      }
    }
  }

  lemma {:induction false} RecencyRemove(entries: Entries, order: seq<Stamp>, addr: SocketAddr)
    ensures Recency(entries - {addr}, order) == Without(Recency(entries, order), addr)
  {
    if order != [] {
      RecencyRemove(entries, order[1..], addr);
      if IsLive(entries, order[0]) {
        var first := Seen(order[0].addr, entries[order[0].addr].lastSeen);
        WithoutCons(first, Recency(entries, order[1..]), addr);
      }
    }
  }

  lemma {:induction false} WithoutAbsent(l: seq<Seen>, addr: SocketAddr)
    requires forall i :: 0 <= i < |l| ==> l[i].addr != addr
    ensures Without(l, addr) == l
  {
    if l != [] { WithoutAbsent(l[1..], addr); }
  }

  /** Dropping stale stamps changes nothing. */
  lemma {:induction false} RecencyOfLive(entries: Entries, order: seq<Stamp>)
    ensures Recency(entries, LiveStamps(entries, order)) == Recency(entries, order)
  {
    if order != [] {
      RecencyOfLive(entries, order[1..]);
      RecencyCons(entries, order[0], LiveStamps(entries, order[1..]));
    }
  }

  function AddrsOf(l: seq<Seen>): set<SocketAddr> {
    set i | 0 <= i < |l| :: l[i].addr
  }

  lemma AddrsOfCons(x: Seen, l: seq<Seen>)
    ensures AddrsOf([x] + l) == {x.addr} + AddrsOf(l)
  {
    var c := [x] + l;
    forall a | a in {x.addr} + AddrsOf(l) ensures a in AddrsOf(c) {
      if a == x.addr {
        assert c[0].addr == a;
      } else {
        var i :| 0 <= i < |l| && l[i].addr == a;
        assert c[i + 1].addr == a;
      }
    }
  }

  /** The list reports the map's own entries, all stamped after `lo`. */
  ghost predicate Reports(l: seq<Seen>, entries: Entries, lo: nat) {
    forall x <- l :: x.addr in entries && entries[x.addr].seqNo > lo && x.at == entries[x.addr].lastSeen
  }

  /** Every tracked address has exactly one live stamp, so the list has no duplicates. */
  lemma {:induction false} RecencyDistinct(entries: Entries, order: seq<Stamp>, lo: nat, hi: nat)
    requires Increasing(order, lo, hi)
    ensures Reports(Recency(entries, order), entries, lo)
    ensures |AddrsOf(Recency(entries, order))| == |Recency(entries, order)|
  {
    if order != [] {
      var rest := Recency(entries, order[1..]);
      RecencyDistinct(entries, order[1..], order[0].seqNo, hi);
      if IsLive(entries, order[0]) {
        var first := Seen(order[0].addr, entries[order[0].addr].lastSeen);
        AddrsOfCons(first, rest);
        assert forall x <- rest :: x.addr != first.addr;
      }
    }
  }

  lemma {:induction false} LiveIsRecorded(entries: Entries, order: seq<Stamp>, stamp: Stamp)
    requires stamp in order && IsLive(entries, stamp)
    ensures stamp.addr in AddrsOf(Recency(entries, order))
  {
    var l := Recency(entries, order);
    var rest := Recency(entries, order[1..]);
    if order[0] == stamp {
      assert l[0].addr == stamp.addr;
    } else {
      LiveIsRecorded(entries, order[1..], stamp);
      var i :| 0 <= i < |rest| && rest[i].addr == stamp.addr;
      assert l[|l| - |rest| + i] == rest[i];
    }
  }

  lemma {:induction false} RecencyCoversEntries(a: Activity)
    requires Consistent(a)
    ensures AddrsOf(Recency(a.entries, a.order)) == a.entries.Keys
    ensures |Recency(a.entries, a.order)| == |a.entries|
  {
    RecencyDistinct(a.entries, a.order, 0, a.nextSeq);
    forall addr | addr in a.entries ensures addr in AddrsOf(Recency(a.entries, a.order)) {
      assert Queued(a.entries, a.order, addr);
      LiveIsRecorded(a.entries, a.order, Stamp(addr, a.entries[addr].seqNo));
    }
  }

  lemma {:induction false} StalePrefixIsStale(entries: Entries, order: seq<Stamp>)
    ensures Recency(entries, order) == Recency(entries, order[StalePrefix(entries, order)..])
    ensures var k := StalePrefix(entries, order); k < |order| ==> IsLive(entries, order[k])
  {
    if order != [] && !IsLive(entries, order[0]) {
      StalePrefixIsStale(entries, order[1..]);
      assert order[1..][StalePrefix(entries, order[1..])..] == order[StalePrefix(entries, order)..];
    } else {
      assert order[0..] == order;
    }
  }

  /** The first live stamp heads the list, and forgetting its address leaves the tail alone. */
  lemma VictimHeadsList(entries: Entries, order: seq<Stamp>, k: nat, hi: nat)
    requires Increasing(order, 0, hi) && k == StalePrefix(entries, order) < |order|
    ensures IsLive(entries, order[k])
    ensures Recency(entries, order)
         == [Seen(order[k].addr, entries[order[k].addr].lastSeen)] + Recency(entries, order[k + 1..])
    ensures Recency(entries - {order[k].addr}, order[k + 1..]) == Recency(entries, order[k + 1..])
  {
    StalePrefixIsStale(entries, order);
    var victim, tail := order[k].addr, order[k + 1..];
    assert order[k..] == [order[k]] + tail;
    RecencyCons(entries, order[k], tail);
    IncreasingDrop(order, 0, hi, k);
    RecencyDistinct(entries, tail, order[k].seqNo, hi);
    RecencyRemove(entries, tail, victim);
    WithoutAbsent(Recency(entries, tail), victim);
  }

  /** Eviction removes exactly the least recently noted address. */
  lemma EvictionRemovesLeastRecent(a: Activity)
    requires Consistent(a) && |a.entries| > 0
    ensures var l := Recency(a.entries, a.order);
            && l != []
            && EvictOldestLive(a).entries == a.entries - {l[0].addr}
            && |EvictOldestLive(a).entries| == |a.entries| - 1
            && Recency(EvictOldestLive(a).entries, EvictOldestLive(a).order) == l[1..]
    ensures |EvictOldestLive(a).order| + EvictionPops(a) == |a.order|
  {
    SomethingIsLive(a);
    EvictedHead(a, StalePrefix(a.entries, a.order));
  }

  lemma EvictedHead(a: Activity, k: nat)
    requires Increasing(a.order, 0, a.nextSeq) && k == StalePrefix(a.entries, a.order) < |a.order|
    ensures var l, t := Recency(a.entries, a.order), EvictOldestLive(a);
            && l != [] && t.entries == a.entries - {l[0].addr} && |t.entries| == |a.entries| - 1
            && Recency(t.entries, t.order) == l[1..]
  {
    VictimHeadsList(a.entries, a.order, k, a.nextSeq);
    ForgetOne(a.entries, a.order[k].addr);
  }

  lemma SomethingIsLive(a: Activity)
    requires Consistent(a) && |a.entries| > 0
    ensures StalePrefix(a.entries, a.order) < |a.order|
  {
    RecencyCoversEntries(a);
    StalePrefixIsStale(a.entries, a.order);
  }

  lemma ForgetOne(entries: Entries, addr: SocketAddr)
    requires addr in entries
    ensures |entries - {addr}| == |entries| - 1
  {
    assert entries.Keys == (entries - {addr}).Keys + {addr};
  }

  lemma EvictionKeepsConsistency(a: Activity)
    requires Consistent(a)
    ensures Consistent(EvictOldestLive(a))
  {
    var k := StalePrefix(a.entries, a.order);
    var evicted := EvictOldestLive(a);
    if k < |a.order| {
      IncreasingDrop(a.order, 0, a.nextSeq, k);
      IncreasingWeaken(evicted.order, a.order[k].seqNo, 0, a.nextSeq);
    }
    forall addr | addr in evicted.entries
      ensures Queued(evicted.entries, evicted.order, addr)
    {
      assert Queued(a.entries, a.order, addr);
      var stamp := Stamp(addr, a.entries[addr].seqNo);
      LiveStampAfterPrefix(a.entries, a.order, stamp);
      if k < |a.order| {
        assert a.order[k..] == [a.order[k]] + evicted.order;
      }
    }
  }

  /** A live stamp is never popped as stale. */
  lemma {:induction false} LiveStampAfterPrefix(entries: Entries, order: seq<Stamp>, stamp: Stamp)
    requires stamp in order && IsLive(entries, stamp)
    ensures stamp in order[StalePrefix(entries, order)..]
  {
    if !IsLive(entries, order[0]) {
      LiveStampAfterPrefix(entries, order[1..], stamp);
      assert order[1..][StalePrefix(entries, order[1..])..] == order[StalePrefix(entries, order)..];
    } else {
      assert order[0..] == order;
    }
  }

  lemma {:induction false} LiveStampsKeep(entries: Entries, order: seq<Stamp>, lo: nat, hi: nat)
    requires Increasing(order, lo, hi)
    ensures Increasing(LiveStamps(entries, order), lo, hi)
    ensures forall stamp <- order :: IsLive(entries, stamp) ==> stamp in LiveStamps(entries, order)
    ensures forall stamp <- LiveStamps(entries, order) :: IsLive(entries, stamp)
    ensures |LiveStamps(entries, order)| == |Recency(entries, order)| <= |order|
  {
    if order != [] {
      LiveStampsKeep(entries, order[1..], order[0].seqNo, hi);
      IncreasingWeaken(LiveStamps(entries, order[1..]), order[0].seqNo, lo, hi);
    }
  }

  /** Compaction leaves the abstract list unchanged and keeps one stamp per tracked address. */
  lemma CompactionKeepsList(a: Activity)
    requires Consistent(a)
    ensures Consistent(Compact(a))
    ensures Recency(a.entries, Compact(a).order) == Recency(a.entries, a.order)
    ensures |Compact(a).order| == |a.entries|
  {
    LiveStampsKeep(a.entries, a.order, 0, a.nextSeq);
    assert forall addr :: addr in a.entries ==> Queued(a.entries, a.order, addr);
    RecencyOfLive(a.entries, a.order);
    RecencyCoversEntries(a);
  }

  lemma InsertionMovesToBack(a: Activity, addr: SocketAddr, now: Instant)
    requires Consistent(a) && a.nextSeq < U64_MAX
    ensures var b := Inserted(a, addr, now);
            Recency(b.entries, b.order) == Without(Recency(a.entries, a.order), addr) + [Seen(addr, now)]
  {
    var b := Inserted(a, addr, now);
    RecencyAppend(b.entries, a.order, Stamp(addr, b.nextSeq));
    RecencyOverwrite(a.entries, a.order, addr, Entry(now, b.nextSeq), 0, a.nextSeq);
  }

  lemma InsertionKeepsConsistency(a: Activity, addr: SocketAddr, now: Instant)
    requires Consistent(a) && a.nextSeq < U64_MAX
    ensures var b := Inserted(a, addr, now);
            && Consistent(b)
            && |b.entries| == if addr in a.entries then |a.entries| else |a.entries| + 1
  {
    var b := Inserted(a, addr, now);
    IncreasingAppend(a.order, 0, a.nextSeq, Stamp(addr, b.nextSeq));
    assert b.entries.Keys == a.entries.Keys + {addr};
    forall x | x in b.entries ensures Queued(b.entries, b.order, x) {
      if x == addr {
        assert b.order[|a.order|] == Stamp(addr, b.nextSeq);
      } else {
        assert Queued(a.entries, a.order, x);
      }
    }
  }

  // ---------------------------------------------------------------------------------------------
  // Refinement
  // ---------------------------------------------------------------------------------------------

  lemma TrimRefines(a: Activity, max: nat, addr: SocketAddr, now: Instant)
    requires Consistent(a) && Bounded(a, max) && 1 <= max && a.nextSeq < U64_MAX
    ensures var b := Trimmed(a, max, addr, now);
            && Consistent(b) && |b.entries| <= max && b.nextSeq == a.nextSeq + 1
            && Recency(b.entries, b.order) == LruStep(Recency(a.entries, a.order), max, Note(addr, now))
    ensures var evicted := if Overfull(a, max, addr) then EvictionPops(Inserted(a, addr, now)) else 0;
            |Trimmed(a, max, addr, now).order| + evicted == |a.order| + 1
  {
    var inserted := Inserted(a, addr, now);
    InsertionMovesToBack(a, addr, now);
    InsertionKeepsConsistency(a, addr, now);
    RecencyCoversEntries(inserted);
    if Overfull(a, max, addr) {
      EvictionRemovesLeastRecent(inserted);
      EvictionKeepsConsistency(inserted);
    }
  }

  /** Before the counter wraps, one operation on the map is one operation on the LRU list. */
  lemma StepRefines(a: Activity, max: nat, op: Op)
    requires Consistent(a) && Bounded(a, max) && 1 <= max <= USIZE_MAX && a.nextSeq < U64_MAX
    ensures Consistent(Step(a, max, op)) && Bounded(Step(a, max, op), max)
    ensures Recency(Step(a, max, op).entries, Step(a, max, op).order)
         == LruStep(Recency(a.entries, a.order), max, op)
    ensures Step(a, max, op).nextSeq == a.nextSeq + if op.Note? then 1 else 0
  {
    RecencyCoversEntries(a);
    match op {
      case Note(addr, now) =>
        TrimRefines(a, max, addr, now);
        CompactionKeepsList(Trimmed(a, max, addr, now));
      case Remove(addr) =>
        RecencyRemove(a.entries, a.order, addr);
        assert a.entries.Keys >= (a.entries - {addr}).Keys;
        forall x | x in a.entries - {addr} ensures Queued(a.entries - {addr}, a.order, x) {
          assert Queued(a.entries, a.order, x);
        }
    }
  }

  /** Every run refines the LRU list, and every lookup answers as the list does. */
  lemma {:induction false} RunRefinesLru(max: nat, ops: seq<Op>)
    requires 1 <= max <= USIZE_MAX && |ops| <= U64_MAX
    ensures Consistent(Run(max, ops)) && Bounded(Run(max, ops), max)
    ensures Recency(Run(max, ops).entries, Run(max, ops).order) == LruRun(max, ops)
    ensures Run(max, ops).nextSeq == Notes(ops) <= |ops|
  {
    if ops != [] {
      var before := ops[..|ops| - 1];
      RunRefinesLru(max, before);
      StepRefines(Run(max, before), max, ops[|ops| - 1]);
    }
  }

  lemma {:induction false} LookupAgrees(entries: Entries, order: seq<Stamp>, addr: SocketAddr, lo: nat, hi: nat)
    requires Increasing(order, lo, hi)
    requires addr in entries ==> Queued(entries, order, addr)
    ensures LruLookup(Recency(entries, order), addr)
         == if addr in entries then Some(entries[addr].lastSeen) else None
  {
    RecencyDistinct(entries, order, lo, hi);
    if addr in entries { LiveIsRecorded(entries, order, Stamp(addr, entries[addr].seqNo)); }
    LookupFinds(Recency(entries, order), addr);
  }

  lemma {:induction false} LookupFinds(l: seq<Seen>, addr: SocketAddr)
    ensures LruLookup(l, addr).None? <==> addr !in AddrsOf(l)
    ensures LruLookup(l, addr).Some? ==> Seen(addr, LruLookup(l, addr).value) in l
  {
    if l != [] {
      LookupFinds(l[1..], addr);
      AddrsOfCons(l[0], l[1..]);
      assert l == [l[0]] + l[1..];
    }
  }

  lemma GetRefinesLru(max: nat, ops: seq<Op>, addr: SocketAddr)
    requires 1 <= max <= USIZE_MAX && |ops| <= U64_MAX
    ensures Lookup(Run(max, ops), addr) == LruLookup(LruRun(max, ops), addr)
  {
    RunRefinesLru(max, ops);
    var a := Run(max, ops);
    LookupAgrees(a.entries, a.order, addr, 0, a.nextSeq);
  }

  // ---------------------------------------------------------------------------------------------
  // Amortised cost
  // ---------------------------------------------------------------------------------------------

  lemma {:induction false} IncreasingIsShort(order: seq<Stamp>, lo: nat, hi: nat)
    requires Increasing(order, lo, hi) && lo <= hi
    ensures |order| <= hi - lo
  {
    if order != [] { IncreasingIsShort(order[1..], order[0].seqNo, hi); }
  }

  /** One operation never raises the potential by more than four per note. */
  lemma StepCost(a: Activity, max: nat, op: Op)
    requires Consistent(a) && Bounded(a, max) && 1 <= max <= USIZE_MAX && a.nextSeq < U64_MAX
    ensures 3 * StepPops(a, max, op) + 4 * |Step(a, max, op).order|
         <= 4 * |a.order| + if op.Note? then 4 else 0
    ensures op.Remove? ==> StepPops(a, max, op) == 0 && Step(a, max, op).order == a.order
  {
    if op.Note? {
      var trimmed := Trimmed(a, max, op.addr, op.now);
      TrimRefines(a, max, op.addr, op.now);
      CompactionKeepsList(trimmed);
      IncreasingIsShort(trimmed.order, 0, trimmed.nextSeq);
    }
  }

  /**
   Eviction and compaction are constant amortised work, and the queue stays within its threshold
   between calls; the compaction in `remove` therefore never fires (see `StepCost`).
   */
  lemma {:induction false} AmortisedCost(max: nat, ops: seq<Op>)
    requires 1 <= max <= USIZE_MAX && |ops| <= U64_MAX
    ensures 3 * RunPops(max, ops) + 4 * |Run(max, ops).order| <= 4 * Notes(ops)
    ensures |Run(max, ops).order| <= CompactionThreshold(max)
  {
    RunRefinesLru(max, ops);
    if ops != [] {
      var before := ops[..|ops| - 1];
      AmortisedCost(max, before);
      RunRefinesLru(max, before);
      StepCost(Run(max, before), max, ops[|ops| - 1]);
    }
  }

  // ---------------------------------------------------------------------------------------------
  // How long an address stays tracked
  // ---------------------------------------------------------------------------------------------

  function After(l: seq<Seen>, addr: SocketAddr): seq<Seen> {
    if l == [] then [] else if l[0].addr == addr then l[1..] else After(l[1..], addr)
  }

  predicate NoDuplicates(l: seq<Seen>) {
    l == [] || (l[0].addr !in AddrsOf(l[1..]) && NoDuplicates(l[1..]))
  }

  function NotedIn(ops: seq<Op>): set<SocketAddr> {
    set op <- ops | op.Note? :: op.addr
  }

  lemma {:induction false} NoDuplicatesCount(l: seq<Seen>)
    requires NoDuplicates(l)
    ensures |AddrsOf(l)| == |l|
  {
    if l != [] {
      AddrsOfCons(l[0], l[1..]);
      assert l == [l[0]] + l[1..];
      NoDuplicatesCount(l[1..]);
    }
  }

  lemma {:induction false} WithoutFacts(l: seq<Seen>, x: SocketAddr)
    ensures AddrsOf(Without(l, x)) == AddrsOf(l) - {x}
    ensures NoDuplicates(l) ==> NoDuplicates(Without(l, x))
    ensures |Without(l, x)| <= |l|
  {
    if l != [] {
      WithoutFacts(l[1..], x);
      AddrsOfCons(l[0], l[1..]);
      assert l == [l[0]] + l[1..];
      AddrsOfCons(l[0], Without(l[1..], x));
    }
  }

  lemma {:induction false} AppendFacts(l: seq<Seen>, y: Seen)
    ensures AddrsOf(l + [y]) == AddrsOf(l) + {y.addr}
    ensures NoDuplicates(l) && y.addr !in AddrsOf(l) ==> NoDuplicates(l + [y])
  {
    if l != [] {
      assert l + [y] == [l[0]] + (l[1..] + [y]);
      assert l == [l[0]] + l[1..];
      AppendFacts(l[1..], y);
      AddrsOfCons(l[0], l[1..]);
      AddrsOfCons(l[0], l[1..] + [y]);
    } else {
      assert l + [y] == [y] + [];
      AddrsOfCons(y, []);
    }
  }

  lemma {:induction false} NoteOther(l: seq<Seen>, addr: SocketAddr, y: Seen)
    requires y.addr != addr
    ensures LruLookup(Without(l, y.addr), addr) == LruLookup(l, addr)
    ensures LruLookup(Without(l, y.addr) + [y], addr) == LruLookup(l, addr)
    ensures After(Without(l, y.addr), addr) == Without(After(l, addr), y.addr)
    ensures LruLookup(l, addr).Some? ==>
              After(Without(l, y.addr) + [y], addr) == Without(After(l, addr), y.addr) + [y]
  {
    if l != [] {
      NoteOther(l[1..], addr, y);
      assert l[0].addr != y.addr ==>
          (Without(l, y.addr) + [y])[1..] == Without(l[1..], y.addr) + [y];
    }
  }

  lemma {:induction false} AfterFacts(l: seq<Seen>, addr: SocketAddr)
    requires NoDuplicates(l)
    ensures NoDuplicates(After(l, addr)) && |After(l, addr)| <= |l|
    ensures l != [] && l[0].addr != addr && LruLookup(l, addr).Some? ==> |After(l, addr)| + 1 < |l|
    ensures l != [] && l[0].addr == addr ==> LruLookup(l[1..], addr).None?
    ensures LruLookup(l, addr).Some? ==> |After(l, addr)| < |l|
  {
    if l != [] {
      AfterFacts(l[1..], addr);
      LookupFinds(l[1..], addr);
    }
  }

  lemma LruStepShape(l: seq<Seen>, max: nat, op: Op)
    requires NoDuplicates(l) && |l| <= max
    ensures NoDuplicates(LruStep(l, max, op)) && |LruStep(l, max, op)| <= max
  {
    WithoutFacts(l, op.addr);
    if op.Note? { AppendFacts(Without(l, op.addr), Seen(op.addr, op.now)); }
  }

  /** The list is as it should be after any run. */
  lemma {:induction false} LruRunShape(max: nat, ops: seq<Op>)
    ensures NoDuplicates(LruRun(max, ops))
    ensures |LruRun(max, ops)| <= max
  {
    if ops != [] {
      LruRunShape(max, ops[..|ops| - 1]);
      LruStepShape(LruRun(max, ops[..|ops| - 1]), max, ops[|ops| - 1]);
    }
  }

  /** The address just noted is never the one evicted. */
  lemma NotedIsTracked(max: nat, ops: seq<Op>, addr: SocketAddr, now: Instant)
    requires 1 <= max
    ensures var l := LruRun(max, ops + [Note(addr, now)]);
            LruLookup(l, addr) == Some(now) && After(l, addr) == []
  {
    var l := LruRun(max, ops);
    LruRunShape(max, ops);
    assert (ops + [Note(addr, now)])[..|ops|] == ops;
    WithoutFacts(l, addr);
    LastIsFound(Without(l, addr), Seen(addr, now));
    if |l| == max && |Without(l, addr)| == max {
      LastIsFound(Without(l, addr)[1..], Seen(addr, now));
      AddrsOfCons(Without(l, addr)[0], Without(l, addr)[1..]);
      assert Without(l, addr) == [Without(l, addr)[0]] + Without(l, addr)[1..];
      assert (Without(l, addr) + [Seen(addr, now)])[1..] == Without(l, addr)[1..] + [Seen(addr, now)];
    }
  }

  lemma {:induction false} LastIsFound(l: seq<Seen>, y: Seen)
    requires y.addr !in AddrsOf(l)
    ensures LruLookup(l + [y], y.addr) == Some(y.at) && After(l + [y], y.addr) == []
  {
    if l != [] {
      assert l == [l[0]] + l[1..];
      AddrsOfCons(l[0], l[1..]);
      assert (l + [y])[1..] == l[1..] + [y];
      LastIsFound(l[1..], y);
    }
  }

  /** The addresses noted and not removed since. */
  function LiveIn(ops: seq<Op>): set<SocketAddr> {
    if ops == [] then {}
    else
      var op := ops[|ops| - 1];
      if op.Note? then LiveIn(ops[..|ops| - 1]) + {op.addr} else LiveIn(ops[..|ops| - 1]) - {op.addr}
  }

  /** At no point of the run were `max` addresses noted and not removed since. */
  predicate Uncrowded(max: nat, ops: seq<Op>) {
    |LiveIn(ops)| < max && (ops == [] || Uncrowded(max, ops[..|ops| - 1]))
  }

  predicate RoomAt(max: nat, ops: seq<Op>, k: nat)
    requires k <= |ops|
  {
    |LiveIn(ops[..k])| < max
  }

  lemma {:induction false} RoomEarlier(max: nat, ops: seq<Op>, k: nat)
    requires Uncrowded(max, ops) && k <= |ops|
    ensures RoomAt(max, ops, k)
  {
    if k == |ops| {
      assert ops[..k] == ops;
    } else {
      RoomEarlier(max, ops[..|ops| - 1], k);
      assert ops[..|ops| - 1][..k] == ops[..k];
    }
  }

  lemma {:induction false} UncrowdedThroughout(max: nat, ops: seq<Op>)
    ensures Uncrowded(max, ops) <==> forall k :: 0 <= k <= |ops| ==> RoomAt(max, ops, k)
  {
    if Uncrowded(max, ops) {
      forall k | 0 <= k <= |ops| ensures RoomAt(max, ops, k) { RoomEarlier(max, ops, k); }
    }
    if forall k :: 0 <= k <= |ops| ==> RoomAt(max, ops, k) {
      assert RoomAt(max, ops, |ops|) && ops[..|ops|] == ops;
      if ops != [] {
        var before := ops[..|ops| - 1];
        forall k | 0 <= k <= |before| ensures RoomAt(max, before, k) {
          assert RoomAt(max, ops, k) && before[..k] == ops[..k];
        }
        UncrowdedThroughout(max, before);
      }
    }
  }

  /**
   The exact law of forgetting: an address keeps its time of last note as long as at no point `max`
   other addresses have been noted since and not removed, and those are then exactly the addresses
   behind it; from the first such point on it is gone.
   */
  lemma {:induction false} StackDistance(max: nat, ops: seq<Op>, addr: SocketAddr, now: Instant, later: seq<Op>)
    requires 1 <= max
    requires forall op <- later :: op.addr != addr
    ensures var l := LruRun(max, ops + [Note(addr, now)] + later);
            if Uncrowded(max, later) then LruLookup(l, addr) == Some(now) && AddrsOf(After(l, addr)) == LiveIn(later)
            else LruLookup(l, addr) == None
  {
    if later == [] {
      assert ops + [Note(addr, now)] + later == ops + [Note(addr, now)];
      NotedIsTracked(max, ops, addr, now);
    } else {
      var prior, op := later[..|later| - 1], later[|later| - 1];
      assert later == prior + [op];
      var before := ops + [Note(addr, now)] + prior;
      assert (ops + [Note(addr, now)] + later) == before + [op];
      StackDistance(max, ops, addr, now, prior);
      LruRunShape(max, before);
      LruRunNext(max, before, op);
      StackStep(max, LruRun(max, before), addr, prior, op);
    }
  }

  lemma LruRunNext(max: nat, before: seq<Op>, op: Op)
    ensures LruRun(max, before + [op]) == LruStep(LruRun(max, before), max, op)
  {
    assert (before + [op])[..|before|] == before;
  }

  lemma StackStep(max: nat, l: seq<Seen>, addr: SocketAddr, prior: seq<Op>, op: Op)
    requires 1 <= max && op.addr != addr && NoDuplicates(l) && |l| <= max
    requires if Uncrowded(max, prior) then LruLookup(l, addr).Some? && AddrsOf(After(l, addr)) == LiveIn(prior)
             else LruLookup(l, addr).None?
    ensures var l' := LruStep(l, max, op);
            if Uncrowded(max, prior + [op])
            then LruLookup(l', addr) == LruLookup(l, addr) && AddrsOf(After(l', addr)) == LiveIn(prior + [op])
            else LruLookup(l', addr).None?
  {
    assert (prior + [op])[..|prior|] == prior;
    if LruLookup(l, addr).None? {
      UntrackedStaysUntracked(max, l, addr, op);
    } else if op.Remove? {
      RemovalOfOther(max, l, addr, op);
      SubsetSize(LiveIn(prior) - {op.addr}, LiveIn(prior));
    } else {
      NoteOfOther(max, l, addr, op);
    }
  }

  lemma {:induction false} LiveAmongNoted(ops: seq<Op>)
    ensures LiveIn(ops) <= NotedIn(ops)
    ensures (forall op <- ops :: op.Note?) ==> LiveIn(ops) == NotedIn(ops)
  {
    if ops != [] {
      var before, op := ops[..|ops| - 1], ops[|ops| - 1];
      assert ops == before + [op];
      LiveAmongNoted(before);
      assert NotedIn(ops) == NotedIn(before) + if op.Note? then {op.addr} else {};
    }
  }

  /** In particular fewer than `max` addresses noted at all leave room throughout. */
  lemma {:induction false} FewNotesLeaveRoom(max: nat, ops: seq<Op>)
    requires |NotedIn(ops)| < max
    ensures Uncrowded(max, ops)
  {
    LiveAmongNoted(ops);
    SubsetSize(LiveIn(ops), NotedIn(ops));
    if ops != [] {
      SubsetSize(NotedIn(ops[..|ops| - 1]), NotedIn(ops));
      FewNotesLeaveRoom(max, ops[..|ops| - 1]);
    }
  }

  lemma UntrackedStaysUntracked(max: nat, l: seq<Seen>, addr: SocketAddr, op: Op)
    requires op.addr != addr && LruLookup(l, addr).None?
    ensures LruLookup(LruStep(l, max, op), addr).None?
  {
    NoteOther(l, addr, Seen(op.addr, if op.Note? then op.now else 0.0));
  }

  lemma RemovalOfOther(max: nat, l: seq<Seen>, addr: SocketAddr, op: Op)
    requires op.Remove? && op.addr != addr
    ensures LruLookup(LruStep(l, max, op), addr) == LruLookup(l, addr)
    ensures AddrsOf(After(LruStep(l, max, op), addr)) == AddrsOf(After(l, addr)) - {op.addr}
  {
    NoteOther(l, addr, Seen(op.addr, 0.0));
    WithoutFacts(After(l, addr), op.addr);
  }

  /** Noting another address pushes `addr` out exactly when it becomes the `max`-th one behind it. */
  lemma NoteOfOther(max: nat, l: seq<Seen>, addr: SocketAddr, op: Op)
    requires 1 <= max && op.Note? && op.addr != addr
    requires NoDuplicates(l) && |l| <= max && LruLookup(l, addr).Some?
    ensures var grown := AddrsOf(After(l, addr)) + {op.addr};
            var l' := LruStep(l, max, op);
            if |grown| < max then LruLookup(l', addr) == LruLookup(l, addr) && AddrsOf(After(l', addr)) == grown
            else LruLookup(l', addr).None?
  {
    var y := Seen(op.addr, op.now);
    var noted := Without(l, op.addr) + [y];
    NoteOther(l, addr, y);
    WithoutFacts(l, op.addr);
    AppendFacts(Without(l, op.addr), y);
    AfterOfNoted(l, addr, y);
    AfterFacts(noted, addr);
    AfterFacts(l, addr);
    NotedLength(l, y);
  }

  lemma AfterOfNoted(l: seq<Seen>, addr: SocketAddr, y: Seen)
    requires NoDuplicates(l) && y.addr != addr && LruLookup(l, addr).Some?
    ensures var after := After(Without(l, y.addr) + [y], addr);
            && AddrsOf(after) == AddrsOf(After(l, addr)) + {y.addr}
            && |after| == |AddrsOf(after)|
  {
    NoteOther(l, addr, y);
    AfterFacts(l, addr);
    WithoutFacts(After(l, addr), y.addr);
    AppendFacts(Without(After(l, addr), y.addr), y);
    NoDuplicatesCount(After(Without(l, y.addr) + [y], addr));
  }

  /**
   Removing an address just noted restores the list if and only if the note neither moved an entry
   nor evicted one.
   */
  lemma RemoveUndoesNoteIff(max: nat, l: seq<Seen>, addr: SocketAddr, now: Instant)
    requires 1 <= max && NoDuplicates(l) && |l| <= max
    ensures LruStep(LruStep(l, max, Note(addr, now)), max, Remove(addr)) == l <==> addr !in AddrsOf(l) && |l| < max
  {
    WithoutFacts(LruStep(l, max, Note(addr, now)), addr);
    if addr !in AddrsOf(l) {
      WithoutAbsent(l, addr);
      if |l| < max {
        WithoutLast(l, Seen(addr, now));
      } else {
        FullLosesFirst(l, Seen(addr, now));
      }
    }
  }

  lemma FullLosesFirst(l: seq<Seen>, y: Seen)
    requires l != [] && y.addr !in AddrsOf(l)
    ensures Without((l + [y])[1..], y.addr) == l[1..]
  {
    assert (l + [y])[1..] == l[1..] + [y];
    AddrsOfCons(l[0], l[1..]);
    assert l == [l[0]] + l[1..];
    WithoutLast(l[1..], y);
  }

  lemma {:induction false} WithoutLast(l: seq<Seen>, y: Seen)
    requires y.addr !in AddrsOf(l)
    ensures Without(l + [y], y.addr) == l
  {
    if l != [] {
      AddrsOfCons(l[0], l[1..]);
      assert l == [l[0]] + l[1..];
      assert (l + [y])[1..] == l[1..] + [y];
      WithoutLast(l[1..], y);
    }
  }

  lemma NotedLength(l: seq<Seen>, y: Seen)
    requires NoDuplicates(l)
    ensures |Without(l, y.addr) + [y]| == |l| + if y.addr in AddrsOf(l) then 0 else 1
  {
    WithoutFacts(l, y.addr);
    NoDuplicatesCount(l);
    NoDuplicatesCount(Without(l, y.addr));
  }
}
