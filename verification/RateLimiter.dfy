/**
 The rate limiter: a sliding window of admitted calls, a global token bucket, and a FIFO-bounded map
 of per-IP token buckets.  Token counts are exact reals.
 */
module RateLimiter {
  import opened Net
  import opened Sets

  // ---------------------------------------------------------------------------------------------
  // Token bucket
  // ---------------------------------------------------------------------------------------------

  datatype Bucket = Bucket(capacity: nat, refillPerSecond: nat, tokens: real, lastRefill: Instant)

  function NewBucket(capacity: nat, refillPerSecond: nat, now: Instant): Bucket {
    Bucket(capacity, refillPerSecond, capacity as real, now)
  }

  function Min(a: real, b: real): real {
    if a <= b then a else b
  }

  function Refilled(b: Bucket, now: Instant): real {
    Min(b.tokens + Elapsed(b.lastRefill, now) * b.refillPerSecond as real, b.capacity as real)
  }

  predicate BucketAllows(b: Bucket, now: Instant) {
    Refilled(b, now) >= 1.0
  }

  function BucketStep(b: Bucket, now: Instant): Bucket {
    b.(tokens := Refilled(b, now) - (if BucketAllows(b, now) then 1.0 else 0.0), lastRefill := now)
  }

  class TokenBucket {
    const capacity: nat
    const refillPerSecond: nat
    var tokens: real
    var lastRefill: Instant

    constructor (capacity: nat, refillPerSecond: nat, now: Instant)
      ensures Now() == NewBucket(capacity, refillPerSecond, now)
    {
      this.capacity, this.refillPerSecond := capacity, refillPerSecond;
      tokens, lastRefill := capacity as real, now;
    }

    function Now(): Bucket
      reads this
    {
      Bucket(capacity, refillPerSecond, tokens, lastRefill)
    }

    method Allow(now: Instant) returns (ok: bool)
      modifies this
      ensures ok == BucketAllows(old(Now()), now) && Now() == BucketStep(old(Now()), now)
    {
      var elapsed := Elapsed(lastRefill, now);
      lastRefill := now;
      tokens := Min(tokens + elapsed * refillPerSecond as real, capacity as real);
      if tokens >= 1.0 {
        tokens := tokens - 1.0;
        return true;
      }
      return false;
    }
  }

  function BucketRun(b: Bucket, times: seq<Instant>): Bucket {
    if times == [] then b else BucketStep(BucketRun(b, times[..|times| - 1]), times[|times| - 1])
  }

  /** Whether the `j`-th call of the run is allowed. */
  predicate AllowedAt(b: Bucket, times: seq<Instant>, j: nat)
    requires j < |times|
  {
    BucketAllows(BucketRun(b, times[..j]), times[j])
  }

  /** Number of calls allowed among `i..j`. */
  function AllowedBetween(b: Bucket, times: seq<Instant>, i: nat, j: nat): nat
    requires i <= j <= |times|
  {
    if i == j then 0
    else AllowedBetween(b, times, i, j - 1) + if AllowedAt(b, times, j - 1) then 1 else 0
  }

  ghost predicate Nondecreasing(start: Instant, times: seq<Instant>) {
    && (forall i :: 0 <= i < |times| ==> start <= times[i])
    && (forall i, j :: 0 <= i <= j < |times| ==> times[i] <= times[j])
  }

  /** Tokens earned between two clock readings. */
  function Earned(b: Bucket, since: Instant, now: Instant): real {
    (now - since) * b.refillPerSecond as real
  }

  /** What the window of calls `i..j` has left if it started with a full bucket at call `i`. */
  function Left(b: Bucket, times: seq<Instant>, i: nat, j: nat): real
    requires i <= j < |times|
  {
    b.capacity as real + Earned(b, times[i], times[j]) - AllowedBetween(b, times, i, j) as real
  }

  ghost predicate IsLeast(x: real, b: Bucket, times: seq<Instant>, j: nat)
    requires j < |times|
  {
    && (forall i :: 0 <= i <= j ==> x <= Left(b, times, i, j))
    && (exists i :: 0 <= i <= j && x == Left(b, times, i, j))
  }

  lemma {:induction false} RunKeepsParameters(b: Bucket, times: seq<Instant>)
    ensures var r := BucketRun(b, times);
            && r.capacity == b.capacity && r.refillPerSecond == b.refillPerSecond
            && r.lastRefill == if times == [] then b.lastRefill else times[|times| - 1]
  {
    if times != [] { RunKeepsParameters(b, times[..|times| - 1]); }
  }

  /** What call `k` and the time until the next call add to, or take from, every earlier window. */
  function Gain(b: Bucket, times: seq<Instant>, k: nat): real
    requires k + 1 < |times|
  {
    Earned(b, times[k], times[k + 1]) - if AllowedAt(b, times, k) then 1.0 else 0.0
  }

  lemma LeftNext(b: Bucket, times: seq<Instant>, i: nat, k: nat)
    requires i <= k && k + 1 < |times|
    ensures Left(b, times, i, k + 1) == Left(b, times, i, k) + Gain(b, times, k)
  {
  }

  lemma LeftHere(b: Bucket, times: seq<Instant>, j: nat)
    requires j < |times|
    ensures Left(b, times, j, j) == b.capacity as real
  {
  }

  /** Tokens found by call `j`, after its refill. */
  function TokensAt(b: Bucket, times: seq<Instant>, j: nat): real
    requires j < |times|
  {
    Refilled(BucketRun(b, times[..j]), times[j])
  }

  lemma FirstTokens(b: Bucket, times: seq<Instant>)
    requires |times| > 0 && b.lastRefill <= times[0] && b.tokens == b.capacity as real
    ensures TokensAt(b, times, 0) == b.capacity as real
  {
    NonNegativeProduct(times[0] - b.lastRefill, b.refillPerSecond as real);
    assert times[..0] == [];
  }

  lemma NonNegativeProduct(x: real, y: real)
    requires x >= 0.0 && y >= 0.0
    ensures x * y >= 0.0
  {
  }

  lemma RefillAfter(b: Bucket, now: Instant, next: Instant)
    requires now <= next
    ensures Refilled(BucketStep(b, now), next)
         == Min(Refilled(b, now) - (if BucketAllows(b, now) then 1.0 else 0.0) + Earned(b, now, next),
                b.capacity as real)
  {
    var after := BucketStep(b, now);
    EarnedSinceRefill(after, next);
    EarnedByParameters(after, b, now, next);
  }

  lemma EarnedSinceRefill(b: Bucket, now: Instant)
    requires b.lastRefill <= now
    ensures Refilled(b, now) == Min(b.tokens + Earned(b, b.lastRefill, now), b.capacity as real)
  {
    assert Elapsed(b.lastRefill, now) == now - b.lastRefill;
  }

  lemma EarnedByParameters(b: Bucket, c: Bucket, since: Instant, now: Instant)
    requires b.refillPerSecond == c.refillPerSecond
    ensures Earned(b, since, now) == Earned(c, since, now)
  {
  }

  lemma NextTokens(b: Bucket, times: seq<Instant>, k: nat)
    requires k + 1 < |times| && times[k] <= times[k + 1]
    ensures TokensAt(b, times, k + 1) == Min(TokensAt(b, times, k) + Gain(b, times, k), b.capacity as real)
  {
    var before := BucketRun(b, times[..k]);
    assert times[..k + 1][..k] == times[..k];
    RunKeepsParameters(b, times[..k]);
    RefillAfter(before, times[k], times[k + 1]);
    EarnedByParameters(before, b, times[k], times[k + 1]);
  }

  lemma LeastNext(x: real, x': real, b: Bucket, times: seq<Instant>, k: nat, j: nat)
    requires j == k + 1 < |times| && IsLeast(x, b, times, k)
    requires x' == Min(x + Gain(b, times, k), b.capacity as real)
    ensures IsLeast(x', b, times, j)
  {
    LeftHere(b, times, j);
    forall i | 0 <= i <= j ensures x' <= Left(b, times, i, j) {
      if i <= k {
        LeftNext(b, times, i, k);
        assert x <= Left(b, times, i, k);
      }
    }
    var w :| 0 <= w <= k && x == Left(b, times, w, k);
    LeftNext(b, times, w, k);
    assert x' == Left(b, times, w, j) || x' == Left(b, times, j, j);
  }

  /**
   After the refill of call `j`, the bucket holds the least of what is left in the windows ending
   there: capacity + refill * elapsed - calls allowed, over every window start.
   */
  lemma {:induction false} TokensAreTightestWindow(capacity: nat, refill: nat, made: Instant,
                                                   times: seq<Instant>, j: nat)
    requires Nondecreasing(made, times) && j < |times|
    ensures var b := NewBucket(capacity, refill, made); IsLeast(TokensAt(b, times, j), b, times, j)
  {
    var b := NewBucket(capacity, refill, made);
    if j == 0 {
      FirstTokens(b, times);
      LeftHere(b, times, 0);
    } else {
      TokensAreTightestWindow(capacity, refill, made, times, j - 1);
      NextTokens(b, times, j - 1);
      LeastNext(TokensAt(b, times, j - 1), TokensAt(b, times, j), b, times, j - 1, j);
    }
  }

  /** One more call in the window `i..j` would exceed capacity + refill * elapsed. */
  predicate WouldExceed(b: Bucket, times: seq<Instant>, i: nat, j: nat)
    requires i <= j < |times|
  {
    (AllowedBetween(b, times, i, j) + 1) as real > b.capacity as real + Earned(b, times[i], times[j])
  }

  lemma ExceedsIffLessThanOneLeft(b: Bucket, times: seq<Instant>, i: nat, j: nat)
    requires i <= j < |times|
    ensures WouldExceed(b, times, i, j) <==> Left(b, times, i, j) < 1.0
  {
  }

  /** A call is refused if and only if admitting it would put some window of calls over budget. */
  lemma RefusedIffOverBudget(capacity: nat, refill: nat, made: Instant, times: seq<Instant>, j: nat)
    requires Nondecreasing(made, times) && j < |times|
    ensures var b := NewBucket(capacity, refill, made);
            !AllowedAt(b, times, j) <==> exists i :: 0 <= i <= j && WouldExceed(b, times, i, j)
  {
    var b := NewBucket(capacity, refill, made);
    TokensAreTightestWindow(capacity, refill, made, times, j);
    forall i | 0 <= i <= j ensures WouldExceed(b, times, i, j) <==> Left(b, times, i, j) < 1.0 {
      ExceedsIffLessThanOneLeft(b, times, i, j);
    }
  }

  /** No window of calls is ever over budget. */
  lemma {:induction false} NoWindowOverBudget(capacity: nat, refill: nat, made: Instant, times: seq<Instant>,
                                              i: nat, j: nat)
    requires Nondecreasing(made, times) && i <= j < |times|
    ensures var b := NewBucket(capacity, refill, made);
            AllowedBetween(b, times, i, j + 1) as real <= capacity as real + Earned(b, times[i], times[j])
    decreases j
  {
    var b := NewBucket(capacity, refill, made);
    RefusedIffOverBudget(capacity, refill, made, times, j);
    if AllowedAt(b, times, j) {
      assert !WouldExceed(b, times, i, j);
    } else if i < j {
      NoWindowOverBudget(capacity, refill, made, times, i, j - 1);
      EarnedMonotone(b, times[i], times[j - 1], times[j]);
    } else {
      NonNegativeProduct(times[j] - times[i], refill as real);
    }
  }

  lemma EarnedMonotone(b: Bucket, t0: Instant, t1: Instant, t2: Instant)
    requires t1 <= t2
    ensures Earned(b, t0, t1) <= Earned(b, t0, t2)
  {
    NonNegativeProduct(t2 - t1, b.refillPerSecond as real);
  }

  // ---------------------------------------------------------------------------------------------
  // Sliding window
  // ---------------------------------------------------------------------------------------------

  /** Timestamps left after the expired ones are popped from the front. */
  function Expire(window: seq<Instant>, span: real, now: Instant): seq<Instant> {
    if window != [] && Elapsed(window[0], now) > span then Expire(window[1..], span, now) else window
  }

  predicate WindowAllows(window: seq<Instant>, span: real, limit: nat, now: Instant) {
    |Expire(window, span, now)| < limit
  }

  function WindowStep(window: seq<Instant>, span: real, limit: nat, now: Instant): seq<Instant> {
    Expire(window, span, now) + if WindowAllows(window, span, limit, now) then [now] else []
  }

  function WindowRun(span: real, limit: nat, times: seq<Instant>): seq<Instant> {
    if times == [] then []
    else WindowStep(WindowRun(span, limit, times[..|times| - 1]), span, limit, times[|times| - 1])
  }

  /** The timestamps of the admitted calls, in order. */
  function Admitted(span: real, limit: nat, times: seq<Instant>): seq<Instant> {
    if times == [] then []
    else
      var before, now := times[..|times| - 1], times[|times| - 1];
      Admitted(span, limit, before)
      + if WindowAllows(WindowRun(span, limit, before), span, limit, now) then [now] else []
  }

  /** How many of the timestamps lie in the closed interval. */
  function CountIn(s: seq<Instant>, lo: Instant, hi: Instant): nat {
    if s == [] then 0 else (if lo <= s[0] <= hi then 1 else 0) + CountIn(s[1..], lo, hi)
  }

  ghost predicate Ascending(s: seq<Instant>, lo: Instant, hi: Instant) {
    s == [] || (lo <= s[0] <= hi && Ascending(s[1..], s[0], hi))
  }

  lemma {:induction false} AscendingAppend(s: seq<Instant>, lo: Instant, hi: Instant, now: Instant)
    requires Ascending(s, lo, hi) && lo <= hi <= now
    ensures Ascending(s, lo, now) && Ascending(s + [now], lo, now)
  {
    if s != [] {
      AscendingAppend(s[1..], s[0], hi, now);
      assert (s + [now])[1..] == s[1..] + [now];
    } else {
      assert s + [now] == [now];
    }
  }

  lemma {:induction false} CountInAppend(s: seq<Instant>, x: Instant, lo: Instant, hi: Instant)
    ensures CountIn(s + [x], lo, hi) == CountIn(s, lo, hi) + if lo <= x <= hi then 1 else 0
  {
    if s != [] {
      assert (s + [x])[1..] == s[1..] + [x];
      CountInAppend(s[1..], x, lo, hi);
    }
  }

  lemma {:induction false} CountInWider(s: seq<Instant>, first: Instant, lo: Instant, hi: Instant, lo': Instant,
                                        hi': Instant)
    requires Ascending(s, first, hi') && lo' <= lo
    ensures CountIn(s, lo, hi) <= CountIn(s, lo', hi')
  {
    if s != [] { CountInWider(s[1..], s[0], lo, hi, lo', hi'); }
  }

  lemma {:induction false} ExpireTwice(s: seq<Instant>, span: real, t1: Instant, t2: Instant)
    requires t1 <= t2 && span >= 0.0
    ensures Expire(Expire(s, span, t1), span, t2) == Expire(s, span, t2)
  {
    if s != [] { ExpireTwice(s[1..], span, t1, t2); }
  }

  lemma {:induction false} ExpireAppend(s: seq<Instant>, span: real, now: Instant)
    requires span >= 0.0
    ensures Expire(s + [now], span, now) == Expire(s, span, now) + [now]
  {
    if s != [] {
      assert (s + [now])[1..] == s[1..] + [now];
      ExpireAppend(s[1..], span, now);
    }
  }

  /** On ascending timestamps, popping from the front keeps exactly the recent ones. */
  lemma {:induction false} ExpireCounts(s: seq<Instant>, first: Instant, span: real, now: Instant)
    requires Ascending(s, first, now)
    ensures |Expire(s, span, now)| == CountIn(s, now - span, now)
  {
    if s != [] {
      ExpireCounts(s[1..], s[0], span, now);
      if Elapsed(s[0], now) <= span {
        AllRecent(s, s[0], now - span, now);
      }
    }
  }

  lemma {:induction false} AllRecent(s: seq<Instant>, first: Instant, lo: Instant, hi: Instant)
    requires Ascending(s, first, hi) && lo <= first
    ensures CountIn(s, lo, hi) == |s|
  {
    if s != [] { AllRecent(s[1..], s[0], lo, hi); }
  }

  function LastOr(times: seq<Instant>, start: Instant): Instant {
    if times == [] then start else times[|times| - 1]
  }

  lemma LastIsEarlier(start: Instant, times: seq<Instant>, now: Instant)
    requires Nondecreasing(start, times + [now])
    ensures Nondecreasing(start, times) && start <= LastOr(times, start) <= now
  {
    var all := times + [now];
    assert all[|times|] == now;
    assert forall i :: 0 <= i < |times| ==> all[i] == times[i];
  }

  /** The window always holds exactly the admitted timestamps still within the span. */
  lemma {:induction false} WindowIsRecentAdmissions(span: real, limit: nat, times: seq<Instant>, start: Instant)
    requires span >= 0.0 && Nondecreasing(start, times)
    ensures WindowRun(span, limit, times) == Expire(Admitted(span, limit, times), span, LastOr(times, start))
    ensures Ascending(Admitted(span, limit, times), start, LastOr(times, start))
  {
    if times != [] {
      var k := |times| - 1;
      var before, now := times[..k], times[k];
      assert before + [now] == times;
      LastIsEarlier(start, before, now);
      WindowIsRecentAdmissions(span, limit, before, start);
      AdmissionStep(span, limit, WindowRun(span, limit, before), Admitted(span, limit, before),
                    start, LastOr(before, start), now);
    }
  }

  lemma AdmissionStep(span: real, limit: nat, window: seq<Instant>, admitted: seq<Instant>, start: Instant,
                      last: Instant, now: Instant)
    requires span >= 0.0 && start <= last <= now
    requires Ascending(admitted, start, last) && window == Expire(admitted, span, last)
    ensures var admitted' := admitted + if WindowAllows(window, span, limit, now) then [now] else [];
            && Ascending(admitted', start, now)
            && WindowStep(window, span, limit, now) == Expire(admitted', span, now)
    ensures WindowAllows(window, span, limit, now) <==> CountIn(admitted, now - span, now) < limit
  {
    ExpireTwice(admitted, span, last, now);
    AscendingAppend(admitted, start, last, now);
    ExpireAppend(admitted, span, now);
    ExpireCounts(admitted, start, span, now);
    assert admitted + [] == admitted;
  }

  /** A call is refused exactly when `limit` admitted calls lie within the span before it. */
  lemma RefusedIffWindowFull(span: real, limit: nat, times: seq<Instant>, start: Instant, now: Instant)
    requires span >= 0.0 && Nondecreasing(start, times + [now])
    ensures !WindowAllows(WindowRun(span, limit, times), span, limit, now)
       <==> CountIn(Admitted(span, limit, times), now - span, now) >= limit
  {
    LastIsEarlier(start, times, now);
    WindowIsRecentAdmissions(span, limit, times, start);
    AdmissionStep(span, limit, WindowRun(span, limit, times), Admitted(span, limit, times),
                  start, LastOr(times, start), now);
  }

  /** No closed interval of length at most the span ever contains more than `limit` admitted calls. */
  lemma {:induction false} NoIntervalOverLimit(span: real, limit: nat, times: seq<Instant>, start: Instant,
                                               lo: Instant, hi: Instant)
    requires span >= 0.0 && Nondecreasing(start, times) && hi - lo <= span
    ensures CountIn(Admitted(span, limit, times), lo, hi) <= limit
  {
    if times != [] {
      var k := |times| - 1;
      var before, now := times[..k], times[k];
      assert before + [now] == times;
      LastIsEarlier(start, before, now);
      NoIntervalOverLimit(span, limit, before, start, lo, hi);
      var admitted := Admitted(span, limit, before);
      if WindowAllows(WindowRun(span, limit, before), span, limit, now) {
        RefusedIffWindowFull(span, limit, before, start, now);
        WindowIsRecentAdmissions(span, limit, before, start);
        IntervalStep(admitted, span, limit, start, LastOr(before, start), now, lo, hi);
      } else {
        assert admitted + [] == admitted;
      }
    }
  }

  lemma IntervalStep(admitted: seq<Instant>, span: real, limit: nat, start: Instant, last: Instant,
                     now: Instant, lo: Instant, hi: Instant)
    requires Ascending(admitted, start, last) && start <= last <= now && hi - lo <= span
    requires CountIn(admitted, lo, hi) <= limit && CountIn(admitted, now - span, now) < limit
    ensures CountIn(admitted + [now], lo, hi) <= limit
  {
    CountInAppend(admitted, now, lo, hi);
    if lo <= now <= hi {
      AscendingAppend(admitted, start, last, now);
      CountInWider(admitted, start, lo, hi, now - span, now);
    }
  }

  // ---------------------------------------------------------------------------------------------
  // Per-IP buckets, bounded first in first out
  // ---------------------------------------------------------------------------------------------

  datatype IpMap = IpMap(buckets: map<IpAddr, Bucket>, order: seq<IpAddr>)

  datatype IpConfig = IpConfig(max: nat, capacity: nat, refill: nat)

  /** One use of an IP's bucket: `made` is the clock reading taken if the bucket is created. */
  datatype IpCall = IpCall(ip: IpAddr, made: Instant, at: Instant)

  /** A full map gives up its oldest entry. */
  function MadeRoom(m: IpMap, max: nat): IpMap {
    if |m.buckets| >= max && m.order != [] then IpMap(m.buckets - {m.order[0]}, m.order[1..]) else m
  }

  function Found(m: IpMap, cfg: IpConfig, ip: IpAddr, made: Instant): IpMap {
    if ip in m.buckets then m
    else
      var room := MadeRoom(m, cfg.max);
      IpMap(room.buckets[ip := NewBucket(cfg.capacity, cfg.refill, made)], room.order + [ip])
  }

  function IpStep(m: IpMap, cfg: IpConfig, call: IpCall): IpMap {
    var found := Found(m, cfg, call.ip, call.made);
    found.(buckets := found.buckets[call.ip := BucketStep(found.buckets[call.ip], call.at)])
  }

  predicate IpAllows(m: IpMap, cfg: IpConfig, call: IpCall) {
    BucketAllows(Found(m, cfg, call.ip, call.made).buckets[call.ip], call.at)
  }

  function IpRun(cfg: IpConfig, calls: seq<IpCall>): IpMap {
    if calls == [] then IpMap(map[], []) else IpStep(IpRun(cfg, calls[..|calls| - 1]), cfg, calls[|calls| - 1])
  }

  predicate Inserts(cfg: IpConfig, calls: seq<IpCall>, k: nat)
    requires k < |calls|
  {
    calls[k].ip !in IpRun(cfg, calls[..k]).buckets
  }

  /** Insertions of untracked addresses among calls `i..j`. */
  function InsertionsBetween(cfg: IpConfig, calls: seq<IpCall>, i: nat, j: nat): nat
    requires i <= j <= |calls|
  {
    if i == j then 0 else InsertionsBetween(cfg, calls, i, j - 1) + if Inserts(cfg, calls, j - 1) then 1 else 0
  }

  /** When the address used its bucket, among calls `i..j`. */
  function OwnTimes(calls: seq<IpCall>, ip: IpAddr, i: nat, j: nat): seq<Instant>
    requires i <= j <= |calls|
  {
    if i == j then []
    else OwnTimes(calls, ip, i, j - 1) + if calls[j - 1].ip == ip then [calls[j - 1].at] else []
  }

  predicate Distinct(order: seq<IpAddr>) {
    order == [] || (order[0] !in order[1..] && Distinct(order[1..]))
  }

  /** The queue lists the map's keys once each, and there are at most `max`. */
  ghost predicate Fifo(m: IpMap, max: nat) {
    Elems(m.order) == m.buckets.Keys && Distinct(m.order) && |m.order| <= max
  }

  lemma {:induction false} DistinctCount(order: seq<IpAddr>)
    requires Distinct(order)
    ensures |Elems(order)| == |order|
  {
    if order != [] {
      DistinctCount(order[1..]);
      assert order == [order[0]] + order[1..];
      assert Elems(order) == {order[0]} + Elems(order[1..]);
    }
  }

  lemma {:induction false} DistinctAppend(order: seq<IpAddr>, ip: IpAddr)
    requires Distinct(order) && ip !in order
    ensures Distinct(order + [ip])
  {
    if order != [] {
      DistinctAppend(order[1..], ip);
      assert (order + [ip])[1..] == order[1..] + [ip];
    }
  }

  /** What one insertion does to the queue. */
  function NextOrder(order: seq<IpAddr>, max: nat, ip: IpAddr): seq<IpAddr> {
    if ip in order then order else (if |order| >= max && order != [] then order[1..] else order) + [ip]
  }

  lemma EvictKeepsFifo(m: IpMap, max: nat)
    requires Fifo(m, max) && m.order != []
    ensures Fifo(IpMap(m.buckets - {m.order[0]}, m.order[1..]), max - 1)
  {
    assert m.order == [m.order[0]] + m.order[1..];
    assert Elems(m.order) == {m.order[0]} + Elems(m.order[1..]);
  }

  lemma PushKeepsFifo(m: IpMap, max: nat, ip: IpAddr, b: Bucket)
    requires Fifo(m, max) && ip !in m.buckets
    ensures Fifo(IpMap(m.buckets[ip := b], m.order + [ip]), max + 1)
  {
    assert ip !in Elems(m.order);
    DistinctAppend(m.order, ip);
    assert Elems(m.order + [ip]) == Elems(m.order) + {ip};
  }

  lemma StepKeepsFifo(m: IpMap, cfg: IpConfig, call: IpCall)
    requires Fifo(m, cfg.max) && cfg.max >= 1
    ensures Fifo(IpStep(m, cfg, call), cfg.max)
    ensures IpStep(m, cfg, call).order == NextOrder(m.order, cfg.max, call.ip)
    ensures call.ip in m.buckets <==> call.ip in m.order
  {
    DistinctCount(m.order);
    assert call.ip in Elems(m.order) <==> call.ip in m.order;
    if call.ip !in m.buckets {
      var made := NewBucket(cfg.capacity, cfg.refill, call.made);
      if |m.order| >= cfg.max {
        EvictKeepsFifo(m, cfg.max);
        PushKeepsFifo(IpMap(m.buckets - {m.order[0]}, m.order[1..]), cfg.max - 1, call.ip, made);
      } else {
        PushKeepsFifo(m, |m.order|, call.ip, made);
      }
    }
    var found := Found(m, cfg, call.ip, call.made);
    assert IpStep(m, cfg, call).buckets.Keys == found.buckets.Keys;
  }

  lemma {:induction false} RunIsFifo(cfg: IpConfig, calls: seq<IpCall>)
    requires cfg.max >= 1
    ensures Fifo(IpRun(cfg, calls), cfg.max)
  {
    if calls != [] {
      RunIsFifo(cfg, calls[..|calls| - 1]);
      StepKeepsFifo(IpRun(cfg, calls[..|calls| - 1]), cfg, calls[|calls| - 1]);
    }
  }

  /** One call leaves every other address's bucket alone, unless it evicts the oldest. */
  lemma OtherBucketsUntouched(m: IpMap, cfg: IpConfig, call: IpCall, ip: IpAddr)
    requires ip != call.ip
    ensures var m' := IpStep(m, cfg, call);
            if call.ip !in m.buckets && |m.buckets| >= cfg.max && m.order != [] && m.order[0] == ip
            then ip !in m'.buckets
            else (ip in m'.buckets <==> ip in m.buckets) && (ip in m.buckets ==> m'.buckets[ip] == m.buckets[ip])
  {
  }

  /** The address sits in the queue with exactly `behind` others after it. */
  ghost predicate QueuedWith(order: seq<IpAddr>, ip: IpAddr, behind: nat) {
    behind < |order| && order[|order| - 1 - behind] == ip
  }

  lemma {:induction false} HeadOnlyAtHead(order: seq<IpAddr>, i: nat)
    requires Distinct(order) && 0 < i < |order|
    ensures order[i] != order[0]
  {
    assert order[i] == order[1..][i - 1];
  }

  lemma QueueStep(order: seq<IpAddr>, max: nat, ip: IpAddr, behind: nat, next: IpAddr)
    requires Distinct(order) && |order| <= max && behind < max && QueuedWith(order, ip, behind)
    ensures next in order ==> NextOrder(order, max, next) == order
    ensures next !in order && behind + 1 < max ==> QueuedWith(NextOrder(order, max, next), ip, behind + 1)
    ensures next !in order && behind + 1 == max ==> |order| == max && order[0] == ip
    ensures next !in order && behind + 1 < max && |order| == max ==> order[0] != ip
  {
    if next !in order && behind + 1 < max {
      if |order| == max {
        HeadOnlyAtHead(order, |order| - 1 - behind);
        QueuedShift(order[1..], ip, behind, next);
      } else {
        QueuedShift(order, ip, behind, next);
      }
    }
  }

  lemma QueuedShift(order: seq<IpAddr>, ip: IpAddr, behind: nat, next: IpAddr)
    requires QueuedWith(order, ip, behind)
    ensures QueuedWith(order + [next], ip, behind + 1)
  {
  }

  ghost predicate Alive(m: IpMap, ip: IpAddr, behind: nat, b: Bucket) {
    ip in m.buckets && m.buckets[ip] == b && QueuedWith(m.order, ip, behind)
  }

  /** One call either leaves the bucket alone, uses it, or, as the `max`-th insertion behind it, evicts it. */
  lemma AliveStep(m: IpMap, cfg: IpConfig, call: IpCall, ip: IpAddr, behind: nat, b: Bucket)
    requires Fifo(m, cfg.max) && behind < cfg.max && Alive(m, ip, behind, b)
    ensures var m' := IpStep(m, cfg, call);
            if call.ip in m.buckets then Alive(m', ip, behind, if call.ip == ip then BucketStep(b, call.at) else b)
            else if behind + 1 < cfg.max then Alive(m', ip, behind + 1, b)
            else ip !in m'.buckets
  {
    StepKeepsFifo(m, cfg, call);
    DistinctCount(m.order);
    assert |m.buckets| == |m.order|;
    QueueStep(m.order, cfg.max, ip, behind, call.ip);
    if call.ip != ip { OtherBucketsUntouched(m, cfg, call, ip); }
  }

  lemma Born(cfg: IpConfig, m: IpMap, call: IpCall)
    requires Fifo(m, cfg.max) && cfg.max >= 1 && call.ip !in m.buckets
    ensures Alive(IpStep(m, cfg, call), call.ip, 0,
                  BucketRun(NewBucket(cfg.capacity, cfg.refill, call.made), [call.at]))
  {
    StepKeepsFifo(m, cfg, call);
    SingleCall(NewBucket(cfg.capacity, cfg.refill, call.made), call.at);
  }

  lemma RunNext(cfg: IpConfig, calls: seq<IpCall>, k: nat)
    requires k < |calls|
    ensures IpRun(cfg, calls[..k + 1]) == IpStep(IpRun(cfg, calls[..k]), cfg, calls[k])
  {
    assert calls[..k + 1][..k] == calls[..k];
  }

  /** The bucket `made` by call `i` as it stands after its own calls up to `j`. */
  function OwnBucket(cfg: IpConfig, calls: seq<IpCall>, i: nat, j: nat): Bucket
    requires i < j <= |calls|
  {
    BucketRun(NewBucket(cfg.capacity, cfg.refill, calls[i].made), OwnTimes(calls, calls[i].ip, i, j))
  }

  /** The bucket inserted by call `i` is tracked before call `j` and is as its own address's calls left it. */
  ghost predicate Isolated(cfg: IpConfig, calls: seq<IpCall>, i: nat, j: nat)
    requires i < j <= |calls|
  {
    Alive(IpRun(cfg, calls[..j]), calls[i].ip, InsertionsBetween(cfg, calls, i + 1, j), OwnBucket(cfg, calls, i, j))
  }

  /** Isolation holds until the `max`-th later insertion of an untracked address. */
  lemma {:induction false} BucketIsolation(cfg: IpConfig, calls: seq<IpCall>, i: nat, j: nat)
    requires cfg.max >= 1 && i < j <= |calls| && Inserts(cfg, calls, i)
    requires InsertionsBetween(cfg, calls, i + 1, j) < cfg.max
    ensures Isolated(cfg, calls, i, j)
    decreases j
  {
    if j == i + 1 {
      IsolationStart(cfg, calls, i, j);
    } else {
      EarlierInsertions(cfg, calls, i, j);
      BucketIsolation(cfg, calls, i, j - 1);
      IsolationStep(cfg, calls, i, j - 1, j);
    }
  }

  lemma EarlierInsertions(cfg: IpConfig, calls: seq<IpCall>, i: nat, j: nat)
    requires i + 1 < j <= |calls|
    ensures InsertionsBetween(cfg, calls, i + 1, j - 1) <= InsertionsBetween(cfg, calls, i + 1, j)
  {
  }

  lemma IsolationStart(cfg: IpConfig, calls: seq<IpCall>, i: nat, j: nat)
    requires cfg.max >= 1 && i < |calls| && j == i + 1 && Inserts(cfg, calls, i)
    ensures Isolated(cfg, calls, i, j)
  {
    RunNext(cfg, calls, i);
    RunIsFifo(cfg, calls[..i]);
    OwnFirst(calls, i);
    Born(cfg, IpRun(cfg, calls[..i]), calls[i]);
  }

  lemma IsolationStep(cfg: IpConfig, calls: seq<IpCall>, i: nat, k: nat, j: nat)
    requires cfg.max >= 1 && i < k < |calls| && j == k + 1 && InsertionsBetween(cfg, calls, i + 1, j) < cfg.max
    requires Isolated(cfg, calls, i, k)
    ensures Isolated(cfg, calls, i, j)
  {
    RunNext(cfg, calls, k);
    RunIsFifo(cfg, calls[..k]);
    InsertionsNext(cfg, calls, i + 1, k);
    OwnNext(cfg, calls, i, k);
    AliveNext(IpRun(cfg, calls[..k]), cfg, calls[k], calls[i].ip,
              InsertionsBetween(cfg, calls, i + 1, k), InsertionsBetween(cfg, calls, i + 1, k + 1),
              OwnBucket(cfg, calls, i, k), OwnBucket(cfg, calls, i, k + 1));
  }

  lemma AliveNext(m: IpMap, cfg: IpConfig, call: IpCall, ip: IpAddr, behind: nat, behind': nat, b: Bucket, b': Bucket)
    requires Fifo(m, cfg.max) && Alive(m, ip, behind, b)
    requires behind' == behind + (if call.ip in m.buckets then 0 else 1) && behind' < cfg.max
    requires b' == if call.ip == ip then BucketStep(b, call.at) else b
    ensures Alive(IpStep(m, cfg, call), ip, behind', b')
  {
    AliveStep(m, cfg, call, ip, behind, b);
  }

  lemma InsertionsNext(cfg: IpConfig, calls: seq<IpCall>, i: nat, k: nat)
    requires i <= k < |calls|
    ensures InsertionsBetween(cfg, calls, i, k + 1)
         == InsertionsBetween(cfg, calls, i, k) + if calls[k].ip in IpRun(cfg, calls[..k]).buckets then 0 else 1
  {
  }

  /** Lifetime: exactly that `max`-th insertion, call `k`, evicts it. */
  lemma BucketEviction(cfg: IpConfig, calls: seq<IpCall>, i: nat, k: nat)
    requires cfg.max >= 1 && i < k < |calls| && Inserts(cfg, calls, i)
    requires Inserts(cfg, calls, k) && InsertionsBetween(cfg, calls, i + 1, k) == cfg.max - 1
    ensures calls[i].ip in IpRun(cfg, calls[..k]).buckets
    ensures calls[i].ip !in IpRun(cfg, calls[..k + 1]).buckets
  {
    RunNext(cfg, calls, k);
    RunIsFifo(cfg, calls[..k]);
    BucketIsolation(cfg, calls, i, k);
    AliveStep(IpRun(cfg, calls[..k]), cfg, calls[k], calls[i].ip, cfg.max - 1, OwnBucket(cfg, calls, i, k));
  }

  lemma SingleCall(b: Bucket, at: Instant)
    ensures BucketRun(b, [at]) == BucketStep(b, at)
  {
    assert [at][..0] == [];
  }

  lemma OwnNext(cfg: IpConfig, calls: seq<IpCall>, i: nat, k: nat)
    requires i <= k < |calls|
    ensures var ip := calls[i].ip;
            var b := NewBucket(cfg.capacity, cfg.refill, calls[i].made);
            (BucketRun(b, OwnTimes(calls, ip, i, k + 1))
             == var before := BucketRun(b, OwnTimes(calls, ip, i, k));
                if calls[k].ip == ip then BucketStep(before, calls[k].at) else before)
  {
    var own := OwnTimes(calls, calls[i].ip, i, k);
    assert (own + [calls[k].at])[..|own|] == own;
    assert own + [] == own;
  }

  lemma OwnFirst(calls: seq<IpCall>, i: nat)
    requires i < |calls|
    ensures OwnTimes(calls, calls[i].ip, i, i + 1) == [calls[i].at]
  {
  }

  class BoundedIpMap {
    var buckets: map<IpAddr, TokenBucket>
    var order: seq<IpAddr>
    const max: nat

    constructor (max: nat)
      ensures Valid() && buckets == map[] && order == [] && this.max == AtLeastOne(max)
    {
      buckets, order := map[], [];
      this.max := AtLeastOne(max);
    }

    /** No two addresses share a bucket object. */
    ghost predicate Valid()
      reads this
    {
      forall a, b :: a in buckets && b in buckets && a != b ==> buckets[a] != buckets[b]
    }

    ghost function State(): IpMap
      reads this, buckets.Values
    {
      IpMap(map ip | ip in buckets :: buckets[ip].Now(), order)
    }

    method GetOrInsert(ip: IpAddr, capacity: nat, refill: nat, made: Instant) returns (bucket: TokenBucket)
      requires Valid()
      modifies this
      ensures Valid() && ip in buckets && buckets[ip] == bucket
      ensures State() == Found(old(State()), IpConfig(max, capacity, refill), ip, made)
      ensures fresh(buckets.Values - old(buckets.Values))
    {
      assert State().buckets.Keys == buckets.Keys;
      if ip !in buckets {
        MakeRoom();
        Insert(ip, capacity, refill, made);
      }
      bucket := buckets[ip];
    }

    method MakeRoom()
      requires Valid()
      modifies this
      ensures Valid() && buckets.Keys <= old(buckets.Keys) && buckets.Values <= old(buckets.Values)
      ensures State() == MadeRoom(old(State()), max)
    {
      assert State().buckets.Keys == buckets.Keys;
      assert |State().buckets| == |buckets.Keys| == |buckets|;
      if |buckets| >= max {
        if |order| > 0 {
          EvictOldest();
        }
      }
    }

    method EvictOldest()
      requires Valid() && order != []
      modifies this
      ensures Valid() && buckets == old(buckets - {order[0]}) && order == old(order[1..])
      ensures State() == IpMap(old(State()).buckets - {old(order[0])}, old(order[1..]))
    {
      var oldest := order[0];
      order := order[1..];
      buckets := buckets - {oldest};
    }

    method Insert(ip: IpAddr, capacity: nat, refill: nat, made: Instant)
      requires Valid() && ip !in buckets
      modifies this
      ensures Valid() && ip in buckets && fresh(buckets[ip]) && buckets == old(buckets)[ip := buckets[ip]]
      ensures State() == IpMap(old(State()).buckets[ip := NewBucket(capacity, refill, made)], old(order) + [ip])
    {
      var b := new TokenBucket(capacity, refill, made);
      buckets := buckets[ip := b];
      order := order + [ip];
    }

    /** Fetch the bucket, creating it at `call.made` if needed, and spend a token at `call.at`. */
    method Use(call: IpCall, capacity: nat, refill: nat) returns (ok: bool)
      requires Valid()
      modifies this, buckets.Values
      ensures Valid() && fresh(buckets.Values - old(buckets.Values))
      ensures ok == IpAllows(old(State()), IpConfig(max, capacity, refill), call)
      ensures State() == IpStep(old(State()), IpConfig(max, capacity, refill), call)
    {
      var entry := GetOrInsert(call.ip, capacity, refill, call.made);
      ok := Spend(call.ip, entry, call.at);
    }

    method Spend(ip: IpAddr, entry: TokenBucket, at: Instant) returns (ok: bool)
      requires Valid() && ip in buckets && buckets[ip] == entry
      modifies entry
      ensures ok == BucketAllows(old(entry.Now()), at)
      ensures State() == old(State()).(buckets := old(State()).buckets[ip := BucketStep(old(entry.Now()), at)])
    {
      ok := entry.Allow(at);
    }
  }

  // ---------------------------------------------------------------------------------------------
  // The whole limiter
  // ---------------------------------------------------------------------------------------------

  datatype LimiterConfig = LimiterConfig(
    perIp: IpConfig, globalCapacity: nat, globalRefill: nat, span: real, windowLimit: nat)

  datatype Limiter = Limiter(window: seq<Instant>, global: Bucket, perIp: IpMap)

  /** One call; each stage reads the clock for itself. */
  datatype Call = Call(ip: IpAddr, windowAt: Instant, globalAt: Instant, made: Instant, ipAt: Instant)

  datatype Verdict = Allowed | WindowFull | GlobalEmpty | IpEmpty

  function IpPart(call: Call): IpCall {
    IpCall(call.ip, call.made, call.ipAt)
  }

  function Judge(l: Limiter, cfg: LimiterConfig, call: Call): Verdict {
    if !WindowAllows(l.window, cfg.span, cfg.windowLimit, call.windowAt) then WindowFull
    else if !BucketAllows(l.global, call.globalAt) then GlobalEmpty
    else if !IpAllows(l.perIp, cfg.perIp, IpPart(call)) then IpEmpty
    else Allowed
  }

  function LimiterStep(l: Limiter, cfg: LimiterConfig, call: Call): Limiter {
    var verdict := Judge(l, cfg, call);
    Limiter(
      WindowStep(l.window, cfg.span, cfg.windowLimit, call.windowAt),
      if verdict.WindowFull? then l.global else BucketStep(l.global, call.globalAt),
      if verdict.WindowFull? || verdict.GlobalEmpty? then l.perIp else IpStep(l.perIp, cfg.perIp, IpPart(call)))
  }

  class RateLimiterGuard {
    const cfg: LimiterConfig
    var window: seq<Instant>
    const globalBucket: TokenBucket
    const perIp: BoundedIpMap

    constructor (cfg: LimiterConfig, now: Instant)
      ensures this.cfg == cfg.(perIp := cfg.perIp.(max := AtLeastOne(cfg.perIp.max))) && Valid()
      ensures State() == Limiter([], NewBucket(cfg.globalCapacity, cfg.globalRefill, now), IpMap(map[], []))
      ensures fresh(globalBucket) && fresh(perIp)
    {
      this.cfg := cfg.(perIp := cfg.perIp.(max := AtLeastOne(cfg.perIp.max)));
      window := [];
      globalBucket := new TokenBucket(cfg.globalCapacity, cfg.globalRefill, now);
      perIp := new BoundedIpMap(cfg.perIp.max);
    }

    ghost predicate Valid()
      reads this, perIp
    {
      perIp.Valid() && perIp.max == cfg.perIp.max && globalBucket !in perIp.buckets.Values
    }

    ghost function State(): Limiter
      reads this, globalBucket, perIp, perIp.buckets.Values
    {
      Limiter(window, globalBucket.Now(), perIp.State())
    }

    method AllowGlobalWindow(now: Instant) returns (ok: bool)
      modifies this
      ensures ok == WindowAllows(old(window), cfg.span, cfg.windowLimit, now)
      ensures window == WindowStep(old(window), cfg.span, cfg.windowLimit, now)
    {
      while |window| > 0
        invariant Expire(window, cfg.span, now) == Expire(old(window), cfg.span, now)
        decreases |window|
      {
        if Elapsed(window[0], now) > cfg.span {
          window := window[1..];
        } else {
          break;
        }
      }
      if |window| >= cfg.windowLimit {
        return false;
      }
      window := window + [now];
      return true;
    }

    method Allow(call: Call) returns (verdict: Verdict)
      requires Valid()
      modifies this, globalBucket, perIp, perIp.buckets.Values
      ensures Valid() && fresh(perIp.buckets.Values - old(perIp.buckets.Values))
      ensures verdict == Judge(old(State()), cfg, call)
      ensures State() == LimiterStep(old(State()), cfg, call)
    {
      var admitted := AllowGlobalWindow(call.windowAt);
      if !admitted {
        return WindowFull;
      }
      var paid := globalBucket.Allow(call.globalAt);
      if !paid {
        return GlobalEmpty;
      }
      var ok := perIp.Use(IpPart(call), cfg.perIp.capacity, cfg.perIp.refill);
      return if ok then Allowed else IpEmpty;
    }
  }

  lemma {:induction false} ExpiredFront(window: seq<Instant>, span: real, now: Instant)
    ensures |Expire(window, span, now)| <= |window|
    ensures Expire(window, span, now) == window[|window| - |Expire(window, span, now)|..]
    ensures |Expire(window, span, now)| < |window| ==> Elapsed(window[0], now) > span
  {
    if window != [] && Elapsed(window[0], now) > span { ExpiredFront(window[1..], span, now); }
  }

  lemma {:induction false} ShiftIsConstant(window: seq<Instant>, now: Instant, i: nat)
    requires window != [] && window == window[1..] + [now] && i < |window|
    ensures window[i] == now
    decreases |window| - i
  {
    if i + 1 < |window| {
      ShiftIsConstant(window, now, i + 1);
      assert window[i] == (window[1..] + [now])[i];
    } else {
      assert window[i] == (window[1..] + [now])[|window| - 1];
    }
  }

  /** A call that passes the window always changes it, so no later close can be its inverse by doing nothing. */
  lemma AdmittedCallLeavesTrace(l: Limiter, cfg: LimiterConfig, call: Call)
    requires cfg.span >= 0.0
    ensures LimiterStep(l, cfg, call).window == l.window ==> Judge(l, cfg, call).WindowFull?
  {
    var w, now := l.window, call.windowAt;
    if WindowAllows(w, cfg.span, cfg.windowLimit, now) && WindowStep(w, cfg.span, cfg.windowLimit, now) == w {
      ExpiredFront(w, cfg.span, now);
      assert |Expire(w, cfg.span, now)| == |w| - 1;
      ShiftIsConstant(w, now, 0);
      assert false;
    }
  }

  function LimiterRun(cfg: LimiterConfig, start: Instant, calls: seq<Call>): Limiter {
    if calls == [] then Limiter([], NewBucket(cfg.globalCapacity, cfg.globalRefill, start), IpMap(map[], []))
    else LimiterStep(LimiterRun(cfg, start, calls[..|calls| - 1]), cfg, calls[|calls| - 1])
  }

  function VerdictAt(cfg: LimiterConfig, start: Instant, calls: seq<Call>, k: nat): Verdict
    requires k < |calls|
  {
    Judge(LimiterRun(cfg, start, calls[..k]), cfg, calls[k])
  }

  function WindowTimes(calls: seq<Call>): seq<Instant> {
    seq(|calls|, i requires 0 <= i < |calls| => calls[i].windowAt)
  }

  /** When the global bucket was used: the calls the window let through. */
  function GlobalTimes(cfg: LimiterConfig, start: Instant, calls: seq<Call>): seq<Instant> {
    if calls == [] then []
    else
      var k := |calls| - 1;
      GlobalTimes(cfg, start, calls[..k])
      + if VerdictAt(cfg, start, calls, k).WindowFull? then [] else [calls[k].globalAt]
  }

  /** The calls that reached the per-IP map: those the window and the global bucket let through. */
  function IpCalls(cfg: LimiterConfig, start: Instant, calls: seq<Call>): seq<IpCall> {
    if calls == [] then []
    else
      var k := |calls| - 1;
      var verdict := VerdictAt(cfg, start, calls, k);
      IpCalls(cfg, start, calls[..k])
      + if verdict.WindowFull? || verdict.GlobalEmpty? then [] else [IpPart(calls[k])]
  }

  lemma {:induction false} WindowRunsAlone(cfg: LimiterConfig, start: Instant, calls: seq<Call>)
    ensures LimiterRun(cfg, start, calls).window == WindowRun(cfg.span, cfg.windowLimit, WindowTimes(calls))
  {
    if calls != [] {
      var before := calls[..|calls| - 1];
      WindowRunsAlone(cfg, start, before);
      assert WindowTimes(calls)[..|before|] == WindowTimes(before);
    }
  }

  lemma {:induction false} GlobalRunsAlone(cfg: LimiterConfig, start: Instant, calls: seq<Call>)
    ensures LimiterRun(cfg, start, calls).global
         == BucketRun(NewBucket(cfg.globalCapacity, cfg.globalRefill, start), GlobalTimes(cfg, start, calls))
  {
    if calls != [] {
      var k := |calls| - 1;
      GlobalRunsAlone(cfg, start, calls[..k]);
      var times := GlobalTimes(cfg, start, calls[..k]);
      assert (times + [calls[k].globalAt])[..|times|] == times && times + [] == times;
    }
  }

  lemma {:induction false} IpRunsAlone(cfg: LimiterConfig, start: Instant, calls: seq<Call>)
    ensures LimiterRun(cfg, start, calls).perIp == IpRun(cfg.perIp, IpCalls(cfg, start, calls))
  {
    if calls != [] {
      var k := |calls| - 1;
      IpRunsAlone(cfg, start, calls[..k]);
      var ips := IpCalls(cfg, start, calls[..k]);
      assert (ips + [IpPart(calls[k])])[..|ips|] == ips && ips + [] == ips;
    }
  }

  /** Each stage runs as it would alone on exactly the calls the earlier stages let through. */
  lemma StagesRunAlone(cfg: LimiterConfig, start: Instant, calls: seq<Call>)
    ensures var l := LimiterRun(cfg, start, calls);
            && l.window == WindowRun(cfg.span, cfg.windowLimit, WindowTimes(calls))
            && l.global
            == BucketRun(NewBucket(cfg.globalCapacity, cfg.globalRefill, start), GlobalTimes(cfg, start, calls))
            && l.perIp == IpRun(cfg.perIp, IpCalls(cfg, start, calls))
  {
    WindowRunsAlone(cfg, start, calls);
    GlobalRunsAlone(cfg, start, calls);
    IpRunsAlone(cfg, start, calls);
  }

  /** Calls allowed by every stage. */
  function AllowedCount(cfg: LimiterConfig, start: Instant, calls: seq<Call>): nat {
    if calls == [] then 0
    else AllowedCount(cfg, start, calls[..|calls| - 1])
         + if VerdictAt(cfg, start, calls, |calls| - 1).Allowed? then 1 else 0
  }

  /** Calls allowed since call `m` were all paid for by the global bucket. */
  lemma {:induction false} AllowedWithinGlobal(cfg: LimiterConfig, start: Instant, calls: seq<Call>, m: nat)
    requires m <= |calls|
    ensures |GlobalTimes(cfg, start, calls[..m])| <= |GlobalTimes(cfg, start, calls)|
    ensures AllowedCount(cfg, start, calls) - AllowedCount(cfg, start, calls[..m])
         <= AllowedBetween(NewBucket(cfg.globalCapacity, cfg.globalRefill, start), GlobalTimes(cfg, start, calls),
                           |GlobalTimes(cfg, start, calls[..m])|, |GlobalTimes(cfg, start, calls)|)
  {
    if m == |calls| {
      assert calls[..m] == calls;
    } else {
      var k := |calls| - 1;
      var before := calls[..k];
      assert before[..m] == calls[..m];
      AllowedWithinGlobal(cfg, start, before, m);
      GlobalRunsAlone(cfg, start, before);
      GlobalStep(NewBucket(cfg.globalCapacity, cfg.globalRefill, start), GlobalTimes(cfg, start, before),
                 calls[k].globalAt, |GlobalTimes(cfg, start, calls[..m])|);
      assert GlobalTimes(cfg, start, before) + [] == GlobalTimes(cfg, start, before);
    }
  }

  lemma GlobalStep(b: Bucket, times: seq<Instant>, next: Instant, i: nat)
    requires i <= |times|
    ensures AllowedBetween(b, times + [next], i, |times| + 1)
         == AllowedBetween(b, times, i, |times|) + if BucketAllows(BucketRun(b, times), next) then 1 else 0
  {
    AllowedPrefix(b, times, next, i, |times|);
    assert (times + [next])[..|times|] == times;
  }

  lemma {:induction false} AllowedPrefix(b: Bucket, times: seq<Instant>, next: Instant, i: nat, j: nat)
    requires i <= j <= |times|
    ensures AllowedBetween(b, times + [next], i, j) == AllowedBetween(b, times, i, j)
  {
    if i < j {
      AllowedPrefix(b, times, next, i, j - 1);
      assert (times + [next])[..j - 1] == times[..j - 1];
    }
  }

  /**
   However many addresses take part, the calls allowed from call `m` on never exceed the global
   capacity plus what was earned between the first and the last of their uses of the global bucket.
   */
  lemma GlobalBudget(cfg: LimiterConfig, start: Instant, calls: seq<Call>, m: nat)
    requires m <= |calls| && Nondecreasing(start, GlobalTimes(cfg, start, calls))
    ensures |GlobalTimes(cfg, start, calls[..m])| <= |GlobalTimes(cfg, start, calls)|
    ensures var times := GlobalTimes(cfg, start, calls);
            var first := |GlobalTimes(cfg, start, calls[..m])|;
            var b := NewBucket(cfg.globalCapacity, cfg.globalRefill, start);
            var allowed := AllowedCount(cfg, start, calls) - AllowedCount(cfg, start, calls[..m]);
            if first == |times| then allowed <= 0
            else allowed as real <= cfg.globalCapacity as real + Earned(b, times[first], times[|times| - 1])
  {
    AllowedWithinGlobal(cfg, start, calls, m);
    BudgetFrom(cfg.globalCapacity, cfg.globalRefill, start, GlobalTimes(cfg, start, calls),
               |GlobalTimes(cfg, start, calls[..m])|);
  }

  lemma BudgetFrom(capacity: nat, refill: nat, start: Instant, times: seq<Instant>, first: nat)
    requires first <= |times| && Nondecreasing(start, times)
    ensures var b := NewBucket(capacity, refill, start);
            var allowed := AllowedBetween(b, times, first, |times|);
            if first == |times| then allowed == 0
            else allowed as real <= capacity as real + Earned(b, times[first], times[|times| - 1])
  {
    if first < |times| {
      NoWindowOverBudget(capacity, refill, start, times, first, |times| - 1);
    }
  }
}
