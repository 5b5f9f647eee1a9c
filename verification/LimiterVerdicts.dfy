/** What the whole rate limiter answers, in terms of the calls made so far. */
module LimiterVerdicts {
  import opened Net
  import opened RateLimiter
  import opened RateBudget

  // ---------------------------------------------------------------------------------------------
  // The stages' clock readings
  // ---------------------------------------------------------------------------------------------

  /** Every clock reading of a call is no earlier than the same reading of the calls before it. */
  ghost predicate InOrder(start: Instant, calls: seq<Call>) {
    && (forall k :: 0 <= k < |calls| ==> InOrderFrom(start, calls[k]))
    && (forall k, l :: 0 <= k <= l < |calls| ==> NoLater(calls[k], calls[l]))
  }

  predicate InOrderFrom(start: Instant, call: Call) {
    start <= call.windowAt && start <= call.globalAt && start <= call.ipAt && call.made <= call.ipAt
  }

  predicate NoLater(a: Call, b: Call) {
    a.windowAt <= b.windowAt && a.globalAt <= b.globalAt && a.ipAt <= b.ipAt
  }

  lemma WindowTimesInOrder(start: Instant, calls: seq<Call>)
    requires InOrder(start, calls)
    ensures Nondecreasing(start, WindowTimes(calls))
  {
    forall k, l | 0 <= k <= l < |calls| ensures WindowTimes(calls)[k] <= WindowTimes(calls)[l] {
      assert NoLater(calls[k], calls[l]);
    }
    forall k | 0 <= k < |calls| ensures start <= WindowTimes(calls)[k] {
      assert InOrderFrom(start, calls[k]);
    }
  }

  lemma InOrderBefore(start: Instant, calls: seq<Call>, k: nat)
    requires InOrder(start, calls) && k <= |calls|
    ensures InOrder(start, calls[..k])
  {
    forall i, j | 0 <= i <= j < k ensures NoLater(calls[..k][i], calls[..k][j]) {
      assert NoLater(calls[i], calls[j]);
    }
  }

  ghost predicate GlobalUpTo(start: Instant, times: seq<Instant>, last: Instant) {
    Nondecreasing(start, times) && forall k :: 0 <= k < |times| ==> times[k] <= last
  }

  lemma GlobalAppend(start: Instant, times: seq<Instant>, last: Instant, next: Instant)
    requires GlobalUpTo(start, times, last) && start <= last <= next
    ensures GlobalUpTo(start, times, next) && GlobalUpTo(start, times + [next], next)
  {
  }

  lemma {:induction false} GlobalTimesInOrder(cfg: LimiterConfig, start: Instant, calls: seq<Call>)
    requires InOrder(start, calls)
    ensures GlobalUpTo(start, GlobalTimes(cfg, start, calls),
                       if calls == [] then start else calls[|calls| - 1].globalAt)
  {
    if calls != [] {
      var k := |calls| - 1;
      InOrderBefore(start, calls, k);
      GlobalTimesInOrder(cfg, start, calls[..k]);
      assert InOrderFrom(start, calls[k]);
      if k > 0 { assert NoLater(calls[k - 1], calls[k]) && InOrderFrom(start, calls[k - 1]); }
      var times := GlobalTimes(cfg, start, calls[..k]);
      GlobalAppend(start, times, if k == 0 then start else calls[k - 1].globalAt, calls[k].globalAt);
      assert times + [] == times;
    }
  }

  ghost predicate ClockedUpTo(calls: seq<IpCall>, last: Instant) {
    Clocked(calls) && forall k :: 0 <= k < |calls| ==> calls[k].at <= last
  }

  lemma ClockedAppend(calls: seq<IpCall>, last: Instant, next: IpCall)
    requires ClockedUpTo(calls, last) && last <= next.at && next.made <= next.at
    ensures ClockedUpTo(calls, next.at) && ClockedUpTo(calls + [next], next.at)
  {
  }

  lemma {:induction false} IpCallsInOrder(cfg: LimiterConfig, start: Instant, calls: seq<Call>)
    requires InOrder(start, calls)
    ensures ClockedUpTo(IpCalls(cfg, start, calls), if calls == [] then start else calls[|calls| - 1].ipAt)
  {
    if calls != [] {
      var k := |calls| - 1;
      InOrderBefore(start, calls, k);
      IpCallsInOrder(cfg, start, calls[..k]);
      assert InOrderFrom(start, calls[k]);
      if k > 0 { assert NoLater(calls[k - 1], calls[k]); }
      var ips := IpCalls(cfg, start, calls[..k]);
      ClockedAppend(ips, if k == 0 then start else calls[k - 1].ipAt, IpPart(calls[k]));
      assert ips + [] == ips;
    }
  }

  // ---------------------------------------------------------------------------------------------
  // The verdict on the next call
  // ---------------------------------------------------------------------------------------------

  /** `windowLimit` admitted calls lie within the span before this one. */
  ghost predicate WindowIsFull(cfg: LimiterConfig, before: seq<Call>, call: Call) {
    CountIn(Admitted(cfg.span, cfg.windowLimit, WindowTimes(before)), call.windowAt - cfg.span, call.windowAt)
    >= cfg.windowLimit
  }

  /** Admitting the last of these calls would put some window of them over capacity + refill * elapsed. */
  ghost predicate OverBudget(b: Bucket, times: seq<Instant>)
    requires times != []
  {
    var last := |times| - 1;
    exists i :: 0 <= i <= last && WouldExceed(b, times, i, last)
  }

  lemma RefusedIffOver(capacity: nat, refill: nat, made: Instant, times: seq<Instant>)
    requires times != [] && Nondecreasing(made, times)
    ensures !AllowedAt(NewBucket(capacity, refill, made), times, |times| - 1)
       <==> OverBudget(NewBucket(capacity, refill, made), times)
  {
    RefusedIffOverBudget(capacity, refill, made, times, |times| - 1);
  }

  /** This use of the global bucket would put some window of uses over capacity + refill * elapsed. */
  ghost predicate GlobalIsOver(cfg: LimiterConfig, start: Instant, before: seq<Call>, call: Call) {
    var times := GlobalTimes(cfg, start, before) + [call.globalAt];
    OverBudget(NewBucket(cfg.globalCapacity, cfg.globalRefill, start), times)
  }

  /** The per-IP map, used by exactly the calls that reached it, refuses this one. */
  predicate IpIsEmpty(cfg: LimiterConfig, start: Instant, before: seq<Call>, call: Call) {
    var ips := IpCalls(cfg, start, before) + [IpPart(call)];
    !AllowedNow(cfg.perIp, ips, |ips| - 1)
  }

  lemma WindowVerdict(cfg: LimiterConfig, start: Instant, before: seq<Call>, call: Call)
    requires cfg.span >= 0.0 && InOrder(start, before + [call])
    ensures Judge(LimiterRun(cfg, start, before), cfg, call).WindowFull? <==> WindowIsFull(cfg, before, call)
  {
    WindowTimesInOrder(start, before + [call]);
    assert WindowTimes(before + [call]) == WindowTimes(before) + [call.windowAt];
    RefusedIffWindowFull(cfg.span, cfg.windowLimit, WindowTimes(before), start, call.windowAt);
    WindowRunsAlone(cfg, start, before);
  }

  lemma GlobalVerdict(cfg: LimiterConfig, start: Instant, before: seq<Call>, call: Call)
    requires InOrder(start, before + [call])
    ensures !BucketAllows(LimiterRun(cfg, start, before).global, call.globalAt)
       <==> GlobalIsOver(cfg, start, before, call)
  {
    var all := before + [call];
    InOrderBefore(start, all, |before|);
    assert all[..|before|] == before;
    GlobalTimesInOrder(cfg, start, before);
    assert InOrderFrom(start, all[|before|]);
    if before != [] { assert NoLater(all[|before| - 1], all[|before|]) && InOrderFrom(start, all[|before| - 1]); }
    var times := GlobalTimes(cfg, start, before);
    GlobalAppend(start, times, if before == [] then start else before[|before| - 1].globalAt, call.globalAt);
    GlobalRunsAlone(cfg, start, before);
    assert (times + [call.globalAt])[..|times|] == times;
    RefusedIffOver(cfg.globalCapacity, cfg.globalRefill, start, times + [call.globalAt]);
  }

  lemma IpVerdict(cfg: LimiterConfig, start: Instant, before: seq<Call>, call: Call)
    ensures !IpAllows(LimiterRun(cfg, start, before).perIp, cfg.perIp, IpPart(call))
       <==> IpIsEmpty(cfg, start, before, call)
  {
    IpRunsAlone(cfg, start, before);
    var ips := IpCalls(cfg, start, before);
    assert (ips + [IpPart(call)])[..|ips|] == ips;
  }

  /**
   The limiter's answer to any call of any run: refused by the window, by the global bucket or by the
   address's own bucket exactly when that one is full, over budget or empty and the ones before it are
   not, and so allowed exactly when none of them is.
   */
  lemma VerdictIsExact(cfg: LimiterConfig, start: Instant, before: seq<Call>, call: Call)
    requires cfg.span >= 0.0 && InOrder(start, before + [call])
    ensures VerdictAt(cfg, start, before + [call], |before|)
         == if WindowIsFull(cfg, before, call) then WindowFull
            else if GlobalIsOver(cfg, start, before, call) then GlobalEmpty
            else if IpIsEmpty(cfg, start, before, call) then IpEmpty
            else Allowed
  {
    assert (before + [call])[..|before|] == before;
    WindowVerdict(cfg, start, before, call);
    GlobalVerdict(cfg, start, before, call);
    IpVerdict(cfg, start, before, call);
  }

  // ---------------------------------------------------------------------------------------------
  // When an address's own bucket refuses
  // ---------------------------------------------------------------------------------------------

  /** Call `i` inserted the bucket that its address still has before call `k`. */
  predicate InsertedSince(cfg: IpConfig, calls: seq<IpCall>, i: nat, k: nat)
    requires k <= |calls|
  {
    i < k && Inserts(cfg, calls, i) && InsertionsBetween(cfg, calls, i + 1, k) < cfg.max
  }

  /** Every tracked address has such a call. */
  lemma {:induction false} TrackedSince(cfg: IpConfig, calls: seq<IpCall>, ip: IpAddr, k: nat) returns (i: nat)
    requires cfg.max >= 1 && k <= |calls| && ip in IpRun(cfg, calls[..k]).buckets
    ensures InsertedSince(cfg, calls, i, k) && calls[i].ip == ip
    decreases k
  {
    if ip in IpRun(cfg, calls[..k - 1]).buckets {
      i := TrackedSince(cfg, calls, ip, k - 1);
      StillTracked(cfg, calls, i, k);
    } else {
      LastInserts(cfg, calls, ip, k);
      i := k - 1;
    }
  }

  lemma StillTracked(cfg: IpConfig, calls: seq<IpCall>, i: nat, k: nat)
    requires cfg.max >= 1 && 0 < k <= |calls| && InsertedSince(cfg, calls, i, k - 1)
    requires calls[i].ip in IpRun(cfg, calls[..k]).buckets
    ensures InsertedSince(cfg, calls, i, k)
  {
    InsertionsNext(cfg, calls, i + 1, k - 1);
    if InsertionsBetween(cfg, calls, i + 1, k) >= cfg.max {
      BucketEviction(cfg, calls, i, k - 1);
      assert false;
    }
  }

  lemma LastInserts(cfg: IpConfig, calls: seq<IpCall>, ip: IpAddr, k: nat)
    requires cfg.max >= 1 && 0 < k <= |calls|
    requires ip in IpRun(cfg, calls[..k]).buckets && ip !in IpRun(cfg, calls[..k - 1]).buckets
    ensures calls[k - 1].ip == ip && InsertedSince(cfg, calls, k - 1, k)
  {
    RunNext(cfg, calls, k - 1);
    if calls[k - 1].ip != ip { OtherBucketsUntouched(IpRun(cfg, calls[..k - 1]), cfg, calls[k - 1], ip); }
  }

  /**
   The call of an address whose bucket was inserted by call `i` is refused if and only if it would put
   some window of the address's own calls since then over capacity + refill * elapsed.
   */
  lemma OwnBucketRefusesIff(cfg: IpConfig, calls: seq<IpCall>, i: nat, k: nat)
    requires cfg.max >= 1 && Clocked(calls) && k < |calls|
    requires InsertedSince(cfg, calls, i, k) && calls[i].ip == calls[k].ip
    ensures var times := OwnTimes(calls, calls[k].ip, i, k + 1);
            times != [] &&
            (!AllowedNow(cfg, calls, k) <==> OverBudget(NewBucket(cfg.capacity, cfg.refill, calls[i].made), times))
  {
    BucketIsolation(cfg, calls, i, k);
    OwnTimesInOrder(calls, calls[k].ip, i, k + 1);
    OwnTimesGrow(calls, i, k);
    OwnBucketAnswers(cfg, calls, i, k, OwnTimes(calls, calls[k].ip, i, k), OwnTimes(calls, calls[k].ip, i, k + 1));
    RefusedIffOver(cfg.capacity, cfg.refill, calls[i].made, OwnTimes(calls, calls[k].ip, i, k + 1));
  }

  lemma OwnTimesGrow(calls: seq<IpCall>, i: nat, k: nat)
    requires i <= k < |calls|
    ensures OwnTimes(calls, calls[k].ip, i, k + 1) == OwnTimes(calls, calls[k].ip, i, k) + [calls[k].at]
  {
  }

  lemma OwnBucketAnswers(cfg: IpConfig, calls: seq<IpCall>, i: nat, k: nat, own: seq<Instant>, times: seq<Instant>)
    requires i < k < |calls| && calls[i].ip == calls[k].ip && Isolated(cfg, calls, i, k)
    requires own == OwnTimes(calls, calls[k].ip, i, k) && times == own + [calls[k].at]
    ensures AllowedNow(cfg, calls, k) == AllowedAt(NewBucket(cfg.capacity, cfg.refill, calls[i].made), times, |own|)
  {
    assert times[..|own|] == own;
  }

  lemma {:induction false} OwnTimesInOrder(calls: seq<IpCall>, ip: IpAddr, i: nat, j: nat)
    requires Clocked(calls) && i < j <= |calls|
    ensures var times := OwnTimes(calls, ip, i, j);
            Nondecreasing(calls[i].made, times) && forall k :: 0 <= k < |times| ==> times[k] <= calls[j - 1].at
    decreases j
  {
    if j > i + 1 { OwnTimesInOrder(calls, ip, i, j - 1); }
    assert calls[i].made <= calls[i].at <= calls[j - 1].at;
  }

  /** An address that is not tracked is refused if and only if a bucket holds nothing. */
  lemma NewAddressRefusedIff(cfg: IpConfig, calls: seq<IpCall>, k: nat)
    requires Clocked(calls) && k < |calls| && Inserts(cfg, calls, k)
    ensures !AllowedNow(cfg, calls, k) <==> cfg.capacity == 0
  {
    NewIsSound(cfg, calls[k].made, calls[k].at);
  }

  // ---------------------------------------------------------------------------------------------
  // One address's calls in a whole run
  // ---------------------------------------------------------------------------------------------

  /** Calls of `ip` that the limiter allowed. */
  function AllowedOf(cfg: LimiterConfig, start: Instant, calls: seq<Call>, ip: IpAddr): nat {
    if calls == [] then 0
    else
      var k := |calls| - 1;
      AllowedOf(cfg, start, calls[..k], ip)
      + if calls[k].ip == ip && VerdictAt(cfg, start, calls, k).Allowed? then 1 else 0
  }

  /** Since call `m` the limiter allowed `ip` exactly what the per-IP map did. */
  lemma {:induction false} AllowedOfIsAllowedTo(cfg: LimiterConfig, start: Instant, calls: seq<Call>, ip: IpAddr,
                                                m: nat)
    requires m <= |calls|
    ensures |IpCalls(cfg, start, calls[..m])| <= |IpCalls(cfg, start, calls)|
    ensures AllowedOf(cfg, start, calls, ip) - AllowedOf(cfg, start, calls[..m], ip)
         == AllowedTo(cfg.perIp, IpCalls(cfg, start, calls), ip,
                      |IpCalls(cfg, start, calls[..m])|, |IpCalls(cfg, start, calls)|)
  {
    if m == |calls| {
      assert calls[..m] == calls;
    } else {
      var before, call := calls[..|calls| - 1], calls[|calls| - 1];
      assert before[..m] == calls[..m] && calls == before + [call];
      AllowedOfIsAllowedTo(cfg, start, before, ip, m);
      OneMoreOf(cfg, start, before, call, ip, |IpCalls(cfg, start, calls[..m])|);
    }
  }

  lemma OneMoreOf(cfg: LimiterConfig, start: Instant, before: seq<Call>, call: Call, ip: IpAddr, i: nat)
    requires i <= |IpCalls(cfg, start, before)|
    ensures var ips, ips' := IpCalls(cfg, start, before), IpCalls(cfg, start, before + [call]);
            && |ips| <= |ips'|
            && AllowedOf(cfg, start, before + [call], ip) - AllowedOf(cfg, start, before, ip)
            == AllowedTo(cfg.perIp, ips', ip, i, |ips'|) - AllowedTo(cfg.perIp, ips, ip, i, |ips|)
  {
    assert (before + [call])[..|before|] == before;
    IpRunsAlone(cfg, start, before);
    var ips := IpCalls(cfg, start, before);
    AllowedWithOneMore(cfg.perIp, ips, IpPart(call), ip, i);
    assert ips + [] == ips;
  }

  /**
   The limiter itself allows one address, in any suffix of any run, at most one per-IP capacity for each
   bucket the address has had there, plus what one bucket earns.
   */
  lemma AddressBudget(cfg: LimiterConfig, start: Instant, calls: seq<Call>, ip: IpAddr, m: nat)
    requires InOrder(start, calls) && m <= |calls|
    ensures |IpCalls(cfg, start, calls[..m])| <= |IpCalls(cfg, start, calls)|
    ensures var ips, first := IpCalls(cfg, start, calls), |IpCalls(cfg, start, calls[..m])|;
            var allowed := AllowedOf(cfg, start, calls, ip) - AllowedOf(cfg, start, calls[..m], ip);
            && (first == |ips| ==> allowed == 0)
            && (first < |ips| ==>
                  allowed as real
                  <= Budget(cfg.perIp, Lives(cfg.perIp, ips, ip, first, |ips|), ips[first].at, ips[|ips| - 1].at))
  {
    AllowedOfIsAllowedTo(cfg, start, calls, ip, m);
    IpCallsInOrder(cfg, start, calls);
    var ips, first := IpCalls(cfg, start, calls), |IpCalls(cfg, start, calls[..m])|;
    if first < |ips| { AllowedWithinLives(cfg.perIp, ips, ip, first, |ips|); }
  }
}
