/** What eviction does to one address's budget in the map of per-IP buckets. */
module RateBudget {
  import opened Net
  import opened RateLimiter

  // ---------------------------------------------------------------------------------------------
  // Counting one address's calls
  // ---------------------------------------------------------------------------------------------

  predicate AllowedNow(cfg: IpConfig, calls: seq<IpCall>, k: nat)
    requires k < |calls|
  {
    IpAllows(IpRun(cfg, calls[..k]), cfg, calls[k])
  }

  /** Calls allowed to `ip` among calls `i..j`. */
  function AllowedTo(cfg: IpConfig, calls: seq<IpCall>, ip: IpAddr, i: nat, j: nat): nat
    requires i <= j <= |calls|
  {
    if i == j then 0
    else AllowedTo(cfg, calls, ip, i, j - 1) + if calls[j - 1].ip == ip && AllowedNow(cfg, calls, j - 1) then 1 else 0
  }

  /** Buckets `ip` has had during calls `i..j`: the one it came with, and one for each insertion. */
  function Lives(cfg: IpConfig, calls: seq<IpCall>, ip: IpAddr, i: nat, j: nat): nat
    requires i <= j <= |calls|
  {
    if i == j then if ip in IpRun(cfg, calls[..i]).buckets then 1 else 0
    else Lives(cfg, calls, ip, i, j - 1) + if calls[j - 1].ip == ip && Inserts(cfg, calls, j - 1) then 1 else 0
  }

  /** The clock does not run backwards, and a bucket is made no later than it is used. */
  ghost predicate Clocked(calls: seq<IpCall>) {
    && (forall k :: 0 <= k < |calls| ==> calls[k].made <= calls[k].at)
    && (forall k, l :: 0 <= k <= l < |calls| ==> calls[k].at <= calls[l].at)
  }

  function Budget(cfg: IpConfig, lives: nat, since: Instant, now: Instant): real {
    (lives * cfg.capacity) as real + (now - since) * cfg.refill as real
  }

  // ---------------------------------------------------------------------------------------------
  // One call
  // ---------------------------------------------------------------------------------------------

  /** A bucket of this map, last used no later than `now`. */
  predicate Sound(b: Bucket, cfg: IpConfig, now: Instant) {
    && b.capacity == cfg.capacity && b.refillPerSecond == cfg.refill
    && 0.0 <= b.tokens <= cfg.capacity as real && b.lastRefill <= now
  }

  ghost predicate AllSound(m: IpMap, cfg: IpConfig, now: Instant) {
    forall ip :: ip in m.buckets ==> Sound(m.buckets[ip], cfg, now)
  }

  /** What `ip` could spend at `now` from the bucket it has. */
  function Available(m: IpMap, ip: IpAddr, now: Instant): real {
    if ip in m.buckets then Refilled(m.buckets[ip], now) else 0.0
  }

  lemma Product(x: real, y: real)
    requires x >= 0.0 && y >= 0.0
    ensures x * y >= 0.0
  {
  }

  lemma RefilledIs(b: Bucket, cfg: IpConfig, now: Instant)
    requires Sound(b, cfg, now)
    ensures 0.0 <= Refilled(b, now) <= cfg.capacity as real
  {
    assert Elapsed(b.lastRefill, now) == now - b.lastRefill;
    Product(now - b.lastRefill, cfg.refill as real);
  }

  lemma UsedIsSound(b: Bucket, cfg: IpConfig, now: Instant)
    requires Sound(b, cfg, now)
    ensures Sound(BucketStep(b, now), cfg, now)
  {
    RefilledIs(b, cfg, now);
  }

  lemma NewIsSound(cfg: IpConfig, made: Instant, now: Instant)
    requires made <= now
    ensures Sound(NewBucket(cfg.capacity, cfg.refill, made), cfg, now)
    ensures Refilled(NewBucket(cfg.capacity, cfg.refill, made), now) == cfg.capacity as real
  {
    assert Elapsed(made, now) == now - made;
    Product(now - made, cfg.refill as real);
  }

  /** Time alone earns no more than the refill. */
  lemma RefilledLater(b: Bucket, cfg: IpConfig, now: Instant, later: Instant)
    requires Sound(b, cfg, now) && now <= later
    ensures Refilled(b, later) <= Refilled(b, now) + (later - now) * cfg.refill as real
  {
    var r := cfg.refill as real;
    assert Elapsed(b.lastRefill, now) == now - b.lastRefill && Elapsed(b.lastRefill, later) == later - b.lastRefill;
    assert (later - b.lastRefill) * r == (now - b.lastRefill) * r + (later - now) * r;
    Product(later - now, r);
  }

  lemma UsedNow(b: Bucket, cfg: IpConfig, now: Instant)
    requires Sound(b, cfg, now)
    ensures Refilled(BucketStep(b, now), now) == Refilled(b, now) - if BucketAllows(b, now) then 1.0 else 0.0
  {
    RefilledIs(b, cfg, now);
    assert Elapsed(now, now) == 0.0;
  }

  lemma StepKeepsSound(m: IpMap, cfg: IpConfig, call: IpCall, before: Instant)
    requires AllSound(m, cfg, before) && before <= call.at && call.made <= call.at
    ensures AllSound(IpStep(m, cfg, call), cfg, call.at)
  {
    NewIsSound(cfg, call.made, call.at);
    var found := Found(m, cfg, call.ip, call.made);
    assert AllSound(found, cfg, call.at);
    UsedIsSound(found.buckets[call.ip], cfg, call.at);
  }

  function Pay(cfg: IpConfig, since: Instant, now: Instant): real {
    (now - since) * cfg.refill as real
  }

  lemma PayIsPositive(cfg: IpConfig, since: Instant, now: Instant)
    requires since <= now
    ensures Pay(cfg, since, now) >= 0.0
  {
    Product(now - since, cfg.refill as real);
  }

  lemma OthersKeepBucket(m: IpMap, cfg: IpConfig, call: IpCall, ip: IpAddr)
    requires call.ip != ip && ip in IpStep(m, cfg, call).buckets
    ensures ip in m.buckets && IpStep(m, cfg, call).buckets[ip] == m.buckets[ip]
  {
    OtherBucketsUntouched(m, cfg, call, ip);
  }

  /** A call for another address lets `ip` spend no more than was earned. */
  lemma OtherCallEarns(m: IpMap, cfg: IpConfig, call: IpCall, ip: IpAddr, before: Instant)
    requires AllSound(m, cfg, before) && before <= call.at && call.ip != ip
    ensures Available(IpStep(m, cfg, call), ip, call.at) <= Available(m, ip, before) + Pay(cfg, before, call.at)
  {
    PayIsPositive(cfg, before, call.at);
    AvailableNow(m, cfg, ip, before);
    if ip in IpStep(m, cfg, call).buckets {
      OthersKeepBucket(m, cfg, call, ip);
      RefilledLater(m.buckets[ip], cfg, before, call.at);
    }
  }

  lemma AvailableNow(m: IpMap, cfg: IpConfig, ip: IpAddr, now: Instant)
    requires AllSound(m, cfg, now)
    ensures Available(m, ip, now) >= 0.0
  {
    if ip in m.buckets { RefilledIs(m.buckets[ip], cfg, now); }
  }

  lemma OwnBucketIs(m: IpMap, cfg: IpConfig, call: IpCall)
    ensures var made := NewBucket(cfg.capacity, cfg.refill, call.made);
            var b := if call.ip in m.buckets then m.buckets[call.ip] else made;
            && Available(IpStep(m, cfg, call), call.ip, call.at) == Refilled(BucketStep(b, call.at), call.at)
            && IpAllows(m, cfg, call) == BucketAllows(b, call.at)
  {
  }

  function Price(allowed: bool): real {
    if allowed then 1.0 else 0.0
  }

  /** Its own call spends what it allows; an insertion adds one capacity. */
  lemma OwnCallSpends(m: IpMap, cfg: IpConfig, call: IpCall, before: Instant)
    requires AllSound(m, cfg, before) && before <= call.at && call.made <= call.at
    ensures Price(IpAllows(m, cfg, call)) + Available(IpStep(m, cfg, call), call.ip, call.at)
         <= Available(m, call.ip, before) + Pay(cfg, before, call.at)
            + if call.ip in m.buckets then 0.0 else cfg.capacity as real
  {
    if call.ip in m.buckets {
      UseSpends(m, cfg, call, before);
    } else {
      InsertionSpends(m, cfg, call, before);
    }
  }

  lemma UseSpends(m: IpMap, cfg: IpConfig, call: IpCall, before: Instant)
    requires AllSound(m, cfg, before) && before <= call.at && call.ip in m.buckets
    ensures Price(IpAllows(m, cfg, call)) + Available(IpStep(m, cfg, call), call.ip, call.at)
         <= Available(m, call.ip, before) + Pay(cfg, before, call.at)
  {
    OwnBucketIs(m, cfg, call);
    RefilledLater(m.buckets[call.ip], cfg, before, call.at);
    UsedNow(m.buckets[call.ip], cfg, call.at);
  }

  lemma InsertionSpends(m: IpMap, cfg: IpConfig, call: IpCall, before: Instant)
    requires before <= call.at && call.made <= call.at && call.ip !in m.buckets
    ensures Price(IpAllows(m, cfg, call)) + Available(IpStep(m, cfg, call), call.ip, call.at)
         <= Pay(cfg, before, call.at) + cfg.capacity as real
  {
    OwnBucketIs(m, cfg, call);
    PayIsPositive(cfg, before, call.at);
    NewIsSound(cfg, call.made, call.at);
    UsedNow(NewBucket(cfg.capacity, cfg.refill, call.made), cfg, call.at);
  }

  // ---------------------------------------------------------------------------------------------
  // Whole runs
  // ---------------------------------------------------------------------------------------------

  function TimeAfter(calls: seq<IpCall>, start: Instant, j: nat): Instant
    requires j <= |calls|
  {
    if j == 0 then start else calls[j - 1].at
  }

  lemma {:induction false} RunIsSound(cfg: IpConfig, calls: seq<IpCall>, start: Instant, j: nat)
    requires Clocked(calls) && j <= |calls| && (calls != [] ==> start <= calls[0].at)
    ensures AllSound(IpRun(cfg, calls[..j]), cfg, TimeAfter(calls, start, j))
  {
    if j > 0 {
      RunIsSound(cfg, calls, start, j - 1);
      RunNext(cfg, calls, j - 1);
      StepKeepsSound(IpRun(cfg, calls[..j - 1]), cfg, calls[j - 1], TimeAfter(calls, start, j - 1));
    }
  }

  lemma BudgetGrows(cfg: IpConfig, lives: nat, born: nat, since: Instant, now: Instant, later: Instant)
    requires born <= 1
    ensures Budget(cfg, lives + born, since, later)
         == Budget(cfg, lives, since, now) + Pay(cfg, now, later) + if born == 1 then cfg.capacity as real else 0.0
  {
    assert (lives + 1) * cfg.capacity == lives * cfg.capacity + cfg.capacity;
    var r := cfg.refill as real;
    assert (later - since) * r == (now - since) * r + (later - now) * r;
  }

  /** The time of the last call of `i..j`, or where it starts. */
  function LastTime(calls: seq<IpCall>, i: nat, j: nat): Instant
    requires i < |calls| && i <= j <= |calls|
  {
    if j == i then calls[i].at else calls[j - 1].at
  }

  lemma SoundLater(m: IpMap, cfg: IpConfig, now: Instant, later: Instant)
    requires AllSound(m, cfg, now) && now <= later
    ensures AllSound(m, cfg, later)
  {
  }

  lemma SoundAt(cfg: IpConfig, calls: seq<IpCall>, i: nat, j: nat)
    requires Clocked(calls) && i < |calls| && i <= j <= |calls|
    ensures AllSound(IpRun(cfg, calls[..j]), cfg, LastTime(calls, i, j))
  {
    RunIsSound(cfg, calls, calls[0].at, j);
    SoundLater(IpRun(cfg, calls[..j]), cfg, TimeAfter(calls, calls[0].at, j), LastTime(calls, i, j));
  }

  /** What `ip` has been allowed and could still spend is within one capacity per life plus what was earned. */
  predicate Within(cfg: IpConfig, allowed: nat, m: IpMap, ip: IpAddr, lives: nat, since: Instant, now: Instant) {
    allowed as real + Available(m, ip, now) <= Budget(cfg, lives, since, now)
  }

  predicate WithinLives(cfg: IpConfig, calls: seq<IpCall>, ip: IpAddr, i: nat, j: nat)
    requires i < |calls| && i <= j <= |calls|
  {
    Within(cfg, AllowedTo(cfg, calls, ip, i, j), IpRun(cfg, calls[..j]), ip, Lives(cfg, calls, ip, i, j),
           calls[i].at, LastTime(calls, i, j))
  }

  lemma OtherKeepsWithin(cfg: IpConfig, allowed: nat, m: IpMap, ip: IpAddr, lives: nat, since: Instant,
                         now: Instant, call: IpCall)
    requires AllSound(m, cfg, now) && now <= call.at && call.ip != ip
    requires Within(cfg, allowed, m, ip, lives, since, now)
    ensures Within(cfg, allowed, IpStep(m, cfg, call), ip, lives, since, call.at)
  {
    OtherCallEarns(m, cfg, call, ip, now);
    BudgetGrows(cfg, lives, 0, since, now, call.at);
  }

  lemma OwnKeepsWithin(cfg: IpConfig, allowed: nat, allowed': nat, m: IpMap, lives: nat, lives': nat,
                       since: Instant, now: Instant, call: IpCall)
    requires AllSound(m, cfg, now) && now <= call.at && call.made <= call.at
    requires Within(cfg, allowed, m, call.ip, lives, since, now)
    requires allowed' == allowed + (if IpAllows(m, cfg, call) then 1 else 0)
    requires lives' == lives + (if call.ip in m.buckets then 0 else 1)
    ensures Within(cfg, allowed', IpStep(m, cfg, call), call.ip, lives', since, call.at)
  {
    OwnCallSpends(m, cfg, call, now);
    BudgetGrows(cfg, lives, if call.ip in m.buckets then 0 else 1, since, now, call.at);
  }

  lemma CountsNext(cfg: IpConfig, calls: seq<IpCall>, ip: IpAddr, i: nat, k: nat)
    requires i <= k < |calls|
    ensures var m, own := IpRun(cfg, calls[..k]), calls[k].ip == ip;
            && AllowedTo(cfg, calls, ip, i, k + 1)
            == AllowedTo(cfg, calls, ip, i, k) + (if own && IpAllows(m, cfg, calls[k]) then 1 else 0)
            && Lives(cfg, calls, ip, i, k + 1)
            == Lives(cfg, calls, ip, i, k) + (if own && ip !in m.buckets then 1 else 0)
  {
  }

  lemma LivesStart(cfg: IpConfig, calls: seq<IpCall>, ip: IpAddr, i: nat)
    requires Clocked(calls) && i < |calls|
    ensures WithinLives(cfg, calls, ip, i, i)
  {
    SoundAt(cfg, calls, i, i);
    var m := IpRun(cfg, calls[..i]);
    if ip in m.buckets { RefilledIs(m.buckets[ip], cfg, calls[i].at); }
  }

  lemma OtherCallNext(cfg: IpConfig, calls: seq<IpCall>, ip: IpAddr, i: nat, k: nat, j: nat)
    requires Clocked(calls) && i <= k < |calls| && j == k + 1 && WithinLives(cfg, calls, ip, i, k) && calls[k].ip != ip
    ensures WithinLives(cfg, calls, ip, i, j)
  {
    SoundAt(cfg, calls, i, k);
    RunNext(cfg, calls, k);
    CountsNext(cfg, calls, ip, i, k);
    OtherKeepsWithin(cfg, AllowedTo(cfg, calls, ip, i, k), IpRun(cfg, calls[..k]), ip, Lives(cfg, calls, ip, i, k),
                     calls[i].at, LastTime(calls, i, k), calls[k]);
  }

  lemma OwnCallNext(cfg: IpConfig, calls: seq<IpCall>, i: nat, k: nat, j: nat)
    requires Clocked(calls) && i <= k < |calls| && j == k + 1 && WithinLives(cfg, calls, calls[k].ip, i, k)
    ensures WithinLives(cfg, calls, calls[k].ip, i, j)
  {
    var ip := calls[k].ip;
    SoundAt(cfg, calls, i, k);
    RunNext(cfg, calls, k);
    CountsNext(cfg, calls, ip, i, k);
    OwnKeepsWithin(cfg, AllowedTo(cfg, calls, ip, i, k), AllowedTo(cfg, calls, ip, i, k + 1), IpRun(cfg, calls[..k]),
                   Lives(cfg, calls, ip, i, k), Lives(cfg, calls, ip, i, k + 1),
                   calls[i].at, LastTime(calls, i, k), calls[k]);
  }

  lemma {:induction false} SpentWithinLives(cfg: IpConfig, calls: seq<IpCall>, ip: IpAddr, i: nat, j: nat)
    requires Clocked(calls) && i < |calls| && i <= j <= |calls|
    ensures WithinLives(cfg, calls, ip, i, j)
    decreases j
  {
    if j == i {
      LivesStart(cfg, calls, ip, i);
    } else {
      SpentWithinLives(cfg, calls, ip, i, j - 1);
      if calls[j - 1].ip == ip {
        OwnCallNext(cfg, calls, i, j - 1, j);
      } else {
        OtherCallNext(cfg, calls, ip, i, j - 1, j);
      }
    }
  }

  lemma AvailableIsPositive(cfg: IpConfig, calls: seq<IpCall>, ip: IpAddr, i: nat, j: nat)
    requires Clocked(calls) && i < |calls| && i <= j <= |calls|
    ensures Available(IpRun(cfg, calls[..j]), ip, LastTime(calls, i, j)) >= 0.0
  {
    SoundAt(cfg, calls, i, j);
    AvailableNow(IpRun(cfg, calls[..j]), cfg, ip, LastTime(calls, i, j));
  }

  /**
   Over any window of any run, evictions included, an address is allowed at most one capacity for the
   bucket it came with and one for each re-insertion, plus what one bucket earns meanwhile.
   */
  lemma AllowedWithinLives(cfg: IpConfig, calls: seq<IpCall>, ip: IpAddr, i: nat, j: nat)
    requires Clocked(calls) && i < j <= |calls|
    ensures AllowedTo(cfg, calls, ip, i, j) as real
         <= Budget(cfg, Lives(cfg, calls, ip, i, j), calls[i].at, calls[j - 1].at)
  {
    SpentWithinLives(cfg, calls, ip, i, j);
    AvailableIsPositive(cfg, calls, ip, i, j);
  }

  // ---------------------------------------------------------------------------------------------
  // When one bucket's budget bounds every address
  // ---------------------------------------------------------------------------------------------

  /** No address is ever allowed more than a single bucket would. */
  ghost predicate SingleBudget(cfg: IpConfig) {
    forall calls: seq<IpCall>, ip: IpAddr, i: nat, j: nat | Clocked(calls) && i < j <= |calls| ::
      AllowedTo(cfg, calls, ip, i, j) as real <= Budget(cfg, 1, calls[i].at, calls[j - 1].at)
  }

  /** A run at one instant. */
  predicate Instantaneous(calls: seq<IpCall>) {
    forall k :: 0 <= k < |calls| ==> calls[k].at == 0.0 && calls[k].made == 0.0
  }

  lemma {:induction false} AllowedPrefix(cfg: IpConfig, calls: seq<IpCall>, call: IpCall, ip: IpAddr, i: nat, j: nat)
    requires i <= j <= |calls|
    ensures AllowedTo(cfg, calls + [call], ip, i, j) == AllowedTo(cfg, calls, ip, i, j)
    decreases j
  {
    if i < j {
      AllowedPrefix(cfg, calls, call, ip, i, j - 1);
      assert (calls + [call])[..j - 1] == calls[..j - 1];
    }
  }

  lemma AllowedWithOneMore(cfg: IpConfig, calls: seq<IpCall>, call: IpCall, ip: IpAddr, i: nat)
    requires i <= |calls|
    ensures AllowedTo(cfg, calls + [call], ip, i, |calls| + 1)
         == AllowedTo(cfg, calls, ip, i, |calls|)
            + if call.ip == ip && IpAllows(IpRun(cfg, calls), cfg, call) then 1 else 0
  {
    assert (calls + [call])[..|calls|] == calls;
    AllowedPrefix(cfg, calls, call, ip, i, |calls|);
  }

  lemma OneMoreCall(cfg: IpConfig, calls: seq<IpCall>, call: IpCall, ip: IpAddr)
    ensures IpRun(cfg, calls + [call]) == IpStep(IpRun(cfg, calls), cfg, call)
    ensures AllowedTo(cfg, calls + [call], ip, 0, |calls| + 1)
         == AllowedTo(cfg, calls, ip, 0, |calls|)
            + if call.ip == ip && IpAllows(IpRun(cfg, calls), cfg, call) then 1 else 0
  {
    assert (calls + [call])[..|calls|] == calls;
    AllowedWithOneMore(cfg, calls, call, ip, 0);
  }

  /** Inserting other addresses pushes `ip` out, at no cost to it. */
  lemma {:induction false} PushOut(cfg: IpConfig, calls: seq<IpCall>, ip: IpAddr, behind: nat, b: Bucket)
    returns (longer: seq<IpCall>)
    requires cfg.max >= 1 && behind < cfg.max && Instantaneous(calls) && Alive(IpRun(cfg, calls), ip, behind, b)
    ensures Instantaneous(longer) && ip !in IpRun(cfg, longer).buckets
    ensures AllowedTo(cfg, longer, ip, 0, |longer|) == AllowedTo(cfg, calls, ip, 0, |calls|)
    decreases cfg.max - behind
  {
    var m := IpRun(cfg, calls);
    RunIsFifo(cfg, calls);
    var other := FreshIp(m.buckets.Keys);
    var call := IpCall(other, 0.0, 0.0);
    longer := calls + [call];
    OneMoreCall(cfg, calls, call, ip);
    AliveStep(m, cfg, call, ip, behind, b);
    if behind + 1 < cfg.max { longer := PushOut(cfg, longer, ip, behind + 1, b); }
  }

  /** A new bucket allows a call if it holds anything at all. */
  lemma NewAllows(m: IpMap, cfg: IpConfig, ip: IpAddr)
    requires cfg.capacity >= 1 && ip !in m.buckets
    ensures IpAllows(m, cfg, IpCall(ip, 0.0, 0.0))
  {
    NewIsSound(cfg, 0.0, 0.0);
  }

  lemma {:induction false} Cycle(cfg: IpConfig, ip: IpAddr, n: nat) returns (calls: seq<IpCall>)
    requires cfg.max >= 1 && cfg.capacity >= 1
    ensures Instantaneous(calls) && ip !in IpRun(cfg, calls).buckets && AllowedTo(cfg, calls, ip, 0, |calls|) == n
  {
    if n == 0 {
      calls := [];
    } else {
      var before := Cycle(cfg, ip, n - 1);
      var call := IpCall(ip, 0.0, 0.0);
      RunIsFifo(cfg, before);
      NewAllows(IpRun(cfg, before), cfg, ip);
      OneMoreCall(cfg, before, call, ip);
      Born(cfg, IpRun(cfg, before), call);
      calls := PushOut(cfg, before + [call], ip, 0, BucketRun(NewBucket(cfg.capacity, cfg.refill, 0.0), [0.0]));
    }
  }

  lemma EmptyBudget(cfg: IpConfig, lives: nat, since: Instant, now: Instant)
    requires cfg.capacity == 0
    ensures Budget(cfg, lives, since, now) == Budget(cfg, 1, since, now)
  {
  }

  lemma NothingAllowed(cfg: IpConfig, calls: seq<IpCall>, ip: IpAddr, i: nat, j: nat)
    requires cfg.capacity == 0 && Clocked(calls) && i < j <= |calls|
    ensures AllowedTo(cfg, calls, ip, i, j) as real <= Budget(cfg, 1, calls[i].at, calls[j - 1].at)
  {
    AllowedWithinLives(cfg, calls, ip, i, j);
    EmptyBudget(cfg, Lives(cfg, calls, ip, i, j), calls[i].at, calls[j - 1].at);
  }

  /** Any number of calls at one instant, by letting `max` other addresses in between. */
  lemma CyclingIsUnbounded(cfg: IpConfig, ip: IpAddr, n: nat) returns (calls: seq<IpCall>)
    requires cfg.max >= 1 && cfg.capacity >= 1
    ensures Clocked(calls) && AllowedTo(cfg, calls, ip, 0, |calls|) == n
  {
    calls := Cycle(cfg, ip, n);
  }

  /** One bucket's budget bounds every address in every run if and only if buckets hold nothing. */
  lemma SingleBudgetIff(cfg: IpConfig)
    requires cfg.max >= 1
    ensures SingleBudget(cfg) <==> cfg.capacity == 0
  {
    if cfg.capacity == 0 {
      forall calls: seq<IpCall>, ip: IpAddr, i: nat, j: nat | Clocked(calls) && i < j <= |calls|
        ensures AllowedTo(cfg, calls, ip, i, j) as real <= Budget(cfg, 1, calls[i].at, calls[j - 1].at)
      {
        NothingAllowed(cfg, calls, ip, i, j);
      }
    } else {
      var calls := Cycle(cfg, V4(0), cfg.capacity + 1);
      assert AllowedTo(cfg, calls, V4(0), 0, |calls|) as real > Budget(cfg, 1, calls[0].at, calls[|calls| - 1].at);
    }
  }
}
