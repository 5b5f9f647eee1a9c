/** Addresses, clock readings and machine integers shared by every component. */
module Net {
  import Sets

  datatype IpAddr = V4(bits: nat) | V6(bits: nat)

  /** Only equality and the IP part of a socket address matter to the guards. */
  datatype SocketAddr = SocketAddr(ip: IpAddr, port: nat)

  /** A reading of the monotonic clock, in seconds. */
  type Instant = real

  const U32_MAX: nat := 0xFFFF_FFFF
  const U64_MAX: nat := 0xFFFF_FFFF_FFFF_FFFF
  const USIZE_MAX: nat := U64_MAX

  datatype Option<+T> = None | Some(value: T)

  /** `usize::saturating_mul(4).max(16)`: the length at which the lazy queues are compacted. */
  function CompactionThreshold(limit: nat): (t: nat)
    ensures 4 * limit <= 16 ==> t == 16
    ensures 16 <= 4 * limit <= USIZE_MAX ==> t == 4 * limit
    ensures 4 * limit >= USIZE_MAX ==> t == USIZE_MAX
    ensures limit <= USIZE_MAX ==> limit <= t <= USIZE_MAX
  {
    var scaled := if 4 * limit > USIZE_MAX then USIZE_MAX else 4 * limit;
    if scaled < 16 then 16 else scaled
  }

  /** Connections per address; an absent entry counts none. */
  type Counts = map<IpAddr, nat>

  function CountOf(perIp: Counts, ip: IpAddr): nat {
    if ip in perIp then perIp[ip] else 0
  }

  function AtLeastOne(n: nat): (r: nat)
    ensures r >= 1 && r >= n && (r == 1 || r == n)
  {
    if n == 0 then 1 else n
  }

  /** `Instant::duration_since`, which saturates at zero. */
  function Elapsed(since: Instant, now: Instant): real {
    if now < since then 0.0 else now - since
  }

  lemma ElapsedIsExact(since: Instant, now: Instant)
    ensures Elapsed(since, now) >= 0.0
    ensures since <= now ==> since + Elapsed(since, now) == now
    ensures now <= since ==> Elapsed(since, now) == 0.0
  {
  }

  /** `k` different addresses. */
  function FirstIps(k: nat): set<IpAddr> {
    set i: nat | i < k :: V4(i)
  }

  lemma {:induction false} FirstIpsSize(k: nat)
    ensures |FirstIps(k)| == k
  {
    if k == 0 {
      assert FirstIps(0) == {};
    } else {
      FirstIpsSize(k - 1);
      assert FirstIps(k) == FirstIps(k - 1) + {V4(k - 1)};
    }
  }

  /** There is always one more address. */
  lemma FreshIp(used: set<IpAddr>) returns (ip: IpAddr)
    ensures ip !in used
  {
    var more := FirstIps(|used| + 1);
    FirstIpsSize(|used| + 1);
    if more <= used {
      Sets.SubsetSize(more, used);
      assert false;
    }
    ip :| ip in more && ip !in used;
  }
}
