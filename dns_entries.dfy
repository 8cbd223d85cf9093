/** The cached DNS entry, the configuration that governs it, and the
    round-robin address selection done on every cache hit. */
module DnsEntries {

  type Host = string
  type Address = string

  /** One cache entry per host name (`DnsEntry` in the type declarations). */
  datatype DnsEntry = DnsEntry(
    host: Host,
    ips: seq<Address>,
    nextIdx: nat,
    lastUsedTs: int,
    updatedTs: int)

  /** The recognised options; timestamps and durations are milliseconds. */
  datatype Config = Config(
    disabled: bool,
    dnsTtlMs: int,
    cacheGraceExpireMultiplier: int,
    dnsIdleTtlMs: int,
    backgroundScanMs: int,
    dnsCacheSize: int)

  /** The options handed to the LRU store: capacity and hard maximum age. */
  datatype CacheConfig = CacheConfig(max: int, maxAge: int)

  /** The defaults used when no environment variable overrides them. */
  const DEFAULT_CONFIG := Config(false, 5000, 2, 1000 * 60 * 10, 2400, 100)

  /** The LRU store's options: capacity is the configured cache size, and the
      hard age bound is the TTL scaled by the grace multiplier, which is never
      negative when the options are not. */
  function CacheConfigOf(config: Config): (r: CacheConfig)
    ensures r.max == config.dnsCacheSize
    ensures config.dnsTtlMs >= 0 && config.cacheGraceExpireMultiplier >= 0 ==> r.maxAge >= 0
  {
    CacheConfig(config.dnsCacheSize, config.dnsTtlMs * config.cacheGraceExpireMultiplier)
  }

  lemma DefaultCacheConfig()
    ensures DEFAULT_CONFIG.dnsIdleTtlMs == 600000
    ensures CacheConfigOf(DEFAULT_CONFIG) == CacheConfig(100, 10000)
  {
  }

  /** With a grace multiplier of at least one, the hard age bound, counted from
      the last write, is at least one TTL, so an entry is not hard-expired before
      it is due for refresh. */
  lemma GraceCoversTtl(config: Config)
    requires config.dnsTtlMs >= 0 && config.cacheGraceExpireMultiplier >= 1
    ensures CacheConfigOf(config).max == config.dnsCacheSize
    ensures CacheConfigOf(config).maxAge >= config.dnsTtlMs
  {
    if config.dnsTtlMs > 0 {
      MulAtLeast(config.cacheGraceExpireMultiplier, config.dnsTtlMs);
      assert config.cacheGraceExpireMultiplier * config.dnsTtlMs
          == config.dnsTtlMs * config.cacheGraceExpireMultiplier;
    }
  }

  /** Every entry is stored under its own host name and has an address to hand out. */
  ghost predicate WellFormed(cache: map<Host, DnsEntry>)
  {
    forall h :: h in cache ==> cache[h].host == h && |cache[h].ips| > 0
  }

  /** The address a selection hands out: the counter taken modulo the list length. */
  function Pick(e: DnsEntry): (r: Address)
    requires |e.ips| > 0
    ensures r in e.ips
  {
    e.ips[e.nextIdx % |e.ips|]
  }

  /** The entry as a selection at time `now` writes it back: the counter
      advances by one, the use time is recorded, nothing else changes. */
  function Touch(e: DnsEntry, now: int): (r: DnsEntry)
    ensures r.host == e.host && r.ips == e.ips && r.updatedTs == e.updatedTs
    ensures r.nextIdx == e.nextIdx + 1 && r.lastUsedTs == now
  {
    e.(nextIdx := e.nextIdx + 1, lastUsedTs := now)
  }

  /** The entry built from a fresh resolution, before its first address is picked. */
  function Created(host: Host, ips: seq<Address>, now: int): (r: DnsEntry)
    ensures |ips| > 0 ==> WellFormed(map[host := r])
    ensures r.nextIdx == 0 && r.lastUsedTs == now && r.updatedTs == now
  {
    DnsEntry(host, ips, 0, now, now)
  }

  /** The addresses handed out by successive selections at the given times,
      one per selection. */
  function Hits(e: DnsEntry, times: seq<int>): (r: seq<Address>)
    requires |e.ips| > 0
    ensures |r| == |times|
    decreases |times|
  {
    if times == [] then [] else [Pick(e)] + Hits(Touch(e, times[0]), times[1..])
  }

  /** The entry after successive selections at the given times: the counter
      advances once per selection, the last selection time is recorded, and the
      host, addresses and update time are untouched. */
  function AfterHits(e: DnsEntry, times: seq<int>): (r: DnsEntry)
    ensures r == e.(nextIdx := e.nextIdx + |times|,
                    lastUsedTs := if times == [] then e.lastUsedTs else times[|times| - 1])
    decreases |times|
  {
    if times == [] then e
    else
      var r := AfterHits(Touch(e, times[0]), times[1..]);
      assert |times| > 1 ==> times[1..][|times[1..]| - 1] == times[|times| - 1];
      r
  }

  /** A miss hands out the first resolved address and leaves the counter at one. */
  lemma FirstSelection(host: Host, ips: seq<Address>, now: int)
    requires |ips| > 0
    ensures Pick(Created(host, ips, now)) == ips[0]
    ensures Touch(Created(host, ips, now), now) == DnsEntry(host, ips, 1, now, now)
  {
  }

  /** The j-th of a run of selections hands out the address at the counter plus j. */
  lemma {:induction false} HitsAt(e: DnsEntry, times: seq<int>, j: nat)
    requires |e.ips| > 0 && j < |times|
    ensures Hits(e, times)[j] == e.ips[(e.nextIdx + j) % |e.ips|]
    decreases |times|
  {
    if j > 0 {
      HitsAt(Touch(e, times[0]), times[1..], j - 1);
    }
  }

  /** Every address a run of selections hands out is one of the entry's own. */
  lemma HitsFromList(e: DnsEntry, times: seq<int>)
    requires |e.ips| > 0
    ensures forall j :: 0 <= j < |times| ==> Hits(e, times)[j] in e.ips
  {
    forall j | 0 <= j < |times|
      ensures Hits(e, times)[j] in e.ips
    {
      HitsAt(e, times, j);
    }
  }

  /** Hits extended by one more selection: the run is split at its last time. */
  lemma {:induction false} HitsSnoc(e: DnsEntry, times: seq<int>, t: int)
    requires |e.ips| > 0
    ensures Hits(e, times + [t]) == Hits(e, times) + [Pick(AfterHits(e, times))]
    decreases |times|
  {
    if times != [] {
      assert (times + [t])[1..] == times[1..] + [t];
      HitsSnoc(Touch(e, times[0]), times[1..], t);
    }
  }

  lemma MulAtLeast(d: int, n: int)
    requires d >= 1 && n > 0
    ensures d * n >= n
  {
    assert (d - 1) * n >= 0;
  }

  lemma MulDist(a: int, b: int, n: int)
    ensures (a - b) * n == a * n - b * n
  {
  }

  /** Euclidean remainder is determined by any quotient/remainder split. */
  lemma ModUnique(a: int, n: int, q: int, r: int)
    requires n > 0 && 0 <= r < n && a == q * n + r
    ensures a % n == r
  {
    var p := a / n;
    MulDist(q, p, n);
    if q - p >= 1 {
      MulAtLeast(q - p, n);
    } else if p - q >= 1 {
      MulAtLeast(p - q, n);
      MulDist(p, q, n);
    }
  }

  lemma ModShift(a: nat, j: nat, n: nat)
    requires n > 0 && a % n + j < n
    ensures (a + j) % n == a % n + j
  {
    ModUnique(a + j, n, a / n, a % n + j);
  }

  lemma ModShiftWrap(a: nat, j: nat, n: nat)
    requires n > 0 && n <= a % n + j < 2 * n
    ensures (a + j) % n == a % n + j - n
  {
    MulDist(a / n + 1, 1, n);
    ModUnique(a + j, n, a / n + 1, a % n + j - n);
  }

  lemma ModPeriod(k: nat, n: nat)
    requires n > 0
    ensures (k + n) % n == k % n
  {
    MulDist(k / n + 1, 1, n);
    ModUnique(k + n, n, k / n + 1, k % n);
  }

  /** Index j of a list rotated to start at `a mod n` is index `(a + j) mod n`. */
  lemma RotationAt(ips: seq<Address>, a: nat, j: nat)
    requires 0 <= j < |ips|
    ensures var s := a % |ips|;
            (ips[s..] + ips[..s])[j] == ips[(a + j) % |ips|]
  {
    var n := |ips|;
    if a % n + j < n {
      ModShift(a, j, n);
    } else {
      ModShiftWrap(a, j, n);
    }
  }

  /** A rotation of a list is a permutation of it. */
  lemma RotationPermutes(ips: seq<Address>, s: nat)
    requires s <= |ips|
    ensures multiset(ips[s..] + ips[..s]) == multiset(ips)
  {
    assert ips[..s] + ips[s..] == ips;
    calc {
      multiset(ips[s..] + ips[..s]);
      multiset(ips[s..]) + multiset(ips[..s]);
      multiset(ips[..s] + ips[s..]);
    }
  }

  /** Round robin: as many selections as there are addresses hand out the list
      rotated to start at the counter, so every address exactly once, in order. */
  lemma RoundRobinCycle(e: DnsEntry, times: seq<int>)
    requires |e.ips| > 0 && |times| == |e.ips|
    ensures var s := e.nextIdx % |e.ips|;
            Hits(e, times) == e.ips[s..] + e.ips[..s]
    ensures multiset(Hits(e, times)) == multiset(e.ips)
  {
    var s := e.nextIdx % |e.ips|;
    var rot := e.ips[s..] + e.ips[..s];
    var hits := Hits(e, times);
    forall j | 0 <= j < |e.ips|
      ensures hits[j] == rot[j]
    {
      CycleAt(e, times, j);
    }
    assert hits == rot;
    RotationPermutes(e.ips, s);
  }

  lemma CycleAt(e: DnsEntry, times: seq<int>, j: nat)
    requires |e.ips| > 0 && |times| == |e.ips| && j < |e.ips|
    ensures var s := e.nextIdx % |e.ips|;
            Hits(e, times)[j] == (e.ips[s..] + e.ips[..s])[j]
  {
    HitsAt(e, times, j);
    RotationAt(e.ips, e.nextIdx, j);
  }

  /** Indexing modulo the list length repeats after one full length. */
  lemma PeriodAt(ips: seq<Address>, a: nat, j: nat)
    requires |ips| > 0
    ensures ips[(a + (j + |ips|)) % |ips|] == ips[(a + j) % |ips|]
  {
    ModPeriod(a + j, |ips|);
    assert a + (j + |ips|) == (a + j) + |ips|;
  }

  /** After a full cycle the selections repeat: the counter is never reset. */
  lemma RoundRobinPeriodic(e: DnsEntry, times: seq<int>, j: nat)
    requires |e.ips| > 0 && j + |e.ips| < |times|
    ensures Hits(e, times)[j + |e.ips|] == Hits(e, times)[j]
  {
    HitsAt(e, times, j);
    HitsAt(e, times, j + |e.ips|);
    PeriodAt(e.ips, e.nextIdx, j);
  }

}
