/** The shared host-to-entry cache with its two operations: address selection
    on the request path and the background refresh pass. */
module CachedDnsResolve {
  import opened Wrappers
  import opened DnsEntries
  import opened RefreshPolicy

  class CachedDnsResolver {
    const config: Config
    var cache: map<Host, DnsEntry>

    ghost predicate Valid()
      reads this
    {
      WellFormed(cache)
    }

    constructor (config: Config)
      ensures Valid()
      ensures this.config == config && cache == map[]
    {
      this.config := config;
      cache := map[];
    }

    /** Hands out the next address for `host` at time `now`. On a hit the entry
        takes one round-robin step; on a miss `outcome` is the resolver's answer,
        which is cached on success and propagated on failure. A hit is one step
        of `Hits`/`AfterHits`, whose round-robin lemmas then apply. */
    method GetAddress(host: Host, now: int, outcome: Lookup) returns (r: Result<Address, string>)
      requires Valid() && Sound(outcome)
      modifies this
      ensures Valid()
      ensures host in old(cache) ==>
        var e := old(cache)[host];
        && r == Success(Pick(e))
        && cache == old(cache)[host := Touch(e, now)]
      ensures host !in old(cache) && outcome.Success? ==>
        && r == Success(outcome.value[0])
        && cache == old(cache)[host := DnsEntry(host, outcome.value, 1, now, now)]
      ensures host !in old(cache) && outcome.Failure? ==>
        r == Failure(outcome.error) && cache == old(cache)
    {
      if host in cache {
        var entry := cache[host];
        var ip := Pick(entry);
        cache := cache[host := Touch(entry, now)];
        return Success(ip);
      }
      match outcome {
        case Failure(err) =>
          return Failure(err);
        case Success(ips) =>
          var entry := Created(host, ips, now);
          var ip := Pick(entry);
          cache := cache[host := Touch(entry, now)];
          return Success(ip);
      }
    }

    /** The refresh step for one cached host, taken as one atomic update. */
    method RefreshKey(key: Host, now: int, outcome: Lookup)
      requires Valid() && key in cache && Sound(outcome)
      modifies this
      ensures Valid()
      ensures RefreshEntry(old(cache)[key], config, now, outcome).None? ==>
        cache == old(cache) - {key}
      ensures RefreshEntry(old(cache)[key], config, now, outcome).Some? ==>
        cache == old(cache)[key := RefreshEntry(old(cache)[key], config, now, outcome).value]
    {
      var value := cache[key];
      if value.updatedTs + config.dnsTtlMs > now {
        return;
      }
      if value.lastUsedTs + config.dnsIdleTtlMs <= now {
        cache := cache - {key};
        return;
      }
      match outcome {
        case Failure(_) =>
        case Success(ips) =>
          value := value.(ips := ips, updatedTs := now);
          cache := cache[key := value];
      }
    }

    /** One background refresh pass: every host cached at the start takes its
        step, in whatever order; the outcome is the same for every order. */
    method BackgroundRefresh(now: int, lookup: Host -> Lookup)
      requires Valid() && SoundResolver(lookup)
      modifies this
      ensures Valid()
      ensures cache == RefreshAll(old(cache), config, now, lookup)
    {
      ghost var start := cache;
      var pending := cache.Keys;
      while pending != {}
        invariant Valid()
        invariant pending <= start.Keys && cache.Keys <= start.Keys
        invariant forall h :: h in pending ==> h in cache && cache[h] == start[h]
        invariant forall h :: h in start && h !in pending ==>
          var step := RefreshEntry(start[h], config, now, lookup(start[h].host));
          && (h in cache <==> step.Some?)
          && (h in cache ==> cache[h] == step.value)
        decreases pending
      {
        var key :| key in pending;
        assert Sound(lookup(cache[key].host));
        RefreshKey(key, now, lookup(cache[key].host));
        pending := pending - {key};
      }
      assert cache.Keys == RefreshAll(start, config, now, lookup).Keys;
    }

    /** The store's own sweep; which entries it expires is decided inside the
        LRU store and given here as `expired`. */
    method Prune(expired: set<Host>)
      requires Valid()
      modifies this
      ensures Valid()
      ensures cache == old(cache) - expired
    {
      cache := cache - expired;
    }
  }

  /** Successive selections on one host count 1, 2, 3 and rotate its addresses. */
  method RoundRobinScenario()
  {
    var resolver := new CachedDnsResolver(Config(false, 1000, 2, 5000, 100, 100));
    var microsoft := "microsoft.com";
    var ms: Lookup := Success(["m1", "m2"]);

    var ip := resolver.GetAddress(microsoft, 0, ms);
    assert ip == Success("m1") && resolver.cache[microsoft].nextIdx == 1;
    ip := resolver.GetAddress(microsoft, 10, ms);
    assert ip == Success("m2") && resolver.cache[microsoft].nextIdx == 2;
    ip := resolver.GetAddress(microsoft, 20, ms);
    assert ip == Success("m1") && resolver.cache[microsoft].nextIdx == 3;
    assert resolver.cache[microsoft].lastUsedTs == 20;
  }

  /** Two hosts: the one left unused idles out first, then the other, and the
      cache shrinks from two entries to none; a later selection resolves afresh. */
  method IdleExpiryScenario()
  {
    var config := Config(false, 1000, 2, 5000, 100, 100);
    var resolver := new CachedDnsResolver(config);
    var amazon, microsoft := "amazon.com", "microsoft.com";
    var lookup: Host -> Lookup := h =>
      if h == microsoft then Success(["m1", "m2"]) else Success(["a1"]);

    var ip := resolver.GetAddress(amazon, 0, Success(["a1"]));
    ip := resolver.GetAddress(microsoft, 20, Success(["m1", "m2"]));
    assert resolver.cache.Keys == {amazon, microsoft};
    assert |resolver.cache| == 2;

    resolver.BackgroundRefresh(5000, lookup);
    assert resolver.cache.Keys == {microsoft};
    assert |resolver.cache| == 1;
    assert resolver.cache[microsoft].updatedTs == 5000;

    resolver.BackgroundRefresh(6020, lookup);
    assert resolver.cache == map[];

    ip := resolver.GetAddress(microsoft, 6030, lookup(microsoft));
    assert ip == Success("m1") && resolver.cache[microsoft].nextIdx == 1;
  }
}
