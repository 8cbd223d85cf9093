# axios-cached-dns-resolve: cache entries, round robin and background refresh

A Dafny model of the DNS cache that sits in front of an HTTP client. The cache
maps a host name to a `DnsEntry` (`host`, `ips`, `nextIdx`, `lastUsedTs`,
`updatedTs`). Two operations act on it:

- `getAddress` hands out the next address for a host. On a hit it records the
  time of use and hands out `ips[nextIdx mod len(ips)]`, advancing the counter.
  On a miss it resolves the host, stores a fresh entry with the counter at one
  and hands out the first address. A failed resolution is propagated and
  nothing is cached.
- `backgroundRefresh` visits every cached entry. A fresh entry is skipped. A
  stale entry that has not been used within the idle TTL is deleted. A stale
  entry still in use is re-resolved: on success it gets the new addresses and
  update time, on failure it stays as it was.

Files:

- `wrappers.dfy`: `Option` and `Result`.
- `dns_entries.dfy` (module `DnsEntries`): the entry, the configuration and
  the LRU store options, plus the selection functions. `Pick` is the address a
  hit hands out and `Touch` is the entry it writes back. `Hits` and
  `AfterHits` describe runs of successive selections. This module also holds
  the round-robin lemmas.
- `refresh_policy.dfy` (module `RefreshPolicy`): `RefreshEntry` is the step for
  one entry and `RefreshAll` is a whole pass. The lemmas cover the three
  outcomes, the number of entries deleted, well-formedness and idempotence.
- `cached_dns_resolve.dfy` (module `CachedDnsResolve`): the class
  `CachedDnsResolver` owns the cache as a `map` field and has these methods:
  - `GetAddress`;
  - `RefreshKey`, the per-entry step as one atomic update;
  - `BackgroundRefresh`, a loop over the hosts present at the start, in an
    arbitrary order;
  - `Prune`.

  `RoundRobinScenario` and `IdleExpiryScenario` restate the two-host
  walk-through of `__tests__/test.js` (lines 75-98) as assertions that the
  verifier proves. The counter goes 1, 2, 3. The cache shrinks from two
  entries to one and then to none as the hosts go idle.

The clock (`Date.now()`) and the resolver (`dns.resolve`) are parameters.
Each operation gets one reading `now`. A miss gets the resolver's answer
`outcome`. A refresh pass gets a function `lookup` from host to answer.

## Model

| member | source | states |
|---|---|---|
| `DnsEntries.DefaultCacheConfig` | lib/axios-cached-dns-resolve.js:13-35 | The default idle TTL is ten minutes. The LRU store gets capacity 100 and maximum age TTL × grace multiplier = 10000 ms. |
| `DnsEntries.CacheConfigOf` | lib/axios-cached-dns-resolve.js:32-35 | The store's capacity is the configured cache size. Its hard age bound is never negative when the TTL and the multiplier are not. |
| `DnsEntries.GraceCoversTtl` | lib/axios-cached-dns-resolve.js:32-35 | For every configuration, the LRU store's capacity is `dnsCacheSize`. With a non-negative TTL and a grace multiplier of at least one, its maximum age is at least one TTL. |
| `DnsEntries.Pick` | lib/axios-cached-dns-resolve.js:110 | The address a selection hands out is always one of the entry's addresses. |
| `DnsEntries.Touch` | lib/axios-cached-dns-resolve.js:108-110 | A selection advances the counter by one and records the use time. Host, addresses and update time are unchanged. |
| `DnsEntries.Created` | lib/axios-cached-dns-resolve.js:116-122 | A freshly resolved entry starts with counter 0 and both timestamps `now`. Stored under its host, it keeps the cache well-formed when the resolver returned addresses. |
| `DnsEntries.Hits` | lib/axios-cached-dns-resolve.js:105-112 | Successive selections hand out exactly one address per selection. |
| `DnsEntries.HitsFromList` | lib/axios-cached-dns-resolve.js:110 | Every address that successive selections hand out is one of the entry's own addresses. |
| `DnsEntries.FirstSelection` | lib/axios-cached-dns-resolve.js:116-126 | On a miss, the fresh entry hands out `ips[0]`. It is written back with counter 1 and `lastUsedTs = updatedTs = now`. |
| `DnsEntries.AfterHits` | lib/axios-cached-dns-resolve.js:106-111 | After n selections the counter has advanced by exactly n and `lastUsedTs` is the last selection time. Host, addresses and update time are unchanged. |
| `DnsEntries.HitsAt` | lib/axios-cached-dns-resolve.js:110 | The j-th of successive selections hands out `ips[(nextIdx + j) mod len(ips)]`. |
| `DnsEntries.HitsSnoc` | lib/axios-cached-dns-resolve.js:105-112 | One more selection appends the address picked from the entry as the earlier selections left it. |
| `DnsEntries.RoundRobinCycle` | lib/axios-cached-dns-resolve.js:110 | `len(ips)` consecutive selections hand out the list rotated to start at `nextIdx mod len(ips)`. So every address is handed out exactly once, in list order, and the result is a permutation of `ips`. |
| `DnsEntries.RoundRobinPeriodic` | lib/axios-cached-dns-resolve.js:110 | Selections repeat with period `len(ips)`, because the counter is never reset. |
| `RefreshPolicy.RefreshEntry` | lib/axios-cached-dns-resolve.js:136-147 | One entry's step deletes it if and only if it is both stale and idle. A kept entry always keeps its host, counter and last use. It differs from the old entry only if the entry was stale and the resolver succeeded, and then it carries the new addresses and `updatedTs = now`. |
| `RefreshPolicy.RefreshAll` | lib/axios-cached-dns-resolve.js:134-152 | A refresh pass never adds a host that was not cached before. |
| `RefreshPolicy.FreshEntryUntouched` | lib/axios-cached-dns-resolve.js:136-138 | An entry with `updatedTs + dnsTtlMs > now` stays, unchanged, whatever the resolver would answer. |
| `RefreshPolicy.DeletesExactlyIdle` | lib/axios-cached-dns-resolve.js:136-142 | A pass removes a host if and only if its entry is both stale and idle (`lastUsedTs + dnsIdleTtlMs <= now`). |
| `RefreshPolicy.SizeAfterRefresh` | lib/axios-cached-dns-resolve.js:139-141 | The cache shrinks by exactly the number of stale, idle hosts. |
| `RefreshPolicy.ActiveEntryRefreshed` | lib/axios-cached-dns-resolve.js:144-151 | A stale entry in use is kept. On success it takes the new addresses and `updatedTs = now`, and its host, counter and last use are unchanged. On failure it is exactly as before. |
| `RefreshPolicy.IdleNeverResolved` | lib/axios-cached-dns-resolve.js:139-142 | An idle entry is never re-resolved: a step either keeps it as it is or deletes it. |
| `RefreshPolicy.RefreshKeepsWellFormed` | lib/axios-cached-dns-resolve.js:144-147 | After a pass, every entry is still stored under its own host name and still has at least one address. |
| `RefreshPolicy.RefreshIdempotent` | lib/axios-cached-dns-resolve.js:134-152 | A second pass at the same instant with the same resolver changes nothing. |
| `CachedDnsResolve.CachedDnsResolver.constructor` | lib/axios-cached-dns-resolve.js:43-48 | A new context starts with an empty cache under the given configuration. |
| `CachedDnsResolve.CachedDnsResolver.GetAddress` | lib/axios-cached-dns-resolve.js:105-127 | Hit: returns `ips[old nextIdx mod len(ips)]` and writes back the same entry with the counter plus one and `lastUsedTs = now`; no other host changes. Miss with success: returns `ips[0]` and adds `{host, ips, 1, now, now}`. Miss with failure: returns the error and the cache is unchanged. |
| `CachedDnsResolve.CachedDnsResolver.RefreshKey` | lib/axios-cached-dns-resolve.js:135-151 | One host's refresh step. The entry is deleted, replaced by its refreshed form, or left alone, as `RefreshEntry` decides. Every other host is untouched. |
| `CachedDnsResolve.CachedDnsResolver.BackgroundRefresh` | lib/axios-cached-dns-resolve.js:130-158 | Visiting the hosts cached at the start in any order yields exactly `RefreshAll` of the old cache. The cache stays well-formed. |
| `CachedDnsResolve.CachedDnsResolver.Prune` | lib/axios-cached-dns-resolve.js:60-63 | The store's sweep removes exactly the expired hosts it is given and keeps the cache well-formed. |

## Left out

- `CachedDnsResolve.CachedDnsResolver.GetAddress`: requires a successful resolution to carry at least one address. `dns.resolve` reports an empty answer as an error. With an empty list the source would index with `NaN` and hand out `undefined`.
- `CachedDnsResolve.CachedDnsResolver.RefreshKey`: requires a successful resolution to carry at least one address, for the same reason.
- `CachedDnsResolve.CachedDnsResolver.BackgroundRefresh`: requires every successful resolution to carry at least one address, for the same reason.
- `CachedDnsResolve.CachedDnsResolver.Prune`: the LRU store decides which entries are past `maxAge`. That decision, and the write timestamps it uses, are inside the `lru-cache` library, so the expired set is a parameter. The same library makes `get` miss on an expired entry and evicts the least recently used entry above `max`. The model covers neither: it treats an entry as present until a refresh step or `Prune` removes it. Capacity is not enforced.
- The request interceptor (URL parsing and formatting, the `Host` header, the deep copy) is not modelled. It calls Node's `url`, `net` and lodash. Only its use of `getAddress` matters here. It skips hosts that are already IP literals.
- Timers are not modelled: `init`, `startBackgroundRefresh`, `startPeriodicCachePrune` and their intervals are scheduling. `init` creates a second prune interval after `startPeriodicCachePrune` has created one, and only the second id is kept. The model does not capture that leaked interval.
- The `backgroundRefreshing` flag and async interleaving are not modelled. `forEach` does not await its callbacks, so the flag is cleared before any resolution completes. The model makes each per-host step atomic and uses one clock reading for a whole refresh pass, for both the checks and every new `updatedTs`. The source reads `Date.now()` separately for each check and for each `updatedTs`.
- `CachedDnsResolve.CachedDnsResolver.GetAddress`: `config.cache.get(host)` misses on an entry past the store's `maxAge`. The source then re-resolves the host and restarts the counter at 1. The model instead treats the entry as a hit and continues the round robin until `Prune` or a refresh step removes it.
- `CachedDnsResolve.CachedDnsResolver.GetAddress`: the model runs each call atomically. In the source, `await` separates the miss path's `get` from its `set`. So two concurrent misses for one host both hand out `ips[0]`, and the later `set` overwrites the entry stored by the earlier one.
- `CachedDnsResolve.CachedDnsResolver.GetAddress`: on a miss the source reads `Date.now()` twice, once for `lastUsedTs` and once for `updatedTs`, so they may differ by a millisecond. The model uses one reading `now` for both.
- Configuration from the environment is not modelled. Environment values are strings, so `+` on them would concatenate. The idle TTL default reads the same variable as the TTL. The model takes integer options.
- `nextIdx` is an unbounded `nat`. In JavaScript it is a double, exact only up to 2^53 increments.
- Logging, `stringify` and the declared-but-absent `stats`, `reset`, `getStats` and `getDnsCacheEntries` are not part of this model.
