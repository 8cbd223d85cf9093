/** The background refresher's decision for one cached entry, and the effect
    of a whole refresh pass over the cache. */
module RefreshPolicy {
  import opened Wrappers
  import opened DnsEntries

  /** What a resolver call yields: the addresses, or the error it raised. */
  type Lookup = Result<seq<Address>, string>

  /** A successful resolution always carries at least one address. */
  ghost predicate Sound(outcome: Lookup)
  {
    outcome.Success? ==> |outcome.value| > 0
  }

  ghost predicate SoundResolver(lookup: Host -> Lookup)
  {
    forall h :: Sound(lookup(h))
  }

  /** Due for refresh: the last successful resolution is at least one TTL old. */
  predicate Stale(e: DnsEntry, config: Config, now: int)
  {
    e.updatedTs + config.dnsTtlMs <= now
  }

  /** Not selected for at least the idle TTL. */
  predicate Idle(e: DnsEntry, config: Config, now: int)
  {
    e.lastUsedTs + config.dnsIdleTtlMs <= now
  }

  /** One refresh step on one entry: `None` deletes it, `Some` is what stays
      in the cache. `outcome` is used only when the entry is re-resolved. */
  function RefreshEntry(e: DnsEntry, config: Config, now: int, outcome: Lookup): (r: Option<DnsEntry>)
    ensures r.None? <==> Stale(e, config, now) && Idle(e, config, now)
    ensures r.Some? ==>
      r.value.host == e.host && r.value.nextIdx == e.nextIdx && r.value.lastUsedTs == e.lastUsedTs
    ensures r.Some? && r.value != e ==>
      && Stale(e, config, now) && outcome.Success?
      && r.value.ips == outcome.value && r.value.updatedTs == now
  {
    if !Stale(e, config, now) then Some(e)
    else if Idle(e, config, now) then None
    else match outcome
      case Success(ips) => Some(e.(ips := ips, updatedTs := now))
      case Failure(_) => Some(e)
  }

  /** A whole pass: every entry present at the start takes its own step,
      resolving its own host name. */
  function RefreshAll(cache: map<Host, DnsEntry>, config: Config, now: int,
                      lookup: Host -> Lookup): (r: map<Host, DnsEntry>)
    ensures r.Keys <= cache.Keys
  {
    map h | h in cache && RefreshEntry(cache[h], config, now, lookup(cache[h].host)).Some?
      :: RefreshEntry(cache[h], config, now, lookup(cache[h].host)).value
  }

  /** The hosts a pass deletes. */
  function IdleHosts(cache: map<Host, DnsEntry>, config: Config, now: int): (s: set<Host>)
    ensures s <= cache.Keys
  {
    set h | h in cache && Stale(cache[h], config, now) && Idle(cache[h], config, now)
  }

  /** A fresh entry is left exactly as it is, whatever the resolver would say. */
  lemma FreshEntryUntouched(cache: map<Host, DnsEntry>, config: Config, now: int,
                            lookup: Host -> Lookup, h: Host)
    requires h in cache && cache[h].updatedTs + config.dnsTtlMs > now
    ensures h in RefreshAll(cache, config, now, lookup)
    ensures RefreshAll(cache, config, now, lookup)[h] == cache[h]
  {
  }

  /** A pass deletes exactly the entries that are both stale and idle. */
  lemma DeletesExactlyIdle(cache: map<Host, DnsEntry>, config: Config, now: int,
                           lookup: Host -> Lookup)
    ensures RefreshAll(cache, config, now, lookup).Keys == cache.Keys - IdleHosts(cache, config, now)
  {
  }

  /** Hence the cache shrinks by exactly the number of idle, stale hosts. */
  lemma SizeAfterRefresh(cache: map<Host, DnsEntry>, config: Config, now: int,
                         lookup: Host -> Lookup)
    ensures |RefreshAll(cache, config, now, lookup)|
         == |cache| - |IdleHosts(cache, config, now)|
  {
    var r := RefreshAll(cache, config, now, lookup);
    DeletesExactlyIdle(cache, config, now, lookup);
    assert |r| == |r.Keys|;
    assert |cache| == |cache.Keys|;
  }

  /** A stale entry in use is re-resolved: success installs the new addresses
      and update time and keeps host, counter and last use; failure leaves the
      entry exactly as it was. */
  lemma ActiveEntryRefreshed(cache: map<Host, DnsEntry>, config: Config, now: int,
                             lookup: Host -> Lookup, h: Host)
    requires h in cache && Stale(cache[h], config, now) && !Idle(cache[h], config, now)
    ensures h in RefreshAll(cache, config, now, lookup)
    ensures var e, r := cache[h], RefreshAll(cache, config, now, lookup)[h];
            match lookup(e.host)
            case Success(ips) =>
              r.ips == ips && r.updatedTs == now
              && r.host == e.host && r.nextIdx == e.nextIdx && r.lastUsedTs == e.lastUsedTs
            case Failure(_) => r == e
  {
  }

  /** An idle entry is never re-resolved: it is either kept as it is or deleted. */
  lemma IdleNeverResolved(e: DnsEntry, config: Config, now: int, outcome: Lookup)
    requires Idle(e, config, now)
    ensures RefreshEntry(e, config, now, outcome) in {None, Some(e)}
  {
  }

  /** A pass keeps every entry under its own host name with a non-empty list. */
  lemma RefreshKeepsWellFormed(cache: map<Host, DnsEntry>, config: Config, now: int,
                               lookup: Host -> Lookup)
    requires WellFormed(cache) && SoundResolver(lookup)
    ensures WellFormed(RefreshAll(cache, config, now, lookup))
  {
    var r := RefreshAll(cache, config, now, lookup);
    forall h | h in r
      ensures r[h].host == h && |r[h].ips| > 0
    {
      assert Sound(lookup(cache[h].host));
    }
  }

  /** A second pass at the same instant with the same resolver changes
      nothing: every survivor is fresh, fails again, or resolves again to the
      same addresses and update time. */
  lemma RefreshIdempotent(cache: map<Host, DnsEntry>, config: Config, now: int,
                          lookup: Host -> Lookup)
    ensures var once := RefreshAll(cache, config, now, lookup);
            RefreshAll(once, config, now, lookup) == once
  {
    var once := RefreshAll(cache, config, now, lookup);
    var twice := RefreshAll(once, config, now, lookup);
    forall h | h in once
      ensures h in twice && twice[h] == once[h]
    {
      var e := cache[h];
      assert once[h].host == e.host;
    }
    assert twice.Keys == once.Keys;
  }
}
