/**
 * `CountryService`: the ranked per-country counts enriched with metadata
 * from the REST Countries lookup, read through the shared cache under the
 * key `country:<code>` for 300 seconds.  The HTTP call is the oracle
 * `lookup`, which either fails (network error, timeout, non-2xx) or yields
 * the response body's array.  The `Promise.all` fan-out is run in rank
 * order; because the ranked countries are distinct, each step touches a
 * different cache key, so this order is not observable.
 */
module CountryService {
  import opened Wrappers
  import opened Js
  import opened Cache
  import opened Collections
  import opened Ranking
  import opened VoteModel
  import opened VoteService

  datatype CountryName = CountryName(common: string, official: string)

  /** The fields of a REST Countries record that the service reads; `capital` and `subregion` may be absent. */
  datatype RestCountry = RestCountry(name: CountryName, capital: Option<seq<string>>, region: string,
                                     subregion: Option<string>)

  /** The result of `axios.get(.../alpha/<code>)`: a failure, or the body's array. */
  datatype Fetch = Unreachable | Body(data: seq<RestCountry>)

  datatype CountryDetails = CountryDetails(name: string, officialName: string, capital: seq<string>,
                                           region: string, subRegion: string, votes: int)

  /** The `limit` argument: the `parseInt` result of the query parameter, or 10 when absent. */
  datatype Limit = NotANumber | LimitOf(n: int)

  const CacheTtl: int := 300
  const DefaultLimit: Limit := LimitOf(10)
  /** `getTopCountries` calls `getVoteCountByCountry()` without an argument. */
  const RankedRows: nat := 10
  const TopCountriesFailed := AppError("Failed to get top countries", 500)

  function CacheKey(code: string): string
  {
    "country:" + code
  }

  lemma CacheKeyInjective(a: string, b: string)
    requires CacheKey(a) == CacheKey(b)
    ensures a == b
  {
    assert a == CacheKey(a)[8..];
    assert b == CacheKey(b)[8..];
  }

  /** What the supplier does: `response.data[0]`, `undefined` for an empty array, or the request's error. */
  function Supplier(f: Fetch): Attempt<RestCountry>
  {
    match f
    case Unreachable => Threw
    case Body(data) => Returned(if |data| == 0 then Undefined else Obj(data[0]))
  }

  /**
   * Building the details from a cached value; `None` when reading
   * `value.name.common` throws, which it does for anything but a record.
   */
  function DetailsOf(value: JsValue<RestCountry>, votes: int): (d: Option<CountryDetails>)
    ensures d.Some? <==> value.Obj?
    ensures value.Obj? ==>
              var c := value.o;
              && d.value.name == c.name.common
              && d.value.officialName == c.name.official
              && d.value.capital == (if c.capital.Some? then c.capital.value else [])
              && d.value.region == c.region
              && d.value.subRegion == (if c.subregion.Some? then c.subregion.value else "")
              && d.value.votes == votes
  {
    match value
    case Obj(c) =>
      Some(CountryDetails(c.name.common, c.name.official,
                          match c.capital case Some(cap) => cap case None => [],
                          c.region,
                          match c.subregion case Some(sub) => sub case None => "",
                          votes))
    case _ => None
  }

  /** The degraded entry used when a country's lookup fails. */
  function Fallback(code: string, votes: int): CountryDetails
  {
    CountryDetails(code, code, [], "Unknown", "Unknown", votes)
  }

  /** One ranked row, enriched from what the cache handed back, or degraded on any error. */
  function Enrich(row: CountRow, fetched: Attempt<RestCountry>): (d: CountryDetails)
    ensures d.votes == row.votes
  {
    match fetched
    case Threw => Fallback(row.country, row.votes)
    case Returned(v) =>
      match DetailsOf(v, row.votes)
      case Some(details) => details
      case None => Fallback(row.country, row.votes)
  }

  /** What `cache.getOrSet('country:' + code, ...)` yields against cache contents `m` at `now`. */
  function Resolve(m: map<string, Entry<RestCountry>>, code: string, lookup: string -> Fetch, now: int): Attempt<RestCountry>
  {
    GetOrSetStep(m, CacheKey(code), Supplier(lookup(code)), CacheTtl, now).result
  }

  /** The cache contents after resolving the countries of `rows` one after the other. */
  function CacheAfter(m: map<string, Entry<RestCountry>>, rows: seq<CountRow>, lookup: string -> Fetch, now: int)
    : map<string, Entry<RestCountry>>
  {
    if rows == [] then m
    else
      var last := rows[|rows| - 1];
      GetOrSetStep(CacheAfter(m, rows[..|rows| - 1], lookup, now), CacheKey(last.country),
                   Supplier(lookup(last.country)), CacheTtl, now).entries
  }

  /** The countries of `rows` for which the cache missed, so that the network was asked. */
  function FetchedCodes(m: map<string, Entry<RestCountry>>, rows: seq<CountRow>, now: int): seq<string>
  {
    if rows == [] then []
    else
      var last := rows[|rows| - 1];
      FetchedCodes(m, rows[..|rows| - 1], now) +
        (if Lookup(m, CacheKey(last.country), now).Null? then [last.country] else [])
  }

  /** The details `getTopCountries` assembles for ranked rows `rows`, all resolved against cache contents `m`. */
  function TopDetails(rows: seq<CountRow>, m: map<string, Entry<RestCountry>>, lookup: string -> Fetch, now: int)
    : (out: seq<CountryDetails>)
    ensures |out| == |rows|
    ensures forall i :: 0 <= i < |rows| ==> out[i] == Enrich(rows[i], Resolve(m, rows[i].country, lookup, now))
  {
    seq(|rows|, i requires 0 <= i < |rows| => Enrich(rows[i], Resolve(m, rows[i].country, lookup, now)))
  }

  /** JavaScript `slice(0, limit)`: the end index it uses on an array of length `len`. */
  function SliceEnd(len: nat, limit: Limit): (e: nat)
    ensures e <= len
    ensures limit.LimitOf? && limit.n >= 0 ==> e == Min(limit.n, len)
    ensures limit.LimitOf? && limit.n < 0 ==> e == (if len + limit.n > 0 then len + limit.n else 0)
    ensures limit.NotANumber? ==> e == 0
  {
    match limit
    case NotANumber => 0
    case LimitOf(n) =>
      if n >= 0 then (if n < len then n else len)
      else if len + n > 0 then len + n else 0
  }

  predicate SameAt<V(==)>(m1: map<string, V>, m2: map<string, V>, k: string)
  {
    (k in m1 <==> k in m2) && (k in m1 ==> m1[k] == m2[k])
  }

  /** `getOrSet` on one key depends only on that key's entry. */
  lemma GetOrSetDependsOnKeyOnly(m1: map<string, Entry<RestCountry>>, m2: map<string, Entry<RestCountry>>,
                                 key: string, fn: Attempt<RestCountry>, ttl: int, now: int)
    requires SameAt(m1, m2, key)
    ensures GetOrSetStep(m1, key, fn, ttl, now).result == GetOrSetStep(m2, key, fn, ttl, now).result
    ensures GetOrSetStep(m1, key, fn, ttl, now).calledSupplier == GetOrSetStep(m2, key, fn, ttl, now).calledSupplier
    ensures Lookup(m1, key, now) == Lookup(m2, key, now)
  {
  }

  /** Resolving the `i`-th country leaves the entries of the later, different, countries alone. */
  lemma ResolvingOneLeavesTheRest(before: map<string, Entry<RestCountry>>, m0: map<string, Entry<RestCountry>>,
                                  kept: seq<CountRow>, i: nat, lookup: string -> Fetch, now: int)
    requires DistinctCountries(kept) && i < |kept|
    requires forall j :: i <= j < |kept| ==> SameAt(before, m0, CacheKey(kept[j].country))
    ensures var after := GetOrSetStep(before, CacheKey(kept[i].country), Supplier(lookup(kept[i].country)), CacheTtl, now).entries;
            forall j :: i + 1 <= j < |kept| ==> SameAt(after, m0, CacheKey(kept[j].country))
  {
    var key := CacheKey(kept[i].country);
    GetOrSetIsLocal(before, key, Supplier(lookup(kept[i].country)), CacheTtl, now);
    forall j | i + 1 <= j < |kept| ensures CacheKey(kept[j].country) != key {
      if CacheKey(kept[j].country) == key {
        CacheKeyInjective(kept[j].country, kept[i].country);
      }
    }
  }

  /** One more ranked row: how the three specification functions extend. */
  lemma ExtendByOne(m0: map<string, Entry<RestCountry>>, kept: seq<CountRow>, i: nat, lookup: string -> Fetch, now: int)
    requires i < |kept|
    ensures TopDetails(kept[..i + 1], m0, lookup, now) ==
              TopDetails(kept[..i], m0, lookup, now) + [Enrich(kept[i], Resolve(m0, kept[i].country, lookup, now))]
    ensures CacheAfter(m0, kept[..i + 1], lookup, now) ==
              GetOrSetStep(CacheAfter(m0, kept[..i], lookup, now), CacheKey(kept[i].country),
                           Supplier(lookup(kept[i].country)), CacheTtl, now).entries
    ensures FetchedCodes(m0, kept[..i + 1], now) ==
              FetchedCodes(m0, kept[..i], now) +
                (if Lookup(m0, CacheKey(kept[i].country), now).Null? then [kept[i].country] else [])
  {
    assert kept[..i + 1][..i] == kept[..i];
  }

  /**
   * The `Promise.all` over the ranked rows: each row's country resolved
   * through the cache, in order, with per-row fallback.
   */
  method EnrichAll(cache: CacheManager<RestCountry>, kept: seq<CountRow>, lookup: string -> Fetch, now: int)
    returns (out: seq<CountryDetails>, fetched: seq<string>)
    requires DistinctCountries(kept)
    modifies cache
    ensures out == TopDetails(kept, old(cache.entries), lookup, now)
    ensures fetched == FetchedCodes(old(cache.entries), kept, now)
    ensures cache.entries == CacheAfter(old(cache.entries), kept, lookup, now)
  {
    ghost var m0 := cache.entries;
    out := [];
    fetched := [];
    var i := 0;
    while i < |kept|
      invariant 0 <= i <= |kept|
      invariant out == TopDetails(kept[..i], m0, lookup, now)
      invariant fetched == FetchedCodes(m0, kept[..i], now)
      invariant cache.entries == CacheAfter(m0, kept[..i], lookup, now)
      invariant forall j :: i <= j < |kept| ==> SameAt(cache.entries, m0, CacheKey(kept[j].country))
    {
      var row := kept[i];
      ghost var before := cache.entries;
      var res, called := cache.GetOrSet(CacheKey(row.country), Supplier(lookup(row.country)), CacheTtl, now);
      GetOrSetDependsOnKeyOnly(before, m0, CacheKey(row.country), Supplier(lookup(row.country)), CacheTtl, now);
      ResolvingOneLeavesTheRest(before, m0, kept, i, lookup, now);
      ExtendByOne(m0, kept, i, lookup, now);
      out := out + [Enrich(row, res)];
      if called {
        fetched := fetched + [row.country];
      }
      i := i + 1;
    }
    assert kept[..i] == kept;
  }

  /**
   * `getTopCountries(limit)`.  `ranked` is the answer of the grouped query
   * when storage is up: any ranking `IsTopCounts` allows, so that equal
   * counts may come back in whatever order the database picks.  `fetched`
   * lists, in rank order, the countries whose metadata had to be requested
   * from the network.
   */
  method GetTopCountries(cache: CacheManager<RestCountry>, votes: seq<Vote>, storageUp: bool, ranked: seq<CountRow>,
                         limit: Limit, lookup: string -> Fetch, now: int)
    returns (r: Result<seq<CountryDetails>, AppError>, fetched: seq<string>)
    requires storageUp ==> IsTopCounts(CountryColumn(votes), RankedRows, ranked)
    modifies cache
    ensures !storageUp ==> r == Failure(TopCountriesFailed) && fetched == [] && cache.entries == old(cache.entries)
    ensures storageUp ==>
              var kept := ranked[..SliceEnd(|ranked|, limit)];
              && r == Success(TopDetails(kept, old(cache.entries), lookup, now))
              && fetched == FetchedCodes(old(cache.entries), kept, now)
              && cache.entries == CacheAfter(old(cache.entries), kept, lookup, now)
  {
    if !storageUp {
      return Failure(TopCountriesFailed), [];
    }
    if |ranked| == 0 {
      return Success([]), [];
    }
    var kept := ranked[..SliceEnd(|ranked|, limit)];
    assert DistinctCountries(kept) by {
      PrefixKeepsCountriesDistinct(ranked, SliceEnd(|ranked|, limit));
    }
    var out;
    out, fetched := EnrichAll(cache, kept, lookup, now);
    r := Success(out);
  }

  lemma PrefixKeepsCountriesDistinct(rows: seq<CountRow>, n: nat)
    requires DistinctCountries(rows) && n <= |rows|
    ensures DistinctCountries(rows[..n])
  {
    assert forall i :: 0 <= i < n ==> rows[..n][i] == rows[i];
  }

  /** `getCountryByCode(code)`: the same cache key, no fallback, and `votes` always 0. */
  method GetCountryByCode(cache: CacheManager<RestCountry>, code: string, lookup: string -> Fetch, now: int)
    returns (r: Option<CountryDetails>)
    modifies cache
    ensures r == ByCode(Resolve(old(cache.entries), code, lookup, now))
    ensures cache.entries == GetOrSetStep(old(cache.entries), CacheKey(code), Supplier(lookup(code)), CacheTtl, now).entries
  {
    var res, _ := cache.GetOrSet(CacheKey(code), Supplier(lookup(code)), CacheTtl, now);
    match res
    case Threw => r := None;
    case Returned(v) => r := DetailsOf(v, 0);
  }

  /** The by-code answer for what the cache handed back: `null` (`None`) on any error. */
  function ByCode(fetched: Attempt<RestCountry>): (r: Option<CountryDetails>)
    ensures r.Some? ==> r.value.votes == 0
    ensures fetched.Threw? ==> r.None?
  {
    match fetched
    case Threw => None
    case Returned(v) => DetailsOf(v, 0)
  }

  // ---------------------------------------------------------------------------
  // Properties of the enrichment.

  /** With no votes the answer is `[]`, and nothing is requested or cached. */
  lemma NoVotesNoLookups(m: map<string, Entry<RestCountry>>, ranked: seq<CountRow>, limit: Limit,
                         lookup: string -> Fetch, now: int)
    requires IsTopCounts(CountryColumn([]), RankedRows, ranked)
    ensures var kept := ranked[..SliceEnd(|ranked|, limit)];
            && kept == []
            && TopDetails(kept, m, lookup, now) == []
            && FetchedCodes(m, kept, now) == []
            && CacheAfter(m, kept, lookup, now) == m
  {
    assert CountryColumn([]) == [];
  }

  /** At most ten rows come back, and never more than a non-negative limit. */
  lemma TopCountriesLength(votes: seq<Vote>, ranked: seq<CountRow>, limit: Limit)
    requires IsTopCounts(CountryColumn(votes), RankedRows, ranked)
    ensures var n := SliceEnd(|ranked|, limit);
            && n <= 10
            && (limit.LimitOf? && limit.n >= 0 ==> n <= limit.n)
            && n == (match limit
                     case NotANumber => 0
                     case LimitOf(k) =>
                       var len := Min(10, |Groups(CountryColumn(votes))|);
                       if k >= 0 then Min(k, len) else if len + k > 0 then len + k else 0)
  {
  }

  /** Rank order and counts survive the enrichment, whatever each lookup does. */
  lemma TopDetailsKeepRank(rows: seq<CountRow>, m: map<string, Entry<RestCountry>>, lookup: string -> Fetch, now: int)
    ensures |TopDetails(rows, m, lookup, now)| == |rows|
    ensures forall i :: 0 <= i < |rows| ==> TopDetails(rows, m, lookup, now)[i].votes == rows[i].votes
    ensures NonIncreasing(rows) ==>
              forall i, j :: 0 <= i < j < |rows| ==>
                TopDetails(rows, m, lookup, now)[i].votes >= TopDetails(rows, m, lookup, now)[j].votes
  {
  }

  /**
   * A country whose lookup fails (and is not cached) degrades on its own:
   * name and official name are the code, no capital, region and sub-region
   * "Unknown", and its vote count is kept.
   */
  lemma FailedLookupFallsBack(rows: seq<CountRow>, m: map<string, Entry<RestCountry>>, lookup: string -> Fetch,
                              now: int, i: nat)
    requires i < |rows|
    requires lookup(rows[i].country) == Unreachable
    requires Lookup(m, CacheKey(rows[i].country), now).Null?
    ensures TopDetails(rows, m, lookup, now)[i] == Fallback(rows[i].country, rows[i].votes)
  {
  }

  /** A successful lookup that is not cached yet fills every field from the record. */
  lemma SuccessfulLookupFields(rows: seq<CountRow>, m: map<string, Entry<RestCountry>>, lookup: string -> Fetch,
                               now: int, i: nat, c: RestCountry, more: seq<RestCountry>)
    requires i < |rows|
    requires lookup(rows[i].country) == Body([c] + more)
    requires Lookup(m, CacheKey(rows[i].country), now).Null?
    ensures TopDetails(rows, m, lookup, now)[i] ==
              CountryDetails(c.name.common, c.name.official, if c.capital.Some? then c.capital.value else [],
                             c.region, if c.subregion.Some? then c.subregion.value else "", rows[i].votes)
  {
  }

  /** Entry `i` depends on its own country's lookup only: another country's failure cannot change it. */
  lemma EntriesAreIsolated(rows: seq<CountRow>, m: map<string, Entry<RestCountry>>, lookup: string -> Fetch,
                           lookup': string -> Fetch, now: int, i: nat)
    requires i < |rows|
    requires lookup(rows[i].country) == lookup'(rows[i].country)
    ensures TopDetails(rows, m, lookup, now)[i] == TopDetails(rows, m, lookup', now)[i]
  {
  }

  /**
   * A record fetched by one path is served from the cache to the other
   * while it is live: both use the key `country:<code>` and the same TTL.
   */
  lemma FetchIsSharedBetweenPaths(m: map<string, Entry<RestCountry>>, code: string, lookup: string -> Fetch,
                                  lookup': string -> Fetch, t: int, t': int, c: RestCountry, more: seq<RestCountry>)
    requires Lookup(m, CacheKey(code), t).Null?
    requires lookup(code) == Body([c] + more)
    requires t' <= t + 1000 * CacheTtl
    ensures var m' := GetOrSetStep(m, CacheKey(code), Supplier(lookup(code)), CacheTtl, t).entries;
            && Resolve(m', code, lookup', t') == Returned(Obj(c))
            && !GetOrSetStep(m', CacheKey(code), Supplier(lookup'(code)), CacheTtl, t').calledSupplier
  {
  }

  /** An empty body is cached as `undefined`: until it expires, both paths fail for that code without asking again. */
  lemma EmptyBodyIsCachedAsFailure(m: map<string, Entry<RestCountry>>, code: string, votes: int,
                                   lookup: string -> Fetch, lookup': string -> Fetch, t: int, t': int)
    requires Lookup(m, CacheKey(code), t).Null?
    requires lookup(code) == Body([])
    requires t' <= t + 1000 * CacheTtl
    ensures var m' := GetOrSetStep(m, CacheKey(code), Supplier(lookup(code)), CacheTtl, t).entries;
            && Resolve(m', code, lookup', t') == Returned(Undefined)
            && Enrich(CountRow(code, votes), Resolve(m', code, lookup', t')) == Fallback(code, votes)
            && ByCode(Resolve(m', code, lookup', t')).None?
  {
  }

  /** A failed by-code lookup reports not found; a found country reports 0 votes. */
  lemma ByCodeHasNoFallback(m: map<string, Entry<RestCountry>>, code: string, lookup: string -> Fetch, now: int)
    requires Lookup(m, CacheKey(code), now).Null?
    requires lookup(code) == Unreachable
    ensures ByCode(Resolve(m, code, lookup, now)).None?
  {
  }
}
