# Country vote service, modelled in Dafny

A model of the core of `country_vote_service`, a small HTTP service. People vote
for a country with a name, an email and a country code, and each email may vote
only once. The service ranks countries by their votes and decorates the ranking
with metadata from the REST Countries API, read through an in-memory cache with
a time-to-live. Around that core sit:

- an in-memory sliding-window rate limiter;
- a dependency-injection container;
- the request-body validation chain for new votes;
- two data scripts: the development seed (24 fixed votes) and the countries
  seeder, which creates mock votes for every country and can roll them back.

Module layout (one Dafny module per source concern):

- `Wrappers`, `Js` (`wrappers.dfy`, `js.dfy`): Option/Result; JavaScript values and truthiness.
- `Collections` (`collections.dfy`): duplicate-free sequences, and a duplicate-free key list's length.
- `Text` (`text.dfy`): ASCII `toLowerCase`/`toUpperCase`, `trim`, `isAlpha`, suffix tests, decimal rendering.
- `Ranking` (`ranking.dfy`): the grouped `COUNT ... GROUP BY country ORDER BY COUNT DESC LIMIT n` query.
- `VoteModel` (`vote_model.dfy`): the `votes` table: unique email index, model validators, the statements the core issues.
- `VoteService` (`vote_service.dfy`): `createVote`, `getVoteCountByCountry`, `getTotalVotes`, `deleteAllVotes`.
- `Cache` (`cache.dfy`): `CacheManager` (class over a map of entries with expiry).
- `CountryService` (`country_service.dfy`): `getTopCountries`, `getCountryByCode`.
- `RateLimiter` (`rate_limiter.dfy`): `RateLimiter` (class) and the `rateLimit` middleware decision.
- `Container` (`container.dfy`): the service container (class).
- `Validation` (`validation.dfy`): both copies of the `validateVote` chain.
- `Seed` (`seed.dfy`): `seedVotes`, `seedDatabase`, `clearDatabase`, `resetDatabase`.
- `CountriesSeeder` (`countries_seeder.dfy`): mock names and emails, the `rollout` loop, `rollback`, `stats`.

Conventions:

- `Date.now()` is the parameter `now`.
- A failing database call is the flag `storageUp == false`.
- The REST Countries call is an oracle `lookup: string -> Fetch`.
- validator.js `isEmail` and `normalizeEmail` are function parameters.
- The random vote counts of the seeder are the parameter `numVotes`.

Behaviour of the code worth knowing before reading the contracts:

- `createVote` looks up the email exactly as given, and then stores it
  lower-cased. A case variant of a stored email therefore passes the pre-check.
  The unique index then refuses it with the same 409, provided that the model
  validators accept the lower-cased email. `CaseVariantScenario` shows this.
- `getTopCountries` does not clamp its limit. It asks for the default 10 ranked
  rows and applies JavaScript `slice(0, limit)` to them:
  - a limit above 10 gives at most 10 rows (so the route test "should cap limit
    at maximum", src/modules/countries/__tests__/country.routes.test.ts:159-165,
    holds through the 10-row query, not through a clamp);
  - a negative limit drops that many rows from the end;
  - a non-numeric limit (`parseInt` gives `NaN`, src/modules/countries/country.controller.ts:13) gives
    no rows, not the default of 10 that the comment in the route test at
    src/modules/countries/__tests__/country.routes.test.ts:150-157 expects; that test only checks for a 200.
- SQL leaves the order of equal counts open. The ranked rows are therefore any
  answer meeting `IsTopCounts` (exact counts, non-increasing, nothing left out
  that outranks a kept row). `CountryService.GetTopCountries` is stated for
  every such answer, so which of several tied countries survive the `LIMIT` and
  the slice is not fixed.
- `getTopCountries` fails with a 500 when the database query fails.
- An empty REST Countries array is cached as `undefined` for 300 seconds. During
  that time both paths treat the code as a failed lookup without asking the
  network again.

## Model

| member | source | states |
|---|---|---|
| `Cache.Lookup` | src/modules/shared/cache/index.ts:19-33 | a missing or expired key reads as `null`; a live entry yields its stored value |
| `Cache.Evict` | src/modules/shared/cache/index.ts:26-30 | reading removes the key exactly when its entry has expired, and changes nothing otherwise |
| `Cache.Store` | src/modules/shared/cache/index.ts:11-14 | the key maps to the value with expiry `now + 1000 * ttl`; every other key is untouched |
| `Cache.Live` | src/modules/shared/cache/index.ts:86-91 | keeps exactly the unexpired entries, with their values |
| `Cache.CacheManager.Set` | src/modules/shared/cache/index.ts:11-14 | the new entries are `Store(old entries, ...)`: overwrite, with expiry `now + ttl*1000` |
| `Cache.CacheManager.Get` | src/modules/shared/cache/index.ts:19-33 | returns `Lookup` of the old entries and deletes the key only if it had expired |
| `Cache.CacheManager.Has` | src/modules/shared/cache/index.ts:38-48 | true iff the key is present and unexpired, even when it holds `null`; deletes an expired key |
| `Cache.CacheManager.Delete` | src/modules/shared/cache/index.ts:53-55 | true iff the key was present, expired or not; the key is gone afterwards |
| `Cache.CacheManager.Clear` | src/modules/shared/cache/index.ts:60-62 | no entries remain |
| `Cache.CacheManager.GetOrSet` | src/modules/shared/cache/index.ts:67-80 | result, new entries and whether the supplier ran are those of the specification `GetOrSetStep` |
| `Cache.CacheManager.Stats` | src/modules/shared/cache/index.ts:85-97 | the loop leaves exactly the live entries; `size` is their number; `keys` lists each of their keys once |
| `Cache.SetThenGet` | src/modules/shared/cache/index.ts:11-33 | a stored value is read back up to its expiry instant and is `null` and evicted after it |
| `Cache.GetAndHasAgree` | src/modules/shared/cache/index.ts:19-48 | a non-null read implies a live entry; eviction removes no key but the one read |
| `Cache.GetOrSetHit` | src/modules/shared/cache/index.ts:72-75 | a live non-null entry is returned without calling the supplier or changing the cache |
| `Cache.GetOrSetMissStores` | src/modules/shared/cache/index.ts:72-79 | on a miss the supplier runs once; its value is stored with the TTL and returned |
| `Cache.FailedSupplierIsRetried` | src/modules/shared/cache/index.ts:77-78 | a thrown supplier stores nothing, so the next call at the same or a later time runs the supplier again |
| `Cache.StoredNullIsAMiss` | src/modules/shared/cache/index.ts:72-74 | a live entry holding `null` does not count as a hit |
| `Cache.GetOrSetIsLocal` | src/modules/shared/cache/index.ts:67-80 | `getOrSet` on one key leaves every other key's entry as it was |
| `Ranking.CountOf` | src/modules/votes/vote.service.ts:44-53 | a group's count is at most the number of rows, and positive iff the country occurs |
| `Ranking.Groups` | src/modules/votes/vote.service.ts:49 | `GROUP BY country`: each country of the column exactly once |
| `Ranking.SortByVotes` | src/modules/votes/vote.service.ts:50 | `ORDER BY COUNT DESC`: a permutation (same multiset) with non-increasing counts, keeping countries distinct |
| `Ranking.Insert` | src/modules/votes/vote.service.ts:50 | one insertion step of the ordering adds exactly the one row |
| `Ranking.InsertKeepsOrder` | src/modules/votes/vote.service.ts:50 | inserting into a non-increasing list keeps it non-increasing |
| `Ranking.InsertKeepsCountriesDistinct` | src/modules/votes/vote.service.ts:49-50 | inserting a new country keeps the countries distinct |
| `Ranking.RankedRowsAreGroups` | src/modules/votes/vote.service.ts:44-53 | every ranked row is a country of the table with its exact count |
| `Ranking.LeftOutRanksLower` | src/modules/votes/vote.service.ts:50-51 | a country cut off by `LIMIT` has no more votes than any row kept |
| `Ranking.VoteCountByCountryIsTopCounts` | src/modules/votes/vote.service.ts:42-59 | the query result has `min(limit, countries)` rows over distinct countries, exact counts ≥ 1, non-increasing, and nothing left out outranks a kept row |
| `Ranking.EmptyTableHasNoCounts` | src/modules/votes/vote.service.ts:44-55 | no votes, no rows |
| `Collections.DistinctKeysCount` | src/modules/shared/container/index.ts:43-45 | a duplicate-free list of exactly a map's keys is as long as the map |
| `Ranking.CountsAddUpToTotal` | src/modules/votes/vote.service.ts:42-67 | with a limit covering all countries, the ranked counts add up to the number of votes |
| `Ranking.SumVotesSorted` | src/modules/votes/vote.service.ts:50 | ordering the groups keeps the sum of their counts |
| `Ranking.SumCountsOfGroups` | src/modules/votes/vote.service.ts:47-49 | the per-country counts add up to the number of rows |
| `VoteModel.Ballots` | src/modules/votes/vote.model.ts:31-54 | one ballot per row, with the row's name, email and country |
| `VoteModel.NewRows` | src/modules/votes/vote.model.ts:26-30 | rows inserted together get consecutive auto-increment ids, in order |
| `VoteModel.WithoutMatching` | src/seeders/countries.seeder.ts:107-113 | `DELETE ... WHERE email LIKE`: keeps exactly the rows whose email does not match |
| `VoteModel.CountMatching` | src/seeders/countries.seeder.ts:132-138 | the matching rows and the kept rows together are all rows |
| `VoteModel.VoteTable.FindByEmail` | src/modules/votes/vote.service.ts:9 | finds a row iff some row has exactly this email, and returns such a row |
| `VoteModel.VoteTable.Insert` | src/modules/votes/vote.model.ts:31-64 | a validator failure, or an email already stored, inserts nothing; otherwise exactly one row with a fresh id is appended; emails stay unique |
| `VoteModel.VoteTable.BulkInsert` | src/config/seed.ts:68 | all rows go in, or none: they fail if a validator (when asked for) fails, two new emails coincide, or an email is already stored |
| `VoteModel.VoteTable.Truncate` | src/config/seed.ts:94 | no rows remain; the id counter is kept |
| `VoteModel.VoteTable.DestroyByEmail` | src/seeders/countries.seeder.ts:107-113 | deletes exactly the matching rows, keeps the others in order, returns how many it deleted |
| `VoteModel.KeptRowsStayDistinct` | src/modules/votes/vote.model.ts:41 | deleting rows keeps emails and ids unique |
| `VoteService.CreateVote` | src/modules/votes/vote.service.ts:6-40 | 409 iff the raw email is stored or, once validators pass, its lower-case form is; success inserts exactly `(name, lower(email), upper(country))`; every other failure is 500 and inserts nothing |
| `VoteService.GetVoteCountByCountry` | src/modules/votes/vote.service.ts:42-59 | fails with 500 iff storage fails; otherwise the result meets `IsTopCounts` |
| `VoteService.GetTotalVotes` | src/modules/votes/vote.service.ts:61-67 | the number of rows, or a 500 when storage fails |
| `VoteService.TotalEqualsSumOfCounts` | src/modules/votes/vote.service.ts:42-67 | the total equals the sum of an unlimited per-country ranking |
| `VoteService.DeleteAllVotes` | src/modules/votes/vote.service.ts:69-75 | empties the table, or fails with 500 and leaves it unchanged |
| `VoteService.DuplicateEmailScenario` | src/modules/votes/vote.service.ts:9-13 | a second vote with the same email is refused with 409 and one row remains |
| `VoteService.CaseVariantScenario` | src/modules/votes/vote.service.ts:9-36 | a case variant passes the pre-check; the unique index refuses it with the same 409 |
| `CountryService.CacheKeyInjective` | src/modules/countries/country.service.ts:31 | different codes have different cache keys |
| `CountryService.DetailsOf` | src/modules/countries/country.service.ts:44-51 | a record gives name, official name, capital or `[]`, region, sub-region or `""`, and the votes; any other cached value throws |
| `CountryService.Enrich` | src/modules/countries/country.service.ts:28-63 | every row keeps its vote count, enriched or degraded |
| `CountryService.TopDetails` | src/modules/countries/country.service.ts:28-66 | one entry per ranked row, in rank order, each enriched from its own country's lookup |
| `CountryService.SliceEnd` | src/modules/countries/country.service.ts:25 | JavaScript `slice(0, limit)`: `min(limit, len)`, `len + limit` floored at 0 for a negative limit, 0 for `NaN` |
| `CountryService.GetOrSetDependsOnKeyOnly` | src/modules/shared/cache/index.ts:67-80 | `getOrSet` on a key depends only on that key's entry |
| `CountryService.ResolvingOneLeavesTheRest` | src/modules/countries/country.service.ts:28-42 | resolving one ranked country leaves the entries of the later ones as they were |
| `CountryService.ExtendByOne` | src/modules/countries/country.service.ts:28-66 | one more row extends the details, the cache and the fetched codes by that row's step |
| `CountryService.EnrichAll` | src/modules/countries/country.service.ts:28-66 | the loop over the ranked rows yields `TopDetails` from the cache as it was before, and leaves the cache as `CacheAfter` |
| `CountryService.GetTopCountries` | src/modules/countries/country.service.ts:15-71 | for any ranking of 10 rows that `IsTopCounts` allows: a storage failure gives "Failed to get top countries" (500) with no lookups and no cache change; otherwise the details of the first `SliceEnd` rows of that ranking, in its order, with the cache and the fetched codes of `EnrichAll` |
| `CountryService.GetCountryByCode` | src/modules/countries/country.service.ts:73-99 | the same cache key and TTL; the answer is `ByCode` of what the cache yields |
| `CountryService.ByCode` | src/modules/countries/country.service.ts:88-98 | a found country reports 0 votes; any error reports not found |
| `CountryService.NoVotesNoLookups` | src/modules/countries/country.service.ts:20-22 | with no votes every admissible ranking is empty, so the answer is `[]`, with no requests and no cache change |
| `CountryService.TopCountriesLength` | src/modules/countries/country.service.ts:18-25 | for any admissible ranking: at most 10 rows, at most a non-negative limit, exactly the slice length of `min(10, countries)` rows |
| `CountryService.TopDetailsKeepRank` | src/modules/countries/country.service.ts:28-66 | the details keep the length, the counts and their non-increasing order |
| `CountryService.FailedLookupFallsBack` | src/modules/countries/country.service.ts:52-63 | a failed uncached lookup gives the fallback entry: code as names, no capital, "Unknown" region and sub-region, votes kept |
| `CountryService.SuccessfulLookupFields` | src/modules/countries/country.service.ts:34-51 | a successful uncached lookup fills every field from the first record |
| `CountryService.EntriesAreIsolated` | src/modules/countries/country.service.ts:28-63 | an entry depends only on its own country's lookup |
| `CountryService.FetchIsSharedBetweenPaths` | src/modules/countries/country.service.ts:31-42 | a record fetched by one path is served from the cache to the other while it is live |
| `CountryService.EmptyBodyIsCachedAsFailure` | src/modules/countries/country.service.ts:39 | an empty body caches `undefined`; until expiry both paths fail for that code without asking the network again |
| `CountryService.ByCodeHasNoFallback` | src/modules/countries/country.service.ts:96-98 | a failed by-code lookup reports not found instead of a fallback entry |
| `RateLimiter.RecentMembers` | src/modules/shared/middleware/requestLogger.ts:43 | `Recent`, the window filter, keeps exactly the times after the window start |
| `RateLimiter.RecentOfRecent` | src/modules/shared/middleware/requestLogger.ts:43 | filtering by an earlier and then a later window start is filtering by the later one |
| `RateLimiter.RecentAppendFront` | src/modules/shared/middleware/requestLogger.ts:43 | the filter distributes over concatenation |
| `RateLimiter.Admit` | src/modules/shared/middleware/requestLogger.ts:35-55 | admitted iff fewer than `maxRequests` recent times; an admitted request keeps the recent times plus `now`, a refused one the history as it was |
| `RateLimiter.RateLimiter.IsAllowed` | src/modules/shared/middleware/requestLogger.ts:35-55 | the answer and the new map are `Admit` on the client's history (`[]` if none); a refusal changes nothing |
| `RateLimiter.RateLimiter.Reset` | src/modules/shared/middleware/requestLogger.ts:57-59 | forgets exactly that client |
| `RateLimiter.ClientKey` | src/modules/shared/middleware/requestLogger.ts:69 | `req.ip`, else the socket address, else "unknown", skipping absent or empty values |
| `RateLimiter.RateLimit` | src/modules/shared/middleware/requestLogger.ts:67-84 | passes on iff `Admit` allows for the client key; otherwise 429 with "Too many requests. Please try again later." and code `RATE_LIMIT_EXCEEDED`; the new request map stores `Admit`'s history for that key when admitted and is unchanged when refused |
| `RateLimiter.AdmitKeepsWindow` | src/modules/shared/middleware/requestLogger.ts:40-54 | one request preserves the agreement between the kept history and the admitted requests inside any later window |
| `RateLimiter.ReplayKeepsWindow` | src/modules/shared/middleware/requestLogger.ts:35-55 | over any run of requests, the kept history and the admitted requests agree inside the window, and the history holds at most `maxRequests` times |
| `RateLimiter.AdmittedWithinWindowAtMostMax` | src/modules/shared/middleware/requestLogger.ts:35-55 | at any moment no earlier than every request, at most `maxRequests` admitted requests lie in the last `windowMs` |
| `RateLimiter.AdmittedUnderLimit` | src/modules/shared/middleware/requestLogger.ts:46-52 | below the limit a request is admitted and recorded |
| `RateLimiter.ResetClearsLimit` | src/modules/shared/middleware/requestLogger.ts:57-59 | after `reset` the client's next request is admitted with history `[now]` |
| `RateLimiter.OldRequestsExpire` | src/modules/shared/middleware/requestLogger.ts:37-43 | requests at or before the window start no longer count |
| `Container.Resolve` | src/modules/shared/container/index.ts:18-24 | a registered truthy instance is returned; a missing or falsy one throws "Service <name> not found in container" |
| `Container.Container.constructor` | src/modules/shared/container/index.ts:6 | starts empty |
| `Container.Container.Register` | src/modules/shared/container/index.ts:11-13 | the name now maps to the instance; a new name is listed last, a known one keeps its place |
| `Container.Container.Get` | src/modules/shared/container/index.ts:18-24 | success iff the name is registered with a truthy instance; the error names the service |
| `Container.Container.Has` | src/modules/shared/container/index.ts:29-31 | true iff the name is registered, even with a falsy instance |
| `Container.Container.Clear` | src/modules/shared/container/index.ts:36-38 | nothing is registered afterwards |
| `Container.Container.List` | src/modules/shared/container/index.ts:43-45 | every registered name exactly once, as many as there are services |
| `Container.RegisteredIsResolved` | src/modules/shared/container/index.ts:11-24 | a truthy instance just registered is what `get` returns; other names are unaffected |
| `Container.FalsyInstanceIsNotFound` | src/modules/shared/container/index.ts:19-22 | a falsy instance is registered for `has` but `get` throws |
| `Container.NothingResolvesWhenEmpty` | src/modules/shared/container/index.ts:36-38 | after `clear` nothing resolves |
| `Validation.NameFailures` | src/modules/shared/middleware/validation.ts:5-10 | the name errors run in order and are empty iff the trimmed name has 2 to 100 characters |
| `Validation.EmailFailures` | src/modules/shared/middleware/validation.ts:12-18 | the email errors are empty iff the trimmed email is non-empty and passes `isEmail` |
| `Validation.CountryFailures` | src/modules/shared/middleware/validation.ts:20-28 | the country errors are empty iff the trimmed code has 2 or 3 characters, all letters |
| `Validation.Failures` | src/modules/shared/middleware/validation.ts:4-28 | no failure iff all three fields meet their rules |
| `Validation.Report` | src/modules/shared/middleware/validation.ts:35-38 | one `{field, message}` per failing validator, in order |
| `Validation.ValidateVote` | src/modules/votes/vote.validation.ts:4-43 | rejected iff some rule fails, with 400, `success: false` and every error; otherwise it hands on the trimmed name, the normalised trimmed email and the upper-cased trimmed country |
| `Validation.PassesIffAllRulesHold` | src/modules/shared/middleware/validation.ts:4-42 | a body passes iff trimmed name length is 2..100, trimmed email is non-empty and valid, and the trimmed code is 2..3 letters |
| `Validation.ProceedShape` | src/modules/shared/middleware/validation.ts:5-28 | the controller gets the trimmed name (already trimmed, 2..100 characters), the normalised trimmed email, and `Upper(Trim(country))`, which is 2..3 upper-case letters |
| `Validation.PaddedCountryIsSanitised` | src/modules/shared/middleware/validation.ts:20-28 | a body whose country trims to `"us"` and whose other fields pass is handed on with country `"US"` |
| `Validation.PaddedUsTrimmed` | src/modules/shared/middleware/validation.ts:21 | `"  us  "` trims to `"us"`, so it is one such country |
| `Validation.ConcatRunsInOrder` | src/modules/shared/middleware/validation.ts:4-28 | chains run one after the other keep their relative order |
| `Validation.ErrorsFollowTheChain` | src/modules/shared/middleware/validation.ts:4-28 | the errors come in chain order: name, email, country |
| `Validation.OrderedFailuresGroupFields` | src/modules/shared/middleware/validation.ts:35-38 | the reported fields never go back from country to email or from email to name |
| `Validation.ValidateVoteLiteral` | src/modules/shared/middleware/validation.ts:4-43 | the literal-message copy: a missing or blank name, email or code is rejected with "Name is required", "Email is required" or "Country code is required" among its errors |
| `Validation.RequiredReported` | src/modules/shared/middleware/validation.ts:5-23 | with any messages, an empty trimmed field is reported with its "required" message, whatever the other fields hold |
| `Validation.RuleReported` | src/modules/shared/middleware/validation.ts:35-38 | every failing validator appears in the 400 body with its field and message |
| `Validation.CopiesDifferOnlyInMessages` | src/modules/votes/vote.validation.ts:4-43 | both copies accept the same bodies, hand on the same data, and report errors for the same fields |
| `Validation.MissingCountryReportsThreeErrors` | src/modules/shared/middleware/validation.ts:20-27 | with no bail-out, an empty country reports the required, length and letters errors |
| `Validation.ShortNameReportsLength` | src/modules/shared/middleware/validation.ts:9-10 | a one-letter name reports only the length message |
| `Validation.GateImpliesModelValidation` | src/modules/votes/vote.model.ts:31-54 | a body the gate accepts meets the model validators, `notEmpty` on whitespace-only values included, given that `isEmail` accepts the lower-cased email and refuses blank strings |
| `Validation.NonBlankName` | src/modules/votes/vote.model.ts:35 | a trimmed name of 2 or more characters passes `notEmpty` |
| `Text.LowerIdempotent` | src/modules/votes/vote.service.ts:18 | lower-casing twice is lower-casing once |
| `Text.LowerOfConcat` | src/seeders/countries.seeder.ts:32 | lower-casing distributes over concatenation |
| `Text.TrimIsInnerSlice` | src/modules/shared/middleware/validation.ts:6 | `trim` removes exactly the leading and trailing whitespace |
| `Text.TrimIdempotent` | src/modules/shared/middleware/validation.ts:6 | trimming twice is trimming once |
| `Text.TrimEmptyIffBlank` | src/modules/votes/vote.model.ts:35 | `notEmpty` rejects exactly the strings that trim to nothing |
| `Text.TrimStartAfterSpaces` | src/modules/shared/middleware/validation.ts:21 | leading whitespace before a part that does not start with whitespace is removed, and nothing more |
| `Text.TrimEndBeforeSpaces` | src/modules/shared/middleware/validation.ts:21 | trailing whitespace after a part that does not end with whitespace is removed, and nothing more |
| `Text.NatToString` | src/seeders/countries.seeder.ts:32 | a non-negative index prints as one or more decimal digits |
| `Text.NatToStringInjective` | src/seeders/countries.seeder.ts:32 | different indices print differently |
| `Seed.Mail` | src/config/seed.ts:8-49 | every seed address ends with "@example.com" |
| `Seed.CountOfAppend` | src/config/seed.ts:7-49 | counts of a country add up over concatenated lists |
| `Seed.SeedCountries` | src/config/seed.ts:7-49 | the seed's countries are runs of US, DE, FR, JP, BR, GB, ES, CA, IT, AU |
| `Seed.SeedCounts` | src/config/seed.ts:6-50 | 24 votes: US 5, DE 4, FR 3, JP 3, BR 2, GB 2, ES 2, CA 1, IT 1, AU 1, and no other country |
| `Seed.SeedEmails` | src/config/seed.ts:6-50 | the 24 seed emails are pairwise different and end with "@example.com" |
| `Seed.MailInjective` | src/config/seed.ts:8-49 | different local parts give different addresses |
| `Seed.SeedDatabase` | src/config/seed.ts:55-86 | a non-empty table is left alone; an empty one receives exactly the 24 seed votes, in order |
| `Seed.ClearDatabase` | src/config/seed.ts:91-100 | the table is emptied |
| `Seed.ResetDatabase` | src/config/seed.ts:105-108 | whatever was there, the table ends up holding exactly the seed votes |
| `Seed.SeedTwice` | src/config/seed.ts:58-68 | seeding twice is seeding once |
| `Seed.SeededRanking` | src/config/seed.ts:71-81 | after a reset the ranking has 10 rows, starts with US (5) and DE (4), and adds up to 24 |
| `CountriesSeeder.EndsWithDomainIsSeeded` | src/seeders/countries.seeder.ts:107-113 | an address ending in "@example.com" matches the rollback pattern |
| `CountriesSeeder.MockEmail` | src/seeders/countries.seeder.ts:31-33 | every mock email ends with "@example.com" and matches the rollback pattern |
| `CountriesSeeder.SeededMailNotBlank` | src/modules/votes/vote.model.ts:44 | an address ending in "@example.com" passes `notEmpty` |
| `CountriesSeeder.MockEmailIndexInjective` | src/seeders/countries.seeder.ts:31-33 | two mock emails are equal only for equal indices, whatever the country codes |
| `CountriesSeeder.MockNameShape` | src/seeders/countries.seeder.ts:38-46 | a mock name ends with ` (countryName)` and so passes `notEmpty` |
| `CountriesSeeder.MockNameIff` | src/seeders/countries.seeder.ts:38-46 | for one country, two indices give the same name iff they agree modulo 100 |
| `CountriesSeeder.BuildVotes` | src/seeders/countries.seeder.ts:61-76 | the nested loop builds exactly `Planned`: per country, its `numVotes` votes under a running index |
| `CountriesSeeder.Planned` | src/seeders/countries.seeder.ts:61-76 | as many votes as the per-country counts add up to |
| `CountriesSeeder.PlannedAt` | src/seeders/countries.seeder.ts:62-75 | the vote at position `p` carries index `p` in its name and email, and its country's `cca2` |
| `CountriesSeeder.BlockInPlanned` | src/seeders/countries.seeder.ts:64-75 | country `k`'s votes are consecutive, starting after the earlier countries' votes |
| `CountriesSeeder.PlannedEmailsDistinct` | src/seeders/countries.seeder.ts:62-75 | the generated emails are pairwise different, as the unique index requires |
| `CountriesSeeder.PlannedAreSeeded` | src/seeders/countries.seeder.ts:71 | every generated vote matches the rollback pattern |
| `CountriesSeeder.TotalBounds` | src/seeders/countries.seeder.ts:66 | with one to three votes per country, the total lies between one and three times the number of countries |
| `CountriesSeeder.Rollout` | src/seeders/countries.seeder.ts:51-95 | a failed fetch creates nothing; otherwise the planned votes all go in (count = total) iff the one validated bulk insert accepts them, else nothing does |
| `CountriesSeeder.Rollback` | src/seeders/countries.seeder.ts:100-124 | deletes exactly the votes matching `'%@example.com'` (ASCII case-insensitive) and reports how many |
| `CountriesSeeder.Stats` | src/seeders/countries.seeder.ts:129-152 | total votes; the real votes are the rows that do not match, so never negative; seeded plus real is the total |
| `CountriesSeeder.WithoutMatchingAppend` | src/seeders/countries.seeder.ts:107-113 | the delete filter distributes over concatenation |
| `CountriesSeeder.AllMatchingGone` | src/seeders/countries.seeder.ts:107-113 | rows that all match are all deleted |
| `CountriesSeeder.RollbackUndoesRollout` | src/seeders/countries.seeder.ts:81-113 | a rollback after a successful rollout leaves what a rollback alone would leave |
| `CountriesSeeder.RollbackRemovesDevelopmentSeed` | src/seeders/countries.seeder.ts:107-113 | the development seed's votes also match, so a rollback after a reset empties the table |
| `CountriesSeeder.StatsAfterRollback` | src/seeders/countries.seeder.ts:131-139 | after a rollback no seeded vote remains and every remaining vote is real |
| `CountriesSeeder.RolloutTwiceCollides` | src/seeders/countries.seeder.ts:81-84 | a second rollout over the same countries collides with the first on the email index |
| `CountriesSeeder.RolloutAcceptedWhenNoSeededRows` | src/seeders/countries.seeder.ts:61-84 | on a table without seeded emails, a rollout goes in when the codes have 2 or 3 characters, are not blank, and `isEmail` accepts the mock emails built from those codes |
| `CountriesSeeder.BlankCodeRejectsRollout` | src/seeders/countries.seeder.ts:66-84 | a country given a vote whose code is only whitespace makes the whole validated insert fail |

## Left out

- HTTP plumbing: the Express app, the routes and controllers, and error-response shaping. Only `rateLimit`'s decision and reply are modelled; `next()` is the `PassOn` reply.
- `requestLogger` (requestLogger.ts:6-27): it only logs. Console output everywhere is left out.
- Network: the REST Countries requests are the oracles `lookup` (country service) and `fetched` (seeder). `Unreachable`/`None` stand for every error, including the 5-second timeout; the timeout itself is not modelled.
- Time and randomness: `Date.now()` is the parameter `now`, which stays the same during one call; `Math.random()` is the per-country `numVotes`.
- Concurrency: the `Promise.all` fan-out runs sequentially in rank order. Nothing is lost, because the ranked countries are distinct and `getOrSet` on one key leaves the others alone. Not modelled: two cold requests for one key fetching twice, and the race between `findOne` and `create`. The unique-index path stands in for that race.
- Sequelize and SQLite: connection, sync, and the seeder CLI (`src/seeders/index.ts`). The table is a sequence of rows. Storage failures are the flag `storageUp`, and only in the vote service; the seed scripts only log and rethrow them.
- validator.js `isEmail` and `normalizeEmail` are parameters; their definitions are not part of this model.
- The `MESSAGES` table read by `src/modules/votes/vote.validation.ts`: the shared constants file does not define it. That copy's texts are the parameter `msgs`.
- Unicode: case mapping, `trim` whitespace, the whitespace test of `notEmpty` and `isAlpha` cover ASCII only.
- `Cache.CacheManager.Stats`: the order of `keys` is not promised. JavaScript's `Map` gives insertion order.
- `CountryService.DetailsOf`: a record is assumed to carry `name`, `name.common`, `name.official` and `region`. A record without `name` makes `name.common` throw a TypeError inside the `try` (country.service.ts:45, :89). The catch turns that into the fallback entry (:52-62) or `null` (:96-98); the model does not produce it from a record. A missing `name.common`, `name.official` or `region` gives an `undefined` field, which the model does not represent.
- JavaScript numbers: `NaN`/`-0`, fractional limits and TTLs, and `Number(votes)` on the raw count are not modelled. Integers are unbounded.
- The rate limiter's `requests` map is never pruned. The model keeps it that way and proves nothing about memory.
