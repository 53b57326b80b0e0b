# StockFind, verified

A Dafny model of StockFind, a B2B catalog search and multi-warehouse inventory service,
with proofs of what its stock protocol, its rate limiter and its search pipeline promise.
`dafny verify dfyconfig.toml` checks everything.

## What is modelled

**Reserve and release** (`Store`, `Protocol`, `ProtocolInvariant`, `Serialisability`,
`Progress`, `Releases`, `Admission`). `Store` holds the two tables, the SQL statements, what a call
means as one atomic change (`SerialReserve`, `SerialRelease`), and the class `Database`,
whose `Reserve` and `Release` run the service's code for a caller without competitors.
`Protocol` is the same code with any number of calls in flight against Postgres at READ
COMMITTED: a step is one statement of one call, a call keeps its uncommitted rows in an
overlay that only it sees, `FOR UPDATE` and `UPDATE` take row locks, a granted lock reads
the latest committed row, locks and the pooled connection last to COMMIT or ROLLBACK, and
the id sequence advances at INSERT. A schedule says whose turn it is. All theorems hold
for every schedule and any number of calls. Every CHECK constraint and the 32-bit width of
the columns are evaluated on every write; that no call ever fails one is proved, not assumed.
A call takes effect at its COMMIT if it writes; a refusal for stock at the locked read; an
unknown reservation at the reservation read; a repeated release at the ATP read.

**Rate limiter** (`Bucket`, `RateLimit`). Exact arithmetic. `Bucket` is the theory of one
key's bucket with clock readings counted in tokens (rate times time), in any order, since
the service reads the clock before it takes the lock. `RateLimit` has the class with its
dictionary of buckets, limits such as "120/minute", and the Retry-After header.

**Search** (`Sorting`, `Facets`, `Search`, `SearchTheorems`, `SearchMeaning`, `Attrs`, `Text`). Filters,
matching, scoring, ranking, facets and pages, with the database's row order, full-text rank
and match, string similarity, tokenisation and rounding as parameters.

**Availability** (`Availability`) reads the protocol's tables. **Seed** (`Cross`, `Seed`)
enumerates the catalog and leaves the tables the protocol starts from. **Relevance** has the
evaluation metrics.

## Where the code falls short of what one might expect

- Retry-After: the limiter always advertises one second. That is honest if and only if the
  limit's count is at least its period in seconds (`RetryAfterPerPeriod`). Both default limits
  qualify; under "3/minute" a fourth request at once and its retry after a second are both
  refused (`ThreeAMinute`).
- Drill-down: the count beside a facet value is the total of the search narrowed to it,
  unless the value is the empty string, which sets no filter (`DrillDown` gives the exact
  condition). With one product of category "" and one of category "X" the facet lists "" with
  1 and the narrowed search finds 2 (`DrillDownFails`). The seed writes no empty category,
  brand or material, so such a row has to come from elsewhere.
- Recall: `recall_at_k` divides by zero for k = 0 when something is relevant
  (`RecallAtZero`); for rankings without duplicates its identity with precision holds for
  every other input (`PrecisionAndRecall`). The labelled queries ask for k = 1, 5 and 10 only.

## Model

| member | source | states |
|---|---|---|
| Serialisability.Serialisable | stockfind/inventory/reserve.py:31-120 | for every schedule of any number of calls the committed tables equal those of a serial run in order of effect, ids are fresh there, each finished call occurs once and its result or error is the serial one |
| Serialisability.RealTimeOrder | stockfind/inventory/reserve.py:31-120 | a call that ended before another began precedes it in the serial order |
| Serialisability.HistoryExplains | stockfind/inventory/reserve.py:31-120 | the same from any reachable state, including calls whose answer is settled but not yet returned |
| Serialisability.ReserveRefines | stockfind/inventory/reserve.py:32-76 | one statement of a reserve changes nothing visible, or is the whole atomic reserve |
| Serialisability.ReleaseRefines | stockfind/inventory/reserve.py:82-120 | one statement of a release changes nothing visible, or is the whole atomic release |
| Serialisability.EffectAnswers | stockfind/inventory/reserve.py:22-120 | in the step that settles a call, its answer is true of the committed tables: remaining and restored ATP are on_hand - reserved of the row, the new reservation holds product, warehouse, quantity and buyer asked for, and each refusal names what is wrong |
| Store.ReserveMeans | stockfind/inventory/reserve.py:28-76 | when a reserve succeeds and what it then changes and answers, on the columns of the tables; which error it raises otherwise, changing nothing |
| Store.ReleaseMeans | stockfind/inventory/reserve.py:82-120 | what a first and a repeated release change and answer, on the columns of the tables |
| ProtocolInvariant.NoOversell | stockfind/catalog/schema.sql:46-65 | in every reachable state each row has 0 <= reserved <= on_hand with reserved the sum of its active reservations, and no call was refused by a CHECK or missed its ATP row |
| ProtocolInvariant.StepKeepsInv | stockfind/inventory/reserve.py:31-114 | conservation, lock ownership, what each transaction has read and written, and the connection count survive every statement |
| ProtocolInvariant.StepKeepsOwnCall | stockfind/inventory/reserve.py:32-114 | every write passes its CHECK and leaves the overlay the next statement relies on |
| ProtocolInvariant.StepKeepsOtherCall | stockfind/inventory/reserve.py:33-40 | what a transaction read under FOR UPDATE stays true while others run and commit |
| ProtocolInvariant.StepKeepsLocks | stockfind/inventory/reserve.py:37-87 | a row lock is held by exactly the call whose statements took it, until that call ends |
| ProtocolInvariant.ReservedCovers | stockfind/inventory/reserve.py:94-105 | an active reservation's units are still in its row, so releasing it cannot go below zero |
| ProtocolInvariant.ReserveConserves | stockfind/inventory/reserve.py:54-68 | committing a reserve keeps reserved equal to the active reservations |
| ProtocolInvariant.ReleaseConserves | stockfind/inventory/reserve.py:94-105 | committing a release keeps reserved equal to the active reservations |
| Progress.NoDeadlock | stockfind/inventory/reserve.py:31-114 | while a call is unfinished some call has a step to take |
| Progress.EveryScheduleEnds | stockfind/db.py:19-34 | n calls take at most 7n steps, and a schedule that cannot go on has finished every call and returned every lock and connection |
| Admission.ExactAdmission | stockfind/inventory/reserve.py:47-60 | while no reservation of the row is released and all calls asking it ask for q units, exactly min(number of them, (on_hand - reserved) / q) are told they have it, under every schedule and whatever happens to other rows |
| Admission.RejectedNeverFits | stockfind/inventory/reserve.py:47-52 | while no reservation of the row is released, a request refused for stock exceeds what is available at any later point |
| Releases.ReleasedOnce | stockfind/inventory/reserve.py:82-105 | a reservation leaves active in exactly one step of a run if some release call answered success for it, in none otherwise, and nothing else about it ever changes |
| Releases.ReleaseAnswers | stockfind/inventory/reserve.py:91-120 | a finished release has released its reservation, or answered not found for an id that no row had at the start |
| Releases.StepAnswers | stockfind/inventory/reserve.py:94-120 | the step that makes a reservation released, or that makes a new one, is the one that gives its caller the answer saying so |
| Releases.FreeingReturnsUnits | stockfind/inventory/reserve.py:94-105 | the step that frees a reservation takes exactly its quantity off exactly its row |
| Releases.ReleasingAllRestores | stockfind/inventory/reserve.py:79-105 | when every reserve that answered success has a release that answered success for its id, in any order, and no older active reservation was released, the inventory table is what it was |
| Releases.ReserveReleaseRelease | stockfind/inventory/reserve.py:94-120 | releasing undoes reserving, and releasing again changes nothing and answers the same |
| Store.Database.Reserve | stockfind/inventory/reserve.py:27-76 | run alone, the code of reserve is the atomic reserve, errors included, and leaves no transaction open |
| Store.Database.Release | stockfind/inventory/reserve.py:79-120 | run alone, the code of release is the atomic release, errors included, and leaves no transaction open |
| Bucket.AllowedIffFits | stockfind/security/ratelimit.py:42-52 | a request is allowed iff, for it and every earlier request i of its key, those admitted since i and this one fit into burst plus refill; clock readings in any order |
| Bucket.GreedyOptimal | stockfind/security/ratelimit.py:46-52 | no policy that obeys the same windows has admitted more at any point |
| Bucket.LimiterObeys | stockfind/security/ratelimit.py:46-52 | the limiter is itself such a policy |
| Bucket.DeniedRequestsDoNotMatter | stockfind/security/ratelimit.py:46-52 | leaving any denied requests out of a trace changes no other decision |
| Bucket.TokensInRange | stockfind/security/ratelimit.py:47-50 | with a clock that does not run backwards tokens stay in [0, capacity] |
| RateLimit.TokenBucketLimiter.Allow | stockfind/security/ratelimit.py:39-52 | the decision is the window condition on the key's own requests, in whatever interleaving with other keys |
| RateLimit.AllowedIffWithinLimit | stockfind/security/ratelimit.py:39-52 | the exact characterisation in clock time: admitted since i, plus one, <= capacity + rate * elapsed |
| Bucket.ReadingsWithin | stockfind/security/ratelimit.py:40-52 | with readings in any order, the requests admitted with a reading in an interval fit into burst plus what the interval refills |
| RateLimit.BurstPlusRate | stockfind/security/ratelimit.py:3-5 | the same in clock time: a window of time admits nothing or at most capacity + rate * its length, for every limit whose rate is not negative or that has no capacity |
| RateLimit.BurstPerPeriod | stockfind/security/ratelimit.py:19-24 | hence at most count + count / period * its length for every "count/period" |
| RateLimit.SpacedRequestAllowed | stockfind/security/ratelimit.py:46-52 | a request that leaves time for one token is allowed |
| RateLimit.TokenTime | stockfind/security/ratelimit.py:19-24 | for "count/period" that time is period / count seconds |
| RateLimit.RetryAfterExact | stockfind/security/ratelimit.py:64-69 | a denied client that returns after the advertised second is always served iff the rate is at least one token a second and the burst at least one |
| RateLimit.RetryAfterPerPeriod | stockfind/config.py:34-35 | for "count/period" iff count is at least the period in seconds |
| RateLimit.RetryRefuted | stockfind/security/ratelimit.py:46-68 | for every slower limit: a full burst at once, then one more request and its retry a second later are both refused |
| RateLimit.ThreeAMinute | stockfind/security/ratelimit.py:64-69 | "3/minute" refuses the fourth request at once and its retry after a second |
| RateLimit.LimitMeans | stockfind/security/ratelimit.py:16-24 | the number before the first "/" is the capacity and rate times 1, 60 or 3600 gives it back, by the word after it, trimmed and in lower case; a bad number or any other word is refused |
| RateLimit.PaddedLimit | stockfind/security/ratelimit.py:21-24 | blanks around number and period do not count |
| RateLimit.DefaultLimit | stockfind/config.py:34-35 | "120/minute" is a burst of 120 and two tokens a second, "60/minute" of 60 and one |
| RateLimit.LimitRoundTrip | stockfind/security/ratelimit.py:19-24 | a rendered limit parses to its count, with count tokens in 1, 60 or 3600 seconds |
| SearchTheorems.DrillDown | stockfind/search/query.py:79-162 | the count a facet lists for a value equals the total of the search narrowed to it, in query and browse mode, iff the value is not empty or all products found have it empty; an unlisted value has total 0, or the whole total if it is empty |
| SearchTheorems.DrillDownFails | stockfind/search/query.py:82-83 | with categories "" and "X" stored, the facet lists "" with 1 and the narrowed search finds 2 |
| SearchTheorems.NarrowedSearch | stockfind/search/query.py:142-153 | the products found with the value are as many as the narrowed search finds, under the same condition; the match does not use the scale of the ranks |
| SearchTheorems.NarrowedCount | stockfind/search/query.py:79-95 | the products a narrowed search finds are those of the wider one with the value |
| SearchTheorems.EmptyValueFound | stockfind/search/query.py:82-90 | an empty value filters nothing |
| SearchTheorems.RowOrderIrrelevant | stockfind/search/query.py:127-162 | the whole answer, page and facets included, is the same for every order of the stored rows |
| SearchTheorems.RankingRowOrder | stockfind/search/query.py:134-157 | the ranking with its scores, and the browse listing, are the same for every order of the stored rows |
| SearchTheorems.RankingSorted | stockfind/search/query.py:142-157 | the ranking lists exactly the matching products with their scores, strictly ordered by score and part number; browse mode lists the filtered products by part number |
| SearchTheorems.RankingUnique | stockfind/catalog/schema.sql:20-20 | no product is listed twice |
| SearchTheorems.PagesPartition | stockfind/search/query.py:127-162 | the results of separate searches at offsets 0, limit, 2 * limit, ..., each with the rows in an order of its own, never repeat a product and join to the full listing iff they reach its end, whose length each reports as the total; in query and browse mode |
| SearchTheorems.JoinedPages | stockfind/search/query.py:127-162 | the joined results of such searches are the consecutive slices of one listing, that of any single row order |
| SearchTheorems.FuzzyBound | stockfind/search/query.py:59-76 | the fuzzy score is in [0, 100] |
| SearchTheorems.FuzzyOrderIrrelevant | stockfind/search/query.py:69-76 | it is unchanged by permuting query tokens and by reordering or repeating text tokens |
| SearchTheorems.HitScore | stockfind/search/query.py:146-153 | a hit scores its weighted share of the best rank and up to the fuzzy weight more; a misspelling-only hit scores between threshold and fuzzy weight |
| SearchTheorems.DefaultScores | stockfind/config.py:41-44 | with the default weights scores are in [0, 1] and misspelling-only hits in [0.18, 0.3] |
| SearchTheorems.ScoresNeverRise | stockfind/search/query.py:155-161 | scores do not increase along the ranking, before or after rounding |
| SearchTheorems.StrongLexicalHitFirst | stockfind/search/query.py:151-156 | a lexical hit whose weighted share exceeds the fuzzy weight precedes every misspelling-only hit |
| SearchTheorems.ThreeSeventhsSuffice | stockfind/config.py:41-42 | with the default weights a lexical hit ranked above 3/7 of the best lexical rank precedes every misspelling-only hit |
| Search.RunSearch | stockfind/search/query.py:115-162 | the answer is the page, total and facets of the ranking or listing, for every query, filter, offset and limit |
| Search.BuildFilter | stockfind/search/query.py:79-95 | one clause per set dimension, and one per attribute as often as it is asked for, and no other |
| Search.ClausesMean | stockfind/search/query.py:79-95 | the clauses hold of exactly the products whose category, brand and material column have the value asked for, if one is, and whose attributes have theirs |
| SearchMeaning.WhoIsFound | stockfind/search/query.py:79-149 | a query finds exactly the stored products with the filtered columns and attributes that the index matches or whose text is similar enough |
| SearchMeaning.ScoreMeans | stockfind/search/query.py:142-153 | best rank times the score is the lexical weight times the rank, 0 if the index does not match, plus best rank times the weighted similarity |
| SearchMeaning.BetterHitFirst | stockfind/search/query.py:151-156 | of two hits the one ranked higher and no less similar, or more similar and ranked no lower, comes first |
| SearchMeaning.QueryAnswer | stockfind/search/query.py:142-162 | position i of the page is position offset + i of the ranking with its rounded score; total and facets are those of the whole ranking, the query is trimmed |
| SearchMeaning.BrowseAnswer | stockfind/search/query.py:128-140 | a blank query lists the filtered products in the same way, without scores |
| SearchMeaning.ListingOrder | stockfind/search/query.py:130-156 | listings are by part number, rankings by score and then part number, strings compared where they first differ |
| SearchMeaning.FullSimilarity | stockfind/search/query.py:52-76 | the similarity is 100 exactly when every query token is a token of name, brand, category, subtype, material, attribute text or part number |
| SearchMeaning.OneToken | stockfind/search/query.py:74-75 | one query token scores its best similarity to a token of the text |
| SearchMeaning.AverageOfParts | stockfind/search/query.py:73-76 | the scores of two parts of a query, weighted by their numbers of tokens, add up to that of the whole |
| Search.FuzzyScore | stockfind/search/query.py:59-76 | the average over the query tokens of the best similarity to a text token, 0 without tokens |
| Search.MaxRatio | stockfind/search/query.py:75-75 | the largest similarity of a token, reached by some text token |
| Search.ScoreRow | stockfind/search/query.py:147-153 | a row is skipped iff the index does not match it and its fuzzy score is below the minimum |
| Facets.FacetCounts | stockfind/search/facets.py:15-22 | the category, brand and material facets list exactly the values in that column of the rows, each with the number of rows that have it, by count descending then value |
| Facets.CountValues | stockfind/search/facets.py:18-18 | the counter holds every occurring value with its number of rows |
| Facets.FacetIsUnique | stockfind/search/facets.py:19-21 | there is one such list, so the output is deterministic |
| Attrs.ItemMeans | stockfind/api/routes_catalog.py:22-28 | key and value are what is left and right of the first ':', trimmed; an item without ':' or with either blank is malformed |
| Attrs.PaddedItem | stockfind/api/routes_catalog.py:23-28 | blanks around key and value do not count |
| Attrs.ParseAttrs | stockfind/api/routes_catalog.py:17-29 | the filters in order, or the first malformed item |
| Attrs.MeaningIsUnique | stockfind/api/routes_catalog.py:17-29 | a list of items has one outcome, so parsing is determined by it |
| Attrs.RoundTrip | stockfind/api/routes_catalog.py:17-29 | rendering then parsing gives the same list, and can give nothing else, iff all pairs are trimmed, non-empty and have no ':' in the key; it does on everything a parse accepts |
| Availability.GetAvailability | stockfind/inventory/availability.py:29-91 | unknown product, or the report on its rows: distances are the rounded km from the point that the table has for the upper-case region, lines by distance and code, or by code without a known region; totals of the rows; the warehouse named is the best choice for that point, or for none |
| Availability.RowOrderIrrelevant | stockfind/inventory/availability.py:36-91 | the report is the same for every order of the rows |
| Availability.TotalsAndBackorder | stockfind/inventory/availability.py:71-90 | totals are those of the rows, total ATP is on-hand minus reserved, and backorder iff no warehouse is named |
| Availability.NearestIsBest | stockfind/inventory/availability.py:65-76 | with a region, least by rounded distance and code among those with stock and within 0.1 km of the truly nearest; without, the largest ATP and least code |
| Availability.AvailabilityDuringRun | stockfind/inventory/availability.py:36-90 | during any run of reserves and releases the reserved total is the sum of the product's active reservations, every ATP shown is in [0, on_hand] and backorder iff no warehouse is named |
| Seed.IterAttrCombos | stockfind/catalog/seed.py:202-207 | the nested comprehension builds the listing of combinations |
| Seed.ListingIsBijection | stockfind/catalog/seed.py:202-207 | combination i has the mixed-radix digits of i, every choice is listed, none twice |
| Seed.GenerateProducts | stockfind/catalog/seed.py:229-266 | the loops build the catalog with a running number |
| Seed.ProductAt | stockfind/catalog/seed.py:233-265 | the products of a spec follow those of the specs before it, numbered by position |
| Seed.ChoiceAt | stockfind/catalog/seed.py:236-238 | brand b, material m and combination c are at the position with digits b, m, c |
| Seed.ProductMeans | stockfind/catalog/seed.py:233-265 | the product at that position has that brand, material and one value per axis, category, subtype and lead time of its spec, part number of brand code, subtype code and running number, and a price in range |
| Seed.Lexicographic | stockfind/catalog/seed.py:202-207 | combinations that first differ in one axis come in that axis's order |
| Seed.CatalogueIdentity | stockfind/catalog/seed.py:239-253 | ids are 1..N with N the sum of brands times materials times axis sizes, and part numbers are distinct whatever the codes |
| Seed.PriceCents | stockfind/catalog/seed.py:210-214 | the price is within the spec's range |
| Seed.PricesReached | stockfind/catalog/seed.py:210-214 | every price of the range is reached, and the digest counts modulo the size of the range |
| Seed.GenerateInventory | stockfind/catalog/seed.py:269-284 | one row per product and warehouse in order, none reserved; a row is empty if its draw is below 0.12 and otherwise has the number from 1 to 500 drawn next |
| Seed.InventoryMeans | stockfind/catalog/seed.py:323-327 | the table has exactly these rows under their products and warehouses |
| Seed.InventoryExactlyOnce | stockfind/catalog/seed.py:269-284 | every product and warehouse has exactly one row |
| Seed.SeededDatabaseIsStart | stockfind/catalog/seed.py:298-329 | a freshly seeded database is a start of the protocol |
| Relevance.RelevantIds | eval/relevance.py:24-37 | the ids of exactly the products whose subtype, material and attributes are those asked for |
| Relevance.ReciprocalRank | eval/relevance.py:48-52 | the reciprocal of the first relevant position, 0 if there is none |
| Relevance.PrecisionAndRecall | eval/relevance.py:40-59 | precision times k equals recall times min(k, relevant), so recall is in [0, 1] and precision capped, iff k is positive or nothing is relevant |
| Relevance.PrecisionMeans | eval/relevance.py:40-45 | precision times k is the number of positions among the first k that hold a relevant id |
| Relevance.RecallMeans | eval/relevance.py:55-59 | recall times min(k, relevant) is the number of relevant ids among the first k |
| Relevance.RecallAtZero | eval/relevance.py:55-59 | at k = 0 with something relevant precision is 0 and recall divides by zero |
| Relevance.RankAndPrecision | eval/relevance.py:40-52 | reciprocal rank is at least 1/k iff precision at k is positive |

## Left out

- Postgres internals: text search vectors, indexes, foreign-key share locks, statement snapshots finer than a statement, crashes and timeouts. Only row locks, commit visibility, the sequence and the CHECK constraints are modelled.
- The destructive reseed during live traffic and bench helpers that overwrite stock: they bypass the protocol.
- Store.Database: one caller at a time, so its `FOR UPDATE` never waits; waiting is modelled in `Protocol`.
- The `created_at` column and the row projections of search results and reservation listings.
- Floating-point rounding: numbers are exact; `round` is a monotone parameter, with a half-unit error bound where distances need it.
- SQL text and its placeholders: `BuildFilter` yields the conditions that the clauses express.
- Search for negative offsets or limits, which the endpoint refuses.
- rapidfuzz, great-circle distance, sha256, upper- and lower-casing beyond ASCII and the random generator: parameters with range conditions.
- RateLimit.ParseLimit: accepts ASCII digits only, where Python's `int` also accepts other Unicode digits.
- Seed: names, descriptions and attribute text of products and how codes are abbreviated, which are string formatting, and the error for a spec without axes, which the fixed spec list does not contain.
- HTTP routing, authentication, logging, metrics and latency benchmarks: plumbing over libraries.
