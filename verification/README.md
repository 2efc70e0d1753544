# SecureEdge: a verified model

EdgeProxy is a caching reverse proxy and SecurityEdge the traffic filter in front
of it. This project models the parts of both whose correctness depends on counting,
ordering, interleaving or long runs, and proves what those parts are for. Each
component is one module:

- `SmoothWeights`, `UpstreamPool`, `RetryLoop`, `Requests`: choosing an origin and retrying.
- `KeyLock`, `CacheFill`, `Invalidation`, `LruCache`, `CacheKey` (with `Base64Url`),
  `CacheControl`, `Freshness`: the response cache.
- `RateLimit`, `BanManager`, `Tracker`: traffic protection.
- `LogPages`, `LogFiles`, `SecurityLog`: the security log.
- `EnvFile`, `Control`, `Generations`, `ServerLoop`: configuration transactions and
  the generation loop.
- `Routes`, `RouteLoader`: the route table both programs share.
- `Text`: byte strings.

Objects that the programs update in place are classes whose methods are proved
against functions of the old state; theorems about runs are about those functions.
Concurrent protocols are state machines whose steps are the sections between lock
operations, and their theorems quantify over every interleaving. Clocks, draws,
origin outcomes, validation results and map iteration orders are inputs or
unconstrained choices. `dafny verify dfyconfig.toml` checks the whole project.

## Where the programs differ from what they promise

The models keep the code as it is. Each case has a lemma with a failing input and an
if-and-only-if lemma with the exact condition.

- A vary header name may contain `|`. One that ends in `|host64` or `|uri64` makes a
  cache key parse wrongly, so purges and invalidation miss the entry
  (`CacheKey.RoundTripIffNotShadowed`).
- An `Expires` date about 292 years before `Date` underflows the 64-bit lifetime and
  the response is stored as fresh for centuries (`Freshness.ExpiryWithinLifetimeIff`).
- A `Cache-Control` line with an open quote means something else when it is combined with
  the next line (`CacheControl.CombinesWithAllIff`). The harmful case is a field that is
  refused when its lines are separate and accepted when they are combined, so that a
  request or response is let into the cache (`CacheControl.CombiningHealsIff`,
  `Freshness.CombiningOpensTheCache`).
- The purge after an unsafe request does not wait for a fill of the same key, so a fetch
  that read the old representation can store it after the purge
  (`Invalidation.PurgeSticksIff`, `Invalidation.OldRepresentationReturns`).
- The retry time of a rejection is cut to whole nanoseconds and the `Retry-After` header
  is rounded to the nearest second, so a client that waits as told can be rejected again
  (`RateLimit.RetryAfterSufficesIff`, `RateLimit.HeaderSufficesIff`).
- Sequence numbers of the security log start again from one when the process restarts
  with a cleared log (`LogFiles.NumbersReusedIff`).
- A configuration change applied in place is lost while the file keeps it when a restart
  is pending, or when the generation it rebuilt is replaced before it commits
  (`Generations.HotCommitOnCourseIff`, `Generations.PendingRestartUndoesHotChange`,
  `Generations.OvertakenHotChangeIsLost`).
- A restart candidate accepted while an earlier one is starting is discarded, file
  included, when that one fails, although its update was answered with success
  (`Generations.NewestCandidateServesIff`, `Generations.RollbackDiscardsNewerCandidate`).
- A restart candidate accepted between the drain of one generation and the attachment
  of the next becomes that generation's rollback file; if it then fails to start, the
  rollback writes the failed file back (`Generations.RollbackPointMatchesIff`,
  `Generations.RollbackRestoresFailedFile`).
- A route prefix with white space before its last slash keeps the white space when it is
  normalised and loses it when it is normalised again, so loading is a fixed point only
  for tables without such a prefix (`RouteLoader.PrefixTwiceIff`, `RouteLoader.LoadTwiceIff`,
  `RouteLoader.BlankIsLost`).
- A failed update after its save overwrites an edit of the file that the watcher has
  not read yet (`Control.FailedUpdateKeepsFileIff`, `Control.UnreadEditIsLost`).

One limit is of principle only: a tracker window that reaches back to the zero time can
be counted short without being marked (`Tracker.ExactIff`). Snapshot times come from the
system clock, so such a window does not occur in service.

## Model

| member | source | states |
|---|---|---|
| `SmoothWeights.NextKeepsSum` | apps/edgeproxy/internal/proxy/upstream.go:200-222 | a pick leaves the sum of the current weights unchanged, whatever the weights |
| `SmoothWeights.ArgMaxIsFirstMax` | apps/edgeproxy/internal/proxy/upstream.go:205-216 | the scan keeps the first of the largest current weights |
| `SmoothWeights.ChosenIsPositive` | apps/edgeproxy/internal/proxy/upstream.go:200-222 | from weights that sum to zero, the node charged has a positive current weight before the charge |
| `SmoothWeights.Bounded` | apps/edgeproxy/internal/proxy/upstream.go:200-222 | after any number of picks from zero the current weights sum to zero and each stays above minus the total weight |
| `SmoothWeights.Ledger` | apps/edgeproxy/internal/proxy/upstream.go:200-222 | after k picks each current weight is k times the node weight minus the total weight times the number of its picks |
| `SmoothWeights.CountsAddUp` | apps/edgeproxy/internal/proxy/upstream.go:200-222 | the per-node pick counts of a run add up to its length |
| `SmoothWeights.ExactlyFairRound` | apps/edgeproxy/internal/proxy/upstream.go:200-222 | every round of total-weight picks chooses each node exactly its weight times and returns all current weights to zero |
| `SmoothWeights.Periodic` | apps/edgeproxy/internal/proxy/upstream.go:200-222 | the scheduler state repeats with period the total weight, from any point of the run |
| `SmoothWeights.FairInEveryWindow` | apps/edgeproxy/internal/proxy/upstream.go:200-222 | fairness is exact in every window of total-weight consecutive picks, not only in aligned rounds |
| `UpstreamPool.EligibleSpec` | apps/edgeproxy/internal/proxy/upstream.go:182-194 | the eligible list holds exactly the nodes that are not excluded (and healthy where asked), each once, in configured order |
| `UpstreamPool.Pool.EligibleNodes` | apps/edgeproxy/internal/proxy/upstream.go:182-194 | the loop builds exactly that list |
| `UpstreamPool.CandidatesAscend` | apps/edgeproxy/internal/proxy/upstream.go:124-139 | the fallback chain yields an empty candidate list only for an empty pool, and lists no node twice |
| `UpstreamPool.CandidatesPreferUntried` | apps/edgeproxy/internal/proxy/upstream.go:124-139 | an excluded node becomes a candidate only when every node is excluded |
| `UpstreamPool.CandidatesPreferHealthy` | apps/edgeproxy/internal/proxy/upstream.go:124-139 | an unhealthy candidate appears beside a healthy node only when that node is excluded and the candidate is not |
| `UpstreamPool.Pool.PickProbe` | apps/edgeproxy/internal/proxy/upstream.go:109-122 | the first healthy node not excluded, else the first not excluded, else none; nothing changes |
| `UpstreamPool.Pool.PickRoundRobin` | apps/edgeproxy/internal/proxy/upstream.go:196-198 | the candidate at the old counter modulo the list length, counter advanced by one |
| `UpstreamPool.Pool.CreditAll` | apps/edgeproxy/internal/proxy/upstream.go:205-217 | the crediting loop adds each candidate its weight, totals them and finds the first largest, as the abstract scheduler does |
| `UpstreamPool.Pool.PickSmoothWeighted` | apps/edgeproxy/internal/proxy/upstream.go:200-222 | the in-place loop refines the abstract smooth weighted pick on the candidates and touches no other node |
| `UpstreamPool.PickedIsNext` | apps/edgeproxy/internal/proxy/upstream.go:200-222 | on the candidates the pool update is one step of the abstract scheduler, so its fairness theorems carry over |
| `UpstreamPool.PickedBalances` | apps/edgeproxy/internal/proxy/upstream.go:200-222 | a pick over any candidate subset with any weights leaves the pool-wide sum and every other field unchanged |
| `UpstreamPool.RunBalances` | apps/edgeproxy/internal/proxy/upstream.go:200-259 | for any run of changing candidate subsets and weights the pool-wide sum of current weights is what it was |
| `UpstreamPool.SameFollowsWeights` | apps/edgeproxy/internal/proxy/upstream.go:200-222 | while the candidates stay the same, k picks of the pool are k steps of the abstract scheduler |
| `UpstreamPool.PoolIsFair` | apps/edgeproxy/internal/proxy/upstream.go:200-222 | fairness of the pool itself: from zero weights every window of total-weight picks selects each candidate exactly its weight times |
| `UpstreamPool.Pool.PickLeastConnections` | apps/edgeproxy/internal/proxy/upstream.go:224-234 | the first of the candidates that none is preferred to, by load per weight and then priority |
| `UpstreamPool.Pool.PriorityGroup` | apps/edgeproxy/internal/proxy/upstream.go:236-248 | the two loops build the group, which is exactly the candidates of the best priority, in candidate order |
| `UpstreamPool.GroupSpec` | apps/edgeproxy/internal/proxy/upstream.go:236-248 | a candidate is in the group exactly when no candidate has a better priority |
| `UpstreamPool.PriorityChoiceIsBest` | apps/edgeproxy/internal/proxy/upstream.go:236-253 | whatever the weights, priority failover never passes over a better priority |
| `UpstreamPool.Pool.PickPriority` | apps/edgeproxy/internal/proxy/upstream.go:236-253 | the only member of the best-priority group, or the weighted choice inside it; weights move as that pick moves them |
| `UpstreamPool.Pool.PickRandomWeighted` | apps/edgeproxy/internal/proxy/upstream.go:261-281 | the pick is the candidate whose cumulative-weight interval holds the draw |
| `UpstreamPool.Pool.Pick` | apps/edgeproxy/internal/proxy/upstream.go:124-161 | nil exactly for an empty pool; otherwise the configured algorithm's own choice among the candidates, with exactly one active count and one selection added, the weight sum kept and the round-robin counter moved only by round robin |
| `UpstreamPool.Pool.PickMany` | apps/edgeproxy/internal/proxy/upstream.go:124-161 | calls of the weighted pick in a row select exactly as the repeated picks whose fairness is proved |
| `UpstreamPool.Pool.ReleaseActive` | apps/edgeproxy/internal/proxy/upstream.go:170-175 | exactly one active count is given back |
| `UpstreamPool.Pool.SetHealth` | apps/edgeproxy/internal/proxy/upstream.go:422-434 | health is set and exactly the transition that happened is counted |
| `UpstreamPool.EffectiveIsQuotient` | apps/edgeproxy/internal/proxy/upstream.go:205-211 | the adjusted weight is a millionfold weight divided by latency power times load, rounded down and at least one; unadjusted it is the weight |
| `UpstreamPool.FasterWeighsMore` | apps/edgeproxy/internal/proxy/upstream.go:207-211 | of two origins of equal weight the one with the smaller penalty never weighs less |
| `UpstreamPool.AdaptivePrefersFast` | apps/edgeproxy/internal/proxy/upstream.go:200-222 | from zero current weights adaptive latency takes a candidate that none outweighs, and none of equal weight has a smaller penalty by more than rounding |
| `UpstreamPool.LoadOrder` | apps/edgeproxy/internal/proxy/upstream.go:224-234 | comparing loads is comparing the requests, with the new one, per weight, cross-multiplied |
| `UpstreamPool.DrawsPerCandidate` | apps/edgeproxy/internal/proxy/upstream.go:261-281 | of the draws below the total weight exactly as many fall to a candidate as its weight says |
| `UpstreamPool.RoundRobinReachesAll` | apps/edgeproxy/internal/proxy/upstream.go:196-198 | in any round of consecutive picks each place of the list is reached exactly once |
| `UpstreamPool.CandidatesIff` | apps/edgeproxy/internal/proxy/upstream.go:124-139 | the candidates are exactly the origins that no other is ahead of, untried before tried and then healthy before unhealthy |
| `RetryLoop.PickFor` | apps/edgeproxy/internal/proxy/handler.go:449-460 | a pick changes one active count, a probe none; none is returned exactly when the pool is empty or, for a probe, wholly tried; an origin already tried is returned only when all were |
| `RetryLoop.Release` | apps/edgeproxy/internal/proxy/handler.go:461-468 | gives back the count of a non-probe pick and nothing else |
| `RetryLoop.Learn` | apps/edgeproxy/internal/proxy/handler.go:470-550 | health follows the outcome unless the client canceled or the request is a probe; active counts are untouched |
| `RetryLoop.NoEarlyRepeatStep` | apps/edgeproxy/internal/proxy/handler.go:440-611 | excluding every tried origin keeps repeats away until all were tried |
| `RetryLoop.Once` | apps/edgeproxy/internal/proxy/handler.go:448-589 | one turn of the loop: only the origin whose answer is used stays counted, and each way the turn can end holds exactly when its cause does |
| `RetryLoop.Attempts` | apps/edgeproxy/internal/proxy/handler.go:440-611 | for every outcome sequence: calls within the attempt budget, retries one less than calls, no origin repeated while another is untried, one count outstanding only for the response still open, and the status at the exit is that of the last call |
| `RetryLoop.Fetch` | apps/edgeproxy/internal/proxy/handler.go:429-732 | over every exit the active counts return to their values at entry and calls are at most 1+RetryCount (1 if not replayable); the four answers are decided exactly: an origin status is forwarded, and then it is the status of the last call, if and only if the client stayed, that call gave a complete answer and the answer is final or the budget is used up with no stale copy |
| `Requests.PoolPicksOne` | apps/edgeproxy/internal/proxy/upstream.go:124-161 | under every algorithm the pool's pick adds one active request to the node picked and leaves health alone |
| `Requests.StepKeepsInv` | apps/edgeproxy/internal/proxy/handler.go:440-611 | every step of any request and every health check keeps the counts equal to the requests in flight and each request within its budget |
| `Requests.ActiveIsInFlight` | apps/edgeproxy/internal/proxy/handler.go:440-611 | for any number of interleaved requests, a node's active count is its count at the start plus the requests in flight on it |
| `Requests.EachRequestIsFair` | apps/edgeproxy/internal/proxy/handler.go:440-611 | whatever the others do, each request keeps its budget and repeats no origin while another is untried |
| `KeyLock.KeyLocker.Enter` | apps/edgeproxy/internal/cache/keylock.go:21-28 | first critical section: find or create the lock of the key and count one more user |
| `KeyLock.KeyLocker.Leave` | apps/edgeproxy/internal/cache/keylock.go:33-38 | last critical section: count one user less and drop the entry at zero |
| `KeyLock.StepKeepsInv` | apps/edgeproxy/internal/cache/keylock.go:20-40 | every atomic step of any thread keeps: users of a key share one lock object, its count is their number, distinct keys have distinct locks, owners are the holders |
| `KeyLock.EveryStateHolds` | apps/edgeproxy/internal/cache/keylock.go:20-40 | so in every state of every interleaving |
| `KeyLock.MutualExclusion` | apps/edgeproxy/internal/cache/keylock.go:20-40 | no two threads are between lock and unlock of the same key |
| `KeyLock.NoLeakNoEarlyDelete` | apps/edgeproxy/internal/cache/keylock.go:20-40 | a key has an entry exactly while somebody uses it, counting exactly those users, all of whom hold that entry |
| `KeyLock.NeverStuck` | apps/edgeproxy/internal/cache/keylock.go:20-40 | while any thread is inside, some thread inside can move |
| `CacheFill.StepKeepsInv` | apps/edgeproxy/internal/proxy/handler.go:404-426 | every step of lock, fetch, store and loss keeps the account of fetches against stored and lost entries |
| `CacheFill.OneFetchAtATime` | apps/edgeproxy/internal/proxy/handler.go:404-426 | in every interleaving at most one cacheable request per key is inside the origin fetch |
| `CacheFill.FillsArePaidFor` | apps/edgeproxy/internal/proxy/handler.go:384-426 | however many requests arrive, in every run the fetches begun for requests willing to take an entry are at most one more than the entries lost and fetches that stored nothing, and not one more unless an entry is stored or on its way |
| `CacheFill.CountersAreTrue` | apps/edgeproxy/internal/proxy/handler.go:384-426 | the two counters of the protocol are the numbers of fetch steps and of losses in the run |
| `Invalidation.StepKeepsInv` | apps/edgeproxy/internal/proxy/handler.go:404-426 | every step of fills, origin answers, writes and purges keeps the cache in step with what was stored and no fetch ahead of the origin |
| `Invalidation.PurgeSticksIff` | apps/edgeproxy/internal/proxy/handler.go:844-849 | after a purge the cache never again holds an older representation until the next write if and only if, at that moment, no fetch of the key has already read an older one |
| `Invalidation.UnsafeRequestSticksIff` | apps/edgeproxy/internal/proxy/handler.go:844-849 | a write whose purge follows at once sticks if and only if no fetch of the key had an answer before the write |
| `Invalidation.AtMostOneTainted` | apps/edgeproxy/internal/proxy/handler.go:404-426 | only one request can be to blame, since fetches of a key exclude each other |
| `Invalidation.OldRepresentationReturns` | apps/edgeproxy/internal/proxy/handler.go:844-849 | a run from the empty cache in which the old representation is stored after the purge |
| `LruCache.ListIsIndexed` | apps/edgeproxy/internal/cache/cache.go:85-107 | every list element is found under its own key |
| `LruCache.IndexIsListed` | apps/edgeproxy/internal/cache/cache.go:85-107 | every map entry is a list element: map and list are in bijection |
| `LruCache.DropPresent` | apps/edgeproxy/internal/cache/cache.go:208-216 | removing a key takes exactly its element and size |
| `LruCache.EvictedIsLongestPrefix` | apps/edgeproxy/internal/cache/cache.go:103-105 | what eviction keeps is the longest prefix of the recency order that fits both limits |
| `LruCache.FrontSurvives` | apps/edgeproxy/internal/cache/cache.go:85-107 | the entry just set is never evicted when it fits and one entry is allowed |
| `LruCache.Cache.RemoveElement` | apps/edgeproxy/internal/cache/cache.go:208-216 | list, map, byte sum and eviction count change together |
| `LruCache.Cache.RemoveOldest` | apps/edgeproxy/internal/cache/cache.go:201-206 | the last of the recency order goes, counted as an eviction; an empty cache stays as it is |
| `LruCache.Cache.Shrink` | apps/edgeproxy/internal/cache/cache.go:103-105 | the eviction loop ends with the longest fitting prefix and counts what it evicted |
| `LruCache.Cache.Get` | apps/edgeproxy/internal/cache/cache.go:65-83 | a fresh or stale entry moves to the front, an expired one is removed, a miss changes nothing |
| `LruCache.Cache.Set` | apps/edgeproxy/internal/cache/cache.go:85-107 | accepted exactly when the size is positive and within the byte limit; then the list is the longest fitting prefix of the new recency order; a rejected set changes nothing; the loop ends |
| `LruCache.Cache.Delete` | apps/edgeproxy/internal/cache/cache.go:109-118 | removes the key and nothing else, order kept |
| `LruCache.Cache.PurgeRequest` | apps/edgeproxy/internal/cache/cache.go:145-159 | removes exactly the keys that parse to the normalised host and URI, for every map iteration order, and counts them |
| `LruCache.Cache.Clear` | apps/edgeproxy/internal/cache/cache.go:185-193 | empties list, map and bytes and reports how many there were |
| `LruCache.SizeIsText` | apps/edgeproxy/internal/cache/cache.go:22-31 | an entry weighs as much as its body and all header names and values written out |
| `Base64Url.RoundTrip` | apps/edgeproxy/internal/proxy/cache_policy.go:60-70 | decoding an encoded field gives the field back |
| `Base64Url.EncodeLacksBar` | apps/edgeproxy/internal/proxy/cache_policy.go:60-62 | an encoded field holds no field separator |
| `Base64Url.KnownVector` | apps/edgeproxy/internal/proxy/cache_policy.go:60-62 | a known text has its published encoding |
| `CacheKey.BuildKey` | apps/edgeproxy/internal/proxy/cache_policy.go:17-58 | the builder loop writes method class, host, URI and the distinct varied headers in order |
| `CacheKey.ParseKey` | apps/edgeproxy/internal/proxy/cache_policy.go:72-94 | the parser loop takes the last field of each kind, decodes both and refuses empty or malformed ones |
| `CacheKey.KeyRoundTrip` | apps/edgeproxy/internal/proxy/cache_policy.go:17-94 | parsing a built key returns its host and URI, for every request, when no vary name ends in a shadowing word |
| `CacheKey.ShadowedKeyMisparses` | apps/edgeproxy/internal/proxy/cache_policy.go:72-94 | with a vary name that ends in the separator and host64 or uri64 (a valid token) a 48-byte digest is read instead, so the parse can be right only for a host or URI of that length |
| `CacheKey.RoundTripIffNotShadowed` | apps/edgeproxy/internal/proxy/cache_policy.go:17-94 | the round trip holds for all requests if and only if no configured name shadows |
| `CacheKey.KeySeparates` | apps/edgeproxy/internal/proxy/cache_policy.go:17-58 | two requests with one key agree in method class, host, URI and every header digest |
| `CacheKey.SharedKeyIff` | apps/edgeproxy/internal/proxy/cache_policy.go:17-58 | barring a digest collision between the two, requests share a key exactly when method class, host, URI and all varied values agree |
| `CacheKey.PreimageSplits` | apps/edgeproxy/internal/proxy/cache_policy.go:37-43 | the hashed text gives back the list of header values |
| `CacheKey.InvalidateUnsafe` | apps/edgeproxy/internal/proxy/handler.go:844-849 | only an unsafe method with a status from 200 to 399 purges, and then by canonical host and URI |
| `CacheKey.InvalidationIsExact` | apps/edgeproxy/internal/proxy/handler.go:844-849 | after a successful unsafe request for a folded host, a stored key is gone exactly when it was stored for that host and URI: all variants, nothing else |
| `CacheKey.MethodClassIff` | apps/edgeproxy/internal/proxy/cache_policy.go:18-21 | only GET and HEAD share keys |
| `CacheKey.KeyVariesBy` | apps/edgeproxy/internal/proxy/cache_policy.go:26-56 | the key varies by exactly the configured names, folded and trimmed, and by the credentials that are allowed in the cache |
| `CacheKey.CredentialsSeparate` | apps/edgeproxy/internal/proxy/cache_policy.go:48-56 | where authorized or cookie-bearing requests may be cached, two with one key carry the same credential digest |
| `CacheKey.UnsafeIff` | apps/edgeproxy/internal/proxy/handler.go:851-858 | a method is unsafe exactly when it is not GET, HEAD, OPTIONS or TRACE |
| `CacheControl.SplitHeaderList` | apps/edgeproxy/internal/proxy/cache_policy.go:315-337 | the flag-driven loop accepts exactly the well-quoted text and returns its items |
| `CacheControl.JoinUndoesSplit` | apps/edgeproxy/internal/proxy/cache_policy.go:315-337 | joining the items with commas gives back the text |
| `CacheControl.SplitCombined` | apps/edgeproxy/internal/proxy/cache_policy.go:315-337 | behind a well-quoted part and a comma, the rest is split as if alone, also with blanks between |
| `CacheControl.SplitOfCombined` | apps/edgeproxy/internal/proxy/cache_policy.go:315-337 | the split of two well-quoted texts joined by a comma is the concatenation of their splits |
| `CacheControl.UnquoteHeaderValue` | apps/edgeproxy/internal/proxy/cache_policy.go:339-363 | the unescaping loop computes the quoted-string value |
| `CacheControl.UnquoteUndoesQuote` | apps/edgeproxy/internal/proxy/cache_policy.go:339-363 | unquoting a quoted string gives the value back |
| `CacheControl.QuotedIsOneItem` | apps/edgeproxy/internal/proxy/cache_policy.go:315-337 | commas and quotes inside a quoted value never split the list |
| `CacheControl.ParseDetailed` | apps/edgeproxy/internal/proxy/cache_policy.go:279-306 | the nested loops compute directives, duplicates and validity line by line; what they find is stated by ParseFinds and ParseTakesFirstValue |
| `CacheControl.CoalescingKeepsMeaning` | apps/edgeproxy/internal/proxy/cache_policy.go:279-306 | directives, duplicates and validity do not depend on how well-quoted lines were combined |
| `CacheControl.CombinesWithAllIff` | apps/edgeproxy/internal/proxy/cache_policy.go:279-337 | a line can be combined with every choice of well-quoted lines after it without changing the meaning if and only if it is well-quoted itself |
| `CacheControl.OpenQuoteSwallowsLine` | apps/edgeproxy/internal/proxy/cache_policy.go:279-337 | for every ill-quoted line: the directive x on the next line is read when the lines are separate and lost when they are combined |
| `CacheControl.CombiningHealsIff` | apps/edgeproxy/internal/proxy/cache_policy.go:279-337 | some continuation turns a refused pair of lines into an accepted single line if and only if the first leaves a quote open and has no nameless item |
| `CacheControl.CloserHeals` | apps/edgeproxy/internal/proxy/cache_policy.go:279-337 | one fixed continuation does so for every such line |
| `CacheControl.ItemsInvalidIff` | apps/edgeproxy/internal/proxy/cache_policy.go:286-303 | a list is invalid exactly when some item has no name |
| `CacheControl.HealedLineParses` | apps/edgeproxy/internal/proxy/cache_policy.go:279-337 | a concrete pair of lines is invalid when separate and one harmless directive when combined |
| `CacheControl.AddsByName` | apps/edgeproxy/internal/proxy/cache_policy.go:286-303 | an item adds its folded name with the value 1 or its unquoted rest, counts as duplicate when the name is there, and is invalid without a name |
| `CacheControl.ParseFinds` | apps/edgeproxy/internal/proxy/cache_policy.go:279-306 | a folded name is found exactly when some item of a well-quoted line has it up to case and blanks, and is a duplicate exactly when two have |
| `CacheControl.ParseTakesFirstValue` | apps/edgeproxy/internal/proxy/cache_policy.go:279-306 | the value is that of the first item with the name |
| `CacheControl.FoundNamesAreFolded` | apps/edgeproxy/internal/proxy/cache_policy.go:289-291 | nothing is found under a name that is empty or not folded |
| `CacheControl.LineCaseIsIrrelevant` | apps/edgeproxy/internal/proxy/cache_policy.go:279-306 | changing the case of names in any items of any lines leaves the result unchanged |
| `Freshness.DeltaSeconds` | apps/edgeproxy/internal/proxy/cache_policy.go:241-248 | accepted seconds are non-negative and do not overflow as nanoseconds |
| `Freshness.DeltaSecondsReadsDecimal` | apps/edgeproxy/internal/proxy/cache_policy.go:241-248 | decimal seconds are read back exactly as long as they fit a duration and refused beyond that |
| `Freshness.DeltaSecondsReadsOnlyDigits` | apps/edgeproxy/internal/proxy/cache_policy.go:241-248 | nothing but digits with an optional sign between blanks is accepted, with the value of the digits |
| `Freshness.InitialAgeIsTheLarger` | apps/edgeproxy/internal/proxy/cache_policy.go:253-271 | the initial age is the larger of the Age field and the time since Date (RFC 9111 section 4.2.3) |
| `Freshness.AgeFieldReadsDecimal` | apps/edgeproxy/internal/proxy/cache_policy.go:253-263 | a decimal Age counts up to a hundred years and not at all beyond 64 bits |
| `Freshness.ExpiryWithinLifetimeIff` | apps/edgeproxy/internal/proxy/cache_policy.go:169-239 | a stored response expires within its declared lifetime, counted from its age, exactly when the 64-bit subtraction does not underflow |
| `Freshness.OnlyExpiresUnderflows` | apps/edgeproxy/internal/proxy/cache_policy.go:204-231 | only an Expires date about 292 years before the reference date can underflow |
| `Freshness.AncientExpiresIsStored` | apps/edgeproxy/internal/proxy/cache_policy.go:204-231 | a concrete response of that kind is stored as fresh for centuries |
| `Freshness.HitIsFresh` | apps/edgeproxy/internal/proxy/cache_policy.go:101-239 | end to end: a hit is no older than the lifetime nor than a valid request max-age, and never answers no-store or no-cache |
| `Freshness.StaleIsBounded` | apps/edgeproxy/internal/proxy/cache_policy.go:169-239 | a stale copy is offered only up to lifetime plus stale-if-error and never after a respected must-revalidate or proxy-revalidate |
| `Freshness.CombiningOpensTheCache` | apps/edgeproxy/internal/proxy/cache_policy.go:127-167 | that pair keeps a request out of the cache when separate and lets it in, for lookup and storing, when combined |
| `Freshness.CombiningAdmitsResponse` | apps/edgeproxy/internal/proxy/cache_policy.go:186-199 | the same for a response whose origin directives are respected |
| `Freshness.RefusedIsNotStored` | apps/edgeproxy/internal/proxy/cache_policy.go:169-199 | a refused status, cookie, Vary, no-store, private, no-cache, Pragma, duplicate or malformed header is never stored |
| `Freshness.SharedMaxAgeDecides` | apps/edgeproxy/internal/proxy/cache_policy.go:203-239 | with s-maxage of n seconds a response is stored exactly when n seconds exceed its age, and expires n seconds less its age from now, whatever max-age and Expires say (RFC 9111 section 5.2.2.10) |
| `Freshness.MaxAgeDecides` | apps/edgeproxy/internal/proxy/cache_policy.go:211-239 | the same for max-age when there is no s-maxage, whatever Expires says |
| `Freshness.ExpiresDecides` | apps/edgeproxy/internal/proxy/cache_policy.go:217-239 | the same for Expires less Date when there is neither, within the range of 64 bits |
| `Freshness.DefaultDecides` | apps/edgeproxy/internal/proxy/cache_policy.go:187-239 | otherwise, or with the origin not respected, the configured lifetime decides; a malformed Expires stores nothing |
| `Freshness.RequestModeIff` | apps/edgeproxy/internal/proxy/cache_policy.go:127-167 | a request may store, and look up, exactly when nothing in it or the configuration forbids it |
| `Freshness.HitIff` | apps/edgeproxy/internal/cache/cache.go:65-83 | an entry is served fresh exactly up to its expiry, to a request that neither bypasses the cache nor asks for the origin and accepts its age |
| `Freshness.StaleOfferedIff` | apps/edgeproxy/internal/cache/cache.go:65-83 | an entry is offered stale exactly after its expiry and up to its stale limit, to the same requests |
| `Freshness.SharedMaxAgeHitIff` | apps/edgeproxy/internal/proxy/cache_policy.go:101-239 | end to end, a response stored with s-maxage is a hit exactly while its age is within that many seconds |
| `Freshness.NoStoreInAnyCase` | apps/edgeproxy/internal/proxy/cache_policy.go:144-146 | an item that says no-store in any case keeps a request out of the cache |
| `Freshness.PrivateInAnyCase` | apps/edgeproxy/internal/proxy/cache_policy.go:186-199 | an item that says private in any case keeps a respected response out of it |
| `RateLimit.Limiter.AllowLocked` | apps/securityedge/internal/ratelimit/limiter.go:71-108 | refill, test and charge of one bucket, and the retry time in whole nanoseconds |
| `RateLimit.Limiter.Allow` | apps/securityedge/internal/ratelimit/limiter.go:49-69 | route bucket first, then client bucket, with the route token refunded on a client rejection; the retry time is that of the bucket that rejected |
| `RateLimit.Limiter.Cleanup` | apps/securityedge/internal/ratelimit/limiter.go:118-136 | a sweep removes exactly the buckets idle longer than the limit, in any iteration order |
| `RateLimit.LevelBounded` | apps/securityedge/internal/ratelimit/limiter.go:71-108 | available tokens stay between zero and the burst |
| `RateLimit.DecideLevel` | apps/securityedge/internal/ratelimit/limiter.go:49-69 | a decision costs the buckets of its own route and client one token each when allowed and nothing otherwise, and no other bucket anything |
| `RateLimit.RejectionIsFree` | apps/securityedge/internal/ratelimit/limiter.go:49-69 | a rejected request leaves every route and client level as it was |
| `RateLimit.RetryAfterSufficesIff` | apps/securityedge/internal/ratelimit/limiter.go:93-107 | waiting the time a rejection names is enough if and only if the wait needed is a whole number of nanoseconds in range or at most the millisecond floor |
| `RateLimit.OneMoreNanosecondSuffices` | apps/securityedge/internal/ratelimit/limiter.go:93-107 | one nanosecond more is always enough, unless the wait was cut at the largest duration |
| `RateLimit.ThirdOfASecondIsTooShort` | apps/securityedge/internal/ratelimit/limiter.go:93-107 | at three tokens a second the named 333333333 ns are too short |
| `RateLimit.HeaderSufficesIff` | apps/securityedge/internal/gateway/handler.go:849-855 | waiting the seconds of the Retry-After header is enough if and only if the wait is at most one second, is rounded up, or is a whole number of seconds |
| `RateLimit.HeaderRoundsDown` | apps/securityedge/internal/gateway/handler.go:849-855 | a wait of 1.4 seconds is advertised as one second, which is too short |
| `RateLimit.WindowLedger` | apps/securityedge/internal/ratelimit/limiter.go:49-108 | over any window, admissions plus the level left are at most the burst plus the refill |
| `RateLimit.WindowBound` | apps/securityedge/internal/ratelimit/limiter.go:49-108 | any window of length T admits at most burst plus rate times T, per route and per client |
| `RateLimit.DecideAgrees` | apps/securityedge/internal/ratelimit/limiter.go:49-136 | equivalent tables decide alike and stay equivalent |
| `RateLimit.SweepingIsInvisible` | apps/securityedge/internal/ratelimit/limiter.go:118-136 | with idle time long enough to refill and no capacity rejection, any placement of sweeps gives the decisions of the run without them |
| `RateLimit.KeysIff` | apps/securityedge/internal/ratelimit/limiter.go:49-69 | buckets are shared by nobody else: one per route, and one per route and client as long as client names hold no bar |
| `RateLimit.AllowedIff` | apps/securityedge/internal/ratelimit/limiter.go:49-108 | a request is let in exactly when both its buckets have a token and there is room for them |
| `RateLimit.DecisionRetrySufficesIff` | apps/securityedge/internal/ratelimit/limiter.go:49-108 | the whole request repeated after the retry time of a client rejection is let in if and only if the wait is a whole number of nanoseconds or below the least retry time |
| `RateLimit.RepeatAfterClientIff` | apps/securityedge/internal/ratelimit/limiter.go:49-108 | after a client rejection, the repeated request is let in exactly when at least the missing tokens over the rate have passed |
| `RateLimit.RepeatAfterRouteIff` | apps/securityedge/internal/ratelimit/limiter.go:49-108 | after a route rejection, the repeated request passes the route bucket exactly when that time has passed |
| `BanManager.Manager.FilterTimes` | apps/securityedge/internal/ratelimit/limiter.go:205-211 | keeps exactly the times inside the window, in order |
| `BanManager.Manager.CleanupInactive` | apps/securityedge/internal/ratelimit/limiter.go:266-301 | when due, trims every inactive client and forgets those idle beyond their window, in any iteration order |
| `BanManager.Manager.EvictOldestInactive` | apps/securityedge/internal/ratelimit/limiter.go:303-319 | succeeds exactly when some client is not banned and evicts one that was seen longest ago |
| `BanManager.Manager.IsBanned` | apps/securityedge/internal/ratelimit/limiter.go:160-178 | answers by the recorded ban end and drops an expired ban |
| `BanManager.Manager.RecordViolation` | apps/securityedge/internal/ratelimit/limiter.go:182-219 | cleanup when due, then strike the client, making room by eviction or refusing when all are banned |
| `BanManager.Manager.ActiveCount` | apps/securityedge/internal/ratelimit/limiter.go:252-264 | counts exactly the clients with a ban still running |
| `BanManager.TableBounded` | apps/securityedge/internal/ratelimit/limiter.go:182-219 | in every run the table stays within MaxTrackedClients |
| `BanManager.NoActiveBanIsLost` | apps/securityedge/internal/ratelimit/limiter.go:160-319 | in every run no active ban is lost or shortened, whatever other clients do |
| `BanManager.StepAgrees` | apps/securityedge/internal/ratelimit/limiter.go:160-301 | each operation keeps the table in agreement with one client's own story |
| `BanManager.TableRefinesStory` | apps/securityedge/internal/ratelimit/limiter.go:160-219 | while at most MaxTrackedClients clients appear, every answer is that of the simple per-client specification: banned exactly when violations since the last ban inside the window reach the threshold |
| `BanManager.BansIff` | apps/securityedge/internal/ratelimit/limiter.go:182-219 | while all clients fit, in every run a violation bans exactly when with it at least the threshold of the violations since the last ban of that client lie in the trailing window |
| `BanManager.AskedIff` | apps/securityedge/internal/ratelimit/limiter.go:160-178 | and a client is told it is banned exactly while some ban of its own has not run out |
| `BanManager.BanIsRecorded` | apps/securityedge/internal/ratelimit/limiter.go:182-219 | a ban is recorded with the number of violations that led to it, its end and no pending violation |
| `BanManager.CleanedIff` | apps/securityedge/internal/ratelimit/limiter.go:266-301 | a sweep keeps a client exactly when it is banned, was seen in its window or has a violation in it |
| `BanManager.NothingLingers` | apps/securityedge/internal/ratelimit/limiter.go:182-301 | after every recorded violation the last sweep is less than a minute and at most half a window (or a second) ago, and whoever is tracked was banned then or seen within one window before |
| `Tracker.Recent.Search` | apps/securityedge/internal/traffic/tracker.go:77-80 | binary search finds the first later event |
| `Tracker.Recent.Observe` | apps/securityedge/internal/traffic/tracker.go:65-98 | inserts in time order; a full log drops its oldest event, or the new one if older than all, and marks what was lost |
| `Tracker.Recent.NoteEvicted` | apps/securityedge/internal/traffic/tracker.go:100-104 | the marker is the latest lost time |
| `Tracker.Recent.TakeSnapshot` | apps/securityedge/internal/traffic/tracker.go:106-183 | drops future events, and counts, minimum, truncation mark, outcome split and unique clients are those of the window |
| `Tracker.RunOrdered` | apps/securityedge/internal/traffic/tracker.go:65-183 | in every run the events stay sorted and within capacity |
| `Tracker.StepConserves` | apps/securityedge/internal/traffic/tracker.go:65-183 | in any window, retained plus lost is what there was plus what was observed |
| `Tracker.RunConserves` | apps/securityedge/internal/traffic/tracker.go:65-183 | over every run, observed events in a window are the retained and the lost ones |
| `Tracker.MarkerIsReal` | apps/securityedge/internal/traffic/tracker.go:88-104 | the truncation marker is the time of an event that was lost |
| `Tracker.MinimumNeverExceedsTruth` | apps/securityedge/internal/traffic/tracker.go:106-183 | in every run the reported minimum is at most the true number of observed events in the window |
| `Tracker.UntruncatedIsExact` | apps/securityedge/internal/traffic/tracker.go:106-183 | with no snapshot before an observed event, a window after the zero time that is not marked is counted exactly |
| `Tracker.ZeroTimeWindowCanBeWrong` | apps/securityedge/internal/traffic/tracker.go:100-183 | a window reaching the zero time can be unmarked and wrong |
| `Tracker.ExactIff` | apps/securityedge/internal/traffic/tracker.go:100-183 | unmarked counts are exact in every run if and only if the window starts after the zero time |
| `Tracker.KindsMean` | apps/securityedge/internal/traffic/tracker.go:106-183 | ALLOW and LOG count as allowed, CANCELED as canceled, everything else as rejected |
| `Tracker.ClientsIff` | apps/securityedge/internal/traffic/tracker.go:106-183 | the clients counted are exactly those named by an event of the window |
| `Tracker.TruncatedIff` | apps/securityedge/internal/traffic/tracker.go:100-183 | in every run with a forward clock, a window after the zero time is marked truncated exactly when fewer events are counted than were observed |
| `LogPages.NewestMembers` | apps/securityedge/internal/securitylog/store.go:438-471 | a listing holds exactly the retained matching entries below the cursor |
| `LogPages.NewestDecreases` | apps/securityedge/internal/securitylog/store.go:438-471 | newest first, no sequence number twice |
| `LogPages.CursorCuts` | apps/securityedge/internal/securitylog/store.go:438-471 | continuing at the k-th sequence number yields exactly what follows the k-th entry |
| `LogPages.PagingIsComplete` | apps/securityedge/internal/securitylog/store.go:438-471 | following NextBeforeSequence to the end visits every retained matching entry exactly once, newest first, for every page size |
| `LogPages.PageIs` | apps/securityedge/internal/securitylog/store.go:438-471 | a page holds the newest matching entries, as many as asked for or a hundred, and says there is more exactly when some are left, all below its cursor |
| `LogFiles.RotatedDisk` | apps/securityedge/internal/securitylog/store.go:358-401 | a rotation loses exactly the oldest file |
| `LogFiles.RestoreIsFaithful` | apps/securityedge/internal/securitylog/store.go:143-193 | reading back increasing numbered lines gives exactly those entries and the highest number |
| `LogFiles.RestoreNumbers` | apps/securityedge/internal/securitylog/store.go:143-193 | whatever the lines, restored entries have increasing positive numbers and the next number is above them all |
| `LogFiles.WrittenKeepsSuffix` | apps/securityedge/internal/securitylog/store.go:334-356 | writing, with or without rotation, keeps the files a suffix of the history |
| `LogFiles.AppendKeepsInv` | apps/securityedge/internal/securitylog/store.go:268-285 | an append keeps files and ring suffixes of the history, the ring within capacity and at least as long as the files up to it |
| `LogFiles.RestartRebuilds` | apps/securityedge/internal/securitylog/store.go:143-193 | a restart rebuilds the last min(capacity, retained on disk) entries in order; numbering goes on where it was, or from one when nothing was appended since the last clear |
| `LogFiles.ClearKeepsInv` | apps/securityedge/internal/securitylog/store.go:566-598 | clearing empties ring and files and starts a new history at the number reached |
| `LogFiles.LogKeepsSuffix` | apps/securityedge/internal/securitylog/store.go:143-401 | in every run of appends, clears and restarts the files oldest to newest are a suffix of what was appended since the last clear |
| `LogFiles.NumbersReusedIff` | apps/securityedge/internal/securitylog/store.go:143-193 | over a whole life a number is given out again, or a smaller one, if and only if something is appended after a restart that found the log cleared |
| `LogFiles.ClearedRestartReuses` | apps/securityedge/internal/securitylog/store.go:143-193 | under any limits: append, clear, restart and append give out number one twice |
| `LogFiles.RestoreReads` | apps/securityedge/internal/securitylog/store.go:143-223 | readable lines come back in their order with their text, and are renumbered only where the numbers do not rise |
| `LogFiles.FilesStayTidy` | apps/securityedge/internal/securitylog/store.go:334-401 | in every life of the log no file exceeds its limit but for a single line, a file was closed only because the next line did not fit, and an entry is missing on disk only when all files are in use |
| `LogFiles.DiskIsBounded` | apps/securityedge/internal/securitylog/store.go:334-401 | the files together never outgrow their limit, or that of a line, times their number |
| `SecurityLog.Store.Push` | apps/securityedge/internal/securitylog/store.go:225-235 | the ring holds the newest capacity entries, the overwritten one counted as dropped |
| `SecurityLog.Store.RotateLocked` | apps/securityedge/internal/securitylog/store.go:358-401 | the rename loop shifts every file by one without overwriting one that has not moved |
| `SecurityLog.Store.WriteFileLocked` | apps/securityedge/internal/securitylog/store.go:334-356 | rotates before a line that would pass the size limit, then appends it |
| `SecurityLog.Store.Append` | apps/securityedge/internal/securitylog/store.go:268-285 | the next sequence number, ring and file updated together |
| `SecurityLog.Store.Clear` | apps/securityedge/internal/securitylog/store.go:566-598 | ring and every file of the chain emptied, count reported |
| `SecurityLog.Store.RestorePersistentEntries` | apps/securityedge/internal/securitylog/store.go:143-193 | reading the chain oldest to newest performs a restart of the abstract log |
| `SecurityLog.Store.Query` | apps/securityedge/internal/securitylog/store.go:438-471 | the backward scan of the ring returns exactly the abstract page |
| `SecurityLog.Store.ExportBatch` | apps/securityedge/internal/securitylog/store.go:542-564 | a batch is the first entries of the frozen listing below the cursor |
| `SecurityLog.Store.NewestSequence` | apps/securityedge/internal/securitylog/store.go:483-488 | the frozen sequence number is the newest retained one |
| `SecurityLog.Store.Export` | apps/securityedge/internal/securitylog/store.go:473-536 | with appends between batches, the output is newest first, of entries that were there at the start and match, at most as many as asked for; it leaves out only what was overwritten meanwhile and, when it has as many as asked for, older ones; without appends it is the filtered log cut to the limit |
| `SecurityLog.ExportIsSound` | apps/securityedge/internal/securitylog/store.go:473-564 | an interleaved export is strictly decreasing, never passes the frozen number, and when exhausted holds every frozen match still retained |
| `SecurityLog.QuietExportIsOneShot` | apps/securityedge/internal/securitylog/store.go:473-564 | without interleaving the batched export is the one-shot listing cut to the limit |
| `EnvFile.Loader.LoadFile` | apps/edgeproxy/internal/envfile/envfile.go:159-228 | success yields exactly the specified environment; any set, unset or validation failure restores environment and managed map exactly; for every iteration order |
| `EnvFile.Loader.Rollback` | apps/edgeproxy/internal/envfile/envfile.go:183-192 | undoes any prefix of the load |
| `EnvFile.Loader.RestoreManaged` | apps/edgeproxy/internal/envfile/envfile.go:50-72 | the managed variables become the snapshot, all others stay |
| `EnvFile.Loader.Snapshot` | apps/edgeproxy/internal/envfile/envfile.go:38-46 | copies the managed variables |
| `EnvFile.ReloadYields` | apps/edgeproxy/internal/envfile/envfile.go:159-228 | after a reload every variable has its deployment value if deployment owns it, else the file value, else none |
| `EnvFile.ReloadForgetsHistory` | apps/edgeproxy/internal/envfile/envfile.go:159-228 | a reload does not depend on earlier loads |
| `EnvFile.RunKeepsDeployment` | apps/edgeproxy/internal/envfile/envfile.go:159-228 | no run of loads changes a deployment variable |
| `EnvFile.RestoreUndoesRun` | apps/edgeproxy/internal/envfile/envfile.go:38-72 | restoring a snapshot undoes any run of later loads |
| `EnvFile.LoadYields` | apps/edgeproxy/internal/envfile/envfile.go:159-228 | a load keeps what earlier files set except where this file sets it anew, and never touches the deployment |
| `EnvFile.RestoreYields` | apps/edgeproxy/internal/envfile/envfile.go:50-72 | a restored snapshot decides every variable it names, unsets the other managed ones and leaves the rest |
| `Control.HotIffSameListeners` | apps/edgeproxy/internal/control/manager.go:514-529 | no restart field differs exactly when everything bound at startup is equal |
| `Control.Manager.constructor` | apps/edgeproxy/internal/control/manager.go:67-94 | the initial state, rollback point included |
| `Control.Manager.Attach` | apps/edgeproxy/internal/control/manager.go:96-108 | the new generation becomes current and the persisted file its rollback point |
| `Control.Manager.Offer` | apps/edgeproxy/internal/control/manager.go:314-322 | the slot ends with the newest candidate and the last send finds it empty, whether or not the loop took the old one meanwhile |
| `Control.Manager.Apply` | apps/edgeproxy/internal/control/manager.go:290-351 | rejected exactly when preflight, attachment or rebuild fails, then only the revision moved; otherwise the accepted state |
| `Control.Manager.Update` | apps/edgeproxy/internal/control/manager.go:237-288 | fails exactly when a stage fails, then only file and revision can have moved; on success file and persisted copy agree and hold the trimmed token asked for, the old one where the edit returned the placeholder; a restart moves only file, persisted, slot, revision and its flag; a hot change leaves the slot, keeps the bound listeners and makes file, data plane and rollback point agree |
| `Control.Manager.Reload` | apps/edgeproxy/internal/control/manager.go:209-228 | a rejected file changes nothing but the revision |
| `Control.Manager.ReloadEnvironment` | apps/edgeproxy/internal/control/manager.go:442-482 | succeeds exactly when the named file loads, is allowed and is admitted; a rejected new path is undone |
| `Control.Manager.RecoverFailedRestart` | apps/edgeproxy/internal/control/manager.go:115-174 | file, persisted and rollback point agree again, the slot is empty, the last running configuration is returned |
| `Control.FailedUpdateKeepsFileIff` | apps/edgeproxy/internal/control/manager.go:237-288 | every failing update leaves the file as it was if and only if the file holds the manager's copy |
| `Control.UnreadEditIsLost` | apps/edgeproxy/internal/control/manager.go:256-261 | a saved update that then fails to load overwrites an edit the manager has not read |
| `Control.UpdateSucceedsIff` | apps/edgeproxy/internal/control/manager.go:237-288 | an update succeeds exactly when the edit with its token put back is allowed, validates, loads and is admitted, and then file, data plane or slot hold what passed |
| `Control.RedactedEditKeepsToken` | apps/edgeproxy/internal/config/persist.go:234-239 | whoever edits the redacted view and leaves the token alone keeps the real token |
| `Control.PlaceholderNeverWritten` | apps/edgeproxy/internal/control/manager.go:247-249 | no run of updates makes the placeholder the token, when validation refuses it or edits say it without blanks |
| `Control.AdmitsIff` | apps/edgeproxy/internal/control/manager.go:290-351 | a change is admitted exactly when its listeners are unchanged and an attached data plane is rebuilt, or its listeners pass the preflight |
| `Control.FieldsIff` | apps/edgeproxy/internal/control/manager.go:514-529 | each restart field is reported by its name exactly when it changed |
| `Generations.StepKeepsInv` | apps/edgeproxy/internal/control/manager.go:115-351 | every atomic step of transaction thread and loop keeps the invariant |
| `Generations.SafeInEveryState` | apps/edgeproxy/internal/control/manager.go:115-351 | in every interleaving: applied at most revision, and file equal to persisted between transactions |
| `Generations.NewestCandidateServesIff` | apps/edgeproxy/internal/control/manager.go:115-174 | over every run: once nothing is pending, the last restart candidate accepted serves if and only if no rollback followed its acceptance or the last one went back to that very configuration; after a rollback the configuration rolled back to serves |
| `Generations.RollbackDiscardsNewerCandidate` | apps/edgeproxy/internal/control/manager.go:145-174 | for all pairs of candidates: one accepted while an earlier one is starting is discarded when that one fails, although its update was answered with success |
| `Generations.FailedTransactionLeavesNoTrace` | apps/edgeproxy/internal/control/manager.go:237-351 | in every interleaving with the loop, attachments included: a failed transaction leaves file, path, persisted configuration and what the file stands for as it found them; running configuration, data plane and rollback point are those it found or those of the last generation attached meanwhile |
| `Generations.RejectedRevisionAppliedIff` | apps/edgeproxy/internal/control/manager.go:96-108 | a generation attached during a failing transaction records the rejected revision as applied if and only if the transaction had counted before |
| `Generations.TransactionsNeverBlock` | apps/edgeproxy/internal/control/manager.go:290-351 | in every reachable state the transaction under way has an enabled step; sending never waits, even after the loop stopped |
| `Generations.FallbackAtMostOnceInARow` | apps/edgeproxy/internal/server/run.go:59-78 | between two rollbacks some generation started |
| `Generations.CalmStepStaysOnCourse` | apps/edgeproxy/internal/control/manager.go:290-351 | steps in which no change overtakes a restart keep file, runtime, data plane and rollback point together |
| `Generations.CalmRunServesTheFile` | apps/edgeproxy/internal/server/run.go:59-114 | at rest in such a run, the data plane serves what the file says and the rollback point is that file |
| `Generations.CalmRollbackMatchesFile` | apps/edgeproxy/internal/control/manager.go:115-174 | in such a run a rollback writes the file of the very configuration it restarts |
| `Generations.HotCommitOnCourseIff` | apps/edgeproxy/internal/control/manager.go:290-348 | a hot commit keeps everything on course if and only if no restart is under way or it leads to the same configuration, and the generation rebuilt is the one that serves or the new one runs the same configuration |
| `Generations.RollbackPointMatchesIff` | apps/edgeproxy/internal/control/manager.go:96-108 | over every run: the rollback point recorded when a restart candidate starts is the candidate's own if and only if, since its acceptance, no other configuration was accepted after it |
| `Generations.PendingRestartUndoesHotChange` | apps/edgeproxy/internal/control/manager.go:334-348 | for all configurations: a hot change accepted while a restart is pending is undone by that restart while file and rollback point keep it |
| `Generations.OvertakenHotChangeIsLost` | apps/edgeproxy/internal/control/manager.go:290-348 | for all configurations: a hot change whose generation is replaced between its reload and its commit is lost too, with no restart under way at the commit |
| `Generations.RollbackRestoresFailedFile` | apps/edgeproxy/internal/control/manager.go:96-174 | for all pairs of different candidates: one accepted between drain and attach that then fails to start is written back by the rollback, while the other is started |
| `Generations.HotChangeRuns` | apps/edgeproxy/internal/control/manager.go:237-351 | an undisturbed hot transaction is one accepted update |
| `Generations.RestartChangeRuns` | apps/edgeproxy/internal/control/manager.go:237-351 | an undisturbed restart transaction is one accepted update, with an empty or a full slot |
| `ServerLoop.LatestRestart` | apps/edgeproxy/internal/server/run.go:117-129 | the newest candidate wins and the slot is drained |
| `ServerLoop.RunLoop` | apps/edgeproxy/internal/server/run.go:44-115 | for every script of starts, changes and endings: each attempt tries the successor of the generation that ran or, after a failed one, the configuration that ran before, once; the loop gives up only on the first start or a failed fallback |
| `ServerLoop.SlotHoldsNewest` | apps/edgeproxy/internal/control/manager.go:314-322 | after any updates the slot holds the newest candidate accepted |
| `ServerLoop.Serve` | apps/edgeproxy/internal/server/run.go:64-129 | a generation is replaced by the newest candidate waiting, accepted while it served or while it drained, and by nothing else |
| `Routes.ScoreIffCovers` | apps/edgeproxy/internal/router/router.go:68-93 | a pattern scores exactly when it is the catch-all, the host, or a wildcard whose suffix the host ends in |
| `Routes.SpecificityOrder` | apps/edgeproxy/internal/router/router.go:65-93 | exact beats wildcard beats catch-all, longer wildcard beats shorter, and different patterns never tie |
| `Routes.HostMatchSpecificity` | apps/edgeproxy/internal/router/router.go:68-93 | the running best is the maximum of the pattern scores |
| `Routes.HostMatchesIff` | apps/edgeproxy/internal/router/router.go:68-93 | a host matches exactly when some pattern covers it |
| `Routes.PrefixEndsASegment` | apps/edgeproxy/internal/router/router.go:107-115 | a prefix matches whole path segments only |
| `Routes.Router.Match` | apps/edgeproxy/internal/router/router.go:24-48 | the first route that no matching route outranks, for any table |
| `Routes.Table.Match` | apps/securityedge/internal/routes/routes.go:142-162 | the same for the SecurityEdge table |
| `Routes.MatchersAgree` | apps/securityedge/internal/routes/routes.go:142-162 | both programs choose the same route for every table and request |
| `Routes.UniqueMaximum` | apps/edgeproxy/internal/router/router.go:24-93 | in a validated table the chosen route strictly outranks every other match |
| `Routes.ValidInAnyOrder` | apps/edgeproxy/internal/config/config.go:535-545 | validity does not depend on the order of the routes |
| `Routes.OrderDoesNotMatter` | apps/edgeproxy/internal/router/router.go:24-48 | permuting a validated table never changes the route |
| `Routes.ChosenIff` | apps/edgeproxy/internal/router/router.go:24-93 | the matchers choose exactly the first route with the longest matching prefix and, among those, a host pattern more specific than every rival pattern |
| `Routes.LongestPrefixWins` | apps/edgeproxy/internal/router/router.go:24-93 | no matching route has a longer prefix than the chosen one, and none of that length a more specific pattern |
| `Routes.UnmatchedIff` | apps/edgeproxy/internal/router/router.go:24-48 | no route is chosen exactly when none covers host and path |
| `RouteLoader.NormalizedHost` | apps/securityedge/internal/routes/routes.go:214-278 | a normalised host pattern is read unchanged by the matchers |
| `RouteLoader.NormalizedPrefix` | apps/securityedge/internal/routes/routes.go:280-316 | a normalised prefix is rooted and canonical |
| `RouteLoader.KeyInjective` | apps/securityedge/internal/routes/routes.go:127-133 | a selector key determines host and prefix |
| `RouteLoader.NormalizeHosts` | apps/securityedge/internal/routes/routes.go:113-126 | the loop with its seen map accepts exactly lists that normalise without repetition |
| `RouteLoader.Load` | apps/securityedge/internal/routes/routes.go:78-136 | the loading loop with its running maps assembles the table route by route |
| `RouteLoader.LoadsIffAcceptable` | apps/securityedge/internal/routes/routes.go:78-136 | a table loads exactly when each route is acceptable and no two share a name or a selector, and is then validated |
| `RouteLoader.ValidateSelectors` | apps/edgeproxy/internal/config/config.go:535-545 | for any list of routes, EdgeProxy's owner map counts no conflict exactly when no selector is claimed under two names |
| `RouteLoader.ContestedIffShared` | apps/edgeproxy/internal/config/config.go:535-545 | for well-formed routes that is exactly when no two routes of different names share host and prefix |
| `RouteLoader.LoadedIsUncontested` | apps/edgeproxy/internal/config/config.go:535-545 | EdgeProxy sees no selector conflict in a table SecurityEdge accepts |
| `RouteLoader.HostnameAccepted` | apps/securityedge/internal/routes/routes.go:214-278 | a hostname in any case, with blanks around or a dot at its end, is accepted as its folded self, alone or under a wildcard |
| `RouteLoader.AddressAccepted` | apps/securityedge/internal/routes/routes.go:214-256 | an address is accepted in its canonical form |
| `RouteLoader.PrefixAccepted` | apps/securityedge/internal/routes/routes.go:280-316 | a clean prefix is accepted as it stands and with one slash at its end |
| `RouteLoader.PrefixTwiceIff` | apps/securityedge/internal/routes/routes.go:280-316 | a normalised prefix is read as itself if and only if no white space stood before the dropped slash |
| `RouteLoader.BlankIsLost` | apps/securityedge/internal/routes/routes.go:280-316 | for every segment name: with a blank before its last slash the prefix loses the blank when it is loaded again |
| `RouteLoader.LoadTwiceIff` | apps/securityedge/internal/routes/routes.go:78-136 | loading a loaded table gives it back if and only if no prefix had such a blank |

## Left out

- UpstreamPool.Pool.PickRoundRobin: the counter is unbounded; the source's 64-bit counter is not followed past its range.
- UpstreamPool.Pool.PickLeastConnections: load and latency factors are `real`; float64 rounding is not modelled.
- UpstreamPool.Pool.Pick: an upstream is named by its position in the pool instead of by its address.
- RetryLoop.Fetch: one request at a time; the interleaving of many is that of `Requests`, whose steps are coarser. Response bodies, headers and tunnels are not part of the model.
- Requests.ActiveIsInFlight: budgets and causes of the single turns are those of `RetryLoop`; here a request may take any of its turns at any time.
- Invalidation.PurgeSticksIff: one key stands for one stored variant; a purge of several variants is one step per variant.
- RetryLoop.Learn: the latency average is an input, its exponential smoothing is not computed.
- CacheFill.FillsArePaidFor: time is abstracted to losses of entries; fetches of requests that refuse what is stored are not counted, and serving the stale copy does not appear.
- LruCache.Cache.Set: a negative entry limit, which configuration validation forbids and with which the eviction loop would not end, is excluded.
- CacheKey.SharedKeyIff: SHA-256 is a function parameter; only the two compared header texts are assumed not to collide.
- CacheKey.BuildKey: the canonical host and request URI, and header values by name, are inputs.
- Freshness.HitIsFresh: freshness is that of the lookup time; the time a response takes to be sent is not counted. Dates come parsed.
- Freshness.StaleIsBounded: the bound holds at the lookup; the origin attempts that may pass before the stale copy is served are not counted.
- RateLimit.Limiter.Allow: tokens, rates and times are `real`; float64 rounding is not modelled. The cut of the retry time to nanoseconds is.
- RateLimit.SweepingIsInvisible: stated for one setting on all routes and an idle time long enough to refill, as the background sweep assumes.
- BanManager.TableRefinesStory: stated for one fixed setting and non-decreasing times.
- BanManager.BansIff: stated for runs whose clients all fit into the table; what happens beyond is `TableBounded`, `NoActiveBanIsLost` and the eviction rule.
- BanManager.Manager.RecordViolation: Remove, Clear and List are not modelled.
- Tracker.Recent.TakeSnapshot: the list of recent events for display is not modelled.
- LogFiles.LogKeepsSuffix: I/O succeeds and every line is within the line limit; torn lines and the bytes of a line are not modelled.
- SecurityLog.Store.Append: entry normalisation and JSON are not modelled; an entry is a number, a size and a text.
- EnvFile.Loader.LoadFile: parsing of the file is left out; its key-value map is an input.
- Control.Manager.Update: file writes succeed; digests, status texts and the rollback of the managed environment are not modelled.
- Control.Manager.ReloadEnvironment: the resolution of the path from the environment is an input.
- Control.PlaceholderNeverWritten: that validation trims and refuses the token is a condition on the input `validate`.
- Freshness.ExpiresDecides: stated where lifetime and subtraction fit 64 bits; the underflow beyond is `OnlyExpiresUnderflows`.
- Generations.NewestCandidateServesIff: edits of the file from outside and changes of the configuration path are not steps of this machine.
- Generations.CalmRunServesTheFile: the runtime configuration is whatever was loaded together with the file; a later change of the environment alone is a new change.
- ServerLoop.RunLoop: changes happen between the loop's own steps here; the finer interleaving is that of `Generations`.
- Routes.Router.Match: the canonical host and request path are inputs.
- RouteLoader.Load: reading and decoding the JSON file is left out; parsing of IP addresses is a function parameter whose results are canonical host text and, for loading twice, read as themselves.
- RouteLoader.ValidateSelectors: the other field checks of EdgeProxy's configuration are not modelled, so nothing is said about tables it refuses for other reasons.
- Purging by path prefix and conditional requests: they would add easy members.
- The access log and the SecurityEdge dotenv loader: a second copy of the ring and of the loader.
- The web application firewall, admission limiter and metrics: library matching and simple counters.
- Connectivity monitor, admin servers, dashboard, TLS, health probes, protocol upgrades: foreign effects.
