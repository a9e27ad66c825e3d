# hubCDN: verified models of the cache, the image kernels, the issuance guard and the proxy

This Dafny project models the stateful core of hubCDN and proves what its code and documentation
promise. `dafny verify dfyconfig.toml` checks all of it.

**The sharded LRU cache.** `Recency` is one shard as a most-recent-first list: Get, Set, eviction, and the
inclusion theorem for LRU under two budgets, lifted to the whole cache and its hit counter by `Inclusion`;
`LruLimits` shows that its hypotheses are needed. `CacheSpec` is the whole cache as a value with its counters, and
the theorems over every sequential run. `Cache` is the class as written - map, list and byte counter per shard,
256 shards, global counters - and each method is proved to do what the function of the same name in `CacheSpec`
does. `Interleave` is the same code with any number of goroutines, switching at every lock operation, budget
access and atomic add: the counters are accounted for at every instant, and every step is shown to be either
invisible or one whole atomic shard operation. `Sections` makes every schedule a sequence of critical sections in
lock order, `ProgramOrder` shows that each goroutine's share of it is its own calls in full, and `LockOrder` draws
the consequence for lookups: in every schedule a Get finds the last Set in that order. `Watchdog` moves the budget.

**The image kernels.** `Windows` is the naive box filter of one line, `Layout` the position arithmetic of an
NRGBA buffer, `Pixels` the in-place sliding-window `blurAxis` proved equal to the naive filter, and `Transforms`
flip, grayscale, the transparency test, and the algebra between them. `Resize` is the box arithmetic over exact
rationals.

**The issuance guard.** `CertGuard` is the guard with its pruned, saved and reloaded history; `Issuance` is the
full history and the decision it implies; `IssuanceRuns` is the approve/record protocol with orders in flight, and
`GuardedRuns` runs that protocol on the guard as it is, pruned, saved and restarted.

**The proxy.** `Policy` decides admission (section 3 and section 4.2.1 of RFC 9111), `Recorder` is the tee,
`CacheKey` the key derivation, `Proxy` the protocol with stale-while-revalidate (section 3 of RFC 5861) as a
state machine over freely interleaved steps, down to the critical sections of the cache, and `ProxyServer` the
object whose methods take those steps on the real cache and recorder. `Objects`, `Sums` and `Text` hold what the
others share.

Where code and documentation disagree, the code is modelled:

- internal/cache/policy.go:139 says explicit positive freshness always wins, in any mode; docs/caching.md:62 promises
  it for both caching modes, capped at 7 days. The product of seconds and 10^9 wraps in 64 bits first
  (internal/cache/policy.go:145-147), so from 9223372037 seconds on the response may be refused, may get the default
  TTL, may get a short positive TTL (18446744074 s give 0.29 s), or may be honoured by chance when the product wraps
  to 7 days or more (18447348874 s). `Policy.StatedAgeHonouredIff` is the exact condition, `Policy.WrappedAge` says
  what happens otherwise, `Policy.HugeAges` and `Policy.HugeMaxAgeExample` are the inputs.
- docs/ssl.md presents the issuance budgets as limits on issuance. Check and Record are separate, so overlapping
  orders can exceed a limit by the number of orders in flight minus one: `IssuanceRuns.EveryWindowBounded` proves
  that bound and `IssuanceRuns.BoundIsReached` that each of the four budgets attains it.
- Retention leaves exactly one day of slack against clock steps: `CertGuard.SlackIsOneDay`.

Times are integers in nanoseconds, sizes and counters mathematical integers. The clock, the memory reading, the
origin and the outcome of disk writes are parameters that may take any value.

## Model

| member | source | states |
|---|---|---|
| Objects.MeasureSize | internal/cache/cache.go:68-77 | the accumulated size is body + 256 + all header names and values, in whatever order the map is walked |
| Objects.SizeAddsUp | internal/cache/cache.go:68-77 | an object without headers is charged 256 bytes and its body; a header adds its name, every further value its length |
| Recency.ShardOf | internal/cache/cache.go:140-151 | every hexadecimal key selects one of the 256 shards |
| Recency.ShardIsFirstByte | internal/cache/cache.go:140-151 | the shard's number is the number its key's first two hexadecimal digits spell |
| Recency.EvictLongest | internal/cache/cache.go:264-279 | unprotected eviction keeps exactly the longest most-recent-first prefix that fits the share |
| Recency.EvictLongestProtected | internal/cache/cache.go:258-279 | with the newest entry protected, that entry stays and beyond it exactly the longest prefix that fits |
| Recency.InsertExact | internal/cache/cache.go:200-213 | a Set leaves the new entry in front of exactly the older entries that still fit; the shard is within its share iff the new entry fits it |
| Recency.LruInclusion | internal/cache/cache.go:157-214 | along every get-then-set trace with one size per key, each within the smaller budget, the keys and sizes a shard holds under that budget are a prefix of those under a larger one, also when objects expire |
| Recency.HitStaysHit | internal/proxy/proxy.go:120-147 | on such a trace without objects past their stale window, raising the budget never turns a hit into a miss |
| Recency.MoreBudgetMoreHits | internal/proxy/proxy.go:120-147 | the hit count of such a trace is monotone in the budget |
| Inclusion.ShardRunsItsOwn | internal/proxy/proxy.go:120-147 | after requests for any keys, a Get each and a Set on a miss, every shard of the whole cache is the demand-fill run of its own requests |
| Inclusion.CacheInclusion | internal/cache/cache.go:157-214 | then, with one size per key within the smaller budget, every shard under that budget is a prefix of the same shard under a larger one |
| Inclusion.CountedHitsGrow | internal/cache/cache.go:177 | and, without objects past their stale window, the hit counter of the whole cache is monotone in the budget |
| LruLimits.NeedsOneSizePerKey | internal/cache/cache.go:192-214 | requests to the whole cache, with measured sizes, among which a key changes size: inclusion fails and the larger cache misses what the smaller one finds |
| LruLimits.NeedsSizesThatFit | internal/cache/cache.go:195-197 | requests with measured sizes, one between the two total budgets: inclusion fails and the larger cache misses what the smaller one finds |
| LruLimits.HitsNeedFreshness | internal/cache/cache.go:167-173 | requests with measured sizes, one for an object past its stale window: inclusion holds, yet the larger cache misses what the smaller one finds |
| CacheSpec.RunInv | internal/cache/cache.go:96-113 | after every run: no duplicate keys, sizes as measured, keys only in their own shard, entries and bytes equal to the sums over the shards |
| CacheSpec.HeldIsLatest | internal/cache/cache.go:192-226 | whatever the cache holds for a key is the object of the last accepted Set not followed by a Delete |
| CacheSpec.GetReturnsLatest | internal/cache/cache.go:153-183 | Get returns only that object, only up to StoredAt+TTL+StaleFor, Stale exactly past StoredAt+TTL, and Miss exactly when it returns nothing |
| CacheSpec.GetExact | internal/cache/cache.go:40-48 | a held object is returned iff now <= StoredAt+TTL+StaleFor, Fresh iff also now <= StoredAt+TTL, and moves to the front; past the window it is gone; nothing else moves, exactly one hit or miss is counted |
| CacheSpec.RefusedSetKeepsOlder | internal/cache/cache.go:185-197 | a Set of a positive size within a positive budget is found by every Get up to StoredAt+TTL+StaleFor and by none later; any other Set leaves the whole cache as it was |
| CacheSpec.SetExact | internal/cache/cache.go:192-214 | after an accepted Set the shard is exactly the longest fitting prefix (or the new entry alone), and no other shard changes |
| CacheSpec.DemandFillIsGetThenSet | internal/proxy/proxy.go:120-147 | Get followed by Set on a miss is the demand fill of the inclusion theorem, on its shard only |
| CacheSpec.SetBudgetExact | internal/cache/cache.go:230-241 | SetBudget leaves in every shard exactly the longest prefix that fits the new share |
| CacheSpec.SetBudgetWithin | internal/cache/cache.go:228-241 | right after SetBudget total bytes are at most the clamped budget |
| CacheSpec.RunWithinBudget | internal/cache/cache.go:185-241 | in every run whose accepted objects each fit one share, total bytes never exceed the budget |
| Cache.Shard.Remove | internal/cache/cache.go:281-285 | unlinking keeps map, list and byte counter in agreement and removes exactly that entry |
| Cache.Shard.MoveToFront | internal/cache/cache.go:175 | the entry moves to the front, all others keep their order |
| Cache.Shard.PushFront | internal/cache/cache.go:206-209 | a new key goes in front of the unchanged list and is charged |
| Cache.Cache.EvictOver | internal/cache/cache.go:264-279 | the loop computes the specified eviction and takes exactly the removed entries off the global counters |
| Cache.Cache.Get | internal/cache/cache.go:157-183 | the class's Get is CacheSpec.Get on every shard and counter |
| Cache.Cache.Set | internal/cache/cache.go:192-214 | the class's Set is CacheSpec.Set on every shard and counter |
| Cache.Cache.Delete | internal/cache/cache.go:217-226 | the class's Delete is CacheSpec.Delete |
| Cache.Cache.SetBudget | internal/cache/cache.go:230-241 | the class's SetBudget is CacheSpec.SetBudget |
| Cache.Cache.constructor | internal/cache/cache.go:116-123 | a new cache is empty, valid, with 256 separate shards |
| Interleave.StepInv | internal/cache/cache.go:157-285 | every step of every goroutine keeps mutual exclusion, well-formed shards, the share bound and the accounting |
| Interleave.CountersNonNegative | internal/cache/cache.go:108-109 | entries and bytes are never negative, because every uncounted push holds its own shard |
| Interleave.EveryInterleaving | internal/cache/cache.go:157-241 | in every schedule: counters non-negative, equal to the true totals once pending deltas are added, exact at quiescence, and every unlocked shard holds at most one entry or at most largest-budget/256 bytes |
| Interleave.LargestIsMaximum | internal/cache/cache.go:194-198 | the budget in that bound is the maximum of the initial budget and all budgets stored so far |
| Interleave.StepIsAtomic | internal/cache/cache.go:157-241 | every step is, on every shard, nothing or exactly one whole Get, Set, Delete or eviction - critical sections are atomic although counters and budget are updated in between |
| Sections.ScheduleIsSections | internal/cache/cache.go:157-241 | after every schedule all shards and the budget are what the critical sections leave when performed one after the other in lock order, each Set with the budget it loaded, each SetBudget as a store and separate evictions |
| Sections.SetBudgetIsSections | internal/cache/cache.go:230-241 | a SetBudget that nothing interrupts is its store and its 256 evictions in a row |
| ProgramOrder.RunsInOrder | internal/cache/cache.go:157-241 | in every schedule a goroutine's critical sections are those of its calls in order: Set with its own key and object and the budget of its start, SetBudget as its store and one eviction of each of the 256 shards with that budget's share |
| ProgramOrder.EverySectionIsACalls | internal/cache/cache.go:157-241 | in every schedule, every critical section belongs to a call that some goroutine started: no eviction has another share, no store another object |
| ProgramOrder.AloneIsSequential | internal/cache/cache.go:157-241 | from every reachable state with all mutexes free, a call that runs undisturbed ends, with all mutexes free and exactly the shards and budget of the sequential Get, Set, Delete or SetBudget |
| LockOrder.HeldIsLatestLocked | internal/cache/cache.go:192-226 | in every schedule, whatever a shard holds for a key is the object of the last accepted Set of it, in the order in which the calls locked the shard, that no Delete followed |
| LockOrder.GetFindsLatestLocked | internal/cache/cache.go:157-183 | in every schedule, a Get that gets the lock finds exactly that object or nothing |
| Watchdog.WatchdogTick | internal/cache/memory.go:44-64 | one tick on the real cache is SetBudget of the wanted budget or nothing, and bytes fit the budget right after it moves |
| Watchdog.TickIsGentle | internal/cache/memory.go:31-34 | at most 25% down and 10% up per tick, down only under pressure, up only when clear |
| Watchdog.RunStaysBetween | internal/cache/memory.go:48-64 | on every run the budget stays between 64 MiB and the target |
| Watchdog.SmallTargetNeverMoves | internal/server/server.go:245 | a target not above 64 MiB is never moved |
| Watchdog.PressureShrinks | internal/cache/memory.go:50-55 | n pressure ticks bring the budget to at most max(64 MiB, start*(3/4)^n) |
| Watchdog.ClearGrows | internal/cache/memory.go:58-63 | n clear ticks reach the target or grow the budget by at least 9% each |
| Watchdog.ClearRecovers | internal/cache/memory.go:58-63 | after finitely many clear ticks the budget equals the target |
| Windows.WindowSlide | internal/imageproc/transform.go:250-254 | adding the entering and dropping the leaving clamped sample moves the window sum by one place |
| Windows.AverageIsByte | internal/imageproc/transform.go:248 | the average of a window always fits a byte, so the conversion does not truncate |
| Windows.AverageIsMean | internal/imageproc/transform.go:234-267 | the average at a place is the rounded-down mean of the 2r+1 samples around it in the line whose two end samples are repeated beyond the ends |
| Windows.AverageIsLocal | internal/imageproc/transform.go:234-267 | lines that agree inside the window have the same average there |
| Windows.EdgesRepeat | internal/imageproc/transform.go:259-267 | repeating an end sample once more changes no average |
| Windows.AverageInside | internal/imageproc/transform.go:234-253 | away from the ends the average is the plain mean of a slice of the line |
| Pixels.BlurAxis | internal/imageproc/transform.go:221-257 | in place, on either axis and for every size and radius, every byte becomes the rounded-down mean of the 2r+1 samples around its place in its channel of the original line, ends repeated; lines do not disturb each other |
| Pixels.BoxBlur | internal/imageproc/transform.go:210-219 | nothing for radius below 1, else two row-then-column passes of that filter |
| Transforms.Flip | internal/imageproc/transform.go:174-194 | the fresh image shows every pixel from its mirrored place, the source is untouched |
| Transforms.FlipTwice | internal/imageproc/transform.go:174-194 | mirroring twice is the identity |
| Transforms.BlurFlip | internal/imageproc/transform.go:174-257 | one blur pass commutes with every mirroring |
| Transforms.BoxBlurFlip | internal/imageproc/transform.go:174-257 | boxBlur after flip gives the same pixels as flip after boxBlur, for all flags and radii |
| Transforms.Grayscale | internal/imageproc/transform.go:198-204 | in place, colours become the luma of the original pixel, alpha and a trailing partial pixel are kept |
| Transforms.LumaMeans | internal/imageproc/transform.go:196-202 | the luma is the Rec. 601 weighting rounded down, between the darkest and brightest channel, and keeps grey |
| Transforms.HasAlpha | internal/imageproc/transform.go:308-316 | true iff some alpha byte is not 255 |
| Transforms.BlurKeepsAlpha | internal/imageproc/transform.go:221-257 | under a blur pass an opaque image stays exactly opaque, every translucent pixel stays translucent, and so does the image |
| Transforms.PipelineKeepsAlpha | internal/imageproc/transform.go:59-70 | flip, grayscale and blur in any combination never change the transparency verdict |
| Transforms.Transform | internal/imageproc/transform.go:59-70 | the buffer is the pipeline of the original one, and PNG is chosen iff the original was transparent |
| Resize.ScaleDimRange | internal/imageproc/transform.go:160-166 | a requested side never becomes zero for dpr from 1/2 on, and is at most 4096 |
| Resize.AskedMeans | internal/imageproc/transform.go:91-109 | a side given is asked for at its scaled, rounded size (at most 4096) in its own direction, a side not given stays absent, and with none given only sources beyond 2048 are capped, on their longer side |
| Resize.FitsBox | internal/imageproc/transform.go:141-156 | scale-down and contain results fit the requested box and meet a requested side exactly |
| Resize.ScaleDownNeverGrows | internal/imageproc/transform.go:151-156 | scale-down never exceeds the source, and leaves it untouched iff the box is no smaller |
| Resize.KeepsAspect | internal/imageproc/transform.go:154-156 | the cross-multiplied ratio error is at most (sw+sh)/2 when neither side is raised to 1 |
| Resize.DefaultCap | internal/imageproc/transform.go:88-112 | in every mode with no size asked, only larger sources are scaled, to exactly 2048 on the longest side |
| Resize.CoverCrop | internal/imageproc/transform.go:129-140 | the crop is inside the source, spans one whole side, is centred within a pixel, and its cut side is the largest not exceeding the target ratio (or 1) |
| Resize.FillBox | internal/imageproc/transform.go:118-128 | fill uses the whole source and the box; a derived side is the largest keeping the ratio (or 1) |
| CertGuard.KeepAfter | internal/certguard/certguard.go:133-138 | filtering into the slice that is being read keeps exactly the later times, in order |
| CertGuard.PruneTracks | internal/certguard/certguard.go:130-145 | pruning loses nothing later than its cutoff, for any apex |
| CertGuard.TrackedDecision | internal/certguard/certguard.go:76-95 | on any history that dropped nothing from the last 7 days, Check decides as on the complete one |
| CertGuard.PruningIsInvisible | internal/certguard/certguard.go:49-145 | over every life of checks, records and restarts with successful writes, a check answers as on the complete unpruned history while no clock reading that pruned was more than 24 hours ahead |
| CertGuard.Guard.Check | internal/certguard/certguard.go:76-95 | Check's answer is the complete history's, pruned and reloaded or not, while its clock is at most 24 hours behind the latest prune |
| CertGuard.Guard.Record | internal/certguard/certguard.go:99-104 | one issuance is appended to the history; a write that reaches the disk saves all of it |
| CertGuard.Guard.New | internal/certguard/certguard.go:52-71 | a restart keeps the history as far as any window can see; unreadable and malformed files are errors, a missing one is an empty history |
| CertGuard.Guard.Prune | internal/certguard/certguard.go:130-145 | every apex keeps exactly its times after the cutoff, empty ones disappear |
| CertGuard.Guard.CountSince | internal/certguard/certguard.go:106-114 | counts an apex's times strictly after the cutoff |
| CertGuard.Guard.CountAllSince | internal/certguard/certguard.go:116-122 | the total over all apexes, in whatever order the map is walked |
| CertGuard.SlackIsOneDay | internal/certguard/certguard.go:49 | for every larger step back of the clock, a guard that recorded one issuance answers differently after pruning than from its complete history |
| IssuanceRuns.EveryWindowBounded | internal/certguard/certguard.go:73-122 | with at most m orders of a scope in flight, every window of each configured budget, wherever it lies, holds at most limit-1+m issuances, at most the limit for m=1 |
| IssuanceRuns.StepWithinBudget | internal/server/server.go:203-229 | recorded plus in flight stays at most limit-1+m over every approve, record, fail and clock step |
| IssuanceRuns.ApprovedIff | internal/certguard/certguard.go:76-95 | Check approves iff each of the four configured budgets that counts the apex has room in its own window (24 h, 7 days, 1 h, 7 days) |
| IssuanceRuns.OrdersAddUp | internal/server/server.go:203-229 | over every run, the history is exactly the certificates that arrived, and every approved order is in flight, recorded or failed |
| IssuanceRuns.BoundIsReached | internal/server/server.go:203-229 | for each of the four budgets, every limit and every m, a run with at most m orders in flight records limit-1+m issuances in one window |
| GuardedRuns.StepRefines | internal/certguard/certguard.go:76-104 | while the clock does not run back, every approve, record and failure on the pruned, reloaded guard is the protocol's step on the full history |
| GuardedRuns.RunIsLife | internal/certguard/certguard.go:49-145 | over every run the guard's memory, file and history are those of its checks, records and restarts in order |
| GuardedRuns.GuardBoundsEveryWindow | internal/certguard/certguard.go:49-145 | with pruning, successful saves and restarts at any point and at most m orders in flight, every window of a configured budget holds at most limit-1+m issuances |
| Policy.ParseCacheControl | internal/cache/policy.go:196-218 | the loop over split, trimmed, lower-cased directives computes their combined effect |
| Text.SplitMeans | internal/cache/policy.go:198 | splitting at commas loses nothing and leaves no comma in a piece |
| Text.TrimMeans | internal/cache/policy.go:199 | trimming takes off exactly the blanks at both ends |
| Text.LowerLetters | internal/cache/policy.go:199 | lower-casing maps the alphabet letter by letter and keeps small letters |
| Text.AtoiReadsDecimals | internal/cache/policy.go:208-213 | every decimal text, signed or not, is read back inside the 64-bit range and refused outside |
| Text.AtoiRefuses | internal/cache/policy.go:208-213 | no text, a lone sign and anything with another character is no number |
| Text.ExtMeans | internal/cache/policy.go:172 | the extension is the end of the path from its last dot, with no slash after it, or nothing |
| Text.WrapIsCongruent | internal/cache/policy.go:145-147 | a 64-bit product is the number in range congruent to the exact one |
| Policy.AgeText | internal/cache/policy.go:207-214 | a directive with a decimal number states exactly that number, one without the prefix none |
| Policy.FlagsMeanPresence | internal/cache/policy.go:200-206 | no-store, no-cache and private are set iff the directive occurs anywhere |
| Policy.AgesAreLast | internal/cache/policy.go:207-214 | each age is the last valid number given for it, -1 without one |
| Policy.OrderIrrelevant | internal/cache/policy.go:196-218 | lists with the same directives, each age at most once, parse alike in any order |
| Policy.AdmittedIsAdmissible | internal/cache/policy.go:123-177 | an admitted response has a cacheable status, no Set-Cookie, no Vary star, no no-store or private, and 0 < TTL <= max(7 days, default TTL) |
| Policy.NoStoreAlwaysWins | internal/cache/policy.go:134-137 | no-store or private at any position prevents storage in every mode |
| Policy.CacheableMeans | internal/cache/policy.go:91-117 | a request may use the cache iff it is GET or HEAD, has no Authorization, no Range and no no-store directive, and cookies only in aggressive mode |
| Policy.CacheableStatuses | internal/cache/policy.go:73-87 | the statuses stored are the heuristically cacheable ones of section 15.1 of RFC 9110 except 206 and 308 |
| Policy.ModesAreOrdered | internal/cache/policy.go:91-177 | what standard mode admits, aggressive mode admits with the same TTL; off admits nothing |
| Policy.StatedAgeHonouredIff | internal/cache/policy.go:139-163 | in both caching modes s-maxage, else max-age, is honoured (capped at 7 days) iff its product with 10^9 fits 64 bits or wraps to at least 7 days, or the fallback of aggressive mode happens to be 7 days |
| Policy.HugeAges | internal/cache/policy.go:145-163 | in standard mode an age of 9223372037 s is refused, one of 18446744074 s gives 0.29 s, one of 18447348874 s is honoured at the cap |
| Policy.HugeMaxAgeExample | internal/cache/policy.go:146-147 | the one header Cache-Control: max-age=9223372037 states that age and is refused in standard mode |
| Policy.ExpiresHonoured | internal/cache/policy.go:149-157 | without ages and no-cache, an Expires date in the future is honoured up to 7 days |
| Recorder.Recorder.WriteHeader | internal/proxy/recorder.go:33-47 | the status is passed on; only the first header decides admission |
| Recorder.Recorder.Write | internal/proxy/recorder.go:49-62 | the bytes are passed on (after an implicit 200 when nothing was written yet); the buffer is the concatenation so far or abandoned |
| Recorder.Recorder.Finished | internal/proxy/recorder.go:74-88 | an object results iff the first header was admissible and everything written fits, with exactly that body |
| Recorder.ObjectIff | internal/proxy/recorder.go:33-88 | an object results iff the first header was admitted and every single write, with all bytes before it, stayed within the limit |
| Recorder.TeeIsTransparent | internal/proxy/recorder.go:10-13 | the bytes that reach the client are exactly those written, cached or not |
| Recorder.AbandonedForGood | internal/proxy/recorder.go:53-60 | once abandoned, no continuation is stored |
| Recorder.Recorder.Bounded | internal/proxy/recorder.go:54-58 | the buffer never exceeds the object limit |
| Recorder.OutcomeIsSound | internal/proxy/recorder.go:33-88 | every object is admissible and bounded, and its header is the first one without hop-by-hop fields and Set-Cookie |
| CacheKey.PreimageInjective | internal/cache/cache.go:128-138 | the NUL-separated text that is hashed determines host, method, URI and encoding |
| CacheKey.EncodingBuckets | internal/proxy/proxy.go:261-271 | the bucket is "br, gzip" iff the header mentions br in any spelling, "gzip" iff gzip only, empty otherwise |
| CacheKey.KeysBind | internal/proxy/proxy.go:117-118 | two requests whose texts do not collide share a key iff host, method, URI and encoding bucket agree |
| CacheKey.ImagesApart | internal/imgcdn/imgcdn.go:123 | no cacheable proxied request shares a key with an image rendition, unless those two texts collide |
| CacheKey.DigestExists | internal/cache/cache.go:128-138 | on every set of at most 2^256 texts some digest into 64 hexadecimal digits has no collisions |
| Proxy.AtMostOneRefresh | internal/proxy/proxy.go:159-205 | in every interleaving two refreshes of a key are never in flight together, and a key is in the refreshing set iff one is |
| Proxy.StaleIsRefreshed | internal/proxy/proxy.go:97-148 | in every interleaving the background refreshes are exactly the stale answers, in order, and every request that may use the cache is answered from it or fetched for its client, once |
| Proxy.ClaimDecides | internal/proxy/proxy.go:159-166 | a refresh claimed while its key is free is then in flight, one whose key is taken ends |
| Proxy.UpgradeMeans | internal/proxy/proxy.go:254-257 | the requests forwarded as upgrades are those for websocket in any spelling or with upgrade among the connection options |
| Proxy.NoObjectNoWrite | internal/proxy/proxy.go:155-205 | any number of interleaved fetches and refreshes, from claim to release, that yield no object leave the whole cache as it is |
| Proxy.HeldWasWritten | internal/proxy/proxy.go:144-204 | whatever the cache holds after a run was stored by one event of it, a fetch that yielded exactly that object or the image endpoint, and nothing written under its key since was accepted, whatever budgets the Sets had loaded |
| Proxy.RunSound | internal/proxy/proxy.go:97-205 | every step, down to single critical sections of the cache, keeps the invariant that all entries and answers are traced to a recorded exchange |
| Proxy.EverythingServed | internal/proxy/proxy.go:97-148 | as long as no two texts hashed in the run collide, everything ever served from the cache came from an admissible exchange over by then for the same host, method, URI and encoding, with its body and its header less the hop-by-hop fields, within limit, TTL and stale window |
| Proxy.EverythingHeld | internal/proxy/proxy.go:134-147 | the same for everything held under the key of a cacheable request |
| Proxy.DigestForRun | internal/cache/cache.go:128-138 | for every run of fewer than 2^256 events and every request some digest meets the hypothesis of those two theorems |
| ProxyServer.Server.ServeHttp | internal/proxy/proxy.go:97-148 | a request passes by iff it wants an upgrade or may not use the cache, and then changes nothing; a lookup's answer is served, a stale one starts one refresh job for it, a miss one fetch, and nothing else changes |
| ProxyServer.Server.TryClaim | internal/proxy/proxy.go:159-166 | the key is claimed iff it was free; the job then fetches, otherwise it ends |
| ProxyServer.Server.Complete | internal/proxy/proxy.go:144-147 | the cache gets exactly the object the recorder yields, or nothing, and the job moves on |
| ProxyServer.Server.SetBudget | internal/cache/memory.go:55-63 | a budget change of the watchdog on the shared cache is the protocol's |
| ProxyServer.Server.ImageGet | internal/imgcdn/imgcdn.go:123-124 | the image endpoint's lookup is the protocol's step and returns the cache's answer |
| ProxyServer.Server.ImageSet | internal/imgcdn/imgcdn.go:191 | the image endpoint's store is the protocol's step |
| ProxyServer.Server.Release | internal/proxy/proxy.go:188-192 | the key leaves the refreshing set, the job ends, the cache is untouched |

## Left out

- Cache.Shard: container/list is a sequence and entries are values; element pointers are not modelled (keys are unique in a shard, so equality of values is identity here).
- Cache.Cache.Get: hit, miss and eviction counters do not wrap at 64 bits.
- Interleave.EveryInterleaving: lock fairness, and so the end of a call that others disturb, is not stated; the hit, miss and eviction counters are not tracked under concurrency.
- Recency.LruInclusion: assumes one size per key, positive and within the smaller total budget; `LruLimits.NeedsOneSizePerKey` and `LruLimits.NeedsSizesThatFit` are traces on which it fails otherwise.
- Recency.HitStaysHit: assumes besides that no object goes past its stale window; `LruLimits.HitsNeedFreshness` is a trace on which it fails otherwise.
- Objects: sums of times and durations are mathematical integers, so a TTL plus stale window beyond 292 years is not modelled.
- CertGuard.Guard.Prune: the map holds sequences; the in-place loop runs on a backing array made from each one, so sharing of that array with a later append is not captured.
- CertGuard.Guard.Record: the JSON text, the temporary file and the rename are one write that reaches the disk whole or not at all.
- CertGuard.Guard.Check: the two clock readings are parameters; the lock around the whole call is the atomicity of the method.
- IssuanceRuns, GuardedRuns: the clock does not run backwards there; renewals are exempt in the source and not part of the model.
- Policy: header.Get sees only the first line of a repeated header, and so does the model; dates in Expires are a parameter; trimming and lower-casing are ASCII.
- Proxy: the origin, its errors and the request rewriting are arbitrary calls on the recorder.
- Proxy: a cached body is the concatenation of what was written, which need not be the complete origin body.
- ProxyServer: headers added on a hit, conditional 304 answers, WebSocket tunnelling and metrics.
- Resize: exact rationals instead of float64, non-NaN parameters; a derived side is not capped at 4096 in the source either.
- Transforms: decoding, encoding, CatmullRom scaling and compositing over white for JPEG.
- Pixels: image bounds start at (0,0) with stride 4*w, as all images of the pipeline do.
- AutoBudget, ParseMode, option parsing, Age and Stats.
- SHA-256 is an arbitrary function from texts to keys; the theorems that compare keys assume that it does not collide on the finitely many texts they are about.
- DNS, the domain registry and settings parser, ACME and certmagic, TLS, HTTP transport, the image fetcher, telemetry, web pages and configuration.
