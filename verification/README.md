# A verified model of the GooseFS client

A Dafny 4.11 model of the parts of the GooseFS Rust client in which something can go wrong without
anybody noticing: the metadata cache, the page cache's read loop, the block hash, the planning of
block reads and writes, the location probe, the retry policies, the configuration refresher and the
`gfs://` parser. `dafny verify dfyconfig.toml` checks everything.

| files | what they model |
|---|---|
| `Types.dfy` | options, errors, protobuf records, a little arithmetic |
| `Paths.dfy`, `GfsUri.dfy` | path normalization and parents; `gfs://` URIs |
| `CacheSpec.dfy`, `MetadataCache.dfy` | the metadata cache as a value, and as the object with its through-cache helpers |
| `LruRuns.dfy` | runs of cache operations: recency, eviction, statistics |
| `Transparency.dfy` | sequential runs of a client with the cache against the build without it |
| `Undisturbed.dfy` | the steps of the interleavings against the helpers |
| `Coherence.dfy`, `CoherenceWitnesses.dfy` | all interleavings of fetches, listings, mutations, invalidations and outside writers |
| `Rules.dfy`, `Ages.dfy`, `Quiet.dfy` | the same interleavings under rules for callers and writers: the age of statuses and listings, and when the cache agrees with the master |
| `Words.dfy`, `Murmur3.dfy`, `Murmur3Injective.dfy` | MurmurHash3 x64 128 |
| `BlockMapper.dfy`, `BlockIds.dfy` | read and write plans; block ids from block infos |
| `BlockLocations.dfy`, `Percentage.dfy` | the location probe; the cached percentage |
| `PageReader.dfy`, `PageRuns.dfy` | reading through the page cache: one call, all interleavings, costs |
| `Retry.dfy`, `Refresher.dfy` | retry policies; the double-checked configuration reload |

The constants of the hash are pinned by the source's own test vectors and by reference vectors of
the standard algorithm (`GoldenVectors`, `ReferenceVector`, `SeedVector`).

Time, the master's answers, the workers' answers, worker selection, the external page source and the
properties file are parameters, and theorems quantify over them. What the source updates in place is
a class, or a method with a loop, that is proved to compute a function; the theorems are about that
function. Concurrency is modelled by machines whose steps are the code between two points where other
threads can get in.

## What does not hold

Where a plausible promise is not kept by the code, there is a lemma with the case in which it fails
and, where one exists, the exact condition under which it holds.

- Normalization is not idempotent for a path such as `"/a /"`: trimming the slash uncovers white
  space (`NormalizeNotIdempotent`; `NormalizeIdempotent` for the condition).
- A cached status or listing can be stale although every mutation has invalidated and every call has
  returned: a fetch that read the master before a mutation may write after its invalidation
  (`QuietAndStale`, `QuietAndStaleListing`). `StaleOnlyByRace` and `ListingStaleOnlyByRace` name the
  only ways in which this can happen, and `CoherentExactly` says what avoids it: the cache agrees with
  the master once all invalidations have been done, if and only if the client never writes a path
  while an answer about it is on its way into the cache, and nobody else writes.
- A served status can be older than the time to live, by a whole further time to live and the duration
  of a listing fetch, because a listing restarts the clock of the whole item; it is younger unless a
  listing of the same path has been written since (`YoungUnlessRenewed`, `YoungExactly`,
  `BoundedStaleness`, `StalenessBoundIsReached`). The documentation speaks of expiry after write.
- A listing can be served at any age, in two ways. A `get_status` with `sync_interval_ms == 0` writes
  without looking whether the item has expired (`ListingRevived`). And an incomplete file is cached
  but never served, so that every `get_status` of it fetches and writes it again, and restarts the
  clock of the listing (`ListingKeptAlive`). The age is bounded if and only if neither happens
  (`ListingAgeBoundedExactly`).
- Invalidating a path and its parent does not reach the grandparent's listing, which shows the
  parent's entry (`GrandparentListingGoesStale`; `ListingHarmlessIsExact` for the condition), nor the
  files below a renamed directory (`RenameShowsBelow`; `StatusHarmlessIsExact` for the condition).
- The first word of the hash, which is all that the hash ring keeps, does collide
  (`FirstWordCollides`), although the digest does not (`PairDigestInjective`).
- A block without a usable id shifts the ids of all later blocks (`BlocksKeepIdsExactly`).
- A file of more than `i64::MAX / 100` bytes is never reported as fully cached (`FullExactly`).
- The documented ceiling of the backoff does not apply to the first sleep (`DocumentedExactly`), and
  the documented "one final attempt" after the deadline does not exist (`AttemptsExactly`). The counted
  policy never refuses if `max_retries` is `u32::MAX` and the counter wraps (`GrantedExactly`).
- With expiry interval zero a thread reloads although another one has done so since it looked at the
  clock (`OvertakenReload`, `ApartExactly`).

## Model

| member | source | states |
|---|---|---|
| `Paths.NormalizePath` | src/metadata_cache.rs:347-361 | a key starts with a slash and ends in none, unless it is the root; at most one character is added |
| `Paths.NormalizeExactly` | src/metadata_cache.rs:347-361 | of white space, a body, slashes and white space the key is the body with a slash in front, or the root if there is no body |
| `Paths.EveryPathIs` | src/metadata_cache.rs:347-361 | every path is of that form |
| `Paths.NormalizeIdempotent` | src/metadata_cache.rs:347-361 | normalizing twice is normalizing once if and only if cutting the trailing slashes uncovers no white space |
| `Paths.NormalizeNotIdempotent` | src/metadata_cache.rs:347-361 | the path `"/a /"` becomes `"/a "` and then `"/a"` |
| `Paths.NormalizeIdempotentWithoutSpaces` | src/metadata_cache.rs:347-361 | for paths without white space normalization is idempotent |
| `Paths.ParentShorter` | src/metadata_cache.rs:364-375 | exactly the root has no parent; a parent is strictly shorter than its child, before and after normalization |
| `Paths.ParentExactly` | src/metadata_cache.rs:364-375 | the parent of `dir/name` is `dir`, or the root if that is empty |
| `Paths.AncestorsReachRoot` | src/metadata_cache.rs:364-375 | following parents shortens the path at every step and ends at the root, for every path |
| `CacheSpec.LookupKeeps` | src/metadata_cache.rs:307-320 | a lookup keeps the LRU valid, changes no item, and loses exactly the looked-up item and only if it has expired |
| `CacheSpec.PutItemKeeps` | src/metadata_cache.rs:286-304 | a write stores the item, keeps the LRU valid, and loses no other item but the least recently used one |
| `CacheSpec.StatusRoundTrip` | src/metadata_cache.rs:286-304 | a status just written is found until the time to live is over, and never after, together with the listing that was there |
| `CacheSpec.InvalidateAllKeeps` | src/metadata_cache.rs:218-235 | invalidating loses exactly the given keys |
| `MetadataCache.MetadataCache.constructor` | src/metadata_cache.rs:90-107 | a new cache is empty and valid, with capacity at least one |
| `MetadataCache.MaybeNew` | src/metadata_cache.rs:90-107 | there is a cache exactly if the time to live is not zero |
| `MetadataCache.MetadataCache.RetainFresh` | src/metadata_cache.rs:307-320 | refines the value-level operation: an expired item is dropped and counted |
| `MetadataCache.MetadataCache.LookupStatus` | src/metadata_cache.rs:115-150 | refines the value-level lookup under the normalized key, promotion and statistics included |
| `MetadataCache.MetadataCache.GetListing` | src/metadata_cache.rs:156-177 | refines the value-level lookup of a listing |
| `MetadataCache.MetadataCache.InsertStatus` | src/metadata_cache.rs:286-304 | refines the value-level write: the listing stays, the clock of the item restarts |
| `MetadataCache.MetadataCache.InsertListing` | src/metadata_cache.rs:197-215 | refines the value-level write: the status stays, the clock of the item restarts |
| `MetadataCache.MetadataCache.Invalidate` | src/metadata_cache.rs:218-227 | drops the key, and counts it if it was there |
| `MetadataCache.MetadataCache.InvalidateWithParent` | src/metadata_cache.rs:230-235 | drops the parent and the key |
| `MetadataCache.InvalidateOnSuccess` | src/metadata_cache.rs:398-408 | the result is passed on; the path and its parent are dropped exactly after a success |
| `MetadataCache.InvalidateRenameOnSuccess` | src/metadata_cache.rs:412-424 | the same for both paths of a rename and both parents |
| `MetadataCache.GetStatusThroughCache` | src/metadata_cache.rs:432-473 | refines the value-level protocol; the master is asked exactly if lookups are off or the cache has no servable answer; without a cache its answer is passed through |
| `MetadataCache.ListStatusThroughCache` | src/metadata_cache.rs:479-504 | the same for listings |
| `ThroughCache.GetStatusKeeps` | src/metadata_cache.rs:432-473 | besides writing the master's answer as the status of its key, a `get_status` only loses things |
| `ThroughCache.GetStatusExactly` | src/metadata_cache.rs:432-473 | by the fields of the cache: the master answers if and only if `sync_interval_ms` is 0 or there is no unexpired status that is complete or negative; its answer is then cached with the new time, negative for not-found, not at all for other errors; otherwise the cached status is the answer and no item changes |
| `ThroughCache.ListStatusExactly` | src/metadata_cache.rs:479-504 | the same for listings; with `skip` the cache is neither read nor written |
| `ThroughCache.InvalidationKeysExactly` | src/metadata_cache.rs:230-235 | dropped are exactly the keys of the path and of its parent |
| `ThroughCache.ListStatusKeeps` | src/metadata_cache.rs:479-504 | besides writing the master's answer as the listing of its key, a `list_status` only loses things |
| `LruRuns.RunInvariant` | src/metadata_cache.rs:90-177 | in every run keys are distinct, the size is at most max(1, capacity), the order is by last touch, hits and misses add up to the lookups, negative hits are hits, expirations are misses |
| `LruRuns.CountsExactly` | src/metadata_cache.rs:115-177 | each counter changes exactly for what it counts, by the fields of the item: hits, misses, negative hits, expirations, invalidations |
| `LruRuns.EvictedOnlyIfLeastRecent` | src/metadata_cache.rs:286-304 | in every run a key is thrown out only after at least capacity distinct other keys were touched since its own last touch |
| `Transparency.StatusTransparent` | src/metadata_cache_disabled.rs:98-108 | in every sequential run whose mutations are contained in what they invalidate, all statuses and error kinds are those of the build without cache, even if outsiders change incomplete files and listings |
| `Transparency.ListingTransparent` | src/metadata_cache_disabled.rs:111-122 | the same for listings |
| `Transparency.ForcedCallsArePlain` | src/metadata_cache.rs:442-463 | in every run, from every cache, with any changes by anybody, a `get_status` with `sync_interval_ms == 0` gets exactly the master's answer and leaves it in the cache, and a `list_status` that skips the cache gets exactly the master's answer |
| `Transparency.LocalIsHarmless` | src/metadata_cache.rs:398-408 | a mutation that changes the master at its path and its parent at most is contained, for statuses and listings |
| `Transparency.LocalRenameIsHarmless` | src/metadata_cache.rs:412-424 | the same for a rename with both paths and both parents |
| `Transparency.LocalRunsAreTransparent` | src/metadata_cache.rs:398-504 | in every run of calls and such mutations every reply is that of the build without cache |
| `Transparency.StatusHarmlessIsExact` | src/metadata_cache.rs:398-408 | a mutation goes unnoticed by all callers that ask before and after it if and only if the statuses it changes are among the invalidated keys, or were not servable |
| `Transparency.OutsideChangeExactly` | src/metadata_cache.rs:432-473 | a change by an outsider goes unnoticed if and only if it leaves every servable status alone |
| `Transparency.RenameShowsBelow` | src/metadata_cache.rs:412-424 | a rename that takes away a completed file which is neither of the two paths nor a parent is noticed |
| `Transparency.ListingHarmlessIsExact` | src/metadata_cache.rs:398-408 | the same for listings |
| `Transparency.GrandparentListingGoesStale` | src/metadata_cache.rs:230-235 | a mutation that changes the grandparent's listing is noticed: that key is not invalidated |
| `Transparency.RootListingGoesStale` | src/metadata_cache.rs:230-235 | a mutation of `"/a/b"` that changes the listing of the root is noticed |
| `Coherence.RunKeepsInv` | src/metadata_cache.rs:398-504 | every step of every interleaving keeps history, origins, drops and ages consistent |
| `Undisturbed.GetAlone` | src/metadata_cache.rs:432-473 | the steps of an undisturbed `get_status` do to the cache what the helper does, and give its answer |
| `Undisturbed.ListAlone` | src/metadata_cache.rs:479-504 | the same for `list_status` |
| `Undisturbed.MutateAlone` | src/metadata_cache.rs:398-408 | the steps of an undisturbed mutation drop what the helper drops |
| `Coherence.StaleOnlyByRace` | src/metadata_cache.rs:398-473 | in every interleaving a cached status differs from the master's only if the master's status of that very key was changed after it was read, and that by an outsider, or by a mutation that has not invalidated it yet, or by one whose invalidation came before the fetch wrote the slot |
| `Coherence.BoundedStaleness` | src/metadata_cache.rs:286-320 | in every interleaving a served status was written less than 2 ttl + D ago, for listing fetches of at most D, and was the master's at most a status fetch before that |
| `CoherenceWitnesses.StalenessBoundIsReached` | src/metadata_cache.rs:197-215 | that bound is reached, for all times to live and all durations of fetches |
| `CoherenceWitnesses.QuietAndStale` | src/metadata_cache.rs:432-473 | a run at whose end nothing is under way, nobody but the client has written, and the cache serves a stale status |
| `CoherenceWitnesses.OvertakenByOutsider` | src/metadata_cache.rs:432-473 | the same with an outsider and no invalidation |
| `CoherenceWitnesses.QuietAndStaleListing` | src/metadata_cache.rs:479-504 | both for a listing |
| `ListingCoherence.ListingStaleOnlyByRace` | src/metadata_cache.rs:398-504 | in every interleaving a cached listing differs from the master's only if the master's listing of that very key was changed after it was read, by an outsider, by a mutation that has not invalidated it yet, or by one whose invalidation came before the fetch wrote the listing |
| `Quiet.CarefulRunAgrees` | src/metadata_cache.rs:398-504 | in every interleaving in which the client never writes a key while an answer about it is on its way into the cache, and nobody else writes, what is served is what the master holds, once all invalidations of the key have been done |
| `Quiet.CoherentExactly` | src/metadata_cache.rs:398-504 | agreement in all runs that keep a rule holds if and only if the rule forbids both such overlaps and outside writers, for statuses and for listings |
| `Ages.YoungUnlessRenewed` | src/metadata_cache.rs:286-304 | in every interleaving a served status was written less than the time to live ago, or a listing of the same key has been written since, less than the time to live ago; the same with status and listing exchanged |
| `AgeWitnesses.YoungExactly` | src/metadata_cache.rs:197-215 | all served statuses of a key are younger than the time to live if and only if no listing of it is ever cached (or ttl = 1 and D = 0) |
| `Ages.BoundedListingAge` | src/metadata_cache.rs:197-215 | in every interleaving in which each `get_status` of a key looks into the cache and each answer about it can be served, a served listing was written less than 2 ttl + S ago, for status fetches of at most S from lookup to time stamp |
| `AgeWitnesses.ListingBoundIsReached` | src/metadata_cache.rs:286-304 | that bound is reached, for all times to live and all durations of fetches |
| `AgeWitnesses.ListingRevived` | src/metadata_cache.rs:432-473 | if some `get_status` does not look, a listing written at time 0 is served after any time n |
| `AgeWitnesses.ListingKeptAlive` | src/metadata_cache.rs:442-463 | if the file is incomplete, n calls that all look keep a listing written at time 0 alive until n (ttl - 1 + S) |
| `AgeWitnesses.ListingAgeBoundedExactly` | src/metadata_cache.rs:432-473 | there is a bound on the age of served listings if and only if all calls look and all answers can be served (or ttl = 1 and S = 0) |
| `Murmur3.TailFirst` | src/block/murmur3.rs:94-116 | the unrolled bytes 0 to 7 of the tail are the first little-endian word of the tail padded with zeros |
| `Murmur3.TailSecond` | src/block/murmur3.rs:69-88 | the unrolled bytes 8 to 14 are the second word |
| `Murmur3.AbsorbTail` | src/block/murmur3.rs:63-121 | for every length 0 to 15 the tail switch mixes in the padded tail |
| `Murmur3.FmixInPlace` | src/block/murmur3.rs:150-157 | computes the finalizer's bit mixer |
| `Murmur3.Murmurhash3` | src/block/murmur3.rs:31-133 | the unrolled hash computes the pad-and-mix definition, for every input and seed |
| `Murmur3.BlockUndone` | src/block/murmur3.rs:41-61 | each block step is a bijection of the state: it has an inverse |
| `Murmur3.BlockRecovered` | src/block/murmur3.rs:41-61 | the block can be recovered from the states before and after |
| `Murmur3.AbsorbUndone` | src/block/murmur3.rs:63-121 | the tail step can be undone, and the tail recovered |
| `Murmur3.FmixUndone` | src/block/murmur3.rs:150-157 | the bit mixer has an inverse |
| `Murmur3.FinalizeUndone` | src/block/murmur3.rs:123-132 | the finalizer has an inverse |
| `Murmur3Injective.OneBlockDiffers` | src/block/murmur3.rs:31-133 | two inputs of the same length that differ in one block only, or in the tail only, have different digests, for every seed |
| `Murmur3Injective.RingKey` | src/block/murmur3.rs:136-142 | the ring key is the first word of the digest of the twelve bytes of key and index |
| `Murmur3Injective.PairDigestInjective` | src/block/murmur3.rs:136-142 | two pairs of key and index have the same digest if and only if they are the same |
| `Murmur3Injective.FirstWordCollides` | src/block/murmur3.rs:136-142 | there are two pairs with the same ring key |
| `BlockMapper.PlanRead` | src/block/mapper.rs:58-96 | computes the pieces of the clamped range, with the ids of their blocks |
| `BlockMapper.PlanWrite` | src/block/mapper.rs:103-128 | computes the pieces of the range, none for block size zero |
| `BlockMapper.SegmentsExactly` | src/block/mapper.rs:76-96 | each piece starts where the one before it ends, has the quotient and the remainder of that position by the block size, and ends with the block or the range |
| `BlockMapper.ReadPlanExactly` | src/block/mapper.rs:59-70 | by the fields of the file and their defaults, a read plan covers exactly the part of the range that is in the file |
| `BlockMapper.PlannedWrite` | src/block/mapper.rs:103-128 | writing data through the plan stores exactly the overwritten content, for every offset, length and positive block size, whatever was stored before, gaps included |
| `BlockMapper.PlannedRead` | src/block/mapper.rs:58-96 | reading through the plan gives exactly the bytes of the range |
| `BlockMapper.WriteThenRead` | src/block/mapper.rs:58-128 | a planned read of any range without gaps after a planned write anywhere gives the new content, cut off at the end of the file |
| `BlockMapper.ReadBack` | src/block/mapper.rs:58-128 | data written anywhere into any blocks is read back, in whole or in part |
| `BlockIds.EnsureBlockIds` | src/block/locations.rs:61-80 | ids that are there stay; otherwise they are taken from the infos |
| `BlockIds.SortKeeps` | src/block/locations.rs:61-80 | the sort gives a sorted permutation |
| `BlockIds.SortStable` | src/block/locations.rs:61-80 | and it is stable |
| `BlockIds.IdsOfLayout` | src/block/locations.rs:61-80 | infos of all blocks, in any order, with the offset and id of their block in their fields, give the usable ids in block order |
| `BlockIds.MissingFields` | src/block/locations.rs:66-76 | an info without a positive id might as well not be there, and one without an offset counts as one at offset 0 |
| `BlockIds.AlignedExactly` | src/block/locations.rs:61-80 | leaving out the unusable ids keeps every id with its block if and only if they come last |
| `BlockIds.BlocksKeepIdsExactly` | src/block/locations.rs:61-80 | the same infos keep every id with its block if and only if unusable ids come last |
| `BlockIds.EveryByteGetsItsBlock` | src/block/mapper.rs:76-96 | the same infos with usable ids: the ids are those of the blocks in order, and a planned read gives each byte the id of the block that contains it |
| `BlockLocations.PlanTasks` | src/block/locations.rs:190-222 | each endpoint is asked about exactly the blocks that the router picked it for, and stands for a worker that was picked for one of them; nobody else is asked; whatever the order of the maps |
| `BlockLocations.EndpointsDiffer` | src/block/router.rs:1753-1762 | two addresses are the same endpoint if and only if host and port are the same, with the source's defaults |
| `BlockLocations.MergeReply` | src/block/locations.rs:273-294 | a reply adds the worker's location to exactly the blocks that it reports with positive bytes |
| `BlockLocations.MergeReplies` | src/block/locations.rs:262-301 | whatever the order of the replies, up to order a block's locations are those of the successful workers that report it, each once; probed are exactly the blocks that a successful worker was asked about |
| `BlockLocations.ApplyProbed` | src/block/locations.rs:150-164 | the locations of probed blocks are replaced, all others stay, the percentage is recomputed |
| `BlockLocations.Enrich` | src/block/locations.rs:118-144 | the composition: a block for which a picked worker answered has exactly the locations of the picked workers reporting it, one for each endpoint; every other block keeps the master's; with probing off or no block to probe only the ids are filled in |
| `BlockLocations.ChosenIsUnique` | src/block/locations.rs:207-222 | those workers are determined by the router if no two workers share an endpoint |
| `Percentage.Recompute` | src/block/locations.rs:309-331 | computes the percentage of the file in located blocks, with the source's saturation and cut-off |
| `Percentage.PercentInRange` | src/block/locations.rs:309-331 | it is between 0 and 100, and more located bytes never lower it |
| `Percentage.PercentExactly` | src/block/locations.rs:329-330 | where nothing saturates it is the exact percentage, rounded down, and at most 100 |
| `Percentage.LocatedIsCovered` | src/block/locations.rs:317-327 | what is counted is the lengths of the blocks whose locations are not empty |
| `Percentage.NothingLocated` | src/block/locations.rs:309-331 | a file none of whose blocks has a location gets 0 |
| `Percentage.FirstLocationCounts` | src/block/locations.rs:317-327 | giving a block its first location adds exactly its length to what is counted, and taking it away takes exactly that away |
| `Percentage.FullExactly` | src/block/locations.rs:309-331 | a file's percentage is 100 if and only if it is empty, or the lengths of the blocks whose locations are not empty cover it and it is at most i64::MAX / 100 long |
| `Percentage.AddingLocationNeverLowers` | src/block/locations.rs:309-331 | adding a location to a block never lowers a file's percentage |
| `PageReader.PlanPages` | src/cache/caching_reader.rs:79-99 | the pages tile the range from left to right, without gap or overlap, each page once |
| `PageReader.PageBounds` | src/cache/caching_reader.rs:85-88 | page i of the plan is `[i * page_size, (i + 1) * page_size)`, cut off at the end of the file |
| `PageReader.ServePages` | src/cache/caching_reader.rs:117-198 | the loop computes the specification; its guards against empty pages and empty chunks never fire |
| `PageReader.ReadThroughCache` | src/cache/caching_reader.rs:69-198 | the plan, one batch of lookups, an answer of the wrong size taken as misses, and the loop |
| `PageReader.ServeIsRight` | src/cache/caching_reader.rs:117-198 | whatever cache and source answer, short of wrong bytes: success gives exactly the range, and only whole right pages are handed to the cache, also when the read fails later |
| `PageReader.FillBounds` | src/cache/caching_reader.rs:158-165 | a page handed to the cache is those bytes of the file |
| `PageReader.OutcomeIsRight` | src/cache/caching_reader.rs:69-198 | the same for the whole call, from any cache that is right about the pages of the range |
| `PageReader.FailsOnlyBySource` | src/cache/caching_reader.rs:126-156 | a read fails if and only if the source fails or falls short for a page that the cache did not answer |
| `PageReader.FailsWith` | src/cache/caching_reader.rs:126-148 | a failed read reports the error, or the shortfall, of the first page that neither cache nor source gave |
| `PageReader.ServeFetches` | src/cache/caching_reader.rs:126-175 | a filling read asks the source for exactly the pages that were not answered, in order up to a failure, and hands on all of them but the one that failed |
| `PageReader.FillModes` | src/cache/caching_reader.rs:155-167 | without filling nothing is handed to the cache; with filling it does not matter how; bytes, fetches and errors do not depend on the mode |
| `PageReader.MissedOnce` | src/cache/caching_reader.rs:84-124 | no page is asked for twice in a read |
| `PageFiles.CallIsRight` | src/cache/caching_reader.rs:69-198 | a read with right answers succeeds with exactly its range or fails, and hands out right pages |
| `PageInterleavings.RunKeepsInv` | src/cache/caching_reader.rs:69-198 | in every interleaving of page lookups, reads, arriving and lost fills and evictions all cached and pending pages are the file's, and all answers so far right |
| `PageInterleavings.EveryReadIsRight` | src/cache/caching_reader.rs:69-198 | in every such interleaving, with pages looked up one by one, any fill modes and malformed batches, every successful read returns exactly the bytes of its range |
| `PageInterleavings.NoFillNothingCached` | src/cache/caching_reader.rs:155-167 | in every interleaving of reads that do not fill, nothing is ever pending or cached |
| `PageCosts.GotOncePerEviction` | src/cache/caching_reader.rs:114-175 | conservation: a page was fetched once for every time it was evicted, and once more if it is cached |
| `PageCosts.FetchedAtMostOnce` | src/cache/caching_reader.rs:114-175 | without evictions no page is fetched twice, and so no more bytes of a file are fetched than it has |
| `PageCosts.AskedIsGot` | src/cache/caching_reader.rs:114-175 | a read that succeeds asks the source for no page but those it gets |
| `Backoff.BackoffDoubles` | src/retry.rs:117-130 | doubling with saturation and ceiling is one step of the closed form |
| `CountedRetry.ExponentialBackoffRetry.constructor` | src/retry.rs:164-171 | a new policy has made no attempt |
| `CountedRetry.ExponentialBackoffRetry.ShouldRetry` | src/retry.rs:174-199 | refines the value-level step |
| `CountedRetry.StateAfter` | src/retry.rs:174-199 | after n calls there were min(n, max_retries + 1) attempts, and the backoff is that of the closed form |
| `CountedRetry.EachAttemptDoubles` | src/retry.rs:174-196 | the first attempt leaves the backoff alone, and every further one doubles it, up to the ceiling |
| `CountedRetry.DocumentedExactly` | src/retry.rs:144-149 | the policy's backoff after attempt n is min(base 2^(n-1), max) if and only if n is at least 2 or the base is below the ceiling |
| `CountedRetry.GrantedExactly` | src/retry.rs:174-199 | a call is granted if and only if it is among the first max_retries + 1, or max_retries is u32::MAX |
| `TimedRetry.ExponentialTimeBoundedRetry.constructor` | src/retry.rs:80-88 | a new policy has made no attempt |
| `TimedRetry.ExponentialTimeBoundedRetry.ShouldRetry` | src/retry.rs:102-130 | refines the value-level step |
| `TimedRetry.EachAttemptDoubles` | src/retry.rs:102-129 | an attempt is granted if and only if it is the first one or in time; the first leaves the backoff alone, every further one doubles it, up to the ceiling |
| `TimedRetry.AttemptsBounded` | src/retry.rs:102-138 | a caller that waits as told makes at most n attempts if n backoffs use up the time |
| `TimedRetry.PromptCaller` | src/retry.rs:102-138 | a caller that waits exactly as told makes n attempts while n - 1 backoffs do not use up the time |
| `TimedRetry.AttemptsExactly` | src/retry.rs:102-138 | n attempts are possible if and only if the first n - 1 backoffs together are less than the time |
| `TimedRetry.AttemptsBoundedByCeil` | src/retry.rs:102-138 | with positive sleeps there are at most max(1, ceil(time / min(base, max_sleep))) attempts |
| `Refresher.ConfigRefresher.constructor` | src/config.rs:3880-3893 | the flags are seeded and the stamp is set |
| `Refresher.ConfigRefresher.ReloadProperties` | src/config.rs:3979-3998 | flags change exactly if the file could be loaded |
| `Refresher.ConfigRefresher.LoadIfExpire` | src/config.rs:3954-3976 | one thread: the stamp moves, and the flags are reloaded, exactly if the interval has passed since the last stamp, or there is none |
| `Refresher.AloneIsSequential` | src/config.rs:3954-3976 | a thread that nobody disturbs changes stamp and log as the sequential method does |
| `Refresher.OneReloadAtATime` | src/config.rs:3964-3975 | in every interleaving at most one thread is reloading |
| `Refresher.ReloadsApart` | src/config.rs:3954-3976 | in every interleaving a thread that reloads k reloads later looked at the clock at least k intervals after the earlier stamp |
| `Refresher.FreshOnReturn` | src/config.rs:3954-3976 | in every interleaving a thread returns with a configuration stamped less than the interval before it looked at the clock, so that nobody returns without a reload once the interval has passed |
| `Refresher.OvertakenReload` | src/config.rs:3954-3976 | a run with interval zero in which a thread reloads although another one has since it looked at the clock |
| `Refresher.ApartExactly` | src/config.rs:3954-3976 | all interleavings keep neighbouring reloads apart if and only if the interval is positive |
| `GfsUri.ParseIsCanonical` | src/config.rs:94-126 | a parse gives at least one address, all trimmed, without commas and slashes, and a root that starts with a slash and ends in none, or is empty |
| `GfsUri.RoundTripExactly` | src/config.rs:94-126 | printing and parsing is the identity exactly on such values |
| `GfsUri.ParsePrintParse` | src/config.rs:94-126 | printing the result of a parse and parsing again gives the same result |
| `GfsUri.RefusedExactly` | src/config.rs:94-120 | refused are exactly the URIs without the scheme, and those whose authority is nothing but commas and white space |
| `GfsUri.ParseExactly` | src/config.rs:94-126 | addresses with white space around them and blank parts in between, a root, and any slashes at the end parse to the addresses and the root |

## Left out

- Connections, authentication, background tasks, metrics and logging: they only carry what is modelled here.
- Most of the configuration (property and environment overlays, builders, validation): long, but each part is easy.
- The page cache's manager, worker selection and the file streams: the page cache is any cache that may lose pages but does not alter them, selection is any function.
- The page cache with a page size that changes, and files that change while pages of them are cached.
- Recursive deletes, recursive mkdirs and renames of directories: they change more keys than they invalidate, so they are not contained in the sense of `Transparency.StatusHarmless`.
- `should_skip_listing_cache`, `clear` and `fill_in_goosefs_percentage_without_probe`: single branches.
- The two flags of the refresher as a pair: they are stored and loaded one by one, and nothing is claimed about reading both.
- Floating point: the jitter of a backoff is any delay beyond it.
- The order of entries in hash maps and sets, which is arbitrary here, and overflow of the 64-bit statistics counters.
- The LRU library: it is a sequence of keys ordered by recency and a map.
- Paths.NormalizePath: works on characters, as the source does, not on bytes.
- BlockIds.EnsureBlockIds: takes and returns a file info where the source updates one in place, and sorts by insertion where the source calls a stable library sort; the result is the same. The same holds for BlockLocations.ApplyProbed and Percentage.Recompute.
- BlockMapper.PlanWrite: for ranges that end below 2^64, beyond which the source's sum overflows.
- Percentage.Recompute: for located blocks of at most i64::MAX bytes together, beyond which the source's sum overflows. The same holds for BlockLocations.ApplyProbed and, with all blocks, for BlockLocations.Enrich.
- PageReader.PlanPages: for ranges whose last page, not cut off at the end of the file, ends within i64; otherwise the source's cast of its end is negative. The same holds for PageReader.ReadThroughCache.
- PageCosts.FetchedAtMostOnce: for reads one after the other; two reads at the same time can both miss a page and fetch it.
- TimedRetry.AttemptsBounded: for up to u32::MAX attempts, after which the source's counter wraps and the next call is granted as if it were the first.
