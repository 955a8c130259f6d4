# Verification of Sidekick's cache

Sidekick is an HTTP response cache for Caddy: a request is classified, given a cache key, looked
up in a two-tier store, and on a miss the upstream's response is captured while it streams to the
client. This project models that path in Dafny and proves what it promises over every input and
every run. It covers four parts, and one system that joins them.

- **Capture.** `ResponseWriter` holds a body back, spills it to a temporary file, gives up midway
  or serves a window of it (`Capture.dfy`, `Content.dfy`, `Miss.dfy`, with `Client.dfy`, `Upstream.dfy`, `ResponseRules.dfy`,
  `Headers.dfy`, `Downstream.dfy`, `FreshnessLaws.dfy`).
- **In-flight fills.** Leaders, joiners and followers share one record per key; every interleaving
  of their steps is a run (`Fill.dfy`, `FillLaws.dfy`).
- **Store.** An LRU index inside a disk cache with its own counters and batched eviction, under a
  tiered Get/GetReader/Set/Purge (`Lru.dfy`, `MemoryCache.dfy`, `DiskCache.dfy`, `CacheLaws.dfy`,
  `Metadata.dfy`, `Compression.dfy`, `Storage.dfy`, `StorageLaws.dfy`, `Purge.dfy`).
- **Keys.** Go's and PHP's query parsers, the canonical encoding and the length-prefixed key
  (`GoQuery.dfy`, `PhpQuery.dfy`, `QueryKey.dfy`, `QueryLaws.dfy`, `CacheKey.dfy`, `KeyLaws.dfy`, `Bypass.dfy`).
- **Runs.** `Runs.dfy` interleaves lookups, fills, stores and purges; `Sidekick.dfy` fills in the
  rules of a configuration and states the main theorems. `Serving.dfy` and `Conditional.dfy` answer hits.

Objects that the source updates in place are classes whose methods are proved against functions on
their contents; the laws are lemmas about those functions.

Run `dafny verify dfyconfig.toml` to check everything.

## Findings

Places where the code does less than its documentation or comments say. Each is proved: the exact condition, and
an input or a run at which it fails.

- "A partial response is never stored" (README.md:568) holds exactly when range fills are on or neither 206 nor an
  interim status is cacheable (`Sidekick.NoPartialExactlyWhen`). With range fills off and 206 cacheable, for
  instance through the wildcard "2", a conforming multipart 206 has no Content-Range and is stored as the
  entry of the whole object (`Sidekick.PartialIsStored`).
- The stored metadata is read when the writer is closed, after `http.ServeContent` may have edited the fields. What
  is stored names the upstream's content coding exactly unless a range fill was answered with a 304 or an error that
  dropped it (`Sidekick.StoredCodingExactlyWhen`); `Sidekick.CodingIsLost` is the run in which an unsatisfiable
  range makes gzip bytes an entry without a coding.
- The same goes for the Content-Type: it is the upstream's own exactly unless a range fill was answered with several
  parts, a 304 or an error (`Misses.TypeKeptExactlyWhen`, `Misses.TypeIsLost`).
- That the upstream handler ended in an error makes no difference: what it wrote until then is stored exactly when a
  response that did not fail would be (`Sidekick.FailedIsStoredExactlyWhen`). `Sidekick.PartialBodyIsStored` is the
  response of one byte out of a promised two.
- A purge pattern's `*` does not match every run of characters: the compiled `.*` stops at a newline, which a
  decoded path may contain. `Purging.MatchesPathMeans` gives the exact meaning, `Purging.NewlineEscapesStar`
  a path that escapes.
- Concurrent range requests for a key collapse onto one upstream fetch exactly if no ordinary request for that key is
  allowed (`FillLaws.CollapsingExactlyWhen`). One that joins a range fill and ends first releases the
  shared record (`FillLaws.JoinerEndsCollapsing`).
- A key tells a header and a cookie apart exactly when no configured header other than Host has a name that a
  cookie pattern stands for (`KeyLaws.KeysSeparateExactlyWhen`, for configurations without duplicates;
  `KeyLaws.HeaderLooksLikeCookie` is the pair of requests).
- A body just stored is not always the one read next: `StorageLaws.SetThenGet` gives the exact condition and
  what is read instead, `StorageLaws.OldBodyShadowsNew` an old memory entry that hides a new one on disk.
- A 200 from the cache reaches the client decodable exactly when the entry was stored without a content coding or in
  one that Accept-Encoding names (`Serving.OkConveysExactlyWhen`); otherwise the bytes go out unannounced
  (`Serving.EncodedGoesOutUnannounced`).
- Putting a resident key again makes room on disk all the same, and another entry leaves a full cache for it
  (`CacheLaws.DiskPutKeepsExactly` says exactly who stays, `CacheLaws.OverwriteEvictsAnother` is the case).
- The writer of a bypass says that it advertises an unkeyed query's response only if it would have been stored
  (response_writer.go:80-82). That holds exactly when the declared length is within the limit, which it does not
  look at (`Bypass.AdvertisedIsStorableExactlyWhen`, `Bypass.TooLargeIsAdvertised`).
- Only the first Cache-Control line of a response is read: one that says private in a second line may be
  stored (`ResponseRules.FirstLineDecides`, `ResponseRules.SecondLineIsMissed`).
- Weights in Accept-Encoding are not read. Negotiation heeds every refusal exactly when no compressor in its reach is
  refused where it is first named (`Serving.RefusalsHeededExactlyWhen`); "br;q=0" is answered with br
  (`Serving.RefusedCodingIsSent`).
- An interim line such as 103 runs the whole decision of WriteHeader and gives up a range fill
  (`Capture.ResponseWriter.WriteHeader`). If the handler leaves the fields as the line's label left them, the response is
  stored exactly when the interim line itself may be, whatever the final one is, or when the final one may be, the key does
  not vary by cookie and the legacy mode is off (`Misses.InterimDecides`); a 103 costs a cookie-varied 200
  its place in the store (`Misses.InterimKeepsFromStoring`).

## Model

| member | source | states |
|---|---|---|
| Sidekick.HitServesEarlierResponse | sidekick.go:1349-1592 | every hit in every run serves a body the upstream wrote for an earlier, unbypassed, not read-only request that agrees on host, path, keyed variables, headers and cookies, not purged since and not expired: all of it in a whole reply of any status, ranges of it in a 206 to a Range, or a 304 to a client whose validators match; and, but for a 304, under every field of the upstream's that was retained, unless Sidekick decides it or one of the two replies of ServeContent may change it |
| Sidekick.RepetitionHits | sidekick.go:1368-1540 | a run in which the repetition of a request is a hit |
| Sidekick.StoredWasAllowed | response_writer.go:188-346 | whatever a tier holds in any state was written for an admitted request, in a response of which some line has a cacheable status, no denied field, no private or no-store first Cache-Control and no declared length over the limit, within the size limit |
| Sidekick.SameKeySameDimensions | sidekick.go:2265-2328 | two admitted requests share a key if and only if they agree on host, path, every keyed variable's values, every configured header and, off static assets, what each cookie pattern takes of the request's cookies |
| Sidekick.NoPartialExactlyWhen | README.md:561-585 | no reachable store holds a 206 if and only if range fills are on or neither 206 nor an interim status is cacheable |
| Sidekick.PartialIsStored | response_writer.go:268-330 | the run in which a multipart 206 is stored |
| Sidekick.StoredCodingExactlyWhen | response_writer.go:205-259 | a stored entry names the upstream's coding exactly unless an answer of ServeContent dropped it |
| Sidekick.CodingIsLost | sidekick.go:1664-1709 | the run in which a 416 on a cold range fill stores encoded bytes as identity |
| Sidekick.PartialBodyIsStored | response_writer.go:205-259 | the cut-short body of a failed upstream is stored in some run |
| Sidekick.FailedIsStoredExactlyWhen | response_writer.go:205-259 | some run stores a failed response if and only if its lines and fields allow it, its coding is kept and it fits |
| Sidekick.LookIsAStep | sidekick.go:1368-1392 | what the lookup methods do is a step of the system |
| Sidekick.CollapseIsAStep | sidekick.go:1616-1637 | what a woken follower does is a step of the system |
| Sidekick.PurgeIsAStep | sidekick.go:1755-1884 | what a purge request and a purge of one key do is a step of the system |
| Sidekick.CloseIsAStep | response_writer.go:205-259 | what Close does to the store is a step of the system |
| Sidekick.AnswerIsTheReply | sidekick.go:1702-1704 | the fields left when the writer is closed are those the step stores |
| Runs.StepKeeps | sidekick.go:1349-1637 | every step keeps: members under their own keys, every held entry stored and not purged since, every event accounted for |
| Runs.HitIsFilled | storage.go:156-222 | a hit is filled by an earlier store under the same key |
| Runs.EveryRunIsServable | metadata.go:94-143 | in every state the entries carry a final status and no field that passes for Sidekick's own mark |
| Runs.OneUpstreamFetch | sidekick.go:1551-1562 | if every request for a key that missed is a range fill, the key is fetched by one request at a time, in the whole system |
| Capture.ResponseWriter.WriteHeader | response_writer.go:268-346 | interim or final: storable exactly by status, fields and declared length, which nothing takes back; the label is in place before the line; only a storable 200 stays held back |
| Capture.ResponseWriter.ReleaseCapture | response_writer.go:365-391 | giving up midway sends one line and all that was captured, wherever the file cursor stood |
| Capture.ResponseWriter.Write | response_writer.go:394-476 | no byte lost, repeated or reordered; storable exactly while the total fits; spilled exactly past the threshold |
| Capture.ResponseWriter.SwitchToStreaming | response_writer.go:532-565 | the buffer moves to a file whose cursor is at its end |
| Capture.ResponseWriter.CapturedReader | response_writer.go:494-509 | the whole captured body, from its start |
| Capture.ResponseWriter.ReplayCaptured | response_writer.go:514-529 | one status line and the whole capture |
| Capture.ResponseWriter.Close | response_writer.go:188-262 | stores exactly what was written, once per record, whatever the cursor |
| Capture.KeptCodings | metadata.go:94-115 | the codings under which a response is kept |
| Misses.ServeUpstream | sidekick.go:1591-1591 | for every sequence of interim lines and writes and every threshold: captured exactly when it may be stored and fits, delivered exactly unless held back |
| Misses.ServeRangeFill | sidekick.go:1664-1709 | the upstream is asked without Range; then one final line, and either the whole upstream response or one reply about the complete capture, never a mix |
| Misses.HandleMiss | sidekick.go:1551-1592 | the miss path end to end: what the client got, how it was labelled, what was stored, that every field but Sidekick's labels and those the reply touched is the upstream's, and that what it advertises ends within the entry |
| Misses.CapturesExactlyWhen | response_writer.go:268-346 | captured to the end exactly when some line allows storing, by its status, fields and declared length, and the body is within the limit |
| Misses.MissLabelMeans | response_writer.go:311-343 | the mark, Cache-Control and Age that a line goes out with, by the response's own fields |
| Misses.InterimDecides | response_writer.go:268-346 | after one interim line and fields left alone, the response is stored exactly when the interim line may be, or the final one may be and neither a cookie nor the legacy mode forbids it |
| Misses.InterimKeepsFromStoring | response_writer.go:268-346 | a 103 without fields keeps a cookie-varied 200 from being stored that would be stored without it |
| Misses.TypeKeptExactlyWhen | response_writer.go:205-214 | the stored type is the upstream's exactly unless a range fill was answered with several parts, a 304 or an error |
| Misses.TypeIsLost | sidekick.go:1701-1704 | a range fill for two ranges that loses the type |
| CacheKeys.FullRequestHasNoRange | sidekick.go:1667-1669 | the request of a range fill has neither Range nor If-Range, and every other field |
| CacheKeys.GetIsFirst | sidekick.go:2295-2306 | a header value is that of the first field of the name, in any case |
| ResponseRules.FirstLineDecides | response_writer.go:301-310 | the origin's word is read in the first Cache-Control line only |
| ResponseRules.SecondLineIsMissed | response_writer.go:301-310 | a response whose second line says private may be stored |
| ResponseRules.CacheableStatusMeans | response_writer.go:593-603 | a status is cacheable exactly when its code or its first digit alone is listed |
| ResponseRules.StorableMeans | response_writer.go:268-311 | the conjunction of the four checks, on the fields themselves |
| Fills.SyncHandler.AcquireFill | sidekick.go:155-170 | the record of the key, and the leader exactly when there was none |
| Fills.SyncHandler.ReleaseFill | sidekick.go:172-180 | deletes only its own record and closes done once |
| Fills.EveryRunKeepsInv | sidekick.go:141-180 | over all interleavings: a record in the map is unreleased and open, done closes once and after a release, each record stores at most once |
| Fills.LateReleaseKeepsNewer | sidekick.go:172-178 | a late release leaves a newer generation in the map |
| FillLaws.FollowerIsServed | sidekick.go:1604-1637 | a waiting follower has a live leader; whatever is decided about storing, steps of the record's holders alone end with done closed; and it wakes only after some holder was through Close |
| FillLaws.DoneIsClosed | sidekick.go:1568-1581 | from every state of every run, holders of a record bring its done to be closed |
| FillLaws.NobodyDelaysTheLeader | sidekick.go:1568-1581 | no step moves a leader away from its release, and each of its own brings it nearer |
| FillLaws.AcquireIsAStep | sidekick.go:155-170 | what acquireFill does is the first step of the protocol |
| FillLaws.ReleaseDeletes | sidekick.go:172-178 | what releaseFill does to the map is the delete step |
| FillLaws.ReleaseCloses | sidekick.go:178-180 | and after the close step done is closed once |
| FillLaws.CloseIsTwoSteps | response_writer.go:205-212 | Close goes through the sync.Once as the protocol's two steps say, and gets inside exactly when it stores |
| FillLaws.OneFetchPerKey | sidekick.go:1552-1562 | while all requests for a key are range fills: one fetch of it, and followers wake after the leader's own Close |
| FillLaws.JoinerEndsCollapsing | sidekick.go:1563-1581 | with an ordinary joiner: two full fetches of one key |
| FillLaws.CollapsingExactlyWhen | sidekick.go:1552-1581 | range requests for a key collapse in every run if and only if no ordinary request for it is allowed |
| Lru.FitIsShortestTail | storage_memory.go:130-141 | eviction by cost drops the shortest least-recently-used tail |
| Lru.ShortestTailUnique | storage_memory.go:130-141 | and no other tail has that property |
| Lru.EvictionKeepsExactly | storage_memory.go:117-149 | an element survives an eviction exactly when the count leaves it a place and it fits with all in front of it |
| MemoryCaches.MemoryCache.Put | storage_memory.go:74-99 | list, map and cost agree; the list left behind |
| MemoryCaches.MemoryCache.EvictByCost | storage_memory.go:130-141 | leaves what the eviction function says |
| MemoryCaches.MemoryCache.EvictByCount | storage_memory.go:117-128 | makes room for one more entry, dropping from the back only what is over the count (Lru.EvictionKeepsExactly) |
| MemoryCaches.MemoryCache.Delete | storage_memory.go:101-115 | removes the key and its cost |
| MemoryCaches.MemoryCache.GetLRUKeys | storage_memory.go:214-229 | the keys from the back of the list |
| CacheLaws.RunStaysBounded | storage_memory.go:68-149 | over every run the count limit holds, and the cost limit but for one resident entry |
| CacheLaws.PutSurvival | storage_memory.go:74-99 | a new key survives its Put, a resident one exactly when its cost fits; others keep their value or go |
| CacheLaws.PutKeepsExactly | storage_memory.go:74-149 | who survives a Put: entry by entry, the exact condition on count and cost, for a new key and for a resident one |
| CacheLaws.RunEvictsOnlyTheBack | storage_memory.go:117-128 | over every run: below the count limit nobody leaves for the count, at the limit only the back entry does |
| CacheLaws.UsedKeySurvives | storage_memory.go:45-128 | least recently used, over every run: an entry is there unchanged while fewer other keys were used since its last use than the cache holds |
| DiskCaches.DiskCache.Put | storage_disk.go:83-109 | usage and count equal the index; only the evicted tail leaves, with its files |
| DiskCaches.DiskCache.Delete | storage_disk.go:111-140 | the entry leaves the index, the counters and the disk |
| DiskCaches.DiskCache.EvictForSpace | storage_disk.go:174-215 | batches of ten remove exactly the tail that one at a time would, and terminate |
| DiskCaches.DiskCache.EvictForCount | storage_disk.go:218-242 | removes exactly the entries over the count, from the back, and their files |
| DiskCaches.InnerEvictionNeverFires | storage_disk.go:83-109 | the inner cache's own eviction finds nothing to do |
| CacheLaws.DiskRunStaysBounded | storage_disk.go:83-242 | over every run of puts and deletes, count and usage stay within their limits |
| CacheLaws.DiskPutKeepsExactly | storage_disk.go:83-242 | who survives a Put on disk and whose files stay, entry by entry |
| CacheLaws.DiskRunEvictsOnlyTheBack | storage_disk.go:218-242 | over every run: at the count limit only the back entry leaves, with its files |
| CacheLaws.DiskUsedKeySurvives | storage_disk.go:67-242 | least recently used on disk, with one place fewer because overwrites make room too |
| CacheLaws.OverwriteEvictsAnother | storage_disk.go:83-109 | a resident key put again costs another entry its place |
| Compression.CompressData | storage_disk.go:523-597 | an encoding is chosen only when it saves a tenth, and brotli only when it beats gzip |
| Compression.CompressesExactlyWhen | storage_disk.go:485-597 | which encoding is chosen, exactly, by size, fields and what the two compressors make of the body |
| Compression.PackRoundTrip | storage_disk.go:365-455 | packing and unpacking gives back the body whichever encoding was chosen |
| Storages.Storage.Get | storage.go:156-222 | the answer, the entry touched and the expired entry dropped |
| Storages.Storage.GetReader | storage.go:235-321 | the same without decoding |
| Storages.Storage.SetWithKey | storage.go:361-455 | what both tiers and the files hold afterwards |
| Storages.Storage.Purge | storage.go:475-510 | the key leaves both tiers and the disk |
| Storages.Storage.Flush | storage.go:512-553 | both tiers are new and empty |
| StorageLaws.SetThenGet | storage.go:361-455 | the round trip through either tier, with the exact condition under which the new body is the one read |
| StorageLaws.FreshKeyIsVisible | storage.go:361-455 | a fresh key within the limits meets that condition |
| StorageLaws.OldBodyShadowsNew | storage.go:361-455 | an old body in memory that hides a new one on disk |
| StorageLaws.SetSparesOthers | storage.go:361-455 | while the tier has room, a store changes no other key's answer |
| StorageLaws.StreamAgreesWithGet | storage.go:235-321 | whenever GetReader succeeds, Get returns the same bytes and metadata |
| StorageLaws.StreamsExactlyWhen | storage.go:235-321 | a hit is refused for streaming exactly when it lies compressed on disk |
| StorageLaws.StreamMisses | storage.go:235-321 | expired for one is expired for the other; what Get does not find is not streamed |
| StorageLaws.ReadRefreshes | storage.go:156-222 | a read moves its key to the front of its tier and changes nothing else, but drops an expired disk entry and its files |
| StorageLaws.SetInventsNothing | storage.go:361-455 | a store adds nothing but the body stored |
| StorageLaws.ReadInventsNothing | storage.go:156-222 | a read adds nothing and loses at most the expired entry it read |
| StorageLaws.PurgeThenRead | storage.go:475-510 | after a purge the key is a miss and every other key answers as before |
| Purging.MatchesPathMeans | sidekick.go:1776-1793 | a path matches exactly when it is the pattern with a newline-free run in place of each star |
| Purging.NewlineEscapesStar | sidekick.go:1778-1780 | a newline in the path escapes the star |
| Purging.HandlePurge | sidekick.go:1755-1884 | after a purge with paths, what could be read is a miss exactly when one of the patterns matches the path in the metadata the read gives, whichever tier it came from, and otherwise the same answer; without paths everything goes |
| Purging.DoomedByPath | sidekick.go:1805-1862 | the path a purge finds for an entry is the one its readers see |
| CacheKeys.FrameInjective | sidekick.go:2268-2270 | framed fields decode uniquely, for all lists |
| CacheKeys.ComputeKeyDims | sidekick.go:2212-2251 | the dimensions, with the cookie flag set exactly when the key holds a cookie pair |
| CacheKeys.BuildCacheKeyFor | sidekick.go:2265-2328 | the bytes digested are the framing of the key's fields, which KeyLaws determines |
| KeyLaws.PatternTakesExactly | sidekick.go:2308-2326 | a wildcard contributes every matching cookie in request order, an exact name the first one, and nothing else |
| KeyLaws.WildcardKeepsEvery | sidekick.go:2312-2317 | each cookie a wildcard matches is in the key as often as it was sent |
| KeyLaws.SameCookiesExactlyWhen | sidekick.go:2308-2326 | the pairs of all patterns, one after the other, are equal exactly when those of each pattern are |
| KeyLaws.DimensionsArePresent | sidekick.go:2212-2228 | the headers reported are the configured ones that are present, but for Host |
| KeyLaws.KeySeparates | sidekick.go:2265-2328 | with disjoint names, equal keys exactly when host, path, query and header values are equal and every cookie pattern takes the same pairs of both requests |
| KeyLaws.KeysSeparateExactlyWhen | sidekick.go:2291-2326 | for plain configurations disjoint names are also necessary |
| KeyLaws.HeaderLooksLikeCookie | sidekick.go:2291-2326 | two requests, one with a header and one with a cookie, that share a key |
| KeyLaws.CookieFlagIsExact | sidekick.go:2230-2250 | the flag is set exactly when some cookie is claimed, and exactly when removing all cookies changes the key |
| GoQuery.Encode | querykey.go:127-131 | the canonical encoding of the keyed values |
| GoQuery.EncodedRoundTrip | querykey.go:71-131 | parsing the canonical encoding gives back the values |
| PhpQuery.PhpURLDecode | phpquery.go:86-106 | PHP's decoding, malformed escapes included |
| PhpQuery.MalformedStays | phpquery.go:86-106 | what is no complete escape decodes to itself |
| PhpQuery.EscapedIsRead | phpquery.go:86-106 | PHP's decoding undoes Go's escaping |
| PhpQuery.PhpVarNameArray | phpquery.go:53-83 | the registered name, rewritten in place |
| PhpQuery.VarNameMeans | phpquery.go:53-83 | the registered name character by character, and an array exactly when a bracket closes after one opens |
| PhpQuery.PhpQueryNames | phpquery.go:21-43 | the names PHP registers, in order |
| PhpQuery.NamesAgree | phpquery.go:21-43 | on every query Go accepts, Go's keys give PHP's names in the same order |
| PhpQuery.NamesAreNormal | phpquery.go:46-83 | a name is free of NUL, space, dot and bracket, and normalising again changes nothing |
| QueryKeys.ClassifyQuery | querykey.go:71-131 | the loop over names computes an order-free class, which QueryLaws determines |
| QueryLaws.PrivateExactlyWhen | querykey.go:76-107 | private exactly for a nocache_query name, a query Go cannot read, or two raw names PHP merges |
| QueryLaws.SemicolonIsPrivate | querykey.go:80-84 | a semicolon anywhere makes it private |
| QueryLaws.UnkeyedExactlyWhen | querykey.go:108-139 | otherwise a bypass exactly when some variable is an array or on no list |
| QueryLaws.KeyedExactlyWhen | querykey.go:108-131 | what is keyed, by the lists alone, with the values of its raw name |
| QueryLaws.ReadOnlyExactlyWhen | querykey.go:113-120 | read-only exactly when an ignored, unkeyed variable carries a value that is no click ID |
| QueryLaws.SameCanonicalExactlyWhen | querykey.go:71-131 | equal canonical forms exactly when every variable that is keyed has the same values in both |
| QueryLaws.CacheableAccountsForEveryName | querykey.go:76-125 | in a cacheable query every PHP name is no array, has one raw spelling, and is keyed or ignored |
| QueryLaws.CanonicalDeterminesKeyedValues | querykey.go:71-131 | two cacheable queries have equal canonical forms exactly when their keyed values are equal |
| QueryLaws.ReorderingChangesNothing | querykey.go:71-131 | two queries that give every raw name the same values in the same order, wherever the pairs stand, have the same class |
| Bypass.MatchesNoCachePrefix | sidekick.go:2041-2053 | the prefix at the root or below exactly one WordPress site segment |
| Bypass.BypassReasonFor | sidekick.go:1905-1983 | the reason by precedence |
| Bypass.ReasonsExactlyWhen | sidekick.go:1905-1983 | each reason by what it takes, whatever the order of the checks |
| Bypass.BypassLabelMeans | sidekick.go:2593-2606 | what each reason does to the response |
| Bypass.QueryPublicExactlyWhen | response_writer.go:72-89 | when the response to an unkeyed query is advertised as public |
| Bypass.AdvertisedIsStorableExactlyWhen | response_writer.go:80-86 | such a response is one that may be stored exactly when its declared length is within the limit |
| Bypass.TooLargeIsAdvertised | response_writer.go:80-86 | one that is not |
| Bypass.PersonalIsNeverPublic | sidekick.go:1905-1983 | a personal request never reaches the cache and is never advertised as public |
| Bypass.BypassWriter.WriteHeader | response_writer.go:92-100 | labels the final line only, before it goes out |
| Bypass.ServeBypass | sidekick.go:2334-2344 | the response passes unchanged but for one label decided on its final status |
| Downstream.ApplyDownstreamCacheHeaders | sidekick.go:2627-2748 | carries out the decision on Cache-Control, Pragma, Age and Vary and touches nothing else |
| FreshnessLaws.PublicExactlyWhen | sidekick.go:2627-2748 | when a response is advertised as public, both ways |
| FreshnessLaws.ForbidsExactlyWhen | sidekick.go:2627-2748 | when it is marked as not to be kept, and that otherwise its Cache-Control stays |
| FreshnessLaws.PragmaAndAgeFollow | sidekick.go:2627-2748 | what becomes of Pragma and Age in each case |
| FreshnessLaws.VaryListsDimensions | sidekick.go:2628-2641 | Vary names exactly what varied the key, and Accept-Encoding once |
| Downstream.EqualFoldMeans | sidekick.go:2635-2639 | names are compared letter by letter in either case |
| FreshnessLaws.ExpiryFollowsAge | storage.go:330-337 | an expired entry has no time left by its Age, and one past its time is expired |
| FreshnessLaws.CookieVariedIsPrivate | sidekick.go:2645-2654 | a cookie-varied response is private, varies on Cookie and has no Age, in every state and mode |
| FreshnessLaws.HitFreshness | sidekick.go:2664-2684 | the end advertised for a hit or a 304 is never beyond the entry's own or now; Age and max-age add up to the TTL |
| FreshnessLaws.MissFreshness | sidekick.go:2685-2706 | what a labelled miss advertises ends no later than the entry stored for it when the response is complete |
| Serving.ClientWantsCompression | sidekick.go:2368-2382 | whether a compressor is named before the negotiation ends |
| Serving.Negotiate | sidekick.go:1456-1482 | the first compressor that works, and the body unchanged otherwise |
| Serving.WantsMirrorsNegotiation | sidekick.go:2359-2382 | when the first says no, the second never compresses |
| Serving.RefusalsHeededExactlyWhen | sidekick.go:1456-1482 | negotiation never picks a refused coding exactly when no compressor in its reach is refused where first named |
| Serving.RefusedCodingIsSent | sidekick.go:1456-1482 | a client that refuses br is sent br |
| Serving.WholeConveysExactlyWhen | sidekick.go:1421-1455 | when the client can recover the stored body |
| Serving.OkConveysExactlyWhen | sidekick.go:1421-1455 | the same for every hit answered with a 200, streamed or buffered |
| Serving.EncodedGoesOutUnannounced | sidekick.go:1441-1449 | a client that accepts nothing gets gzip bytes without their coding |
| Serving.ServeBuffered | sidekick.go:1387-1540 | 304 for a client that has the entry, one reply for a Range, or the whole entry, labelled as a hit and with every stored field that Sidekick does not decide itself |
| Serving.HitHeader | sidekick.go:2451-2464 | stored fields replace those of before, but for the ones Sidekick decides, and no other field changes |
| Serving.TryServeStreamed | sidekick.go:2392-2443 | serves exactly identity-coded 200s, whole without a Range, with the stored fields, and otherwise leaves the response untouched |
| Serving.ServeFromCache | sidekick.go:1368-1540 | hits exactly when Get does, whichever path answers, with the stored fields and the label of a hit |
| Serving.AwaitFill | sidekick.go:1604-1659 | a follower serves a window of the entry, with its fields, exactly when it is an identity-coded 200, and else passes the origin's answer |
| Conditionals.ShouldReturn304 | sidekick.go:2501-2548 | If-None-Match decides alone, by weak comparison over the list; otherwise the dates do |
| Conditionals.OneTagDecides | sidekick.go:2487-2537 | a single tag gives a 304 exactly when it is the stored one up to weakness, or the star |
| Conditionals.TrimSpaceMeans | sidekick.go:2511-2524 | exactly the white space around a tag is cut off |
| Conditionals.ListDecides | sidekick.go:2517-2530 | a list gives a 304 exactly when the tags before some comma do or those after it do |
| Conditionals.EchoedDateDecides | sidekick.go:2532-2548 | the stored date sent back gives a 304 exactly when it is a date other than the zero time |

## Left out

- Configuration parsing, provisioning, size and percent options: the model starts from the resulting lists and limits.
- Metrics, logging, admin endpoints, mu-plugin deployment: no effect on what is served or stored.
- Requests other than GET, the dispatch on the purge path and the purge token: they do not reach the cache.
- `LoadIndex`: runs start from an empty store.
- Failures of files and of writes to the client: captures, temporary files and entries do not fail.
- A second final status line in one response, and 101: each upstream sends any interim lines and at most one final line.
- MD5: a key is the preimage of the digest, which is taken as injective.
- gzip, brotli and zstd are functions that may fail and are lossless; the ratio of 0.9 is exact rational arithmetic.
- regexp: nocache_regex and the static-asset pattern are predicates on the path; only the purge pattern is modelled.
- `http.ServeContent` (Go 1.25): a 200 with the whole body, a 206 with one range or with several between arbitrary part headings, or a 304, 412, 416 or 500 with any text; each status may change only certain fields. Which ranges a request asks for is not modelled, nor what ranges of an encoded body mean on a cold fill.
- `http.ParseTime` is a function to whole seconds; the outcome of the timer and context in awaitFill is a parameter.
- Races inside one store operation: every operation on the store is atomic; the per-key and cache locks are not modelled.
- A recency-list element is identified by its key, so aliasing of `container/list` elements is not captured.
- The metadata file is the metadata itself, and its size a parameter; JSON is not modelled.
- Header names are compared with ASCII case folding, and TrimSpace trims ASCII space.
- Integers are unbounded: no 64-bit wrap-around in counters, sizes and times.
- The parameter name a query class reports for logging.
- Storages.Storage.SetWithKey: writes the files before Put may evict the previous entry of the same key, so a replaced disk entry can lose its new files; the model keeps that order and StorageLaws.SetThenGet says when it happens.
- Misses.HandleMiss: the values that a reply of ServeContent writes into the fields it touches are arbitrary, but for Content-Type and Content-Encoding.
