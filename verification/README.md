# The decision engines of the Pxxl edge proxy, verified

A Dafny model of the in-memory engines with which the edge proxy decides where a request goes and whether
it goes at all, and proofs of what they promise over all inputs, all runs and all reachable states.

| module | engine |
|---|---|
| `Text`, `Utf8`, `Paths`, `CanonicalPaths`, `Prefixes` | bytes, UTF-8 and hexadecimal text; path canonicalisation and what it means; path prefixes |
| `Routes`, `HostNames`, `Merging`, `Registry`, `Lookup`, `Health`, `RouteRegistry` | the indexed, deduplicated route table of several sources |
| `VersionedPut`, `TableRace` | versioned route updates from the control plane; interleaved operations on the table |
| `TokenBucket`, `SlidingWindow`, `AdaptiveBlocking` | rate limiting and adaptive blocking by address |
| `CircuitBreaker`, `InFlight`, `DigestAuth`, `DigestClient`, `Middleware`, `Selection` | circuit breakers, in-flight limits, digest replay guard, effective middleware, upstream selection |
| `Balancing` | the load balancer |
| `AnalyticsWriter` | the buffering, spooling and replaying analytics writer |
| `Chunked` | the decoder of chunked bodies |

Objects that the program updates in place are classes whose methods are proved against specification
functions on values; loops are methods with invariants; pure code is functions. What the program promises is
proved of the specification functions, mostly against an independent definition: a plain scan for the
index, the event history for windows and breakers, the uncapped unfolding for the capped expansion, a
grammar for the decoder, a limiter that never evicts for the one that does, multisets for the writer.

Time is a parameter, tokens are `real`, hashes are arbitrary functions, and an operation under a lock is one
step. The exceptions are in-flight counters, whose loads, exchanges, refusals and releases are separate steps of
interleaved requests, and the gates, loads and stores of interleaved operations on the route table. Answers of the database and the
file system, and the listing of the spool directory, are parameters, so that every statement holds whatever
they are.

Some promises hold only under a condition that the code does not enforce. Each of these is stated as an
if-and-only-if, the failing cases included:

- canonicalisation is idempotent exactly on results without `%` (`Paths.IdempotentIff`, `Prefixes.DeepEncodingSurvives`);
- host normalisation is idempotent exactly on stable results (`Routes.NormalizeIdempotentIff`, `Routes.NormalizeLosesBrackets`);
- evicting token buckets is unobservable, and the rate bound holds, exactly when burst <= 600 rate (`TokenBucket.EvictionUnobservableIff`, `TokenBucket.RateBoundedIff`);
- sweeping idle windows is unobservable exactly when bucket_seconds <= window_seconds + 300 (`SlidingWindow.SweepUnobservableIff`);
- the deduplication key is ambiguous exactly for names with a colon (`Registry.KeyAmbiguousIff`);
- merged upstreams are free of repeated URLs exactly when the first winner's are (`Lookup.MergedUrls`, `Lookup.RepeatedUrlStays`);
- a digest tuple can be accepted twice in some run exactly when its nonce is not stamped before its first acceptance (`DigestAuth.RepeatableIff`, `DigestAuth.ReplayRun`);
- the outcome of PUTs to a host is independent of their order exactly when the host is not `www.` and a name of two labels (`VersionedPut.OrderFreeIff`, `VersionedPut.WwwOrderMatters`);
- the effect of a stored operation is missing from a later route table exactly when a store in that table's lineage follows it but loaded before it (`TableRace.LostIff`, `TableRace.RaceLoses`);
- a stored PUT lowers its host's version exactly when the host's last update in the lineage of the table is newer (`TableRace.LoweredIff`, `TableRace.RaceLowers`);
- a circuit breaker's key is shared exactly for triples with a colon in a part (`CircuitBreaker.KeySharedIff`);
- the replay key is ambiguous exactly for tuples with a colon in a field (`DigestAuth.KeyAmbiguousIff`, `DigestAuth.SharedKeyRefused`);
- the advertised wait of the rate limiter suffices exactly when the bucket can hold a token and the nanoseconds are not rounded below one token's time (`TokenBucket.WaitSufficesIff`, `TokenBucket.DrainedRefused`);
- the expansion cap is harmless exactly when the first levels below it, as many as there are chains and middlewares, stand for nothing (`Middleware.CapHarmlessFinitely`, `Middleware.SelfChainIsCut`);
- the reason for a failed selection misleads exactly when an eligible upstream exists, which takes hashing by an unknown address (`Selection.ReasonIsTrueIff`, `Selection.ReasonMisleads`);
- spooled events are lost exactly when a file name is written again before its file is removed (`AnalyticsWriter.ReplacedIff`, `AnalyticsWriter.ClashLosesEvent`).

## Model

| member | source | states |
|---|---|---|
| `Paths.PercentDecodeUtf8` | edge/crates/common/src/lib.rs:1337-1359 | the index-and-buffer loop computes the one-pass percent decoding, with each of the two errors in its case and no other |
| `Paths.DecodeInvertsEncode` | edge/crates/common/src/lib.rs:1337-1368 | decoding undoes percent-encoding of every byte (section 2.1 of RFC 3986) |
| `Paths.DecodeShortens` | edge/crates/common/src/lib.rs:1337-1359 | decoding never lengthens, strictly shortens exactly the texts with a `%`, and is the identity on the others |
| `Paths.DecodeEnds` | edge/crates/common/src/lib.rs:1337-1359 | decoding keeps a text non-empty and keeps its leading and final slash |
| `Paths.DecodeRoundsShape` | edge/crates/common/src/lib.rs:1074-1082 | up to any number of decoding rounds keep UTF-8 validity and the slashes at both ends, and shorten exactly when there is a `%` |
| `Paths.StackIsRightToLeftScan` | edge/crates/common/src/lib.rs:1094-1103 | the segment stack leaves exactly the segments that a stackless scan from the right, counting unpaid `..`, leaves |
| `Paths.CanonicalizePath` | edge/crates/common/src/lib.rs:1066-1112 | the two loops compute the canonical form, or the error, whose meaning `CanonicalPaths` gives |
| `Paths.RebuildLength` | edge/crates/common/src/lib.rs:1092-1111 | resolving and rendering never lengthens a rooted path |
| `Paths.RebuildCanonical` | edge/crates/common/src/lib.rs:1092-1111 | resolving and rendering is the identity on canonical paths |
| `Paths.CanonicalizeShape` | edge/crates/common/src/lib.rs:1066-1112 | every success is rooted, UTF-8, free of backslashes and control bytes, of `.` and `..` segments and of interior empty segments, and no longer than the input |
| `Paths.FixedPointIff` | edge/crates/common/src/lib.rs:1066-1112 | the fixed points of canonicalisation are exactly the canonical shapes without `%` |
| `Paths.IdempotentIff` | edge/crates/common/src/lib.rs:1066-1112 | canonicalising a success again returns it unchanged if and only if it has no `%` |
| `CanonicalPaths.CanonicalMeaning` | edge/crates/common/src/lib.rs:1066-1112 | the segments of a canonical path are what survives, scanning from the right, of the parts of the decoded path between slashes or backslashes; it ends in a slash exactly when it is `/` or the decoded path ends in one of the two |
| `CanonicalPaths.PlainMeaning` | edge/crates/common/src/lib.rs:1066-1112 | the same said of the path itself, for every rooted UTF-8 path without `%` and control bytes |
| `CanonicalPaths.ShapeDetermined` | edge/crates/common/src/lib.rs:1105-1111 | segments and final slash determine a canonical path |
| `CanonicalPaths.DecodedSame` | edge/crates/common/src/lib.rs:1074-1082 | a path and its decoded text have one canonical form when that text has no `%` |
| `CanonicalPaths.SeparatorsInterchangeable` | edge/crates/common/src/lib.rs:1092-1103 | two rooted paths that differ only in which separator stands where have one canonical form or fail alike |
| `CanonicalPaths.DecodesIff` | edge/crates/common/src/lib.rs:1337-1359 | a decoding pass succeeds if and only if two hexadecimal digits follow every `%` |
| `CanonicalPaths.DecodeConcat` | edge/crates/common/src/lib.rs:1337-1359 | a well-escaped text in front of another is decoded by itself |
| `CanonicalPaths.FailsIff` | edge/crates/common/src/lib.rs:1066-1090 | there is no canonical form if and only if the path is neither empty nor rooted, or one of the four rounds meets a malformed escape or bytes that are not UTF-8, or some text on the way has a control byte |
| `CanonicalPaths.FailureKind` | edge/crates/common/src/lib.rs:1066-1090 | which error: the first round to break decides, and control bytes are reported only when none breaks |
| `Utf8.ValidIff` | edge/crates/common/src/lib.rs:1337-1359 | a byte string is accepted as UTF-8 if and only if it is the encoding of some Unicode scalar values (section 3 of RFC 3629) |
| `Prefixes.DeepEncodingSurvives` | edge/crates/common/src/lib.rs:1074-1082 | for every n >= 4, a letter encoded n + 1 times over loses exactly four layers, so a second pass goes on decoding |
| `Prefixes.ValidateIff` | edge/crates/common/src/lib.rs:1148-1157 | acceptance of a prefix is exactly: a fixed point of canonicalisation that is `/` or has no final slash |
| `Prefixes.NormalizeAddsSlash` | edge/crates/common/src/lib.rs:1049-1060 | for normalisation a leading slash may be left out |
| `Prefixes.NormalizeDropsSlash` | edge/crates/common/src/lib.rs:1049-1060 | and a final one added to any rooted prefix but `/` |
| `Prefixes.NormalizeKeeps` | edge/crates/common/src/lib.rs:1049-1060 | a rooted prefix without a final slash is kept and a blank one becomes `/` |
| `Prefixes.AcceptedIsProper` | edge/crates/common/src/lib.rs:1148-1157 | an accepted prefix is `/`, or its slash-separated parts are its segments and none is empty, `.` or `..` |
| `Prefixes.MatchesIffSegmentPrefix` | edge/crates/common/src/lib.rs:144-149 | for an accepted prefix and a canonical path, the string test holds if and only if the prefix's segments are a prefix of the path's segments |
| `Prefixes.TiedPrefixesEqual` | edge/crates/common/src/lib.rs:144-149 | two accepted prefixes of one length that match one path are equal |
| `Prefixes.LongestIsMostSpecific` | edge/crates/common/src/lib.rs:932-937 | among accepted prefixes matching one path, longer in bytes is more segments, both ways |
| `Routes.NormalizedForm` | edge/crates/common/src/lib.rs:1026-1031 | a normalised host is lower case and has no final dot |
| `Routes.NormalizeIdempotentIff` | edge/crates/common/src/lib.rs:1026-1047 | normalising twice is normalising once if and only if the result is blank, or has no outer white space, no leading `[` and no `:` |
| `Routes.PlainIsStable` | edge/crates/common/src/lib.rs:1114-1146 | names over the alphabet that domain validation admits meet that condition |
| `Routes.NormalizeLosesBrackets` | edge/crates/common/src/lib.rs:1033-1047 | `[::1]` does not: its second normalisation is empty |
| `HostNames.PlainHost` | edge/crates/common/src/lib.rs:1026-1047 | white space around a bare host and everything from a colon on go; what is left is lower-cased without its final dots |
| `HostNames.PortIgnored` | edge/crates/common/src/lib.rs:1026-1047 | a bare host with any port and any padding normalises as the host alone |
| `HostNames.BracketedHost` | edge/crates/common/src/lib.rs:1033-1047 | a bracketed address with any port and padding normalises to what is between the brackets, lower-cased without final dots |
| `HostNames.DotsIgnored` | edge/crates/common/src/lib.rs:1026-1031 | final dots of a bare host are immaterial |
| `HostNames.CaseIgnored` | edge/crates/common/src/lib.rs:1026-1047 | letter case is immaterial in every host reference |
| `HostNames.NameKept` | edge/crates/common/src/lib.rs:1026-1047 | a bare lower-case host without a final dot is its own normal form |
| `HostNames.BlankKept` | edge/crates/common/src/lib.rs:1026-1047 | a blank reference names no host and comes back as it is |
| `HostNames.FindIgnoresSpelling` | edge/crates/core/src/lib.rs:170-185 | a lookup with port, padding, final dots or capitals finds exactly what the bare lower-case host finds |
| `HostNames.FindIgnoresBracketPort` | edge/crates/core/src/lib.rs:170-185 | a lookup of a bracketed address finds the same with and without padding and port |
| `Routes.AliasBaseIff` | edge/crates/core/src/lib.rs:949-954 | the alias base of a host is exactly the non-empty name behind one `www.` that does not itself start with it |
| `Routes.LabelsMean` | edge/crates/core/src/lib.rs:960-962 | labels are the non-empty stretches between dots |
| `Routes.ApexAllowsIff` | edge/crates/core/src/lib.rs:956-962 | a route on a name of two labels is reachable by alias if and only if it asks for it and its first label is not `www` |
| `Routes.OtherNamesRefuse` | edge/crates/core/src/lib.rs:956-962 | a route on a name of one or three labels is not |
| `Routes.SourcesRank` | edge/crates/core/src/lib.rs:917-924 | the API outranks the two container engines, which rank alike and outrank static routes |
| `Routes.BestPath` | edge/crates/common/src/lib.rs:932-937 | a path is chosen exactly when one matches, and no matching path has a longer prefix |
| `Routes.BestPathMostSpecific` | edge/crates/common/src/lib.rs:932-937 | with accepted prefixes the choice has the most segments of all matching ones, and equally many only when it is the same prefix |
| `Merging.ExtendUnique` | edge/crates/core/src/lib.rs:1028-1042 | the append-if-absent loop computes the recursive merge |
| `Merging.ExtendIsFresh` | edge/crates/core/src/lib.rs:1028-1042 | the merge is the first list followed by exactly the elements whose key is new, first seen first |
| `Merging.ExtendDistinct` | edge/crates/core/src/lib.rs:1028-1042 | the merged keys are distinct if and only if the first list's are |
| `Merging.FreshKeys` | edge/crates/core/src/lib.rs:1028-1042 | the merged keys are the union of the keys |
| `Merging.DedupeBy` | edge/crates/core/src/lib.rs:63-81 | the position-map loop computes: each key once, at its first place, with its last element |
| `Merging.Latest` | edge/crates/core/src/lib.rs:63-81 | that result has distinct keys, and the same keys as the list |
| `Merging.LatestSnoc` | edge/crates/core/src/lib.rs:63-81 | one more element replaces the one with its key in place, or goes to the end |
| `Merging.LatestDistinct` | edge/crates/core/src/lib.rs:63-81 | deduplication is the identity on distinct keys, hence idempotent |
| `Registry.DedupeRoutes` | edge/crates/core/src/lib.rs:63-81 | no two routes of the result share a key |
| `Registry.KeySource` | edge/crates/core/src/lib.rs:63-81 | routes with one key have one source, and the same host if it is the API |
| `Registry.KeyIdentifies` | edge/crates/core/src/lib.rs:63-81 | for hosts without a colon, two routes share a key exactly when they agree in source, host and, outside the API, id |
| `Registry.KeyAmbiguousIff` | edge/crates/core/src/lib.rs:63-81 | a route from another source than the API shares its key with a different one if and only if its host or id contains a colon |
| `Registry.BuildIndex` | edge/crates/core/src/lib.rs:49-60 | every bucket of the index is the sublist of the routes of its host, in list order |
| `Registry.NewTable` | edge/crates/core/src/lib.rs:48-61 | a new table holds the deduplicated list and an index that agrees with it |
| `Registry.MergeBestRouteMatches` | edge/crates/core/src/lib.rs:1000-1026 | the two maxima, the filter and the merge loop compute the merge of the unbeaten candidates |
| `Registry.SelectIsWinners` | edge/crates/core/src/lib.rs:1000-1016 | longest prefix, then strongest source, then filtering selects exactly the candidates no other beats, and at least one |
| `Registry.WinnersAre` | edge/crates/core/src/lib.rs:1000-1016 | the winners are exactly the unbeaten members of the pool |
| `Registry.CandidatesAreScanned` | edge/crates/core/src/lib.rs:926-947 | candidates taken from an index bucket are those a scan of the whole list finds, in the same order |
| `Registry.ScanCandidatesAre` | edge/crates/core/src/lib.rs:926-947 | the candidates are exactly the eligible routes of the host, each with its best path |
| `Lookup.CandidatesConcat` | edge/crates/core/src/lib.rs:926-947 | candidates come in table order, over any cut of the list |
| `Lookup.PoolIsUsable` | edge/crates/core/src/lib.rs:170-185 | the pool is exactly the usable routes: those of the host, or alias-permitting ones of the apex when the host has none |
| `Lookup.UsableIff` | edge/crates/core/src/lib.rs:170-185 | usable said over the table: a route serving the path, of the host itself if one does, else an alias-permitting name of two labels behind the host's `www.` |
| `Lookup.FirstUnbeatenLeads` | edge/crates/core/src/lib.rs:1000-1026 | of the unbeaten candidates the first in the table leads the result |
| `Lookup.FindSucceedsIff` | edge/crates/core/src/lib.rs:170-185 | a lookup succeeds if and only if the normalised host is not empty and some route is usable |
| `Lookup.FindIsBest` | edge/crates/core/src/lib.rs:170-185 | no usable route has a matching path that is longer than the result's, or as long from a stronger source |
| `Lookup.WinnersShareOnePrefix` | edge/crates/core/src/lib.rs:1000-1026 | with accepted prefixes all merged candidates carry one and the same prefix, a segment-wise prefix of the path |
| `Lookup.MergedUrls` | edge/crates/core/src/lib.rs:1018-1042 | the merged upstreams carry exactly the winners' URLs; they are distinct if and only if the first winner's are |
| `Lookup.MergedMiddlewares` | edge/crates/core/src/lib.rs:1018-1042 | the same of the merged middlewares by name |
| `Lookup.MergedKeepsFirst` | edge/crates/core/src/lib.rs:1018-1026 | the result is the first winner's route with one path, whose lists start with that winner's own |
| `Lookup.RepeatedUrlStays` | edge/crates/core/src/lib.rs:1018-1042 | a single winner that repeats a URL keeps the repetition |
| `Lookup.PathsByPrefixMeaning` | edge/crates/core/src/lib.rs:979-998 | merging a host's routes path by path yields sorted, unique prefixes, each with all its upstreams and middlewares, first seen first |
| `Lookup.FirstStrongestLeads` | edge/crates/core/src/lib.rs:964-998 | of a host's strongest routes the first stands for it, unchanged but for its paths, and unchanged altogether when it is the only one |
| `Lookup.MergedPrefixes` | edge/crates/core/src/lib.rs:979-998 | a prefix is among the merged paths if and only if some merged route has it |
| `Lookup.DomainFoundIff` | edge/crates/core/src/lib.rs:150-168 | a host is found if and only if it has a route of its own or is the `www.` of one that permits the alias |
| `Lookup.MergeBestDomainRoutes` | edge/crates/core/src/lib.rs:964-998 | the nested loops compute that merge of the strongest source's routes |
| `Health.ApplyUpdate` | edge/crates/core/src/lib.rs:231-266 | the in-place loops over routes, paths and pools set the flag of exactly the matching upstreams |
| `Health.ApplyUpdates` | edge/crates/core/src/lib.rs:268-308 | the batch loop applies the updates in order, skipping those with a blank host or URL |
| `Health.ApplyHealth` | edge/crates/core/src/lib.rs:195-225 | the loops give every upstream whose URL is in the map that health and leave the rest |
| `Health.RelabelRoutes` | edge/crates/core/src/lib.rs:195-225 | relabelling keeps the number, order and keys of the routes |
| `Health.RelabelMeans` | edge/crates/core/src/lib.rs:195-225 | every upstream of every path, traffic split and location gets the flag told for its URL, if any, and nothing else of a route changes |
| `Health.SkippedIff` | edge/crates/core/src/lib.rs:231-236 | an update leaves every table alone if and only if it names no host or no upstream |
| `Health.SetRouteHealthIsMark` | edge/crates/core/src/lib.rs:231-266 | on a table with distinct keys a single update survives the deduplication of the store unchanged |
| `Health.BatchIsOneAtATime` | edge/crates/core/src/lib.rs:231-308 | a batch leaves the table the same updates leave one at a time |
| `Health.BatchSettles` | edge/crates/core/src/lib.rs:268-308 | what a batch leaves: each route differs at most in health flags, and each flag is that of the last update that hits it |
| `RouteRegistry.RunKeepsKeysDistinct` | edge/crates/core/src/lib.rs:89-308 | in every state any run of the seven operations reaches, keys are distinct, so each host has at most one API route |
| `RouteRegistry.RunConcat` | edge/crates/core/src/lib.rs:89-308 | a run is its operations one after another |
| `RouteRegistry.UpsertContents` | edge/crates/core/src/lib.rs:118-136 | an effective upsert removes the host's API route and appends the new one, nothing else |
| `RouteRegistry.DeleteContents` | edge/crates/core/src/lib.rs:138-148 | a delete removes the host's API route and nothing else |
| `RouteRegistry.WithoutApiKeeps` | edge/crates/core/src/lib.rs:118-148 | exactly the API route of the host goes |
| `RouteRegistry.ReplaceSourceKeepsOthers` | edge/crates/core/src/lib.rs:108-116 | replacing one source keeps a route of another exactly when no replacement carries its key or the last that does is that route; always, if all replacements are of the replaced source |
| `RouteRegistry.ReplaceSourceContents` | edge/crates/core/src/lib.rs:108-116 | what the table holds afterwards, exactly: the last new route of each new key, and the old routes of other sources under no new key; so a route of the replaced source is one of the new ones |
| `RouteRegistry.ReplaceSourceExact` | edge/crates/core/src/lib.rs:108-116 | new routes with distinct keys of that one source: the table is the other sources' routes in their old order followed by the new ones |
| `RouteRegistry.WithoutSourceInOrder` | edge/crates/core/src/lib.rs:108-116 | over any cut of the list, the filter drops exactly the routes of the source and keeps the order |
| `RouteRegistry.WithoutApiInOrder` | edge/crates/core/src/lib.rs:118-148 | the same of the filter for one host's API routes |
| `RouteRegistry.UpsertHolds` | edge/crates/core/src/lib.rs:118-136 | after an upsert the table holds the route up to its time stamps; it was left alone exactly when it already did |
| `RouteRegistry.SetHealthContents` | edge/crates/core/src/lib.rs:195-225 | a health map neither adds, drops nor moves a route |
| `RouteRegistry.RouteRegistry.constructor` | edge/crates/core/src/lib.rs:89-94 | a new registry is indexed and deduplicated |
| `RouteRegistry.RouteRegistry.Store` | edge/crates/core/src/lib.rs:104-106 | storing a list keeps the index in step with it |
| `RouteRegistry.RouteRegistry.ReplaceSource` | edge/crates/core/src/lib.rs:108-116 | the new table is that of `ReplaceSourceContents` and `ReplaceSourceExact`, and the index agrees with it |
| `RouteRegistry.RouteRegistry.UpsertApiRoute` | edge/crates/core/src/lib.rs:118-136 | likewise; the table changes exactly when no equivalent API route is stored |
| `RouteRegistry.RouteRegistry.DeleteApiDomain` | edge/crates/core/src/lib.rs:138-148 | likewise; it reports whether the host had an API route |
| `RouteRegistry.RouteRegistry.SetUpstreamHealth` | edge/crates/core/src/lib.rs:195-225 | likewise for health by URL |
| `RouteRegistry.RouteRegistry.SetRouteUpstreamHealth` | edge/crates/core/src/lib.rs:231-266 | likewise for one update; the stored list is the marked list, deduplication included |
| `RouteRegistry.RouteRegistry.SetRouteUpstreamHealthMany` | edge/crates/core/src/lib.rs:268-308 | likewise for a batch |
| `RouteRegistry.RouteRegistry.Find` | edge/crates/core/src/lib.rs:170-185 | in every such state the indexed lookup is the lookup by a plain scan of the flat list, for any spelling of the host |
| `RouteRegistry.RouteRegistry.FindDomain` | edge/crates/core/src/lib.rs:150-168 | and so is the lookup by host alone |
| `VersionedPut.UpsertInternalRoute` | edge/crates/api/src/lib.rs:1796-1872 | exactly when a PUT is malformed or unsafe, too large, stale (with the version in its way), not persisted or done, whether it changed something, and the table after it |
| `VersionedPut.MergeDomainApi` | edge/crates/core/src/lib.rs:964-977 | a host's merged route is its API route whenever it has one |
| `VersionedPut.ScanFindsApi` | edge/crates/core/src/lib.rs:150-168 | the lookup that gates a PUT yields an API route exactly when it is the host's, or the apex one a www host without routes falls back to |
| `VersionedPut.GateIff` | edge/crates/api/src/lib.rs:1833-1851 | a PUT is stale if and only if one of those two routes has a greater version |
| `VersionedPut.PutEffect` | edge/crates/api/src/lib.rs:1833-1856 | what a PUT does to the API route of any host |
| `VersionedPut.VersionNeverDecreases` | edge/crates/api/src/lib.rs:1833-1856 | the stored version of any host never goes down |
| `VersionedPut.ChampionFrom` | edge/crates/api/src/lib.rs:1833-1856 | the champion of a run is the stored route or one of the updates, and none has a greater version |
| `VersionedPut.LastVersionWins` | edge/crates/api/src/lib.rs:1833-1856 | after every run of PUTs to any hosts, a host that no apex route can stand in for stores the champion, up to time stamps of repeated identical updates |
| `VersionedPut.OrderIndependent` | edge/crates/api/src/lib.rs:1833-1856 | with distinct versions, every permutation of the run stores the same route, the one of greatest version |
| `VersionedPut.WwwOrderMatters` | edge/crates/api/src/lib.rs:1833-1856 | an apex update and an older update of its www host end differently in the two orders |
| `VersionedPut.OrderFreeIff` | edge/crates/api/src/lib.rs:1833-1856 | for a normalised host with a normalised base, the stored route is the same for all permutations of all runs with distinct versions, from every table, if and only if the host is not `www.` followed by a name of two labels |
| `VersionedPut.PlainBaseNormal` | edge/crates/common/src/lib.rs:1114-1146 | validated hosts have a normalised base |
| `TableRace.IdleChangesNothing` | edge/crates/core/src/lib.rs:195-271 | operations that return before touching the table would change none |
| `TableRace.KeysStayDistinct` | edge/crates/core/src/lib.rs:104-136 | in every interleaving of loads and stores by any of the registry's operations, the keys of the table and of all tables in hand stay distinct |
| `TableRace.TableIsLineage` | edge/crates/core/src/lib.rs:104-136 | every table of every interleaving is what the operations of its lineage make of the first table one after another: the last store, the last store before its load, and so on |
| `TableRace.LostIff` | edge/crates/core/src/lib.rs:104-136 | the effect of a store is missing from a later table if and only if some store in that table's lineage follows it but loaded before it |
| `TableRace.NothingLostIff` | edge/crates/core/src/lib.rs:104-136 | nothing is missing if and only if no store overlaps an earlier one |
| `TableRace.WrittenHost` | edge/crates/core/src/lib.rs:127-135 | what storing an update does to the API route of any host, given the table it loaded |
| `TableRace.TableHost` | edge/crates/api/src/lib.rs:1833-1856 | with versioned updates only, a host's API route in any table is that of the last update of the host in the table's lineage |
| `TableRace.GateLetPass` | edge/crates/api/src/lib.rs:1833-1856 | in every interleaving, an update that gets to be stored met no newer API route of its host at its gate |
| `TableRace.FloorHolds` | edge/crates/api/src/lib.rs:1833-1856 | no table of an interleaving has a host below its first version, or without its API route |
| `TableRace.LoweredIff` | edge/crates/api/src/lib.rs:1833-1856 | in every interleaving of gates, loads and stores, storing an update lowers its host's version if and only if the last update of the host in the lineage of the table it replaces is a newer one |
| `TableRace.OthersReverted` | edge/crates/core/src/lib.rs:127-135 | storing an update takes every other host back to where it was at the load |
| `TableRace.RaceLowers` | edge/crates/api/src/lib.rs:1833-1856 | any two updates of one host with different versions have an interleaving that lowers the version |
| `TableRace.RaceLoses` | edge/crates/core/src/lib.rs:118-136 | any two updates of different hosts have an interleaving that loses one of them |
| `TokenBucket.RateLimiter.constructor` | edge/crates/ddos/src/lib.rs:905-911 | a new limiter has no buckets |
| `TokenBucket.RateLimiter.EvictIfDue` | edge/crates/ddos/src/lib.rs:958-968 | every half minute the buckets idle for more than ten minutes go |
| `TokenBucket.RateLimiter.EvictStale` | edge/crates/ddos/src/lib.rs:948-956 | at 100000 buckets those go at once |
| `TokenBucket.EvictIff` | edge/crates/ddos/src/lib.rs:948-968 | a bucket goes if and only if an eviction is due or the table is large, and it has been idle for more than ten minutes |
| `TokenBucket.RetryNearest` | edge/crates/ddos/src/lib.rs:935-940 | the advertised wait is the whole number of nanoseconds nearest to one token's time, the even one of two as near |
| `TokenBucket.RateLimiter.AllowRequest` | edge/crates/ddos/src/lib.rs:913-942 | the new buckets and the decision are those of the specification function |
| `TokenBucket.LevelLater` | edge/crates/ddos/src/lib.rs:913-942 | the level of an address grows at the configured rate up to the burst and does nothing else with time |
| `TokenBucket.TakeIsLevel` | edge/crates/ddos/src/lib.rs:913-942 | a call is admitted exactly at level one or more, takes one token of its own address, and touches no other level |
| `TokenBucket.AllowIsLevel` | edge/crates/ddos/src/lib.rs:913-968 | the same with eviction, of the level eviction leaves |
| `TokenBucket.EvictionHarmless` | edge/crates/ddos/src/lib.rs:913-968 | if burst <= 600 rate, the limiter and one that never evicts decide every ordered run alike |
| `TokenBucket.EvictionUnobservableIff` | edge/crates/ddos/src/lib.rs:913-968 | eviction is unobservable if and only if burst <= 600 rate |
| `TokenBucket.AdmittedBound` | edge/crates/ddos/src/lib.rs:913-942 | a run admits at most the present level plus what the rate adds |
| `TokenBucket.WindowBound` | edge/crates/ddos/src/lib.rs:913-942 | without eviction any stretch of any ordered run within [s, t] admits at most burst + rate (t - s) calls of an address |
| `TokenBucket.TwoBurstsAdmitted` | edge/crates/ddos/src/lib.rs:913-968 | two bursts more than ten minutes apart are admitted completely |
| `TokenBucket.EvictionBreaksRate` | edge/crates/ddos/src/lib.rs:913-968 | if burst > 600 rate, that run exceeds the bound |
| `TokenBucket.RateBoundedIff` | edge/crates/ddos/src/lib.rs:913-968 | the rate bound holds of the limiter if and only if burst <= 600 rate |
| `TokenBucket.WaitSufficesIff` | edge/crates/ddos/src/lib.rs:933-942 | with eviction or without, in every state a run of calls reaches, every refused caller that waits the advertised whole nanoseconds alone is admitted if and only if burst is at least one and rate times those nanoseconds is at least a second (so not at rate 3) |
| `TokenBucket.DrainedRefused` | edge/crates/ddos/src/lib.rs:913-942 | otherwise the run that shows it: as many calls as the burst at one moment, one more, and that one again after the wait |
| `SlidingWindow.TrimBuckets` | edge/crates/ddos/src/lib.rs:712-720 | popping old buckets off the front, as the loop does it |
| `SlidingWindow.InsertEvent` | edge/crates/ddos/src/lib.rs:348-373 | finding or appending the bucket of the event and counting the event in it |
| `SlidingWindow.WindowTotals` | edge/crates/ddos/src/lib.rs:722-760 | the accumulation loop yields the sums and the sizes of the united domain sets |
| `SlidingWindow.TrimGroup` | edge/crates/ddos/src/lib.rs:712-720 | trimming drops exactly the events whose bucket starts too early |
| `SlidingWindow.WindowIsGroup` | edge/crates/ddos/src/lib.rs:334-375 | after any ordered events the window is the grouping of those still inside it |
| `SlidingWindow.TotalsAreCounts` | edge/crates/ddos/src/lib.rs:722-760 | the totals are the counts, and the distinct domains, of exactly those events |
| `SlidingWindow.WindowEdges` | edge/crates/ddos/src/lib.rs:334-346 | every event from one bucket inside the window's edge is counted, and none from before the edge |
| `SlidingWindow.SweepRuns` | edge/crates/ddos/src/lib.rs:571-576 | for short enough buckets, a swept window is one that the next event would empty anyway |
| `SlidingWindow.SweepUnobservableIff` | edge/crates/ddos/src/lib.rs:571-576 | sweeping idle windows is unobservable if and only if bucket_seconds <= window_seconds + 300 (each at least one) |
| `SlidingWindow.LongBucketLost` | edge/crates/ddos/src/lib.rs:571-576 | otherwise a sweep discards a bucket that still counts |
| `AdaptiveBlocking.AdaptiveBlocker.Check` | edge/crates/ddos/src/lib.rs:292-312 | a check sees a block until it runs out and forgets it then |
| `AdaptiveBlocking.AdaptiveBlocker.RecordRequest` | edge/crates/ddos/src/lib.rs:314-388 | the new windows, blocks and answer are those of the specification function, whose meaning `RecordedIff` gives |
| `AdaptiveBlocking.AdaptiveBlocker.Unblock` | edge/crates/ddos/src/lib.rs:390-396 | lifting a block removes it and reports whether there was one; no check sees it afterwards |
| `AdaptiveBlocking.AdaptiveBlocker.AdmitEvent` | edge/crates/ddos/src/lib.rs:315-332 | sweeping, the block check and the table limit; `AdmitIff` says when the event is counted |
| `AdaptiveBlocking.AdaptiveBlocker.CountEvent` | edge/crates/ddos/src/lib.rs:334-388 | counting an event and blocking its address |
| `AdaptiveBlocking.TriggerMeans` | edge/crates/ddos/src/lib.rs:447-469 | each reason is given exactly when its two thresholds are met and those of no earlier reason are |
| `AdaptiveBlocking.AdmitIff` | edge/crates/ddos/src/lib.rs:314-332 | an event is counted if and only if no block of its address is in force by the clocks and the address still has a window or fewer than the maximum are awake |
| `AdaptiveBlocking.RecordedIff` | edge/crates/ddos/src/lib.rs:314-388 | under that condition the address's window takes the event; otherwise it is only swept, and there is no block |
| `AdaptiveBlocking.RecordProjects` | edge/crates/ddos/src/lib.rs:314-388 | a recorded request moves every address's window by sweeps, and only its own by the event |
| `AdaptiveBlocking.BlocksOnCounts` | edge/crates/ddos/src/lib.rs:334-388 | counting an event blocks exactly when the events in the window meet a threshold, with that reason and expiry |
| `AdaptiveBlocking.RunProjects` | edge/crates/ddos/src/lib.rs:314-388 | the window of an address after any run is the outcome of its own steps |
| `AdaptiveBlocking.WindowOfRun` | edge/crates/ddos/src/lib.rs:314-388 | right after a counted request the window is that of the address's counted events alone, sweeps notwithstanding |
| `AdaptiveBlocking.RunBlocksOnCounts` | edge/crates/ddos/src/lib.rs:314-388 | over every run, a request blocks its address exactly when it is counted and the address's counted events still in the window meet a threshold |
| `AdaptiveBlocking.WindowsOfSenders` | edge/crates/ddos/src/lib.rs:314-388 | in every run only addresses that sent requests have windows |
| `AdaptiveBlocking.AllCounted` | edge/crates/ddos/src/lib.rs:314-332 | in every run with no more senders than the table tracks and no block of the address met, every request of the address is counted |
| `AdaptiveBlocking.RunBlocksOnRequests` | edge/crates/ddos/src/lib.rs:314-388 | in such a run the last request blocks its address exactly when all its requests still in the window meet a threshold, with that reason, totals and expiry |
| `AdaptiveBlocking.HarmlessNeverBlocked` | edge/crates/ddos/src/lib.rs:314-388 | an address whose requests in the window never meet a threshold is never blocked, whatever the others do |
| `AdaptiveBlocking.FirstBlock` | edge/crates/ddos/src/lib.rs:314-388 | the first request with which an address's requests in the window meet a threshold blocks it, and none before |
| `AdaptiveBlocking.BlockKept` | edge/crates/ddos/src/lib.rs:292-332 | before its expiry no operation but lifting it ends a block or blocks anew |
| `AdaptiveBlocking.BlockLastsExactly` | edge/crates/ddos/src/lib.rs:521-555 | a block survives every run before its expiry in which it is not lifted, and a check sees it exactly until then |
| `CircuitBreaker.CircuitBreakers.IsOpen` | edge/crates/http-proxy/src/lib.rs:1254-1268 | the answer of the lazy query, the clearing it does, and that no answer about any key from then on changes |
| `CircuitBreaker.CircuitBreakers.RecordResult` | edge/crates/http-proxy/src/lib.rs:1385-1412 | the breaker after a result |
| `CircuitBreaker.HistoryTracked` | edge/crates/http-proxy/src/lib.rs:1385-1412 | the stored failure count and opening time are those of the key's history |
| `CircuitBreaker.OpenIffHistory` | edge/crates/http-proxy/src/lib.rs:1254-1268 | in every interleaving, a breaker is open if and only if at least max(1, threshold) failures end its results and the last is less than max(1, open_seconds) old |
| `CircuitBreaker.QueriesUnobservable` | edge/crates/http-proxy/src/lib.rs:1254-1268 | leaving out all queries changes no answer |
| `CircuitBreaker.DisabledNeverOpen` | edge/crates/http-proxy/src/lib.rs:1385-1412 | with breakers disabled none is ever open |
| `CircuitBreaker.KeysApart` | edge/crates/http-proxy/src/lib.rs:4852-4854 | for route ids and prefixes without a colon, one breaker serves one upstream of one prefix of one route |
| `CircuitBreaker.UpstreamsApart` | edge/crates/http-proxy/src/lib.rs:4852-4854 | a result of one upstream leaves the breakers of all others under its prefix alone |
| `CircuitBreaker.KeySharedIff` | edge/crates/http-proxy/src/lib.rs:4852-4854 | some other triple has the same key if and only if the route id, prefix or upstream contains a colon |
| `InFlight.StepKeepsInv` | edge/crates/http-proxy/src/lib.rs:1270-1312 | every atomic step keeps the invariant, and a release never meets a zero counter |
| `InFlight.CountersAreExact` | edge/crates/http-proxy/src/lib.rs:1270-1312 | in every reachable state of every interleaving a counter equals the permits out and is at most the limit |
| `InFlight.RefusedOnlyWhenFull` | edge/crates/http-proxy/src/lib.rs:1270-1300 | after its load a request can be refused exactly when all permits are out, and its exchange can succeed exactly when one is free |
| `DigestAuth.IssuedNonceValidIff` | edge/crates/http-proxy/src/lib.rs:4717-4743 | a nonce the server stamps is valid exactly from the skew before its stamp to its lifetime after it |
| `DigestAuth.DigestGuard.VerifyNonce` | edge/crates/http-proxy/src/lib.rs:4723-4743 | a nonce passes exactly when it is well-formed, in its time and rightly signed, the signatures compared without early exit |
| `DigestAuth.DigestGuard.Verify` | edge/crates/http-proxy/src/lib.rs:4637-4697 | a request passes exactly when all fields, nonce, count and response check out, in the sense of `DigestClient.VerifiedIff` |
| `DigestAuth.DigestGuard.Authorized` | edge/crates/http-proxy/src/lib.rs:4637-4708 | the answer and the pruned, extended replay map; `DigestClient.ClientIsAuthorized` and `ResponseBinds` say who gets through |
| `DigestAuth.ConstantTimeEq` | edge/crates/http-proxy/src/lib.rs:4766-4774 | the fold without early exit decides equality |
| `DigestAuth.KeyRemains` | edge/crates/http-proxy/src/lib.rs:4753-4759 | a recorded tuple stays on record until its expiry in every ordered run, however often the map is pruned |
| `DigestAuth.NoReplay` | edge/crates/http-proxy/src/lib.rs:4637-4708 | over every ordered run, a tuple accepted with a nonce stamped before that moment is never accepted again |
| `DigestAuth.RefusedIff` | edge/crates/http-proxy/src/lib.rs:4637-4708 | over every ordered run, a verified request is refused if and only if an earlier verified request carried its key and no pruning since then, its own included, came after that record's expiry |
| `DigestAuth.KeyAmbiguousIff` | edge/crates/http-proxy/src/lib.rs:4700 | a different tuple has the same replay key if and only if one of the five fields contains a colon |
| `DigestAuth.SharedKeyRefused` | edge/crates/http-proxy/src/lib.rs:4699-4707 | a verified request is refused after one of another tuple that shares its key |
| `DigestAuth.RecordedPassesIff` | edge/crates/http-proxy/src/lib.rs:4699-4707 | a verified request on record passes if and only if the map is full and the record has expired |
| `DigestAuth.ReplayRun` | edge/crates/http-proxy/src/lib.rs:4637-4708 | for such a nonce, the run that does it: the request, others up to the pruning limit at the same moment, and the request again when its record expires |
| `DigestAuth.RepeatableIff` | edge/crates/http-proxy/src/lib.rs:4637-4708 | some ordered run accepts a tuple at a given moment and once more later if and only if its nonce was not stamped before that moment |
| `DigestClient.VerifiedIff` | edge/crates/http-proxy/src/lib.rs:4637-4697 | a request is verified if and only if it is complete, names this realm, algorithm and resource, carries a live nonce and a well-formed count, and its response is the one of sections 3.4.1 to 3.4.3 of RFC 7616 for the stored password and this verb |
| `DigestClient.NonceValidIff` | edge/crates/http-proxy/src/lib.rs:4717-4749 | a nonce is valid if and only if it is a 64-bit hexadecimal stamp, a dot and the signature of secret, realm and stamp, at most 30 seconds early and 5 minutes late |
| `DigestClient.NonceBinds` | edge/crates/http-proxy/src/lib.rs:4745-4749 | without a hash collision a nonce is valid in one realm only |
| `DigestClient.ClientIsAuthorized` | edge/crates/http-proxy/src/lib.rs:4637-4708 | a client that knows the password and answers an issued nonce in its time is verified, and let through exactly when its key is not on record |
| `DigestClient.ResponseBinds` | edge/crates/http-proxy/src/lib.rs:4691-4697 | two verified requests with one response and no hash collision among their own texts agree in the secret, the whole challenge and the target |
| `DigestClient.PasswordMatters` | edge/crates/http-proxy/src/lib.rs:4691-4697 | two verified requests that differ at most in the stored password have the same one, without a collision |
| `DigestClient.VerbMatters` | edge/crates/http-proxy/src/lib.rs:4691-4697 | and likewise for the verb |
| `Balancing.SpreadCount` | edge/crates/load-balancer/src/lib.rs:105-123 | the wheel holds every item max(1, weight) times |
| `Balancing.TurnIsRotation` | edge/crates/load-balancer/src/lib.rs:117-132 | one full turn from any counter value is the wheel, rotated |
| `Balancing.KeyAdvances` | edge/crates/load-balancer/src/lib.rs:105-132 | in any run over many keys without clearing or wrap, a key's indices are consecutive positions |
| `Balancing.CountersBounded` | edge/crates/load-balancer/src/lib.rs:203-213 | over any run of turns on any keys the counters never number more than one above the limit of 100000, and up to the limit none is dropped |
| `Balancing.RotationIsFair` | edge/crates/load-balancer/src/lib.rs:105-132 | in any full turn of a key, wherever it starts and whatever other keys do meanwhile, each item is chosen exactly max(1, weight) times |
| `Balancing.RoundRobinIsFair` | edge/crates/load-balancer/src/lib.rs:125-132 | plain round robin chooses each of the distinct items of a list exactly once in any full turn of a key |
| `Balancing.LastMax` | edge/crates/load-balancer/src/lib.rs:169-189 | the last of the maxima |
| `Balancing.FirstMin` | edge/crates/load-balancer/src/lib.rs:134-139 | the first of the minima |
| `Balancing.RemovalKeepsSelection` | edge/crates/load-balancer/src/lib.rs:169-189 | removing an item that was not selected leaves the selection, ties included |
| `Balancing.InsertionKeepsOrTakes` | edge/crates/load-balancer/src/lib.rs:169-189 | inserting one anywhere keeps the selection or selects the new one |
| `Balancing.RendezvousMinimalDisruption` | edge/crates/load-balancer/src/lib.rs:169-189 | the same of pools with unhealthy members: one more upstream anywhere changes the choice to itself or not at all |
| `Balancing.ScoreMeans` | edge/crates/load-balancer/src/lib.rs:180-188 | the score is the hash times max(1, weight), held at the largest 64-bit number |
| `Balancing.HeavierStays` | edge/crates/load-balancer/src/lib.rs:169-189 | raising the weight of the selected upstream keeps it selected |
| `Balancing.RecordedIsOwn` | edge/crates/load-balancer/src/lib.rs:134-139 | a number recorded for an upstream is read back for it and for no other of the route; nothing recorded reads as zero |
| `Balancing.SecondIndex` | edge/crates/load-balancer/src/lib.rs:146-157 | the second of two choices is never the first |
| `Balancing.TwoChoicesTies` | edge/crates/load-balancer/src/lib.rs:141-167 | of up to two upstreams the first of the cheapest is chosen; of more, the one whose turn it is unless its rival is strictly cheaper |
| `Balancing.TwoChoicesAvoidWorst` | edge/crates/load-balancer/src/lib.rs:141-167 | among several upstreams the strictly most loaded one is never chosen |
| `Balancing.LoadBalancer.EvictIfNeeded` | edge/crates/load-balancer/src/lib.rs:203-213 | maps beyond the limit are cleared |
| `Balancing.LoadBalancer.RoundRobin` | edge/crates/load-balancer/src/lib.rs:125-132 | the upstream at the counter's position, and the counter moved on by one |
| `Balancing.LoadBalancer.SelectWeightedIndex` | edge/crates/load-balancer/src/lib.rs:105-123 | the index at the counter's position on the wheel, and the counter moved on by one |
| `Balancing.LoadBalancer.PowerOfTwoChoices` | edge/crates/load-balancer/src/lib.rs:141-167 | the cheaper of two different upstreams, the first on a tie |
| `Balancing.LoadBalancer.Select` | edge/crates/load-balancer/src/lib.rs:24-64 | success exactly when a healthy upstream exists (and, hashing by address, the address is known), the choice of each of the eight algorithms, and the counters afterwards |
| `Balancing.LoadBalancer.SelectAmong` | edge/crates/load-balancer/src/lib.rs:42-63 | the choice of each algorithm from a healthy pool, and the turn it takes |
| `Selection.FilterEligible` | edge/crates/http-proxy/src/lib.rs:3117-3155 | the filter yields the eligible upstreams of one kind in order; its breaker queries change no later answer |
| `Selection.StickyUpstream` | edge/crates/http-proxy/src/lib.rs:4776-4790 | the upstream a cookie names, or none that it names exists |
| `Selection.PoolChoices` | edge/crates/http-proxy/src/lib.rs:3117-3155 | a filtered pool is all healthy and is empty exactly when no upstream of its kind is eligible |
| `Selection.EligibleIffHistory` | edge/crates/http-proxy/src/lib.rs:3117-3155 | an upstream may be used if and only if it is healthy and its own results do not end in a recent run of failures |
| `Selection.SelectFrom` | edge/crates/http-proxy/src/lib.rs:3117-3155 | selection of one kind succeeds exactly when an upstream of it is eligible, and returns one |
| `Selection.SelectPooled` | edge/crates/http-proxy/src/lib.rs:3117-3155 | primaries first and backups only where those give nothing, the choice being the balancer's among the eligible ones |
| `Selection.SelectAvailable` | edge/crates/http-proxy/src/lib.rs:3096-3155 | selection succeeds exactly when an upstream is healthy with a closed breaker, returns such a one, a sticky one if eligible, and otherwise a backup only when no primary is eligible |
| `Selection.RouteUnavailableReason` | edge/crates/http-proxy/src/lib.rs:2966-2992 | the reason as a function of the pool and the breakers |
| `Selection.ReasonIsTrueIff` | edge/crates/http-proxy/src/lib.rs:2966-2992 | after a failure the reason is exactly: no upstream, none healthy, or all healthy ones behind open breakers; it misleads only when hashing by address lacked the address |
| `Selection.ReasonMisleads` | edge/crates/http-proxy/src/lib.rs:2966-2992 | such a failure: one healthy primary without a breaker, hashing by address, and neither address nor cookie |
| `Middleware.ExpandMiddlewareNames` | edge/crates/http-proxy/src/lib.rs:4368-4387 | the recursion with an output list terminates on every chain graph and appends the capped expansion |
| `Middleware.ExpandIsCutPreorder` | edge/crates/http-proxy/src/lib.rs:4368-4387 | on every chain graph, cyclic ones included, the expansion is the preorder of the unfolding down to the cap |
| `Middleware.NextLevel` | edge/crates/http-proxy/src/lib.rs:4368-4387 | one level more adds exactly the names the members of that level stand for |
| `Middleware.CapHarmlessIff` | edge/crates/http-proxy/src/lib.rs:4368-4387 | on every chain graph, expanding any deeper changes nothing if and only if no member of any level below the cap stands for a name |
| `Middleware.CapHarmlessFinitely` | edge/crates/http-proxy/src/lib.rs:4368-4387 | the same, decided by finitely many levels below the cap: as many as there are chains and middlewares |
| `Middleware.SelfChainIsCut` | edge/crates/http-proxy/src/lib.rs:4368-4387 | a middleware that chains to itself is cut by the cap |
| `Middleware.FiniteIff` | edge/crates/http-proxy/src/lib.rs:4368-4387 | a graph has a finite unfolding of at most n levels if and only if level n has no members |
| `Middleware.FiniteIsUnfold` | edge/crates/http-proxy/src/lib.rs:4368-4387 | a finite unfolding is unique: the one the unfolding by levels arrives at |
| `Middleware.ShallowIsWhole` | edge/crates/http-proxy/src/lib.rs:4368-4387 | a finite unfolding within the cap is expanded completely |
| `Middleware.EffectiveMiddleware.FromDomain` | edge/crates/http-proxy/src/lib.rs:592-608 | the initial settings are those of the domain rules, the authentications unset |
| `Middleware.EffectiveMiddleware.Apply` | edge/crates/http-proxy/src/lib.rs:619-653 | applying a middleware yields the specified settings |
| `Middleware.AppliedOverrides` | edge/crates/http-proxy/src/lib.rs:619-653 | each of the fourteen settings is taken over exactly when the middleware defines it |
| `Middleware.FromRules` | edge/crates/http-proxy/src/lib.rs:592-617 | the settings for a list of names are those in force after its expansion |
| `Middleware.LastDefinitionWins` | edge/crates/http-proxy/src/lib.rs:592-653 | the setting in force is that of the last expanded middleware that defines it, else the domain's |
| `AnalyticsWriter.Writer.TryInsert` | edge/crates/storage/src/lib.rs:1257-1264 | an insert stores its batch, or fails having stored any part of it |
| `AnalyticsWriter.Writer.Flush` | edge/crates/storage/src/lib.rs:1247-1276 | two attempts, then the spool, then the loss that is logged |
| `AnalyticsWriter.Writer.Receive` | edge/crates/storage/src/lib.rs:1215-1224 | an event is buffered, and a full buffer flushed |
| `AnalyticsWriter.Writer.ParseRows` | edge/crates/storage/src/lib.rs:1316-1324 | the rows of a file that parse, in order; corrupt ones are skipped |
| `AnalyticsWriter.Writer.Replay` | edge/crates/storage/src/lib.rs:1300-1341 | the files are replayed in order up to the first failure; a replayed file goes with its corrupt rows |
| `AnalyticsWriter.Writer.Shutdown` | edge/crates/storage/src/lib.rs:1229-1240 | the queue is drained and the rest flushed before the loop ends |
| `AnalyticsWriter.FlushStores` | edge/crates/storage/src/lib.rs:1247-1276 | a flush empties the buffer; the first attempt that succeeds is the last and stores the batch, and failed ones leave only what they wrote |
| `AnalyticsWriter.FlushSpools` | edge/crates/storage/src/lib.rs:1265-1276 | the batch becomes a file exactly when both attempts fail and the spool works, and no other file is touched |
| `AnalyticsWriter.FlushWhenFull` | edge/crates/storage/src/lib.rs:1219-1224 | below 250 events an event only joins the buffer; with the 250th the buffer goes |
| `AnalyticsWriter.ReplayRestores` | edge/crates/storage/src/lib.rs:1300-1341 | a replay that goes well stores the events of every listed file once and removes those files and no others |
| `AnalyticsWriter.ReplayStops` | edge/crates/storage/src/lib.rs:1300-1341 | the first file that cannot be stored ends it: that file and the ones after it stay |
| `AnalyticsWriter.FlushSound` | edge/crates/storage/src/lib.rs:1247-1276 | a flush keeps the balance and empties the buffer |
| `AnalyticsWriter.ReplaySound` | edge/crates/storage/src/lib.rs:1300-1341 | a replay keeps the balance |
| `AnalyticsWriter.StepSound` | edge/crates/storage/src/lib.rs:1213-1242 | every turn of the loop keeps the balance and the buffer bound |
| `AnalyticsWriter.NothingIsLostSilently` | edge/crates/storage/src/lib.rs:1211-1341 | over every run, whatever the spool holds at the start and whatever fails: received and initially spooled events plus known repetitions are, as multisets, the buffer, the store, the spool files, the batches whose spool write failed and the replaced files; fewer than 250 are buffered, none at exit |
| `AnalyticsWriter.FreshRun` | edge/crates/storage/src/lib.rs:1284-1298 | if the names ready for the flushes of a run, drains included, differ from each other and from the files at the start, no file is replaced |
| `AnalyticsWriter.ExactlyOnce` | edge/crates/storage/src/lib.rs:1211-1341 | with such names, inserts that fail without effect and removals that succeed, each event received or spooled at the start is in exactly one place, once |
| `AnalyticsWriter.CleanRunRepeats` | edge/crates/storage/src/lib.rs:1247-1341 | failures without effect and successful removals cause no repetition |
| `AnalyticsWriter.ReplacedIff` | edge/crates/storage/src/lib.rs:1284-1298 | over every run, events are lost to replaced files if and only if the log of writes and removals has a write under a name that was written before, or held events at the start, and was not removed since |
| `AnalyticsWriter.ClashLosesEvent` | edge/crates/storage/src/lib.rs:1284-1298 | such a run from an empty spool: two batches spooled under one name, of which the first is lost |
| `Chunked.FindCrlfIsFirst` | edge/crates/docker-discovery/src/lib.rs:490-492 | the position found is a line end and the first one |
| `Chunked.DecodeChunkedBody` | edge/crates/docker-discovery/src/lib.rs:454-488 | the cursor loop terminates on every input and computes the specified body or error |
| `Chunked.DecodeFramed` | edge/crates/docker-discovery/src/lib.rs:454-488 | every framed body within the limit decodes to its payload |
| `Chunked.DecodeFindsFrames` | edge/crates/docker-discovery/src/lib.rs:454-488 | every decoded body is framed, with that payload, within the limit |
| `Chunked.DecodeIffFramed` | edge/crates/docker-discovery/src/lib.rs:454-488 | decoding succeeds with a result if and only if the body is a row of sized chunks and a zero chunk whose payload is that result and within 5 MiB |
| `Chunked.HeaderLineIsSizeLine` | edge/crates/docker-discovery/src/lib.rs:459-467 | a size in hexadecimal digits of either case with any leading zeros, with or without an ASCII extension, is read back |
| `Chunked.PaddedSize` | edge/crates/docker-discovery/src/lib.rs:459-467 | blanks around the digits leave the announced size alone |
| `Chunked.RefusalKinds` | edge/crates/docker-discovery/src/lib.rs:454-488 | after any well-framed chunks, what is wrong with the rest decides the error |
| `Chunked.RefusedLines` | edge/crates/docker-discovery/src/lib.rs:459-467 | there, a line that is not UTF-8 and a line whose trimmed text before a semicolon is no hexadecimal number are refused as such |
| `Chunked.DecodeInvertsEncode` | edge/crates/docker-discovery/src/lib.rs:454-488 | chunks encoded by section 7.1 of RFC 9112, with any spelling of their sizes and any extensions, the last chunk included, decode to their concatenation if and only if it is within the limit |

## Left out

- Listeners, TLS, forwarding, WebSocket tunnels, certificates, DNS, Redis and ClickHouse clients: input and output over libraries.
- SQL and rollup queries, geo lookups, the overflow spool of the core crate: their meaning lies in foreign code or file handles.
- Firewall patterns, bot scores, policy order, CORS, caching, error pages, admin scopes, configuration defaults, metrics: long lists of independent branches.
- `PolicyRateLimiter`: the same refill-and-take arithmetic as the modelled token bucket under another key, without the periodic eviction.
- The database route registry: nested maps that would add only easy members.
- Concurrent callers of the `RouteRegistry` class: each of its methods is one step; interleaved loads and stores are the subject of `TableRace`, on values.
- Watchlist, sample lists and snapshots of the adaptive blocker: they do not enter its decisions.
- The classification of paths as suspicious and of statuses as failed, and the normalisation of tracked domains: inputs of an event.
- Counting and smoothing of requests and latencies in the load balancer: their stored values are inputs.
- Machine-word overflow in configuration products and in chunk sizes; only the balancer's counters and scores wrap or saturate as 64-bit words.
- AdaptiveBlocking.AdaptiveBlocker.RecordRequest: whether half a minute has passed since the last sweep is a parameter, so every schedule of sweeps is covered.
- AnalyticsWriter.Writer.Replay: a row is either an event or corrupt; JSON itself, and the sorting of the listing, are not modelled.
- AnalyticsWriter.Writer.Flush: a spool write either takes effect or leaves the file alone; temporary files are not modelled.
- DigestAuth.DigestGuard.Verify: header parsing is not modelled; the fields arrive as a map, one clock serves the nonce check and the replay map, and of the encoding of text in bytes only injectivity is used.
- DigestAuth.IssuedNonceValidIff: requires a signature that is not empty, as every hexadecimal SHA-256 digest is.
- VersionedPut.UpsertInternalRoute: body conversion, network checks and the write to the persistent store are inputs; a converted body carries a normalised, non-empty host from the API.
- VersionedPut.LastVersionWins: for hosts that no apex route can stand in for; `VersionedPut.OrderFreeIff` shows that the others differ.
- Balancing.RotationIsFair: for runs in which the counter map is not cleared and the counter does not wrap.
- VersionedPut.OrderFreeIff: hosts whose base is not normalised, which validation rejects, are not covered.
- TokenBucket.WaitSufficesIff: one division in `f64` counts as exact before it is rounded to nanoseconds.
- CircuitBreaker.OpenIffHistory: for one enabled configuration and a clock that does not run backwards.
- Selection.StickyUpstream: cookie parsing and the hash in an upstream's id are inputs.
- DigestClient.ResponseBinds: of the hash it uses that digests are 64 characters without a colon and that the texts compared do not collide; collision resistance itself is not modelled.
- AdaptiveBlocking.RunBlocksOnRequests: for runs with no more senders than the table tracks; `AdaptiveBlocking.AdmitIff` and `AdaptiveBlocking.RunBlocksOnCounts` cover the others.
