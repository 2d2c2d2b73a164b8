# wasi-auth: a Dafny model of its caches, codecs and bounded protocols

wasi-auth is an authentication and authorization stack: a native ingress that verifies bearer tokens and
caches what it learned, a signed context that carries the verified identity to the guest, policy decision
points spoken to in the AuthZEN JSON profile, and the adapters and small stores around them. This project
models the parts whose correctness spans several steps, functions or threads, and proves what they promise.

| file | models |
|---|---|
| `TokenCache.dfy` | the bounded last-touch token cache of the ingress |
| `Invalidation.dfy` | the generation counter fed by PostgreSQL notifications |
| `Authentication.dfy` | bearer authentication as an interleaving of requests, commits and notifications |
| `Availability.dfy` | when bearer authentication answers and when it refuses, over the same interleavings |
| `Staleness.dfy` | how old, in time, what the ingress serves can be, and runs that attain the bounds |
| `CedarReload.dfy` | the active-policy cache with double-checked locking and bounded retry |
| `Context.dfy`, `TrustedContext.dfy`, `Base64Url.dfy` | validated contexts and the sealed envelope between ingress and guest |
| `Identity.dfy` | issuer-scoped identifiers for Cedar and SpiceDB |
| `GrpcNormalizer.dfy` | promotion of trailers-only gRPC responses |
| `Json.dfy`, `AuthZenAttributes.dfy`, `AuthZenRequest.dfy`, `AuthZenDecision.dfy`, `AuthZenMeaning.dfy`, `AuthZenBytes.dfy` | the bounded AuthZEN documents |
| `Wasip2.dfy` | one outbound exchange under a single absolute deadline |
| `HttpHead.dfy`, `HeadVerdict.dfy`, `ContentLength.dfy`, `PdpReader.dfy`, `ConstantTime.dfy` | the HTTP reader and the token comparison of the Cedar decision point |
| `AtomicStore.dfy` | the idempotent atomic commit store |
| `SchemaPlan.dfy` | migration planning |
| `LocalClosure.dfy` | the path-local dependency closure |
| `RateLimit.dfy` | bucket keys and the reported waiting time |
| `Common.dfy`, `Text.dfy`, `Decimal.dfy`, `Runs.dfy` | shared values: options, bytes, UTF-8, string order, numerals, chains of steps |

## How the model is set up

- Threads are modelled as step systems. A step is one atomic access of the source: a load of the health flag,
  a load of the generation, one critical section of the token-cache mutex, one lock acquisition, one database
  query. Steps of all requests, database commits, deliveries of notifications, local invalidations and the loss
  of the listener interleave freely.
- The database is a counter of authorization-affecting commits. One query reads one version. Every commit
  queues one notification, and notifications are delivered in order, some time after their commit. Fields
  called history variables in the files record versions, counter values and times; no step decides anything by
  them.
- A load takes the clock: the expiry check of the JWT library and the session query each get the value read for
  them. Clock values of different steps are unrelated unless a result says otherwise.
- The health flag and the listener task are separate. A run starts with what `connect` returned: the flag is up,
  and the listener may have been lost between its registration and that moment.
- The 64-bit generation wraps around. Results about epochs are for runs in which it has moved fewer than 2^64
  times.
- SHA-256, HMAC, JWT verification, JSON text, URI and header syntax, and UTF-8 validation are function-valued
  parameters. Where a proof needs something of them it is a named hypothesis: no digest collision between
  tokens presented in the run (`Collisionless`), a parser that undoes its printer on the documents that are
  printed (`Faithful`), UTF-8 decoding that undoes encoding (`DecodesUtf8`), a tag that verifies only if it was
  made earlier under the same key (`Unforgeable`).
- Clocks, hosts and connections give arbitrary answers. The WASIp2 clock never runs back and reaches the
  deadline if it is read often enough; without that the source's waiting loops need not end.
- JSON documents are trees. Objects have no repeated members, and structures are in object form.

## What does not hold as written

Each of these comes with the exact condition and with inputs that fail.

- An authenticated AuthZEN subject may be built with the type `anonymous`. It is written and then refused when
  read. `AuthZenRequest.RequestRoundTrip` gives the condition, `AuthZenRequest.AnonymousTypeIsLost` the failing
  requests.
- Whether the Cedar decision point accepts a message can depend on how its bytes arrive.
  `PdpReader.AcceptanceIndependentOfPieces` gives the condition under which it does not;
  `PdpReader.PipelinedRequestDependsOnPieces` accepts and refuses the same bytes, with the parser in use.
- The canonical identifier of a principal can be too long for SpiceDB although every part passed validation.
  `Identity.SpicedbIdExactlyWhenShort` gives the limit, `Identity.LongPrincipalIsRefused` valid principals above it.
- The local closure can miss packages when two path-local packages share a name. It is exact when packages of
  one name depend on the same local names (`LocalClosure.Closure`). For a root that depends on two namesakes
  `LocalClosure.SharedNameIsExactWhenCovered` gives the condition and `LocalClosure.SharedNameLosesDependency`
  what is lost without it.
- The final-WASI split keeps only the first value of a repeated status field. `GrpcNormalizer.SplitKeepsMetadata`
  gives the condition, `GrpcNormalizer.RepeatedStatusIsLost` the responses that lose a value.
- A promoted gRPC response loses the values of a header that a trailer of the same name replaces.
  `GrpcNormalizer.HeadersSurviveExactly` gives the condition, `GrpcNormalizer.ReplacedHeaderIsLost` the responses
  that lose a header.
- A Content-Length with a leading plus sign, or with whitespace other than spaces and tabs around it, is accepted,
  which sections 5.5 and 8.6 of RFC 9110 do not allow. `ContentLength.AcceptedLengthIsLegal` says that these are
  the only two liberties; `ContentLength.OtherWhitespaceIsAccepted` and `ContentLength.ContentLengthRoundTrip`
  give accepted values that use them. The WASIp2 client takes the second one (`ContentLength.ClientValueIsLegal`).
- Cached facts are said to be revalidated within one second (docs/SUPPORT.md:25). The age of an entry counts from its store and not
  from its load, so the exact bound is the configured time plus what the request took from its query to its store:
  `Staleness.RevocationTakesEffectInTime`, attained by `Staleness.BoundIsAttained`.
- Cache reuse is said to stop when the listener disconnects (services/trusted-ingress/README.md:11). It does so if the listener was still there when
  `connect` raised the health flag; a listener lost before that leaves the flag up for good.
  `Invalidation.FlagIsTrueExactly` gives the condition, `Invalidation.ConnectRaces` both outcomes. The bound of the
  previous point holds either way.

## Model

| member | source | states |
|---|---|---|
| TokenCache.Deque.CachedToken | services/trusted-ingress/src/main.rs:176-192 | a lookup hands out the entry of the key only while it may be served, and leaves the deque with that entry at the back or gone |
| TokenCache.Deque.CacheToken | services/trusted-ingress/src/main.rs:194-216 | storing replaces any entry of the key, appends the new one and keeps the newest entries up to capacity |
| TokenCache.Deque.RemoveCachedToken | services/trusted-ingress/src/main.rs:218-226 | removal takes out the entry of the key and nothing else |
| TokenCache.LookupEffect | services/trusted-ingress/src/main.rs:176-192 | a lookup leaves every other entry; its own stays, unchanged, exactly when it is served |
| TokenCache.RunKeepsOrder | services/trusted-ingress/src/main.rs:176-226 | after every sequence of operations keys are unique, size is within capacity and the order is last-touch order |
| TokenCache.EvictionNeedsCapacityTouches | services/trusted-ingress/src/main.rs:204-215 | a key is evicted only after at least `capacity` distinct other keys were stored or hit since its own last touch |
| TokenCache.EntryOrigin | services/trusted-ingress/src/main.rs:189-212 | every cached entry is exactly what the last write to its key stored; hits never renew it |
| TokenCache.ServedOnlyWhileFresh | services/trusted-ingress/src/main.rs:176-212 | under a clock that never runs back, one verification is served only within `cache_revalidate_ms` of its store and before its expiry second, after any operations |
| Invalidation.StepIsLater | crates/wasi-auth/src/postgres/native.rs:89-168 | every move of the tracker keeps its history consistent and only adds to it, and after `connect` has returned a lowered health flag never comes up again |
| Invalidation.ReturnedIsConsistent | crates/wasi-auth/src/postgres/native.rs:78-144 | whatever the listener task did meanwhile, `connect` returns with the flag up and a consistent history |
| Invalidation.FlagIsTrueExactly | crates/wasi-auth/src/postgres/native.rs:89-161 | the flag tells at every later moment whether the listener is there exactly when the listener was there as `connect` raised it; otherwise it stays up and nothing is announced again |
| Invalidation.ConnectRaces | crates/wasi-auth/src/postgres/native.rs:89-144 | `connect` can return with the listener at work and with the listener lost |
| Invalidation.GenerationDeterminesBump | crates/wasi-auth/src/postgres/native.rs:85-105 | before wrap-around, a generation identifies the move of the counter that produced it |
| Authentication.StepKeepsInv | services/trusted-ingress/src/main.rs:107-147 | every atomic step keeps every cache label sound and every request's knowledge valid |
| Authentication.HitIsAFreshLoad | services/trusted-ingress/src/main.rs:113-145 | in every interleaving without a digest collision among the presented tokens, a cache hit equals an authoritative load of the presented token, with the clock of that load, at a version no older than the moment the observed generation was reached |
| Authentication.EveryAnswerIsFresh | services/trusted-ingress/src/main.rs:107-147 | in every such interleaving every answer reflects all commits announced or invalidated for before the request began, and with the health flag down nothing is answered from the cache |
| Availability.FailureIsJustified | services/trusted-ingress/src/main.rs:107-147 | in every interleaving a request fails only because one of its own steps found its token undecodable or expired, or because its own query, at a version no older than what was announced before the request began, gave no session |
| Availability.CheckLeadsTo | crates/wasi-auth/src/postgres/tokens.rs:615-648 | an entry of another generation or with other claims leads to a load, an unusable token to a rejection, everything else to a hit with the cached facts |
| Availability.RequestCanGoOn | services/trusted-ingress/src/main.rs:107-147 | no request waits for another: one of its own steps is possible until it is done |
| Availability.WarmRequestHits | services/trusted-ingress/src/main.rs:113-124 | from every state, a request for a token the cache can answer, met by no other step, is answered with exactly the cached facts |
| Availability.ColdRequestStores | services/trusted-ingress/src/main.rs:113-147 | from every state, a request that must load, met by no other step, is answered with what the database says and leaves that in the cache under the current generation |
| Staleness.RevocationTakesEffectInTime | services/trusted-ingress/src/main.rs:113-212 | in every run, whatever becomes of the listener, a cache hit contains every commit made more than `cache_revalidate_ms` plus the longest time from a query to its store before the lookup |
| Staleness.BoundIsAttained | services/trusted-ingress/src/main.rs:113-212 | for every such time there is a run whose hit misses a commit made exactly that long before |
| Staleness.ComparisonIsNeeded | services/trusted-ingress/src/main.rs:140-145 | without the before/after comparison there is a run that serves stale facts |
| Authentication.SharedCacheIsARun | services/trusted-ingress/src/main.rs:107-226 | in every interleaving the shared cache is the run of all requests' cache operations in lock order, so keys are unique, size is within capacity and order is last-touch order at every moment |
| Authentication.SharedEntryIsYoung | services/trusted-ingress/src/main.rs:113-192 | in every interleaving an entry handed to a request comes from the last write to its key, at most `cache_revalidate_ms` before, and has not expired |
| Authentication.SharedEvictionNeedsTouches | services/trusted-ingress/src/main.rs:143-216 | in every interleaving a store evicts another key only after at least `capacity` other keys were touched, by any request, since that key was |
| Authentication.RejectionForgetsToken | services/trusted-ingress/src/main.rs:125-128 | in every interleaving, after a cached token is rejected no entry of it is left and no other entry is gone |
| CedarReload.ReturnedProviderIsFresh | services/trusted-ingress/src/main.rs:636-655 | in every interleaving the returned provider is no older than an epoch read during that call |
| CedarReload.CallFailureIsJustified | services/trusted-ingress/src/main.rs:636-670 | in every interleaving a call fails only if one of its own reads found the health flag down, which then stays down, or its own load failed |
| CedarReload.CallsCanGoOn | services/trusted-ingress/src/main.rs:636-655 | in every interleaving no lock is left behind: as long as a call is not done, some call can go on |
| CedarReload.CallCompares | services/trusted-ingress/src/main.rs:637-643 | from every idle state an undisturbed call with equal epochs returns exactly the cached provider; otherwise it goes for the write lock |
| CedarReload.CallRechecks | services/trusted-ingress/src/main.rs:645-649 | the same comparison under the write lock, which is released with the cached provider or kept for the load |
| CedarReload.ColdCallReloads | services/trusted-ingress/src/main.rs:636-670 | from every idle state with an outdated cache an undisturbed call whose load succeeds publishes the current policy under the current generation and returns it |
| CedarReload.CachedEpochNeverGoesBack | services/trusted-ingress/src/main.rs:645-654 | from any point of a run to any later one the cached epoch does not move backwards, as a point of the generation's history and, before wrap-around, as a number |
| CedarReload.UnstableMeansThreeMoves | services/trusted-ingress/src/main.rs:657-670 | the unstable-revision error means the epoch differed in all three load windows, so the generation moved at least three times during the call |
| CedarReload.LoadConsistentCedar | services/trusted-ingress/src/main.rs:657-670 | the retry loop returns the first settled load, fails at the first failed step, and is unstable exactly when all three turns moved |
| CedarReload.CallFollowsTheLoop | services/trusted-ingress/src/main.rs:645-670 | in every interleaving the end of a load window takes a call exactly where that loop decides on the windows seen so far |
| CedarReload.BrokenTurnEndsTheCall | services/trusted-ingress/src/main.rs:657-670 | in every interleaving a failed epoch read or load inside the loop ends the call as it ends the loop |
| Context.CheckAllAccepts | crates/wasi-auth/src/context.rs:238-245 | a list of valid identifiers is accepted unchanged |
| Context.CheckAllSound | crates/wasi-auth/src/context.rs:238-245 | an accepted list is unchanged and holds only valid identifiers |
| Context.IdentifierExactly | crates/wasi-auth/src/context.rs:422-435 | an identifier is a non-empty text of at most 256 bytes without control and white-space characters; each other text has its own error |
| Context.PrincipalExactly | crates/wasi-auth/src/context.rs:156-173 | a principal is built exactly with an issuer of 1 to 512 bytes without control characters |
| Context.AuthorizationExactly | crates/wasi-auth/src/context.rs:232-257 | an authorization is built exactly with identifiers as permissions and a token of 1 to 4096 bytes without control characters |
| Base64Url.DecodeOfEncode | crates/wasi-auth/src/http.rs:173-215 | decoding undoes encoding for every byte string |
| Base64Url.EncodeOfDecode | crates/wasi-auth/src/http.rs:205-215 | decoding is strict: every accepted text is the one encoding of its bytes |
| Base64Url.EncodeShape | crates/wasi-auth/src/http.rs:173-175 | the text has exactly ceil(4n/3) symbols, all from the URL-safe alphabet |
| TrustedContext.SplitAtOnlyDot | crates/wasi-auth/src/http.rs:201-204 | the split succeeds only at a single dot and loses nothing |
| TrustedContext.SplitOfJoin | crates/wasi-auth/src/http.rs:175-204 | joining two dot-free parts with a dot is undone by the split |
| TrustedContext.RebuildFromLists | crates/wasi-auth/src/http.rs:156-278 | lists with the right elements rebuild exactly the sets and fields of a valid context |
| TrustedContext.EnvelopeOfText | crates/wasi-auth/src/http.rs:201-212 | a payload text has only one envelope that verifies under a key |
| TrustedContext.OpenOfSeal | crates/wasi-auth/src/http.rs:120-279 | opening a sealed envelope with the same key gives the context back exactly when audience, method, path, request id and window match, and the right error otherwise |
| TrustedContext.SealExactly | crates/wasi-auth/src/http.rs:120-180 | sealing succeeds exactly for absolute paths, live contexts, agreeing policy revisions and at most 24543 bytes of JSON, and otherwise names the first of these that fails |
| TrustedContext.SealedIsOpened | crates/wasi-auth/src/http.rs:120-279 | end to end, such a context is sealed, and opened as it was by every holder of the key for the same audience, method, path and request within the window |
| TrustedContext.OpenRefuses | crates/wasi-auth/src/http.rs:189-212 | a relative path, an overlong envelope and every text that is not an envelope under the key are refused, each with its error |
| TrustedContext.OpenExactly | crates/wasi-auth/src/http.rs:189-279 | an authentic envelope is refused when unreadable, bound elsewhere or outside its window, in this order; otherwise it yields exactly the valid context that its payload describes, or is an invalid context |
| TrustedContext.OpenYieldsValidContext | crates/wasi-auth/src/http.rs:226-279 | whatever the payload says, an opened context meets every constructor's invariant, is bound to the request id and is not expired |
| TrustedContext.OpenedWasSealed | crates/wasi-auth/src/http.rs:189-232 | with an ideal MAC, over any run, every opened context was sealed earlier, in that very envelope, for the same binding, and its window is still open |
| Identity.CanonicalIdIsInjective | crates/wasi-auth/src/cedar.rs:284-294 | two validated principals share an identifier exactly when issuer and user id agree |
| Identity.SpicedbIdExactlyWhenShort | crates/wasi-auth/src/spicedb.rs:677-733 | the subject identifier is a SpiceDB id exactly when issuer and user id together take at most 764 bytes |
| Identity.LongPrincipalIsRefused | crates/wasi-auth/src/spicedb.rs:677-733 | for all lengths the constructors allow above that limit there is a valid principal whose identifier is refused |
| GrpcNormalizer.GrpcResponseBody.PollFrame | crates/wasi-auth/src/spin_grpc.rs:50-63 | polling replays the stored frame once and then the body, in order |
| GrpcNormalizer.NormalizeTrailersOnly | crates/wasi-auth/src/spin_grpc.rs:91-120 | at most 17 polls; for every body the data is the same, a streaming response is observed as before and a promoted one carries every trailer and every header no trailer replaces; a quick body without data is always promoted |
| GrpcNormalizer.NormalizeAwaitingFirstFrame | crates/wasi-auth/src/spin_grpc.rs:129-147 | the awaiting form decides on a ready poll, keeps data, trailers and the headers no trailer replaces, and promotes every body without data and with at most eight empty frames |
| GrpcNormalizer.DecisionPreserves | crates/wasi-auth/src/spin_grpc.rs:149-205 | every decision of the adapter, after any skipped polls, keeps the data, and the promoted block holds field by field every trailer, every header no trailer replaces and a status; a failed first frame becomes status 13 |
| GrpcNormalizer.HeadersSurviveExactly | crates/wasi-auth/src/spin_grpc.rs:160-205 | the headers keep their own values exactly when the trailers, or the status of a failed body, agree with them on shared names |
| GrpcNormalizer.ReplacedHeaderIsLost | crates/wasi-auth/src/spin_grpc.rs:171-182 | every response whose trailers differ from a header of the same name loses that header |
| GrpcNormalizer.PromotionKeepsStatus | crates/wasi-auth/src/spin_grpc.rs:171-182 | with status-free headers each status field of the trailers arrives, and status 0 appears only when the trailers carry none |
| GrpcNormalizer.SplitKeepsMetadata | crates/wasi-auth/src/spin_grpc.rs:226-233 | splitting headers and trailers again loses nothing exactly when no status field has a second value |
| GrpcNormalizer.RepeatedStatusIsLost | crates/wasi-auth/src/spin_grpc.rs:171-233 | from every response whose trailers repeat a status field, the split keeps the first value and loses the rest |
| GrpcNormalizer.ErrorStatusReachesClient | crates/wasi-auth/src/spin_grpc.rs:91-243 | end to end, the three status fields of the trailers of a data-free response reach the client as trailers with the same values, every other field as a header |
| AuthZenAttributes.NormalizeIsCanonical | crates/wasi-authz-contract/src/lib.rs:1317-1324 | sorting and deduplicating gives the one strictly sorted list of the same scopes, whatever the unstable sort does |
| AuthZenAttributes.NormalizeIsIdempotent | crates/wasi-authz-contract/src/lib.rs:1317-1324 | normalizing keeps the set of scopes and changes nothing the second time |
| AuthZenAttributes.ScopesRoundTrip | crates/wasi-authz-contract/src/lib.rs:656-744 | normal scope lists survive their wire form, the empty one by being omitted |
| AuthZenAttributes.SensitiveExactly | crates/wasi-authz-contract/src/lib.rs:1326-1342 | a name is sensitive exactly when a maximal stretch without separators is, in whatever case, a reserved word |
| AuthZenAttributes.ValidateAttributes | crates/wasi-authz-contract/src/lib.rs:1299-1315 | accepts exactly the bounded sets without reserved or repeated names and reports the first offender |
| AuthZenAttributes.AttributeSet.Insert | crates/wasi-authz-contract/src/lib.rs:497-508 | insertion keeps the set valid; it is refused exactly when full or repeated, and then changes nothing |
| AuthZenAttributes.ValueRoundTrip | crates/wasi-authz-contract/src/lib.rs:375-388 | every valid typed value survives its tagged form |
| AuthZenAttributes.AttributesRoundTrip | crates/wasi-authz-contract/src/lib.rs:402-529 | every valid attribute set survives its wire form |
| AuthZenAttributes.DecodedAttributesAreValid | crates/wasi-authz-contract/src/lib.rs:411-529 | whatever is accepted meets the bounds, uniqueness and name rules |
| AuthZenMeaning.ScopesExactly | crates/wasi-authz-contract/src/lib.rs:656-744 | a member is read as scopes exactly when it is absent or lists at most 32 identifiers, whose sorted list without repetition they are |
| AuthZenMeaning.AttributesExactly | crates/wasi-authz-contract/src/lib.rs:402-529 | a member is read as attributes exactly when it is absent or its items say them one by one, with no other member, and they form a valid set |
| AuthZenRequest.SubjectRoundTrip | crates/wasi-authz-contract/src/lib.rs:692-764 | a subject survives its wire form exactly when it is not an authenticated subject of type `anonymous` |
| AuthZenRequest.RequestRoundTrip | crates/wasi-authz-contract/src/lib.rs:692-969 | every constructible request survives its JSON form, with the same one exception |
| AuthZenRequest.DecodingIsCanonicalizing | crates/wasi-authz-contract/src/lib.rs:723-969 | every accepted document decodes to a valid request whose canonical document decodes to it again |
| AuthZenMeaning.SubjectExactly | crates/wasi-authz-contract/src/lib.rs:723-764 | a document is read as a subject exactly when its members say that subject, a valid one that does not pose as anonymous |
| AuthZenMeaning.RequestExactly | crates/wasi-authz-contract/src/lib.rs:723-969 | a document is read as a request exactly when its members say that request and the request is valid; every other document is refused |
| AuthZenRequest.RequestIgnoresUnknown | crates/wasi-authz-contract/src/lib.rs:663-969 | adding, removing or changing members unknown to the open levels, at any depth, never changes the outcome |
| AuthZenRequest.AnonymousTypeIsLost | crates/wasi-authz-contract/src/lib.rs:692-764 | every constructible request given an authenticated subject of type `anonymous` is still constructible and written, and then refused |
| AuthZenBytes.RequestIsPlain | crates/wasi-authz-contract/src/lib.rs:692-969 | every constructible request is written with profile names and 64-bit integers only, without fractions and at most eight levels deep |
| AuthZenBytes.RequestBytesRoundTrip | crates/wasi-authz-contract/src/lib.rs:1014-1025 | with a parser that undoes its printer on such documents, a request is written exactly within 64 KiB, and then read back, or refused as invalid JSON exactly when its subject poses as anonymous |
| AuthZenDecision.MetadataRoundTrip | crates/wasi-authz-contract/src/lib.rs:1028-1044 | valid decision metadata survives its wire form |
| AuthZenDecision.DecisionRoundTrip | crates/wasi-authz-contract/src/lib.rs:1157-1210 | every decision with valid metadata survives its JSON form |
| AuthZenBytes.DecisionBytesRoundTrip | crates/wasi-authz-contract/src/lib.rs:1157-1188 | with such a parser, a decision with valid metadata is written exactly within 64 KiB, and then read back |
| AuthZenDecision.ObligationsFailClosed | crates/wasi-authz-contract/src/lib.rs:1212-1250 | a document with a decision and an obligation other than null, an empty list or an empty object, in its context or in the extension of it, is refused for that reason and only then; no accepted one carries any |
| AuthZenDecision.AcceptedAnswerIsTheDocuments | crates/wasi-authz-contract/src/lib.rs:1176-1250 | the answer of an accepted document is the boolean in it, with valid metadata |
| AuthZenMeaning.DecisionExactly | crates/wasi-authz-contract/src/lib.rs:1176-1250 | a document is read as a decision exactly when it says that decision with valid metadata and carries no obligation; each other document is refused with its own error |
| AuthZenDecision.DecisionIgnoresUnknown | crates/wasi-authz-contract/src/lib.rs:1205-1241 | unknown members of the response and its context never change the outcome |
| Wasip2.CheckedRemaining | crates/wasi-authz-client/src/wasip2.rs:216-221 | the remaining time exists exactly before the deadline, is positive and reaches it |
| Wasip2.RaceWithDeadline | crates/wasi-authz-client/src/wasip2.rs:148-180 | success exactly when the operation finished first and cleanly with both clock reads before the deadline; cancellation, unavailability and timeout stay apart |
| Wasip2.WaitUntil | crates/wasi-authz-client/src/wasip2.rs:234-247 | a successful wait ends before the deadline |
| Wasip2.WriteRequestBody | crates/wasi-authz-client/src/wasip2.rs:365-390 | success wrote exactly the body in order, flushed, in time; failure leaves a prefix; no write exceeds the granted capacity; the loop ends; against a host that takes the body and wakes every wait only the deadline stops it |
| Wasip2.CollectResponseBody | crates/wasi-authz-client/src/wasip2.rs:393-432 | success collected exactly the delivered bytes up to the close, within the limit and in time, each read asking for the room left and one byte more, at most 8192; only an oversized answer is too large; the loop ends; in time, with every wait woken, only a failed or oversized read keeps it from success |
| Wasip2.DeclaredContentLength | crates/wasi-authz-client/src/wasip2.rs:183-207 | none, one number, or an error: exactly by the Content-Length fields present |
| Wasip2.DeclaredLengthRoundTrip | crates/wasi-authz-client/src/wasip2.rs:192-204 | every number printed in decimal is read back up to the document limit and is too large beyond it |
| Wasip2.LengthRefusal | crates/wasi-authz-client/src/wasip2.rs:183-207 | a value is a protocol error exactly when it is not text or not digits between white space |
| Wasip2.SchemeIsNamed | crates/wasi-authz-client/src/wasip2.rs:276-280 | a scheme is known exactly by its name, `http` or `https` |
| Wasip2.Prepare | crates/wasi-authz-client/src/wasip2.rs:264-299 | the request resource holds every part of the request, or there is a protocol error: exactly when the scheme is unknown or the host refuses a part |
| Wasip2.StartExchange | crates/wasi-authz-client/src/wasip2.rs:264-320 | nothing is handed to the host before the whole body is written and flushed; the three timeouts are what is left of the deadline; a request the host takes in time is handed over |
| Wasip2.FinishExchange | crates/wasi-authz-client/src/wasip2.rs:321-362 | a response consists of the host's status and fields and exactly the collected bytes, agrees with a declared length, can be built and is in time; a well-formed answer in time is refused only for its body |
| Wasip2.SendRequest | crates/wasi-authz-client/src/wasip2.rs:250-362 | a request the host does not take is an error before a byte is written; a successful exchange handed over exactly the request, wrote exactly its body, collected exactly the response and ended before the one deadline; against a cooperative host an exchange in time fails only for a failed or oversized read or a body that is not as long as declared |
| HttpHead.UnlinesOfLines | services/cedar-pdp/src/main.rs:145-162 | the lines with their line ends are the text |
| HttpHead.LinesAreCut | services/cedar-pdp/src/main.rs:145-162 | no line contains a line end |
| HttpHead.LinesOfUnlines | services/cedar-pdp/src/main.rs:145-162 | any lines without line ends, put together, are cut apart again |
| HttpHead.LineOfWords | services/cedar-pdp/src/main.rs:147-153 | every line is exactly its words, in order, with whitespace around and between them |
| HttpHead.WordsOfLine | services/cedar-pdp/src/main.rs:147-153 | any words with whitespace around and between them are found again |
| HttpHead.CollectFields | services/cedar-pdp/src/main.rs:161-169 | the header loop yields the field of each line, in order, exactly when no line is bad |
| HttpHead.HeadRoundTrip | services/cedar-pdp/src/main.rs:143-173 | every printed head whose parts the library accepts, with one Host and no Transfer-Encoding, is read back, whatever whitespace precedes the values |
| HeadVerdict.HeadExactly | services/cedar-pdp/src/main.rs:143-173 | a head is accepted exactly when it is UTF-8 text of a request line and field lines, one of them Host and none Transfer-Encoding, and is then read line by line as written; every other head is a bad request |
| HeadVerdict.HeadAndLengthExactly | services/cedar-pdp/src/main.rs:143-236 | the verdict on a head together with its body length, each error exactly by what the lines announce |
| HeadVerdict.AcceptedStreamIsWellFormed | services/cedar-pdp/src/main.rs:118-197 | whatever the pieces, only streams that start with such a request are accepted, and read as they say |
| HeadVerdict.WellFormedStreamIsAccepted | services/cedar-pdp/src/main.rs:118-197 | every stream that starts with such a request is accepted under some error-free delivery |
| ContentLength.ContentLengthRoundTrip | services/cedar-pdp/src/main.rs:225-236 | every 64-bit number in decimal is read back, with or without a plus sign |
| ContentLength.OnlyPlusIsExtra | services/cedar-pdp/src/main.rs:225-236 | an accepted text is digits only exactly when it does not start with a plus sign, and every digit text of a 64-bit number is accepted |
| ContentLength.AcceptedValueIsLegal | services/cedar-pdp/src/main.rs:165-236 | a value that is accepted is legal on the wire exactly when it holds no plus sign and no whitespace other than spaces and tabs |
| ContentLength.LegalValueIsAccepted | services/cedar-pdp/src/main.rs:165-236 | every value that is legal on the wire and fits in 64 bits is accepted as its number |
| ContentLength.AcceptedLengthIsLegal | services/cedar-pdp/src/main.rs:143-236 | a head whose body length is accepted has exactly one Content-Length line, and that line is legal exactly under the same condition |
| ContentLength.OtherWhitespaceIsAccepted | services/cedar-pdp/src/main.rs:161-236 | every printed head is accepted with any other whitespace character before its values, and its Content-Length is then illegal on the wire |
| ContentLength.ClientValueIsLegal | crates/wasi-authz-client/src/wasip2.rs:183-207 | a length the WASIp2 client accepts is legal on the wire exactly when it holds no whitespace other than spaces and tabs |
| PdpReader.FindHeaderEnd | services/cedar-pdp/src/main.rs:216-218 | the first blank line, or none |
| PdpReader.HeaderEndInPrefix | services/cedar-pdp/src/main.rs:123-139 | a prefix of the stream shows the end of the head exactly when it covers it, at the same place |
| PdpReader.Connection.ReadHead | services/cedar-pdp/src/main.rs:122-139 | the head loop gathers what the reference says, with its errors |
| PdpReader.Connection.ReadBody | services/cedar-pdp/src/main.rs:177-188 | the body loop gathers what the reference says, with its errors |
| PdpReader.Connection.ReadRequest | services/cedar-pdp/src/main.rs:118-197 | the reader returns the reference outcome for every delivery |
| PdpReader.AcceptedIsFirstMessage | services/cedar-pdp/src/main.rs:118-197 | an accepted request is the first message of the byte stream, and exactly its bytes were taken |
| PdpReader.ChunkingDoesNotMatter | services/cedar-pdp/src/main.rs:118-197 | two accepted deliveries of the same bytes yield the same request |
| PdpReader.AcceptanceIndependentOfPieces | services/cedar-pdp/src/main.rs:123-191 | a stream is accepted under every error-free delivery if and only if the blank line ends within 16384 bytes and nothing follows the message or its body has at least 4095 bytes |
| PdpReader.RefusalIsExplained | services/cedar-pdp/src/main.rs:118-197 | whatever the pieces, a refusal names what is wrong with the stream (a head that does not end in time, a refused head, a body that is too short or too long) or the connection broke |
| PdpReader.SomeDeliveryIsAccepted | services/cedar-pdp/src/main.rs:118-197 | every stream that starts with a well-formed message is accepted under some error-free delivery |
| PdpReader.RequestRoundTrip | services/cedar-pdp/src/main.rs:118-197 | a printed request whose head fits, cut into any pieces, is read back with head and body as they were and nothing left over |
| PdpReader.PipelinedRequestDependsOnPieces | services/cedar-pdp/src/main.rs:118-197 | with the parser in use, any printed request with a short body and anything after it is accepted under one delivery of its bytes and refused under another |
| ConstantTime.ConstantTimeEq | services/cedar-pdp/src/main.rs:316-325 | true exactly when the byte strings are equal, for all lengths, after comparing as many bytes as the longer one has, whatever they are |
| AtomicStore.UnitOfWork.FailIfRequested | crates/wasi-auth/src/testkit.rs:351-362 | an injected failure fires at its stage only and is consumed |
| AtomicStore.Fired | crates/wasi-auth/src/testkit.rs:351-421 | a failure injected at any moment, even during the commit, fires at the first check that finds its own stage pending |
| AtomicStore.ApplySecrets | crates/wasi-auth/src/testkit.rs:392-407 | the secret mutations are applied in order |
| AtomicStore.UnitOfWork.Commit | crates/wasi-auth/src/testkit.rs:368-440 | a commit applies everything or nothing, whatever is injected while it runs, and answers retries and conflicts from receipts |
| AtomicStore.StateIsReplayOfSuccesses | crates/wasi-auth/src/testkit.rs:368-440 | for every run the state is the plain replay of the freshly committed mutations, each key at most once, and the revision is the log length up to saturation |
| AtomicStore.VaultHoldsLastPut | crates/wasi-auth/src/testkit.rs:392-407 | after every run a credential is in the vault exactly when the last fresh mutation of it was a `Put`, with that material |
| AtomicStore.OutboxRecordsIntents | crates/wasi-auth/src/testkit.rs:409-420 | after every run the outbox records the intents of the fresh commits one for one, mail without its content |
| AtomicStore.ReceiptMarksItsPrefix | crates/wasi-auth/src/testkit.rs:423-437 | below saturation a receipt's revision marks the exact log prefix at its commit |
| AtomicStore.RevisionsIncrease | crates/wasi-auth/src/testkit.rs:423-429 | later commits with events have larger revisions |
| AtomicStore.RetryGetsTheSameRevision | crates/wasi-auth/src/testkit.rs:373-383 | every later submission of a committed key gets the same revision, or a conflict exactly when operation or request differ |
| AtomicStore.FreshKeyOutcome | crates/wasi-auth/src/testkit.rs:385-439 | a fresh key commits exactly when no check finds its own stage pending; otherwise the state is untouched and the failure is used up |
| AtomicStore.FailedCommitCanBeRetried | crates/wasi-auth/src/testkit.rs:351-440 | after an injected failure the same mutation commits as if the failed attempt had not been made |
| SchemaPlan.PlanSchema | crates/wasi-auth/src/schema.rs:190-215 | accepts exactly the reorderings of a catalog prefix with matching checksums, plans exactly the rest, and otherwise names the first fault |
| SchemaPlan.HistoryFits | crates/wasi-auth/src/schema.rs:198-214 | a history that passes the row checks is no longer than the catalog, so the slice is in range |
| SchemaPlan.PlanStaysAccepted | crates/wasi-auth/src/schema.rs:190-215 | after applying any prefix of the plan the history is accepted again with exactly the rest to do |
| LocalClosure.Walker.Walk | scripts/generate-companion-manifest.py:141-150 | the recursive walk adds exactly what the reference walk adds, and ends on every graph |
| LocalClosure.Closure | scripts/generate-companion-manifest.py:127-155 | every name returned is reachable from a local root by path-local edges; when packages of one name depend on the same local names, exactly those are returned |
| LocalClosure.SharedNameLosesDependency | scripts/generate-companion-manifest.py:141-155 | a root that depends on two namesakes loses every name the second depends on and the first does not lead to |
| LocalClosure.SharedNameIsExactWhenCovered | scripts/generate-companion-manifest.py:141-155 | where one name is shared by two packages, the closure of such a root is exact if and only if the first leads to all that the second depends on |
| LocalClosure.SharedNamesLoseAPackage | scripts/generate-companion-manifest.py:146-150 | a graph of four packages in which a reachable package is lost |
| RateLimit.BucketKey | crates/wasi-auth/src/postgres/rate_limits.rs:93-107 | the key is the scope, a colon and the hexadecimal digest of the length-prefixed pair |
| RateLimit.HexExactly | crates/wasi-auth/src/postgres/rate_limits.rs:99-107 | the digest is printed byte by byte as two lower-case digits, the high one first |
| RateLimit.PreimageInjective | crates/wasi-auth/src/postgres/rate_limits.rs:94-98 | distinct pairs have distinct digest inputs |
| RateLimit.BucketsAreSeparate | crates/wasi-auth/src/postgres/rate_limits.rs:93-107 | two pairs share a bucket exactly when they are the same pair, or have the same scope and are a collision of the 32-byte digest |
| RateLimit.RetryAfterIsLeastCover | crates/wasi-auth/src/postgres/rate_limits.rs:82-89 | the reported seconds are the least whole number covering the wait, for every 64-bit value, without overflow |

## Left out

- The SQL command kernel, row decoding and the text of the queries: one query is one read of one database version.
- Session-cookie authentication at the ingress: one authoritative load without a cache.
- Poisoned locks: a poisoned token-cache mutex makes the source skip the cache, and the other locks return an error.
- Fairness of locks, scheduling and notifications: it is proved that some call can always go on, not that it is scheduled.
- Invalidation.GenerationDeterminesBump: says nothing after 2^64 moves of the counter, when two moments share a generation.
- Authentication.HitIsAFreshLoad: for runs in which the generation moved fewer than 2^64 times.
- SchemaPlan.PlanSchema: for any catalog with distinct versions; the fourteen embedded migrations are not listed.
- LocalClosure.Closure: with several shared names and arbitrary roots, which packages are lost depends on the order of the dictionaries; the exact condition is proved for one name shared by two packages under one root.
- Byte-level JSON: printing and parsing text, repeated members and the array form of structures.
- Cedar evaluation, JWT, SHA-256, HMAC and Argon2 internals.
- HTTP proxying, WASI bindings, worker threads, environment parsing, CORS and security headers, mail, Leptos layers: plumbing or single-branch facts.
- Organizations, invitations, sessions and roles: their invariants follow from single methods.
