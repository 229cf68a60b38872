# Testkit console: verified model

Dafny 4.11 models of the parts of the testkit console that hold real state,
recursion or rewriting, with proofs about every input and every run. The project
checks with `dafny verify dfyconfig.toml`.

| files | component |
|---|---|
| `ResolverSpec`, `Resolver`, `ResolverRuns`, `ResolverTheorems`, `ResolverOrder` | the tenant resolver: its behaviour matrix, the class with the TTL cache, and a transition system in which any number of requests interleave their check, portal answer and store with portal edits and clock ticks; how old an answer can be, and when answers go back in time |
| `TenantGate`, `Clamp` | the HTTP door that strips and plants tenant headers, the message clamp behind it, and one request through both |
| `Bootstrap` | the browser side of the tenant choice: WhoAmI through the door, with recovery from a stale choice |
| `CursorPager` | the cursor chain of the progressive pager, button runs, and its display over a paged list |
| `RegionForest` | the forest built from parent links without a visited set |
| `Json`, `JsonHeap`, `FixInt64`, `VisitInPlace`, `StripErrors`, `StripInPlace` | post-processing of the OpenAPI document: what the two passes mean on JSON values, and the passes themselves over a heap of mutable cells |
| `Selections` | what it means to keep some elements of a list in order |
| `FixServices` | repair of custom-verb paths in the generated services |
| `TenantScope`, `PlainText`, `ChunkGuard`, `SmsSegments` | row partition by tenant, plain-text fallback and chunked reading, reload rate limit, SMS segment count against the GSM standard's |

How the concurrent resolver is read: a state of `ResolverRuns` holds the clock,
the portal's version history, the cache, the requests in flight and the answers
given. History, origins and `maxDelay` (the longest time any store has lagged its
portal answer so far in the run) are bookkeeping that no step consults. No bound
on the delay is assumed: the theorems speak of the run's own `maxDelay`, written
d below. A request's answer is taken at its last locked step.

## Where the code does not do what is said of it

- The resolver's comments bound staleness by one TTL. Over all runs whose stores
  lag by at most d the bound is TTL + d, it is attained, and TTL alone holds
  exactly when d is 0 (`TtlAloneBoundsOnlyInstantStores`).
- A revocation already enforced can be undone for a while, with no edit in
  between and with d = 0 (`OlderAnswerOverwritesNewer`). Answers about a user, or
  about the registry, go back to an older portal version exactly when some store
  puts an older version over a newer one
  (`AnswersGoBackExactlyOnStoresOutOfOrder`); with stores in order a denial lasts
  as long as the portal keeps what it was judged on (`InOrderAnswersLast`).
- A bootstrap reads memberships past the door's cache, so the choice it stores
  can be refused by the door (`FreshChoiceCanBeRefused`). Until the entry the
  door judged the answered call on expires, the choice is accepted exactly when
  that entry holds it; from then on, exactly when the portal's answer to the next
  request does (`NextRequestIsScoped`). A door that missed its cache and saw the
  rows the page saw accepts it (`FreshEntryAcceptsTheChoice`).
- The pager keeps the old page and "next" on display when a new query fails. The
  next button then walks the new window (`FailedQueryLeavesAStaleDisplay`), and
  can count more rows as loaded than the window has (`StaleNextMiscounts`). In
  the runs whose window changes were all answered the count is right, "next" is
  offered exactly while rows are missing, and no button walks
  (`AnsweredRunsMeasureTheList`, `WalksOnlyPastTheChain`). In any run an answered
  press counts right exactly when its page is there, or the page before it is and
  is full (`AnsweredPressMeasuresTheList`).
- The int64 pass counts every int64 node except those inside the `type` of
  another one, which it throws away unvisited (`ChangedCountsInt64Nodes`,
  `NodeInsideTypeGoesUncounted`). The script's header speaks of 4xx/5xx responses;
  the code drops 3xx as well (`RedirectIsStripped`).
- The reload guard checks the cooldown on one clock reading and stores another.
  Its spacing holds over all runs exactly when the clock cannot step back between
  the two (`DistanceNeedsOneReading`); if it can by b milliseconds, the spacing
  kept is the cooldown less b, and no more (`DistanceIsCooldownLessStep`).
- The mail composer decodes `&amp;` before the brackets and the quote, so what it
  escapes is decoded twice (`EscapedEntityIsDecodedTwice`; exactly when in
  `AmpersandBecomes`).
- A tenant named like a filter sentinel breaks the partition of rows
  (`SentinelTenantIsHidden`); `OptionsPartitionTheRows` gives the exact condition.
- The SMS alphabet test misses backslash and form feed, two characters of the GSM
  extension table, so either makes a message UCS-2
  (`AlphabetTestIsStandardUnlessEscaped`, `EscapedCountsAsUcs2`,
  `BackslashCountsTooMany`); and characters that take two septets, or two 16-bit
  units, count once (`DoubledCharactersCountOnce`, `EuroCountsTooFew`). For all
  other texts the count is the standard's (`PlainCountIsTheStandards`).

## Model

| member | source | states |
|---|---|---|
| ResolverSpec.AdminGrant | internal/tenantgate/tenantgate.go:155-171 | a tenant admin is granted a key if and only if it is bound and either named by the choice or the only binding, rows counted with multiplicity |
| ResolverSpec.AdminDenial | internal/tenantgate/tenantgate.go:160-170 | exactly when a denied admin gets "choice required" and when "not bound", and that there is no third denial |
| ResolverSpec.PlatformGrant | internal/tenantgate/tenantgate.go:173-184 | a platform operator gets the choice itself if and only if it is empty or registered; every denial is "unknown tenant" |
| ResolverSpec.OnlyManagersAreResolved | internal/tenantgate/tenantgate.go:150-189 | without an actor the error is "no actor", for any user type but the two management ones "user type denied", and for nobody else; neither touches the cache |
| ResolverSpec.SoleKey | internal/tenantgate/tenantgate.go:206-211 | one surviving key means exactly one row with a key; no surviving key means none has one |
| ResolverSpec.KeysAreInOrder | internal/tenantgate/tenantgate.go:206-211 | the surviving keys stand at the ascending positions of exactly the rows with a key |
| ResolverSpec.FirstKeyIsFirst | web/src/utils/tenantChoice.ts:57-63 | the first surviving key is that of the first row with one |
| ResolverSpec.AloneKeepsTheCacheClean | internal/tenantgate/tenantgate.go:193-246 | an undisturbed resolution caches nothing on a portal error, keeps other users' entries and never grants an admin the empty key |
| Resolver.Resolver.CheckBindings | internal/tenantgate/tenantgate.go:194-200 | the first critical section serves an entry only before its expiry |
| Resolver.Resolver.KeysOfAnswer | internal/tenantgate/tenantgate.go:206-211 | the loop keeps exactly the rows with a key, at ascending positions and with multiplicity |
| Resolver.Resolver.BindingSet | internal/tenantgate/tenantgate.go:193-217 | hit, portal failure and refetch: result and whole cache after each |
| Resolver.Resolver.Registered | internal/tenantgate/tenantgate.go:221-246 | the same for the registry set |
| Resolver.Resolver.Resolve | internal/tenantgate/tenantgate.go:150-189 | result and cache of a resolution are those of the specification function the theorems speak about |
| ResolverRuns.OldFactsStay | internal/tenantgate/tenantgate.go:124-134 | clock ticks, portal edits and other requests' steps never invalidate what is known of cached entries, calls in flight and past answers |
| ResolverRuns.StoreKeeps | internal/tenantgate/tenantgate.go:213-216 | a store of an answer of any age keeps the invariant |
| ResolverRuns.CheckKeeps | internal/tenantgate/tenantgate.go:194-200 | a check, hit or miss, keeps the invariant |
| ResolverRuns.EveryRunIsSound | internal/tenantgate/tenantgate.go:150-246 | the invariant holds in every state of every schedule of checks, portal answers, failures, stores, ticks and edits |
| ResolverTheorems.BoundedStaleness | internal/tenantgate/tenantgate.go:150-246 | every grant and every denial other than a portal failure is the uncached answer on a portal state in force less than TTL + d before |
| ResolverTheorems.GrantedKeyWasBound | internal/tenantgate/tenantgate.go:155-171 | a key granted to a tenant admin is non-empty and was one of that user's memberships less than TTL + d before |
| ResolverTheorems.GrantedDrillDownWasRegistered | internal/tenantgate/tenantgate.go:173-184 | a non-empty key granted to a platform operator is the choice and was registered less than TTL + d before |
| ResolverTheorems.QuietCacheIsTransparent | internal/tenantgate/tenantgate.go:150-246 | if what concerns the actor did not change in the last TTL + d, the cached answer is the uncached one on the current portal, key or error |
| ResolverTheorems.EntriesArePortalAnswers | internal/tenantgate/tenantgate.go:206-215 | a cached entry is the keyed part of one portal answer about its own user |
| ResolverTheorems.OnlyStoresChangeTheCache | internal/tenantgate/tenantgate.go:202-215 | portal failures leave the cache unchanged; a store serves its own user's (or the registry's) later checks, an empty answer too, and touches nothing else |
| ResolverTheorems.AloneIsUndisturbed | internal/tenantgate/tenantgate.go:193-246 | the class's sequential resolution is the transition system's steps taken in a row, for every caller including none, with the portal up (check, answer, store) and with it down (check, failure): same reply, same cache |
| ResolverTheorems.StaleByTtlPlusDelay | internal/tenantgate/tenantgate.go:108-112 | for every delay d a run grants a key at TTL + d - 1 after the last instant it was bound: the bound is attained |
| ResolverTheorems.TtlAloneBoundsOnlyInstantStores | internal/tenantgate/tenantgate.go:108-112 | over all runs with store delay at most d, "within one TTL" holds if and only if d is 0 |
| ResolverTheorems.OlderAnswerOverwritesNewer | internal/tenantgate/tenantgate.go:202-215 | an older answer stored last makes an enforced revocation grantable again, with no edit in between and no store delayed |
| ResolverOrder.AnswersGoBackExactlyOnStoresOutOfOrder | internal/tenantgate/tenantgate.go:202-246 | over every run, for each user's bindings and for the registry: answers other than portal failures never go back to an older portal version if and only if no store puts an older version over a newer one |
| ResolverOrder.InOrderAnswersLast | internal/tenantgate/tenantgate.go:202-246 | with stores in order, once a choice was answered on a state the portal has kept since, denied or granted, every later answer to it is the same |
| ResolverOrder.OvertakenWithoutDelay | internal/tenantgate/tenantgate.go:202-217 | the run in which a revocation is undone stores out of order although no store lags its answer |
| TenantGate.WithTrustedRequest | internal/tenantgate/tenantgate.go:380-399 | the wire header is set in place and the context copy carries the key in every view |
| TenantGate.Gate.Wrap | internal/tenantgate/tenantgate.go:309-372 | which verdict, status, headers and context, and the resolver's cache afterwards; a preflight passes bare; an anonymous request carries the console key in every view and resolves nothing; another user type gets 403 if it carries a choice and else passes with no key; any other key that reaches a handler is the one the resolution granted |
| TenantGate.OnlyTheTrustedKeyPasses | internal/tenantgate/tenantgate.go:315-319 | no inbound tenant header survives, all others do; a planted key agrees in wire header, incoming metadata and context value, and in outgoing metadata exactly when that held none before; other metadata is kept |
| TenantGate.AdminIsScopedOrBootstrapping | internal/tenantgate/tenantgate.go:341-370 | exactly when a tenant admin's request passes with a key, without one, or with 503; the keyless cases are preflights and the choiceless bootstrap route |
| TenantGate.ChoicelessBootstrapIsNeverForbidden | internal/tenantgate/tenantgate.go:257-274 | a choiceless WhoAmI is never answered 403 by the door, whoever sends it and whatever is cached; only an unreachable portal stops it, with 503 |
| TenantGate.ChoicelessAnswerIsNeverForbidden | internal/tenantgate/tenantgate.go:257-274 | the same of every answer in every schedule of concurrent requests |
| Clamp.TenantKey | internal/bffscope/bffscope.go:28-46 | the clamp overwrites the message's tenant in place, or refuses and leaves it |
| Clamp.Serve | internal/service/portal/portal.go:48-167 | for every context: WhoAmI and MyCapabilities send no message and the access-key RPCs the message as given, whoever calls; the registry serves platform operators alone; the tenant-naming RPCs refuse a missing actor and an unresolved admin, and send an admin's message about the resolved key and anybody else's as it names it; the message afterwards |
| Clamp.Handle | internal/tenantgate/tenantgate.go:309-372 | door and handler on one request that is no preflight: off the choiceless route a tenant admin's API-key message ends up, in place, about the granted key, or the request is answered 403 or 503 and the message kept; a platform operator's keeps its tenant; the registry answers nobody but platform operators; the resolver's cache afterwards; a granted admin is refused the registry alone; no anonymous request and no choiceless bootstrap is refused but by an unreachable portal |
| Clamp.AdminReachesOnlyTheGrantedTenant | internal/service/portal/portal.go:186-204 | a tenant admin's forwarded request asks for exactly the granted key whatever the message said, all views of it agree, "unresolved" cannot occur, and the registry surface is refused |
| Clamp.PlatformNamesItsOwnTarget | internal/service/portal/portal.go:183-193 | a platform operator's message keeps its tenant on every RPC |
| Clamp.ForwardedTenantWasRecentlyBound | internal/service/portal/portal.go:64-78 | over every concurrent run: the tenant a forwarded admin message asks about was bound to that admin less than TTL + d before |
| Clamp.ForwardedDrillDownWasRecentlyRegistered | internal/service/portal/portal.go:183-193 | over every concurrent run: a forwarded drill-down is scoped to the chosen tenant, registered less than TTL + d before, in every view, and leaves the message its own tenant |
| Bootstrap.Console.EnsureTenantChoice | web/src/utils/tenantChoice.ts:56-65 | keeps a still-bound choice; otherwise stores the key of the first row that has one, or "" if none has |
| Bootstrap.Console.PortalWhoAmI | web/src/request.ts:27-65 | one call through interceptor, door and portal: reply, the door's cache, and the cell, dropped on 401 and on nothing else; a failure at the edge stays as it is and reaches no cache |
| Bootstrap.Console.GetInitialState | web/src/app.tsx:53-100 | the sequence of calls, clear and retry: memberships, number of WhoAmI calls (none without a tenant admin's session), stored choice and the door's cache afterwards |
| Bootstrap.BootstrapLeavesAValidChoice | web/src/app.tsx:68-99 | at most two calls; after any answered one the stored choice is a current non-empty membership, or "" exactly when there is none; a degraded one keeps or drops the cell |
| Bootstrap.BootstrapRecovers | web/src/app.tsx:74-91 | with the portal up, every stored choice and every cache state lead to the real binding set, in two calls exactly when the stored choice is not bound at the door |
| Bootstrap.PortalDownKeepsTheChoice | web/src/app.tsx:83-98 | a 503 degrades after one call with the stored choice untouched |
| Bootstrap.FailureDecides | web/src/app.tsx:73-99 | how a bootstrap ends whose first call fails: a 401 drops the choice, a 403 of a stored choice drops it and asks once more without, every other failure keeps it |
| Bootstrap.NextRequestIsScoped | web/src/utils/tenantChoice.ts:50-65 | on the bootstrap's inputs: the choice it stores; before the judged entry expires the next request is scoped to it if and only if that entry holds it, and from the expiry on if and only if the portal's answer to that request does; otherwise 403, or 503 with the portal down; with no membership to choose, the sole key the door knows is taken, if any, and else the bootstrap route passes bare and all others get 403 |
| Bootstrap.BootstrapLeaves | web/src/app.tsx:68-99 | the entry the door is left with and the choice stored, in terms of the cache, the old choice and what the calls met |
| Bootstrap.FreshEntryAcceptsTheChoice | internal/tenantgate/tenantgate.go:202-217 | a door that missed its cache and saw the rows the page saw scopes every request within one TTL of storing them |
| Bootstrap.FreshChoiceCanBeRefused | web/src/utils/tenantChoice.ts:50-65 | a concrete rebinding after which the fresh choice is refused |
| CursorPager.CursorTable.WalkTo | web/src/components/CursorPager.tsx:57-66 | the walking loop, with failing fetches, leaves exactly the specified chain after the specified number of fetches |
| CursorPager.CursorTable.Request | web/src/components/CursorPager.tsx:40-89 | one request: state, data and number of fetches are those of the specification function; over any backend a fetched page ends the chain exactly when it shows no next, and the entries before it stay |
| CursorPager.CursorTable.Press | web/src/components/CursorPager.tsx:94-121 | an answered press shows page 1, the page before or the page after the one shown, with what a fresh walk finds there; a reload the page last asked for; a query of another window page 1; a disabled button does nothing and a failed press leaves the display |
| CursorPager.ExtendAgrees | web/src/components/CursorPager.tsx:57-66 | the loop keeps every cursor equal to a walk from the start, runs exactly when the entry is missing, and ends within `want` iterations |
| CursorPager.FetchAgrees | web/src/components/CursorPager.tsx:74-81 | pushing a successor or truncating at the end keeps the agreement |
| CursorPager.TurnAgrees | web/src/components/CursorPager.tsx:40-89 | from any agreeing state a request that returns, returns the page a fresh walk returns and shows whether it has a successor; a failed one leaves the display; at most `want` fetches |
| CursorPager.EveryPageIsAFreshWalk | web/src/components/CursorPager.tsx:94-117 | the same after every serial run of buttons, reloads, queries and failures; while the display belongs to the window, one fetch and no walking |
| CursorPager.FailedQueryLeavesAStaleDisplay | web/src/components/CursorPager.tsx:85-87 | for every backend with a second page, a failed second query leaves a "next" that walks; if the new window has one page it shows an empty page 2 and a loaded count that is false exactly when that page is not full |
| CursorPager.StaleNextMiscounts | web/src/components/CursorPager.tsx:85-87 | three rows, a failed change from two to five rows a page, then next: five rows counted as loaded |
| CursorPager.StaleExactlyByFailedResets | web/src/components/CursorPager.tsx:94-117 | over every serial run: some point of the run leaves a reset window without a fetched page of its own if and only if a query for another window failed |
| CursorPager.RunShowsItsWindow | web/src/components/CursorPager.tsx:68-88 | over every serial run: unless the display is stale, page, next button and loaded count are those of a fresh walk of the chain's window, or nothing was ever answered |
| CursorPager.AnsweredRunsMeasureTheList | web/src/components/CursorPager.tsx:5-15 | over every serial run whose window changes were all answered, on a backend paging one list: the loaded count is the number of rows on the pages up to the one shown, and "next" is offered exactly while rows are missing |
| CursorPager.WalksOnlyPastTheChain | web/src/components/CursorPager.tsx:57-66 | over every serial run: the next button pressed walks if and only if it asks for a page beyond a chain not known to have ended; in a run whose window changes were all answered it costs one fetch and never walks |
| CursorPager.DisplayMeasuresTheList | web/src/components/CursorPager.tsx:68-84 | over a backend paging one list: pages 1 to n are a prefix, "next" is offered exactly when it is proper, and the loaded count is its length exactly when the page does not start past the end, that is when it is there or its predecessor is and is full |
| CursorPager.AnsweredPressMeasuresTheList | web/src/components/CursorPager.tsx:68-84 | the same of whatever is pressed after any serial run, stale or not |
| RegionForest.BucketByParent | web/src/pages/Reference/Regions/index.tsx:35-40 | every bucket holds exactly its groups in input order |
| RegionForest.Options | web/src/pages/Reference/Regions/index.tsx:33-48 | in the rows' own fields: the top level lists, in input order, exactly the rows without a parent code, below a node stand exactly those naming its value, at every depth, each with its code and its label; it is built exactly when no root path revisits a code, given one frame per group and one more |
| RegionForest.FaithfulIsUnique | web/src/pages/Reference/Regions/index.tsx:33-48 | the list determines its forest: two that list the groups this way are equal |
| RegionForest.BuildEndsExactlyOnAcyclic | web/src/pages/Reference/Regions/index.tsx:41-46 | the recursion ends if and only if no path from the root revisits a code, and then within one frame per group and one more |
| RegionForest.UniqueCodesAreAcyclic | web/src/pages/Reference/Regions/index.tsx:41-46 | unique non-empty codes suffice for that, parent cycles in the list included |
| RegionForest.OneRootPath | web/src/pages/Reference/Regions/index.tsx:41-46 | with unique codes a code has at most one chain of parents from the root |
| RegionForest.BuildIsFaithful | web/src/pages/Reference/Regions/index.tsx:41-46 | at every depth the children of a node are the groups under its code |
| RegionForest.FaithfulLists | web/src/pages/Reference/Regions/index.tsx:36-46 | such a forest read off the rows' fields: parent code, group code and name, positions ascending |
| RegionForest.EachChainOccursOnce | web/src/pages/Reference/Regions/index.tsx:33-48 | a path occurs in the forest exactly once if it is a parent chain from the root and not at all otherwise |
| RegionForest.EachGroupOccursOnce | web/src/pages/Reference/Regions/index.tsx:33-48 | a group occurs exactly once if its parents reach the root and not at all otherwise |
| FixServices.SpanCounts | web/scripts/fix-services.js:39-43 | the count of a span is the number of positions where a bad interpolation starts, and each repair takes two characters |
| FixServices.SpanRepaired | web/scripts/fix-services.js:39-43 | afterwards no position starts a bad interpolation, the path parameters are the same in order, and a second pass is idle |
| FixServices.SpanIsRespelled | web/scripts/fix-services.js:39-43 | a span cut into characters and interpolations, all of those it has: each interpolation that is no path parameter becomes a colon and its name, every other part stays as it was, in order |
| FixServices.VerbComesBack | web/scripts/fix-services.js:39-43 | the first interpolation of a span: `param` and digits stays, any other identifier becomes a colon and its name, and the text before it stays |
| FixServices.InterpolationIsAnIdentifier | web/scripts/fix-services.js:39 | an interpolation is an identifier in its braces and nothing else |
| FixServices.FixIsPiecewise | web/scripts/fix-services.js:37-44 | the backticks pair the same pieces; pieces inside a span are rewritten, all others untouched |
| FixServices.JoinPieces | web/scripts/fix-services.js:37-44 | cutting at backticks loses nothing, so the pieces determine the file |
| FixServices.FixCountsBadInterpolations | web/scripts/fix-services.js:36-44 | the reported number is the number of bad interpolations inside spans |
| FixServices.FixLeavesNoBadInterpolation | web/scripts/fix-services.js:37-44 | after a run every interpolation at any position of any span is a path parameter, in the original order |
| FixServices.FixIsIdempotent | web/scripts/fix-services.js:37-44 | a second run changes nothing and counts nothing |
| JsonHeap.Load | web/scripts/fix-int64.js:24 | every document can be laid out in memory as a tree of fresh cells, none shared |
| VisitInPlace.Visit | web/scripts/fix-int64.js:42-57 | the recursive visit mutates each node where it stands: the same root then spells the rewritten document, over no cells but its own, and the counter is right |
| FixInt64.NoInt64Left | web/scripts/fix-int64.js:42-57 | no path of the visited document leads to an int64 node |
| FixInt64.SecondPassIsIdle | web/scripts/fix-int64.js:42-57 | a second visit rewrites nothing and counts nothing |
| FixInt64.UntouchedStays | web/scripts/fix-int64.js:42-57 | every path that passes no `type` or `format` of an int64 node leads where it led, leaves unchanged |
| FixInt64.Int64NodeRetyped | web/scripts/fix-int64.js:49-53 | every int64 node a visit reaches gets type "string" and loses its format |
| FixInt64.FormatsRetyped | web/scripts/fix-int64.js:34-54 | exactly the five 64-bit formats go, and their type becomes "string" |
| FixInt64.KeyOrderKept | web/scripts/fix-int64.js:49-54 | key order is kept; a missing `type` goes last |
| FixInt64.ChangedCountsInt64Nodes | web/scripts/fix-int64.js:42-57 | the count never exceeds the int64 nodes and equals them if and only if none lies inside the `type` of another |
| FixInt64.NodeInsideTypeGoesUncounted | web/scripts/fix-int64.js:42-57 | a document with two int64 nodes of which one is counted |
| StripInPlace.KeepOrCount | web/scripts/fix-int64.js:67-72 | the innermost loop keeps the success responses in order; kept and counted ones add up to all |
| StripInPlace.StripNode | web/scripts/fix-int64.js:62-74 | the nest over items, operations and responses deletes in place what the specification function removes, and counts it |
| StripInPlace.StripNamedNode | web/scripts/fix-int64.js:62-66 | only the named entry is descended into: the cells of every other entry are outside what is written |
| StripInPlace.Process | web/scripts/fix-int64.js:42-74 | both passes over one document in memory, with both counters |
| StripErrors.KeptHasNoErrors | web/scripts/fix-int64.js:67-72 | kept and counted responses add up to all, and none of the kept ones is an error |
| StripErrors.ExactlyErrorsGo | web/scripts/fix-int64.js:59-74 | paths beyond an error code of an operation's responses are gone; every other path and leaf of the document is as it was |
| StripErrors.ErrorCodesAre | web/scripts/fix-int64.js:61 | what is dropped: `default` and the status codes 300 to 599 |
| StripErrors.ResponsesStayUnlessErrors | web/scripts/fix-int64.js:62-74 | a response entry of the finished document is the one it was, whole, unless its code is dropped |
| StripErrors.ReportedIsRemoved | web/scripts/fix-int64.js:60-74 | the reported number is by how many the response entries of the document dropped |
| StripErrors.RedirectIsStripped | web/scripts/fix-int64.js:61-74 | a 302 response is dropped and counted, whatever it holds |
| StripErrors.FinishedDocumentHasNoInt64 | web/scripts/fix-int64.js:57-76 | the finished document has no int64 node at any path |
| StripErrors.SecondRunStripsNothing | web/scripts/fix-int64.js:59-74 | stripping again changes nothing and counts nothing |
| TenantScope.TenantViewShowsPoolAndOwn | web/src/components/tenantScope.tsx:57-98 | in a tenant view exactly pool and own rows survive; a survivor a non-platform user cannot manage is a pool row |
| TenantScope.CrossViewShowsAll | web/src/components/tenantScope.tsx:57-98 | a platform operator without a choice sees every row; who may manage a row, and what each row counts as |
| TenantScope.FilterListsItsRows | web/src/components/tenantScope.tsx:115-124 | each filter option lists exactly its rows: all, those without a key, those of one tenant |
| TenantScope.OptionsOffered | web/src/components/tenantScope.tsx:105-112 | the options are all, pool, then the rows' tenants |
| TenantScope.TenantKeys | web/src/components/tenantScope.tsx:105-107 | the option keys are exactly the rows' non-empty keys, strictly ascending |
| TenantScope.BeforeIsLexicographic | web/src/components/tenantScope.tsx:105-107 | the order of the keys: a proper prefix first, else by the first character that differs |
| TenantScope.OptionsPartitionTheRows | web/src/components/tenantScope.tsx:101-124 | pool and tenant options split any list, counted with multiplicity, under an exact condition on sentinel-named tenants |
| TenantScope.SentinelTenantIsHidden | web/src/components/tenantScope.tsx:101-124 | a row of a tenant named like the pool sentinel comes up under neither part |
| TenantScope.FilterKeepsOrder | web/src/components/tenantScope.tsx:121-123 | every option lists its rows in input order |
| PlainText.PlainTextIsTidy | web/src/pages/Message/SendEmail/index.tsx:121-140 | for every markup: no three newlines in a row, no tab, no two blanks, no white space at the ends of the text or of a line; tidying again changes nothing; every character but white space that the tag and entity steps leave is kept in order, and all of them if there is no bracket or ampersand; blank markup gives the empty text |
| PlainText.UntaggedHasNoTags | web/src/pages/Message/SendEmail/index.tsx:125-128 | after the break and tag steps no position starts a tag, not even one put together from what was around a dropped one |
| PlainText.FirstTagGoes | web/src/pages/Message/SendEmail/index.tsx:128 | the first tag of a text goes and what is before it stays |
| PlainText.PlainIsOnlyTidied | web/src/pages/Message/SendEmail/index.tsx:125-133 | the steps before tidying leave text without brackets and ampersands as it is |
| PlainText.TagBecomes | web/src/pages/Message/SendEmail/index.tsx:126-128 | what one tag becomes: br, white space and an optional slash, or one of the ten block ends, a new line, any other nothing; what is before it stays and what follows is treated alike |
| PlainText.EmptyBracketsStay | web/src/pages/Message/SendEmail/index.tsx:128 | empty brackets are no tag |
| PlainText.UnclosedStays | web/src/pages/Message/SendEmail/index.tsx:126-128 | text without a closing bracket holds no tag |
| PlainText.WordInEitherCase | web/src/pages/Message/SendEmail/index.tsx:126-133 | words are matched in either case, letter by letter |
| PlainText.EntityBecomes | web/src/pages/Message/SendEmail/index.tsx:129-133 | nbsp, lt, gt and quot give blank, brackets and quote |
| PlainText.AmpersandBecomes | web/src/pages/Message/SendEmail/index.tsx:129-133 | amp gives the ampersand, which is decoded again exactly when lt, gt or quot and a semicolon follow it |
| PlainText.TidyKeepsVisible | web/src/pages/Message/SendEmail/index.tsx:134-140 | the white-space steps keep every other character, in order |
| PlainText.TidyEverywhere | web/src/pages/Message/SendEmail/index.tsx:134-140 | the same position by position |
| PlainText.TidyIsIdempotent | web/src/pages/Message/SendEmail/index.tsx:134-140 | the white-space steps are idempotent on every text |
| PlainText.FeedChunks | web/src/pages/Message/SendEmail/index.tsx:156-177 | the chunks fed to the hash concatenate to the file, in max(1, ceil(size / 2 MiB)) reads |
| ChunkGuard.Guard.OnError | web/src/utils/chunkGuard.ts:31-51 | an event reloads exactly when it comes from a stale resource and the cooldown since the stored stamp has gone by; the stored stamp afterwards |
| ChunkGuard.ReloadsWhenDue | web/src/utils/chunkGuard.ts:26-47 | after every run the next event reloads exactly when it comes from a stale resource at least 30000 ms after the last reload |
| ChunkGuard.ReloadsKeepDistance | web/src/utils/chunkGuard.ts:26-47 | over every run, with any clock steps between events and steps back of at most b inside a handler, reload stamps are at least the cooldown less b apart |
| ChunkGuard.DistanceNeedsOneReading | web/src/utils/chunkGuard.ts:28-46 | the documented distance holds over all runs if and only if the clock cannot step back inside a handler |
| ChunkGuard.DistanceIsCooldownLessStep | web/src/utils/chunkGuard.ts:28-46 | with steps back of at most b, a distance holds over all runs if and only if it is at most the cooldown less b |
| ChunkGuard.ReloadRateLimit | web/src/utils/chunkGuard.ts:10-16 | with steps back of at most b < 30000, a clock interval of length L holds n reloads only if (n - 1) * (30000 - b) <= L; with b = 0 at most floor(L / 30000) + 1 |
| SmsSegments.SegmentsIsLeast | web/src/pages/Message/SendSMS/index.tsx:35-42 | the count is the least number of segments whose capacities hold as many characters |
| SmsSegments.AppendingNeverLowers | web/src/pages/Message/SendSMS/index.tsx:28-42 | appending never lowers the count, even when it changes the alphabet |
| SmsSegments.AlphabetTestIsStandardUnlessEscaped | web/src/pages/Message/SendSMS/index.tsx:26-33 | the alphabet test agrees with the tables of section 6.2.1 of 3GPP TS 23.038 on a text unless the text is GSM and holds a backslash or a form feed |
| SmsSegments.StandardCountIsLeast | web/src/pages/Message/SendSMS/index.tsx:26-42 | the reference count is the least number of parts, no character split, that carries the text with the capacities of section 9.2.3.24.1 of 3GPP TS 23.040 |
| SmsSegments.PlainCountIsTheStandards | web/src/pages/Message/SendSMS/index.tsx:26-42 | for every text of one-unit characters whose alphabet the test gets right, the count is the reference count |
| SmsSegments.StandardCountIsLaid | web/src/pages/Message/SendSMS/index.tsx:35-42 | the reference count by arithmetic on the text: one part, or the units laid end to end, with those empty ones, divided by a part's capacity |
| SmsSegments.DoubledCharactersCountOnce | web/src/pages/Message/SendSMS/index.tsx:35-42 | in the right alphabet the count is never too high; one segment is counted right if and only if the units fit it; several, if and only if the units, with one more for each two-unit character that comes to the last unit of a part, fit the parts counted |
| SmsSegments.EscapedCountsAsUcs2 | web/src/pages/Message/SendSMS/index.tsx:26-42 | a GSM text with a backslash or form feed is never counted too low; right up to 70 characters, too high for longer texts that fit one part, and beyond that right if and only if the units laid end to end exceed one part less than counted |
| SmsSegments.BackslashCountsTooMany | web/src/pages/Message/SendSMS/index.tsx:26-42 | 70 letters and a backslash: two counted, one needed |
| SmsSegments.EuroCountsTooFew | web/src/pages/Message/SendSMS/index.tsx:26-42 | 159 letters and a euro sign: one counted, two needed |

## Left out

- Forwarding handlers, the client package and DTO converters copy a request or a reply field by field and keep no state; configuration, jobs and process wiring run before or beside requests. Nothing modelled here reads what they compute.
- ComposeE164 joins a dial code and the digits of a number, and ListRegionCodes maps the reference service's rows; both are free of state, and neither the door, the resolver nor the console's paging uses them.
- gRPC, HTTP, the tenantctx and grpcx helpers and antd are represented by maps, fields and parameters; header names are taken as already canonical and the metadata key as "x-tenant-key".
- The portal itself: its answers are snapshots of one portal state taken at one instant between call and reply; WhoAmI answers for the actor being resolved.
- Resolver.Resolver.Resolve: one undisturbed call; interleaving is modelled in `ResolverRuns`, whose steps use the same specification functions. The return after the last locked step is taken at that step's time.
- Clamp.TenantKey: models both copies of the rule, bffscope.go and scopeTenantKey in portal.go, which have the same body.
- Bootstrap.NextRequestIsScoped: no other request comes between the bootstrap and the next one; a store by another tab's request can replace the judged entry before it expires.
- Bootstrap.Console.PortalWhoAmI: a 401 also clears token and user and redirects, which is not modelled; storage is assumed to work, and a membership row is its tenant key, "" when absent.
- CursorPager.CursorTable.Request: requests do not overlap (the paging buttons are disabled while one is loading), so the loading flag is not modelled; two requests in flight would share one chain. The backend is fixed during a run and depends on the filters only through their serialized form.
- RegionForest.Options: the call stack is a parameter and its overflow an explicit outcome, which is how non-termination is stated; the same builder in the Examples page differs only in the label.
- VisitInPlace.Visit: the document shares no cell, as after parsing; the loops over children are recursions over the list.
- StripInPlace.StripNode: a `responses` that is a string or an array of more than 300 entries is left alone, which the script would not do; the entries of one responses object are deleted together.
- The optional-body repair of fix-services.js, which replaces the first occurrence per type: not modelled.
- The hash itself, the inline attachment limits and byte formatting.
- TenantScope.TenantKeys: keys are ordered by code point; the browser orders by UTF-16 code unit, which differs beyond the basic plane.
- SmsSegments.SegmentsIsLeast: a string is a sequence of code points, and division is exact rather than floating point. National language tables are not part of the reference count.
- ChunkGuard.Guard.OnError: only this handler writes the stamp.
- React rendering, layout, menus and redirects.
