# keala, verified

A Dafny model of the parts of keala whose correctness is hard to see from the code: the hybrid router,
the request lifecycle, middleware planning and onion composition, and two bounded stores. `dafny verify
dfyconfig.toml` verifies it.

## What is modelled

**Router.** A request path is answered by a static map, then by slice matchers, then by one compiled
alternation, then by a trie searched with an explicit stack. `Percent`, `Paths` and `Patterns` hold the
vocabulary; `Trie`, `TrieMatcher`, `TrieOrder`, `TrieInsert`, `TrieIndex` and `TrieMeaning` hold the
trie and what its search means, `TrieClash` which patterns it refuses; `TableRegex`, `RegexItems` and
`TableMatch` hold the alternation; `FastLayers` proves that the fast layers change nothing;
`RouterIndex`, `RouterRuns`, `RouteMeaning`, `TargetFacts` and `Router` hold registration, rollback, the
memoized index and the request-side matcher. `Url` is the way back, from values to a path, and `Sink`
the guard that keeps native sinks from shadowing routes.

The main results: a path compiles exactly to the pattern it spells, and a pattern matches exactly the
requests that can be cut into its pieces; a definition is accepted exactly when it names no shared
position differently than an earlier one. For every router any run of registrations can reach and every
path without line terminators, the layered matcher returns the static entry whose decoded segments equal
the path's, and otherwise the target, names and values of the trie search; that search returns the least
word of the trie the request accepts, and finds one exactly when some registered pattern matches; every
layer it runs belongs to a definition that answers the request, in registration order; a registration
that throws part-way leaves nothing but a new epoch; no request a sunk path matches runs a layer of any
other registration; a built URL is found again, with the values that went in, wherever no better pattern
takes it.

**Lifecycle.** One counter serves capacity, drain and metrics. `LifecycleSpec` gives its synchronous
sections on values, `Lifecycle` and `Served` the objects that run them (state, pooled waiters, held
bodies, the deadline race), `SlotRelease` the life of one slot, `LifecycleRuns` the whole application
with any number of requests and a close in embedded mode, over every interleaving, and `StrategyRuns`
the gate under a strategy of the application's own. Over every run it is settled exactly who gets a
slot, who waits and who is refused, who gets a slot that comes back, and what a close reports.

**Middleware and composition.** `Middleware` and `Fallbacks` prove the setup-time plan of a route and
the precomposed fallback chains equal to checking every scope on every request. `Compose` is the
`next()` protocol and what `drainBranches` guarantees about it.

**Stores.** `Cache` and `RateLimit`.

## Findings

- `compose` with `drainBranches` does not cover a level that calls `next()` after it settled
  (`Compose.LateNextEscapes`), nor one that fails while its own `next()` is running
  (`Compose.ThrowEscapes`). `Compose.DrainSettlesAll` and `Compose.OrphanEscapes` say exactly when the
  guarantee holds, in terms of what is still running; `Compose.PoliteExactly` in terms of events.
- A static route registered with three trailing slashes keeps one of them in its stored path: `/a///` is
  stored as `/a/` (a fourth slash is refused at compilation, except over the root). Its pattern ignores
  that slash, its static key does not, so the route misses `/a`, answers `/a//` (`Router.ThreeSlashes`),
  and runs a layer for `/a` on it (`Router.ThreeSlashesRunLayers`). `Router.RegisteredExactly` gives the
  condition on the path registered, `RouteMeaning.ServesExactly` on the path stored,
  `RouteMeaning.AstrayExactly` and `RouteMeaning.ServedOffersExactly` on each request, for the answer
  and for its layers. No theorem about answers excludes such routes.
- A mount counts one segment for each segment of its prefix, so under a prefix with an optional segment
  a layer scoped inside the mounted application misses requests (`Middleware.OptionalBaseMisses`).
  `Middleware.OffsetExactly` says exactly on which requests, `Middleware.MountExactly` under exactly
  which prefixes; `Middleware.WildcardBase` covers prefixes that end in a wildcard.
- An overload strategy that calls `admit` for a request it has already denied takes a slot that nothing
  gives back (`StrategyRuns.LateAdmitLeaks`); no other use of `admit` loses one
  (`StrategyRuns.QuietExactly`).
- The rate limiter's bound holds exactly as long as no more distinct keys come by than the store has
  room for (`RateLimit.LimitHoldsExactly`); a key evicted for room starts over
  (`RateLimit.EvictionForgets`).
- A cache entry captured under a key that a concurrent capture stored meanwhile keeps the old entry's
  place in the eviction order and may be evicted by its own capture (`Cache.ReplacedMayGo`,
  `Cache.SurvivesExactly`).
- A wildcard value comes back from a built URL exactly when it does not end in a slash, nor start with
  one as the first segment (`Url.RoundTripExactly`).
- The once-guards of the deadline race depend on microtasks running before the next timer
  (`SlotRelease.BetweenReleasesTwice`).

## Conventions of the model

- Text is a sequence of Unicode scalar values. A custom param expression is a pair of functions: which
  sources parse, and which decoded texts each source accepts.
- A route target is named by where it was created: the static key, or the word of trie edges leading to
  it. Handlers are identities. Trie children and JavaScript maps whose order matters are lists in
  insertion order.
- The microtask queue of a request is a field of the request. Timers wait for it.
- Dafny's `hide` statements only keep definitions away from the solver where a proof does not need them.

## Model

| member | source | states |
|---|---|---|
| Percent.DecodeEncoded | src/router/pattern.ts:29-38 | percent-decoding undoes percent-encoding (section 2.1 of RFC 3986, UTF-8) on every string |
| Percent.DecodeSegmentEncoded | src/router/pattern.ts:29-38 | a segment that was encoded reads back as the original value |
| Percent.EncodedHasNoSlash | src/router/url.ts:15-16 | an encoded value never introduces a separator, and is empty only for the empty value |
| Percent.DecodeSegmentReescaped | src/router/match.ts:30-34 | re-escaping "%" and "/" is undone by segment decoding and leaves no separator |
| Percent.DecodeSegmentNonEmpty | src/router/pattern.ts:29-38 | a non-empty segment never decodes to the empty string |
| Percent.DecodeExactly | src/router/pattern.ts:29-38 | decoding gives a text if and only if the escaped text writes it: each character for itself or for its UTF-8 bytes escaped in upper or lower case; it throws if and only if nothing is written |
| Percent.DecodeSegmentExactly | src/router/pattern.ts:29-38 | a segment decodes to what it writes, and stays as it is when its escapes are malformed |
| Paths.JoinSplit | src/router/trie.ts:303-308 | joining the parts of a path gives the path back |
| Paths.SplitJoin | src/router/trie.ts:303-308 | splitting joined slash-free parts gives the parts back |
| Paths.SegmentsExactly | src/router/trie.ts:303-308 | the segments of a rooted path are a given list if and only if the path is that list between slashes, one slash at the end not counted |
| Paths.CanonicalKeyReads | src/router/match.ts:30-34 | the canonical key decodes to the same segments as the path |
| Paths.CanonicalKeyInjective | src/router/match.ts:30-34 | two paths share a canonical key if and only if their decoded segments are equal |
| Paths.CanonicalKeyPlain | src/router/match.ts:30-34 | an escape-free path is its own key, so keys and raw paths share one map |
| Paths.CanonicalKeyIdempotent | src/router/match.ts:30-34 | a key is a fixed point: a verbatim lookup never finds another path's key |
| Patterns.Compile | src/router/pattern.ts:44-120 | whatever compiles is well formed: no empty literal or name, a wildcard only last |
| Patterns.CompilePattern | src/router/pattern.ts:44-120 | the one-pass compiler returns a pattern the path spells, throws exactly when the path spells none, and computes the static and simple flags |
| Patterns.CompileExactly | src/router/pattern.ts:44-99 | a path compiles to a pattern if and only if it spells it: parts between slashes, each a literal, ":name", ":name(source)", either of these with "?", or "*" at the end |
| Patterns.CompileThrowsExactly | src/router/pattern.ts:44-99 | compilation throws on exactly the paths that spell no pattern |
| Patterns.CompilePrinted | src/router/pattern.ts:44-99 | every well-formed pattern whose names and sources a path can hold is what its own text compiles to |
| Patterns.MatchesExactly | src/router/trie.ts:121-240 | a pattern matches a request if and only if the request can be cut into one piece for each segment: an equal decoded literal, a non-empty segment its expression accepts, nothing for an absent optional, the rest for a wildcard |
| Patterns.ShapeOf | src/router/pattern.ts:96-120 | the flag pass computes exactly "no dynamic segment" and "static head, then plain required params only" |
| Patterns.OverlapNeverMisses | src/router/pattern.ts:171-198 | if one request is matched by both patterns, the overlap test reports them |
| Patterns.OverlapExact | src/router/pattern.ts:157-198 | without custom constraints the overlap test holds if and only if some request path is matched by both |
| Patterns.CommonSegmentsMatch | src/router/pattern.ts:171-198 | the request read off an overlap is matched by both patterns |
| Trie.KidSmaller | src/router/trie.ts:62-82 | every transition leads to a strictly smaller subtree |
| Trie.StackOffered | src/router/trie.ts:197-240 | pushing the offered frames searches them, last pushed first, before the rest of the stack |
| Trie.StackShrinks | src/router/trie.ts:152-242 | replacing a frame by everything it offers strictly lowers the summed subtree size of the stack |
| TrieMatcher.PushVariant | src/router/trie.ts:121-143 | one variant pushes its skip frame below its consume frame, each only when the request allows it |
| TrieMatcher.PushAtEnd | src/router/trie.ts:165-196 | past the last segment only skips and the empty wildcard (on a raw trailing slash) are offered |
| TrieMatcher.PushMidPath | src/router/trie.ts:197-240 | mid-path the pushes are wildcard, later variants, head variant, static, lowest priority first |
| TrieMatcher.MatchAt | src/router/trie.ts:257-280 | back-filling the value array gives the captures oldest first, or falls back to the rebuild when names and captures do not line up |
| TrieMatcher.MatchOf | src/router/trie.ts:288-300 | the rebuild keeps the newest capture of each name |
| TrieMatcher.MatchPattern | src/router/trie.ts:152-242 | the stack loop terminates and returns exactly the product of the depth-first hit |
| TrieOrder.DfsComplete | src/router/trie.ts:152-242 | if any edge word is accepted by the request, the search finds something |
| TrieOrder.DfsLeast | src/router/trie.ts:197-240 | the search lands on the least accepted word: static, consume, skip, later variants, wildcard at each node |
| TrieOrder.WordLeqTransitive | src/router/trie.ts:197-240 | the priority order on words is transitive |
| TrieOrder.WordLeqAntisymmetric | src/router/trie.ts:197-240 | and antisymmetric |
| TrieOrder.WordLeqTotal | src/router/trie.ts:197-240 | and total on the words one request accepts |
| TrieInsert.InsertPreserves | src/router/trie.ts:337-411 | an insertion, even one that throws part-way, keeps every node, label, target and recorded name list, and gives no node a target |
| TrieInsert.SpellsPreserved | src/router/trie.ts:337-411 | later insertions change no word that already spells a pattern |
| TrieIndex.InsertUniform | src/router/trie.ts:358-380 | all variants at one position carry one name |
| TrieIndex.InsertTerminals | src/router/trie.ts:337-411 | an insertion's terminals are exactly the words that spell the pattern, every consume and skip choice included |
| TrieIndex.InsertReaches | src/router/trie.ts:337-411 | every terminal returned exists and has its name list |
| TrieIndex.InsertNamed | src/router/trie.ts:337-350 | a node's recorded names are the names captured on the way to it |
| TrieIndex.InsertKeepsIndex | src/router/trie.ts:337-411 | an insertion, finished or not, keeps the trie a sound and complete index of what was registered |
| TrieIndex.RegisterKeepsIndex | src/router/router.ts:197-203 | a registration keeps the index in order and adds its pattern |
| TrieIndex.BuildOk | src/router/router.ts:173-222 | any run of registrations leaves the trie a sound and complete index |
| TrieClash.RegistersExactly | src/router/trie.ts:337-411 | the trie of a list takes a pattern if and only if no pattern of the list names a param differently after the same edges |
| TrieClash.BuildsExactly | src/router/trie.ts:372-388 | a list of patterns builds a trie if and only if no two of them clash |
| TrieMeaning.SpelledMatches | src/router/trie.ts:152-242 | an accepted word is evidence that the pattern it spells matches the request |
| TrieMeaning.MatchSpelled | src/router/trie.ts:152-242 | a registered pattern that matches has an accepted word |
| TrieMeaning.FindsExactly | src/router/trie.ts:152-242 | the search finds a target if and only if some registered pattern declaratively matches the request |
| TrieMeaning.TerminalServesOnlyMatches | src/router/trie.ts:337-411 | whoever shares the terminal of a hit has a pattern that matches: no skip edge serves a sibling that requires the param |
| TrieMeaning.HitCaptures | src/router/trie.ts:257-280 | captures line up with the registered names except for a lone empty wildcard rest, so the back-fill never runs below index 0 |
| TrieMeaning.RunAligned | src/router/trie.ts:121-242 | along an accepted word the request is cut into the pieces of its pattern, and the captures are exactly what the pieces hold, newest first |
| TrieMeaning.HitAligned | src/router/trie.ts:152-242 | so the hit of the search is a registered pattern's target with what that pattern captures |
| TrieMeaning.RunCaptures | src/router/trie.ts:122-242 | along any accepted word the capture names are the registered names, up to that one exception |
| TrieMeaning.ProductReadsLatest | src/router/router.ts:84-92 | whichever way the product was built, reading it by name gives the newest capture |
| TrieMeaning.MatchReadsLatest | src/router/router.ts:84-92 | so every match of an indexed trie reads as the captures of its hit |
| TableRegex.CheckEligible | src/router/bucket-regex.ts:74-98 | the loop accepts exactly static-first patterns of literals and plain params, a wildcard only last, with a capture |
| TableRegex.PrecedenceIsLexicographic | src/router/bucket-regex.ts:101-145 | the comparator agrees in sign with the lexicographic order on ranks where ending ranks between a param and the wildcard |
| TableRegex.LexAntisymmetric | src/router/bucket-regex.ts:124-145 | the order is antisymmetric |
| TableRegex.LexTransitive | src/router/bucket-regex.ts:124-145 | the order is transitive, strictly where either step is strict: a strict weak order |
| TableRegex.StableSortSorts | src/router/bucket-regex.ts:173-178 | sorting permutes the patterns and leaves no pair out of order |
| RegexItems.ItemsMeanSegments | src/router/bucket-regex.ts:181-209 | on one-line paths not ending in two slashes an alternative over raw characters captures exactly what its pattern captures over segments |
| RegexItems.SegmentsFromPath | src/router/trie.ts:303-308 | cutting segments off the raw path gives the segments the trie walks |
| RegexItems.LiteralIsSegment | src/router/bucket-regex.ts:186-193 | a literal in an alternative matches only a whole segment |
| TableMatch.EmitAlternative | src/router/bucket-regex.ts:183-205 | the emission loop produces the items of the pattern and its names |
| TableMatch.CompileTableRegex | src/router/bucket-regex.ts:158-210 | the table is the sorted alternatives of pure buckets with their group numbers, or null when there are none |
| TableMatch.NamesAreGroups | src/router/bucket-regex.ts:183-209 | an alternative has one group per name |
| TableMatch.GroupsShape | src/router/bucket-regex.ts:229-258 | the execution array holds the leftmost matching alternative's captures and undefined everywhere else |
| TableMatch.AnswerIsWinner | src/router/bucket-regex.ts:229-258 | the answer is the first alternative, in sorted order, that matches |
| TableMatch.MatchTableRegex | src/router/bucket-regex.ts:229-270 | the group scan names the winning route and its captures, wildcard tidied, and declines paths ending in two slashes |
| FastLayers.PlainRuns | src/router/bucket-regex.ts:9-40 | the word of a plain pattern is accepted exactly when the pattern captures, with the same captures |
| FastLayers.SearchOrderIsPrecedence | src/router/bucket-regex.ts:103-145 | of two accepted plain words, the one the search prefers belongs to the pattern the comparator puts first |
| FastLayers.WordUnique | src/router/trie.ts:337-411 | a pattern without optional params has one terminal word |
| FastLayers.TableAgrees | src/router/bucket-regex.ts:173-266 | whenever the table over pure buckets answers, it answers the target, names and captures of the trie search |
| FastLayers.FastMatch | src/router/match.ts:36-64 | both branches of the slice matcher answer the static head on a boundary followed by one non-empty part per name |
| FastLayers.FastAgrees | src/router/match.ts:36-64 | the matcher of a bucket holding exactly one simple pattern only answers what the trie answers |
| RouterRuns.StaticsStep | src/router/router.ts:174-192 | one more definition keeps the static map holding exactly the canonical keys of the static definitions |
| RouterRuns.RegisterSpells | src/router/router.ts:197-203 | a later registration changes no earlier pattern's words, hence no earlier definition's targets |
| RouterRuns.BoundLayers | src/router/router.ts:252-268 | binding appends a definition's handlers exactly once to each of its targets, for its own method only |
| RouterRuns.FastOkStep | src/router/router.ts:225-244 | one more dynamic definition keeps the table index complete: an entry for every eligible pattern, every other bucket set aside |
| RouterRuns.BucketsStep | src/router/router.ts:204-221 | a bucket keeps a slice matcher only while it holds exactly one simple pattern |
| RouterRuns.BindKeepsOrder | src/router/router.ts:225-269 | one definition keeps the whole index in order |
| RouterRuns.RebuildOk | src/router/router.ts:271-286 | every definition list that rebuilds yields an index whose trie, table, buckets, static map, layers and chains all describe that list |
| TargetFacts.TargetFactsOk | src/router/router.ts:252-268 | in every router a target allows exactly the methods its definitions stand for (ALL for all, GET for HEAD too) and bears the name and path given last |
| Router.RebuildsExactly | src/router/router.ts:225-286 | one definition more can be indexed if and only if its path spells a pattern that clashes with no earlier definition's |
| RouteMeaning.LookupIsCanonical | src/router/match.ts:93-111 | the four static lookups amount to: the entry with the request's decoded segments, else the one without its final slash |
| RouteMeaning.StaticServes | src/router/match.ts:93-111 | the static layer answers if and only if some static definition has the request's decoded segments, a final slash aside |
| RouteMeaning.ServesExactly | src/router/router.ts:178-196 | for every stored path: a static definition is served on exactly the requests its pattern matches if and only if that path has no final slash to drop |
| RouteMeaning.ServedMatches | src/router/match.ts:93-111 | a request a static key answers matches the pattern too, unless the stored path kept a final slash and the request has one more |
| RouteMeaning.RouteExactly | src/router/match.ts:93-133 | in every router a request is answered if and only if some definition answers it: a static one by its decoded segments, a dynamic one by its pattern |
| RouteMeaning.AstrayExactly | src/router/match.ts:93-111 | key and pattern of a static definition disagree on exactly the requests one slash short of a stored final slash or one slash beyond it |
| RouteMeaning.RouteMatches | src/router/match.ts:93-133 | "answered if and only if some registered pattern matches" holds exactly when no static definition is astray from the request, or some definition that matches is not |
| RouteMeaning.LayersServeOnlyMatches | src/router/router.ts:252-268 | in every router each layer on the answered target belongs to a definition of that method that answers the request; its own pattern matches too, exactly but for the final-slash case |
| RouteMeaning.LayersInOrder | src/router/router.ts:245-258 | the layers of a target are, definition by definition in registration order, the middleware of the mounted router, the middleware of its params in name order and each once, then its handlers |
| RouteMeaning.MatchedRequestIsOffered | src/router/router.ts:245-268 | in every router an answered request reaches exactly the application layers whose scope admits its path, in use order, then the layers of its definitions; where the request strayed to a key with a final slash, the scopes that count are those of the key |
| RouteMeaning.ServedOffersExactly | src/router/router.ts:244-260 | whatever the layers, the answer of a static definition runs those whose scope admits the request, if and only if its stored path has no final slash or the request has the same segments |
| Middleware.StaticPlanIsFixed | src/core/middleware-stack.ts:317-345 | every scope is decided at setup for a static route |
| Router.Router.constructor | src/router/router.ts:140-154 | a new router is the rebuild of no definitions |
| Router.Router.IndexPattern | src/router/router.ts:173-222 | the in-place indexing does what the specification does; on a refusal it leaves exactly the partly grown trie of the insertion that threw, and nothing else |
| Router.Router.BindDef | src/router/router.ts:225-269 | binding succeeds exactly when the specification does and then leaves its index, one epoch later |
| Router.Router.ResetIndex | src/router/router.ts:271-280 | everything but the definitions is emptied, in a new epoch |
| Router.Router.RebuildChains | src/router/router.ts:283-286 | the index becomes the rebuild of the definitions under the middleware now in force |
| Router.RebuildIndependent | src/router/router.ts:283-286 | whether a list rebuilds, and the trie it gives, does not depend on the middleware in force |
| Router.Router.RegisterDef | src/router/router.ts:369-429 | registration succeeds exactly when it is admissible, its path spells a pattern, and no earlier definition names a shared position differently; otherwise definitions, names and index are as before, apart from the epoch |
| Router.UpperExactly | src/router/router.ts:379-382 | methods are registered in capitals: each small letter becomes its capital and nothing else changes |
| Router.RegisteredExactly | src/router/router.ts:390-393 | under any prefix a static route is served on exactly the requests its pattern matches if and only if prefix and path, one final slash dropped, do not end in two; without a prefix, if and only if the path does not end in three |
| Router.StoredAt | src/router/router.ts:390-393 | a route is stored at its prefix and path together, one final slash dropped, and at the prefix alone for the root |
| Router.ConflictExactly | src/router/router.ts:431-475 | two paths conflict in the native table if and only if some list of fully decoded segments belongs to both, trees holding everything below them |
| Router.ThreeSlashes | src/router/router.ts:390-393 | "/a///" is stored as "/a/": a router holding it does not answer "/a", which its pattern matches, and answers "/a//", which it does not match |
| Router.ThreeSlashesRunLayers | src/router/router.ts:244-260 | and it runs a layer for "/a" on the request "/a//", which that scope does not admit |
| Router.Router.Rollback | src/router/router.ts:418-426 | a registration that throws part-way leaves no trace of its definition or name |
| Router.Router.Param | src/core/app.ts:284-290 | a param middleware is installed and the index is rebuilt around it |
| Router.Router.Replan | src/core/app.ts:208-217 | application middleware registered after routes: the index is rebuilt under the new plan, and definitions, names and claims stay |
| Router.Router.FastIndexNow | src/router/match.ts:78-91 | the memo of the current epoch is the fast index of the current index, also after later registrations |
| Router.Router.MatchFast | src/router/match.ts:113-125 | whatever the slice matchers or the table answer, the trie would have answered |
| Router.Router.MatchTrie | src/router/match.ts:127-128 | the trie layer answers its match unchanged |
| Router.Router.MatchRoute | src/router/match.ts:93-133 | in every reachable router and on every one-line path the layered matcher returns the static entry, else exactly the target, names and values of the trie |
| Middleware.RelationHolds | src/core/middleware-stack.ts:317-345 | an always or never verdict reached at setup holds for every request the route can match |
| Middleware.PlanIsExact | src/core/middleware-stack.ts:347-380 | past its mount offset the partially evaluated plan offers a matched request exactly what checking every scope would |
| Middleware.RebasedReaches | src/core/middleware-stack.ts:382-392 | a rebased plan reaches on the whole path what the plan reaches below the mount |
| Middleware.MountedIsExact | src/core/middleware-stack.ts:361-392 | under any nesting of mounts whose prefixes take one segment each, a mounted application's layers run on exactly the requests they would run on below the mount |
| Middleware.OffsetExactly | src/core/registration.ts:252-279 | for every prefix without a wildcard and every request, a mounted plan reaches what its application offers below the mount if and only if the prefix took one segment for each of its own |
| Middleware.MountExactly | src/core/registration.ts:252-279 | so for a prefix without custom expressions this holds on every request if and only if no segment of it is optional |
| Middleware.OptionalBaseMisses | src/core/registration.ts:252-279 | the smallest prefix for which it fails |
| Middleware.WildcardBase | src/core/registration.ts:252-279 | under a prefix ending in a wildcard no route but the root compiles, and its plan reaches what the application offers at its root |
| Middleware.ScopeIsPattern | src/core/middleware-stack.ts:154-173 | a scope admits a path exactly as its pattern does when read as a route, the bare prefix of a wildcard included |
| Middleware.ScopeOfPattern | src/core/middleware-stack.ts:154-173 | so a compiled scope admits a path if and only if its pattern matches it with a trailing slash |
| Middleware.ScopeExactly | src/core/middleware-stack.ts:154-173 | a pattern compiles to a scope if and only if it spells the scope's literals, with a wildcard after them for a prefix scope |
| Middleware.KeyOfInjective | src/core/middleware-stack.ts:61-62 | different segment lists never share a scope key |
| Fallbacks.WalkIsFilter | src/core/middleware-stack.ts:395-410 | the exact chain, else the deepest prefix chain, else the global chain, is the filter of all layers |
| Fallbacks.DeepestFilter | src/core/middleware-stack.ts:226-231 | with nothing exact and nothing deeper, the layers listed at a prefix are those offered to the path |
| Fallbacks.MiddlewareStack.FilterLayers | src/core/middleware-stack.ts:178-196 | the handlers for a segment list, in use order |
| Fallbacks.MiddlewareStack.ScopesOf | src/core/middleware-stack.ts:200-207 | the scope maps hold exactly the scopes registered |
| Fallbacks.MiddlewareStack.PutChains | src/core/middleware-stack.ts:220-231 | every scope gets its chain, nothing else changes |
| Fallbacks.MiddlewareStack.RebuildFallbacks | src/core/middleware-stack.ts:199-236 | the fallback trie holds the chain of every scope and no other |
| Fallbacks.MiddlewareStack.AddMiddleware | src/core/middleware-stack.ts:238-248 | layers are appended and the fallback chains follow |
| Fallbacks.MiddlewareStack.FallbackMiddlewareForPath | src/core/middleware-stack.ts:395-410 | an unmatched request gets exactly the layers whose scope admits its path, in use order |
| Fallbacks.MiddlewareStack.MiddlewareForRoute | src/core/middleware-stack.ts:361-380 | a route's plan for its mount offset, or the compile error |
| Sink.NoOverlapIsDisjoint | src/router/pattern.ts:157-198 | patterns the guard lets pass share no request |
| Sink.BareDisjoint | src/core/sink.ts:247-280 | a directory sink's guard also covers its static twin |
| Sink.DirectoryMirrors | src/core/sink.ts:270-278 | the tree mirror is the twin's pattern followed by a wildcard |
| Sink.AddGuarded | src/router/router.ts:400-411 | a route that passed the sunk guard shares no request with any sunk path |
| Sink.ClaimGuarded | src/core/sink.ts:242-280 | mirrors disjoint from everything before them may be claimed |
| Sink.ServedShares | src/router/router.ts:390-393 | also a static definition that answers a request its pattern does not match shares some request with whatever pattern matches that one |
| Sink.SunkAnswersAlone | src/core/sink.ts:111-121 | in every router a request a sunk definition matches runs no layer of any other registration |
| Sink.SinkTable.Route | src/router/router.ts:400-429 | over any run of routes the sunk paths stay disjoint from everything but their own mirrors |
| Sink.SinkTable.Conflicts | src/core/sink.ts:114-121 | the guard reports a conflict exactly when some definition overlaps |
| Sink.PassedIsUnseen | src/core/middleware-stack.ts:437-448 | when the middleware guard lets a sink pass, no layer that is not excused is in scope of any request its mirrors match |
| Sink.GuardExactly | src/core/middleware-stack.ts:437-448 | for a sink without custom expressions the guard stops exactly the sinks some such layer would see |
| Sink.ShapesExactly | src/core/sink.ts:164-238 | which values go with which paths: unread responses with literal paths, directories with trees, functions without an error mapper with literals and plain params |
| Sink.TwinOverlaps | src/core/sink.ts:114-121 | whatever the twin of a directory sink overlaps, the tree overlaps |
| Sink.TwinRebuilds | src/core/sink.ts:274-278 | once the tree is indexed its twin cannot be refused |
| TrieIndex.HeldPrefixInserts | src/router/trie.ts:337-411 | a prefix of a pattern the trie holds can always be inserted |
| Sink.SinkTable.MirrorOne | src/core/sink.ts:282-343 | the mirror is accepted exactly when the router admits it; then its path is claimed, otherwise nothing changes |
| Sink.SinkTable.MirrorDirectory | src/core/sink.ts:247-280 | the tree and its twin are both registered and both claimed, exactly when the router admits the tree: the twin never fails, and a refusal changes nothing |
| Sink.SinkTable.RegisterSink | src/core/sink.ts:133-344 | a sink is accepted if and only if every guard passes and the router admits its mirror; then mirrors, claims and entry all appear, otherwise none does; the disjointness of sunk paths is kept, and no layer that is not excused is in scope of a request the mirrors match |
| Url.BuildURL | src/router/url.ts:18-59 | the loop builds the URL, and throws exactly when a required param is absent or empty or the wildcard is absent |
| Url.PartsExactly | src/router/url.ts:18-59 | when nothing is lacking the URL has one part for each segment, optional params without a value left out, in order |
| Url.RoundTrip | src/router/url.ts:18-59 | when the values travel, the built URL is found in any trie the pattern is registered in; it lands on the pattern exactly when no word before its own takes the request, and then gives back its names and exactly the values that went in |
| Url.RoundTripExactly | src/router/url.ts:15-59 | on a trie holding only the pattern, for every supplied value the round trip holds if and only if the wildcard value does not end in a slash, nor start with one when it comes first |
| Url.SentQuery | src/router/url.ts:54-59 | a matcher sees exactly the segments that were sent |
| Url.ShorterHit | src/router/url.ts:15-16 | a request whose rest is shorter than the wildcard value never gives the value back |
| LifecycleSpec.RefillFills | src/core/lifecycle.ts:118-124 | the refill stops with the queue empty or every slot taken |
| LifecycleSpec.RefillShape | src/core/lifecycle.ts:118-124 | the refill admits a prefix of the queue, in order, and leaves the rest in order |
| LifecycleSpec.RefillKeeps | src/core/lifecycle.ts:118-124 | so after a refill counter, holders and replies account for exactly that prefix |
| LifecycleSpec.ReleaseKeeps | src/core/lifecycle.ts:105-111 | a release keeps counter, holders, cap, queue and drain waiters consistent and its own ticket out of the holders |
| LifecycleSpec.ArriveKeeps | src/core/lifecycle-admission.ts:59-68 | an arrival keeps them too, and is admitted on the spot only when nobody waits |
| LifecycleSpec.LeaveKeeps | src/core/lifecycle-admission.ts:263-271 | leaving the queue keeps them and takes the ticket off the queue |
| LifecycleSpec.DrainKeeps | src/core/lifecycle.ts:306-308 | so does starting to drain |
| LifecycleSpec.SubscribeKeeps | src/core/lifecycle.ts:172-176 | a drain callback is kept exactly while the counter is above zero |
| LifecycleSpec.UncappedSettlesAlike | src/core/lifecycle.ts:133-143 | in every reachable uncapped state the shortcut settles exactly as the full path does |
| LifecycleSpec.DrainingNeverRises | src/core/lifecycle.ts:105-124 | while draining a release lowers the counter by one and an arrival changes nothing |
| Lifecycle.WaiterSlot.Arm | src/core/lifecycle-admission.ts:220-244 | an armed slot listens to its client and has its timer set when there is a timeout; when the client is already gone it is answered and idle again |
| Lifecycle.WaiterSlot.Finish | src/core/lifecycle-admission.ts:273-292 | the one exit: answer once, clear timer and listener, forget the request, back to the pool when there is room |
| Lifecycle.WaiterSlot.Admit | src/core/lifecycle-admission.ts:246-255 | a waiter takes the freed slot at once and is answered; a settled one does nothing |
| Lifecycle.WaiterSlot.Drop | src/core/lifecycle-admission.ts:257-260 | a dropped waiter is refused without taking a slot |
| Lifecycle.WaiterSlot.Leave | src/core/lifecycle-admission.ts:263-271 | a timed-out or disconnected waiter leaves the queue and is refused |
| Lifecycle.LifecycleState.Admit | src/core/lifecycle-admission.ts:74-79 | any number of admit calls takes exactly one slot |
| Lifecycle.LifecycleState.RefillFromQueue | src/core/lifecycle.ts:118-124 | the loop is the specified refill |
| Lifecycle.LifecycleState.WakeCloseWaiters | src/core/lifecycle.ts:113-116 | each drain callback runs once with the counter it sees |
| Lifecycle.LifecycleState.ReleaseInFlight | src/core/lifecycle.ts:105-111 | the release tail is the specified release, and a close waiting on zero hears of it |
| Lifecycle.LifecycleState.EnqueueRequest | src/core/lifecycle-admission.ts:182-193 | a request goes behind the ones waiting, in a recycled or new slot; no slot is both idle and armed or queued twice, queued ones listen with the timer set, pooled ones have neither |
| Lifecycle.LifecycleState.HandleRequest | src/core/app.ts:343-357 | the entry of a request under the built-in strategies is the specified arrival, whose outcome LifecycleRuns.ArrivalExactly gives |
| Lifecycle.LifecycleState.Refuse | src/core/lifecycle-admission.ts:86-91 | a refusal gives back the slot the strategy took, if it took one |
| Lifecycle.LifecycleState.Decide | src/core/lifecycle-admission.ts:101-118 | whatever the strategy did before, one net slot is taken if the request is admitted and none if it is refused |
| Lifecycle.LifecycleState.Resolve | src/core/lifecycle-admission.ts:119-146 | the same for a late decision; a late null that took no slot is admitted exactly when below the cap and not draining |
| StrategyRuns.RunOk | src/core/lifecycle-admission.ts:59-146 | over every run of arrivals, admit calls at any time, decisions, late outcomes, settles and a drain, under any strategy, the counter is the slots and every slot has its request |
| StrategyRuns.ArrivalExactly | src/core/lifecycle-admission.ts:59-68 | under any strategy and over every run an arrival is let in below the cap, put to the strategy at the cap, barred while draining |
| StrategyRuns.DecidedExactly | src/core/lifecycle-admission.ts:101-118 | a decision at once grants exactly on null, waits exactly on a promise and denies otherwise, with one slot held, kept or given back accordingly |
| StrategyRuns.ResolvedExactly | src/core/lifecycle-admission.ts:119-146 | a late outcome grants exactly on a null that has taken a slot or finds one below the cap outside a drain, and denies otherwise |
| StrategyRuns.SettledExactly | src/core/lifecycle.ts:105-111 | a request let in gives its slot back when it settles, once |
| StrategyRuns.OneNetSlot | src/core/lifecycle-admission.ts:69-146 | while a strategy is asked its flag says who holds the slot; an admitted request holds one until it settles; a denied one holds none unless admit was called after it was denied |
| StrategyRuns.QuietExactly | src/core/lifecycle-admission.ts:74-91 | with every call answered and every request settled the counter is back at zero if and only if no strategy called admit for a request it had denied |
| StrategyRuns.LateAdmitLeaks | src/core/lifecycle-admission.ts:74-91 | such a call: it takes a slot that nothing gives back |
| Lifecycle.LifecycleState.StartDraining | src/core/lifecycle.ts:306-308 | the whole queue is taken off and everyone on it refused, in order |
| Lifecycle.LifecycleState.SubscribeSettled | src/core/lifecycle.ts:172-176 | true when already at zero, otherwise the callback is kept |
| Lifecycle.LifecycleState.CloseApp | src/core/lifecycle.ts:280-374 | the first close throws on bad options before it changes anything and otherwise drains; a repeat looks at nothing but drain 0, which escalates one that is still waiting |
| Lifecycle.CheckClose | src/core/lifecycle.ts:295-305 | with the defaults filled in, options are accepted exactly when the drain is a non-negative number or infinite and the hook time a non-negative finite number |
| SlotRelease.StepKeeps | src/core/lifecycle-deadline.ts:25-77 | every ordering but one keeps "released once, answered once" |
| SlotRelease.ReleasedOnce | src/core/lifecycle-deadline.ts:41-76 | over every interleaving with microtasks before timers the slot is given back at most once, and exactly once when nothing holds it any more |
| SlotRelease.SettlesExactly | src/core/lifecycle.ts:139-143 | a response that settles keeps its slot if and only if the application drains and its body can be read |
| SlotRelease.DeadlineFrees | src/core/lifecycle-deadline.ts:56-75 | a request waiting on its promise has its deadline armed when there is one, and its firing answers and frees the slot |
| SlotRelease.BetweenReleasesTwice | src/core/lifecycle-deadline.ts:43-66 | a deadline let in between the settle and the race hearing of it gives the slot back twice |
| SlotRelease.BetweenIsReachable | src/core/app.ts:379-391 | and that ordering exists as soon as timers need not wait for microtasks |
| Served.BodyHold.ReleaseHold | src/core/lifecycle.ts:153-159 | the release closure of a held body releases once |
| Served.Pump.Finish | src/utils/streams.ts:53-58 | however a re-pumped stream ends, its finish hook runs once |
| Served.Pump.Pull | src/utils/streams.ts:60-92 | a pull finishes the pump when the source ends, fails or the consumer no longer takes the chunk, and not otherwise |
| Served.Pump.Cancel | src/utils/streams.ts:93-97 | a cancel finishes it, also with a pull parked |
| Served.ServedRequest.SettleRequest | src/core/lifecycle.ts:139-143 | while draining a readable body keeps the slot; otherwise it is given back |
| Served.ServedRequest.HoldBody | src/core/lifecycle.ts:153-169 | a readable body is wrapped, a locked one releases at once |
| Served.ServedRequest.SyncSettled | src/core/app.ts:384-392 | a response returned at once settles without a race |
| Served.ServedRequest.RunSettle | src/core/dispatch.ts:40-51 | the settle continuation releases unless the deadline has answered |
| Served.ServedRequest.RunRace | src/core/lifecycle-deadline.ts:41-55 | the race ends once; a zombie's late settle changes nothing |
| Served.ServedRequest.DeadlineFires | src/core/lifecycle-deadline.ts:56-75 | the deadline answers and frees the slot at once |
| Served.ServedRequest.PumpEvent | src/core/lifecycle.ts:153-169 | any end of a held body is one step of the request's machine |
| LifecycleRuns.StepKeepsApp | src/core/lifecycle.ts:105-176 | every event of the application keeps counter, queue, lives, replies and close in step |
| LifecycleRuns.RunAppOk | src/core/lifecycle.ts:28-47 | so does every run |
| LifecycleRuns.CapacityHolds | src/core/lifecycle-admission.ts:59-68 | the counter equals the slot holders and never passes the cap; a waiting queue means a full house and is within its bound |
| LifecycleRuns.ArrivalExactly | src/core/lifecycle-admission.ts:59-68 | over every run an arrival takes a slot if and only if the application is not draining and has one; it waits, last, if and only if there is none but room in the queue and its client is there; otherwise it is turned away for the right reason, and nothing else changes |
| LifecycleRuns.SlotIsHandedOn | src/core/lifecycle.ts:105-124 | over every run a slot given back goes to the head of the queue at once and the counter does not dip; with nobody waiting it falls by one |
| LifecycleRuns.LeavingExactly | src/core/lifecycle-admission.ts:263-271 | over every run a waiting request that leaves is refused for it and nobody else is touched |
| LifecycleRuns.QuietAppIsEmpty | src/core/lifecycle.ts:28-33 | when no request is unfinished the counter is back at zero and nobody waits |
| LifecycleRuns.NobodyReleasesTwice | src/core/lifecycle.ts:139-169 | no request gives its slot back twice, and it is a holder exactly until it does |
| LifecycleRuns.NoOvertaking | src/core/lifecycle-admission.ts:59-68 | no arrival overtakes a non-empty queue |
| LifecycleRuns.QueueIsFair | src/core/lifecycle.ts:118-124 | queued requests are answered at most once and admitted in arrival order |
| LifecycleRuns.NobodyIsForgotten | src/core/lifecycle-admission.ts:201-292 | whoever the queue took charge of and no longer waits has been answered |
| LifecycleRuns.DrainOnlyFalls | src/core/lifecycle.ts:306-308 | once a close has begun nothing raises the counter |
| LifecycleRuns.CloseTellsTheTruth | src/core/lifecycle.ts:310-374 | a close in embedded mode that reports no timeout reports an empty application, and it stays empty |
| LifecycleRuns.ClosingExactly | src/core/lifecycle.ts:306-374 | the first close refuses the whole queue in order, touches nobody past the gate, and ends at once, at zero, or waits |
| LifecycleRuns.CloseMovesOn | src/core/lifecycle.ts:310-374 | a close waiting for a limited time can be cut short, a decided one resolves with the counter as it is, and neither happens otherwise |
| LifecycleRuns.CloseReportsExactly | src/core/lifecycle.ts:310-374 | over every run a close reports a timeout if and only if its timer or a second close with drain 0 cut it short while the counter was above zero, or it was immediate and found it there |
| LifecycleRuns.BodyKeepsSlot | src/core/lifecycle.ts:145-169 | over every run a body held while draining keeps its slot until its pump ends, and no longer |
| LifecycleRuns.CallbacksFireOnceAtZero | src/core/lifecycle.ts:105-116 | over every run a drain callback that was subscribed has fired exactly once by the time the counter is zero, not at all before, and fired seeing zero |
| LifecycleRuns.NoCloseHangsAtZero | src/core/lifecycle.ts:105-116 | over every run no close is still waiting when the counter is zero |
| Compose.StepKeeps | src/core/compose.ts:92-159 | whoever calls next() of whichever level and whenever, every step keeps each running level watched (by the call that started it, by the level above, or as a registered branch) or marked as a stray that is no branch |
| Compose.RunOk | src/core/compose.ts:99-158 | so does every run of the chain |
| Compose.NextIsOnce | src/core/compose.ts:108-135 | the first next() of a level runs the level below, or the tail whose promise it floats; any further one changes nothing |
| Compose.DrainSettlesAll | src/core/branches.ts:37-55 | when the drain resolves every handler the chain started has settled, if and only if none started unwatched is still running |
| Compose.OrphanEscapes | src/core/branches.ts:37-55 | and that condition is needed: from any reachable chain with an unwatched level running, events without a failure or a next() lead to a resolved drain with that level still running |
| Compose.PoliteDrainSettlesAll | src/core/branches.ts:21-55 | hence always, when no handler fails with its own next() outstanding and no settled level with one below it makes its first next() call |
| Compose.PoliteStaysSettled | src/core/branches.ts:21-55 | and everything stays settled behind it |
| Compose.ImpoliteEscapes | src/core/compose.ts:108-149 | from any reachable chain, a failure with the own next() running or a first next() of a settled level leads on to a resolved drain with a handler still running |
| Compose.PoliteExactly | src/core/branches.ts:21-55 | after a polite run one more event keeps the guarantee if and only if it is polite |
| Compose.AwaitingDrainsAtOnce | src/core/compose.ts:108-149 | a chain whose levels await or return every next() registers no branch, so its drain resolves as soon as it is asked for |
| Compose.DrainMoment | src/core/branches.ts:40-54 | the drain resolves only after the outermost level and every branch, those registered meanwhile included |
| Compose.LateNextEscapes | src/core/compose.ts:108-135 | a next() called after its level settled starts a handler no drain waits for |
| Compose.ThrowEscapes | src/core/compose.ts:136-149 | so does a handler that fails while its own next() is still running |
| Cache.EvictKeepsTail | src/middleware/cache.ts:253-261 | eviction keeps the longest tail meeting both budgets and nothing else |
| Cache.SurvivesExactly | src/middleware/cache.ts:253-261 | an entry outlives the eviction if and only if it and everything newer meets both budgets |
| Cache.FreshSurvives | src/middleware/cache.ts:250-261 | an entry captured under an absent key survives its own eviction pass when max is at least 1 |
| Cache.ReplacedMayGo | src/middleware/cache.ts:248-261 | under a key a concurrent capture stored it may not: it inherits the old place |
| Cache.BudgetsAlwaysHold | src/middleware/cache.ts:179-261 | however lookups and captures interleave, keys stay unique and both budgets hold after every section |
| Cache.LookupKeeps | src/middleware/cache.ts:153-156 | a live hit becomes the freshest entry and changes no total |
| Cache.LookupExactly | src/middleware/cache.ts:203-208 | a lookup answers exactly the live entry of its key, unless the request is authorized or bypasses the store; a dead or bypassed entry goes, a hit becomes the last, every other keeps its place |
| Cache.CaptureExactly | src/middleware/cache.ts:231-261 | an oversized capture changes nothing; any other takes the place of the entry it replaces or the last, and the oldest entries go, as many as needed |
| Cache.ServesLastStored | src/middleware/cache.ts:203-261 | however sections interleave, what a lookup can answer is what was stored last under its key |
| Cache.ResponseCache.LookUp | src/middleware/cache.ts:203-208 | the lookup is the specified one and keeps totalBytes the sum of what is stored |
| Cache.ResponseCache.Keep | src/middleware/cache.ts:248-261 | the capture terminates, is the specified one and keeps totalBytes the sum of what is stored |
| RateLimit.MemoryStore.Record | src/middleware/rate-limit.ts:58-76 | a hit counts up a live window or opens a new one, and evicts the oldest keys beyond the bound; what the counts are, RateLimit.AnswersExactly gives |
| RateLimit.HitKeeps | src/middleware/rate-limit.ts:58-76 | after a hit the store is within its bound, holds its own key, and leaves every other key unchanged or evicted |
| RateLimit.WindowAdmitsLimit | src/middleware/rate-limit.ts:141-142 | no fixed window lets more than the limit through |
| RateLimit.IntervalAdmitsTwice | src/middleware/rate-limit.ts:141-142 | no half-open interval of one window length lets more than twice the limit through |
| RateLimit.BucketExactly | src/middleware/rate-limit.ts:58-66 | a bucket counts the hits since its window opened and closes one window length after that; a window opens exactly at a hit no window opened before covers |
| RateLimit.WindowPassesExactly | src/middleware/rate-limit.ts:141-142 | every window lets exactly the smaller of the limit and its hits through |
| RateLimit.KeysDoNotInterfere | src/middleware/rate-limit.ts:55-76 | a key that is never evicted counts as if it were alone, and the store stays within its bound over any run |
| RateLimit.StoreAdmitsLimit | src/middleware/rate-limit.ts:58-142 | over any run of the store with a forward clock, a key that is never evicted is let through at most limit times a window, and at most twice that in any interval of one window length |
| RateLimit.AnswersExactly | src/middleware/rate-limit.ts:58-66 | so over any run the store answers a key it never evicted with its hits since such an opening |
| RateLimit.StorePassesExactly | src/middleware/rate-limit.ts:58-142 | and lets exactly the smaller of the limit and the hits of each window through |
| RateLimit.FewKeysStay | src/middleware/rate-limit.ts:55-76 | as long as no more distinct keys than the bound have come by, the store holds exactly those and evicts none |
| RateLimit.EvictionForgets | src/middleware/rate-limit.ts:62-76 | for every limit, window and bound: after limit hits of one key and one of each of as many other keys as the store holds, the first key passes once more in the same window |
| RateLimit.LimitHoldsExactly | src/middleware/rate-limit.ts:55-142 | over all runs with at most n distinct keys and a forward clock no key passes more than limit times a window, if and only if the store has room for n keys |

## Left out

- Transport adapters, `listen`, signals, web sockets, native tables and static files: I/O and foreign runtimes.
- The context object, cookies, context pooling, response bodies and headers: a response is "no body", "readable" or "locked".
- `overload.handler` and drain callbacks are not re-entrant.
- Lifecycle.LifecycleState.CloseApp: the close of embedded mode, which waits on the counter; adapters with their own graceful stop and `onShutdown` hooks, which run between the decision and the resolved promise, are not part of the model.
- Validation of `overload` and `requestTimeout` options: the model starts from what it guarantees.
- The source text of the alternation and the escaping of literals in it: an alternative is a list of literal characters, `[^/]+`, `(.*)` and a final `/?` with greedy backtracking.
- Lone surrogates and UTF-16 code units: `encodeURIComponent` throws on the former, and string positions are counted in scalar values.
- Upper-casing of methods is done for ASCII letters only.
- The registration side of `mount` (copying definitions and param middleware; the offsets of mounted middleware are modelled), plugins, partly failed `use` calls and `noOpFor` declarations beyond the set of excused handlers.
- Development-only warnings, stall and swallow tracing, and the shadow audit.
- The response slot that `commit` writes, and `direct` chains: each is a single guarded assignment or call.
- Which optional params a built URL skips: the round trip is stated for patterns without them.
- Eligibility of responses for the cache, cache keys and response headers of the rate limiter.
- Router.Router.MatchRoute: promises nothing about the answer for a path with a line terminator, where `(.*)` in the table does not cross the line; request URLs do not contain one.
- TrieIndex.InsertTerminals: insertion is modelled on values; the identity of the mutated node objects and the arrays handed out frozen are not part of the model.
- Compose.StepKeeps: the per-request flags of a level are fields of one state value instead of closure variables; a handler's own code is any sequence of calls, parks, returns and throws; the tail below the last level settles by itself.
- LifecycleRuns.RunAppOk: assumes one of the built-in strategies; `StrategyRuns.RunOk` covers the others, for strategies that keep no queue of their own on the application's.
