/** The router: registration with rollback, the memoized fast index, and the request-side matcher. */
module Router {
  import opened Wrappers
  import opened Percent
  import opened Paths
  import opened Patterns
  import opened Trie
  import opened TrieInsert
  import opened TrieIndex
  import opened TrieClash
  import opened TrieMatcher
  import opened TrieMeaning
  import opened TableRegex
  import opened RegexItems
  import opened TableMatch
  import opened FastLayers
  import opened Middleware
  import opened RouterIndex
  import opened RouterRuns
  import opened RouteMeaning

  // ---------------------------------------------------------------- paths of definitions

  const KNOWN_METHODS := {"HEAD", "OPTIONS", "GET", "PUT", "PATCH", "POST", "DELETE", "TRACE", "CONNECT"}

  function UpperChar(c: char): char {
    if 'a' <= c <= 'z' then c - 'a' + 'A' else c
  }

  function Upper(s: string): (r: string)
    ensures |r| == |s|
  {
    seq(|s|, i requires 0 <= i < |s| => UpperChar(s[i]))
  }

  const SMALL := "abcdefghijklmnopqrstuvwxyz"
  const CAPITAL := "ABCDEFGHIJKLMNOPQRSTUVWXYZ"

  /** Each small letter becomes its capital, and nothing else changes. */
  lemma UpperExactly(s: string, i: nat)
    requires i < |s|
    ensures forall k | 0 <= k < 26 && s[i] == SMALL[k] :: Upper(s)[i] == CAPITAL[k]
    ensures s[i] !in SMALL ==> Upper(s)[i] == s[i]
  {
    if 'a' <= s[i] <= 'z' { assert SMALL[s[i] as int - 'a' as int] == s[i]; }
  }

  function NormalizePrefix(prefix: string): string {
    if prefix == "" || prefix == "/" then ""
    else if EndsWithSlash(prefix) then prefix[..|prefix| - 1] else prefix
  }

  function FullPath(prefix: string, path: string): string {
    var joined := prefix + NormalizePrefix(path);
    NormalizePath(if joined == "" then "/" else joined)
  }

  /** A route is stored at its prefix and path put together, a single final slash of the path dropped; at the prefix alone when the path is the root. */
  lemma StoredAt(prefix: string, path: string)
    requires path == "" || path[|path| - 1] != '/'
    ensures path != "" ==> FullPath(prefix, path) == prefix + path && FullPath(prefix, path + "/") == prefix + path
    ensures FullPath(prefix, "") == FullPath(prefix, "/") == NormalizePath(if prefix == "" then "/" else prefix)
  {
    assert prefix + "" == prefix;
    if path != "" {
      assert (path + "/")[..|path|] == path;
      assert (prefix + path)[|prefix + path| - 1] == path[|path| - 1];
    }
  }

  predicate EndsWithStar(path: string) {
    |path| >= 2 && path[|path| - 2..] == "/*"
  }

  function SplitDecoded(parts: seq<string>): seq<string> {
    if parts == [] then [] else Split(DecodeSegment(parts[0])) + SplitDecoded(parts[1..])
  }

  /** Segments in the keyspace of a native table: an escaped separator is a boundary, a final wildcard is dropped. */
  function CanonicalSegments(path: string): seq<string> {
    var base := if EndsWithStar(path) then path[..|path| - 2] else path;
    var all := SplitDecoded(Split(base));
    var parts := if all == [] then [] else all[1..];
    if parts == [""] then [] else parts
  }

  predicate PathsConflict(a: string, b: string) {
    var x, y := CanonicalSegments(a), CanonicalSegments(b);
    || x == y
    || (EndsWithStar(a) && x < y)
    || (EndsWithStar(b) && y < x)
  }

  /** The text a native table compares: every segment decoded, escaped separators among them. */
  function DecodedText(path: string): string {
    Join(DecodeAll(Split(path)))
  }

  /** A segment list of the native table that belongs to a path, or to the tree of a path that ends in a wildcard. */
  predicate InKeyspace(path: string, segments: seq<string>) {
    if EndsWithStar(path) then PartsOf(DecodedText(path[..|path| - 2])) <= segments
    else PartsOf(DecodedText(path)) == segments
  }

  lemma {:induction false} SplitsDecoded(parts: seq<string>)
    requires parts != []
    ensures SplitDecoded(parts) == Split(Join(DecodeAll(parts)))
  {
    hide Split, DecodeSegment;
    if |parts| == 1 {
      assert DecodeAll(parts) == [DecodeSegment(parts[0])] && parts[1..] == [];
      assert SplitDecoded(parts) == Split(DecodeSegment(parts[0])) + [];
    } else {
      SplitsDecoded(parts[1..]);
      assert DecodeAll(parts) == [DecodeSegment(parts[0])] + DecodeAll(parts[1..]);
      JoinConcat([DecodeSegment(parts[0])], DecodeAll(parts[1..]));
      SplitConcat(DecodeSegment(parts[0]), Join(DecodeAll(parts[1..])));
    }
  }

  lemma CanonicalIsDecoded(path: string)
    ensures CanonicalSegments(path) == PartsOf(DecodedText(if EndsWithStar(path) then path[..|path| - 2] else path))
  {
    hide Split, SplitDecoded;
    SplitsDecoded(Split(if EndsWithStar(path) then path[..|path| - 2] else path));
  }

  /** Two paths conflict in the native table exactly if some list of decoded segments belongs to both. */
  lemma ConflictExactly(a: string, b: string)
    ensures PathsConflict(a, b) <==> exists segments :: InKeyspace(a, segments) && InKeyspace(b, segments)
  {
    hide CanonicalSegments, DecodedText, PartsOf;
    CanonicalIsDecoded(a);
    CanonicalIsDecoded(b);
    var x, y := CanonicalSegments(a), CanonicalSegments(b);
    if PathsConflict(a, b) {
      var longer := if |x| <= |y| then y else x;
      assert InKeyspace(a, longer) && InKeyspace(b, longer);
    }
  }

  predicate Overlapping(re: Regexes, a: string, b: string) {
    PathsConflict(a, b) || PatternsOverlap(re, a, b)
  }

  /** The joined path keeps a final slash when it is stored. */
  predicate KeepsSlash(joined: string) {
    |joined| > 2 && EndsWithTwoSlashes(joined)
  }

  /** Two of the slashes at the end of a registered path are dropped; what a third one does. */
  predicate EndsWithThreeSlashes(path: string) {
    |path| > 3 && EndsWithTwoSlashes(path) && path[|path| - 3] == '/'
  }

  lemma StoredProperly(prefix: string, path: string)
    ensures Proper(FullPath(prefix, path)) <==> !KeepsSlash(prefix + NormalizePrefix(path))
  {
    StoredOnce(prefix + NormalizePrefix(path));
  }

  lemma StoredOnce(joined: string)
    ensures Proper(NormalizePath(if joined == "" then "/" else joined)) <==> !KeepsSlash(joined)
  {
  }

  lemma TrimmedOnce(path: string)
    ensures KeepsSlash("" + NormalizePrefix(path)) <==> EndsWithThreeSlashes(path)
  {
    assert "" + NormalizePrefix(path) == NormalizePrefix(path);
  }

  /**
   A static route is served on exactly the requests its pattern matches, unless prefix and path together end in two
   slashes once a single one was dropped; without a prefix, unless it was registered with three final slashes.
   */
  lemma RegisteredExactly(re: Regexes, d: Def, prefix: string, path: string)
    requires IsStaticDef(re, d) && d.path == FullPath(prefix, path)
    ensures !KeepsSlash(prefix + NormalizePrefix(path))
       <==> forall asked | Rooted(asked) :: Serves(d, asked) <==> Matches(re, Compile(re, d.path).value, QueryOf(asked))
    ensures prefix == "" ==> (KeepsSlash(prefix + NormalizePrefix(path)) <==> EndsWithThreeSlashes(path))
  {
    hide KeepsSlash, FullPath, EndsWithThreeSlashes;
    StoredProperly(prefix, path);
    ServesExactly(re, d);
    TrimmedOnce(path);
  }

  lemma OnePart(name: string)
    requires name != "" && '/' !in name
    ensures Split("/" + name) == ["", name] && Split("/" + name + "/") == ["", name, ""] && Split("/" + name + "/" + "/") == ["", name, "", ""]
  {
    SplitPlain("");
    SplitPlain(name);
    SplitConcat("", name);
    assert "" + "/" + name == "/" + name;
    SplitConcat("/" + name, "");
    assert "/" + name + "/" + "" == "/" + name + "/";
    SplitConcat("/" + name + "/", "");
    assert "/" + name + "/" + "/" + "" == "/" + name + "/" + "/";
  }

  /** A path of one plain part, stored with a final slash. */
  lemma SlashKept(re: Regexes, d: Def)
    requires d.path == "/a/"
    ensures Compile(re, d.path) == Ok([Static("a")])
    ensures DefMatches(re, d, "/a") && !Serves(d, "/a")
    ensures !DefMatches(re, d, "/a//") && Serves(d, "/a//")
  {
    hide Split;
    OnePart("a");
    var parts := ["a"];
    assert "/" + "a" == "/a" && "/" + "a" + "/" == "/a/" && "/" + "a" + "/" + "/" == "/a//";
    DecodePlainAll(parts);
    assert DecodeAll(parts)[0] == DecodeSegment("a") && parts[1..] == [] && [Static("a")] + [] == [Static("a")];
    assert CompilePart(re, "a", true) == Ok(Static("a")) && CompileParts(re, []) == Ok([]);
    assert CompileParts(re, parts) == Ok([Static("a")]);
    StaticDefMatches(re, d, "/a");
    StaticDefMatches(re, d, "/a//");
    assert |DecodeAll(["", "a", ""])| == 3 && |DecodeAll(["", "a"])| == 2 && |DecodeAll(["a", ""])| == 2;
  }

  /** Such a route: `/a///` is stored as `/a/`, misses `/a`, which its pattern matches, and answers `/a//`, which it does not match. */
  lemma ThreeSlashes(env: Env, h: Handler)
    ensures var d := Def("GET", FullPath("", "/a///"), [h], None, []);
            && d.path == "/a/" && Compile(env.re, d.path) == Ok([Static("a")]) && Rebuild(env, [d]).Some?
            && DefMatches(env.re, d, "/a") && RouteAnswer(env.re, Rebuild(env, [d]).value, "/a").None?
            && !DefMatches(env.re, d, "/a//") && RouteAnswer(env.re, Rebuild(env, [d]).value, "/a//").Some?
  {
    hide Compile, DefMatches, Serves, RouteAnswer, Rebuild, Tabled, BindTargets;
    var d := Def("GET", FullPath("", "/a///"), [h], None, []);
    assert "" + "/a//" == "/a//";
    SlashKept(env.re, d);
    RebuildNone(env, []);
    RebuildSnoc(env, [], d);
    assert [] + [d] == [d];
    var p := [Static("a")];
    assert IsStatic(p);
    assert RouterIndex.IndexPattern(EMPTY_INDEX, p, d.path).Some?;
    var ix := Rebuild(env, [d]).value;
    RebuildOk(env, [d]);
    RouteExactly(env, [d], ix, "/a");
    RouteExactly(env, [d], ix, "/a//");
  }

  /** An application layer for `/a`, and the plans it gives. */
  function LayerForA(m: Handler): seq<Layer> {
    [Layer(Some(Scope("/a", ["a"], false)), m)]
  }

  function PlannedFor(re: Regexes, layers: seq<Layer>): string -> seq<Planned> {
    (path: string) => if Compile(re, path).Ok? then PlanOf(layers, Compile(re, path).value, 0) else []
  }

  lemma SegmentsOfA(re: Regexes)
    ensures PathSegments("/a/") == ["a"] && PathSegments("/a//") == ["a", ""]
    ensures CompileScope(re, "/a") == Ok(Scope("/a", ["a"], false))
  {
    hide Split;
    OnePart("a");
    assert "/" + "a" == "/a" && "/" + "a" + "/" == "/a/" && "/" + "a" + "/" + "/" == "/a//";
    DecodePlainAll(["a"]);
    DecodePlainAll(["a", ""]);
    SlashKept(re, Def("GET", "/a/", [], None, []));
    assert Compile(re, "/a") == Compile(re, "/a/");
    assert [Static("a")][1..] == [] && ["a"] + [] == ["a"];
    assert ScopeSegments([Static("a")][1..]) == Some(([], false));
  }

  lemma OfferedForA(m: Handler)
    ensures Middleware.Offered(LayerForA(m), ["a"]) == [m] && Middleware.Offered(LayerForA(m), ["a", ""]) == []
  {
    assert LayerForA(m)[1..] == [] && [m] + [] == [m];
  }

  /** The only definition of a router, stored as `/a/`, is what answers `/a//`. */
  lemma LonelyTarget(env: Env, d: Def, ix: Index)
    requires IndexOk(env, [d], ix) && d.path == "/a/" && d.verb == "GET" && d.handlers != []
    ensures var answer := RouteAnswer(env.re, ix, "/a//");
            && answer.Some? && answer.value.target == StaticRef("/a/")
            && ScopedPath(StaticRef("/a/"), "/a//") == "/a/"
            && "GET" in TargetOf(ix.targets, StaticRef("/a/")).chains
  {
    hide IndexOk, StaticLookup, ScopedPath, Compile, Split;
    LonelyParts(env, d, ix);
    LonelyLookup(env.re, d, ix.statics);
    LonelyScope();
    LonelyLayers(env, d, ix, [Static("a")], StaticRef("/a/"));
  }

  lemma LonelyParts(env: Env, d: Def, ix: Index)
    requires IndexOk(env, [d], ix) && d.path == "/a/"
    ensures StaticsOk(env.re, [d], ix.statics)
    ensures Compile(env.re, d.path) == Ok([Static("a")]) && Owns(env.re, ix.trie, d, StaticRef("/a/"))
  {
    hide Compile, DefMatches, Serves, Split;
    assert StaticsOk(env.re, [d], ix.statics);
    hide IndexOk;
    SlashKept(env.re, d);
    assert IsStatic([Static("a")]);
  }

  lemma LonelyLookup(re: Regexes, d: Def, statics: map<string, Ref>)
    requires StaticsOk(re, [d], statics) && d.path == "/a/"
    ensures StaticLookup(statics, "/a//") == Some(StaticRef("/a/"))
  {
    hide Split, Serves, DefMatches, SameSegments, StaticLookup, CanonicalKey;
    SlashKept(re, d);
    assert IsStatic([Static("a")]) && IsStaticDef(re, d);
    StaticServes(re, [d], statics, "/a//");
    LookupIsCanonical(re, [d], statics, "/a//");
    assert StaticKey(d.path) == "/a/";
  }

  lemma LonelyScope()
    ensures ScopedPath(StaticRef("/a/"), "/a//") == "/a/"
  {
    hide Split;
    OnePart("a");
    assert "/" + "a" + "/" == "/a/" && "/" + "a" + "/" + "/" == "/a//";
    assert |DecodeAll(["", "a", ""])| == 3 && |DecodeAll(["", "a", "", ""])| == 4;
  }

  lemma LonelyLayers(env: Env, d: Def, ix: Index, p: seq<Segment>, ref: Ref)
    requires IndexOk(env, [d], ix) && d.handlers != [] && Compile(env.re, d.path) == Ok(p) && Owns(env.re, ix.trie, d, ref)
    ensures d.verb in TargetOf(ix.targets, ref).chains
  {
    hide Compile;
    assert [d][..0] == [];
    assert Layers(env, ix.trie, [], ref, d.verb) == [];
    assert Layers(env, ix.trie, [d], ref, d.verb) == [] + HandlersOf(env, d, p);
    assert LayersIn(TargetOf(ix.targets, ref), d.verb) != [];
  }

  /** What layers see of it: the route answers `/a//` with a layer for `/a` on its chain, although no layer's scope admits `/a//`. */
  lemma ThreeSlashesRunLayers(re: Regexes, h: Handler, m: Handler)
    ensures var layers := LayerForA(m);
            var env := Env(re, map[], PlannedFor(re, layers));
            var d := Def("GET", FullPath("", "/a///"), [h], None, []);
            && CompileScope(re, "/a") == Ok(layers[0].scope.value)
            && Rebuild(env, [d]).Some?
            && var answer := RouteAnswer(re, Rebuild(env, [d]).value, "/a//");
               answer.Some?
               && var t := TargetOf(Rebuild(env, [d]).value.targets, answer.value.target);
                  "GET" in t.chains
                  && Reached(t.chains["GET"].planned, PathSegments("/a//")) == [m]
                  && Middleware.Offered(layers, PathSegments("/a//")) == []
  {
    var layers := LayerForA(m);
    var env := Env(re, map[], PlannedFor(re, layers));
    var d := Def("GET", FullPath("", "/a///"), [h], None, []);
    ThreeSlashes(env, h);
    SegmentsOfA(re);
    var ix := Rebuild(env, [d]).value;
    RebuildOk(env, [d]);
    hide FullPath, Compile, CompileScope, PathSegments, Rebuild, DefMatches;
    LonelyTarget(env, d, ix);
    MatchedRequestIsOffered(env, [d], ix, layers, "/a//", "GET");
    OfferedForA(m);
  }
  // ---------------------------------------------------------------- the fast index

  const FAST_MATCHER_CAP := 8

  datatype FastIndex = FastIndex(matchers: seq<FastMatcher>, table: Option<Table>)

  function MatchersOf(buckets: seq<Bucket>): (r: seq<FastMatcher>)
    ensures forall f :: f in r <==> exists b :: b in buckets && b.fast == Some(f)
  {
    if buckets == [] then []
    else
      var init := MatchersOf(buckets[..|buckets| - 1]);
      var last := buckets[|buckets| - 1];
      assert buckets == buckets[..|buckets| - 1] + [last];
      if last.fast.Some? then init + [last.fast.value] else init
  }

  function FastIndexOf(ix: Index): FastIndex {
    FastIndex(if |ix.buckets| <= FAST_MATCHER_CAP then MatchersOf(ix.buckets) else [],
              CompileTable(Eligibles(ix.entries), ix.impure))
  }

  // ---------------------------------------------------------------- rebuilding

  lemma {:induction false} RebuildPrefix(env: Env, defs: seq<Def>, i: nat)
    requires i <= |defs| && Rebuild(env, defs).Some?
    ensures Rebuild(env, defs[..i]).Some?
    decreases |defs|
  {
    if i < |defs| {
      RebuildPrefix(env, defs[..|defs| - 1], i);
      assert defs[..|defs| - 1][..i] == defs[..i];
    } else {
      assert defs[..i] == defs;
    }
  }

  lemma RebuildNext(env: Env, defs: seq<Def>, i: nat)
    requires i < |defs| && Rebuild(env, defs).Some?
    ensures defs[..i + 1] == defs[..i] + [defs[i]] && Rebuild(env, defs[..i] + [defs[i]]).Some?
  {
    hide BindDef;
    RebuildPrefix(env, defs, i + 1);
    assert defs[..i + 1] == defs[..i] + [defs[i]];
  }

  lemma BindIndependent(a: Env, b: Env, x: Index, y: Index, d: Def)
    requires a.re == b.re && x.trie == y.trie && BindDef(a, x, d).Some?
    ensures BindDef(b, y, d).Some? && BindDef(b, y, d).value.trie == BindDef(a, x, d).value.trie
  {
    var p, refs := BindShape(a, x, d);
    if BindDef(b, y, d).Some? { var p', refs' := BindShape(b, y, d); }
  }

  /** Whether a list rebuilds does not depend on the middleware in force. */
  lemma {:induction false} RebuildIndependent(a: Env, b: Env, defs: seq<Def>)
    requires a.re == b.re && Rebuild(a, defs).Some?
    ensures Rebuild(b, defs).Some? && Rebuild(b, defs).value.trie == Rebuild(a, defs).value.trie
  {
    if defs != [] {
      var init, last := defs[..|defs| - 1], defs[|defs| - 1];
      RebuildIndependent(a, b, init);
      BindIndependent(a, b, Rebuild(a, init).value, Rebuild(b, init).value, last);
    }
  }

  lemma RebuildNone(env: Env, defs: seq<Def>)
    requires defs == []
    ensures Rebuild(env, defs) == Some(EMPTY_INDEX)
  {
  }

  lemma RebuildSnoc(env: Env, defs: seq<Def>, d: Def)
    ensures Rebuild(env, defs + [d]) == if Rebuild(env, defs).None? then None else BindDef(env, Rebuild(env, defs).value, d)
  {
    assert (defs + [d])[..|defs|] == defs;
  }

  // ---------------------------------------------------------------- which lists rebuild

  /** A path spells a pattern that names no param differently than an earlier definition does after the same edges. */
  ghost predicate Registrable(re: Regexes, defs: seq<Def>, path: string) {
    exists p :: SpellsPattern(re, path, p) && forall d, r | d in defs && SpellsPattern(re, d.path, r) :: !Clash(r, p)
  }

  lemma RegistrableCompiled(re: Regexes, defs: seq<Def>, path: string)
    ensures Registrable(re, defs, path)
       <==> && Compile(re, path).Ok?
            && forall d | d in defs && Compile(re, d.path).Ok? :: !Clash(Compile(re, d.path).value, Compile(re, path).value)
  {
    hide SpellsPattern, Clash, Compile;
    forall x, r ensures Compile(re, x) == Ok(r) <==> SpellsPattern(re, x, r) { CompileExactly(re, x, r); }
    if Registrable(re, defs, path) {
      var p :| SpellsPattern(re, path, p) && forall d, r | d in defs && SpellsPattern(re, d.path, r) :: !Clash(r, p);
    }
    if Compile(re, path).Ok? { assert SpellsPattern(re, path, Compile(re, path).value); }
  }

  /** One definition more rebuilds exactly if it is registrable. */
  lemma RebuildsExactly(env: Env, defs: seq<Def>, d: Def)
    requires Rebuild(env, defs).Some?
    ensures Rebuild(env, defs + [d]).Some? <==> Registrable(env.re, defs, d.path)
  {
    hide Registrable, Clash, Compile, Rebuild, Register, BindDef, PatternsOf;
    RegistrableCompiled(env.re, defs, d.path);
    RebuildSnoc(env, defs, d);
    var ix := Rebuild(env, defs).value;
    if Compile(env.re, d.path).Thrown? {
      ThrownUnbound(env, ix, d);
    } else {
      var p, ps := Compile(env.re, d.path).value, PatternsOf(env.re, defs);
      assert Build(ps) == Some(ix.trie) by { RebuildOk(env, defs); }
      RegistersExactly(ps, ix.trie, p);
      ListedClash(env.re, defs, p);
      BindsExactly(env, ix, d, p);
      if IsStatic(p) {
        forall r ensures !Clash(r, p) { StaticNeverClashes(r, p); }
      }
    }
  }

  lemma ThrownUnbound(env: Env, ix: Index, d: Def)
    requires Compile(env.re, d.path).Thrown?
    ensures BindDef(env, ix, d).None?
  {
  }

  lemma BindsExactly(env: Env, ix: Index, d: Def, p: seq<Segment>)
    requires Compile(env.re, d.path) == Ok(p)
    ensures BindDef(env, ix, d).Some? <==> IsStatic(p) || Register(ix.trie, p).Some?
  {
    hide Register;
  }

  /** The dynamic patterns of a list are the only ones that can clash. */
  lemma ListedClash(re: Regexes, defs: seq<Def>, p: seq<Segment>)
    ensures (forall r | r in PatternsOf(re, defs) :: !Clash(r, p))
       <==> forall d | d in defs && Compile(re, d.path).Ok? :: !Clash(Compile(re, d.path).value, p)
  {
    hide Clash, Compile, PatternsOf;
    forall d | d in defs && Compile(re, d.path).Ok? ensures Compile(re, d.path).value in PatternsOf(re, defs) || !Clash(Compile(re, d.path).value, p) {
      if IsStatic(Compile(re, d.path).value) { StaticNeverClashes(Compile(re, d.path).value, p); } else { PatternListed(re, defs, d); }
    }
    forall r | r in PatternsOf(re, defs) ensures exists d :: d in defs && Compile(re, d.path) == Ok(r) {
      var d := PatternFrom(re, defs, r);
    }
  }

  // ---------------------------------------------------------------- the router

  class Router {
    const re: Regexes
    const prefix: string
    var defs: seq<Def>
    var named: map<string, Def>
    var paramMiddlewares: map<string, Handler>
    var staticMap: map<string, Ref>
    var buckets: seq<Bucket>
    var fastIndex: Option<(nat, FastIndex)>
    var trieRoot: Node
    var hasDynamic: bool
    var regexIndex: seq<Entry>
    var impureFirst: set<string>
    var mutations: nat
    var sunkPaths: set<string>
    var targets: map<Ref, Target>

    ghost function View(): Index
      reads this
    {
      Index(staticMap, trieRoot, hasDynamic, buckets, regexIndex, impureFirst, targets)
    }

    ghost function EnvOf(plan: string -> seq<Planned>): Env
      reads this
    {
      Env(re, paramMiddlewares, plan)
    }

    /** The memo is fresh exactly when its epoch is the current one, and no memo is from the future. */
    ghost predicate MemoOk()
      reads this
    {
      fastIndex.Some? ==>
        fastIndex.value.0 <= mutations && (fastIndex.value.0 == mutations ==> fastIndex.value.1 == FastIndexOf(View()))
    }

    /** The index is what a rebuild from the definition list would give. */
    ghost predicate Valid(plan: string -> seq<Planned>)
      reads this
    {
      Rebuild(EnvOf(plan), defs) == Some(View()) && MemoOk()
    }

    constructor (re: Regexes, prefix: string)
      ensures defs == [] && named == map[] && sunkPaths == {} && paramMiddlewares == map[]
      ensures this.re == re && this.prefix == NormalizePrefix(prefix)
      ensures forall plan :: Valid(plan)
    {
      this.re, this.prefix := re, NormalizePrefix(prefix);
      defs, named, paramMiddlewares, sunkPaths := [], map[], map[], {};
      staticMap, buckets, trieRoot, hasDynamic, regexIndex, impureFirst, targets := map[], [], EMPTY, false, [], {}, map[];
      fastIndex, mutations := None, 0;
    }

    /** Index one compiled pattern; a refusal leaves a partly inserted trie behind. */
    method IndexPattern(p: seq<Segment>, path: string) returns (r: Option<seq<Ref>>)
      modifies this`staticMap, this`targets, this`trieRoot, this`hasDynamic, this`buckets
      ensures r.None? <==> RouterIndex.IndexPattern(old(View()), p, path).None?
      ensures r.Some? ==> RouterIndex.IndexPattern(old(View()), p, path) == Some(Indexing(View(), r.value))
      ensures r.None? ==> View() == old(View()).(trie := Insert(old(trieRoot), p, []).node)
    {
      if IsStatic(p) {
        var key := if '%' in path then CanonicalKey(path) else path;
        var ref := StaticRef(key);
        staticMap := staticMap[key := ref];
        targets := Touch(targets, ref);
        return Some([ref]);
      }
      r := IndexDynamic(p);
      assert r.Some? ==> RouterIndex.IndexPattern(old(View()), p, path) == Some(Indexing(View(), r.value));
    }

    /** The dynamic half: the trie, its targets, and the bucket of a static head. */
    method IndexDynamic(p: seq<Segment>) returns (r: Option<seq<Ref>>)
      requires !IsStatic(p)
      modifies this`targets, this`trieRoot, this`hasDynamic, this`buckets
      ensures r.None? <==> Register(old(trieRoot), p).None?
      ensures r.None? ==> View() == old(View()).(trie := Insert(old(trieRoot), p, []).node)
      ensures r.Some? ==> r.value == RefsOf(Insert(old(trieRoot), p, []).terminals) && r.value != []
      ensures r.Some? ==>
        View() == old(View()).(trie := Register(old(trieRoot), p).value, hasDynamic := true, targets := TouchAll(old(targets), r.value),
                               buckets := if p[0].Static? then CountIn(old(buckets), p, r.value[0]) else old(buckets))
    {
      hide Insert, BindAll, CountIn, TouchAll, RefsOf;
      var inserted := Insert(trieRoot, p, []);
      if !inserted.ok {
        trieRoot := inserted.node;
        return None;
      }
      TerminalsExist(trieRoot, p);
      SomeTerminal(trieRoot, p, []);
      var refs := RefsOf(inserted.terminals);
      assert TrieRef(inserted.terminals[0]) in refs;
      trieRoot := BindAll(inserted.node, inserted.terminals);
      targets := TouchAll(targets, refs);
      hasDynamic := true;
      if p[0].Static? { buckets := CountIn(buckets, p, refs[0]); }
      return Some(refs);
    }

    /** The table's bookkeeping for a pattern just indexed. */
    method Remember(p: seq<Segment>, path: string, ref: Ref)
      modifies this`regexIndex, this`impureFirst, this`mutations
      ensures View() == Tabled(old(View()), p, path, ref) && mutations == old(mutations) + 1
    {
      mutations := mutations + 1;
      if IsRegexEligible(p) && FastComparable(p) {
        regexIndex := SetEntry(regexIndex, path, Eligible(p, ref));
      } else if !IsStatic(p) && p[0].Static? {
        impureFirst := impureFirst + {p[0].value};
      }
    }

    /** A target with one more batch of layers for a method, its chain recomposed over all of them. */
    method Recomposed(target: Target, d: Def, handlers: seq<Handler>, plan: string -> seq<Planned>) returns (t: Target)
      ensures t == BindTarget(target, EnvOf(plan), d, handlers)
    {
      var layers := LayersIn(target, d.verb) + handlers;
      var allowed := target.allowed + {d.verb};
      if d.verb == ALL { allowed := allowed + {"*"}; }
      if d.verb == "GET" { allowed := allowed + {"HEAD"}; }
      t := Target(
        target.layers[d.verb := layers],
        target.chains[d.verb := Chain(plan(d.path), layers)],
        allowed,
        if d.name.Some? then d.name else target.name,
        d.path);
    }

    /** Every terminal target of the pattern receives the layers. */
    method BindLayers(refs: seq<Ref>, d: Def, handlers: seq<Handler>, plan: string -> seq<Planned>)
      modifies this`targets
      ensures targets == BindTargets(old(targets), refs, EnvOf(plan), d, handlers)
    {
      ghost var base := targets;
      for i := 0 to |refs|
        invariant targets == BindTargets(base, refs[..i], EnvOf(plan), d, handlers)
      {
        var ref := refs[i];
        assert refs[..i + 1][..i] == refs[..i];
        var bound := Recomposed(TargetOf(targets, ref), d, handlers, plan);
        targets := targets[ref := bound];
      }
      assert refs[..|refs|] == refs;
    }

    /** Index and bind one definition. */
    method BindDef(d: Def, plan: string -> seq<Planned>) returns (ok: bool)
      modifies this`staticMap, this`targets, this`trieRoot, this`hasDynamic, this`buckets, this`regexIndex, this`impureFirst, this`mutations
      ensures ok <==> RouterIndex.BindDef(EnvOf(plan), old(View()), d).Some?
      ensures ok ==> RouterIndex.BindDef(EnvOf(plan), old(View()), d) == Some(View()) && mutations == old(mutations) + 1
      ensures mutations >= old(mutations)
    {
      var compiled := Compile(re, d.path);
      if compiled.Thrown? { return false; }
      var refs := IndexPattern(compiled.value, d.path);
      if refs.None? { return false; }
      Remember(compiled.value, d.path, refs.value[0]);
      var handlers := d.prefixMiddleware + ParamChain(paramMiddlewares, ParamNamesOf(compiled.value)) + d.handlers;
      BindLayers(refs.value, d, handlers, plan);
      return true;
    }

    /** One more definition on an index that is the rebuild of a list. */
    method BindNext(ghost before: seq<Def>, d: Def, plan: string -> seq<Planned>) returns (ok: bool)
      requires Rebuild(EnvOf(plan), before) == Some(View())
      modifies this`staticMap, this`targets, this`trieRoot, this`hasDynamic, this`buckets, this`regexIndex, this`impureFirst, this`mutations
      ensures ok <==> Rebuild(EnvOf(plan), before + [d]).Some?
      ensures ok ==> Rebuild(EnvOf(plan), before + [d]) == Some(View()) && mutations == old(mutations) + 1
      ensures mutations >= old(mutations)
    {
      RebuildSnoc(EnvOf(plan), before, d);
      ok := BindDef(d, plan);
    }

    method ResetIndex()
      modifies this`staticMap, this`targets, this`trieRoot, this`hasDynamic, this`buckets, this`regexIndex, this`impureFirst, this`mutations, this`fastIndex
      ensures View() == EMPTY_INDEX && fastIndex == None && mutations == old(mutations) + 1
    {
      staticMap, buckets, fastIndex, trieRoot, hasDynamic, regexIndex, impureFirst := map[], [], None, EMPTY, false, [], {};
      targets := map[];
      mutations := mutations + 1;
    }

    /** The index of the first `i` definitions. */
    ghost predicate BuiltTo(plan: string -> seq<Planned>, i: nat)
      reads this
    {
      i <= |defs| && Rebuild(EnvOf(plan), defs[..i]) == Some(View())
    }

    method BindAt(i: nat, plan: string -> seq<Planned>)
      requires i < |defs| && BuiltTo(plan, i) && Rebuild(EnvOf(plan), defs).Some?
      modifies this`staticMap, this`targets, this`trieRoot, this`hasDynamic, this`buckets, this`regexIndex, this`impureFirst, this`mutations
      ensures BuiltTo(plan, i + 1) && mutations == old(mutations) + 1
    {
      hide RouterIndex.BindDef, RouterIndex.Rebuild;
      RebuildNext(EnvOf(plan), defs, i);
      var ok := BindNext(defs[..i], defs[i], plan);
    }

    /** A rebuild from the definition list, under whatever middleware is in force now. */
    method RebuildChains(plan: string -> seq<Planned>)
      requires Rebuild(EnvOf(plan), defs).Some?
      modifies this`staticMap, this`targets, this`trieRoot, this`hasDynamic, this`buckets, this`regexIndex, this`impureFirst, this`mutations, this`fastIndex
      ensures Valid(plan) && mutations == old(mutations) + 1 + |defs|
    {
      hide RouterIndex.BindDef, RouterIndex.Rebuild;
      ResetIndex();
      RebuildNone(EnvOf(plan), defs[..0]);
      for i := 0 to |defs|
        invariant BuiltTo(plan, i)
        invariant fastIndex == None && mutations == old(mutations) + 1 + i
      {
        BindAt(i, plan);
      }
      assert defs[..|defs|] == defs;
    }

    /** `app.param`: one more param middleware, then a rebuild. */
    method Param(name: string, handler: Handler, plan: string -> seq<Planned>)
      requires Valid(plan)
      modifies this
      ensures Valid(plan) && defs == old(defs) && named == old(named) && sunkPaths == old(sunkPaths)
      ensures paramMiddlewares == old(paramMiddlewares)[name := handler]
    {
      hide RouterIndex.BindDef, RouterIndex.Rebuild;
      ghost var before := EnvOf(plan);
      paramMiddlewares := paramMiddlewares[name := handler];
      RebuildIndependent(before, EnvOf(plan), defs);
      RebuildChains(plan);
    }

    /** `app.use` on a router that already has definitions: the new plan takes over. */
    method Replan(ghost plan: string -> seq<Planned>, next: string -> seq<Planned>)
      requires Valid(plan)
      modifies this
      ensures Valid(next) && defs == old(defs) && named == old(named) && sunkPaths == old(sunkPaths) && paramMiddlewares == old(paramMiddlewares)
    {
      hide RouterIndex.BindDef, RouterIndex.Rebuild;
      RebuildIndependent(EnvOf(plan), EnvOf(next), defs);
      RebuildChains(next);
    }

    /** What registration accepts before anything is written. */
    ghost predicate Admissible(verb: string, path: string, handlers: seq<Handler>)
      reads this
    {
      && (Upper(verb) in KNOWN_METHODS || Upper(verb) == ALL)
      && handlers != []
      && forall sunk | sunk in sunkPaths :: !Overlapping(re, FullPath(prefix, path), sunk)
    }

    method SunkOverlap(path: string) returns (found: bool)
      ensures found <==> exists sunk :: sunk in sunkPaths && Overlapping(re, path, sunk)
    {
      var rest := sunkPaths;
      while rest != {}
        invariant rest <= sunkPaths
        invariant forall sunk | sunk in sunkPaths - rest :: !Overlapping(re, path, sunk)
        decreases |rest|
      {
        var sunk :| sunk in rest;
        if PathsConflict(path, sunk) || PatternsOverlap(re, path, sunk) { return true; }
        rest := rest - {sunk};
      }
      return false;
    }

    /** Undo a registration that threw: the definition and its name go, and the partly grown index is rebuilt. */
    method Rollback(ghost before: seq<Def>, d: Def, previousNamed: Option<Def>, plan: string -> seq<Planned>)
      requires defs == before + [d] && Rebuild(EnvOf(plan), before).Some?
      modifies this
      ensures Valid(plan) && defs == before && mutations >= old(mutations)
      ensures named == (if d.name.None? then old(named)
                        else if previousNamed.None? then old(named) - {d.name.value}
                        else old(named)[d.name.value := previousNamed.value])
      ensures paramMiddlewares == old(paramMiddlewares) && sunkPaths == old(sunkPaths)
    {
      hide RouterIndex.BindDef, RouterIndex.Rebuild;
      defs := defs[..|defs| - 1];
      assert defs == before;
      if d.name.Some? {
        named := if previousNamed.None? then named - {d.name.value} else named[d.name.value := previousNamed.value];
      }
      RebuildChains(plan);
    }

    /** The transactional part of registration. */
    method Commit(d: Def, plan: string -> seq<Planned>) returns (ok: bool)
      requires Valid(plan)
      modifies this
      ensures Valid(plan) && mutations >= old(mutations)
      ensures paramMiddlewares == old(paramMiddlewares) && sunkPaths == old(sunkPaths)
      ensures ok <==> old(Rebuild(EnvOf(plan), defs + [d]).Some?)
      ensures ok ==> defs == old(defs) + [d] && named == (if d.name.Some? then old(named)[d.name.value := d] else old(named))
      ensures !ok ==> defs == old(defs) && named == old(named) && View() == old(View())
    {
      hide RouterIndex.BindDef, RouterIndex.Rebuild;
      var previousNamed := if d.name.Some? && d.name.value in named then Some(named[d.name.value]) else None;
      ghost var before, namesBefore := defs, named;
      defs := defs + [d];
      if d.name.Some? { named := named[d.name.value := d]; }
      ok := BindNext(before, d, plan);
      if !ok {
        Rollback(before, d, previousNamed, plan);
        assert named == namesBefore;
      }
    }

    /** Registration: the definition and its index entries all appear, or nothing does but the epoch. */
    method RegisterDef(verb: string, path: string, handlers: seq<Handler>, name: Option<string>,
                       plan: string -> seq<Planned>, prefixMiddleware: seq<Handler>) returns (r: Result<Def>)
      requires Valid(plan)
      modifies this
      ensures Valid(plan)
      ensures paramMiddlewares == old(paramMiddlewares) && sunkPaths == old(sunkPaths)
      ensures mutations >= old(mutations)
      ensures r.Ok? <==>
        old(Admissible(verb, path, handlers)
            && Rebuild(EnvOf(plan), defs + [Def(Upper(verb), FullPath(prefix, path), handlers, name, prefixMiddleware)]).Some?)
      ensures r.Ok? <==> old(Admissible(verb, path, handlers) && Registrable(re, defs, FullPath(prefix, path)))
      ensures r.Ok? ==>
        && r.value == Def(Upper(verb), FullPath(prefix, path), handlers, name, prefixMiddleware)
        && defs == old(defs) + [r.value]
        && named == (if name.Some? then old(named)[name.value := r.value] else old(named))
      ensures r.Thrown? ==> defs == old(defs) && named == old(named) && View() == old(View())
    {
      hide RouterIndex.BindDef, RouterIndex.Rebuild, Registrable;
      RebuildsExactly(EnvOf(plan), defs, Def(Upper(verb), FullPath(prefix, path), handlers, name, prefixMiddleware));
      var upper := Upper(verb);
      if upper !in KNOWN_METHODS && upper != ALL { return Thrown("Unknown HTTP method"); }
      if handlers == [] { return Thrown("Route registration requires at least one handler"); }
      var d := Def(upper, FullPath(prefix, path), handlers, name, prefixMiddleware);
      var overlap := SunkOverlap(d.path);
      if overlap { return Thrown("route overlaps a natively-sunk path"); }
      var ok := Commit(d, plan);
      return if ok then Ok(d) else Thrown("registration failed");
    }

    /** The matchers of the buckets that have one, in bucket order. */
    method CollectMatchers() returns (matchers: seq<FastMatcher>)
      ensures matchers == MatchersOf(buckets)
    {
      matchers := [];
      for i := 0 to |buckets|
        invariant matchers == MatchersOf(buckets[..i])
      {
        assert buckets[..i + 1][..i] == buckets[..i];
        if buckets[i].fast.Some? { matchers := matchers + [buckets[i].fast.value]; }
      }
      assert buckets[..|buckets|] == buckets;
    }

    /** The fast index of the current epoch, rebuilt on the first touch after a mutation. */
    method FastIndexNow(ghost plan: string -> seq<Planned>) returns (fast: FastIndex)
      requires Valid(plan)
      modifies this`fastIndex
      ensures Valid(plan) && fast == FastIndexOf(View())
    {
      hide RouterIndex.BindDef, RouterIndex.Rebuild;
      if fastIndex.Some? && fastIndex.value.0 == mutations { return fastIndex.value.1; }
      var matchers: seq<FastMatcher> := [];
      if |buckets| <= FAST_MATCHER_CAP { matchers := CollectMatchers(); }
      RebuildOk(EnvOf(plan), defs);
      EntriesWellFormed(EnvOf(plan), defs, View());
      var table := CompileTableRegex(Eligibles(regexIndex), impureFirst);
      fast := FastIndex(matchers, table);
      fastIndex := Some((mutations, fast));
    }

    /** Answer a request: the static map, then the slice matchers, then the table, then the trie. */
    method MatchRoute(path: string, ghost plan: string -> seq<Planned>) returns (m: Option<RouteMatch>)
      requires Valid(plan)
      modifies this`fastIndex
      ensures Valid(plan)
      ensures m.Some? ==> m.value.offset + |m.value.names| <= |m.value.values|
      ensures OneLine(path) ==> SeenAnswer(m) == Expected(RouteAnswer(re, View(), path))
    {
      hide RouterIndex.BindDef, RouterIndex.Rebuild;
      if path in staticMap { m := Some(StaticMatch(staticMap[path])); return; }
      m := MatchDynamic(path, plan);
    }

    method MatchDynamic(path: string, ghost plan: string -> seq<Planned>) returns (m: Option<RouteMatch>)
      requires Valid(plan) && path !in staticMap
      modifies this`fastIndex
      ensures Valid(plan)
      ensures m.Some? ==> m.value.offset + |m.value.names| <= |m.value.values|
      ensures OneLine(path) ==> SeenAnswer(m) == Expected(RouteAnswer(re, View(), path))
    {
      hide RouterIndex.BindDef, RouterIndex.Rebuild;
      var stripped := if |path| > 1 && path[|path| - 1] == '/' then path[..|path| - 1] else path;
      var target: Option<Ref> := None;
      if stripped != path && stripped in staticMap { target := Some(staticMap[stripped]); }
      var escaped := target.None? && '%' in path;
      if escaped {
        var decoded := CanonicalKey(path);
        if decoded in staticMap { target := Some(staticMap[decoded]); }
        else if stripped != path && CanonicalKey(stripped) in staticMap { target := Some(staticMap[CanonicalKey(stripped)]); }
      }
      if target.Some? { return Some(StaticMatch(target.value)); }
      assert StaticLookup(staticMap, path) == None;
      if !hasDynamic {
        RebuildOk(EnvOf(plan), defs);
        NothingDynamic(re, PatternsOf(re, defs), trieRoot, path);
        return None;
      }
      if !escaped {
        var fast := FastIndexNow(plan);
        m := MatchFast(fast, path, plan);
        if m.Some? { return; }
      }
      m := MatchTrie(path, plan);
    }

    method MatchTrie(path: string, ghost plan: string -> seq<Planned>) returns (m: Option<RouteMatch>)
      requires Valid(plan)
      ensures m.Some? ==> m.value.offset + |m.value.names| <= |m.value.values|
      ensures SeenAnswer(m) == Expected(TrieAnswer(re, trieRoot, path))
    {
      hide RouterIndex.BindDef, RouterIndex.Rebuild;
      var found := MatchPattern(re, trieRoot, path);
      if found.None? { return None; }
      assert |found.value.names| == |found.value.values| by {
        RebuildOk(EnvOf(plan), defs);
        BuildOk(PatternsOf(re, defs));
        MatchReadsLatest(re, trieRoot, PatternsOf(re, defs), path);
      }
      m := Some(RouteMatch(found.value.target, found.value.names, Somes(found.value.values), 0));
      assert Somes(found.value.values)[0..|found.value.values|] == Somes(found.value.values);
    }

    /** The two fast layers: what they answer, the trie would have answered. */
    method MatchFast(fast: FastIndex, path: string, ghost plan: string -> seq<Planned>) returns (m: Option<RouteMatch>)
      requires Valid(plan) && fast == FastIndexOf(View()) && '%' !in path
      ensures m.Some? ==> m.value.offset + |m.value.names| <= |m.value.values|
      ensures m.Some? && OneLine(path) ==> SeenAnswer(m) == Expected(TrieAnswer(re, trieRoot, path))
    {
      hide RouterIndex.BindDef, RouterIndex.Rebuild;
      RebuildOk(EnvOf(plan), defs);
      for i := 0 to |fast.matchers| {
        var matcher := fast.matchers[i];
        assert matcher in fast.matchers;
        MatcherHasNames(EnvOf(plan), defs, View(), matcher);
        m := FastMatch(matcher, path);
        if m.Some? {
          MatcherAgrees(EnvOf(plan), defs, View(), matcher, path);
          return;
        }
      }
      m := None;
      if fast.table.Some? {
        ghost var sorted := SortedTable(Eligibles(regexIndex), impureFirst);
        SortedMembers(trieRoot, PatternsOf(re, defs), Eligibles(regexIndex), impureFirst);
        m := MatchTableRegex(sorted, fast.table.value, path);
        if m.Some? && OneLine(path) {
          TableAgrees(re, trieRoot, PatternsOf(re, defs), Eligibles(regexIndex), impureFirst, path);
        }
      }
    }
  }

  // ---------------------------------------------------------------- reading the matcher's results

  predicate OneLine(path: string) {
    forall c | c in path :: !IsLineTerminator(c)
  }

  function StaticMatch(ref: Ref): (m: RouteMatch)
    ensures m.offset + |m.names| <= |m.values|
  {
    RouteMatch(ref, [], [], 0)
  }

  function SeenAnswer(m: Option<RouteMatch>): Option<(Ref, seq<string>, seq<Option<string>>)>
    requires m.Some? ==> m.value.offset + |m.value.names| <= |m.value.values|
  {
    match m case None => None case Some(product) => Some(Seen(product))
  }

  function Expected(a: Option<Answer>): Option<(Ref, seq<string>, seq<Option<string>>)> {
    match a case None => None case Some(answer) => Some((answer.target, answer.names, Somes(answer.values)))
  }

  lemma EntriesWellFormed(env: Env, defs: seq<Def>, ix: Index)
    requires IndexOk(env, defs, ix)
    ensures AllWellFormed(Eligibles(ix.entries))
  {
    forall e | e in Eligibles(ix.entries) ensures WellFormed(e.segments) {
      assert Indexed(ix.trie, PatternsOf(env.re, defs), e);
    }
  }

  lemma NothingDynamic(re: Regexes, ps: seq<seq<Segment>>, n: Node, path: string)
    requires ps == [] && Build(ps) == Some(n)
    ensures TrieAnswer(re, n, path) == None
  {
    BuildOk(ps);
    FindsExactly(re, n, ps, QueryOf(path));
  }

  lemma MatcherSource(env: Env, defs: seq<Def>, ix: Index, fast: FastMatcher) returns (p: seq<Segment>, w: Word)
    requires IndexOk(env, defs, ix) && fast in FastIndexOf(ix).matchers
    ensures FastFor(ix.trie, PatternsOf(env.re, defs), fast, p, w)
  {
    var b :| b in ix.buckets && b.fast == Some(fast);
    assert BucketOk(ix.trie, PatternsOf(env.re, defs), b);
    p, w :| FastFor(ix.trie, PatternsOf(env.re, defs), fast, p, w);
  }

  lemma MatcherHasNames(env: Env, defs: seq<Def>, ix: Index, fast: FastMatcher)
    requires IndexOk(env, defs, ix) && fast in FastIndexOf(ix).matchers
    ensures fast.names != []
  {
    var p, w := MatcherSource(env, defs, ix, fast);
    NamesNonEmpty(p);
  }

  lemma MatcherAgrees(env: Env, defs: seq<Def>, ix: Index, fast: FastMatcher, path: string)
    requires IndexOk(env, defs, ix) && fast in FastIndexOf(ix).matchers
    requires '%' !in path && FastAnswer(fast, path).Some?
    ensures FastAnswer(fast, path) == TrieAnswer(env.re, ix.trie, path)
  {
    var p, w := MatcherSource(env, defs, ix, fast);
    BuildOk(PatternsOf(env.re, defs));
    FastAgrees(env.re, ix.trie, PatternsOf(env.re, defs), p, w, path);
  }
}
