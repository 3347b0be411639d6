/** Native sinks: registration guards, and why nothing else is ever shadowed by a sunk path. */
module Sink {
  import opened Wrappers
  import opened Percent
  import opened Paths
  import opened Patterns
  import opened TrieIndex
  import opened Middleware
  import opened RouterIndex
  import opened RouterRuns
  import opened RouteMeaning
  import opened Router

  datatype SinkValue = StaticResponse(bodyUsed: bool) | Directory(dir: string) | Function

  // ---------------------------------------------------------------- overlap and disjointness

  predicate PathMatches(re: Regexes, path: string, q: Query) {
    Compile(re, path).Ok? && Matches(re, Compile(re, path).value, q)
  }

  /** No request is matched by both paths. */
  ghost predicate Disjoint(re: Regexes, a: string, b: string) {
    forall q :: !(PathMatches(re, a, q) && PathMatches(re, b, q))
  }

  lemma NoOverlapIsDisjoint(re: Regexes, a: string, b: string)
    requires !PatternsOverlap(re, a, b)
    ensures Disjoint(re, a, b)
  {
    forall q ensures !(PathMatches(re, a, q) && PathMatches(re, b, q)) {
      if PathMatches(re, a, q) && PathMatches(re, b, q) {
        OverlapNeverMisses(re, Compile(re, a).value, Compile(re, b).value, q);
      }
    }
  }

  lemma {:induction false} OverlapReflexive(p: seq<Segment>)
    ensures OverlapSegments(p, p)
  {
    if p != [] { OverlapReflexive(p[1..]); }
  }

  lemma {:induction false} OverlapBare(p: seq<Segment>)
    ensures OverlapSegments(p + [Wildcard], p)
  {
    if p == [] {
      assert (p + [Wildcard])[1..] == [];
    } else {
      OverlapBare(p[1..]);
      assert (p + [Wildcard])[1..] == p[1..] + [Wildcard];
    }
  }

  /** A trailing slash on the request never costs a match. */
  lemma {:induction false} SlashMonotone(re: Regexes, p: seq<Segment>, q: Query)
    requires Matches(re, p, q)
    ensures Matches(re, p, q.(slash := true))
    decreases |p|
  {
    if p != [] {
      if p[0].Static? {
        SlashMonotone(re, p[1..], q.(segs := q.segs[1..]));
      } else if p[0].Param? {
        if p[0].optional && Matches(re, p[1..], q) { SlashMonotone(re, p[1..], q); }
        else { SlashMonotone(re, p[1..], q.(segs := q.segs[1..])); }
      }
    }
  }

  /** A directory pattern covers the requests of its bare prefix, given a trailing slash. */
  lemma {:induction false} BareIsCovered(re: Regexes, p: seq<Segment>, q: Query)
    requires Matches(re, p, q) && WellFormed(p + [Wildcard])
    ensures Matches(re, p + [Wildcard], q.(slash := true))
    decreases |p|
  {
    var w := p + [Wildcard];
    if p == [] {
      assert w[1..] == [];
    } else {
      assert w[1..] == p[1..] + [Wildcard] && w[0] == p[0];
      WellFormedTail(w);
      if p[0].Static? {
        BareIsCovered(re, p[1..], q.(segs := q.segs[1..]));
      } else if p[0].Param? {
        if p[0].optional && Matches(re, p[1..], q) { BareIsCovered(re, p[1..], q); }
        else { BareIsCovered(re, p[1..], q.(segs := q.segs[1..])); }
      }
    }
  }

  lemma BareDisjoint(re: Regexes, wild: string, bare: string, other: string)
    requires Compile(re, wild).Ok? && Compile(re, bare).Ok?
    requires Compile(re, wild).value == Compile(re, bare).value + [Wildcard]
    requires !PatternsOverlap(re, wild, other)
    ensures Disjoint(re, other, bare) && other != bare
  {
    forall q ensures !(PathMatches(re, other, q) && PathMatches(re, bare, q)) {
      if PathMatches(re, other, q) && PathMatches(re, bare, q) {
        SlashMonotone(re, Compile(re, other).value, q);
        BareIsCovered(re, Compile(re, bare).value, q);
        OverlapNeverMisses(re, Compile(re, wild).value, Compile(re, other).value, q.(slash := true));
      }
    }
    OverlapBare(Compile(re, bare).value);
  }

  // ---------------------------------------------------------------- the paths of mirrors

  /** A path that compiles keeps its pattern when the router normalizes it. */
  lemma FullPathCompiles(re: Regexes, path: string)
    requires Compile(re, path).Ok?
    ensures Compile(re, FullPath("", path)) == Compile(re, path)
  {
    assert "" + NormalizePrefix(path) == NormalizePrefix(path);
    if EndsWithSlash(path) && |path| > 1 {
      var bare := path[..|path| - 1];
      if NormalizePath(bare) != bare { UncompiledDoubleSlash(re, bare); }
    }
  }

  lemma {:induction false} CompileStar(re: Regexes, parts: seq<string>)
    requires CompileParts(re, parts + ["*"]).Ok?
    ensures CompileParts(re, parts).Ok?
    ensures CompileParts(re, parts + ["*"]).value == CompileParts(re, parts).value + [Wildcard]
  {
    var all := parts + ["*"];
    if parts == [] {
      assert all[1..] == [];
    } else {
      assert all[1..] == parts[1..] + ["*"];
      CompileStar(re, parts[1..]);
    }
  }

  lemma StarStored(path: string)
    requires EndsWithStar(path)
    ensures FullPath("", path) == path
  {
    assert path[|path| - 1] == '*' && "" + path == path;
  }

  /** The two mirrors of a directory sink: the tree, and its bare prefix. */
  lemma DirectoryMirrors(re: Regexes, path: string)
    requires EndsWithStar(path) && Compile(re, path).Ok?
    ensures var twin := FullPath("", BareOf(path));
            Compile(re, twin).Ok? && Compile(re, path).value == Compile(re, twin).value + [Wildcard]
  {
    var bare := path[..|path| - 2];
    assert path == bare + "/" + "*" && path[|path| - 1] == '*';
    if bare == "" {
      StarParts(path);
      assert "" + NormalizePrefix("/") == "";
      RootParts();
      CompileStar(re, []);
      assert [] + ["*"] == ["*"];
    } else {
      TreeParts(re, path, bare);
      assert "" + bare == bare;
    }
  }

  lemma StarParts(path: string)
    requires path == "" + "/" + "*"
    ensures SplitSegments(path) == ["*"]
  {
    SplitConcat("", "*");
    SplitPlain("*");
    SplitPlain("");
  }

  lemma TreeParts(re: Regexes, path: string, bare: string)
    requires path == bare + "/" + "*" && bare != "" && Compile(re, path).Ok?
    ensures !EndsWithSlash(bare) && CompileParts(re, SplitSegments(bare)).Ok?
    ensures Compile(re, path).value == CompileParts(re, SplitSegments(bare)).value + [Wildcard]
    ensures bare[0] == '/'
  {
    hide CompileParts, Split;
    SplitConcat(bare, "*");
    SplitPlain("*");
    assert bare[0] == path[0] && path[|path| - 1] == '*';
    SplitRooted(bare);
    var parts := Split(bare)[1..];
    assert (Split(bare) + ["*"])[1..] == parts + ["*"];
    if EndsWithSlash(bare) { EmptyBeforeStar(re, bare); }
    LastSplit(bare);
    assert parts[|parts| - 1] == Split(bare)[|Split(bare)| - 1];
    CompileStar(re, parts);
  }

  lemma {:induction false} RebuiltCompiles(env: Env, defs: seq<Def>)
    requires Rebuild(env, defs).Some?
    ensures forall d | d in defs :: Compile(env.re, d.path).Ok?
  {
    if defs != [] {
      RebuiltCompiles(env, defs[..|defs| - 1]);
      assert defs == defs[..|defs| - 1] + [defs[|defs| - 1]];
    }
  }

  lemma MirrorDisjoint(re: Regexes, path: string, other: string)
    requires !Overlapping(re, path, other)
    ensures Disjoint(re, other, FullPath("", path)) && other != FullPath("", path)
  {
    FullPathCompiles(re, path);
    NoOverlapIsDisjoint(re, path, other);
    OverlapReflexive(Compile(re, path).value);
  }

  lemma TwinDisjoint(re: Regexes, path: string, other: string)
    requires EndsWithStar(path) && !Overlapping(re, path, other)
    ensures Disjoint(re, other, FullPath("", BareOf(path))) && other != FullPath("", BareOf(path))
  {
    DirectoryMirrors(re, path);
    BareDisjoint(re, path, FullPath("", BareOf(path)), other);
  }

  /** The prefix a directory's static twin is registered under. */
  function BareOf(path: string): string
    requires EndsWithStar(path)
  {
    if |path| == 2 then "/" else path[..|path| - 2]
  }

  lemma RootParts()
    ensures SplitSegments("/") == []
  {
    SplitConcat("", "");
    assert "" + "/" + "" == "/";
  }

  lemma EmptyBeforeStar(re: Regexes, bare: string)
    requires Rooted(bare) && EndsWithSlash(bare)
    ensures CompileParts(re, Split(bare)[1..] + ["*"]).Thrown?
  {
    LastSplit(bare);
    SplitRooted(bare);
    if CompileParts(re, Split(bare)[1..] + ["*"]).Ok? {
      CompileStar(re, Split(bare)[1..]);
      EmptyPartThrows(re, Split(bare)[1..]);
    }
  }

  lemma {:induction false} OverlapTree(p: seq<Segment>, r: seq<Segment>)
    requires OverlapSegments(p, r)
    ensures OverlapSegments(p + [Wildcard], r)
    decreases |p| + |r|
  {
    var w := p + [Wildcard];
    if p == [] {
      assert w[1..] == [];
    } else {
      assert w[0] == p[0] && w[1..] == p[1..] + [Wildcard];
      if r == [] { OverlapTree(p[1..], r); }
      else if !p[0].Wildcard? && !r[0].Wildcard? {
        if OverlapSegments(p[1..], r[1..]) { OverlapTree(p[1..], r[1..]); }
        if IsOptional(p[0]) && OverlapSegments(p[1..], r) { OverlapTree(p[1..], r); }
        if IsOptional(r[0]) && OverlapSegments(p, r[1..]) { OverlapTree(p, r[1..]); }
      }
    }
  }

  /** In the keyspace of the native table a tree and its twin stand for the same segments. */
  lemma TwinSegments(re: Regexes, path: string)
    requires EndsWithStar(path) && Compile(re, path).Ok?
    ensures var twin := FullPath("", BareOf(path)); CanonicalSegments(twin) == CanonicalSegments(path) && !EndsWithStar(twin)
  {
    hide Split;
    var bare := path[..|path| - 2];
    assert path == bare + "/" + "*" && path[|path| - 1] == '*';
    if bare == "" {
      assert "" + NormalizePrefix("/") == "" && FullPath("", "/") == "/";
      SplitConcat("", "");
      SplitPlain("");
      assert "" + "/" + "" == "/";
      DecodedEmpty("");
      assert SplitDecoded([""]) == [""] + SplitDecoded([""][1..]);
      assert SplitDecoded(["", ""]) == [""] + SplitDecoded(["", ""][1..]) && ["", ""][1..] == [""];
    } else {
      TreeParts(re, path, bare);
      assert "" + bare == bare;
      if EndsWithStar(bare) { StarBeforeStar(re, path, bare); }
    }
  }

  lemma StarBeforeStar(re: Regexes, path: string, bare: string)
    requires path == bare + "/" + "*" && EndsWithStar(bare)
    ensures Compile(re, path).Thrown?
  {
    hide Split, CompileParts;
    var head := bare[..|bare| - 2];
    assert bare == head + "/" + "*" && path[|path| - 1] == '*';
    SplitConcat(bare, "*");
    SplitConcat(head, "*");
    SplitPlain("*");
    var parts := Split(head)[1..];
    assert Split(path) == Split(head) + ["*"] + ["*"] && Split(path)[1..] == parts + ["*"] + ["*"];
    StarInside(re, parts, ["*"]);
  }

  /** Whatever the twin overlaps, the tree overlaps. */
  lemma TwinOverlaps(re: Regexes, path: string, sunk: string)
    requires EndsWithStar(path) && Compile(re, path).Ok? && Overlapping(re, FullPath("", BareOf(path)), sunk)
    ensures Overlapping(re, path, sunk)
  {
    hide CanonicalSegments, FullPath;
    var twin := FullPath("", BareOf(path));
    DirectoryMirrors(re, path);
    TwinSegments(re, path);
    if PatternsOverlap(re, twin, sunk) && Compile(re, sunk).Ok? {
      OverlapTree(Compile(re, twin).value, Compile(re, sunk).value);
    }
  }

  /** Once the tree is registered its twin cannot be refused. */
  lemma TwinRebuilds(env: Env, before: seq<Def>, tree: Def, twin: Def)
    requires Rebuild(env, before + [tree]).Some?
    requires Compile(env.re, tree.path).Ok? && Compile(env.re, twin.path).Ok?
    requires Compile(env.re, tree.path).value == Compile(env.re, twin.path).value + [Wildcard]
    ensures Rebuild(env, before + [tree] + [twin]).Some?
  {
    var defs, p := before + [tree], Compile(env.re, twin.path).value;
    hide Rebuild, Compile;
    var ix := Rebuild(env, defs).value;
    RebuildSnoc(env, defs, twin);
    RebuildOk(env, defs);
    var wild := p + [Wildcard];
    assert wild[|p|] in wild && tree in defs;
    PatternListed(env.re, defs, tree);
    BuildOk(PatternsOf(env.re, defs));
    assert Covered(ix.trie, wild);
    HeldPrefixInserts(ix.trie, p, [Wildcard], []);
  }

  // ---------------------------------------------------------------- the guards

  function FirstConflict(re: Regexes, path: string, defs: seq<Def>): Option<Def> {
    if defs == [] then None
    else if Overlapping(re, path, defs[0].path) then Some(defs[0])
    else FirstConflict(re, path, defs[1..])
  }

  lemma {:induction false} NoConflict(re: Regexes, path: string, defs: seq<Def>)
    ensures FirstConflict(re, path, defs).None? <==> forall d | d in defs :: !Overlapping(re, path, d.path)
  {
    if defs != [] { NoConflict(re, path, defs[1..]); }
  }

  /** Plain params and literals only: what a native table can hold for a function. */
  predicate Sinkable(p: seq<Segment>) {
    forall s | s in p :: PlainOrStatic(s)
  }

  /** Application layers a native table would bypass. */
  predicate Observed(re: Regexes, layers: seq<Layer>, excused: set<Handler>, path: string) {
    exists l :: l in layers && l.handler !in excused && (l.scope.None? || PatternsOverlap(re, l.scope.value.pattern, path))
  }

  // ---------------------------------------------------------------- what the middleware guard means

  /** Scopes as `use` compiles them. */
  ghost predicate ScopesCompiled(re: Regexes, layers: seq<Layer>) {
    forall l | l in layers && l.scope.Some? :: CompileScope(re, l.scope.value.pattern) == Ok(l.scope.value)
  }

  /** A request the native table may answer for a sink: one its mirror matches, or the twin of a tree. */
  predicate MirrorMatches(re: Regexes, path: string, asked: string) {
    || PathMatches(re, FullPath("", path), QueryOf(asked))
    || (EndsWithStar(path) && PathMatches(re, FullPath("", BareOf(path)), QueryOf(asked)))
  }

  /** No layer that is not excused would see a request the sink answers. */
  ghost predicate Unseen(re: Regexes, layers: seq<Layer>, excused: set<Handler>, path: string) {
    forall l, asked | l in layers && l.handler !in excused && Rooted(asked) && MirrorMatches(re, path, asked) :: !InScope(l, PathSegments(asked))
  }

  /** What a mirror matches, the sink's own pattern matches with a trailing slash. */
  lemma MirrorIsCovered(re: Regexes, path: string, asked: string)
    requires Compile(re, path).Ok? && MirrorMatches(re, path, asked)
    ensures Matches(re, Compile(re, path).value, QueryOf(asked).(slash := true))
  {
    hide Compile, FullPath;
    FullPathCompiles(re, path);
    if PathMatches(re, FullPath("", path), QueryOf(asked)) {
      SlashMonotone(re, Compile(re, path).value, QueryOf(asked));
    } else {
      DirectoryMirrors(re, path);
      BareIsCovered(re, Compile(re, FullPath("", BareOf(path))).value, QueryOf(asked));
    }
  }

  /** The guard lets a sink pass only if nothing would see its requests. */
  lemma PassedIsUnseen(re: Regexes, layers: seq<Layer>, excused: set<Handler>, path: string)
    requires ScopesCompiled(re, layers) && !Observed(re, layers, excused, path)
    ensures Unseen(re, layers, excused, path)
  {
    hide Compile, CompileScope, MirrorMatches;
    forall l, asked | l in layers && l.handler !in excused && Rooted(asked) && MirrorMatches(re, path, asked)
      ensures !InScope(l, PathSegments(asked))
    {
      assert l.scope.Some? && !PatternsOverlap(re, l.scope.value.pattern, path);
      if InScope(l, PathSegments(asked)) {
        var pattern := l.scope.value.pattern;
        assert Compile(re, path).Ok?;
        ScopeCompiles(re, pattern);
        ScopeOfPattern(re, pattern, asked);
        MirrorIsCovered(re, path, asked);
        OverlapNeverMisses(re, Compile(re, pattern).value, Compile(re, path).value, QueryOf(asked).(slash := true));
      }
    }
  }

  lemma ScopeCompiles(re: Regexes, pattern: string)
    requires CompileScope(re, pattern).Ok?
    ensures Compile(re, pattern).Ok? && Unconstrained(Compile(re, pattern).value)
  {
    ScopeUnconstrained(Compile(re, pattern).value);
  }

  lemma {:induction false} ScopeUnconstrained(p: seq<Segment>)
    requires ScopeSegments(p).Some?
    ensures Unconstrained(p)
  {
    if p != [] {
      assert p == [p[0]] + p[1..];
      if p[0].Static? { ScopeUnconstrained(p[1..]); }
    }
  }

  /** Without custom expressions it also stops one only if something would. */
  lemma GuardExactly(re: Regexes, layers: seq<Layer>, excused: set<Handler>, path: string)
    requires ScopesCompiled(re, layers) && Compile(re, path).Ok? && Unconstrained(Compile(re, path).value)
    ensures Observed(re, layers, excused, path) <==> !Unseen(re, layers, excused, path)
  {
    if Observed(re, layers, excused, path) {
      var l :| l in layers && l.handler !in excused && (l.scope.None? || PatternsOverlap(re, l.scope.value.pattern, path));
      var asked := SeenRequest(re, l, path);
      assert l in layers && Rooted(asked) && MirrorMatches(re, path, asked) && InScope(l, PathSegments(asked));
    } else {
      PassedIsUnseen(re, layers, excused, path);
    }
  }

  /** A request of the sink that a layer in its way would see. */
  lemma SeenRequest(re: Regexes, l: Layer, path: string) returns (asked: string)
    requires Compile(re, path).Ok? && Unconstrained(Compile(re, path).value)
    requires l.scope.None? || (CompileScope(re, l.scope.value.pattern) == Ok(l.scope.value) && PatternsOverlap(re, l.scope.value.pattern, path))
    ensures Rooted(asked) && MirrorMatches(re, path, asked) && InScope(l, PathSegments(asked))
  {
    hide Compile, CompileScope, FullPath, Unconstrained;
    var p := Compile(re, path).value;
    if l.scope.Some? { ScopeCompiles(re, l.scope.value.pattern); }
    var other := if l.scope.None? then p else Compile(re, l.scope.value.pattern).value;
    OverlapReflexive(p);
    OverlapExact(re, other, p);
    asked :| asked != "" && asked[0] == '/' && Matches(re, other, QueryOf(asked)) && Matches(re, p, QueryOf(asked));
    FullPathCompiles(re, path);
    if l.scope.Some? {
      SlashMonotone(re, other, QueryOf(asked));
      ScopeOfPattern(re, l.scope.value.pattern, asked);
    }
  }

  // ---------------------------------------------------------------- the shape of a sink

  /** The checks on the value and its path, before any overlap is looked at. */
  predicate WellShaped(re: Regexes, path: string, value: SinkValue, hasErrorMapper: bool) {
    match value
    case StaticResponse(bodyUsed) => !bodyUsed && '*' !in path && ':' !in path
    case Directory(dir) => dir != "" && EndsWithStar(path)
    case Function => !hasErrorMapper && '%' !in path && Compile(re, path).Ok? && Sinkable(Compile(re, path).value)
  }

  /** A segment a native table can hold for a function: a literal, or a required param without an expression. */
  predicate Nameable(s: Segment) {
    match s
    case Static(_) => true
    case Param(_, pattern, optional) => pattern.None? && !optional
    case Wildcard => false
  }

  /** Which values go with which paths. */
  lemma ShapesExactly(re: Regexes, path: string, value: SinkValue, hasErrorMapper: bool)
    ensures value.StaticResponse? ==>
      (WellShaped(re, path, value, hasErrorMapper) <==> !value.bodyUsed && forall i | 0 <= i < |path| :: path[i] != '*' && path[i] != ':')
    ensures value.StaticResponse? && WellShaped(re, path, value, hasErrorMapper) ==>
      forall p | SpellsPattern(re, path, p) :: IsStatic(p)
    ensures value.Directory? ==>
      (WellShaped(re, path, value, hasErrorMapper) <==> value.dir != "" && exists bare :: path == bare + "/*")
    ensures value.Function? ==>
      (WellShaped(re, path, value, hasErrorMapper)
       <==> !hasErrorMapper && '%' !in path && exists p :: SpellsPattern(re, path, p) && forall s | s in p :: Nameable(s))
  {
    hide Compile, SpellsPattern;
    forall p ensures Compile(re, path) == Ok(p) <==> SpellsPattern(re, path, p) { CompileExactly(re, path, p); }
    if EndsWithStar(path) { assert path == path[..|path| - 2] + "/*"; }
    if bare: string :| path == bare + "/*" { assert EndsWithStar(path); }
    if value.StaticResponse? && WellShaped(re, path, value, hasErrorMapper) {
      forall p | SpellsPattern(re, path, p) ensures IsStatic(p) { PlainIsStatic(re, path, p); }
    }
    if Compile(re, path).Ok? { assert SpellsPattern(re, path, Compile(re, path).value); }
  }

  /** A path without the marks of params and wildcards spells literals only. */
  lemma PlainIsStatic(re: Regexes, path: string, p: seq<Segment>)
    requires SpellsPattern(re, path, p) && '*' !in path && ':' !in path
    ensures IsStatic(p)
  {
    var parts :| SpelledBy(re, path, p, parts);
    forall s | s in p ensures s.Static? {
      var i :| 0 <= i < |p| && p[i] == s;
      assert Denotes(re, parts[i], p[i], i == |p| - 1);
      JoinHolds(parts, i);
      forall c | c in parts[i] ensures c in path { assert c in Join(parts); }
      LiteralPart(re, parts[i], s, i == |p| - 1);
    }
  }

  lemma LiteralPart(re: Regexes, raw: string, s: Segment, last: bool)
    requires Denotes(re, raw, s, last) && '*' !in raw && ':' !in raw
    ensures s.Static?
  {
    assert raw != "" ==> raw[0] in raw;
    match s
    case Param(name, pattern, optional) => ParamMark(name, pattern, optional);
    case _ =>
  }

  lemma ParamMark(name: string, pattern: Option<string>, optional: bool)
    ensures ':' in ParamText(name, pattern, optional)
  {
    assert ParamText(name, pattern, optional)[0] == ':';
  }

  lemma {:induction false} JoinHolds(parts: seq<string>, i: nat)
    requires i < |parts|
    ensures forall c | c in parts[i] :: c in Join(parts)
  {
    if |parts| > 1 {
      if i > 0 { JoinHolds(parts[1..], i - 1); }
      assert Join(parts) == parts[0] + "/" + Join(parts[1..]);
    }
  }

  /** No request is matched by a sunk definition and by one from another registration. */
  ghost predicate Guarded(re: Regexes, defs: seq<Def>, sunk: set<string>, owner: seq<nat>)
    requires |owner| == |defs|
  {
    forall i, j | 0 <= i < |defs| && 0 <= j < |defs| && defs[i].path in sunk && owner[i] != owner[j]
      :: Disjoint(re, defs[i].path, defs[j].path)
  }

  /** A route that passed the sunk guard is disjoint from every sunk path. */
  lemma AddGuarded(re: Regexes, before: seq<Def>, d: Def, sunk: set<string>, owner: seq<nat>)
    requires |owner| == |before| && Guarded(re, before, sunk, owner)
    requires forall path | path in sunk :: !Overlapping(re, d.path, path)
    ensures Guarded(re, before + [d], sunk, owner + [|owner|])
  {
    OverlapsItself(re, d.path);
    var defs := before + [d];
    forall i, j | 0 <= i < |defs| && 0 <= j < |defs| && defs[i].path in sunk && (owner + [|owner|])[i] != (owner + [|owner|])[j]
      ensures Disjoint(re, defs[i].path, defs[j].path)
    {
      if j == |before| { NoOverlapIsDisjoint(re, d.path, defs[i].path); }
    }
  }

  /** Every sunk path is the path of a definition. */
  ghost predicate Claimed(defs: seq<Def>, sunk: set<string>) {
    forall path | path in sunk :: exists d :: d in defs && d.path == path
  }

  /** The definition a sink is mirrored to. */
  function MirrorDef(path: string, mirror: Handler): Def {
    Def("GET", FullPath("", path), [mirror], None, [])
  }

  lemma OverlapsItself(re: Regexes, path: string)
    ensures Overlapping(re, path, path)
  {
  }

  ghost predicate AllDisjoint(re: Regexes, before: seq<Def>, added: seq<Def>) {
    forall d, e | d in before && e in added :: Disjoint(re, d.path, e.path) && d.path != e.path
  }

  /** Mirrors disjoint from everything before them may be claimed. */
  lemma ClaimGuarded(re: Regexes, before: seq<Def>, added: seq<Def>, sunk: set<string>, claimed: set<string>, owner: seq<nat>, ids: seq<nat>)
    requires |owner| == |before| && |ids| == |added| && Guarded(re, before, sunk, owner)
    requires forall i, j | 0 <= i < |ids| && 0 <= j < |ids| :: ids[i] == ids[j]
    requires AllDisjoint(re, before, added)
    requires forall path | path in claimed :: path in sunk || exists e :: e in added && e.path == path
    ensures Guarded(re, before + added, claimed, owner + ids)
  {
    var defs, all := before + added, owner + ids;
    forall i, j | 0 <= i < |defs| && 0 <= j < |defs| && defs[i].path in claimed && all[i] != all[j]
      ensures Disjoint(re, defs[i].path, defs[j].path)
    {
      assert if i < |before| then defs[i] == before[i] && all[i] == owner[i] else defs[i] == added[i - |before|] && all[i] == ids[i - |before|];
      assert if j < |before| then defs[j] == before[j] && all[j] == owner[j] else defs[j] == added[j - |before|] && all[j] == ids[j - |before|];
    }
  }

  /** A pattern that matches a path with an empty last segment does so by its wildcard, and matches without that segment. */
  lemma {:induction false} DropEmptyLast(re: Regexes, p: seq<Segment>, q: Query)
    requires WellFormed(p) && Matches(re, p, q) && q.segs != [] && q.segs[|q.segs| - 1] == ""
    ensures Matches(re, p, Query(q.segs[..|q.segs| - 1], true))
    decreases |p|
  {
    var init := q.segs[..|q.segs| - 1];
    WellFormedTail(p);
    if p[0].Param? && p[0].optional && Matches(re, p[1..], q) {
      DropEmptyLast(re, p[1..], q);
    } else if !p[0].Wildcard? {
      DecodedEmpty(q.segs[0]);
      DropEmptyLast(re, p[1..], q.(segs := q.segs[1..]));
      assert init[1..] == q.segs[1..][..|q.segs| - 2];
    }
  }

  /** Whatever else matches a request that a static definition answers has some request in common with that definition's pattern. */
  lemma ServedShares(re: Regexes, d: Def, path: string, p: seq<Segment>) returns (q: Query)
    requires IsStaticDef(re, d) && Serves(d, path) && Rooted(path)
    requires WellFormed(p) && Matches(re, p, QueryOf(path))
    ensures Matches(re, p, q) && PathMatches(re, d.path, q)
  {
    hide Matches, Split, StaticValues, DecodeAll, SameSegments, CompileParts;
    q := QueryOf(path);
    ServedMatches(re, d, path);
    if !DefMatches(re, d, path) {
      var bare := NormalizePath(d.path);
      CompiledBare(re, d.path);
      ServedSegments(d.path, bare, path);
      DropEmptyLast(re, p, q);
      q := Query(q.segs[..|q.segs| - 1], true);
      if bare == "/" {
        DropEmptyLast(re, p, q);
        q := Query([], true);
        RootParts();
      }
      CompiledValues(re, SplitSegments(d.path));
      StaticMatches(re, Compile(re, d.path).value, q);
    }
  }

  /** The segments of a request answered with one final slash too many. */
  lemma ServedSegments(path: string, bare: string, asked: string)
    requires Rooted(asked) && Rooted(bare) && Proper(bare) && path == bare + "/"
    requires SameSegments(path, NormalizePath(asked))
    ensures var segs := QueryOf(asked).segs;
            && segs != [] && segs[|segs| - 1] == ""
            && (if bare == "/" then segs == ["", ""] else DecodeAll(segs[..|segs| - 1]) == DecodeAll(PartsOf(bare)))
  {
    hide Split, DecodeAll;
    var x, y := Split(path), Split(NormalizePath(asked));
    SplitConcat(bare, "");
    SplitPlain("");
    assert bare + "/" + "" == path;
    SplitRooted(bare);
    LastMatches(x, y);
    DecodedInner(x, y);
    SplitRooted(NormalizePath(asked));
    assert y[1..][..|y| - 2] == y[1..|y| - 1];
    assert x[1..|x| - 1] == Split(bare)[1..];
    JoinSplit(bare);
    if bare == "/" { RootSegments(bare, x, y); }
  }

  lemma RootSegments(bare: string, x: seq<string>, y: seq<string>)
    requires bare == "/" && x == Split(bare) + [""] && |y| == |x| && y[|y| - 1] == ""
    requires DecodeAll(x[1..|x| - 1]) == DecodeAll(y[1..|y| - 1])
    ensures |y| == 3 && y[1..] == ["", ""]
  {
    hide Split, DecodeAll;
    SplitConcat("", "");
    SplitPlain("");
    assert "" + "/" + "" == bare;
    assert x[1..2] == [""];
    DecodedLoneEmpty(x[1..2]);
    DecodedLoneEmpty(y[1..2]);
  }

  lemma DecodedInner(a: seq<string>, b: seq<string>)
    requires |a| >= 2 && DecodeAll(a) == DecodeAll(b)
    ensures |a| == |b| && DecodeAll(a[1..|a| - 1]) == DecodeAll(b[1..|b| - 1])
  {
    assert |DecodeAll(a)| == |a| && |DecodeAll(b)| == |b|;
    forall i | 1 <= i < |a| - 1 ensures DecodeSegment(a[i]) == DecodeSegment(b[i]) {
      assert DecodeAll(a)[i] == DecodeAll(b)[i];
    }
  }

  /** A request a sunk definition matches runs no layer of any other registration: nothing is shadowed by the native table. */
  lemma SunkAnswersAlone(env: Env, defs: seq<Def>, ix: Index, sunk: set<string>, owner: seq<nat>, i: nat, path: string, verb: string, h: Handler)
    returns (j: nat)
    requires IndexOk(env, defs, ix) && Rooted(path)
    requires |owner| == |defs| && Guarded(env.re, defs, sunk, owner)
    requires i < |defs| && defs[i].path in sunk && DefMatches(env.re, defs[i], path)
    requires RouteAnswer(env.re, ix, path).Some?
    requires h in LayersIn(TargetOf(ix.targets, RouteAnswer(env.re, ix, path).value.target), verb)
    ensures j < |defs| && owner[j] == owner[i] && defs[j].verb == verb
    ensures Compile(env.re, defs[j].path).Ok? && h in HandlersOf(env, defs[j], Compile(env.re, defs[j].path).value)
  {
    var d := LayersServeOnlyMatches(env, defs, ix, path, verb, h);
    j :| 0 <= j < |defs| && defs[j] == d;
    if IsStaticDef(env.re, d) {
      var q := ServedShares(env.re, d, path, Compile(env.re, defs[i].path).value);
      assert PathMatches(env.re, defs[i].path, q) && PathMatches(env.re, d.path, q);
    } else {
      assert PathMatches(env.re, defs[i].path, QueryOf(path)) && PathMatches(env.re, d.path, QueryOf(path));
    }
  }

  // ---------------------------------------------------------------- the application's table

  class SinkTable {
    const router: Router
    var sinks: map<string, SinkValue>
    /** Which registration each definition came from: the two mirrors of a directory share one. */
    ghost var owner: seq<nat>

    ghost predicate Valid(plan: string -> seq<Planned>)
      reads this, router
    {
      && router.Valid(plan) && router.prefix == ""
      && |owner| == |router.defs|
      && (forall i | 0 <= i < |owner| :: owner[i] < |owner|)
      && Guarded(router.re, router.defs, router.sunkPaths, owner)
      && Claimed(router.defs, router.sunkPaths)
    }

    constructor (re: Regexes)
      ensures router.re == re && forall plan :: Valid(plan)
      ensures fresh(router) && router.defs == []
    {
      router := new Router(re, "");
      sinks, owner := map[], [];
    }

    /** An ordinary route. */
    method Route(verb: string, path: string, handlers: seq<Handler>, name: Option<string>,
                 plan: string -> seq<Planned>, prefixMiddleware: seq<Handler>) returns (r: Result<Def>)
      requires Valid(plan)
      modifies this`owner, router
      ensures Valid(plan) && router.sunkPaths == old(router.sunkPaths)
      ensures r.Thrown? ==> router.defs == old(router.defs) && owner == old(owner)
      ensures r.Ok? ==> router.defs == old(router.defs) + [r.value]
    {
      hide Rebuild, BindDef, Overlapping, FullPath;
      ghost var before, sunk := router.defs, router.sunkPaths;
      r := router.RegisterDef(verb, path, handlers, name, plan, prefixMiddleware);
      if r.Ok? {
        AddGuarded(router.re, before, r.value, sunk, owner);
        owner := owner + [|owner|];
      }
    }

    method Conflicts(path: string) returns (found: bool)
      ensures found <==> FirstConflict(router.re, path, router.defs).Some?
    {
      for i := 0 to |router.defs|
        invariant FirstConflict(router.re, path, router.defs[i..]) == FirstConflict(router.re, path, router.defs)
      {
        assert router.defs[i..][1..] == router.defs[i + 1..];
        var d := router.defs[i];
        if PathsConflict(path, d.path) || PatternsOverlap(router.re, path, d.path) { return true; }
      }
      return false;
    }

    /** What a sink registration accepts before anything is written. */
    ghost predicate Sinks(path: string, value: SinkValue, layers: seq<Layer>, excused: set<Handler>, hasErrorMapper: bool)
      reads this, router
    {
      && Rooted(path) && path !in sinks
      && !Observed(router.re, layers, excused, path)
      && router.paramMiddlewares == map[]
      && WellShaped(router.re, path, value, hasErrorMapper)
      && forall d | d in router.defs :: !Overlapping(router.re, path, d.path)
    }

    /** What the router accepts of a mirror. */
    ghost predicate Mirrors(path: string, mirror: Handler)
      reads this, router
    {
      && router.Admissible("GET", path, [mirror])
      && Registrable(router.re, router.defs, FullPath("", path))
    }

    method Mirror(path: string, mirror: Handler, plan: string -> seq<Planned>) returns (ok: bool)
      requires router.Valid(plan) && router.prefix == ""
      modifies router
      ensures router.Valid(plan) && router.sunkPaths == old(router.sunkPaths) && router.paramMiddlewares == old(router.paramMiddlewares)
      ensures ok <==> old(Mirrors(path, mirror))
      ensures router.defs == if ok then old(router.defs) + [MirrorDef(path, mirror)] else old(router.defs)
    {
      hide Rebuild, BindDef, Overlapping, FullPath;
      assert Upper("GET") == "GET";
      var r := router.RegisterDef("GET", path, [mirror], None, plan, []);
      ok := r.Ok?;
    }

    /** One mirror, then its claim. */
    method MirrorOne(path: string, mirror: Handler, plan: string -> seq<Planned>) returns (ok: bool)
      requires Valid(plan) && forall d | d in router.defs :: !Overlapping(router.re, path, d.path)
      modifies this`owner, router
      ensures Valid(plan) && (ok <==> old(Mirrors(path, mirror)))
      ensures router.defs == if ok then old(router.defs) + [MirrorDef(path, mirror)] else old(router.defs)
      ensures router.sunkPaths == if ok then old(router.sunkPaths) + {FullPath("", path)} else old(router.sunkPaths)
    {
      hide Rebuild, BindDef, Overlapping, FullPath;
      ghost var before, sunk := router.defs, router.sunkPaths;
      forall d | d in before ensures Disjoint(router.re, d.path, FullPath("", path)) && d.path != FullPath("", path) {
        MirrorDisjoint(router.re, path, d.path);
      }
      ok := Mirror(path, mirror, plan);
      if !ok { return; }
      ghost var d := MirrorDef(path, mirror);
      ClaimGuarded(router.re, before, [d], sunk, sunk + {d.path}, owner, [|owner|]);
      assert d in router.defs;
      owner := owner + [|owner|];
      router.sunkPaths := router.sunkPaths + {FullPath("", path)};
    }

    /** The twin of a tree that was just mirrored is accepted. */
    lemma TwinIsAccepted(before: seq<Def>, path: string, mirror: Handler, plan: string -> seq<Planned>)
      requires EndsWithStar(path) && router.prefix == ""
      requires forall d | d in before :: !Overlapping(router.re, path, d.path)
      requires Claimed(before, router.sunkPaths) && router.defs == before + [MirrorDef(path, mirror)]
      requires Rebuild(router.EnvOf(plan), router.defs).Some?
      ensures Mirrors(BareOf(path), mirror)
    {
      hide Overlapping, FullPath, Compile, Rebuild, Registrable;
      var tree, twin := MirrorDef(path, mirror), MirrorDef(BareOf(path), mirror);
      RebuiltCompiles(router.EnvOf(plan), router.defs);
      assert tree in router.defs;
      StarStored(path);
      DirectoryMirrors(router.re, path);
      TwinRebuilds(router.EnvOf(plan), before, tree, twin);
      RebuildsExactly(router.EnvOf(plan), router.defs, twin);
      assert Upper("GET") == "GET";
      forall sunk | sunk in router.sunkPaths ensures !Overlapping(router.re, FullPath("", BareOf(path)), sunk) {
        if Overlapping(router.re, FullPath("", BareOf(path)), sunk) { TwinOverlaps(router.re, path, sunk); }
      }
    }

    /** The tree and its static twin, then both claims. */
    method MirrorDirectory(path: string, mirror: Handler, plan: string -> seq<Planned>) returns (ok: bool)
      requires Valid(plan) && EndsWithStar(path) && forall d | d in router.defs :: !Overlapping(router.re, path, d.path)
      modifies this`owner, router
      ensures Valid(plan) && (ok <==> old(Mirrors(path, mirror)))
      ensures router.defs == if ok then old(router.defs) + [MirrorDef(path, mirror), MirrorDef(BareOf(path), mirror)] else old(router.defs)
      ensures router.sunkPaths == if ok then old(router.sunkPaths) + {FullPath("", path), FullPath("", BareOf(path))} else old(router.sunkPaths)
    {
      hide Rebuild, BindDef, Overlapping, FullPath, Registrable, Disjoint, PatternsOf, FastIndexOf;
      ghost var before, sunk := router.defs, router.sunkPaths;
      forall d | d in before
        ensures Disjoint(router.re, d.path, FullPath("", path)) && d.path != FullPath("", path)
        ensures Disjoint(router.re, d.path, FullPath("", BareOf(path))) && d.path != FullPath("", BareOf(path))
      {
        MirrorDisjoint(router.re, path, d.path);
        TwinDisjoint(router.re, path, d.path);
      }
      ok := Mirror(path, mirror, plan);
      if !ok { return; }
      TwinIsAccepted(before, path, mirror, plan);
      var twin := Mirror(BareOf(path), mirror, plan);
      ghost var both := [MirrorDef(path, mirror), MirrorDef(BareOf(path), mirror)];
      assert router.defs == before + both;
      ClaimGuarded(router.re, before, both, sunk, sunk + {FullPath("", path), FullPath("", BareOf(path))}, owner, [|owner|, |owner|]);
      assert both[0] in router.defs && both[1] in router.defs;
      owner := owner + [|owner|, |owner|];
      router.sunkPaths := router.sunkPaths + {FullPath("", path), FullPath("", BareOf(path))};
    }

    /** Mirror the sink into the router first, claim its paths last: all of it appears, or none. */
    method RegisterSink(path: string, value: SinkValue, mirror: Handler, layers: seq<Layer>, excused: set<Handler>,
                        hasErrorMapper: bool, plan: string -> seq<Planned>) returns (ok: bool)
      requires Valid(plan)
      modifies this, router
      ensures Valid(plan)
      ensures ok <==> old(Sinks(path, value, layers, excused, hasErrorMapper) && Mirrors(path, mirror))
      ensures sinks == if ok then old(sinks)[path := value] else old(sinks)
      ensures ok && value.Directory? ==>
        && EndsWithStar(path)
        && router.defs == old(router.defs) + [MirrorDef(path, mirror), MirrorDef(BareOf(path), mirror)]
        && router.sunkPaths == old(router.sunkPaths) + {FullPath("", path), FullPath("", BareOf(path))}
      ensures ok && !value.Directory? ==>
        && router.defs == old(router.defs) + [MirrorDef(path, mirror)]
        && router.sunkPaths == old(router.sunkPaths) + {FullPath("", path)}
      ensures !ok ==> router.sunkPaths == old(router.sunkPaths) && router.defs == old(router.defs)
      ensures ok && ScopesCompiled(router.re, layers) ==> Unseen(router.re, layers, excused, path)
    {
      hide Rebuild, BindDef, Overlapping, FullPath, ScopesCompiled, Unseen, Registrable;
      ok := false;
      if path == "" || path[0] != '/' || path in sinks { return; }
      if Observed(router.re, layers, excused, path) || router.paramMiddlewares != map[] { return; }
      if !WellShaped(router.re, path, value, hasErrorMapper) { return; }
      var conflict := Conflicts(path);
      NoConflict(router.re, path, router.defs);
      if conflict { return; }
      if value.Directory? {
        ok := MirrorDirectory(path, mirror, plan);
      } else {
        ok := MirrorOne(path, mirror, plan);
      }
      if ok {
        sinks := sinks[path := value];
        if ScopesCompiled(router.re, layers) { PassedIsUnseen(router.re, layers, excused, path); }
      }
    }
  }
}
