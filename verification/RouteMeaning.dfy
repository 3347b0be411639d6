/** What an indexed router answers, in terms of the definitions registered with it. */
module RouteMeaning {
  import opened Wrappers
  import opened Percent
  import opened Paths
  import opened Patterns
  import opened Trie
  import opened TrieMeaning
  import opened TableMatch
  import opened FastLayers
  import opened Middleware
  import opened RouterIndex
  import opened RouterRuns

  // ---------------------------------------------------------------- static lookups

  /** The lookups in request order: verbatim, without the final slash, then the canonical keys of both. */
  function StaticLookup(statics: map<string, Ref>, path: string): Option<Ref> {
    var stripped := NormalizePath(path);
    if path in statics then Some(statics[path])
    else if stripped in statics then Some(statics[stripped])
    else if '%' !in path then None
    else if CanonicalKey(path) in statics then Some(statics[CanonicalKey(path)])
    else if CanonicalKey(stripped) in statics then Some(statics[CanonicalKey(stripped)])
    else None
  }

  /** What a request is answered: a static entry with no captures, otherwise whatever the trie search finds. */
  function RouteAnswer(re: Regexes, ix: Index, path: string): Option<Answer> {
    match StaticLookup(ix.statics, path)
    case Some(ref) => Some(Answer(ref, [], []))
    case None => TrieAnswer(re, ix.trie, path)
  }

  predicate SameSegments(a: string, b: string) {
    DecodeAll(Split(a)) == DecodeAll(Split(b))
  }

  lemma HeadKept(a: seq<string>, b: seq<string>)
    requires a != []
    ensures (a + b)[0] == a[0] && (a + b)[1..] == a[1..] + b
  {
  }

  lemma SplitHeadChar(s: string)
    requires s != ""
    ensures Split(s) == (var rest := Split(s[1..]); if s[0] == '/' then [""] + rest else [[s[0]] + rest[0]] + rest[1..])
  {
  }

  lemma {:induction false} SplitConcat(s: string, t: string)
    ensures Split(s + "/" + t) == Split(s) + Split(t)
  {
    hide Split;
    var whole := s + "/" + t;
    if s == "" {
      SplitPlain("");
      SplitAtSlash("", t);
    } else {
      SplitConcat(s[1..], t);
      assert whole[0] == s[0] && whole[1..] == s[1..] + "/" + t;
      SplitHeadChar(s);
      SplitHeadChar(whole);
      HeadKept(Split(s[1..]), Split(t));
      var rest := Split(s[1..]);
      if s[0] == '/' { Regroup([""], rest, Split(t)); } else { Regroup([[s[0]] + rest[0]], rest[1..], Split(t)); }
    }
  }

  lemma Regroup(a: seq<string>, b: seq<string>, c: seq<string>)
    ensures a + b + c == a + (b + c)
  {
  }

  lemma CanonicalKeySlash(s: string)
    ensures CanonicalKey(s + "/") == CanonicalKey(s) + "/"
  {
    SplitConcat(s, "");
    assert s + "/" + "" == s + "/";
    var keys := ReescapeAll(DecodeAll(Split(s)));
    assert ReescapeAll(DecodeAll(Split(s) + [""])) == keys + [""];
    JoinConcat(keys, [""]);
    assert Join(keys) + "/" + "" == Join(keys) + "/";
  }

  lemma StaticKeyCanonical(path: string)
    ensures StaticKey(path) == CanonicalKey(path)
  {
    if '%' !in path { CanonicalKeyPlain(path); }
  }

  /** Whatever the escapes, a request finds the entry with its decoded segments, else the one without its final slash. */
  lemma LookupIsCanonical(re: Regexes, defs: seq<Def>, statics: map<string, Ref>, path: string)
    requires StaticsOk(re, defs, statics)
    ensures var key, bare := CanonicalKey(path), CanonicalKey(NormalizePath(path));
            StaticLookup(statics, path)
            == if key in statics then Some(StaticRef(key)) else if bare in statics then Some(StaticRef(bare)) else None
  {
    hide CanonicalKey, StaticKey;
    var stripped := NormalizePath(path);
    forall key | key in statics ensures CanonicalKey(key) == key {
      var d :| d in defs && IsStaticDef(re, d) && StaticKey(d.path) == key;
      StaticKeyCanonical(d.path);
      CanonicalKeyIdempotent(d.path);
    }
    if '%' !in path {
      CanonicalKeyPlain(path);
      CanonicalKeyPlain(stripped);
    }
    if stripped != path {
      assert stripped + "/" == path;
      CanonicalKeySlash(stripped);
    }
  }

  /** A static definition answers a request when their decoded segments agree, a final slash aside. */
  predicate Serves(d: Def, path: string) {
    SameSegments(d.path, path) || SameSegments(d.path, NormalizePath(path))
  }

  /** The static layer answers exactly the requests some static definition serves. */
  lemma StaticServes(re: Regexes, defs: seq<Def>, statics: map<string, Ref>, path: string)
    requires StaticsOk(re, defs, statics)
    ensures StaticLookup(statics, path).Some? <==> exists d :: d in defs && IsStaticDef(re, d) && Serves(d, path)
    ensures forall d: Def | d in defs && IsStaticDef(re, d) && SameSegments(d.path, path) :: StaticLookup(statics, path) == Some(StaticRef(StaticKey(d.path)))
    ensures forall d: Def | StaticLookup(statics, path) == Some(StaticRef(StaticKey(d.path))) :: Serves(d, path)
  {
    LookupIsCanonical(re, defs, statics, path);
    forall d: Def ensures StaticKey(d.path) == CanonicalKey(path) <==> SameSegments(d.path, path) {
      StaticKeyCanonical(d.path);
      CanonicalKeyInjective(d.path, path);
    }
    forall d: Def ensures StaticKey(d.path) == CanonicalKey(NormalizePath(path)) <==> SameSegments(d.path, NormalizePath(path)) {
      StaticKeyCanonical(d.path);
      CanonicalKeyInjective(d.path, NormalizePath(path));
    }
  }

  // ---------------------------------------------------------------- a static definition and its pattern

  function StaticValues(p: seq<Segment>): (r: seq<string>)
    requires IsStatic(p)
    ensures |r| == |p| && forall i | 0 <= i < |p| :: r[i] == p[i].value
  {
    seq(|p|, i requires 0 <= i < |p| => assert p[i] in p; p[i].value)
  }

  lemma {:induction false} CompiledAt(re: Regexes, parts: seq<string>, i: nat)
    requires CompileParts(re, parts).Ok? && i < |parts| && CompileParts(re, parts).value[i].Static?
    ensures CompileParts(re, parts).value[i].value == DecodeSegment(parts[i])
  {
    if i > 0 { CompiledAt(re, parts[1..], i - 1); }
  }

  lemma CompiledValues(re: Regexes, parts: seq<string>)
    requires CompileParts(re, parts).Ok? && IsStatic(CompileParts(re, parts).value)
    ensures StaticValues(CompileParts(re, parts).value) == DecodeAll(parts)
  {
    var p := CompileParts(re, parts).value;
    forall i | 0 <= i < |p| ensures StaticValues(p)[i] == DecodeAll(parts)[i] {
      assert p[i] in p;
      CompiledAt(re, parts, i);
    }
  }

  lemma StaticValuesHead(p: seq<Segment>)
    requires IsStatic(p) && p != [] && p[0].Static? && IsStatic(p[1..])
    ensures StaticValues(p) == [p[0].value] + StaticValues(p[1..])
  {
  }

  lemma DecodeAllHead(segs: seq<string>)
    requires segs != []
    ensures DecodeAll(segs) == [DecodeSegment(segs[0])] + DecodeAll(segs[1..])
  {
  }

  lemma {:induction false} StaticMatches(re: Regexes, p: seq<Segment>, q: Query)
    requires IsStatic(p)
    ensures Matches(re, p, q) <==> DecodeAll(q.segs) == StaticValues(p)
  {
    hide DecodeSegment, DecodeAll, StaticValues;
    if p == [] {
      assert q.segs == [] ==> DecodeAll(q.segs) == StaticValues(p);
    } else {
      assert p[0] in p && forall s | s in p[1..] :: s in p;
      StaticValuesHead(p);
      if q.segs != [] {
        StaticMatches(re, p[1..], q.(segs := q.segs[1..]));
        DecodeAllHead(q.segs);
      }
    }
  }

  lemma StaticDefMatches(re: Regexes, d: Def, path: string)
    requires IsStaticDef(re, d)
    ensures Matches(re, Compile(re, d.path).value, QueryOf(path)) <==> DecodeAll(SplitSegments(d.path)) == DecodeAll(SplitSegments(path))
  {
    CompiledValues(re, SplitSegments(d.path));
    StaticMatches(re, Compile(re, d.path).value, QueryOf(path));
  }

  lemma DecodedEmpty(s: string)
    ensures DecodeSegment(s) == "" <==> s == ""
  {
    if s != "" { DecodeSegmentNonEmpty(s); }
  }

  lemma DecodedTails(x: seq<string>, y: seq<string>)
    requires x != [] && y != [] && x[0] == y[0]
    ensures DecodeAll(x) == DecodeAll(y) <==> DecodeAll(x[1..]) == DecodeAll(y[1..])
  {
    assert DecodeAll(x) == [DecodeSegment(x[0])] + DecodeAll(x[1..]);
    assert DecodeAll(y) == [DecodeSegment(y[0])] + DecodeAll(y[1..]);
    assert DecodeAll(x)[1..] == DecodeAll(x[1..]) && DecodeAll(y)[1..] == DecodeAll(y[1..]);
  }

  lemma DecodedLoneEmpty(x: seq<string>)
    ensures DecodeAll(x) == [""] <==> x == [""]
  {
    if |x| == 1 {
      DecodedEmpty(x[0]);
      assert DecodeAll(x) == [DecodeSegment(x[0])];
    }
  }

  /** For rooted paths, equal splits and equal segment lists say the same. */
  lemma PartsAgree(a: string, b: string)
    requires Rooted(a) && Rooted(b)
    ensures SameSegments(a, b) <==> DecodeAll(PartsOf(a)) == DecodeAll(PartsOf(b))
  {
    SplitRooted(a);
    SplitRooted(b);
    DecodedTails(Split(a), Split(b));
    DecodedLoneEmpty(Split(a)[1..]);
    DecodedLoneEmpty(Split(b)[1..]);
  }

  lemma {:induction false} LastSplit(s: string)
    ensures Split(s)[|Split(s)| - 1] == "" <==> s == "" || s[|s| - 1] == '/'
  {
    if s != "" && s[|s| - 1] == '/' {
      SplitConcat(s[..|s| - 1], "");
      assert s == s[..|s| - 1] + "/" + "";
    } else if s != "" {
      JoinSplit(s);
      if Split(s)[|Split(s)| - 1] == "" { EmptyLast(Split(s)); }
    }
  }

  lemma {:induction false} EmptyLast(parts: seq<string>)
    requires parts != [] && parts[|parts| - 1] == ""
    ensures Join(parts) == "" || Join(parts)[|Join(parts)| - 1] == '/'
  {
    if |parts| > 1 { EmptyLast(parts[1..]); }
  }

  predicate Proper(path: string) {
    NormalizePath(path) == path
  }

  /** A proper static definition serves exactly the requests its pattern matches. */
  lemma ProperServes(re: Regexes, d: Def, path: string)
    requires IsStaticDef(re, d) && Proper(d.path) && Rooted(path)
    ensures Serves(d, path) <==> Matches(re, Compile(re, d.path).value, QueryOf(path))
  {
    StaticDefMatches(re, d, path);
    PartsAgree(d.path, NormalizePath(path));
    if NormalizePath(path) != path { FinalSlashDiffers(d.path, path); }
  }

  /** A proper path and one with a final slash to drop never have the same segments. */
  lemma FinalSlashDiffers(a: string, path: string)
    requires Proper(a) && Rooted(a) && NormalizePath(path) != path && Rooted(path)
    ensures !SameSegments(a, path)
  {
    if SameSegments(a, path) {
      SameEnds(a, path);
      SlashOnly(a, path);
    }
  }

  lemma SameEnds(a: string, b: string)
    requires SameSegments(a, b) && a != "" && b != ""
    ensures a[|a| - 1] == '/' <==> b[|b| - 1] == '/'
  {
    hide Split;
    var x, y := Split(a), Split(b);
    assert |DecodeAll(x)| == |x| && |DecodeAll(y)| == |y|;
    assert DecodeAll(x)[|x| - 1] == DecodeAll(y)[|y| - 1];
    DecodedEmpty(x[|x| - 1]);
    DecodedEmpty(y[|y| - 1]);
    LastSplit(b);
    LastSplit(a);
  }

  lemma SlashOnly(a: string, b: string)
    requires Proper(a) && Rooted(a) && a[|a| - 1] == '/' && |b| > 1 && Rooted(b)
    requires b[|b| - 1] == '/'
    ensures !SameSegments(a, b)
  {
    assert a == "/";
    SplitConcat("", "");
    assert "" + "/" + "" == "/";
    SplitConcat(b[..|b| - 1], "");
    assert b == b[..|b| - 1] + "/" + "";
    SplitRooted(b[..|b| - 1]);
    assert |DecodeAll(Split(a))| == 2 && |DecodeAll(Split(b))| >= 3;
  }

  lemma {:induction false} SplitLonger(s: string)
    ensures |Split(s + "/")| == |Split(s)| + 1
  {
    SplitConcat(s, "");
    assert s + "/" + "" == s + "/";
  }

  /** A stored path that kept a final slash kept only one. */
  lemma CompiledBare(re: Regexes, path: string)
    requires Compile(re, path).Ok? && !Proper(path)
    ensures var bare := NormalizePath(path); Rooted(bare) && path == bare + "/" && Proper(bare)
  {
    var bare := NormalizePath(path);
    assert path == bare + "/";
    if NormalizePath(bare) != bare { UncompiledDoubleSlash(re, bare); }
  }

  /** The static layer agrees with a definition's pattern on every request exactly when its stored path keeps no final slash. */
  lemma ServesExactly(re: Regexes, d: Def)
    requires IsStaticDef(re, d)
    ensures Proper(d.path) <==> forall path | Rooted(path) :: Serves(d, path) <==> Matches(re, Compile(re, d.path).value, QueryOf(path))
  {
    if Proper(d.path) {
      forall path | Rooted(path) ensures Serves(d, path) <==> Matches(re, Compile(re, d.path).value, QueryOf(path)) {
        ProperServes(re, d, path);
      }
    } else {
      var bare := NormalizePath(d.path);
      CompiledBare(re, d.path);
      SplitLonger(bare);
      StaticDefMatches(re, d, bare);
      assert |DecodeAll(Split(d.path))| != |DecodeAll(Split(bare))|;
      assert !Serves(d, bare);
    }
  }

  /** A path whose normal form still ends with a slash has an empty segment, and does not compile. */
  lemma UncompiledDoubleSlash(re: Regexes, bare: string)
    requires Rooted(bare) && NormalizePath(bare) != bare
    ensures CompileParts(re, PartsOf(bare)).Thrown?
  {
    hide Split, CompileParts;
    SlashedSplit(bare);
    SplitRooted(bare[..|bare| - 1]);
    SplitRooted(bare);
    EmptyPartThrows(re, PartsOf(bare));
  }

  lemma {:induction false} EmptyPartThrows(re: Regexes, parts: seq<string>)
    requires parts != [] && parts[|parts| - 1] == ""
    ensures CompileParts(re, parts).Thrown?
  {
    if |parts| > 1 { EmptyPartThrows(re, parts[1..]); }
  }

  // ---------------------------------------------------------------- what an answer means

  predicate DefMatches(re: Regexes, d: Def, path: string) {
    Compile(re, d.path).Ok? && Matches(re, Compile(re, d.path).value, QueryOf(path))
  }

  /** How a definition answers a request: a static one through its key, a dynamic one through its pattern. */
  predicate Answers(re: Regexes, d: Def, path: string) {
    if IsStaticDef(re, d) then Serves(d, path) else DefMatches(re, d, path)
  }

  /** A request that a static key answers also matches the pattern, unless the stored path kept a final slash and the request dropped one. */
  lemma ServedMatches(re: Regexes, d: Def, path: string)
    requires IsStaticDef(re, d) && Rooted(path) && Serves(d, path)
    ensures DefMatches(re, d, path) <==> Proper(d.path) || SameSegments(d.path, path)
  {
    StaticDefMatches(re, d, path);
    if Proper(d.path) {
      ProperServes(re, d, path);
    } else {
      CompiledBare(re, d.path);
      PartsAgree(NormalizePath(d.path), NormalizePath(path));
      if SameSegments(d.path, path) {
        SlashesAgree(d.path, path);
      } else {
        assert |DecodeAll(Split(d.path))| == |DecodeAll(Split(NormalizePath(path)))|;
        SplitLonger(NormalizePath(d.path));
      }
    }
  }

  /** Paths with the same segments still agree when both drop their final slash. */
  lemma SlashesAgree(a: string, b: string)
    requires SameSegments(a, b) && Rooted(a) && Rooted(b) && !Proper(a)
    ensures SameSegments(NormalizePath(a), NormalizePath(b)) && !Proper(b)
  {
    hide Split, DecodeAll;
    SameEnds(a, b);
    SlashedSplit(a);
    SlashedSplit(b);
    DecodedInits(Split(a[..|a| - 1]), Split(b[..|b| - 1]), "");
    SplitRooted(a[..|a| - 1]);
    assert |DecodeAll(Split(a))| == |Split(a)| && |DecodeAll(Split(b))| == |Split(b)|;
    SplitPlain("");
  }

  lemma SlashedSplit(a: string)
    requires a != "" && a[|a| - 1] == '/'
    ensures Split(a) == Split(a[..|a| - 1]) + [""]
  {
    hide Split;
    SplitConcat(a[..|a| - 1], "");
    SplitPlain("");
    assert a == a[..|a| - 1] + "/" + "";
  }

  lemma DecodedInits(x: seq<string>, y: seq<string>, last: string)
    requires DecodeAll(x + [last]) == DecodeAll(y + [last])
    ensures |x| == |y| && DecodeAll(x) == DecodeAll(y)
  {
    assert |DecodeAll(x + [last])| == |x| + 1 && |DecodeAll(y + [last])| == |y| + 1;
    forall i | 0 <= i < |x| ensures DecodeSegment(x[i]) == DecodeSegment(y[i]) {
      assert DecodeAll(x + [last])[i] == DecodeAll(y + [last])[i];
    }
  }

  lemma {:induction false} PatternFrom(re: Regexes, defs: seq<Def>, p: seq<Segment>) returns (d: Def)
    requires p in PatternsOf(re, defs)
    ensures d in defs && Compile(re, d.path) == Ok(p) && !IsStatic(p)
  {
    var init, last := defs[..|defs| - 1], defs[|defs| - 1];
    assert defs == init + [last];
    if p in PatternsOf(re, init) { d := PatternFrom(re, init, p); } else { d := last; }
  }

  /** A request is answered exactly when some registered definition answers it. */
  lemma RouteExactly(env: Env, defs: seq<Def>, ix: Index, path: string)
    requires IndexOk(env, defs, ix)
    ensures RouteAnswer(env.re, ix, path).Some? <==> exists d :: d in defs && Answers(env.re, d, path)
  {
    var ps := PatternsOf(env.re, defs);
    StaticServes(env.re, defs, ix.statics, path);
    FindsExactly(env.re, ix.trie, ps, QueryOf(path));
    if d :| d in defs && Answers(env.re, d, path) {
      if !IsStaticDef(env.re, d) { PatternListed(env.re, defs, d); }
    }
    if StaticLookup(ix.statics, path).Some? {
      var d :| d in defs && IsStaticDef(env.re, d) && Serves(d, path);
      assert Answers(env.re, d, path);
    } else if TrieAnswer(env.re, ix.trie, path).Some? {
      var p :| p in ps && Matches(env.re, p, QueryOf(path));
      var d := PatternFrom(env.re, defs, p);
      assert Answers(env.re, d, path);
    }
  }

  /** A static path stored with a final slash, and a request with none, or with one more. */
  predicate Astray(d: Def, path: string) {
    && !Proper(d.path) && !SameSegments(d.path, path)
    && (SameSegments(NormalizePath(d.path), path) || SameSegments(d.path, NormalizePath(path)))
  }

  /** Key and pattern of a static definition disagree on exactly those requests. */
  lemma AstrayExactly(re: Regexes, d: Def, path: string)
    requires IsStaticDef(re, d) && Rooted(path)
    ensures (Serves(d, path) <==> DefMatches(re, d, path)) <==> !Astray(d, path)
  {
    hide Split, DecodeAll;
    if Proper(d.path) {
      ProperServes(re, d, path);
    } else if Serves(d, path) {
      ServedMatches(re, d, path);
    } else {
      CompiledBare(re, d.path);
      StaticDefMatches(re, d, path);
      PartsAgree(NormalizePath(d.path), NormalizePath(path));
      if !Proper(path) && SameSegments(NormalizePath(d.path), NormalizePath(path)) { SlashedSame(NormalizePath(d.path), d.path, path); }
      if !Proper(path) && SameSegments(NormalizePath(d.path), path) { FinalSlashDiffers(NormalizePath(d.path), path); }
    }
  }

  lemma SlashedSame(bare: string, a: string, b: string)
    requires a == bare + "/" && !Proper(b) && SameSegments(bare, NormalizePath(b))
    ensures SameSegments(a, b)
  {
    hide Split;
    SlashedSplit(a);
    SlashedSplit(b);
    assert a[..|a| - 1] == bare;
    var x, y := Split(bare), Split(NormalizePath(b));
    assert |DecodeAll(x)| == |x| && |DecodeAll(y)| == |y|;
    forall i | 0 <= i < |x| ensures DecodeSegment(x[i]) == DecodeSegment(y[i]) { assert DecodeAll(x)[i] == DecodeAll(y)[i]; }
  }

  /** A request cannot be one slash short of one stored path and one slash beyond another. */
  lemma AstrayOneWay(re: Regexes, d: Def, e: Def, path: string)
    requires IsStaticDef(re, d) && IsStaticDef(re, e) && Rooted(path)
    requires Serves(d, path) && !DefMatches(re, d, path)
    ensures !DefMatches(re, e, path)
  {
    hide Split, DecodeAll, StaticValues, CompileParts;
    ServedMatches(re, d, path);
    CompiledBare(re, d.path);
    EndsEmpty(NormalizePath(d.path), d.path, NormalizePath(path));
    if DefMatches(re, e, path) {
      var p, segs := Compile(re, e.path).value, SplitSegments(path);
      StaticMatches(re, p, QueryOf(path));
      assert |DecodeAll(segs)| == |segs| && |StaticValues(p)| == |p|;
      assert DecodeAll(segs)[|segs| - 1] == p[|segs| - 1].value;
      assert SegmentOk(p[|segs| - 1], true);
      DecodedEmpty("");
    }
  }

  lemma LastMatches(a: seq<string>, b: seq<string>)
    requires a != [] && DecodeAll(a) == DecodeAll(b) && a[|a| - 1] == ""
    ensures |a| == |b| && b[|b| - 1] == ""
  {
    assert |DecodeAll(a)| == |a| && |DecodeAll(b)| == |b|;
    assert DecodeAll(a)[|a| - 1] == DecodeAll(b)[|b| - 1];
    DecodedEmpty("");
    DecodedEmpty(b[|b| - 1]);
  }

  lemma EndsEmpty(bare: string, a: string, b: string)
    requires Rooted(bare) && a == bare + "/" && SameSegments(a, b) && Rooted(b)
    ensures PartsOf(b) != [] && PartsOf(b)[|PartsOf(b)| - 1] == ""
  {
    hide Split, DecodeAll;
    SlashedSplit(a);
    assert a[..|a| - 1] == bare;
    SplitRooted(bare);
    SplitRooted(b);
    LastMatches(Split(a), Split(b));
  }

  /** That is, exactly when some registered pattern matches, unless the only ones concerned are static paths the request strays from. */
  lemma RouteMatches(env: Env, defs: seq<Def>, ix: Index, path: string)
    requires IndexOk(env, defs, ix) && Rooted(path)
    ensures (RouteAnswer(env.re, ix, path).Some? <==> exists d :: d in defs && DefMatches(env.re, d, path))
       <==> (|| (forall d | d in defs && IsStaticDef(env.re, d) :: !Astray(d, path))
             || (exists d :: d in defs && DefMatches(env.re, d, path) && !(IsStaticDef(env.re, d) && Astray(d, path))))
  {
    hide Astray, Serves, DefMatches, IsStaticDef, IndexOk;
    RouteExactly(env, defs, ix, path);
    forall d | d in defs && IsStaticDef(env.re, d) ensures (Serves(d, path) <==> DefMatches(env.re, d, path)) <==> !Astray(d, path) {
      AstrayExactly(env.re, d, path);
    }
    forall d, e | d in defs && e in defs && IsStaticDef(env.re, d) && IsStaticDef(env.re, e)
                  && Serves(d, path) && !DefMatches(env.re, d, path)
      ensures !DefMatches(env.re, e, path)
    {
      AstrayOneWay(env.re, d, e, path);
    }
  }

  lemma {:induction false} LayerOwner(env: Env, n: Node, defs: seq<Def>, ref: Ref, verb: string, h: Handler) returns (d: Def)
    requires h in Layers(env, n, defs, ref, verb)
    ensures d in defs && d.verb == verb && Owns(env.re, n, d, ref)
    ensures h in HandlersOf(env, d, Compile(env.re, d.path).value)
  {
    var init, last := defs[..|defs| - 1], defs[|defs| - 1];
    assert defs == init + [last];
    if h in Layers(env, n, init, ref, verb) { d := LayerOwner(env, n, init, ref, verb, h); } else { d := last; }
  }

  /** A definition that owns the target of a request answers that request. */
  lemma OwnerAnswers(env: Env, defs: seq<Def>, ix: Index, path: string, d: Def)
    requires IndexOk(env, defs, ix)
    requires RouteAnswer(env.re, ix, path).Some? && d in defs
    requires Owns(env.re, ix.trie, d, RouteAnswer(env.re, ix, path).value.target)
    ensures Answers(env.re, d, path)
  {
    StaticServes(env.re, defs, ix.statics, path);
    if StaticLookup(ix.statics, path).Some? {
      LookupIsCanonical(env.re, defs, ix.statics, path);
    } else {
      TrieTargetMatches(env, defs, ix, path, d);
    }
  }

  /**
   Whatever layers the answered target holds, each comes from a definition that answers the request;
   its own pattern matches too, except for a static path stored with a final slash, asked for with one more.
   */
  lemma LayersServeOnlyMatches(env: Env, defs: seq<Def>, ix: Index, path: string, verb: string, h: Handler) returns (d: Def)
    requires IndexOk(env, defs, ix)
    requires RouteAnswer(env.re, ix, path).Some?
    requires h in LayersIn(TargetOf(ix.targets, RouteAnswer(env.re, ix, path).value.target), verb)
    ensures d in defs && d.verb == verb && Answers(env.re, d, path)
    ensures Rooted(path) ==> (DefMatches(env.re, d, path) <==> !IsStaticDef(env.re, d) || Proper(d.path) || SameSegments(d.path, path))
    ensures Compile(env.re, d.path).Ok? && h in HandlersOf(env, d, Compile(env.re, d.path).value)
  {
    d := LayerOwner(env, ix.trie, defs, RouteAnswer(env.re, ix, path).value.target, verb, h);
    OwnerAnswers(env, defs, ix, path, d);
    if Rooted(path) && IsStaticDef(env.re, d) { ServedMatches(env.re, d, path); }
  }

  /** The search's target belongs to a word; a definition that answers for it spells that word. */
  lemma TrieTargetMatches(env: Env, defs: seq<Def>, ix: Index, path: string, d: Def)
    requires IndexOk(env, defs, ix) && d in defs
    requires TrieAnswer(env.re, ix.trie, path).Some? && Owns(env.re, ix.trie, d, TrieAnswer(env.re, ix.trie, path).value.target)
    ensures DefMatches(env.re, d, path) && !IsStaticDef(env.re, d)
  {
    hide Dfs, Matches, PatternsOf;
    var ps := PatternsOf(env.re, defs);
    var w := HitCaptures(env.re, ix.trie, ps, QueryOf(path));
    PatternListed(env.re, defs, d);
    TerminalServesOnlyMatches(env.re, ix.trie, ps, QueryOf(path), Compile(env.re, d.path).value, w);
  }

  // ---------------------------------------------------------------- the middleware of an answered request

  /** A router whose plans come from the application's layers. */
  ghost predicate PlansFrom(env: Env, layers: seq<Layer>) {
    forall path | Compile(env.re, path).Ok? :: env.plan(path) == PlanOf(layers, Compile(env.re, path).value, 0)
  }

  /** The answer does not rest on a static key with a final slash for a request that has yet another one. */
  predicate KeyIsBare(ref: Ref, path: string) {
    ref.StaticRef? ==> Proper(ref.key) || SameSegments(ref.key, path)
  }

  /** The path whose scopes count for an answered request: its own, or the key it strayed to. */
  function ScopedPath(ref: Ref, path: string): string {
    if KeyIsBare(ref, path) then path else ref.key
  }

  lemma OwnedKey(re: Regexes, n: Node, d: Def, ref: Ref, path: string)
    requires IsStaticDef(re, d) && Owns(re, n, d, ref) && Rooted(path)
    ensures ref.StaticRef? && SameSegments(ref.key, d.path)
    ensures KeyIsBare(ref, path) <==> Proper(d.path) || SameSegments(d.path, path)
  {
    StaticKeyCanonical(d.path);
    CanonicalKeyReads(d.path);
    KeyProper(ref.key, d.path);
  }

  lemma RootedAlike(a: string, b: string)
    requires SameSegments(a, b) && Rooted(b)
    ensures Rooted(a)
  {
    hide Split;
    SplitRooted(b);
    assert |DecodeAll(Split(a))| == |Split(a)| && |DecodeAll(Split(b))| == |Split(b)|;
    assert DecodeAll(Split(a))[0] == DecodeAll(Split(b))[0];
    DecodedEmpty(Split(a)[0]);
    DecodedEmpty("");
    SplitStart(a);
  }

  lemma SplitStart(a: string)
    requires |Split(a)| >= 2 && Split(a)[0] == ""
    ensures Rooted(a)
  {
  }

  /** A key with a final slash has the request segments of the path it was made from. */
  lemma KeySegments(key: string, path: string)
    requires SameSegments(key, path) && Rooted(path) && !Proper(path) && Rooted(NormalizePath(path))
    ensures PathSegments(key) == PathSegments(path)
  {
    hide Split;
    RootedAlike(key, path);
    SlashesAgree(path, key);
    RootedAlike(NormalizePath(key), NormalizePath(path));
    PartsAgree(NormalizePath(key), NormalizePath(path));
  }

  lemma KeyProper(a: string, b: string)
    requires SameSegments(a, b) && Rooted(b)
    ensures Proper(a) <==> Proper(b)
  {
    hide Split;
    assert |DecodeAll(Split(a))| == |Split(a)| && |DecodeAll(Split(b))| == |Split(b)|;
    SplitRooted(b);
    SplitPlain("");
    SameEnds(a, b);
    if b[|b| - 1] == '/' {
      SlashSplits(a);
      SlashSplits(b);
    }
  }

  lemma SlashSplits(a: string)
    requires a != "" && a[|a| - 1] == '/'
    ensures |a| == 1 <==> Split(a) == ["", ""]
  {
    hide Split;
    SlashedSplit(a);
    if |a| == 1 {
      SplitPlain("");
    } else {
      JoinSplit(a);
    }
  }

  /** The layers the plan of a static definition reaches, on any request: those whose scope admits its own path. */
  lemma StaticPlanReaches(re: Regexes, d: Def, layers: seq<Layer>, segments: seq<string>)
    requires IsStaticDef(re, d)
    ensures Reached(PlanOf(layers, Compile(re, d.path).value, 0), segments) == Middleware.Offered(layers, PathSegments(d.path))
  {
    StaticDefMatches(re, d, d.path);
    PlanIsExact(re, layers, Compile(re, d.path).value, QueryOf(d.path), PathSegments(d.path), 0);
    StaticPlanIsFixed(layers, Compile(re, d.path).value, 0, segments, PathSegments(d.path));
  }

  /**
   An answered request reaches exactly the application layers whose scope admits its path, in `use` order, then the
   route's layers; where it strayed to a key with a final slash, the scopes that count are those of the key.
   */
  lemma MatchedRequestIsOffered(env: Env, defs: seq<Def>, ix: Index, layers: seq<Layer>, path: string, verb: string)
    requires IndexOk(env, defs, ix) && Rooted(path) && PlansFrom(env, layers)
    requires RouteAnswer(env.re, ix, path).Some?
    requires var t := TargetOf(ix.targets, RouteAnswer(env.re, ix, path).value.target); verb in t.chains
    ensures var ref := RouteAnswer(env.re, ix, path).value.target;
            var t := TargetOf(ix.targets, ref);
            && Reached(t.chains[verb].planned, PathSegments(path)) == Middleware.Offered(layers, PathSegments(ScopedPath(ref, path)))
            && t.chains[verb].layers == Layers(env, ix.trie, defs, ref, verb)
  {
    var ref := RouteAnswer(env.re, ix, path).value.target;
    var t := TargetOf(ix.targets, ref);
    assert ChainFrom(env, ix.trie, defs, ref, verb, t.chains[verb]);
    var d :| d in defs && d.verb == verb && Owns(env.re, ix.trie, d, ref) && t.chains[verb].planned == env.plan(d.path);
    assert LayersIn(t, verb) == Layers(env, ix.trie, defs, ref, verb);
    OwnerAnswers(env, defs, ix, path, d);
    hide IndexOk, RouteAnswer;
    OwnerOffers(env.re, ix.trie, d, ref, layers, path);
  }

  lemma OwnerOffers(re: Regexes, n: Node, d: Def, ref: Ref, layers: seq<Layer>, path: string)
    requires Owns(re, n, d, ref) && Answers(re, d, path) && Rooted(path)
    ensures Compile(re, d.path).Ok?
    ensures Reached(PlanOf(layers, Compile(re, d.path).value, 0), PathSegments(path)) == Middleware.Offered(layers, PathSegments(ScopedPath(ref, path)))
  {
    hide Serves;
    if IsStaticDef(re, d) {
      OwnedKey(re, n, d, ref, path);
      ServedMatches(re, d, path);
      if !KeyIsBare(ref, path) {
        CompiledBare(re, d.path);
        StaticPlanReaches(re, d, layers, PathSegments(path));
        KeySegments(ref.key, d.path);
      }
    }
    if DefMatches(re, d, path) {
      PlanIsExact(re, layers, Compile(re, d.path).value, QueryOf(path), PathSegments(path), 0);
    }
  }

  /** Whatever the layers, a static definition's answer runs those whose scope admits the request, if and only if the request did not stray. */
  lemma ServedOffersExactly(re: Regexes, d: Def, path: string)
    requires IsStaticDef(re, d) && Rooted(path) && Serves(d, path)
    ensures (forall layers :: Reached(PlanOf(layers, Compile(re, d.path).value, 0), PathSegments(path)) == Middleware.Offered(layers, PathSegments(path)))
       <==> Proper(d.path) || SameSegments(d.path, path)
  {
    var p := Compile(re, d.path).value;
    ServedMatches(re, d, path);
    if DefMatches(re, d, path) {
      forall layers ensures Reached(PlanOf(layers, p, 0), PathSegments(path)) == Middleware.Offered(layers, PathSegments(path)) {
        PlanIsExact(re, layers, p, QueryOf(path), PathSegments(path), 0);
      }
    } else {
      StaticMatches(re, p, QueryOf(path));
      var layers := [Layer(Some(Scope("", StaticValues(p), false)), 0)];
      OwnScopeRuns(p, PathSegments(path), 0);
      assert Middleware.Offered(layers, PathSegments(path)) != Reached(PlanOf(layers, p, 0), PathSegments(path));
    }
  }

  /** A layer scoped to the literals of a static route always runs on it. */
  lemma OwnScopeRuns(p: seq<Segment>, segments: seq<string>, h: Handler)
    requires IsStatic(p)
    ensures var layers := [Layer(Some(Scope("", StaticValues(p), false)), h)];
            && Reached(PlanOf(layers, p, 0), segments) == [h]
            && (segments != StaticValues(p) ==> Middleware.Offered(layers, segments) == [])
  {
    var layers := [Layer(Some(Scope("", StaticValues(p), false)), h)];
    forall i | 0 <= i < |p| ensures p[i] == Static(StaticValues(p)[i]) { assert p[i] in p; }
    assert layers[1..] == [] && [Direct(h)] + [] == [Direct(h)] && [h] + [] == [h];
    assert PlanOf(layers, p, 0) == [Direct(h)] + PlanOf(layers[1..], p, 0);
    assert [Direct(h)][1..] == [];
  }

  // ---------------------------------------------------------------- the order of layers

  /** Where the layers of the first `i` definitions end. */
  function EndOf(env: Env, n: Node, defs: seq<Def>, ref: Ref, verb: string, i: nat): nat
    requires i <= |defs|
  {
    |Layers(env, n, defs[..i], ref, verb)|
  }

  lemma {:induction false} LayersPrefix(env: Env, n: Node, defs: seq<Def>, ref: Ref, verb: string, i: nat)
    requires i <= |defs|
    ensures Layers(env, n, defs[..i], ref, verb) <= Layers(env, n, defs, ref, verb)
    decreases |defs|
  {
    if i == |defs| {
      assert defs[..i] == defs;
    } else {
      assert defs[..|defs| - 1][..i] == defs[..i];
      LayersPrefix(env, n, defs[..|defs| - 1], ref, verb, i);
    }
  }

  /** The params of a pattern that have a middleware, each handler once, in the order of the names that bring it. */
  ghost predicate ParamsOnce(params: map<string, Handler>, names: seq<string>, chain: seq<Handler>, at: seq<nat>) {
    && |at| == |chain|
    && (forall i | 0 <= i < |at| :: at[i] < |names| && names[at[i]] in params && params[names[at[i]]] == chain[i])
    && (forall i, j | 0 <= i < j < |at| :: at[i] < at[j] && chain[i] != chain[j])
    && (forall name | name in names && name in params :: params[name] in chain)
  }

  lemma {:induction false} ParamChainExactly(params: map<string, Handler>, names: seq<string>) returns (at: seq<nat>)
    ensures ParamsOnce(params, names, ParamChain(params, names), at)
  {
    if names == [] { return []; }
    var init, last := names[..|names| - 1], names[|names| - 1];
    assert names == init + [last];
    at := ParamChainExactly(params, init);
    if last in params && params[last] !in ParamChain(params, init) { at := at + [|names| - 1]; }
  }

  /** One definition's share of a target's layers: its mounted router's middleware, its params', its handlers. */
  ghost predicate Share(env: Env, d: Def, block: seq<Handler>, chain: seq<Handler>, at: seq<nat>) {
    && Compile(env.re, d.path).Ok?
    && block == d.prefixMiddleware + chain + d.handlers
    && ParamsOnce(env.params, ParamNamesOf(Compile(env.re, d.path).value), chain, at)
  }

  /**
   The layers of a target, definition by definition in the order they were registered: nothing for a definition that does
   not own the target under the method, otherwise its share.
   */
  lemma LayersInOrder(env: Env, defs: seq<Def>, ix: Index, ref: Ref, verb: string, i: nat) returns (chain: seq<Handler>, at: seq<nat>)
    requires IndexOk(env, defs, ix) && i < |defs|
    ensures var n, d, layers := ix.trie, defs[i], LayersIn(TargetOf(ix.targets, ref), verb);
            var from, to := EndOf(env, n, defs, ref, verb, i), EndOf(env, n, defs, ref, verb, i + 1);
            && from <= to <= |layers|
            && if d.verb == verb && Owns(env.re, n, d, ref) then Share(env, d, layers[from..to], chain, at) else from == to
    ensures EndOf(env, ix.trie, defs, ref, verb, 0) == 0
    ensures EndOf(env, ix.trie, defs, ref, verb, |defs|) == |LayersIn(TargetOf(ix.targets, ref), verb)|
  {
    hide IndexOk, Layers, Owns, Share, LayersIn, TargetOf;
    TargetLayers(env, defs, ix, ref, verb);
    NoLayers(env, ix.trie, ref, verb);
    assert defs[..|defs|] == defs && defs[..0] == [];
    LayersPrefix(env, ix.trie, defs, ref, verb, i + 1);
    var block: seq<Handler>;
    block, chain, at := BlockOf(env, ix.trie, defs, ref, verb, i);
    SliceOf(Layers(env, ix.trie, defs[..i], ref, verb), block, Layers(env, ix.trie, defs, ref, verb));
  }

  lemma NoLayers(env: Env, n: Node, ref: Ref, verb: string)
    ensures Layers(env, n, [], ref, verb) == []
  {
  }

  lemma SliceOf(before: seq<Handler>, block: seq<Handler>, all: seq<Handler>)
    requires before + block <= all
    ensures all[|before|..|before| + |block|] == block
  {
  }

  lemma TargetLayers(env: Env, defs: seq<Def>, ix: Index, ref: Ref, verb: string)
    requires IndexOk(env, defs, ix)
    ensures LayersIn(TargetOf(ix.targets, ref), verb) == Layers(env, ix.trie, defs, ref, verb)
  {
  }

  lemma BlockOf(env: Env, n: Node, defs: seq<Def>, ref: Ref, verb: string, i: nat) returns (block: seq<Handler>, chain: seq<Handler>, at: seq<nat>)
    requires i < |defs|
    ensures Layers(env, n, defs[..i + 1], ref, verb) == Layers(env, n, defs[..i], ref, verb) + block
    ensures var d := defs[i]; if d.verb == verb && Owns(env.re, n, d, ref) then Share(env, d, block, chain, at) else block == []
  {
    hide ParamsOnce, ParamChain, ParamNamesOf;
    var d, upTo := defs[i], defs[..i + 1];
    assert upTo[..|upTo| - 1] == defs[..i] && upTo[|upTo| - 1] == d;
    block, chain, at := [], [], [];
    assert Layers(env, n, defs[..i], ref, verb) + [] == Layers(env, n, defs[..i], ref, verb);
    if d.verb == verb && Owns(env.re, n, d, ref) {
      var names := ParamNamesOf(Compile(env.re, d.path).value);
      chain := ParamChain(env.params, names);
      at := ParamChainExactly(env.params, names);
      block := d.prefixMiddleware + chain + d.handlers;
    }
  }
}
