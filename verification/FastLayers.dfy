/**
 The fast layers change nothing: on the paths they are asked about, the slice
 matchers and the table expression answer what the trie search answers.
 */
module FastLayers {
  import opened Wrappers
  import opened Percent
  import opened Paths
  import opened Patterns
  import opened Trie
  import opened TrieOrder
  import opened TrieInsert
  import opened TrieIndex
  import opened TrieMeaning
  import opened TrieMatcher
  import opened TableRegex
  import opened RegexItems
  import opened TableMatch

  // ---------------------------------------------------------------- plain patterns on the trie

  /** Escape-free, and no lone empty final segment. */
  predicate RawQuery(q: Query) {
    && (forall s | s in q.segs :: '%' !in s)
    && (q.segs != [] ==> q.segs[|q.segs| - 1] != "")
  }

  lemma RawRest(q: Query, index: nat)
    requires RawQuery(q) && index < |q.segs|
    ensures RestOf(q, index) == Join(q.segs[index..]) != ""
  {
    var rest := q.segs[index..];
    forall s | s in rest ensures '%' !in s { assert s in q.segs; }
    DecodePlainAll(rest);
    assert rest[|rest| - 1] == q.segs[|q.segs| - 1];
    if Join(rest) == "" { JoinEmpty(rest); }
  }

  lemma CoveredKid(n: Node, e: Edge, p: seq<Segment>)
    requires Covered(n, p) && p != [] && EdgeFor(n, e, p[0]) && (e.Skip? ==> IsOptional(p[0]))
    ensures Kid(n, e).Some? && Covered(Kid(n, e).value, p[1..])
  {
    var kid := Kid(n, e).value;
    forall v | Spells(kid, v, p[1..]) ensures TargetAt(kid, v).Some? {
      assert ([e] + v)[1..] == v;
      assert Spells(n, [e] + v, p);
    }
  }

  /** The word of a plain pattern does what the pattern does: accepted exactly when it captures, with the same captures. */
  ghost predicate RunsAs(re: Regexes, q: Query, f: Frame, w: Word, p: seq<Segment>)
    requires InQuery(q, f)
  {
    var caps, run := PlainCaptures(p, q.segs[f.index..], q.slash), Run(re, q, f, w);
    && (run.Some? <==> caps.Some?)
    && (run.Some? ==> ValuesOf(run.value.links) == ValuesOf(f.links) + caps.value)
  }

  lemma {:induction false} PlainRuns(re: Regexes, q: Query, f: Frame, w: Word, p: seq<Segment>)
    requires InQuery(q, f) && RawQuery(q) && Plain(p) && WellFormed(p)
    requires Spells(f.node, w, p) && Covered(f.node, p)
    ensures RunsAs(re, q, f, w, p)
    decreases |p|
  {
    if p == [] {
      assert TargetAt(f.node, []).Some?;
      assert ValuesOf(f.links) + [] == ValuesOf(f.links);
    } else {
      assert p[0] in p;
      WellFormedTail(p);
      CoveredKid(f.node, w[0], p);
      if p[0].Wildcard? {
        WildcardRun(re, q, f, w, p);
      } else {
        var step := Step(re, q, f, w[0]);
        if step.Some? { PlainRuns(re, q, step.value, w[1..], p[1..]); }
        if p[0].Static? { StaticRun(re, q, f, w, p); } else { ParamRun(re, q, f, w, p); }
      }
    }
  }

  lemma StaticRun(re: Regexes, q: Query, f: Frame, w: Word, p: seq<Segment>)
    requires InQuery(q, f) && RawQuery(q) && p != [] && p[0].Static? && Spells(f.node, w, p)
    requires var step := Step(re, q, f, w[0]); step.Some? ==> RunsAs(re, q, step.value, w[1..], p[1..])
    ensures RunsAs(re, q, f, w, p)
  {
    if f.index < |q.segs| { HeadSegment(q, f.index); }
  }

  /** What the consume edge of a plain param does on a raw request. */
  lemma ParamStep(re: Regexes, q: Query, f: Frame, e: Edge, p: seq<Segment>)
    requires InQuery(q, f) && RawQuery(q) && Plain(p) && p != [] && p[0].Param? && EdgeFor(f.node, e, p[0]) && Kid(f.node, e).Some?
    ensures Step(re, q, f, e).Some? <==> f.index < |q.segs| && q.segs[f.index] != ""
    ensures Step(re, q, f, e).Some? ==>
      var g := Step(re, q, f, e).value; g.index == f.index + 1 && ValuesOf(g.links) == ValuesOf(f.links) + [q.segs[f.index]]
  {
    assert p[0] in p;
    if f.index < |q.segs| { HeadSegment(q, f.index); }
    if Step(re, q, f, e).Some? { assert Step(re, q, f, e).value.links[1..] == f.links; }
  }

  lemma ParamCaptured(p: seq<Segment>, segs: seq<string>, slash: bool)
    requires p != [] && p[0].Param?
    ensures var caps := PlainCaptures(p, segs, slash);
            && (caps.Some? <==> segs != [] && segs[0] != "" && PlainCaptures(p[1..], segs[1..], slash).Some?)
            && (caps.Some? ==> caps.value == [segs[0]] + PlainCaptures(p[1..], segs[1..], slash).value)
  {
  }

  lemma ParamRun(re: Regexes, q: Query, f: Frame, w: Word, p: seq<Segment>)
    requires InQuery(q, f) && RawQuery(q) && Plain(p) && p != [] && p[0].Param? && Spells(f.node, w, p)
    requires var step := Step(re, q, f, w[0]); step.Some? ==> RunsAs(re, q, step.value, w[1..], p[1..])
    ensures RunsAs(re, q, f, w, p)
  {
    hide Step, Run, PlainCaptures, RawQuery, Plain;
    var step, segs := Step(re, q, f, w[0]), q.segs[f.index..];
    ParamStep(re, q, f, w[0], p);
    RunFirst(re, q, f, w);
    ParamCaptured(p, segs, q.slash);
    assert segs != [] ==> segs[0] == q.segs[f.index] && segs[1..] == q.segs[f.index + 1..];
    if Run(re, q, f, w).Some? {
      var caps := PlainCaptures(p[1..], segs[1..], q.slash).value;
      assert ValuesOf(f.links) + [segs[0]] + caps == ValuesOf(f.links) + ([segs[0]] + caps);
    }
  }

  lemma HeadSegment(q: Query, index: nat)
    requires RawQuery(q) && index < |q.segs|
    ensures q.segs[index..][0] == q.segs[index] == DecodeSegment(q.segs[index])
    ensures q.segs[index..][1..] == q.segs[index + 1..]
  {
    assert q.segs[index] in q.segs;
  }

  lemma WildcardRun(re: Regexes, q: Query, f: Frame, w: Word, p: seq<Segment>)
    requires InQuery(q, f) && RawQuery(q) && p == [Wildcard]
    requires Spells(f.node, w, p) && Covered(f.node, p)
    ensures RunsAs(re, q, f, w, p)
  {
    assert w == [Tail] && w[1..] == [];
    assert At(f.node, w) == f.node.wild;
    assert TargetAt(f.node, w).Some?;
    if f.index < |q.segs| {
      RawRest(q, f.index);
    } else {
      assert q.segs[f.index..] == [] && DecodeAll([]) == [];
    }
    var step := Step(re, q, f, Tail);
    if step.Some? {
      assert step.value.links[1..] == f.links;
      assert Run(re, q, f, w) == Run(re, q, step.value, []);
    }
  }

  // ---------------------------------------------------------------- comparator order is search order

  /** Of two accepted plain words, the one the search prefers belongs to the pattern the comparator puts first. */
  lemma {:induction false} SearchOrderIsPrecedence(re: Regexes, q: Query, f: Frame, u: Word, v: Word, a: seq<Segment>, b: seq<Segment>)
    requires InQuery(q, f) && Plain(a) && Plain(b) && WellFormed(a) && WellFormed(b)
    requires Spells(f.node, u, a) && Spells(f.node, v, b)
    requires Accepts(re, q, f, u) && Accepts(re, q, f, v)
    requires WordLeq(u, v)
    ensures u == v || LexPrecedence(a, b) < 0
    decreases |a|
  {
    if a != [] { WellFormedTail(a); assert a[0] in a; }
    if b != [] { WellFormedTail(b); assert b[0] in b; }
    if u == [] {
    } else if u[0] == v[0] {
      SearchOrderIsPrecedence(re, q, Step(re, q, f, u[0]).value, u[1..], v[1..], a[1..], b[1..]);
      assert u == [u[0]] + u[1..] && v == [v[0]] + v[1..];
      assert RankKey(a) == RankKey(b);
    } else {
      assert EdgeLess(u[0], v[0]);
    }
  }

  predicate Required(p: seq<Segment>) {
    forall s | s in p :: !IsOptional(s)
  }

  /** A pattern without optional params is spelled by one word. */
  lemma {:induction false} WordUnique(n: Node, u: Word, v: Word, p: seq<Segment>)
    requires Required(p) && Spells(n, u, p) && Spells(n, v, p)
    ensures u == v
    decreases |p|
  {
    if p != [] {
      assert p[0] in p;
      WordUnique(Kid(n, u[0]).value, u[1..], v[1..], p[1..]);
      assert u == [u[0]] + u[1..] && v == [v[0]] + v[1..];
    }
  }

  lemma {:induction false} SpelledNames(n: Node, w: Word, p: seq<Segment>)
    requires Required(p) && Spells(n, w, p)
    ensures At(n, w).Some? && NamesAlong(n, w) == ParamNamesOf(p)
    decreases |p|
  {
    if p != [] {
      assert p[0] in p;
      SpelledNames(Kid(n, w[0]).value, w[1..], p[1..]);
    }
  }

  // ---------------------------------------------------------------- raw paths

  /** The paths the fast layers see: escape-free, on one line, not ending in two slashes. */
  predicate RawPath(path: string) {
    '%' !in path && !EndsWithTwoSlashes(path) && forall c | c in path :: !IsLineTerminator(c)
  }

  lemma {:induction false} SegmentsFromRaw(s: string)
    requires AtBoundary(s) && !EndsWithTwoSlashes(s) && '%' !in s
    ensures RawQuery(Query(SegmentsFrom(s), EndsWithSlash(s)))
    decreases |s|
  {
    if |s| > 1 {
      var body := s[1..];
      var k := NonSlashRun(body);
      var seg, rest := body[..k], body[k..];
      assert forall c | c in seg || c in rest :: c in s;
      if |rest| > 1 {
        assert rest[|rest| - 1] == s[|s| - 1] && rest[|rest| - 2] == s[|s| - 2];
      }
      SegmentsFromRaw(rest);
      var segs := SegmentsFrom(s);
      assert segs == [seg] + SegmentsFrom(rest);
      if seg == "" { assert rest == s[1..]; }
    }
  }

  lemma RawPathQuery(path: string)
    requires RawPath(path) && path != "" && path[0] == '/'
    ensures RawQuery(QueryOf(path)) && QueryOf(path).segs == SegmentsFrom(path)
  {
    SegmentsFromPath(path);
    SegmentsFromRaw(path);
  }

  // ---------------------------------------------------------------- what a plain hit answers

  lemma {:induction false} PlainCaptureCount(p: seq<Segment>, segs: seq<string>, slash: bool)
    requires PlainCaptures(p, segs, slash).Some? && WellFormed(p)
    ensures |PlainCaptures(p, segs, slash).value| == |ParamNamesOf(p)|
    decreases |p|
  {
    if p != [] {
      WellFormedTail(p);
      if p[0].Wildcard? {
        assert ParamNamesOf(p) == [WILDCARD_NAME] + ParamNamesOf(p[1..]);
      } else {
        PlainCaptureCount(p[1..], segs[1..], slash);
      }
    }
  }

  function AnswerOf(target: Ref, p: seq<Segment>, captures: seq<string>): Answer {
    Answer(target, ParamNamesOf(p), captures)
  }

  /** The trie's answer in the vocabulary of the fast layers. */
  function TrieAnswer(re: Regexes, n: Node, path: string): Option<Answer> {
    match Match(re, n, path)
    case None => None
    case Some(m) => Some(Answer(m.target, m.names, m.values))
  }

  /** When the search lands on the word of a plain pattern, it answers that pattern's names and captures. */
  lemma PlainHit(re: Regexes, n: Node, ps: seq<seq<Segment>>, p: seq<Segment>, w: Word, path: string)
    requires TrieOk(n, ps) && p in ps && Plain(p) && WellFormed(p) && !IsStatic(p) && Spells(n, w, p)
    requires RawQuery(QueryOf(path))
    requires var f := Frame(n, 0, []); Accepts(re, QueryOf(path), f, w) && Dfs(re, QueryOf(path), f) == Run(re, QueryOf(path), f, w)
    ensures PlainCaptures(p, QueryOf(path).segs, QueryOf(path).slash).Some?
    ensures TrieAnswer(re, n, path) == Some(AnswerOf(TrieRef(w), p, PlainCaptures(p, QueryOf(path).segs, QueryOf(path).slash).value))
  {
    var q, f := QueryOf(path), Frame(n, 0, []);
    assert q.segs[0..] == q.segs;
    PlainRuns(re, q, f, w, p);
    var caps, hit := PlainCaptures(p, q.segs, q.slash).value, Run(re, q, f, w).value;
    assert [] + caps == caps;
    PlainCaptureCount(p, q.segs, q.slash);
    NamesNonEmpty(p);
    RunAt(re, q, f, w);
    SpelledNames(n, w, p);
    assert TargetAt(n, w).Some? && NamedAt(n, [], w);
    assert [] + NamesAlong(n, w) == NamesAlong(n, w);
    LinksLength(hit.links);
  }

  /** The search's word for a static-first query starts with the key its first segment names. */
  lemma SameHead(re: Regexes, n: Node, ps: seq<seq<Segment>>, q: Query, u: Word, w: Word) returns (r: seq<Segment>)
    requires TrieOk(n, ps) && Accepts(re, q, Frame(n, 0, []), u) && WordLeq(u, w)
    requires w != [] && w[0].Key? && Accepts(re, q, Frame(n, 0, []), w)
    ensures r in ps && Spells(n, u, r) && r != [] && r[0] == Static(w[0].key)
  {
    RunAt(re, q, Frame(n, 0, []), u);
    assert TargetAt(n, u).Some?;
    r :| r in ps && Spells(n, u, r);
    assert u != [] && u[0] == w[0];
  }

  // ---------------------------------------------------------------- the table

  lemma EligibleIsPlain(p: seq<Segment>)
    requires IsRegexEligible(p)
    ensures Plain(p)
  {
  }

  /** What registration keeps about the table's entries: each is a registered pattern at its own word. */
  ghost predicate Indexed(n: Node, ps: seq<seq<Segment>>, e: Eligible) {
    && e.segments in ps && IsRegexEligible(e.segments) && FastComparable(e.segments)
    && e.target.TrieRef? && Spells(n, e.target.word, e.segments)
  }

  /** A static-first pattern has an entry, or its bucket is set aside. */
  ghost predicate Accounted(index: seq<Eligible>, impure: set<string>, p: seq<Segment>) {
    p != [] && p[0].Static? ==> p[0].value in impure || exists e :: e in index && e.segments == p
  }

  ghost predicate FastOk(n: Node, ps: seq<seq<Segment>>, index: seq<Eligible>, impure: set<string>) {
    && TrieOk(n, ps)
    && (forall p | p in ps :: WellFormed(p) && !IsStatic(p) && Accounted(index, impure, p))
    && (forall e | e in index :: Indexed(n, ps, e))
  }

  function SortedTable(index: seq<Eligible>, impure: set<string>): seq<Eligible> {
    StableSort(Collected(index, impure))
  }

  lemma SortedMembers(n: Node, ps: seq<seq<Segment>>, index: seq<Eligible>, impure: set<string>)
    requires FastOk(n, ps, index, impure)
    ensures Sorted(SortedTable(index, impure)) && Captures(SortedTable(index, impure))
    ensures forall e :: e in SortedTable(index, impure) <==> e in index && Joins(e, impure)
  {
    forall e | e in Collected(index, impure) ensures WellFormed(e.segments) { assert Indexed(n, ps, e); }
    StableSortSorts(Collected(index, impure));
  }

  /** An alternative that matches is the acceptance of its word. */
  lemma AlternativeAccepts(re: Regexes, n: Node, ps: seq<seq<Segment>>, e: Eligible, path: string)
    requires TrieOk(n, ps) && Indexed(n, ps, e) && WellFormed(e.segments)
    requires RawPath(path) && path != "" && path[0] == '/'
    ensures RawQuery(QueryOf(path))
    ensures Accepts(re, QueryOf(path), Frame(n, 0, []), e.target.word) <==> RunItems(ItemsOf(e.segments), path).Some?
    ensures Tidied(e.segments, RunItems(ItemsOf(e.segments), path)) == PlainCaptures(e.segments, QueryOf(path).segs, QueryOf(path).slash)
  {
    var q, f := QueryOf(path), Frame(n, 0, []);
    RawPathQuery(path);
    EligibleIsPlain(e.segments);
    ItemsMeanSegments(e.segments, path);
    assert q.segs[0..] == q.segs;
    PlainRuns(re, q, f, e.target.word, e.segments);
  }

  lemma LeftmostIsLeast(a: seq<Eligible>, i: nat, k: nat)
    requires Sorted(a) && i < |a| && k < |a| && LexPrecedence(a[i].segments, a[k].segments) < 0
    ensures i < k
  {
    if k < i { LexAntisymmetric(a[i].segments, a[k].segments); }
    if k == i { LexAntisymmetric(a[i].segments, a[i].segments); }
  }

  /** Whenever the table answers, it answers what the trie search answers. */
  lemma TableAgrees(re: Regexes, n: Node, ps: seq<seq<Segment>>, index: seq<Eligible>, impure: set<string>, path: string)
    requires FastOk(n, ps, index, impure) && RawPath(path)
    requires TableAnswer(SortedTable(index, impure), path).Some?
    ensures TableAnswer(SortedTable(index, impure), path) == TrieAnswer(re, n, path)
  {
    var sorted, q, f := SortedTable(index, impure), QueryOf(path), Frame(n, 0, []);
    SortedMembers(n, ps, index, impure);
    AnswerIsWinner(sorted, path);
    var k := Winner(sorted, path);
    var e := sorted[k];
    assert e in sorted && Indexed(n, ps, e);
    NeedsBoundary(e.segments, path);
    AlternativeAccepts(re, n, ps, e, path);
    DfsComplete(re, q, f, e.target.word);
    var u := DfsLeast(re, q, f);
    var r := SameHead(re, n, ps, q, u, e.target.word);
    if u != e.target.word {
      assert Accounted(index, impure, r);
      var other :| other in index && other.segments == r;
      EarlierAlternative(re, n, ps, sorted, e, other, u, path);
    }
    EligibleIsPlain(e.segments);
    PlainHit(re, n, ps, e.segments, u, path);
  }

  /** A word the search prefers belongs to an alternative further left that also matches. */
  lemma EarlierAlternative(re: Regexes, n: Node, ps: seq<seq<Segment>>, sorted: seq<Eligible>, e: Eligible, other: Eligible, u: Word, path: string)
    requires TrieOk(n, ps) && Sorted(sorted) && RawPath(path) && path != "" && path[0] == '/'
    requires Indexed(n, ps, e) && Indexed(n, ps, other) && WellFormed(e.segments) && WellFormed(other.segments)
    requires other in sorted && Winner(sorted, path) < |sorted| && sorted[Winner(sorted, path)] == e
    requires Spells(n, u, other.segments) && Accepts(re, QueryOf(path), Frame(n, 0, []), u) && WordLeq(u, e.target.word)
    ensures u == e.target.word
  {
    var q, f := QueryOf(path), Frame(n, 0, []);
    EligibleIsPlain(e.segments);
    EligibleIsPlain(other.segments);
    AlternativeAccepts(re, n, ps, e, path);
    AlternativeAccepts(re, n, ps, other, path);
    WordUnique(n, u, other.target.word, other.segments);
    SearchOrderIsPrecedence(re, q, f, u, e.target.word, other.segments, e.segments);
    if u != e.target.word {
      var i :| 0 <= i < |sorted| && sorted[i] == other;
      LeftmostIsLeast(sorted, i, Winner(sorted, path));
    }
  }

  // ---------------------------------------------------------------- the slice matcher

  datatype FastMatcher = FastMatcher(prefix: string, names: seq<string>, target: Ref)

  function StaticHead(p: seq<Segment>): string {
    if p == [] || !p[0].Static? then "" else "/" + p[0].value + StaticHead(p[1..])
  }

  function HeadValues(p: seq<Segment>): seq<string> {
    if p == [] || !p[0].Static? then [] else [p[0].value] + HeadValues(p[1..])
  }

  /** What a slice matcher answers: the prefix on a segment boundary, then one non-empty part per name. */
  function FastAnswer(fast: FastMatcher, path: string): Option<Answer> {
    if !(fast.prefix <= path) then None
    else
      var rest := path[|fast.prefix|..];
      if rest == "" || rest[0] != '/' then None
      else
        var parts := Split(rest[1..]);
        if |parts| == |fast.names| && "" !in parts then Some(Answer(fast.target, fast.names, parts)) else None
  }

  lemma SplitCounts(s: string)
    ensures |Split(s)| == 1 <==> '/' !in s
    ensures '/' !in s ==> Split(s) == [s]
  {
    if '/' in s {
      JoinSplit(s);
      assert Split(s)[0] in Split(s);
    } else {
      SplitPlain(s);
    }
  }

  /** Both branches of the slice matcher, the single-capture one included. */
  method FastMatch(fast: FastMatcher, path: string) returns (m: Option<RouteMatch>)
    requires fast.names != []
    ensures m.None? <==> FastAnswer(fast, path).None?
    ensures m.Some? ==> m.value.offset + |m.value.names| <= |m.value.values|
    ensures m.Some? ==> var a := FastAnswer(fast, path).value; Seen(m.value) == (a.target, a.names, Somes(a.values))
  {
    if !(fast.prefix <= path) { return None; }
    var rest := path[|fast.prefix|..];
    if rest == "" || rest[0] != '/' { return None; }
    if |fast.names| == 1 {
      SplitCounts(rest[1..]);
      if |rest| <= 1 {
        assert Split(rest[1..])[0] in Split(rest[1..]);
        return None;
      }
      var value := rest[1..];
      if '/' in value { return None; }
      assert Somes([value])[0..1] == Somes([value]);
      return Some(RouteMatch(fast.target, fast.names, Somes([value]), 0));
    }
    if |rest| <= 1 { SplitCounts(rest[1..]); return None; }
    var parts := Split(rest[1..]);
    if |parts| != |fast.names| { return None; }
    for i := 0 to |parts|
      invariant "" !in parts[..i]
    {
      if |parts[i]| == 0 { return None; }
      assert parts[..i + 1] == parts[..i] + [parts[i]];
    }
    assert parts[..|parts|] == parts;
    m := Some(RouteMatch(fast.target, fast.names, Somes(parts), 0));
    assert Somes(parts)[0..|parts|] == Somes(parts);
  }

  lemma {:induction false} SplitHead(p: seq<Segment>, tail: string)
    requires FastComparable(p)
    ensures Split(StaticHead(p) + "/" + tail) == [""] + (HeadValues(p) + Split(tail))
  {
    if p == [] || !p[0].Static? {
      SplitAtSlash("", tail);
      assert "" + "/" + tail == "/" + tail;
      assert [] + Split(tail) == Split(tail);
    } else {
      assert p[0] in p;
      SplitHead(p[1..], tail);
      HeadRegroup(p[0].value, StaticHead(p[1..]), tail);
      SplitStep(p[0].value, StaticHead(p[1..]) + "/" + tail);
      TailRegroup(p[0].value, HeadValues(p[1..]), Split(tail));
    }
  }

  lemma HeadRegroup(value: string, head: string, tail: string)
    ensures "/" + value + head + "/" + tail == "/" + value + (head + "/" + tail)
    ensures head == "" || head[0] == '/' ==> (head + "/" + tail)[0] == '/'
  {
  }

  lemma TailRegroup(value: string, values: seq<string>, rest: seq<string>)
    ensures [value] + ([""] + (values + rest))[1..] == [value] + values + rest
  {
  }

  /** Static segments, then plain params only. */
  predicate SimpleTail(p: seq<Segment>) {
    && (forall s | s in p :: PlainOrStatic(s))
    && (forall i, j | 0 <= i < j < |p| :: p[i].Param? ==> p[j].Param?)
  }

  lemma {:induction false} SimpleCaptures(p: seq<Segment>, parts: seq<string>, slash: bool)
    requires SimpleTail(p) && |parts| == |ParamNamesOf(p)| && "" !in parts
    ensures PlainCaptures(p, HeadValues(p) + parts, slash) == Some(parts)
    decreases |p|
  {
    if p != [] {
      assert p[0] in p;
      if p[0].Static? {
        SimpleCaptures(p[1..], parts, slash);
        assert (HeadValues(p) + parts)[1..] == HeadValues(p[1..]) + parts;
      } else {
        assert ParamNamesOf(p) == [p[0].name] + ParamNamesOf(p[1..]);
        assert HeadValues(p[1..]) == [] by { if p[1..] != [] { assert p[0].Param? && p[1].Param?; } }
        SimpleCaptures(p[1..], parts[1..], slash);
        assert HeadValues(p) + parts == parts && [] + parts[1..] == parts[1..];
        assert [parts[0]] + parts[1..] == parts;
      }
    } else {
      assert HeadValues(p) + parts == [];
    }
  }

  /** The request a slice match sees: the head values, then the parts. */
  lemma FastQuery(p: seq<Segment>, target: Ref, path: string)
    requires FastComparable(p) && p != [] && p[0].Static? && '%' !in path
    requires FastAnswer(FastMatcher(StaticHead(p), ParamNamesOf(p), target), path).Some?
    ensures var parts := Split(path[|StaticHead(p)|..][1..]);
            RawQuery(QueryOf(path)) && QueryOf(path).segs == HeadValues(p) + parts
  {
    var tail := path[|StaticHead(p)|..][1..];
    var parts := Split(tail);
    assert path == StaticHead(p) + "/" + tail;
    SplitHead(p, tail);
    var segs := HeadValues(p) + parts;
    assert ([""] + segs)[1..] == segs;
    assert parts[|parts| - 1] in parts;
    JoinSplit(tail);
    LastOfJoin(parts);
    assert path[|path| - 1] == tail[|tail| - 1];
    SplitKeepsOut(path, '%');
    forall s | s in segs ensures '%' !in s { assert s in Split(path); }
  }

  lemma {:induction false} LastOfJoin(parts: seq<string>)
    requires parts != [] && parts[|parts| - 1] != "" && forall part | part in parts :: '/' !in part
    ensures Join(parts) != "" && Join(parts)[|Join(parts)| - 1] != '/'
  {
    if |parts| > 1 {
      LastOfJoin(parts[1..]);
    } else {
      assert parts[0] in parts;
    }
  }

  /** The matcher a bucket keeps while it holds one simple pattern only answers what the trie answers. */
  lemma FastAgrees(re: Regexes, n: Node, ps: seq<seq<Segment>>, p: seq<Segment>, w: Word, path: string)
    requires TrieOk(n, ps) && p in ps && IsSimple(p) && FastComparable(p) && WellFormed(p) && Spells(n, w, p)
    requires forall r | r in ps && r != [] && r[0] == p[0] :: r == p
    requires '%' !in path
    requires FastAnswer(FastMatcher(StaticHead(p), ParamNamesOf(p), TrieRef(w)), path).Some?
    ensures FastAnswer(FastMatcher(StaticHead(p), ParamNamesOf(p), TrieRef(w)), path) == TrieAnswer(re, n, path)
  {
    var q, f := QueryOf(path), Frame(n, 0, []);
    FastQuery(p, TrieRef(w), path);
    SimpleCaptures(p, Split(path[|StaticHead(p)|..][1..]), q.slash);
    assert q.segs[0..] == q.segs;
    assert Plain(p);
    PlainRuns(re, q, f, w, p);
    DfsComplete(re, q, f, w);
    var u := DfsLeast(re, q, f);
    var r := SameHead(re, n, ps, q, u, w);
    WordUnique(n, u, w, p);
    PlainHit(re, n, ps, p, w, path);
  }
}
