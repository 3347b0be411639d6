/**
 The compiled alternation over the eligible patterns: its items, its
 backtracking semantics, its ordering, and the scan that names the winning route.
 */
module TableRegex {
  import opened Wrappers
  import opened Patterns
  import opened Trie

  // ---------------------------------------------------------------- eligibility

  /** First segment static, the rest literals or plain params, a wildcard only last, at least one capture. */
  predicate IsRegexEligible(p: seq<Segment>) {
    && p != [] && p[0].Static?
    && (forall i | 1 <= i < |p| ::
          match p[i]
          case Static(_) => true
          case Wildcard => i == |p| - 1
          case Param(_, pattern, optional) => !optional && pattern == None)
    && !IsStatic(p)
  }

  /** The eligibility test, one segment after the other. */
  method CheckEligible(p: seq<Segment>) returns (ok: bool)
    ensures ok == IsRegexEligible(p)
  {
    if p == [] || !p[0].Static? { return false; }
    var captures := 0;
    for i := 1 to |p|
      invariant captures >= 0
      invariant captures == 0 <==> IsStatic(p[..i])
      invariant forall j | 1 <= j < i ::
          match p[j]
          case Static(_) => true
          case Wildcard => j == |p| - 1
          case Param(_, pattern, optional) => !optional && pattern == None
    {
      assert p[..i + 1] == p[..i] + [p[i]];
      assert p[i] in p[..i + 1];
      if !p[i].Static? {
        if p[i].Wildcard? {
          if i != |p| - 1 { return false; }
        } else if p[i].optional || p[i].pattern != None {
          return false;
        }
        captures := captures + 1;
      }
    }
    assert p[..|p|] == p;
    return captures > 0;
  }

  // ---------------------------------------------------------------- ordering

  function Rank(s: Segment): int {
    match s
    case Static(_) => 0
    case Param(_, _, _) => 1
    case Wildcard => 2
  }

  function StaticCount(p: seq<Segment>): nat {
    if p == [] then 0 else (if p[0].Static? then 1 else 0) + StaticCount(p[1..])
  }

  /** The first rank difference at or after `i`, or 0. */
  function RankDifference(a: seq<Segment>, b: seq<Segment>, i: nat): int
    decreases |a| - i
  {
    if i >= |a| || i >= |b| then 0
    else if Rank(a[i]) != Rank(b[i]) then Rank(a[i]) - Rank(b[i])
    else RankDifference(a, b, i + 1)
  }

  function TriePrecedence(a: seq<Segment>, b: seq<Segment>): int {
    var difference := RankDifference(a, b, 0);
    if difference != 0 then difference
    else
      var longer := if |a| > |b| then a else b;
      var shared := if |a| < |b| then |a| else |b|;
      if |a| != |b| && |longer| == shared + 1 && longer[|longer| - 1].Wildcard? then
        if |a| < |b| then -1 else 1
      else if StaticCount(b) != StaticCount(a) then StaticCount(b) - StaticCount(a)
      else |b| - |a|
  }

  /** Place in the lexicographic order at one position; ending ranks between a param and the wildcard. */
  function RankKey(p: seq<Segment>): int {
    if p == [] then 3 else match p[0] case Static(_) => 1 case Param(_, _, _) => 2 case Wildcard => 4
  }

  function Sign(n: int): int {
    if n < 0 then -1 else if n > 0 then 1 else 0
  }

  /** The order the comparator is meant to be: lexicographic on rank keys. */
  function LexPrecedence(a: seq<Segment>, b: seq<Segment>): int
    decreases |a|
  {
    if RankKey(a) != RankKey(b) then Sign(RankKey(a) - RankKey(b))
    else if a == [] then 0
    else LexPrecedence(a[1..], b[1..])
  }

  lemma {:induction false} RankDifferenceTail(a: seq<Segment>, b: seq<Segment>, i: nat)
    requires a != [] && b != []
    ensures RankDifference(a, b, i + 1) == RankDifference(a[1..], b[1..], i)
    decreases |a| - i
  {
    if i + 1 < |a| && i + 1 < |b| {
      RankDifferenceTail(a, b, i + 1);
    }
  }

  /** The comparator agrees in sign with the lexicographic order, on every pair of patterns. */
  lemma {:induction false} PrecedenceIsLexicographic(a: seq<Segment>, b: seq<Segment>)
    requires WellFormed(a) && WellFormed(b)
    ensures Sign(TriePrecedence(a, b)) == LexPrecedence(a, b)
    decreases |a|
  {
    if a != [] && b != [] && Rank(a[0]) == Rank(b[0]) {
      WellFormedTail(a);
      WellFormedTail(b);
      PrecedenceIsLexicographic(a[1..], b[1..]);
      RankDifferenceTail(a, b, 0);
      assert RankDifference(a, b, 0) == RankDifference(a, b, 1);
      if |a| != |b| {
        var longer := if |a| > |b| then a else b;
        assert longer[1..][|longer| - 2] == longer[|longer| - 1];
      }
    }
  }

  /** A strict weak order: antisymmetric, and transitive on both "before" and "not after". */
  lemma {:induction false} LexAntisymmetric(a: seq<Segment>, b: seq<Segment>)
    ensures LexPrecedence(a, b) == -LexPrecedence(b, a)
    decreases |a|
  {
    if RankKey(a) == RankKey(b) && a != [] { LexAntisymmetric(a[1..], b[1..]); }
  }

  lemma {:induction false} LexTransitive(a: seq<Segment>, b: seq<Segment>, c: seq<Segment>)
    requires LexPrecedence(a, b) <= 0 && LexPrecedence(b, c) <= 0
    ensures LexPrecedence(a, c) <= 0
    ensures LexPrecedence(a, b) < 0 || LexPrecedence(b, c) < 0 ==> LexPrecedence(a, c) < 0
    decreases |a|
  {
    if RankKey(a) == RankKey(b) == RankKey(c) && a != [] { LexTransitive(a[1..], b[1..], c[1..]); }
  }

  // ---------------------------------------------------------------- Array#sort with the comparator

  datatype Eligible = Eligible(segments: seq<Segment>, target: Ref)

  function Insertion(x: Eligible, sorted: seq<Eligible>): seq<Eligible> {
    if sorted == [] then [x]
    else
      var k := |sorted| - 1;
      if TriePrecedence(x.segments, sorted[k].segments) < 0
      then Insertion(x, sorted[..k]) + [sorted[k]]
      else sorted + [x]
  }

  /** A stable sort: each element goes after everything it does not precede. */
  function StableSort(s: seq<Eligible>): seq<Eligible> {
    if s == [] then [] else Insertion(s[|s| - 1], StableSort(s[..|s| - 1]))
  }

  ghost predicate Sorted(s: seq<Eligible>) {
    forall i, j | 0 <= i < j < |s| :: LexPrecedence(s[i].segments, s[j].segments) <= 0
  }

  predicate AllWellFormed(s: seq<Eligible>) {
    forall e | e in s :: WellFormed(e.segments)
  }

  lemma {:induction false} InsertionMembers(x: Eligible, s: seq<Eligible>)
    ensures multiset(Insertion(x, s)) == multiset(s) + multiset{x}
  {
    if s != [] {
      var k := |s| - 1;
      assert s == s[..k] + [s[k]];
      InsertionMembers(x, s[..k]);
    }
  }

  ghost predicate AllNotAfter(s: seq<Eligible>, x: Eligible) {
    forall e | e in s :: LexPrecedence(e.segments, x.segments) <= 0
  }

  lemma SortedSnoc(s: seq<Eligible>, x: Eligible)
    requires Sorted(s) && AllNotAfter(s, x)
    ensures Sorted(s + [x])
  {
    var t := s + [x];
    forall i, j | 0 <= i < j < |t| ensures LexPrecedence(t[i].segments, t[j].segments) <= 0 {
      if j == |s| { assert t[i] in s; }
    }
  }

  lemma SortedLast(s: seq<Eligible>)
    requires Sorted(s) && s != []
    ensures Sorted(s[..|s| - 1]) && AllNotAfter(s[..|s| - 1], s[|s| - 1])
  {
  }

  lemma InsertionNotAfter(x: Eligible, s: seq<Eligible>, y: Eligible)
    requires AllNotAfter(s, y) && LexPrecedence(x.segments, y.segments) <= 0
    ensures AllNotAfter(Insertion(x, s), y)
  {
    InsertionMembers(x, s);
    forall e | e in Insertion(x, s) ensures LexPrecedence(e.segments, y.segments) <= 0 {
      assert e in multiset(Insertion(x, s));
    }
  }

  lemma {:induction false} InsertionSorted(x: Eligible, s: seq<Eligible>)
    requires Sorted(s) && AllWellFormed(s) && WellFormed(x.segments)
    ensures Sorted(Insertion(x, s))
    decreases |s|
  {
    if s != [] {
      var k := |s| - 1;
      assert s[k] in s && s == s[..k] + [s[k]];
      PrecedenceIsLexicographic(x.segments, s[k].segments);
      SortedLast(s);
      if TriePrecedence(x.segments, s[k].segments) < 0 {
        InsertionSorted(x, s[..k]);
        InsertionNotAfter(x, s[..k], s[k]);
        SortedSnoc(Insertion(x, s[..k]), s[k]);
      } else {
        LexAntisymmetric(x.segments, s[k].segments);
        forall e | e in s ensures LexPrecedence(e.segments, x.segments) <= 0 {
          if e != s[k] { LexTransitive(e.segments, s[k].segments, x.segments); }
        }
        SortedSnoc(s, x);
      }
    }
  }

  /** The sort permutes its input and leaves no pair out of order. */
  lemma {:induction false} StableSortSorts(s: seq<Eligible>)
    requires AllWellFormed(s)
    ensures Sorted(StableSort(s))
    ensures multiset(StableSort(s)) == multiset(s)
    ensures forall e :: e in StableSort(s) <==> e in s
  {
    if s != [] {
      var k := |s| - 1;
      assert s == s[..k] + [s[k]];
      assert s[k] in s;
      StableSortSorts(s[..k]);
      InsertionMembers(s[k], StableSort(s[..k]));
      InsertionSorted(s[k], StableSort(s[..k]));
    }
    forall e ensures e in StableSort(s) <==> e in s {
      assert e in StableSort(s) <==> e in multiset(StableSort(s));
      assert e in s <==> e in multiset(s);
    }
  }
}
