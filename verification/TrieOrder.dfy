/** What the depth-first search returns, stated without searching: the least accepted edge word. */
module TrieOrder {
  import opened Wrappers
  import opened Patterns
  import opened Trie

  /** The terminal frame a word leads to, when the request allows every transition of it. */
  function Run(re: Regexes, q: Query, f: Frame, w: Word): (r: Option<Frame>)
    requires InQuery(q, f)
    ensures r.Some? ==> InQuery(q, r.value) && Terminal(q, r.value)
    decreases |w|
  {
    if w == [] then if Terminal(q, f) then Some(f) else None
    else
      match Step(re, q, f, w[0])
      case None => None
      case Some(g) => Run(re, q, g, w[1..])
  }

  predicate Accepts(re: Regexes, q: Query, f: Frame, w: Word)
    requires InQuery(q, f)
  {
    Run(re, q, f, w).Some?
  }

  /** Static before params before the wildcard; a variant's consume before its skip; earlier variants first. */
  predicate EdgeLess(a: Edge, b: Edge) {
    match a
    case Key(_) => !b.Key?
    case Tail => false
    case Take(i) => b.Tail? || (b.Take? && i < b.variant) || (b.Skip? && i <= b.variant)
    case Skip(i) => b.Tail? || (b.Take? && i < b.variant) || (b.Skip? && i < b.variant)
  }

  /** Lexicographic, ending before going on. */
  predicate WordLeq(u: Word, v: Word)
    decreases |u|
  {
    u == [] || (v != [] && (if u[0] == v[0] then WordLeq(u[1..], v[1..]) else EdgeLess(u[0], v[0])))
  }

  predicate Listed(n: nat, lo: nat, e: Edge) {
    (e.Take? || e.Skip?) && lo <= e.variant < n
  }

  lemma {:induction false} VariantEdgesListed(lo: nat, hi: nat, e: Edge)
    requires lo <= hi
    ensures e in VariantEdges(lo, hi) <==> Listed(hi, lo, e)
    decreases hi - lo
  {
    if lo < hi {
      VariantEdgesListed(lo + 1, hi, e);
    }
  }

  /** Push order is priority order, read backwards. */
  ghost predicate Falling(es: seq<Edge>) {
    forall i, j | 0 <= i < j < |es| :: EdgeLess(es[j], es[i])
  }

  lemma {:induction false} VariantEdgesFall(lo: nat, hi: nat)
    requires lo <= hi
    ensures Falling(VariantEdges(lo, hi))
    decreases hi - lo
  {
    if lo < hi {
      VariantEdgesFall(lo + 1, hi);
      var rest := VariantEdges(lo + 1, hi);
      forall i | 0 <= i < |rest| ensures Listed(hi, lo + 1, rest[i]) {
        VariantEdgesListed(lo + 1, hi, rest[i]);
      }
    }
  }

  lemma CandidatesFall(q: Query, f: Frame)
    requires InQuery(q, f)
    ensures Falling(Candidates(q, f))
  {
    var variants := VariantEdges(0, |f.node.params|);
    VariantEdgesFall(0, |f.node.params|);
    forall i | 0 <= i < |variants| ensures Listed(|f.node.params|, 0, variants[i]) {
      VariantEdgesListed(0, |f.node.params|, variants[i]);
    }
  }

  /** Every transition the request allows is among the candidates. */
  lemma StepIsCandidate(re: Regexes, q: Query, f: Frame, e: Edge)
    requires InQuery(q, f) && Step(re, q, f, e).Some?
    ensures e in Candidates(q, f)
  {
    VariantEdgesListed(0, |f.node.params|, e);
  }

  predicate Misses(re: Regexes, q: Query, f: Frame, e: Edge)
    requires InQuery(q, f)
  {
    Step(re, q, f, e).Some? ==> Dfs(re, q, Step(re, q, f, e).value).None?
  }

  /** The edge the search commits to: the last candidate with a hit below it. */
  lemma {:induction false} PickEdge(re: Regexes, q: Query, f: Frame, es: seq<Edge>) returns (k: nat)
    requires InQuery(q, f) && Pick(re, q, f, es).Some?
    ensures k < |es| && Step(re, q, f, es[k]).Some?
    ensures Dfs(re, q, Step(re, q, f, es[k]).value) == Pick(re, q, f, es)
    ensures forall j | k < j < |es| :: Misses(re, q, f, es[j])
    decreases |es|
  {
    var last := |es| - 1;
    if !Misses(re, q, f, es[last]) {
      k := last;
    } else {
      var init := es[..last];
      k := PickEdge(re, q, f, init);
      forall j | k < j < |es| ensures Misses(re, q, f, es[j]) {
        if j < last { assert init[j] == es[j]; }
      }
    }
  }

  lemma {:induction false} PickNone(re: Regexes, q: Query, f: Frame, es: seq<Edge>)
    requires InQuery(q, f) && Pick(re, q, f, es).None?
    ensures forall e | e in es :: Misses(re, q, f, e)
    decreases |es|
  {
    if es != [] { PickNone(re, q, f, es[..|es| - 1]); }
  }

  /** The search misses nothing: if any word is accepted, it finds something. */
  lemma {:induction false} DfsComplete(re: Regexes, q: Query, f: Frame, w: Word)
    requires InQuery(q, f) && Accepts(re, q, f, w)
    ensures Dfs(re, q, f).Some?
    decreases |w|
  {
    if !Terminal(q, f) {
      var g := Step(re, q, f, w[0]).value;
      DfsComplete(re, q, g, w[1..]);
      StepIsCandidate(re, q, f, w[0]);
      if Pick(re, q, f, Candidates(q, f)).None? {
        PickNone(re, q, f, Candidates(q, f));
      }
    }
  }

  /** The search returns exactly the landing of the least accepted word. */
  lemma {:induction false} DfsLeast(re: Regexes, q: Query, f: Frame) returns (w: Word)
    requires InQuery(q, f) && Dfs(re, q, f).Some?
    ensures Run(re, q, f, w) == Dfs(re, q, f)
    ensures forall v | Accepts(re, q, f, v) :: WordLeq(w, v)
    decreases Size(f.node)
  {
    if Terminal(q, f) {
      return [];
    }
    var es := Candidates(q, f);
    var k := PickEdge(re, q, f, es);
    var g := Step(re, q, f, es[k]).value;
    KidSmaller(f.node, es[k]);
    var tail := DfsLeast(re, q, g);
    w := [es[k]] + tail;
    assert w[1..] == tail;
    forall v | Accepts(re, q, f, v) ensures WordLeq(w, v) {
      StepIsCandidate(re, q, f, v[0]);
      var j :| 0 <= j < |es| && es[j] == v[0];
      DfsComplete(re, q, Step(re, q, f, v[0]).value, v[1..]);
      CandidatesFall(q, f);
    }
  }

  lemma {:induction false} WordLeqReflexive(u: Word)
    ensures WordLeq(u, u)
  {
    if u != [] { WordLeqReflexive(u[1..]); }
  }

  lemma {:induction false} WordLeqTransitive(u: Word, v: Word, w: Word)
    requires WordLeq(u, v) && WordLeq(v, w)
    ensures WordLeq(u, w)
    decreases |u|
  {
    if u != [] && u[0] == v[0] == w[0] {
      WordLeqTransitive(u[1..], v[1..], w[1..]);
    }
  }

  lemma {:induction false} WordLeqAntisymmetric(u: Word, v: Word)
    requires WordLeq(u, v) && WordLeq(v, u)
    ensures u == v
    decreases |u|
  {
    if u != [] {
      WordLeqAntisymmetric(u[1..], v[1..]);
      assert u == [u[0]] + u[1..] && v == [v[0]] + v[1..];
    }
  }

  /** The words a node's search distinguishes are linearly ordered, up to static keys the request cannot both take. */
  lemma {:induction false} WordLeqTotal(re: Regexes, q: Query, f: Frame, u: Word, v: Word)
    requires InQuery(q, f) && Accepts(re, q, f, u) && Accepts(re, q, f, v)
    ensures WordLeq(u, v) || WordLeq(v, u)
    decreases |u|
  {
    if u != [] && v != [] && u[0] == v[0] {
      WordLeqTotal(re, q, Step(re, q, f, u[0]).value, u[1..], v[1..]);
    }
  }
}
