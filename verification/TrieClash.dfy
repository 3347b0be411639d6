/** Which patterns a trie refuses: exactly those that name a param differently where an earlier pattern named it. */
module TrieClash {
  import opened Wrappers
  import opened Patterns
  import opened Trie
  import opened TrieInsert
  import opened TrieIndex

  // ---------------------------------------------------------------- on segment lists

  /** Two patterns go on through the same edge: an equal literal, a param with the same expression, the wildcard. */
  predicate SharesEdge(a: Segment, b: Segment) {
    match a
    case Static(v) => b == Static(v)
    case Param(_, pattern, _) => b.Param? && b.pattern == pattern
    case Wildcard => b.Wildcard?
  }

  predicate ClashesAt(a: seq<Segment>, b: seq<Segment>, i: nat) {
    && i < |a| && i < |b| && a[i].Param? && b[i].Param? && a[i].name != b[i].name
    && forall j | 0 <= j < i :: SharesEdge(a[j], b[j])
  }

  /** Somewhere both name a param, differently, after the same edges. */
  predicate Clash(a: seq<Segment>, b: seq<Segment>) {
    exists i: nat :: i < |a| && ClashesAt(a, b, i)
  }

  lemma ClashStep(a: seq<Segment>, b: seq<Segment>)
    ensures Clash(a, b)
       <==> && a != [] && b != []
            && (|| (a[0].Param? && b[0].Param? && a[0].name != b[0].name)
                || (SharesEdge(a[0], b[0]) && Clash(a[1..], b[1..])))
  {
    if i: nat :| i < |a| && ClashesAt(a, b, i) {
      if i > 0 {
        assert ClashesAt(a[1..], b[1..], i - 1) by {
          forall j | 0 <= j < i - 1 ensures SharesEdge(a[1..][j], b[1..][j]) { assert SharesEdge(a[j + 1], b[j + 1]); }
        }
      }
    }
    if a != [] && b != [] {
      if a[0].Param? && b[0].Param? && a[0].name != b[0].name {
        assert ClashesAt(a, b, 0);
      } else if SharesEdge(a[0], b[0]) && Clash(a[1..], b[1..]) {
        var i: nat :| i < |a[1..]| && ClashesAt(a[1..], b[1..], i);
        forall j | 0 <= j < i + 1 ensures SharesEdge(a[j], b[j]) {
          if j > 0 { assert SharesEdge(a[1..][j - 1], b[1..][j - 1]); }
        }
        assert ClashesAt(a, b, i + 1);
      }
    }
  }

  /** A static list names nothing. */
  lemma StaticNeverClashes(a: seq<Segment>, b: seq<Segment>)
    requires IsStatic(a) || IsStatic(b)
    ensures !Clash(a, b)
  {
    if i: nat :| i < |a| && ClashesAt(a, b, i) { assert a[i] in a && b[i] in b; }
  }

  // ---------------------------------------------------------------- on nodes

  /** Where a variant with this expression leads when it is consumed; nowhere yet when there is none. */
  function ConsumeKid(n: Node, pattern: Option<string>): Node {
    var k := VariantFor(n.params, pattern);
    if k < 0 then EMPTY else n.params[k].node
  }

  function SkipKid(n: Node, pattern: Option<string>): Node {
    var k := VariantFor(n.params, pattern);
    if k < 0 || n.params[k].skip.None? then EMPTY else n.params[k].skip.value
  }

  /** No param of the pattern meets another name on its way down. */
  predicate Free(n: Node, p: seq<Segment>)
    decreases |p|
  {
    p == [] ||
    match p[0]
    case Static(v) => Free(KidOrEmpty(n, Key(v)), p[1..])
    case Wildcard => Free(KidOrEmpty(n, Tail), p[1..])
    case Param(name, pattern, optional) =>
      && (n.params == [] || n.params[0].name == name)
      && Free(ConsumeKid(n, pattern), p[1..])
      && (optional ==> Free(SkipKid(n, pattern), p[1..]))
  }

  lemma {:induction false} EmptyIsFree(p: seq<Segment>)
    ensures Free(EMPTY, p)
  {
    if p != [] {
      EmptyIsFree(p[1..]);
      assert KidOrEmpty(EMPTY, Tail) == EMPTY && forall v :: KidOrEmpty(EMPTY, Key(v)) == EMPTY;
      assert forall pattern :: ConsumeKid(EMPTY, pattern) == EMPTY && SkipKid(EMPTY, pattern) == EMPTY;
    }
  }

  /** The node of a param insertion on its way: the variant is open, and then has its consumed subtree. */
  lemma Opened(n: Node, name: string, pattern: Option<string>)
    ensures var wider, k := OpenVariant(n, name, pattern), VariantFor(OpenVariant(n, name, pattern).params, pattern);
            && 0 <= k < |wider.params| && wider.children == n.children && wider.wild == n.wild
            && KidOrEmpty(wider, Take(k)) == ConsumeKid(n, pattern) && KidOrEmpty(wider, Skip(k)) == SkipKid(n, pattern)
            && wider.params != [] && (wider.params[0].name == if n.params == [] then name else n.params[0].name)
            && forall other :: ConsumeKid(wider, other) == ConsumeKid(n, other) && SkipKid(wider, other) == SkipKid(n, other)
  {
    var extra := Variant(name, pattern, EMPTY, None);
    forall other ensures VariantFor(n.params + [extra], other)
        == if VariantFor(n.params, other) >= 0 then VariantFor(n.params, other) else if extra.pattern == other then |n.params| else -1
    {
      VariantForAppend(n.params, extra, other);
    }
  }

  /** Replacing one subtree of a variant leaves the names and every other subtree. */
  lemma Replaced(n: Node, e: Edge, kid: Node, pattern: Option<string>)
    requires (e.Take? || e.Skip?) && e.variant < |n.params| && VariantFor(n.params, pattern) == e.variant
    ensures var m := SetKid(n, e, kid);
            && m.children == n.children && m.wild == n.wild && |m.params| == |n.params| && m.params[0].name == n.params[0].name
            && VariantFor(m.params, pattern) == e.variant
            && ConsumeKid(m, pattern) == (if e.Take? then kid else ConsumeKid(n, pattern))
            && SkipKid(m, pattern) == (if e.Skip? then kid else SkipKid(n, pattern))
            && forall other | other != pattern :: ConsumeKid(m, other) == ConsumeKid(n, other) && SkipKid(m, other) == SkipKid(n, other)
  {
    var m := SetKid(n, e, kid);
    forall other ensures VariantFor(m.params, other) == VariantFor(n.params, other) { SameVariants(m.params, n.params, other); }
  }

  lemma {:induction false} SameVariants(a: seq<Variant>, b: seq<Variant>, pattern: Option<string>)
    requires |a| == |b| && forall i | 0 <= i < |a| :: a[i].pattern == b[i].pattern
    ensures VariantFor(a, pattern) == VariantFor(b, pattern)
  {
    if a != [] { SameVariants(a[1..], b[1..], pattern); }
  }

  /** What a pattern's first segment, a param, does to the node it is inserted at. */
  lemma ParamInserted(n: Node, r: seq<Segment>, names: seq<string>)
    requires r != [] && r[0].Param? && (n.params == [] || n.params[0].name == r[0].name)
    ensures var name, pattern, optional, m := r[0].name, r[0].pattern, r[0].optional, Insert(n, r, names);
            var consumed, skipped := Insert(ConsumeKid(n, pattern), r[1..], names + [name]), Insert(SkipKid(n, pattern), r[1..], names);
            && m.ok == (consumed.ok && (optional ==> skipped.ok))
            && (m.ok ==>
                 && m.node.children == n.children && m.node.wild == n.wild
                 && m.node.params != [] && m.node.params[0].name == name
                 && ConsumeKid(m.node, pattern) == consumed.node
                 && SkipKid(m.node, pattern) == (if optional then skipped.node else SkipKid(n, pattern))
                 && forall other | other != pattern :: ConsumeKid(m.node, other) == ConsumeKid(n, other) && SkipKid(m.node, other) == SkipKid(n, other))
  {
    hide ConsumeKid, SkipKid, SetKid, OpenVariant;
    var name, pattern, optional := r[0].name, r[0].pattern, r[0].optional;
    Opened(n, name, pattern);
    var wider := OpenVariant(n, name, pattern);
    var k := VariantFor(wider.params, pattern);
    var consumed := Descend(wider, Take(k), r[1..], names + [name]);
    var below := Insert(KidOrEmpty(wider, Take(k)), r[1..], names + [name]);
    Replaced(wider, Take(k), below.node, pattern);
    KidSetKid(wider, Take(k), below.node, Skip(k));
    if optional {
      var skipped := Insert(KidOrEmpty(consumed.node, Skip(k)), r[1..], names);
      Replaced(consumed.node, Skip(k), skipped.node, pattern);
    }
  }

  /** An insertion succeeds exactly where the pattern is free. */
  lemma {:induction false} InsertsExactly(n: Node, p: seq<Segment>, names: seq<string>)
    ensures Insert(n, p, names).ok <==> Free(n, p)
    decreases |p|
  {
    if p != [] {
      match p[0]
      case Static(v) => InsertsExactly(KidOrEmpty(n, Key(v)), p[1..], names);
      case Wildcard => InsertsExactly(KidOrEmpty(n, Tail), p[1..], names + [WILDCARD_NAME]);
      case Param(name, pattern, optional) =>
        if n.params == [] || n.params[0].name == name {
          ParamInserted(n, p, names);
          InsertsExactly(ConsumeKid(n, pattern), p[1..], names + [name]);
          InsertsExactly(SkipKid(n, pattern), p[1..], names);
        }
    }
  }

  /** What a pattern's first segment, a literal or the wildcard, does to the node it is inserted at. */
  lemma EdgeInserted(n: Node, e: Edge, r: seq<Segment>, names: seq<string>)
    requires e.Key? || e == Tail
    ensures var m := Descend(n, e, r, names).node;
            && m.params == n.params
            && KidOrEmpty(m, e) == Insert(KidOrEmpty(n, e), r, names).node
            && forall other: Edge | other != e && (other.Key? || other == Tail) :: KidOrEmpty(m, other) == KidOrEmpty(n, other)
  {
    var below := Insert(KidOrEmpty(n, e), r, names);
    forall other: Edge ensures Kid(SetKid(n, e, below.node), other) == if other == e then Some(below.node) else Kid(n, other) {
      KidSetKid(n, e, below.node, other);
    }
  }

  /** A pattern is free after another was inserted exactly if it was before and does not clash with it. */
  lemma {:induction false} FreeAfter(n: Node, r: seq<Segment>, names: seq<string>, p: seq<Segment>)
    requires Insert(n, r, names).ok
    ensures Free(Insert(n, r, names).node, p) <==> Free(n, p) && !Clash(r, p)
    decreases |p|
  {
    hide Clash, Insert;
    ClashStep(r, p);
    if r == [] {
      NamedFree(n, names, p);
    } else if p != [] {
      if r[0].Param? { ParamAfter(n, r, names, p); } else { EdgeAfter(n, r, names, p); }
    }
  }

  lemma NamedFree(n: Node, names: seq<string>, p: seq<Segment>)
    ensures Free(Insert(n, [], names).node, p) <==> Free(n, p)
  {
  }

  lemma {:induction false} EdgeAfter(n: Node, r: seq<Segment>, names: seq<string>, p: seq<Segment>)
    requires Insert(n, r, names).ok && r != [] && p != [] && !r[0].Param?
    ensures Free(Insert(n, r, names).node, p) <==> Free(n, p) && !(SharesEdge(r[0], p[0]) && Clash(r[1..], p[1..]))
    decreases |p|, 0
  {
    hide Clash;
    var e := if r[0].Static? then Key(r[0].value) else Tail;
    var wider := if r[0].Static? then names else names + [WILDCARD_NAME];
    EdgeInserted(n, e, r[1..], wider);
    assert Insert(n, r, names) == Descend(n, e, r[1..], wider);
    if SharesEdge(r[0], p[0]) { FreeAfter(KidOrEmpty(n, e), r[1..], wider, p[1..]); }
    hide Insert, Descend;
    if p[0].Static? { assert SharesEdge(r[0], p[0]) || Key(p[0].value) != e; }
  }

  lemma {:induction false} ParamAfter(n: Node, r: seq<Segment>, names: seq<string>, p: seq<Segment>)
    requires Insert(n, r, names).ok && r != [] && p != [] && r[0].Param?
    ensures Free(Insert(n, r, names).node, p)
       <==> && Free(n, p)
            && !((p[0].Param? && r[0].name != p[0].name) || (SharesEdge(r[0], p[0]) && Clash(r[1..], p[1..])))
    decreases |p|, 0
  {
    hide Clash, ConsumeKid, SkipKid;
    InsertsExactly(n, r, names);
    ParamInserted(n, r, names);
    var m := Insert(n, r, names).node;
    var name, pattern, optional := r[0].name, r[0].pattern, r[0].optional;
    var below, beside := Insert(ConsumeKid(n, pattern), r[1..], names + [name]), Insert(SkipKid(n, pattern), r[1..], names);
    hide Insert;
    if SharesEdge(r[0], p[0]) {
      FreeAfter(ConsumeKid(n, pattern), r[1..], names + [name], p[1..]);
      if optional { FreeAfter(SkipKid(n, pattern), r[1..], names, p[1..]); }
    }
  }

  // ---------------------------------------------------------------- over registrations

  /** Targets do not matter. */
  lemma {:induction false} FreeSameShape(a: Node, b: Node, p: seq<Segment>)
    requires forall v :: SameShape(a, b, v)
    ensures Free(a, p) <==> Free(b, p)
    decreases |p|, 0
  {
    if p != [] {
      assert SameShape(a, b, []);
      assert |Labels(a)| == |a.params| && |Labels(b)| == |b.params|;
      forall i | 0 <= i < |a.params| ensures a.params[i].pattern == b.params[i].pattern && a.params[i].name == b.params[i].name {
        assert Labels(a)[i] == Labels(b)[i];
      }
      match p[0]
      case Static(v) => FreeBelow(a, b, Key(v), p[1..]);
      case Wildcard => FreeBelow(a, b, Tail, p[1..]);
      case Param(_, pattern, _) =>
        SameVariants(a.params, b.params, pattern);
        var k := VariantFor(a.params, pattern);
        if k >= 0 {
          FreeBelow(a, b, Take(k), p[1..]);
          FreeBelow(a, b, Skip(k), p[1..]);
        }
    }
  }

  lemma {:induction false} FreeBelow(a: Node, b: Node, e: Edge, p: seq<Segment>)
    requires forall v :: SameShape(a, b, v)
    ensures Free(KidOrEmpty(a, e), p) <==> Free(KidOrEmpty(b, e), p)
    decreases |p|, 1
  {
    assert SameShape(a, b, [e]) && At(a, [e]) == Kid(a, e) && At(b, [e]) == Kid(b, e);
    if Kid(a, e).Some? {
      SameShapeKid(a, b, e);
      FreeSameShape(Kid(a, e).value, Kid(b, e).value, p);
    }
  }

  lemma BoundFree(n: Node, words: seq<Word>, p: seq<Segment>)
    requires forall w | w in words :: At(n, w).Some?
    ensures Free(BindAll(n, words), p) <==> Free(n, p)
  {
    forall v ensures SameShape(n, BindAll(n, words), v) { BindAllAt(n, words, v); }
    FreeSameShape(n, BindAll(n, words), p);
  }

  /** The trie of a list takes a pattern exactly if no pattern of the list clashes with it. */
  lemma {:induction false} RegistersExactly(ps: seq<seq<Segment>>, n: Node, p: seq<Segment>)
    requires Build(ps) == Some(n)
    ensures Register(n, p).Some? <==> forall r | r in ps :: !Clash(r, p)
    ensures Free(n, p) <==> forall r | r in ps :: !Clash(r, p)
  {
    hide Clash, Free;
    InsertsExactly(n, p, []);
    if ps == [] {
      EmptyIsFree(p);
    } else {
      var init, last := ps[..|ps| - 1], ps[|ps| - 1];
      assert ps == init + [last];
      var before := Build(init).value;
      RegistersExactly(init, before, p);
      FreeAfter(before, last, [], p);
      TerminalsExist(before, last);
      BoundFree(Insert(before, last, []).node, Insert(before, last, []).terminals, p);
    }
  }

  /** A list builds a trie exactly if no two of its patterns clash. */
  lemma {:induction false} BuildsExactly(ps: seq<seq<Segment>>)
    ensures Build(ps).Some? <==> forall i, j | 0 <= i < j < |ps| :: !Clash(ps[i], ps[j])
  {
    hide Clash;
    if ps != [] {
      var init, last := ps[..|ps| - 1], ps[|ps| - 1];
      BuildsExactly(init);
      if Build(init).Some? { RegistersExactly(init, Build(init).value, last); }
      assert forall i | 0 <= i < |init| :: ps[i] in init;
    }
  }
}
