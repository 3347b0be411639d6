/** Insertion of compiled patterns, and what it does to the words of the trie. */
module TrieInsert {
  import opened Wrappers
  import opened Patterns
  import opened Trie

  function SetChild(children: seq<Child>, key: string, node: Node): seq<Child> {
    if children == [] then [Child(key, node)]
    else if children[0].key == key then [Child(key, node)] + children[1..]
    else [children[0]] + SetChild(children[1..], key, node)
  }

  predicate HasSlot(n: Node, e: Edge) {
    (e.Take? || e.Skip?) ==> e.variant < |n.params|
  }

  function SetKid(n: Node, e: Edge, kid: Node): Node
    requires HasSlot(n, e)
  {
    match e
    case Key(key) => n.(children := SetChild(n.children, key, kid))
    case Take(i) => n.(params := n.params[i := n.params[i].(node := kid)])
    case Skip(i) => n.(params := n.params[i := n.params[i].(skip := Some(kid))])
    case Tail => n.(wild := Some(kid))
  }

  function KidOrEmpty(n: Node, e: Edge): Node {
    if Kid(n, e).Some? then Kid(n, e).value else EMPTY
  }

  /** The first variant with this matcher identity, or -1. */
  function VariantFor(params: seq<Variant>, pattern: Option<string>): (i: int)
    ensures -1 <= i < |params|
    ensures i >= 0 ==> params[i].pattern == pattern
  {
    if params == [] then -1
    else if params[0].pattern == pattern then 0
    else
      var i := VariantFor(params[1..], pattern);
      if i < 0 then -1 else i + 1
  }

  /** The trie after an insertion, whether it completed, and the terminals it reached. */
  datatype Insertion = Insertion(node: Node, ok: bool, terminals: seq<Word>)

  function Under(e: Edge, words: seq<Word>): (r: seq<Word>)
    ensures |r| == |words|
    ensures forall i | 0 <= i < |words| :: r[i] == [e] + words[i]
  {
    seq(|words|, i requires 0 <= i < |words| => [e] + words[i])
  }

  function Insert(n: Node, p: seq<Segment>, names: seq<string>): Insertion
    decreases |p|, 0
  {
    if p == [] then
      Insertion(n.(names := if n.names.None? then Some(names) else n.names), true, [[]])
    else
      match p[0]
      case Static(v) => Descend(n, Key(v), p[1..], names)
      case Wildcard => Descend(n, Tail, p[1..], names + [WILDCARD_NAME])
      case Param(name, pattern, optional) =>
        if n.params != [] && n.params[0].name != name then Insertion(n, false, [])
        else
          var wider := OpenVariant(n, name, pattern);
          var k := VariantFor(wider.params, pattern);
          var consumed := Descend(wider, Take(k), p[1..], names + [name]);
          if !consumed.ok || !optional then consumed
          else
            var skipped := Descend(consumed.node, Skip(k), p[1..], names);
            Insertion(skipped.node, skipped.ok, consumed.terminals + skipped.terminals)
  }

  /** Insert the rest of a pattern below one edge, creating the node there if needed. */
  function Descend(n: Node, e: Edge, p: seq<Segment>, names: seq<string>): (r: Insertion)
    requires HasSlot(n, e)
    ensures Labels(r.node) == Labels(n)
    decreases |p|, 1
  {
    var below := Insert(KidOrEmpty(n, e), p, names);
    Insertion(SetKid(n, e, below.node), below.ok, Under(e, below.terminals))
  }

  function OpenVariant(n: Node, name: string, pattern: Option<string>): (r: Node)
    ensures VariantFor(r.params, pattern) >= 0
  {
    if VariantFor(n.params, pattern) >= 0 then n
    else
      VariantForAppend(n.params, Variant(name, pattern, EMPTY, None), pattern);
      n.(params := n.params + [Variant(name, pattern, EMPTY, None)])
  }

  lemma {:induction false} VariantForAppend(params: seq<Variant>, extra: Variant, pattern: Option<string>)
    ensures VariantFor(params + [extra], pattern)
         == if VariantFor(params, pattern) >= 0 then VariantFor(params, pattern)
            else if extra.pattern == pattern then |params| else -1
  {
    if params != [] {
      VariantForAppend(params[1..], extra, pattern);
      assert (params + [extra])[1..] == params[1..] + [extra];
    }
  }

  /** Name and constraint of each variant: what an edge's label depends on. */
  function Labels(n: Node): seq<(string, Option<string>)> {
    seq(|n.params|, i requires 0 <= i < |n.params| => (n.params[i].name, n.params[i].pattern))
  }

  lemma {:induction false} VariantForByLabels(a: seq<Variant>, b: seq<Variant>, pattern: Option<string>)
    requires |a| <= |b|
    requires forall i | 0 <= i < |a| :: a[i].pattern == b[i].pattern
    requires VariantFor(a, pattern) >= 0
    ensures VariantFor(b, pattern) == VariantFor(a, pattern)
  {
    if a[0].pattern != pattern {
      VariantForByLabels(a[1..], b[1..], pattern);
    }
  }

  lemma {:induction false} LookupSetChild(children: seq<Child>, key: string, node: Node, other: string)
    ensures Lookup(SetChild(children, key, node), other) == if other == key then Some(node) else Lookup(children, other)
  {
    if children != [] && children[0].key != key {
      LookupSetChild(children[1..], key, node, other);
    }
  }

  lemma KidSetKid(n: Node, e: Edge, kid: Node, other: Edge)
    requires HasSlot(n, e)
    ensures Kid(SetKid(n, e, kid), other) == if other == e then Some(kid) else Kid(n, other)
  {
    if e.Key? && other.Key? {
      LookupSetChild(n.children, e.key, kid, other.key);
    }
  }

  // ---------------------------------------------------------------- words and patterns

  /** A word spells a pattern: each segment through its own edge, an optional one possibly skipped. */
  predicate Spells(n: Node, w: Word, p: seq<Segment>)
    decreases |p|
  {
    if p == [] then w == []
    else
      w != [] && Kid(n, w[0]).Some? && EdgeFor(n, w[0], p[0]) && Spells(Kid(n, w[0]).value, w[1..], p[1..])
  }

  /** Every skip and consume choice of the pattern has its nodes. */
  predicate Held(n: Node, p: seq<Segment>)
    decreases |p|
  {
    p == [] ||
    match p[0]
    case Static(v) => Kid(n, Key(v)).Some? && Held(Kid(n, Key(v)).value, p[1..])
    case Wildcard => n.wild.Some? && Held(n.wild.value, p[1..])
    case Param(name, pattern, optional) =>
      var k := VariantFor(n.params, pattern);
      && k >= 0 && n.params[k].name == name && Held(n.params[k].node, p[1..])
      && (optional ==> n.params[k].skip.Some? && Held(n.params[k].skip.value, p[1..]))
  }

  predicate EdgeFor(n: Node, e: Edge, s: Segment) {
    match s
    case Static(v) => e == Key(v)
    case Wildcard => e == Tail
    case Param(name, pattern, optional) =>
      var k := VariantFor(n.params, pattern);
      k >= 0 && n.params[k].name == name && (e == Take(k) || (optional && e == Skip(k)))
  }

  function TargetAt(n: Node, w: Word): Option<Ref> {
    if At(n, w).Some? then At(n, w).value.target else None
  }

  function NamesAt(n: Node, w: Word): Option<seq<string>> {
    if At(n, w).Some? then At(n, w).value.names else None
  }

  /** The name an edge captures, if it captures one. */
  function EdgeNames(n: Node, e: Edge): seq<string>
    requires Kid(n, e).Some?
  {
    match e
    case Take(i) => [n.params[i].name]
    case Tail => [WILDCARD_NAME]
    case _ => []
  }

  /** The names captured along a word. */
  function NamesAlong(n: Node, w: Word): seq<string>
    requires At(n, w).Some?
    decreases |w|
  {
    if w == [] then [] else EdgeNames(n, w[0]) + NamesAlong(Kid(n, w[0]).value, w[1..])
  }

  /** Everything reachable before is reachable after, with the same labels, targets and names. */
  ghost predicate Grown(a: Node, b: Node) {
    && LabelsGrown(a, b)
    && b.target == a.target
    && (a.names.Some? ==> b.names == a.names)
  }

  ghost predicate LabelsGrown(a: Node, b: Node) {
    && |a.params| <= |b.params|
    && forall i | 0 <= i < |a.params| :: a.params[i].name == b.params[i].name && a.params[i].pattern == b.params[i].pattern
  }

  ghost predicate Preserved(a: Node, b: Node, w: Word) {
    && (At(a, w).Some? ==> At(b, w).Some? && Grown(At(a, w).value, At(b, w).value))
    && (At(a, w).None? && At(b, w).Some? ==> At(b, w).value.target == None)
  }

  lemma PreservedTransitive(a: Node, b: Node, c: Node, w: Word)
    requires Preserved(a, b, w) && Preserved(b, c, w)
    ensures Preserved(a, c, w)
  {
  }

  lemma EmptyHasNothing(w: Word)
    requires w != []
    ensures At(EMPTY, w) == None
  {
  }

  /** An insertion, even one that throws part-way, keeps every word and gives no node a target. */
  lemma {:induction false} InsertPreserves(n: Node, p: seq<Segment>, names: seq<string>, w: Word)
    ensures Preserved(n, Insert(n, p, names).node, w)
    decreases |p|, 0
  {
    if p != [] {
      match p[0]
      case Static(v) => DescendPreserves(n, Key(v), p[1..], names, w);
      case Wildcard => DescendPreserves(n, Tail, p[1..], names + [WILDCARD_NAME], w);
      case Param(name, pattern, optional) =>
        if !(n.params != [] && n.params[0].name != name) {
          var wider := OpenVariant(n, name, pattern);
          var k := VariantFor(wider.params, pattern);
          OpenVariantPreserves(n, name, pattern, w);
          DescendPreserves(wider, Take(k), p[1..], names + [name], w);
          var consumed := Descend(wider, Take(k), p[1..], names + [name]);
          PreservedTransitive(n, wider, consumed.node, w);
          if consumed.ok && optional {
            DescendPreserves(consumed.node, Skip(k), p[1..], names, w);
            PreservedTransitive(n, consumed.node, Descend(consumed.node, Skip(k), p[1..], names).node, w);
          }
        }
    }
  }

  lemma {:induction false} DescendPreserves(n: Node, e: Edge, p: seq<Segment>, names: seq<string>, w: Word)
    requires HasSlot(n, e)
    ensures Preserved(n, Descend(n, e, p, names).node, w)
    decreases |p|, 1
  {
    var below := Insert(KidOrEmpty(n, e), p, names).node;
    if w != [] {
      KidSetKid(n, e, below, w[0]);
      if w[0] == e {
        InsertPreserves(KidOrEmpty(n, e), p, names, w[1..]);
      }
    }
  }

  lemma OpenVariantPreserves(n: Node, name: string, pattern: Option<string>, w: Word)
    ensures Preserved(n, OpenVariant(n, name, pattern), w)
  {
    var wider := OpenVariant(n, name, pattern);
    if w != [] && wider != n {
      if w[0] == Take(|n.params|) {
        if w[1..] != [] { EmptyHasNothing(w[1..]); }
      } else {
        assert Kid(wider, w[0]) == Kid(n, w[0]);
      }
    }
  }

  /** Spelling depends on labels only, so it survives growth. */
  lemma {:induction false} SpellsPreserved(a: Node, b: Node, w: Word, p: seq<Segment>)
    requires Spells(a, w, p)
    requires forall v :: Preserved(a, b, v)
    ensures Spells(b, w, p)
    decreases |p|
  {
    assert Preserved(a, b, []);
    if p != [] {
      if p[0].Param? { VariantForByLabels(a.params, b.params, p[0].pattern); }
      assert At(a, [w[0]]) == Some(Kid(a, w[0]).value);
      assert Preserved(a, b, [w[0]]);
      var ka, kb := Kid(a, w[0]).value, Kid(b, w[0]).value;
      forall v ensures Preserved(ka, kb, v) {
        assert ([w[0]] + v)[1..] == v;
        assert Preserved(a, b, [w[0]] + v);
      }
      SpellsPreserved(ka, kb, w[1..], p[1..]);
    }
  }
}
