/**
 The trie as an index of the registered patterns: what holds after any run of
 insertions, and what the search therefore answers.
 */
module TrieIndex {
  import opened Wrappers
  import opened Patterns
  import opened Trie
  import opened TrieInsert

  // ---------------------------------------------------------------- names at one position agree

  predicate SameNames(n: Node) {
    forall i | 0 <= i < |n.params| :: n.params[i].name == n.params[0].name
  }

  ghost predicate Uniform(n: Node) {
    forall w :: UniformAt(n, w)
  }

  ghost predicate UniformAt(n: Node, w: Word) {
    At(n, w).Some? ==> SameNames(At(n, w).value)
  }

  lemma UniformKid(n: Node, e: Edge)
    requires Uniform(n)
    ensures Uniform(KidOrEmpty(n, e))
  {
    forall w ensures UniformAt(KidOrEmpty(n, e), w) {
      if Kid(n, e).Some? {
        assert ([e] + w)[1..] == w;
        assert UniformAt(n, [e] + w);
      } else if w != [] {
        EmptyHasNothing(w);
      }
    }
  }

  lemma {:induction false} InsertUniform(n: Node, p: seq<Segment>, names: seq<string>)
    requires Uniform(n)
    ensures Uniform(Insert(n, p, names).node)
    decreases |p|, 0
  {
    assert UniformAt(n, []);
    if p == [] {
      var r := Insert(n, p, names).node;
      forall w ensures UniformAt(r, w) {
        assert UniformAt(n, w);
        assert w != [] ==> Kid(r, w[0]) == Kid(n, w[0]);
      }
    } else {
      match p[0]
      case Static(v) => DescendUniform(n, Key(v), p[1..], names);
      case Wildcard => DescendUniform(n, Tail, p[1..], names + [WILDCARD_NAME]);
      case Param(name, pattern, optional) =>
        if !(n.params != [] && n.params[0].name != name) {
          OpenVariantUniform(n, name, pattern);
          var wider := OpenVariant(n, name, pattern);
          var k := VariantFor(wider.params, pattern);
          DescendUniform(wider, Take(k), p[1..], names + [name]);
          var consumed := Descend(wider, Take(k), p[1..], names + [name]);
          if consumed.ok && optional {
            DescendUniform(consumed.node, Skip(k), p[1..], names);
          }
        }
    }
  }

  lemma OpenVariantUniform(n: Node, name: string, pattern: Option<string>)
    requires Uniform(n)
    requires n.params != [] ==> n.params[0].name == name
    ensures Uniform(OpenVariant(n, name, pattern))
  {
    var wider := OpenVariant(n, name, pattern);
    assert UniformAt(n, []);
    forall w ensures UniformAt(wider, w) {
      assert UniformAt(n, w);
      if w != [] && wider != n {
        if w[0] == Take(|n.params|) {
          if w[1..] != [] { EmptyHasNothing(w[1..]); }
        } else {
          assert Kid(wider, w[0]) == Kid(n, w[0]);
        }
      }
    }
  }

  lemma {:induction false} DescendUniform(n: Node, e: Edge, p: seq<Segment>, names: seq<string>)
    requires HasSlot(n, e) && Uniform(n)
    ensures Uniform(Descend(n, e, p, names).node)
    decreases |p|, 1
  {
    UniformKid(n, e);
    InsertUniform(KidOrEmpty(n, e), p, names);
    var below := Insert(KidOrEmpty(n, e), p, names).node;
    var r := Descend(n, e, p, names).node;
    assert UniformAt(n, []);
    forall w ensures UniformAt(r, w) {
      assert UniformAt(n, w);
      if w == [] {
        assert Labels(r) == Labels(n);
        forall i | 0 <= i < |r.params| ensures r.params[i].name == n.params[i].name {
          assert Labels(r)[i] == Labels(n)[i];
        }
      } else {
        KidSetKid(n, e, below, w[0]);
        assert w[0] == e ==> UniformAt(below, w[1..]);
      }
    }
  }

  // ---------------------------------------------------------------- an insertion's terminals exist and are named

  lemma {:induction false} InsertReaches(n: Node, p: seq<Segment>, names: seq<string>, w: Word)
    requires w in Insert(n, p, names).terminals
    ensures NamesAt(Insert(n, p, names).node, w).Some?
    decreases |p|, 0
  {
    if p != [] {
      match p[0]
      case Static(v) => DescendReaches(n, Key(v), p[1..], names, w);
      case Wildcard => DescendReaches(n, Tail, p[1..], names + [WILDCARD_NAME], w);
      case Param(name, pattern, optional) =>
        var wider := OpenVariant(n, name, pattern);
        var k := VariantFor(wider.params, pattern);
        var consumed := Descend(wider, Take(k), p[1..], names + [name]);
        if w in consumed.terminals {
          DescendReaches(wider, Take(k), p[1..], names + [name], w);
          if consumed.ok && optional {
            DescendPreserves(consumed.node, Skip(k), p[1..], names, w);
          }
        } else {
          DescendReaches(consumed.node, Skip(k), p[1..], names, w);
        }
    }
  }

  lemma {:induction false} DescendReaches(n: Node, e: Edge, p: seq<Segment>, names: seq<string>, w: Word)
    requires HasSlot(n, e) && w in Descend(n, e, p, names).terminals
    ensures NamesAt(Descend(n, e, p, names).node, w).Some?
    decreases |p|, 1
  {
    var below := Insert(KidOrEmpty(n, e), p, names);
    UnderIn(e, below.terminals, w);
    KidSetKid(n, e, below.node, e);
    InsertReaches(KidOrEmpty(n, e), p, names, w[1..]);
  }

  // ---------------------------------------------------------------- an insertion reaches exactly the words it spells

  lemma {:induction false} InsertTerminals(n: Node, p: seq<Segment>, names: seq<string>, w: Word)
    requires Uniform(n) && Insert(n, p, names).ok
    ensures w in Insert(n, p, names).terminals <==> Spells(Insert(n, p, names).node, w, p)
    ensures Held(Insert(n, p, names).node, p)
    decreases |p|, 2
  {
    assert UniformAt(n, []);
    if p == [] {
    } else {
      match p[0]
      case Static(v) => DescendTerminals(n, Key(v), p[1..], names, w);
      case Wildcard => DescendTerminals(n, Tail, p[1..], names + [WILDCARD_NAME], w);
      case Param(name, pattern, optional) => InsertParamTerminals(n, p, names, w);
    }
  }

  lemma {:induction false} InsertParamTerminals(n: Node, p: seq<Segment>, names: seq<string>, w: Word)
    requires Uniform(n) && p != [] && p[0].Param? && Insert(n, p, names).ok
    ensures w in Insert(n, p, names).terminals <==> Spells(Insert(n, p, names).node, w, p)
    ensures Held(Insert(n, p, names).node, p)
    decreases |p|, 1
  {
    var name, pattern, optional := p[0].name, p[0].pattern, p[0].optional;
    var wider := OpenVariant(n, name, pattern);
    var k := VariantFor(wider.params, pattern);
    OpenVariantUniform(n, name, pattern);
    assert UniformAt(wider, []);
    DescendUniform(wider, Take(k), p[1..], names + [name]);
    DescendTerminals(wider, Take(k), p[1..], names + [name], w);
    var consumed := Descend(wider, Take(k), p[1..], names + [name]);
    VariantForLabels(wider, consumed.node, pattern);
    if optional {
      DescendTerminals(consumed.node, Skip(k), p[1..], names, w);
      var skipped := Descend(consumed.node, Skip(k), p[1..], names);
      VariantForLabels(consumed.node, skipped.node, pattern);
      KidSetKid(consumed.node, Skip(k), Kid(skipped.node, Skip(k)).value, Take(k));
    }
  }

  lemma VariantForLabels(a: Node, b: Node, pattern: Option<string>)
    requires Labels(a) == Labels(b) && VariantFor(a.params, pattern) >= 0
    ensures VariantFor(b.params, pattern) == VariantFor(a.params, pattern)
    ensures b.params[VariantFor(a.params, pattern)].name == a.params[VariantFor(a.params, pattern)].name
  {
    assert |Labels(a)| == |a.params| == |b.params|;
    forall i | 0 <= i < |a.params|
      ensures a.params[i].pattern == b.params[i].pattern && a.params[i].name == b.params[i].name
    {
      assert Labels(a)[i] == Labels(b)[i];
    }
    VariantForByLabels(a.params, b.params, pattern);
  }

  lemma UnderIn(e: Edge, words: seq<Word>, w: Word)
    ensures w in Under(e, words) <==> w != [] && w[0] == e && w[1..] in words
  {
    if w in Under(e, words) {
      var i :| 0 <= i < |words| && Under(e, words)[i] == w;
      assert w[1..] == words[i];
    }
    if w != [] && w[0] == e && w[1..] in words {
      var i :| 0 <= i < |words| && words[i] == w[1..];
      assert Under(e, words)[i] == w;
    }
  }

  lemma {:induction false} DescendTerminals(n: Node, e: Edge, p: seq<Segment>, names: seq<string>, w: Word)
    requires HasSlot(n, e) && Uniform(n) && Descend(n, e, p, names).ok
    ensures Kid(Descend(n, e, p, names).node, e).Some?
    ensures w in Descend(n, e, p, names).terminals
       <==> w != [] && w[0] == e && Spells(Kid(Descend(n, e, p, names).node, e).value, w[1..], p)
    ensures Held(Kid(Descend(n, e, p, names).node, e).value, p)
    decreases |p|, 3
  {
    var below := Insert(KidOrEmpty(n, e), p, names);
    KidSetKid(n, e, below.node, e);
    UnderIn(e, below.terminals, w);
    UniformKid(n, e);
    InsertTerminals(KidOrEmpty(n, e), p, names, if w != [] then w[1..] else []);
  }

  /** A pattern the trie holds leaves no conflict for its own prefix. */
  lemma {:induction false} HeldPrefixInserts(n: Node, p: seq<Segment>, extra: seq<Segment>, names: seq<string>)
    requires Uniform(n) && Held(n, p + extra)
    ensures Insert(n, p, names).ok
    decreases |p|, 0
  {
    if p != [] {
      var whole := p + extra;
      assert whole[0] == p[0] && whole[1..] == p[1..] + extra;
      assert UniformAt(n, []);
      match p[0]
      case Static(v) => HeldPrefixBelow(n, Key(v), p[1..], extra, names);
      case Wildcard => HeldPrefixBelow(n, Tail, p[1..], extra, names + [WILDCARD_NAME]);
      case Param(name, pattern, optional) =>
        var k := VariantFor(n.params, pattern);
        HeldPrefixBelow(n, Take(k), p[1..], extra, names + [name]);
        if optional {
          var consumed := Descend(n, Take(k), p[1..], names + [name]);
          KidSetKid(n, Take(k), Kid(consumed.node, Take(k)).value, Skip(k));
          HeldPrefixBelow(n, Skip(k), p[1..], extra, names);
        }
    }
  }

  lemma {:induction false} HeldPrefixBelow(n: Node, e: Edge, p: seq<Segment>, extra: seq<Segment>, names: seq<string>)
    requires Uniform(n) && HasSlot(n, e) && Kid(n, e).Some? && Held(Kid(n, e).value, p + extra)
    ensures Insert(KidOrEmpty(n, e), p, names).ok && Descend(n, e, p, names).ok
    ensures Kid(Descend(n, e, p, names).node, e).Some?
    decreases |p|, 1
  {
    UniformKid(n, e);
    HeldPrefixInserts(KidOrEmpty(n, e), p, extra, names);
    KidSetKid(n, e, Insert(KidOrEmpty(n, e), p, names).node, e);
  }

  // ---------------------------------------------------------------- targets

  /** Give the node a word leads to a target, unless it has one. */
  function Bind(n: Node, w: Word, ref: Ref): Node
    requires At(n, w).Some?
    decreases |w|
  {
    if w == [] then n.(target := if n.target.None? then Some(ref) else n.target)
    else SetKid(n, w[0], Bind(Kid(n, w[0]).value, w[1..], ref))
  }

  ghost predicate SameShape(a: Node, b: Node, v: Word) {
    && (At(a, v).Some? <==> At(b, v).Some?)
    && (At(a, v).Some? ==> Labels(At(a, v).value) == Labels(At(b, v).value) && At(a, v).value.names == At(b, v).value.names)
  }

  lemma {:induction false} BindAt(n: Node, w: Word, ref: Ref, v: Word)
    requires At(n, w).Some?
    ensures SameShape(n, Bind(n, w, ref), v)
    ensures TargetAt(Bind(n, w, ref), v) == if v == w && TargetAt(n, w).None? then Some(ref) else TargetAt(n, v)
    decreases |w|
  {
    if w != [] {
      var below := Bind(Kid(n, w[0]).value, w[1..], ref);
      if v != [] {
        KidSetKid(n, w[0], below, v[0]);
        if v[0] == w[0] {
          BindAt(Kid(n, w[0]).value, w[1..], ref, v[1..]);
          assert v == w <==> v[1..] == w[1..];
        }
      }
    } else if v != [] {
      assert Kid(Bind(n, w, ref), v[0]) == Kid(n, v[0]);
    }
  }

  /** Every terminal of a pattern gets its own target. */
  function BindAll(n: Node, words: seq<Word>): Node
    requires forall w | w in words :: At(n, w).Some?
    decreases |words|
  {
    if words == [] then n
    else
      BindAllShape(n, words[0], words[1..]);
      BindAll(Bind(n, words[0], TrieRef(words[0])), words[1..])
  }

  lemma BindAllShape(n: Node, w: Word, words: seq<Word>)
    requires At(n, w).Some? && forall v | v in words :: At(n, v).Some?
    ensures forall v | v in words :: At(Bind(n, w, TrieRef(w)), v).Some?
  {
    forall v | v in words ensures At(Bind(n, w, TrieRef(w)), v).Some? {
      BindAt(n, w, TrieRef(w), v);
    }
  }

  lemma {:induction false} BindAllAt(n: Node, words: seq<Word>, v: Word)
    requires forall w | w in words :: At(n, w).Some?
    ensures SameShape(n, BindAll(n, words), v)
    ensures TargetAt(BindAll(n, words), v)
         == if v in words && TargetAt(n, v).None? then Some(TrieRef(v)) else TargetAt(n, v)
    decreases |words|
  {
    if words != [] {
      BindAllShape(n, words[0], words[1..]);
      BindAt(n, words[0], TrieRef(words[0]), v);
      BindAllAt(Bind(n, words[0], TrieRef(words[0])), words[1..], v);
    }
  }

  // ---------------------------------------------------------------- registered names

  /** A node's recorded names are the names captured on the way to it. */
  ghost predicate Named(n: Node, base: seq<string>) {
    forall w :: NamedAt(n, base, w)
  }

  ghost predicate NamedAt(n: Node, base: seq<string>, w: Word) {
    NamesAt(n, w).Some? ==> NamesAt(n, w).value == base + NamesAlong(n, w)
  }

  lemma NamedKid(n: Node, base: seq<string>, e: Edge)
    requires Named(n, base) && Kid(n, e).Some?
    ensures Named(Kid(n, e).value, base + EdgeNames(n, e))
  {
    forall w ensures NamedAt(Kid(n, e).value, base + EdgeNames(n, e), w) {
      assert ([e] + w)[1..] == w;
      assert NamedAt(n, base, [e] + w);
    }
  }

  lemma NamedEmpty(base: seq<string>)
    ensures Named(EMPTY, base)
  {
    forall w ensures NamedAt(EMPTY, base, w) {
      if w != [] { EmptyHasNothing(w); }
    }
  }

  lemma {:induction false} InsertNamed(n: Node, p: seq<Segment>, base: seq<string>)
    requires Uniform(n) && Named(n, base)
    ensures Named(Insert(n, p, base).node, base)
    decreases |p|, 0
  {
    assert UniformAt(n, []);
    assert base + [] == base;
    if p == [] {
      var r := Insert(n, p, base).node;
      forall w ensures NamedAt(r, base, w) {
        assert NamedAt(n, base, w);
        if w != [] {
          assert Kid(r, w[0]) == Kid(n, w[0]);
        }
      }
    } else {
      match p[0]
      case Static(v) => DescendNamed(n, Key(v), p[1..], base, []);
      case Wildcard => DescendNamed(n, Tail, p[1..], base, [WILDCARD_NAME]);
      case Param(name, pattern, optional) =>
        if !(n.params != [] && n.params[0].name != name) {
          OpenVariantUniform(n, name, pattern);
          OpenVariantNamed(n, name, pattern, base);
          var wider := OpenVariant(n, name, pattern);
          assert UniformAt(wider, []);
          var k := VariantFor(wider.params, pattern);
          DescendUniform(wider, Take(k), p[1..], base + [name]);
          DescendNamed(wider, Take(k), p[1..], base, [name]);
          var consumed := Descend(wider, Take(k), p[1..], base + [name]);
          if consumed.ok && optional {
            VariantForLabels(wider, consumed.node, pattern);
            DescendNamed(consumed.node, Skip(k), p[1..], base, []);
          }
        }
    }
  }

  lemma OpenVariantNamed(n: Node, name: string, pattern: Option<string>, base: seq<string>)
    requires Named(n, base)
    ensures Named(OpenVariant(n, name, pattern), base)
  {
    var wider := OpenVariant(n, name, pattern);
    forall w ensures NamedAt(wider, base, w) {
      assert NamedAt(n, base, w);
      if w != [] && wider != n && NamesAt(wider, w).Some? {
        if w[0] == Take(|n.params|) {
          assert At(wider, w) == At(EMPTY, w[1..]);
          if w[1..] != [] { EmptyHasNothing(w[1..]); }
        } else {
          assert Kid(wider, w[0]) == Kid(n, w[0]);
          assert At(wider, w) == At(n, w);
          assert EdgeNames(wider, w[0]) == EdgeNames(n, w[0]);
          assert NamesAlong(wider, w) == NamesAlong(n, w);
        }
      }
    }
  }

  lemma {:induction false} DescendNamed(n: Node, e: Edge, p: seq<Segment>, base: seq<string>, extra: seq<string>)
    requires HasSlot(n, e) && Uniform(n) && Named(n, base)
    requires extra == (match e case Take(i) => [n.params[i].name] case Tail => [WILDCARD_NAME] case _ => [])
    ensures Named(Descend(n, e, p, base + extra).node, base)
    decreases |p|, 1
  {
    var names := base + extra;
    UniformKid(n, e);
    if Kid(n, e).Some? { NamedKid(n, base, e); } else { NamedEmpty(names); }
    InsertNamed(KidOrEmpty(n, e), p, names);
    var below := Insert(KidOrEmpty(n, e), p, names).node;
    var r := Descend(n, e, p, names).node;
    hide NamedAt, Insert, NamesAlong;
    assert NamedAt(n, base, []) && NamedAt(r, base, []) by { NamedHere(n, base); NamedHere(r, base); }
    forall w ensures NamedAt(r, base, w) {
      assert NamedAt(n, base, w);
      if w != [] {
        KidSetKid(n, e, below, w[0]);
        LabelNames(n, r, w[0]);
        if w[0] == e {
          assert NamedAt(below, names, w[1..]);
          NamedThrough(r, base, w);
        } else if Kid(n, w[0]).Some? {
          NamedThrough(n, base, w);
          NamedThrough(r, base, w);
        }
      }
    }
  }

  lemma NamedHere(n: Node, base: seq<string>)
    ensures NamedAt(n, base, []) <==> (n.names.Some? ==> n.names.value == base)
  {
    assert base + [] == base;
  }

  /** Names at a word, counted from the node its first edge leads to. */
  lemma NamedThrough(n: Node, base: seq<string>, w: Word)
    requires w != [] && Kid(n, w[0]).Some?
    ensures NamedAt(n, base, w) <==> NamedAt(Kid(n, w[0]).value, base + EdgeNames(n, w[0]), w[1..])
  {
    if At(n, w).Some? {
      var below := NamesAlong(Kid(n, w[0]).value, w[1..]);
      assert base + (EdgeNames(n, w[0]) + below) == base + EdgeNames(n, w[0]) + below;
    }
  }

  lemma LabelNames(a: Node, b: Node, e: Edge)
    requires Labels(a) == Labels(b)
    ensures e.Take? && e.variant < |b.params| ==> e.variant < |a.params| && b.params[e.variant].name == a.params[e.variant].name
  {
    assert |Labels(a)| == |a.params| && |Labels(b)| == |b.params|;
    if e.Take? && e.variant < |b.params| {
      assert Labels(a)[e.variant] == Labels(b)[e.variant];
    }
  }

  // ---------------------------------------------------------------- the index of a list of patterns

  /** One registration: insert, then give every terminal a target. None when the insertion throws. */
  function Register(n: Node, p: seq<Segment>): Option<Node> {
    var r := Insert(n, p, []);
    if !r.ok then None
    else
      TerminalsExist(n, p);
      Some(BindAll(r.node, r.terminals))
  }

  lemma TerminalsExist(n: Node, p: seq<Segment>)
    ensures forall w | w in Insert(n, p, []).terminals :: At(Insert(n, p, []).node, w).Some?
  {
    forall w | w in Insert(n, p, []).terminals ensures At(Insert(n, p, []).node, w).Some? {
      InsertReaches(n, p, [], w);
    }
  }

  /** A target belongs to the word it sits on, and some registered pattern spells that word. */
  ghost predicate Sound(n: Node, ps: seq<seq<Segment>>) {
    forall w | TargetAt(n, w).Some? ::
      TargetAt(n, w) == Some(TrieRef(w)) && NamesAt(n, w).Some? && exists p :: p in ps && Spells(n, w, p)
  }

  /** Every word a registered pattern spells has a target. */
  ghost predicate Covered(n: Node, p: seq<Segment>) {
    Held(n, p) && forall w | Spells(n, w, p) :: TargetAt(n, w).Some?
  }

  ghost predicate TrieOk(n: Node, ps: seq<seq<Segment>>) {
    Uniform(n) && Named(n, []) && Sound(n, ps) && forall p | p in ps :: Covered(n, p)
  }

  lemma EmptyOk()
    ensures TrieOk(EMPTY, [])
  {
    forall w ensures UniformAt(EMPTY, w) && TargetAt(EMPTY, w).None? {
      if w != [] { EmptyHasNothing(w); }
    }
    NamedEmpty([]);
  }

  /** Two tries that differ in targets only spell the same words. */
  lemma {:induction false} SpellsSameShape(a: Node, b: Node, w: Word, p: seq<Segment>)
    requires forall v :: SameShape(a, b, v)
    ensures Spells(a, w, p) <==> Spells(b, w, p)
    decreases |p|
  {
    assert SameShape(a, b, []);
    if p != [] && w != [] {
      assert SameShape(a, b, [w[0]]);
      assert At(a, [w[0]]) == Kid(a, w[0]) && At(b, [w[0]]) == Kid(b, w[0]);
      if p[0].Param? {
        if VariantFor(a.params, p[0].pattern) >= 0 { VariantForLabels(a, b, p[0].pattern); }
        if VariantFor(b.params, p[0].pattern) >= 0 { VariantForLabels(b, a, p[0].pattern); }
      }
      if Kid(a, w[0]).Some? {
        SameShapeKid(a, b, w[0]);
        SpellsSameShape(Kid(a, w[0]).value, Kid(b, w[0]).value, w[1..], p[1..]);
      }
    }
  }

  lemma SameShapeKid(a: Node, b: Node, e: Edge)
    requires forall v :: SameShape(a, b, v)
    requires Kid(a, e).Some? && Kid(b, e).Some?
    ensures forall v :: SameShape(Kid(a, e).value, Kid(b, e).value, v)
  {
    forall v ensures SameShape(Kid(a, e).value, Kid(b, e).value, v) {
      assert ([e] + v)[1..] == v;
      assert SameShape(a, b, [e] + v);
    }
  }

  lemma {:induction false} HeldSameShape(a: Node, b: Node, p: seq<Segment>)
    requires forall v :: SameShape(a, b, v)
    requires Held(a, p)
    ensures Held(b, p)
    decreases |p|
  {
    assert SameShape(a, b, []);
    if p != [] {
      forall e ensures At(a, [e]) == Kid(a, e) && At(b, [e]) == Kid(b, e) && SameShape(a, b, [e]) {}
      if p[0].Param? { VariantForLabels(a, b, p[0].pattern); }
      forall e | Kid(a, e).Some? && Held(Kid(a, e).value, p[1..])
        ensures Kid(b, e).Some? && Held(Kid(b, e).value, p[1..])
      {
        assert SameShape(a, b, [e]);
        SameShapeKid(a, b, e);
        HeldSameShape(Kid(a, e).value, Kid(b, e).value, p[1..]);
      }
      match p[0]
      case Static(v) => assert Kid(b, Key(v)).Some?;
      case Wildcard => assert Kid(a, Tail).Some?; assert Kid(b, Tail).Some?;
      case Param(_, pattern, optional) =>
        var k := VariantFor(a.params, pattern);
        assert Kid(a, Take(k)).Some? && Kid(b, Take(k)).Some?;
        assert optional ==> Kid(a, Skip(k)).Some? && Kid(b, Skip(k)).Some?;
    }
  }

  lemma PreservedKid(a: Node, b: Node, e: Edge)
    requires forall v :: Preserved(a, b, v)
    requires Kid(a, e).Some?
    ensures Kid(b, e).Some? && forall v :: Preserved(Kid(a, e).value, Kid(b, e).value, v)
  {
    assert Preserved(a, b, [e]);
    assert At(a, [e]) == Kid(a, e) && At(b, [e]) == Kid(b, e);
    forall v ensures Preserved(Kid(a, e).value, Kid(b, e).value, v) {
      assert ([e] + v)[1..] == v;
      assert Preserved(a, b, [e] + v);
    }
  }

  /** Growth keeps a held pattern held, and adds no word to it. */
  lemma {:induction false} HeldPreserved(a: Node, b: Node, p: seq<Segment>)
    requires forall v :: Preserved(a, b, v)
    requires Held(a, p)
    ensures Held(b, p)
    ensures forall w | Spells(b, w, p) :: Spells(a, w, p)
    decreases |p|
  {
    assert Preserved(a, b, []);
    if p != [] {
      if p[0].Param? { VariantForByLabels(a.params, b.params, p[0].pattern); }
      forall e | Kid(a, e).Some? && Held(Kid(a, e).value, p[1..])
        ensures Kid(b, e).Some? && Held(Kid(b, e).value, p[1..])
        ensures forall w | Spells(Kid(b, e).value, w, p[1..]) :: Spells(Kid(a, e).value, w, p[1..])
      {
        PreservedKid(a, b, e);
        HeldPreserved(Kid(a, e).value, Kid(b, e).value, p[1..]);
      }
      match p[0]
      case Static(v) => assert Kid(b, Key(v)).Some?;
      case Wildcard => assert Kid(a, Tail).Some?; assert Kid(b, Tail).Some?;
      case Param(_, pattern, optional) =>
        var k := VariantFor(a.params, pattern);
        assert Kid(a, Take(k)).Some? && Kid(b, Take(k)).Some?;
        assert optional ==> Kid(a, Skip(k)).Some? && Kid(b, Skip(k)).Some?;
    }
  }

  lemma InsertKeepsIndex(n: Node, p: seq<Segment>, ps: seq<seq<Segment>>)
    requires TrieOk(n, ps)
    ensures TrieOk(Insert(n, p, []).node, ps)
  {
    var m := Insert(n, p, []).node;
    InsertUniform(n, p, []);
    InsertNamed(n, p, []);
    forall v ensures Preserved(n, m, v) { InsertPreserves(n, p, [], v); }
    forall w | TargetAt(m, w).Some?
      ensures TargetAt(m, w) == Some(TrieRef(w)) && NamesAt(m, w).Some? && exists r :: r in ps && Spells(m, w, r)
    {
      assert Preserved(n, m, w);
      assert TargetAt(n, w) == TargetAt(m, w);
      var r :| r in ps && Spells(n, w, r);
      SpellsPreserved(n, m, w, r);
    }
    forall r | r in ps ensures Covered(m, r) {
      HeldPreserved(n, m, r);
      forall w | Spells(m, w, r) ensures TargetAt(m, w).Some? {
        assert Preserved(n, m, w);
      }
    }
  }

  lemma BindKeepsIndex(m: Node, ps: seq<seq<Segment>>, p: seq<Segment>, words: seq<Word>)
    requires TrieOk(m, ps)
    requires forall w :: w in words <==> Spells(m, w, p)
    requires forall w | w in words :: At(m, w).Some? && NamesAt(m, w).Some?
    requires Held(m, p)
    ensures TrieOk(BindAll(m, words), ps + [p])
  {
    var n := BindAll(m, words);
    forall v
      ensures SameShape(m, n, v)
      ensures TargetAt(n, v) == if v in words && TargetAt(m, v).None? then Some(TrieRef(v)) else TargetAt(m, v)
    {
      BindAllAt(m, words, v);
    }
    SameShapeKeepsNames(m, n);
    forall w | TargetAt(n, w).Some?
      ensures TargetAt(n, w) == Some(TrieRef(w)) && NamesAt(n, w).Some? && exists r :: r in ps + [p] && Spells(n, w, r)
    {
      assert SameShape(m, n, w);
      if TargetAt(m, w).Some? {
        var r :| r in ps && Spells(m, w, r);
        SpellsSameShape(m, n, w, r);
        assert r in ps + [p];
      } else {
        SpellsSameShape(m, n, w, p);
        assert p in ps + [p];
      }
    }
    forall r | r in ps + [p] ensures Covered(n, r) {
      HeldSameShape(m, n, r);
      forall w | Spells(n, w, r) ensures TargetAt(n, w).Some? {
        SpellsSameShape(m, n, w, r);
      }
    }
  }

  lemma SameShapeKeepsNames(a: Node, b: Node)
    requires forall v :: SameShape(a, b, v)
    requires Uniform(a) && Named(a, [])
    ensures Uniform(b) && Named(b, [])
  {
    forall w ensures UniformAt(b, w) && NamedAt(b, [], w) {
      assert SameShape(a, b, w) && UniformAt(a, w) && NamedAt(a, [], w);
      if At(a, w).Some? {
        SameLabels(At(a, w).value, At(b, w).value);
        NamesAlongSameShape(a, b, w);
      }
    }
  }

  lemma SameLabels(a: Node, b: Node)
    requires Labels(a) == Labels(b)
    ensures |a.params| == |b.params|
    ensures forall i | 0 <= i < |a.params| :: a.params[i].name == b.params[i].name
  {
    assert |Labels(a)| == |a.params| && |Labels(b)| == |b.params|;
    forall i | 0 <= i < |a.params| ensures a.params[i].name == b.params[i].name {
      assert Labels(a)[i] == Labels(b)[i];
    }
  }

  lemma {:induction false} NamesAlongSameShape(a: Node, b: Node, w: Word)
    requires forall v :: SameShape(a, b, v)
    requires At(a, w).Some? && At(b, w).Some?
    ensures NamesAlong(a, w) == NamesAlong(b, w)
    decreases |w|
  {
    if w != [] {
      assert SameShape(a, b, []);
      SameLabels(a, b);
      SameShapeKid(a, b, w[0]);
      NamesAlongSameShape(Kid(a, w[0]).value, Kid(b, w[0]).value, w[1..]);
    }
  }

  /** One registration keeps the index in order and adds its pattern to it. */
  lemma RegisterKeepsIndex(n: Node, p: seq<Segment>, ps: seq<seq<Segment>>)
    requires TrieOk(n, ps) && Register(n, p).Some?
    ensures TrieOk(Register(n, p).value, ps + [p])
  {
    var r := Insert(n, p, []);
    InsertKeepsIndex(n, p, ps);
    TerminalsExist(n, p);
    forall w ensures w in r.terminals <==> Spells(r.node, w, p) {
      InsertTerminals(n, p, [], w);
    }
    InsertTerminals(n, p, [], []);
    forall w | w in r.terminals ensures NamesAt(r.node, w).Some? {
      InsertReaches(n, p, [], w);
    }
    BindKeepsIndex(r.node, ps, p, r.terminals);
  }

  /** The trie of a list of registrations; None when one of them throws. */
  function Build(ps: seq<seq<Segment>>): Option<Node> {
    if ps == [] then Some(EMPTY)
    else
      match Build(ps[..|ps| - 1])
      case None => None
      case Some(n) => Register(n, ps[|ps| - 1])
  }

  /** Any run of registrations leaves the index in order. */
  lemma {:induction false} BuildOk(ps: seq<seq<Segment>>)
    requires Build(ps).Some?
    ensures TrieOk(Build(ps).value, ps)
  {
    if ps == [] {
      EmptyOk();
    } else {
      var init, last := ps[..|ps| - 1], ps[|ps| - 1];
      BuildOk(init);
      RegisterKeepsIndex(Build(init).value, last, init);
      assert init + [last] == ps;
    }
  }
}
