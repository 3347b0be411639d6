/**
 The pattern trie and its search: an explicit stack, proved to return the landing
 of the least accepting edge word in the order static, consume, skip, later variants, wildcard.
 */
module Trie {
  import opened Wrappers
  import opened Percent
  import opened Paths
  import opened Patterns

  /** One outgoing transition of a node. A param variant is named by its registration position. */
  datatype Edge = Key(key: string) | Take(variant: nat) | Skip(variant: nat) | Tail

  type Word = seq<Edge>

  /** A route target is a shared object; the place it was created for is its identity. */
  datatype Ref = StaticRef(key: string) | TrieRef(word: Word)

  /** `params[0]` is the head variant, the rest are the later ones in registration order. */
  datatype Node = Node(
    children: seq<Child>,
    params: seq<Variant>,
    wild: Option<Node>,
    target: Option<Ref>,
    names: Option<seq<string>>)

  datatype Child = Child(key: string, node: Node)

  datatype Variant = Variant(name: string, pattern: Option<string>, node: Node, skip: Option<Node>)

  const EMPTY := Node([], [], None, None, None)

  function Lookup(children: seq<Child>, key: string): Option<Node> {
    if children == [] then None
    else if children[0].key == key then Some(children[0].node)
    else Lookup(children[1..], key)
  }

  /** The node an edge leads to. */
  function Kid(n: Node, e: Edge): Option<Node> {
    match e
    case Key(key) => Lookup(n.children, key)
    case Take(i) => if i < |n.params| then Some(n.params[i].node) else None
    case Skip(i) => if i < |n.params| then n.params[i].skip else None
    case Tail => n.wild
  }

  function At(n: Node, w: Word): Option<Node>
    decreases |w|
  {
    if w == [] then Some(n)
    else
      match Kid(n, w[0])
      case None => None
      case Some(kid) => At(kid, w[1..])
  }

  // ---------------------------------------------------------------- subtree size

  function OptionSize(n: Option<Node>): nat
    decreases n, 1
  {
    match n
    case None => 0
    case Some(node) => Size(node)
  }

  function ChildrenSize(children: seq<Child>): nat {
    if children == [] then 0 else Size(children[0].node) + ChildrenSize(children[1..])
  }

  function VariantsSize(params: seq<Variant>): nat {
    if params == [] then 0
    else Size(params[0].node) + OptionSize(params[0].skip) + VariantsSize(params[1..])
  }

  function Size(n: Node): nat {
    1 + ChildrenSize(n.children) + VariantsSize(n.params) + OptionSize(n.wild)
  }

  lemma {:induction false} LookupSize(children: seq<Child>, key: string)
    ensures OptionSize(Lookup(children, key)) <= ChildrenSize(children)
  {
    if children != [] { LookupSize(children[1..], key); }
  }

  lemma {:induction false} VariantsSizeSplit(params: seq<Variant>, i: nat)
    requires i < |params|
    ensures VariantsSize(params[i..])
         == Size(params[i].node) + OptionSize(params[i].skip) + VariantsSize(params[i + 1..])
  {
    assert params[i..][1..] == params[i + 1..];
  }

  lemma {:induction false} VariantSize(params: seq<Variant>, i: nat)
    requires i < |params|
    ensures Size(params[i].node) + OptionSize(params[i].skip) <= VariantsSize(params)
  {
    if i > 0 { VariantSize(params[1..], i - 1); }
  }

  lemma KidSmaller(n: Node, e: Edge)
    ensures OptionSize(Kid(n, e)) < Size(n)
  {
    match e
    case Key(key) => LookupSize(n.children, key);
    case Take(i) => if i < |n.params| { VariantSize(n.params, i); }
    case Skip(i) => if i < |n.params| { VariantSize(n.params, i); }
    case Tail =>
  }

  // ---------------------------------------------------------------- one search step

  /** A capture; lists of captures are newest first. */
  datatype Link = Link(name: string, value: string)

  datatype Frame = Frame(node: Node, index: nat, links: seq<Link>)

  predicate InQuery(q: Query, f: Frame) {
    f.index <= |q.segs|
  }

  predicate Terminal(q: Query, f: Frame) {
    f.index == |q.segs| && f.node.target.Some?
  }

  /** The rest of the path from a segment on, decoded and joined: a wildcard's capture. */
  function RestOf(q: Query, index: nat): string
    requires index <= |q.segs|
  {
    Join(DecodeAll(q.segs[index..]))
  }

  /** The frame one transition leads to, when the request allows it. */
  function Step(re: Regexes, q: Query, f: Frame, e: Edge): (r: Option<Frame>)
    requires InQuery(q, f)
    ensures r.Some? ==> InQuery(q, r.value) && Kid(f.node, e) == Some(r.value.node)
  {
    var more := f.index < |q.segs|;
    match e
    case Key(key) =>
      if more && key == DecodeSegment(q.segs[f.index]) && Lookup(f.node.children, key).Some?
      then Some(Frame(Lookup(f.node.children, key).value, f.index + 1, f.links)) else None
    case Take(i) =>
      if && more && i < |f.node.params| && q.segs[f.index] != ""
         && Admits(re, f.node.params[i].pattern, DecodeSegment(q.segs[f.index]))
      then Some(Frame(f.node.params[i].node, f.index + 1,
                      [Link(f.node.params[i].name, DecodeSegment(q.segs[f.index]))] + f.links))
      else None
    case Skip(i) =>
      if i < |f.node.params| && f.node.params[i].skip.Some?
      then Some(Frame(f.node.params[i].skip.value, f.index, f.links)) else None
    case Tail =>
      if f.node.wild.Some? && f.node.wild.value.target.Some? && (more || q.slash) then
        var captured := RestOf(q, f.index);
        Some(Frame(f.node.wild.value, |q.segs|,
                   if more && captured == "" then f.links else [Link(WILDCARD_NAME, captured)] + f.links))
      else None
  }

  /** Skip then consume of the variants `lo..hi`, the later variants first: the order of the pushes. */
  function VariantEdges(lo: nat, hi: nat): seq<Edge>
    requires lo <= hi
    decreases hi - lo
  {
    if lo == hi then [] else VariantEdges(lo + 1, hi) + [Skip(lo), Take(lo)]
  }

  /** The transitions in push order, lowest priority first. */
  function Candidates(q: Query, f: Frame): seq<Edge>
    requires InQuery(q, f)
  {
    [Tail] + VariantEdges(0, |f.node.params|)
    + (if f.index < |q.segs| then [Key(DecodeSegment(q.segs[f.index]))] else [])
  }

  function Offer(re: Regexes, q: Query, f: Frame, e: Edge): (fs: seq<Frame>)
    requires InQuery(q, f)
    ensures forall g | g in fs :: InQuery(q, g)
  {
    match Step(re, q, f, e)
    case None => []
    case Some(g) => [g]
  }

  /** The frames pushed for a run of transitions. */
  function Offered(re: Regexes, q: Query, f: Frame, es: seq<Edge>): (fs: seq<Frame>)
    requires InQuery(q, f)
    ensures forall g | g in fs :: InQuery(q, g)
  {
    if es == [] then [] else Offered(re, q, f, es[..|es| - 1]) + Offer(re, q, f, es[|es| - 1])
  }

  // ---------------------------------------------------------------- depth-first search, recursively

  function Dfs(re: Regexes, q: Query, f: Frame): (r: Option<Frame>)
    requires InQuery(q, f)
    ensures r.Some? ==> InQuery(q, r.value) && Terminal(q, r.value)
    decreases Size(f.node), 1, 0
  {
    if Terminal(q, f) then Some(f) else Pick(re, q, f, Candidates(q, f))
  }

  /** The search below the last transition that leads to a hit. */
  function Pick(re: Regexes, q: Query, f: Frame, es: seq<Edge>): (r: Option<Frame>)
    requires InQuery(q, f)
    ensures r.Some? ==> InQuery(q, r.value) && Terminal(q, r.value)
    decreases Size(f.node), 0, |es|
  {
    if es == [] then None
    else
      var e := es[|es| - 1];
      KidSmaller(f.node, e);
      var step := Step(re, q, f, e);
      if step.Some? && Dfs(re, q, step.value).Some? then Dfs(re, q, step.value)
      else Pick(re, q, f, es[..|es| - 1])
  }

  /** The first hit of a stack of frames, top (last) frame first. */
  function StackHit(re: Regexes, q: Query, stack: seq<Frame>): Option<Frame>
    requires forall f | f in stack :: InQuery(q, f)
  {
    if stack == [] then None
    else
      var top := Dfs(re, q, stack[|stack| - 1]);
      if top.Some? then top else StackHit(re, q, stack[..|stack| - 1])
  }

  function StackSize(stack: seq<Frame>): nat {
    if stack == [] then 0 else Size(stack[|stack| - 1].node) + StackSize(stack[..|stack| - 1])
  }

  lemma StackPush(re: Regexes, q: Query, stack: seq<Frame>, f: Frame)
    requires forall g | g in stack :: InQuery(q, g)
    requires InQuery(q, f)
    ensures StackSize(stack + [f]) == Size(f.node) + StackSize(stack)
    ensures StackHit(re, q, stack + [f])
         == if Dfs(re, q, f).Some? then Dfs(re, q, f) else StackHit(re, q, stack)
  {
    var s := stack + [f];
    assert s[..|s| - 1] == stack;
  }

  /** Pushing the frames of some transitions searches them before the rest of the stack. */
  lemma {:induction false} StackOffered(re: Regexes, q: Query, rest: seq<Frame>, f: Frame, es: seq<Edge>)
    requires InQuery(q, f)
    requires forall g | g in rest :: InQuery(q, g)
    ensures StackHit(re, q, rest + Offered(re, q, f, es))
         == if Pick(re, q, f, es).Some? then Pick(re, q, f, es) else StackHit(re, q, rest)
  {
    if es == [] {
      assert rest + [] == rest;
    } else {
      var e, init := es[|es| - 1], es[..|es| - 1];
      StackOffered(re, q, rest, f, init);
      var step := Step(re, q, f, e);
      if step.Some? {
        StackPush(re, q, rest + Offered(re, q, f, init), step.value);
        assert rest + Offered(re, q, f, es) == rest + Offered(re, q, f, init) + [step.value];
      } else {
        assert rest + Offered(re, q, f, es) == rest + Offered(re, q, f, init);
      }
    }
  }

  // ---------------------------------------------------------------- the stack strictly shrinks

  function EdgesSize(n: Node, es: seq<Edge>): nat {
    if es == [] then 0 else EdgesSize(n, es[..|es| - 1]) + OptionSize(Kid(n, es[|es| - 1]))
  }

  lemma {:induction false} EdgesSizeConcat(n: Node, a: seq<Edge>, b: seq<Edge>)
    ensures EdgesSize(n, a + b) == EdgesSize(n, a) + EdgesSize(n, b)
  {
    if b == [] {
      assert a + b == a;
    } else {
      EdgesSizeConcat(n, a, b[..|b| - 1]);
      assert (a + b)[..|a + b| - 1] == a + b[..|b| - 1];
    }
  }

  lemma {:induction false} VariantEdgesSize(n: Node, lo: nat)
    requires lo <= |n.params|
    ensures EdgesSize(n, VariantEdges(lo, |n.params|)) == VariantsSize(n.params[lo..])
    decreases |n.params| - lo
  {
    if lo < |n.params| {
      VariantEdgesSize(n, lo + 1);
      EdgesSizeConcat(n, VariantEdges(lo + 1, |n.params|), [Skip(lo), Take(lo)]);
      VariantsSizeSplit(n.params, lo);
      assert [Skip(lo), Take(lo)] == [Skip(lo)] + [Take(lo)];
      EdgesSizeConcat(n, [Skip(lo)], [Take(lo)]);
      EdgesSizeOne(n, Skip(lo));
      EdgesSizeOne(n, Take(lo));
    }
  }

  lemma PushSize(re: Regexes, q: Query, stack: seq<Frame>, f: Frame, e: Edge)
    requires InQuery(q, f)
    ensures StackSize(stack + Offer(re, q, f, e)) <= StackSize(stack) + OptionSize(Kid(f.node, e))
  {
    var step := Step(re, q, f, e);
    if step.Some? {
      assert (stack + [step.value])[..|stack|] == stack;
    } else {
      assert stack + [] == stack;
    }
  }

  lemma {:induction false} OfferedSize(re: Regexes, q: Query, rest: seq<Frame>, f: Frame, es: seq<Edge>)
    requires InQuery(q, f)
    ensures StackSize(rest + Offered(re, q, f, es)) <= StackSize(rest) + EdgesSize(f.node, es)
    decreases |es|
  {
    if es == [] {
      assert rest + [] == rest;
    } else {
      var e, init := es[|es| - 1], es[..|es| - 1];
      OfferedSize(re, q, rest, f, init);
      PushSize(re, q, rest + Offered(re, q, f, init), f, e);
      assert rest + Offered(re, q, f, es) == rest + Offered(re, q, f, init) + Offer(re, q, f, e);
    }
  }

  lemma EdgesSizeOne(n: Node, e: Edge)
    ensures EdgesSize(n, [e]) == OptionSize(Kid(n, e))
  {
    assert [e][..0] == [];
  }

  /** The candidates lead to disjoint parts of the subtree. */
  lemma CandidatesSize(q: Query, f: Frame)
    requires InQuery(q, f)
    ensures EdgesSize(f.node, Candidates(q, f)) < Size(f.node)
  {
    var n, variants := f.node, VariantEdges(0, |f.node.params|);
    EdgesSizeConcat(n, [Tail], variants);
    EdgesSizeOne(n, Tail);
    VariantEdgesSize(n, 0);
    assert n.params[0..] == n.params;
    if f.index < |q.segs| {
      var key := DecodeSegment(q.segs[f.index]);
      EdgesSizeConcat(n, [Tail] + variants, [Key(key)]);
      EdgesSizeOne(n, Key(key));
      LookupSize(n.children, key);
    } else {
      assert [Tail] + variants + [] == [Tail] + variants;
    }
  }

  /** Replacing a frame by everything it offers strictly lowers the summed subtree size of the stack. */
  lemma StackShrinks(re: Regexes, q: Query, rest: seq<Frame>, f: Frame)
    requires InQuery(q, f)
    ensures StackSize(rest + Offered(re, q, f, Candidates(q, f))) < StackSize(rest + [f])
  {
    OfferedSize(re, q, rest, f, Candidates(q, f));
    CandidatesSize(q, f);
    assert (rest + [f])[..|rest|] == rest;
  }

  // ---------------------------------------------------------------- the match product

  datatype TrieMatch = TrieMatch(target: Ref, names: seq<string>, values: seq<string>)

  /** Captures oldest first. */
  function ValuesOf(links: seq<Link>): seq<string> {
    if links == [] then [] else ValuesOf(links[1..]) + [links[0].value]
  }

  function NamesOf(links: seq<Link>): seq<string> {
    if links == [] then [] else NamesOf(links[1..]) + [links[0].name]
  }

  /** The newest capture of each name, newest first, appended to what was found already. */
  function LatestFrom(links: seq<Link>, names: seq<string>, values: seq<string>): (r: (seq<string>, seq<string>))
    requires |names| == |values|
    ensures |r.0| == |r.1|
  {
    if links == [] then (names, values)
    else if links[0].name in names then LatestFrom(links[1..], names, values)
    else LatestFrom(links[1..], names + [links[0].name], values + [links[0].value])
  }

  /** The product at a terminal: the registered names when the captures line up, otherwise a rebuild from the captures. */
  function Product(f: Frame): TrieMatch
    requires f.node.target.Some?
  {
    var target := f.node.target.value;
    if f.node.names.Some? && f.node.names.value == [] then TrieMatch(target, [], [])
    else if f.node.names.Some? && |f.node.names.value| == |f.links| then
      TrieMatch(target, f.node.names.value, ValuesOf(f.links))
    else
      var r := LatestFrom(f.links, [], []);
      TrieMatch(target, r.0, r.1)
  }
}
