/** The middleware stack and its precomposed fallback chains, proved against checking every scope on every request. */
module Fallbacks {
  import opened Wrappers
  import opened Patterns
  import opened Middleware

  /** A composed chain is the list it was composed from. */
  type Composed = seq<Handler>

  datatype FallbackNode = FallbackNode(children: map<string, FallbackNode>, exact: Option<Composed>, prefixed: Option<Composed>)

  const EMPTY_FALLBACK := FallbackNode(map[], None, None)

  function ChainFor(handlers: seq<Handler>): Option<Composed> {
    if handlers == [] then None else Some(handlers)
  }

  function HandlersIn(chain: Option<Composed>): seq<Handler> {
    if chain.None? then [] else chain.value
  }

  function OrElse(a: Option<Composed>, b: Option<Composed>): Option<Composed> {
    if a.Some? then a else b
  }

  // ---------------------------------------------------------------- filters over the layers

  predicate Listed(layer: Layer, segments: seq<string>, includeExact: bool) {
    layer.scope.None? ||
    (if layer.scope.value.prefix then layer.scope.value.segments <= segments
     else includeExact && layer.scope.value.segments == segments)
  }

  function HandlersForSegments(layers: seq<Layer>, segments: seq<string>, includeExact: bool): seq<Handler> {
    if layers == [] then []
    else
      var init := HandlersForSegments(layers[..|layers| - 1], segments, includeExact);
      var last := layers[|layers| - 1];
      if Listed(last, segments, includeExact) then init + [last.handler] else init
  }

  function GlobalOf(layers: seq<Layer>): (r: seq<Handler>)
    ensures |r| <= |layers|
    ensures |r| == |layers| <==> forall l | l in layers :: l.scope.None?
  {
    if layers == [] then []
    else
      var init := GlobalOf(layers[..|layers| - 1]);
      var last := layers[|layers| - 1];
      assert layers == layers[..|layers| - 1] + [last];
      if last.scope.None? then init + [last.handler] else init
  }

  predicate IsScope(layer: Layer, segments: seq<string>, prefix: bool) {
    layer.scope.Some? && layer.scope.value.prefix == prefix && layer.scope.value.segments == segments
  }

  ghost predicate HasScope(layers: seq<Layer>, segments: seq<string>, prefix: bool) {
    exists l :: l in layers && IsScope(l, segments, prefix)
  }

  lemma {:induction false} OfferedSnoc(layers: seq<Layer>, last: Layer, segments: seq<string>)
    ensures Offered(layers + [last], segments)
         == Offered(layers, segments) + (if InScope(last, segments) then [last.handler] else [])
  {
    if layers == [] {
      assert (layers + [last])[1..] == [];
    } else {
      OfferedSnoc(layers[1..], last, segments);
      assert (layers + [last])[1..] == layers[1..] + [last];
    }
  }

  lemma {:induction false} OfferedIsFilter(layers: seq<Layer>, segments: seq<string>)
    ensures Offered(layers, segments) == HandlersForSegments(layers, segments, true)
  {
    if layers != [] {
      var init, last := layers[..|layers| - 1], layers[|layers| - 1];
      OfferedIsFilter(init, segments);
      OfferedSnoc(init, last, segments);
      assert layers == init + [last];
      assert InScope(last, segments) <==> Listed(last, segments, true);
    }
  }

  lemma ScopeOnPath(layers: seq<Layer>, l: Layer, segments: seq<string>)
    requires l in layers && l.scope.Some? && l.scope.value.prefix && l.scope.value.segments <= segments
    ensures HasScope(layers, segments[..|l.scope.value.segments|], true)
  {
    assert IsScope(l, segments[..|l.scope.value.segments|], true);
  }

  /** With no exact scope on the path and no prefix scope deeper than `j`, the layers offered are those listed at `j`. */
  lemma {:induction false} DeepestFilter(layers: seq<Layer>, segments: seq<string>, j: nat)
    requires j <= |segments| && !HasScope(layers, segments, false)
    requires forall k | j < k <= |segments| :: !HasScope(layers, segments[..k], true)
    ensures HandlersForSegments(layers, segments, true) == HandlersForSegments(layers, segments[..j], false)
  {
    if layers != [] {
      var init, last := layers[..|layers| - 1], layers[|layers| - 1];
      assert layers == init + [last] && last in layers;
      forall k | j < k <= |segments| ensures !HasScope(init, segments[..k], true) {
        assert forall l | l in init :: l in layers;
      }
      DeepestFilter(init, segments, j);
      if last.scope.Some? && last.scope.value.prefix {
        var s := last.scope.value.segments;
        if s <= segments { ScopeOnPath(layers, last, segments); }
        assert s <= segments[..j] <==> s <= segments && |s| <= j;
      }
    }
  }

  lemma {:induction false} NoPrefixFilter(layers: seq<Layer>, segments: seq<string>)
    requires !HasScope(layers, segments, false)
    requires forall k | 0 <= k <= |segments| :: !HasScope(layers, segments[..k], true)
    ensures HandlersForSegments(layers, segments, true) == GlobalOf(layers)
  {
    if layers != [] {
      var init, last := layers[..|layers| - 1], layers[|layers| - 1];
      assert layers == init + [last] && last in layers;
      forall k | 0 <= k <= |segments| ensures !HasScope(init, segments[..k], true) {
        assert forall l | l in init :: l in layers;
      }
      NoPrefixFilter(init, segments);
      if last.scope.Some? && last.scope.value.prefix && last.scope.value.segments <= segments {
        ScopeOnPath(layers, last, segments);
      }
    }
  }

  // ---------------------------------------------------------------- the fallback trie

  function NodeAt(n: FallbackNode, segments: seq<string>): Option<FallbackNode>
    decreases |segments|
  {
    if segments == [] then Some(n)
    else if segments[0] in n.children then NodeAt(n.children[segments[0]], segments[1..])
    else None
  }

  function ChainAt(n: FallbackNode, segments: seq<string>, prefix: bool): Option<Composed> {
    match NodeAt(n, segments)
    case None => None
    case Some(node) => if prefix then node.prefixed else node.exact
  }

  /** Set one chain, creating the nodes on the way. */
  function PutAt(n: FallbackNode, segments: seq<string>, prefix: bool, chain: Composed): FallbackNode
    decreases |segments|
  {
    if segments == [] then if prefix then n.(prefixed := Some(chain)) else n.(exact := Some(chain))
    else
      var child := if segments[0] in n.children then n.children[segments[0]] else EMPTY_FALLBACK;
      n.(children := n.children[segments[0] := PutAt(child, segments[1..], prefix, chain)])
  }

  lemma {:induction false} PutReads(n: FallbackNode, segments: seq<string>, prefix: bool, chain: Composed, at: seq<string>, kind: bool)
    ensures ChainAt(PutAt(n, segments, prefix, chain), at, kind)
         == if at == segments && kind == prefix then Some(chain) else ChainAt(n, at, kind)
    decreases |segments|
  {
    if segments != [] && at != [] && at[0] == segments[0] {
      var child := if segments[0] in n.children then n.children[segments[0]] else EMPTY_FALLBACK;
      PutReads(child, segments[1..], prefix, chain, at[1..], kind);
      assert at == segments <==> at[1..] == segments[1..];
    }
  }

  lemma {:induction false} NodeStep(n: FallbackNode, segments: seq<string>, i: nat)
    requires i < |segments|
    ensures NodeAt(n, segments[..i + 1])
         == match NodeAt(n, segments[..i])
            case None => None
            case Some(node) => if segments[i] in node.children then Some(node.children[segments[i]]) else None
    decreases i
  {
    if i > 0 && segments[0] in n.children {
      NodeStep(n.children[segments[0]], segments[1..], i - 1);
      assert segments[..i + 1][1..] == segments[1..][..i];
      assert segments[..i][1..] == segments[1..][..i - 1];
    }
  }

  lemma {:induction false} NothingBelow(n: FallbackNode, segments: seq<string>, i: nat, j: nat)
    requires i <= j <= |segments| && NodeAt(n, segments[..i]).None?
    ensures NodeAt(n, segments[..j]).None?
    decreases j
  {
    if i < j {
      NothingBelow(n, segments, i, j - 1);
      NodeStep(n, segments, j - 1);
    }
  }

  /** What a scope's chain should be. */
  function Wanted(layers: seq<Layer>, segments: seq<string>, prefix: bool): Composed {
    HandlersForSegments(layers, segments, !prefix)
  }

  /** Every scope has its chain, and nothing else has one. */
  ghost predicate FallbackOk(layers: seq<Layer>, root: FallbackNode) {
    forall segments, prefix ::
      ChainAt(root, segments, prefix) == if HasScope(layers, segments, prefix) then Some(Wanted(layers, segments, prefix)) else None
  }

  /** The deepest prefix chain on the way down to position `i`. */
  function Deepest(root: FallbackNode, segments: seq<string>, i: nat): Option<Composed>
    requires i <= |segments|
  {
    if ChainAt(root, segments[..i], true).Some? then ChainAt(root, segments[..i], true)
    else if i == 0 then None
    else Deepest(root, segments, i - 1)
  }

  lemma {:induction false} DeepestBelow(root: FallbackNode, segments: seq<string>, i: nat, j: nat)
    requires i < j <= |segments| && NodeAt(root, segments[..i + 1]).None?
    ensures Deepest(root, segments, j) == Deepest(root, segments, i)
    decreases j
  {
    NothingBelow(root, segments, i + 1, j);
    if i + 1 < j { DeepestBelow(root, segments, i, j - 1); }
  }

  lemma {:induction false} DeepestIsFilter(layers: seq<Layer>, root: FallbackNode, segments: seq<string>, i: nat)
    requires FallbackOk(layers, root) && i <= |segments| && !HasScope(layers, segments, false)
    requires forall k | i < k <= |segments| :: !HasScope(layers, segments[..k], true)
    ensures HandlersIn(OrElse(Deepest(root, segments, i), ChainFor(GlobalOf(layers)))) == HandlersForSegments(layers, segments, true)
    ensures OrElse(Deepest(root, segments, i), ChainFor(GlobalOf(layers))).None? ==> HandlersForSegments(layers, segments, true) == []
  {
    if ChainAt(root, segments[..i], true).Some? {
      DeepestFilter(layers, segments, i);
    } else if i == 0 {
      NoPrefixFilter(layers, segments);
    } else {
      DeepestIsFilter(layers, root, segments, i - 1);
    }
  }

  /** What the walk settles on is what filtering every layer gives. */
  lemma WalkIsFilter(layers: seq<Layer>, root: FallbackNode, segments: seq<string>)
    requires FallbackOk(layers, root)
    ensures HandlersIn(OrElse(ChainAt(root, segments, false), OrElse(Deepest(root, segments, |segments|), ChainFor(GlobalOf(layers)))))
         == Offered(layers, segments)
  {
    OfferedIsFilter(layers, segments);
    if !HasScope(layers, segments, false) { DeepestIsFilter(layers, root, segments, |segments|); }
  }

  lemma {:induction false} GlobalOnly(layers: seq<Layer>, segments: seq<string>)
    requires forall l | l in layers :: l.scope.None?
    ensures Offered(layers, segments) == GlobalOf(layers)
  {
    OfferedIsFilter(layers, segments);
    forall l | l in layers ensures !IsScope(l, segments, false) {}
    NoPrefixFilter(layers, segments);
  }

  // ---------------------------------------------------------------- the stack

  class MiddlewareStack {
    var layers: seq<Layer>
    var global: seq<Handler>
    var globalChain: Option<Composed>
    var fallbackRoot: FallbackNode

    ghost predicate Valid()
      reads this
    {
      && global == GlobalOf(layers)
      && globalChain == ChainFor(global)
      && FallbackOk(layers, fallbackRoot)
    }

    constructor ()
      ensures Valid() && layers == []
    {
      layers, global, globalChain, fallbackRoot := [], [], None, EMPTY_FALLBACK;
    }

    method FilterLayers(segments: seq<string>, includeExact: bool) returns (handlers: seq<Handler>)
      ensures handlers == HandlersForSegments(layers, segments, includeExact)
    {
      handlers := [];
      for i := 0 to |layers|
        invariant handlers == HandlersForSegments(layers[..i], segments, includeExact)
      {
        assert layers[..i + 1][..i] == layers[..i];
        var scope := layers[i].scope;
        if scope.None? ||
           (if scope.value.prefix then scope.value.segments <= segments
            else includeExact && scope.value.segments == segments) {
          handlers := handlers + [layers[i].handler];
        }
      }
      assert layers[..|layers|] == layers;
    }

    /** The scopes of one kind, by length-prefixed key. */
    method ScopesOf(prefix: bool) returns (scopes: map<string, seq<string>>)
      ensures forall segments :: segments in scopes.Values <==> HasScope(layers, segments, prefix)
    {
      scopes := map[];
      for i := 0 to |layers|
        invariant forall key | key in scopes :: key == KeyOf(scopes[key]) && HasScope(layers[..i], scopes[key], prefix)
        invariant forall segments | HasScope(layers[..i], segments, prefix) :: KeyOf(segments) in scopes
      {
        ghost var before := scopes;
        assert layers[..i + 1] == layers[..i] + [layers[i]];
        var scope := layers[i].scope;
        if scope.Some? && scope.value.prefix == prefix {
          scopes := scopes[KeyOf(scope.value.segments) := scope.value.segments];
        }
        forall key | key in scopes ensures key == KeyOf(scopes[key]) && HasScope(layers[..i + 1], scopes[key], prefix) {
          if key in before && scopes[key] == before[key] {
            var l :| l in layers[..i] && IsScope(l, before[key], prefix);
            assert l in layers[..i + 1];
          } else {
            assert layers[i] in layers[..i + 1] && IsScope(layers[i], scopes[key], prefix);
          }
        }
      }
      assert layers[..|layers|] == layers;
      forall segments | HasScope(layers, segments, prefix) ensures segments in scopes.Values {
        KeyOfInjective(segments, scopes[KeyOf(segments)]);
      }
    }

    /** Give every scope of one kind its chain. */
    method PutChains(root: FallbackNode, prefix: bool) returns (next: FallbackNode)
      requires forall segments :: ChainAt(root, segments, prefix).None?
      ensures forall segments, kind ::
                ChainAt(next, segments, kind)
                == if kind != prefix then ChainAt(root, segments, kind)
                   else if HasScope(layers, segments, prefix) then Some(Wanted(layers, segments, prefix)) else None
    {
      var scopes := ScopesOf(prefix);
      var rest := scopes.Values;
      next := root;
      while rest != {}
        invariant rest <= scopes.Values
        invariant forall segments, kind ::
                    ChainAt(next, segments, kind)
                    == if kind != prefix then ChainAt(root, segments, kind)
                       else if segments in scopes.Values - rest then Some(Wanted(layers, segments, prefix)) else None
        decreases |rest|
      {
        var segments :| segments in rest;
        var handlers := FilterLayers(segments, !prefix);
        ScopeIsListed(layers, segments, prefix);
        forall at, kind ensures ChainAt(PutAt(next, segments, prefix, handlers), at, kind)
          == if at == segments && kind == prefix then Some(handlers) else ChainAt(next, at, kind)
        {
          PutReads(next, segments, prefix, handlers, at, kind);
        }
        if handlers != [] { next := PutAt(next, segments, prefix, handlers); }
        rest := rest - {segments};
      }
    }

    method RebuildFallbacks()
      modifies this`globalChain, this`fallbackRoot
      ensures globalChain == ChainFor(global) && FallbackOk(layers, fallbackRoot)
    {
      forall segments, prefix ensures ChainAt(EMPTY_FALLBACK, segments, prefix).None? {}
      var root := PutChains(EMPTY_FALLBACK, false);
      root := PutChains(root, true);
      globalChain, fallbackRoot := ChainFor(global), root;
    }

    method AddMiddleware(scope: Option<Scope>, handlers: seq<Handler>)
      requires Valid()
      modifies this
      ensures Valid() && layers == old(layers) + LayersFor(scope, handlers)
    {
      for i := 0 to |handlers|
        invariant layers == old(layers) + LayersFor(scope, handlers[..i])
        invariant global == GlobalOf(layers)
      {
        ghost var before := layers;
        LayersForSnoc(scope, handlers, i);
        layers := layers + [Layer(scope, handlers[i])];
        assert layers[..|layers| - 1] == before;
        if scope.None? { global := global + [handlers[i]]; }
      }
      assert handlers[..|handlers|] == handlers;
      RebuildFallbacks();
    }

    /** The chain of an unmatched request: exactly the layers whose scope admits its path, in `use` order. */
    method FallbackMiddlewareForPath(path: string) returns (chain: Option<Composed>)
      requires Valid()
      ensures HandlersIn(chain) == Offered(layers, PathSegments(path))
    {
      var segments := PathSegments(path);
      if |layers| == |global| {
        GlobalOnly(layers, segments);
        return globalChain;
      }
      WalkIsFilter(layers, fallbackRoot, segments);
      var node := fallbackRoot;
      assert segments[..0] == [];
      var prefixChain := node.prefixed;
      for i := 0 to |segments|
        invariant NodeAt(fallbackRoot, segments[..i]) == Some(node)
        invariant prefixChain == Deepest(fallbackRoot, segments, i)
      {
        NodeStep(fallbackRoot, segments, i);
        if segments[i] !in node.children {
          NothingBelow(fallbackRoot, segments, i + 1, |segments|);
          DeepestBelow(fallbackRoot, segments, i, |segments|);
          assert segments[..|segments|] == segments;
          return OrElse(prefixChain, globalChain);
        }
        node := node.children[segments[i]];
        if node.prefixed.Some? { prefixChain := node.prefixed; }
      }
      assert segments[..|segments|] == segments;
      return OrElse(node.exact, OrElse(prefixChain, globalChain));
    }

    /** The layers of a registered route, partially evaluated. */
    method MiddlewareForRoute(re: Regexes, path: string, pathOffset: nat) returns (r: Result<seq<Planned>>)
      ensures r.Thrown? <==> Compile(re, path).Thrown?
      ensures r.Ok? ==> r.value == PlanOf(layers, Compile(re, path).value, pathOffset)
    {
      var compiled := Compile(re, path);
      if compiled.Thrown? { return Thrown(compiled.message); }
      var route := compiled.value;
      var handlers: seq<Planned> := [];
      for i := 0 to |layers|
        invariant handlers + PlanOf(layers[i..], route, pathOffset) == PlanOf(layers, route, pathOffset)
      {
        PlanStep(layers, i, route, pathOffset, handlers);
        var layer := layers[i];
        if layer.scope.None? {
          handlers := handlers + [Direct(layer.handler)];
        } else {
          var relation := RouteRelation(layer.scope.value, route);
          if relation == Always { handlers := handlers + [Direct(layer.handler)]; }
          else if relation == Conditional { handlers := handlers + [Wrapped(layer.scope.value, layer.handler, pathOffset)]; }
        }
      }
      assert handlers + [] == handlers;
      return Ok(handlers);
    }
  }

  function LayersFor(scope: Option<Scope>, handlers: seq<Handler>): (r: seq<Layer>)
    ensures |r| == |handlers| && forall i | 0 <= i < |r| :: r[i] == Layer(scope, handlers[i])
  {
    seq(|handlers|, i requires 0 <= i < |handlers| => Layer(scope, handlers[i]))
  }

  lemma LayersForSnoc(scope: Option<Scope>, handlers: seq<Handler>, i: nat)
    requires i < |handlers|
    ensures LayersFor(scope, handlers[..i + 1]) == LayersFor(scope, handlers[..i]) + [Layer(scope, handlers[i])]
  {
  }

  lemma PlanStep(layers: seq<Layer>, i: nat, route: seq<Segment>, offset: nat, before: seq<Planned>)
    requires i < |layers|
    ensures before + PlanOf(layers[i..], route, offset) == before + PlanOne(layers[i], route, offset) + PlanOf(layers[i + 1..], route, offset)
    ensures PlanOne(layers[i], route, offset) == [] ==> before + PlanOne(layers[i], route, offset) == before
  {
    assert layers[i..][1..] == layers[i + 1..];
  }

  /** A scope's own layer is always on its chain. */
  lemma {:induction false} ScopeIsListed(layers: seq<Layer>, segments: seq<string>, prefix: bool)
    requires HasScope(layers, segments, prefix)
    ensures Wanted(layers, segments, prefix) != []
  {
    var init, last := layers[..|layers| - 1], layers[|layers| - 1];
    assert layers == init + [last];
    if !Listed(last, segments, !prefix) {
      var l :| l in layers && IsScope(l, segments, prefix);
      assert l in init;
      ScopeIsListed(init, segments, prefix);
    }
  }
}
