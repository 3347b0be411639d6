/** Application middleware: scopes, the setup-time plan of a route, and the precomposed fallback chains. */
module Middleware {
  import opened Wrappers
  import opened Percent
  import opened Paths
  import opened Patterns

  /** A handler function; only its identity matters here. */
  type Handler = nat

  datatype Scope = Scope(pattern: string, segments: seq<string>, prefix: bool)

  datatype Layer = Layer(scope: Option<Scope>, handler: Handler)

  // ---------------------------------------------------------------- scopes

  function ScopeSegments(p: seq<Segment>): Option<(seq<string>, bool)> {
    if p == [] then Some(([], false))
    else
      match p[0]
      case Static(v) =>
        (match ScopeSegments(p[1..])
         case None => None
         case Some(rest) => Some(([v] + rest.0, rest.1)))
      case Wildcard => if p[1..] == [] then Some(([], true)) else None
      case Param(_, _, _) => None
  }

  /** A scope is a static path, or one ending in a wildcard. */
  function CompileScope(re: Regexes, pattern: string): Result<Scope> {
    match Compile(re, pattern)
    case Thrown(m) => Thrown(m)
    case Ok(p) =>
      match ScopeSegments(p)
      case None => Thrown("app.use() scope must be a static path or end in /*")
      case Some(scope) => Ok(Scope(pattern, scope.0, scope.1))
  }

  function Literals(values: seq<string>): (r: seq<Segment>)
    ensures |r| == |values| && forall i | 0 <= i < |r| :: r[i] == Static(values[i])
  {
    seq(|values|, i requires 0 <= i < |values| => Static(values[i]))
  }

  function ScopePattern(values: seq<string>, prefix: bool): seq<Segment> {
    Literals(values) + (if prefix then [Wildcard] else [])
  }

  lemma PatternHead(values: seq<string>, prefix: bool)
    ensures values != [] ==> ScopePattern(values, prefix) == [Static(values[0])] + ScopePattern(values[1..], prefix)
    ensures values == [] ==> ScopePattern(values, prefix) == if prefix then [Wildcard] else []
  {
    if values != [] {
      assert Literals(values) == [Static(values[0])] + Literals(values[1..]);
    }
  }

  lemma {:induction false} ScopeSegmentsRead(p: seq<Segment>)
    requires ScopeSegments(p).Some?
    ensures p == ScopePattern(ScopeSegments(p).value.0, ScopeSegments(p).value.1)
  {
    hide ScopePattern, Literals;
    var r := ScopeSegments(p).value;
    PatternHead(r.0, r.1);
    if p != [] {
      assert p == [p[0]] + p[1..];
      if p[0].Static? {
        ScopeSegmentsRead(p[1..]);
        assert r.0[1..] == ScopeSegments(p[1..]).value.0;
      }
    }
  }

  lemma {:induction false} ScopeSegmentsWritten(values: seq<string>, prefix: bool)
    ensures ScopeSegments(ScopePattern(values, prefix)) == Some((values, prefix))
  {
    hide ScopePattern, Literals;
    PatternHead(values, prefix);
    var p := ScopePattern(values, prefix);
    if values != [] {
      ScopeSegmentsWritten(values[1..], prefix);
      assert p[1..] == ScopePattern(values[1..], prefix) && values == [values[0]] + values[1..];
    } else if prefix {
      assert [Wildcard][1..] == [];
    }
  }

  /** A path compiles to a scope if and only if it spells the scope's literals, with a wildcard after them for a prefix scope. */
  lemma ScopeExactly(re: Regexes, pattern: string, scope: Scope)
    ensures CompileScope(re, pattern) == Ok(scope)
       <==> scope.pattern == pattern && SpellsPattern(re, pattern, ScopePattern(scope.segments, scope.prefix))
  {
    hide Compile, SpellsPattern, ScopePattern, ScopeSegments;
    CompileExactly(re, pattern, ScopePattern(scope.segments, scope.prefix));
    ScopeSegmentsWritten(scope.segments, scope.prefix);
    if Compile(re, pattern).Ok? && ScopeSegments(Compile(re, pattern).value).Some? { ScopeSegmentsRead(Compile(re, pattern).value); }
  }

  predicate ScopeMatches(scope: Scope, segments: seq<string>) {
    if scope.prefix then scope.segments <= segments else scope.segments == segments
  }

  function PathSegments(path: string): seq<string> {
    DecodeAll(SplitSegments(path))
  }

  predicate InScope(layer: Layer, segments: seq<string>) {
    layer.scope.None? || ScopeMatches(layer.scope.value, segments)
  }

  /** The reference: every scope checked on every request, in `use` order. */
  function Offered(layers: seq<Layer>, segments: seq<string>): seq<Handler> {
    if layers == [] then []
    else
      (if InScope(layers[0], segments) then [layers[0].handler] else []) + Offered(layers[1..], segments)
  }

  /** A scope admits exactly the requests its own pattern, read as a route, would match, the bare prefix of a wildcard included. */
  lemma {:induction false} ScopeIsPattern(re: Regexes, p: seq<Segment>, q: Query)
    requires ScopeSegments(p).Some? && WellFormed(p)
    ensures var scope := Scope("", ScopeSegments(p).value.0, ScopeSegments(p).value.1);
            Matches(re, p, q) ==> ScopeMatches(scope, DecodeAll(q.segs))
    ensures var scope := Scope("", ScopeSegments(p).value.0, ScopeSegments(p).value.1);
            ScopeMatches(scope, DecodeAll(q.segs)) ==> Matches(re, p, q.(slash := true))
  {
    if p != [] {
      WellFormedTail(p);
      if p[0].Static? {
        hide ScopeMatches, DecodeAll;
        var rest := ScopeSegments(p[1..]).value;
        if q.segs != [] {
          ScopeIsPattern(re, p[1..], q.(segs := q.segs[1..]));
          ScopeStep(p[0].value, rest.0, rest.1, q.segs);
        } else {
          ScopeNeeds(p[0].value, rest.0, rest.1);
        }
      }
    }
  }

  lemma ScopeStep(head: string, tail: seq<string>, prefix: bool, segs: seq<string>)
    requires segs != []
    ensures ScopeMatches(Scope("", [head] + tail, prefix), DecodeAll(segs))
       <==> head == DecodeSegment(segs[0]) && ScopeMatches(Scope("", tail, prefix), DecodeAll(segs[1..]))
  {
    hide DecodeSegment;
    var x, d := [head] + tail, DecodeAll(segs);
    assert x[0] == head && x[1..] == tail;
    assert d[0] == DecodeSegment(segs[0]) && d[1..] == DecodeAll(segs[1..]);
    assert x == d <==> x[0] == d[0] && x[1..] == d[1..] by { assert x == [x[0]] + x[1..] && d == [d[0]] + d[1..]; }
    assert x <= d <==> x[0] == d[0] && x[1..] <= d[1..] by { assert x == [x[0]] + x[1..] && d == [d[0]] + d[1..]; }
  }

  lemma ScopeNeeds(head: string, tail: seq<string>, prefix: bool)
    ensures !ScopeMatches(Scope("", [head] + tail, prefix), DecodeAll([]))
  {
  }

  /** So a compiled scope admits a path exactly when its pattern, read as a route, matches it with a trailing slash. */
  lemma ScopeOfPattern(re: Regexes, pattern: string, path: string)
    requires CompileScope(re, pattern).Ok?
    ensures ScopeMatches(CompileScope(re, pattern).value, PathSegments(path))
       <==> Matches(re, Compile(re, pattern).value, QueryOf(path).(slash := true))
  {
    ScopeIsPattern(re, Compile(re, pattern).value, QueryOf(path).(slash := true));
  }

  // ---------------------------------------------------------------- the plan of a route

  datatype Relation = Always | Never | Conditional

  predicate AllStatic(route: seq<Segment>) {
    forall s | s in route :: s.Static?
  }

  function PrefixRelation(scope: seq<string>, route: seq<Segment>, index: nat): Relation
    decreases |scope| - index
  {
    if index >= |scope| then Always
    else if index >= |route| then if AllStatic(route) then Never else Conditional
    else if !route[index].Static? then Conditional
    else if route[index].value != scope[index] then Never
    else PrefixRelation(scope, route, index + 1)
  }

  function RouteRelation(scope: Scope, route: seq<Segment>): Relation {
    if !scope.prefix then
      if |route| == |scope.segments| && forall i | 0 <= i < |route| :: route[i] == Static(scope.segments[i]) then Always
      else if AllStatic(route) then Never
      else Conditional
    else if scope.segments == [] then Always
    else PrefixRelation(scope.segments, route, 0)
  }

  /** What setup leaves in a chain: the layer itself, or a wrapper that checks the scope on each request. */
  datatype Planned = Direct(handler: Handler) | Wrapped(scope: Scope, handler: Handler, offset: nat)

  /** `offset` is how many segments a mounted route's prefix has. */
  function PlanOne(layer: Layer, route: seq<Segment>, offset: nat): seq<Planned> {
    if layer.scope.None? then [Direct(layer.handler)]
    else
      match RouteRelation(layer.scope.value, route)
      case Always => [Direct(layer.handler)]
      case Never => []
      case Conditional => [Wrapped(layer.scope.value, layer.handler, offset)]
  }

  function PlanOf(layers: seq<Layer>, route: seq<Segment>, offset: nat): seq<Planned> {
    if layers == [] then [] else PlanOne(layers[0], route, offset) + PlanOf(layers[1..], route, offset)
  }

  /** `segments.slice(offset)`. */
  function Slice(segments: seq<string>, offset: nat): seq<string> {
    if offset <= |segments| then segments[offset..] else []
  }

  /** The handlers of a plan that a request reaches; a wrapper out of scope goes straight on. */
  function Reached(plan: seq<Planned>, segments: seq<string>): seq<Handler> {
    if plan == [] then []
    else
      (match plan[0]
       case Direct(h) => [h]
       case Wrapped(scope, h, offset) => if ScopeMatches(scope, Slice(segments, offset)) then [h] else [])
      + Reached(plan[1..], segments)
  }

  /** What a matched request shares with the leading static segments of its route. */
  lemma {:induction false} StaticLead(re: Regexes, route: seq<Segment>, q: Query, index: nat)
    requires Matches(re, route, q) && index <= |route| && forall i | 0 <= i < index :: route[i].Static?
    ensures index <= |q.segs|
    ensures forall i | 0 <= i < index :: DecodeSegment(q.segs[i]) == route[i].value
    ensures index == |route| ==> |q.segs| == index
  {
    if index > 0 { StaticLead(re, route[1..], q.(segs := q.segs[1..]), index - 1); }
  }

  lemma {:induction false} PrefixRelationHolds(re: Regexes, scope: seq<string>, route: seq<Segment>, q: Query, index: nat)
    requires Matches(re, route, q) && index <= |scope| && index <= |route|
    requires forall i | 0 <= i < index :: route[i] == Static(scope[i])
    ensures PrefixRelation(scope, route, index) == Always ==> scope <= DecodeAll(q.segs)
    ensures PrefixRelation(scope, route, index) == Never ==> !(scope <= DecodeAll(q.segs))
    decreases |scope| - index
  {
    StaticLead(re, route, q, index);
    if index < |scope| && index < |route| && route[index].Static? {
      StaticLead(re, route, q, index + 1);
      if route[index].value == scope[index] { PrefixRelationHolds(re, scope, route, q, index + 1); }
    }
  }

  /** A verdict reached at setup holds for every request the route can match. */
  lemma RelationHolds(re: Regexes, scope: Scope, route: seq<Segment>, q: Query)
    requires Matches(re, route, q)
    ensures RouteRelation(scope, route) == Always ==> ScopeMatches(scope, DecodeAll(q.segs))
    ensures RouteRelation(scope, route) == Never ==> !ScopeMatches(scope, DecodeAll(q.segs))
  {
    if scope.prefix {
      PrefixRelationHolds(re, scope.segments, route, q, 0);
    } else if RouteRelation(scope, route) != Conditional {
      forall i | 0 <= i < |route| ensures route[i].Static? { assert route[i] in route; }
      StaticLead(re, route, q, |route|);
      var segments := DecodeAll(q.segs);
      if segments == scope.segments {
        forall i | 0 <= i < |route| ensures route[i] == Static(scope.segments[i]) {
          assert segments[i] == DecodeSegment(q.segs[i]);
        }
      }
    }
  }

  /** Past its mount prefix, the partially evaluated plan offers a matched request exactly what the reference offers it. */
  lemma {:induction false} PlanIsExact(re: Regexes, layers: seq<Layer>, route: seq<Segment>, q: Query, whole: seq<string>, offset: nat)
    requires Matches(re, route, q) && Slice(whole, offset) == DecodeAll(q.segs)
    ensures Reached(PlanOf(layers, route, offset), whole) == Offered(layers, DecodeAll(q.segs))
  {
    if layers != [] {
      PlanIsExact(re, layers[1..], route, q, whole, offset);
      if layers[0].scope.Some? { RelationHolds(re, layers[0].scope.value, route, q); }
      var rest := PlanOf(layers[1..], route, offset);
      assert PlanOne(layers[0], route, offset) == [] ==> PlanOf(layers, route, offset) == rest;
      assert PlanOne(layers[0], route, offset) != [] ==> PlanOf(layers, route, offset)[1..] == rest;
    }
  }

  lemma {:induction false} StaticPrefixDecided(scope: seq<string>, route: seq<Segment>, index: nat)
    requires AllStatic(route)
    ensures PrefixRelation(scope, route, index) != Conditional
    decreases |scope| - index
  {
    if index < |scope| && index < |route| {
      assert route[index] in route;
      StaticPrefixDecided(scope, route, index + 1);
    }
  }

  /** Every scope is decided at setup for a static route: what its plan reaches does not depend on the request. */
  lemma {:induction false} StaticPlanIsFixed(layers: seq<Layer>, route: seq<Segment>, offset: nat, a: seq<string>, b: seq<string>)
    requires AllStatic(route)
    ensures Reached(PlanOf(layers, route, offset), a) == Reached(PlanOf(layers, route, offset), b)
  {
    if layers != [] {
      StaticPlanIsFixed(layers[1..], route, offset, a, b);
      if layers[0].scope.Some? { StaticPrefixDecided(layers[0].scope.value.segments, route, 0); }
      var first, rest := PlanOne(layers[0], route, offset), PlanOf(layers[1..], route, offset);
      assert first == [] || (|first| == 1 && first[0].Direct?);
      assert first == [] ==> first + rest == rest;
      assert first != [] ==> (first + rest)[0] == first[0] && (first + rest)[1..] == rest;
    }
  }

  // ---------------------------------------------------------------- mounted routes

  function RebasedOne(p: Planned, offset: nat): Planned {
    if p.Wrapped? then p.(offset := p.offset + offset) else p
  }

  /** What a second mount makes of a plan. */
  function Rebased(plan: seq<Planned>, offset: nat): (r: seq<Planned>)
    ensures |r| == |plan|
  {
    if plan == [] then [] else [RebasedOne(plan[0], offset)] + Rebased(plan[1..], offset)
  }

  /** A rebased plan reaches, on the whole path, what the plan reaches on the path below the mount. */
  lemma {:induction false} RebasedReaches(plan: seq<Planned>, segments: seq<string>, offset: nat)
    ensures Reached(Rebased(plan, offset), segments) == Reached(plan, Slice(segments, offset))
  {
    if plan != [] {
      RebasedReaches(plan[1..], segments, offset);
      assert Rebased(plan, offset)[1..] == Rebased(plan[1..], offset);
      if plan[0].Wrapped? {
        assert Slice(segments, plan[0].offset + offset) == Slice(Slice(segments, offset), plan[0].offset);
      }
    }
  }

  /** Every segment takes exactly one segment of a request. */
  predicate OneEach(base: seq<Segment>) {
    forall s | s in base :: s.Static? || (s.Param? && !s.optional)
  }

  lemma {:induction false} BelowBase(re: Regexes, base: seq<Segment>, route: seq<Segment>, q: Query)
    requires OneEach(base) && Matches(re, base + route, q)
    ensures |base| <= |q.segs| && Matches(re, route, q.(segs := q.segs[|base|..]))
  {
    if base == [] {
      assert base + route == route;
    } else {
      assert (base + route)[1..] == base[1..] + route && base[0] in base && (base + route)[0] == base[0];
      assert forall s | s in base[1..] :: s in base;
      BelowBase(re, base[1..], route, q.(segs := q.segs[1..]));
    }
  }

  /** A mounted application's layers run on exactly the requests they would run on below the mount, however deep the mounts. */
  lemma MountedIsExact(re: Regexes, layers: seq<Layer>, base: seq<Segment>, inner: seq<Segment>, route: seq<Segment>, q: Query)
    requires OneEach(base) && OneEach(inner) && Matches(re, base + (inner + route), q)
    ensures Reached(PlanOf(layers, inner + route, |base|), DecodeAll(q.segs)) == Offered(layers, Slice(DecodeAll(q.segs), |base|))
    ensures Reached(Rebased(PlanOf(layers, route, |inner|), |base|), DecodeAll(q.segs)) == Offered(layers, Slice(DecodeAll(q.segs), |base| + |inner|))
  {
    var whole := DecodeAll(q.segs);
    BelowBase(re, base, inner + route, q);
    var below := q.(segs := q.segs[|base|..]);
    assert Slice(whole, |base|) == DecodeAll(below.segs);
    PlanIsExact(re, layers, inner + route, below, whole, |base|);
    BelowBase(re, inner, route, below);
    var last := below.(segs := below.segs[|inner|..]);
    assert Slice(DecodeAll(below.segs), |inner|) == DecodeAll(last.segs) == whole[|base| + |inner|..];
    RebasedReaches(PlanOf(layers, route, |inner|), whole, |base|);
    PlanIsExact(re, layers, route, last, DecodeAll(below.segs), |inner|);
  }

  predicate NoWildcard(p: seq<Segment>) {
    forall s | s in p :: !s.Wildcard?
  }

  /** Without a wildcard no segment of a pattern takes more than one segment of a request. */
  lemma {:induction false} TakesAtMost(re: Regexes, base: seq<Segment>, q: Query)
    requires NoWildcard(base) && Matches(re, base, q)
    ensures |q.segs| <= |base|
    decreases |base|
  {
    if base != [] {
      assert base[0] in base && forall s | s in base[1..] :: s in base;
      if base[0].Param? && base[0].optional && Matches(re, base[1..], q) { TakesAtMost(re, base[1..], q); }
      else { TakesAtMost(re, base[1..], q.(segs := q.segs[1..])); }
    }
  }

  /** What the mounted route's plan reaches is what its application offers below the mount, whatever follows the prefix. */
  ghost predicate OffsetServes(re: Regexes, offset: nat, head: seq<string>) {
    forall layers, route, rest, slash | Matches(re, route, Query(rest, slash)) ::
      Reached(PlanOf(layers, route, offset), DecodeAll(head + rest)) == Offered(layers, DecodeAll(rest))
  }

  lemma OffsetMissed(re: Regexes, offset: nat, head: seq<string>, h: Handler)
    requires |head| < offset
    ensures var layers, route, rest := [Layer(Some(Scope("/a", ["a"], false)), h)], [Param("id", None, false)], ["a"];
            && Matches(re, route, Query(rest, false))
            && Reached(PlanOf(layers, route, offset), DecodeAll(head + rest)) == []
            && Offered(layers, DecodeAll(rest)) == [h]
  {
    var layers, route, rest := [Layer(Some(Scope("/a", ["a"], false)), h)], [Param("id", None, false)], ["a"];
    DecodePlainAll(rest);
    assert route[1..] == [] && rest[1..] == [] && !route[0].Static? && route[0] in route;
    assert Matches(re, route[1..], Query([], false));
    assert RouteRelation(layers[0].scope.value, route) == Conditional;
    var wrapped := [Wrapped(layers[0].scope.value, h, offset)];
    assert layers[1..] == [] && wrapped + [] == wrapped && wrapped[1..] == [] && [h] + [] == [h];
    assert PlanOf(layers, route, offset) == wrapped + PlanOf(layers[1..], route, offset);
    assert |DecodeAll(head + rest)| <= offset;
  }

  lemma SliceDecoded(head: seq<string>, rest: seq<string>)
    ensures Slice(DecodeAll(head + rest), |head|) == DecodeAll(rest)
  {
  }

  /** A mount offset is exact for a request if and only if the prefix took one segment for each of its own. */
  lemma OffsetExactly(re: Regexes, base: seq<Segment>, head: seq<string>)
    requires NoWildcard(base) && Matches(re, base, Query(head, false))
    ensures |head| <= |base| && (OffsetServes(re, |base|, head) <==> |head| == |base|)
  {
    TakesAtMost(re, base, Query(head, false));
    hide DecodeAll, PlanOf, Reached, Offered, Slice, Matches;
    if |head| == |base| {
      forall layers, route, rest, slash | Matches(re, route, Query(rest, slash))
        ensures Reached(PlanOf(layers, route, |base|), DecodeAll(head + rest)) == Offered(layers, DecodeAll(rest))
      {
        SliceDecoded(head, rest);
        PlanIsExact(re, layers, route, Query(rest, slash), DecodeAll(head + rest), |base|);
      }
    } else {
      OffsetMissed(re, |base|, head, 0);
    }
  }

  /** A request that takes nothing for the optional segments. */
  function Shortest(base: seq<Segment>): (head: seq<string>)
    ensures |head| <= |base| && (|head| == |base| ==> forall s | s in base :: !IsOptional(s))
  {
    if base == [] then []
    else if IsOptional(base[0]) then Shortest(base[1..])
    else
      assert base == [base[0]] + base[1..];
      [if base[0].Static? then EncodeComponent(base[0].value) else "a"] + Shortest(base[1..])
  }

  lemma {:induction false} ShortestMatches(re: Regexes, base: seq<Segment>)
    requires NoWildcard(base) && Unconstrained(base)
    ensures Matches(re, base, Query(Shortest(base), false))
  {
    if base != [] {
      assert base[0] in base && forall s | s in base[1..] :: s in base;
      ShortestMatches(re, base[1..]);
      if base[0].Static? { DecodeSegmentEncoded(base[0].value); }
      if !IsOptional(base[0]) { assert Shortest(base)[1..] == Shortest(base[1..]); }
    }
  }

  /** For a whole prefix without custom expressions: on every request, if and only if each of its segments takes exactly one. */
  lemma MountExactly(re: Regexes, base: seq<Segment>)
    requires NoWildcard(base) && Unconstrained(base)
    ensures OneEach(base) <==> forall head | Matches(re, base, Query(head, false)) :: OffsetServes(re, |base|, head)
  {
    forall head | Matches(re, base, Query(head, false)) ensures |head| <= |base| && (OffsetServes(re, |base|, head) <==> |head| == |base|) {
      OffsetExactly(re, base, head);
    }
    if OneEach(base) {
      forall head | Matches(re, base, Query(head, false)) ensures |head| == |base| {
        assert base + [] == base;
        BelowBase(re, base, [], Query(head, false));
      }
    } else {
      ShortestMatches(re, base);
      assert |Shortest(base)| < |base|;
    }
  }

  /** The smallest such prefix: the layer for `/a` misses the request `/a`. */
  lemma OptionalBaseMisses(re: Regexes)
    ensures var base := [Param("x", None, true)];
            Matches(re, base, Query([], false)) && Matches(re, base, Query(["a"], false))
            && !OffsetServes(re, |base|, []) && OffsetServes(re, |base|, ["a"])
  {
    var base := [Param("x", None, true)];
    assert base[1..] == [] && ["a"][1..] == [];
    assert Matches(re, base[1..], Query([], false));
    OffsetExactly(re, base, []);
    OffsetExactly(re, base, ["a"]);
  }

  /** Under a prefix that ends in a wildcard only a root route compiles; every scope is decided for it at setup, as for an empty path below the mount. */
  lemma WildcardBase(re: Regexes, base: seq<string>, route: seq<string>, layers: seq<Layer>, offset: nat, segments: seq<string>)
    ensures route != [] ==> CompileParts(re, base + ["*"] + route).Thrown?
    ensures Reached(PlanOf(layers, [], offset), segments) == Offered(layers, [])
  {
    if route != [] { StarInside(re, base, route); }
    StaticPlanIsFixed(layers, [], offset, segments, []);
    assert Matches(re, [], Query([], false)) && DecodeAll([]) == [];
    StaticPlanIsFixed(layers, [], offset, [], []);
    PlanIsExact(re, layers, [], Query([], false), [], offset);
  }

  // ---------------------------------------------------------------- length-prefixed keys

  function Digits(n: nat): (s: string)
    ensures s != "" && forall c | c in s :: '0' <= c <= '9'
  {
    if n < 10 then [('0' as int + n) as char] else Digits(n / 10) + [('0' as int + n % 10) as char]
  }

  function Number(s: string): int {
    if s == "" then 0 else Number(s[..|s| - 1]) * 10 + (s[|s| - 1] as int - '0' as int)
  }

  lemma {:induction false} NumberOfDigits(n: nat)
    ensures Number(Digits(n)) == n
  {
    var s := Digits(n);
    if n < 10 {
      assert s[..|s| - 1] == "";
    } else {
      NumberOfDigits(n / 10);
      assert s[..|s| - 1] == Digits(n / 10);
    }
  }

  function KeyOf(segments: seq<string>): string {
    if segments == [] then "" else Digits(|segments[0]|) + ":" + segments[0] + KeyOf(segments[1..])
  }

  lemma ColonSplits(a: string, b: string, x: string, y: string)
    requires ':' !in a && ':' !in b && a + ":" + x == b + ":" + y
    ensures a == b && x == y
  {
    var s := a + ":" + x;
    assert s[|a|] == ':' && s == b + ":" + y && s[|b|] == ':';
    assert (forall i | 0 <= i < |a| :: s[i] == a[i]) && (forall i | 0 <= i < |b| :: s[i] == b[i]);
    assert |a| == |b|;
    assert a == s[..|a|] && b == s[..|b|];
    assert x == s[|a| + 1..] && y == s[|b| + 1..];
  }

  /** Different segment lists never share a key, whatever characters they hold. */
  lemma {:induction false} KeyOfInjective(a: seq<string>, b: seq<string>)
    requires KeyOf(a) == KeyOf(b)
    ensures a == b
  {
    if a != [] && b != [] {
      var x, y := a[0] + KeyOf(a[1..]), b[0] + KeyOf(b[1..]);
      assert KeyOf(a) == Digits(|a[0]|) + ":" + x;
      assert KeyOf(b) == Digits(|b[0]|) + ":" + y;
      ColonSplits(Digits(|a[0]|), Digits(|b[0]|), x, y);
      NumberOfDigits(|a[0]|);
      NumberOfDigits(|b[0]|);
      assert a[0] == x[..|a[0]|] && b[0] == y[..|b[0]|];
      assert KeyOf(a[1..]) == x[|a[0]|..] && KeyOf(b[1..]) == y[|b[0]|..];
      KeyOfInjective(a[1..], b[1..]);
      assert a == [a[0]] + a[1..] && b == [b[0]] + b[1..];
    }
  }
}
