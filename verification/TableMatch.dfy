/** The whole-table expression: assembly, one execution, and the scan that resolves the winning route. */
module TableMatch {
  import opened Wrappers
  import opened Paths
  import opened Patterns
  import opened Trie
  import opened TableRegex
  import opened RegexItems

  datatype RegexRoute = RegexRoute(target: Ref, names: seq<string>, groupStart: nat, wildLast: bool)

  /** The alternatives in emission order, and the routes they belong to. */
  datatype Table = Table(alternatives: seq<seq<Item>>, routes: seq<RegexRoute>)

  /** The router's product: `values[offset + i]` is the capture of `names[i]`. */
  datatype RouteMatch = RouteMatch(target: Ref, names: seq<string>, values: seq<Option<string>>, offset: nat)

  /** What a reader of the product sees. */
  function Seen(m: RouteMatch): (Ref, seq<string>, seq<Option<string>>)
    requires m.offset + |m.names| <= |m.values|
  {
    (m.target, m.names, m.values[m.offset..m.offset + |m.names|])
  }

  function Somes(values: seq<string>): (r: seq<Option<string>>)
    ensures |r| == |values| && forall i | 0 <= i < |r| :: r[i] == Some(values[i])
  {
    seq(|values|, i requires 0 <= i < |values| => Some(values[i]))
  }

  function Nones(n: nat): (r: seq<Option<string>>)
    ensures |r| == n && forall i | 0 <= i < n :: r[i] == None
  {
    seq(n, _ => None)
  }

  // ---------------------------------------------------------------- assembly

  predicate Joins(e: Eligible, impure: set<string>) {
    e.segments != [] && e.segments[0].Static? && !IsStatic(e.segments) && e.segments[0].value !in impure
  }

  /** The patterns of pure buckets, in registration order. */
  function Collected(index: seq<Eligible>, impure: set<string>): (r: seq<Eligible>)
    ensures forall e :: e in r <==> e in index && Joins(e, impure)
  {
    if index == [] then []
    else
      var init := Collected(index[..|index| - 1], impure);
      var last := index[|index| - 1];
      assert index == index[..|index| - 1] + [last];
      if Joins(last, impure) then init + [last] else init
  }

  function Routes(sorted: seq<Eligible>, start: nat): (r: seq<RegexRoute>)
    ensures |r| == |sorted|
  {
    if sorted == [] then []
    else
      var p := sorted[0].segments;
      [RegexRoute(sorted[0].target, ParamNamesOf(p), start, WildLast(p))]
      + Routes(sorted[1..], start + |ParamNamesOf(p)|)
  }

  function Alternatives(sorted: seq<Eligible>): (r: seq<seq<Item>>)
    ensures |r| == |sorted| && forall i | 0 <= i < |r| :: r[i] == ItemsOf(sorted[i].segments)
  {
    seq(|sorted|, i requires 0 <= i < |sorted| => ItemsOf(sorted[i].segments))
  }

  function CompileTable(index: seq<Eligible>, impure: set<string>): Option<Table> {
    var sorted := StableSort(Collected(index, impure));
    if sorted == [] then None else Some(Table(Alternatives(sorted), Routes(sorted, 1)))
  }

  lemma {:induction false} NamesConcat(a: seq<Segment>, b: seq<Segment>)
    ensures ParamNamesOf(a + b) == ParamNamesOf(a) + ParamNamesOf(b)
  {
    if a == [] {
      assert a + b == b;
    } else {
      NamesConcat(a[1..], b);
      assert (a + b)[1..] == a[1..] + b;
    }
  }

  lemma {:induction false} RoutesSnoc(sorted: seq<Eligible>, e: Eligible, start: nat)
    ensures Routes(sorted + [e], start)
         == Routes(sorted, start)
            + [RegexRoute(e.target, ParamNamesOf(e.segments), start + GroupTotal(sorted), WildLast(e.segments))]
  {
    if sorted != [] {
      RoutesSnoc(sorted[1..], e, start + |ParamNamesOf(sorted[0].segments)|);
      assert (sorted + [e])[1..] == sorted[1..] + [e];
    }
  }

  function GroupTotal(sorted: seq<Eligible>): nat {
    if sorted == [] then 0 else |ParamNamesOf(sorted[0].segments)| + GroupTotal(sorted[1..])
  }

  lemma {:induction false} GroupTotalSnoc(sorted: seq<Eligible>, e: Eligible)
    ensures GroupTotal(sorted + [e]) == GroupTotal(sorted) + |ParamNamesOf(e.segments)|
  {
    if sorted != [] {
      GroupTotalSnoc(sorted[1..], e);
      assert (sorted + [e])[1..] == sorted[1..] + [e];
    }
  }

  function ItemsOfSegment(s: Segment): seq<Item> {
    match s
    case Static(v) => Literal(v)
    case Param(_, _, _) => [OneSegment]
    case Wildcard => [Anything]
  }

  /** The items of a pattern cut after `i` segments, before the closing `/?`. */
  function ItemsUpTo(p: seq<Segment>, i: nat): seq<Item>
    requires i <= |p|
  {
    if i == 0 then [] else ItemsUpTo(p, i - 1) + ([Lit('/')] + ItemsOfSegment(p[i - 1]))
  }

  lemma ItemsStep(p: seq<Segment>)
    requires p != [] && !p[0].Wildcard?
    ensures ItemsOf(p) == [Lit('/')] + ItemsOfSegment(p[0]) + ItemsOf(p[1..])
  {
  }

  lemma {:induction false} ItemsUpToRest(p: seq<Segment>, i: nat)
    requires i <= |p| && WellFormed(p) && (i < |p| || !WildLast(p))
    ensures ItemsOf(p) == ItemsUpTo(p, i) + ItemsOf(p[i..])
  {
    if i == 0 {
      assert p[0..] == p;
    } else {
      ItemsUpToRest(p, i - 1);
      assert p[i - 1..][1..] == p[i..];
      assert SegmentOk(p[i - 1], i - 1 == |p| - 1);
      ItemsStep(p[i - 1..]);
    }
  }

  lemma NamesSnoc(p: seq<Segment>, i: nat)
    requires i < |p|
    ensures ParamNamesOf(p[..i + 1]) == ParamNamesOf(p[..i]) + (if p[i].Static? then [] else [NameOf(p[i])])
  {
    assert p[..i + 1] == p[..i] + [p[i]];
    NamesConcat(p[..i], [p[i]]);
    assert [p[i]][1..] == [];
  }

  /** The source text of one alternative, segment by segment. */
  method EmitAlternative(p: seq<Segment>) returns (items: seq<Item>, names: seq<string>)
    requires WellFormed(p) && p != []
    ensures items == ItemsOf(p)
    ensures names == ParamNamesOf(p)
  {
    items, names := [], [];
    for i := 0 to |p|
      invariant items == ItemsUpTo(p, i)
      invariant names == ParamNamesOf(p[..i])
    {
      NamesSnoc(p, i);
      if p[i].Static? {
        items := items + ([Lit('/')] + Literal(p[i].value));
      } else {
        items := items + ([Lit('/')] + (if p[i].Wildcard? then [Anything] else [OneSegment]));
        names := names + [NameOf(p[i])];
      }
    }
    assert p[..|p|] == p;
    if !p[|p| - 1].Wildcard? {
      ItemsUpToRest(p, |p|);
      items := items + [MaybeSlash];
    } else {
      ItemsUpToRest(p, |p| - 1);
      assert p[|p| - 1..] == [Wildcard];
    }
  }

  method CollectPatterns(index: seq<Eligible>, impure: set<string>) returns (collected: seq<Eligible>)
    ensures collected == Collected(index, impure)
  {
    collected := [];
    for i := 0 to |index|
      invariant collected == Collected(index[..i], impure)
    {
      assert index[..i + 1][..i] == index[..i];
      if Joins(index[i], impure) { collected := collected + [index[i]]; }
    }
    assert index[..|index|] == index;
  }

  method Assemble(sorted: seq<Eligible>) returns (table: Table)
    requires forall e | e in sorted :: WellFormed(e.segments) && e.segments != []
    ensures table == Table(Alternatives(sorted), Routes(sorted, 1))
  {
    var alternatives, routes, groupCount := [], [], 0;
    for i := 0 to |sorted|
      invariant alternatives == Alternatives(sorted[..i])
      invariant routes == Routes(sorted[..i], 1)
      invariant groupCount == GroupTotal(sorted[..i])
    {
      var e := sorted[i];
      assert e in sorted;
      assert sorted[..i + 1] == sorted[..i] + [e];
      RoutesSnoc(sorted[..i], e, 1);
      GroupTotalSnoc(sorted[..i], e);
      var items, names := EmitAlternative(e.segments);
      alternatives := alternatives + [items];
      routes := routes + [RegexRoute(e.target, names, groupCount + 1, WildLast(e.segments))];
      groupCount := groupCount + |names|;
    }
    assert sorted[..|sorted|] == sorted;
    return Table(alternatives, routes);
  }

  method CompileTableRegex(index: seq<Eligible>, impure: set<string>) returns (table: Option<Table>)
    requires AllWellFormed(index)
    ensures table == CompileTable(index, impure)
  {
    var collected := CollectPatterns(index, impure);
    StableSortSorts(collected);
    var sorted := StableSort(collected);
    if collected == [] { return None; }
    assert collected[0] in sorted;
    var assembled := Assemble(sorted);
    return Some(assembled);
  }

  // ---------------------------------------------------------------- execution

  function CaptureCount(items: seq<Item>): nat {
    if items == [] then 0 else (if items[0].OneSegment? || items[0].Anything? then 1 else 0) + CaptureCount(items[1..])
  }

  function CaptureTotal(alternatives: seq<seq<Item>>): nat {
    if alternatives == [] then 0 else CaptureCount(alternatives[0]) + CaptureTotal(alternatives[1..])
  }

  /** The capture groups of the leftmost alternative that matches; every other group is undefined. */
  function Groups(alternatives: seq<seq<Item>>, path: string): Option<seq<Option<string>>> {
    if alternatives == [] then None
    else
      match RunItems(alternatives[0], path)
      case Some(caps) => Some(Somes(caps) + Nones(CaptureTotal(alternatives[1..])))
      case None =>
        match Groups(alternatives[1..], path)
        case None => None
        case Some(groups) => Some(Nones(CaptureCount(alternatives[0])) + groups)
  }

  /** `regex.exec(path)`: the whole match first, then the groups. */
  function Exec(alternatives: seq<seq<Item>>, path: string): Option<seq<Option<string>>> {
    match Groups(alternatives, path)
    case None => None
    case Some(groups) => Some([Some(path)] + groups)
  }

  datatype Answer = Answer(target: Ref, names: seq<string>, values: seq<string>)

  /** The answer of the table: the leftmost alternative that matches, its wildcard capture tidied. */
  function TableAnswer(sorted: seq<Eligible>, path: string): Option<Answer> {
    if sorted == [] then None
    else
      match RunItems(ItemsOf(sorted[0].segments), path)
      case Some(caps) =>
        Some(Answer(sorted[0].target, ParamNamesOf(sorted[0].segments), Tidy(sorted[0].segments, caps)))
      case None => TableAnswer(sorted[1..], path)
  }

  lemma {:induction false} RunCaptureCount(items: seq<Item>, s: string)
    requires RunItems(items, s).Some?
    ensures |RunItems(items, s).value| == CaptureCount(items)
    decreases |items|, 0
  {
    if items != [] {
      match items[0]
      case Lit(c) => RunCaptureCount(items[1..], s[1..]);
      case OneSegment => GreedyCaptureCount(items[1..], s, NonSlashRun(s), 1);
      case Anything => GreedyCaptureCount(items[1..], s, LineRun(s), 0);
      case MaybeSlash =>
        if s != "" && s[0] == '/' && RunItems(items[1..], s[1..]).Some? { RunCaptureCount(items[1..], s[1..]); }
        else { RunCaptureCount(items[1..], s); }
    }
  }

  lemma {:induction false} GreedyCaptureCount(items: seq<Item>, s: string, k: nat, least: nat)
    requires least <= k <= |s| && Greedy(items, s, k, least).Some?
    ensures |Greedy(items, s, k, least).value| == 1 + CaptureCount(items)
    decreases |items|, 1, k
  {
    if RunItems(items, s[k..]).Some? { RunCaptureCount(items, s[k..]); }
    else { GreedyCaptureCount(items, s, k - 1, least); }
  }

  lemma {:induction false} LiteralCaptures(text: string, items: seq<Item>)
    ensures CaptureCount(Literal(text) + items) == CaptureCount(items)
  {
    if text == "" {
      assert Literal(text) + items == items;
    } else {
      LiteralCaptures(text[1..], items);
      assert (Literal(text) + items)[1..] == Literal(text[1..]) + items;
    }
  }

  /** One group per name. */
  lemma {:induction false} NamesAreGroups(p: seq<Segment>)
    requires WellFormed(p)
    ensures CaptureCount(ItemsOf(p)) == |ParamNamesOf(p)|
    decreases |p|
  {
    if p == [] {
      assert ItemsOf(p)[1..] == [];
    } else {
      WellFormedTail(p);
      NamesAreGroups(p[1..]);
      match p[0]
      case Static(v) =>
        assert ItemsOf(p)[1..] == Literal(v) + ItemsOf(p[1..]);
        LiteralCaptures(v, ItemsOf(p[1..]));
      case Param(_, _, _) =>
        assert ItemsOf(p)[1..] == [OneSegment] + ItemsOf(p[1..]);
        assert ([OneSegment] + ItemsOf(p[1..]))[1..] == ItemsOf(p[1..]);
      case Wildcard =>
        assert ItemsOf(p)[1..] == [Anything] + [];
        assert ([Anything] + [])[1..] == [];
        assert ParamNamesOf(p) == [WILDCARD_NAME] + ParamNamesOf(p[1..]);
    }
  }

  lemma {:induction false} NamesNonEmpty(p: seq<Segment>)
    requires !IsStatic(p)
    ensures ParamNamesOf(p) != []
  {
    if p[0].Static? {
      assert p == [p[0]] + p[1..];
      NamesNonEmpty(p[1..]);
    }
  }

  /** The leftmost alternative that matches. */
  function Winner(sorted: seq<Eligible>, path: string): (k: nat)
    ensures k <= |sorted|
    ensures k < |sorted| ==> RunItems(ItemsOf(sorted[k].segments), path).Some?
    ensures forall i | 0 <= i < k :: RunItems(ItemsOf(sorted[i].segments), path).None?
  {
    if sorted == [] || RunItems(ItemsOf(sorted[0].segments), path).Some? then 0
    else 1 + Winner(sorted[1..], path)
  }

  lemma {:induction false} AnswerIsWinner(sorted: seq<Eligible>, path: string)
    ensures TableAnswer(sorted, path)
         == var k := Winner(sorted, path);
            if k == |sorted| then None
            else Some(Answer(sorted[k].target, ParamNamesOf(sorted[k].segments),
                             Tidy(sorted[k].segments, RunItems(ItemsOf(sorted[k].segments), path).value)))
  {
    if sorted != [] { AnswerIsWinner(sorted[1..], path); }
  }

  lemma {:induction false} RoutesAt(sorted: seq<Eligible>, start: nat, i: nat)
    requires i < |sorted|
    ensures Routes(sorted, start)[i]
         == RegexRoute(sorted[i].target, ParamNamesOf(sorted[i].segments), start + GroupTotal(sorted[..i]), WildLast(sorted[i].segments))
  {
    if i > 0 {
      RoutesAt(sorted[1..], start + |ParamNamesOf(sorted[0].segments)|, i - 1);
      assert sorted[..i][1..] == sorted[1..][..i - 1];
    }
  }

  ghost predicate Captures(sorted: seq<Eligible>) {
    forall e | e in sorted :: WellFormed(e.segments) && !IsStatic(e.segments)
  }

  /** Group numbers strictly grow along the routes. */
  lemma {:induction false} GroupsGrow(sorted: seq<Eligible>, i: nat, k: nat)
    requires i < k <= |sorted| && Captures(sorted)
    ensures GroupTotal(sorted[..i]) < GroupTotal(sorted[..k])
    decreases k
  {
    var e := sorted[k - 1];
    assert e in sorted;
    NamesNonEmpty(e.segments);
    assert sorted[..k] == sorted[..k - 1] + [e];
    GroupTotalSnoc(sorted[..k - 1], e);
    if i < k - 1 { GroupsGrow(sorted, i, k - 1); }
  }

  lemma NonesConcat(n: nat, m: nat, rest: seq<Option<string>>)
    ensures Nones(n) + (Nones(m) + rest) == Nones(n + m) + rest
  {
    assert Nones(n) + Nones(m) == Nones(n + m);
  }

  /** The winner's captures and everything after them. */
  function FromWinner(sorted: seq<Eligible>, path: string): seq<Option<string>>
    requires Winner(sorted, path) < |sorted|
  {
    var k := Winner(sorted, path);
    Somes(RunItems(ItemsOf(sorted[k].segments), path).value) + Nones(CaptureTotal(Alternatives(sorted)[k + 1..]))
  }

  lemma WinnerTail(sorted: seq<Eligible>, path: string)
    requires 0 < Winner(sorted, path) < |sorted|
    ensures Winner(sorted[1..], path) == Winner(sorted, path) - 1
    ensures FromWinner(sorted[1..], path) == FromWinner(sorted, path)
    ensures GroupTotal(sorted[..Winner(sorted, path)])
         == |ParamNamesOf(sorted[0].segments)| + GroupTotal(sorted[1..][..Winner(sorted, path) - 1])
  {
    hide RunItems, ItemsOf, ParamNamesOf;
    var k, alts := Winner(sorted, path), Alternatives(sorted);
    assert alts[1..] == Alternatives(sorted[1..]);
    assert sorted[..k][1..] == sorted[1..][..k - 1];
    assert alts[1..][k..] == alts[k + 1..];
  }

  /** The captures of the winner, and undefined everywhere else. */
  lemma {:induction false} GroupsShape(sorted: seq<Eligible>, path: string)
    requires Captures(sorted) && Winner(sorted, path) < |sorted|
    ensures Groups(Alternatives(sorted), path) == Some(Nones(GroupTotal(sorted[..Winner(sorted, path)])) + FromWinner(sorted, path))
  {
    hide RunItems, ItemsOf, ParamNamesOf;
    var k, alts := Winner(sorted, path), Alternatives(sorted);
    assert alts[1..] == Alternatives(sorted[1..]);
    if k == 0 {
      assert Nones(0) + FromWinner(sorted, path) == FromWinner(sorted, path);
    } else {
      assert sorted[0] in sorted;
      GroupsShape(sorted[1..], path);
      NamesAreGroups(sorted[0].segments);
      WinnerTail(sorted, path);
      hide FromWinner, GroupTotal, Nones, CaptureTotal, Captures;
      NonesConcat(|ParamNamesOf(sorted[0].segments)|, GroupTotal(sorted[1..][..k - 1]), FromWinner(sorted, path));
    }
  }

  lemma {:induction false} NoGroups(sorted: seq<Eligible>, path: string)
    ensures Groups(Alternatives(sorted), path).None? <==> TableAnswer(sorted, path).None?
  {
    if sorted != [] {
      assert Alternatives(sorted)[1..] == Alternatives(sorted[1..]);
      NoGroups(sorted[1..], path);
    }
  }

  /** Drop one final slash from a group. */
  function Overwritten(values: seq<Option<string>>, index: nat): (r: seq<Option<string>>)
    requires index < |values| && values[index].Some?
    ensures |r| == |values|
  {
    values[index := Some(NormalizePath(values[index].value))]
  }

  /** One execution, then the first route whose first group is defined. */
  method MatchTableRegex(ghost sorted: seq<Eligible>, table: Table, path: string) returns (m: Option<RouteMatch>)
    requires table == Table(Alternatives(sorted), Routes(sorted, 1)) && Captures(sorted)
    ensures m.None? <==> EndsWithTwoSlashes(path) || TableAnswer(sorted, path).None?
    ensures m.Some? ==> m.value.offset + |m.value.names| <= |m.value.values|
    ensures m.Some? ==>
      var a := TableAnswer(sorted, path).value; Seen(m.value) == (a.target, a.names, Somes(a.values))
  {
    if |path| > 1 && path[|path| - 1] == '/' && path[|path| - 2] == '/' {
      return None;
    }
    var result := Exec(table.alternatives, path);
    NoGroups(sorted, path);
    AnswerIsWinner(sorted, path);
    if result.None? {
      return None;
    }
    ghost var k := Winner(sorted, path);
    for i := 0 to |table.routes|
      invariant i <= k
    {
      var route := table.routes[i];
      WinnerGroups(sorted, path, i);
      if result.value[route.groupStart].Some? {
        RoutesAt(sorted, 1, i);
        var values := ProductOf(sorted, path, i, route, result.value);
        return Some(RouteMatch(route.target, route.names, values, route.groupStart));
      }
    }
    assert false;
  }

  /** The execution array as the values of the winning route, its wildcard group tidied in place. */
  method ProductOf(ghost sorted: seq<Eligible>, path: string, ghost k: nat, route: RegexRoute, result: seq<Option<string>>)
    returns (values: seq<Option<string>>)
    requires Captures(sorted) && k == Winner(sorted, path) < |sorted|
    requires Exec(Alternatives(sorted), path) == Some(result) && route == Routes(sorted, 1)[k]
    ensures route.groupStart + |route.names| <= |values|
    ensures values[route.groupStart..route.groupStart + |route.names|] == Somes(Tidy(sorted[k].segments, WinnerCaptures(sorted, path)))
  {
    values := result;
    WinnerSlice(sorted, path);
    ghost var caps := WinnerCaptures(sorted, path);
    TidySomes(sorted[k].segments, caps, result, route.groupStart);
    assert sorted[k] in sorted;
    if route.wildLast {
      TrailingCapture(sorted[k].segments, path);
      var index := route.groupStart + |route.names| - 1;
      assert result[index] == Some(caps[|caps| - 1]);
      if |path| > 1 && path[|path| - 1] == '/' {
        var capture := values[index].value;
        if |capture| > 1 && capture[|capture| - 1] == '/' {
          values := values[index := Some(capture[..|capture| - 1])];
        }
      }
    }
  }

  /** A wildcard capture has a slash to drop only when the path ends with one. */
  lemma TrailingCapture(p: seq<Segment>, path: string)
    requires WellFormed(p) && WildLast(p) && RunItems(ItemsOf(p), path).Some?
    ensures var caps := RunItems(ItemsOf(p), path).value;
            caps != [] && ((EndsWithSlash(path) && |path| > 1) || NormalizePath(caps[|caps| - 1]) == caps[|caps| - 1])
  {
    LastCaptureEnds(p, path);
  }

  /** Overwriting the wildcard's group in the execution array is tidying the captures; otherwise there is nothing to tidy. */
  lemma TidySomes(p: seq<Segment>, caps: seq<string>, groups: seq<Option<string>>, start: nat)
    requires start + |caps| <= |groups| && caps != []
    requires groups[start..start + |caps|] == Somes(caps)
    ensures groups[start + |caps| - 1] == Some(caps[|caps| - 1])
    ensures WildLast(p) ==> Overwritten(groups, start + |caps| - 1)[start..start + |caps|] == Somes(Tidy(p, caps))
    ensures !WildLast(p) || NormalizePath(caps[|caps| - 1]) == caps[|caps| - 1] ==> groups[start..start + |caps|] == Somes(Tidy(p, caps))
  {
    var last := |caps| - 1;
    assert groups[start..start + |caps|][last] == groups[start + last];
    if WildLast(p) {
      var over := Overwritten(groups, start + last)[start..start + |caps|];
      forall i | 0 <= i < |caps| ensures over[i] == Somes(Tidy(p, caps))[i] {
        assert groups[start..start + |caps|][i] == groups[start + i];
      }
      if NormalizePath(caps[last]) == caps[last] { assert Tidy(p, caps) == caps; }
    }
  }

  lemma Around(first: Option<string>, before: nat, middle: seq<Option<string>>, after: nat, groups: seq<Option<string>>)
    requires groups == [first] + (Nones(before) + (middle + Nones(after)))
    ensures 1 + before + |middle| <= |groups|
    ensures groups[1 + before..1 + before + |middle|] == middle
    ensures forall j | 1 <= j <= before :: groups[j] == None
    ensures middle != [] ==> groups[1 + before] == middle[0]
  {
  }

  function WinnerCaptures(sorted: seq<Eligible>, path: string): seq<string>
    requires Winner(sorted, path) < |sorted|
  {
    RunItems(ItemsOf(sorted[Winner(sorted, path)].segments), path).value
  }

  lemma WinnerCount(sorted: seq<Eligible>, path: string)
    requires Captures(sorted) && Winner(sorted, path) < |sorted|
    ensures |WinnerCaptures(sorted, path)| == |ParamNamesOf(sorted[Winner(sorted, path)].segments)| > 0
  {
    var e := sorted[Winner(sorted, path)];
    assert e in sorted;
    NamesNonEmpty(e.segments);
    NamesAreGroups(e.segments);
    RunCaptureCount(ItemsOf(e.segments), path);
  }

  lemma ExecShape(sorted: seq<Eligible>, path: string)
    requires Captures(sorted) && Winner(sorted, path) < |sorted|
    ensures Exec(Alternatives(sorted), path).Some?
    ensures var groups, at, caps := Exec(Alternatives(sorted), path).value, GroupTotal(sorted[..Winner(sorted, path)]), Somes(WinnerCaptures(sorted, path));
            && 1 + at + |caps| <= |groups|
            && groups[1 + at..1 + at + |caps|] == caps
            && (forall j | 1 <= j <= at :: groups[j] == None)
            && (caps != [] ==> groups[1 + at] == caps[0])
  {
    hide Groups, RunItems, ItemsOf, Winner, GroupTotal, CaptureTotal, Nones, Somes;
    GroupsShape(sorted, path);
    var k := Winner(sorted, path);
    Around(Some(path), GroupTotal(sorted[..k]), Somes(WinnerCaptures(sorted, path)),
           CaptureTotal(Alternatives(sorted)[k + 1..]), Exec(Alternatives(sorted), path).value);
  }

  /** What the scan reads at a route that is not after the winner. */
  lemma WinnerGroups(sorted: seq<Eligible>, path: string, i: nat)
    requires Captures(sorted) && Winner(sorted, path) < |sorted| && i <= Winner(sorted, path)
    ensures Exec(Alternatives(sorted), path).Some?
    ensures var groups, start := Exec(Alternatives(sorted), path).value, Routes(sorted, 1)[i].groupStart;
            start < |groups| && (groups[start].Some? <==> i == Winner(sorted, path))
  {
    RoutesAt(sorted, 1, i);
    ExecShape(sorted, path);
    WinnerCount(sorted, path);
    if i < Winner(sorted, path) { GroupsGrow(sorted, i, Winner(sorted, path)); }
  }

  /** At the winner the array holds its captures, one per name. */
  lemma WinnerSlice(sorted: seq<Eligible>, path: string)
    requires Captures(sorted) && Winner(sorted, path) < |sorted|
    ensures Exec(Alternatives(sorted), path).Some?
    ensures var groups, route, caps := Exec(Alternatives(sorted), path).value, Routes(sorted, 1)[Winner(sorted, path)], WinnerCaptures(sorted, path);
            && |route.names| == |caps| > 0
            && route.groupStart + |caps| <= |groups|
            && groups[route.groupStart..route.groupStart + |caps|] == Somes(caps)
            && route.wildLast == WildLast(sorted[Winner(sorted, path)].segments)
  {
    RoutesAt(sorted, 1, Winner(sorted, path));
    ExecShape(sorted, path);
    WinnerCount(sorted, path);
  }

  /** A wildcard capture is a suffix of the path. */
  lemma {:induction false} LastCaptureEnds(p: seq<Segment>, s: string)
    requires WellFormed(p) && WildLast(p) && RunItems(ItemsOf(p), s).Some?
    ensures var caps := RunItems(ItemsOf(p), s).value;
            caps != [] && (caps[|caps| - 1] == "" || (s != "" && |caps[|caps| - 1]| < |s| && caps[|caps| - 1][|caps[|caps| - 1]| - 1] == s[|s| - 1]))
    decreases |p|
  {
    NeedsBoundary(p, s);
    WildCaptures(p, s);
    WellFormedTail(p);
    match p[0]
    case Wildcard =>
      AfterSlash([Anything] + [], s);
      assert ([Anything] + [])[1..] == [];
      WholeLine(s[1..], LineRun(s[1..]));
    case Static(v) =>
      assert p[|p| - 1] == p[1..][|p| - 2];
      AfterSlash(Literal(v) + ItemsOf(p[1..]), s);
      RunLiteral(v, ItemsOf(p[1..]), s[1..]);
      LastCaptureEnds(p[1..], s[1..][|v|..]);
    case Param(_, _, _) =>
      assert p[|p| - 1] == p[1..][|p| - 2];
      ParamRuns(p, s);
      LastCaptureEnds(p[1..], s[1..][NonSlashRun(s[1..])..]);
  }

  lemma {:induction false} WholeLine(s: string, k: nat)
    requires k <= |s| && Greedy([], s, k, 0).Some?
    ensures Greedy([], s, k, 0).value == [s]
    decreases k
  {
    if s[k..] == "" {
      assert s[..k] == s;
      assert [s[..k]] + [] == [s];
    } else {
      WholeLine(s, k - 1);
    }
  }
}
