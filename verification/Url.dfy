/** URL building for named routes, and when matching the built URL gives the values back. */
module Url {
  import opened Wrappers
  import opened Percent
  import opened Paths
  import opened Patterns
  import opened Trie
  import opened TrieOrder
  import opened TrieInsert
  import opened TrieIndex
  import opened TrieMeaning
  import opened TrieMatcher
  import opened RegexItems
  import opened FastLayers
  import opened RouteMeaning

  type Params = map<string, string>

  function EncodeAll(parts: seq<string>): (r: seq<string>)
    ensures |r| == |parts| && forall i | 0 <= i < |r| :: r[i] == EncodeComponent(parts[i])
  {
    seq(|parts|, i requires 0 <= i < |parts| => EncodeComponent(parts[i]))
  }

  /** A wildcard value spans segments: its slashes stay separators. */
  function EncodePathValue(value: string): string {
    Join(EncodeAll(Split(value)))
  }

  /** An empty value cannot address a param, which takes a non-empty segment. */
  predicate Missing(s: Segment, params: Params)
    requires !s.Static?
  {
    NameOf(s) !in params || (s.Param? && params[NameOf(s)] == "")
  }

  function PartOf(s: Segment, params: Params): string
    requires s.Static? || !Missing(s, params)
  {
    match s
    case Static(v) => EncodeComponent(v)
    case Param(_, _, _) => EncodeComponent(params[NameOf(s)])
    case Wildcard => EncodePathValue(params[NameOf(s)])
  }

  function UrlParts(p: seq<Segment>, params: Params): Result<seq<string>> {
    if p == [] then Ok([])
    else
      var init := UrlParts(p[..|p| - 1], params);
      var last := p[|p| - 1];
      if init.Thrown? then init
      else if last.Static? || !Missing(last, params) then Ok(init.value + [PartOf(last, params)])
      else if IsOptional(last) then init
      else Thrown("Missing required parameter for url()")
  }

  function Finished(parts: seq<string>): string {
    if parts == [] then "/"
    else
      var joined := Join(parts);
      if joined != "" && joined[0] == '/' then joined else "/" + joined
  }

  function UrlOf(p: seq<Segment>, params: Params): Result<string> {
    match UrlParts(p, params)
    case Thrown(m) => Thrown(m)
    case Ok(parts) => Ok(Finished(parts))
  }

  method BuildURL(segments: seq<Segment>, params: Params) returns (r: Result<string>)
    ensures r.Ok? <==> UrlOf(segments, params).Ok?
    ensures r.Ok? ==> r == UrlOf(segments, params)
    ensures r.Thrown? <==> exists s :: s in segments && Lacks(s, params)
  {
    ThrowsExactly(segments, params);
    var parts: seq<string> := [];
    for i := 0 to |segments|
      invariant UrlParts(segments[..i], params) == Ok(parts)
    {
      var segment := segments[i];
      assert segments[..i + 1][..i] == segments[..i];
      if segment.Static? {
        parts := parts + [EncodeComponent(segment.value)];
      } else if Missing(segment, params) {
        if !IsOptional(segment) {
          ThrownStays(segments, params, i + 1);
          return Thrown("Missing required parameter for url()");
        }
      } else {
        var value := params[NameOf(segment)];
        parts := parts + [if segment.Wildcard? then EncodePathValue(value) else EncodeComponent(value)];
      }
    }
    assert segments[..|segments|] == segments;
    if parts == [] { return Ok("/"); }
    var joined := Join(parts);
    return Ok(if joined != "" && joined[0] == '/' then joined else "/" + joined);
  }

  /** A value a URL cannot do without is not there: a required param's is absent or empty, a wildcard's is absent. */
  predicate Lacks(s: Segment, params: Params) {
    match s
    case Static(_) => false
    case Param(name, _, optional) => !optional && (name !in params || params[name] == "")
    case Wildcard => "wildcard" !in params
  }

  /** Building throws exactly when some value is lacking. */
  lemma {:induction false} ThrowsExactly(p: seq<Segment>, params: Params)
    ensures UrlParts(p, params).Thrown? <==> exists s :: s in p && Lacks(s, params)
  {
    if p != [] {
      var init, last := p[..|p| - 1], p[|p| - 1];
      ThrowsExactly(init, params);
      assert p == init + [last] && last in p;
      assert Lacks(last, params) <==> !last.Static? && Missing(last, params) && !IsOptional(last);
      if s :| s in init && Lacks(s, params) { assert s in p; }
    }
  }

  /** The segments a URL shows: all but optional params without a value. */
  function Shown(p: seq<Segment>, params: Params): seq<Segment> {
    if p == [] then []
    else
      var init, last := Shown(p[..|p| - 1], params), p[|p| - 1];
      if last.Param? && last.optional && (last.name !in params || params[last.name] == "") then init else init + [last]
  }

  function UrlPart(s: Segment, params: Params): string {
    match s
    case Static(v) => EncodeComponent(v)
    case Param(name, _, _) => if name in params then EncodeComponent(params[name]) else ""
    case Wildcard => if "wildcard" in params then EncodePathValue(params["wildcard"]) else ""
  }

  function PartsFor(p: seq<Segment>, params: Params): (r: seq<string>)
    ensures |r| == |p| && forall i | 0 <= i < |p| :: r[i] == UrlPart(p[i], params)
  {
    seq(|p|, i requires 0 <= i < |p| => UrlPart(p[i], params))
  }

  /** When nothing is lacking, a URL has one part for each segment shown, in order. */
  lemma {:induction false} PartsExactly(p: seq<Segment>, params: Params)
    requires forall s | s in p :: !Lacks(s, params)
    ensures UrlParts(p, params) == Ok(PartsFor(Shown(p, params), params))
  {
    if p != [] {
      var init, last := p[..|p| - 1], p[|p| - 1];
      assert p == init + [last];
      PartsExactly(init, params);
      assert last in p && !Lacks(last, params);
      if Shown(p, params) != Shown(init, params) {
        assert PartOf(last, params) == UrlPart(last, params);
        assert PartsFor(Shown(p, params), params) == PartsFor(Shown(init, params), params) + [PartOf(last, params)];
      }
    }
  }

  lemma {:induction false} ThrownStays(p: seq<Segment>, params: Params, i: nat)
    requires i <= |p| && UrlParts(p[..i], params).Thrown?
    ensures UrlParts(p, params).Thrown?
    decreases |p|
  {
    if i == |p| {
      assert p[..i] == p;
    } else {
      assert p[..|p| - 1][..i] == p[..i];
      ThrownStays(p[..|p| - 1], params, i);
    }
  }

  // ---------------------------------------------------------------- what is sent

  /** Every value the pattern needs, and each one its constraint admits. */
  predicate Supplied(re: Regexes, p: seq<Segment>, params: Params) {
    && Required(p)
    && (forall s | s in p && !s.Static? :: !Missing(s, params))
    && (forall s | s in p && s.Param? :: Admits(re, s.pattern, params[s.name]))
  }

  function ValueOf(s: Segment, params: Params): string
    requires !s.Static?
  {
    if NameOf(s) in params then params[NameOf(s)] else ""
  }

  /** The values in name order: what a match of the URL should give back. */
  function ValuesFor(p: seq<Segment>, params: Params): seq<string> {
    if p == [] then [] else (if p[0].Static? then [] else [ValueOf(p[0], params)]) + ValuesFor(p[1..], params)
  }

  /** The raw segments one pattern segment puts into the URL. */
  function RawOne(s: Segment, params: Params): (r: seq<string>)
    ensures r != []
  {
    match s
    case Static(v) => [EncodeComponent(v)]
    case Param(_, _, _) => [EncodeComponent(ValueOf(s, params))]
    case Wildcard => EncodeAll(Split(ValueOf(s, params)))
  }

  /** The raw segments of the URL; an empty wildcard value leaves an empty last one. */
  function RawOf(p: seq<Segment>, params: Params): (r: seq<string>)
    ensures p != [] ==> r != []
  {
    if p == [] then [] else RawOne(p[0], params) + RawOf(p[1..], params)
  }

  lemma {:induction false} RawConcat(a: seq<Segment>, b: seq<Segment>, params: Params)
    ensures RawOf(a + b, params) == RawOf(a, params) + RawOf(b, params)
  {
    hide RawOne;
    if a == [] {
      assert a + b == b;
    } else {
      assert (a + b)[1..] == a[1..] + b && (a + b)[0] == a[0];
      RawConcat(a[1..], b, params);
      Appended(RawOne(a[0], params), RawOf(a[1..], params), RawOf(b, params));
    }
  }

  lemma RawSingle(s: Segment, params: Params)
    ensures RawOf([s], params) == RawOne(s, params)
  {
    assert [s][1..] == [];
  }

  lemma JoinLast(a: seq<string>, b: seq<string>)
    requires b != []
    ensures Join(a + [Join(b)]) == Join(a + b)
  {
    if a == [] {
      assert a + b == b && a + [Join(b)] == [Join(b)];
    } else {
      JoinConcat(a, b);
      JoinConcat(a, [Join(b)]);
    }
  }

  lemma SuppliedInit(re: Regexes, p: seq<Segment>, params: Params)
    requires Supplied(re, p, params) && WellFormed(p) && p != []
    ensures var init := p[..|p| - 1]; Supplied(re, init, params) && WellFormed(init) && !WildLast(init)
    ensures var last := p[|p| - 1]; !IsOptional(last) && (last.Static? || !Missing(last, params))
  {
    var init, last := p[..|p| - 1], p[|p| - 1];
    assert p == init + [last] && last in p;
    forall i | 0 <= i < |init| ensures SegmentOk(init[i], i == |init| - 1) && !init[i].Wildcard? { assert SegmentOk(p[i], false) && init[i] == p[i]; }
  }

  /** The parts joined are the raw segments joined. */
  lemma {:induction false} PartsAreRaw(re: Regexes, p: seq<Segment>, params: Params)
    requires Supplied(re, p, params) && WellFormed(p)
    ensures UrlParts(p, params).Ok? && |UrlParts(p, params).value| == |p|
    ensures Join(UrlParts(p, params).value) == Join(RawOf(p, params))
    ensures !WildLast(p) ==> UrlParts(p, params).value == RawOf(p, params)
  {
    if p != [] {
      var init, last := p[..|p| - 1], p[|p| - 1];
      assert p == init + [last];
      SuppliedInit(re, p, params);
      PartsAreRaw(re, init, params);
      RawConcat(init, [last], params);
      RawSingle(last, params);
      JoinLast(RawOf(init, params), RawOne(last, params));
      assert Join(RawOne(last, params)) == PartOf(last, params);
    }
  }

  // ---------------------------------------------------------------- when the values travel

  /** A wildcard value must not end with a slash, nor start with one when nothing comes before it. */
  predicate Travels(p: seq<Segment>, params: Params) {
    WildLast(p) ==>
      var v := ValueOf(Wildcard, params);
      v == "" || (v[|v| - 1] != '/' && (|p| == 1 ==> v[0] != '/'))
  }

  function SentOne(s: Segment, params: Params): seq<string> {
    if s.Wildcard? && ValueOf(s, params) == "" then [] else RawOne(s, params)
  }

  /** The segments a matcher sees when the values travel. */
  function Sent(p: seq<Segment>, params: Params): seq<string> {
    if p == [] then [] else SentOne(p[0], params) + Sent(p[1..], params)
  }

  predicate BareWildcard(p: seq<Segment>, params: Params) {
    WildLast(p) && ValueOf(Wildcard, params) == ""
  }

  lemma EncodedParts(v: string)
    ensures DecodeAll(EncodeAll(Split(v))) == Split(v)
    ensures forall part | part in EncodeAll(Split(v)) :: '/' !in part
    ensures forall i | 0 <= i < |Split(v)| :: EncodeAll(Split(v))[i] == "" <==> Split(v)[i] == ""
  {
    var parts := Split(v);
    forall i | 0 <= i < |parts|
      ensures DecodeSegment(EncodeComponent(parts[i])) == parts[i] && '/' !in EncodeComponent(parts[i])
      ensures EncodeComponent(parts[i]) == "" <==> parts[i] == ""
    {
      DecodeSegmentEncoded(parts[i]);
      EncodedHasNoSlash(parts[i]);
    }
  }

  /** Whether the URL ends with an empty segment. */
  predicate EmptyEnd(p: seq<Segment>, params: Params) {
    WildLast(p) && (var v := ValueOf(Wildcard, params); v == "" || v[|v| - 1] == '/')
  }

  lemma OneShape(re: Regexes, p: seq<Segment>, params: Params)
    requires Supplied(re, p, params) && WellFormed(p) && p != []
    ensures forall part | part in RawOne(p[0], params) :: '/' !in part
    ensures !p[0].Wildcard? ==> |RawOne(p[0], params)| == 1 && RawOne(p[0], params)[0] != ""
  {
    assert p[0] in p && SegmentOk(p[0], |p| == 1);
    match p[0]
    case Static(v) => EncodedHasNoSlash(v);
    case Param(name, _, _) => EncodedHasNoSlash(params[name]);
    case Wildcard => EncodedParts(ValueOf(Wildcard, params));
  }

  lemma {:induction false} RawPlain(re: Regexes, p: seq<Segment>, params: Params)
    requires Supplied(re, p, params) && WellFormed(p)
    ensures forall part | part in RawOf(p, params) :: '/' !in part
    ensures p != [] && !p[0].Wildcard? ==> RawOf(p, params)[0] != ""
  {
    hide RawOne;
    if p != [] {
      WellFormedTail(p);
      OneShape(re, p, params);
      RawPlain(re, p[1..], params);
    }
  }

  lemma LastOfBoth(a: seq<string>, b: seq<string>)
    requires b != []
    ensures (a + b)[|a + b| - 1] == b[|b| - 1]
  {
  }

  /** Only a wildcard value leaves an empty last segment. */
  lemma {:induction false} RawEnd(re: Regexes, p: seq<Segment>, params: Params)
    requires Supplied(re, p, params) && WellFormed(p) && p != []
    ensures RawOf(p, params)[|RawOf(p, params)| - 1] == "" <==> EmptyEnd(p, params)
  {
    hide RawOne, EncodeAll, Split;
    WellFormedTail(p);
    OneShape(re, p, params);
    if p[0].Wildcard? {
      assert p == [Wildcard];
      BareRaw(params);
      WildEnd(params);
    } else if p[1..] != [] {
      RawEnd(re, p[1..], params);
      LastOfBoth(RawOne(p[0], params), RawOf(p[1..], params));
      assert p[|p| - 1] == p[1..][|p| - 2];
    }
  }

  lemma WildEnd(params: Params)
    ensures var raw := RawOne(Wildcard, params); raw[|raw| - 1] == "" <==> EmptyEnd([Wildcard], params)
  {
    EncodedParts(ValueOf(Wildcard, params));
    LastSplit(ValueOf(Wildcard, params));
  }

  /** What is sent is the URL's segments, less the empty one of a bare wildcard. */
  lemma {:induction false} RawIsSent(p: seq<Segment>, params: Params)
    requires WellFormed(p)
    ensures RawOf(p, params) == Sent(p, params) + (if BareWildcard(p, params) then [""] else [])
  {
    hide RawOne;
    if p != [] {
      WellFormedTail(p);
      if p[0].Wildcard? {
        assert p == [Wildcard];
        BareRaw(params);
      } else {
        RawIsSent(p[1..], params);
        assert p[1..] != [] ==> p[|p| - 1] == p[1..][|p| - 2];
        Appended(RawOne(p[0], params), Sent(p[1..], params), if BareWildcard(p, params) then [""] else []);
      }
    }
  }

  lemma RawShape(re: Regexes, p: seq<Segment>, params: Params)
    requires Supplied(re, p, params) && WellFormed(p)
    ensures forall part | part in RawOf(p, params) :: '/' !in part
    ensures p != [] ==> (RawOf(p, params)[|RawOf(p, params)| - 1] == "" <==> EmptyEnd(p, params))
    ensures p != [] && !p[0].Wildcard? ==> RawOf(p, params)[0] != ""
    ensures RawOf(p, params) == Sent(p, params) + (if BareWildcard(p, params) then [""] else [])
  {
    hide RawOf, Sent;
    RawPlain(re, p, params);
    if p != [] { RawEnd(re, p, params); }
    RawIsSent(p, params);
  }

  lemma BareRaw(params: Params)
    ensures RawOf([Wildcard], params) == Sent([Wildcard], params) + (if ValueOf(Wildcard, params) == "" then [""] else [])
    ensures RawOf([Wildcard], params) == RawOne(Wildcard, params)
  {
    assert [Wildcard][1..] == [];
    assert Split("") == [""] && EncodeAll([""]) == [""];
  }

  // ---------------------------------------------------------------- the request the URL makes

  lemma UrlText(re: Regexes, p: seq<Segment>, params: Params)
    requires Supplied(re, p, params) && WellFormed(p)
    ensures UrlOf(p, params).Ok?
    ensures var joined := Join(RawOf(p, params));
            UrlOf(p, params).value == (if p == [] then "/" else if joined != "" && joined[0] == '/' then joined else "/" + joined)
  {
    PartsAreRaw(re, p, params);
  }

  lemma JoinHead(parts: seq<string>)
    requires parts != [] && parts[0] != ""
    ensures Join(parts) != "" && Join(parts)[0] == parts[0][0]
  {
  }

  lemma SplitHeadEmpty(v: string)
    ensures Split(v)[0] == "" <==> v == "" || v[0] == '/'
  {
  }

  lemma PlainStart(re: Regexes, p: seq<Segment>, params: Params)
    requires Supplied(re, p, params) && WellFormed(p) && p != [] && Travels(p, params)
    ensures var joined := Join(RawOf(p, params)); joined == "" || joined[0] != '/'
  {
    RawShape(re, p, params);
    var raw := RawOf(p, params);
    if raw[0] != "" {
      assert raw[0] in raw;
      JoinHead(raw);
    } else {
      var v := ValueOf(Wildcard, params);
      WellFormedTail(p);
      BareRaw(params);
      EncodedParts(v);
      SplitHeadEmpty(v);
      assert v == "" && raw == [""];
    }
  }

  lemma RootQuery()
    ensures QueryOf("/") == Query([], true)
  {
    SplitConcat("", "");
    assert "" + "/" + "" == "/";
  }

  /** Segments behind a leading slash, with or without one at the end. */
  lemma SlashedQuery(segs: seq<string>)
    requires segs != [] && (forall s | s in segs :: '/' !in s) && segs[|segs| - 1] != ""
    ensures QueryOf("/" + Join(segs)) == Query(segs, false)
  {
    var url := "/" + Join(segs);
    LastOfJoin(segs);
    SplitAtSlash("", Join(segs));
    assert url == "" + "/" + Join(segs);
    SplitJoin(segs);
    assert ([""] + segs)[1..] == segs;
  }

  lemma TrailedQuery(segs: seq<string>)
    requires segs != [] && segs != [""] && forall s | s in segs :: '/' !in s
    ensures QueryOf("/" + Join(segs) + "/") == Query(segs, true)
  {
    var url := "/" + Join(segs);
    assert (url + "/")[..|url|] == url;
    SplitAtSlash("", Join(segs));
    assert url == "" + "/" + Join(segs);
    SplitJoin(segs);
    assert ([""] + segs)[1..] == segs;
  }

  lemma JoinTrailing(segs: seq<string>)
    requires segs != []
    ensures "/" + Join(segs + [""]) == "/" + Join(segs) + "/"
  {
    JoinConcat(segs, [""]);
    assert Join([""]) == "";
  }

  /** When the values travel, a matcher sees exactly the segments that were sent. */
  lemma SentQuery(re: Regexes, p: seq<Segment>, params: Params)
    requires Supplied(re, p, params) && WellFormed(p) && Travels(p, params)
    ensures UrlOf(p, params).Ok?
    ensures QueryOf(UrlOf(p, params).value) == Query(Sent(p, params), p == [] || BareWildcard(p, params))
  {
    hide QueryOf, UrlOf, Join, RawOf, Sent;
    UrlText(re, p, params);
    RootQuery();
    if p == [] {
      assert Sent(p, params) == [] by { NothingSent(params); }
    } else {
      PlainStart(re, p, params);
      RawShape(re, p, params);
      if BareWildcard(p, params) { BareQuery(re, p, params); } else {
        assert RawOf(p, params) == Sent(p, params);
        SlashedQuery(Sent(p, params));
      }
    }
  }

  lemma NothingSent(params: Params)
    ensures Sent([], params) == []
  {
  }

  lemma BareQuery(re: Regexes, p: seq<Segment>, params: Params)
    requires Supplied(re, p, params) && WellFormed(p) && BareWildcard(p, params)
    ensures QueryOf("/" + Join(RawOf(p, params))) == Query(Sent(p, params), true)
  {
    hide QueryOf, RawOf, Sent;
    var sent, raw := Sent(p, params), RawOf(p, params);
    RawShape(re, p, params);
    RootQuery();
    if sent == [] {
      assert raw == [""] && "/" + Join(raw) == "/";
    } else {
      assert forall s | s in sent :: s in raw;
      assert sent[0] == raw[0];
      BareHead(p, params);
      JoinTrailing(sent);
      TrailedQuery(sent);
    }
  }

  lemma BareHead(p: seq<Segment>, params: Params)
    requires WellFormed(p) && BareWildcard(p, params) && Sent(p, params) != []
    ensures !p[0].Wildcard?
  {
    WellFormedTail(p);
    NothingSent(params);
  }

  // ---------------------------------------------------------------- the search takes the values back

  /** The word of a pattern accepts the segments sent for it, and captures the values that were sent. */
  lemma {:induction false} SentRuns(re: Regexes, q: Query, f: Frame, w: Word, p: seq<Segment>, params: Params)
    requires InQuery(q, f) && Supplied(re, p, params) && WellFormed(p)
    requires Spells(f.node, w, p) && Covered(f.node, p)
    requires q.segs[f.index..] == Sent(p, params) && (BareWildcard(p, params) ==> q.slash)
    ensures Accepts(re, q, f, w)
    ensures ValuesOf(Run(re, q, f, w).value.links) == ValuesOf(f.links) + ValuesFor(p, params)
    decreases |p|
  {
    if p == [] {
      assert TargetAt(f.node, []).Some?;
      assert ValuesOf(f.links) + [] == ValuesOf(f.links);
    } else {
      assert p[0] in p;
      WellFormedTail(p);
      CoveredKid(f.node, w[0], p);
      if p[0].Wildcard? {
        SentTail(re, q, f, w, params);
      } else {
        hide Step, Covered;
        SentStep(re, q, f, w, p, params);
        var g := Step(re, q, f, w[0]).value;
        assert Kid(f.node, w[0]) == Some(g.node);
        assert p[1..] != [] ==> p[|p| - 1] == p[1..][|p| - 2];
        SentRuns(re, q, g, w[1..], p[1..], params);
        Appended(ValuesOf(f.links), if p[0].Static? then [] else [ValueOf(p[0], params)], ValuesFor(p[1..], params));
      }
    }
  }

  lemma Appended(a: seq<string>, b: seq<string>, c: seq<string>)
    ensures a + b + c == a + (b + c)
  {
  }

  lemma SentStep(re: Regexes, q: Query, f: Frame, w: Word, p: seq<Segment>, params: Params)
    requires InQuery(q, f) && Supplied(re, p, params) && p != [] && !p[0].Wildcard? && Spells(f.node, w, p)
    requires WellFormed(p) && q.segs[f.index..] == Sent(p, params)
    ensures Step(re, q, f, w[0]).Some?
    ensures var g := Step(re, q, f, w[0]).value;
            && q.segs[g.index..] == Sent(p[1..], params)
            && ValuesOf(g.links) == ValuesOf(f.links) + (if p[0].Static? then [] else [ValueOf(p[0], params)])
  {
    assert p[0] in p;
    var rest := q.segs[f.index..];
    OneShape(re, p, params);
    assert rest == RawOne(p[0], params) + Sent(p[1..], params);
    assert rest[0] == q.segs[f.index] && rest[1..] == q.segs[f.index + 1..];
    if p[0].Static? {
      DecodeSegmentEncoded(p[0].value);
      assert ValuesOf(f.links) + [] == ValuesOf(f.links);
    } else {
      DecodeSegmentEncoded(ValueOf(p[0], params));
      assert Step(re, q, f, w[0]).value.links[1..] == f.links;
    }
  }

  lemma SentTail(re: Regexes, q: Query, f: Frame, w: Word, params: Params)
    requires InQuery(q, f) && Spells(f.node, w, [Wildcard]) && Covered(f.node, [Wildcard])
    requires q.segs[f.index..] == Sent([Wildcard], params) && (ValueOf(Wildcard, params) == "" ==> q.slash)
    ensures Accepts(re, q, f, w)
    ensures ValuesOf(Run(re, q, f, w).value.links) == ValuesOf(f.links) + ValuesFor([Wildcard], params)
  {
    var v := ValueOf(Wildcard, params);
    assert w == [Tail] && w[1..] == [];
    assert At(f.node, w) == f.node.wild;
    assert TargetAt(f.node, w).Some?;
    EncodedParts(v);
    JoinSplit(v);
    assert [Wildcard][1..] == [];
    assert Sent([Wildcard], params) == SentOne(Wildcard, params);
    assert RestOf(q, f.index) == v;
    var step := Step(re, q, f, Tail);
    assert step.Some? && step.value.links[1..] == f.links;
    assert Run(re, q, f, w) == Run(re, q, step.value, []);
    assert ValuesFor([Wildcard], params) == [v];
  }

  // ---------------------------------------------------------------- round trip

  /** What the search lands on in a trie that serves the pattern among others. */
  lemma Landing(re: Regexes, n: Node, ps: seq<seq<Segment>>, p: seq<Segment>, q: Query, v: Word) returns (w: Word)
    requires TrieOk(n, ps) && Required(p) && Spells(n, v, p) && Dfs(re, q, Frame(n, 0, [])).Some?
    ensures Accepts(re, q, Frame(n, 0, []), w) && forall u | Accepts(re, q, Frame(n, 0, []), u) :: WordLeq(w, u)
    ensures Run(re, q, Frame(n, 0, []), w) == Dfs(re, q, Frame(n, 0, []))
    ensures Dfs(re, q, Frame(n, 0, [])).value.node.target == Some(TrieRef(w))
    ensures exists r :: r in ps && Spells(n, w, r)
    ensures w == v ==> Dfs(re, q, Frame(n, 0, [])).value.node.names == Some(ParamNamesOf(p))
  {
    var f := Frame(n, 0, []);
    w := DfsLeast(re, q, f);
    RunAt(re, q, f, w);
    assert TargetAt(n, w).Some?;
    SpelledNames(n, v, p);
    assert NamedAt(n, [], w);
    assert [] + NamesAlong(n, w) == NamesAlong(n, w);
  }

  /** On a trie holding one pattern, the search can only land on its word. */
  lemma OnlyWord(re: Regexes, n: Node, p: seq<Segment>, q: Query) returns (w: Word)
    requires TrieOk(n, [p]) && Required(p) && Dfs(re, q, Frame(n, 0, [])).Some?
    ensures Spells(n, w, p) && Accepts(re, q, Frame(n, 0, []), w)
    ensures Run(re, q, Frame(n, 0, []), w) == Dfs(re, q, Frame(n, 0, []))
    ensures Dfs(re, q, Frame(n, 0, [])).value.node.names == Some(ParamNamesOf(p))
    ensures Dfs(re, q, Frame(n, 0, [])).value.node.target == Some(TrieRef(w))
  {
    hide TrieOk, Accepts, Run, Dfs;
    assert p in [p];
    var v := OwnWord(n, [p], p);
    w := Landing(re, n, [p], p, q, v);
    var r :| r in [p] && Spells(n, w, r);
    WordUnique(n, v, w, p);
  }

  lemma OwnWord(n: Node, ps: seq<seq<Segment>>, p: seq<Segment>) returns (v: Word)
    requires TrieOk(n, ps) && p in ps
    ensures Spells(n, v, p)
  {
    v := HeldWord(n, p);
  }

  /**
   On any trie the pattern is registered in, the built URL is found. It lands on the pattern's own word exactly
   when no word before it takes the request, and then gives back exactly the values that went in.
   */
  lemma RoundTrip(re: Regexes, n: Node, ps: seq<seq<Segment>>, p: seq<Segment>, v: Word, params: Params)
    requires TrieOk(n, ps) && p in ps && Spells(n, v, p)
    requires WellFormed(p) && Supplied(re, p, params) && Travels(p, params)
    ensures UrlOf(p, params).Ok? && Match(re, n, UrlOf(p, params).value).Some?
    ensures var q, m := QueryOf(UrlOf(p, params).value), Match(re, n, UrlOf(p, params).value).value;
            m.target == TrieRef(v) <==> forall u | Accepts(re, q, Frame(n, 0, []), u) :: WordLeq(v, u)
    ensures var m := Match(re, n, UrlOf(p, params).value).value;
            m.target == TrieRef(v) ==> m.names == ParamNamesOf(p) && m.values == ValuesFor(p, params)
  {
    var q := BuiltRuns(re, n, p, v, params);
    FoundMatch(re, n, ps, UrlOf(p, params).value, v);
    hide WordLeq, Dfs, Accepts, Run, TrieOk, UrlOf, Supplied, Travels, Match;
    var w := Landing(re, n, ps, p, q, v);
    if WordLeq(v, w) { WordLeqAntisymmetric(v, w); }
    if w == v { LandedValues(Dfs(re, q, Frame(n, 0, [])).value, p, params); }
  }

  /** The pattern's own word takes the request its URL makes, with the values that were sent. */
  lemma BuiltRuns(re: Regexes, n: Node, p: seq<Segment>, v: Word, params: Params) returns (q: Query)
    requires Covered(n, p) && Spells(n, v, p)
    requires WellFormed(p) && Supplied(re, p, params) && Travels(p, params)
    ensures UrlOf(p, params).Ok? && q == QueryOf(UrlOf(p, params).value)
    ensures Accepts(re, q, Frame(n, 0, []), v)
    ensures ValuesOf(Run(re, q, Frame(n, 0, []), v).value.links) == ValuesOf([]) + ValuesFor(p, params)
  {
    hide Run, Covered, UrlOf, QueryOf, Supplied, Travels, Sent;
    SentQuery(re, p, params);
    q := QueryOf(UrlOf(p, params).value);
    assert q.segs[0..] == q.segs;
    SentRuns(re, q, Frame(n, 0, []), v, p, params);
  }

  /** Some word takes the request: the match is the product of the search's hit. */
  lemma FoundMatch(re: Regexes, n: Node, ps: seq<seq<Segment>>, url: string, v: Word)
    requires TrieOk(n, ps) && Accepts(re, QueryOf(url), Frame(n, 0, []), v)
    ensures var hit := Dfs(re, QueryOf(url), Frame(n, 0, []));
            hit.Some? && hit.value.node.target.Some? && Match(re, n, url) == Some(Product(hit.value))
  {
    hide Run;
    DfsComplete(re, QueryOf(url), Frame(n, 0, []), v);
  }

  lemma LandedValues(hit: Frame, p: seq<Segment>, params: Params)
    requires hit.node.target.Some? && hit.node.names == Some(ParamNamesOf(p))
    requires ValuesOf(hit.links) == ValuesOf([]) + ValuesFor(p, params)
    ensures Product(hit).names == ParamNamesOf(p) && Product(hit).values == ValuesFor(p, params)
  {
    LinksLength(hit.links);
    ValuesCount(p, params);
    assert [] + ValuesFor(p, params) == ValuesFor(p, params);
  }

  lemma {:induction false} ValuesCount(p: seq<Segment>, params: Params)
    ensures |ValuesFor(p, params)| == |ParamNamesOf(p)|
  {
    if p != [] { ValuesCount(p[1..], params); }
  }

  /** A held pattern has a word. */
  lemma {:induction false} HeldWord(n: Node, p: seq<Segment>) returns (w: Word)
    requires Held(n, p)
    ensures Spells(n, w, p)
    decreases |p|
  {
    if p == [] { return []; }
    var e := match p[0]
      case Static(v) => Key(v)
      case Wildcard => Tail
      case Param(_, pattern, _) => Take(VariantFor(n.params, pattern));
    assert EdgeFor(n, e, p[0]) && Kid(n, e).Some?;
    var tail := HeldWord(Kid(n, e).value, p[1..]);
    w := [e] + tail;
    assert w[1..] == tail;
  }

  // ---------------------------------------------------------------- and only then

  /** The wildcard's capture is the rest of the request, or is not recorded at all. */
  predicate CapturesRest(q: Query, f: Frame, links: seq<Link>, p: seq<Segment>)
    requires p != [] && f.index + |p| - 1 <= |q.segs|
  {
    var total := |f.links| + |ParamNamesOf(p)|;
    (links != [] && |links| == total && links[0].value == RestOf(q, f.index + |p| - 1)) || |links| == total - 1
  }

  lemma RequiredStep(re: Regexes, q: Query, f: Frame, e: Edge, s: Segment)
    requires InQuery(q, f) && Step(re, q, f, e).Some? && EdgeFor(f.node, e, s) && !s.Wildcard? && !IsOptional(s)
    ensures var g := Step(re, q, f, e).value; g.index == f.index + 1 && |g.links| == |f.links| + (if s.Static? then 0 else 1)
  {
  }

  lemma TailStep(re: Regexes, q: Query, f: Frame, w: Word)
    requires InQuery(q, f) && Spells(f.node, w, [Wildcard]) && Accepts(re, q, f, w)
    ensures CapturesRest(q, f, Run(re, q, f, w).value.links, [Wildcard])
  {
    assert [Wildcard][1..] == [] && w[0] == Tail && w[1..] == [];
    assert ParamNamesOf([Wildcard]) == [WILDCARD_NAME];
    assert Run(re, q, f, w) == Run(re, q, Step(re, q, f, Tail).value, []);
  }

  lemma CapturesUp(q: Query, f: Frame, g: Frame, links: seq<Link>, p: seq<Segment>)
    requires |p| > 1 && !p[0].Wildcard? && g.index == f.index + 1
    requires |g.links| == |f.links| + (if p[0].Static? then 0 else 1)
    requires g.index + |p[1..]| - 1 <= |q.segs| && CapturesRest(q, g, links, p[1..])
    ensures f.index + |p| - 1 <= |q.segs| && CapturesRest(q, f, links, p)
  {
    hide RestOf;
    assert |ParamNamesOf(p)| == (if p[0].Static? then 0 else 1) + |ParamNamesOf(p[1..])|;
  }

  lemma RunBelow(re: Regexes, q: Query, f: Frame, w: Word)
    requires InQuery(q, f) && w != [] && Accepts(re, q, f, w)
    ensures Step(re, q, f, w[0]).Some? && Run(re, q, f, w) == Run(re, q, Step(re, q, f, w[0]).value, w[1..])
  {
  }

  lemma {:induction false} LastCapture(re: Regexes, q: Query, f: Frame, w: Word, p: seq<Segment>)
    requires InQuery(q, f) && Spells(f.node, w, p) && Accepts(re, q, f, w)
    requires WellFormed(p) && Required(p) && WildLast(p)
    ensures f.index + |p| - 1 <= |q.segs| && CapturesRest(q, f, Run(re, q, f, w).value.links, p)
    decreases |p|
  {
    assert p[0] in p;
    WellFormedTail(p);
    if p[0].Wildcard? {
      assert p == [Wildcard];
      TailStep(re, q, f, w);
    } else {
      hide Step, RestOf, Run, CapturesRest, ParamNamesOf;
      RequiredStep(re, q, f, w[0], p[0]);
      assert p[|p| - 1] == p[1..][|p| - 2];
      RunBelow(re, q, f, w);
      var g := Step(re, q, f, w[0]).value;
      LastCapture(re, q, g, w[1..], p[1..]);
      CapturesUp(q, f, g, Run(re, q, f, w).value.links, p);
    }
  }

  lemma {:induction false} LatestCount(links: seq<Link>, names: seq<string>, values: seq<string>)
    requires |names| == |values|
    ensures |LatestFrom(links, names, values).1| <= |values| + |links|
  {
    if links != [] {
      if links[0].name in names { LatestCount(links[1..], names, values); }
      else { LatestCount(links[1..], names + [links[0].name], values + [links[0].value]); }
    }
  }

  lemma {:induction false} HeadCountRaw(p: seq<Segment>, params: Params)
    requires forall s | s in p :: !s.Wildcard?
    ensures |RawOf(p, params)| == |p|
  {
    if p != [] {
      assert p[0] in p;
      HeadCountRaw(p[1..], params);
    }
  }

  /** The URL of a wildcard pattern: the head's segments, then the value's. */
  lemma WildRaw(p: seq<Segment>, params: Params)
    requires WellFormed(p) && WildLast(p)
    ensures var init := p[..|p| - 1];
            && |RawOf(init, params)| == |p| - 1
            && RawOf(p, params) == RawOf(init, params) + EncodeAll(Split(ValueOf(Wildcard, params)))
  {
    var init := p[..|p| - 1];
    assert p == init + [Wildcard];
    forall s | s in init ensures !s.Wildcard? {
      var i :| 0 <= i < |init| && init[i] == s;
      assert SegmentOk(p[i], false);
    }
    HeadCountRaw(init, params);
    RawConcat(init, [Wildcard], params);
    RawSingle(Wildcard, params);
  }

  /** A value ending with a slash splits into its other parts and an empty one. */
  lemma TrailingParts(v: string)
    requires v != "" && v[|v| - 1] == '/'
    ensures var parts := Split(v); |parts| >= 2 && parts == parts[..|parts| - 1] + [""] && |Join(parts[..|parts| - 1])| == |v| - 1
  {
    var body := v[..|v| - 1];
    SplitConcat(body, "");
    assert v == body + "/" + "";
    JoinSplit(body);
    assert Split("") == [""];
  }

  lemma EncodedCut(v: string, k: nat)
    requires k <= |Split(v)|
    ensures DecodeAll(EncodeAll(Split(v))[..k]) == Split(v)[..k]
  {
    EncodedParts(v);
    assert DecodeAll(EncodeAll(Split(v)))[..k] == DecodeAll(EncodeAll(Split(v))[..k]);
  }

  /** A final slash of the value is taken for the request's own. */
  lemma TrailingQuery(re: Regexes, p: seq<Segment>, params: Params)
    requires Supplied(re, p, params) && WellFormed(p) && WildLast(p)
    requires var v := ValueOf(Wildcard, params); v != "" && v[|v| - 1] == '/' && (|p| == 1 ==> v[0] != '/')
    ensures UrlOf(p, params).Ok? && |RawOf(p, params)| >= 2
    ensures QueryOf(UrlOf(p, params).value) == Query(RawOf(p, params)[..|RawOf(p, params)| - 1], true)
  {
    hide Join, Split, UrlOf, RawOf;
    var v, raw := ValueOf(Wildcard, params), RawOf(p, params);
    UrlText(re, p, params);
    RawPlain(re, p, params);
    RawEnd(re, p, params);
    WildRaw(p, params);
    TrailingParts(v);
    var kept := raw[..|raw| - 1];
    assert raw == kept + [""] && kept[0] == raw[0];
    WildHead(p, params, v);
    assert raw[0] in raw;
    JoinHead(raw);
    JoinTrailing(kept);
    assert forall s | s in kept :: s in raw;
    TrailedQuery(kept);
  }

  /** So it is dropped. */
  lemma TrailingLost(re: Regexes, p: seq<Segment>, params: Params)
    requires Supplied(re, p, params) && WellFormed(p) && WildLast(p)
    requires var v := ValueOf(Wildcard, params); v != "" && v[|v| - 1] == '/' && (|p| == 1 ==> v[0] != '/')
    ensures UrlOf(p, params).Ok?
    ensures var q := QueryOf(UrlOf(p, params).value); |p| - 1 <= |q.segs| && |RestOf(q, |p| - 1)| < |ValueOf(Wildcard, params)|
  {
    hide Join, Split, UrlOf, RawOf, QueryOf;
    var v, raw := ValueOf(Wildcard, params), RawOf(p, params);
    TrailingQuery(re, p, params);
    WildRaw(p, params);
    TrailingParts(v);
    var parts := Split(v);
    EncodedCut(v, |parts| - 1);
    assert raw[..|raw| - 1][|p| - 1..] == EncodeAll(parts)[..|parts| - 1];
  }

  lemma WildHead(p: seq<Segment>, params: Params, v: string)
    requires WellFormed(p) && WildLast(p) && v == ValueOf(Wildcard, params) && v != "" && (|p| == 1 ==> v[0] != '/')
    requires !p[0].Wildcard? ==> RawOf(p, params)[0] != ""
    ensures RawOf(p, params)[0] != ""
  {
    WellFormedTail(p);
    if p[0].Wildcard? {
      BareRaw(params);
      EncodedParts(v);
      SplitHeadEmpty(v);
    }
  }

  lemma DoubleSlash()
    ensures QueryOf("//") == Query([], true)
  {
    RootQuery();
    assert NormalizePath("//") == "/" == NormalizePath("/");
  }

  /** A leading slash of a value that comes first is taken for the URL's own. */
  lemma LeadingLost(re: Regexes, p: seq<Segment>, params: Params)
    requires Supplied(re, p, params) && p == [Wildcard]
    requires var v := ValueOf(Wildcard, params); v != "" && v[0] == '/'
    ensures UrlOf(p, params).Ok?
    ensures |RestOf(QueryOf(UrlOf(p, params).value), 0)| < |ValueOf(Wildcard, params)|
  {
    var v := ValueOf(Wildcard, params);
    UrlText(re, p, params);
    BareRaw(params);
    var inner := v[1..];
    var parts, segs := Split(inner), EncodeAll(Split(inner));
    assert Split(v) == [""] + parts && EncodeAll(Split(v)) == [""] + segs;
    assert ([""] + segs)[1..] == segs && Join([""] + segs) == "/" + Join(segs);
    EncodedParts(inner);
    JoinSplit(inner);
    LastSplit(inner);
    if segs[|segs| - 1] != "" {
      SlashedQuery(segs);
      assert segs[0..] == segs;
    } else {
      LeadingAndTrailing(inner);
    }
  }

  lemma LeadingAndTrailing(inner: string)
    requires EncodeAll(Split(inner))[|Split(inner)| - 1] == ""
    ensures |RestOf(QueryOf("/" + Join(EncodeAll(Split(inner)))), 0)| <= |inner|
  {
    hide QueryOf;
    EncodedParts(inner);
    LastSplit(inner);
    assert DecodeAll([]) == [] && Join([]) == "";
    if inner == "" {
      RootQuery();
      assert "/" + Join(EncodeAll(Split(""))) == "/" by { assert EncodeAll([""]) == [""]; }
    } else {
      TrailingInner(inner);
    }
  }

  lemma TrailingInner(inner: string)
    requires inner != "" && inner[|inner| - 1] == '/'
    ensures |RestOf(QueryOf("/" + Join(EncodeAll(Split(inner)))), 0)| <= |inner|
  {
    hide QueryOf, Split, Join;
    var parts, segs := Split(inner), EncodeAll(Split(inner));
    EncodedParts(inner);
    TrailingParts(inner);
    var kept := segs[..|segs| - 1];
    assert segs == kept + [""];
    JoinTrailing(kept);
    EncodedCut(inner, |parts| - 1);
    assert kept[0..] == kept;
    if kept == [""] {
      OnlyEmpty();
    } else {
      assert forall s | s in kept :: s in segs;
      TrailedQuery(kept);
    }
  }

  lemma OnlyEmpty()
    ensures RestOf(QueryOf("/" + Join([""]) + "/"), 0) == ""
  {
    DoubleSlash();
    assert "/" + Join([""]) + "/" == "//";
    assert DecodeAll([]) == [] && Join([]) == "";
  }

  predicate GivesBack(re: Regexes, n: Node, p: seq<Segment>, params: Params) {
    && UrlOf(p, params).Ok?
    && var m := Match(re, n, UrlOf(p, params).value);
       m.Some? && m.value.names == ParamNamesOf(p) && m.value.values == ValuesFor(p, params)
  }

  lemma {:induction false} WildLastValue(p: seq<Segment>, params: Params)
    requires WildLast(p)
    ensures ValuesFor(p, params) != [] && ValuesFor(p, params)[|ValuesFor(p, params)| - 1] == ValueOf(Wildcard, params)
    ensures ParamNamesOf(p) != []
  {
    if |p| > 1 {
      assert p[|p| - 1] == p[1..][|p| - 2];
      WildLastValue(p[1..], params);
    } else {
      assert p[1..] == [];
    }
  }

  lemma LastOfValues(links: seq<Link>)
    requires links != []
    ensures ValuesOf(links) != [] && ValuesOf(links)[|ValuesOf(links)| - 1] == links[0].value
  {
  }

  /** A hit whose rest is shorter than the value sent never gives the value back. */
  lemma ShorterHit(re: Regexes, n: Node, p: seq<Segment>, params: Params, q: Query)
    requires TrieOk(n, [p]) && WellFormed(p) && Required(p) && WildLast(p)
    requires |p| - 1 <= |q.segs| ==> |RestOf(q, |p| - 1)| < |ValueOf(Wildcard, params)|
    requires Dfs(re, q, Frame(n, 0, [])).Some?
    ensures Product(Dfs(re, q, Frame(n, 0, [])).value).values != ValuesFor(p, params)
  {
    hide Dfs, Run, RestOf, Product, TrieOk, ValuesFor, ParamNamesOf, Spells, Accepts, Required;
    var w := OnlyWord(re, n, p, q);
    LastCapture(re, q, Frame(n, 0, []), w, p);
    WildLastValue(p, params);
    ValuesCount(p, params);
    ProductDiffers(Dfs(re, q, Frame(n, 0, [])).value, ParamNamesOf(p), ValuesFor(p, params));
  }

  lemma ShorterNeverGivesBack(re: Regexes, n: Node, p: seq<Segment>, params: Params, url: string)
    requires TrieOk(n, [p]) && WellFormed(p) && Required(p) && WildLast(p) && UrlOf(p, params) == Ok(url)
    requires |p| - 1 <= |QueryOf(url).segs| ==> |RestOf(QueryOf(url), |p| - 1)| < |ValueOf(Wildcard, params)|
    ensures !GivesBack(re, n, p, params)
  {
    hide Dfs, RestOf, Product, TrieOk, QueryOf, UrlOf, ValuesFor;
    if Dfs(re, QueryOf(url), Frame(n, 0, [])).Some? { ShorterHit(re, n, p, params, QueryOf(url)); }
  }

  lemma ProductDiffers(hit: Frame, names: seq<string>, values: seq<string>)
    requires hit.node.target.Some? && hit.node.names == Some(names) && names != [] && |values| == |names|
    requires (hit.links != [] && |hit.links| == |names| && hit.links[0].value != values[|values| - 1]) || |hit.links| == |names| - 1
    ensures Product(hit).values != values
  {
    LatestCount(hit.links, [], []);
    LinksLength(hit.links);
    if |hit.links| == |names| { LastOfValues(hit.links); }
  }

  lemma LonePattern(re: Regexes, n: Node, p: seq<Segment>, params: Params)
    requires TrieOk(n, [p]) && WellFormed(p) && Supplied(re, p, params) && Travels(p, params)
    ensures GivesBack(re, n, p, params)
  {
    hide TrieOk, Accepts, Run, Dfs, WordLeq;
    var v := OwnWord(n, [p], p);
    RoundTrip(re, n, [p], p, v, params);
    var w := OnlyWord(re, n, p, QueryOf(UrlOf(p, params).value));
    WordUnique(n, v, w, p);
  }

  /** The round trip holds exactly for the values a wildcard can carry. */
  lemma RoundTripExactly(re: Regexes, n: Node, p: seq<Segment>, params: Params)
    requires TrieOk(n, [p]) && WellFormed(p) && Supplied(re, p, params)
    ensures GivesBack(re, n, p, params) <==> Travels(p, params)
  {
    if Travels(p, params) {
      LonePattern(re, n, p, params);
    } else {
      var v := ValueOf(Wildcard, params);
      WellFormedTail(p);
      if |p| == 1 && v[0] == '/' {
        assert p == [Wildcard];
        LeadingLost(re, p, params);
      } else {
        TrailingLost(re, p, params);
      }
      ShorterNeverGivesBack(re, n, p, params, UrlOf(p, params).value);
    }
  }
}
