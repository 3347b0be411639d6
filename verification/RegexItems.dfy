/**
 One alternative of the table expression as a list of items over raw characters, with
 greedy backtracking semantics, and the proof that on the paths it is asked about it
 means the same as the pattern over decoded segments.
 */
module RegexItems {
  import opened Wrappers
  import opened Paths
  import opened Patterns

  /** A literal character, `([^/]+)`, `(.*)`, or a final `/?`. */
  datatype Item = Lit(c: char) | OneSegment | Anything | MaybeSlash

  predicate IsLineTerminator(c: char) {
    c == '\n' || c == '\r' || c as int == 0x2028 || c as int == 0x2029
  }

  function NonSlashRun(s: string): (k: nat)
    ensures k <= |s|
    ensures '/' !in s[..k]
    ensures k < |s| ==> s[k] == '/'
  {
    if s == "" || s[0] == '/' then 0 else NonSlashRun(s[1..]) + 1
  }

  function LineRun(s: string): (k: nat)
    ensures k <= |s|
    ensures (forall c | c in s :: !IsLineTerminator(c)) ==> k == |s|
  {
    if s == "" || IsLineTerminator(s[0]) then 0 else LineRun(s[1..]) + 1
  }

  /** Match all of `s`: leftmost choice first, greedy runs given back one character at a time. */
  function RunItems(items: seq<Item>, s: string): Option<seq<string>>
    decreases |items|, 0, 0
  {
    if items == [] then if s == "" then Some([]) else None
    else
      match items[0]
      case Lit(c) => if s != "" && s[0] == c then RunItems(items[1..], s[1..]) else None
      case OneSegment => if NonSlashRun(s) == 0 then None else Greedy(items[1..], s, NonSlashRun(s), 1)
      case Anything => Greedy(items[1..], s, LineRun(s), 0)
      case MaybeSlash =>
        if s != "" && s[0] == '/' && RunItems(items[1..], s[1..]).Some? then RunItems(items[1..], s[1..])
        else RunItems(items[1..], s)
  }

  /** Capture `k` characters, or fewer down to `least` when what follows fails. */
  function Greedy(items: seq<Item>, s: string, k: nat, least: nat): Option<seq<string>>
    requires least <= k <= |s|
    decreases |items|, 1, k
  {
    match RunItems(items, s[k..])
    case Some(caps) => Some([s[..k]] + caps)
    case None => if k > least then Greedy(items, s, k - 1, least) else None
  }

  function Literal(text: string): seq<Item> {
    seq(|text|, i requires 0 <= i < |text| => Lit(text[i]))
  }

  /** The items of a pattern, in emission order. */
  function ItemsOf(p: seq<Segment>): seq<Item> {
    if p == [] then [MaybeSlash]
    else
      match p[0]
      case Static(v) => [Lit('/')] + (Literal(v) + ItemsOf(p[1..]))
      case Param(_, _, _) => [Lit('/')] + ([OneSegment] + ItemsOf(p[1..]))
      case Wildcard => [Lit('/')] + ([Anything] + [])
  }

  // ---------------------------------------------------------------- the same pattern over segments

  /** Static text, plain required params, a final wildcard: the shapes the alternation holds. */
  predicate Plain(p: seq<Segment>) {
    forall s | s in p :: s.Param? ==> s.pattern == None && !s.optional
  }

  predicate WildLast(p: seq<Segment>) {
    p != [] && p[|p| - 1].Wildcard?
  }

  /** The captures of a plain pattern on escape-free segments. */
  function PlainCaptures(p: seq<Segment>, segs: seq<string>, slash: bool): Option<seq<string>>
    decreases |p|
  {
    if p == [] then if segs == [] then Some([]) else None
    else
      match p[0]
      case Static(v) =>
        if segs != [] && segs[0] == v then PlainCaptures(p[1..], segs[1..], slash) else None
      case Param(_, _, _) =>
        if segs != [] && segs[0] != "" then
          match PlainCaptures(p[1..], segs[1..], slash)
          case None => None
          case Some(caps) => Some([segs[0]] + caps)
        else None
      case Wildcard => if segs != [] || slash then Some([Join(segs)]) else None
  }

  /** The segments of a path suffix that starts at a boundary, cut one at a time. */
  function SegmentsFrom(s: string): seq<string>
    decreases |s|
  {
    if |s| <= 1 then []
    else
      var body := s[1..];
      var k := NonSlashRun(body);
      [body[..k]] + SegmentsFrom(body[k..])
  }

  predicate AtBoundary(s: string) {
    s == "" || s[0] == '/'
  }

  lemma SplitLead(seg: string)
    requires '/' !in seg
    ensures Split("/" + seg) == [""] + [seg]
  {
    SplitAtSlash("", seg);
    SplitPlain(seg);
    assert "" + "/" + seg == "/" + seg;
  }

  lemma SplitStep(seg: string, inner: string)
    requires '/' !in seg && inner != "" && inner[0] == '/'
    ensures Split("/" + seg + inner) == [""] + ([seg] + Split(inner)[1..])
  {
    var t := inner[1..];
    assert inner == "" + "/" + t;
    SplitAtSlash("", t);
    SplitAtSlash(seg, t);
    SplitAtSlash("", seg + "/" + t);
    assert "/" + seg + inner == "" + "/" + (seg + "/" + t);
  }

  lemma {:induction false} SplitNormalized(s: string)
    requires AtBoundary(s) && |s| > 1 && !EndsWithTwoSlashes(s)
    ensures Split(NormalizePath(s)) == [""] + SegmentsFrom(s)
    decreases |s|
  {
    var body := s[1..];
    var k := NonSlashRun(body);
    var seg, rest := body[..k], body[k..];
    assert s == "/" + seg + rest;
    if |rest| <= 1 {
      LastOfRun(s, seg, rest);
      SplitLead(seg);
      assert SegmentsFrom(s) == [seg] + SegmentsFrom(rest) && SegmentsFrom(rest) == [];
    } else {
      NormalizeStep(s, seg, rest);
      SplitNormalized(rest);
      SplitStep(seg, NormalizePath(rest));
      assert ([""] + SegmentsFrom(rest))[1..] == SegmentsFrom(rest);
      assert SegmentsFrom(s) == [seg] + SegmentsFrom(rest);
    }
  }

  lemma NormalizeStep(s: string, seg: string, rest: string)
    requires s == "/" + seg + rest && |rest| > 1 && rest[0] == '/' && !EndsWithTwoSlashes(s)
    ensures NormalizePath(s) == "/" + seg + NormalizePath(rest)
    ensures !EndsWithTwoSlashes(rest) && NormalizePath(rest) != "" && NormalizePath(rest)[0] == '/'
  {
    assert s[|s| - 1] == rest[|rest| - 1] && s[|s| - 2] == rest[|rest| - 2];
  }

  lemma LastOfRun(s: string, seg: string, rest: string)
    requires s == "/" + seg + rest && |s| > 1 && |rest| <= 1 && '/' !in seg
    requires rest != "" ==> rest == "/"
    ensures NormalizePath(s) == "/" + seg
  {
    if rest == "" { assert s[|s| - 1] == seg[|seg| - 1]; }
  }

  lemma JoinLead(segs: seq<string>)
    requires segs != []
    ensures Join([""] + segs) == "/" + Join(segs)
  {
    assert ([""] + segs)[1..] == segs;
  }

  /** Cutting segments off the raw path gives the segments the trie walks. */
  lemma SegmentsFromPath(path: string)
    requires path != "" && AtBoundary(path) && !EndsWithTwoSlashes(path)
    ensures SegmentsFrom(path) == SplitSegments(path)
    ensures |path| > 1 ==> Join(SplitSegments(path)) == NormalizePath(path)[1..]
  {
    if path == "/" {
      SplitLead("");
      assert "/" + "" == "/";
    } else {
      SplitNormalized(path);
      var segs := SegmentsFrom(path);
      assert ([""] + segs)[1..] == segs;
      NoLoneEmpty(path);
      JoinSplit(NormalizePath(path));
      JoinLead(segs);
    }
  }

  lemma NoLoneEmpty(path: string)
    requires AtBoundary(path) && |path| > 1 && !EndsWithTwoSlashes(path)
    ensures SegmentsFrom(path) != [""]
  {
    var body := path[1..];
    var k := NonSlashRun(body);
    assert SegmentsFrom(path)[0] == body[..k];
    if k == 0 {
      assert body[0..] == body && |body| > 1;
      assert SegmentsFrom(path)[1..] == SegmentsFrom(body);
    }
  }

  // ---------------------------------------------------------------- items mean segments

  lemma AfterSlash(items: seq<Item>, s: string)
    requires AtBoundary(s)
    ensures RunItems([Lit('/')] + items, s) == if s != "" then RunItems(items, s[1..]) else None
  {
    assert ([Lit('/')] + items)[1..] == items;
  }

  lemma OneSegmentRuns(items: seq<Item>, s: string)
    ensures RunItems([OneSegment] + items, s)
         == if NonSlashRun(s) == 0 then None else Greedy(items, s, NonSlashRun(s), 1)
  {
    assert ([OneSegment] + items)[1..] == items;
  }

  /** `(.*)` at the end of an alternative takes everything on the line. */
  lemma AnythingRuns(s: string)
    requires forall c | c in s :: !IsLineTerminator(c)
    ensures RunItems([Anything] + [], s) == Some([s])
  {
    var rest: seq<Item> := [];
    assert ([Anything] + rest)[1..] == rest;
    assert LineRun(s) == |s| && s[|s|..] == "" && s[..|s|] == s;
    assert Greedy(rest, s, |s|, 0) == Some([s] + []);
    assert [s] + [] == [s];
  }

  lemma {:induction false} RunLiteral(text: string, items: seq<Item>, s: string)
    ensures RunItems(Literal(text) + items, s) == if text <= s then RunItems(items, s[|text|..]) else None
  {
    if text == "" {
      assert Literal(text) + items == items && s[0..] == s;
    } else {
      assert (Literal(text) + items)[1..] == Literal(text[1..]) + items;
      if s != "" && s[0] == text[0] {
        RunLiteral(text[1..], items, s[1..]);
        assert text <= s <==> text[1..] <= s[1..];
      }
    }
  }

  /** What follows a segment can only start at a boundary. */
  lemma NeedsBoundary(p: seq<Segment>, s: string)
    requires RunItems(ItemsOf(p), s).Some?
    ensures AtBoundary(s)
  {
  }

  lemma {:induction false} GreedyAtRun(p: seq<Segment>, s: string, k: nat)
    requires 1 <= k <= NonSlashRun(s)
    ensures k < NonSlashRun(s) ==> Greedy(ItemsOf(p), s, k, 1) == None
    ensures k == NonSlashRun(s) ==>
      Greedy(ItemsOf(p), s, k, 1)
      == match RunItems(ItemsOf(p), s[k..]) case Some(caps) => Some([s[..k]] + caps) case None => None
    decreases k
  {
    var run := NonSlashRun(s);
    if k < run {
      assert s[..run][k] == s[k] == s[k..][0];
      if RunItems(ItemsOf(p), s[k..]).Some? { NeedsBoundary(p, s[k..]); }
    }
    if k > 1 { GreedyAtRun(p, s, k - 1); }
  }

  /** A single final slash is not part of a wildcard capture. */
  function Tidy(p: seq<Segment>, caps: seq<string>): seq<string> {
    if WildLast(p) && caps != [] then caps[..|caps| - 1] + [NormalizePath(caps[|caps| - 1])] else caps
  }

  lemma TidyTail(p: seq<Segment>, cap: string, caps: seq<string>)
    requires p != [] && (WildLast(p) <==> WildLast(p[1..])) && (WildLast(p) ==> caps != [])
    ensures Tidy(p, [cap] + caps) == [cap] + Tidy(p[1..], caps)
    ensures Tidy(p, caps) == Tidy(p[1..], caps)
  {
  }

  function Tidied(p: seq<Segment>, r: Option<seq<string>>): Option<seq<string>> {
    match r case None => None case Some(caps) => Some(Tidy(p, caps))
  }

  lemma {:induction false} GreedyCaptures(items: seq<Item>, s: string, k: nat, least: nat)
    requires least <= k <= |s| && Greedy(items, s, k, least).Some?
    ensures Greedy(items, s, k, least).value != []
    decreases k
  {
    if RunItems(items, s[k..]).None? { GreedyCaptures(items, s, k - 1, least); }
  }

  lemma {:induction false} WildCaptures(p: seq<Segment>, s: string)
    requires WellFormed(p) && WildLast(p) && AtBoundary(s) && RunItems(ItemsOf(p), s).Some?
    ensures RunItems(ItemsOf(p), s).value != []
    decreases |p|
  {
    WellFormedTail(p);
    match p[0]
    case Wildcard =>
      AfterSlash([Anything] + [], s);
      assert ([Anything] + [])[1..] == [];
      GreedyCaptures([], s[1..], LineRun(s[1..]), 0);
    case Param(_, _, _) =>
      AfterSlash([OneSegment] + ItemsOf(p[1..]), s);
      OneSegmentRuns(ItemsOf(p[1..]), s[1..]);
      GreedyCaptures(ItemsOf(p[1..]), s[1..], NonSlashRun(s[1..]), 1);
    case Static(v) =>
      assert p[|p| - 1] == p[1..][|p| - 2];
      AfterSlash(Literal(v) + ItemsOf(p[1..]), s);
      RunLiteral(v, ItemsOf(p[1..]), s[1..]);
      NeedsBoundary(p[1..], s[1..][|v|..]);
      WildCaptures(p[1..], s[1..][|v|..]);
  }

  lemma WildcardRuns(s: string)
    requires AtBoundary(s) && forall c | c in s :: !IsLineTerminator(c)
    ensures RunItems(ItemsOf([Wildcard]), s) == if s == "" then None else Some([s[1..]])
  {
    AfterSlash([Anything] + [], s);
    if s != "" {
      assert forall c | c in s[1..] :: c in s;
      AnythingRuns(s[1..]);
    }
  }

  lemma WildcardCaptures(s: string)
    requires AtBoundary(s) && !EndsWithTwoSlashes(s)
    ensures PlainCaptures([Wildcard], SegmentsFrom(s), EndsWithSlash(s))
         == if s == "" then None else Some([NormalizePath(s[1..])])
  {
    if |s| > 1 {
      assert SegmentsFrom(s) != [];
      hide SegmentsFrom, Join, EndsWithTwoSlashes;
      assert PlainCaptures([Wildcard], SegmentsFrom(s), EndsWithSlash(s)) == Some([Join(SegmentsFrom(s))]);
      SegmentsFromPath(s);
      NormalizedTail(s);
    } else if s != "" {
      assert s == "/";
      assert Join([]) == "" == NormalizePath("");
    }
  }

  lemma NormalizedTail(s: string)
    requires |s| > 1 && !EndsWithTwoSlashes(s) && s[0] == '/'
    ensures NormalizePath(s)[1..] == NormalizePath(s[1..])
  {
  }

  lemma WildcardMeans(s: string)
    requires AtBoundary(s) && !EndsWithTwoSlashes(s) && forall c | c in s :: !IsLineTerminator(c)
    ensures Tidied([Wildcard], RunItems(ItemsOf([Wildcard]), s)) == PlainCaptures([Wildcard], SegmentsFrom(s), EndsWithSlash(s))
  {
    WildcardRuns(s);
    WildcardCaptures(s);
    if s != "" { TidyOne(s[1..]); }
  }

  lemma TidyOne(cap: string)
    ensures Tidy([Wildcard], [cap]) == [NormalizePath(cap)]
  {
    assert [cap][..0] + [NormalizePath(cap)] == [NormalizePath(cap)];
  }

  /** On a boundary suffix, an alternative captures exactly what its pattern captures over the segments. */
  lemma {:induction false} ItemsMeanSegments(p: seq<Segment>, s: string)
    requires WellFormed(p) && Plain(p) && FastComparable(p)
    requires AtBoundary(s) && !EndsWithTwoSlashes(s) && forall c | c in s :: !IsLineTerminator(c)
    ensures Tidied(p, RunItems(ItemsOf(p), s)) == PlainCaptures(p, SegmentsFrom(s), EndsWithSlash(s))
    decreases |p|
  {
    if p == [] {
      EndMeans(s);
    } else {
      assert p[0] in p;
      WellFormedTail(p);
      match p[0]
      case Wildcard =>
        assert p == [Wildcard];
        WildcardMeans(s);
      case Static(v) => StaticMeans(p, s);
      case Param(_, _, _) => ParamMeans(p, s);
    }
  }

  lemma EndMeans(s: string)
    requires AtBoundary(s) && !EndsWithTwoSlashes(s)
    ensures Tidied([], RunItems(ItemsOf([]), s)) == PlainCaptures([], SegmentsFrom(s), EndsWithSlash(s))
  {
    assert ItemsOf([])[1..] == [];
  }

  lemma SuffixKeeps(s: string, k: nat)
    requires k <= |s| && !EndsWithTwoSlashes(s) && forall c | c in s :: !IsLineTerminator(c)
    ensures !EndsWithTwoSlashes(s[k..]) && forall c | c in s[k..] :: !IsLineTerminator(c)
    ensures k < |s| ==> EndsWithSlash(s[k..]) == EndsWithSlash(s)
  {
  }

  lemma PrefixHolds(v: string, body: string)
    requires v <= body
    ensures forall k | 0 <= k < |v| :: body[k] in v
  {
    assert forall k | 0 <= k < |v| :: v[k] == body[k];
  }

  /** A literal segment matches only when it is the whole segment. */
  lemma LiteralIsSegment(v: string, p: seq<Segment>, body: string)
    requires '/' !in v
    ensures RunItems(Literal(v) + ItemsOf(p), body)
         == if v == body[..NonSlashRun(body)] then RunItems(ItemsOf(p), body[NonSlashRun(body)..]) else None
  {
    var k := NonSlashRun(body);
    RunLiteral(v, ItemsOf(p), body);
    if v <= body { PrefixHolds(v, body); }
    if v <= body && |v| != k {
      assert body[..k][|v|] == body[|v|..][0];
      if RunItems(ItemsOf(p), body[|v|..]).Some? { NeedsBoundary(p, body[|v|..]); }
    }
  }

  /** Once the text is used up the trailing slash no longer matters to what is left of a pattern. */
  lemma SlashOfRest(p: seq<Segment>, s: string, k: nat)
    requires s != "" && k <= |s[1..]|
    requires s[1..][k..] == "" ==> !EndsWithSlash(s)
    ensures PlainCaptures(p, SegmentsFrom(s[1..][k..]), EndsWithSlash(s[1..][k..]))
         == PlainCaptures(p, SegmentsFrom(s[1..][k..]), EndsWithSlash(s))
  {
    if s[1..][k..] != "" { assert EndsWithSlash(s[1..][k..]) == EndsWithSlash(s); }
  }

  /** Moving past one segment keeps the wildcard status and, while text remains, the trailing slash. */
  lemma TailShape(p: seq<Segment>, s: string, k: nat)
    requires WellFormed(p) && p != [] && !p[0].Wildcard?
    requires AtBoundary(s) && s != "" && k == NonSlashRun(s[1..])
    ensures WildLast(p) <==> WildLast(p[1..])
    ensures s[1..] != "" ==> SegmentsFrom(s) == [s[1..][..k]] + SegmentsFrom(s[1..][k..])
    ensures s[1..] == "" ==> SegmentsFrom(s) == []
    ensures s[1..][k..] == "" && k > 0 ==> !EndsWithSlash(s)
  {
    if p[1..] != [] { assert p[|p| - 1] == p[1..][|p| - 2]; }
    var body := s[1..];
    if body[k..] == "" && k > 0 { assert body[|body| - 1] == body[..k][|body| - 1]; }
  }

  lemma StaticRuns(p: seq<Segment>, s: string)
    requires p != [] && p[0].Static? && '/' !in p[0].value && AtBoundary(s)
    ensures RunItems(ItemsOf(p), s)
         == if s != "" && p[0].value == s[1..][..NonSlashRun(s[1..])]
            then RunItems(ItemsOf(p[1..]), s[1..][NonSlashRun(s[1..])..]) else None
  {
    AfterSlash(Literal(p[0].value) + ItemsOf(p[1..]), s);
    if s != "" { LiteralIsSegment(p[0].value, p[1..], s[1..]); }
  }

  lemma StaticCaptures(p: seq<Segment>, s: string)
    requires p != [] && p[0].Static? && p[0].value != "" && AtBoundary(s)
    ensures PlainCaptures(p, SegmentsFrom(s), EndsWithSlash(s))
         == if s != "" && p[0].value == s[1..][..NonSlashRun(s[1..])]
            then PlainCaptures(p[1..], SegmentsFrom(s[1..][NonSlashRun(s[1..])..]), EndsWithSlash(s)) else None
  {
    if |s| > 1 {
      assert SegmentsFrom(s) == [s[1..][..NonSlashRun(s[1..])]] + SegmentsFrom(s[1..][NonSlashRun(s[1..])..]);
    }
  }

  lemma {:induction false} StaticMeans(p: seq<Segment>, s: string)
    requires WellFormed(p) && Plain(p) && FastComparable(p) && p != [] && p[0].Static?
    requires AtBoundary(s) && !EndsWithTwoSlashes(s) && forall c | c in s :: !IsLineTerminator(c)
    ensures Tidied(p, RunItems(ItemsOf(p), s)) == PlainCaptures(p, SegmentsFrom(s), EndsWithSlash(s))
    decreases |p|, 0
  {
    assert p[0] in p && p[0].value != "";
    StaticRuns(p, s);
    StaticCaptures(p, s);
    if s != "" && p[0].value == s[1..][..NonSlashRun(s[1..])] {
      BelowSegment(p, s);
      var rest := s[1..][NonSlashRun(s[1..])..];
      ItemsMeanSegments(p[1..], rest);
      TidyShift(p, RunItems(ItemsOf(p[1..]), rest));
    }
  }

  /** The rest of the path below one segment is again a fit suffix, and the rest of the pattern a fit pattern. */
  lemma BelowSegment(p: seq<Segment>, s: string)
    requires WellFormed(p) && Plain(p) && FastComparable(p) && p != [] && !p[0].Wildcard?
    requires AtBoundary(s) && s != "" && !EndsWithTwoSlashes(s) && forall c | c in s :: !IsLineTerminator(c)
    requires s[1..][..NonSlashRun(s[1..])] != ""
    ensures var rest := s[1..][NonSlashRun(s[1..])..];
            && AtBoundary(rest) && !EndsWithTwoSlashes(rest) && (forall c | c in rest :: !IsLineTerminator(c))
            && PlainCaptures(p[1..], SegmentsFrom(rest), EndsWithSlash(rest))
               == PlainCaptures(p[1..], SegmentsFrom(rest), EndsWithSlash(s))
    ensures WellFormed(p[1..]) && Plain(p[1..]) && FastComparable(p[1..])
  {
    var k := NonSlashRun(s[1..]);
    WellFormedTail(p);
    TailShape(p, s, k);
    SuffixKeeps(s, 1 + k);
    assert s[1 + k..] == s[1..][k..];
    SlashOfRest(p[1..], s, k);
  }

  lemma TidyShift(p: seq<Segment>, r: Option<seq<string>>)
    requires WellFormed(p) && p != [] && !p[0].Wildcard?
    ensures Tidied(p, r) == Tidied(p[1..], r)
  {
    if p[1..] != [] { assert p[|p| - 1] == p[1..][|p| - 2]; }
  }

  function Prepend(cap: string, r: Option<seq<string>>): Option<seq<string>> {
    match r case None => None case Some(caps) => Some([cap] + caps)
  }

  lemma ParamRuns(p: seq<Segment>, s: string)
    requires p != [] && p[0].Param? && AtBoundary(s)
    ensures RunItems(ItemsOf(p), s)
         == if s != "" && NonSlashRun(s[1..]) > 0
            then Prepend(s[1..][..NonSlashRun(s[1..])], RunItems(ItemsOf(p[1..]), s[1..][NonSlashRun(s[1..])..]))
            else None
  {
    AfterSlash([OneSegment] + ItemsOf(p[1..]), s);
    if s != "" {
      OneSegmentRuns(ItemsOf(p[1..]), s[1..]);
      if NonSlashRun(s[1..]) > 0 { GreedyAtRun(p[1..], s[1..], NonSlashRun(s[1..])); }
    }
  }

  lemma ParamCaptures(p: seq<Segment>, s: string)
    requires p != [] && p[0].Param? && AtBoundary(s)
    ensures PlainCaptures(p, SegmentsFrom(s), EndsWithSlash(s))
         == if s != "" && NonSlashRun(s[1..]) > 0
            then Prepend(s[1..][..NonSlashRun(s[1..])],
                         PlainCaptures(p[1..], SegmentsFrom(s[1..][NonSlashRun(s[1..])..]), EndsWithSlash(s)))
            else None
  {
    if |s| > 1 {
      assert SegmentsFrom(s) == [s[1..][..NonSlashRun(s[1..])]] + SegmentsFrom(s[1..][NonSlashRun(s[1..])..]);
    }
  }

  lemma {:induction false} ParamMeans(p: seq<Segment>, s: string)
    requires WellFormed(p) && Plain(p) && FastComparable(p) && p != [] && p[0].Param?
    requires AtBoundary(s) && !EndsWithTwoSlashes(s) && forall c | c in s :: !IsLineTerminator(c)
    ensures Tidied(p, RunItems(ItemsOf(p), s)) == PlainCaptures(p, SegmentsFrom(s), EndsWithSlash(s))
    decreases |p|, 0
  {
    ParamRuns(p, s);
    ParamCaptures(p, s);
    if s != "" && NonSlashRun(s[1..]) > 0 {
      var seg, rest := s[1..][..NonSlashRun(s[1..])], s[1..][NonSlashRun(s[1..])..];
      BelowSegment(p, s);
      ItemsMeanSegments(p[1..], rest);
      TidyPrepend(p, seg, rest);
    }
  }

  lemma TidyPrepend(p: seq<Segment>, seg: string, rest: string)
    requires WellFormed(p) && p != [] && !p[0].Wildcard? && AtBoundary(rest)
    ensures Tidied(p, Prepend(seg, RunItems(ItemsOf(p[1..]), rest)))
         == Prepend(seg, Tidied(p[1..], RunItems(ItemsOf(p[1..]), rest)))
  {
    WellFormedTail(p);
    if p[1..] != [] { assert p[|p| - 1] == p[1..][|p| - 2]; }
    var r := RunItems(ItemsOf(p[1..]), rest);
    if r.Some? {
      if WildLast(p[1..]) { WildCaptures(p[1..], rest); }
      TidyTail(p, seg, r.value);
    }
  }
}
