/**
 Route patterns: compilation into segments, what a pattern matches, and the
 registration-time overlap test.
 */
module Patterns {
  import opened Wrappers
  import opened Percent
  import opened Paths

  /** Custom parameter expressions are opaque: which sources parse, and which texts each accepts. */
  datatype Regexes = Regexes(parses: string -> bool, accepts: (string, string) -> bool)

  datatype Segment =
    | Static(value: string)
    | Param(name: string, pattern: Option<string>, optional: bool)
    | Wildcard

  /** What a matcher sees of a request path. */
  datatype Query = Query(segs: seq<string>, slash: bool)

  function QueryOf(path: string): Query {
    Query(SplitSegments(path), EndsWithSlash(path))
  }

  const WILDCARD_NAME := "wildcard"

  // ---------------------------------------------------------------- compilation

  function IndexOf(s: string, c: char): (i: int)
    ensures -1 <= i < |s|
    ensures i >= 0 ==> s[i] == c
  {
    if s == "" then -1
    else if s[0] == c then 0
    else var i := IndexOf(s[1..], c); if i == -1 then -1 else i + 1
  }

  function LastIndexOf(s: string, c: char): (i: int)
    ensures -1 <= i < |s|
    ensures i >= 0 ==> s[i] == c
  {
    if s == "" then -1
    else if s[|s| - 1] == c then |s| - 1
    else LastIndexOf(s[..|s| - 1], c)
  }

  /** The name and constraint of a ":…" segment, its optional mark already removed. */
  function CompileParam(re: Regexes, body: string, optional: bool): (r: Result<Segment>)
    ensures r.Ok? ==> r.value.Param? && r.value.name != ""
  {
    var open := IndexOf(body, '(');
    if open == -1 then
      if body == "" || '?' in body then Thrown("Empty or invalid parameter name")
      else Ok(Param(body, None, optional))
    else
      var close := LastIndexOf(body, ')');
      if close == -1 || close < open then Thrown("Unbalanced custom pattern")
      else if close + 1 < |body| then Thrown("Unexpected text after the custom pattern")
      else if !re.parses(body[open + 1..close]) then Thrown("Invalid regular expression")
      else if body[..open] == "" || '?' in body[..open] then Thrown("Empty or invalid parameter name")
      else Ok(Param(body[..open], Some(body[open + 1..close]), optional))
  }

  function CompilePart(re: Regexes, raw: string, last: bool): (r: Result<Segment>)
    ensures r.Ok? ==> SegmentOk(r.value, last)
  {
    if raw == "" then Thrown("Route path has an empty segment")
    else if raw == "*" then
      if last then Ok(Wildcard) else Thrown("Wildcard must be the last segment")
    else if raw[0] == ':' then
      var body := raw[1..];
      if body != "" && body[|body| - 1] == '?'
      then CompileParam(re, body[..|body| - 1], true)
      else CompileParam(re, body, false)
    else if '*' in raw then Thrown("Wildcard must be its own final segment")
    else DecodeSegmentNonEmpty(raw); Ok(Static(DecodeSegment(raw)))
  }

  function CompileParts(re: Regexes, parts: seq<string>): (r: Result<seq<Segment>>)
    ensures r.Ok? ==> |r.value| == |parts|
    ensures r.Ok? ==> WellFormed(r.value)
  {
    if parts == [] then Ok([])
    else
      match CompilePart(re, parts[0], |parts| == 1)
      case Thrown(m) => Thrown(m)
      case Ok(segment) =>
        match CompileParts(re, parts[1..])
        case Thrown(m) => Thrown(m)
        case Ok(rest) => WellFormedCons(segment, rest); Ok([segment] + rest)
  }

  function Compile(re: Regexes, path: string): (r: Result<seq<Segment>>)
    ensures r.Ok? ==> WellFormed(r.value)
  {
    if path == "" || path[0] != '/' then Thrown("Route path must start with \"/\"")
    else CompileParts(re, SplitSegments(path))
  }

  /** What compilation guarantees: the wildcard comes last, static text and names are non-empty. */
  predicate WellFormed(p: seq<Segment>) {
    forall i | 0 <= i < |p| :: SegmentOk(p[i], i == |p| - 1)
  }

  predicate SegmentOk(s: Segment, last: bool) {
    match s
    case Static(v) => v != ""
    case Param(name, _, _) => name != ""
    case Wildcard => last
  }

  lemma WellFormedCons(s: Segment, rest: seq<Segment>)
    requires SegmentOk(s, rest == []) && WellFormed(rest)
    ensures WellFormed([s] + rest)
  {
    var p := [s] + rest;
    forall i | 0 <= i < |p| ensures SegmentOk(p[i], i == |p| - 1) {
      if i > 0 { assert p[i] == rest[i - 1]; }
    }
  }

  /** A wildcard that is not the last part does not compile. */
  lemma {:induction false} StarInside(re: Regexes, parts: seq<string>, more: seq<string>)
    requires more != []
    ensures CompileParts(re, parts + ["*"] + more).Thrown?
  {
    var all := parts + ["*"] + more;
    if parts != [] {
      StarInside(re, parts[1..], more);
      assert all[1..] == parts[1..] + ["*"] + more;
    }
  }

  // ---------------------------------------------------------------- what a path spells

  function ParamText(name: string, pattern: Option<string>, optional: bool): string {
    ":" + name + (if pattern.Some? then "(" + pattern.value + ")" else "") + (if optional then "?" else "")
  }

  /** A part of a path stands for a segment: `*` at the end, `:name`, `:name(source)`, either with a final `?`, or a literal. */
  predicate Denotes(re: Regexes, raw: string, s: Segment, last: bool) {
    match s
    case Static(v) => raw != "" && raw[0] != ':' && '*' !in raw && DecodeSegment(raw) == v
    case Param(name, pattern, optional) =>
      && raw == ParamText(name, pattern, optional)
      && name != "" && '?' !in name && '(' !in name
      && (pattern.Some? ==> re.parses(pattern.value))
    case Wildcard => last && raw == "*"
  }

  lemma {:induction false} IndexOfFirst(s: string, i: nat, c: char)
    requires i < |s| && s[i] == c && c !in s[..i]
    ensures IndexOf(s, c) == i
  {
    if i > 0 {
      assert s[0] in s[..i] && s[..i][1..] == s[1..][..i - 1];
      IndexOfFirst(s[1..], i - 1, c);
    }
  }

  lemma {:induction false} IndexOfNone(s: string, c: char)
    ensures IndexOf(s, c) == -1 <==> c !in s
    ensures IndexOf(s, c) >= 0 ==> c !in s[..IndexOf(s, c)]
  {
    if s != "" {
      IndexOfNone(s[1..], c);
      var i := IndexOf(s, c);
      if i > 0 { assert s[..i] == [s[0]] + s[1..][..i - 1]; }
    }
  }

  /** The body of a param part: its name, then its source in parentheses. */
  function BodyText(name: string, pattern: Option<string>): string {
    name + (if pattern.Some? then "(" + pattern.value + ")" else "")
  }

  predicate BodyDenotes(re: Regexes, body: string, name: string, pattern: Option<string>) {
    && body == BodyText(name, pattern)
    && name != "" && '?' !in name && '(' !in name
    && (pattern.Some? ==> re.parses(pattern.value))
  }

  lemma BodyRead(re: Regexes, body: string, optional: bool)
    requires CompileParam(re, body, optional).Ok?
    ensures var s := CompileParam(re, body, optional).value; BodyDenotes(re, body, s.name, s.pattern)
  {
    hide IndexOf, LastIndexOf;
    var open := IndexOf(body, '(');
    IndexOfNone(body, '(');
    if open >= 0 {
      var close := LastIndexOf(body, ')');
      assert body == body[..open] + "(" + body[open + 1..close] + ")";
    } else {
      assert body + "" == body;
    }
  }

  lemma SourceBody(name: string, source: string)
    requires '(' !in name
    ensures var body := BodyText(name, Some(source));
            && IndexOf(body, '(') == |name| && LastIndexOf(body, ')') == |body| - 1
            && body[..|name|] == name && body[|name| + 1..|body| - 1] == source
  {
    var body := BodyText(name, Some(source));
    assert body == name + "(" + source + ")" && body[..|name|] == name && body[|name|] == '(';
    IndexOfFirst(body, |name|, '(');
  }

  lemma BodyWritten(re: Regexes, body: string, optional: bool, name: string, pattern: Option<string>)
    requires BodyDenotes(re, body, name, pattern)
    ensures CompileParam(re, body, optional) == Ok(Param(name, pattern, optional))
  {
    hide IndexOf, LastIndexOf;
    if pattern.Some? {
      SourceBody(name, pattern.value);
    } else {
      assert body == name;
      IndexOfNone(body, '(');
    }
  }

  lemma BodyExactly(re: Regexes, body: string, optional: bool, name: string, pattern: Option<string>)
    ensures CompileParam(re, body, optional) == Ok(Param(name, pattern, optional)) <==> BodyDenotes(re, body, name, pattern)
  {
    hide BodyDenotes;
    if CompileParam(re, body, optional).Ok? { BodyRead(re, body, optional); }
    if BodyDenotes(re, body, name, pattern) { BodyWritten(re, body, optional, name, pattern); }
  }

  lemma ParamExactly(re: Regexes, raw: string, last: bool, s: Segment)
    requires raw != "" && raw[0] == ':'
    ensures CompilePart(re, raw, last) == Ok(s) <==> Denotes(re, raw, s, last)
  {
    var body := raw[1..];
    var marked := body != "" && body[|body| - 1] == '?';
    var inner := if marked then body[..|body| - 1] else body;
    assert CompilePart(re, raw, last) == CompileParam(re, inner, marked);
    CompiledMark(re, inner, marked);
    if s.Param? {
      hide CompilePart;
      BodyExactly(re, inner, marked, s.name, s.pattern);
      BodyMark(s.name, s.pattern, s.optional, raw);
    }
  }

  lemma CompiledMark(re: Regexes, body: string, optional: bool)
    ensures CompileParam(re, body, optional).Ok? ==>
      CompileParam(re, body, optional).value.Param? && CompileParam(re, body, optional).value.optional == optional
  {
  }

  /** The final mark of a part is its own: a name has none, and a source is closed before it. */
  lemma BodyMark(name: string, pattern: Option<string>, optional: bool, raw: string)
    requires raw != "" && raw[0] == ':'
    ensures var body := raw[1..];
            var marked := body != "" && body[|body| - 1] == '?';
            name != "" && '?' !in name ==>
              (raw == ParamText(name, pattern, optional) <==> marked == optional && (if marked then body[..|body| - 1] else body) == BodyText(name, pattern))
  {
    var body, text := raw[1..], BodyText(name, pattern);
    var marked := body != "" && body[|body| - 1] == '?';
    assert raw == ":" + body;
    assert ParamText(name, pattern, optional) == ":" + (text + (if optional then "?" else ""));
    assert raw == ParamText(name, pattern, optional) <==> body == text + (if optional then "?" else "") by {
      assert (":" + body)[1..] == body && (":" + (text + (if optional then "?" else "")))[1..] == text + (if optional then "?" else "");
    }
    if name != "" && '?' !in name {
      assert text != "" && text[|text| - 1] != '?' by { if pattern.None? { assert text == name && name[|name| - 1] in name; } }
      if marked { assert body == body[..|body| - 1] + "?"; }
      assert text + "" == text;
      if optional { assert (text + "?")[..|text|] == text; }
    }
  }

  /** A part compiles to a segment if and only if it stands for it. */
  lemma PartExactly(re: Regexes, raw: string, last: bool, s: Segment)
    ensures CompilePart(re, raw, last) == Ok(s) <==> Denotes(re, raw, s, last)
  {
    if raw != "" && raw[0] == ':' {
      ParamExactly(re, raw, last, s);
    } else if s.Param? {
      assert ParamText(s.name, s.pattern, s.optional)[0] == ':';
    }
  }

  ghost predicate AllDenote(re: Regexes, parts: seq<string>, p: seq<Segment>) {
    |parts| == |p| && forall i | 0 <= i < |p| :: Denotes(re, parts[i], p[i], i == |p| - 1)
  }

  lemma {:induction false} PartsExactly(re: Regexes, parts: seq<string>, p: seq<Segment>)
    ensures CompileParts(re, parts) == Ok(p) <==> AllDenote(re, parts, p)
  {
    hide Denotes, CompilePart;
    if parts != [] && p != [] {
      PartExactly(re, parts[0], |parts| == 1, p[0]);
      PartsExactly(re, parts[1..], p[1..]);
      assert p == [p[0]] + p[1..];
      if AllDenote(re, parts, p) {
        forall i | 0 <= i < |p| - 1 ensures Denotes(re, parts[1..][i], p[1..][i], i == |p| - 2) { assert Denotes(re, parts[i + 1], p[i + 1], i + 1 == |p| - 1); }
      }
      if AllDenote(re, parts[1..], p[1..]) && Denotes(re, parts[0], p[0], |parts| == 1) {
        forall i | 0 <= i < |p| ensures Denotes(re, parts[i], p[i], i == |p| - 1) {
          if i > 0 { assert Denotes(re, parts[1..][i - 1], p[1..][i - 1], i - 1 == |p| - 2); }
        }
      }
      if CompileParts(re, parts) == Ok(p) {
        assert CompileParts(re, parts[1..]).value == p[1..];
      }
    } else if parts != [] {
    }
  }

  /** A path spells a pattern: its parts between slashes stand for the segments, and it may end in one more slash. */
  ghost predicate SpelledBy(re: Regexes, path: string, p: seq<Segment>, parts: seq<string>) {
    && AllDenote(re, parts, p)
    && (forall part | part in parts :: '/' !in part)
    && (path == "/" + Join(parts) || path == "/" + Join(parts) + "/")
  }

  ghost predicate SpellsPattern(re: Regexes, path: string, p: seq<Segment>) {
    exists parts :: SpelledBy(re, path, p, parts)
  }

  /** A path compiles to a pattern if and only if it spells it. */
  lemma CompileExactly(re: Regexes, path: string, p: seq<Segment>)
    ensures Compile(re, path) == Ok(p) <==> SpellsPattern(re, path, p)
  {
    hide Join, CompileParts, Denotes, SplitSegments;
    if Compile(re, path) == Ok(p) {
      var parts := SplitSegments(path);
      PartsExactly(re, parts, p);
      SegmentsWritten(path);
      NormalizedText(path);
      SplitPlainParts(path);
      assert SpelledBy(re, path, p, parts);
    }
    if SpellsPattern(re, path, p) {
      var parts :| SpelledBy(re, path, p, parts);
      assert path[0] == '/';
      if parts != [] { NonEmptyPart(re, parts[0], p[0], |p| == 1); NonEmptyPart(re, parts[|p| - 1], p[|p| - 1], true); }
      SegmentsExactly(path, parts);
      PartsExactly(re, parts, p);
    }
  }

  lemma NonEmptyPart(re: Regexes, raw: string, s: Segment, last: bool)
    requires Denotes(re, raw, s, last)
    ensures raw != ""
  {
  }

  lemma SplitPlainParts(path: string)
    ensures forall part | part in SplitSegments(path) :: '/' !in part
  {
  }

  /** Compilation throws on exactly the paths that spell no pattern. */
  lemma CompileThrowsExactly(re: Regexes, path: string)
    ensures Compile(re, path).Thrown? <==> forall p :: !SpellsPattern(re, path, p)
  {
    forall p ensures Compile(re, path) == Ok(p) <==> SpellsPattern(re, path, p) { CompileExactly(re, path, p); }
    if Compile(re, path).Ok? { assert SpellsPattern(re, path, Compile(re, path).value); }
  }

  // ---------------------------------------------------------------- printing a pattern

  /** A literal with every character escaped. */
  function Escaped(v: string): string {
    if v == "" then "" else EncodePoint(v[0] as int) + Escaped(v[1..])
  }

  function TextOfSegment(s: Segment): string {
    match s
    case Static(v) => Escaped(v)
    case Param(name, pattern, optional) => ParamText(name, pattern, optional)
    case Wildcard => "*"
  }

  function TextsOf(p: seq<Segment>): (r: seq<string>)
    ensures |r| == |p| && forall i | 0 <= i < |p| :: r[i] == TextOfSegment(p[i])
  {
    seq(|p|, i requires 0 <= i < |p| => TextOfSegment(p[i]))
  }

  function TextOf(p: seq<Segment>): string {
    "/" + Join(TextsOf(p))
  }

  /** A name or source that a path can hold. */
  predicate Printable(re: Regexes, s: Segment) {
    s.Param? ==>
      && '/' !in s.name && '?' !in s.name && '(' !in s.name
      && (s.pattern.Some? ==> '/' !in s.pattern.value && re.parses(s.pattern.value))
  }

  lemma EscapedPoint(cp: int)
    requires IsScalar(cp)
    ensures var e := EncodePoint(cp); e != "" && e[0] == '%' && UpperHex(e) == e && '*' !in e && '/' !in e
  {
    hide UpperHex, EncodeBytes;
    if cp < 0x80 { EscapedBytes(cp, []); }
    else if cp < 0x800 { EscapedBytes(0xC0 + cp / 64, [cp % 64]); }
    else if cp < 0x10000 { EscapedBytes(0xE0 + cp / 64 / 64, [cp / 64 % 64, cp % 64]); }
    else { EscapedBytes(0xF0 + cp / 64 / 64 / 64, [cp / 64 / 64 % 64, cp / 64 % 64, cp % 64]); }
  }

  lemma {:induction false} EscapedBytes(lead: int, tails: seq<int>)
    requires 0 <= lead < 256 && forall i | 0 <= i < |tails| :: 0 <= tails[i] < 64
    ensures var e := EncodeBytes(lead, tails); |e| >= 3 && e[0] == '%' && UpperHex(e) == e && '*' !in e && '/' !in e
    decreases |tails|
  {
    var head := EncodeByte(lead);
    assert UpperHex(head) == head && '*' !in head && '/' !in head;
    if tails != [] {
      EscapedBytes(0x80 + tails[0], tails[1..]);
      var rest := EncodeBytes(0x80 + tails[0], tails[1..]);
      assert UpperHex(head + rest) == UpperHex(head) + UpperHex(rest);
    }
  }

  lemma {:induction false} EscapedWrites(v: string)
    ensures Writes(Escaped(v), v) && '*' !in Escaped(v) && '/' !in Escaped(v)
    ensures v != "" ==> Escaped(v) != "" && Escaped(v)[0] == '%'
  {
    hide EncodePoint, UpperHex;
    if v != "" {
      EscapedWrites(v[1..]);
      EscapedPoint(v[0] as int);
      var e := EncodePoint(v[0] as int);
      assert (e + Escaped(v[1..]))[..|e|] == e && (e + Escaped(v[1..]))[|e|..] == Escaped(v[1..]);
    }
  }

  lemma PrintedDenotes(re: Regexes, s: Segment, last: bool)
    requires SegmentOk(s, last) && Printable(re, s)
    ensures Denotes(re, TextOfSegment(s), s, last) && '/' !in TextOfSegment(s)
  {
    if s.Static? {
      EscapedWrites(s.value);
      DecodeSegmentExactly(Escaped(s.value), s.value);
    }
  }

  /** A well-formed pattern whose names and sources a path can hold is what its text compiles to. */
  lemma CompilePrinted(re: Regexes, p: seq<Segment>)
    requires WellFormed(p) && forall s | s in p :: Printable(re, s)
    ensures Compile(re, TextOf(p)) == Ok(p)
  {
    hide Denotes, Printable, TextOfSegment, Join;
    var parts := TextsOf(p);
    forall i | 0 <= i < |p| ensures Denotes(re, parts[i], p[i], i == |p| - 1) && '/' !in parts[i] {
      assert p[i] in p;
      PrintedDenotes(re, p[i], i == |p| - 1);
    }
    assert SpelledBy(re, TextOf(p), p, parts);
    CompileExactly(re, TextOf(p), p);
  }

  predicate IsStatic(p: seq<Segment>) {
    forall s | s in p :: s.Static?
  }

  /** Only plain required params after a static head: the shape the slice matcher handles. */
  predicate IsSimple(p: seq<Segment>) {
    && !IsStatic(p)
    && (forall s | s in p :: PlainOrStatic(s))
    && p[0].Static?
    && (forall i, j | 0 <= i < j < |p| :: p[i].Param? ==> p[j].Param?)
  }

  function NameOf(s: Segment): string
    requires !s.Static?
  {
    if s.Wildcard? then WILDCARD_NAME else s.name
  }

  function ParamNamesOf(p: seq<Segment>): seq<string> {
    if p == [] then []
    else (if p[0].Static? then [] else [NameOf(p[0])]) + ParamNamesOf(p[1..])
  }

  /** No static value holds a "/": the pattern may be compared against raw paths. */
  predicate FastComparable(p: seq<Segment>) {
    forall s | s in p :: s.Static? ==> '/' !in s.value
  }

  /** Compilation in place: one pass over the parts, then one pass for the flags. */
  method CompilePattern(re: Regexes, path: string) returns (r: Result<(seq<Segment>, bool, bool)>)
    ensures r.Thrown? <==> Compile(re, path).Thrown?
    ensures r.Ok? ==> Compile(re, path) == Ok(r.value.0) && SpellsPattern(re, path, r.value.0)
    ensures r.Thrown? ==> forall p :: !SpellsPattern(re, path, p)
    ensures r.Ok? ==> r.value.1 == IsStatic(r.value.0)
    ensures r.Ok? ==> r.value.2 == IsSimple(r.value.0)
  {
    hide SpellsPattern, IsSimple, CompilePart;
    CompileThrowsExactly(re, path);
    if path == "" || path[0] != '/' {
      return Thrown("Route path must start with \"/\"");
    }
    var parts := SplitSegments(path);
    var segments: seq<Segment> := [];
    assert parts[0..] == parts;
    assert forall rest: seq<Segment> {:trigger segments + rest} :: segments + rest == rest;
    for index := 0 to |parts|
      invariant |segments| == index
      invariant match CompileParts(re, parts[index..])
                case Thrown(_) => Compile(re, path).Thrown?
                case Ok(rest) => Compile(re, path) == Ok(segments + rest)
    {
      var compiled := CompilePart(re, parts[index], index == |parts| - 1);
      if compiled.Thrown? {
        return Thrown(compiled.message);
      }
      assert parts[index..][1..] == parts[index + 1..];
      segments := segments + [compiled.value];
      assert forall rest: seq<Segment> {:trigger segments + rest} ::
          segments[..index] + ([compiled.value] + rest) == segments + rest;
      assert segments[..index] + [compiled.value] == segments;
    }
    assert segments + [] == segments;
    CompileExactly(re, path, segments);
    var isStatic, isSimple := ShapeOf(segments);
    return Ok((segments, isStatic, isSimple));
  }

  /** The flag pass of compilation. */
  method ShapeOf(segments: seq<Segment>) returns (isStatic: bool, isSimple: bool)
    ensures isStatic == IsStatic(segments)
    ensures isSimple == IsSimple(segments)
  {
    var dynamic, simple, sawDynamic := 0, true, false;
    for i := 0 to |segments|
      invariant dynamic == 0 <==> IsStatic(segments[..i])
      invariant sawDynamic <==> dynamic > 0
      invariant dynamic >= 0
      invariant simple <==> SimpleSoFar(segments[..i])
    {
      SimpleStep(segments, i);
      if segments[i].Static? {
        if sawDynamic { simple := false; }
      } else {
        dynamic := dynamic + 1;
        sawDynamic := true;
        if segments[i].Wildcard? || segments[i].optional || segments[i].pattern != None || i == 0 {
          simple := false;
        }
      }
    }
    assert segments[..|segments|] == segments;
    SimpleWhole(segments);
    return dynamic == 0, dynamic > 0 && simple;
  }

  predicate PlainOrStatic(s: Segment) {
    s.Static? || (s.Param? && s.pattern == None && !s.optional)
  }

  predicate SimpleSoFar(p: seq<Segment>) {
    && (forall i | 0 <= i < |p| :: PlainOrStatic(p[i]))
    && (p != [] ==> p[0].Static?)
    && (forall i, j | 0 <= i < j < |p| :: p[i].Param? ==> p[j].Param?)
  }

  lemma SimpleStep(p: seq<Segment>, i: nat)
    requires i < |p|
    ensures IsStatic(p[..i + 1]) <==> IsStatic(p[..i]) && p[i].Static?
    ensures SimpleSoFar(p[..i + 1]) <==>
              && SimpleSoFar(p[..i])
              && (if p[i].Static? then IsStatic(p[..i]) else PlainOrStatic(p[i]) && i != 0)
  {
    var a, b := p[..i], p[..i + 1];
    assert b == a + [p[i]];
    assert b[i] == p[i];
    assert forall j | 0 <= j < i :: b[j] == a[j];
    if SimpleSoFar(b) {
      assert SimpleSoFar(a);
      if p[i].Static? {
        forall s | s in a ensures s.Static? {
          var j :| 0 <= j < |a| && a[j] == s;
          assert PlainOrStatic(b[j]);
        }
      }
    }
    if SimpleSoFar(a) && p[i].Static? && IsStatic(a) {
      assert forall j | 0 <= j < i :: b[j] in a;
    }
  }

  lemma SimpleWhole(p: seq<Segment>)
    ensures IsSimple(p) <==> !IsStatic(p) && SimpleSoFar(p)
  {
    if !IsStatic(p) && SimpleSoFar(p) {
      forall s | s in p ensures PlainOrStatic(s) {
        var i :| 0 <= i < |p| && p[i] == s;
      }
    }
  }

  // ---------------------------------------------------------------- matching

  /** A param's constraint, tested on the decoded text. */
  predicate Admits(re: Regexes, pattern: Option<string>, decoded: string) {
    pattern.None? || re.accepts(pattern.value, decoded)
  }

  /**
   What a pattern means, with no trie in sight: optional params may be absent, a
   required param takes one non-empty segment, and a final wildcard takes the
   rest, an empty rest only on a raw trailing slash.
   */
  predicate Matches(re: Regexes, p: seq<Segment>, q: Query)
    decreases |p|
  {
    if p == [] then q.segs == []
    else
      match p[0]
      case Static(v) =>
        q.segs != [] && DecodeSegment(q.segs[0]) == v && Matches(re, p[1..], q.(segs := q.segs[1..]))
      case Param(_, pattern, optional) =>
        || (q.segs != [] && q.segs[0] != "" && Admits(re, pattern, DecodeSegment(q.segs[0]))
            && Matches(re, p[1..], q.(segs := q.segs[1..])))
        || (optional && Matches(re, p[1..], q))
      case Wildcard => p[1..] == [] && (q.segs != [] || q.slash)
  }

  /** The raw segments one pattern segment may take. */
  predicate Fits(re: Regexes, s: Segment, piece: seq<string>, last: bool, slash: bool) {
    match s
    case Static(v) => |piece| == 1 && DecodeSegment(piece[0]) == v
    case Param(_, pattern, optional) =>
      || (optional && piece == [])
      || (|piece| == 1 && piece[0] != "" && (pattern.Some? ==> re.accepts(pattern.value, DecodeSegment(piece[0]))))
    case Wildcard => last && (piece != [] || slash)
  }

  function Flat(pieces: seq<seq<string>>): seq<string> {
    if pieces == [] then [] else pieces[0] + Flat(pieces[1..])
  }

  /** A request cut into one piece for each segment of a pattern. */
  predicate Aligns(re: Regexes, p: seq<Segment>, q: Query, pieces: seq<seq<string>>) {
    && |pieces| == |p| && Flat(pieces) == q.segs
    && forall i | 0 <= i < |p| :: Fits(re, p[i], pieces[i], i == |p| - 1, q.slash)
  }

  lemma AlignsStep(re: Regexes, p: seq<Segment>, q: Query, pieces: seq<seq<string>>)
    requires p != [] && pieces != []
    ensures Aligns(re, p, q, pieces)
       <==> && Fits(re, p[0], pieces[0], |p| == 1, q.slash) && pieces[0] <= q.segs
            && Aligns(re, p[1..], q.(segs := q.segs[|pieces[0]|..]), pieces[1..])
  {
    hide Fits;
    if Aligns(re, p, q, pieces) {
      forall i | 0 <= i < |p| - 1 ensures Fits(re, p[1..][i], pieces[1..][i], i == |p| - 2, q.slash) {
        assert Fits(re, p[i + 1], pieces[i + 1], i + 1 == |p| - 1, q.slash);
      }
    }
    if pieces[0] <= q.segs {
      assert q.segs == pieces[0] + q.segs[|pieces[0]|..];
      if Fits(re, p[0], pieces[0], |p| == 1, q.slash) && Aligns(re, p[1..], q.(segs := q.segs[|pieces[0]|..]), pieces[1..]) {
        forall i | 0 <= i < |p| ensures Fits(re, p[i], pieces[i], i == |p| - 1, q.slash) {
          if i > 0 { assert Fits(re, p[1..][i - 1], pieces[1..][i - 1], i - 1 == |p| - 2, q.slash); }
        }
      }
    }
  }

  /** A pattern matches a request that can be cut into pieces its segments take. */
  lemma {:induction false} AlignedMatches(re: Regexes, p: seq<Segment>, q: Query, pieces: seq<seq<string>>)
    requires Aligns(re, p, q, pieces)
    ensures Matches(re, p, q)
    decreases |p|
  {
    hide Aligns;
    if p == [] {
      AlignsNothing(re, q, pieces);
    } else {
      AlignsLength(re, p, q, pieces);
      AlignsStep(re, p, q, pieces);
      AlignedMatches(re, p[1..], q.(segs := q.segs[|pieces[0]|..]), pieces[1..]);
      if pieces[0] == [] { assert q.segs[0..] == q.segs; }
    }
  }

  lemma AlignsLength(re: Regexes, p: seq<Segment>, q: Query, pieces: seq<seq<string>>)
    requires Aligns(re, p, q, pieces)
    ensures |pieces| == |p|
  {
  }

  lemma AlignsNothing(re: Regexes, q: Query, pieces: seq<seq<string>>)
    ensures Aligns(re, [], q, pieces) <==> pieces == [] && q.segs == []
  {
  }

  lemma {:induction false} MatchAligned(re: Regexes, p: seq<Segment>, q: Query) returns (pieces: seq<seq<string>>)
    requires Matches(re, p, q)
    ensures Aligns(re, p, q, pieces)
    decreases |p|
  {
    hide Aligns;
    if p == [] {
      AlignsNothing(re, q, []);
      return [];
    }
    var piece := if p[0].Wildcard? then q.segs
                 else if p[0].Param? && p[0].optional && Matches(re, p[1..], q) then []
                 else q.segs[..1];
    var rest := q.(segs := q.segs[|piece|..]);
    if piece == [] { assert rest.segs == q.segs; }
    if p[0].Wildcard? { assert p[1..] == [] && rest.segs == []; }
    var tail := MatchAligned(re, p[1..], rest);
    pieces := [piece] + tail;
    assert pieces[1..] == tail;
    AlignsStep(re, p, q, pieces);
  }

  /** A pattern matches a request if and only if the request can be cut into one piece for each of its segments. */
  lemma MatchesExactly(re: Regexes, p: seq<Segment>, q: Query)
    ensures Matches(re, p, q) <==> exists pieces :: Aligns(re, p, q, pieces)
  {
    if Matches(re, p, q) { var pieces := MatchAligned(re, p, q); }
    if pieces :| Aligns(re, p, q, pieces) { AlignedMatches(re, p, q, pieces); }
  }

  // ---------------------------------------------------------------- overlap

  predicate Collapses(s: Segment) {
    s.Wildcard? || (s.Param? && s.optional)
  }

  predicate IsOptional(s: Segment) {
    s.Param? && s.optional
  }

  predicate OverlapSegments(a: seq<Segment>, b: seq<Segment>)
    decreases |a| + |b|
  {
    if a == [] && b == [] then true
    else if a == [] then Collapses(b[0]) && OverlapSegments(a, b[1..])
    else if b == [] then Collapses(a[0]) && OverlapSegments(a[1..], b)
    else
      var x, y := a[0], b[0];
      if x.Wildcard? || y.Wildcard? then true
      else if !(x.Param? || y.Param? || x == y) then false
      else
        || OverlapSegments(a[1..], b[1..])
        || (IsOptional(x) && OverlapSegments(a[1..], b))
        || (IsOptional(y) && OverlapSegments(a, b[1..]))
  }

  /** The overlap test on paths; an unparseable side counts as overlapping. */
  predicate PatternsOverlap(re: Regexes, a: string, b: string) {
    match Compile(re, a)
    case Thrown(_) => true
    case Ok(x) =>
      match Compile(re, b)
      case Thrown(_) => true
      case Ok(y) => OverlapSegments(x, y)
  }

  lemma WellFormedTail(p: seq<Segment>)
    requires WellFormed(p) && p != []
    ensures WellFormed(p[1..])
    ensures p[0].Wildcard? ==> p[1..] == []
  {
    forall i | 0 <= i < |p[1..]| ensures SegmentOk(p[1..][i], i == |p[1..]| - 1) {
      assert p[1..][i] == p[i + 1];
    }
  }

  /** The guard never misses: one request both patterns match is enough to report an overlap. */
  lemma {:induction false} OverlapNeverMisses(re: Regexes, a: seq<Segment>, b: seq<Segment>, q: Query)
    requires WellFormed(a) && WellFormed(b)
    requires Matches(re, a, q) && Matches(re, b, q)
    ensures OverlapSegments(a, b)
    decreases |a| + |b|
  {
    if a != [] { WellFormedTail(a); }
    if b != [] { WellFormedTail(b); }
    if a == [] && b == [] {
    } else if a == [] {
      OverlapNeverMisses(re, a, b[1..], q);
    } else if b == [] {
      OverlapNeverMisses(re, a[1..], b, q);
    } else if a[0].Wildcard? || b[0].Wildcard? {
    } else {
      var next := q.(segs := if q.segs == [] then [] else q.segs[1..]);
      if a[0].Param? && a[0].optional && Matches(re, a[1..], q) {
        OverlapNeverMisses(re, a[1..], b, q);
      } else if b[0].Param? && b[0].optional && Matches(re, b[1..], q) {
        OverlapNeverMisses(re, a, b[1..], q);
      } else {
        OverlapNeverMisses(re, a[1..], b[1..], next);
      }
    }
  }

  /** A request both patterns match, read off the way their overlap was found. */
  function CommonSegments(a: seq<Segment>, b: seq<Segment>): seq<string>
    requires OverlapSegments(a, b)
    decreases |a| + |b|
  {
    if a == [] || b == [] then []
    else if a[0].Wildcard? then Witness(b)
    else if b[0].Wildcard? then Witness(a)
    else if OverlapSegments(a[1..], b[1..]) then
      [if a[0].Static? then EncodeComponent(a[0].value)
       else if b[0].Static? then EncodeComponent(b[0].value) else "x"]
      + CommonSegments(a[1..], b[1..])
    else if IsOptional(a[0]) && OverlapSegments(a[1..], b) then CommonSegments(a[1..], b)
    else CommonSegments(a, b[1..])
  }

  /** Segments one pattern matches, optional params present. */
  function Witness(p: seq<Segment>): seq<string> {
    if p == [] || p[0].Wildcard? then []
    else [if p[0].Static? then EncodeComponent(p[0].value) else "x"] + Witness(p[1..])
  }

  ghost predicate Unconstrained(p: seq<Segment>) {
    forall s | s in p :: s.Param? ==> s.pattern == None
  }

  lemma {:induction false} WitnessMatches(re: Regexes, p: seq<Segment>)
    requires WellFormed(p) && Unconstrained(p)
    ensures Matches(re, p, Query(Witness(p), true))
  {
    if p != [] {
      WellFormedTail(p);
      if !p[0].Wildcard? {
        WitnessMatches(re, p[1..]);
        assert p[0] in p;
        if p[0].Static? { DecodeSegmentEncoded(p[0].value); }
        assert Witness(p)[1..] == Witness(p[1..]);
      }
    }
  }

  lemma {:induction false} CommonSegmentsMatch(re: Regexes, a: seq<Segment>, b: seq<Segment>)
    requires WellFormed(a) && WellFormed(b) && Unconstrained(a) && Unconstrained(b)
    requires OverlapSegments(a, b)
    ensures Matches(re, a, Query(CommonSegments(a, b), true))
    ensures Matches(re, b, Query(CommonSegments(a, b), true))
    decreases |a| + |b|
  {
    if a != [] { WellFormedTail(a); assert a[0] in a; }
    if b != [] { WellFormedTail(b); assert b[0] in b; }
    if a == [] && b == [] {
    } else if a == [] {
      CommonSegmentsMatch(re, a, b[1..]);
      assert CommonSegments(a, b) == [] == CommonSegments(a, b[1..]);
    } else if b == [] {
      CommonSegmentsMatch(re, a[1..], b);
    } else if a[0].Wildcard? {
      WitnessMatches(re, b);
    } else if b[0].Wildcard? {
      WitnessMatches(re, a);
    } else if OverlapSegments(a[1..], b[1..]) {
      CommonSegmentsMatch(re, a[1..], b[1..]);
      var common := CommonSegments(a, b);
      assert common[1..] == CommonSegments(a[1..], b[1..]);
      forall s | s == a[0] || s == b[0]
        ensures s.Static? ==> EncodeComponent(s.value) != "" && DecodeSegment(EncodeComponent(s.value)) == s.value
      {
        if s.Static? { DecodeSegmentEncoded(s.value); EncodedHasNoSlash(s.value); }
      }
    } else if IsOptional(a[0]) && OverlapSegments(a[1..], b) {
      CommonSegmentsMatch(re, a[1..], b);
    } else {
      CommonSegmentsMatch(re, a, b[1..]);
    }
  }

  /** The path with these segments and a trailing slash. */
  function PathOf(segs: seq<string>): string {
    if segs == [] then "/" else "/" + Join(segs) + "/"
  }

  lemma QueryOfPathOf(segs: seq<string>)
    requires forall s | s in segs :: '/' !in s && s != ""
    ensures QueryOf(PathOf(segs)) == Query(segs, true)
  {
    if segs == [] {
      assert Split("/") == ["", ""] by { SplitAtSlash("", ""); }
    } else {
      SplitAtSlash("", Join(segs));
      assert NormalizePath(PathOf(segs)) == "" + "/" + Join(segs);
      SplitJoin(segs);
      assert ([""] + segs)[1..] == segs;
      assert segs[0] in segs;
    }
  }

  lemma {:induction false} WitnessSegmentsPlain(p: seq<Segment>)
    requires WellFormed(p)
    ensures forall s | s in Witness(p) :: '/' !in s && s != ""
  {
    if p != [] && !p[0].Wildcard? {
      WellFormedTail(p);
      WitnessSegmentsPlain(p[1..]);
      if p[0].Static? { EncodedHasNoSlash(p[0].value); }
    }
  }

  lemma {:induction false} CommonSegmentsPlain(a: seq<Segment>, b: seq<Segment>)
    requires WellFormed(a) && WellFormed(b) && OverlapSegments(a, b)
    ensures forall s | s in CommonSegments(a, b) :: '/' !in s && s != ""
    decreases |a| + |b|
  {
    if a != [] { WellFormedTail(a); }
    if b != [] { WellFormedTail(b); }
    if a == [] || b == [] {
    } else if a[0].Wildcard? {
      WitnessSegmentsPlain(b);
    } else if b[0].Wildcard? {
      WitnessSegmentsPlain(a);
    } else if OverlapSegments(a[1..], b[1..]) {
      CommonSegmentsPlain(a[1..], b[1..]);
      if a[0].Static? { EncodedHasNoSlash(a[0].value); }
      if b[0].Static? { EncodedHasNoSlash(b[0].value); }
    } else if IsOptional(a[0]) && OverlapSegments(a[1..], b) {
      CommonSegmentsPlain(a[1..], b);
    } else {
      CommonSegmentsPlain(a, b[1..]);
    }
  }

  /** Some request path is matched by both patterns. */
  ghost predicate ShareAPath(re: Regexes, a: seq<Segment>, b: seq<Segment>) {
    exists path: string :: path != "" && path[0] == '/' && Matches(re, a, QueryOf(path)) && Matches(re, b, QueryOf(path))
  }

  /** Without custom constraints the overlap test is exact: it reports a pair only when a real path shows it. */
  lemma OverlapExact(re: Regexes, a: seq<Segment>, b: seq<Segment>)
    requires WellFormed(a) && WellFormed(b) && Unconstrained(a) && Unconstrained(b)
    ensures OverlapSegments(a, b) <==> ShareAPath(re, a, b)
  {
    if OverlapSegments(a, b) {
      var path := PathOf(CommonSegments(a, b));
      CommonSegmentsMatch(re, a, b);
      CommonSegmentsPlain(a, b);
      QueryOfPathOf(CommonSegments(a, b));
      assert path != "" && path[0] == '/';
      assert Matches(re, a, QueryOf(path)) && Matches(re, b, QueryOf(path));
    }
    if ShareAPath(re, a, b) {
      var path: string :| path != "" && path[0] == '/' && Matches(re, a, QueryOf(path)) && Matches(re, b, QueryOf(path));
      OverlapNeverMisses(re, a, b, QueryOf(path));
    }
  }
}
