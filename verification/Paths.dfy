/**
 Request paths as character sequences and as segment lists: `split("/")`, `join("/")`,
 the one-trailing-slash normalization and the canonical static key.
 */
module Paths {
  import opened Percent

  /** `s.split("/")`. */
  function Split(s: string): (parts: seq<string>)
    ensures |parts| >= 1
    ensures forall part | part in parts :: '/' !in part
  {
    if s == "" then [""]
    else if s[0] == '/' then [""] + Split(s[1..])
    else var rest := Split(s[1..]); [[s[0]] + rest[0]] + rest[1..]
  }

  /** `parts.join("/")`. */
  function Join(parts: seq<string>): string {
    if parts == [] then ""
    else if |parts| == 1 then parts[0]
    else parts[0] + "/" + Join(parts[1..])
  }

  function NormalizePath(path: string): string {
    if |path| > 1 && path[|path| - 1] == '/' then path[..|path| - 1] else path
  }

  predicate EndsWithSlash(path: string) {
    |path| >= 1 && path[|path| - 1] == '/'
  }

  predicate EndsWithTwoSlashes(path: string) {
    |path| >= 2 && path[|path| - 1] == '/' && path[|path| - 2] == '/'
  }

  /** The parts after the leading "", with the lone "" of "/" dropped. */
  function PartsOf(path: string): (parts: seq<string>)
    ensures forall part | part in parts :: '/' !in part
  {
    var parts := Split(path)[1..];
    if parts == [""] then [] else parts
  }

  function SplitSegments(path: string): seq<string> {
    PartsOf(NormalizePath(path))
  }

  function DecodeAll(parts: seq<string>): (decoded: seq<string>)
    ensures |decoded| == |parts|
    ensures forall i | 0 <= i < |parts| :: decoded[i] == DecodeSegment(parts[i])
  {
    seq(|parts|, i requires 0 <= i < |parts| => DecodeSegment(parts[i]))
  }

  function ReescapeAll(parts: seq<string>): (keys: seq<string>)
    ensures |keys| == |parts|
    ensures forall i | 0 <= i < |parts| :: keys[i] == Reescape(parts[i])
  {
    seq(|parts|, i requires 0 <= i < |parts| => Reescape(parts[i]))
  }

  /** The flat key of a static path: every segment decoded, then "%" and "/" re-escaped. */
  function CanonicalKey(path: string): string {
    Join(ReescapeAll(DecodeAll(Split(path))))
  }

  lemma {:induction false} JoinSplit(s: string)
    ensures Join(Split(s)) == s
  {
    if s != "" {
      JoinSplit(s[1..]);
      var rest := Split(s[1..]);
      assert s == [s[0]] + s[1..];
      if s[0] == '/' {
        assert ([""] + rest)[1..] == rest;
      } else {
        var parts := [[s[0]] + rest[0]] + rest[1..];
        assert parts[1..] == rest[1..];
      }
    }
  }

  lemma {:induction false} SplitPlain(s: string)
    requires '/' !in s
    ensures Split(s) == [s]
  {
    if s != "" {
      SplitPlain(s[1..]);
      assert s == [s[0]] + s[1..];
    }
  }

  lemma {:induction false} SplitAtSlash(s: string, t: string)
    requires '/' !in s
    ensures Split(s + "/" + t) == [s] + Split(t)
  {
    var whole := s + "/" + t;
    if s == "" {
      assert whole[1..] == t;
    } else {
      SplitAtSlash(s[1..], t);
      assert whole[1..] == s[1..] + "/" + t;
      assert s == [s[0]] + s[1..];
    }
  }

  lemma {:induction false} SplitJoin(parts: seq<string>)
    requires |parts| >= 1
    requires forall part | part in parts :: '/' !in part
    ensures Split(Join(parts)) == parts
  {
    if |parts| == 1 {
      SplitPlain(parts[0]);
      assert parts == [parts[0]];
    } else {
      SplitJoin(parts[1..]);
      SplitAtSlash(parts[0], Join(parts[1..]));
      assert parts == [parts[0]] + parts[1..];
    }
  }

  lemma {:induction false} JoinConcat(a: seq<string>, b: seq<string>)
    requires |a| >= 1 && |b| >= 1
    ensures Join(a + b) == Join(a) + "/" + Join(b)
  {
    if |a| == 1 {
      assert (a + b)[1..] == b;
    } else {
      JoinConcat(a[1..], b);
      assert (a + b)[1..] == a[1..] + b;
    }
  }

  lemma {:induction false} DecodePlainAll(parts: seq<string>)
    requires forall part | part in parts :: '%' !in part
    ensures DecodeAll(parts) == parts
  {
    forall i | 0 <= i < |parts| ensures DecodeAll(parts)[i] == parts[i] {
      assert parts[i] in parts;
    }
  }

  lemma {:induction false} SplitKeepsOut(s: string, c: char)
    requires c !in s
    ensures forall part | part in Split(s) :: c !in part
  {
    if s != "" {
      SplitKeepsOut(s[1..], c);
      var rest := Split(s[1..]);
      assert rest[0] in rest;
      forall part | part in Split(s) ensures c !in part {
        if s[0] == '/' {
          assert part == "" || part in rest;
        } else {
          assert part == [s[0]] + rest[0] || part in rest[1..];
        }
      }
    }
  }

  /** The key reads back as the decoded segments, so the flat key loses nothing. */
  lemma CanonicalKeyReads(path: string)
    ensures DecodeAll(Split(CanonicalKey(path))) == DecodeAll(Split(path))
  {
    var decoded := DecodeAll(Split(path));
    var keys := ReescapeAll(decoded);
    forall i | 0 <= i < |keys| ensures '/' !in keys[i] && DecodeSegment(keys[i]) == decoded[i] {
      DecodeSegmentReescaped(decoded[i]);
    }
    SplitJoin(keys);
    assert DecodeAll(keys) == decoded;
  }

  /** Two paths share a static key exactly when their decoded segments are equal. */
  lemma CanonicalKeyInjective(p: string, q: string)
    ensures CanonicalKey(p) == CanonicalKey(q) <==> DecodeAll(Split(p)) == DecodeAll(Split(q))
  {
    CanonicalKeyReads(p);
    CanonicalKeyReads(q);
  }

  /** An escape-free path is its own key. */
  lemma CanonicalKeyPlain(path: string)
    requires '%' !in path
    ensures CanonicalKey(path) == path
  {
    var parts := Split(path);
    SplitKeepsOut(path, '%');
    DecodePlainAll(parts);
    forall i | 0 <= i < |parts| ensures ReescapeAll(parts)[i] == parts[i] {
      assert parts[i] in parts;
      ReescapePlain(parts[i]);
    }
    assert ReescapeAll(parts) == parts;
    JoinSplit(path);
  }

  /** A key is a fixed point: looking a path up verbatim never finds another path's key. */
  lemma CanonicalKeyIdempotent(path: string)
    ensures CanonicalKey(CanonicalKey(path)) == CanonicalKey(path)
  {
    CanonicalKeyReads(path);
  }

  // ---------------------------------------------------------------- the segments of a path

  predicate Rooted(path: string) {
    path != "" && path[0] == '/'
  }

  lemma SplitRooted(path: string)
    requires Rooted(path)
    ensures |Split(path)| >= 2 && Split(path)[0] == ""
    ensures PartsOf(path) == [] <==> Split(path) == ["", ""]
    ensures PartsOf(path) != [] ==> Split(path) == [""] + PartsOf(path)
  {
    SplitAtSlash("", path[1..]);
    assert path == "" + "/" + path[1..];
  }

  /** A path written from its segments, with or without a slash at its end. */
  lemma WrittenSegments(segs: seq<string>)
    requires forall s | s in segs :: '/' !in s
    ensures segs != [] && segs[|segs| - 1] != "" ==> SplitSegments("/" + Join(segs)) == segs
    ensures segs != [""] ==> SplitSegments("/" + Join(segs) + "/") == segs
  {
    RootSplits();
    if segs == [] {
      assert ("/" + "/")[..1] == "/";
    } else {
      if segs[|segs| - 1] != "" { JoinEnds(segs); }
      SplitJoin(segs);
      SplitAtSlash("", Join(segs));
      hide Split, Join;
      RootedParts(Join(segs), segs);
    }
  }

  lemma RootedParts(text: string, segs: seq<string>)
    requires Split("" + "/" + text) == [""] + segs && segs != []
    ensures segs != [""] ==> SplitSegments("/" + text + "/") == segs
    ensures text != "" && text[|text| - 1] != '/' && segs != [""] ==> SplitSegments("/" + text) == segs
  {
    hide Split;
    var url := "/" + text;
    assert url == "" + "/" + text && ([""] + segs)[1..] == segs && (url + "/")[..|url|] == url;
  }

  lemma {:induction false} JoinEnds(segs: seq<string>)
    requires segs != [] && (forall s | s in segs :: '/' !in s) && segs[|segs| - 1] != ""
    ensures Join(segs) != "" && Join(segs)[|Join(segs)| - 1] != '/'
  {
    assert segs[0] in segs;
    if |segs| > 1 { JoinEnds(segs[1..]); }
  }

  lemma {:induction false} JoinEmptyEnd(segs: seq<string>)
    requires segs != [] && segs[|segs| - 1] == ""
    ensures Join(segs) == "" || Join(segs)[|Join(segs)| - 1] == '/'
  {
    if |segs| > 1 { JoinEmptyEnd(segs[1..]); }
  }

  /** The text of a rooted path from its own segments. */
  lemma SegmentsWritten(path: string)
    requires Rooted(path)
    ensures NormalizePath(path) == "/" + Join(SplitSegments(path))
    ensures SplitSegments(path) != [""]
  {
    hide Split;
    var bare := NormalizePath(path);
    SplitRooted(bare);
    JoinSplit(bare);
    assert ([""] + PartsOf(bare))[1..] == PartsOf(bare);
  }

  /** What a matcher sees of a rooted path: its text between slashes, one slash at the end not counted. */
  lemma SegmentsExactly(path: string, segs: seq<string>)
    requires Rooted(path) && (forall s | s in segs :: '/' !in s) && segs != [""]
    ensures SplitSegments(path) == segs
       <==> path == "/" + Join(segs) + "/" || (path == "/" + Join(segs) && (segs == [] || segs[|segs| - 1] != ""))
  {
    hide Split, Join, PartsOf, SplitSegments;
    WrittenSegments(segs);
    SegmentsWritten(path);
    RootSplits();
    if SplitSegments(path) == segs {
      NormalizedText(path);
      if segs != [] && segs[|segs| - 1] == "" { SlashDropped(segs); }
    }
  }

  lemma NormalizedText(path: string)
    ensures NormalizePath(path) == path || path == NormalizePath(path) + "/"
  {
  }

  lemma RootSplits()
    ensures Join([]) == "" && SplitSegments("/") == [] && "/" + Join([]) == "/"
  {
    SplitAtSlash("", "");
    assert "" + "/" + "" == "/";
  }

  lemma SlashDropped(segs: seq<string>)
    requires segs != [] && segs != [""] && segs[|segs| - 1] == ""
    ensures NormalizePath("/" + Join(segs)) != "/" + Join(segs)
  {
    JoinEmptyEnd(segs);
    JoinLong(segs);
    hide Join;
    SlashEnd(Join(segs));
  }

  lemma JoinLong(segs: seq<string>)
    requires |segs| > 1
    ensures Join(segs) != ""
  {
    assert |Join(segs)| == |segs[0]| + 1 + |Join(segs[1..])|;
  }

  lemma SlashEnd(s: string)
    requires s != "" && s[|s| - 1] == '/'
    ensures NormalizePath("/" + s) != "/" + s
  {
    assert ("/" + s)[|s|] == '/';
  }
}
