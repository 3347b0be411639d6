/** What the search over an indexed trie means in terms of the registered patterns. */
module TrieMeaning {
  import opened Wrappers
  import opened Percent
  import opened Paths
  import opened Patterns
  import opened Trie
  import opened TrieOrder
  import opened TrieInsert
  import opened TrieIndex
  import opened TrieMatcher

  function Rest(q: Query, index: nat): Query
    requires index <= |q.segs|
  {
    q.(segs := q.segs[index..])
  }

  lemma {:induction false} RunAt(re: Regexes, q: Query, f: Frame, w: Word)
    requires InQuery(q, f) && Accepts(re, q, f, w)
    ensures At(f.node, w) == Some(Run(re, q, f, w).value.node)
    decreases |w|
  {
    if w != [] { RunAt(re, q, Step(re, q, f, w[0]).value, w[1..]); }
  }

  /** An accepted word is evidence that the pattern it spells matches. */
  lemma {:induction false} SpelledMatches(re: Regexes, q: Query, f: Frame, w: Word, p: seq<Segment>)
    requires InQuery(q, f) && WellFormed(p)
    requires Spells(f.node, w, p) && Accepts(re, q, f, w)
    ensures Matches(re, p, Rest(q, f.index))
    decreases |p|
  {
    if p != [] {
      WellFormedTail(p);
      var g := Step(re, q, f, w[0]).value;
      if !p[0].Wildcard? {
        SpelledMatches(re, q, g, w[1..], p[1..]);
        if f.index < |q.segs| { assert q.segs[f.index..][1..] == q.segs[f.index + 1..]; }
      }
    }
  }

  /** A held pattern that matches has an accepted word spelling it. */
  lemma {:induction false} MatchSpelled(re: Regexes, q: Query, f: Frame, p: seq<Segment>) returns (w: Word)
    requires InQuery(q, f) && WellFormed(p)
    requires Covered(f.node, p) && Matches(re, p, Rest(q, f.index))
    ensures Spells(f.node, w, p) && Accepts(re, q, f, w)
    decreases |p|
  {
    if p == [] {
      assert Spells(f.node, [], p);
      return [];
    }
    WellFormedTail(p);
    var rest := Rest(q, f.index);
    var taken := rest.segs != [] && Matches(re, p[1..], rest.(segs := rest.segs[1..]));
    if rest.segs != [] { assert rest.segs[1..] == q.segs[f.index + 1..]; }
    match p[0]
    case Static(v) =>
      w := MatchBelow(re, q, f, p, Key(v), f.index + 1);
    case Wildcard =>
      assert Spells(f.node, [Tail], p) by { assert [Tail][1..] == []; }
      assert At(f.node, [Tail]) == f.node.wild;
      var g := Step(re, q, f, Tail).value;
      assert [Tail][1..] == [];
      assert Accepts(re, q, g, []);
      w := [Tail];
    case Param(name, pattern, optional) =>
      var k := VariantFor(f.node.params, pattern);
      if taken && rest.segs[0] != "" && Admits(re, pattern, DecodeSegment(rest.segs[0])) {
        w := MatchBelow(re, q, f, p, Take(k), f.index + 1);
      } else {
        w := MatchBelow(re, q, f, p, Skip(k), f.index);
      }
  }

  lemma {:induction false} MatchBelow(re: Regexes, q: Query, f: Frame, p: seq<Segment>, e: Edge, index: nat)
    returns (w: Word)
    requires InQuery(q, f) && WellFormed(p) && p != [] && !p[0].Wildcard?
    requires Covered(f.node, p) && EdgeFor(f.node, e, p[0])
    requires Step(re, q, f, e).Some? && Step(re, q, f, e).value.index == index
    requires Matches(re, p[1..], Rest(q, index))
    ensures Spells(f.node, w, p) && Accepts(re, q, f, w)
    decreases |p|, 0
  {
    WellFormedTail(p);
    var g := Step(re, q, f, e).value;
    forall v | Spells(g.node, v, p[1..]) ensures TargetAt(g.node, v).Some? {
      assert ([e] + v)[1..] == v;
      assert Spells(f.node, [e] + v, p);
    }
    var tail := MatchSpelled(re, q, g, p[1..]);
    w := [e] + tail;
    assert w[1..] == tail;
  }

  /** The trie answers a path exactly when some registered pattern matches it. */
  lemma FindsExactly(re: Regexes, n: Node, ps: seq<seq<Segment>>, q: Query)
    requires TrieOk(n, ps) && forall p | p in ps :: WellFormed(p)
    ensures Dfs(re, q, Frame(n, 0, [])).Some? <==> exists p :: p in ps && Matches(re, p, q)
  {
    var f := Frame(n, 0, []);
    assert Rest(q, 0) == q;
    if Dfs(re, q, f).Some? {
      var w := DfsLeast(re, q, f);
      RunAt(re, q, f, w);
      assert TargetAt(n, w).Some?;
      var p :| p in ps && Spells(n, w, p);
      SpelledMatches(re, q, f, w, p);
    }
    if p :| p in ps && Matches(re, p, q) {
      var w := MatchSpelled(re, q, f, p);
      DfsComplete(re, q, f, w);
    }
  }

  /** Whoever shares the terminal of a hit has a pattern of its own that matches: no skip edge serves a sibling that requires the param. */
  lemma TerminalServesOnlyMatches(re: Regexes, n: Node, ps: seq<seq<Segment>>, q: Query, p: seq<Segment>, w: Word)
    requires TrieOk(n, ps) && p in ps && WellFormed(p)
    requires Dfs(re, q, Frame(n, 0, [])).Some?
    requires Dfs(re, q, Frame(n, 0, [])).value.node.target == Some(TrieRef(w)) && Spells(n, w, p)
    ensures Matches(re, p, q)
  {
    var f := Frame(n, 0, []);
    var best := DfsLeast(re, q, f);
    RunAt(re, q, f, best);
    assert TargetAt(n, best).Some?;
    assert best == w;
    assert Rest(q, 0) == q;
    SpelledMatches(re, q, f, w, p);
  }

  // ---------------------------------------------------------------- captures

  /** The wildcard took a lone empty segment: the one case where it records no capture. */
  predicate LosesCapture(q: Query, w: Word) {
    w != [] && w[|w| - 1] == Tail && q.segs != [] && q.segs[|q.segs| - 1] == ""
  }

  lemma {:induction false} JoinEmpty(parts: seq<string>)
    requires Join(parts) == ""
    ensures parts == [] || parts == [""]
  {
    if |parts| == 1 { assert parts == [parts[0]]; }
  }

  predicate TailLast(w: Word) {
    forall i | 0 <= i < |w| - 1 :: w[i] != Tail
  }

  lemma {:induction false} SpelledTailLast(n: Node, w: Word, p: seq<Segment>)
    requires Spells(n, w, p) && WellFormed(p)
    ensures TailLast(w)
    decreases |p|
  {
    if p != [] {
      WellFormedTail(p);
      SpelledTailLast(Kid(n, w[0]).value, w[1..], p[1..]);
      forall i | 0 <= i < |w| - 1 ensures w[i] != Tail {
        if i > 0 { assert w[i] == w[1..][i - 1]; }
      }
    }
  }

  predicate LinedUp(q: Query, w: Word, got: seq<string>, names: seq<string>) {
    got == names || (LosesCapture(q, w) && got + [WILDCARD_NAME] == names)
  }

  /** One transition other than the wildcard records exactly the name of its edge. */
  lemma StepCaptures(re: Regexes, q: Query, f: Frame, e: Edge)
    requires InQuery(q, f) && Step(re, q, f, e).Some? && e != Tail
    ensures Kid(f.node, e).Some? && NamesOf(Step(re, q, f, e).value.links) == NamesOf(f.links) + EdgeNames(f.node, e)
  {
    var g := Step(re, q, f, e).value;
    if g.links == f.links {
      assert NamesOf(f.links) + [] == NamesOf(f.links);
    } else {
      assert g.links[1..] == f.links;
    }
  }

  lemma TailCaptures(re: Regexes, q: Query, f: Frame)
    requires InQuery(q, f) && Step(re, q, f, Tail).Some?
    ensures LinedUp(q, [Tail], NamesOf(Step(re, q, f, Tail).value.links), NamesOf(f.links) + [WILDCARD_NAME])
  {
    var g := Step(re, q, f, Tail).value;
    if g.links == f.links {
      LoneEmptyRest(q, f.index);
    } else {
      assert g.links[1..] == f.links;
    }
  }

  lemma NamesShift(n: Node, kid: Node, w: Word, base: seq<string>)
    requires At(n, w).Some? && w != [] && Kid(n, w[0]) == Some(kid)
    ensures At(kid, w[1..]).Some?
    ensures base + EdgeNames(n, w[0]) + NamesAlong(kid, w[1..]) == base + NamesAlong(n, w)
  {
  }

  /** Captures line up with the registered names, except that a lone empty wildcard rest leaves its name without one. */
  lemma {:induction false} RunCaptures(re: Regexes, q: Query, f: Frame, w: Word)
    requires InQuery(q, f) && Accepts(re, q, f, w) && TailLast(w)
    ensures At(f.node, w).Some?
    ensures LinedUp(q, w, NamesOf(Run(re, q, f, w).value.links), NamesOf(f.links) + NamesAlong(f.node, w))
    decreases |w|
  {
    RunAt(re, q, f, w);
    if w == [] {
      assert NamesOf(f.links) + [] == NamesOf(f.links);
    } else if w[0] == Tail {
      assert w == [Tail] && w[1..] == [];
      assert NamesAlong(f.node, w) == [WILDCARD_NAME];
      TailCaptures(re, q, f);
    } else {
      var g := Step(re, q, f, w[0]).value;
      RunCaptures(re, q, g, w[1..]);
      StepCaptures(re, q, f, w[0]);
      NamesShift(f.node, g.node, w, NamesOf(f.links));
      assert LosesCapture(q, w[1..]) ==> LosesCapture(q, w);
    }
  }

  lemma LoneEmptyRest(q: Query, index: nat)
    requires index < |q.segs| && RestOf(q, index) == ""
    ensures index == |q.segs| - 1 && q.segs[index] == ""
  {
    JoinEmpty(DecodeAll(q.segs[index..]));
    var rest := q.segs[index..];
    assert DecodeAll(rest)[0] == DecodeSegment(rest[0]);
    if rest[0] != "" { DecodeSegmentNonEmpty(rest[0]); }
  }

  lemma {:induction false} LinksLength(links: seq<Link>)
    ensures |NamesOf(links)| == |ValuesOf(links)| == |links|
  {
    if links != [] { LinksLength(links[1..]); }
  }

  /** The hit of a search, its registered names and its captures: the back-fill of the value array never runs below index 0. */
  lemma HitCaptures(re: Regexes, n: Node, ps: seq<seq<Segment>>, q: Query) returns (w: Word)
    requires TrieOk(n, ps) && forall p | p in ps :: WellFormed(p)
    requires Dfs(re, q, Frame(n, 0, [])).Some?
    ensures var hit := Dfs(re, q, Frame(n, 0, [])).value;
            && hit.node.target == Some(TrieRef(w))
            && hit.node.names.Some?
            && |hit.links| <= |hit.node.names.value|
            && (NamesOf(hit.links) == hit.node.names.value
                || (q.segs != [] && q.segs[|q.segs| - 1] == "" && NamesOf(hit.links) + [WILDCARD_NAME] == hit.node.names.value))
  {
    var f := Frame(n, 0, []);
    w := DfsLeast(re, q, f);
    RunAt(re, q, f, w);
    assert TargetAt(n, w).Some?;
    var p :| p in ps && Spells(n, w, p);
    SpelledTailLast(n, w, p);
    RunCaptures(re, q, f, w);
    assert NamedAt(n, [], w);
    LinksLength(Run(re, q, f, w).value.links);
  }

  // ---------------------------------------------------------------- reading params by name

  /** `paramsRecord`: forward overwrite. */
  function ParamsRecord(names: seq<string>, values: seq<string>): map<string, string>
    requires |names| <= |values|
  {
    if names == [] then map[]
    else
      var k := |names| - 1;
      ParamsRecord(names[..k], values[..k])[names[k] := values[k]]
  }

  /** The newest capture of every name. */
  function LatestCaptures(links: seq<Link>): map<string, string> {
    if links == [] then map[] else LatestCaptures(links[1..])[links[0].name := links[0].value]
  }

  lemma {:induction false} BackfilledRecord(links: seq<Link>)
    ensures |NamesOf(links)| == |ValuesOf(links)| == |links|
    ensures ParamsRecord(NamesOf(links), ValuesOf(links)) == LatestCaptures(links)
  {
    if links != [] {
      BackfilledRecord(links[1..]);
      var names, values := NamesOf(links), ValuesOf(links);
      assert names[..|names| - 1] == NamesOf(links[1..]);
      assert values[..|values| - 1] == ValuesOf(links[1..]);
    }
  }

  lemma {:induction false} RecordAppend(names: seq<string>, values: seq<string>, name: string, value: string)
    requires |names| == |values|
    ensures ParamsRecord(names + [name], values + [value]) == ParamsRecord(names, values)[name := value]
  {
    assert (names + [name])[..|names|] == names && (values + [value])[..|values|] == values;
  }

  lemma {:induction false} RecordKeys(names: seq<string>, values: seq<string>)
    requires |names| == |values|
    ensures forall name :: name in ParamsRecord(names, values) <==> name in names
  {
    if names != [] {
      var k := |names| - 1;
      RecordKeys(names[..k], values[..k]);
      assert names == names[..k] + [names[k]];
    }
  }

  /** First append wins over a newest-first list: what was found stays, the rest is filled in from the captures. */
  lemma {:induction false} RebuiltRecord(links: seq<Link>, names: seq<string>, values: seq<string>)
    requires |names| == |values|
    ensures var r := LatestFrom(links, names, values);
            ParamsRecord(r.0, r.1) == LatestCaptures(links) + ParamsRecord(names, values)
  {
    RecordKeys(names, values);
    if links != [] {
      var link := links[0];
      if link.name in names {
        RebuiltRecord(links[1..], names, values);
      } else {
        RebuiltRecord(links[1..], names + [link.name], values + [link.value]);
        RecordAppend(names, values, link.name, link.value);
      }
    }
  }

  /** Whichever way the product was built, reading it by name gives the newest capture of that name. */
  lemma ProductReadsLatest(f: Frame)
    requires f.node.target.Some?
    requires f.node.names.Some? && f.node.names.value == [] ==> f.links == []
    requires f.node.names.Some? && |f.node.names.value| == |f.links| ==> f.node.names.value == NamesOf(f.links)
    ensures |Product(f).names| == |Product(f).values|
    ensures ParamsRecord(Product(f).names, Product(f).values) == LatestCaptures(f.links)
  {
    BackfilledRecord(f.links);
    RebuiltRecord(f.links, [], []);
    assert LatestCaptures(f.links) + ParamsRecord([], []) == LatestCaptures(f.links);
  }

  /** So every match of an indexed trie reads as the captures of its hit. */
  lemma MatchReadsLatest(re: Regexes, n: Node, ps: seq<seq<Segment>>, path: string)
    requires TrieOk(n, ps) && forall p | p in ps :: WellFormed(p)
    requires Match(re, n, path).Some?
    ensures var m := Match(re, n, path).value;
            && |m.names| == |m.values|
            && ParamsRecord(m.names, m.values) == LatestCaptures(Dfs(re, QueryOf(path), Frame(n, 0, [])).value.links)
  {
    var q := QueryOf(path);
    var w := HitCaptures(re, n, ps, q);
    var hit := Dfs(re, q, Frame(n, 0, [])).value;
    LinksLength(hit.links);
    ProductReadsLatest(hit);
  }

  // ---------------------------------------------------------------- what the captures are

  /** What one segment of a pattern captures of its piece: nothing for a literal, an absent param, or a lone empty rest. */
  function CapturedOf(s: Segment, piece: seq<string>): seq<Link> {
    match s
    case Static(_) => []
    case Param(name, _, _) => if piece == [] then [] else [Link(name, DecodeSegment(piece[0]))]
    case Wildcard =>
      var rest := Join(DecodeAll(piece));
      if piece != [] && rest == "" then [] else [Link(WILDCARD_NAME, rest)]
  }

  /** The captures of a pattern along its pieces, oldest first. */
  function CapturesOf(p: seq<Segment>, pieces: seq<seq<string>>): seq<Link>
    requires |pieces| == |p|
  {
    if p == [] then [] else CapturedOf(p[0], pieces[0]) + CapturesOf(p[1..], pieces[1..])
  }

  /** Newest first, as the search keeps them. */
  function Newest(links: seq<Link>): seq<Link> {
    if links == [] then [] else Newest(links[1..]) + [links[0]]
  }

  lemma {:induction false} NewestConcat(a: seq<Link>, b: seq<Link>)
    ensures Newest(a + b) == Newest(b) + Newest(a)
  {
    if a == [] {
      assert a + b == b;
    } else {
      NewestConcat(a[1..], b);
      assert (a + b)[1..] == a[1..] + b;
    }
  }

  /** The piece an accepted edge takes. */
  lemma StepPiece(re: Regexes, q: Query, f: Frame, e: Edge, s: Segment, last: bool) returns (piece: seq<string>)
    requires InQuery(q, f) && Step(re, q, f, e).Some? && EdgeFor(f.node, e, s) && SegmentOk(s, last)
    ensures var g := Step(re, q, f, e).value;
            && f.index <= g.index <= |q.segs| && piece == q.segs[f.index..g.index]
            && Fits(re, s, piece, last, q.slash)
            && g.links == Newest(CapturedOf(s, piece)) + f.links
  {
    var g := Step(re, q, f, e).value;
    piece := q.segs[f.index..g.index];
    assert [] + f.links == f.links;
    if e == Tail {
      assert piece == q.segs[f.index..];
      NewestOne(Link(WILDCARD_NAME, RestOf(q, f.index)));
    } else if e.Take? {
      assert piece == [q.segs[f.index]];
      NewestOne(Link(s.name, DecodeSegment(piece[0])));
    }
  }

  lemma NewestOne(l: Link)
    ensures Newest([l]) == [l]
  {
    assert [l][1..] == [];
  }

  lemma RunFirst(re: Regexes, q: Query, f: Frame, w: Word)
    requires InQuery(q, f) && w != []
    ensures Run(re, q, f, w) == if Step(re, q, f, w[0]).None? then None else Run(re, q, Step(re, q, f, w[0]).value, w[1..])
  {
  }

  /** One piece more in front. */
  lemma PieceFirst(re: Regexes, q: Query, from: nat, to: nat, p: seq<Segment>, tail: seq<seq<string>>)
    requires p != [] && from <= to <= |q.segs| && Fits(re, p[0], q.segs[from..to], |p| == 1, q.slash)
    requires Aligns(re, p[1..], Rest(q, to), tail)
    ensures Aligns(re, p, Rest(q, from), [q.segs[from..to]] + tail)
    ensures Newest(CapturesOf(p, [q.segs[from..to]] + tail)) == Newest(CapturesOf(p[1..], tail)) + Newest(CapturedOf(p[0], q.segs[from..to]))
  {
    hide Aligns, Fits, CapturedOf;
    AlignsLength(re, p[1..], Rest(q, to), tail);
    var piece := q.segs[from..to];
    var pieces := [piece] + tail;
    assert pieces[1..] == tail && q.segs[from..][|piece|..] == q.segs[to..] && piece <= q.segs[from..];
    AlignsStep(re, p, Rest(q, from), pieces);
    NewestConcat(CapturedOf(p[0], piece), CapturesOf(p[1..], tail));
  }

  /** An accepted word cuts the request into the pieces of its pattern and captures exactly what they hold. */
  lemma {:induction false} RunAligned(re: Regexes, q: Query, f: Frame, w: Word, p: seq<Segment>) returns (pieces: seq<seq<string>>)
    requires InQuery(q, f) && WellFormed(p) && Spells(f.node, w, p) && Accepts(re, q, f, w)
    ensures Aligns(re, p, Rest(q, f.index), pieces)
    ensures Run(re, q, f, w).value.links == Newest(CapturesOf(p, pieces)) + f.links
    decreases |p|
  {
    if p == [] {
      AlignsNothing(re, Rest(q, f.index), []);
      assert [] + f.links == f.links;
      return [];
    }
    WellFormedTail(p);
    assert SegmentOk(p[0], |p| == 1);
    RunFirst(re, q, f, w);
    var g := Step(re, q, f, w[0]).value;
    hide Aligns, Fits, Step, CapturedOf, CapturesOf, Newest, Run;
    var piece := StepPiece(re, q, f, w[0], p[0], |p| == 1);
    var tail := RunAligned(re, q, g, w[1..], p[1..]);
    PieceFirst(re, q, f.index, g.index, p, tail);
    pieces := [piece] + tail;
    LinksRegroup(Newest(CapturesOf(p[1..], tail)), Newest(CapturedOf(p[0], piece)), f.links);
  }

  lemma LinksRegroup(a: seq<Link>, b: seq<Link>, c: seq<Link>)
    ensures a + (b + c) == a + b + c
  {
  }

  /** The hit of an indexed trie is some registered pattern's: the request is cut into its pieces, and the captures are what they hold. */
  lemma HitAligned(re: Regexes, n: Node, ps: seq<seq<Segment>>, q: Query) returns (p: seq<Segment>, w: Word, pieces: seq<seq<string>>)
    requires TrieOk(n, ps) && forall p | p in ps :: WellFormed(p)
    requires Dfs(re, q, Frame(n, 0, [])).Some?
    ensures p in ps && Spells(n, w, p) && Aligns(re, p, q, pieces)
    ensures var hit := Dfs(re, q, Frame(n, 0, [])).value;
            hit.node.target == Some(TrieRef(w)) && hit.links == Newest(CapturesOf(p, pieces))
  {
    var f := Frame(n, 0, []);
    w := DfsLeast(re, q, f);
    RunAt(re, q, f, w);
    assert TargetAt(n, w).Some?;
    p :| p in ps && Spells(n, w, p);
    pieces := RunAligned(re, q, f, w, p);
    assert Rest(q, 0) == q;
    assert Newest(CapturesOf(p, pieces)) + [] == Newest(CapturesOf(p, pieces));
  }
}
