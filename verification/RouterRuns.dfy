/** Every rebuild of the router's index leaves it in order: the proof, one definition at a time. */
module RouterRuns {
  import opened Wrappers
  import opened Patterns
  import opened Trie
  import opened TrieInsert
  import opened TrieIndex
  import opened TableRegex
  import opened FastLayers
  import opened Middleware
  import opened RouterIndex

  // ---------------------------------------------------------------- the trie grows, spellings stay

  /** A later registration changes no earlier pattern's words. */
  lemma RegisterSpells(n: Node, x: seq<Segment>, ps: seq<seq<Segment>>, p: seq<Segment>, w: Word)
    requires TrieOk(n, ps) && p in ps && Register(n, x).Some?
    ensures Spells(n, w, p) <==> Spells(Register(n, x).value, w, p)
  {
    var r := Insert(n, x, []);
    forall v ensures Preserved(n, r.node, v) { InsertPreserves(n, x, [], v); }
    assert Covered(n, p);
    HeldPreserved(n, r.node, p);
    if Spells(n, w, p) { SpellsPreserved(n, r.node, w, p); }
    BoundSpells(n, x, w, p);
  }

  lemma BoundSpells(n: Node, x: seq<Segment>, w: Word, p: seq<Segment>)
    requires Register(n, x).Some?
    ensures Spells(Insert(n, x, []).node, w, p) <==> Spells(Register(n, x).value, w, p)
  {
    var r := Insert(n, x, []);
    TerminalsExist(n, x);
    forall v ensures SameShape(r.node, BindAll(r.node, r.terminals), v) { BindAllAt(r.node, r.terminals, v); }
    SpellsSameShape(r.node, BindAll(r.node, r.terminals), w, p);
  }

  /** A registration's targets are those of exactly the words its pattern spells. */
  lemma RegisterRefs(n: Node, p: seq<Segment>, ref: Ref)
    requires Uniform(n) && Register(n, p).Some?
    ensures ref in RefsOf(Insert(n, p, []).terminals) <==> ref.TrieRef? && Spells(Register(n, p).value, ref.word, p)
  {
    if ref.TrieRef? {
      InsertTerminals(n, p, [], ref.word);
      BoundSpells(n, p, ref.word, p);
    }
  }

  // ---------------------------------------------------------------- the table's entries

  lemma {:induction false} SetEntryMembers(entries: seq<Entry>, path: string, e: Eligible, x: Entry)
    ensures x in SetEntry(entries, path, e) ==> x == Entry(path, e) || x in entries
    ensures x in entries && x.path != path ==> x in SetEntry(entries, path, e)
    ensures Entry(path, e) in SetEntry(entries, path, e)
  {
    if entries != [] && entries[0].path != path { SetEntryMembers(entries[1..], path, e, x); }
  }

  lemma EligiblesMember(entries: seq<Entry>, e: Eligible)
    ensures e in Eligibles(entries) <==> exists x :: x in entries && x.eligible == e
  {
    if e in Eligibles(entries) {
      var i :| 0 <= i < |entries| && Eligibles(entries)[i] == e;
      assert entries[i] in entries;
    }
    if x :| x in entries && x.eligible == e {
      var i :| 0 <= i < |entries| && entries[i] == x;
      assert Eligibles(entries)[i] == e;
    }
  }

  lemma IndexedStays(n: Node, p: seq<Segment>, ps: seq<seq<Segment>>, e: Eligible)
    requires TrieOk(n, ps) && Register(n, p).Some? && Indexed(n, ps, e)
    ensures Indexed(Register(n, p).value, ps + [p], e)
  {
    RegisterSpells(n, p, ps, e.segments, e.target.word);
  }

  /** Each entry after a registration is the new one or an old one, and either way sits on its word. */
  lemma EntriesStep(ix: Index, ps: seq<seq<Segment>>, re: Regexes, p: seq<Segment>, path: string, ref: Ref, entries: seq<Entry>)
    requires TrieOk(ix.trie, ps) && Register(ix.trie, p).Some? && ref in RefsOf(Insert(ix.trie, p, []).terminals)
    requires EntriesOk(re, ix.entries) && Compile(re, path) == Ok(p)
    requires forall e | e in Eligibles(ix.entries) :: Indexed(ix.trie, ps, e)
    requires entries == ix.entries || (IsRegexEligible(p) && FastComparable(p) && entries == SetEntry(ix.entries, path, Eligible(p, ref)))
    ensures EntriesOk(re, entries)
    ensures forall e | e in Eligibles(entries) :: Indexed(Register(ix.trie, p).value, ps + [p], e)
  {
    var n := Register(ix.trie, p).value;
    RegisterRefs(ix.trie, p, ref);
    forall x | x in entries
      ensures Indexed(n, ps + [p], x.eligible) && Compile(re, x.path) == Ok(x.eligible.segments)
    {
      SetEntryMembers(ix.entries, path, Eligible(p, ref), x);
      if x in ix.entries {
        EligiblesMember(ix.entries, x.eligible);
        IndexedStays(ix.trie, p, ps, x.eligible);
      }
    }
    forall e | e in Eligibles(entries) ensures Indexed(n, ps + [p], e) { EligiblesMember(entries, e); }
  }

  /** How the table's bookkeeping may change: an entry when the pattern is eligible, otherwise its bucket is set aside. */
  predicate Bookkept(ix: Index, next: Index, p: seq<Segment>, path: string, added: Eligible) {
    && ix.impure <= next.impure
    && (if IsRegexEligible(p) && FastComparable(p) then next.entries == SetEntry(ix.entries, path, added) else next.entries == ix.entries)
    && (!(IsRegexEligible(p) && FastComparable(p)) && p != [] && p[0].Static? ==> p[0].value in next.impure)
  }

  predicate Distinct(refs: seq<Ref>) {
    forall i, j | 0 <= i < j < |refs| :: refs[i] != refs[j]
  }

  /** What a binding did, without the order in which it did it. */
  predicate BindsTo(env: Env, ix: Index, d: Def, next: Index, p: seq<Segment>, refs: seq<Ref>) {
    && Compile(env.re, d.path) == Ok(p)
    && Distinct(refs)
    && next.targets == BindTargets(TouchAll(ix.targets, refs), refs, env, d, HandlersOf(env, d, p))
    && (if IsStatic(p) then BindsStatic(ix, d, next, refs) else BindsDynamic(ix, d, next, p, refs))
  }

  predicate BindsStatic(ix: Index, d: Def, next: Index, refs: seq<Ref>) {
    var ref := StaticRef(StaticKey(d.path));
    && refs == [ref]
    && next == ix.(statics := ix.statics[StaticKey(d.path) := ref], targets := next.targets)
  }

  predicate BindsDynamic(ix: Index, d: Def, next: Index, p: seq<Segment>, refs: seq<Ref>) {
    && Register(ix.trie, p) == Some(next.trie)
    && refs == RefsOf(Insert(ix.trie, p, []).terminals)
    && refs != []
    && next.hasDynamic
    && next.statics == ix.statics
    && (if p != [] && p[0].Static? then next.buckets == CountIn(ix.buckets, p, refs[0]) else next.buckets == ix.buckets)
    && Bookkept(ix, next, p, d.path, Eligible(p, refs[0]))
  }

  /** Indexing a pattern, before the table's bookkeeping. */
  predicate Indexes(ix: Index, p: seq<Segment>, path: string, r: Indexing) {
    && Distinct(r.refs)
    && r.refs != []
    && r.index.targets == TouchAll(ix.targets, r.refs)
    && r.index.entries == ix.entries
    && r.index.impure == ix.impure
    && (if IsStatic(p) then
          && r.refs == [StaticRef(StaticKey(path))]
          && r.index == ix.(statics := ix.statics[StaticKey(path) := r.refs[0]], targets := r.index.targets)
        else
          && Register(ix.trie, p) == Some(r.index.trie)
          && r.refs == RefsOf(Insert(ix.trie, p, []).terminals)
          && r.index.hasDynamic
          && r.index.statics == ix.statics
          && (if p != [] && p[0].Static? then r.index.buckets == CountIn(ix.buckets, p, r.refs[0]) else r.index.buckets == ix.buckets))
  }

  lemma IndexShape(ix: Index, p: seq<Segment>, path: string)
    requires IndexPattern(ix, p, path).Some?
    ensures Indexes(ix, p, path, IndexPattern(ix, p, path).value)
  {
    var refs := IndexPattern(ix, p, path).value.refs;
    if IsStatic(p) { assert refs[..0] == []; }
  }

  lemma TabledShape(ix: Index, p: seq<Segment>, path: string, ref: Ref)
    ensures IsStatic(p) ==> Tabled(ix, p, path, ref) == ix
    ensures !IsStatic(p) ==> Bookkept(ix, Tabled(ix, p, path, ref), p, path, Eligible(p, ref))
    ensures var next := Tabled(ix, p, path, ref); next == ix.(entries := next.entries, impure := next.impure)
  {
  }

  lemma BindShape(env: Env, ix: Index, d: Def) returns (p: seq<Segment>, refs: seq<Ref>)
    requires BindDef(env, ix, d).Some?
    ensures BindsTo(env, ix, d, BindDef(env, ix, d).value, p, refs)
  {
    p := Compile(env.re, d.path).value;
    var r := IndexPattern(ix, p, d.path).value;
    refs := r.refs;
    IndexShape(ix, p, d.path);
    TabledShape(r.index, p, d.path, refs[0]);
  }

  /** The part of an index the fast layers read, after one dynamic registration. */
  lemma FastOkStep(ix: Index, next: Index, ps: seq<seq<Segment>>, re: Regexes, p: seq<Segment>, path: string, ref: Ref)
    requires FastOk(ix.trie, ps, Eligibles(ix.entries), ix.impure) && EntriesOk(re, ix.entries)
    requires Compile(re, path) == Ok(p) && !IsStatic(p) && Register(ix.trie, p) == Some(next.trie)
    requires Bookkept(ix, next, p, path, Eligible(p, ref)) && ref in RefsOf(Insert(ix.trie, p, []).terminals)
    ensures FastOk(next.trie, ps + [p], Eligibles(next.entries), next.impure) && EntriesOk(re, next.entries)
  {
    RegisterKeepsIndex(ix.trie, p, ps);
    EntriesStep(ix, ps, re, p, path, ref, next.entries);
    forall q | q in ps + [p] ensures WellFormed(q) && !IsStatic(q) && Accounted(Eligibles(next.entries), next.impure, q) {
      if q in ps {
        AccountedStays(ix, next, re, p, path, Eligible(p, ref), q);
      } else {
        AccountedNew(ix, next, p, path, Eligible(p, ref));
      }
    }
  }

  lemma AccountedStays(ix: Index, next: Index, re: Regexes, p: seq<Segment>, path: string, added: Eligible, q: seq<Segment>)
    requires Accounted(Eligibles(ix.entries), ix.impure, q) && EntriesOk(re, ix.entries)
    requires Compile(re, path) == Ok(p) && added.segments == p && Bookkept(ix, next, p, path, added)
    ensures Accounted(Eligibles(next.entries), next.impure, q)
  {
    if q != [] && q[0].Static? && q[0].value !in next.impure {
      var e :| e in Eligibles(ix.entries) && e.segments == q;
      EligiblesMember(ix.entries, e);
      var x :| x in ix.entries && x.eligible == e;
      SetEntryMembers(ix.entries, path, added, x);
      var y := if x.path == path && next.entries != ix.entries then Entry(path, added) else x;
      assert y in next.entries && y.eligible.segments == q;
      EligiblesMember(next.entries, y.eligible);
    }
  }

  lemma AccountedNew(ix: Index, next: Index, p: seq<Segment>, path: string, added: Eligible)
    requires added.segments == p && !IsStatic(p) && Bookkept(ix, next, p, path, added)
    ensures Accounted(Eligibles(next.entries), next.impure, p)
  {
    if IsRegexEligible(p) && FastComparable(p) {
      SetEntryMembers(ix.entries, path, added, Entry(path, added));
      EligiblesMember(next.entries, added);
    }
  }

  // ---------------------------------------------------------------- buckets

  lemma {:induction false} NoHead(ps: seq<seq<Segment>>, first: string)
    requires HeadCount(ps, first) == 0
    ensures forall p | p in ps :: !HasHead(p, first)
  {
    if ps != [] {
      NoHead(ps[..|ps| - 1], first);
      assert ps == ps[..|ps| - 1] + [ps[|ps| - 1]];
    }
  }

  lemma HeadCountSnoc(ps: seq<seq<Segment>>, p: seq<Segment>, first: string)
    ensures HeadCount(ps + [p], first) == HeadCount(ps, first) + (if HasHead(p, first) then 1 else 0)
  {
    assert (ps + [p])[..|ps|] == ps;
  }

  /** A bucket the new pattern does not join stays in order. */
  lemma BucketStays(n: Node, ps: seq<seq<Segment>>, p: seq<Segment>, b: Bucket)
    requires TrieOk(n, ps) && Register(n, p).Some? && BucketOk(n, ps, b) && !HasHead(p, b.first)
    ensures BucketOk(Register(n, p).value, ps + [p], b)
  {
    HeadCountSnoc(ps, p, b.first);
    if b.fast.Some? {
      var q, w :| FastFor(n, ps, b.fast.value, q, w) && HasHead(q, b.first);
      RegisterSpells(n, p, ps, q, w);
      assert FastFor(Register(n, p).value, ps + [p], b.fast.value, q, w);
    }
  }

  /** The bucket the new pattern joins. */
  lemma BucketGrows(n: Node, ps: seq<seq<Segment>>, p: seq<Segment>, b: Bucket, ref: Ref)
    requires TrieOk(n, ps) && Register(n, p).Some? && HasHead(p, b.first) && b.count == HeadCount(ps, b.first)
    requires ref in RefsOf(Insert(n, p, []).terminals)
    ensures BucketOk(Register(n, p).value, ps + [p], Counted(b, p, ref))
  {
    HeadCountSnoc(ps, p, b.first);
    RegisterRefs(n, p, ref);
    if Counted(b, p, ref).fast.Some? {
      NoHead(ps, b.first);
      assert FastFor(Register(n, p).value, ps + [p], FastOf(p, ref), p, ref.word);
    }
  }

  lemma {:induction false} BucketOfKeeps(a: seq<Bucket>, b: seq<Bucket>, first: string)
    requires |a| <= |b| && (forall i | 0 <= i < |a| :: a[i].first == b[i].first) && BucketOf(a, first) >= 0
    ensures BucketOf(b, first) >= 0
  {
    if a[0].first != first { BucketOfKeeps(a[1..], b[1..], first); }
  }

  lemma {:induction false} BucketOfFinds(buckets: seq<Bucket>, i: nat)
    requires i < |buckets|
    ensures BucketOf(buckets, buckets[i].first) >= 0
  {
    if i > 0 { BucketOfFinds(buckets[1..], i - 1); }
  }

  lemma BucketsStep(n: Node, ps: seq<seq<Segment>>, p: seq<Segment>, buckets: seq<Bucket>, ref: Ref)
    requires TrieOk(n, ps) && Register(n, p).Some? && BucketsOk(n, ps, buckets)
    requires p != [] && p[0].Static? && ref in RefsOf(Insert(n, p, []).terminals)
    ensures BucketsOk(Register(n, p).value, ps + [p], CountIn(buckets, p, ref))
  {
    var next, first := CountIn(buckets, p, ref), p[0].value;
    var i := BucketOf(buckets, first);
    if i < 0 { UncountedBucket(ps, buckets, first); } else { assert buckets[i] in buckets; }
    BucketGrows(n, ps, p, if i < 0 then Bucket(first, None, 0) else buckets[i], ref);
    forall b | b in next ensures BucketOk(Register(n, p).value, ps + [p], b) {
      CountInMembers(buckets, p, ref, b);
      if b in buckets && b.first != first { BucketStays(n, ps, p, b); }
    }
    BucketsFound(ps, p, buckets, ref);
  }

  lemma CountInMembers(buckets: seq<Bucket>, p: seq<Segment>, ref: Ref, b: Bucket)
    requires DistinctHeads(buckets) && p != [] && p[0].Static? && b in CountIn(buckets, p, ref)
    ensures var i := BucketOf(buckets, p[0].value);
            || (b in buckets && b.first != p[0].value)
            || b == Counted(if i < 0 then Bucket(p[0].value, None, 0) else buckets[i], p, ref)
    ensures DistinctHeads(CountIn(buckets, p, ref))
  {
    var next, i := CountIn(buckets, p, ref), BucketOf(buckets, p[0].value);
    var k :| 0 <= k < |next| && next[k] == b;
    if k != (if i < 0 then |buckets| else i) { assert buckets[k] in buckets; }
  }

  lemma BucketsFound(ps: seq<seq<Segment>>, p: seq<Segment>, buckets: seq<Bucket>, ref: Ref)
    requires p != [] && p[0].Static?
    requires forall q: seq<Segment> | q in ps && q != [] && q[0].Static? :: BucketOf(buckets, q[0].value) >= 0
    ensures forall q: seq<Segment> | q in ps + [p] && q != [] && q[0].Static? :: BucketOf(CountIn(buckets, p, ref), q[0].value) >= 0
    ensures CountIn(buckets, p, ref) != []
  {
    var next, i := CountIn(buckets, p, ref), BucketOf(buckets, p[0].value);
    BucketOfFinds(next, if i < 0 then |buckets| else i);
    forall q: seq<Segment> | q in ps + [p] && q != [] && q[0].Static? ensures BucketOf(next, q[0].value) >= 0 {
      if q in ps { BucketOfKeeps(buckets, next, q[0].value); }
    }
  }

  lemma {:induction false} UncountedBucket(ps: seq<seq<Segment>>, buckets: seq<Bucket>, first: string)
    requires BucketOf(buckets, first) == -1
    requires forall p: seq<Segment> | p in ps && p != [] && p[0].Static? :: BucketOf(buckets, p[0].value) >= 0
    ensures HeadCount(ps, first) == 0
  {
    if ps != [] {
      var last := ps[|ps| - 1];
      assert ps == ps[..|ps| - 1] + [last] && last in ps;
      UncountedBucket(ps[..|ps| - 1], buckets, first);
    }
  }

  /** A pattern that joins no bucket leaves them all in order. */
  lemma BucketsStay(n: Node, ps: seq<seq<Segment>>, p: seq<Segment>, buckets: seq<Bucket>)
    requires TrieOk(n, ps) && Register(n, p).Some? && BucketsOk(n, ps, buckets) && p != [] && !p[0].Static?
    ensures BucketsOk(Register(n, p).value, ps + [p], buckets)
  {
    forall b | b in buckets ensures BucketOk(Register(n, p).value, ps + [p], b) { BucketStays(n, ps, p, b); }
  }

  // ---------------------------------------------------------------- layers

  lemma {:induction false} TouchedLayers(targets: map<Ref, Target>, refs: seq<Ref>, ref: Ref)
    ensures TargetOf(TouchAll(targets, refs), ref) == TargetOf(targets, ref)
  {
    if refs != [] { TouchedLayers(targets, refs[..|refs| - 1], ref); }
  }

  lemma {:induction false} BoundLayers(targets: map<Ref, Target>, refs: seq<Ref>, env: Env, d: Def, hs: seq<Handler>, ref: Ref, verb: string)
    requires forall i, j | 0 <= i < j < |refs| :: refs[i] != refs[j]
    ensures LayersIn(TargetOf(BindTargets(targets, refs, env, d, hs), ref), verb)
         == LayersIn(TargetOf(targets, ref), verb) + (if d.verb == verb && ref in refs then hs else [])
  {
    if refs == [] {
      assert LayersIn(TargetOf(targets, ref), verb) + [] == LayersIn(TargetOf(targets, ref), verb);
    } else {
      var init, last := refs[..|refs| - 1], refs[|refs| - 1];
      BoundLayers(targets, init, env, d, hs, ref, verb);
      assert refs == init + [last] && last !in init;
    }
  }

  lemma {:induction false} LayersStable(env: Env, a: Node, b: Node, defs: seq<Def>, ref: Ref, verb: string)
    requires forall d | d in defs :: Owns(env.re, a, d, ref) <==> Owns(env.re, b, d, ref)
    ensures Layers(env, a, defs, ref, verb) == Layers(env, b, defs, ref, verb)
  {
    if defs != [] {
      var init, last := defs[..|defs| - 1], defs[|defs| - 1];
      assert defs == init + [last];
      LayersStable(env, a, b, init, ref, verb);
    }
  }

  lemma {:induction false} PatternListed(re: Regexes, defs: seq<Def>, d: Def)
    requires d in defs && Compile(re, d.path).Ok? && !IsStatic(Compile(re, d.path).value)
    ensures Compile(re, d.path).value in PatternsOf(re, defs)
  {
    var init, last := defs[..|defs| - 1], defs[|defs| - 1];
    assert defs == init + [last];
    if d in init { PatternListed(re, init, d); }
  }

  lemma LayersSnoc(env: Env, n: Node, defs: seq<Def>, d: Def, ref: Ref, verb: string)
    ensures Layers(env, n, defs + [d], ref, verb)
         == Layers(env, n, defs, ref, verb)
            + (if d.verb == verb && Owns(env.re, n, d, ref) then HandlersOf(env, d, Compile(env.re, d.path).value) else [])
  {
    assert (defs + [d])[..|defs|] == defs;
    assert Layers(env, n, defs, ref, verb) + [] == Layers(env, n, defs, ref, verb);
  }

  /** Growth of the trie changes no earlier definition's targets. */
  lemma OwnsStable(re: Regexes, n: Node, p: seq<Segment>, defs: seq<Def>, d: Def, ref: Ref)
    requires TrieOk(n, PatternsOf(re, defs)) && Register(n, p).Some? && d in defs
    ensures Owns(re, n, d, ref) <==> Owns(re, Register(n, p).value, d, ref)
  {
    if Compile(re, d.path).Ok? && !IsStatic(Compile(re, d.path).value) && ref.TrieRef? {
      PatternListed(re, defs, d);
      RegisterSpells(n, p, PatternsOf(re, defs), Compile(re, d.path).value, ref.word);
    }
  }

  /** A definition's refs are the targets it answers for. */
  lemma RefsAreOwned(env: Env, ix: Index, d: Def, next: Index, p: seq<Segment>, refs: seq<Ref>, ref: Ref)
    requires Uniform(ix.trie) && BindsTo(env, ix, d, next, p, refs)
    ensures ref in refs <==> Owns(env.re, next.trie, d, ref)
  {
    if !IsStatic(p) { RegisterRefs(ix.trie, p, ref); }
  }

  lemma LayersStep(env: Env, ix: Index, defs: seq<Def>, d: Def, next: Index, p: seq<Segment>, refs: seq<Ref>, ref: Ref, verb: string)
    requires TrieOk(ix.trie, PatternsOf(env.re, defs)) && LayersOk(env, defs, ix) && BindsTo(env, ix, d, next, p, refs)
    ensures LayersIn(TargetOf(next.targets, ref), verb) == Layers(env, next.trie, defs + [d], ref, verb)
  {
    BoundLayers(TouchAll(ix.targets, refs), refs, env, d, HandlersOf(env, d, p), ref, verb);
    TouchedLayers(ix.targets, refs, ref);
    RefsAreOwned(env, ix, d, next, p, refs, ref);
    forall e | e in defs ensures Owns(env.re, ix.trie, e, ref) <==> Owns(env.re, next.trie, e, ref) {
      if !IsStatic(p) { OwnsStable(env.re, ix.trie, p, defs, e, ref); }
    }
    LayersStable(env, ix.trie, next.trie, defs, ref, verb);
    LayersSnoc(env, next.trie, defs, d, ref, verb);
  }

  // ---------------------------------------------------------------- chains

  lemma {:induction false} TouchedChains(env: Env, n: Node, defs: seq<Def>, targets: map<Ref, Target>, refs: seq<Ref>)
    requires ChainsOk(env, n, defs, targets)
    ensures ChainsOk(env, n, defs, TouchAll(targets, refs))
  {
    if refs != [] { TouchedChains(env, n, defs, targets, refs[..|refs| - 1]); }
  }

  /** Earlier chains keep their origin when a definition is added. */
  lemma ChainsCarried(env: Env, a: Node, b: Node, defs: seq<Def>, d: Def, targets: map<Ref, Target>)
    requires ChainsOk(env, a, defs, targets)
    requires forall e, ref | e in defs && Owns(env.re, a, e, ref) :: Owns(env.re, b, e, ref)
    ensures ChainsOk(env, b, defs + [d], targets)
  {
    forall ref, m | ref in targets && m in targets[ref].chains
      ensures ChainFrom(env, b, defs + [d], ref, m, targets[ref].chains[m])
    {
      var e :| e in defs && e.verb == m && Owns(env.re, a, e, ref) && targets[ref].chains[m].planned == env.plan(e.path);
      assert e in defs + [d];
    }
  }

  lemma {:induction false} BoundChains(env: Env, n: Node, defs: seq<Def>, targets: map<Ref, Target>, refs: seq<Ref>, d: Def, hs: seq<Handler>)
    requires ChainsOk(env, n, defs, targets) && d in defs && forall ref | ref in refs :: Owns(env.re, n, d, ref)
    ensures ChainsOk(env, n, defs, BindTargets(targets, refs, env, d, hs))
  {
    if refs != [] {
      var init, last := refs[..|refs| - 1], refs[|refs| - 1];
      assert refs == init + [last] && last in refs;
      BoundChains(env, n, defs, targets, init, d, hs);
      var before := BindTargets(targets, init, env, d, hs);
      OneBound(env, n, defs, before, last, d, hs);
    }
  }

  lemma OneBound(env: Env, n: Node, defs: seq<Def>, targets: map<Ref, Target>, last: Ref, d: Def, hs: seq<Handler>)
    requires ChainsOk(env, n, defs, targets) && d in defs && Owns(env.re, n, d, last)
    ensures ChainsOk(env, n, defs, targets[last := BindTarget(TargetOf(targets, last), env, d, hs)])
  {
    var t := BindTarget(TargetOf(targets, last), env, d, hs);
    assert ChainFrom(env, n, defs, last, d.verb, t.chains[d.verb]);
    assert t.chains.Keys == t.layers.Keys;
    forall m | m in t.chains && m != d.verb
      ensures t.chains[m].layers == t.layers[m] && ChainFrom(env, n, defs, last, m, t.chains[m])
    {
      assert last in targets && m in targets[last].chains;
    }
  }

  // ---------------------------------------------------------------- statics

  lemma StaticsStep(re: Regexes, defs: seq<Def>, statics: map<string, Ref>, d: Def)
    requires StaticsOk(re, defs, statics)
    ensures StaticsOk(re, defs + [d], if IsStaticDef(re, d) then statics[StaticKey(d.path) := StaticRef(StaticKey(d.path))] else statics)
  {
    var next := if IsStaticDef(re, d) then statics[StaticKey(d.path) := StaticRef(StaticKey(d.path))] else statics;
    forall key ensures key in next <==> exists e :: e in defs + [d] && IsStaticDef(re, e) && StaticKey(e.path) == key {
      if key in statics {
        var e :| e in defs && IsStaticDef(re, e) && StaticKey(e.path) == key;
        assert e in defs + [d];
      } else if key in next {
        assert d in defs + [d];
      }
    }
  }

  // ---------------------------------------------------------------- one definition, then any list

  lemma PatternsSnoc(re: Regexes, defs: seq<Def>, d: Def)
    ensures PatternsOf(re, defs + [d])
         == if Compile(re, d.path).Ok? && !IsStatic(Compile(re, d.path).value)
            then PatternsOf(re, defs) + [Compile(re, d.path).value] else PatternsOf(re, defs)
  {
    assert (defs + [d])[..|defs|] == defs;
  }

  lemma BuildSnoc(ps: seq<seq<Segment>>, p: seq<Segment>, n: Node)
    requires Build(ps) == Some(n)
    ensures Build(ps + [p]) == Register(n, p)
  {
    assert (ps + [p])[..|ps|] == ps;
  }

  lemma BindKeepsTargets(env: Env, defs: seq<Def>, ix: Index, d: Def, next: Index, p: seq<Segment>, refs: seq<Ref>)
    requires TrieOk(ix.trie, PatternsOf(env.re, defs)) && LayersOk(env, defs, ix) && ChainsOk(env, ix.trie, defs, ix.targets)
    requires BindsTo(env, ix, d, next, p, refs)
    ensures LayersOk(env, defs + [d], next) && ChainsOk(env, next.trie, defs + [d], next.targets)
  {
    forall ref, verb ensures LayersIn(TargetOf(next.targets, ref), verb) == Layers(env, next.trie, defs + [d], ref, verb) {
      LayersStep(env, ix, defs, d, next, p, refs, ref, verb);
    }
    ChainsStep(env, defs, ix, d, next, p, refs);
  }

  lemma ChainsStep(env: Env, defs: seq<Def>, ix: Index, d: Def, next: Index, p: seq<Segment>, refs: seq<Ref>)
    requires TrieOk(ix.trie, PatternsOf(env.re, defs)) && ChainsOk(env, ix.trie, defs, ix.targets)
    requires BindsTo(env, ix, d, next, p, refs)
    ensures ChainsOk(env, next.trie, defs + [d], next.targets)
  {
    TouchedChains(env, ix.trie, defs, ix.targets, refs);
    forall e, ref | e in defs && Owns(env.re, ix.trie, e, ref) ensures Owns(env.re, next.trie, e, ref) {
      if !IsStatic(p) { OwnsStable(env.re, ix.trie, p, defs, e, ref); }
    }
    ChainsCarried(env, ix.trie, next.trie, defs, d, TouchAll(ix.targets, refs));
    forall ref | ref in refs ensures Owns(env.re, next.trie, d, ref) { RefsAreOwned(env, ix, d, next, p, refs, ref); }
    BoundChains(env, next.trie, defs + [d], TouchAll(ix.targets, refs), refs, d, HandlersOf(env, d, p));
  }

  lemma BindKeepsFast(env: Env, ix: Index, ps: seq<seq<Segment>>, d: Def, next: Index, p: seq<Segment>, refs: seq<Ref>)
    requires Build(ps) == Some(ix.trie) && BindsTo(env, ix, d, next, p, refs) && !IsStatic(p)
    requires FastOk(ix.trie, ps, Eligibles(ix.entries), ix.impure) && EntriesOk(env.re, ix.entries) && BucketsOk(ix.trie, ps, ix.buckets)
    ensures Build(ps + [p]) == Some(next.trie)
    ensures FastOk(next.trie, ps + [p], Eligibles(next.entries), next.impure) && EntriesOk(env.re, next.entries)
    ensures BucketsOk(next.trie, ps + [p], next.buckets)
  {
    BuildOk(ps);
    BuildSnoc(ps, p, ix.trie);
    FastOkStep(ix, next, ps, env.re, p, d.path, refs[0]);
    assert refs[0] in refs;
    if p[0].Static? { BucketsStep(ix.trie, ps, p, ix.buckets, refs[0]); } else { BucketsStay(ix.trie, ps, p, ix.buckets); }
  }

  /** One definition keeps the index in order. */
  lemma BindKeepsOrder(env: Env, defs: seq<Def>, ix: Index, d: Def, next: Index, p: seq<Segment>, refs: seq<Ref>)
    requires IndexOk(env, defs, ix) && BindsTo(env, ix, d, next, p, refs)
    ensures IndexOk(env, defs + [d], next)
  {
    var ps := PatternsOf(env.re, defs);
    BuildOk(ps);
    PatternsSnoc(env.re, defs, d);
    StaticsStep(env.re, defs, ix.statics, d);
    BindKeepsTargets(env, defs, ix, d, next, p, refs);
    if !IsStatic(p) { BindKeepsFast(env, ix, ps, d, next, p, refs); }
  }

  lemma BindOk(env: Env, defs: seq<Def>, ix: Index, d: Def, all: seq<Def>, next: Index)
    requires IndexOk(env, defs, ix) && BindDef(env, ix, d) == Some(next) && all == defs + [d]
    ensures IndexOk(env, all, next)
  {
    var p, refs := BindShape(env, ix, d);
    BindKeepsOrder(env, defs, ix, d, next, p, refs);
  }

  lemma EmptyIndexOk(env: Env)
    ensures IndexOk(env, [], EMPTY_INDEX)
  {
    EmptyOk();
  }

  /** Any definition list that rebuilds at all rebuilds into an index in order. */
  lemma {:induction false} RebuildOk(env: Env, defs: seq<Def>)
    requires Rebuild(env, defs).Some?
    ensures IndexOk(env, defs, Rebuild(env, defs).value)
  {
    hide BindDef;
    if defs == [] {
      EmptyIndexOk(env);
    } else {
      RebuildOk(env, defs[..|defs| - 1]);
      BindOk(env, defs[..|defs| - 1], Rebuild(env, defs[..|defs| - 1]).value, defs[|defs| - 1], defs, Rebuild(env, defs).value);
    }
  }
}
