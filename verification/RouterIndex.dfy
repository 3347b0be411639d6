/**
 The router's index as a value: what one definition adds to it, what a rebuild from the
 definition list yields, and what every rebuild keeps.
 */
module RouterIndex {
  import opened Wrappers
  import opened Paths
  import opened Patterns
  import opened Trie
  import opened TrieInsert
  import opened TrieIndex
  import opened TableRegex
  import opened FastLayers
  import opened Middleware

  datatype Def = Def(verb: string, path: string, handlers: seq<Handler>, name: Option<string>, prefixMiddleware: seq<Handler>)

  /** A composed chain: the planned application layers, then the route's own layers. */
  datatype Chain = Chain(planned: seq<Planned>, layers: seq<Handler>)

  datatype Target = Target(
    layers: map<string, seq<Handler>>,
    chains: map<string, Chain>,
    allowed: set<string>,
    name: Option<string>,
    pattern: string)

  const NEW_TARGET := Target(map[], map[], {}, None, "")

  datatype Bucket = Bucket(first: string, fast: Option<FastMatcher>, count: nat)

  /** One entry of the table index; a path registered again keeps its place. */
  datatype Entry = Entry(path: string, eligible: Eligible)

  datatype Index = Index(
    statics: map<string, Ref>,
    trie: Node,
    hasDynamic: bool,
    buckets: seq<Bucket>,
    entries: seq<Entry>,
    impure: set<string>,
    targets: map<Ref, Target>)

  const EMPTY_INDEX := Index(map[], EMPTY, false, [], [], {}, map[])

  /** What a binding reads besides the definition: regex constraints, param middleware, and the middleware plan of a path. */
  datatype Env = Env(re: Regexes, params: map<string, Handler>, plan: string -> seq<Planned>)

  const ALL := "ALL"

  // ---------------------------------------------------------------- indexing a pattern

  function StaticKey(path: string): string {
    if '%' in path then CanonicalKey(path) else path
  }

  function RefsOf(words: seq<Word>): (r: seq<Ref>)
    ensures forall ref :: ref in r <==> ref.TrieRef? && ref.word in words
    ensures forall i, j | 0 <= i < j < |r| :: r[i] != r[j]
  {
    if words == [] then []
    else
      var init := RefsOf(words[..|words| - 1]);
      var last := words[|words| - 1];
      assert words == words[..|words| - 1] + [last];
      if TrieRef(last) in init then init else init + [TrieRef(last)]
  }

  function Touch(targets: map<Ref, Target>, ref: Ref): map<Ref, Target> {
    if ref in targets then targets else targets[ref := NEW_TARGET]
  }

  function TouchAll(targets: map<Ref, Target>, refs: seq<Ref>): map<Ref, Target> {
    if refs == [] then targets else Touch(TouchAll(targets, refs[..|refs| - 1]), refs[|refs| - 1])
  }

  function BucketOf(buckets: seq<Bucket>, first: string): (i: int)
    ensures -1 <= i < |buckets|
    ensures i >= 0 ==> buckets[i].first == first
    ensures i == -1 ==> forall b | b in buckets :: b.first != first
  {
    if buckets == [] then -1
    else if buckets[0].first == first then 0
    else var i := BucketOf(buckets[1..], first); if i < 0 then -1 else i + 1
  }

  function FastOf(p: seq<Segment>, ref: Ref): FastMatcher {
    FastMatcher(StaticHead(p), ParamNamesOf(p), ref)
  }

  /** One more dynamic pattern in a bucket: it keeps a slice matcher only while it holds exactly one simple pattern. */
  function Counted(b: Bucket, p: seq<Segment>, ref: Ref): Bucket {
    b.(count := b.count + 1, fast := if b.count == 0 && IsSimple(p) && FastComparable(p) then Some(FastOf(p, ref)) else None)
  }

  function CountIn(buckets: seq<Bucket>, p: seq<Segment>, ref: Ref): seq<Bucket>
    requires p != [] && p[0].Static?
  {
    var i := BucketOf(buckets, p[0].value);
    if i < 0 then buckets + [Counted(Bucket(p[0].value, None, 0), p, ref)]
    else buckets[i := Counted(buckets[i], p, ref)]
  }

  datatype Indexing = Indexing(index: Index, refs: seq<Ref>)

  lemma {:induction false} SomeTerminal(n: Node, p: seq<Segment>, names: seq<string>)
    requires Insert(n, p, names).ok
    ensures Insert(n, p, names).terminals != []
    decreases |p|
  {
    if p != [] {
      match p[0]
      case Static(v) => SomeTerminal(KidOrEmpty(n, Key(v)), p[1..], names);
      case Wildcard => SomeTerminal(KidOrEmpty(n, Tail), p[1..], names + [WILDCARD_NAME]);
      case Param(name, pattern, optional) =>
        var wider := OpenVariant(n, name, pattern);
        var k := VariantFor(wider.params, pattern);
        SomeTerminal(KidOrEmpty(wider, Take(k)), p[1..], names + [name]);
    }
  }

  /** Index one compiled pattern; None when the trie refuses it. */
  function IndexPattern(ix: Index, p: seq<Segment>, path: string): (r: Option<Indexing>)
    ensures r.Some? ==> r.value.refs != []
  {
    if IsStatic(p) then
      var ref := StaticRef(StaticKey(path));
      Some(Indexing(ix.(statics := ix.statics[StaticKey(path) := ref], targets := Touch(ix.targets, ref)), [ref]))
    else
      match Register(ix.trie, p)
      case None => None
      case Some(trie) =>
        SomeTerminal(ix.trie, p, []);
        var refs := RefsOf(Insert(ix.trie, p, []).terminals);
        assert TrieRef(Insert(ix.trie, p, []).terminals[0]) in refs;
        var wider := ix.(trie := trie, hasDynamic := true, targets := TouchAll(ix.targets, refs));
        Some(Indexing(if p[0].Static? then wider.(buckets := CountIn(ix.buckets, p, refs[0])) else wider, refs))
  }

  // ---------------------------------------------------------------- binding a definition

  /** Param middleware of a pattern, each handler once, in name order. */
  function ParamChain(params: map<string, Handler>, names: seq<string>): (r: seq<Handler>)
  {
    if names == [] then []
    else
      var init := ParamChain(params, names[..|names| - 1]);
      var last := names[|names| - 1];
      if last in params && params[last] !in init then init + [params[last]] else init
  }

  function HandlersOf(env: Env, d: Def, p: seq<Segment>): seq<Handler> {
    d.prefixMiddleware + ParamChain(env.params, ParamNamesOf(p)) + d.handlers
  }

  function LayersIn(t: Target, verb: string): seq<Handler> {
    if verb in t.layers then t.layers[verb] else []
  }

  function BindTarget(t: Target, env: Env, d: Def, handlers: seq<Handler>): Target {
    var layers := LayersIn(t, d.verb) + handlers;
    Target(
      t.layers[d.verb := layers],
      t.chains[d.verb := Chain(env.plan(d.path), layers)],
      t.allowed + {d.verb} + (if d.verb == ALL then {"*"} else {}) + (if d.verb == "GET" then {"HEAD"} else {}),
      if d.name.Some? then d.name else t.name,
      d.path)
  }

  function TargetOf(targets: map<Ref, Target>, ref: Ref): Target {
    if ref in targets then targets[ref] else NEW_TARGET
  }

  function BindTargets(targets: map<Ref, Target>, refs: seq<Ref>, env: Env, d: Def, handlers: seq<Handler>): map<Ref, Target> {
    if refs == [] then targets
    else
      var init := BindTargets(targets, refs[..|refs| - 1], env, d, handlers);
      var last := refs[|refs| - 1];
      init[last := BindTarget(TargetOf(init, last), env, d, handlers)]
  }

  function SetEntry(entries: seq<Entry>, path: string, e: Eligible): seq<Entry> {
    if entries == [] then [Entry(path, e)]
    else if entries[0].path == path then [Entry(path, e)] + entries[1..]
    else [entries[0]] + SetEntry(entries[1..], path, e)
  }

  /** The bookkeeping of the table: an entry, or a bucket set aside. */
  function Tabled(ix: Index, p: seq<Segment>, path: string, ref: Ref): Index {
    if IsRegexEligible(p) && FastComparable(p) then ix.(entries := SetEntry(ix.entries, path, Eligible(p, ref)))
    else if !IsStatic(p) && p[0].Static? then ix.(impure := ix.impure + {p[0].value})
    else ix
  }

  /** Index and bind one definition; None when it throws. */
  function BindDef(env: Env, ix: Index, d: Def): Option<Index> {
    match Compile(env.re, d.path)
    case Thrown(_) => None
    case Ok(p) =>
      match IndexPattern(ix, p, d.path)
      case None => None
      case Some(r) =>
        var tabled := Tabled(r.index, p, d.path, r.refs[0]);
        Some(tabled.(targets := BindTargets(tabled.targets, r.refs, env, d, HandlersOf(env, d, p))))
  }

  /** The index of a definition list; None when one of them throws. */
  function Rebuild(env: Env, defs: seq<Def>): Option<Index> {
    if defs == [] then Some(EMPTY_INDEX)
    else
      match Rebuild(env, defs[..|defs| - 1])
      case None => None
      case Some(ix) => BindDef(env, ix, defs[|defs| - 1])
  }

  // ---------------------------------------------------------------- what an index holds

  /** The dynamic patterns of a definition list, in order. */
  function PatternsOf(re: Regexes, defs: seq<Def>): (r: seq<seq<Segment>>)
    ensures forall p | p in r :: WellFormed(p) && !IsStatic(p)
  {
    if defs == [] then []
    else
      var init := PatternsOf(re, defs[..|defs| - 1]);
      match Compile(re, defs[|defs| - 1].path)
      case Thrown(_) => init
      case Ok(last) => if IsStatic(last) then init else init + [last]
  }

  function Eligibles(entries: seq<Entry>): (r: seq<Eligible>)
    ensures |r| == |entries| && forall i | 0 <= i < |r| :: r[i] == entries[i].eligible
  {
    seq(|entries|, i requires 0 <= i < |entries| => entries[i].eligible)
  }

  /** Patterns of a bucket. */
  function HeadCount(ps: seq<seq<Segment>>, first: string): nat {
    if ps == [] then 0
    else HeadCount(ps[..|ps| - 1], first) + (if HasHead(ps[|ps| - 1], first) then 1 else 0)
  }

  predicate HasHead(p: seq<Segment>, first: string) {
    p != [] && p[0] == Static(first)
  }

  /** A slice matcher belongs to the only pattern of its bucket. */
  ghost predicate FastFor(n: Node, ps: seq<seq<Segment>>, fast: FastMatcher, p: seq<Segment>, w: Word) {
    && p in ps && IsSimple(p) && FastComparable(p) && Spells(n, w, p) && fast == FastOf(p, TrieRef(w))
    && forall r | r in ps && r != [] && r[0] == p[0] :: r == p
  }

  ghost predicate BucketOk(n: Node, ps: seq<seq<Segment>>, b: Bucket) {
    && b.count == HeadCount(ps, b.first)
    && (b.fast.Some? ==> exists p, w :: FastFor(n, ps, b.fast.value, p, w) && HasHead(p, b.first))
  }

  predicate DistinctHeads(buckets: seq<Bucket>) {
    forall i, j | 0 <= i < j < |buckets| :: buckets[i].first != buckets[j].first
  }

  ghost predicate BucketsOk(n: Node, ps: seq<seq<Segment>>, buckets: seq<Bucket>) {
    && DistinctHeads(buckets)
    && (forall b | b in buckets :: BucketOk(n, ps, b))
    && (forall p: seq<Segment> | p in ps && p != [] && p[0].Static? :: BucketOf(buckets, p[0].value) >= 0)
  }

  /** A definition answers for a target: its static key, or a word its pattern spells. */
  predicate Owns(re: Regexes, n: Node, d: Def, ref: Ref) {
    match Compile(re, d.path)
    case Thrown(_) => false
    case Ok(p) => if IsStatic(p) then ref == StaticRef(StaticKey(d.path)) else ref.TrieRef? && Spells(n, ref.word, p)
  }

  /** The layers a target should hold: those of every definition that answers for it, in registration order. */
  function Layers(env: Env, n: Node, defs: seq<Def>, ref: Ref, verb: string): seq<Handler> {
    if defs == [] then []
    else
      var d := defs[|defs| - 1];
      var init := Layers(env, n, defs[..|defs| - 1], ref, verb);
      if d.verb == verb && Owns(env.re, n, d, ref) then init + HandlersOf(env, d, Compile(env.re, d.path).value) else init
  }

  predicate IsStaticDef(re: Regexes, d: Def) {
    Compile(re, d.path).Ok? && IsStatic(Compile(re, d.path).value)
  }

  ghost predicate StaticsOk(re: Regexes, defs: seq<Def>, statics: map<string, Ref>) {
    && (forall key | key in statics :: statics[key] == StaticRef(key))
    && (forall key :: key in statics <==> exists d :: d in defs && IsStaticDef(re, d) && StaticKey(d.path) == key)
  }

  ghost predicate LayersOk(env: Env, defs: seq<Def>, ix: Index) {
    forall ref, verb :: LayersIn(TargetOf(ix.targets, ref), verb) == Layers(env, ix.trie, defs, ref, verb)
  }

  /** A target's chain for a method embeds its layers once, under the plan of some definition that answers for it. */
  ghost predicate ChainFrom(env: Env, n: Node, defs: seq<Def>, ref: Ref, verb: string, chain: Chain) {
    exists d :: d in defs && d.verb == verb && Owns(env.re, n, d, ref) && chain.planned == env.plan(d.path)
  }

  ghost predicate ChainsOk(env: Env, n: Node, defs: seq<Def>, targets: map<Ref, Target>) {
    forall ref | ref in targets ::
      && targets[ref].chains.Keys == targets[ref].layers.Keys
      && forall m | m in targets[ref].chains ::
        targets[ref].chains[m].layers == targets[ref].layers[m] && ChainFrom(env, n, defs, ref, m, targets[ref].chains[m])
  }

  ghost predicate EntriesOk(re: Regexes, entries: seq<Entry>) {
    forall e | e in entries :: Compile(re, e.path) == Ok(e.eligible.segments)
  }

  /** What every rebuilt index satisfies. */
  ghost predicate IndexOk(env: Env, defs: seq<Def>, ix: Index) {
    var ps := PatternsOf(env.re, defs);
    && Build(ps) == Some(ix.trie)
    && (ix.hasDynamic <==> ps != [])
    && FastOk(ix.trie, ps, Eligibles(ix.entries), ix.impure)
    && EntriesOk(env.re, ix.entries)
    && BucketsOk(ix.trie, ps, ix.buckets)
    && StaticsOk(env.re, defs, ix.statics)
    && LayersOk(env, defs, ix)
    && ChainsOk(env, ix.trie, defs, ix.targets)
  }
}
