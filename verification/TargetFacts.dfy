/** What a target says of itself: the methods it allows, its name and the pattern it serves. */
module TargetFacts {
  import opened Wrappers
  import opened Patterns
  import opened Trie
  import opened TrieIndex
  import opened TableRegex
  import opened Middleware
  import opened RouterIndex
  import opened RouterRuns

  /** The methods a definition's method stands for: `ALL` for every one, `GET` for `HEAD` too. */
  predicate Grants(verb: string, m: string) {
    m == verb || (verb == "ALL" && m == "*") || (verb == "GET" && m == "HEAD")
  }

  ghost predicate AllowsExactly(re: Regexes, n: Node, defs: seq<Def>, ref: Ref, t: Target) {
    forall m :: m in t.allowed <==> exists d :: d in defs && Owns(re, n, d, ref) && Grants(d.verb, m)
  }

  /** The last definition that owns a target. */
  predicate LastOwner(re: Regexes, n: Node, defs: seq<Def>, ref: Ref, i: nat) {
    i < |defs| && Owns(re, n, defs[i], ref) && forall j | i < j < |defs| :: !Owns(re, n, defs[j], ref)
  }

  /** The last one among them that has a name. */
  predicate LastNamed(re: Regexes, n: Node, defs: seq<Def>, ref: Ref, i: nat) {
    && i < |defs| && Owns(re, n, defs[i], ref) && defs[i].name.Some?
    && forall j | i < j < |defs| :: !(Owns(re, n, defs[j], ref) && defs[j].name.Some?)
  }

  ghost predicate FactsOk(re: Regexes, n: Node, defs: seq<Def>, ref: Ref, t: Target) {
    && AllowsExactly(re, n, defs, ref, t)
    && (forall i: nat | LastOwner(re, n, defs, ref, i) :: t.pattern == defs[i].path)
    && (forall i: nat | LastNamed(re, n, defs, ref, i) :: t.name == defs[i].name)
    && ((forall i: nat :: !LastNamed(re, n, defs, ref, i)) ==> t.name == None)
  }

  lemma {:induction false} BoundTarget(targets: map<Ref, Target>, refs: seq<Ref>, env: Env, d: Def, hs: seq<Handler>, ref: Ref)
    requires forall i, j | 0 <= i < j < |refs| :: refs[i] != refs[j]
    ensures TargetOf(BindTargets(targets, refs, env, d, hs), ref)
         == if ref in refs then BindTarget(TargetOf(targets, ref), env, d, hs) else TargetOf(targets, ref)
  {
    if refs != [] {
      var init, last := refs[..|refs| - 1], refs[|refs| - 1];
      BoundTarget(targets, init, env, d, hs, ref);
      BoundTarget(targets, init, env, d, hs, last);
      assert refs == init + [last] && last !in init;
    }
  }

  lemma AllowedStep(re: Regexes, a: Node, b: Node, defs: seq<Def>, d: Def, ref: Ref, before: Target, after: Target)
    requires AllowsExactly(re, a, defs, ref, before)
    requires forall e | e in defs :: Owns(re, a, e, ref) <==> Owns(re, b, e, ref)
    requires forall m :: m in after.allowed <==> m in before.allowed || (Owns(re, b, d, ref) && Grants(d.verb, m))
    ensures AllowsExactly(re, b, defs + [d], ref, after)
  {
    hide Owns, Grants;
    var all := defs + [d];
    assert forall e :: e in all <==> e in defs || e == d;
    forall m ensures m in after.allowed <==> exists e :: e in all && Owns(re, b, e, ref) && Grants(e.verb, m) {
      if e :| e in defs && Owns(re, a, e, ref) && Grants(e.verb, m) { assert e in all; }
      assert d in all;
    }
  }

  lemma LastOwnerStep(re: Regexes, a: Node, b: Node, defs: seq<Def>, d: Def, ref: Ref)
    requires forall e | e in defs :: Owns(re, a, e, ref) <==> Owns(re, b, e, ref)
    ensures forall i: nat :: LastOwner(re, b, defs + [d], ref, i) <==> if Owns(re, b, d, ref) then i == |defs| else LastOwner(re, a, defs, ref, i)
  {
    hide Owns;
    var all := defs + [d];
    forall i | 0 <= i < |defs| ensures all[i] == defs[i] && defs[i] in defs {}
    forall i: nat ensures LastOwner(re, b, all, ref, i) <==> if Owns(re, b, d, ref) then i == |defs| else LastOwner(re, a, defs, ref, i) {
      if LastOwner(re, b, all, ref, i) && i < |defs| { assert !Owns(re, b, all[|defs|], ref); }
    }
  }

  /** What a definition makes of a target it owns; it leaves the others alone. */
  predicate Restated(re: Regexes, n: Node, d: Def, ref: Ref, before: Target, after: Target) {
    if Owns(re, n, d, ref) then after.pattern == d.path && after.name == (if d.name.Some? then d.name else before.name)
    else after.pattern == before.pattern && after.name == before.name
  }

  /** One definition more: its owner's facts win. */
  lemma FactsStep(re: Regexes, a: Node, b: Node, defs: seq<Def>, d: Def, ref: Ref, before: Target, after: Target)
    requires FactsOk(re, a, defs, ref, before) && Restated(re, b, d, ref, before, after)
    requires forall e | e in defs :: Owns(re, a, e, ref) <==> Owns(re, b, e, ref)
    requires forall m :: m in after.allowed <==> m in before.allowed || (Owns(re, b, d, ref) && Grants(d.verb, m))
    ensures FactsOk(re, b, defs + [d], ref, after)
  {
    hide Owns, Grants, LastOwner, LastNamed, AllowsExactly;
    AllowedStep(re, a, b, defs, d, ref, before, after);
    LastOwnerStep(re, a, b, defs, d, ref);
    LastNamedStep(re, a, b, defs, d, ref);
    var all := defs + [d];
    forall i: nat | LastOwner(re, b, all, ref, i) ensures i < |all| && after.pattern == all[i].path { LastIn(re, b, all, ref, i); LastIn(re, a, defs, ref, i); }
    forall i: nat | LastNamed(re, b, all, ref, i) ensures i < |all| && after.name == all[i].name { LastIn(re, b, all, ref, i); LastIn(re, a, defs, ref, i); }
    assert Owns(re, b, d, ref) && d.name.Some? ==> LastNamed(re, b, all, ref, |defs|);
    if forall i: nat :: !LastNamed(re, b, all, ref, i) {
      forall i: nat ensures !LastNamed(re, a, defs, ref, i) { assert !LastNamed(re, b, all, ref, i); }
    }
  }

  lemma LastIn(re: Regexes, n: Node, defs: seq<Def>, ref: Ref, i: nat)
    ensures LastOwner(re, n, defs, ref, i) || LastNamed(re, n, defs, ref, i) ==> i < |defs|
  {
  }

  lemma LastNamedStep(re: Regexes, a: Node, b: Node, defs: seq<Def>, d: Def, ref: Ref)
    requires forall e | e in defs :: Owns(re, a, e, ref) <==> Owns(re, b, e, ref)
    ensures forall i: nat ::
              LastNamed(re, b, defs + [d], ref, i) <==> if Owns(re, b, d, ref) && d.name.Some? then i == |defs| else LastNamed(re, a, defs, ref, i)
  {
    hide Owns;
    var all := defs + [d];
    forall i | 0 <= i < |defs| ensures all[i] == defs[i] && defs[i] in defs {}
    forall i: nat ensures LastNamed(re, b, all, ref, i) <==> if Owns(re, b, d, ref) && d.name.Some? then i == |defs| else LastNamed(re, a, defs, ref, i) {
      if LastNamed(re, b, all, ref, i) && i < |defs| { assert !(Owns(re, b, all[|defs|], ref) && all[|defs|].name.Some?); }
    }
  }

  lemma BindFacts(env: Env, ix: Index, defs: seq<Def>, d: Def, next: Index, p: seq<Segment>, refs: seq<Ref>, ref: Ref)
    requires TrieOk(ix.trie, PatternsOf(env.re, defs)) && BindsTo(env, ix, d, next, p, refs)
    requires FactsOk(env.re, ix.trie, defs, ref, TargetOf(ix.targets, ref))
    ensures FactsOk(env.re, next.trie, defs + [d], ref, TargetOf(next.targets, ref))
  {
    hide FactsOk, Owns;
    BoundTarget(TouchAll(ix.targets, refs), refs, env, d, HandlersOf(env, d, p), ref);
    TouchedLayers(ix.targets, refs, ref);
    RefsAreOwned(env, ix, d, next, p, refs, ref);
    forall e | e in defs ensures Owns(env.re, ix.trie, e, ref) <==> Owns(env.re, next.trie, e, ref) {
      if !IsStatic(p) { OwnsStable(env.re, ix.trie, p, defs, e, ref); }
    }
    FactsStep(env.re, ix.trie, next.trie, defs, d, ref, TargetOf(ix.targets, ref), TargetOf(next.targets, ref));
  }

  /** In every router a target allows exactly the methods its definitions stand for, and bears the name and path given last. */
  lemma {:induction false} TargetFactsOk(env: Env, defs: seq<Def>, ref: Ref)
    requires Rebuild(env, defs).Some?
    ensures var ix := Rebuild(env, defs).value; FactsOk(env.re, ix.trie, defs, ref, TargetOf(ix.targets, ref))
  {
    hide BindDef, FactsOk;
    if defs == [] {
      NoFacts(env.re, ref);
    } else {
      var init, last := defs[..|defs| - 1], defs[|defs| - 1];
      assert defs == init + [last];
      TargetFactsOk(env, init, ref);
      RebuildOk(env, init);
      BuildOkOf(env, init);
      var p, refs := BindShape(env, Rebuild(env, init).value, last);
      BindFacts(env, Rebuild(env, init).value, init, last, Rebuild(env, defs).value, p, refs, ref);
    }
  }

  lemma NoFacts(re: Regexes, ref: Ref)
    ensures FactsOk(re, EMPTY, [], ref, TargetOf(map[], ref))
  {
  }

  lemma BuildOkOf(env: Env, defs: seq<Def>)
    requires Rebuild(env, defs).Some?
    ensures TrieOk(Rebuild(env, defs).value.trie, PatternsOf(env.re, defs))
  {
    hide Rebuild;
    RebuildOk(env, defs);
    BuildOk(PatternsOf(env.re, defs));
  }
}
