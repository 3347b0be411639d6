/** The response cache's store: an insertion-ordered map under two budgets, touched by interleaved lookups and captures. */
module Cache {
  import opened Wrappers

  /** A stored representation; only its size and its expiry matter to the budgets. */
  datatype Entry = Entry(key: string, size: nat, expires: int, body: nat)

  datatype Budget = Budget(max: nat, maxBytes: nat, maxEntryBytes: nat) {
    predicate Sound() { maxEntryBytes <= maxBytes }
  }

  function Bytes(s: seq<Entry>): nat {
    if s == [] then 0 else s[0].size + Bytes(s[1..])
  }

  predicate Unique(s: seq<Entry>) {
    forall i, j | 0 <= i < j < |s| :: s[i].key != s[j].key
  }

  function Find(s: seq<Entry>, key: string): (i: int)
    ensures -1 <= i < |s|
    ensures i >= 0 ==> s[i].key == key
    ensures i == -1 ==> forall e | e in s :: e.key != key
  {
    if s == [] then -1
    else if s[0].key == key then 0
    else var i := Find(s[1..], key); if i < 0 then -1 else i + 1
  }

  function Drop(s: seq<Entry>, i: nat): seq<Entry>
    requires i < |s|
  {
    s[..i] + s[i + 1..]
  }

  /** Setting a key that is present keeps its place; a new one goes last. */
  function Put(s: seq<Entry>, e: Entry): seq<Entry> {
    var i := Find(s, e.key);
    if i < 0 then s + [e] else s[i := e]
  }

  predicate Fits(b: Budget, s: seq<Entry>) {
    |s| <= b.max && Bytes(s) <= b.maxBytes
  }

  /** Oldest first, until both budgets are met. */
  function Evict(b: Budget, s: seq<Entry>): seq<Entry> {
    if s == [] || Fits(b, s) then s else Evict(b, s[1..])
  }

  /** What one lookup does: a live hit becomes the freshest entry, a dead one goes. */
  function Lookup(s: seq<Entry>, key: string, authed: bool, bypass: bool, now: int): (seq<Entry>, Option<Entry>) {
    var i := if authed then -1 else Find(s, key);
    if i < 0 then (s, None)
    else if s[i].expires > now && !bypass then (Drop(s, i) + [s[i]], Some(s[i]))
    else (Drop(s, i), None)
  }

  function Capture(b: Budget, s: seq<Entry>, e: Entry): seq<Entry> {
    if e.size > b.maxEntryBytes then s else Evict(b, Put(s, e))
  }

  // ---------------------------------------------------------------- sizes

  lemma {:induction false} BytesConcat(a: seq<Entry>, b: seq<Entry>)
    ensures Bytes(a + b) == Bytes(a) + Bytes(b)
  {
    if a == [] {
      assert a + b == b;
    } else {
      BytesConcat(a[1..], b);
      assert (a + b)[1..] == a[1..] + b;
    }
  }

  lemma BytesOne(e: Entry)
    ensures Bytes([e]) == e.size
  {
    assert [e][1..] == [];
  }

  lemma BytesAround(s: seq<Entry>, i: nat)
    requires i < |s|
    ensures Bytes(s) == Bytes(s[..i]) + s[i].size + Bytes(s[i + 1..])
    ensures Bytes(Drop(s, i)) == Bytes(s) - s[i].size
  {
    hide Bytes;
    assert s == s[..i] + ([s[i]] + s[i + 1..]);
    BytesConcat(s[..i], [s[i]] + s[i + 1..]);
    BytesConcat([s[i]], s[i + 1..]);
    BytesOne(s[i]);
    BytesConcat(s[..i], s[i + 1..]);
  }

  lemma PutBytes(s: seq<Entry>, e: Entry)
    ensures Bytes(Put(s, e)) == Bytes(s) + e.size - (if Find(s, e.key) >= 0 then s[Find(s, e.key)].size else 0)
  {
    var i := Find(s, e.key);
    if i < 0 {
      BytesConcat(s, [e]);
      BytesOne(e);
    } else {
      BytesAround(s, i);
      BytesAround(s[i := e], i);
      assert s[i := e][..i] == s[..i] && s[i := e][i + 1..] == s[i + 1..];
    }
  }

  lemma PutUnique(s: seq<Entry>, e: Entry)
    requires Unique(s)
    ensures Unique(Put(s, e))
  {
    var i := Find(s, e.key);
    if i < 0 {
      forall k | 0 <= k < |s| ensures s[k].key != e.key { assert s[k] in s; }
    }
  }

  // ---------------------------------------------------------------- eviction

  lemma {:induction false} FitsSuffix(b: Budget, s: seq<Entry>, i: nat, j: nat)
    requires i <= j <= |s| && Fits(b, s[i..])
    ensures Fits(b, s[j..])
  {
    assert s[i..] == s[i..j] + s[j..];
    BytesConcat(s[i..j], s[j..]);
  }

  /** Eviction keeps the longest tail that meets both budgets, and nothing else. */
  lemma {:induction false} EvictKeepsTail(b: Budget, s: seq<Entry>) returns (k: nat)
    ensures k <= |s| && Evict(b, s) == s[k..]
    ensures Fits(b, s[k..]) && forall i | 0 <= i < k :: !Fits(b, s[i..])
  {
    if s == [] || Fits(b, s) {
      assert s[0..] == s;
      return 0;
    }
    var below := EvictKeepsTail(b, s[1..]);
    k := below + 1;
    assert s[1..][below..] == s[k..];
    forall i | 0 <= i < k ensures !Fits(b, s[i..]) {
      if i > 0 { assert s[1..][i - 1..] == s[i..]; } else { assert s[0..] == s; }
    }
  }

  /** An entry outlives the eviction exactly when it and everything newer meets both budgets. */
  lemma SurvivesExactly(b: Budget, s: seq<Entry>, i: nat)
    requires Unique(s) && i < |s|
    ensures s[i] in Evict(b, s) <==> Fits(b, s[i..])
  {
    var k := EvictKeepsTail(b, s);
    if i < k {
      forall j | k <= j < |s| ensures s[j] != s[i] {}
    } else {
      assert s[k..][i - k] == s[i];
      FitsSuffix(b, s, k, i);
    }
  }

  /** A representation captured under a key that was absent survives its own eviction pass. */
  lemma FreshSurvives(b: Budget, s: seq<Entry>, e: Entry)
    requires b.Sound() && b.max >= 1 && Unique(s) && Find(s, e.key) < 0 && e.size <= b.maxEntryBytes
    ensures e in Capture(b, s, e)
  {
    var all := Put(s, e);
    PutUnique(s, e);
    assert all[|s|..] == [e];
    BytesOne(e);
    SurvivesExactly(b, all, |s|);
  }

  /** Under a key a concurrent capture already stored it may not: it inherits the old place in the eviction order. */
  lemma ReplacedMayGo()
    ensures exists b: Budget, s, e: Entry ::
      b.Sound() && b.max >= 1 && Unique(s) && Fits(b, s) && e.size <= b.maxEntryBytes && e !in Capture(b, s, e)
  {
    var b := Budget(2, 10, 10);
    var s := [Entry("a", 1, 0, 0), Entry("b", 5, 0, 1)];
    var e := Entry("a", 8, 0, 2);
    BytesTwo(s[0], s[1]);
    BytesTwo(e, s[1]);
    assert Put(s, e) == [e, s[1]];
    BytesOne(s[1]);
    assert [e, s[1]][1..] == [s[1]];
    assert Evict(b, [s[1]]) == [s[1]];
    assert b.Sound() && Unique(s) && Fits(b, s) && e !in Capture(b, s, e);
  }

  lemma BytesTwo(a: Entry, b: Entry)
    ensures Bytes([a, b]) == a.size + b.size
  {
    assert [a, b] == [a] + [b];
    BytesConcat([a], [b]);
    BytesOne(a);
    BytesOne(b);
  }

  // ---------------------------------------------------------------- runs

  /** A synchronous section of some request: its lookup, or its capture after the awaits. */
  datatype Section = Looks(key: string, authed: bool, bypass: bool, now: int) | Captures(entry: Entry)

  function After(b: Budget, sections: seq<Section>): seq<Entry> {
    if sections == [] then []
    else
      var s := After(b, sections[..|sections| - 1]);
      match sections[|sections| - 1]
      case Looks(key, authed, bypass, now) => Lookup(s, key, authed, bypass, now).0
      case Captures(e) => Capture(b, s, e)
  }

  lemma LookupKeeps(b: Budget, s: seq<Entry>, key: string, authed: bool, bypass: bool, now: int)
    requires Unique(s) && Fits(b, s)
    ensures var r := Lookup(s, key, authed, bypass, now); Unique(r.0) && Fits(b, r.0)
    ensures var r := Lookup(s, key, authed, bypass, now); r.1.Some? ==> r.1.value in s && r.1.value.key == key && r.1.value.expires > now && !authed && !bypass
    ensures var r := Lookup(s, key, authed, bypass, now); r.1.Some? ==> r.0 != [] && r.0[|r.0| - 1] == r.1.value && Bytes(r.0) == Bytes(s)
  {
    var i := if authed then -1 else Find(s, key);
    if i >= 0 {
      BytesAround(s, i);
      BytesConcat(Drop(s, i), [s[i]]);
      BytesOne(s[i]);
    }
  }

  lemma CaptureKeeps(b: Budget, s: seq<Entry>, e: Entry)
    requires Unique(s) && Fits(b, s)
    ensures Unique(Capture(b, s, e)) && Fits(b, Capture(b, s, e))
  {
    PutUnique(s, e);
    var k := EvictKeepsTail(b, Put(s, e));
  }

  /** However lookups and captures interleave, keys stay unique and both budgets hold after every section. */
  lemma {:induction false} BudgetsAlwaysHold(b: Budget, sections: seq<Section>)
    ensures Unique(After(b, sections)) && Fits(b, After(b, sections))
  {
    if sections != [] {
      var init := sections[..|sections| - 1];
      BudgetsAlwaysHold(b, init);
      match sections[|sections| - 1]
      case Looks(key, authed, bypass, now) => LookupKeeps(b, After(b, init), key, authed, bypass, now);
      case Captures(e) => CaptureKeeps(b, After(b, init), e);
    }
  }

  // ---------------------------------------------------------------- what lookups and captures do to each entry

  /** The entries under other keys, in their order. */
  function Others(s: seq<Entry>, key: string): seq<Entry> {
    if s == [] then [] else (if s[0].key == key then [] else [s[0]]) + Others(s[1..], key)
  }

  lemma {:induction false} OthersDropped(s: seq<Entry>, i: nat)
    requires Unique(s) && i < |s|
    ensures Others(s, s[i].key) == Drop(s, i)
  {
    if i == 0 {
      forall j | 0 <= j < |s[1..]| ensures s[1..][j].key != s[0].key {}
      OthersAll(s[1..], s[0].key);
      assert [] + s[1..] == s[1..];
    } else {
      OthersDropped(s[1..], i - 1);
      assert Drop(s, i) == [s[0]] + Drop(s[1..], i - 1);
    }
  }

  lemma {:induction false} OthersAll(s: seq<Entry>, key: string)
    requires forall j | 0 <= j < |s| :: s[j].key != key
    ensures Others(s, key) == s
  {
    if s != [] { OthersAll(s[1..], key); }
  }

  /**
   A lookup answers exactly the live entry of its key, unless the request is authorized or asks not to be served from
   the store. That entry becomes the last; an expired or bypassed one goes; every other keeps its place.
   */
  lemma LookupExactly(s: seq<Entry>, key: string, authed: bool, bypass: bool, now: int)
    requires Unique(s)
    ensures var hit := Lookup(s, key, authed, bypass, now).1;
            && (forall e :: hit == Some(e) <==> e in s && e.key == key && e.expires > now && !authed && !bypass)
            && Lookup(s, key, authed, bypass, now).0
               == if authed then s else if hit.Some? then Others(s, key) + [hit.value] else Others(s, key)
  {
    var i := Find(s, key);
    if i >= 0 {
      OthersDropped(s, i);
      forall e | e in s && e.key == key ensures e == s[i] {}
    } else {
      OthersAll(s, key);
    }
  }

  /** The place of a capture: that of the entry it replaces, or the last. */
  lemma PutExactly(s: seq<Entry>, e: Entry)
    requires Unique(s)
    ensures var r := Put(s, e);
            && (forall i | 0 <= i < |s| :: i < |r| && r[i] == (if s[i].key == e.key then e else s[i]))
            && (if exists x :: x in s && x.key == e.key then |r| == |s| else r == s + [e])
  {
    var i := Find(s, e.key);
    if i >= 0 { assert s[i] in s; }
  }

  /** The capture that last stored something under a key; an oversized one stores nothing. */
  function LastStored(b: Budget, sections: seq<Section>, key: string): Option<Entry> {
    if sections == [] then None
    else
      match sections[|sections| - 1]
      case Captures(e) => if e.key == key && e.size <= b.maxEntryBytes then Some(e) else LastStored(b, sections[..|sections| - 1], key)
      case Looks(_, _, _, _) => LastStored(b, sections[..|sections| - 1], key)
  }

  /** However sections interleave, whatever a lookup can answer is what was stored last under its key. */
  lemma {:induction false} ServesLastStored(b: Budget, sections: seq<Section>, e: Entry)
    requires e in After(b, sections)
    ensures LastStored(b, sections, e.key) == Some(e)
  {
    if sections != [] {
      var init := sections[..|sections| - 1];
      var s := After(b, init);
      BudgetsAlwaysHold(b, init);
      match sections[|sections| - 1]
      case Looks(key, authed, bypass, now) =>
        LookupExactly(s, key, authed, bypass, now);
        OthersSubset(s, key);
        assert e in s;
        ServesLastStored(b, init, e);
      case Captures(kept) =>
        CaptureExactly(b, s, kept);
        if e != kept {
          assert e in s && (kept.size <= b.maxEntryBytes ==> e.key != kept.key);
          ServesLastStored(b, init, e);
        }
        if e == kept && kept.size > b.maxEntryBytes { ServesLastStored(b, init, e); }
    }
  }

  lemma {:induction false} OthersSubset(s: seq<Entry>, key: string)
    ensures forall e | e in Others(s, key) :: e in s
  {
    if s != [] { OthersSubset(s[1..], key); }
  }

  /** An oversized capture changes nothing; any other takes its place, and the entries that go are the oldest, as many as needed. */
  lemma CaptureExactly(b: Budget, s: seq<Entry>, e: Entry)
    requires Unique(s)
    ensures e.size > b.maxEntryBytes ==> Capture(b, s, e) == s
    ensures e.size <= b.maxEntryBytes ==>
      exists k :: 0 <= k <= |Put(s, e)| && Capture(b, s, e) == Put(s, e)[k..] && Fits(b, Put(s, e)[k..]) && forall i | 0 <= i < k :: !Fits(b, Put(s, e)[i..])
    ensures e.size <= b.maxEntryBytes ==> forall x | x in Capture(b, s, e) && x != e :: x in s && x.key != e.key
  {
    if e.size <= b.maxEntryBytes {
      var k := EvictKeepsTail(b, Put(s, e));
      PutExactly(s, e);
      PutUnique(s, e);
      forall x | x in Put(s, e)[k..] && x != e ensures x in s && x.key != e.key {
        var i :| 0 <= i < |Put(s, e)| && Put(s, e)[i] == x;
        if i < |s| { assert s[i] == x; }
      }
    }
  }

  // ---------------------------------------------------------------- the closure state

  class ResponseCache {
    const budget: Budget
    var store: seq<Entry>
    var totalBytes: int

    /** The counter is the sum of what is stored. */
    ghost predicate Valid()
      reads this
    {
      Unique(store) && totalBytes == Bytes(store) && Fits(budget, store)
    }

    constructor (budget: Budget)
      ensures Valid() && store == [] && this.budget == budget
    {
      this.budget, store, totalBytes := budget, [], 0;
    }

    method LookUp(key: string, authed: bool, bypass: bool, now: int) returns (hit: Option<Entry>)
      requires Valid()
      modifies this
      ensures Valid() && (store, hit) == Lookup(old(store), key, authed, bypass, now)
    {
      LookupKeeps(budget, store, key, authed, bypass, now);
      var i := if authed then -1 else Find(store, key);
      if i < 0 { return None; }
      var cached := store[i];
      BytesAround(store, i);
      if cached.expires > now && !bypass {
        store := Drop(store, i) + [cached];
        return Some(cached);
      }
      store, totalBytes := Drop(store, i), totalBytes - cached.size;
      return None;
    }

    method Keep(e: Entry)
      requires Valid()
      modifies this
      ensures Valid() && store == Capture(budget, old(store), e)
    {
      if e.size > budget.maxEntryBytes { return; }
      PutUnique(store, e);
      PutBytes(store, e);
      var at := Find(store, e.key);
      if at >= 0 { totalBytes := totalBytes - store[at].size; }
      store := Put(store, e);
      totalBytes := totalBytes + e.size;
      while |store| > budget.max || totalBytes > budget.maxBytes
        invariant Unique(store) && totalBytes == Bytes(store)
        invariant Evict(budget, store) == Capture(budget, old(store), e)
        decreases |store|
      {
        if |store| == 0 { break; }
        totalBytes := totalBytes - store[0].size;
        store := store[1..];
      }
    }
  }
}
