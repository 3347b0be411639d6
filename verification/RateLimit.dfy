/** Fixed-window rate limiting: the memory store, and what its counts promise over whole runs. */
module RateLimit {
  import opened Wrappers

  /** Hits so far, and when the window closes. */
  datatype Bucket = Bucket(count: nat, resetAt: real)

  datatype Slot = Slot(key: string, bucket: Bucket)

  // ---------------------------------------------------------------- one hit

  function Renew(previous: Option<Bucket>, window: real, now: real): Bucket {
    if previous.Some? && previous.value.resetAt > now
    then previous.value.(count := previous.value.count + 1)
    else Bucket(1, now + window)
  }

  function Find(s: seq<Slot>, key: string): (i: int)
    ensures -1 <= i < |s|
    ensures i >= 0 ==> s[i].key == key
    ensures i == -1 ==> forall e | e in s :: e.key != key
  {
    if s == [] then -1
    else if s[0].key == key then 0
    else var i := Find(s[1..], key); if i < 0 then -1 else i + 1
  }

  function Lookup(s: seq<Slot>, key: string): Option<Bucket> {
    if Find(s, key) < 0 then None else Some(s[Find(s, key)].bucket)
  }

  function Put(s: seq<Slot>, key: string, b: Bucket): seq<Slot> {
    if Find(s, key) < 0 then s + [Slot(key, b)] else s[Find(s, key) := Slot(key, b)]
  }

  /** Oldest keys first, down to the bound, expired or not. */
  function Bounded(s: seq<Slot>, maxKeys: nat): (r: seq<Slot>)
    ensures |r| <= maxKeys
  {
    if |s| > maxKeys then s[|s| - maxKeys..] else s
  }

  function Hit(s: seq<Slot>, key: string, window: real, now: real, maxKeys: nat): (seq<Slot>, Bucket) {
    var previous := Lookup(s, key);
    var b := Renew(previous, window, now);
    if previous.Some? && previous.value.resetAt > now then (Put(s, key, b), b)
    else (Bounded(Put(s, key, b), maxKeys), b)
  }

  predicate Unique(s: seq<Slot>) {
    forall i, j | 0 <= i < j < |s| :: s[i].key != s[j].key
  }

  lemma PutLookup(s: seq<Slot>, key: string, b: Bucket, other: string)
    requires Unique(s)
    ensures Unique(Put(s, key, b))
    ensures Lookup(Put(s, key, b), other) == if other == key then Some(b) else Lookup(s, other)
  {
    var r, i := Put(s, key, b), Find(s, key);
    if i < 0 {
      forall k | 0 <= k < |s| ensures s[k].key != key { assert s[k] in s; }
    }
    forall k | 0 <= k < |r| ensures r[k].key == (if k == (if i < 0 then |s| else i) then key else s[k].key) {}
    FindAny(r, other);
    FindAny(s, other);
  }

  /** A key's slot, wherever it is. */
  lemma FindAny(s: seq<Slot>, key: string)
    requires Unique(s)
    ensures forall k | 0 <= k < |s| && s[k].key == key :: Find(s, key) == k
    ensures Find(s, key) < 0 ==> forall k | 0 <= k < |s| :: s[k].key != key
  {
    if Find(s, key) < 0 {
      forall k | 0 <= k < |s| ensures s[k].key != key { assert s[k] in s; }
    }
  }

  lemma BoundedLookup(s: seq<Slot>, maxKeys: nat, key: string)
    requires Unique(s)
    ensures Unique(Bounded(s, maxKeys))
    ensures Lookup(Bounded(s, maxKeys), key).Some? ==> Lookup(Bounded(s, maxKeys), key) == Lookup(s, key)
    ensures maxKeys >= 1 && s != [] && s[|s| - 1].key == key ==> Lookup(Bounded(s, maxKeys), key) == Lookup(s, key)
  {
    var r := Bounded(s, maxKeys);
    forall k | 0 <= k < |r| ensures r[k] == s[k + |s| - |r|] {}
    FindAny(r, key);
    FindAny(s, key);
  }

  /** After a hit the store is within its bound, its own key is there with the bucket returned, and every other key is unchanged or gone. */
  lemma HitKeeps(s: seq<Slot>, key: string, window: real, now: real, maxKeys: nat, other: string)
    requires Unique(s) && |s| <= maxKeys && maxKeys >= 1
    ensures var r := Hit(s, key, window, now, maxKeys);
            && Unique(r.0) && |r.0| <= maxKeys
            && Lookup(r.0, key) == Some(r.1) && r.1 == Renew(Lookup(s, key), window, now)
            && (other != key && Lookup(r.0, other).Some? ==> Lookup(r.0, other) == Lookup(s, other))
  {
    var b := Renew(Lookup(s, key), window, now);
    PutLookup(s, key, b, key);
    PutLookup(s, key, b, other);
    BoundedLookup(Put(s, key, b), maxKeys, key);
    BoundedLookup(Put(s, key, b), maxKeys, other);
  }

  // ---------------------------------------------------------------- the store

  class MemoryStore {
    const maxKeys: nat
    var buckets: seq<Slot>

    ghost predicate Valid()
      reads this
    {
      Unique(buckets) && |buckets| <= maxKeys && maxKeys >= 1
    }

    constructor (maxKeys: nat)
      requires maxKeys >= 1
      ensures Valid() && buckets == [] && this.maxKeys == maxKeys
    {
      this.maxKeys, buckets := maxKeys, [];
    }

    /** One hit: count it in the window still open, or open one and make room. */
    method Record(key: string, window: real, now: real) returns (bucket: Bucket)
      requires Valid()
      modifies this
      ensures Valid() && (buckets, bucket) == Hit(old(buckets), key, window, now, maxKeys)
    {
      HitKeeps(buckets, key, window, now, maxKeys, key);
      hide Put, Find, Unique, Bounded;
      var at := Find(buckets, key);
      LookupFind(buckets, key);
      if at >= 0 && buckets[at].bucket.resetAt > now {
        bucket := buckets[at].bucket.(count := buckets[at].bucket.count + 1);
        buckets := Put(buckets, key, bucket);
        return;
      }
      bucket := Bucket(1, now + window);
      buckets := Put(buckets, key, bucket);
      Evict();
    }

    /** Drop the oldest keys, one at a time, down to the bound. */
    method Evict()
      modifies this
      ensures buckets == Bounded(old(buckets), maxKeys)
    {
      ghost var before := buckets;
      if |buckets| > maxKeys {
        var toDrop := |buckets| - maxKeys;
        while toDrop > 0
          invariant 0 <= toDrop <= |before| - maxKeys && buckets == before[|before| - maxKeys - toDrop..]
        {
          buckets := buckets[1..];
          toDrop := toDrop - 1;
        }
      }
    }
  }

  lemma LookupFind(s: seq<Slot>, key: string)
    ensures Lookup(s, key) == if Find(s, key) < 0 then None else Some(s[Find(s, key)].bucket)
  {
  }

  // ---------------------------------------------------------------- one key over a run

  predicate Monotone(times: seq<real>) {
    forall i, j | 0 <= i <= j < |times| :: times[i] <= times[j]
  }

  /** The bucket of a key after its hits, none of them evicted. */
  function BucketAfter(times: seq<real>, window: real): Option<Bucket> {
    if times == [] then None
    else Some(Renew(BucketAfter(times[..|times| - 1], window), window, times[|times| - 1]))
  }

  /** The check: a hit passes while its count is within the limit. */
  predicate Passes(b: Bucket, limit: nat) {
    b.count <= limit
  }

  /** Hits that pass, among those the clock puts in `[from, to)`. */
  function PassedBetween(times: seq<real>, window: real, limit: nat, from: real, to: real): nat {
    if times == [] then 0
    else
      var t := times[|times| - 1];
      PassedBetween(times[..|times| - 1], window, limit, from, to)
      + (if from <= t < to && Passes(BucketAfter(times, window).value, limit) then 1 else 0)
  }

  /** Hits that pass in the window closing at `resetAt`. */
  function PassedIn(times: seq<real>, window: real, limit: nat, resetAt: real): nat {
    if times == [] then 0
    else
      var b := BucketAfter(times, window).value;
      PassedIn(times[..|times| - 1], window, limit, resetAt) + (if b.resetAt == resetAt && Passes(b, limit) then 1 else 0)
  }

  function Least(a: nat, b: nat): nat {
    if a < b then a else b
  }

  lemma MonotoneInit(times: seq<real>)
    requires Monotone(times) && times != []
    ensures Monotone(times[..|times| - 1])
    ensures |times| > 1 ==> times[|times| - 2] <= times[|times| - 1]
  {
  }

  /** A window opened no later than its last hit, and closes after it. */
  lemma {:induction false} WindowHoldsLast(times: seq<real>, window: real)
    requires Monotone(times) && times != [] && window > 0.0
    ensures var b := BucketAfter(times, window).value; b.resetAt - window <= times[|times| - 1] < b.resetAt && b.count >= 1
  {
    var init := times[..|times| - 1];
    MonotoneInit(times);
    if init != [] { WindowHoldsLast(init, window); }
  }

  /** What was counted so far against one window. */
  ghost predicate WindowCount(times: seq<real>, window: real, limit: nat, resetAt: real)
    requires times != []
  {
    var b, n := BucketAfter(times, window).value, PassedIn(times, window, limit, resetAt);
    && (b.resetAt == resetAt ==> n <= Least(b.count, limit))
    && (b.resetAt > resetAt ==> n <= limit)
    && (b.resetAt < resetAt ==> n == 0)
  }

  lemma {:induction false} WindowCounts(times: seq<real>, window: real, limit: nat, resetAt: real)
    requires Monotone(times) && times != [] && window > 0.0
    ensures WindowCount(times, window, limit, resetAt)
  {
    var init := times[..|times| - 1];
    MonotoneInit(times);
    if init != [] {
      WindowCounts(init, window, limit, resetAt);
      WindowHoldsLast(init, window);
    }
  }

  /** No fixed window ever lets more than the limit through. */
  lemma WindowAdmitsLimit(times: seq<real>, window: real, limit: nat, resetAt: real)
    requires Monotone(times) && window > 0.0
    ensures PassedIn(times, window, limit, resetAt) <= limit
  {
    if times != [] { WindowCounts(times, window, limit, resetAt); }
  }

  /** Where the running window stands relative to an interval of one window length, and what it may have let through. */
  ghost predicate IntervalCount(times: seq<real>, window: real, limit: nat, from: real)
    requires times != []
  {
    var b, n := BucketAfter(times, window).value, PassedBetween(times, window, limit, from, from + window);
    var start := b.resetAt - window;
    && (times[|times| - 1] < from ==> n == 0)
    && (start < from ==> n <= Least(b.count, limit))
    && (from <= start < from + window ==> n <= limit + Least(b.count, limit))
    && n <= 2 * limit
  }

  lemma {:induction false} IntervalCounts(times: seq<real>, window: real, limit: nat, from: real)
    requires Monotone(times) && times != [] && window > 0.0
    ensures IntervalCount(times, window, limit, from)
  {
    var init := times[..|times| - 1];
    MonotoneInit(times);
    WindowHoldsLast(times, window);
    if init != [] {
      IntervalCounts(init, window, limit, from);
      WindowHoldsLast(init, window);
    }
  }

  /** Any half-open interval of one window length lets at most twice the limit through. */
  lemma IntervalAdmitsTwice(times: seq<real>, window: real, limit: nat, from: real)
    requires Monotone(times) && window > 0.0
    ensures PassedBetween(times, window, limit, from, from + window) <= 2 * limit
  {
    if times != [] { IntervalCounts(times, window, limit, from); }
  }

  // ---------------------------------------------------------------- what a bucket counts

  /** A hit opens a window exactly if no window opened before it covers it. */
  predicate Opens(times: seq<real>, window: real, i: nat)
    requires i < |times|
    decreases i
  {
    forall j | 0 <= j < i && Opens(times, window, j) :: times[i] >= times[j] + window
  }

  lemma {:induction false} OpensPrefix(times: seq<real>, window: real, i: nat, n: nat)
    requires i < n <= |times|
    ensures Opens(times[..n], window, i) <==> Opens(times, window, i)
    decreases i
  {
    forall j | 0 <= j < i ensures Opens(times[..n], window, j) <==> Opens(times, window, j) { OpensPrefix(times, window, j, n); }
  }

  /** The window running after the last hit: the last one opened. */
  ghost predicate LastOpen(times: seq<real>, window: real, k: nat) {
    k < |times| && Opens(times, window, k) && forall i | k < i < |times| :: !Opens(times, window, i)
  }

  lemma LastOpenNext(times: seq<real>, window: real, before: nat)
    requires Monotone(times) && |times| >= 2 && window > 0.0 && LastOpen(times[..|times| - 1], window, before)
    ensures LastOpen(times, window, if times[before] + window > times[|times| - 1] then before else |times| - 1)
  {
    var n, init := |times|, times[..|times| - 1];
    forall i | 0 <= i < n - 1 ensures Opens(init, window, i) <==> Opens(times, window, i) { OpensPrefix(times, window, i, n - 1); }
    if times[before] + window <= times[n - 1] {
      forall j | 0 <= j < n - 1 && Opens(times, window, j) ensures times[n - 1] >= times[j] + window {
        assert j <= before;
      }
    }
  }

  /** The bucket counts the hits since its window opened, and closes one window length after that. */
  lemma {:induction false} BucketExactly(times: seq<real>, window: real) returns (k: nat)
    requires Monotone(times) && times != [] && window > 0.0
    ensures LastOpen(times, window, k)
    ensures BucketAfter(times, window) == Some(Bucket(|times| - k, times[k] + window))
  {
    if |times| == 1 { return 0; }
    MonotoneInit(times);
    var before := BucketExactly(times[..|times| - 1], window);
    LastOpenNext(times, window, before);
    hide LastOpen;
    k := if times[before] + window > times[|times| - 1] then before else |times| - 1;
  }

  /** Hits the clock puts in `[from, to)`. */
  function HitsBetween(times: seq<real>, from: real, to: real): nat {
    if times == [] then 0
    else HitsBetween(times[..|times| - 1], from, to) + (if from <= times[|times| - 1] < to then 1 else 0)
  }

  lemma {:induction false} NoHitsBefore(times: seq<real>, from: real, to: real)
    requires forall i | 0 <= i < |times| :: times[i] < from
    ensures HitsBetween(times, from, to) == 0
  {
    if times != [] { NoHitsBefore(times[..|times| - 1], from, to); }
  }

  /** Before an opening every hit is earlier than it. */
  lemma EarlierThanOpening(times: seq<real>, window: real, i: nat)
    requires Monotone(times) && window > 0.0 && i < |times| && Opens(times, window, i)
    ensures forall j | 0 <= j < i :: times[j] < times[i]
  {
    if i > 0 {
      var init := times[..i];
      var k := BucketExactly(init, window);
      WindowHoldsLast(init, window);
      OpensPrefix(times, window, k, i);
    }
  }

  /** The count of the running window is the hits the clock puts in it. */
  lemma {:induction false} CountIsHits(times: seq<real>, window: real)
    requires Monotone(times) && times != [] && window > 0.0
    ensures var b := BucketAfter(times, window).value; b.count == HitsBetween(times, b.resetAt - window, b.resetAt)
  {
    var n, init := |times|, times[..|times| - 1];
    var b := BucketAfter(times, window).value;
    var k := BucketExactly(times, window);
    WindowHoldsLast(times, window);
    if k == n - 1 {
      EarlierThanOpening(times, window, k);
      NoHitsBefore(init, times[k], times[k] + window);
    } else {
      CountIsHits(init, window);
      var before := BucketExactly(init, window);
      OpensPrefix(times, window, k, n - 1);
      OpensPrefix(times, window, before, n - 1);
    }
  }

  lemma CurrentOpen(times: seq<real>, window: real, k: nat)
    requires Monotone(times) && times != [] && window > 0.0 && k < |times| && Opens(times, window, k)
    ensures var b := BucketAfter(times, window).value;
            if b.resetAt == times[k] + window then b.count == |times| - k
            else b.resetAt >= times[k] + window + window && times[|times| - 1] >= times[k] + window
  {
    var current := BucketExactly(times, window);
    WindowHoldsLast(times, window);
    assert k <= current;
    if k < current { assert times[current] >= times[k] + window; }
  }

  lemma Snocked(times: seq<real>, window: real, limit: nat, from: real)
    requires times != []
    ensures var init, last, b := times[..|times| - 1], times[|times| - 1], BucketAfter(times, window).value;
            && PassedIn(times, window, limit, from + window)
               == PassedIn(init, window, limit, from + window) + (if b.resetAt == from + window && Passes(b, limit) then 1 else 0)
            && HitsBetween(times, from, from + window) == HitsBetween(init, from, from + window) + (if from <= last < from + window then 1 else 0)
  {
  }

  lemma FreshWindow(times: seq<real>, window: real, limit: nat)
    requires Monotone(times) && window > 0.0 && times != [] && Opens(times, window, |times| - 1)
    ensures var last := times[|times| - 1];
            PassedIn(times, window, limit, last + window) == Least(limit, 1) && HitsBetween(times, last, last + window) == 1
  {
    var k, init := |times| - 1, times[..|times| - 1];
    CurrentOpen(times, window, k);
    WindowHoldsLast(times, window);
    EarlierThanOpening(times, window, k);
    hide Opens, BucketAfter;
    NoHitsBefore(init, times[k], times[k] + window);
    NothingPassedYet(init, window, limit, times[k]);
    Snocked(times, window, limit, times[k]);
  }

  /** Every window lets exactly the smaller of the limit and its hits through. */
  lemma {:induction false} WindowPassesExactly(times: seq<real>, window: real, limit: nat, k: nat)
    requires Monotone(times) && window > 0.0 && k < |times| && Opens(times, window, k)
    ensures PassedIn(times, window, limit, times[k] + window) == Least(limit, HitsBetween(times, times[k], times[k] + window))
  {
    if k == |times| - 1 {
      FreshWindow(times, window, limit);
    } else {
      var init := times[..|times| - 1];
      CurrentOpen(times, window, k);
      CountIsHits(times, window);
      WindowHoldsLast(times, window);
      MonotoneInit(times);
      OpensPrefix(times, window, k, |times| - 1);
      hide Opens, BucketAfter, PassedIn, HitsBetween;
      Snocked(times, window, limit, times[k]);
      WindowPassesExactly(init, window, limit, k);
    }
  }

  lemma NothingPassedYet(times: seq<real>, window: real, limit: nat, from: real)
    requires Monotone(times) && window > 0.0 && forall i | 0 <= i < |times| :: times[i] < from
    ensures PassedIn(times, window, limit, from + window) == 0
  {
    if times != [] {
      WindowCounts(times, window, limit, from + window);
      WindowHoldsLast(times, window);
    }
  }

  // ---------------------------------------------------------------- many keys

  datatype Touch = Touch(key: string, now: real)

  function StoreAfter(touches: seq<Touch>, window: real, maxKeys: nat): seq<Slot> {
    if touches == [] then []
    else
      var last := touches[|touches| - 1];
      Hit(StoreAfter(touches[..|touches| - 1], window, maxKeys), last.key, window, last.now, maxKeys).0
  }

  function TimesOf(touches: seq<Touch>, key: string): seq<real> {
    if touches == [] then []
    else
      var last := touches[|touches| - 1];
      TimesOf(touches[..|touches| - 1], key) + (if last.key == key then [last.now] else [])
  }

  /** Once hit, the key is found after every later touch. */
  predicate NeverEvicted(touches: seq<Touch>, key: string, window: real, maxKeys: nat) {
    touches == [] ||
    (&& NeverEvicted(touches[..|touches| - 1], key, window, maxKeys)
     && (TimesOf(touches, key) != [] ==> Lookup(StoreAfter(touches, window, maxKeys), key).Some?))
  }

  /** A key that is never evicted counts as if it were alone, and the store stays within its bound. */
  lemma {:induction false} KeysDoNotInterfere(touches: seq<Touch>, key: string, window: real, maxKeys: nat)
    requires maxKeys >= 1
    ensures Unique(StoreAfter(touches, window, maxKeys)) && |StoreAfter(touches, window, maxKeys)| <= maxKeys
    ensures NeverEvicted(touches, key, window, maxKeys) ==>
              Lookup(StoreAfter(touches, window, maxKeys), key) == BucketAfter(TimesOf(touches, key), window)
  {
    if touches != [] {
      var init, last := touches[..|touches| - 1], touches[|touches| - 1];
      KeysDoNotInterfere(init, key, window, maxKeys);
      var s := StoreAfter(init, window, maxKeys);
      HitKeeps(s, last.key, window, last.now, maxKeys, key);
      var times := TimesOf(touches, key);
      if last.key == key {
        assert times[..|times| - 1] == TimesOf(init, key);
      } else {
        assert times == TimesOf(init, key);
        if Lookup(s, key).None? { AbsentStays(s, last.key, window, last.now, maxKeys, key); }
      }
    }
  }

  lemma AbsentStays(s: seq<Slot>, key: string, window: real, now: real, maxKeys: nat, other: string)
    requires Unique(s) && |s| <= maxKeys && maxKeys >= 1 && other != key && Lookup(s, other).None?
    ensures Lookup(Hit(s, key, window, now, maxKeys).0, other).None?
  {
    HitKeeps(s, key, window, now, maxKeys, other);
  }

  // ---------------------------------------------------------------- what the store lets through

  /** The bucket the store answers the last touch with. */
  function Answered(touches: seq<Touch>, window: real, maxKeys: nat): Bucket
    requires touches != []
  {
    var last := touches[|touches| - 1];
    Hit(StoreAfter(touches[..|touches| - 1], window, maxKeys), last.key, window, last.now, maxKeys).1
  }

  /** Touches of one key that the store lets pass, among those in `[from, to)`. */
  function AdmittedBetween(touches: seq<Touch>, key: string, window: real, limit: nat, maxKeys: nat, from: real, to: real): nat {
    if touches == [] then 0
    else
      var last := touches[|touches| - 1];
      AdmittedBetween(touches[..|touches| - 1], key, window, limit, maxKeys, from, to)
      + (if last.key == key && from <= last.now < to && Passes(Answered(touches, window, maxKeys), limit) then 1 else 0)
  }

  /** Touches of one key that the store lets pass in the window closing at `resetAt`. */
  function AdmittedIn(touches: seq<Touch>, key: string, window: real, limit: nat, maxKeys: nat, resetAt: real): nat {
    if touches == [] then 0
    else
      var last, b := touches[|touches| - 1], Answered(touches, window, maxKeys);
      AdmittedIn(touches[..|touches| - 1], key, window, limit, maxKeys, resetAt)
      + (if last.key == key && b.resetAt == resetAt && Passes(b, limit) then 1 else 0)
  }

  lemma TimesSnoc(touches: seq<Touch>, key: string)
    requires touches != [] && touches[|touches| - 1].key == key
    ensures var times := TimesOf(touches, key);
            times != [] && times[|times| - 1] == touches[|touches| - 1].now && times[..|times| - 1] == TimesOf(touches[..|touches| - 1], key)
  {
  }

  /** The store answers a key it never evicted as if the key were alone. */
  lemma AnsweredAlone(touches: seq<Touch>, key: string, window: real, maxKeys: nat)
    requires maxKeys >= 1 && touches != [] && touches[|touches| - 1].key == key
    requires NeverEvicted(touches[..|touches| - 1], key, window, maxKeys)
    ensures Some(Answered(touches, window, maxKeys)) == BucketAfter(TimesOf(touches, key), window)
  {
    var init, last := touches[..|touches| - 1], touches[|touches| - 1];
    TimesSnoc(touches, key);
    KeysDoNotInterfere(init, key, window, maxKeys);
    HitKeeps(StoreAfter(init, window, maxKeys), key, window, last.now, maxKeys, key);
  }

  lemma {:induction false} AdmittedAlone(touches: seq<Touch>, key: string, window: real, limit: nat, maxKeys: nat, from: real, to: real, resetAt: real)
    requires maxKeys >= 1 && NeverEvicted(touches, key, window, maxKeys)
    ensures AdmittedBetween(touches, key, window, limit, maxKeys, from, to) == PassedBetween(TimesOf(touches, key), window, limit, from, to)
    ensures AdmittedIn(touches, key, window, limit, maxKeys, resetAt) == PassedIn(TimesOf(touches, key), window, limit, resetAt)
  {
    hide Answered, StoreAfter, BucketAfter, Passes;
    if touches != [] {
      var init, last := touches[..|touches| - 1], touches[|touches| - 1];
      AdmittedAlone(init, key, window, limit, maxKeys, from, to, resetAt);
      if last.key == key {
        TimesSnoc(touches, key);
        AnsweredAlone(touches, key, window, maxKeys);
      } else {
        assert TimesOf(touches, key) == TimesOf(init, key);
      }
    }
  }

  predicate Forward(touches: seq<Touch>) {
    forall i, j | 0 <= i <= j < |touches| :: touches[i].now <= touches[j].now
  }

  lemma {:induction false} TimesForward(touches: seq<Touch>, key: string)
    requires Forward(touches)
    ensures Monotone(TimesOf(touches, key))
    ensures forall t | t in TimesOf(touches, key) :: t <= touches[|touches| - 1].now
    ensures touches == [] ==> TimesOf(touches, key) == []
  {
    if touches != [] {
      var init, last := touches[..|touches| - 1], touches[|touches| - 1];
      TimesForward(init, key);
      var before := TimesOf(init, key);
      forall t | t in before ensures t <= last.now { assert init != [] && init[|init| - 1] == touches[|touches| - 2]; }
      forall i | 0 <= i < |before| ensures before[i] <= last.now { assert before[i] in before; }
    }
  }

  /** Over any run of the store, a key that is never evicted passes at most `limit` times a window and twice that in any window's length. */
  lemma StoreAdmitsLimit(touches: seq<Touch>, key: string, window: real, limit: nat, maxKeys: nat, from: real, resetAt: real)
    requires maxKeys >= 1 && window > 0.0 && Forward(touches)
    requires NeverEvicted(touches, key, window, maxKeys)
    ensures AdmittedIn(touches, key, window, limit, maxKeys, resetAt) <= limit
    ensures AdmittedBetween(touches, key, window, limit, maxKeys, from, from + window) <= 2 * limit
  {
    hide AdmittedIn, AdmittedBetween, NeverEvicted, PassedIn, PassedBetween, TimesOf;
    AdmittedAlone(touches, key, window, limit, maxKeys, from, from + window, resetAt);
    TimesForward(touches, key);
    WindowAdmitsLimit(TimesOf(touches, key), window, limit, resetAt);
    IntervalAdmitsTwice(TimesOf(touches, key), window, limit, from);
  }

  /** Over any run of the store, each window of a key that is never evicted lets exactly the smaller of the limit and its hits through. */
  lemma StorePassesExactly(touches: seq<Touch>, key: string, window: real, limit: nat, maxKeys: nat, k: nat)
    requires maxKeys >= 1 && window > 0.0 && Forward(touches) && NeverEvicted(touches, key, window, maxKeys)
    requires k < |TimesOf(touches, key)| && Opens(TimesOf(touches, key), window, k)
    ensures var times := TimesOf(touches, key);
            AdmittedIn(touches, key, window, limit, maxKeys, times[k] + window) == Least(limit, HitsBetween(times, times[k], times[k] + window))
  {
    hide AdmittedIn, AdmittedBetween, NeverEvicted, PassedIn, PassedBetween, TimesOf, Opens, HitsBetween;
    var times := TimesOf(touches, key);
    AdmittedAlone(touches, key, window, limit, maxKeys, 0.0, 0.0, times[k] + window);
    TimesForward(touches, key);
    WindowPassesExactly(times, window, limit, k);
  }

  /** The bucket the store answers such a key with counts its hits since a window opened that nothing earlier covers. */
  lemma AnswersExactly(touches: seq<Touch>, window: real, maxKeys: nat) returns (k: nat)
    requires maxKeys >= 1 && window > 0.0 && Forward(touches) && touches != []
    requires NeverEvicted(touches[..|touches| - 1], touches[|touches| - 1].key, window, maxKeys)
    ensures var times := TimesOf(touches, touches[|touches| - 1].key);
            LastOpen(times, window, k) && Answered(touches, window, maxKeys) == Bucket(|times| - k, times[k] + window)
  {
    var key := touches[|touches| - 1].key;
    AnsweredAlone(touches, key, window, maxKeys);
    TimesForward(touches, key);
    TimesSnoc(touches, key);
    hide TimesOf, NeverEvicted, Answered;
    k := BucketExactly(TimesOf(touches, key), window);
  }

  function KeysOf(touches: seq<Touch>): set<string> {
    set t | t in touches :: t.key
  }

  /** As long as no more keys than the bound have come by, the store holds exactly those. */
  lemma {:induction false} FewKeysStay(touches: seq<Touch>, key: string, window: real, maxKeys: nat)
    requires |KeysOf(touches)| <= maxKeys && maxKeys >= 1
    ensures NeverEvicted(touches, key, window, maxKeys)
    ensures |StoreAfter(touches, window, maxKeys)| == |KeysOf(touches)|
    ensures forall k :: Lookup(StoreAfter(touches, window, maxKeys), k).Some? <==> k in KeysOf(touches)
  {
    if touches != [] {
      var init, last := touches[..|touches| - 1], touches[|touches| - 1];
      assert touches == init + [last];
      assert KeysOf(touches) == KeysOf(init) + {last.key};
      CardinalityGrows(KeysOf(init), last.key);
      FewKeysStay(init, key, window, maxKeys);
      KeysDoNotInterfere(init, key, window, maxKeys);
      RoomForOne(StoreAfter(init, window, maxKeys), KeysOf(init), last, window, maxKeys);
      TimesAreKeys(touches, key);
    }
  }

  /** A hit with room for its key keeps every key and adds its own. */
  lemma RoomForOne(s: seq<Slot>, keys: set<string>, t: Touch, window: real, maxKeys: nat)
    requires Unique(s) && |s| == |keys| && |keys + {t.key}| <= maxKeys
    requires forall k :: Lookup(s, k).Some? <==> k in keys
    ensures var r := Hit(s, t.key, window, t.now, maxKeys).0;
            |r| == |keys + {t.key}| && forall k :: Lookup(r, k).Some? <==> k in keys + {t.key}
  {
    var b := Renew(Lookup(s, t.key), window, t.now);
    CardinalityGrows(keys, t.key);
    assert |Put(s, t.key, b)| == |keys + {t.key}|;
    hide Put, Unique, Find, Renew;
    forall k ensures Lookup(Put(s, t.key, b), k).Some? <==> k in keys + {t.key} { PutLookup(s, t.key, b, k); }
  }

  lemma CardinalityGrows(s: set<string>, x: string)
    ensures |s + {x}| == if x in s then |s| else |s| + 1
  {
    if x in s { assert s + {x} == s; }
  }

  lemma {:induction false} TimesAreKeys(touches: seq<Touch>, key: string)
    ensures TimesOf(touches, key) != [] ==> key in KeysOf(touches)
  {
    if touches != [] {
      var init, last := touches[..|touches| - 1], touches[|touches| - 1];
      assert touches == init + [last];
      TimesAreKeys(init, key);
      assert last in touches;
    }
  }

  // ---------------------------------------------------------------- what eviction costs

  const FIRST := ""

  function OtherKey(i: nat): (key: string)
    ensures |key| == i + 1
  {
    seq(i + 1, _ => 'k')
  }

  /** Touches of one key, then of other keys one after the other, all at the same time. */
  function Repeats(n: nat): (r: seq<Touch>)
    ensures |r| == n && forall t | t in r :: t == Touch(FIRST, 0.0)
  {
    seq(n, _ => Touch(FIRST, 0.0))
  }

  function Others(m: nat): (r: seq<Touch>)
    ensures |r| == m && forall i | 0 <= i < m :: r[i] == Touch(OtherKey(i), 0.0)
  {
    seq(m, i requires 0 <= i < m => Touch(OtherKey(i), 0.0))
  }

  function OtherSlots(m: nat, window: real): (s: seq<Slot>)
    ensures |s| == m && forall i | 0 <= i < m :: s[i] == Slot(OtherKey(i), Bucket(1, window))
  {
    seq(m, i requires 0 <= i < m => Slot(OtherKey(i), Bucket(1, window)))
  }

  function Flood(limit: nat, maxKeys: nat): seq<Touch> {
    Repeats(limit) + Others(maxKeys) + [Touch(FIRST, 0.0)]
  }

  lemma Snoc(touches: seq<Touch>, t: Touch, window: real, limit: nat, maxKeys: nat, resetAt: real)
    ensures var hit := Hit(StoreAfter(touches, window, maxKeys), t.key, window, t.now, maxKeys);
            && StoreAfter(touches + [t], window, maxKeys) == hit.0
            && AdmittedIn(touches + [t], FIRST, window, limit, maxKeys, resetAt)
               == AdmittedIn(touches, FIRST, window, limit, maxKeys, resetAt)
                  + (if t.key == FIRST && hit.1.resetAt == resetAt && Passes(hit.1, limit) then 1 else 0)
  {
    var all := touches + [t];
    assert all[..|all| - 1] == touches;
  }

  lemma FreshHit(s: seq<Slot>, key: string, window: real, maxKeys: nat)
    requires forall i | 0 <= i < |s| :: s[i].key != key
    ensures Hit(s, key, window, 0.0, maxKeys) == (Bounded(s + [Slot(key, Bucket(1, window))], maxKeys), Bucket(1, window))
  {
    assert Find(s, key) == -1;
  }

  lemma LiveHit(n: nat, window: real, maxKeys: nat)
    requires window > 0.0
    ensures Hit([Slot(FIRST, Bucket(n, window))], FIRST, window, 0.0, maxKeys)
         == ([Slot(FIRST, Bucket(n + 1, window))], Bucket(n + 1, window))
  {
    var s := [Slot(FIRST, Bucket(n, window))];
    assert Find(s, FIRST) == 0 && s[0 := Slot(FIRST, Bucket(n + 1, window))] == [Slot(FIRST, Bucket(n + 1, window))];
  }

  lemma {:induction false} RepeatsCount(n: nat, window: real, limit: nat, maxKeys: nat)
    requires 1 <= n <= limit && maxKeys >= 1 && window > 0.0
    ensures StoreAfter(Repeats(n), window, maxKeys) == [Slot(FIRST, Bucket(n, window))]
    ensures AdmittedIn(Repeats(n), FIRST, window, limit, maxKeys, window) == n
  {
    hide Hit, StoreAfter, AdmittedIn;
    assert Repeats(n) == Repeats(n - 1) + [Touch(FIRST, 0.0)];
    Snoc(Repeats(n - 1), Touch(FIRST, 0.0), window, limit, maxKeys, window);
    if n == 1 {
      NothingYet(window, limit, maxKeys);
      FreshHit([], FIRST, window, maxKeys);
      assert [] + [Slot(FIRST, Bucket(1, window))] == [Slot(FIRST, Bucket(1, window))];
    } else {
      RepeatsCount(n - 1, window, limit, maxKeys);
      LiveHit(n - 1, window, maxKeys);
    }
  }

  lemma NothingYet(window: real, limit: nat, maxKeys: nat)
    ensures Repeats(0) == [] && StoreAfter(Repeats(0), window, maxKeys) == []
    ensures AdmittedIn(Repeats(0), FIRST, window, limit, maxKeys, window) == 0
  {
  }

  /** The store while the other keys come by: the first key stays until they fill it. */
  function Flooded(m: nat, limit: nat, window: real, maxKeys: nat): (s: seq<Slot>) {
    (if m < maxKeys then [Slot(FIRST, Bucket(limit, window))] else []) + OtherSlots(m, window)
  }

  lemma FloodedStep(m: nat, limit: nat, window: real, maxKeys: nat)
    requires m < maxKeys
    ensures Hit(Flooded(m, limit, window, maxKeys), OtherKey(m), window, 0.0, maxKeys).0 == Flooded(m + 1, limit, window, maxKeys)
  {
    hide Hit;
    var s := Flooded(m, limit, window, maxKeys);
    FreshHit(s, OtherKey(m), window, maxKeys);
    assert OtherSlots(m, window) + [Slot(OtherKey(m), Bucket(1, window))] == OtherSlots(m + 1, window);
  }

  lemma {:induction false} OthersPass(m: nat, window: real, limit: nat, maxKeys: nat)
    requires m <= maxKeys && maxKeys >= 1 && limit >= 1 && window > 0.0
    ensures StoreAfter(Repeats(limit) + Others(m), window, maxKeys) == Flooded(m, limit, window, maxKeys)
    ensures AdmittedIn(Repeats(limit) + Others(m), FIRST, window, limit, maxKeys, window) == limit
  {
    hide Hit, StoreAfter, AdmittedIn;
    if m == 0 {
      assert Repeats(limit) + Others(0) == Repeats(limit);
      RepeatsCount(limit, window, limit, maxKeys);
      assert Flooded(0, limit, window, maxKeys) == [Slot(FIRST, Bucket(limit, window))];
    } else {
      var before, t := Repeats(limit) + Others(m - 1), Touch(OtherKey(m - 1), 0.0);
      assert Repeats(limit) + Others(m) == before + [t];
      OthersPass(m - 1, window, limit, maxKeys);
      Snoc(before, t, window, limit, maxKeys, window);
      FloodedStep(m - 1, limit, window, maxKeys);
    }
  }

  /** A key that was evicted starts over: after as many other keys as the store holds, it passes once more in the same window. */
  lemma EvictionForgets(window: real, limit: nat, maxKeys: nat)
    requires maxKeys >= 1 && limit >= 1 && window > 0.0
    ensures AdmittedIn(Flood(limit, maxKeys), FIRST, window, limit, maxKeys, window) == limit + 1
    ensures Forward(Flood(limit, maxKeys)) && |KeysOf(Flood(limit, maxKeys))| <= maxKeys + 1
  {
    hide Hit, StoreAfter, AdmittedIn;
    var before, t := Repeats(limit) + Others(maxKeys), Touch(FIRST, 0.0);
    OthersPass(maxKeys, window, limit, maxKeys);
    Snoc(before, t, window, limit, maxKeys, window);
    FreshHit(Flooded(maxKeys, limit, window, maxKeys), FIRST, window, maxKeys);
    forall i | 0 <= i < |before + [t]| ensures (before + [t])[i].now == 0.0 {}
    FloodKeys(limit, maxKeys);
  }

  lemma FloodKeys(limit: nat, maxKeys: nat)
    ensures |KeysOf(Flood(limit, maxKeys))| <= maxKeys + 1
  {
    OtherKeysCount(maxKeys);
    var others := KeysOf(Others(maxKeys));
    CardinalityGrows(others, FIRST);
    assert KeysOf(Flood(limit, maxKeys)) == others + {FIRST} by {
      var all := Flood(limit, maxKeys);
      assert all[|all| - 1] == Touch(FIRST, 0.0);
      forall t ensures t in all <==> t in Repeats(limit) || t in Others(maxKeys) || t == Touch(FIRST, 0.0) {}
    }
  }

  lemma {:induction false} OtherKeysCount(m: nat)
    ensures |KeysOf(Others(m))| <= m
  {
    if m == 0 {
      assert KeysOf(Others(0)) == {};
    } else {
      OtherKeysCount(m - 1);
      assert Others(m) == Others(m - 1) + [Touch(OtherKey(m - 1), 0.0)];
      assert KeysOf(Others(m)) == KeysOf(Others(m - 1)) + {OtherKey(m - 1)};
      CardinalityGrows(KeysOf(Others(m - 1)), OtherKey(m - 1));
    }
  }

  /** Over all runs with at most `n` distinct keys and a forward clock the limit holds for every key and window, if and only if the store has room for `n` keys. */
  lemma LimitHoldsExactly(n: nat, window: real, limit: nat, maxKeys: nat)
    requires maxKeys >= 1 && limit >= 1 && window > 0.0
    ensures (forall touches, key, resetAt | Forward(touches) && |KeysOf(touches)| <= n ::
               AdmittedIn(touches, key, window, limit, maxKeys, resetAt) <= limit)
       <==> n <= maxKeys
  {
    hide AdmittedIn, NeverEvicted, Forward, KeysOf, Flood;
    if n <= maxKeys {
      forall touches, key, resetAt | Forward(touches) && |KeysOf(touches)| <= n
        ensures AdmittedIn(touches, key, window, limit, maxKeys, resetAt) <= limit
      {
        FewKeysStay(touches, key, window, maxKeys);
        StoreAdmitsLimit(touches, key, window, limit, maxKeys, 0.0, resetAt);
      }
    } else {
      EvictionForgets(window, limit, maxKeys);
    }
  }
}
