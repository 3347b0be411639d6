/**
 The lifecycle on values: one counter, one queue, the drain waiters, and what each
 synchronous section does to them.
 */
module LifecycleSpec {
  import opened Wrappers

  /** Requests are numbered in arrival order. */
  type Ticket = nat

  /** A drain-completion callback. */
  type Callback = nat

  datatype Reason = Draining | Concurrency | Queueing

  datatype Reply = Admitted | Refused(reason: Reason)

  /** The built-in strategies, or one supplied by the application. */
  datatype Strategy = FailFast | Fifo | Custom

  /** No limit is `None`. */
  datatype Overload = Overload(maxConcurrency: Option<nat>, maxQueue: nat, queueTimeoutMs: nat, strategy: Strategy) {
    /** What option normalization guarantees. */
    predicate Normalized() {
      && (maxConcurrency.Some? ==> maxConcurrency.value > 0)
      && (maxQueue > 0 ==> maxConcurrency.Some?)
      && queueTimeoutMs > 0
      && (strategy.Fifo? ==> maxQueue > 0)
    }
  }

  datatype State = State(
    draining: bool,
    inFlight: int,
    queue: seq<Ticket>,
    closeWaiters: seq<Callback>,
    /** Who holds a slot. */
    holders: set<Ticket>,
    /** How each queued request was answered, oldest first. */
    replies: seq<(Ticket, Reply)>,
    /** Callbacks that ran, with the counter they saw. */
    fired: seq<(Callback, int)>)

  const INITIAL := State(false, 0, [], [], {}, [], [])

  predicate Below(o: Option<Overload>, inFlight: int) {
    o.None? || o.value.maxConcurrency.None? || inFlight < o.value.maxConcurrency.value
  }

  // ---------------------------------------------------------------- taking and giving back slots

  function Take(s: State, t: Ticket): State {
    s.(inFlight := s.inFlight + 1, holders := s.holders + {t})
  }

  /** The head of the queue takes a freed slot and is answered. */
  function Transfer(s: State): State
    requires s.queue != []
  {
    var t := s.queue[0];
    Take(s, t).(queue := s.queue[1..], replies := s.replies + [(t, Admitted)])
  }

  function Refill(o: Option<Overload>, s: State): (r: State)
    ensures |r.queue| <= |s.queue|
    decreases |s.queue|
  {
    if o.Some? && s.queue != [] && Below(o, s.inFlight) then Refill(o, Transfer(s)) else s
  }

  function Stamped(waiters: seq<Callback>, inFlight: int): (r: seq<(Callback, int)>)
    ensures |r| == |waiters| && forall i | 0 <= i < |r| :: r[i] == (waiters[i], inFlight)
  {
    seq(|waiters|, i requires 0 <= i < |waiters| => (waiters[i], inFlight))
  }

  function Wake(s: State): State {
    s.(closeWaiters := [], fired := s.fired + Stamped(s.closeWaiters, s.inFlight))
  }

  function WakeAtZero(s: State): State {
    if s.inFlight == 0 && s.closeWaiters != [] then Wake(s) else s
  }

  function GiveBack(s: State, t: Ticket): State {
    s.(inFlight := s.inFlight - 1, holders := s.holders - {t})
  }

  /** Decrement, hand the slot on, wake the drain waiters at zero. */
  function Release(o: Option<Overload>, s: State, t: Ticket): State {
    WakeAtZero(Refill(o, GiveBack(s, t)))
  }

  // ---------------------------------------------------------------- arrival

  /** How an arriving request leaves the gate. */
  datatype Gate = Now(reply: Reply) | Waiting

  /** Saturated under a built-in strategy. */
  function Saturated(o: Overload, s: State, t: Ticket, aborted: bool): (State, Gate) {
    if o.strategy.FailFast? || |s.queue| >= o.maxQueue then (s, Now(Refused(Concurrency)))
    else if aborted then (s.(replies := s.replies + [(t, Refused(Queueing))]), Now(Refused(Queueing)))
    else (s.(queue := s.queue + [t]), Waiting)
  }

  function Arrive(o: Option<Overload>, s: State, t: Ticket, aborted: bool): (State, Gate) {
    if s.draining then (s, Now(Refused(Draining)))
    else if Below(o, s.inFlight) then (Take(s, t), Now(Admitted))
    else Saturated(o.value, s, t, aborted)
  }

  // ---------------------------------------------------------------- a strategy's decision

  /** What an injected strategy may come back with, at once or later. */
  datatype Decision = NullNow | ResponseNow | GarbageNow | Throws | Later

  datatype Outcome = WakesNull | WakesResponse | WakesGarbage | Rejects

  /** How a decided admission ends. */
  datatype Verdict = Served | TurnedAway | Undecided

  /** The strategy's `admit` for one call, whose once-flag is `taken`. */
  function AdmitCall(s: State, t: Ticket, taken: bool): State {
    if taken then s else Take(s, t)
  }

  /** A refusal gives back what the strategy took. */
  function RefuseCall(o: Option<Overload>, s: State, t: Ticket, taken: bool): (State, bool, Verdict) {
    (if taken then Release(o, s, t) else s, false, TurnedAway)
  }

  function DecideCall(o: Option<Overload>, s: State, t: Ticket, taken: bool, decision: Decision): (State, bool, Verdict) {
    match decision
    case NullNow => (AdmitCall(s, t, taken), true, Served)
    case Later => (s, taken, Undecided)
    case _ => RefuseCall(o, s, t, taken)
  }

  function ResolveCall(o: Option<Overload>, s: State, t: Ticket, taken: bool, outcome: Outcome): (State, bool, Verdict) {
    if !outcome.WakesNull? then RefuseCall(o, s, t, taken)
    else if taken then (s, true, Served)
    else if s.draining || !Below(o, s.inFlight) then (s, false, TurnedAway)
    else (Take(s, t), true, Served)
  }

  // ---------------------------------------------------------------- leaving the queue, draining

  function Without(q: seq<Ticket>, t: Ticket): (r: seq<Ticket>)
    ensures t !in q ==> r == q
    ensures forall u | u in r :: u in q
    ensures |r| <= |q| && (t in q ==> |r| < |q|)
  {
    if q == [] then []
    else if q[0] == t then q[1..]
    else [q[0]] + Without(q[1..], t)
  }

  function Leave(s: State, t: Ticket, reason: Reason): State {
    s.(queue := Without(s.queue, t), replies := s.replies + [(t, Refused(reason))])
  }

  function Dropped(q: seq<Ticket>, reason: Reason): (r: seq<(Ticket, Reply)>)
    ensures |r| == |q| && forall i | 0 <= i < |r| :: r[i] == (q[i], Refused(reason))
  {
    seq(|q|, i requires 0 <= i < |q| => (q[i], Refused(reason)))
  }

  function StartDraining(s: State): State {
    s.(draining := true, queue := [], replies := s.replies + Dropped(s.queue, Draining))
  }

  /** A callback for "the counter reached zero"; true when it has already. */
  function Subscribe(s: State, callback: Callback): (State, bool) {
    if s.inFlight == 0 then (s, true) else (s.(closeWaiters := s.closeWaiters + [callback]), false)
  }

  // ---------------------------------------------------------------- closing, in embedded mode

  /** How long a close waits. */
  datatype Drain = Zero | Bounded | Forever

  /** A close: waiting on the counter, decided, or its promise resolved with the status. */
  datatype Close =
    | Running
    | Awaiting(timed: bool)
    | Decided(timedOut: bool)
    | Forced
    | Resolved(timedOut: bool, inFlight: int)

  const SETTLED_CALLBACK: Callback := 0

  /** The drain callback of a waiting close ran. */
  function Heard(close: Close, before: State, after: State): Close {
    if close.Awaiting? && |after.fired| > |before.fired| then Decided(false) else close
  }

  /** The first close drains; a repeat with drain 0 escalates one that is still waiting. */
  function CloseCore(s: State, close: Close, drain: Drain): (State, Close) {
    if !close.Running? then (s, if drain.Zero? && close.Awaiting? then Decided(true) else close)
    else if drain.Zero? then (StartDraining(s), Forced)
    else
      var r := Subscribe(StartDraining(s), SETTLED_CALLBACK);
      (r.0, if r.1 then Decided(false) else Awaiting(drain.Bounded?))
  }

  /** The status a decided close resolves with. */
  function Status(s: State, close: Close): Close
    requires close.Decided? || close.Forced?
  {
    Resolved(if close.Decided? then close.timedOut else s.inFlight > 0, s.inFlight)
  }

  // ---------------------------------------------------------------- settling

  /** What settling needs to know of a response body. */
  datatype Body = NoBody | Readable | Locked

  /** While draining, a readable body keeps the slot until its consumer finishes; anything else gives it back. */
  function Settle(o: Option<Overload>, s: State, t: Ticket, body: Body): (State, bool) {
    if s.draining && body.Readable? then (s, true) else (Release(o, s, t), false)
  }

  /** The shortcut an app without overload options settles through. */
  function SettleUncapped(s: State, t: Ticket, body: Body): (State, bool) {
    if s.draining then Settle(None, s, t, body) else (GiveBack(s, t), false)
  }

  // ---------------------------------------------------------------- what every step keeps

  predicate Distinct<T(==)>(s: seq<T>) {
    forall i, j | 0 <= i < j < |s| :: s[i] != s[j]
  }

  /** Built-in strategies: the counter is the holders, within the cap; a waiting queue means every slot is taken. */
  ghost predicate Inv(o: Option<Overload>, s: State) {
    && (o.Some? ==> o.value.Normalized() && !o.value.strategy.Custom?)
    && s.inFlight == |s.holders|
    && (o.Some? && o.value.maxConcurrency.Some? ==> s.inFlight <= o.value.maxConcurrency.value)
    && (s.queue != [] ==> o.Some? && !Below(o, s.inFlight) && |s.queue| <= o.value.maxQueue && !s.draining)
    && Increasing(s.queue)
    && (forall t | t in s.queue :: t !in s.holders)
    && (s.closeWaiters != [] ==> s.draining && s.inFlight > 0)
    && (forall i | 0 <= i < |s.fired| :: s.fired[i].1 == 0)
  }

  predicate Increasing(q: seq<Ticket>) {
    forall i, j | 0 <= i < j < |q| :: q[i] < q[j]
  }

  lemma IncreasingCons(x: Ticket, q: seq<Ticket>)
    requires Increasing(q) && forall u | u in q :: x < u
    ensures Increasing([x] + q)
  {
    var r := [x] + q;
    forall i, j | 0 <= i < j < |r| ensures r[i] < r[j] { assert r[j] == q[j - 1] && q[j - 1] in q; }
  }

  lemma IncreasingSnoc(q: seq<Ticket>, x: Ticket)
    requires Increasing(q) && forall u | u in q :: u < x
    ensures Increasing(q + [x])
  {
    var r := q + [x];
    forall i, j | 0 <= i < j < |r| ensures r[i] < r[j] { assert r[i] == q[i] && q[i] in q; }
  }

  lemma IncreasingTail(q: seq<Ticket>)
    requires Increasing(q) && q != []
    ensures Increasing(q[1..]) && forall u | u in q[1..] :: q[0] < u
  {
  }

  lemma {:induction false} WithoutKeeps(q: seq<Ticket>, t: Ticket)
    requires Increasing(q)
    ensures Increasing(Without(q, t)) && t !in Without(q, t)
    ensures forall u | u in q && u != t :: u in Without(q, t)
  {
    if q != [] {
      IncreasingTail(q);
      if q[0] != t {
        WithoutKeeps(q[1..], t);
        IncreasingCons(q[0], Without(q[1..], t));
      }
    }
  }

  /** All of the invariant but the saturation of a waiting queue: the state between a release and its refill. */
  ghost predicate Unfilled(o: Option<Overload>, s: State) {
    && (o.Some? ==> o.value.Normalized() && !o.value.strategy.Custom?)
    && s.inFlight == |s.holders|
    && (o.Some? && o.value.maxConcurrency.Some? ==> s.inFlight <= o.value.maxConcurrency.value)
    && (s.queue != [] ==> o.Some? && |s.queue| <= o.value.maxQueue && !s.draining)
    && Increasing(s.queue)
    && (forall t | t in s.queue :: t !in s.holders)
    && (s.closeWaiters != [] ==> s.draining)
    && (forall i | 0 <= i < |s.fired| :: s.fired[i].1 == 0)
  }

  lemma TransferKeeps(o: Option<Overload>, s: State)
    requires Unfilled(o, s) && o.Some? && s.queue != [] && Below(o, s.inFlight)
    ensures Unfilled(o, Transfer(s))
  {
    assert s.queue[0] in s.queue;
    IncreasingTail(s.queue);
    forall t | t in s.queue[1..] ensures t in s.queue && t != s.queue[0] {}
  }

  /** The refill ends with the queue empty or every slot taken. */
  lemma {:induction false} RefillFills(o: Option<Overload>, s: State)
    requires Unfilled(o, s)
    ensures Unfilled(o, Refill(o, s))
    ensures o.Some? && Refill(o, s).queue != [] ==> !Below(o, Refill(o, s).inFlight)
    decreases |s.queue|
  {
    hide Unfilled;
    if o.Some? && s.queue != [] && Below(o, s.inFlight) {
      TransferKeeps(o, s);
      RefillFills(o, Transfer(s));
    }
  }

  /** It admits from the head only, in order. */
  lemma {:induction false} RefillShape(o: Option<Overload>, s: State)
    ensures Refill(o, s) == Refilled(s, |s.queue| - |Refill(o, s).queue|)
    decreases |s.queue|
  {
    hide Refilled;
    if o.Some? && s.queue != [] && Below(o, s.inFlight) {
      RefillShape(o, Transfer(s));
      RefilledStep(s, |s.queue| - 1 - |Refill(o, s).queue|);
    } else {
      RefilledNone(s);
    }
  }

  /** So the refill admits a prefix of the queue, and stops with the queue empty or every slot taken. */
  lemma RefillKeeps(o: Option<Overload>, s: State)
    requires Unfilled(o, s)
    ensures Unfilled(o, Refill(o, s))
    ensures o.Some? && Refill(o, s).queue != [] ==> !Below(o, Refill(o, s).inFlight)
    ensures Refill(o, s) == Refilled(s, |s.queue| - |Refill(o, s).queue|)
  {
    hide Unfilled, Refilled, Refill, Below;
    RefillFills(o, s);
    RefillShape(o, s);
  }

  function SetOf(q: seq<Ticket>): (r: set<Ticket>)
    ensures forall t :: t in r <==> t in q
  {
    if q == [] then {} else {q[0]} + SetOf(q[1..])
  }

  /** The first `k` of the queue admitted, in order. */
  function Refilled(s: State, k: int): State
    requires 0 <= k <= |s.queue|
  {
    s.(inFlight := s.inFlight + k,
       holders := s.holders + SetOf(s.queue[..k]),
       queue := s.queue[k..],
       replies := s.replies + Admissions(s.queue[..k]))
  }

  function Admissions(q: seq<Ticket>): (r: seq<(Ticket, Reply)>)
    ensures |r| == |q| && forall i | 0 <= i < |r| :: r[i] == (q[i], Admitted)
  {
    seq(|q|, i requires 0 <= i < |q| => (q[i], Admitted))
  }

  lemma RefilledNone(s: State)
    ensures Refilled(s, 0) == s
  {
    assert s.queue[0..] == s.queue && s.queue[..0] == [];
    assert s.replies + Admissions([]) == s.replies && s.holders + {} == s.holders;
  }

  lemma PrefixSplit(q: seq<Ticket>, k: nat)
    requires q != [] && k < |q|
    ensures q[1..][k..] == q[k + 1..]
    ensures q[..k + 1] == [q[0]] + q[1..][..k]
  {
  }

  lemma RefilledStep(s: State, k: nat)
    requires s.queue != [] && k <= |s.queue| - 1
    ensures Refilled(Transfer(s), k) == Refilled(s, k + 1)
  {
    PrefixSplit(s.queue, k);
    var head, rest := s.queue[0], s.queue[1..][..k];
    assert Admissions([head] + rest) == [(head, Admitted)] + Admissions(rest);
    assert s.replies + [(head, Admitted)] + Admissions(rest) == s.replies + ([(head, Admitted)] + Admissions(rest));
    assert ([head] + rest)[1..] == rest;
    assert s.holders + {head} + SetOf(rest) == s.holders + SetOf([head] + rest);
  }

  lemma GivenBack(o: Option<Overload>, s: State, t: Ticket)
    requires Inv(o, s) && t in s.holders
    ensures Unfilled(o, GiveBack(s, t))
    ensures s.draining ==> s.queue == []
    ensures t !in s.queue
  {
  }

  /** A filled state, once its drain waiters were woken at zero. */
  lemma WokenKeeps(o: Option<Overload>, s: State)
    requires Unfilled(o, s) && (s.queue != [] ==> !Below(o, s.inFlight))
    ensures Inv(o, WakeAtZero(s))
  {
    assert s.inFlight >= 0;
  }

  /** A refill hands nothing to a request that is not queued. */
  lemma RefilledSpares(s: State, k: nat, t: Ticket)
    requires k <= |s.queue| && t !in s.queue && t !in s.holders
    ensures t !in Refilled(s, k).holders
  {
    assert forall u | u in s.queue[..k] :: u in s.queue;
  }

  /** A release keeps the invariant and takes its ticket out of the holders. */
  lemma ReleaseKeeps(o: Option<Overload>, s: State, t: Ticket)
    requires Inv(o, s) && t in s.holders
    ensures Inv(o, Release(o, s, t))
    ensures t !in s.queue && t !in Release(o, s, t).holders
  {
    hide Inv, Unfilled, Refill, Refilled, Below;
    GivenBack(o, s, t);
    var freed := GiveBack(s, t);
    RefillKeeps(o, freed);
    assert Refill(o, freed).queue != [] ==> o.Some? by { QueueNeedsOverload(o, Refill(o, freed)); }
    WokenKeeps(o, Refill(o, freed));
    RefilledSpares(freed, |freed.queue| - |Refill(o, freed).queue|, t);
  }

  lemma QueueNeedsOverload(o: Option<Overload>, s: State)
    requires Unfilled(o, s)
    ensures s.queue != [] ==> o.Some?
  {
  }

  lemma ArriveKeeps(o: Option<Overload>, s: State, t: Ticket, aborted: bool)
    requires Inv(o, s) && t !in s.holders && forall u | u in s.queue :: u < t
    ensures Inv(o, Arrive(o, s, t, aborted).0)
    ensures Arrive(o, s, t, aborted).1 == Now(Admitted) ==> s.queue == []
  {
    IncreasingSnoc(s.queue, t);
  }

  lemma LeaveKeeps(o: Option<Overload>, s: State, t: Ticket, reason: Reason)
    requires Inv(o, s) && t in s.queue
    ensures Inv(o, Leave(s, t, reason)) && t !in Leave(s, t, reason).queue
  {
    WithoutKeeps(s.queue, t);
  }

  lemma DrainKeeps(o: Option<Overload>, s: State)
    requires Inv(o, s)
    ensures Inv(o, StartDraining(s))
  {
  }

  lemma SubscribeKeeps(o: Option<Overload>, s: State, callback: Callback)
    requires Inv(o, s) && s.draining
    ensures Inv(o, Subscribe(s, callback).0)
    ensures Subscribe(s, callback).1 <==> s.inFlight == 0
  {
    assert s.inFlight >= 0;
  }

  /** In every state an uncapped app can reach, the shortcut settles exactly as the full path does. */
  lemma UncappedSettlesAlike(s: State, t: Ticket, body: Body)
    requires Inv(None, s) && t in s.holders
    ensures SettleUncapped(s, t, body) == Settle(None, s, t, body)
  {
    if !s.draining { assert s.queue == [] && s.closeWaiters == []; }
  }

  /** Once draining, no release and no arrival ever raises the counter. */
  lemma DrainingNeverRises(o: Option<Overload>, s: State, t: Ticket, aborted: bool)
    requires Inv(o, s) && s.draining
    ensures t in s.holders ==> Release(o, s, t).inFlight == s.inFlight - 1
    ensures Arrive(o, s, t, aborted).0 == s && Arrive(o, s, t, aborted).1 == Now(Refused(Draining))
  {
    assert s.queue == [];
  }
}
