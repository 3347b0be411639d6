/**
 The onion as a protocol: levels that call `next()` and may return before the branch they
 started, the branches registered for them, and what draining those branches guarantees.
 */
module Compose {
  import opened Wrappers

  /** One compiled level for one request. */
  datatype Level = Level(
    started: bool,
    /** The handler returned a promise. */
    parked: bool,
    /** The handler settled. */
    finished: bool,
    /** The level settled: for a promise, its settle continuation ran. */
    done: bool,
    /** The once-guard of `next()`. */
    advanced: bool,
    /** A downstream promise was seen, and has not been observed settling. */
    floated: bool,
    live: bool,
    /** Started by a level already settled, or left behind by one that failed. */
    orphan: bool)

  const UNTOUCHED := Level(false, false, false, false, false, false, false, false)

  datatype Drain = NotAsked | Awaiting(end: nat) | Drained

  /** The levels on the call stack, the innermost last; `branches` holds the level each branch belongs to. */
  datatype Chain = Chain(levels: seq<Level>, stack: seq<nat>, branches: seq<nat>, drain: Drain)

  datatype Event =
    | Enter
    | CallNext(level: nat)
    | Park
    | Resume(level: nat)
    | Return
    | Throw
    | Tail(level: nat)
    | Observe(level: nat)
    | AskDrain
    | BatchSettles

  function Fresh(n: nat): Chain {
    Chain(seq(n, _ => UNTOUCHED), [], [], NotAsked)
  }

  predicate Quiet(c: Chain) {
    c.stack == []
  }

  /** Some handler is executing, and its level is one of the chain's. */
  predicate Running(c: Chain) {
    c.stack != [] && Top(c) < |c.levels|
  }

  function Top(c: Chain): nat
    requires c.stack != []
  {
    c.stack[|c.stack| - 1]
  }

  function With(c: Chain, i: nat, l: Level): Chain
    requires i < |c.levels|
  {
    c.(levels := c.levels[i := l])
  }

  /** The handler on top of the stack leaves it. */
  function Pop(c: Chain): Chain
    requires c.stack != []
  {
    c.(stack := c.stack[..|c.stack| - 1])
  }

  function Push(c: Chain, i: nat): Chain
    requires i < |c.levels|
  {
    With(c, i, c.levels[i].(started := true)).(stack := c.stack + [i])
  }

  /** Register a level's floating branch. */
  function Register(c: Chain, i: nat): Chain {
    c.(branches := c.branches + [i + 1])
  }

  /**
   `next()` of level `i`, whoever calls it and whenever: the second call throws, the first one runs the level below,
   which nobody watches when level `i` has settled by then. Below the last level is the tail, a promise that settles by itself.
   */
  function Advance(c: Chain, i: nat): Chain
    requires i < |c.levels|
  {
    if c.levels[i].advanced then c
    else if i + 1 == |c.levels| then With(c, i, c.levels[i].(advanced := true, floated := true, live := true))
    else
      var advanced := With(c, i, c.levels[i].(advanced := true));
      Push(With(advanced, i + 1, c.levels[i + 1].(orphan := c.levels[i].done)), i + 1)
  }

  /** The handler returned its promise; the `next()` that started it sees a floating branch. */
  function ParkTop(c: Chain): Chain
    requires Running(c)
  {
    var i := Top(c);
    var parked := With(c, i, c.levels[i].(parked := true));
    var seen := if i > 0 && !c.levels[i].parked
                then With(parked, i - 1, parked.levels[i - 1].(floated := true, live := true)) else parked;
    Pop(seen)
  }

  /** A synchronous return settles the level and registers its floating branch; an asynchronous one leaves that to the continuation. */
  function ReturnTop(c: Chain): Chain
    requires Running(c)
  {
    var i := Top(c);
    var l := c.levels[i];
    var finished := Pop(With(c, i, l.(finished := true, done := !l.parked)));
    if !l.parked && l.floated then Register(finished, i) else finished
  }

  /** A throw or rejection: no registration, and whatever the level had started is on its own. */
  function ThrowTop(c: Chain): Chain
    requires Running(c)
  {
    var i := Top(c);
    var failed := Pop(With(c, i, c.levels[i].(finished := true, done := true)));
    if i + 1 < |c.levels| && c.levels[i + 1].started && !c.levels[i + 1].done
    then With(failed, i + 1, failed.levels[i + 1].(orphan := true)) else failed
  }

  /** The settle continuation of an asynchronous level. */
  function RunTail(c: Chain, i: nat): Chain
    requires i < |c.levels|
  {
    var l := c.levels[i];
    var settled := With(c, i, l.(done := true));
    if l.floated && l.live then Register(settled, i) else settled
  }

  function AllDone(c: Chain, end: nat): bool {
    end <= |c.branches| && forall k | 0 <= k < end :: c.branches[k] < |c.levels| ==> c.levels[c.branches[k]].done
  }

  function Step(c: Chain, e: Event): Option<Chain> {
    match e
    case Enter => if Quiet(c) && |c.levels| > 0 && !c.levels[0].started then Some(Push(c, 0)) else None
    case CallNext(i) => if i < |c.levels| && c.levels[i].started then Some(Advance(c, i)) else None
    case Park => if Running(c) then Some(ParkTop(c)) else None
    case Return => if Running(c) then Some(ReturnTop(c)) else None
    case Throw => if Running(c) then Some(ThrowTop(c)) else None
    case Resume(i) =>
      if Quiet(c) && i < |c.levels| && c.levels[i].parked && !c.levels[i].finished then Some(Push(c, i)) else None
    case Tail(i) =>
      if Quiet(c) && i < |c.levels| && c.levels[i].finished && !c.levels[i].done then Some(RunTail(c, i)) else None
    case Observe(i) =>
      if Quiet(c) && i < |c.levels| && (i + 1 == |c.levels| || c.levels[i + 1].done)
      then Some(With(c, i, c.levels[i].(live := false))) else None
    case AskDrain =>
      if Quiet(c) && |c.levels| > 0 && c.levels[0].done && c.drain.NotAsked?
      then Some(c.(drain := if c.branches == [] then Drained else Awaiting(|c.branches|))) else None
    case BatchSettles =>
      if Quiet(c) && c.drain.Awaiting? && AllDone(c, c.drain.end)
      then Some(c.(drain := if |c.branches| > c.drain.end then Awaiting(|c.branches|) else Drained)) else None
  }

  function Run(n: nat, events: seq<Event>): Option<Chain> {
    if events == [] then Some(Fresh(n))
    else
      match Run(n, events[..|events| - 1])
      case None => None
      case Some(c) => Step(c, events[|events| - 1])
  }

  // ---------------------------------------------------------------- the invariant

  predicate OnStack(c: Chain, i: nat) {
    i in c.stack
  }

  /** Still in its first synchronous stretch: the `next()` that started it has not returned. */
  predicate FirstStretch(c: Chain, i: nat)
    requires i < |c.levels|
  {
    OnStack(c, i) && !c.levels[i].parked
  }

  /** A running level is watched: by the call that started it, by the level above, or as a registered branch. */
  predicate Watched(c: Chain, i: nat)
    requires 0 < i < |c.levels|
  {
    || i in c.branches
    || (!c.levels[i - 1].done && (FirstStretch(c, i) || (c.levels[i - 1].floated && c.levels[i - 1].live)))
  }

  predicate LevelOk(c: Chain, i: nat)
    requires i < |c.levels|
  {
    var l := c.levels[i];
    && (OnStack(c, i) ==> l.started && !l.finished)
    && (l.done ==> l.finished)
    && (l.finished && !l.done ==> l.parked)
    && (l.started && !l.finished && !OnStack(c, i) ==> l.parked)
    && (l.advanced || l.parked || l.finished ==> l.started)
    && (l.floated ==> i + 1 == |c.levels| || c.levels[i + 1].started)
    && (i > 0 && l.started ==> c.levels[i - 1].advanced)
    && (i > 0 && l.started && !l.done && !l.orphan ==> Watched(c, i))
    && (l.orphan ==> i > 0 && l.started && c.levels[i - 1].done && i !in c.branches)
    && (i in c.branches ==> i > 0 && l.started && c.levels[i - 1].done)
  }

  /** No level is on the stack twice, and none is below the level that started it. */
  predicate StackOk(c: Chain) {
    && (forall i | i in c.stack :: i < |c.levels|)
    && (forall a, b | 0 <= a < b < |c.stack| :: c.stack[a] != c.stack[b] && c.stack[a] != c.stack[b] + 1)
  }

  predicate ChainOk(c: Chain) {
    && StackOk(c)
    && (c.drain.Awaiting? ==> c.drain.end <= |c.branches|)
    && forall i | 0 <= i < |c.levels| :: LevelOk(c, i)
  }

  /** Facts about a level and its neighbours, before a step. */
  lemma Around(c: Chain, i: nat)
    requires ChainOk(c) && i < |c.levels|
    ensures LevelOk(c, i)
    ensures i > 0 ==> LevelOk(c, i - 1)
    ensures i + 1 < |c.levels| ==> LevelOk(c, i + 1)
  {
  }

  /** Pushing a level adds it to the stack and nothing else. */
  lemma Pushed(c: Chain, i: nat)
    ensures forall k :: k in c.stack + [i] <==> k in c.stack || k == i
  {
  }

  /** The top of the stack: below it neither itself nor the level it started. */
  lemma Popped(c: Chain)
    requires StackOk(c) && c.stack != []
    ensures Running(c)
    ensures var rest := c.stack[..|c.stack| - 1];
            (forall k: nat :: k in rest <==> k in c.stack && k != Top(c)) && Top(c) + 1 !in c.stack
    ensures StackOk(c.(stack := c.stack[..|c.stack| - 1]))
  {
    var rest := c.stack[..|c.stack| - 1];
    assert c.stack == rest + [Top(c)] && Top(c) in c.stack;
  }

  /** What a step leaves alone around a level. */
  predicate Undisturbed(c: Chain, d: Chain, k: nat)
    requires |c.levels| == |d.levels| && k < |c.levels|
  {
    && d.levels[k] == c.levels[k]
    && (k in d.stack <==> k in c.stack)
    && (k in d.branches <==> k in c.branches)
    && (k > 0 ==> Outer(c.levels[k - 1], d.levels[k - 1]))
    && (k + 1 < |c.levels| && c.levels[k + 1].started ==> d.levels[k + 1].started)
  }

  /** What the level below reads of the one above it. */
  predicate Outer(a: Level, b: Level) {
    (a.advanced ==> b.advanced) && a.done == b.done && (a.floated && a.live ==> b.floated && b.live)
  }

  lemma UndisturbedOk(c: Chain, d: Chain, k: nat)
    requires ChainOk(c) && |c.levels| == |d.levels| && k < |c.levels| && Undisturbed(c, d, k)
    ensures LevelOk(d, k)
  {
    Around(c, k);
  }

  lemma AdvanceNear(c: Chain, i: nat, k: nat)
    requires ChainOk(c) && i < |c.levels| && c.levels[i].started && k < |c.levels| && (k == i || k == i + 1)
    ensures LevelOk(Advance(c, i), k)
  {
    Around(c, k);
    if i + 1 < |c.levels| && !c.levels[i].advanced {
      Pushed(c, i + 1);
      AdvanceStack(c, i);
    }
  }

  lemma AdvanceFar(c: Chain, i: nat, k: nat)
    requires ChainOk(c) && i < |c.levels| && c.levels[i].started && k < |c.levels| && k != i && k != i + 1
    ensures LevelOk(Advance(c, i), k)
  {
    hide LevelOk;
    Pushed(c, i + 1);
    UndisturbedOk(c, Advance(c, i), k);
  }

  lemma AdvanceKeeps(c: Chain, i: nat)
    requires ChainOk(c) && i < |c.levels| && c.levels[i].started
    ensures ChainOk(Advance(c, i))
  {
    hide LevelOk;
    if i + 1 < |c.levels| && !c.levels[i].advanced { AdvanceStack(c, i); }
    forall k | 0 <= k < |c.levels| ensures LevelOk(Advance(c, i), k) {
      if k == i || k == i + 1 { AdvanceNear(c, i, k); } else { AdvanceFar(c, i, k); }
    }
  }

  lemma AdvanceStack(c: Chain, i: nat)
    requires ChainOk(c) && i + 1 < |c.levels| && !c.levels[i].advanced
    ensures !c.levels[i + 1].started && i + 1 !in c.stack && i + 1 !in c.branches
    ensures StackOk(c.(stack := c.stack + [i + 1]))
  {
    Around(c, i + 1);
    if i + 2 < |c.levels| { Around(c, i + 2); }
    forall a | 0 <= a < |c.stack| ensures c.stack[a] != i + 1 && c.stack[a] != i + 2 {
      assert c.stack[a] in c.stack;
    }
  }

  lemma ParkNear(c: Chain, k: nat)
    requires ChainOk(c) && Running(c) && (k == Top(c) || k + 1 == Top(c))
    ensures LevelOk(ParkTop(c), k)
  {
    Popped(c);
    Around(c, k);
    assert Top(c) in c.stack;
  }

  lemma ParkFar(c: Chain, k: nat)
    requires ChainOk(c) && Running(c) && k < |c.levels| && k != Top(c) && k + 1 != Top(c)
    ensures LevelOk(ParkTop(c), k)
  {
    Popped(c);
    Around(c, Top(c));
    hide LevelOk;
    UndisturbedOk(c, ParkTop(c), k);
  }

  lemma ParkKeeps(c: Chain)
    requires ChainOk(c) && c.stack != []
    ensures Running(c) && ChainOk(ParkTop(c))
  {
    hide LevelOk;
    Popped(c);
    forall k | 0 <= k < |c.levels| ensures LevelOk(ParkTop(c), k) {
      if k == Top(c) || k + 1 == Top(c) { ParkNear(c, k); } else { ParkFar(c, k); }
    }
  }

  lemma ReturnNear(c: Chain, k: nat)
    requires ChainOk(c) && Running(c) && k < |c.levels| && (k == Top(c) || k == Top(c) + 1)
    ensures LevelOk(ReturnTop(c), k)
  {
    Popped(c);
    Around(c, k);
    assert Top(c) in c.stack;
  }

  lemma ReturnFar(c: Chain, k: nat)
    requires ChainOk(c) && Running(c) && k < |c.levels| && k != Top(c) && k != Top(c) + 1
    ensures LevelOk(ReturnTop(c), k)
  {
    Popped(c);
    Around(c, Top(c));
    hide LevelOk;
    UndisturbedOk(c, ReturnTop(c), k);
  }

  lemma ReturnKeeps(c: Chain)
    requires ChainOk(c) && c.stack != []
    ensures Running(c) && ChainOk(ReturnTop(c))
  {
    hide LevelOk;
    Popped(c);
    forall k | 0 <= k < |c.levels| ensures LevelOk(ReturnTop(c), k) {
      if k == Top(c) || k == Top(c) + 1 { ReturnNear(c, k); } else { ReturnFar(c, k); }
    }
  }

  lemma ThrowNear(c: Chain, k: nat)
    requires ChainOk(c) && Running(c) && k < |c.levels| && (k == Top(c) || k == Top(c) + 1)
    ensures LevelOk(ThrowTop(c), k)
  {
    Popped(c);
    Around(c, k);
    assert Top(c) in c.stack;
  }

  lemma ThrowFar(c: Chain, k: nat)
    requires ChainOk(c) && Running(c) && k < |c.levels| && k != Top(c) && k != Top(c) + 1
    ensures LevelOk(ThrowTop(c), k)
  {
    Popped(c);
    Around(c, Top(c));
    hide LevelOk;
    UndisturbedOk(c, ThrowTop(c), k);
  }

  lemma ThrowKeeps(c: Chain)
    requires ChainOk(c) && c.stack != []
    ensures Running(c) && ChainOk(ThrowTop(c))
  {
    hide LevelOk;
    Popped(c);
    forall k | 0 <= k < |c.levels| ensures LevelOk(ThrowTop(c), k) {
      if k == Top(c) || k == Top(c) + 1 { ThrowNear(c, k); } else { ThrowFar(c, k); }
    }
  }

  lemma TailKeeps(c: Chain, i: nat)
    requires ChainOk(c) && Quiet(c) && i < |c.levels| && c.levels[i].finished && !c.levels[i].done
    ensures ChainOk(RunTail(c, i))
  {
    var d := RunTail(c, i);
    Around(c, i);
    forall k | 0 <= k < |d.levels| ensures LevelOk(d, k) { Around(c, k); }
  }

  lemma ObserveKeeps(c: Chain, i: nat)
    requires ChainOk(c) && Quiet(c) && i < |c.levels| && (i + 1 == |c.levels| || c.levels[i + 1].done)
    ensures ChainOk(With(c, i, c.levels[i].(live := false)))
  {
    var d := With(c, i, c.levels[i].(live := false));
    forall k | 0 <= k < |d.levels| ensures LevelOk(d, k) { Around(c, k); }
  }

  lemma ResumeKeeps(c: Chain, i: nat)
    requires ChainOk(c) && Quiet(c) && i < |c.levels| && !c.levels[i].finished
    requires c.levels[i].parked || (i == 0 && !c.levels[i].started)
    ensures ChainOk(Push(c, i))
  {
    var d := Push(c, i);
    assert d.stack == [i];
    forall k | 0 <= k < |d.levels| ensures LevelOk(d, k) { Around(c, k); }
  }

  lemma StepKeeps(c: Chain, e: Event)
    requires ChainOk(c) && Step(c, e).Some?
    ensures ChainOk(Step(c, e).value) && |Step(c, e).value.levels| == |c.levels|
  {
    hide LevelOk, Watched;
    match e
    case Enter => LevelZero(c); ResumeKeeps(c, 0);
    case CallNext(i) => AdvanceKeeps(c, i);
    case Park => ParkKeeps(c);
    case Return => ReturnKeeps(c);
    case Throw => ThrowKeeps(c);
    case Resume(i) => ResumeKeeps(c, i);
    case Tail(i) => TailKeeps(c, i);
    case Observe(i) => ObserveKeeps(c, i);
    case AskDrain => DrainKeeps(c, Step(c, e).value);
    case BatchSettles => DrainKeeps(c, Step(c, e).value);
  }

  lemma LevelZero(c: Chain)
    requires ChainOk(c) && |c.levels| > 0
    ensures c.levels[0].finished ==> c.levels[0].started
  {
    Around(c, 0);
  }

  lemma DrainKeeps(c: Chain, d: Chain)
    requires ChainOk(c) && d == c.(drain := d.drain) && (d.drain.Awaiting? ==> d.drain.end <= |c.branches|)
    ensures ChainOk(d)
  {
    forall k | 0 <= k < |d.levels| ensures LevelOk(d, k) { Around(c, k); }
  }

  lemma {:induction false} RunOk(n: nat, events: seq<Event>)
    requires Run(n, events).Some?
    ensures ChainOk(Run(n, events).value) && |Run(n, events).value.levels| == n
  {
    hide Step;
    if events != [] {
      RunOk(n, events[..|events| - 1]);
      StepKeeps(Run(n, events[..|events| - 1]).value, events[|events| - 1]);
    }
  }

  // ---------------------------------------------------------------- what draining guarantees

  /** Every handler the chain started has settled. */
  predicate AllSettled(c: Chain) {
    forall i | 0 <= i < |c.levels| && c.levels[i].started :: c.levels[i].done
  }

  /** Every handler nobody watches has settled. */
  predicate OrphansSettled(c: Chain) {
    forall i | 0 <= i < |c.levels| && c.levels[i].orphan && c.levels[i].started :: c.levels[i].done
  }

  lemma BranchDone(c: Chain, i: nat)
    requires AllDone(c, |c.branches|) && i in c.branches && i < |c.levels|
    ensures c.levels[i].done
  {
    var k :| 0 <= k < |c.branches| && c.branches[k] == i;
    assert c.levels[c.branches[k]].done;
  }

  lemma {:induction false} SettledDownTo(c: Chain, i: nat)
    requires ChainOk(c) && Quiet(c) && OrphansSettled(c) && AllDone(c, |c.branches|)
    requires i < |c.levels| && c.levels[i].started && c.levels[0].done
    ensures c.levels[i].done
  {
    if i > 0 {
      Around(c, i);
      SettledDownTo(c, i - 1);
      if i in c.branches { BranchDone(c, i); }
    }
  }

  /** When the drain resolves, everything the chain started has settled, if and only if nothing unwatched is still running. */
  lemma DrainSettlesAll(n: nat, events: seq<Event>, e: Event)
    requires Run(n, events).Some? && !Run(n, events).value.drain.Drained?
    requires Step(Run(n, events).value, e).Some? && Step(Run(n, events).value, e).value.drain.Drained?
    ensures var c := Step(Run(n, events).value, e).value; AllSettled(c) <==> OrphansSettled(c)
  {
    RunOk(n, events);
    var c := Run(n, events).value;
    StepKeeps(c, e);
    DrainMoment(n, events, e);
    var d := Step(c, e).value;
    if OrphansSettled(d) {
      forall i | 0 <= i < |d.levels| && d.levels[i].started ensures d.levels[i].done { SettledDownTo(d, i); }
    }
  }

  /** A drain is only asked for once the outermost level settled, and resolves only with every branch settled. */
  lemma DrainMoment(n: nat, events: seq<Event>, e: Event)
    requires Run(n, events).Some? && !Run(n, events).value.drain.Drained?
    requires Step(Run(n, events).value, e).Some? && Step(Run(n, events).value, e).value.drain.Drained?
    ensures var d := Step(Run(n, events).value, e).value;
            Quiet(d) && |d.levels| > 0 && d.levels[0].done && AllDone(d, |d.branches|)
  {
    AskedWhenDone(n, events);
    RunOk(n, events);
    DrainEvents(Run(n, events).value, e);
  }

  lemma DrainEvents(c: Chain, e: Event)
    requires Step(c, e).Some? && ChainOk(c)
    ensures !e.AskDrain? && !e.BatchSettles? ==> Step(c, e).value.drain == c.drain
    ensures |Step(c, e).value.levels| == |c.levels|
    ensures |c.levels| > 0 && c.levels[0].done ==> Step(c, e).value.levels[0].done
  {
    if |c.levels| > 0 { Around(c, 0); }
  }

  lemma {:induction false} AskedWhenDone(n: nat, events: seq<Event>)
    requires Run(n, events).Some?
    ensures var c := Run(n, events).value; !c.drain.NotAsked? ==> |c.levels| > 0 && c.levels[0].done
  {
    if events != [] {
      var before := Run(n, events[..|events| - 1]).value;
      AskedWhenDone(n, events[..|events| - 1]);
      RunOk(n, events[..|events| - 1]);
      DrainEvents(before, events[|events| - 1]);
    }
  }

  /** The shapes the guarantee is stated for: no failure while an own `next()` is outstanding, no first `next()` from a settled level that has one below it. */
  predicate Polite(c: Chain, e: Event) {
    && (e.Throw? && Running(c) && Top(c) + 1 < |c.levels| ==> !c.levels[Top(c) + 1].started || c.levels[Top(c) + 1].done)
    && (e.CallNext? && e.level + 1 < |c.levels| && !c.levels[e.level].advanced ==> !c.levels[e.level].done)
  }

  predicate PoliteRun(n: nat, events: seq<Event>)
    requires Run(n, events).Some?
  {
    events == [] ||
    (PoliteRun(n, events[..|events| - 1]) && Polite(Run(n, events[..|events| - 1]).value, events[|events| - 1]))
  }

  predicate NoOrphans(c: Chain) {
    forall i | 0 <= i < |c.levels| :: !c.levels[i].orphan
  }

  lemma PoliteStep(c: Chain, e: Event)
    requires ChainOk(c) && NoOrphans(c) && Polite(c, e) && Step(c, e).Some?
    ensures NoOrphans(Step(c, e).value)
  {
  }

  lemma {:induction false} PoliteHasNoOrphans(n: nat, events: seq<Event>)
    requires Run(n, events).Some? && PoliteRun(n, events)
    ensures NoOrphans(Run(n, events).value)
  {
    hide Step, Polite;
    if events != [] {
      var init := events[..|events| - 1];
      PoliteHasNoOrphans(n, init);
      RunOk(n, init);
      PoliteStep(Run(n, init).value, events[|events| - 1]);
    }
  }

  /** However its `next()` calls were left floating, a polite run leaves nothing running behind a resolved drain. */
  lemma PoliteDrainSettlesAll(n: nat, events: seq<Event>, e: Event)
    requires Run(n, events).Some? && PoliteRun(n, events) && !Run(n, events).value.drain.Drained?
    requires Polite(Run(n, events).value, e)
    requires Step(Run(n, events).value, e).Some? && Step(Run(n, events).value, e).value.drain.Drained?
    ensures AllSettled(Step(Run(n, events).value, e).value)
  {
    PoliteHasNoOrphans(n, events);
    RunOk(n, events);
    PoliteStep(Run(n, events).value, e);
    DrainSettlesAll(n, events, e);
  }

  lemma RunSnoc(n: nat, events: seq<Event>, e: Event)
    requires Run(n, events).Some?
    ensures Run(n, events + [e]) == Step(Run(n, events).value, e)
  {
    assert (events + [e])[..|events|] == events;
  }

  /**
   The first `next()` of a level runs the level below, the last one the tail, whose promise it floats; any further call
   changes nothing.
   */
  lemma NextIsOnce(c: Chain, i: nat)
    requires ChainOk(c) && i < |c.levels| && c.levels[i].started
    ensures Step(c, CallNext(i)).Some?
    ensures var d := Step(c, CallNext(i)).value;
            && d.levels[i].advanced && Step(d, CallNext(i)) == Some(d)
            && (c.levels[i].advanced ==> d == c)
            && (!c.levels[i].advanced && i + 1 < |c.levels| ==>
                  && !c.levels[i + 1].started && d.levels[i + 1].started && d.stack == c.stack + [i + 1]
                  && (d.levels[i + 1].orphan <==> c.levels[i].done))
            && (!c.levels[i].advanced && i + 1 == |c.levels| ==> d.levels[i].floated && d.levels[i].live && d.stack == c.stack)
  {
    Around(c, i);
  }

  /** No level settles while a branch it started may still be running: every `next()` is awaited, or returned. */
  predicate Awaits(c: Chain, e: Event) {
    && (e.Tail? && e.level < |c.levels| ==> !(c.levels[e.level].floated && c.levels[e.level].live))
    && (e.Return? && Running(c) ==> c.levels[Top(c)].parked || !c.levels[Top(c)].floated)
  }

  predicate AwaitingRun(n: nat, events: seq<Event>)
    requires Run(n, events).Some?
  {
    events == [] ||
    (AwaitingRun(n, events[..|events| - 1]) && Awaits(Run(n, events[..|events| - 1]).value, events[|events| - 1]))
  }

  /** A step registers a branch exactly if a level settles without having awaited it. */
  lemma RegistersExactly(c: Chain, e: Event)
    requires Step(c, e).Some?
    ensures Step(c, e).value.branches == c.branches <==> Awaits(c, e)
    ensures !Awaits(c, e) ==> Step(c, e).value.branches == c.branches + [if e.Tail? then e.level + 1 else Top(c) + 1]
  {
  }

  /** Such a chain never builds a list: its drain resolves as soon as it is asked for. */
  lemma {:induction false} AwaitingDrainsAtOnce(n: nat, events: seq<Event>)
    requires Run(n, events).Some? && AwaitingRun(n, events)
    ensures var c := Run(n, events).value;
            && c.branches == [] && !c.drain.Awaiting?
            && (Step(c, AskDrain).Some? ==> Step(c, AskDrain).value.drain.Drained?)
  {
    if events != [] {
      var init := events[..|events| - 1];
      AwaitingDrainsAtOnce(n, init);
      RegistersExactly(Run(n, init).value, events[|events| - 1]);
    }
  }

  // ---------------------------------------------------------------- and nothing weaker is enough

  /** The events that follow, from a chain on. */
  function Then(c: Chain, events: seq<Event>): Option<Chain>
    decreases |events|
  {
    if events == [] then Some(c)
    else
      match Step(c, events[0])
      case None => None
      case Some(d) => Then(d, events[1..])
  }

  lemma {:induction false} RunThen(n: nat, events: seq<Event>, more: seq<Event>)
    requires Run(n, events).Some?
    ensures Run(n, events + more) == Then(Run(n, events).value, more)
    decreases |more|
  {
    hide Step;
    if more == [] {
      assert events + more == events;
    } else {
      RunSnoc(n, events, more[0]);
      assert events + more == events + [more[0]] + more[1..];
      if Step(Run(n, events).value, more[0]).Some? { RunThen(n, events + [more[0]], more[1..]); }
      else { NoneStays(n, events + [more[0]], more[1..]); }
    }
  }

  lemma {:induction false} NoneStays(n: nat, events: seq<Event>, more: seq<Event>)
    requires Run(n, events).None?
    ensures Run(n, events + more).None?
  {
    var all := events + more;
    if more == [] {
      assert all == events;
    } else {
      NoneStays(n, events, more[..|more| - 1]);
      assert all[..|all| - 1] == events + more[..|more| - 1];
    }
  }

  lemma {:induction false} ThenThen(c: Chain, a: seq<Event>, b: seq<Event>)
    requires Then(c, a).Some?
    ensures Then(c, a + b) == Then(Then(c, a).value, b)
    decreases |a|
  {
    hide Step;
    if a == [] {
      assert a + b == b;
    } else {
      assert (a + b)[1..] == a[1..] + b && (a + b)[0] == a[0];
      ThenThen(Step(c, a[0]).value, a[1..], b);
    }
  }

  lemma ThenFirst(c: Chain, e: Event, more: seq<Event>)
    requires Step(c, e).Some?
    ensures Then(c, [e] + more) == Then(Step(c, e).value, more)
  {
    assert ([e] + more)[1..] == more;
  }

  /** Neither a failure nor a `next()`: what a well-behaved chain does by itself. */
  predicate Winding(events: seq<Event>) {
    forall e | e in events :: !e.Throw? && !e.CallNext?
  }

  /** An unwatched level that is still running. */
  predicate Stray(c: Chain, i: nat) {
    ChainOk(c) && i < |c.levels| && c.levels[i].orphan && !c.levels[i].done
  }

  /** The levels that started and those that settled, as before or more of them. */
  predicate Further(c: Chain, d: Chain, i: nat) {
    && Stray(d, i)
    && |d.levels| == |c.levels| && d.drain == c.drain
    && forall k | 0 <= k < |c.levels| :: (d.levels[k].started <==> c.levels[k].started) && (c.levels[k].done ==> d.levels[k].done)
  }

  lemma FurtherStill(c: Chain, d: Chain, e: Chain, i: nat)
    requires Further(c, d, i) && Further(d, e, i)
    ensures Further(c, e, i)
  {
  }

  /** Every handler that is executing starts to wait. */
  lemma {:induction false} ParkAll(c: Chain, i: nat) returns (events: seq<Event>, d: Chain)
    requires Stray(c, i)
    ensures Then(c, events) == Some(d) && Winding(events) && Quiet(d) && Further(c, d, i)
    decreases |c.stack|
  {
    if c.stack == [] { return [], c; }
    ParkKeeps(c);
    ParkFurther(c, i);
    hide ParkTop;
    var next := ParkTop(c);
    var more, last := ParkAll(next, i);
    ThenFirst(c, Park, more);
    FurtherStill(c, next, last, i);
    events, d := [Park] + more, last;
  }

  lemma ParkFurther(c: Chain, i: nat)
    requires Stray(c, i) && c.stack != [] && Running(c) && ChainOk(ParkTop(c))
    ensures Further(c, ParkTop(c), i) && |ParkTop(c).stack| < |c.stack| && Step(c, Park) == Some(ParkTop(c))
  {
  }

  /** One level that waits or has returned settles. */
  lemma SettleOne(c: Chain, i: nat, k: nat) returns (events: seq<Event>, d: Chain)
    requires Stray(c, i) && Quiet(c) && k < |c.levels| && k != i && c.levels[k].started
    ensures Then(c, events) == Some(d) && Winding(events) && Quiet(d) && Further(c, d, i) && d.levels[k].done
  {
    Around(c, k);
    if c.levels[k].done { return [], c; }
    if c.levels[k].finished {
      d := TailOnly(c, i, k);
      ThenFirst(c, Tail(k), []);
      return [Tail(k)], d;
    }
    var back := ResumeReturn(c, i, k);
    d := TailOnly(back, i, k);
    ThenFirst(back, Tail(k), []);
    var one := Step(c, Resume(k)).value;
    ThenFirst(one, Return, [Tail(k)]);
    ThenFirst(c, Resume(k), [Return] + [Tail(k)]);
    FurtherStill(c, back, d, i);
    events := [Resume(k)] + ([Return] + [Tail(k)]);
  }

  lemma TailOnly(c: Chain, i: nat, k: nat) returns (d: Chain)
    requires Stray(c, i) && Quiet(c) && k < |c.levels| && k != i && c.levels[k].finished && !c.levels[k].done
    ensures Step(c, Tail(k)) == Some(d) && Quiet(d) && Further(c, d, i) && d.levels[k].done
  {
    TailKeeps(c, k);
    d := RunTail(c, k);
  }

  lemma ResumeReturn(c: Chain, i: nat, k: nat) returns (d: Chain)
    requires Stray(c, i) && Quiet(c) && k < |c.levels| && k != i && c.levels[k].parked && !c.levels[k].finished
    requires c.levels[k].started
    ensures Step(c, Resume(k)).Some? && Step(Step(c, Resume(k)).value, Return) == Some(d)
    ensures Quiet(d) && Further(c, d, i) && d.levels[k].finished && !d.levels[k].done
  {
    Around(c, k);
    assert !c.levels[k].done;
    hide LevelOk, StackOk, ReturnTop, Push;
    ResumeKeeps(c, k);
    ResumedForm(c, k);
    ReturnKeeps(Push(c, k));
    d := ReturnTop(Push(c, k));
  }

  lemma ResumedForm(c: Chain, k: nat)
    requires Quiet(c) && k < |c.levels| && c.levels[k].parked && c.levels[k].started && !c.levels[k].done
    ensures Push(c, k).stack == [k] && Running(Push(c, k))
    ensures ReturnTop(Push(c, k)) == With(c, k, c.levels[k].(finished := true))
  {
    var one := Push(c, k);
    assert one.stack == [k] && [k][..0] == [];
    assert one.levels[k := c.levels[k].(finished := true)] == c.levels[k := c.levels[k].(finished := true)];
  }

  /** Every other level settles. */
  lemma {:induction false} SettleOthers(c: Chain, i: nat, k: nat) returns (events: seq<Event>, d: Chain)
    requires Stray(c, i) && Quiet(c) && k <= |c.levels|
    requires forall j | 0 <= j < k && j != i && c.levels[j].started :: c.levels[j].done
    ensures Then(c, events) == Some(d) && Winding(events) && Quiet(d) && Further(c, d, i)
    ensures forall j | 0 <= j < |d.levels| && j != i && d.levels[j].started :: d.levels[j].done
    decreases |c.levels| - k
  {
    hide Step, Stray;
    if k == |c.levels| { return [], c; }
    if k == i || !c.levels[k].started {
      events, d := SettleOthers(c, i, k + 1);
    } else {
      var one, next := SettleOne(c, i, k);
      var more, last := SettleOthers(next, i, k + 1);
      ThenThen(c, one, more);
      FurtherStill(c, next, last, i);
      events, d := one + more, last;
    }
  }

  /** A stray level started below others, so the outermost level started. */
  lemma {:induction false} OuterStarted(c: Chain, i: nat)
    requires ChainOk(c) && i < |c.levels| && c.levels[i].started
    ensures c.levels[0].started
  {
    Around(c, i);
    if i > 0 {
      Around(c, i - 1);
      OuterStarted(c, i - 1);
    }
  }

  /** The drain is asked for, if it was not yet, and resolves. */
  lemma ResolveDrain(c: Chain, i: nat) returns (events: seq<Event>, d: Chain)
    requires Stray(c, i) && Quiet(c)
    requires forall j | 0 <= j < |c.levels| && j != i && c.levels[j].started :: c.levels[j].done
    ensures Then(c, events) == Some(d) && Winding(events) && d.drain.Drained? && d.levels == c.levels
  {
    Around(c, i);
    OuterStarted(c, i);
    forall k | 0 <= k < |c.branches| && c.branches[k] < |c.levels| ensures c.levels[c.branches[k]].done {
      assert c.branches[k] in c.branches;
      Around(c, c.branches[k]);
    }
    match c.drain
    case Drained => return [], c;
    case Awaiting(end) =>
      events, d := ResolveBatches(c);
    case NotAsked =>
      var asked := Step(c, AskDrain).value;
      if c.branches == [] {
        ThenFirst(c, AskDrain, []);
        return [AskDrain], asked;
      }
      var more, last := ResolveBatches(asked);
      ThenFirst(c, AskDrain, more);
      events, d := [AskDrain] + more, last;
  }

  lemma ResolveBatches(c: Chain) returns (events: seq<Event>, d: Chain)
    requires Quiet(c) && c.drain.Awaiting? && c.drain.end <= |c.branches|
    requires forall k | 0 <= k < |c.branches| && c.branches[k] < |c.levels| :: c.levels[c.branches[k]].done
    ensures Then(c, events) == Some(d) && Winding(events) && d.drain.Drained? && d.levels == c.levels
    decreases |c.branches| - c.drain.end
  {
    var next := Step(c, BatchSettles).value;
    if next.drain.Drained? {
      ThenFirst(c, BatchSettles, []);
      return [BatchSettles], next;
    }
    var more, last := ResolveBatches(next);
    ThenFirst(c, BatchSettles, more);
    events, d := [BatchSettles] + more, last;
  }

  /** Wherever an unwatched level is running, a drain can resolve with that level still running, and nothing else going wrong. */
  lemma OrphanEscapes(n: nat, events: seq<Event>, i: nat) returns (more: seq<Event>)
    requires Run(n, events).Some? && i < |Run(n, events).value.levels|
    requires Run(n, events).value.levels[i].orphan && !Run(n, events).value.levels[i].done
    ensures Winding(more) && Run(n, events + more).Some?
    ensures var d := Run(n, events + more).value; d.drain.Drained? && !AllSettled(d) && i < |d.levels| && !d.levels[i].done
  {
    hide Step, LevelOk;
    RunOk(n, events);
    var c := Run(n, events).value;
    var parks, quiet := ParkAll(c, i);
    var settles, settled := SettleOthers(quiet, i, 0);
    var asks, d := ResolveDrain(settled, i);
    ThenThen(c, parks, settles);
    ThenThen(c, parks + settles, asks);
    more := parks + settles + asks;
    RunThen(n, events, more);
    StrayStarted(settled, i);
  }

  lemma StrayStarted(c: Chain, i: nat)
    requires Stray(c, i)
    ensures c.levels[i].started
  {
    Around(c, i);
  }

  /** The drain resolved although some handler is still running. */
  predicate Escaped(c: Option<Chain>) {
    c.Some? && c.value.drain.Drained? && !AllSettled(c.value)
  }

  /** An impolite event leaves a level running that nobody watches. */
  lemma ImpoliteStrays(c: Chain, e: Event) returns (i: nat)
    requires ChainOk(c) && Step(c, e).Some? && !Polite(c, e)
    ensures var d := Step(c, e).value; i < |d.levels| && d.levels[i].orphan && !d.levels[i].done
  {
    if e.Throw? {
      i := Top(c) + 1;
    } else {
      i := e.level + 1;
      Around(c, i);
    }
  }

  /** Politeness is needed, one event at a time: from any reachable chain an impolite one leads on to a resolved drain with a handler still running. */
  lemma ImpoliteEscapes(n: nat, events: seq<Event>, e: Event) returns (more: seq<Event>)
    requires Run(n, events + [e]).Some? && Run(n, events).Some? && !Polite(Run(n, events).value, e)
    ensures Winding(more) && Escaped(Run(n, events + [e] + more))
  {
    hide Step, Polite, ChainOk;
    RunOk(n, events);
    RunSnoc(n, events, e);
    var i := ImpoliteStrays(Run(n, events).value, e);
    more := OrphanEscapes(n, events + [e], i);
  }

  /** A continuation without failures and further `next()` calls is polite. */
  lemma {:induction false} WindingIsPolite(n: nat, events: seq<Event>, more: seq<Event>)
    requires Run(n, events + more).Some? && Run(n, events).Some? && PoliteRun(n, events) && Winding(more)
    ensures PoliteRun(n, events + more)
    decreases |more|
  {
    hide Step;
    var all := events + more;
    if more == [] {
      assert all == events;
    } else {
      var init := more[..|more| - 1];
      assert all[..|all| - 1] == events + init && all[|all| - 1] == more[|more| - 1];
      assert forall e | e in init :: e in more;
      WindingIsPolite(n, events, init);
      assert more[|more| - 1] in more;
    }
  }

  /** Once everything settled behind a resolved drain, a polite event starts nothing new. */
  lemma SettledStays(c: Chain, e: Event)
    requires ChainOk(c) && AllSettled(c) && c.drain.Drained? && Polite(c, e) && Step(c, e).Some?
    requires |c.levels| > 0 && c.levels[0].started
    ensures AllSettled(Step(c, e).value) && Step(c, e).value.drain.Drained?
  {
    if c.stack != [] {
      Popped(c);
      assert Top(c) in c.stack;
      Around(c, Top(c));
    }
    if e.Resume? || e.Tail? { if e.level < |c.levels| { Around(c, e.level); } }
  }

  /** Behind a drain that resolved in a polite run everything is settled, and stays so. */
  lemma {:induction false} PoliteStaysSettled(n: nat, events: seq<Event>)
    requires Run(n, events).Some? && PoliteRun(n, events) && Run(n, events).value.drain.Drained?
    ensures AllSettled(Run(n, events).value)
  {
    hide Step, Polite, AllSettled;
    if events != [] {
      var init, e := events[..|events| - 1], events[|events| - 1];
      var c := Run(n, init).value;
      RunOk(n, init);
      if c.drain.Drained? {
        PoliteStaysSettled(n, init);
        AskedWhenDone(n, init);
        Around(c, 0);
        SettledStays(c, e);
      } else {
        PoliteDrainSettlesAll(n, init, e);
      }
    }
  }

  /**
   After a polite run, one more event keeps the guarantee if and only if it is polite: behind a polite one no drain
   resolves with a handler still running, behind an impolite one some drain does.
   */
  lemma PoliteExactly(n: nat, events: seq<Event>, e: Event)
    requires Run(n, events).Some? && PoliteRun(n, events) && Run(n, events + [e]).Some?
    ensures Polite(Run(n, events).value, e) <==> forall more | Winding(more) :: !Escaped(Run(n, events + [e] + more))
  {
    hide Step, Polite, AllSettled, Winding;
    if Polite(Run(n, events).value, e) {
      assert (events + [e])[..|events|] == events;
      forall more | Winding(more) ensures !Escaped(Run(n, events + [e] + more)) {
        if Run(n, events + [e] + more).Some? {
          WindingIsPolite(n, events + [e], more);
          if Run(n, events + [e] + more).value.drain.Drained? { PoliteStaysSettled(n, events + [e] + more); }
        }
      }
    } else {
      var more := ImpoliteEscapes(n, events, e);
    }
  }

  /** A level that calls `next()` after it settled starts a handler no drain waits for. */
  lemma LateNextEscapes()
    ensures exists more :: Winding(more) && Escaped(Run(2, [Enter, Return, CallNext(0)] + more))
  {
    var c1 := Step(Fresh(2), Enter).value;
    assert c1.stack == [0];
    var c2 := Step(c1, Return).value;
    TwoSteps(Enter, Return, c1, c2);
    RunSnoc(2, [Enter, Return], CallNext(0));
    assert [Enter, Return] + [CallNext(0)] == [Enter, Return, CallNext(0)];
    var more := ImpoliteEscapes(2, [Enter, Return], CallNext(0));
  }

  lemma TwoSteps(x: Event, y: Event, c1: Chain, c2: Chain)
    requires Step(Fresh(2), x) == Some(c1) && Step(c1, y) == Some(c2)
    ensures Run(2, [x, y]) == Some(c2)
  {
    hide Step;
    assert Run(2, []) == Some(Fresh(2));
    RunSnoc(2, [], x);
    RunSnoc(2, [] + [x], y);
    assert [] + [x] + [y] == [x, y];
  }

  /** A level that started the one below it, which waits. */
  lemma Waiting() returns (c1: Chain, c2: Chain, c3: Chain)
    ensures Step(Fresh(2), Enter) == Some(c1) && Step(c1, CallNext(0)) == Some(c2) && Step(c2, Park) == Some(c3)
    ensures |c3.levels| == 2 && c3.stack == [0] && c3.levels[1].started && !c3.levels[1].done
  {
    c1 := Push(Fresh(2), 0);
    assert c1.stack == [0] && c1.levels[0] == UNTOUCHED.(started := true);
    c2 := Advance(c1, 0);
    assert c2.stack == [0, 1] && !c2.levels[1].orphan;
    c3 := ParkTop(c2);
    assert c3.stack == [0];
  }

  /** So does a level that throws while its own `next()` is still running. */
  lemma ThrowEscapes()
    ensures exists more :: Winding(more) && Escaped(Run(2, [Enter, CallNext(0), Park, Throw] + more))
  {
    var c1, c2, c3 := Waiting();
    var events := [Enter, CallNext(0), Park];
    TwoSteps(Enter, CallNext(0), c1, c2);
    RunSnoc(2, [Enter, CallNext(0)], Park);
    assert [Enter, CallNext(0)] + [Park] == events;
    RunSnoc(2, events, Throw);
    assert events + [Throw] == [Enter, CallNext(0), Park, Throw];
    var more := ImpoliteEscapes(2, events, Throw);
  }
}
