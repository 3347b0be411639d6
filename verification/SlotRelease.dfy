/**
 One admitted request and its slot: settling, the deadline race, the zombie that settles
 late, and the body held open while the application drains.
 */
module SlotRelease {
  import opened Wrappers
  import opened LifecycleSpec

  /** Entered the pipeline; parked on a promise; its promise settled; past its settle. */
  datatype Stage = Entered | Pending | Settling | Settled

  /** Continuations waiting in the microtask queue. */
  datatype Micro = SettleTask(body: Body) | RaceTask

  datatype Timer = Off | Armed | Spent

  /** A body wrapped while draining: the pump's and the hold's once-flags. */
  datatype Hold = NoHold | Open(finished: bool, released: bool)

  datatype Request = Request(
    stage: Stage,
    micro: seq<Micro>,
    timer: Timer,
    /** The race is over. */
    done: bool,
    /** The deadline answered: the late settle must not release. */
    answered: bool,
    hold: Hold,
    /** How often the slot was given back, and the client answered. */
    releases: nat,
    answers: nat)

  const FRESH := Request(Entered, [], Off, false, false, NoHold, 0, 0)

  datatype Event =
    | SyncSettled(body: Body)
    | Parks
    | PromiseSettles(body: Body)
    | Microtask
    | TimerFires
    | PumpEnds

  /** What the surrounding code knows: a deadline is configured, and timers wait for the microtask queue. */
  datatype Rules = Rules(deadline: bool, microtasksFirst: bool)

  /** Settle through `settleRequest`: give the slot back, or hold it for the body. */
  function SettleSlot(r: Request, draining: bool, body: Body): Request {
    if draining && body.Readable? then r.(hold := Open(false, false)) else r.(releases := r.releases + 1)
  }

  /** The pump's `finish`, guarded, over the hold's release, guarded. */
  function FinishPump(r: Request): Request {
    match r.hold
    case NoHold => r
    case Open(finished, released) =>
      if finished then r
      else if released then r.(hold := Open(true, true))
      else r.(hold := Open(true, true), releases := r.releases + 1)
  }

  function RunMicro(rules: Rules, draining: bool, r: Request): Request
    requires r.micro != []
  {
    var rest := r.micro[1..];
    match r.micro[0]
    case SettleTask(body) =>
      var settled := if r.answered then r else SettleSlot(r, draining, body);
      settled.(stage := Settled,
               micro := if rules.deadline then rest + [RaceTask] else rest,
               answers := if rules.deadline then settled.answers else settled.answers + 1)
    case RaceTask =>
      // A race already over cancels the late body, which ends its pump.
      if r.done then FinishPump(r.(micro := rest))
      else r.(micro := rest, done := true, timer := Spent, answers := r.answers + 1)
  }

  /** One synchronous section; None when the event cannot happen here. */
  function Step(rules: Rules, draining: bool, r: Request, e: Event): Option<Request> {
    match e
    case SyncSettled(body) =>
      if !r.stage.Entered? then None
      else Some(SettleSlot(r, draining, body).(stage := Settled, answers := r.answers + 1))
    case Parks =>
      if !r.stage.Entered? then None
      else Some(r.(stage := Pending, timer := if rules.deadline then Armed else Off))
    case PromiseSettles(body) =>
      if !r.stage.Pending? then None
      else Some(r.(stage := Settling, micro := r.micro + [SettleTask(body)]))
    case Microtask => if r.micro == [] then None else Some(RunMicro(rules, draining, r))
    case TimerFires =>
      if !r.timer.Armed? || (rules.microtasksFirst && r.micro != []) then None
      else if r.done then Some(r.(timer := Spent))
      else Some(r.(timer := Spent, done := true, answered := true, releases := r.releases + 1, answers := r.answers + 1))
    case PumpEnds => if r.hold.NoHold? then None else Some(FinishPump(r))
  }

  /** Any run: each event with the drain flag it found. */
  function Run(rules: Rules, events: seq<(Event, bool)>): Option<Request> {
    if events == [] then Some(FRESH)
    else
      match Run(rules, events[..|events| - 1])
      case None => None
      case Some(r) => Step(rules, events[|events| - 1].1, r, events[|events| - 1].0)
  }

  // ---------------------------------------------------------------- the invariant

  /** The slot is back: the deadline freed it, or the request settled and holds no open body. */
  predicate Freed(r: Request) {
    r.answered || (r.stage.Settled? && (r.hold.NoHold? || r.hold.released))
  }

  ghost predicate SlotOk(rules: Rules, r: Request) {
    && r.releases == (if Freed(r) then 1 else 0)
    && r.answers == (if r.done || (r.stage.Settled? && r.micro == []) then 1 else 0)
    && (r.stage.Entered? || r.stage.Pending? ==> r.micro == [])
    && (r.stage.Settling? <==> r.micro != [] && r.micro[0].SettleTask?)
    && |r.micro| <= 1
    && (r.micro == [RaceTask] ==> rules.deadline && r.stage.Settled? && (r.done <==> r.answered))
    && (r.hold.Open? ==> r.hold.finished == r.hold.released && !r.answered && r.stage.Settled?)
    && (r.timer.Armed? ==> rules.deadline && !r.done && !r.answered && (r.stage.Pending? || r.micro != []))
    && (r.answered ==> r.done && r.hold.NoHold? && !r.stage.Entered?)
    && (r.done ==> rules.deadline && !r.stage.Entered?)
    && (r.done && !r.answered ==> r.stage.Settled? && r.micro == [])
    && (r.stage.Entered? ==> r.timer.Off?)
    && (r.stage.Pending? && !r.answered ==> r.timer == (if rules.deadline then Armed else Off))
  }

  /** The one ordering that matters: the deadline fires between the settle and the race hearing of it. */
  predicate Between(r: Request, e: Event) {
    e.TimerFires? && r.timer.Armed? && r.micro == [RaceTask]
  }

  lemma StepKeeps(rules: Rules, draining: bool, r: Request, e: Event)
    requires SlotOk(rules, r) && Step(rules, draining, r, e).Some? && !Between(r, e)
    ensures SlotOk(rules, Step(rules, draining, r, e).value)
  {
    if e.Microtask? { assert r.micro == [r.micro[0]]; }
  }

  /** Let the deadline in there and the slot comes back twice, whatever the body. */
  lemma BetweenReleasesTwice(rules: Rules, draining: bool, r: Request)
    requires SlotOk(rules, r) && Between(r, TimerFires) && !rules.microtasksFirst
    ensures Step(rules, draining, r, TimerFires).Some?
    ensures var fired := Step(rules, draining, r, TimerFires).value;
            Step(rules, draining, fired, Microtask).Some? && Step(rules, draining, fired, Microtask).value.releases == 2
  {
  }

  lemma {:induction false} RunOk(rules: Rules, events: seq<(Event, bool)>)
    requires rules.microtasksFirst && Run(rules, events).Some?
    ensures SlotOk(rules, Run(rules, events).value)
  {
    if events != [] {
      RunOk(rules, events[..|events| - 1]);
      StepKeeps(rules, events[|events| - 1].1, Run(rules, events[..|events| - 1]).value, events[|events| - 1].0);
    }
  }

  /** Nothing is left to happen to the slot: the deadline answered, or the request settled and its body is finished. */
  predicate Complete(r: Request) {
    r.answered || (r.stage.Settled? && (r.hold.Open? ==> r.hold.finished))
  }

  /** Over every interleaving the slot is given back at most once, and exactly once by the time nothing holds it. */
  lemma ReleasedOnce(rules: Rules, events: seq<(Event, bool)>)
    requires rules.microtasksFirst && Run(rules, events).Some?
    ensures Run(rules, events).value.releases <= 1
    ensures Complete(Run(rules, events).value) <==> Run(rules, events).value.releases == 1
    ensures Run(rules, events).value.answers <= 1
  {
    RunOk(rules, events);
  }

  /** That ordering is reachable as soon as timers need not wait for microtasks. */
  lemma BetweenIsReachable() returns (events: seq<(Event, bool)>)
    ensures Run(Rules(true, false), events).Some? && Between(Run(Rules(true, false), events).value, TimerFires)
    ensures SlotOk(Rules(true, false), Run(Rules(true, false), events).value)
  {
    var rules := Rules(true, false);
    var a := [(Parks, false)];
    var b := a + [(PromiseSettles(NoBody), false)];
    events := b + [(Microtask, false)];
    assert a[..0] == [] && b[..1] == a && events[..2] == b;
    assert Run(rules, a) == Some(FRESH.(stage := Pending, timer := Armed));
    assert [] + [SettleTask(NoBody)] == [SettleTask(NoBody)] && [SettleTask(NoBody)][1..] + [RaceTask] == [RaceTask];
    assert Run(rules, b) == Some(FRESH.(stage := Settling, timer := Armed, micro := [SettleTask(NoBody)]));
  }

  // ---------------------------------------------------------------- what settling and the deadline do

  /** The event in which a response settles, sent at once or through its promise, unless the deadline answered before. */
  predicate Settles(r: Request, e: Event, body: Body) {
    || (e == SyncSettled(body) && r.stage.Entered?)
    || (e.Microtask? && !r.answered && r.micro != [] && r.micro[0] == SettleTask(body))
  }

  /** A response that settles keeps its slot, for a body still to be read, if and only if the application drains and the body can be read. */
  lemma SettlesExactly(rules: Rules, draining: bool, r: Request, e: Event, body: Body)
    requires SlotOk(rules, r) && Settles(r, e, body)
    ensures Step(rules, draining, r, e).Some?
    ensures var next := Step(rules, draining, r, e).value;
            && r.releases == 0 && next.stage.Settled?
            && (next.releases == 0 <==> draining && body == Readable)
            && (next.hold == Open(false, false) <==> draining && body == Readable)
            && next.releases <= 1
  {
  }

  /** Only its pump gives an open body's slot back, and its end does. */
  lemma HeldUntilEnd(rules: Rules, draining: bool, r: Request, e: Event)
    requires SlotOk(rules, r) && r.hold == Open(false, false) && rules.microtasksFirst && Step(rules, draining, r, e).Some?
    ensures r.releases == 0
    ensures var next := Step(rules, draining, r, e).value;
            if e.PumpEnds? then next.releases == 1 && next.hold == Open(true, true) else next.releases == 0 && next.hold == r.hold
  {
  }

  /** A request that waits on a promise has its deadline armed, when there is one; when it fires it answers and frees the slot. */
  lemma DeadlineFrees(rules: Rules, events: seq<(Event, bool)>, draining: bool)
    requires rules.microtasksFirst && Run(rules, events).Some?
    requires Run(rules, events).value.stage.Pending? && !Run(rules, events).value.answered
    ensures var r := Run(rules, events).value;
            && r.releases == 0 && r.answers == 0
            && (Step(rules, draining, r, TimerFires).Some? <==> rules.deadline)
            && (rules.deadline ==> var next := Step(rules, draining, r, TimerFires).value; next.releases == 1 && next.answers == 1 && next.answered)
  {
    RunOk(rules, events);
  }
}
