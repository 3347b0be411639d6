/**
 The gate under any strategy an application supplies, over whole runs: calls to `admit` at any
 time, decisions, late outcomes and releases, and when every slot taken comes back.
 */
module StrategyRuns {
  import opened Wrappers
  import opened LifecycleSpec

  /** Where the gate stands with a request. */
  datatype Call =
    /** Let in below the cap, or turned away while draining: no strategy was asked. */
    | Passed
    | Barred
    /** The strategy is being asked. */
    | Asked
    | Promised
    /** Its answer. */
    | Granted
    | Denied
    /** A request let in has settled. */
    | Over(asked: bool)

  /** `took` holds the once-flags of the strategies' `admit` closures. */
  datatype Gates = Gates(core: State, next: Ticket, calls: map<Ticket, Call>, took: set<Ticket>)

  const NEW_GATES := Gates(INITIAL, 0, map[], {})

  datatype Event =
    | Arrives
    | CallsAdmit(t: Ticket)
    | Decides(t: Ticket, decision: Decision)
    | Resolves(t: Ticket, outcome: Outcome)
    | Settles(t: Ticket)
    | Drains

  predicate WasAsked(call: Call) {
    call.Asked? || call.Promised? || call.Granted? || call.Denied? || (call.Over? && call.asked)
  }

  predicate Running(call: Call) {
    call.Passed? || call.Granted?
  }

  function Flagged(took: set<Ticket>, t: Ticket, on: bool): set<Ticket> {
    if on then took + {t} else took - {t}
  }

  function Arrived(o: Overload, g: Gates): Gates {
    var t := g.next;
    var call := if g.core.draining then Barred else if Below(Some(o), g.core.inFlight) then Passed else Asked;
    Gates(if call.Passed? then Take(g.core, t) else g.core, t + 1, g.calls[t := call], g.took)
  }

  /** What a decision or a late outcome leaves. */
  function Judged(g: Gates, t: Ticket, r: (State, bool, Verdict)): Gates {
    g.(core := r.0, took := Flagged(g.took, t, r.1),
       calls := g.calls[t := match r.2 case Served => Granted case TurnedAway => Denied case Undecided => Promised])
  }

  function Step(o: Overload, g: Gates, e: Event): Option<Gates> {
    match e
    case Arrives => Some(Arrived(o, g))
    case CallsAdmit(t) =>
      if t in g.calls && WasAsked(g.calls[t]) then
        Some(g.(core := AdmitCall(g.core, t, t in g.took), took := g.took + {t}))
      else None
    case Decides(t, decision) =>
      if t in g.calls && g.calls[t].Asked? then Some(Judged(g, t, DecideCall(Some(o), g.core, t, t in g.took, decision))) else None
    case Resolves(t, outcome) =>
      if t in g.calls && g.calls[t].Promised? then Some(Judged(g, t, ResolveCall(Some(o), g.core, t, t in g.took, outcome))) else None
    case Settles(t) =>
      if t in g.calls && Running(g.calls[t]) then
        Some(g.(core := Release(Some(o), g.core, t), calls := g.calls[t := Over(g.calls[t].Granted?)]))
      else None
    case Drains => Some(g.(core := StartDraining(g.core)))
  }

  function Run(o: Overload, events: seq<Event>): Option<Gates> {
    if events == [] then Some(NEW_GATES)
    else
      match Run(o, events[..|events| - 1])
      case None => None
      case Some(g) => Step(o, g, events[|events| - 1])
  }

  // ---------------------------------------------------------------- the invariant

  /** Who has a slot: whoever is running, and whoever was asked about and whose strategy took one and has not been judged, or took it after it denied. */
  predicate HasSlot(call: Call, took: bool) {
    Running(call) || ((call.Asked? || call.Promised? || call.Denied?) && took)
  }

  predicate CallOk(g: Gates, t: Ticket) {
    && (t in g.calls ==> t < g.next)
    && (t in g.core.holders <==> t in g.calls && HasSlot(g.calls[t], t in g.took))
    && (t in g.took ==> t in g.calls && WasAsked(g.calls[t]))
    && (t in g.calls && (g.calls[t].Granted? || (g.calls[t].Over? && g.calls[t].asked)) ==> t in g.took)
  }

  ghost predicate GatesOk(g: Gates) {
    && g.core.inFlight == |g.core.holders| && g.core.queue == [] && g.core.closeWaiters == []
    && forall t :: CallOk(g, t)
  }

  /** Without a queue a release only gives the slot back. */
  lemma PlainRelease(o: Option<Overload>, s: State, t: Ticket)
    requires s.queue == [] && s.closeWaiters == []
    ensures Release(o, s, t) == GiveBack(s, t)
  {
  }

  lemma TakeCounts(s: State, t: Ticket)
    requires s.inFlight == |s.holders| && t !in s.holders
    ensures Take(s, t).inFlight == |Take(s, t).holders|
  {
  }

  lemma GiveBackCounts(s: State, t: Ticket)
    requires s.inFlight == |s.holders| && t in s.holders
    ensures GiveBack(s, t).inFlight == |GiveBack(s, t).holders|
  {
  }

  lemma RefusedKeeps(o: Overload, g: Gates, t: Ticket)
    requires GatesOk(g) && t in g.calls && (g.calls[t].Asked? || g.calls[t].Promised?)
    ensures GatesOk(Judged(g, t, RefuseCall(Some(o), g.core, t, t in g.took)))
  {
    assert CallOk(g, t);
    PlainRelease(Some(o), g.core, t);
    if t in g.took { GiveBackCounts(g.core, t); }
    forall u ensures CallOk(Judged(g, t, RefuseCall(Some(o), g.core, t, t in g.took)), u) { assert CallOk(g, u); }
  }

  lemma GrantedKeeps(g: Gates, t: Ticket)
    requires GatesOk(g) && t in g.calls && (g.calls[t].Asked? || g.calls[t].Promised?)
    ensures GatesOk(Judged(g, t, (AdmitCall(g.core, t, t in g.took), true, Served)))
  {
    assert CallOk(g, t);
    if t !in g.took { TakeCounts(g.core, t); }
    forall u ensures CallOk(Judged(g, t, (AdmitCall(g.core, t, t in g.took), true, Served)), u) { assert CallOk(g, u); }
  }

  lemma UndecidedKeeps(g: Gates, t: Ticket)
    requires GatesOk(g) && t in g.calls && g.calls[t].Asked?
    ensures GatesOk(Judged(g, t, (g.core, t in g.took, Undecided)))
  {
    forall u ensures CallOk(Judged(g, t, (g.core, t in g.took, Undecided)), u) { assert CallOk(g, u) && CallOk(g, t); }
  }

  lemma ArrivedKeeps(o: Overload, g: Gates)
    requires GatesOk(g)
    ensures GatesOk(Arrived(o, g))
  {
    assert CallOk(g, g.next);
    TakeCounts(g.core, g.next);
    forall u ensures CallOk(Arrived(o, g), u) { assert CallOk(g, u); }
  }

  lemma AdmitKeeps(o: Overload, g: Gates, t: Ticket)
    requires GatesOk(g) && Step(o, g, CallsAdmit(t)).Some?
    ensures GatesOk(Step(o, g, CallsAdmit(t)).value)
  {
    assert CallOk(g, t);
    if t !in g.took { TakeCounts(g.core, t); }
    forall u ensures CallOk(Step(o, g, CallsAdmit(t)).value, u) { assert CallOk(g, u); }
  }

  lemma SettleKeeps(o: Overload, g: Gates, t: Ticket)
    requires GatesOk(g) && Step(o, g, Settles(t)).Some?
    ensures GatesOk(Step(o, g, Settles(t)).value)
  {
    assert CallOk(g, t);
    PlainRelease(Some(o), g.core, t);
    GiveBackCounts(g.core, t);
    forall u ensures CallOk(Step(o, g, Settles(t)).value, u) { assert CallOk(g, u); }
  }

  lemma ResolvedKeeps(o: Overload, g: Gates, t: Ticket, outcome: Outcome)
    requires GatesOk(g) && t in g.calls && g.calls[t].Promised?
    ensures GatesOk(Judged(g, t, ResolveCall(Some(o), g.core, t, t in g.took, outcome)))
  {
    hide GatesOk, Release, Below, Judged;
    if outcome.WakesNull? { GrantedKeeps(g, t); }
    RefusedKeeps(o, g, t);
  }

  lemma StepKeeps(o: Overload, g: Gates, e: Event)
    requires GatesOk(g) && Step(o, g, e).Some?
    ensures GatesOk(Step(o, g, e).value)
  {
    hide GatesOk, Release, Below, StartDraining, Arrived, Judged, AdmitCall;
    match e
    case Arrives => ArrivedKeeps(o, g);
    case CallsAdmit(t) => AdmitKeeps(o, g, t);
    case Decides(t, decision) =>
      if decision.NullNow? { GrantedKeeps(g, t); }
      else if decision.Later? { UndecidedKeeps(g, t); }
      else { RefusedKeeps(o, g, t); }
    case Resolves(t, outcome) => ResolvedKeeps(o, g, t, outcome);
    case Settles(t) => SettleKeeps(o, g, t);
    case Drains => DrainedKeeps(g);
  }

  lemma DrainedKeeps(g: Gates)
    requires GatesOk(g)
    ensures GatesOk(g.(core := StartDraining(g.core)))
  {
    forall u ensures CallOk(g.(core := StartDraining(g.core)), u) { assert CallOk(g, u); }
  }

  /** Over every run, whatever the strategies do, the counter is the slots and every slot has its request. */
  lemma {:induction false} RunOk(o: Overload, events: seq<Event>)
    requires Run(o, events).Some?
    ensures GatesOk(Run(o, events).value)
  {
    hide Step;
    if events == [] {
      forall t ensures CallOk(NEW_GATES, t) {}
    } else {
      RunOk(o, events[..|events| - 1]);
      StepKeeps(o, Run(o, events[..|events| - 1]).value, events[|events| - 1]);
    }
  }

  lemma CounterIs(g: Gates)
    requires GatesOk(g)
    ensures g.core.inFlight == |g.core.holders|
  {
  }

  lemma DecidedCall(o: Overload, g: Gates, t: Ticket, decision: Decision)
    requires GatesOk(g) && t in g.calls && g.calls[t].Asked?
    ensures var r := DecideCall(Some(o), g.core, t, t in g.took, decision);
            && r.2 == (if decision.NullNow? then Served else if decision.Later? then Undecided else TurnedAway)
            && r.0.holders == (if decision.NullNow? then g.core.holders + {t} else if decision.Later? then g.core.holders else g.core.holders - {t})
  {
    assert CallOk(g, t);
    PlainRelease(Some(o), g.core, t);
    hide Release;
  }

  lemma ResolvedCall(o: Overload, g: Gates, t: Ticket, outcome: Outcome)
    requires GatesOk(g) && t in g.calls && g.calls[t].Promised?
    ensures var r := ResolveCall(Some(o), g.core, t, t in g.took, outcome);
            var granted := outcome.WakesNull? && (t in g.core.holders || (!g.core.draining && !Full(o, g.core)));
            && r.2 == (if granted then Served else TurnedAway)
            && r.0.holders == (if granted then g.core.holders + {t} else g.core.holders - {t})
  {
    assert CallOk(g, t);
    PlainRelease(Some(o), g.core, t);
    hide Release;
  }

  // ---------------------------------------------------------------- who gets in

  /** Every slot is taken. */
  predicate Full(o: Overload, s: State) {
    o.maxConcurrency.Some? && s.inFlight >= o.maxConcurrency.value
  }

  /** Over every run: below the cap an arrival is let in, at the cap its strategy is asked, while draining it is barred; nothing else changes. */
  lemma ArrivalExactly(o: Overload, events: seq<Event>)
    requires Run(o, events).Some?
    ensures Step(o, Run(o, events).value, Arrives).Some?
    ensures var g, next := Run(o, events).value, Step(o, Run(o, events).value, Arrives).value;
            var call := if g.core.draining then Barred else if Full(o, g.core) then Asked else Passed;
            && g.next !in g.calls && next.calls == g.calls[g.next := call] && next.took == g.took && next.next == g.next + 1
            && next.core == if call.Passed? then g.core.(inFlight := g.core.inFlight + 1, holders := g.core.holders + {g.next}) else g.core
  {
    RunOk(o, events);
    assert CallOk(Run(o, events).value, Run(o, events).value.next);
  }

  /** Over every run: a decision at once grants exactly on null and waits exactly on a promise; anything else denies. */
  lemma DecidedExactly(o: Overload, events: seq<Event>, t: Ticket, decision: Decision)
    requires Run(o, events).Some?
    ensures var g := Run(o, events).value;
            Step(o, g, Decides(t, decision)).Some? <==> t in g.calls && g.calls[t].Asked?
    ensures var g := Run(o, events).value;
            Step(o, g, Decides(t, decision)).Some? ==>
              var next := Step(o, g, Decides(t, decision)).value;
              && next.calls == g.calls[t := if decision.NullNow? then Granted else if decision.Later? then Promised else Denied]
              && next.core.holders == (if decision.NullNow? then g.core.holders + {t} else if decision.Later? then g.core.holders else g.core.holders - {t})
              && next.core.inFlight == |next.core.holders|
  {
    hide Run, GatesOk, DecideCall, ResolveCall;
    RunOk(o, events);
    var g := Run(o, events).value;
    if Step(o, g, Decides(t, decision)).Some? {
      StepKeeps(o, g, Decides(t, decision));
      CounterIs(Step(o, g, Decides(t, decision)).value);
      DecidedCall(o, g, t, decision);
    }
  }

  /** Over every run: a late outcome grants exactly on a null that holds a slot already, or finds one below the cap outside a drain; anything else denies. */
  lemma ResolvedExactly(o: Overload, events: seq<Event>, t: Ticket, outcome: Outcome)
    requires Run(o, events).Some?
    ensures var g := Run(o, events).value;
            Step(o, g, Resolves(t, outcome)).Some? <==> t in g.calls && g.calls[t].Promised?
    ensures var g := Run(o, events).value;
            Step(o, g, Resolves(t, outcome)).Some? ==>
              var next := Step(o, g, Resolves(t, outcome)).value;
              var granted := outcome.WakesNull? && (t in g.core.holders || (!g.core.draining && !Full(o, g.core)));
              && next.calls == g.calls[t := if granted then Granted else Denied]
              && next.core.holders == (if granted then g.core.holders + {t} else g.core.holders - {t})
              && next.core.inFlight == |next.core.holders|
  {
    hide Run, GatesOk, DecideCall, ResolveCall;
    RunOk(o, events);
    var g := Run(o, events).value;
    if Step(o, g, Resolves(t, outcome)).Some? {
      StepKeeps(o, g, Resolves(t, outcome));
      CounterIs(Step(o, g, Resolves(t, outcome)).value);
      ResolvedCall(o, g, t, outcome);
    }
  }

  /** Over every run: a request let in gives its slot back when it settles, and only then. */
  lemma SettledExactly(o: Overload, events: seq<Event>, t: Ticket)
    requires Run(o, events).Some?
    ensures var g := Run(o, events).value;
            Step(o, g, Settles(t)).Some? <==> t in g.calls && (g.calls[t].Passed? || g.calls[t].Granted?)
    ensures var g := Run(o, events).value;
            Step(o, g, Settles(t)).Some? ==>
              var next := Step(o, g, Settles(t)).value;
              && t in g.core.holders && next.core.holders == g.core.holders - {t} && next.core.inFlight == g.core.inFlight - 1
              && next.calls.Keys == g.calls.Keys && next.calls[t].Over?
  {
    RunOk(o, events);
    var g := Run(o, events).value;
    assert CallOk(g, t);
    PlainRelease(Some(o), g.core, t);
  }

  // ---------------------------------------------------------------- what the strategies owe

  /** While a strategy is being asked its flag says who holds the slot; once it has answered there is one net slot or none. */
  lemma OneNetSlot(o: Overload, events: seq<Event>, t: Ticket)
    requires Run(o, events).Some? && t in Run(o, events).value.calls
    ensures var g := Run(o, events).value;
            && (g.calls[t].Asked? || g.calls[t].Promised? ==> (t in g.took <==> t in g.core.holders))
            && (Running(g.calls[t]) ==> t in g.core.holders)
            && (g.calls[t].Barred? || g.calls[t].Over? ==> t !in g.core.holders)
            && (g.calls[t].Denied? ==> (t in g.core.holders <==> Late(o, events, t)))
  {
    RunOk(o, events);
    assert CallOk(Run(o, events).value, t);
    LateExactly(o, events, t);
  }

  /** `admit` was called for a request after it had been denied. */
  predicate Late(o: Overload, events: seq<Event>, t: Ticket)
    requires Run(o, events).Some?
  {
    events != [] &&
    (|| Late(o, events[..|events| - 1], t)
     || (var g := Run(o, events[..|events| - 1]).value;
         events[|events| - 1] == CallsAdmit(t) && t in g.calls && g.calls[t].Denied?))
  }

  /** A denied request has a slot exactly when its strategy called `admit` too late. */
  lemma {:induction false} LateExactly(o: Overload, events: seq<Event>, t: Ticket)
    requires Run(o, events).Some?
    ensures Late(o, events, t) <==> t in Run(o, events).value.calls && Run(o, events).value.calls[t].Denied? && t in Run(o, events).value.took
  {
    if events != [] {
      var init, e := events[..|events| - 1], events[|events| - 1];
      LateExactly(o, init, t);
      RunOk(o, init);
      assert CallOk(Run(o, init).value, t);
      LateStep(o, Run(o, init).value, e, t);
    }
  }

  predicate Leaked(g: Gates, t: Ticket) {
    t in g.calls && g.calls[t].Denied? && t in g.took
  }

  lemma LateStep(o: Overload, g: Gates, e: Event, t: Ticket)
    requires CallOk(g, t) && Step(o, g, e).Some?
    ensures Leaked(Step(o, g, e).value, t) <==> Leaked(g, t) || (e == CallsAdmit(t) && t in g.calls && g.calls[t].Denied?)
  {
    hide Release, Below, StartDraining;
  }

  ghost predicate NobodyLate(o: Overload, events: seq<Event>)
    requires Run(o, events).Some?
  {
    forall t: Ticket :: !Late(o, events, t)
  }

  /** When every call is answered and every request has settled, the counter is back at zero if and only if no strategy called `admit` after it had denied. */
  lemma QuietExactly(o: Overload, events: seq<Event>)
    requires Run(o, events).Some?
    requires forall t | t in Run(o, events).value.calls :: var call := Run(o, events).value.calls[t]; call.Barred? || call.Denied? || call.Over?
    ensures Run(o, events).value.core.inFlight == 0 <==> NobodyLate(o, events)
  {
    var g := Run(o, events).value;
    RunOk(o, events);
    forall t ensures t in g.core.holders <==> Late(o, events, t) {
      assert CallOk(g, t);
      LateExactly(o, events, t);
    }
    if t: Ticket :| Late(o, events, t) {
      assert t in g.core.holders && |g.core.holders| > 0;
    } else {
      assert g.core.holders == {} by { forall t: Ticket ensures t !in g.core.holders { assert !Late(o, events, t); } }
    }
  }

  lemma RunSnoc(o: Overload, events: seq<Event>, e: Event)
    requires Run(o, events).Some?
    ensures Run(o, events + [e]) == Step(o, Run(o, events).value, e)
  {
    assert (events + [e])[..|events|] == events;
  }

  /** Such a strategy: with room for one, a denied request whose strategy then calls `admit` keeps a slot for good. */
  lemma LateAdmitLeaks(o: Overload)
    requires o.maxConcurrency == Some(1)
    ensures var events := [Arrives, Arrives, Decides(1, ResponseNow), CallsAdmit(1), Settles(0)];
            && Run(o, events).Some?
            && Run(o, events).value.calls == map[0 := Over(false), 1 := Denied]
            && Run(o, events).value.core.inFlight == 1
  {
    hide Run;
    var one := Arrived(o, NEW_GATES);
    var two := Arrived(o, one);
    assert one.core.inFlight == 1 && two.calls == map[0 := Passed, 1 := Asked];
    var three := Judged(two, 1, RefuseCall(Some(o), two.core, 1, false));
    var four := three.(core := Take(three.core, 1), took := three.took + {1});
    PlainRelease(Some(o), four.core, 0);
    var five := four.(core := GiveBack(four.core, 0), calls := four.calls[0 := Over(false)]);
    assert five.calls == map[0 := Over(false), 1 := Denied];
    assert Run(o, []) == Some(NEW_GATES) by { NothingRun(o); }
    RunSnoc(o, [], Arrives);
    RunSnoc(o, [] + [Arrives], Arrives);
    RunSnoc(o, [] + [Arrives] + [Arrives], Decides(1, ResponseNow));
    RunSnoc(o, [] + [Arrives] + [Arrives] + [Decides(1, ResponseNow)], CallsAdmit(1));
    RunSnoc(o, [] + [Arrives] + [Arrives] + [Decides(1, ResponseNow)] + [CallsAdmit(1)], Settles(0));
    assert [] + [Arrives] + [Arrives] + [Decides(1, ResponseNow)] + [CallsAdmit(1)] + [Settles(0)]
        == [Arrives, Arrives, Decides(1, ResponseNow), CallsAdmit(1), Settles(0)];
  }

  lemma NothingRun(o: Overload)
    ensures Run(o, []) == Some(NEW_GATES)
  {
  }
}
