/**
 One request past the gate, as objects: the settle, the deadline race, and the pump that
 holds a drain-time body, each proved against the request's state machine.
 */
module Served {
  import opened Wrappers
  import opened LifecycleSpec
  import opened Lifecycle
  import opened SlotRelease

  /** What one read of the source yields, and whether the consumer still takes the chunk. */
  datatype Read = Finished | Chunk(taken: bool) | Failed

  /** The release closure of a held body, once-guarded. */
  class BodyHold {
    const lc: LifecycleState
    const ticket: Ticket
    var released: bool

    constructor (lc: LifecycleState, ticket: Ticket)
      ensures this.lc == lc && this.ticket == ticket && !released
    {
      this.lc, this.ticket, released := lc, ticket, false;
    }

    method ReleaseHold()
      requires lc.Valid() && (!released ==> ticket in lc.holders)
      modifies this, lc, lc.queue
      ensures lc.Valid() && released
      ensures old(released) ==> lc.View() == old(lc.View()) && unchanged(lc)
      ensures !old(released) ==> lc.View() == Release(lc.overload, old(lc.View()), ticket)
    {
      if released { return; }
      released := true;
      lc.ReleaseInFlight(ticket);
    }
  }

  /** The re-pumped stream: reads on demand, and finishes once however it ends. */
  class Pump {
    const hold: BodyHold
    var finished: bool

    constructor (hold: BodyHold)
      ensures this.hold == hold && !finished
    {
      this.hold, finished := hold, false;
    }

    ghost function Flags(): Hold
      reads this, hold
    {
      Open(finished, hold.released)
    }

    ghost predicate Ready()
      reads this, hold, hold.lc, hold.lc.queue, hold.lc.waiterPool
    {
      hold.lc.Valid() && (!hold.released ==> hold.ticket in hold.lc.holders)
    }

    method Finish()
      requires Ready()
      modifies this, hold, hold.lc, hold.lc.queue
      ensures hold.lc.Valid() && finished
      ensures old(finished) || old(hold.released) ==> hold.lc.View() == old(hold.lc.View()) && hold.released == old(hold.released)
      ensures !old(finished) && !old(hold.released) ==>
        hold.released && hold.lc.View() == Release(hold.lc.overload, old(hold.lc.View()), hold.ticket)
    {
      if finished { return; }
      finished := true;
      hold.ReleaseHold();
    }

    /** One pull of the consumer: the source ends, fails, or the consumer no longer takes the chunk. */
    method Pull(read: Read)
      requires Ready()
      modifies this, hold, hold.lc, hold.lc.queue
      ensures hold.lc.Valid()
      ensures read == Chunk(true) ==> unchanged(this) && unchanged(hold) && hold.lc.View() == old(hold.lc.View())
      ensures read != Chunk(true) ==> finished
      ensures read != Chunk(true) && !old(finished) && !old(hold.released) ==>
        hold.released && hold.lc.View() == Release(hold.lc.overload, old(hold.lc.View()), hold.ticket)
      ensures old(finished) || old(hold.released) ==> hold.lc.View() == old(hold.lc.View()) && hold.released == old(hold.released)
    {
      match read
      case Finished => Finish();
      case Failed => Finish();
      case Chunk(taken) => if !taken { Finish(); }
    }

    method Cancel()
      requires Ready()
      modifies this, hold, hold.lc, hold.lc.queue
      ensures hold.lc.Valid() && finished
      ensures !old(finished) && !old(hold.released) ==>
        hold.released && hold.lc.View() == Release(hold.lc.overload, old(hold.lc.View()), hold.ticket)
      ensures old(finished) || old(hold.released) ==> hold.lc.View() == old(hold.lc.View()) && hold.released == old(hold.released)
    {
      Finish();
    }

    /** Whatever ends the stream: a cancel, or a pull that does not go on. */
    method End(read: Option<Read>)
      requires Ready() && read != Some(Chunk(true))
      modifies this, hold, hold.lc, hold.lc.queue
      ensures hold.lc.Valid() && finished
      ensures !old(finished) && !old(hold.released) ==>
        hold.released && hold.lc.View() == Release(hold.lc.overload, old(hold.lc.View()), hold.ticket)
      ensures old(finished) || old(hold.released) ==> hold.lc.View() == old(hold.lc.View()) && hold.released == old(hold.released)
    {
      hide Release;
      if read.None? {
        Cancel();
      } else {
        assert read.value != Chunk(true);
        Pull(read.value);
      }
    }
  }

  class ServedRequest {
    const lc: LifecycleState
    const ticket: Ticket
    const rules: Rules
    var stage: Stage
    /** Continuations this request has in the microtask queue. */
    var pending: seq<Micro>
    var timer: Timer
    var done: bool
    var deadlineAnswered: bool
    var pump: Pump?
    ghost var releases: nat
    ghost var answers: nat

    constructor (lc: LifecycleState, ticket: Ticket, deadline: bool)
      requires lc.Valid() && ticket in lc.holders
      ensures Valid() && Trace() == FRESH && this.lc == lc && this.ticket == ticket && rules == Rules(deadline, true)
    {
      this.lc, this.ticket, rules := lc, ticket, Rules(deadline, true);
      stage, pending, timer, done, deadlineAnswered, pump := Entered, [], Off, false, false, null;
      releases, answers := 0, 0;
    }

    /** The request as the state machine sees it. */
    ghost function Trace(): Request
      reads this, pump, if pump == null then {} else {pump.hold}
    {
      Request(stage, pending, timer, done, deadlineAnswered, if pump == null then NoHold else pump.Flags(), releases, answers)
    }

    ghost predicate Valid()
      reads this, lc, lc.queue, lc.waiterPool, pump, if pump == null then {} else {pump.hold}
    {
      && lc.Valid() && SlotOk(rules, Trace()) && rules.microtasksFirst
      && (releases == 0 <==> ticket in lc.holders)
      && (pump != null ==> pump.hold.lc == lc && pump.hold.ticket == ticket)
    }

    /** Settle: give the slot back, or wrap a readable body while draining. */
    method SettleRequest(body: Body)
      requires lc.Valid() && ticket in lc.holders && pump == null
      modifies this`pump, this`releases, lc, lc.queue
      ensures lc.Valid() && Trace() == SettleSlot(old(Trace()), old(lc.draining), body)
      ensures (lc.View(), pump != null) == Settle(lc.overload, old(lc.View()), ticket, body)
      ensures ticket in lc.holders <==> pump != null
      ensures pump != null ==> fresh(pump) && fresh(pump.hold) && pump.hold.lc == lc && pump.hold.ticket == ticket
    {
      hide Release, SlotOk;
      if lc.draining && !body.NoBody? { HoldBody(body); } else { ReleaseNow(); }
    }

    method ReleaseNow()
      requires lc.Valid() && ticket in lc.holders
      modifies this`releases, lc, lc.queue
      ensures lc.Valid() && lc.View() == Release(lc.overload, old(lc.View()), ticket)
      ensures ticket !in lc.holders && releases == old(releases) + 1
    {
      hide Release, Heard;
      ReleasedLeaves(lc.overload, lc.View(), ticket);
      lc.ReleaseInFlight(ticket);
      releases := releases + 1;
    }

    /** Wrap a body so that its slot stays taken until the consumer finishes; a locked one cannot be waited for. */
    method HoldBody(body: Body)
      requires lc.Valid() && ticket in lc.holders && pump == null && !body.NoBody?
      modifies this`pump, this`releases, lc, lc.queue
      ensures lc.Valid() && (pump != null <==> body.Readable?)
      ensures body.Readable? ==>
        && fresh(pump) && fresh(pump.hold) && pump.hold.lc == lc && pump.hold.ticket == ticket && pump.Flags() == Open(false, false)
        && unchanged(lc) && lc.View() == old(lc.View()) && releases == old(releases)
      ensures body.Locked? ==>
        lc.View() == Release(lc.overload, old(lc.View()), ticket) && ticket !in lc.holders && releases == old(releases) + 1
    {
      hide Release, Heard;
      var hold := new BodyHold(lc, ticket);
      if body.Locked? {
        ReleasedLeaves(lc.overload, lc.View(), ticket);
        hold.ReleaseHold();
        releases := releases + 1;
      } else {
        pump := new Pump(hold);
      }
    }

    /** The chain returned a response at once: no race is started. */
    method SyncSettled(body: Body)
      requires Valid() && stage.Entered?
      modifies this, lc, lc.queue
      ensures Valid() && Some(Trace()) == Step(rules, old(lc.draining), old(Trace()), Event.SyncSettled(body))
    {
      hide Release;
      StepKeeps(rules, lc.draining, Trace(), Event.SyncSettled(body));
      SettleRequest(body);
      stage, answers := Settled, answers + 1;
    }

    /** The chain returned a promise: chain the settle onto it, and arm the deadline if there is one. */
    method Park()
      requires Valid() && stage.Entered?
      modifies this
      ensures Valid() && Some(Trace()) == Step(rules, lc.draining, old(Trace()), Parks)
    {
      hide Release;
      StepKeeps(rules, lc.draining, Trace(), Parks);
      stage, timer := Pending, if rules.deadline then Armed else Off;
    }

    /** The handler's promise settles; its continuation is queued. */
    method PromiseSettles(body: Body)
      requires Valid() && stage.Pending?
      modifies this
      ensures Valid() && Some(Trace()) == Step(rules, lc.draining, old(Trace()), Event.PromiseSettles(body))
    {
      hide Release;
      StepKeeps(rules, lc.draining, Trace(), Event.PromiseSettles(body));
      stage, pending := Settling, pending + [SettleTask(body)];
    }

    /** The settle continuation: a zombie the deadline answered for releases nothing. */
    method RunSettle()
      requires Valid() && pending != [] && pending[0].SettleTask?
      modifies this, lc, lc.queue
      ensures Valid() && Some(Trace()) == Step(rules, old(lc.draining), old(Trace()), Microtask)
    {
      hide Release;
      StepKeeps(rules, lc.draining, Trace(), Microtask);
      var body, rest := pending[0].body, pending[1..];
      if !deadlineAnswered { SettleRequest(body); }
      stage := Settled;
      if rules.deadline { pending := rest + [RaceTask]; } else { pending, answers := rest, answers + 1; }
    }

    /** The race continuation: end the race, or drop a late body the deadline already answered for. */
    method RunRace()
      requires Valid() && pending != [] && pending[0].RaceTask?
      modifies this
      ensures Valid() && Some(Trace()) == Step(rules, lc.draining, old(Trace()), Microtask)
    {
      hide Release;
      StepKeeps(rules, lc.draining, Trace(), Microtask);
      assert pending == [pending[0]];
      pending := pending[1..];
      if !done { done, timer, answers := true, Spent, answers + 1; }
    }

    /** The deadline fires: answer, mark the zombie, and free the slot now. */
    method DeadlineFires()
      requires Valid() && timer.Armed? && pending == []
      modifies this, lc, lc.queue
      ensures Valid() && Some(Trace()) == Step(rules, old(lc.draining), old(Trace()), TimerFires)
      ensures lc.View() == Release(lc.overload, old(lc.View()), ticket)
    {
      hide Release;
      StepKeeps(rules, lc.draining, Trace(), TimerFires);
      ReleasedLeaves(lc.overload, lc.View(), ticket);
      done, deadlineAnswered, timer := true, true, Spent;
      lc.ReleaseInFlight(ticket);
      releases, answers := releases + 1, answers + 1;
    }

    /** The consumer's side of a held body: a pull that ends it, or a cancel; any later one changes nothing. */
    method PumpEvent(read: Option<Read>)
      requires Valid() && pump != null && read != Some(Chunk(true))
      modifies this`releases, pump, pump.hold, lc, lc.queue
      ensures Valid() && Some(Trace()) == Step(rules, old(lc.draining), old(Trace()), PumpEnds)
    {
      PumpStep(rules, lc.draining, Trace());
      hide Release, Step, SlotOk, FinishPump;
      if pump.hold.released {
        pump.End(read);
      } else {
        ReleasedLeaves(lc.overload, lc.View(), ticket);
        releases := releases + 1;
        pump.End(read);
      }
    }
  }

  /** A held body that ends frees its slot, if it still has it. */
  lemma PumpStep(rules: Rules, draining: bool, r: Request)
    requires SlotOk(rules, r) && r.hold.Open?
    ensures Step(rules, draining, r, PumpEnds) == Some(FinishPump(r)) && SlotOk(rules, FinishPump(r))
    ensures r.hold.finished == r.hold.released && (r.hold.released <==> r.releases == 1) && r.releases <= 1
    ensures FinishPump(r) == r.(hold := Open(true, true), releases := 1)
  {
    StepKeeps(rules, draining, r, PumpEnds);
  }

  /** After its release a request holds no slot, whoever got it. */
  lemma ReleasedLeaves(o: Option<Overload>, s: State, t: Ticket)
    requires t in s.holders && t !in s.queue
    ensures t !in Release(o, s, t).holders
  {
    RefillSpares(o, GiveBack(s, t), t);
  }
}
