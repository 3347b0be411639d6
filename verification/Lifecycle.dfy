/**
 The lifecycle objects: the shared state, the pooled queue waiters, and the admission of one
 request under any strategy, each method proved against the sections on values.
 */
module Lifecycle {
  import opened Wrappers
  import opened LifecycleSpec

  const WAITER_POOL_MAX := 64

  function TicketsOf(q: seq<WaiterSlot>): (r: seq<Ticket>)
    reads q
    ensures |r| == |q| && forall i | 0 <= i < |q| :: r[i] == q[i].ticket
  {
    seq(|q|, i requires 0 <= i < |q| reads q => q[i].ticket)
  }

  /** A number of milliseconds as a caller may pass it. */
  datatype Ms = Finite(ms: real) | Infinite | NegativeInfinity | NaN

  const DEFAULT_DRAIN := Finite(30000.0)

  const DEFAULT_SHUTDOWN_TIMEOUT := Finite(10000.0)

  datatype CloseOptions = CloseOptions(drain: Option<Ms>, shutdownTimeout: Option<Ms>) {
    /** A drain window is a non-negative number or infinite; a hook's time is a non-negative finite number. */
    predicate Acceptable() {
      && (drain.Some? ==> drain.value.Infinite? || (drain.value.Finite? && drain.value.ms >= 0.0))
      && (shutdownTimeout.Some? ==> shutdownTimeout.value.Finite? && shutdownTimeout.value.ms >= 0.0)
    }

    /** The kind of drain asked for: at once, without end, or up to a time, which is also what saying nothing means. */
    function Window(): Drain {
      if drain == Some(Finite(0.0)) then Zero else if drain == Some(Infinite) then Forever else Bounded
    }
  }

  class WaiterSlot {
    var owner: LifecycleState?
    var ticket: Ticket
    var settled: bool
    /** The timeout is set. */
    var timerArmed: bool
    /** The request's abort signal is listened to. */
    var listening: bool

    constructor ()
      ensures Idle()
    {
      settled, owner, ticket, timerArmed, listening := true, null, 0, false, false;
    }

    /** Nothing pending: no request, no timer, no listener. */
    predicate Idle()
      reads this
    {
      settled && owner == null && !timerArmed && !listening
    }

    /** Armed and already off the queue. */
    ghost predicate Detached()
      reads this, owner, if owner == null then {} else set s | s in owner.queue + owner.waiterPool
    {
      && !settled && owner != null && owner.Valid() && this !in owner.queue
      && ticket !in owner.taken && ticket !in owner.holders
      && forall s | s in owner.queue :: s.ticket != ticket
    }

    /** Take charge of a request; a client already gone settles at once. */
    method Arm(lc: LifecycleState, t: Ticket, timeoutMs: nat, aborted: bool)
      requires Idle() && lc.Valid() && this !in lc.waiterPool && lc.Unknown(t)
      modifies this, lc
      ensures ticket == t && settled == aborted && owner == (if aborted then null else lc)
      ensures listening == !aborted && timerArmed == (!aborted && timeoutMs > 0)
      ensures lc.Valid() && Pooled(lc, old(lc.waiterPool))
      ensures lc.queue == old(lc.queue) && lc.taken == old(lc.taken) && lc.closing == old(lc.closing)
      ensures lc.View() == (if aborted then old(lc.View()).(replies := old(lc.replies) + [(t, Refused(Queueing))]) else old(lc.View()))
    {
      owner, ticket, settled := lc, t, false;
      if timeoutMs > 0 { timerArmed := true; }
      if aborted {
        Finish(Refused(Queueing));
        return;
      }
      listening := true;
    }

    /** The pool is as it was, or has this slot on top. */
    ghost predicate Pooled(lc: LifecycleState, before: seq<WaiterSlot>)
      reads lc
    {
      lc.waiterPool == before || lc.waiterPool == before + [this]
    }

    /** Answer the request and go back to the pool: the one exit of an armed slot. */
    method Finish(reply: Reply)
      requires !settled ==> owner != null && owner.Valid() && this !in owner.queue
      modifies this, if owner == null then {} else {owner}
      ensures settled && ticket == old(ticket)
      ensures old(settled) ==> unchanged(this) && (owner != null ==> unchanged(owner))
      ensures !old(settled) ==>
        var lc := old(owner);
        && Idle() && lc.Valid() && Pooled(lc, old(lc.waiterPool))
        && lc.queue == old(lc.queue) && lc.taken == old(lc.taken) && lc.closing == old(lc.closing)
        && lc.View() == old(lc.View()).(replies := old(lc.replies) + [(ticket, reply)])
    {
      if settled { return; }
      var lc := owner;
      settled, owner, timerArmed, listening := true, null, false, false;
      if |lc.waiterPool| < WAITER_POOL_MAX { lc.waiterPool := lc.waiterPool + [this]; }
      lc.replies := lc.replies + [(ticket, reply)];
    }

    /** Slot transfer, invoked after removal from the queue: the freed slot is taken at once. */
    method Admit()
      requires settled || Detached()
      modifies this, if owner == null then {} else {owner}
      ensures settled && ticket == old(ticket)
      ensures old(settled) ==> unchanged(this) && (owner != null ==> unchanged(owner))
      ensures !old(settled) ==>
        var lc := old(owner);
        && Idle() && lc.Valid() && Pooled(lc, old(lc.waiterPool))
        && lc.queue == old(lc.queue) && lc.taken == old(lc.taken) + {ticket} && lc.closing == old(lc.closing)
        && lc.View() == Take(old(lc.View()), ticket).(replies := old(lc.replies) + [(ticket, Admitted)])
    {
      if settled { return; }
      owner.Admit(ticket);
      assert owner.Valid();
      Finish(Admitted);
    }

    /** Drain start: invoked after the whole queue was taken off. */
    method Drop(reason: Reason)
      requires settled || Detached()
      modifies this, if owner == null then {} else {owner}
      ensures settled && ticket == old(ticket)
      ensures old(settled) ==> unchanged(this) && (owner != null ==> unchanged(owner))
      ensures !old(settled) ==>
        var lc := old(owner);
        && Idle() && lc.Valid() && Pooled(lc, old(lc.waiterPool))
        && lc.queue == old(lc.queue) && lc.taken == old(lc.taken) && lc.closing == old(lc.closing)
        && lc.View() == old(lc.View()).(replies := old(lc.replies) + [(ticket, Refused(reason))])
    {
      if settled { return; }
      Finish(Refused(reason));
    }

    /** Timeout or client disconnect: out of the queue, then refused. */
    method Leave(reason: Reason)
      requires settled || (owner != null && owner.Valid() && this in owner.queue)
      modifies this, if owner == null then {} else {owner}
      ensures settled && ticket == old(ticket)
      ensures old(settled) ==> unchanged(this) && (owner != null ==> unchanged(owner))
      ensures !old(settled) ==>
        var lc := old(owner);
        && Idle() && lc.Valid() && this !in lc.queue && Pooled(lc, old(lc.waiterPool))
        && lc.taken == old(lc.taken) && lc.closing == old(lc.closing)
        && lc.View() == LifecycleSpec.Leave(old(lc.View()), ticket, reason)
    {
      if settled { return; }
      var lc := owner;
      var at := IndexOf(lc.queue, this);
      lc.Unqueue(at);
      Finish(Refused(reason));
    }
  }

  function IndexOf(q: seq<WaiterSlot>, slot: WaiterSlot): (i: nat)
    requires slot in q
    ensures i < |q| && q[i] == slot
  {
    if q[0] == slot then 0 else IndexOf(q[1..], slot) + 1
  }

  lemma {:induction false} WithoutAt(q: seq<Ticket>, at: nat)
    requires at < |q| && q[at] !in q[..at]
    ensures Without(q, q[at]) == q[..at] + q[at + 1..]
  {
    if at == 0 {
      assert q[..0] + q[1..] == q[1..];
    } else {
      assert q[1..][..at - 1] == q[..at][1..] && q[0] == q[..at][0];
      WithoutAt(q[1..], at - 1);
      SplitHead(q, at);
    }
  }

  lemma SplitHead(q: seq<Ticket>, at: nat)
    requires 0 < at < |q|
    ensures [q[0]] + (q[1..][..at - 1] + q[1..][at..]) == q[..at] + q[at + 1..]
  {
  }

  /** Taking one slot out takes one ticket out. */
  lemma RemovedTickets(q: seq<WaiterSlot>, at: nat)
    requires at < |q| && forall i, j | 0 <= i < j < |q| :: q[i].ticket != q[j].ticket
    ensures TicketsOf(q[..at] + q[at + 1..]) == Without(TicketsOf(q), q[at].ticket)
  {
    var all := TicketsOf(q);
    assert TicketsOf(q[..at] + q[at + 1..]) == all[..at] + all[at + 1..];
    assert forall k | 0 <= k < at :: all[..at][k] == q[k].ticket;
    WithoutAt(all, at);
  }

  lemma RemovedSlots(q: seq<WaiterSlot>, at: nat)
    requires at < |q| && forall i, j | 0 <= i < j < |q| :: q[i] != q[j] && q[i].ticket != q[j].ticket
    ensures var rest := q[..at] + q[at + 1..];
            && (forall s | s in rest :: s in q && s != q[at])
            && (forall i, j | 0 <= i < j < |rest| :: rest[i] != rest[j] && rest[i].ticket != rest[j].ticket)
  {
    var rest := q[..at] + q[at + 1..];
    assert forall k | 0 <= k < |rest| :: rest[k] == q[if k < at then k else k + 1];
  }

  /** The options of a first close: a missing one has its default. */
  method CheckClose(options: CloseOptions) returns (r: Result<()>)
    ensures r.Ok? <==> options.Acceptable()
  {
    var drain := if options.drain.Some? then options.drain.value else DEFAULT_DRAIN;
    if drain != Infinite && (!drain.Finite? || drain.ms < 0.0) {
      return Thrown("Invalid drain");
    }
    var timeout := if options.shutdownTimeout.Some? then options.shutdownTimeout.value else DEFAULT_SHUTDOWN_TIMEOUT;
    if !timeout.Finite? || timeout.ms < 0.0 {
      return Thrown("Invalid shutdownTimeout");
    }
    return Ok(());
  }

  class LifecycleState {
    const overload: Option<Overload>
    var draining: bool
    var inFlight: int
    var queue: seq<WaiterSlot>
    var waiterPool: seq<WaiterSlot>
    var closeWaiters: seq<Callback>
    var closing: Close
    /** The `taken` flag of each gate call, by request. */
    var taken: set<Ticket>
    ghost var holders: set<Ticket>
    ghost var replies: seq<(Ticket, Reply)>
    ghost var fired: seq<(Callback, int)>

    ghost function View(): State
      reads this, queue
    {
      State(draining, inFlight, TicketsOf(queue), closeWaiters, holders, replies, fired)
    }

    /** Queued slots are armed for this application, with its timeout and a listener, and queued once; pooled slots are idle and pooled once. */
    ghost predicate Valid()
      reads this, queue, waiterPool
    {
      && (forall s | s in queue :: !s.settled && s.owner == this && s.ticket !in taken && s.ticket !in holders)
      && (forall s | s in queue :: s.listening && overload.Some? && (s.timerArmed <==> overload.value.queueTimeoutMs > 0))
      && (forall i, j | 0 <= i < j < |queue| :: queue[i] != queue[j] && queue[i].ticket != queue[j].ticket)
      && (forall s | s in waiterPool :: s.settled && s.owner == null && !s.timerArmed && !s.listening)
      && (forall i, j | 0 <= i < j < |waiterPool| :: waiterPool[i] != waiterPool[j])
      && |waiterPool| <= WAITER_POOL_MAX
      && inFlight == |holders|
    }

    /** A request the gate has not seen yet. */
    ghost predicate Unknown(t: Ticket)
      reads this, queue
    {
      t !in taken && t !in holders && forall s | s in queue :: s.ticket != t
    }

    constructor (overload: Option<Overload>)
      ensures Valid() && View() == INITIAL && this.overload == overload && closing == Running && taken == {} && waiterPool == []
    {
      this.overload := overload;
      draining, inFlight, queue, waiterPool, closeWaiters, closing, taken := false, 0, [], [], [], Running, {};
      holders, replies, fired := {}, [], [];
    }

    /** The strategy's `admit`: the first call takes the slot, any further one does nothing. */
    method Admit(t: Ticket)
      requires inFlight == |holders| && (t !in taken ==> t !in holders)
      modifies this`inFlight, this`taken, this`holders
      ensures taken == old(taken) + {t}
      ensures t in old(taken) ==> inFlight == old(inFlight) && holders == old(holders)
      ensures t !in old(taken) ==> inFlight == old(inFlight) + 1 && holders == old(holders) + {t}
      ensures inFlight == |holders|
    {
      if t in taken { return; }
      taken, holders := taken + {t}, holders + {t};
      inFlight := inFlight + 1;
    }

    /** Splice one slot out of the queue. */
    method Unqueue(at: nat)
      requires Valid() && at < |queue|
      modifies this`queue
      ensures queue == old(queue[..at] + queue[at + 1..])
      ensures Valid() && old(queue[at]) !in queue
      ensures View() == old(View()).(queue := Without(old(View()).queue, old(queue[at].ticket)))
    {
      RemovedTickets(queue, at);
      RemovedSlots(queue, at);
      queue := queue[..at] + queue[at + 1..];
    }

    /** Take the head off the queue. */
    method Shift() returns (slot: WaiterSlot)
      requires Valid() && |queue| > 0
      modifies this`queue
      ensures Valid() && slot == old(queue[0]) && queue == old(queue[1..]) && slot !in queue
      ensures !slot.settled && slot.owner == this && slot.ticket !in taken && slot.ticket !in holders
      ensures forall s | s in queue :: s.ticket != slot.ticket
      ensures View() == old(View()).(queue := old(View()).queue[1..]) && slot.ticket == old(View()).queue[0]
    {
      slot := queue[0];
      assert slot in queue && TicketsOf(queue)[1..] == TicketsOf(queue[1..]);
      assert forall s | s in queue[1..] :: s in queue;
      queue := queue[1..];
    }

    /** The head of the queue takes a freed slot. */
    method TransferHead(ghost frame: set<WaiterSlot>)
      requires Valid() && |queue| > 0 && forall s | s in queue :: s in frame
      modifies this, frame
      ensures Valid() && View() == Transfer(old(View()))
      ensures taken == old(taken) + {old(queue[0].ticket)} && queue == old(queue[1..]) && closing == old(closing)
      ensures forall s | s in waiterPool :: s in old(waiterPool) || s == old(queue[0])
    {
      var slot := Shift();
      slot.Admit();
    }

    /** Hand freed slots to the head of the queue. */
    method RefillFromQueue()
      requires Valid()
      modifies this, queue
      ensures Valid() && View() == Refill(overload, old(View())) && closing == old(closing)
      ensures old(taken) <= taken && forall t | t in taken :: t in old(taken) || t in old(View()).queue
    {
      if overload.None? { return; }
      ghost var frame := set s | s in queue;
      while |queue| > 0 && Below(overload, inFlight)
        invariant Valid() && (forall s | s in queue :: s in frame) && closing == old(closing)
        invariant Refill(overload, View()) == Refill(overload, old(View()))
        invariant forall t | t in taken :: t in old(taken) || t in old(View()).queue
        invariant forall t | t in View().queue :: t in old(View()).queue
        invariant old(taken) <= taken
        decreases |queue|
      {
        assert View().queue[0] in View().queue;
        TransferHead(frame);
      }
    }

    /** Run the drain callbacks; the one of a close in progress settles it. */
    method WakeCloseWaiters()
      requires Valid()
      modifies this`closeWaiters, this`fired, this`closing
      ensures Valid() && View() == Wake(old(View()))
      ensures closing == (if old(closing).Awaiting? && old(closeWaiters) != [] then Decided(false) else old(closing))
    {
      var waiters := closeWaiters;
      closeWaiters := [];
      for i := 0 to |waiters|
        invariant Valid() && closeWaiters == [] && fired == old(fired) + Stamped(waiters[..i], inFlight)
        invariant closing == (if old(closing).Awaiting? && i > 0 then Decided(false) else old(closing))
      {
        assert waiters[..i + 1] == waiters[..i] + [waiters[i]];
        fired := fired + [(waiters[i], inFlight)];
        if closing.Awaiting? { closing := Decided(false); }
      }
      assert waiters[..|waiters|] == waiters;
    }

    /** The release tail: decrement, refill, wake at zero. */
    method ReleaseInFlight(t: Ticket)
      requires Valid() && t in holders
      modifies this, queue
      ensures Valid() && View() == Release(overload, old(View()), t)
      ensures closing == Heard(old(closing), old(View()), View())
      ensures old(taken) <= taken && forall u | u in taken :: u in old(taken) || u in old(View()).queue
    {
      hide Refill;
      inFlight, holders := inFlight - 1, holders - {t};
      ghost var freed := View();
      RefillIsQuiet(overload, freed);
      if |queue| > 0 { RefillFromQueue(); }
      assert View() == Refill(overload, freed);
      if inFlight == 0 && |closeWaiters| > 0 { WakeCloseWaiters(); }
    }

    // -------------------------------------------------------------- the gate

    /** An idle slot, recycled when there is one. */
    method IdleSlot() returns (waiter: WaiterSlot)
      requires Valid()
      modifies this`waiterPool
      ensures Valid() && waiter.Idle() && waiter !in queue && waiter !in waiterPool
      ensures waiter in old(waiterPool) || fresh(waiter)
    {
      if |waiterPool| > 0 {
        waiter := waiterPool[|waiterPool| - 1];
        assert waiter in waiterPool;
        waiterPool := waiterPool[..|waiterPool| - 1];
      } else {
        waiter := new WaiterSlot();
      }
    }

    /** Queue a request behind the ones already waiting, in a recycled slot when there is one. */
    method EnqueueRequest(t: Ticket, aborted: bool)
      requires Valid() && Unknown(t) && overload.Some?
      modifies this, waiterPool
      ensures Valid() && taken == old(taken) && closing == old(closing)
      ensures View() == (if aborted then old(View()).(replies := old(replies) + [(t, Refused(Queueing))])
                         else old(View()).(queue := old(View()).queue + [t]))
    {
      var waiter := IdleSlot();
      waiter.Arm(this, t, overload.value.queueTimeoutMs, aborted);
      if !waiter.settled { queue := queue + [waiter]; }
    }

    /** The entry of a request under the built-in strategies. */
    method HandleRequest(t: Ticket, aborted: bool) returns (gate: Gate)
      requires Valid() && Unknown(t)
      requires overload.Some? ==> overload.value.Normalized() && !overload.value.strategy.Custom?
      modifies this, waiterPool
      ensures Valid() && (View(), gate) == Arrive(overload, old(View()), t, aborted)
      ensures closing == old(closing) && taken == old(taken)
    {
      if draining { return Now(Refused(Draining)); }
      if overload.None? || overload.value.maxConcurrency.None? || inFlight < overload.value.maxConcurrency.value {
        inFlight, holders := inFlight + 1, holders + {t};
        return Now(Admitted);
      }
      if overload.value.strategy.FailFast? || |queue| >= overload.value.maxQueue { return Now(Refused(Concurrency)); }
      EnqueueRequest(t, aborted);
      return if aborted then Now(Refused(Queueing)) else Waiting;
    }

    // -------------------------------------------------------------- an arbitrary strategy

    /** The slot a strategy took before it decided against the request goes back. */
    method Refuse(t: Ticket)
      requires Valid() && (t in taken <==> t in holders) && t !in View().queue
      modifies this, queue
      ensures Valid() && t !in taken && t !in holders
      ensures t !in old(taken) ==> View() == old(View()) && taken == old(taken)
      ensures t in old(taken) ==> View() == Release(overload, old(View()), t)
    {
      if t !in taken { return; }
      taken := taken - {t};
      RefillSpares(overload, GiveBack(View(), t), t);
      ReleaseInFlight(t);
    }

    /** A saturated gate asks the strategy, which may have called `admit` any number of times by now. */
    method Decide(t: Ticket, decision: Decision) returns (verdict: Verdict)
      requires Valid() && (t in taken <==> t in holders) && t !in View().queue
      modifies this, queue
      ensures Valid() && (View(), t in taken, verdict) == DecideCall(overload, old(View()), t, t in old(taken), decision)
      ensures verdict.Undecided? <==> decision.Later?
      ensures verdict.Served? <==> decision.NullNow?
      ensures verdict.Served? ==> t in taken && t in holders && View() == (if t in old(taken) then old(View()) else Take(old(View()), t))
      ensures verdict.TurnedAway? ==> t !in taken && t !in holders
      ensures verdict.TurnedAway? ==> View() == (if t in old(taken) then Release(overload, old(View()), t) else old(View()))
      ensures verdict.Undecided? ==> View() == old(View()) && taken == old(taken)
    {
      match decision
      case NullNow =>
        if t !in taken { Admit(t); }
        verdict := Served;
      case Later => verdict := Undecided;
      case _ =>
        Refuse(t);
        verdict := TurnedAway;
    }

    /** The strategy's promise settles; a late null that took no slot neither passes the cap nor enters a draining app. */
    method Resolve(t: Ticket, outcome: Outcome) returns (verdict: Verdict)
      requires Valid() && (t in taken <==> t in holders) && t !in View().queue && overload.Some?
      modifies this, queue
      ensures Valid() && (View(), t in taken, verdict) == ResolveCall(overload, old(View()), t, t in old(taken), outcome)
      ensures !verdict.Undecided?
      ensures verdict.Served? ==> outcome.WakesNull? && t in taken && t in holders
      ensures verdict.Served? && t in old(taken) ==> View() == old(View())
      ensures verdict.Served? && t !in old(taken) ==>
        View() == Take(old(View()), t) && !draining && Below(overload, old(inFlight))
      ensures verdict.TurnedAway? ==> t !in taken && t !in holders
      ensures verdict.TurnedAway? ==> View() == (if t in old(taken) then Release(overload, old(View()), t) else old(View()))
      ensures outcome.WakesNull? && (t in old(taken) || (!old(draining) && Below(overload, old(inFlight)))) ==> verdict.Served?
    {
      if outcome.WakesNull? {
        if t in taken { return Served; }
        if draining || !Below(overload, inFlight) { return TurnedAway; }
        Admit(t);
        return Served;
      }
      Refuse(t);
      return TurnedAway;
    }

    // -------------------------------------------------------------- draining and closing

    /** Take the whole queue off and answer everyone on it. */
    method StartDraining()
      requires Valid()
      modifies this, queue
      ensures Valid() && View() == LifecycleSpec.StartDraining(old(View())) && closing == old(closing) && taken == old(taken)
    {
      draining := true;
      var queued := queue;
      queue := [];
      DropAll(queued);
    }

    /** Slots just taken off the queue. */
    ghost predicate TakenOff(queued: seq<WaiterSlot>)
      reads this, queued
    {
      && (forall s | s in queued :: !s.settled && s.owner == this && s.ticket !in taken && s.ticket !in holders)
      && (forall i, j | 0 <= i < j < |queued| :: queued[i] != queued[j])
    }

    /** Answer every slot that was taken off, in order. */
    method DropAll(queued: seq<WaiterSlot>)
      requires Valid() && queue == [] && TakenOff(queued)
      modifies this, queued
      ensures Valid() && queue == [] && closing == old(closing) && taken == old(taken)
      ensures View() == old(View()).(replies := old(replies) + Dropped(old(TicketsOf(queued)), Draining))
    {
      ghost var tickets := TicketsOf(queued);
      for i := 0 to |queued|
        invariant Valid() && queue == [] && closing == old(closing) && taken == old(taken) && TakenOff(queued[i..])
        invariant forall k | 0 <= k < |queued| :: queued[k].ticket == tickets[k]
        invariant View() == old(View()).(replies := old(replies) + Dropped(tickets[..i], Draining))
      {
        assert queued[i..][0] == queued[i] && queued[i..][1..] == queued[i + 1..];
        assert tickets[..i + 1] == tickets[..i] + [tickets[i]];
        queued[i].Drop(Draining);
      }
      assert tickets[..|queued|] == tickets;
    }

    /** True when the counter is already at zero; otherwise the callback waits for it. */
    method SubscribeSettled(callback: Callback) returns (already: bool)
      requires Valid()
      modifies this`closeWaiters
      ensures Valid() && (View(), already) == Subscribe(old(View()), callback)
    {
      if inFlight == 0 { return true; }
      closeWaiters := closeWaiters + [callback];
      return false;
    }

    /** Close in embedded mode. Options are looked at by the first close only, before it changes anything; a repeat with drain 0 forces one that is still waiting. */
    method CloseApp(options: CloseOptions) returns (r: Result<()>)
      requires Valid()
      modifies this, queue
      ensures Valid()
      ensures r.Ok? <==> !old(closing).Running? || options.Acceptable()
      ensures r.Ok? ==> (View(), closing) == CloseCore(old(View()), old(closing), options.Window())
      ensures r.Thrown? ==> View() == old(View()) && closing == old(closing) && queue == old(queue)
      ensures r.Ok? && old(closing).Running? ==>
        && draining && queue == []
        && (closing == Forced <==> options.drain == Some(Finite(0.0)))
        && (closing.Awaiting? <==> options.drain != Some(Finite(0.0)) && old(inFlight) != 0)
        && (closing.Awaiting? ==> (closing.timed <==> options.drain != Some(Infinite)))
    {
      if !closing.Running? {
        if options.drain == Some(Finite(0.0)) && closing.Awaiting? { closing := Decided(true); }
        return Ok(());
      }
      r := CheckClose(options);
      if r.Ok? { BeginClose(options.Window()); }
    }

    /** Stop admitting, then wait for the counter unless the close is immediate. */
    method BeginClose(window: Drain)
      requires Valid() && closing.Running?
      modifies this, queue
      ensures Valid() && (View(), closing) == CloseCore(old(View()), Running, window)
    {
      StartDraining();
      if window.Zero? { closing := Forced; return; }
      var already := SubscribeSettled(SETTLED_CALLBACK);
      closing := if already then Decided(false) else Awaiting(window.Bounded?);
    }
  }

  lemma {:induction false} RefillIsQuiet(o: Option<Overload>, s: State)
    ensures s.queue == [] ==> Refill(o, s) == s
    ensures Refill(o, s) == Refill(o, s).(closeWaiters := s.closeWaiters, fired := s.fired, draining := s.draining)
    decreases |s.queue|
  {
    if o.Some? && s.queue != [] && Below(o, s.inFlight) { RefillIsQuiet(o, Transfer(s)); }
  }

  /** A refill hands nothing to a request that is not queued. */
  lemma {:induction false} RefillSpares(o: Option<Overload>, s: State, t: Ticket)
    requires t !in s.queue && t !in s.holders
    ensures t !in Refill(o, s).holders
    decreases |s.queue|
  {
    if o.Some? && s.queue != [] && Below(o, s.inFlight) {
      assert s.queue[0] in s.queue;
      RefillSpares(o, Transfer(s), t);
    }
  }
}
