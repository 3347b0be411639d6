/** The whole application as a state machine: many requests, one counter, and a close in embedded mode. */
module LifecycleRuns {
  import opened Wrappers
  import opened LifecycleSpec
  import opened SlotRelease

  /** Where a request is: waiting in the queue, turned away, or past the gate. */
  datatype Life = Queued | Turned(reason: Reason) | Active(request: Request)

  /** `enqueued` remembers every request the queue ever took charge of, `subscribed` every drain callback ever left waiting. */
  datatype App = App(core: State, next: Ticket, lives: map<Ticket, Life>, close: Close, enqueued: set<Ticket>, subscribed: seq<Callback>)

  datatype Happening =
    | Arrives(aborted: bool)
    | Acts(ticket: Ticket, event: Event)
    | Leaves(ticket: Ticket)
    | Closes(drain: Drain)
    | CloseTimer
    | CloseResolves

  datatype Setup = Setup(overload: Option<Overload>, deadline: bool)

  const NEW_APP := App(INITIAL, 0, map[], Running, {}, [])

  function RulesOf(setup: Setup): Rules {
    Rules(setup.deadline, true)
  }

  /** Waiting requests that now hold a slot start being served. */
  function Started(lives: map<Ticket, Life>, holders: set<Ticket>): (r: map<Ticket, Life>)
    ensures r.Keys == lives.Keys
  {
    map t | t in lives :: if lives[t].Queued? && t in holders then Active(FRESH) else lives[t]
  }

  function TurnedAway(lives: map<Ticket, Life>, reason: Reason): (r: map<Ticket, Life>)
    ensures r.Keys == lives.Keys
  {
    map t | t in lives :: if lives[t].Queued? then Turned(reason) else lives[t]
  }

  function StepArrives(setup: Setup, a: App, aborted: bool): App {
    var r := Arrive(setup.overload, a.core, a.next, aborted);
    var life := match r.1
      case Waiting => Queued
      case Now(Admitted) => Active(FRESH)
      case Now(Refused(reason)) => Turned(reason);
    var taken := r.1.Waiting? || r.0.replies != a.core.replies;
    a.(core := r.0, next := a.next + 1, lives := a.lives[a.next := life], enqueued := if taken then a.enqueued + {a.next} else a.enqueued)
  }

  function StepActs(setup: Setup, a: App, t: Ticket, e: Event): Option<App> {
    if t !in a.lives || !a.lives[t].Active? then None
    else
      match Step(RulesOf(setup), a.core.draining, a.lives[t].request, e)
      case None => None
      case Some(r) =>
        var lives := a.lives[t := Active(r)];
        if r.releases == a.lives[t].request.releases then Some(a.(lives := lives))
        else
          var core := Release(setup.overload, a.core, t);
          Some(a.(core := core, lives := Started(lives, core.holders), close := Heard(a.close, a.core, core)))
  }

  function StepCloses(a: App, drain: Drain): App {
    var r := CloseCore(a.core, a.close, drain);
    a.(core := r.0,
       close := r.1,
       lives := if a.close.Running? then TurnedAway(a.lives, Draining) else a.lives,
       subscribed := if |r.0.closeWaiters| > |a.core.closeWaiters| then a.subscribed + [SETTLED_CALLBACK] else a.subscribed)
  }

  function StepApp(setup: Setup, a: App, h: Happening): Option<App> {
    match h
    case Arrives(aborted) => Some(StepArrives(setup, a, aborted))
    case Acts(t, e) => StepActs(setup, a, t, e)
    case Leaves(t) =>
      if t !in a.core.queue then None else Some(LeavesNext(a, t))
    case Closes(drain) => Some(StepCloses(a, drain))
    case CloseTimer => if a.close == Awaiting(true) then Some(a.(close := Decided(true))) else None
    case CloseResolves =>
      if a.close.Decided? || a.close.Forced? then Some(a.(close := Status(a.core, a.close))) else None
  }

  function RunApp(setup: Setup, hs: seq<Happening>): Option<App> {
    if hs == [] then Some(NEW_APP)
    else
      match RunApp(setup, hs[..|hs| - 1])
      case None => None
      case Some(a) => StepApp(setup, a, hs[|hs| - 1])
  }

  // ---------------------------------------------------------------- what every run keeps

  predicate BuiltIn(setup: Setup) {
    setup.overload.Some? ==> setup.overload.value.Normalized() && !setup.overload.value.strategy.Custom?
  }

  /** Queue, holders and lives tell one story. */
  ghost predicate LivesOk(setup: Setup, a: App) {
    && (forall t | t in a.lives :: t < a.next)
    && (forall t :: t in a.core.queue <==> t in a.lives && a.lives[t].Queued?)
    && (forall t :: t in a.core.holders <==> t in a.lives && a.lives[t].Active? && !Freed(a.lives[t].request))
    && (forall t | t in a.lives && a.lives[t].Active? :: SlotOk(RulesOf(setup), a.lives[t].request))
  }

  /** Queued requests are answered once each, and admitted strictly in arrival order. */
  ghost predicate RepliesOk(a: App) {
    var replies := a.core.replies;
    && (forall i | 0 <= i < |replies| :: replies[i].0 in a.lives && !a.lives[replies[i].0].Queued?)
    && (forall i, j | 0 <= i < j < |replies| :: replies[i].0 != replies[j].0)
    && (forall i, j | 0 <= i < j < |replies| && replies[i].1.Admitted? && replies[j].1.Admitted? :: replies[i].0 < replies[j].0)
    && (forall i, t | 0 <= i < |replies| && replies[i].1.Admitted? && t in a.core.queue :: replies[i].0 < t)
  }

  predicate Answered(replies: seq<(Ticket, Reply)>, t: Ticket) {
    exists i :: 0 <= i < |replies| && replies[i].0 == t
  }

  /** Whoever the queue took charge of is still waiting or has its answer. */
  ghost predicate EveryoneAnswered(a: App) {
    forall t | t in a.enqueued && t !in a.core.queue :: Answered(a.core.replies, t)
  }

  function CallbacksOf(fired: seq<(Callback, int)>): (r: seq<Callback>)
    ensures |r| == |fired| && forall i | 0 <= i < |r| :: r[i] == fired[i].0
  {
    seq(|fired|, i requires 0 <= i < |fired| => fired[i].0)
  }

  /** A close that reported no timeout found the counter at zero, and it stays there. */
  ghost predicate CloseOk(a: App) {
    && (a.close.Running? <==> !a.core.draining)
    && CallbacksOf(a.core.fired) + a.core.closeWaiters == a.subscribed
    && (a.subscribed == [] || a.subscribed == [SETTLED_CALLBACK])
    && (a.close.Running? ==> a.core.fired == [] && a.core.closeWaiters == [])
    && (a.close.Awaiting? ==> a.core.closeWaiters != [])
    && (a.close.Decided? && !a.close.timedOut ==> a.core.inFlight == 0)
    && (a.close.Resolved? && !a.close.timedOut ==> a.close.inFlight == 0 && a.core.inFlight == 0)
  }

  ghost predicate AppOk(setup: Setup, a: App) {
    BuiltIn(setup) && Inv(setup.overload, a.core) && LivesOk(setup, a) && RepliesOk(a) && EveryoneAnswered(a) && CloseOk(a)
  }

  lemma NewAppOk(setup: Setup)
    requires BuiltIn(setup)
    ensures AppOk(setup, NEW_APP)
  {
  }

  /** One arrival, seen from any request. */
  lemma ArrivesOne(setup: Setup, a: App, aborted: bool, t: Ticket)
    requires BuiltIn(setup) && (t in a.lives ==> t < a.next)
    requires t in a.core.queue <==> t in a.lives && a.lives[t].Queued?
    requires t in a.core.holders <==> t in a.lives && a.lives[t].Active? && !Freed(a.lives[t].request)
    ensures var next := StepArrives(setup, a, aborted);
            && (t in next.lives ==> t < next.next)
            && (t in next.core.queue <==> t in next.lives && next.lives[t].Queued?)
            && (t in next.core.holders <==> t in next.lives && next.lives[t].Active? && !Freed(next.lives[t].request))
            && (t in next.lives && next.lives[t].Active? ==> next.lives[t] == Active(FRESH) || (t in a.lives && next.lives[t] == a.lives[t]))
  {
    hide Freed;
    FreshOk(RulesOf(setup));
  }

  lemma ArrivesLives(setup: Setup, a: App, aborted: bool)
    requires BuiltIn(setup) && LivesOk(setup, a)
    ensures LivesOk(setup, StepArrives(setup, a, aborted))
  {
    hide StepArrives, Freed, SlotOk;
    FreshOk(RulesOf(setup));
    var next := StepArrives(setup, a, aborted);
    forall t: Ticket
      ensures t in next.lives ==> t < next.next
      ensures t in next.core.queue <==> t in next.lives && next.lives[t].Queued?
      ensures t in next.core.holders <==> t in next.lives && next.lives[t].Active? && !Freed(next.lives[t].request)
      ensures t in next.lives && next.lives[t].Active? ==> next.lives[t] == Active(FRESH) || (t in a.lives && next.lives[t] == a.lives[t])
    {
      ArrivesOne(setup, a, aborted, t);
    }
  }

  lemma ArrivesReplies(setup: Setup, a: App, aborted: bool)
    requires AppOk(setup, a)
    ensures RepliesOk(StepArrives(setup, a, aborted))
  {
    hide Inv, SlotOk, Freed, CloseOk, EveryoneAnswered, Below, BuiltIn;
    var next := StepArrives(setup, a, aborted);
    forall i | 0 <= i < |a.core.replies| ensures a.core.replies[i].0 in a.lives && a.core.replies[i].0 < a.next {}
    assert next.core.replies == a.core.replies || next.core.replies == a.core.replies + [(a.next, Refused(Queueing))];
  }

  lemma AnsweredGrows(replies: seq<(Ticket, Reply)>, more: seq<(Ticket, Reply)>)
    ensures forall t | Answered(replies, t) || Answered(more, t) :: Answered(replies + more, t)
  {
    var all := replies + more;
    forall t | Answered(replies, t) || Answered(more, t) ensures Answered(all, t) {
      if Answered(replies, t) {
        var i :| 0 <= i < |replies| && replies[i].0 == t;
        assert all[i].0 == t;
      } else {
        var i :| 0 <= i < |more| && more[i].0 == t;
        assert all[|replies| + i].0 == t;
      }
    }
  }

  lemma ArrivesAnswers(setup: Setup, a: App, aborted: bool)
    requires EveryoneAnswered(a) && BuiltIn(setup)
    ensures EveryoneAnswered(StepArrives(setup, a, aborted))
  {
    var one := [(a.next, Refused(Queueing))];
    AnsweredGrows(a.core.replies, one);
    assert one[0].0 == a.next;
    var next := StepArrives(setup, a, aborted);
    assert next.core.replies == a.core.replies || next.core.replies == a.core.replies + one;
  }

  lemma ArrivesKeeps(setup: Setup, a: App, aborted: bool)
    requires AppOk(setup, a)
    ensures AppOk(setup, StepArrives(setup, a, aborted))
  {
    hide LivesOk, RepliesOk, EveryoneAnswered;
    ArrivesAnswers(setup, a, aborted);
    ArrivesLives(setup, a, aborted);
    ArrivesReplies(setup, a, aborted);
    ArrivesInv(setup, a, aborted);
  }

  lemma ArrivesInv(setup: Setup, a: App, aborted: bool)
    requires BuiltIn(setup) && Inv(setup.overload, a.core) && LivesOk(setup, a) && CloseOk(a)
    ensures Inv(setup.overload, StepArrives(setup, a, aborted).core) && CloseOk(StepArrives(setup, a, aborted))
  {
    ArriveKeeps(setup.overload, a.core, a.next, aborted);
    if a.close.Decided? || a.close.Resolved? { assert a.core.draining; }
  }

  function LeavesNext(a: App, t: Ticket): App {
    a.(core := Leave(a.core, t, Queueing), lives := a.lives[t := Turned(Queueing)])
  }

  lemma LeavesLives(setup: Setup, a: App, t: Ticket)
    requires Increasing(a.core.queue) && LivesOk(setup, a) && t in a.core.queue
    ensures LivesOk(setup, LeavesNext(a, t))
  {
    hide Freed, SlotOk;
    WithoutKeeps(a.core.queue, t);
  }

  lemma LeavesReplies(a: App, t: Ticket)
    requires Increasing(a.core.queue) && RepliesOk(a) && t in a.core.queue && t in a.lives && a.lives[t].Queued?
    ensures RepliesOk(LeavesNext(a, t))
  {
    WithoutKeeps(a.core.queue, t);
    var replies := a.core.replies + [(t, Refused(Queueing))];
    forall i | 0 <= i < |a.core.replies| ensures replies[i] == a.core.replies[i] && replies[i].0 != t {}
  }

  lemma LeavesAnswers(a: App, t: Ticket)
    requires Increasing(a.core.queue) && EveryoneAnswered(a) && t in a.core.queue
    ensures EveryoneAnswered(LeavesNext(a, t))
  {
    WithoutKeeps(a.core.queue, t);
    var one := [(t, Refused(Queueing))];
    AnsweredGrows(a.core.replies, one);
    assert one[0].0 == t;
  }

  lemma LeavesKeeps(setup: Setup, a: App, t: Ticket)
    requires AppOk(setup, a) && t in a.core.queue
    ensures AppOk(setup, LeavesNext(a, t))
  {
    assert t in a.lives && a.lives[t].Queued?;
    hide LivesOk, RepliesOk, EveryoneAnswered;
    LeaveKeeps(setup.overload, a.core, t, Queueing);
    LeavesLives(setup, a, t);
    LeavesReplies(a, t);
    LeavesAnswers(a, t);
  }

  // ---------------------------------------------------------------- a release inside a run

  /** A release hands the slot to a prefix of the queue, and says so in the replies. */
  lemma ReleaseShape(o: Option<Overload>, s: State, t: Ticket) returns (k: nat)
    requires Inv(o, s) && t in s.holders
    ensures k <= |s.queue|
    ensures var r := Release(o, s, t);
            && r.inFlight == s.inFlight - 1 + k
            && r.holders == s.holders - {t} + SetOf(s.queue[..k])
            && r.queue == s.queue[k..]
            && r.replies == s.replies + Admissions(s.queue[..k])
            && r.draining == s.draining
            && (if r.inFlight == 0 && s.closeWaiters != [] then r.closeWaiters == [] && r.fired == s.fired + Stamped(s.closeWaiters, 0)
                else r.closeWaiters == s.closeWaiters && r.fired == s.fired)
    ensures s.draining ==> k == 0
  {
    hide Release, GiveBack, Refilled, WakeAtZero, Inv;
    k := ReleaseIs(o, s, t);
    ReleasedFields(s, t, k);
  }

  lemma ReleaseIs(o: Option<Overload>, s: State, t: Ticket) returns (k: nat)
    requires Inv(o, s) && t in s.holders
    ensures k <= |s.queue| && (s.draining ==> k == 0)
    ensures Release(o, s, t) == WakeAtZero(Refilled(GiveBack(s, t), k))
  {
    hide Refill, WakeAtZero, Unfilled, Refilled, Inv, Below;
    GivenBack(o, s, t);
    RefillKeeps(o, GiveBack(s, t));
    k := |s.queue| - |Refill(o, GiveBack(s, t)).queue|;
  }

  lemma ReleasedFields(s: State, t: Ticket, k: nat)
    requires k <= |s.queue|
    ensures var r := WakeAtZero(Refilled(GiveBack(s, t), k));
            && r.inFlight == s.inFlight - 1 + k
            && r.holders == s.holders - {t} + SetOf(s.queue[..k])
            && r.queue == s.queue[k..]
            && r.replies == s.replies + Admissions(s.queue[..k])
            && r.draining == s.draining
            && (if r.inFlight == 0 && s.closeWaiters != [] then r.closeWaiters == [] && r.fired == s.fired + Stamped(s.closeWaiters, 0)
                else r.closeWaiters == s.closeWaiters && r.fired == s.fired)
  {
  }

  /** Admitting a prefix of the queue, seen from one request. */
  lemma PrefixStartsOne(a: App, t: Ticket, r: Request, core: State, k: nat, u: Ticket)
    requires u in a.core.queue <==> u in a.lives && a.lives[u].Queued?
    requires u in a.core.holders <==> u in a.lives && a.lives[u].Active? && !Freed(a.lives[u].request)
    requires u in a.core.queue ==> u !in a.core.holders
    requires Increasing(a.core.queue) && t in a.lives && a.lives[t].Active? && Freed(r)
    requires k <= |a.core.queue| && core.queue == a.core.queue[k..]
    requires core.holders == a.core.holders - {t} + SetOf(a.core.queue[..k])
    ensures Placed(a, core, Started(a.lives[t := Active(r)], core.holders), r, u)
  {
    QueueParts(a.core.queue, k);
  }

  lemma QueueApart(setup: Setup, a: App)
    requires Inv(setup.overload, a.core) && LivesOk(setup, a)
    ensures Increasing(a.core.queue) && forall u | u in a.core.queue :: u !in a.core.holders
  {
  }

  /** Admitting a prefix of the queue, on the lives. */
  lemma PrefixStarts(setup: Setup, a: App, t: Ticket, r: Request, core: State, k: nat)
    requires LivesOk(setup, a) && Inv(setup.overload, a.core) && t in a.lives && a.lives[t].Active?
    requires SlotOk(RulesOf(setup), r) && Freed(r)
    requires k <= |a.core.queue| && core.queue == a.core.queue[k..]
    requires core.holders == a.core.holders - {t} + SetOf(a.core.queue[..k])
    ensures LivesOk(setup, a.(core := core, lives := Started(a.lives[t := Active(r)], core.holders)))
  {
    hide Started, Freed, SlotOk, Inv, Placed;
    assert Increasing(a.core.queue) && forall u | u in a.core.queue :: u !in a.core.holders by { QueueApart(setup, a); }
    var lives := Started(a.lives[t := Active(r)], core.holders);
    forall u ensures Placed(a, core, lives, r, u) { PrefixStartsOne(a, t, r, core, k, u); }
    hide LivesOk;
    PlacedLives(setup, a, core, lives, r);
  }

  /** Where a request is after a prefix of the queue was admitted. */
  predicate Placed(a: App, core: State, lives: map<Ticket, Life>, r: Request, u: Ticket) {
    && (u in core.queue <==> u in lives && lives[u].Queued?)
    && (u in core.holders <==> u in lives && lives[u].Active? && !Freed(lives[u].request))
    && (u in lives && lives[u].Active? ==> lives[u].request == FRESH || lives[u].request == r || (u in a.lives && lives[u] == a.lives[u]))
  }

  lemma PlacedLives(setup: Setup, a: App, core: State, lives: map<Ticket, Life>, r: Request)
    requires LivesOk(setup, a) && SlotOk(RulesOf(setup), r)
    requires lives.Keys == a.lives.Keys && forall u :: Placed(a, core, lives, r, u)
    ensures LivesOk(setup, a.(core := core, lives := lives))
  {
    hide Freed, SlotOk;
    FreshOk(RulesOf(setup));
    forall u
      ensures u in core.queue <==> u in lives && lives[u].Queued?
      ensures u in core.holders <==> u in lives && lives[u].Active? && !Freed(lives[u].request)
      ensures u in lives && lives[u].Active? ==> SlotOk(RulesOf(setup), lives[u].request)
    {
      assert Placed(a, core, lives, r, u);
    }
  }

  lemma FreshOk(rules: Rules)
    ensures SlotOk(rules, FRESH) && !Freed(FRESH)
  {
  }

  lemma QueueParts(q: seq<Ticket>, k: nat)
    requires Increasing(q) && k <= |q|
    ensures forall u :: u in q <==> u in q[..k] || u in q[k..]
    ensures forall u, v | u in q[..k] && v in q[k..] :: u < v
  {
    assert q == q[..k] + q[k..];
  }

  /** Admitting a prefix of the queue, on the replies: still one each, still in arrival order. */
  lemma PrefixReplies(a: App, core: State, lives: map<Ticket, Life>, k: nat)
    requires RepliesOk(a) && Increasing(a.core.queue) && k <= |a.core.queue|
    requires forall u | u in a.core.queue :: u in a.lives && a.lives[u].Queued?
    requires core.queue == a.core.queue[k..] && core.replies == a.core.replies + Admissions(a.core.queue[..k])
    requires lives.Keys == a.lives.Keys
    requires forall u | u in a.lives && !a.lives[u].Queued? :: !lives[u].Queued?
    requires forall u | u in a.core.queue[..k] :: !lives[u].Queued?
    ensures RepliesOk(App(core, a.next, lives, a.close, a.enqueued, a.subscribed))
  {
    var was, q, replies := a.core.replies, a.core.queue, core.replies;
    QueueParts(q, k);
    forall i | |was| <= i < |replies| ensures replies[i] == (q[i - |was|], Admitted) && q[i - |was|] in q[..k] {
      assert q[..k][i - |was|] == q[i - |was|];
    }
    forall i | 0 <= i < |was| ensures replies[i] == was[i] && replies[i].0 !in q {}
    hide Admissions;
    forall i, j | 0 <= i < j < |replies| ensures replies[i].0 != replies[j].0 {}
  }

  lemma ReleasingLives(setup: Setup, a: App, t: Ticket, r: Request)
    requires Inv(setup.overload, a.core) && LivesOk(setup, a) && t in a.lives && a.lives[t].Active? && t in a.core.holders
    requires SlotOk(RulesOf(setup), r) && Freed(r)
    ensures var core := Release(setup.overload, a.core, t);
            LivesOk(setup, a.(core := core, lives := Started(a.lives[t := Active(r)], core.holders)))
  {
    hide Release, SlotOk, Freed;
    var k := ReleaseShape(setup.overload, a.core, t);
    PrefixStarts(setup, a, t, r, Release(setup.overload, a.core, t), k);
  }

  lemma ReleasingReplies(setup: Setup, a: App, t: Ticket, r: Request)
    requires Inv(setup.overload, a.core) && LivesOk(setup, a) && RepliesOk(a) && t in a.lives && a.lives[t].Active? && t in a.core.holders
    ensures var core := Release(setup.overload, a.core, t);
            RepliesOk(App(core, a.next, Started(a.lives[t := Active(r)], core.holders), a.close, a.enqueued, a.subscribed))
  {
    hide Release, SlotOk, Freed, RepliesOk;
    var core := Release(setup.overload, a.core, t);
    var k := ReleaseShape(setup.overload, a.core, t);
    QueueParts(a.core.queue, k);
    PrefixReplies(a, core, Started(a.lives[t := Active(r)], core.holders), k);
  }

  lemma ReleasingAnswers(setup: Setup, a: App, t: Ticket, lives: map<Ticket, Life>)
    requires Inv(setup.overload, a.core) && EveryoneAnswered(a) && t in a.core.holders
    ensures EveryoneAnswered(App(Release(setup.overload, a.core, t), a.next, lives, a.close, a.enqueued, a.subscribed))
  {
    hide Release, Inv;
    var k := ReleaseShape(setup.overload, a.core, t);
    var q := a.core.queue;
    assert q == q[..k] + q[k..];
    AnsweredGrows(a.core.replies, Admissions(q[..k]));
    forall u | u in q[..k] ensures Answered(Admissions(q[..k]), u) {
      var i :| 0 <= i < k && q[..k][i] == u;
      assert Admissions(q[..k])[i].0 == u;
    }
  }

  lemma ReleasingKeeps(setup: Setup, a: App, t: Ticket, r: Request)
    requires AppOk(setup, a) && t in a.lives && a.lives[t].Active? && t in a.core.holders
    requires SlotOk(RulesOf(setup), r) && Freed(r)
    ensures var core := Release(setup.overload, a.core, t);
            AppOk(setup, a.(core := core, lives := Started(a.lives[t := Active(r)], core.holders), close := Heard(a.close, a.core, core)))
  {
    hide Release, SlotOk, Freed, Inv, CloseOk, Started;
    ReleasingAnswers(setup, a, t, Started(a.lives[t := Active(r)], Release(setup.overload, a.core, t).holders));
    var core := Release(setup.overload, a.core, t);
    ReleaseKeeps(setup.overload, a.core, t);
    ReleasingLives(setup, a, t, r);
    ReleasingReplies(setup, a, t, r);
    HeardKeeps(setup, a, core, Started(a.lives[t := Active(r)], core.holders), t);
  }

  lemma HeardKeeps(setup: Setup, a: App, core: State, lives: map<Ticket, Life>, t: Ticket)
    requires Inv(setup.overload, a.core) && CloseOk(a) && t in a.core.holders && core == Release(setup.overload, a.core, t)
    ensures CloseOk(App(core, a.next, lives, Heard(a.close, a.core, core), a.enqueued, a.subscribed))
  {
    var k := ReleaseShape(setup.overload, a.core, t);
    assert |a.core.holders| > 0;
    ReleaseKeeps(setup.overload, a.core, t);
  }

  lemma ActsKeeps(setup: Setup, a: App, t: Ticket, e: Event)
    requires AppOk(setup, a) && StepActs(setup, a, t, e).Some?
    ensures AppOk(setup, StepActs(setup, a, t, e).value)
  {
    var before := a.lives[t].request;
    var r := Step(RulesOf(setup), a.core.draining, before, e).value;
    StepKeeps(RulesOf(setup), a.core.draining, before, e);
    StepReleases(RulesOf(setup), a.core.draining, before, e);
    if r.releases == before.releases {
      QuietKeeps(setup, a, t, r);
    } else {
      ReleasingKeeps(setup, a, t, r);
    }
  }

  /** Within the invariant, a slot once back stays back. */
  lemma StepReleases(rules: Rules, draining: bool, r: Request, e: Event)
    requires rules.microtasksFirst && SlotOk(rules, r) && Step(rules, draining, r, e).Some?
    ensures Step(rules, draining, r, e).value.releases >= r.releases
  {
  }

  lemma QuietKeeps(setup: Setup, a: App, t: Ticket, r: Request)
    requires AppOk(setup, a) && t in a.lives && a.lives[t].Active?
    requires SlotOk(RulesOf(setup), r) && (Freed(r) <==> Freed(a.lives[t].request))
    ensures AppOk(setup, a.(lives := a.lives[t := Active(r)]))
  {
    hide SlotOk, Freed, Inv;
    var next := a.(lives := a.lives[t := Active(r)]);
    assert LivesOk(setup, next);
    assert RepliesOk(next) by { hide LivesOk; }
  }

  lemma ClosesKeeps(setup: Setup, a: App, drain: Drain)
    requires AppOk(setup, a)
    ensures AppOk(setup, StepCloses(a, drain))
  {
    if a.close.Running? {
      DrainKeeps(setup.overload, a.core);
      SubscribeKeeps(setup.overload, StartDraining(a.core), SETTLED_CALLBACK);
      DroppedReplies(a, StepCloses(a, drain));
    }
  }

  lemma DroppedReplies(a: App, next: App)
    requires RepliesOk(a) && Increasing(a.core.queue) && forall u | u in a.core.queue :: u in a.lives && a.lives[u].Queued?
    requires next.core.replies == a.core.replies + Dropped(a.core.queue, Draining) && next.core.queue == []
    requires next.lives == TurnedAway(a.lives, Draining)
    ensures RepliesOk(next)
    ensures EveryoneAnswered(a) && next.enqueued == a.enqueued ==> EveryoneAnswered(next)
  {
    AnsweredGrows(a.core.replies, Dropped(a.core.queue, Draining));
    forall u | u in a.core.queue ensures Answered(Dropped(a.core.queue, Draining), u) {
      var i :| 0 <= i < |a.core.queue| && a.core.queue[i] == u;
      assert Dropped(a.core.queue, Draining)[i].0 == u;
    }
    var was, q, replies := a.core.replies, a.core.queue, next.core.replies;
    forall i | |was| <= i < |replies| ensures replies[i] == (q[i - |was|], Refused(Draining)) && q[i - |was|] in q {}
    forall i | 0 <= i < |was| ensures replies[i] == was[i] && replies[i].0 !in q {}
  }

  lemma StepKeepsApp(setup: Setup, a: App, h: Happening)
    requires AppOk(setup, a) && StepApp(setup, a, h).Some?
    ensures AppOk(setup, StepApp(setup, a, h).value)
  {
    match h
    case Arrives(aborted) => ArrivesKeeps(setup, a, aborted);
    case Acts(t, e) => ActsKeeps(setup, a, t, e);
    case Leaves(t) => LeavesKeeps(setup, a, t);
    case Closes(drain) => ClosesKeeps(setup, a, drain);
    case CloseTimer =>
    case CloseResolves => ResolvesKeeps(setup, a);
  }

  lemma ResolvesKeeps(setup: Setup, a: App)
    requires AppOk(setup, a) && StepApp(setup, a, CloseResolves).Some?
    ensures AppOk(setup, StepApp(setup, a, CloseResolves).value)
  {
    assert a.core.inFlight >= 0;
  }

  /** Every run of the application, whatever happens in whatever order, stays within the invariant. */
  lemma {:induction false} RunAppOk(setup: Setup, hs: seq<Happening>)
    requires BuiltIn(setup) && RunApp(setup, hs).Some?
    ensures AppOk(setup, RunApp(setup, hs).value)
  {
    hide AppOk, StepApp;
    if hs == [] {
      NewAppOk(setup);
    } else {
      RunAppOk(setup, hs[..|hs| - 1]);
      StepKeepsApp(setup, RunApp(setup, hs[..|hs| - 1]).value, hs[|hs| - 1]);
    }
  }

  // ---------------------------------------------------------------- consequences over whole runs

  /** The counter never passes the cap, a waiting queue means a full house, and the queue stays within its bound. */
  lemma CapacityHolds(setup: Setup, hs: seq<Happening>)
    requires BuiltIn(setup) && RunApp(setup, hs).Some?
    ensures var s := RunApp(setup, hs).value.core;
            && s.inFlight == |s.holders|
            && (setup.overload.Some? && setup.overload.value.maxConcurrency.Some? ==> s.inFlight <= setup.overload.value.maxConcurrency.value)
            && (s.queue != [] ==> setup.overload.Some? && setup.overload.value.maxConcurrency == Some(s.inFlight) && |s.queue| <= setup.overload.value.maxQueue)
  {
    hide RunApp, LivesOk, RepliesOk, CloseOk, Increasing;
    RunAppOk(setup, hs);
  }

  lemma CompleteIsFreed(rules: Rules, r: Request)
    requires SlotOk(rules, r) && Complete(r)
    ensures Freed(r)
  {
  }

  /** When no request is left unfinished the counter is back at zero and nobody waits. */
  lemma QuietAppIsEmpty(setup: Setup, hs: seq<Happening>)
    requires BuiltIn(setup) && RunApp(setup, hs).Some?
    requires var a := RunApp(setup, hs).value; forall t | t in a.lives && a.lives[t].Active? :: Complete(a.lives[t].request)
    ensures RunApp(setup, hs).value.core.inFlight == 0 && RunApp(setup, hs).value.core.queue == []
  {
    hide RunApp;
    RunAppOk(setup, hs);
    var a := RunApp(setup, hs).value;
    forall t ensures t !in a.core.holders {
      if t in a.lives && a.lives[t].Active? { CompleteIsFreed(RulesOf(setup), a.lives[t].request); }
    }
    assert a.core.holders == {};
  }

  /** No request gives its slot back twice, over any run of the whole application. */
  lemma NobodyReleasesTwice(setup: Setup, hs: seq<Happening>, t: Ticket)
    requires BuiltIn(setup) && RunApp(setup, hs).Some?
    requires var a := RunApp(setup, hs).value; t in a.lives && a.lives[t].Active?
    ensures var a := RunApp(setup, hs).value; a.lives[t].request.releases <= 1
    ensures var a := RunApp(setup, hs).value; t in a.core.holders <==> a.lives[t].request.releases == 0
  {
    hide RunApp;
    RunAppOk(setup, hs);
    var a := RunApp(setup, hs).value;
    assert SlotOk(RulesOf(setup), a.lives[t].request);
  }

  /** Nobody overtakes the queue: an arrival is admitted on the spot only when nobody waits. */
  lemma NoOvertaking(setup: Setup, hs: seq<Happening>, aborted: bool)
    requires BuiltIn(setup) && RunApp(setup, hs).Some?
    ensures var a := RunApp(setup, hs).value;
            var next := StepArrives(setup, a, aborted);
            next.lives[a.next].Active? ==> a.core.queue == []
  {
    hide RunApp;
    RunAppOk(setup, hs);
    var a := RunApp(setup, hs).value;
    ArriveKeeps(setup.overload, a.core, a.next, aborted);
  }

  /** Queued requests are answered at most once, and admitted in arrival order. */
  lemma QueueIsFair(setup: Setup, hs: seq<Happening>, i: nat, j: nat)
    requires BuiltIn(setup) && RunApp(setup, hs).Some?
    requires i < j < |RunApp(setup, hs).value.core.replies|
    ensures var a := RunApp(setup, hs).value;
            && a.core.replies[i].0 != a.core.replies[j].0
            && a.core.replies[i].0 !in a.core.queue
            && (a.core.replies[i].1.Admitted? && a.core.replies[j].1.Admitted? ==> a.core.replies[i].0 < a.core.replies[j].0)
            && (a.core.replies[i].1.Admitted? ==> forall t | t in a.core.queue :: a.core.replies[i].0 < t)
  {
    hide RunApp;
    RunAppOk(setup, hs);
    var a := RunApp(setup, hs).value;
    assert a.core.replies[i].0 in a.lives && !a.lives[a.core.replies[i].0].Queued?;
  }

  /** Whoever the queue took charge of and no longer waits has been answered. */
  lemma NobodyIsForgotten(setup: Setup, hs: seq<Happening>, t: Ticket)
    requires BuiltIn(setup) && RunApp(setup, hs).Some?
    requires var a := RunApp(setup, hs).value; t in a.enqueued && t !in a.core.queue
    ensures Answered(RunApp(setup, hs).value.core.replies, t)
  {
    hide RunApp;
    RunAppOk(setup, hs);
  }

  /** Once a close has begun, nothing that happens raises the counter. */
  lemma DrainOnlyFalls(setup: Setup, hs: seq<Happening>, h: Happening)
    requires BuiltIn(setup) && RunApp(setup, hs).Some? && RunApp(setup, hs).value.core.draining
    requires StepApp(setup, RunApp(setup, hs).value, h).Some?
    ensures var a, b := RunApp(setup, hs).value, StepApp(setup, RunApp(setup, hs).value, h).value;
            b.core.draining && b.core.inFlight <= a.core.inFlight
  {
    hide RunApp;
    RunAppOk(setup, hs);
    var a := RunApp(setup, hs).value;
    assert a.core.queue == [];
    if h.Acts? {
      var before := a.lives[h.ticket].request;
      StepKeeps(RulesOf(setup), true, before, h.event);
      StepReleases(RulesOf(setup), true, before, h.event);
      if h.ticket in a.core.holders { var k := ReleaseShape(setup.overload, a.core, h.ticket); }
    }
  }

  /** A close that reports no timeout reports an empty application, and it stays empty. */
  lemma CloseTellsTheTruth(setup: Setup, hs: seq<Happening>)
    requires BuiltIn(setup) && RunApp(setup, hs).Some?
    requires RunApp(setup, hs).value.close.Resolved? && !RunApp(setup, hs).value.close.timedOut
    ensures RunApp(setup, hs).value.close.inFlight == 0 && RunApp(setup, hs).value.core.inFlight == 0
  {
    hide RunApp;
    RunAppOk(setup, hs);
  }

  /** Drain callbacks are never lost and never repeated: those that ran and those still waiting are those subscribed, in order, and each ran at zero. */
  lemma CallbacksFireOnceAtZero(setup: Setup, hs: seq<Happening>)
    requires BuiltIn(setup) && RunApp(setup, hs).Some?
    ensures var a := RunApp(setup, hs).value;
            && CallbacksOf(a.core.fired) + a.core.closeWaiters == a.subscribed
            && (forall i | 0 <= i < |a.core.fired| :: a.core.fired[i].1 == 0)
            && (a.core.inFlight == 0 ==> CallbacksOf(a.core.fired) == a.subscribed)
  {
    hide RunApp;
    RunAppOk(setup, hs);
    var a := RunApp(setup, hs).value;
    assert a.core.closeWaiters == [] ==> CallbacksOf(a.core.fired) + a.core.closeWaiters == CallbacksOf(a.core.fired);
  }

  /** No close is still waiting once the counter is at zero; one that waits has its callback subscribed. */
  lemma NoCloseHangsAtZero(setup: Setup, hs: seq<Happening>)
    requires BuiltIn(setup) && RunApp(setup, hs).Some?
    ensures var a := RunApp(setup, hs).value;
            a.close.Awaiting? ==> a.subscribed == [SETTLED_CALLBACK] && a.core.inFlight > 0
  {
    hide RunApp;
    RunAppOk(setup, hs);
    var a := RunApp(setup, hs).value;
    assert a.close.Awaiting? ==> |CallbacksOf(a.core.fired) + a.core.closeWaiters| > 0;
  }

  // ---------------------------------------------------------------- who gets in

  /** Every slot is taken. */
  predicate Full(setup: Setup, s: State) {
    setup.overload.Some? && setup.overload.value.maxConcurrency.Some? && s.inFlight >= setup.overload.value.maxConcurrency.value
  }

  /** What an arrival should become. */
  function Fate(setup: Setup, s: State, aborted: bool): Life {
    if s.draining then Turned(Draining)
    else if !Full(setup, s) then Active(FRESH)
    else if setup.overload.value.strategy == FailFast || |s.queue| == setup.overload.value.maxQueue then Turned(Concurrency)
    else if aborted then Turned(Queueing)
    else Queued
  }

  /**
   Over every run: an arrival takes a slot exactly if the application is not draining and has one; it waits, last,
   exactly if there is none but room in the queue and its client is there; otherwise it is turned away for the right
   reason. Nothing else changes.
   */
  lemma ArrivalExactly(setup: Setup, hs: seq<Happening>, aborted: bool)
    requires BuiltIn(setup) && RunApp(setup, hs).Some?
    ensures StepApp(setup, RunApp(setup, hs).value, Arrives(aborted)).Some?
    ensures var a, b := RunApp(setup, hs).value, StepApp(setup, RunApp(setup, hs).value, Arrives(aborted)).value;
            var t, s, fate := a.next, a.core, Fate(setup, a.core, aborted);
            && t !in a.lives && b.next == t + 1 && b.lives == a.lives[t := fate] && b.close == a.close
            && b.enqueued == (if fate.Queued? || fate == Turned(Queueing) then a.enqueued + {t} else a.enqueued)
            && b.core.holders == (if fate.Active? then s.holders + {t} else s.holders)
            && b.core.inFlight == (if fate.Active? then s.inFlight + 1 else s.inFlight)
            && b.core.queue == (if fate.Queued? then s.queue + [t] else s.queue)
            && b.core.replies == (if fate == Turned(Queueing) then s.replies + [(t, Refused(Queueing))] else s.replies)
            && b.core.draining == s.draining && b.core.closeWaiters == s.closeWaiters && b.core.fired == s.fired
  {
    hide RunApp;
    RunAppOk(setup, hs);
    hide LivesOk, RepliesOk, EveryoneAnswered, CloseOk;
    NextIsNew(setup, RunApp(setup, hs).value);
    if setup.overload.Some? { QueueFits(setup, RunApp(setup, hs).value); }
  }

  lemma NextIsNew(setup: Setup, a: App)
    requires LivesOk(setup, a)
    ensures a.next !in a.lives
  {
  }

  lemma QueueFits(setup: Setup, a: App)
    requires Inv(setup.overload, a.core) && setup.overload.Some?
    ensures |a.core.queue| <= setup.overload.value.maxQueue
  {
  }

  /** Over every run: a waiting request that times out or is abandoned leaves the queue and is refused for it; nobody else is touched. */
  lemma LeavingExactly(setup: Setup, hs: seq<Happening>, t: Ticket)
    requires BuiltIn(setup) && RunApp(setup, hs).Some?
    ensures var a := RunApp(setup, hs).value; StepApp(setup, a, Leaves(t)).Some? <==> t in a.core.queue
    ensures var a := RunApp(setup, hs).value;
            t in a.core.queue ==>
              var b := StepApp(setup, a, Leaves(t)).value;
              && t !in b.core.queue && (forall u | u in a.core.queue && u != t :: u in b.core.queue) && Increasing(b.core.queue)
              && (forall u | u in b.core.queue :: u in a.core.queue)
              && b.core == a.core.(queue := b.core.queue, replies := a.core.replies + [(t, Refused(Queueing))])
              && b.lives == a.lives[t := Turned(Queueing)] && b.close == a.close
  {
    hide RunApp;
    RunAppOk(setup, hs);
    hide LivesOk, RepliesOk, EveryoneAnswered, CloseOk;
    WithoutKeeps(RunApp(setup, hs).value.core.queue, t);
  }

  /** Over every run: the first close takes the whole queue off and refuses everyone on it, in order; nobody past the gate is touched. */
  lemma ClosingExactly(setup: Setup, hs: seq<Happening>, drain: Drain)
    requires BuiltIn(setup) && RunApp(setup, hs).Some? && RunApp(setup, hs).value.close.Running?
    ensures StepApp(setup, RunApp(setup, hs).value, Closes(drain)).Some?
    ensures var a, b := RunApp(setup, hs).value, StepApp(setup, RunApp(setup, hs).value, Closes(drain)).value;
            var q, replies := a.core.queue, b.core.replies;
            && b.core.draining && b.core.queue == [] && b.core.holders == a.core.holders && b.core.inFlight == a.core.inFlight
            && |replies| == |a.core.replies| + |q| && replies[..|a.core.replies|] == a.core.replies
            && (forall i | 0 <= i < |q| :: replies[|a.core.replies| + i] == (q[i], Refused(Draining)))
            && b.lives.Keys == a.lives.Keys
            && (forall t | t in a.lives :: b.lives[t] == if t in q then Turned(Draining) else a.lives[t])
            && b.close == (if drain.Zero? then Forced else if a.core.inFlight == 0 then Decided(false) else Awaiting(drain.Bounded?))
  {
    hide RunApp;
    RunAppOk(setup, hs);
    hide RepliesOk, EveryoneAnswered, Inv, SlotOk;
  }

  /** Over every run: a slot given back goes to the head of the queue at once, and the counter does not dip; with nobody waiting it falls by one. */
  lemma SlotIsHandedOn(setup: Setup, hs: seq<Happening>, t: Ticket, e: Event)
    requires BuiltIn(setup) && RunApp(setup, hs).Some?
    requires StepApp(setup, RunApp(setup, hs).value, Acts(t, e)).Some?
    requires var a, b := RunApp(setup, hs).value, StepApp(setup, RunApp(setup, hs).value, Acts(t, e)).value;
             b.lives[t].request.releases > a.lives[t].request.releases
    ensures var a, b := RunApp(setup, hs).value, StepApp(setup, RunApp(setup, hs).value, Acts(t, e)).value;
            var q := a.core.queue;
            && t in a.core.holders
            && b.core.queue == (if q == [] then [] else q[1..])
            && b.core.holders == a.core.holders - {t} + (if q == [] then {} else {q[0]})
            && b.core.inFlight == (if q == [] then a.core.inFlight - 1 else a.core.inFlight)
            && b.core.replies == (if q == [] then a.core.replies else a.core.replies + [(q[0], Admitted)])
            && (q != [] ==> q[0] in b.lives && b.lives[q[0]] == Active(FRESH))
  {
    hide RunApp;
    RunAppOk(setup, hs);
    var a := RunApp(setup, hs).value;
    StepKeeps(RulesOf(setup), a.core.draining, a.lives[t].request, e);
    hide RepliesOk, EveryoneAnswered, CloseOk, SlotOk;
    ReleaseOne(setup.overload, a.core, t);
  }

  /** In a reachable state one release admits exactly the head of the queue. */
  lemma ReleaseOne(o: Option<Overload>, s: State, t: Ticket)
    requires Inv(o, s) && t in s.holders
    ensures var r, q := Release(o, s, t), s.queue;
            && r.queue == (if q == [] then [] else q[1..])
            && r.holders == s.holders - {t} + (if q == [] then {} else {q[0]})
            && r.inFlight == (if q == [] then s.inFlight - 1 else s.inFlight)
            && r.replies == (if q == [] then s.replies else s.replies + [(q[0], Admitted)])
  {
    var freed := GiveBack(s, t);
    if s.queue != [] {
      var one := Transfer(freed);
      assert !Below(o, one.inFlight) && Below(o, freed.inFlight);
      assert Refill(o, one) == one;
    }
  }

  /** A drain-time body is held over every run: nothing but the end of its pump gives its slot back. */
  lemma BodyKeepsSlot(setup: Setup, hs: seq<Happening>, t: Ticket, h: Happening)
    requires BuiltIn(setup) && RunApp(setup, hs).Some? && StepApp(setup, RunApp(setup, hs).value, h).Some?
    requires var a := RunApp(setup, hs).value; t in a.lives && a.lives[t].Active? && a.lives[t].request.hold == Open(false, false)
    ensures t in RunApp(setup, hs).value.core.holders
    ensures var b := StepApp(setup, RunApp(setup, hs).value, h).value;
            && t in b.lives && b.lives[t].Active?
            && (t in b.core.holders <==> h != Acts(t, PumpEnds))
            && (h != Acts(t, PumpEnds) ==> b.lives[t].request.hold == Open(false, false))
  {
    hide RunApp;
    RunAppOk(setup, hs);
    var a := RunApp(setup, hs).value;
    StepKeepsApp(setup, a, h);
    hide StepApp, AppOk, LivesOk;
    BodyKeepsOne(setup, a, t, h);
    Placement(setup, a, t);
    Placement(setup, StepApp(setup, a, h).value, t);
  }

  /** A request past the gate holds a slot until it freed it. */
  lemma Placement(setup: Setup, a: App, t: Ticket)
    requires AppOk(setup, a) && t in a.lives && a.lives[t].Active?
    ensures t in a.core.holders <==> !Freed(a.lives[t].request)
    ensures SlotOk(RulesOf(setup), a.lives[t].request)
    ensures a.lives[t].request.hold.Open? ==> (Freed(a.lives[t].request) <==> a.lives[t].request.hold.released)
  {
    hide RepliesOk, EveryoneAnswered, CloseOk, Inv, SlotOk;
    if a.lives[t].request.hold.Open? { HeldIsNotFreed(RulesOf(setup), a.lives[t].request); }
  }

  lemma BodyKeepsOne(setup: Setup, a: App, t: Ticket, h: Happening)
    requires AppOk(setup, a) && StepApp(setup, a, h).Some?
    requires t in a.lives && a.lives[t].Active? && a.lives[t].request.hold == Open(false, false)
    ensures var b := StepApp(setup, a, h).value;
            && t in b.lives && b.lives[t].Active?
            && b.lives[t].request.hold == (if h == Acts(t, PumpEnds) then Open(true, true) else Open(false, false))
  {
    Placement(setup, a, t);
    if h.Acts? && h.ticket == t {
      HeldUntilEnd(RulesOf(setup), a.core.draining, a.lives[t].request, h.event);
    }
    assert t < a.next && t !in a.core.queue by { hide RepliesOk, EveryoneAnswered, CloseOk, Inv, SlotOk; }
    hide AppOk, Release, Arrive, Step, CloseCore, Status;
  }

  lemma HeldIsNotFreed(rules: Rules, r: Request)
    requires SlotOk(rules, r) && r.hold.Open?
    ensures Freed(r) <==> r.hold.released
  {
  }

  // ---------------------------------------------------------------- what a close reports

  /** Over every run: a close waiting for a limited time can be cut short, a decided one resolves with the counter as it is, and neither happens otherwise. */
  lemma CloseMovesOn(setup: Setup, hs: seq<Happening>)
    requires RunApp(setup, hs).Some?
    ensures var a := RunApp(setup, hs).value;
            && (StepApp(setup, a, CloseTimer).Some? <==> a.close == Awaiting(true))
            && (a.close == Awaiting(true) ==> StepApp(setup, a, CloseTimer).value == a.(close := Decided(true)))
            && (StepApp(setup, a, CloseResolves).Some? <==> a.close == Forced || a.close == Decided(false) || a.close == Decided(true))
            && (StepApp(setup, a, CloseResolves).Some? ==>
                  StepApp(setup, a, CloseResolves).value
                  == a.(close := Resolved(if a.close.Forced? then a.core.inFlight > 0 else a.close.timedOut, a.core.inFlight)))
  {
    hide RunApp;
  }

  /** The first close asked for an immediate stop. */
  predicate ForcedAtOnce(setup: Setup, hs: seq<Happening>)
    requires RunApp(setup, hs).Some?
  {
    hs != [] &&
    (|| ForcedAtOnce(setup, hs[..|hs| - 1])
     || (hs[|hs| - 1] == Closes(Zero) && RunApp(setup, hs[..|hs| - 1]).value.close.Running?))
  }

  /** Its timer fired, or another close with drain 0 came, while it was waiting for the counter. */
  predicate CutShort(setup: Setup, hs: seq<Happening>)
    requires RunApp(setup, hs).Some?
  {
    hs != [] &&
    (|| CutShort(setup, hs[..|hs| - 1])
     || (var a, h := RunApp(setup, hs[..|hs| - 1]).value, hs[|hs| - 1];
         a.core.draining && a.core.inFlight > 0 && a.close.Awaiting? && (h == CloseTimer || h == Closes(Zero))))
  }

  predicate ReportOk(close: Close, forced: bool, cut: bool) {
    match close
    case Running => !forced && !cut
    case Awaiting(_) => !forced && !cut
    case Forced => forced && !cut
    case Decided(timedOut) => !forced && (timedOut <==> cut)
    case Resolved(timedOut, inFlight) => if forced then !cut && (timedOut <==> inFlight > 0) else timedOut <==> cut
  }

  /** A close reports a timeout if and only if it was cut short while the counter was above zero, or was immediate and found it there. */
  lemma {:induction false} CloseReportsExactly(setup: Setup, hs: seq<Happening>)
    requires BuiltIn(setup) && RunApp(setup, hs).Some?
    ensures ReportOk(RunApp(setup, hs).value.close, ForcedAtOnce(setup, hs), CutShort(setup, hs))
  {
    if hs != [] {
      var init, h := hs[..|hs| - 1], hs[|hs| - 1];
      var a := RunApp(setup, init).value;
      CloseReportsExactly(setup, init);
      NoCloseHangsAtZero(setup, init);
      RunAppOk(setup, init);
      hide LivesOk, RepliesOk, EveryoneAnswered, Inv, Release, Started;
      ReportStep(setup, a, h, ForcedAtOnce(setup, init), CutShort(setup, init));
    }
  }

  lemma ReportStep(setup: Setup, a: App, h: Happening, forced: bool, cut: bool)
    requires CloseOk(a) && StepApp(setup, a, h).Some? && ReportOk(a.close, forced, cut) && (a.close.Awaiting? ==> a.core.inFlight > 0)
    ensures ReportOk(StepApp(setup, a, h).value.close,
                     forced || (h == Closes(Zero) && a.close.Running?),
                     cut || (a.core.draining && a.core.inFlight > 0 && a.close.Awaiting? && (h == CloseTimer || h == Closes(Zero))))
  {
    hide Release, Started, Arrive, Step;
  }
}
