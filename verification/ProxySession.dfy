/** One proxy session: a source mirrored into a virtual device, under pause
    requests, losses, reconnections and a control that may come and go. */
module ProxySessions {
  import opened Input
  import opened Evdev
  import opened Capture
  import opened Neutralization
  import opened SourceDevices
  import opened VirtualDevices
  import opened WriteLog
  import opened Deadlines
  import opened InstanceNames
  import opened RuntimeControls
  import opened Activity

  const EVENT_WAIT_USEC: nat := 10_000
  const SOURCE_WAIT_USEC: nat := 100_000
  const SETTLING_WINDOW_SECONDS: nat := 2
  const EINTR: int := 4

  type Duration = ms: nat | ms < UINT32_LIMIT

  /** What the session looks like at one loop head, and what clients of its
      control hold. */
  datatype Moment = Moment(head: Head, plane: Plane, clients: Option<Client>)

  /** A client read the properties when the control appeared, and has followed
      its signals since. */
  datatype Client = Client(initial: RuntimeState, signals: seq<Notification>)

  /** What may only grow: the history, a failure, and the course of the control
      plane. */
  datatype Past = Past(history: seq<Step>, fatal: Result, plane: Plane)

  function PastOf(m: Moment): Past {
    Past(m.head.history, m.head.fatal, m.plane)
  }

  /** From `a` the session can only have come to `b` by going on. */
  ghost predicate Precedes(a: Past, b: Past) {
    && a.history <= b.history
    && (a.fatal != Success ==> b.fatal != Success)
    && PlaneGoesOn(a.plane, b.plane)
    && (SamePeriod(a, b) ==> NoCut(a.plane.marks, b.plane.marks))
  }

  /** Neither paused nor resumed from `history` on to `later`. */
  ghost predicate NoTurn(history: seq<Step>, later: seq<Step>) {
    forall k | |history| <= k < |later| :: !later[k].Turned?
  }

  /** From `a` to `b` there was one control throughout, and no pause or resume. */
  ghost predicate SamePeriod(a: Past, b: Past) {
    && a.plane.connected && b.plane.connected && a.plane.attempts == b.plane.attempts
    && NoTurn(a.history, b.history)
  }

  /** A commit that turns the session, or cuts nothing off, goes on from where
      the last turn was still to come. */
  lemma CommitGoesOn(past: Past, now: Past, after: Past)
    requires Precedes(past, now) && after.history == now.history && after.fatal == now.fatal
    requires now.plane.marks <= after.plane.marks && after.plane.attempts == now.plane.attempts
    requires after.plane.tracking == now.plane.tracking && after.plane.clock == now.plane.clock
    requires after.plane.retry == now.plane.retry
    requires after.plane.connected ==> now.plane.connected
    requires NoCut(now.plane.marks, after.plane.marks) || !NoTurn(past.history, now.history)
    ensures Precedes(past, after)
  {
    if SamePeriod(past, after) {
      assert SamePeriod(past, now);
    }
  }

  /** Going on is reflexive and transitive. */
  lemma GoingOn()
    ensures forall a: Past :: Precedes(a, a)
    ensures forall a: Past, b: Past, c: Past :: Precedes(a, b) && Precedes(b, c) ==> Precedes(a, c)
  {
  }

  lemma TimeGoesOn(a: Past, b: Past)
    requires Precedes(a, b)
    ensures a.plane.clock <= b.plane.clock
  {
  }

  /** Timers of the activity flags may come and go. */
  lemma TimersGoOn(a: Past, b: Past)
    requires b == a.(plane := a.plane.(running := b.plane.running, paused := b.plane.paused))
    ensures Precedes(a, b)
  {
  }

  lemma AttemptGoesOn(a: Past, b: Past, at: nat)
    requires a.plane.retry.Some? && b.history == a.history && b.fatal == a.fatal && a.plane.clock <= b.plane.clock
    requires b.plane.marks == a.plane.marks && b.plane.attempts == a.plane.attempts + [at]
    ensures Precedes(a, b)
  {
  }

  lemma MarksGoOn(a: Past, b: Past)
    requires b == a.(plane := a.plane.(marks := b.plane.marks))
    requires a.plane.marks <= b.plane.marks && NoCut(a.plane.marks, b.plane.marks)
    ensures Precedes(a, b)
  {
  }

  lemma ClockGoesOn(a: Past, clock: nat)
    requires a.plane.clock <= clock
    ensures Precedes(a, a.(plane := a.plane.(clock := clock)))
  {
  }

  /** The moments follow each other, and lead to `past`. */
  ghost predicate Chained(moments: seq<Moment>, past: Past) {
    && (forall m | m in moments :: Precedes(PastOf(m), past))
    && forall i, j | 0 <= i < j < |moments| :: Precedes(PastOf(moments[i]), PastOf(moments[j]))
  }

  lemma ChainGoesOn(moments: seq<Moment>, past: Past, later: Past)
    requires Chained(moments, past) && Precedes(past, later)
    ensures Chained(moments, later)
  {
  }

  lemma ChainGrows(moments: seq<Moment>, m: Moment)
    requires Chained(moments, PastOf(m))
    ensures Chained(moments + [m], PastOf(m))
  {
  }

  /** The timers of a session. A deadline counts only while its timer is active. */
  datatype Timers = Timers(
    tracking: bool,
    runningTimer: bool,
    runningDeadline: Timespec,
    pausedTimer: bool,
    pausedDeadline: Timespec,
    retryActive: bool,
    retryDeadline: Timespec)

  /** What the devices went through; the retired parts belong to devices that
      are gone. */
  datatype Log = Log(
    known: set<(nat, nat)>,
    history: seq<Step>,
    retiredWrites: seq<Event>,
    retiredReads: seq<Event>)

  /** What the control plane went through; `reading` is the last answer of the
      clock. */
  datatype Trace = Trace(marks: seq<Mark>, attempts: seq<nat>, reading: Option<nat>)

  /** What devices and their creation answered: an opening of the source, a
      creation of the virtual device, an event read, or the end of reading. */
  datatype Answer = Opened(result: Result) | Made(result: Result) | Got(event: Event) | NotGot(result: Result)

  /** The events that were read, in order. */
  function EventsGot(answers: seq<Answer>): seq<Event> {
    if answers == [] then []
    else
      var last := answers[|answers| - 1];
      EventsGot(answers[..|answers| - 1]) + if last.Got? then [last.event] else []
  }

  /** What was answered since. */
  function Since(before: seq<Answer>, after: seq<Answer>): seq<Answer> {
    if before <= after then after[|before|..] else []
  }

  /** A recovery reads event after event. It succeeds exactly when the kernel
      held nothing more back, and otherwise ends at the first failure. */
  ghost predicate Recovered(answers: seq<Answer>, r: Result) {
    && answers != []
    && (forall k | 0 <= k < |answers| - 1 :: answers[k].Got?)
    && (var last := answers[|answers| - 1];
        if last.Got? then r == WriteFailed
        else last.NotGot? && r == if last.result == Unavailable then Success else last.result)
  }

  /** One read, and a recovery exactly if the kernel asks for one. */
  ghost predicate Processed(answers: seq<Answer>, r: Result) {
    && answers != []
    && match answers[0]
       case Got(_) => |answers| == 1 && r in {Success, WriteFailed}
       case NotGot(q) => if q == SyncRequired then Recovered(answers[1..], r) else |answers| == 1 && r == q
       case _ => false
  }

  /** Every event got was read off the source, and handed on or, while paused,
      kept back. */
  ghost predicate TakenOver(h: Head, after: Head, answers: seq<Answer>, r: Result) {
    && after.paused == h.paused
    && after.consumed == h.consumed + EventsGot(answers)
    && (r == Success ==> after.written == h.written + (if h.paused then [] else EventsGot(answers)))
  }

  lemma NothingTakenOver(h: Head, r: Result)
    ensures TakenOver(h, h, [], r)
  {
  }

  lemma OneTakenOver(h: Head, after: Head, e: Event, r: Result)
    requires h.source.Some? && (r == Success && !h.paused ==> h.virtual.Some?)
    requires after ==
      if r != Success then AfterLost(h, e) else if h.paused then AfterSuppress(h, e) else AfterForward(h, e)
    ensures TakenOver(h, after, [Got(e)], r)
  {
    EventsGotSnoc([], Got(e));
    assert [] + [Got(e)] == [Got(e)];
  }

  lemma NoneTakenOver(h: Head, q: Result, r: Result)
    ensures TakenOver(h, h, [NotGot(q)], r)
  {
    EventsGotSnoc([], NotGot(q));
    assert [] + [NotGot(q)] == [NotGot(q)];
  }

  /** The first answer decides whether there are more. */
  lemma AnswerTakenOver(h: Head, after: Head, before: seq<Answer>, a: Answer, answers: seq<Answer>, r: Result)
    requires before + [a] <= answers && (a.Got? || a.NotGot?)
    requires a == NotGot(SyncRequired) ==>
      Recovered(Since(before + [a], answers), r) && TakenOver(h, after, Since(before + [a], answers), r)
    requires a != NotGot(SyncRequired) ==>
      answers == before + [a] && TakenOver(h, after, [a], r) &&
      if a.Got? then r in {Success, WriteFailed} else r == a.result
    ensures before <= answers && Processed(Since(before, answers), r) && TakenOver(h, after, Since(before, answers), r)
    ensures r !in {Success, WriteFailed} ==> answers[|answers| - 1] == NotGot(r)
  {
    var later := Since(before + [a], answers);
    assert Since(before, answers) == [a] + later;
    if !a.Got? {
      NothingBefore(a, later);
    }
  }

  lemma {:induction false} NothingBefore(a: Answer, answers: seq<Answer>)
    requires !a.Got?
    ensures EventsGot([a] + answers) == EventsGot(answers)
    decreases |answers|
  {
    if answers == [] {
      EventsGotSnoc([], a);
      assert [a] + [] == [] + [a];
    } else {
      var last := |answers| - 1;
      assert ([a] + answers)[..last + 1] == [a] + answers[..last];
      NothingBefore(a, answers[..last]);
    }
  }

  lemma TakenOverMore(h: Head, mid: Head, after: Head, answers: seq<Answer>, a: Answer, r: Result)
    requires TakenOver(h, mid, answers, Success) && TakenOver(mid, after, [a], r)
    ensures TakenOver(h, after, answers + [a], r)
  {
    EventsGotSnoc(answers, a);
  }

  lemma EventsGotSnoc(answers: seq<Answer>, a: Answer)
    ensures EventsGot(answers + [a]) == EventsGot(answers) + EventsGot([a])
    ensures EventsGot([a]) == if a.Got? then [a.event] else []
  {
    assert (answers + [a])[..|answers|] == answers;
  }

  /** When an acquisition is over, by what the opening answered. A source that is
      not there is always waited for. One that was there before and is denied is
      waited for until two seconds after the first denial, as long as the clock
      can be read; `at` is what it said. */
  ghost predicate Decided(answer: Result, openedBefore: bool, settling: bool, deadline: Timespec, at: Option<nat>,
                          done: bool, settled: bool, until: Timespec) {
    && (answer == SourceUnavailable ==> !done && settled == settling && until == deadline)
    && (answer == PermissionDenied && openedBefore ==>
          && (done <==> at.None? || (settling && Ns(deadline) <= at.value))
          && (!done ==> settled && if settling then until == deadline else Ns(until) == at.value + 2_000_000_000))
    && (answer == PermissionDenied && !openedBefore ==> done)
    && (answer !in {SourceUnavailable, PermissionDenied} ==> done)
  }

  /** One try to open the source, and what the clock said when it was denied. */
  datatype Try = Try(answer: Result, at: Option<nat>)

  /** When a source that was there before was first denied. */
  function FirstDenial(tries: seq<Try>): Option<nat> {
    if tries == [] then None
    else
      var last := |tries| - 1;
      var earlier := FirstDenial(tries[..last]);
      if earlier.None? && tries[last].answer == PermissionDenied then tries[last].at else earlier
  }

  /** Every one of these tries was worth another one: the source was not there,
      or it was denied less than two seconds after it was first denied. */
  ghost predicate WorthAnother(tries: seq<Try>, openedBefore: bool) {
    forall k | 0 <= k < |tries| ::
      tries[k].answer == SourceUnavailable ||
      (openedBefore && tries[k].answer == PermissionDenied && tries[k].at.Some? &&
       !TimeIsUp(tries[..k], tries[k].at.value))
  }

  ghost predicate TimeIsUp(tries: seq<Try>, now: nat) {
    FirstDenial(tries).Some? && FirstDenial(tries).value + 2_000_000_000 <= now
  }

  /** The tries of an acquisition that ended with `r`. All but the last were
      worth another one. A denied source ends it if it was never there, if the
      clock could not be read, or if its time was up. */
  ghost predicate Acquisition(tries: seq<Try>, openedBefore: bool, r: Result) {
    tries != [] ==>
      var last := |tries| - 1;
      && WorthAnother(tries[..last], openedBefore)
      && (r == PermissionDenied ==>
            && tries[last].answer == r
            && (!openedBefore || tries[last].at.None? || TimeIsUp(tries[..last], tries[last].at.value)))
  }

  /** `tries` is what the openings since `before` answered; nothing but virtual
      devices was asked for besides. */
  ghost predicate TriesIn(tries: seq<Try>, before: seq<Answer>, answers: seq<Answer>) {
    && before <= answers && |before| + |tries| <= |answers|
    && (forall k | 0 <= k < |tries| :: answers[|before| + k] == Opened(tries[k].answer))
    && forall k | |before| + |tries| <= k < |answers| :: answers[k].Made?
  }

  /** Only virtual devices were asked for. */
  ghost predicate OnlyMade(before: seq<Answer>, answers: seq<Answer>) {
    before <= answers && forall k | |before| <= k < |answers| :: answers[k].Made?
  }

  /** Where the tries of an acquisition that goes on have led. */
  ghost predicate GoesOn(tries: seq<Try>, openedBefore: bool, settling: bool, deadline: Timespec) {
    && WorthAnother(tries, openedBefore)
    && (settling <==> FirstDenial(tries).Some?)
    && (settling ==> Ns(deadline) == FirstDenial(tries).value + 2_000_000_000)
  }

  /** One round: a try that decides, or none because the session failed. */
  ghost predicate Round(tries: seq<Try>, openedBefore: bool, settling: bool, deadline: Timespec,
                        done: bool, settled: bool, until: Timespec, r: Result) {
    if tries == [] then done && r != PermissionDenied
    else
      && |tries| == 1
      && Decided(tries[0].answer, openedBefore, settling, deadline, tries[0].at, done, settled, until)
      && (r == PermissionDenied ==> tries[0].answer == r)
  }

  /** One more try, after which the acquisition is over or goes on. */
  lemma TryAgain(tries: seq<Try>, t: Try, openedBefore: bool, settling: bool, deadline: Timespec,
                 done: bool, settled: bool, until: Timespec, r: Result)
    requires GoesOn(tries, openedBefore, settling, deadline)
    requires Decided(t.answer, openedBefore, settling, deadline, t.at, done, settled, until)
    requires r == PermissionDenied ==> t.answer == r
    ensures if done then Acquisition(tries + [t], openedBefore, r)
            else GoesOn(tries + [t], openedBefore, settled, until)
  {
    var all := tries + [t];
    assert all[..|tries|] == tries;
    forall k | 0 <= k < |tries| ensures all[..k] == tries[..k] {
    }
  }

  lemma NoTries(openedBefore: bool, deadline: Timespec, answers: seq<Answer>)
    ensures GoesOn([], openedBefore, false, deadline) && TriesIn([], answers, answers)
  {
  }

  lemma RoundOfTries(tries: seq<Try>, more: seq<Try>, openedBefore: bool, settling: bool, deadline: Timespec,
                     done: bool, settled: bool, until: Timespec, r: Result)
    requires GoesOn(tries, openedBefore, settling, deadline)
    requires Round(more, openedBefore, settling, deadline, done, settled, until, r)
    ensures if done then Acquisition(tries + more, openedBefore, r)
            else GoesOn(tries + more, openedBefore, settled, until)
  {
    if more == [] {
      assert tries + more == tries;
      EndOfTries(tries, openedBefore, settling, deadline, r);
    } else {
      assert more == [more[0]];
      TryAgain(tries, more[0], openedBefore, settling, deadline, done, settled, until, r);
    }
  }

  lemma EndOfTries(tries: seq<Try>, openedBefore: bool, settling: bool, deadline: Timespec, r: Result)
    requires GoesOn(tries, openedBefore, settling, deadline) && r != PermissionDenied
    ensures Acquisition(tries, openedBefore, r)
  {
    forall k | 0 <= k < |tries| - 1 ensures tries[..|tries| - 1][..k] == tries[..k] {
    }
  }

  lemma MoreTries(tries: seq<Try>, more: seq<Try>, before: seq<Answer>, mid: seq<Answer>, answers: seq<Answer>)
    requires TriesIn(tries, before, mid) && |mid| == |before| + |tries| && TriesIn(more, mid, answers)
    ensures TriesIn(tries + more, before, answers)
  {
    forall k | |tries| <= k < |tries + more| ensures answers[|before| + k] == Opened((tries + more)[k].answer) {
      assert answers[|mid| + (k - |tries|)] == Opened(more[k - |tries|].answer);
    }
  }

  /** What kind of use an event stands for. */
  datatype Use = Bookkeeping | Motion | Interaction

  function UseOf(e: Event): Use {
    if e.kind == EV_SYN || (e.kind == EV_ABS && e.code == ABS_MT_SLOT) then Bookkeeping
    else if e.kind == EV_REL || (e.kind == EV_ABS && e.code != ABS_MT_TRACKING_ID) then Motion
    else Interaction
  }

  /** Interaction always counts as activity; motion only if it is enabled;
      protocol bookkeeping never. */
  predicate EventIsActivity(e: Event, motionEnabled: bool): (counts: bool)
    ensures counts <==> UseOf(e) == Interaction || (UseOf(e) == Motion && motionEnabled)
  {
    if e.kind == EV_SYN then false
    else if e.kind == EV_REL then motionEnabled
    else if e.kind == EV_ABS then
      if e.code == ABS_MT_TRACKING_ID then true
      else if e.code == ABS_MT_SLOT then false
      else motionEnabled
    else true
  }

  /** What the bus may deliver. */
  datatype Message = NoMessage | OtherMessage | PauseCall | ResumeCall

  /** The policy part of the state: what a client may set and what devices
      decide, but no activity. */
  ghost predicate SamePolicyState(a: RuntimeState, b: RuntimeState) {
    a.paused == b.paused && a.sourceAvailable == b.sourceAvailable
  }

  /** The least of the cap and the time to every live deadline. `first` is the
      clock as read for the timers, `second` as read for the retry. */
  function NearestDeadline(p: Plane, cap: nat, first: Option<nat>, second: Option<nat>): nat {
    var a := if p.running.Some? && first.Some? then Min(cap, UsecUntil(Ns(p.running.value), first.value)) else cap;
    var b := if p.paused.Some? && first.Some? then Min(a, UsecUntil(Ns(p.paused.value), first.value)) else a;
    if p.retry.Some? && second.Some? then Min(b, UsecUntil(Ns(p.retry.value), second.value)) else b
  }

  /** The wait is nothing only if a live deadline has passed. */
  lemma ZeroWaitMeansDue(p: Plane, cap: nat, first: Option<nat>, second: Option<nat>)
    requires cap > 0 && NearestDeadline(p, cap, first, second) == 0
    requires (first.Some? ==> first.value <= p.clock) && (second.Some? ==> second.value <= p.clock)
    ensures exists d | d in [p.running, p.paused, p.retry] :: d.Some? && Ns(d.value) <= p.clock
  {
  }

  /** One wait: how long, for which plane, and what the clock last said. */
  datatype Wait = Wait(usec: nat, plane: Plane, reading: Option<nat>)

  /** What the session waited for, and what dispatching answered. */
  datatype Served = Served(waits: seq<Wait>, dispatched: seq<int>)

  /** The wait never exceeds the cap, is shorter only if it reaches a deadline,
      and oversleeps none by a microsecond as long as the clock can be read. */
  ghost predicate Fits(w: Wait, cap: nat) {
    var deadlines := [w.plane.running, w.plane.paused, w.plane.retry];
    && w.usec <= cap
    && (w.usec < cap ==>
          exists d | d in deadlines :: d.Some? && Ns(d.value) <= w.plane.clock + w.usec * 1000)
    && (w.usec > 0 && w.reading.Some? ==>
          forall d | d in deadlines :: d.Some? ==> w.plane.clock + w.usec * 1000 < Ns(d.value) + 1000)
  }

  ghost predicate Waited(before: seq<Wait>, after: seq<Wait>, cap: nat) {
    |after| == |before| + 1 && before == after[..|before|] && Fits(after[|before|], cap)
  }

  /** Messages were dispatched until an answer was not positive. */
  ghost predicate Dispatched(before: seq<int>, after: seq<int>) {
    before < after && forall k | |before| <= k < |after| - 1 :: after[k] > 0
  }

  /** The same, with the answer the loop goes by. */
  ghost predicate Dispatching(before: seq<int>, after: seq<int>, result: int) {
    && before <= after
    && (if before == after then result > 0 else Dispatched(before, after) && after[|after| - 1] == result)
  }

  lemma DispatchMore(before: seq<int>, after: seq<int>, result: int, next: int)
    requires Dispatching(before, after, result) && result > 0
    ensures Dispatching(before, after + [next], next) && Dispatched(before, after + [next])
  {
  }

  lemma NothingDispatched(before: seq<int>)
    ensures Dispatching(before, before, 1)
  {
  }

  lemma EndOfDispatch(before: seq<int>, after: seq<int>, result: int)
    requires Dispatching(before, after, result) && result <= 0
    ensures Dispatched(before, after) && after[|after| - 1] == result
  {
  }

  /** The nearest deadline, as the clock shows it, makes a wait that fits. */
  lemma NearestFits(p: Plane, cap: nat, first: Option<nat>, second: Option<nat>, reading: Option<nat>)
    requires (first.Some? ==> first.value == p.clock) && (second.Some? ==> second.value == p.clock)
    requires reading.Some? ==>
      (p.running.Some? || p.paused.Some? ==> first.Some?) && (p.retry.Some? ==> second.Some?)
    ensures Fits(Wait(NearestDeadline(p, cap, first, second), p, reading), cap)
  {
    var deadlines := [p.running, p.paused, p.retry];
    assert deadlines[0] == p.running && deadlines[1] == p.paused && deadlines[2] == p.retry;
  }

  /** The invariant of every loop head: the devices mirror or are neutral, the
      control plane is sound, and clients hold the session's own state. */
  ghost predicate MomentOk(m: Moment, policy: Policy) {
    && HeadOk(m.head)
    && PlaneSettled(m.plane, policy)
    && m.head.paused == m.plane.state.paused && m.head.available == m.plane.state.sourceAvailable
    && m.clients.Some? == m.plane.connected
    && (m.clients.Some? ==>
          && ObserveAll(m.clients.value.initial, m.clients.value.signals) == m.plane.state
          && SignalsExact(m.clients.value.initial, m.clients.value.signals))
  }

  /** What the invariant means. While nothing failed, an unpaused session with a
      source mirrors it, and any other session is neutral. The source counts as
      available exactly when both devices are there. The activity flags exclude
      each other, and clients are up to date. */
  lemma MomentMeaning(m: Moment, policy: Policy)
    requires MomentOk(m, policy)
    ensures var h := m.head;
            && (h.fatal == Success && h.source.Some? && !h.paused ==>
                  h.virtual.Some? && Tracked(h) && Mirrors(h.source.value.state, h.virtual.value.state, h.known))
            && (h.fatal == Success && (h.source.None? || h.paused) && h.virtual.Some? ==>
                  Neutral(h.virtual.value.state))
            && (h.available <==> h.source.Some? && h.virtual.Some?)
            && (h.source.Some? ==>
                  SlotCount(h.source.value.device) == SlotCount(h.virtual.value.device))
    ensures !(m.plane.state.activityWhileRunning && m.plane.state.activityWhilePaused)
    ensures m.clients.Some? ==>
              && ObserveAll(m.clients.value.initial, m.clients.value.signals) == m.plane.state
              && SignalsExact(m.clients.value.initial, m.clients.value.signals)
    ensures m.plane.retry.Some? ==> m.clients.None?
  {
    if m.head.fatal == Success {
      MirrorOrNeutral(m.head);
    }
    if m.head.source.Some? {
      EqualProfilesAgree(m.head.source.value.device, m.head.virtual.value.device);
    }
    FlagsExclusive(m.plane, policy);
  }

  /** Within one period, every two moments obey the laws of time. */
  lemma PeriodsInOrder(moments: seq<Moment>, policy: Policy, past: Past)
    requires (forall m | m in moments :: MomentOk(m, policy)) && Chained(moments, past)
    ensures forall i, j | 0 <= i < j < |moments| && SamePeriod(PastOf(moments[i]), PastOf(moments[j])) ::
      PeriodLaws(moments[i].plane, moments[j].plane, policy)
    ensures forall i, j | 0 <= i < j < |moments| && !moments[i].plane.connected && moments[j].plane.connected ::
      |moments[i].plane.attempts| < |moments[j].plane.attempts|
  {
    hide HeadOk, PlaneOk, PeriodLaws, NoTurn;
    forall i, j | 0 <= i < j < |moments| && SamePeriod(PastOf(moments[i]), PastOf(moments[j]))
      ensures PeriodLaws(moments[i].plane, moments[j].plane, policy)
    {
      assert Precedes(PastOf(moments[i]), PastOf(moments[j]));
      assert MomentOk(moments[i], policy) && MomentOk(moments[j], policy);
      UncutPeriodLaws(moments[i].plane, moments[j].plane, policy);
    }
    forall i, j | 0 <= i < j < |moments| && !moments[i].plane.connected && moments[j].plane.connected
      ensures |moments[i].plane.attempts| < |moments[j].plane.attempts|
    {
      assert Precedes(PastOf(moments[i]), PastOf(moments[j]));
    }
  }

  /** What the moments of a run and its end have to do with each other. Writes
      and reads only grow, a failure stays and ends all reading, and a control
      that was given up is never tried again. */
  lemma RunMeaning(moments: seq<Moment>, policy: Policy, past: Past, end: Head)
    requires (forall m | m in moments :: MomentOk(m, policy)) && Chained(moments, past)
    requires Accounted(end) && end.history == past.history && end.fatal == past.fatal
    ensures Segmented(end.history)
    ensures forall m | m in moments :: m.head.written <= end.written && m.head.consumed <= end.consumed
    ensures forall m | m in moments && m.head.fatal != Success ::
      end.fatal != Success && ModeOf(end.history) == Broken && end.consumed == m.head.consumed
    ensures forall m | m in moments && GivenUp(m.plane) ::
      GivenUp(past.plane) && past.plane.attempts == m.plane.attempts
    ensures forall i, j | 0 <= i < j < |moments| && SamePeriod(PastOf(moments[i]), PastOf(moments[j])) ::
      PeriodLaws(moments[i].plane, moments[j].plane, policy)
    ensures forall i, j | 0 <= i < j < |moments| && !moments[i].plane.connected && moments[j].plane.connected ::
      |moments[i].plane.attempts| < |moments[j].plane.attempts|
  {
    PeriodsInOrder(moments, policy, past);
    hide PlaneSettled, Paired, Faithful, ReadsByMode, ModeOf, WritesOf, ReadsOf, Segmented;
    WholeWriteLog(end.history);
    forall m | m in moments
      ensures m.head.written <= end.written && m.head.consumed <= end.consumed
      ensures m.head.fatal != Success ==>
        end.fatal != Success && ModeOf(end.history) == Broken && end.consumed == m.head.consumed
    {
      LaterKeeps(m.head.history, end.history);
      if m.head.fatal != Success {
        BrokenStaysBroken(m.head.history, end.history);
      }
    }
  }

  class Session {
    const instanceName: string
    const activityTimeoutMs: Duration
    const detectionThrottleMs: Duration
    const runningMotionActivity: bool
    const pausedMotionActivity: bool
    const startPaused: bool

    var source: SourceDevice?
    var virtual: VirtualDevice?
    var control: RuntimeControl?
    var state: RuntimeState
    var timers: Timers
    var fatal: Result
    var sourceOpenedOnce: bool
    var shutdownRequested: bool

    // The environment: a monotonic clock, and how many more answers it gives
    // before the run is cut off. The latter is arbitrary.
    var clock: nat
    var patience: nat

    // What the session did and went through.
    ghost var log: Log
    ghost var trace: Trace
    ghost var answers: seq<Answer>
    ghost var served: Served
    ghost var moments: seq<Moment>
    ghost var sources: set<SourceDevice>
    ghost var virtuals: set<VirtualDevice>
    ghost var controls: set<RuntimeControl>

    // ----- Views and invariants -----

    ghost function HeldSource(): set<SourceDevice>
      reads this`source
    {
      if source == null then {} else {source}
    }

    ghost function HeldVirtual(): set<VirtualDevice>
      reads this`virtual
    {
      if virtual == null then {} else {virtual}
    }

    ghost function Snapshot(): Head
      reads this`state, this`fatal, this`log, this`source, this`virtual, source, virtual
    {
      Head(
        startPaused, state.paused, state.sourceAvailable, fatal,
        if source == null then None else Some(Node(source.device, source.view)),
        if virtual == null then None else Some(Node(virtual.capabilities, virtual.kernel)),
        log.known, log.history,
        log.retiredWrites + (if virtual == null then [] else virtual.written),
        log.retiredReads + (if source == null then [] else source.consumed))
    }

    ghost function ThePlane(): Plane
      reads this`state, this`control, this`timers, this`clock, this`trace
    {
      Plane(
        state, control != null, timers.tracking,
        if timers.runningTimer then Some(timers.runningDeadline) else None,
        if timers.pausedTimer then Some(timers.pausedDeadline) else None,
        if timers.retryActive then Some(timers.retryDeadline) else None,
        clock, trace.marks, trace.attempts)
    }

    ghost function ThePast(): Past
      reads this`state, this`control, this`timers, this`clock, this`trace, this`log, this`fatal
    {
      Past(log.history, fatal, ThePlane())
    }

    ghost function ThePolicy(): Policy {
      Policy(DurationNs(activityTimeoutMs), DurationNs(detectionThrottleMs))
    }

    ghost predicate PlaneFine()
      reads this`state, this`control, this`timers, this`clock, this`trace
    {
      PlaneOk(ThePlane(), ThePolicy())
    }

    ghost predicate Settled()
      reads this`state, this`control, this`timers, this`clock, this`trace
    {
      PlaneSettled(ThePlane(), ThePolicy())
    }

    /** The plane is fine but for an outdated retry deadline. */
    ghost predicate Retriable()
      reads this`state, this`control, this`timers, this`clock, this`trace
    {
      PlaneOk(ThePlane().(retry := None), ThePolicy())
    }

    /** The control held is usable and its clients are up to date; every other
        control is gone. */
    ghost predicate ControlsFine()
      reads this`control, this`state, this`controls, control, controls`destroyed
    {
      (control != null ==> control.Live() && control.Coherent(state)) && ControlsKept()
    }

    /** Not under the control's dispatch. */
    ghost predicate Undispatched()
      reads this`control, control
    {
      control != null ==> !control.dispatchActive
    }

    /** The devices held are proper. */
    ghost predicate DevicesFine()
      reads this`source, this`virtual, source, virtual
    {
      (source != null ==> source.Valid()) && (virtual != null ==> virtual.Valid())
    }

    /** Every source ever opened is held or was closed. */
    ghost predicate SourcesKept()
      reads this`source, this`sources, sources`closed
    {
      (source != null ==> source in sources) && forall s | s in sources :: s == source || s.closed
    }

    /** Every virtual device ever created is held or was destroyed. */
    ghost predicate VirtualsKept()
      reads this`virtual, this`virtuals, virtuals`destroyed
    {
      (virtual != null ==> virtual in virtuals) && forall v | v in virtuals :: v == virtual || v.destroyed
    }

    /** Every control ever created is held or was destroyed. */
    ghost predicate ControlsKept()
      reads this`control, this`controls, controls`destroyed
    {
      (control != null ==> control in controls) && forall c | c in controls :: c == control || c.destroyed
    }

    /** The invariant where pause requests can arrive. */
    ghost predicate Ready()
      reads this, source, virtual, control, controls`destroyed
    {
      DevicesFine() && ControlsFine() && HeadOk(Snapshot()) && Settled()
    }

    // ----- The environment -----

    method MonotonicNow() returns (now: Option<Timespec>)
      requires clock < CLOCK_LIMIT_SECONDS * NS_PER_SECOND
      modifies this`clock, this`trace
      ensures old(clock) <= clock < CLOCK_LIMIT_SECONDS * NS_PER_SECOND
      ensures trace == old(trace).(reading := if now.Some? then Some(clock) else None)
      ensures old(PlaneFine()) ==> PlaneFine()
      ensures old(Retriable()) ==> Retriable()
      ensures now.Some? ==>
        Normalized(now.value) && Ns(now.value) == clock && now.value.sec < CLOCK_LIMIT_SECONDS
      ensures Precedes(old(ThePast()), ThePast())
    {
      hide PlaneOk, Precedes;
      ghost var past := ThePast();
      var time: nat := *;
      if clock <= time < CLOCK_LIMIT_SECONDS * NS_PER_SECOND {
        clock := time;
      }
      var readable: bool := *;
      now := if readable then Some(FromNs(clock)) else None;
      trace := trace.(reading := if readable then Some(clock) else None);
      assert ThePast() == past.(plane := past.plane.(clock := clock));
      ClockGoesOn(past, clock);
      PlaneGoesOnInTime(past.plane, ThePolicy(), clock);
    }

    /** A signal may arrive at any moment; once it has, it stays. */
    method ShutdownRequested() returns (requested: bool)
      modifies this`shutdownRequested, this`patience
      ensures requested == shutdownRequested
      ensures old(shutdownRequested) ==> shutdownRequested
      ensures patience <= old(patience) && (!requested ==> patience < old(patience))
    {
      var signal: bool := *;
      if signal || patience == 0 {
        shutdownRequested := true;
      } else {
        patience := patience - 1;
      }
      requested := shutdownRequested;
    }

    // ----- Timers, retries and the control -----

    method DiscardActivityTracking()
      requires PlaneFine() && timers.tracking && control == null
      modifies this`timers, this`state, this`trace
      ensures PlaneFine() && ThePlane() == AfterCut(old(ThePlane())).(tracking := false)
      ensures Precedes(old(ThePast()), ThePast())
    {
      CutKeepsPlane(ThePlane(), ThePolicy());
      timers := timers.(tracking := false, runningTimer := false, pausedTimer := false);
      var kept, committed;
      ghost var names;
      kept, committed, names :=
        ApplyChanges(null, state, Changes({ActivityWhileRunning, ActivityWhilePaused}, NO_VALUES));
      state := committed;
      trace := trace.(marks := trace.marks + [Cut]);
    }

    method ScheduleRuntimeControlRetry()
      requires Retriable() && !timers.tracking && control == null
      modifies this`clock, this`timers, this`trace
      ensures old(clock) <= clock
      ensures PlaneFine() && trace == old(trace).(reading := trace.reading)
      ensures timers ==
        old(timers).(retryActive := timers.retryActive, retryDeadline := timers.retryDeadline)
      ensures timers.retryActive <==> trace.reading.Some?
      ensures timers.retryActive ==>
        trace.reading == Some(clock) && timers.retryDeadline == FromNs(clock + DurationNs(RETRY_MS)) &&
        Ns(timers.retryDeadline) == clock + 5_000_000_000
    {
      var now := MonotonicNow();
      if now.None? {
        timers := timers.(retryActive := false);
        return;
      }
      var deadline := SetDeadline(now.value, RETRY_MS);
      NormalizedIsFromNs(deadline);
      RetryKeepsPlane(ThePlane().(retry := None), ThePolicy(), deadline);
      timers := timers.(retryDeadline := deadline, retryActive := true);
    }

    /** Forgets all activity, and schedules a retry if the clock can be read. */
    method NoticeLoss()
      requires PlaneFine() && timers.tracking && control == null
      modifies this`timers, this`state, this`trace, this`clock
      ensures Settled() && SamePolicyState(old(state), state) && old(clock) <= clock
      ensures !state.activityWhileRunning && !state.activityWhilePaused
      ensures ThePlane() == AfterLoss(old(ThePlane()).(clock := clock), trace.reading)
      ensures timers.retryActive ==>
        Normalized(timers.retryDeadline) && Ns(timers.retryDeadline) == clock + DurationNs(RETRY_MS)
      ensures Precedes(old(ThePast()), ThePast())
    {
      hide MarksOk, Flag;
      DiscardActivityTracking();
      ScheduleRuntimeControlRetry();
    }

    /** A control is there, so activity is tracked again. */
    method StartTracking()
      requires PlaneFine() && control != null
      modifies this`timers
      ensures Settled() && timers == old(timers).(tracking := true)
      ensures Precedes(old(ThePast()), ThePast())
    {
      hide PlaneOk;
      RetryMeansLost(ThePlane(), ThePolicy());
      ConnectKeepsPlane(ThePlane(), ThePolicy());
      ghost var before := ThePlane();
      timers := timers.(tracking := true);
      assert ThePlane() == before.(connected := true, tracking := true);
    }

    /** Notices a lost control: activity is forgotten, a retry is scheduled. */
    method UpdateControlAvailability()
      requires PlaneFine() && ControlsFine()
      modifies this`timers, this`state, this`trace, this`clock
      ensures Settled() && ControlsFine()
      ensures SamePolicyState(old(state), state)
      ensures control != null ==>
        state == old(state) && trace == old(trace) && clock == old(clock) &&
        timers == old(timers).(tracking := true)
      ensures control == null ==> !state.activityWhileRunning && !state.activityWhilePaused
      ensures trace.attempts == old(trace.attempts) && old(trace.marks) <= trace.marks
      ensures timers.retryActive ==> control == null && !timers.tracking && Normalized(timers.retryDeadline)
      ensures control == null && !old(timers.tracking) ==>
        timers == old(timers) && clock == old(clock) && trace == old(trace)
      ensures control == null && old(timers.tracking) ==>
        (timers.retryActive <==> trace.reading.Some?) &&
        (timers.retryActive ==> Ns(timers.retryDeadline) == clock + DurationNs(RETRY_MS)) &&
        ThePlane() == AfterLoss(old(ThePlane()).(clock := clock), trace.reading)
      ensures Precedes(old(ThePast()), ThePast())
    {
      hide MarksOk, Precedes;
      GoingOn();
      if control == null {
        if timers.tracking {
          NoticeLoss();
        }
      } else if !timers.tracking {
        StartTracking();
      }
    }

    /** Commits changes to the session's own state and control. */
    method Publish(changes: Changes) returns (ghost names: seq<Property>)
      requires ControlsFine()
      modifies this`state, this`control, control
      ensures ControlsFine()
      ensures state == CommittedState(old(state), changes) && NamesDifference(names, old(state), state)
      ensures control == old(control) || control == null
      ensures old(control) != null ==> old(control).dispatchActive == old(control.dispatchActive)
      ensures old(control) != null && old(control.dispatchActive) ==> control == old(control)
      ensures names == [] ==> control == old(control)
      ensures control != null && !control.disablePending ==>
        control.notifications ==
          old(control.notifications) + (if names == [] then [] else [Notification(names, state)])
      ensures Precedes(old(ThePast()), ThePast())
    {
      var kept, committed;
      kept, committed, names := ApplyChanges(control, state, changes);
      control, state := kept, committed;
    }

    /** As above, when the timers already are those of the plane `after`. */
    method PublishActivity(changes: Changes, ghost after: Plane, ghost past: Past) returns (ghost names: seq<Property>)
      requires ControlsFine()
      requires PlaneOk(after, ThePolicy()) && after.state == CommittedState(state, changes)
      requires ThePlane().(state := after.state, marks := after.marks) == after
      requires trace.marks <= after.marks && Precedes(past, ThePast())
      requires NoCut(trace.marks, after.marks) || !NoTurn(past.history, log.history)
      modifies this`state, this`control, this`trace, control
      ensures ControlsFine() && PlaneFine()
      ensures state == after.state && trace == old(trace).(marks := after.marks)
      ensures NamesDifference(names, old(state), state)
      ensures control == old(control) || control == null
      ensures old(control) != null ==> old(control).dispatchActive == old(control.dispatchActive)
      ensures old(control) != null && old(control.dispatchActive) ==> control == old(control)
      ensures control != null && !control.disablePending ==>
        control.notifications ==
          old(control.notifications) + (if names == [] then [] else [Notification(names, state)])
      ensures Precedes(past, ThePast())
    {
      hide MarksOk, Precedes, NoCut, NoTurn;
      ghost var now := ThePast();
      trace := trace.(marks := after.marks);
      names := Publish(changes);
      assert ThePlane() == after.(connected := control != null);
      DisconnectKeepsPlane(after, ThePolicy(), control != null);
      CommitGoesOn(past, now, ThePast());
    }

    /** Sets the running timer; `after` is the plane once its flag follows. */
    method SetRunningTimer(now: Timespec) returns (ghost after: Plane)
      requires PlaneFine() && timers.tracking && !state.paused
      requires Normalized(now) && Ns(now) == clock && now.sec < CLOCK_LIMIT_SECONDS
      modifies this`timers
      ensures PlaneOk(after, ThePolicy()) && ThePlane().(state := after.state, marks := after.marks) == after
      ensures after.state == state.(activityWhileRunning := timers.runningTimer)
      ensures trace.marks <= after.marks && Eligible(false, clock) in after.marks[|trace.marks|..]
      ensures NoCut(trace.marks, after.marks)
      ensures timers == old(timers).(runningTimer := activityTimeoutMs > 0, runningDeadline := timers.runningDeadline)
      ensures timers.runningTimer ==> Ns(timers.runningDeadline) == clock + DurationNs(activityTimeoutMs)
      ensures Precedes(old(ThePast()), ThePast())
    {
      hide NoCut, MarksOk, RetriesOk, Precedes;
      ghost var past := ThePast();
      ghost var before := ThePlane();
      after := Timed(before, Eligible(false, clock));
      timers := timers.(runningTimer := activityTimeoutMs != 0);
      if timers.runningTimer {
        var deadline := SetDeadline(now, activityTimeoutMs);
        timers := timers.(runningDeadline := deadline);
        RunningActivityKeepsPlane(before, ThePolicy(), timers.runningDeadline);
        after := AfterRunningActivity(before, timers.runningDeadline);
      } else {
        EligibleKeepsPlane(before, ThePolicy());
      }
      TimersGoOn(past, ThePast());
    }

    method RestartRunningHold(now: Timespec)
      requires PlaneFine() && timers.tracking && !state.paused && ControlsFine() && Undispatched()
      requires Normalized(now) && Ns(now) == clock && now.sec < CLOCK_LIMIT_SECONDS
      modifies this`state, this`control, this`timers, this`trace, control
      ensures PlaneFine() && ControlsFine() && Undispatched()
      ensures SamePolicyState(old(state), state)
      ensures control == old(control) || control == null
      ensures trace.reading == old(trace.reading) && old(trace.marks) <= trace.marks
      ensures Eligible(false, clock) in trace.marks[|old(trace.marks)|..]
      ensures state.activityWhileRunning <==> activityTimeoutMs > 0
      ensures activityTimeoutMs > 0 ==> Ns(timers.runningDeadline) == clock + DurationNs(activityTimeoutMs)
      ensures Precedes(old(ThePast()), ThePast())
    {
      hide PlaneOk, ControlsKept, ObserveAll, SignalsExact, Precedes;
      GoingOn();
      ghost var after := SetRunningTimer(now);
      ghost var names := PublishActivity(
        Changes({ActivityWhileRunning}, NO_VALUES.(activityWhileRunning := timers.runningTimer)), after, ThePast());
    }

    /** Sets the paused timer; `after` is the plane once its flag follows. */
    method SetPausedTimer(now: Timespec) returns (ghost after: Plane)
      requires PlaneFine() && timers.tracking && state.paused && !timers.pausedTimer
      requires Normalized(now) && Ns(now) == clock && now.sec < CLOCK_LIMIT_SECONDS
      modifies this`timers
      ensures PlaneOk(after, ThePolicy()) && ThePlane().(state := after.state, marks := after.marks) == after
      ensures after.state == state.(activityWhilePaused := timers.pausedTimer)
      ensures trace.marks <= after.marks && Eligible(true, clock) in after.marks[|trace.marks|..]
      ensures NoCut(trace.marks, after.marks)
      ensures timers == old(timers).(pausedTimer := detectionThrottleMs > 0, pausedDeadline := timers.pausedDeadline)
      ensures timers.pausedTimer ==> Ns(timers.pausedDeadline) == clock + DurationNs(detectionThrottleMs)
      ensures Precedes(old(ThePast()), ThePast())
    {
      hide NoCut, MarksOk, RetriesOk, Precedes;
      ghost var past := ThePast();
      ghost var before := ThePlane();
      after := Timed(before, Eligible(true, clock));
      timers := timers.(pausedTimer := detectionThrottleMs != 0);
      if timers.pausedTimer {
        var deadline := SetDeadline(now, detectionThrottleMs);
        timers := timers.(pausedDeadline := deadline);
        PausedActivityKeepsPlane(before, ThePolicy(), timers.pausedDeadline);
        after := AfterPausedActivity(before, timers.pausedDeadline);
        assert after.marks[|trace.marks|..][0] == Eligible(true, clock);
      } else {
        EligibleKeepsPlane(before, ThePolicy());
      }
      TimersGoOn(past, ThePast());
    }

    method StartPausedThrottle(now: Timespec)
      requires PlaneFine() && timers.tracking && state.paused && !timers.pausedTimer && ControlsFine() && Undispatched()
      requires Normalized(now) && Ns(now) == clock && now.sec < CLOCK_LIMIT_SECONDS
      modifies this`state, this`control, this`timers, this`trace, control
      ensures PlaneFine() && ControlsFine() && Undispatched()
      ensures SamePolicyState(old(state), state)
      ensures control == old(control) || control == null
      ensures trace.reading == old(trace.reading) && old(trace.marks) <= trace.marks
      ensures Eligible(true, clock) in trace.marks[|old(trace.marks)|..]
      ensures state.activityWhilePaused <==> detectionThrottleMs > 0
      ensures detectionThrottleMs > 0 ==> Ns(timers.pausedDeadline) == clock + DurationNs(detectionThrottleMs)
      ensures Precedes(old(ThePast()), ThePast())
    {
      hide PlaneOk, ControlsKept, ObserveAll, SignalsExact, Precedes;
      GoingOn();
      ghost var after := SetPausedTimer(now);
      ghost var names := PublishActivity(
        Changes({ActivityWhilePaused}, NO_VALUES.(activityWhilePaused := timers.pausedTimer)), after, ThePast());
    }

    /** Notes an eligible event under a running throttle. */
    ghost method NoteEligible()
      requires PlaneFine() && state.paused
      modifies this`trace
      ensures PlaneFine() && Precedes(old(ThePast()), ThePast())
      ensures trace == old(trace).(marks := old(trace.marks) + [Eligible(true, clock)])
    {
      hide MarksOk, RetriesOk, Precedes, NoCut;
      ghost var past := ThePast();
      EligibleKeepsPlane(ThePlane(), ThePolicy());
      trace := trace.(marks := trace.marks + [Eligible(true, clock)]);
      MarksGoOn(past, ThePast());
    }

    /** An eligible physical event. While running it restarts the hold; while
        paused it counts only if no throttle interval is under way. */
    method ProcessPhysicalActivity()
      requires Settled() && ControlsFine() && Undispatched()
      modifies this`state, this`control, this`timers, this`trace, this`clock, control
      ensures Settled() && ControlsFine() && Undispatched()
      ensures SamePolicyState(old(state), state)
      ensures control == old(control) || control == null
      ensures old(control) != null && old(timers.pausedTimer) ==>
        timers == old(timers) && state == old(state) && control == old(control)
      ensures old(trace.marks) <= trace.marks
      ensures control != null && trace.reading.Some? ==>
        Eligible(state.paused, clock) in trace.marks[|old(trace.marks)|..]
      ensures control != null && trace.reading.Some? && !state.paused && activityTimeoutMs > 0 ==>
        state.activityWhileRunning && Ns(timers.runningDeadline) == clock + DurationNs(activityTimeoutMs)
      ensures control != null && trace.reading.Some? && state.paused && detectionThrottleMs > 0 ==>
        state.activityWhilePaused
      ensures control != null && trace.reading.Some? && state.paused && detectionThrottleMs > 0 ==>
        old(timers.pausedTimer) || Ns(timers.pausedDeadline) == clock + DurationNs(detectionThrottleMs)
      ensures Precedes(old(ThePast()), ThePast())
    {
      hide ControlsKept, MarksOk, RetriesOk, ObserveAll, SignalsExact, DeadlineOk, Precedes;
      GoingOn();
      UpdateControlAvailability();
      if !timers.tracking {
        return;
      }
      var now := MonotonicNow();
      if now.None? {
        return;
      }
      if state.paused {
        if timers.pausedTimer {
          NoteEligible();
          return;
        }
        StartPausedThrottle(now.value);
      } else {
        RestartRunningHold(now.value);
      }
      UpdateControlAvailability();
    }

    /** Stops the timers whose deadline has passed; `after` is the plane once
        their flags have fallen too. */
    method ExpireTimers(now: Timespec) returns (properties: set<Property>, ghost after: Plane)
      requires PlaneFine() && Normalized(now) && Ns(now) == clock
      modifies this`timers
      ensures PlaneOk(after, ThePolicy()) && after.state == CommittedState(state, Changes(properties, NO_VALUES))
      ensures ThePlane().(state := after.state, marks := after.marks) == after
      ensures properties == {} ==> after == old(ThePlane())
      ensures SamePolicyState(state, after.state)
      ensures trace.marks <= after.marks && NoCut(trace.marks, after.marks)
      ensures timers == old(timers).(runningTimer := timers.runningTimer, pausedTimer := timers.pausedTimer)
      ensures timers.runningTimer <==> old(timers.runningTimer) && Ns(timers.runningDeadline) > clock
      ensures timers.pausedTimer <==> old(timers.pausedTimer) && Ns(timers.pausedDeadline) > clock
      ensures Precedes(old(ThePast()), ThePast())
    {
      hide MarksOk, RetriesOk, Precedes;
      ghost var past := ThePast();
      after := ThePlane();
      properties := {};
      if timers.runningTimer {
        ExpiredIsNsComparison(timers.runningDeadline, now);
        if DeadlineExpired(timers.runningDeadline, now) {
          RunningExpiryKeepsPlane(after, ThePolicy());
          after := AfterRunningExpiry(after);
          timers := timers.(runningTimer := false);
          properties := properties + {ActivityWhileRunning};
        }
      }
      if timers.pausedTimer {
        ExpiredIsNsComparison(timers.pausedDeadline, now);
        if DeadlineExpired(timers.pausedDeadline, now) {
          PausedExpiryKeepsPlane(after, ThePolicy());
          after := AfterPausedExpiry(after);
          timers := timers.(pausedTimer := false);
          properties := properties + {ActivityWhilePaused};
        }
      }
      TimersGoOn(past, ThePast());
    }

    /** No indication is overdue. */
    ghost predicate NothingDue()
      reads this`timers, this`clock
    {
      && (timers.runningTimer ==> Ns(timers.runningDeadline) > clock)
      && (timers.pausedTimer ==> Ns(timers.pausedDeadline) > clock)
    }

    /** No retry is overdue, as far as the clock could be read. */
    ghost predicate RetryAhead()
      reads this`timers, this`clock, this`trace
    {
      timers.retryActive && trace.reading.Some? ==> Ns(timers.retryDeadline) > clock
    }

    /** Lets expired indications fall. */
    method ProcessActivityTimers()
      requires PlaneFine() && ControlsFine() && Undispatched()
      modifies this`state, this`control, this`timers, this`trace, this`clock, control
      ensures Settled() && ControlsFine() && Undispatched()
      ensures SamePolicyState(old(state), state)
      ensures control == old(control) || control == null
      ensures timers.runningTimer ==> old(timers.runningTimer)
      ensures timers.pausedTimer ==> old(timers.pausedTimer)
      ensures control != null && old(timers.runningTimer) && !timers.runningTimer ==>
        Ns(old(timers.runningDeadline)) <= clock
      ensures control != null && old(timers.pausedTimer) && !timers.pausedTimer ==>
        Ns(old(timers.pausedDeadline)) <= clock
      ensures control != null && trace.reading.Some? ==> NothingDue()
      ensures old(RetryAhead()) ==> RetryAhead()
      ensures Precedes(old(ThePast()), ThePast())
    {
      hide ControlsKept, MarksOk, RetriesOk, ObserveAll, SignalsExact, DeadlineOk, Precedes;
      GoingOn();
      UpdateControlAvailability();
      if !timers.tracking {
        return;
      }
      var now := MonotonicNow();
      if now.None? {
        return;
      }
      var properties;
      ghost var after;
      properties, after := ExpireTimers(now.value);
      if properties != {} {
        ghost var names := PublishActivity(Changes(properties, NO_VALUES), after, ThePast());
        UpdateControlAvailability();
      }
    }

    /** One attempt to bring the control back. */
    method RecreateControl() returns (ghost troubled: bool)
      requires PlaneFine() && ControlsFine() && control == null && !timers.tracking
      requires timers.retryActive && Ns(timers.retryDeadline) <= clock
      modifies this`control, this`timers, this`clock, this`trace, this`controls
      ensures Settled() && ControlsFine() && Undispatched()
      ensures trace.attempts == old(trace.attempts) + [old(clock)]
      ensures control == null ==> troubled || !timers.retryActive
      ensures control == null && ValidName(instanceName) ==> troubled
      ensures control == null && ValidName(instanceName) ==>
        (timers.retryActive <==> trace.reading.Some?) &&
        (timers.retryActive ==> Ns(timers.retryDeadline) == clock + DurationNs(RETRY_MS))
      ensures timers.runningTimer == old(timers.runningTimer) && timers.pausedTimer == old(timers.pausedTimer)
      ensures control != null ==>
        fresh(control) && control.initial == state && control.notifications == [] &&
        !state.activityWhileRunning && !state.activityWhilePaused
      ensures RetryAhead()
      ensures Precedes(old(ThePast()), ThePast())
    {
      hide MarksOk, RetriesOk, Precedes, ThePolicy, ValidName, ValidBusName;
      ghost var past := ThePast();
      AttemptKeepsPlane(ThePlane(), ThePolicy());
      trace := trace.(attempts := trace.attempts + [clock]);
      ghost var before := ThePlane().(retry := None);
      var created, failure;
      created, failure, troubled := CreateRuntimeControl(state, instanceName);
      control := created;
      if control == null {
        assert ThePlane().(retry := None) == before;
        if failure == InvalidIdentifier {
          timers := timers.(retryActive := false);
          AttemptGoesOn(past, ThePast(), past.plane.clock);
          return;
        }
        ScheduleRuntimeControlRetry();
        AttemptGoesOn(past, ThePast(), past.plane.clock);
        return;
      }
      ConnectKeepsPlane(before, ThePolicy());
      controls := controls + {control};
      timers := timers.(retryActive := false, tracking := true);
      assert ThePlane() == before.(connected := true, tracking := true);
      AttemptGoesOn(past, ThePast(), past.plane.clock);
    }

    /** Without a valid service name there is nothing to retry for. */
    method DropRetry()
      requires Settled() && timers.retryActive
      modifies this`timers
      ensures Settled() && timers == old(timers).(retryActive := false)
      ensures Precedes(old(ThePast()), ThePast())
    {
      RetryDropped(ThePlane(), ThePolicy());
      timers := timers.(retryActive := false);
    }

    /** Recreates a lost control when a retry is due. Both activity flags start
        down, whatever happened before. */
    method ProcessRuntimeControlRecovery()
      requires PlaneFine() && ControlsFine() && Undispatched()
      modifies this`state, this`control, this`timers, this`trace, this`clock, this`controls
      ensures Settled() && ControlsFine() && Undispatched()
      ensures SamePolicyState(old(state), state)
      ensures old(control) != null ==>
        control == old(control) && state == old(state) && timers == old(timers).(tracking := true) &&
        trace == old(trace) && clock == old(clock)
      ensures old(control) == null ==> NothingDue()
      ensures ValidName(instanceName) && old(timers.retryActive) && trace.reading.Some? &&
              Ns(old(timers.retryDeadline)) <= clock ==>
                |trace.attempts| == |old(trace.attempts)| + 1
      ensures |SERVICE_PREFIX + instanceName| >= 256 || !ValidBusName(SERVICE_PREFIX + instanceName) ==>
        trace.attempts == old(trace.attempts)
      ensures control != old(control) ==> |trace.attempts| == |old(trace.attempts)| + 1
      ensures control != old(control) ==>
        fresh(control) && control.initial == state && control.notifications == [] &&
        !state.activityWhileRunning && !state.activityWhilePaused
      ensures RetryAhead()
      ensures Precedes(old(ThePast()), ThePast())
    {
      hide ControlsKept, MarksOk, RetriesOk, FlagsAreTimers, DeadlineOk, ObserveAll, SignalsExact, Precedes;
      GoingOn();
      RetryMeansLost(ThePlane(), ThePolicy());
      UpdateControlAvailability();
      if control == null {
        IdleTimers(ThePlane(), ThePolicy());
      }
      if !timers.retryActive {
        return;
      }
      var now := MonotonicNow();
      if now.None? {
        return;
      }
      ExpiredIsNsComparison(timers.retryDeadline, now.value);
      if !DeadlineExpired(timers.retryDeadline, now.value) {
        return;
      }
      var service := DeriveServiceName(instanceName, 256);
      if service.None? {
        DropRetry();
        return;
      }
      ghost var troubled := RecreateControl();
    }

    method SetSourceAvailable(available: bool)
      requires PlaneFine() && ControlsFine() && Undispatched()
      modifies this`state, this`control, this`timers, this`trace, this`clock, control
      ensures Settled() && ControlsFine() && Undispatched()
      ensures state.paused == old(state.paused) && state.sourceAvailable == available
      ensures control == old(control) || control == null
      ensures Precedes(old(ThePast()), ThePast())
    {
      hide MarksOk, RetriesOk, Precedes;
      GoingOn();
      var changes := Changes({SourceAvailable}, NO_VALUES.(sourceAvailable := available));
      AvailabilityKeepsPlane(ThePlane(), ThePolicy(), available);
      ghost var after := ThePlane().(state := CommittedState(state, changes));
      ghost var names := PublishActivity(changes, after, ThePast());
      UpdateControlAvailability();
    }

    // ----- Corrections and pause requests -----

    /** Notes a step. */
    ghost method Note(step: Step)
      modifies this`log
      ensures log == old(log).(history := old(log.history) + [step])
      ensures Precedes(old(ThePast()), ThePast())
    {
      log := log.(history := log.history + [step]);
    }

    /** Writes what was captured, ended by a boundary, and makes sure the source
        is still there. */
    method WriteCaptured(events: seq<Event>) returns (r: Result, ghost present: bool)
      requires DevicesFine() && source != null && virtual != null
      requires Accounted(Snapshot()) && Paired(Snapshot()) && ModeOf(log.history) in {Silent, Broken}
      requires events == CapturedEvents(source.device, source.view)
      modifies this`log, HeldVirtual()`kernel, HeldVirtual()`written
      ensures DevicesFine()
      ensures r in {Success, ReadFailed, WriteFailed, Disconnected}
      ensures r == Success ==> present && Snapshot() == AfterSync(old(Snapshot()))
      ensures r != Success ==>
        Accounted(Snapshot()) && Paired(Snapshot()) && ModeOf(log.history) == Broken && old(log.history) < log.history
      ensures Precedes(old(ThePast()), ThePast())
    {
      hide CapturedEvents, ModeOf, Synced, KnownAfterSync, WritesOf, ReadsOf, ValidDevice, ProfileOf;
      ghost var h := Snapshot();
      ghost var before, v := virtual.written, virtual.kernel;
      ghost var part;
      ghost var smooth;
      r, part, smooth := virtual.WriteSynchronization(events);
      present := false;
      if r == Success {
        r, present := source.CheckAvailable();
      }
      assert log.retiredWrites + (before + part) == h.written + part;
      if r != Success {
        Interrupt(h, Synchronizing(Node(source.device, source.view)), part);
        return;
      }
      SyncReaches(source.device, virtual.capabilities, source.view, v);
      NoteSynchronized(h, part);
    }

    /** Brings the virtual device up to date with the source's complete state.
        Anything less counts as an interruption; a failed capture writes
        nothing. */
    method SynchronizeState() returns (r: Result, ghost captured: bool)
      requires DevicesFine() && source != null && virtual != null
      requires Accounted(Snapshot()) && Paired(Snapshot()) && ModeOf(log.history) in {Silent, Broken}
      modifies this`log, HeldVirtual()`kernel, HeldVirtual()`written
      ensures DevicesFine()
      ensures r in {Success, ReadFailed, OutOfMemory, WriteFailed, Disconnected}
      ensures r == Success ==> Snapshot() == AfterSync(old(Snapshot()))
      ensures !captured ==> r in {ReadFailed, OutOfMemory} && Snapshot().written == old(Snapshot()).written
      ensures r == OutOfMemory ==> !captured
      ensures r != Success ==>
        Accounted(Snapshot()) && Paired(Snapshot()) && ModeOf(log.history) == Broken && old(log.history) < log.history
      ensures Precedes(old(ThePast()), ThePast())
    {
      hide CapturedEvents, ModeOf, Synced, KnownAfterSync, WritesOf, ReadsOf, ValidDevice, ProfileOf, Precedes;
      GoingOn();
      var events := new SourceState();
      ghost var smooth;
      r, smooth := source.CaptureState(events);
      captured := r == Success;
      if r != Success {
        Interrupt(Snapshot(), Synchronizing(Node(source.device, source.view)), []);
        return;
      }
      ghost var present;
      r, present := WriteCaptured(events.events);
    }

    /** Notes a complete synchronization. */
    ghost method NoteSynchronized(h: Head, part: seq<Event>)
      requires DevicesFine() && source != null && virtual != null && Paired(h)
      requires h.source == Some(Node(source.device, source.view)) && h.virtual.Some?
      requires |source.view.slots| == |h.virtual.value.state.slots|
      requires part == SyncBatch(source.device, source.view)
      requires Snapshot() == h.(written := h.written + part, virtual :=
        Some(Node(h.virtual.value.device, Synced(source.view, h.virtual.value.state))))
      modifies this`log
      ensures DevicesFine() && Snapshot() == AfterSync(h)
      ensures Precedes(old(ThePast()), ThePast())
    {
      hide CapturedEvents, Synced, KnownAfterSync;
      log := log.(history := log.history + [Synchronized(Node(source.device, source.view))]);
      log := log.(known := KnownAfterSync(source.view));
    }

    /** Notes a correction that failed after writing `part`. */
    ghost method Interrupt(h: Head, c: Correction, part: seq<Event>)
      requires part <= BatchOf(c)
      requires DevicesFine() && virtual != null && Accounted(h)
      requires Snapshot() == h.(written := h.written + part, virtual := Snapshot().virtual)
      requires h.virtual.Some? && h.virtual.value.device == virtual.capabilities
      modifies this`log
      ensures DevicesFine()
      ensures Accounted(Snapshot()) && ModeOf(log.history) == Broken
      ensures Paired(h) ==> Paired(Snapshot())
      ensures log == old(log).(history := old(log.history) + [Interrupted(c, part)])
      ensures Precedes(old(ThePast()), ThePast())
    {
      hide Precedes, ModeOf, WritesOf, ReadsOf, PausedAfter, ReadsByMode;
      InterruptionIsAccounted(h, c, part);
      Note(Interrupted(c, part));
    }

    /** Releases what the virtual device holds, and notes it. */
    method NeutralizeVirtualDevice() returns (r: Result)
      requires DevicesFine() && virtual != null
      requires Accounted(Snapshot()) && ValidNode(Snapshot().virtual)
      modifies this`log, HeldVirtual()`kernel, HeldVirtual()`written
      ensures DevicesFine()
      ensures r in {Success, ReadFailed, OutOfMemory, WriteFailed}
      ensures r == Success ==> Snapshot() == AfterRelease(old(Snapshot()))
      ensures r != Success ==> Accounted(Snapshot()) && ModeOf(log.history) == Broken && old(log.history) < log.history
      ensures r != Success ==> Snapshot() == old(Snapshot()).(
        history := log.history, written := Snapshot().written, virtual := Snapshot().virtual)
      ensures Precedes(old(ThePast()), ThePast())
    {
      hide Accounted, Paired, Precedes, ModeOf, WritesOf, ReadsOf, PausedAfter, ReadsByMode, NeutralBatch,
           Neutralized, ValidDevice, WellFormed;
      GoingOn();
      ghost var h := Snapshot();
      ghost var before := virtual.written;
      ghost var smooth;
      r, smooth := virtual.Neutralize();
      if r == Success {
        Note(Released(h.virtual.value));
        assert Snapshot().written == h.written + NeutralBatch(virtual.capabilities, h.virtual.value.state);
      } else {
        ghost var part := virtual.written[|before|..];
        assert Snapshot().written == h.written + part;
        Interrupt(h, Releasing(h.virtual.value), part);
      }
    }

    /** Stops the timer of the mode that is left; `after` is the plane once the
        new mode is committed. */
    method LeaveMode(paused: bool) returns (ghost after: Plane)
      requires Settled() && state.paused != paused
      modifies this`timers
      ensures PlaneOk(after, ThePolicy()) && trace.marks <= after.marks
      ensures after.state == RuntimeState(paused, state.sourceAvailable, false, false)
      ensures if paused then !state.activityWhilePaused else !state.activityWhileRunning
      ensures ThePlane().(state := after.state, marks := after.marks) == after
      ensures timers ==
        if paused then old(timers).(runningTimer := false) else old(timers).(pausedTimer := false)
      ensures Precedes(old(ThePast()), ThePast())
    {
      hide MarksOk, RetriesOk, Precedes;
      ghost var past := ThePast();
      CutKeepsPlane(ThePlane(), ThePolicy());
      after := AfterCut(ThePlane());
      if paused {
        timers := timers.(runningTimer := false);
      } else {
        timers := timers.(pausedTimer := false);
      }
      after := after.(state := after.state.(paused := paused));
      TimersGoOn(past, ThePast());
    }

    /** Commits a pause state and drops the timer of the mode that is left. */
    method CommitPaused(paused: bool, ghost past: Past) returns (ghost names: seq<Property>)
      requires Settled() && ControlsFine() && state.paused != paused
      requires Precedes(past, ThePast()) && !NoTurn(past.history, log.history)
      modifies this`state, this`control, this`timers, this`trace, this`clock, control
      ensures Settled() && ControlsFine()
      ensures state == RuntimeState(paused, old(state.sourceAvailable), false, false)
      ensures control == old(control) || control == null
      ensures old(control) != null ==> old(control).dispatchActive == old(control.dispatchActive)
      ensures old(control) != null && old(control.dispatchActive) ==> control == old(control)
      ensures NamesDifference(names, old(state), state)
      ensures control != null && !control.disablePending ==>
        control.notifications == old(control.notifications) + [Notification(names, state)]
      ensures Precedes(past, ThePast())
    {
      hide NoTurn, PlaneOk, ControlsKept, ObserveAll, SignalsExact, Precedes;
      GoingOn();
      var properties := {Paused} + {if paused then ActivityWhileRunning else ActivityWhilePaused};
      ghost var after := LeaveMode(paused);
      names := PublishActivity(Changes(properties, NO_VALUES.(paused := paused)), after, past);
      assert Paused in names by {
        assert Get(old(state), Paused) != Get(state, Paused);
      }
      UpdateControlAvailability();
    }

    /** What has to happen to the devices before a pause or resume. */
    method CorrectFor(paused: bool) returns (r: Result)
      requires DevicesFine() && HeadOk(Snapshot()) && state.paused != paused
      modifies this`log, HeldVirtual()`kernel, HeldVirtual()`written
      ensures DevicesFine()
      ensures r == Success ==>
        Snapshot() == AfterCorrection(old(Snapshot()), paused)
      ensures r != Success ==> HeadOk(Snapshot().(fatal := r))
      ensures Precedes(old(ThePast()), ThePast())
    {
      hide WritesOf, ReadsOf, ValidDevice, WellFormed, Neutral, Mirrors, ProfileOf, Synced, KnownAfterSync, Precedes;
      GoingOn();
      r := Success;
      if state.sourceAvailable {
        if paused {
          r := NeutralizeVirtualDevice();
        } else {
          ghost var captured;
          r, captured := SynchronizeState();
        }
      }
    }

    /** Commits the change once the devices are corrected from `h`. */
    method CommitChange(paused: bool, ghost h: Head)
      requires Settled() && ControlsFine() && state.paused != paused
      requires HeadOk(h) && h.paused != paused && Snapshot() == AfterCorrection(h, paused)
      modifies this`state, this`control, this`timers, this`trace, this`clock, this`log, control
      ensures Settled() && ControlsFine() && HeadOk(Snapshot())
      ensures state == RuntimeState(paused, old(state.sourceAvailable), false, false)
      ensures control == old(control) || control == null
      ensures old(control) != null ==> old(control).dispatchActive == old(control.dispatchActive)
      ensures old(control) != null && old(control.dispatchActive) ==> control == old(control)
      ensures Precedes(old(ThePast()), ThePast())
    {
      hide Precedes, ControlsKept, PlaneSettled, HeadOk, AfterCorrection, ObserveAll, SignalsExact, NamesDifference;
      GoingOn();
      PauseChangeKeepsHead(h, paused);
      ghost var past := ThePast();
      Note(Turned(paused));
      assert log.history[|past.history|] == Turned(paused);
      ghost var names := CommitPaused(paused, past);
      assert Snapshot() == AfterPauseChange(h, paused);
    }

    /** A failed correction is fatal. */
    method Fail(r: Result)
      requires r != Success
      modifies this`fatal
      ensures fatal == r && Precedes(old(ThePast()), ThePast())
    {
      fatal := r;
    }

    /** A pause or resume that changes something: correct, then commit. */
    method ChangePaused(paused: bool) returns (r: Result)
      requires Ready() && state.paused != paused
      modifies this`state, this`control, this`timers, this`trace, this`clock, this`fatal, this`log, control,
        HeldVirtual()`kernel, HeldVirtual()`written
      ensures DevicesFine() && ControlsFine() && Settled()
      ensures HeadOk(Snapshot())
      ensures control == old(control) || control == null
      ensures old(control) != null ==> old(control).dispatchActive == old(control.dispatchActive)
      ensures old(control) != null && old(control.dispatchActive) ==> control == old(control)
      ensures r == Success ==> state.paused == paused && fatal == old(fatal)
      ensures r != Success ==>
        fatal == r && state == old(state) && trace.marks == old(trace.marks) && clock == old(clock)
      ensures state.sourceAvailable == old(state.sourceAvailable)
      ensures Precedes(old(ThePast()), ThePast())
    {
      hide ControlsKept, PlaneSettled, HeadOk, CommittedState, ObserveAll, SignalsExact, ValidDevice, WellFormed,
           NamesDifference, AfterRelease, AfterSync, Precedes;
      GoingOn();
      ghost var h := Snapshot();
      r := CorrectFor(paused);
      if r != Success {
        Fail(r);
        return;
      }
      CommitChange(paused, h);
    }

    /** Asks for paused or forwarding operation. The virtual device is corrected
        first; a failed correction commits nothing and is fatal. Asking for what
        already holds changes nothing. */
    method RequestPaused(paused: bool) returns (r: Result)
      requires Ready()
      modifies this`state, this`control, this`timers, this`trace, this`clock, this`fatal, this`log, control,
        HeldVirtual()`kernel, HeldVirtual()`written
      ensures Ready()
      ensures control == old(control) || control == null
      ensures old(control) != null ==> old(control).dispatchActive == old(control.dispatchActive)
      ensures old(control) != null && old(control.dispatchActive) ==> control == old(control)
      ensures old(state.paused) == paused ==>
        r == Success && state == old(state) && Snapshot() == old(Snapshot()) && ThePlane() == old(ThePlane())
      ensures r == Success ==> state.paused == paused && fatal == old(fatal)
      ensures r != Success ==> fatal == r && state == old(state)
      ensures state.sourceAvailable == old(state.sourceAvailable)
      ensures Precedes(old(ThePast()), ThePast())
    {
      hide ControlsKept, PlaneSettled, HeadOk, ObserveAll, SignalsExact, ValidDevice, WellFormed;
      if state.paused == paused {
        return Success;
      }
      r := ChangePaused(paused);
    }

    // ----- Dispatch and waiting -----

    /** Lets the bus deliver at most one message; a method call runs the pause
        handler, whose answer the caller gets, before this returns. */
    method BusProcess() returns (result: int, ghost message: Message, ghost answer: Result)
      requires Ready() && control != null && control.dispatchActive
      modifies this`served, this`state, this`control, this`timers, this`trace, this`clock, this`fatal, this`log,
        this`patience, control, HeldVirtual()`kernel, HeldVirtual()`written
      ensures Ready() && control == old(control) && control.dispatchActive
      ensures served == old(served).(dispatched := old(served.dispatched) + [result])
      ensures patience <= old(patience) && (result > 0 ==> patience < old(patience))
      ensures state.sourceAvailable == old(state.sourceAvailable)
      ensures old(fatal) != Success ==> fatal != Success
      ensures message in {NoMessage, OtherMessage} ==>
        Snapshot() == old(Snapshot()) && ThePlane() == old(ThePlane()) && answer == Success
      ensures message in {PauseCall, ResumeCall} && answer == Success ==>
        state.paused == (message == PauseCall) && fatal == old(fatal)
      ensures message in {PauseCall, ResumeCall} && answer != Success ==>
        state == old(state) && fatal == answer && old(state.paused) != (message == PauseCall)
      ensures Precedes(old(ThePast()), ThePast())
    {
      hide ControlsKept, PlaneSettled, HeadOk, ObserveAll, SignalsExact, ValidDevice, WellFormed, Precedes;
      GoingOn();
      result := *;
      var delivered: Message := *;
      message, answer := delivered, Success;
      if patience == 0 || delivered == NoMessage {
        result := if result > 0 then 0 else result;
        message := NoMessage;
        served := served.(dispatched := served.dispatched + [result]);
        return;
      }
      patience := patience - 1;
      served := served.(dispatched := served.dispatched + [result]);
      if delivered != OtherMessage {
        var r := RequestPaused(delivered == PauseCall);
        answer := r;
      }
    }

    /** One message under the control's own dispatch. Afterwards the control is
        either fine or waiting to be given up. */
    method DispatchOne() returns (result: int)
      requires Ready() && control != null && Undispatched()
      modifies this`served, this`state, this`control, this`timers, this`trace, this`clock, this`fatal, this`log,
        this`patience, control, HeldVirtual()`kernel, HeldVirtual()`written
      ensures DevicesFine() && HeadOk(Snapshot()) && Settled() && Undispatched()
      ensures control == old(control) && !control.destroyed
      ensures ControlsKept() && (!control.disablePending ==> ControlsFine())
      ensures served == old(served).(dispatched := old(served.dispatched) + [result])
      ensures patience <= old(patience) && (result > 0 ==> patience < old(patience))
      ensures state.sourceAvailable == old(state.sourceAvailable)
      ensures old(fatal) != Success ==> fatal != Success
      ensures Precedes(old(ThePast()), ThePast())
    {
      hide ControlsKept, PlaneSettled, HeadOk, ObserveAll, SignalsExact, ValidDevice, WellFormed, Precedes;
      GoingOn();
      control.dispatchActive := true;
      ghost var message, answer;
      result, message, answer := BusProcess();
      control.dispatchActive := false;
    }

    /** Gives the control up. Its loss is noticed later. */
    method DropControl()
      requires control != null && !control.destroyed && !control.dispatchActive && PlaneFine() && ControlsKept()
      modifies this`control, control`destroyed
      ensures control == null && PlaneFine() && ControlsFine()
      ensures Precedes(old(ThePast()), ThePast())
    {
      DisconnectKeepsPlane(ThePlane(), ThePolicy(), false);
      control.Destroy();
      control := null;
    }

    /** Dispatches pending messages. A control that has to go is given up only
        after its dispatch has returned. */
    method ControlProcess()
      requires Ready() && Undispatched()
      modifies this`served, this`state, this`control, this`timers, this`trace, this`clock, this`fatal, this`log,
        this`patience, control, HeldVirtual()`kernel, HeldVirtual()`written
      ensures DevicesFine() && HeadOk(Snapshot()) && PlaneFine() && ControlsFine() && Undispatched()
      ensures control == old(control) || control == null
      ensures served.waits == old(served.waits)
      ensures if old(control) == null then served == old(served)
              else Dispatched(old(served.dispatched), served.dispatched)
      ensures control != null ==> served.dispatched[|served.dispatched| - 1] == 0 && !control.disablePending
      ensures old(control) != null && control == null ==>
        served.dispatched[|served.dispatched| - 1] < 0 || old(control).disablePending
      ensures patience <= old(patience)
      ensures state.sourceAvailable == old(state.sourceAvailable)
      ensures old(fatal) != Success ==> fatal != Success
      ensures Precedes(old(ThePast()), ThePast())
    {
      hide ControlsKept, PlaneOk, HeadOk, ObserveAll, SignalsExact, ValidDevice, WellFormed, Precedes,
           Dispatching, Dispatched;
      GoingOn();
      if control == null {
        return;
      }
      var result := 1;
      NothingDispatched(served.dispatched);
      while result > 0
        invariant Ready() && Undispatched() && control == old(control)
        invariant patience <= old(patience)
        invariant served.waits == old(served.waits)
        invariant Dispatching(old(served.dispatched), served.dispatched, result)
        invariant control != null && !control.disablePending
        invariant Precedes(old(ThePast()), ThePast())
        invariant state.sourceAvailable == old(state.sourceAvailable)
        invariant old(fatal) != Success ==> fatal != Success
        decreases patience, result > 0
      {
        ghost var dispatched, last := served.dispatched, result;
        result := DispatchOne();
        DispatchMore(old(served.dispatched), dispatched, last, result);
        if control.disablePending {
          DropControl();
          return;
        }
      }
      EndOfDispatch(old(served.dispatched), served.dispatched, result);
      if result < 0 {
        DropControl();
      }
    }

    /** The wait for one deadline, by the clock as it reads now. */
    method DeadlineWait(deadline: Option<Timespec>, maximumUsec: nat) returns (usec: nat, ghost at: Option<nat>)
      requires Settled() && DeadlineOk(deadline, clock)
      modifies this`clock, this`trace
      ensures Settled() && old(clock) <= clock && trace == old(trace).(reading := trace.reading)
      ensures at == if deadline.Some? then trace.reading else None
      ensures at.Some? ==> at.value == clock
      ensures deadline.None? ==> trace == old(trace) && clock == old(clock)
      ensures usec ==
        if at.None? then maximumUsec else Min(maximumUsec, UsecUntil(Ns(deadline.value), at.value))
      ensures Precedes(old(ThePast()), ThePast())
    {
      hide MarksOk, RetriesOk, FlagsAreTimers, Precedes;
      GoingOn();
      at := None;
      var now := None;
      if deadline.Some? {
        now := MonotonicNow();
        at := if now.Some? then Some(clock) else None;
      }
      usec := DeadlineWaitTimeout(deadline, now, maximumUsec);
    }

    /** How long to wait: until the nearest live deadline, as far as the clock
        could be read, and no longer than the cap. */
    method RuntimeWaitTimeout(maximumUsec: nat) returns (usec: nat, ghost first: Option<nat>, ghost second: Option<nat>)
      requires PlaneFine() && ControlsFine() && Undispatched()
      modifies this`state, this`control, this`timers, this`trace, this`clock, control
      ensures Settled() && ControlsFine() && Undispatched()
      ensures SamePolicyState(old(state), state)
      ensures control == old(control) || control == null
      ensures usec == NearestDeadline(ThePlane(), maximumUsec, first, second)
      ensures first.Some? ==> first.value == clock
      ensures second.Some? ==> second.value == clock
      ensures (timers.runningTimer || timers.pausedTimer) && trace.reading.Some? ==> first.Some?
      ensures timers.retryActive && trace.reading.Some? ==> second.Some?
      ensures Fits(Wait(usec, ThePlane(), trace.reading), maximumUsec)
      ensures Precedes(old(ThePast()), ThePast())
    {
      hide ControlsKept, MarksOk, ObserveAll, SignalsExact, Precedes;
      GoingOn();
      ProcessActivityTimers();
      var deadline := None;
      if timers.runningTimer {
        deadline := Some(timers.runningDeadline);
      } else if timers.pausedTimer {
        deadline := Some(timers.pausedDeadline);
      }
      usec, first := DeadlineWait(deadline, maximumUsec);
      second := None;
      if timers.retryActive {
        usec, second := DeadlineWait(Some(timers.retryDeadline), usec);
      }
      NearestFits(ThePlane(), maximumUsec, first, second, trace.reading);
    }

    /** Waits, and dispatches whatever ended the wait. */
    method ControlWait(usec: nat) returns (ghost interrupted: bool, ghost failed: bool)
      requires Ready() && Undispatched()
      modifies this`served, this`state, this`control, this`timers, this`trace, this`clock, this`fatal, this`log,
        this`patience, control, HeldVirtual()`kernel, HeldVirtual()`written
      ensures DevicesFine() && HeadOk(Snapshot()) && PlaneFine() && ControlsFine() && Undispatched()
      ensures control == old(control) || control == null
      ensures served.waits == old(served.waits) + [Wait(usec, old(ThePlane()), old(trace.reading))]
      ensures interrupted ==> control == old(control) && served.dispatched == old(served.dispatched)
      ensures !interrupted && failed ==> control == null
      ensures old(control) != null && !interrupted && !failed ==>
        Dispatched(old(served.dispatched), served.dispatched)
      ensures patience <= old(patience)
      ensures state.sourceAvailable == old(state.sourceAvailable)
      ensures old(fatal) != Success ==> fatal != Success
      ensures Precedes(old(ThePast()), ThePast())
    {
      hide ControlsKept, PlaneOk, HeadOk, ObserveAll, SignalsExact, ValidDevice, WellFormed, Precedes;
      GoingOn();
      served := served.(waits := served.waits + [Wait(usec, ThePlane(), trace.reading)]);
      interrupted, failed := false, false;
      if control == null {
        return;
      }
      var answer: int := *;
      interrupted, failed := answer == -EINTR, answer < 0 && answer != -EINTR;
      if answer == -EINTR {
        return;
      }
      if answer < 0 {
        DropControl();
        return;
      }
      ControlProcess();
    }

    /** After a wait: notice a loss, let indications fall, bring the control
        back when that is due. */
    method SettleAfterWait()
      requires PlaneFine() && ControlsFine() && Undispatched()
      modifies this`state, this`control, this`timers, this`trace, this`clock, this`controls, control
      ensures Settled() && ControlsFine() && Undispatched()
      ensures SamePolicyState(old(state), state)
      ensures control == old(control) || control == null || fresh(control)
      ensures RetryAhead() && (control != null && trace.reading.Some? ==> NothingDue())
      ensures Precedes(old(ThePast()), ThePast())
    {
      hide ControlsKept, PlaneOk, ObserveAll, SignalsExact, Precedes;
      GoingOn();
      UpdateControlAvailability();
      ProcessActivityTimers();
      ProcessRuntimeControlRecovery();
    }

    /** After dispatching at a loop head: the same with the control first. */
    method SettleAtHead()
      requires PlaneFine() && ControlsFine() && Undispatched()
      modifies this`state, this`control, this`timers, this`trace, this`clock, this`controls, control
      ensures Settled() && ControlsFine() && Undispatched()
      ensures SamePolicyState(old(state), state)
      ensures control == old(control) || control == null || fresh(control)
      ensures control != null && trace.reading.Some? ==> NothingDue()
      ensures RetryAhead()
      ensures Precedes(old(ThePast()), ThePast())
    {
      hide ControlsKept, PlaneOk, ObserveAll, SignalsExact, Precedes;
      GoingOn();
      UpdateControlAvailability();
      ProcessRuntimeControlRecovery();
      ProcessActivityTimers();
    }

    /** Waits no longer than the nearest deadline and the cap. */
    method WaitForDeadline(maximumUsec: nat)
      requires Ready() && Undispatched()
      modifies this`served, this`state, this`control, this`timers, this`trace, this`clock, this`fatal, this`log,
        this`patience, control, HeldVirtual()`kernel, HeldVirtual()`written
      ensures DevicesFine() && HeadOk(Snapshot()) && PlaneFine() && ControlsFine() && Undispatched()
      ensures control == old(control) || control == null
      ensures Waited(old(served.waits), served.waits, maximumUsec)
      ensures patience <= old(patience)
      ensures state.sourceAvailable == old(state.sourceAvailable)
      ensures old(fatal) != Success ==> fatal != Success
      ensures Precedes(old(ThePast()), ThePast())
    {
      hide ControlsKept, PlaneOk, HeadOk, ObserveAll, SignalsExact, ValidDevice, WellFormed, NearestDeadline,
           Precedes;
      GoingOn();
      ghost var h := Snapshot();
      var usec;
      ghost var first, second;
      usec, first, second := RuntimeWaitTimeout(maximumUsec);
      assert Snapshot() == h;
      ghost var interrupted, failed := ControlWait(usec);
    }

    method WaitWithActivityTimer(maximumUsec: nat)
      requires Ready() && Undispatched()
      modifies this`served, this`state, this`control, this`timers, this`trace, this`clock, this`controls, this`fatal,
        this`log, this`patience, control, HeldVirtual()`kernel, HeldVirtual()`written
      ensures Ready() && Undispatched()
      ensures control == old(control) || control == null || fresh(control)
      ensures Waited(old(served.waits), served.waits, maximumUsec)
      ensures patience <= old(patience)
      ensures state.sourceAvailable == old(state.sourceAvailable)
      ensures old(fatal) != Success ==> fatal != Success
      ensures RetryAhead() && (control != null && trace.reading.Some? ==> NothingDue())
      ensures Precedes(old(ThePast()), ThePast())
    {
      hide ControlsKept, PlaneOk, HeadOk, ObserveAll, SignalsExact, ValidDevice, WellFormed, Precedes;
      GoingOn();
      WaitForDeadline(maximumUsec);
      ghost var h := Snapshot();
      SettleAfterWait();
      assert Snapshot() == h;
    }

    /** What every loop head starts with. */
    method ServeControl()
      requires Ready() && Undispatched()
      modifies this`served, this`state, this`control, this`timers, this`trace, this`clock, this`controls, this`fatal,
        this`log, this`patience, control, HeldVirtual()`kernel, HeldVirtual()`written
      ensures Ready() && Undispatched() && Accounted(Snapshot())
      ensures fatal in {Success, ReadFailed, OutOfMemory, WriteFailed, Disconnected}
      ensures control == old(control) || control == null || fresh(control)
      ensures served.waits == old(served.waits)
      ensures old(control) != null ==> Dispatched(old(served.dispatched), served.dispatched)
      ensures patience <= old(patience)
      ensures state.sourceAvailable == old(state.sourceAvailable)
      ensures old(fatal) != Success ==> fatal != Success
      ensures control != null && trace.reading.Some? ==> NothingDue()
      ensures RetryAhead()
      ensures Precedes(old(ThePast()), ThePast())
    {
      hide ControlsKept, PlaneOk, HeadOk, ObserveAll, SignalsExact, ValidDevice, WellFormed, Precedes, Accounted,
           Dispatched;
      GoingOn();
      ControlProcess();
      ghost var h := Snapshot();
      SettleAtHead();
      assert Snapshot() == h;
      HeadIsAccounted(h);
    }

    // ----- Events -----

    /** Forwards an event that was just read, unless the session is paused. */
    method ProcessReadEvent(e: Event, ghost h: Head) returns (r: Result)
      requires DevicesFine() && source != null && virtual != null
      requires HeadOk(h) && h.fatal == Success && h.source.Some? && Snapshot() == AfterRead(h, e)
      modifies this`log, HeldVirtual()`kernel, HeldVirtual()`written
      ensures DevicesFine() && r in {Success, WriteFailed}
      ensures r == Success ==> Snapshot() == if h.paused then AfterSuppress(h, e) else AfterForward(h, e)
      ensures r == Success ==> HeadOk(Snapshot())
      ensures r != Success ==> !h.paused && Snapshot() == AfterLost(h, e)
      ensures Precedes(old(ThePast()), ThePast())
    {
      hide HeadOk, ValidDevice, WellFormed, ModeOf, WritesOf, ReadsOf;
      if state.paused {
        log := log.(history := log.history + [Suppressed(e)]);
        SuppressKeepsHead(h, e);
        return Success;
      }
      ghost var smooth;
      r, smooth := virtual.WriteEvent(e);
      if r == Success {
        log := log.(history := log.history + [Forwarded(e)]);
        log := log.(known := KnownAfter(h.source.value.device, h.source.value.state, h.known, e));
        ForwardKeepsHead(h, e);
        assert Snapshot().written == h.written + [e];
        assert Snapshot() == AfterForward(h, e);
      } else {
        log := log.(history := log.history + [Lost(e)]);
      }
    }

    /** A read of recovered state, as long as the environment answers. */
    method ReadSyncEvent() returns (r: Result, e: Event)
      requires DevicesFine() && source != null
      modifies this`answers, this`patience, HeldSource()`view, HeldSource()`consumed
      ensures DevicesFine()
      ensures r in {Success, Unavailable, Disconnected, ReadFailed}
      ensures old(patience) > 0 ==> patience == old(patience) - 1
      ensures patience <= old(patience) && (r == Success ==> patience < old(patience))
      ensures answers == old(answers) + [if r == Success then Got(e) else NotGot(r)]
      ensures Snapshot() == if r == Success then AfterRead(old(Snapshot()), e) else old(Snapshot())
    {
      ghost var h := Snapshot();
      if patience == 0 {
        answers := answers + [NotGot(Unavailable)];
        return Unavailable, BOUNDARY;
      }
      patience := patience - 1;
      r, e := source.ReadSyncEvent();
      answers := answers + [if r == Success then Got(e) else NotGot(r)];
      if r == Success {
        assert Snapshot().consumed == h.consumed + [e];
      }
    }

    /** Takes over one event the kernel held back, or finds the end. */
    method RecoverNext() returns (done: bool, r: Result, ghost answer: Answer)
      requires DevicesFine() && source != null && virtual != null && HeadOk(Snapshot()) && fatal == Success
      modifies this`answers, this`log, this`patience, HeldSource()`view, HeldSource()`consumed,
        HeldVirtual()`kernel, HeldVirtual()`written
      ensures DevicesFine() && answers == old(answers) + [answer]
      ensures if done then Recovered([answer], r) else r == Success && answer.Got? && patience < old(patience)
      ensures if r == WriteFailed then Accounted(Snapshot()) && ModeOf(log.history) == Broken else HeadOk(Snapshot())
      ensures r in {Success, Disconnected, ReadFailed, WriteFailed}
      ensures TakenOver(old(Snapshot()), Snapshot(), [answer], r)
      ensures patience <= old(patience)
      ensures Precedes(old(ThePast()), ThePast())
    {
      hide HeadOk, ValidDevice, WellFormed, ModeOf, WritesOf, ReadsOf, Precedes, TakenOver,
           Accounted, EventsGot, ProfileOf,
           AfterRead, AfterSuppress, AfterForward, AfterLost;
      GoingOn();
      ghost var h := Snapshot();
      var e;
      r, e := ReadSyncEvent();
      answer := if r == Success then Got(e) else NotGot(r);
      if r == Unavailable {
        NoneTakenOver(h, r, Success);
        return true, Success, answer;
      }
      if r != Success {
        NoneTakenOver(h, r, r);
        return true, r, answer;
      }
      r := ProcessReadEvent(e, h);
      OneTakenOver(h, Snapshot(), e, r);
      done := r != Success;
      if done {
        LostIsAccounted(h, e);
      }
    }

    /** Takes over the state the kernel held back, event by event. It is not
        activity: no timer and no property is touched. */
    method RecoverSynchronization() returns (r: Result)
      requires DevicesFine() && source != null && virtual != null && HeadOk(Snapshot()) && fatal == Success
      modifies this`answers, this`log, this`patience, HeldSource()`view, HeldSource()`consumed,
        HeldVirtual()`kernel, HeldVirtual()`written
      ensures DevicesFine()
      ensures r in {Success, Disconnected, ReadFailed, WriteFailed}
      ensures r != WriteFailed ==> HeadOk(Snapshot())
      ensures r == WriteFailed ==> Accounted(Snapshot()) && ModeOf(log.history) == Broken
      ensures old(answers) <= answers && Recovered(Since(old(answers), answers), r)
      ensures TakenOver(old(Snapshot()), Snapshot(), Since(old(answers), answers), r)
      ensures patience <= old(patience)
      ensures Precedes(old(ThePast()), ThePast())
    {
      hide HeadOk, Accounted, ValidDevice, WellFormed, ModeOf, WritesOf, ReadsOf, Precedes, TakenOver;
      GoingOn();
      ghost var got: seq<Answer> := [];
      NothingTakenOver(Snapshot(), Success);
      while true
        invariant DevicesFine() && source == old(source) && virtual == old(virtual) && HeadOk(Snapshot())
        invariant answers == old(answers) + got && forall a | a in got :: a.Got?
        invariant TakenOver(old(Snapshot()), Snapshot(), got, Success)
        invariant patience <= old(patience)
        invariant Precedes(old(ThePast()), ThePast())
        decreases patience
      {
        ghost var h := Snapshot();
        var done;
        ghost var answer;
        done, r, answer := RecoverNext();
        TakenOverMore(old(Snapshot()), h, Snapshot(), got, answer, r);
        got := got + [answer];
        if done {
          assert Since(old(answers), answers) == got;
          return;
        }
      }
    }

    method ReadPhysicalEvent() returns (r: Result, e: Event)
      requires DevicesFine() && source != null
      modifies this`answers, HeldSource()`view, HeldSource()`consumed
      ensures DevicesFine()
      ensures r in {Success, SyncRequired, Unavailable, Disconnected, ReadFailed}
      ensures answers == old(answers) + [if r == Success then Got(e) else NotGot(r)]
      ensures Snapshot() == if r == Success then AfterRead(old(Snapshot()), e) else old(Snapshot())
    {
      ghost var h := Snapshot();
      r, e := source.ReadEvent();
      answers := answers + [if r == Success then Got(e) else NotGot(r)];
      if r == Success {
        assert Snapshot().consumed == h.consumed + [e];
      }
    }

    /** Lets an event count as activity or not. Keys and contacts always do,
        protocol bookkeeping never does, and motion does if the setting of the
        present mode says so. */
    method NoteActivity(e: Event) returns (ghost counted: bool)
      requires ControlsFine() && Settled() && Undispatched()
      modifies this`state, this`control, this`timers, this`trace, this`clock, control
      ensures ControlsFine() && Settled() && Undispatched()
      ensures e.kind == EV_KEY || (e.kind == EV_ABS && e.code == ABS_MT_TRACKING_ID) ==> counted
      ensures e.kind == EV_SYN || (e.kind == EV_ABS && e.code == ABS_MT_SLOT) ==> !counted
      ensures e.kind == EV_REL || (e.kind == EV_ABS && e.code != ABS_MT_TRACKING_ID && e.code != ABS_MT_SLOT) ==>
        (counted <==> if old(state.paused) then pausedMotionActivity else runningMotionActivity)
      ensures e.kind !in {EV_SYN, EV_KEY, EV_REL, EV_ABS} ==> counted
      ensures !counted ==> ThePlane() == old(ThePlane()) && control == old(control)
      ensures counted ==> ActivityNoted(old(trace.marks), old(timers))
      ensures SamePolicyState(old(state), state)
      ensures control == old(control) || control == null
      ensures Precedes(old(ThePast()), ThePast())
    {
      hide Settled, ControlsFine, Precedes;
      GoingOn();
      var motionEnabled := if state.paused then pausedMotionActivity else runningMotionActivity;
      counted := EventIsActivity(e, motionEnabled);
      if EventIsActivity(e, motionEnabled) {
        ProcessPhysicalActivity();
      }
    }

    /** What an eligible event leaves, unless there is no control or the clock
        could not be read: its mark, the indication of the mode, and how long
        that one holds. */
    ghost predicate ActivityNoted(marks: seq<Mark>, before: Timers)
      reads this`state, this`control, this`timers, this`clock, this`trace
    {
      control != null && trace.reading.Some? ==>
        && marks <= trace.marks && Eligible(state.paused, clock) in trace.marks[|marks|..]
        && (!state.paused && activityTimeoutMs > 0 ==>
              state.activityWhileRunning && Ns(timers.runningDeadline) == clock + activityTimeoutMs * 1_000_000)
        && (state.paused && detectionThrottleMs > 0 ==>
              && state.activityWhilePaused
              && (before.pausedTimer || Ns(timers.pausedDeadline) == clock + detectionThrottleMs * 1_000_000))
    }

    /** A normal event counts as activity before it is forwarded or not. */
    method ProcessPhysicalEvent(e: Event, ghost h: Head) returns (r: Result, ghost counted: bool)
      requires DevicesFine() && source != null && virtual != null
      requires ControlsFine() && Settled() && Undispatched()
      requires HeadOk(h) && h.fatal == Success && h.source.Some? && Snapshot() == AfterRead(h, e)
      modifies this`state, this`control, this`timers, this`trace, this`clock, this`log, control,
        HeldVirtual()`kernel, HeldVirtual()`written
      ensures DevicesFine() && ControlsFine() && Settled() && Undispatched()
      ensures r in {Success, WriteFailed}
      ensures r == Success ==> Snapshot() == if h.paused then AfterSuppress(h, e) else AfterForward(h, e)
      ensures r != Success ==> Snapshot() == AfterLost(h, e)
      ensures e.kind == EV_KEY || (e.kind == EV_ABS && e.code == ABS_MT_TRACKING_ID) ==> counted
      ensures e.kind == EV_SYN || (e.kind == EV_ABS && e.code == ABS_MT_SLOT) ==> !counted
      ensures e.kind == EV_REL || (e.kind == EV_ABS && e.code != ABS_MT_TRACKING_ID && e.code != ABS_MT_SLOT) ==>
        (counted <==> if old(state.paused) then pausedMotionActivity else runningMotionActivity)
      ensures e.kind !in {EV_SYN, EV_KEY, EV_REL, EV_ABS} ==> counted
      ensures !counted ==> ThePlane() == old(ThePlane()) && control == old(control)
      ensures counted ==> ActivityNoted(old(trace.marks), old(timers))
      ensures r == Success ==> HeadOk(Snapshot())
      ensures r == WriteFailed ==> Accounted(Snapshot()) && ModeOf(log.history) == Broken
      ensures SamePolicyState(old(state), state)
      ensures control == old(control) || control == null
      ensures Precedes(old(ThePast()), ThePast())
    {
      hide Settled, ControlsFine, Undispatched, HeadOk, ValidDevice, WellFormed, ModeOf, WritesOf, ReadsOf, Precedes,
           ActivityNoted;
      GoingOn();
      counted := NoteActivity(e);
      assert Snapshot() == AfterRead(h, e);
      r := ProcessReadEvent(e, h);
      if r != Success {
        LostIsAccounted(h, e);
      }
    }

    /** What the answer of a read calls for: a recovery, or dealing with the
        event. */
    method ProcessAnswer(q: Result, e: Event, ghost h: Head) returns (r: Result)
      requires q in {Success, SyncRequired} && DevicesFine() && source != null && virtual != null
      requires ControlsFine() && Settled() && Undispatched()
      requires HeadOk(h) && h.fatal == Success && h.source.Some?
      requires Snapshot() == if q == Success then AfterRead(h, e) else h
      modifies this`answers, this`state, this`control, this`timers, this`trace, this`clock, this`log, this`patience,
        control, HeldSource()`view, HeldSource()`consumed, HeldVirtual()`kernel, HeldVirtual()`written
      ensures DevicesFine() && ControlsFine() && Settled() && Undispatched()
      ensures r in {Success, Disconnected, ReadFailed, WriteFailed}
      ensures if r == WriteFailed then Accounted(Snapshot()) && ModeOf(log.history) == Broken else HeadOk(Snapshot())
      ensures q == Success ==>
        answers == old(answers) && r in {Success, WriteFailed} && TakenOver(h, Snapshot(), [Got(e)], r)
      ensures q == SyncRequired ==>
        old(answers) <= answers && Recovered(Since(old(answers), answers), r) &&
        TakenOver(h, Snapshot(), Since(old(answers), answers), r)
      ensures SamePolicyState(old(state), state)
      ensures control == old(control) || control == null
      ensures patience <= old(patience)
      ensures Precedes(old(ThePast()), ThePast())
    {
      hide PlaneOk, ControlsKept, Paired, AfterLost, Settled, ControlsFine, Undispatched, HeadOk, ValidDevice,
           WellFormed, ModeOf, WritesOf, ReadsOf, Precedes, Accounted, AfterSuppress, AfterForward,
           TakenOver, Recovered, ActivityNoted;
      GoingOn();
      if q == SyncRequired {
        r := RecoverSynchronization();
      } else {
        ghost var counted;
        r, counted := ProcessPhysicalEvent(e, h);
        OneTakenOver(h, Snapshot(), e, r);
      }
    }

    /** Reads one event and deals with it. */
    method ProcessEvent() returns (r: Result)
      requires Ready() && Undispatched() && source != null && virtual != null && fatal == Success
      modifies this`answers, this`state, this`control, this`timers, this`trace, this`clock, this`log, this`patience,
        control, HeldSource()`view, HeldSource()`consumed, HeldVirtual()`kernel, HeldVirtual()`written
      ensures DevicesFine() && ControlsFine() && Settled() && Undispatched()
      ensures r in {Success, Unavailable, Disconnected, ReadFailed, WriteFailed}
      ensures r != WriteFailed ==> HeadOk(Snapshot())
      ensures r == WriteFailed ==> Accounted(Snapshot()) && ModeOf(log.history) == Broken
      ensures r == Unavailable ==> Snapshot() == old(Snapshot()) && ThePlane() == old(ThePlane())
      ensures SamePolicyState(old(state), state)
      ensures control == old(control) || control == null
      ensures old(answers) <= answers && Processed(Since(old(answers), answers), r)
      ensures TakenOver(old(Snapshot()), Snapshot(), Since(old(answers), answers), r)
      ensures r !in {Success, WriteFailed} ==> Answered(r)
      ensures patience <= old(patience)
      ensures Precedes(old(ThePast()), ThePast())
    {
      hide PlaneOk, ControlsKept, Paired, Settled, ControlsFine, Undispatched, HeadOk, ValidDevice,
           WellFormed, ModeOf, WritesOf, ReadsOf, Precedes, Accounted, AfterRead,
           TakenOver, Recovered, Processed, Since, ThePast, ThePlane;
      GoingOn();
      ghost var h := Snapshot();
      var e;
      r, e := ReadPhysicalEvent();
      ghost var answer, read := if r == Success then Got(e) else NotGot(r), answers;
      if r == Success || r == SyncRequired {
        r := ProcessAnswer(r, e, h);
      } else {
        NoneTakenOver(h, r, r);
      }
      AnswerTakenOver(h, Snapshot(), old(answers), answer, answers, r);
    }

    // ----- Gaining and losing devices -----

    /** A correction of the virtual device was cut short. */
    ghost predicate CutShort(r: Result)
      reads this`log
    {
      ModeOf(log.history) == Broken && r in {ReadFailed, OutOfMemory, WriteFailed, Disconnected}
    }

    /** The last that was asked of a device or its creation failed so. */
    ghost predicate Answered(r: Result)
      reads this`answers
    {
      answers != [] && answers[|answers| - 1] in {Opened(r), Made(r), NotGot(r)}
    }

    /** What a session may end with other than success. Nothing to read and a
        source that is not there are no reasons to end. */
    ghost predicate FailedWith(r: Result)
      reads this`fatal, this`log, this`answers
    {
      && r !in {Success, Unavailable, SyncRequired, SourceUnavailable}
      && (fatal == r || CutShort(r) || Answered(r))
    }

    /** Opens the source; only ever when none is held. */
    method AcquireSource() returns (r: Result)
      requires source == null && SourcesKept() && DevicesFine() && HeadOk(Snapshot()) && fatal == Success
      modifies this`answers, this`source, this`sources
      ensures SourcesKept() && DevicesFine()
      ensures r in {Success, SourceUnavailable, PermissionDenied, OpenFailed, OutOfMemory}
      ensures r == Success <==> source != null
      ensures answers == old(answers) + [Opened(r)]
      ensures source != null ==>
        fresh(source) && source.consumed == [] && Attaching(Snapshot().(available := true))
      ensures source == null ==> Snapshot() == old(Snapshot())
    {
      hide HeadOk, Attaching, WellFormed, ValidDevice;
      ghost var h := Snapshot();
      r, source := OpenSource();
      answers := answers + [Opened(r)];
      if source != null {
        sources := sources + {source};
        OpenedIsAttaching(h, Node(source.device, source.view));
        assert Snapshot() == h.(source := Some(Node(source.device, source.view)));
      }
    }

    method ReleaseSource()
      requires SourcesKept() && (source != null ==> !source.closed)
      modifies this`source, this`log, HeldSource()`closed
      ensures source == null && SourcesKept()
      ensures Snapshot() == old(Snapshot()).(source := None)
      ensures Precedes(old(ThePast()), ThePast())
    {
      if source != null {
        log := log.(retiredReads := log.retiredReads + source.consumed);
        source.Close();
        source := null;
      }
    }

    method ReleaseVirtualDevice()
      requires VirtualsKept() && (virtual != null ==> !virtual.destroyed)
      modifies this`virtual, this`log, HeldVirtual()`destroyed
      ensures virtual == null && VirtualsKept()
      ensures Snapshot() == old(Snapshot()).(virtual := None)
      ensures Precedes(old(ThePast()), ThePast())
    {
      if virtual != null {
        log := log.(retiredWrites := log.retiredWrites + virtual.written);
        virtual.Destroy();
        virtual := null;
      }
    }

    method CloseSource()
      requires PlaneFine() && ControlsFine() && Undispatched() && SourcesKept()
      requires source != null ==> !source.closed
      modifies this`state, this`control, this`timers, this`trace, this`clock, this`source, this`log, control,
        HeldSource()`closed
      ensures Settled() && ControlsFine() && Undispatched()
      ensures source == null && SourcesKept()
      ensures Snapshot() == old(Snapshot()).(source := None, available := false)
      ensures control == old(control) || control == null
      ensures Precedes(old(ThePast()), ThePast())
    {
      hide ControlsKept, PlaneOk, ObserveAll, SignalsExact, Precedes;
      GoingOn();
      ReleaseSource();
      SetSourceAvailable(false);
    }

    method CleanupActiveDevices()
      requires PlaneFine() && ControlsFine() && Undispatched() && DevicesFine() && SourcesKept() && VirtualsKept()
      modifies this`state, this`control, this`timers, this`trace, this`clock, this`source, this`virtual,
        this`log, control, HeldSource()`closed, HeldVirtual()`destroyed
      ensures Settled() && ControlsFine() && Undispatched()
      ensures source == null && SourcesKept() && virtual == null && VirtualsKept()
      ensures Snapshot() == old(Snapshot()).(source := None, virtual := None, available := false)
      ensures control == old(control) || control == null
      ensures Precedes(old(ThePast()), ThePast())
    {
      hide ControlsKept, PlaneOk, ObserveAll, SignalsExact, ValidDevice, WellFormed, Precedes;
      GoingOn();
      ReleaseVirtualDevice();
      CloseSource();
    }

    /** A virtual device for the source. */
    method AddVirtualDevice() returns (r: Result)
      requires DevicesFine() && source != null && virtual == null && Attaching(Snapshot()) && VirtualsKept()
      modifies this`answers, this`virtual, this`virtuals, this`log
      ensures DevicesFine() && VirtualsKept()
      ensures r in {Success, OutOfMemory, UinputUnavailable, CreateFailed}
      ensures virtual != null ==> fresh(virtual) && virtual.capabilities.name == instanceName
      ensures (r == Success <==> virtual != null) && answers == old(answers) + [Made(r)]
      ensures r == Success ==>
        Attaching(Snapshot()) && ProfileOf(virtual.capabilities) == ProfileOf(source.device)
      ensures r != Success ==> Snapshot() == old(Snapshot())
      ensures Precedes(old(ThePast()), ThePast())
    {
      hide Precedes, Attaching, Accounted, ModeOf, ValidDevice, WellFormed, ProfileOf, Neutral, Accounted, Faithful,
           Paired, ThePlane, ThePast;
      GoingOn();
      ghost var h := Snapshot();
      ghost var smooth;
      r, virtual, smooth := CreateVirtualDevice(source, instanceName);
      answers := answers + [Made(r)];
      if r != Success {
        return;
      }
      virtuals := virtuals + {virtual};
      CreationIsAccounted(h, Node(virtual.capabilities, virtual.kernel));
      Note(Created);
      assert Snapshot().written == h.written;
    }

    /** A new virtual device for the source, in place of any earlier one. */
    method ReplaceVirtualDevice() returns (r: Result)
      requires DevicesFine() && source != null && Attaching(Snapshot()) && VirtualsKept()
      modifies this`answers, this`virtual, this`virtuals, this`log, HeldVirtual()`destroyed
      ensures DevicesFine() && VirtualsKept()
      ensures r in {Success, OutOfMemory, UinputUnavailable, CreateFailed}
      ensures virtual != null ==> fresh(virtual) && virtual.capabilities.name == instanceName
      ensures (r == Success <==> virtual != null) && answers == old(answers) + [Made(r)]
      ensures r == Success ==>
        Attaching(Snapshot()) && ProfileOf(virtual.capabilities) == ProfileOf(source.device)
      ensures r != Success ==> Snapshot() == old(Snapshot()).(virtual := None)
      ensures Precedes(old(ThePast()), ThePast())
    {
      hide Precedes, VirtualsKept, Attaching, ValidDevice, WellFormed, ProfileOf, Neutral;
      GoingOn();
      AttachingWithout(Snapshot());
      ReleaseVirtualDevice();
      r := AddVirtualDevice();
    }

    /** Keeps a virtual device that fits the source, and replaces any other. */
    method FitVirtualDevice() returns (r: Result)
      requires DevicesFine() && source != null && Attaching(Snapshot()) && VirtualsKept()
      modifies this`answers, this`virtual, this`virtuals, this`log, HeldVirtual()`destroyed
      ensures DevicesFine() && VirtualsKept()
      ensures virtual != old(virtual) && virtual != null ==> fresh(virtual)
      ensures r == Success <==> virtual != null
      ensures r in {Success, OutOfMemory, UinputUnavailable, CreateFailed}
      ensures answers == old(answers) || answers == old(answers) + [Made(r)]
      ensures r != Success ==> answers == old(answers) + [Made(r)] && Answered(r)
      ensures r == Success ==>
        Attaching(Snapshot()) && ProfileOf(virtual.capabilities) == ProfileOf(source.device)
      ensures r == Success && old(virtual) != null ==>
        (virtual == old(virtual) <==> ProfileOf(old(virtual).capabilities) == ProfileOf(source.device))
      ensures r != Success ==> Snapshot() == old(Snapshot()).(virtual := None)
      ensures Precedes(old(ThePast()), ThePast())
    {
      hide VirtualsKept, ValidDevice, WellFormed, ProfileOf, Neutral, Accounted, Attaching, Precedes;
      GoingOn();
      if virtual != null {
        var compatible := IsCompatible(virtual, source);
        if compatible {
          return Success;
        }
      }
      r := ReplaceVirtualDevice();
    }

    /** Without a virtual device there is no use for the source. */
    method GiveUpSource()
      requires Settled() && ControlsFine() && Undispatched() && SourcesKept() && source != null && source.Valid()
      requires Attaching(Snapshot())
      modifies this`state, this`control, this`timers, this`trace, this`clock, this`source, this`log, control,
        HeldSource()`closed
      ensures Settled() && ControlsFine() && Undispatched()
      ensures source == null && SourcesKept() && Accounted(Snapshot()) && !state.sourceAvailable
      ensures control == old(control) || control == null
      ensures Precedes(old(ThePast()), ThePast())
    {
      hide Attaching, Accounted, PlaneOk, ControlsKept, ObserveAll, SignalsExact;
      AttachingIsAccounted(Snapshot());
      CloseSource();
    }

    /** With a virtual device that fits, there is nothing to do but to bring it
        up to date, unless the session is paused. */
    method BringUp() returns (r: Result)
      requires DevicesFine() && source != null && virtual != null && Attaching(Snapshot())
      requires ProfileOf(virtual.capabilities) == ProfileOf(source.device)
      modifies this`log, HeldVirtual()`kernel, HeldVirtual()`written
      ensures DevicesFine()
      ensures if r == Success then HeadOk(Snapshot()) else Accounted(Snapshot())
      ensures r in {Success, ReadFailed, OutOfMemory, WriteFailed, Disconnected} && (r != Success ==> CutShort(r))
      ensures Precedes(old(ThePast()), ThePast())
    {
      hide ValidDevice, WellFormed, WritesOf, ReadsOf, ModeOf, ProfileOf, HeadOk, AfterSync, Precedes;
      GoingOn();
      r := Success;
      AttachedHead(Snapshot());
      if !state.paused {
        ghost var captured;
        r, captured := SynchronizeState();
      }
    }

    /** With the source held, makes the virtual device fit and, unless paused,
        brings it up to date. */
    method Attach() returns (r: Result)
      requires DevicesFine() && ControlsFine() && Settled() && Undispatched()
      requires source != null && Attaching(Snapshot()) && SourcesKept() && VirtualsKept()
      modifies this`answers, this`state, this`control, this`timers, this`trace, this`clock, this`source, this`virtual,
        this`virtuals, this`log, control, HeldSource()`closed, HeldVirtual()`destroyed, HeldVirtual()`kernel,
        HeldVirtual()`written
      ensures DevicesFine() && ControlsFine() && Settled() && Undispatched() && SourcesKept() && VirtualsKept()
      ensures r == Success ==> source == old(source) && virtual != null && HeadOk(Snapshot())
      ensures r != Success ==> Accounted(Snapshot())
      ensures OnlyMade(old(answers), answers)
      ensures r !in {Unavailable, SyncRequired, SourceUnavailable, PermissionDenied}
      ensures r != Success ==> if source == null then Answered(r) && !state.sourceAvailable else CutShort(r)
      ensures source == old(source) || source == null
      ensures virtual != old(virtual) && virtual != null ==> fresh(virtual)
      ensures r == Success && old(virtual) != null ==>
        (virtual == old(virtual) <==> ProfileOf(old(virtual).capabilities) == ProfileOf(source.device))
      ensures control == old(control) || control == null
      ensures Precedes(old(ThePast()), ThePast())
    {
      hide ControlsFine, Settled, Undispatched, SourcesKept, VirtualsKept, ControlsKept, PlaneOk, ObserveAll,
           SignalsExact, ValidDevice, WellFormed, ProfileOf, HeadOk, Attaching, Accounted, Precedes, CutShort,
           Answered, Snapshot, ThePast, ThePlane;
      GoingOn();
      AttachingWithout(Snapshot());
      r := FitVirtualDevice();
      if r != Success {
        GiveUpSource();
        return;
      }
      r := BringUp();
    }

    // ----- The run -----

    ghost function Present(): Moment
      reads this, source, virtual, control
    {
      Moment(Snapshot(), ThePlane(),
             if control == null || control.disablePending then None
             else Some(Client(control.initial, control.notifications)))
    }

    /** Every loop head so far satisfied the invariant. */
    ghost predicate MomentsFine()
      reads this`moments
    {
      forall m | m in moments :: MomentOk(m, ThePolicy())
    }

    /** The moments follow each other up to now. */
    ghost predicate Recorded()
      reads this`moments, this`state, this`control, this`timers, this`clock, this`trace, this`log, this`fatal
    {
      Chained(moments, ThePast())
    }

    /** Where every loop starts over. */
    ghost predicate AtHead()
      reads this, source, virtual, control, sources`closed, virtuals`destroyed, controls`destroyed
    {
      Ready() && Undispatched() && SourcesKept() && VirtualsKept() && MomentsFine() && Recorded()
    }

    /** A loop head: the moment is noted, the control is served. */
    method BeginIteration()
      requires AtHead()
      modifies this`served, this`state, this`control, this`timers, this`trace, this`clock, this`controls, this`fatal,
        this`log, this`patience, this`moments, control, HeldVirtual()`kernel, HeldVirtual()`written
      ensures AtHead() && Accounted(Snapshot())
      ensures fatal in {Success, ReadFailed, OutOfMemory, WriteFailed, Disconnected}
      ensures control == old(control) || control == null || fresh(control)
      ensures moments == old(moments) + [old(Present())]
      ensures served.waits == old(served.waits)
      ensures old(control) != null ==> Dispatched(old(served.dispatched), served.dispatched)
      ensures patience <= old(patience)
      ensures state.sourceAvailable == old(state.sourceAvailable)
      ensures control != null && trace.reading.Some? ==> NothingDue()
      ensures RetryAhead()
      ensures Precedes(old(ThePast()), ThePast())
    {
      hide SourcesKept, VirtualsKept, ControlsKept, PlaneSettled, HeadOk, ObserveAll, SignalsExact, ValidDevice,
           WellFormed, Precedes, Chained, Accounted;
      GoingOn();
      ChainGrows(moments, Present());
      moments := moments + [Present()];
      ghost var past := ThePast();
      ServeControl();
      ChainGoesOn(moments, past, ThePast());
    }

    /** Waits as the loops do. */
    method Pause(maximumUsec: nat)
      requires AtHead()
      modifies this`served, this`state, this`control, this`timers, this`trace, this`clock, this`controls, this`fatal,
        this`log, this`patience, control, HeldVirtual()`kernel, HeldVirtual()`written
      ensures AtHead()
      ensures control == old(control) || control == null || fresh(control)
      ensures Waited(old(served.waits), served.waits, maximumUsec)
      ensures patience <= old(patience)
      ensures state.sourceAvailable == old(state.sourceAvailable)
      ensures RetryAhead() && (control != null && trace.reading.Some? ==> NothingDue())
      ensures Precedes(old(ThePast()), ThePast())
    {
      hide SourcesKept, VirtualsKept, ControlsKept, PlaneSettled, HeadOk, ObserveAll, SignalsExact, ValidDevice,
           WellFormed, Precedes, Chained, Snapshot, ThePast, ThePlane;
      GoingOn();
      ghost var past := ThePast();
      WaitWithActivityTimer(maximumUsec);
      ChainGoesOn(moments, past, ThePast());
    }

    /** Uses a source that was just opened. */
    method TakeSource() returns (r: Result)
      requires Undispatched() && ControlsFine() && Settled() && DevicesFine() && SourcesKept() && VirtualsKept()
      requires source != null && Attaching(Snapshot().(available := true))
      modifies this`answers, this`state, this`control, this`timers, this`trace, this`clock, this`source, this`virtual,
        this`virtuals, this`log, this`sourceOpenedOnce, control, HeldSource()`closed, HeldVirtual()`destroyed,
        HeldVirtual()`kernel, HeldVirtual()`written
      ensures DevicesFine() && ControlsFine() && Settled() && Undispatched() && SourcesKept() && VirtualsKept()
      ensures sourceOpenedOnce && r != PermissionDenied
      ensures r == Success ==> source == old(source) && virtual != null && HeadOk(Snapshot())
      ensures r != Success ==> Accounted(Snapshot())
      ensures OnlyMade(old(answers), answers)
      ensures r != Success ==>
        FailedWith(r) && if source == null then Answered(r) && !state.sourceAvailable else CutShort(r)
      ensures source == old(source) || source == null
      ensures virtual == old(virtual) || virtual == null || fresh(virtual)
      ensures control == old(control) || control == null
      ensures r == Success && old(virtual) != null ==>
        (virtual == old(virtual) <==> ProfileOf(old(virtual).capabilities) == ProfileOf(source.device))
      ensures Precedes(old(ThePast()), ThePast())
    {
      hide SourcesKept, VirtualsKept, ControlsKept, PlaneOk, ObserveAll, SignalsExact, ValidDevice, WellFormed,
           HeadOk, Attaching, Accounted, ProfileOf, Precedes, Answered, CutShort;
      GoingOn();
      ghost var h := Snapshot().(available := true);
      sourceOpenedOnce := true;
      SetSourceAvailable(true);
      assert Snapshot() == h;
      r := Attach();
    }

    /** Whether permissions had their time to settle after a reconnection. */
    method SettlingExpired(deadline: Timespec) returns (expired: bool)
      requires Settled() && Normalized(deadline)
      modifies this`clock, this`trace
      ensures Settled() && old(clock) <= clock
      ensures trace == old(trace).(reading := trace.reading) && (trace.reading.Some? ==> trace.reading == Some(clock))
      ensures expired <==> trace.reading.None? || Ns(deadline) <= clock
      ensures Precedes(old(ThePast()), ThePast())
    {
      hide Precedes;
      GoingOn();
      var now := MonotonicNow();
      if now.None? {
        return true;
      }
      ExpiredIsNsComparison(deadline, now.value);
      expired := DeadlineExpired(deadline, now.value);
    }

    /** A denied source during a reconnection: wait until `deadline`, which the
        first denial sets. */
    method AwaitPermission(settling: bool, deadline: Timespec) returns (giveUp: bool, until: Timespec)
      requires AtHead() && (settling ==> Normalized(deadline))
      modifies this`clock, this`trace
      ensures AtHead() && old(clock) <= clock
      ensures trace == old(trace).(reading := trace.reading) && (trace.reading.Some? ==> trace.reading == Some(clock))
      ensures giveUp <==> trace.reading.None? || (settling && Ns(deadline) <= clock)
      ensures !giveUp ==> Normalized(until) && (settling ==> until == deadline)
      ensures !giveUp && !settling ==> Ns(until) == clock + 2_000_000_000
      ensures Precedes(old(ThePast()), ThePast())
    {
      hide MarksOk, RetriesOk, ControlsFine, DevicesFine, HeadOk, SourcesKept, VirtualsKept, MomentsFine, Precedes;
      GoingOn();
      until := deadline;
      if settling {
        giveUp := SettlingExpired(deadline);
      } else {
        var now := MonotonicNow();
        if now.None? {
          return true, deadline;
        }
        until := Timespec(now.value.sec + SETTLING_WINDOW_SECONDS, now.value.nsec);
        giveUp := false;
      }
    }

    /** One try to open the source and, when that works, to use it. */
    method TryAcquire() returns (r: Result, found: bool)
      requires AtHead() && source == null && fatal == Success
      modifies this`answers, this`state, this`control, this`timers, this`trace, this`clock, this`log, this`source,
        this`sources, this`virtual, this`virtuals, this`sourceOpenedOnce, control, HeldVirtual()`destroyed,
        HeldVirtual()`kernel, HeldVirtual()`written
      ensures !found ==> answers == old(answers) + [Opened(r)] && Answered(r)
      ensures found ==> OnlyMade(old(answers) + [Opened(Success)], answers) && r != PermissionDenied
      ensures found && r != Success ==> FailedWith(r) && if source == null then Answered(r) else CutShort(r)
      ensures !found ==> r in {SourceUnavailable, PermissionDenied, OpenFailed, OutOfMemory}
      ensures !found ==> r != Success && AtHead() && source == null && virtual == old(virtual)
      ensures sourceOpenedOnce == (found || old(sourceOpenedOnce))
      ensures DevicesFine() && ControlsFine() && Settled() && Undispatched()
      ensures SourcesKept() && VirtualsKept() && Recorded()
      ensures r == Success ==> source != null && virtual != null && HeadOk(Snapshot())
      ensures r != Success ==> Accounted(Snapshot())
      ensures source == null || fresh(source)
      ensures virtual == old(virtual) || virtual == null || fresh(virtual)
      ensures control == old(control) || control == null
      ensures r == Success && old(virtual) != null ==>
        (virtual == old(virtual) <==> ProfileOf(old(virtual).capabilities) == ProfileOf(source.device))
      ensures Precedes(old(ThePast()), ThePast())
    {
      hide MomentsFine, MomentOk, PlaneOk, ControlsKept, SourcesKept, VirtualsKept, ControlsFine, Settled, ObserveAll,
           SignalsExact, ValidDevice, WellFormed, ProfileOf, Accounted, HeadOk, Attaching, Precedes, Chained, CutShort;
      GoingOn();
      r := AcquireSource();
      if r != Success {
        HeadIsAccounted(Snapshot());
        return r, false;
      }
      found := true;
      ghost var past := ThePast();
      r := TakeSource();
      ChainGoesOn(moments, past, ThePast());
    }

    /** Whether a source that could not be opened is worth waiting for. */
    method WorthWaiting(r: Result, settling: bool, deadline: Timespec)
      returns (done: bool, settled: bool, until: Timespec, ghost at: Option<nat>)
      requires AtHead() && (settling ==> Normalized(deadline))
      modifies this`clock, this`trace
      ensures AtHead() && old(clock) <= clock && (!done && settled ==> Normalized(until))
      ensures Decided(r, sourceOpenedOnce, settling, deadline, at, done, settled, until)
      ensures r == PermissionDenied && sourceOpenedOnce ==> at == trace.reading
      ensures at.Some? ==> at == Some(clock)
      ensures Precedes(old(ThePast()), ThePast())
    {
      hide PlaneOk, ControlsFine, DevicesFine, HeadOk, SourcesKept, VirtualsKept, MomentsFine, Precedes, Chained;
      GoingOn();
      done, settled, until, at := false, settling, deadline, None;
      if r == PermissionDenied && sourceOpenedOnce {
        done, until := AwaitPermission(settling, deadline);
        settled, at := true, trace.reading;
      } else if r != SourceUnavailable {
        done := true;
      }
    }

    /** Waits for a source that could not be opened, or gives up. */
    method WaitOrGiveUp(r: Result, settling: bool, deadline: Timespec)
      returns (done: bool, settled: bool, until: Timespec, ghost at: Option<nat>)
      requires AtHead() && (settling ==> Normalized(deadline))
      modifies this`served, this`state, this`control, this`timers, this`trace, this`clock, this`controls, this`fatal,
        this`log, this`patience, control, HeldVirtual()`kernel, HeldVirtual()`written
      ensures AtHead() && (!done && settled ==> Normalized(until))
      ensures Decided(r, sourceOpenedOnce, settling, deadline, at, done, settled, until)
      ensures at.Some? ==> old(clock) <= at.value <= clock
      ensures control == old(control) || control == null || fresh(control)
      ensures if done then served == old(served) else Waited(old(served.waits), served.waits, 100_000)
      ensures patience <= old(patience)
      ensures state.sourceAvailable == old(state.sourceAvailable)
      ensures Precedes(old(ThePast()), ThePast())
    {
      hide SourcesKept, VirtualsKept, ControlsFine, Settled, DevicesFine, MomentsFine, Undispatched, HeadOk, Decided,
           Precedes, Chained;
      GoingOn();
      done, settled, until, at := WorthWaiting(r, settling, deadline);
      if !done {
        ghost var past := ThePast();
        Pause(SOURCE_WAIT_USEC);
        TimeGoesOn(past, ThePast());
      }
    }

    /** Tries to acquire, or waits for a better time. */
    method AcquireOrWait(settling: bool, deadline: Timespec)
      returns (done: bool, r: Result, settled: bool, until: Timespec, ghost answer: Result, ghost at: Option<nat>)
      requires AtHead() && source == null && fatal == Success && (settling ==> Normalized(deadline))
      modifies this`served, this`answers, this`state, this`control, this`timers, this`trace, this`clock,
        this`controls, this`fatal, this`log, this`patience, this`source, this`sources, this`virtual, this`virtuals,
        this`sourceOpenedOnce, control, HeldVirtual()`destroyed, HeldVirtual()`kernel, HeldVirtual()`written
      ensures !done ==> AtHead() && source == null && virtual == old(virtual) && (settled ==> Normalized(until))
      ensures OnlyMade(old(answers) + [Opened(answer)], answers)
      ensures Decided(answer, old(sourceOpenedOnce), settling, deadline, at, done, settled, until)
      ensures answer == Success ==> done
      ensures answer != Success ==> r == answer && answers == old(answers) + [Opened(answer)]
      ensures r == PermissionDenied ==> answer == r
      ensures sourceOpenedOnce == (answer == Success || old(sourceOpenedOnce))
      ensures at.Some? ==> old(clock) <= at.value <= clock
      ensures DevicesFine() && ControlsFine() && Settled() && Undispatched()
      ensures SourcesKept() && VirtualsKept() && MomentsFine() && Recorded()
      ensures done && r == Success ==> source != null && virtual != null && HeadOk(Snapshot())
      ensures done && r != Success ==> Accounted(Snapshot())
      ensures done && r != Success ==> FailedWith(r) && if source == null then Answered(r) else CutShort(r)
      ensures source == null || fresh(source)
      ensures virtual == old(virtual) || virtual == null || fresh(virtual)
      ensures control == old(control) || control == null || fresh(control)
      ensures if done then served.waits == old(served.waits) else Waited(old(served.waits), served.waits, 100_000)
      ensures patience <= old(patience)
      ensures done && r == Success && old(virtual) != null ==>
        (virtual == old(virtual) <==> ProfileOf(old(virtual).capabilities) == ProfileOf(source.device))
      ensures Precedes(old(ThePast()), ThePast())
    {
      hide SourcesKept, VirtualsKept, ControlsFine, Settled, ObserveAll, SignalsExact, DevicesFine, MomentsFine,
           Undispatched, ProfileOf, Accounted, HeadOk, MomentOk, Waited, Precedes, Chained, Answered, CutShort,
           Snapshot;
      GoingOn();
      settled, until, at := settling, deadline, None;
      ghost var past := ThePast();
      r, done := TryAcquire();
      TimeGoesOn(past, ThePast());
      answer := if done then Success else r;
      if !done {
        done, settled, until, at := WaitOrGiveUp(r, settling, deadline);
        HeadIsAccounted(Snapshot());
      }
    }

    /** One round of acquisition. It is done when a source was found, when one
        can not be had, or when a failed correction ends the session. */
    method AcquisitionRound(settling: bool, deadline: Timespec)
      returns (done: bool, r: Result, settled: bool, until: Timespec, ghost tries: seq<Try>)
      requires AtHead() && source == null && (settling ==> Normalized(deadline))
      modifies this`served, this`answers, this`state, this`control, this`timers, this`trace, this`clock,
        this`controls, this`fatal, this`log, this`patience, this`moments, this`source, this`sources, this`virtual,
        this`virtuals, this`sourceOpenedOnce, control, HeldVirtual()`destroyed, HeldVirtual()`kernel,
        HeldVirtual()`written
      ensures !done ==> AtHead() && source == null && virtual == old(virtual) && (settled ==> Normalized(until))
      ensures DevicesFine() && ControlsFine() && Settled() && Undispatched()
      ensures SourcesKept() && VirtualsKept() && MomentsFine() && Recorded()
      ensures done && r == Success ==> source != null && virtual != null && HeadOk(Snapshot())
      ensures TriesIn(tries, old(answers), answers)
      ensures Round(tries, old(sourceOpenedOnce), settling, deadline, done, settled, until, r)
      ensures tries == [] ==> r == fatal && r != Success
      ensures !done ==> sourceOpenedOnce == old(sourceOpenedOnce) && |tries| == 1 && |answers| == |old(answers)| + 1
      ensures done && r != Success ==> Accounted(Snapshot())
      ensures done && r != Success ==>
        FailedWith(r) && if source == null then fatal == r || Answered(r) else CutShort(r)
      ensures source == null || fresh(source)
      ensures virtual == old(virtual) || virtual == null || fresh(virtual)
      ensures control == old(control) || control == null || fresh(control)
      ensures if done then served.waits == old(served.waits) else Waited(old(served.waits), served.waits, 100_000)
      ensures patience <= old(patience)
      ensures done && r == Success && old(virtual) != null ==>
        (virtual == old(virtual) <==> ProfileOf(old(virtual).capabilities) == ProfileOf(source.device))
      ensures moments == old(moments) + [old(Present())]
      ensures Precedes(old(ThePast()), ThePast())
    {
      hide SourcesKept, VirtualsKept, ControlsFine, Settled, ObserveAll, SignalsExact, DevicesFine, MomentsFine,
           Undispatched, ProfileOf, Accounted, Paired, Faithful, Decided, Precedes, Chained, Answered, CutShort,
           HeadOk, Snapshot, ThePast, ThePlane;
      GoingOn();
      BeginIteration();
      if fatal != Success {
        return true, fatal, settling, deadline, [];
      }
      ghost var answer, at;
      done, r, settled, until, answer, at := AcquireOrWait(settling, deadline);
      tries := [Try(answer, at)];
    }

    /** Acquires the source, however long that takes, and makes the virtual
        device ready for it. */
    method CreateActiveDevices() returns (r: Result, ghost tries: seq<Try>)
      requires AtHead() && source == null
      modifies this`served, this`answers, this`state, this`control, this`timers, this`trace, this`clock,
        this`controls, this`fatal, this`log, this`patience, this`moments, this`source, this`sources, this`virtual,
        this`virtuals, this`sourceOpenedOnce, this`shutdownRequested, control, HeldVirtual()`destroyed,
        HeldVirtual()`kernel, HeldVirtual()`written
      ensures DevicesFine() && ControlsFine() && Settled() && Undispatched()
      ensures SourcesKept() && VirtualsKept() && MomentsFine() && Recorded()
      ensures r == Success ==> HeadOk(Snapshot()) && (if source == null then shutdownRequested else virtual != null)
      ensures TriesIn(tries, old(answers), answers) && Acquisition(tries, old(sourceOpenedOnce), r)
      ensures r != Success ==> Accounted(Snapshot())
      ensures r != Success ==> FailedWith(r) && if source == null then fatal == r || Answered(r) else CutShort(r)
      ensures source == null || fresh(source)
      ensures virtual == old(virtual) || virtual == null || fresh(virtual)
      ensures control == old(control) || control == null || fresh(control)
      ensures patience <= old(patience)
      ensures r == Success && source != null && old(virtual) != null ==>
        (virtual == old(virtual) <==> ProfileOf(old(virtual).capabilities) == ProfileOf(source.device))
      ensures old(moments) <= moments && (source != null || r != Success ==> old(moments) < moments)
      ensures Precedes(old(ThePast()), ThePast())
    {
      hide SourcesKept, VirtualsKept, ControlsFine, Settled, ObserveAll, SignalsExact, DevicesFine, MomentsFine,
           Undispatched, ProfileOf, Accounted, Paired, Faithful, TriesIn, GoesOn, Acquisition, Round, Precedes,
           Chained, Answered, CutShort, FailedWith, Snapshot, ThePast, ThePlane;
      GoingOn();
      tries := [];
      var settling := false;
      var deadline := Timespec(0, 0);
      NoTries(sourceOpenedOnce, deadline, answers);
      while true
        invariant AtHead() && source == null && virtual == old(virtual)
        invariant control == old(control) || control == null || fresh(control)
        invariant patience <= old(patience)
        invariant Precedes(old(ThePast()), ThePast()) && old(moments) <= moments
        invariant settling ==> Normalized(deadline)
        invariant sourceOpenedOnce == old(sourceOpenedOnce)
        invariant TriesIn(tries, old(answers), answers) && |answers| == |old(answers)| + |tries|
        invariant GoesOn(tries, sourceOpenedOnce, settling, deadline)
        decreases patience
      {
        var stop := ShutdownRequested();
        if stop {
          EndOfTries(tries, sourceOpenedOnce, settling, deadline, Success);
          return Success, tries;
        }
        ghost var mid, denied, window := answers, settling, deadline;
        var done;
        ghost var more;
        done, r, settling, deadline, more := AcquisitionRound(settling, deadline);
        RoundOfTries(tries, more, old(sourceOpenedOnce), denied, window, done, settling, deadline, r);
        MoreTries(tries, more, old(answers), mid, answers);
        tries := tries + more;
        if done {
          return;
        }
      }
    }

    /** Reads and forwards one event, or waits for one. */
    method ForwardOrWait() returns (done: bool, r: Result)
      requires AtHead() && source != null && virtual != null && fatal == Success
      modifies this`served, this`answers, this`state, this`control, this`timers, this`trace, this`clock,
        this`controls, this`fatal, this`log, this`patience, control, HeldSource()`view, HeldSource()`consumed,
        HeldVirtual()`kernel, HeldVirtual()`written
      ensures (done <==> r !in {Success, Unavailable}) && (!done ==> AtHead())
      ensures done ==> FailedWith(r) && Accounted(Snapshot())
      ensures r != WriteFailed ==> HeadOk(Snapshot())
      ensures DevicesFine() && ControlsFine() && Settled() && Undispatched()
      ensures SourcesKept() && VirtualsKept() && MomentsFine() && Recorded()
      ensures control == old(control) || control == null || fresh(control)
      ensures if r == Unavailable then Waited(old(served.waits), served.waits, 10_000)
              else served.waits == old(served.waits)
      ensures patience <= old(patience)
      ensures Precedes(old(ThePast()), ThePast())
    {
      hide SourcesKept, VirtualsKept, ControlsFine, Settled, ObserveAll, SignalsExact, DevicesFine, MomentsFine,
           Undispatched, ProfileOf, Accounted, Paired, Faithful, Precedes, Chained, TakenOver, Processed, Since,
           Answered, HeadOk, MomentOk, Snapshot, ThePast, ThePlane;
      GoingOn();
      ghost var past := ThePast();
      r := ProcessEvent();
      if r != WriteFailed {
        HeadIsAccounted(Snapshot());
      }
      ChainGoesOn(moments, past, ThePast());
      done := r != Success && r != Unavailable;
      if r == Unavailable {
        Pause(EVENT_WAIT_USEC);
      }
    }

    /** One round of the event loop. */
    method ForwardRound() returns (done: bool, r: Result)
      requires AtHead() && source != null && virtual != null
      modifies this`served, this`answers, this`state, this`control, this`timers, this`trace, this`clock,
        this`controls, this`fatal, this`log, this`patience, this`moments, control, HeldSource()`view,
        HeldSource()`consumed, HeldVirtual()`kernel, HeldVirtual()`written
      ensures (done <==> r !in {Success, Unavailable}) && (!done ==> AtHead())
      ensures done ==> FailedWith(r) && Accounted(Snapshot())
      ensures r != WriteFailed ==> HeadOk(Snapshot())
      ensures DevicesFine() && ControlsFine() && Settled() && Undispatched()
      ensures SourcesKept() && VirtualsKept() && MomentsFine() && Recorded()
      ensures control == old(control) || control == null || fresh(control)
      ensures if r == Unavailable then Waited(old(served.waits), served.waits, 10_000)
              else served.waits == old(served.waits)
      ensures patience <= old(patience)
      ensures moments == old(moments) + [old(Present())]
      ensures Precedes(old(ThePast()), ThePast())
    {
      hide SourcesKept, VirtualsKept, ControlsFine, Settled, ObserveAll, SignalsExact, DevicesFine, MomentsFine,
           Undispatched, ProfileOf, Accounted, Paired, Faithful, Precedes, Chained, Answered, CutShort, HeadOk,
           Snapshot, ThePast, ThePlane;
      GoingOn();
      BeginIteration();
      if fatal != Success {
        return true, fatal;
      }
      done, r := ForwardOrWait();
    }

    /** The event loop: until a signal, a failure or the loss of the source. */
    method ForwardEvents() returns (r: Result)
      requires AtHead() && source != null && virtual != null
      modifies this`served, this`answers, this`state, this`control, this`timers, this`trace, this`clock,
        this`controls, this`fatal, this`log, this`patience, this`moments, this`shutdownRequested, control,
        HeldSource()`view, HeldSource()`consumed, HeldVirtual()`kernel, HeldVirtual()`written
      ensures if r in {Success, Unavailable} then shutdownRequested else FailedWith(r)
      ensures r != WriteFailed ==> HeadOk(Snapshot())
      ensures DevicesFine() && ControlsFine() && Settled() && Undispatched() && Accounted(Snapshot())
      ensures SourcesKept() && VirtualsKept() && MomentsFine() && Recorded()
      ensures control == old(control) || control == null || fresh(control)
      ensures patience <= old(patience)
      ensures old(moments) <= moments
      ensures Precedes(old(ThePast()), ThePast())
    {
      hide SourcesKept, VirtualsKept, ControlsFine, Settled, ObserveAll, SignalsExact, DevicesFine, MomentsFine,
           Undispatched, ProfileOf, Accounted, Paired, Faithful, Precedes, Chained, Answered, CutShort, FailedWith,
           Snapshot, ThePast, ThePlane;
      GoingOn();
      r := Success;
      while true
        invariant AtHead() && r in {Success, Unavailable}
        invariant control == old(control) || control == null || fresh(control)
        invariant patience <= old(patience)
        invariant Precedes(old(ThePast()), ThePast()) && old(moments) <= moments
        decreases patience
      {
        var stop := ShutdownRequested();
        if stop {
          return;
        }
        var done;
        done, r := ForwardRound();
        if done {
          return;
        }
      }
    }

    /** Announces the loss and releases what the source held down. */
    method NeutralizeAfterLoss() returns (r: Result)
      requires DevicesFine() && ControlsFine() && Settled() && Undispatched() && HeadOk(Snapshot())
      requires source != null && virtual != null
      modifies this`state, this`control, this`timers, this`trace, this`clock, this`log, control,
        HeldVirtual()`kernel, HeldVirtual()`written
      ensures DevicesFine() && ControlsFine() && Settled() && Undispatched() && Accounted(Snapshot())
      ensures r == Success ==> Snapshot() == AfterRelease(old(Snapshot())).(available := false)
      ensures r != Success ==> CutShort(r) && r != Disconnected
      ensures control == old(control) || control == null
      ensures Precedes(old(ThePast()), ThePast())
    {
      hide ControlsKept, PlaneOk, ObserveAll, SignalsExact, ModeOf, ValidDevice, WellFormed, Accounted, HeadOk,
           AfterRelease, Precedes;
      GoingOn();
      ghost var h := Snapshot();
      LossIsAccounted(h);
      SetSourceAvailable(false);
      assert Snapshot() == h.(available := false);
      r := NeutralizeVirtualDevice();
    }

    /** The source is lost: release what it held down, keep the virtual device. */
    method LoseSource() returns (r: Result)
      requires AtHead() && source != null && virtual != null
      modifies this`state, this`control, this`timers, this`trace, this`clock, this`log, this`source, control,
        HeldSource()`closed, HeldVirtual()`kernel, HeldVirtual()`written
      ensures source == null
      ensures r == Success ==> HeadOk(Snapshot())
      ensures r != Success ==> CutShort(r) && r != Disconnected
      ensures DevicesFine() && ControlsFine() && Settled() && Undispatched() && Accounted(Snapshot())
      ensures SourcesKept() && VirtualsKept() && MomentsFine() && Recorded()
      ensures control == old(control) || control == null
      ensures Precedes(old(ThePast()), ThePast())
    {
      hide SourcesKept, VirtualsKept, ControlsFine, PlaneOk, ObserveAll, SignalsExact, MomentsFine, Undispatched,
           ModeOf, ValidDevice, WellFormed, HeadOk, Accounted, AfterRelease, Chained, Precedes;
      GoingOn();
      ghost var h, past := Snapshot(), ThePast();
      r := NeutralizeAfterLoss();
      LossKeepsHead(h);
      AccountedWithout(Snapshot());
      CloseSource();
      ChainGoesOn(moments, past, ThePast());
    }

    /** What every stop leaves, whatever happened. */
    ghost predicate Stopped()
      reads this, source, virtual, control, sources`closed, virtuals`destroyed, controls`destroyed
    {
      && DevicesFine() && ControlsFine() && Settled() && Undispatched()
      && SourcesKept() && VirtualsKept() && MomentsFine() && Recorded() && Accounted(Snapshot())
    }

    /** From one source to the next, or to the end of the run. */
    method SourceRound() returns (done: bool, result: Result)
      requires AtHead() && source == null
      modifies this, control, HeldVirtual()
      ensures Stopped()
      ensures !done ==> AtHead() && source == null && result == Success
      ensures done ==> if result == Success then shutdownRequested else FailedWith(result)
      ensures result == Success ==> HeadOk(Snapshot())
      ensures source == null || fresh(source)
      ensures virtual == old(virtual) || virtual == null || fresh(virtual)
      ensures control == old(control) || control == null || fresh(control)
      ensures patience <= old(patience)
      ensures old(moments) <= moments
      ensures Precedes(old(ThePast()), ThePast())
    {
      hide Acquisition, TriesIn, SourcesKept, VirtualsKept, ControlsFine, Settled, ObserveAll, SignalsExact,
           DevicesFine, MomentsFine, Undispatched, ProfileOf, Accounted, Paired, Faithful, Precedes, Chained,
           Answered, CutShort, FailedWith, MomentOk, PlaneOk, Snapshot, ThePast, ThePlane;
      GoingOn();
      ghost var tries;
      result, tries := CreateActiveDevices();
      var stop := ShutdownRequested();
      if result != Success || stop {
        return true, result;
      }
      done, result := ForwardUntilLoss();
    }

    /** Forwards, and decides what the end of forwarding means. */
    method ForwardUntilLoss() returns (done: bool, result: Result)
      requires AtHead() && source != null && virtual != null
      modifies this`served, this`answers, this`state, this`control, this`timers, this`trace, this`clock,
        this`controls, this`fatal, this`log, this`patience, this`moments, this`source, this`shutdownRequested,
        control, HeldSource(), HeldVirtual()`kernel, HeldVirtual()`written
      ensures Stopped() && (source == null || source == old(source))
      ensures !done ==> AtHead() && source == null && result == Success
      ensures done ==> if result == Success then shutdownRequested else FailedWith(result) && result != Disconnected
      ensures result == Success ==> HeadOk(Snapshot())
      ensures control == old(control) || control == null || fresh(control)
      ensures patience <= old(patience)
      ensures old(moments) <= moments
      ensures Precedes(old(ThePast()), ThePast())
    {
      hide HeadOk, PlaneOk, MomentOk, ControlsKept, SourcesKept, VirtualsKept, ControlsFine, Settled, ObserveAll,
           SignalsExact, DevicesFine, MomentsFine, Undispatched, ProfileOf, Accounted, Paired, Faithful, Precedes,
           Chained, Snapshot, ThePast, ThePlane;
      GoingOn();
      result := ForwardEvents();
      var stop := ShutdownRequested();
      if stop && (result == Success || result == Unavailable) {
        return true, Success;
      }
      if result != Disconnected {
        return true, result;
      }
      result := LoseSource();
      done := result != Success;
    }

    /** The state of a session that has just been created. */
    ghost predicate Unstarted()
      reads this
    {
      && source == null && virtual == null && control == null
      && sources == {} && virtuals == {} && controls == {} && moments == []
      && !state.sourceAvailable && !state.activityWhileRunning && !state.activityWhilePaused
      && !timers.tracking && !timers.runningTimer && !timers.pausedTimer && !timers.retryActive
      && state.paused == startPaused && fatal == Success
      && log == Log({}, [], [], []) && trace == Trace([], [], Some(clock)) && answers == [] && served == Served([], [])
      && clock < CLOCK_LIMIT_SECONDS * NS_PER_SECOND
    }

    constructor (instanceName: string, activityTimeoutMs: Duration, detectionThrottleMs: Duration,
                 runningMotionActivity: bool, pausedMotionActivity: bool, startPaused: bool,
                 clock: nat, patience: nat)
      requires clock < CLOCK_LIMIT_SECONDS * NS_PER_SECOND
      ensures Unstarted() && this.instanceName == instanceName
      ensures this.activityTimeoutMs == activityTimeoutMs && this.detectionThrottleMs == detectionThrottleMs
      ensures this.runningMotionActivity == runningMotionActivity
      ensures this.pausedMotionActivity == pausedMotionActivity && this.startPaused == startPaused
      ensures !sourceOpenedOnce && !shutdownRequested && this.clock == clock && this.patience == patience
    {
      this.instanceName := instanceName;
      this.activityTimeoutMs := activityTimeoutMs;
      this.detectionThrottleMs := detectionThrottleMs;
      this.runningMotionActivity := runningMotionActivity;
      this.pausedMotionActivity := pausedMotionActivity;
      this.startPaused := startPaused;
      this.clock, this.patience := clock, patience;
      source, virtual, control := null, null, null;
      state := NO_VALUES.(paused := startPaused);
      timers := Timers(false, false, Timespec(0, 0), false, Timespec(0, 0), false, Timespec(0, 0));
      fatal, sourceOpenedOnce, shutdownRequested := Success, false, false;
      sources, virtuals, controls, moments := {}, {}, {}, [];
      log, trace, answers := Log({}, [], [], []), Trace([], [], Some(clock)), [];
      served := Served([], []);
    }

    /** The first attempt to create the control. */
    method StartControl() returns (ghost troubled: bool)
      requires Unstarted()
      modifies this`control, this`controls, this`timers, this`clock, this`trace
      ensures AtHead() && (control == null || fresh(control))
      ensures trace.attempts == [old(clock)] && (control == null ==> troubled || !timers.retryActive)
      ensures control == null && ValidName(instanceName) ==> troubled
      ensures control == null && ValidName(instanceName) ==>
        (timers.retryActive <==> trace.reading.Some?) &&
        (timers.retryActive ==> Ns(timers.retryDeadline) == clock + DurationNs(RETRY_MS))
    {
      hide PlaneOk, HeadOk, ObserveAll, SignalsExact, ValidDevice, WellFormed;
      StartHead(Snapshot());
      troubled := ConnectFirst();
    }

    method ConnectFirst() returns (ghost troubled: bool)
      requires Unstarted()
      modifies this`control, this`controls, this`timers, this`clock, this`trace
      ensures Settled() && ControlsFine() && Undispatched() && (control == null || fresh(control))
      ensures trace.attempts == [old(clock)] && (control == null ==> troubled || !timers.retryActive)
      ensures control == null && ValidName(instanceName) ==> troubled
      ensures control == null && ValidName(instanceName) ==>
        (timers.retryActive <==> trace.reading.Some?) &&
        (timers.retryActive ==> Ns(timers.retryDeadline) == clock + DurationNs(RETRY_MS))
    {
      hide PlaneOk, ObserveAll, SignalsExact;
      trace := trace.(attempts := [clock]);
      var created, failure;
      created, failure, troubled := CreateRuntimeControl(state, instanceName);
      control := created;
      controls := if control == null then {} else {control};
      timers := timers.(tracking := control != null);
      StartPlane(ThePlane(), ThePolicy());
      assert ThePlane().(retry := None) == ThePlane();
      if control == null && failure != InvalidIdentifier {
        ScheduleRuntimeControlRetry();
      }
    }

    /** One source after the other, until the run is over. */
    method ServeSources() returns (result: Result)
      requires AtHead() && source == null && virtual == null
      modifies this, control
      ensures Stopped()
      ensures if result == Success then shutdownRequested && HeadOk(Snapshot()) else FailedWith(result)
      ensures source == null || fresh(source)
      ensures virtual == null || fresh(virtual)
      ensures control == old(control) || control == null || fresh(control)
      ensures old(moments) <= moments
      ensures Precedes(old(ThePast()), ThePast())
    {
      hide SourcesKept, VirtualsKept, ControlsFine, Settled, ObserveAll, SignalsExact, DevicesFine, Undispatched,
           Accounted, Paired, Faithful, PlaneOk, MomentOk, ControlsKept, ValidDevice, WellFormed, ModeOf, Precedes,
           Chained, Snapshot, ThePast, ThePlane;
      GoingOn();
      result := Success;
      while true
        invariant AtHead() && source == null && result == Success
        invariant virtual == null || fresh(virtual)
        invariant control == old(control) || control == null || fresh(control)
        invariant Precedes(old(ThePast()), ThePast()) && old(moments) <= moments
        decreases patience
      {
        var stop := ShutdownRequested();
        if stop {
          return;
        }
        var done;
        done, result := SourceRound();
        if done {
          return;
        }
      }
    }

    /** A whole run. Every loop head satisfied the invariant; every device and
        every control is gone; reads and writes are accounted for; activity and
        recovery kept their times; success means a requested shutdown. */
    method Run() returns (result: Result)
      requires Unstarted()
      modifies this
      ensures forall m | m in moments :: MomentOk(m, ThePolicy())
      ensures source == null && virtual == null && control == null
      ensures forall s | s in sources :: s.closed
      ensures forall v | v in virtuals :: v.destroyed
      ensures forall c | c in controls :: c.destroyed
      ensures Accounted(Snapshot())
      ensures Chained(moments, ThePast())
      ensures Segmented(log.history)
      ensures forall m | m in moments :: m.head.written <= Snapshot().written && m.head.consumed <= Snapshot().consumed
      ensures forall m | m in moments && m.head.fatal != Success ::
        fatal != Success && Snapshot().consumed == m.head.consumed
      ensures forall m | m in moments && GivenUp(m.plane) :: trace.attempts == m.plane.attempts
      ensures forall i, j | 0 <= i < j < |moments| && SamePeriod(PastOf(moments[i]), PastOf(moments[j])) ::
        PeriodLaws(moments[i].plane, moments[j].plane, ThePolicy())
      ensures forall i, j | 0 <= i < j < |moments| && !moments[i].plane.connected && moments[j].plane.connected ::
        |moments[i].plane.attempts| < |moments[j].plane.attempts|
      ensures result == Success ==> (ModeOf(log.history) == Broken <==> fatal != Success)
      ensures TimingLaws(trace.marks, ThePolicy().timeoutNs, ThePolicy().throttleNs)
      ensures forall i, j | 0 <= i < j < |trace.attempts| :: trace.attempts[i] + 5_000_000_000 <= trace.attempts[j]
      ensures if result == Success then shutdownRequested else FailedWith(result)
    {
      hide SourcesKept, VirtualsKept, ControlsFine, Settled, ObserveAll, SignalsExact, DevicesFine, Undispatched,
           Accounted, Paired, Faithful, TimingLaws, Spaced, Chained, Precedes, GivenUp, Segmented, SamePeriod,
           PeriodLaws, PlaneOk, MomentOk, ControlsKept, ValidDevice, WellFormed, ModeOf;
      ghost var troubled := StartControl();
      result := ServeSources();
      Finish();
      RunMeaning(moments, ThePolicy(), ThePast(), Snapshot());
    }

    /** Nothing outlives the run. */
    method Finish()
      requires Stopped()
      modifies this`state, this`control, this`timers, this`trace, this`clock, this`source, this`virtual, this`log,
        control, HeldSource()`closed, HeldVirtual()`destroyed
      ensures source == null && virtual == null && control == null
      ensures forall s | s in sources :: s.closed
      ensures forall v | v in virtuals :: v.destroyed
      ensures forall c | c in controls :: c.destroyed
      ensures log.history == old(log.history) && fatal == old(fatal)
      ensures Accounted(Snapshot()) && MomentsFine() && Recorded()
      ensures TimingLaws(trace.marks, ThePolicy().timeoutNs, ThePolicy().throttleNs)
      ensures forall i, j | 0 <= i < j < |trace.attempts| :: trace.attempts[i] + 5_000_000_000 <= trace.attempts[j]
      ensures Precedes(old(ThePast()), ThePast())
    {
      hide TimingLaws, ModeOf, WritesOf, ReadsOf, ObserveAll, SignalsExact, WellFormed, ValidDevice, HeadOk,
           Precedes;
      GoingOn();
      CleanupActiveDevices();
      if control != null {
        DropControl();
      }
    }
  }
}
