/** Activity tracking over time: the marks a session leaves when activity is
    noticed, raised, expires or is cut off, the laws those marks obey, and the
    invariant of the timed control plane. */
module Activity {
  import opened Input
  import opened Deadlines
  import opened RuntimeControls

  const RETRY_MS: nat := 5000

  /** `paused` tells the mode. Eligible: an eligible physical event was timed.
      Raised and Expired: the flag of that mode rose, or fell by its timer.
      Cut: a pause or resume was committed, or tracking was discarded. */
  datatype Mark =
    | Eligible(paused: bool, at: nat)
    | Raised(paused: bool, at: nat)
    | Expired(paused: bool, at: nat)
    | Cut

  /** The flag of a mode, as the marks tell it. */
  function Flag(marks: seq<Mark>, paused: bool): bool {
    if marks == [] then false
    else
      var last := marks[|marks| - 1];
      if last.Cut? then false
      else if last.Raised? && last.paused == paused then true
      else if last.Expired? && last.paused == paused then false
      else Flag(marks[..|marks| - 1], paused)
  }

  lemma FlagSnoc(marks: seq<Mark>, m: Mark, paused: bool)
    ensures Flag(marks + [m], paused) ==
            if m.Cut? then false
            else if m.Raised? && m.paused == paused then true
            else if m.Expired? && m.paused == paused then false
            else Flag(marks, paused)
  {
  }

  ghost predicate Uncut(marks: seq<Mark>, i: int, j: int)
    requires 0 <= i && j <= |marks|
  {
    forall k | i < k < j :: marks[k] != Cut
  }

  /** Without a cut in between, the paused flag rises at most once per throttle. */
  ghost predicate PausedRisesSpaced(marks: seq<Mark>, throttleNs: nat) {
    forall i, j | 0 <= i < j < |marks| && marks[i].Raised? && marks[i].paused && marks[j].Raised? && marks[j].paused
                  && Uncut(marks, i, j) ::
      marks[i].at + throttleNs <= marks[j].at
  }

  /** The running flag falls by timer only a full timeout after every eligible
      event before it. */
  ghost predicate RunningHeld(marks: seq<Mark>, timeoutNs: nat) {
    forall i, j | 0 <= i < j < |marks| && marks[i].Eligible? && !marks[i].paused
                  && marks[j].Expired? && !marks[j].paused ::
      marks[i].at + timeoutNs <= marks[j].at
  }

  /** The paused flag falls by timer only a full throttle after it rose. */
  ghost predicate PausedHeld(marks: seq<Mark>, throttleNs: nat) {
    forall i, j | 0 <= i < j < |marks| && marks[i].Raised? && marks[i].paused
                  && marks[j].Expired? && marks[j].paused ::
      marks[i].at + throttleNs <= marks[j].at
  }

  ghost predicate TimingLaws(marks: seq<Mark>, timeoutNs: nat, throttleNs: nat) {
    PausedRisesSpaced(marks, throttleNs) && RunningHeld(marks, timeoutNs) && PausedHeld(marks, throttleNs)
  }

  /** All times are in the past. */
  ghost predicate MarkedBy(marks: seq<Mark>, clock: nat) {
    forall i | 0 <= i < |marks| && !marks[i].Cut? :: marks[i].at <= clock
  }

  /** Every eligible running event is at least `durationNs` before `limit`. */
  ghost predicate RunningBefore(marks: seq<Mark>, durationNs: nat, limit: int) {
    forall i | 0 <= i < |marks| && marks[i].Eligible? && !marks[i].paused :: marks[i].at + durationNs <= limit
  }

  ghost predicate PausedBefore(marks: seq<Mark>, durationNs: nat, limit: int) {
    forall i | 0 <= i < |marks| && marks[i].Raised? && marks[i].paused :: marks[i].at + durationNs <= limit
  }

  /** As above, for the rises since the last cut only. */
  ghost predicate UncutPausedBefore(marks: seq<Mark>, durationNs: nat, limit: int) {
    forall i | 0 <= i < |marks| && marks[i].Raised? && marks[i].paused && Uncut(marks, i, |marks|) ::
      marks[i].at + durationNs <= limit
  }

  /** The durations a session was given, in nanoseconds. */
  datatype Policy = Policy(timeoutNs: nat, throttleNs: nat)

  /** The timed part of a session. `running` and `paused` hold the deadline of
      an active timer. */
  datatype Plane = Plane(
    state: RuntimeState,
    connected: bool,
    tracking: bool,
    running: Option<Timespec>,
    paused: Option<Timespec>,
    retry: Option<Timespec>,
    clock: nat,
    marks: seq<Mark>,
    attempts: seq<nat>)

  /** Flags equal timers, a timer belongs to the current mode, and timers run
      only while activity is tracked. */
  ghost predicate FlagsAreTimers(p: Plane) {
    && p.state.activityWhileRunning == p.running.Some?
    && p.state.activityWhilePaused == p.paused.Some?
    && (p.running.Some? ==> !p.state.paused && p.tracking)
    && (p.paused.Some? ==> p.state.paused && p.tracking)
    && p.state.activityWhileRunning == Flag(p.marks, false)
    && p.state.activityWhilePaused == Flag(p.marks, true)
  }

  ghost predicate DeadlineOk(deadline: Option<Timespec>, clock: nat) {
    deadline.Some? ==>
      Normalized(deadline.value) && Ns(deadline.value) <= clock + DurationNs(UINT32_LIMIT)
  }

  ghost predicate MarksOk(p: Plane, policy: Policy) {
    && TimingLaws(p.marks, policy.timeoutNs, policy.throttleNs)
    && MarkedBy(p.marks, p.clock)
    && (p.running.Some? ==> RunningBefore(p.marks, policy.timeoutNs, Ns(p.running.value)))
    && (if p.paused.Some?
        then PausedBefore(p.marks, policy.throttleNs, Ns(p.paused.value))
        else UncutPausedBefore(p.marks, policy.throttleNs, p.clock))
  }

  /** Attempts to create the control are a full retry interval apart. */
  ghost predicate Spaced(attempts: seq<nat>) {
    forall i, j | 0 <= i < j < |attempts| :: attempts[i] + DurationNs(RETRY_MS) <= attempts[j]
  }

  ghost predicate AttemptsBefore(attempts: seq<nat>, durationNs: nat, limit: int) {
    forall i | 0 <= i < |attempts| :: attempts[i] + durationNs <= limit
  }

  ghost predicate RetriesOk(p: Plane) {
    && (p.retry.Some? ==> !p.connected && !p.tracking)
    && Spaced(p.attempts)
    && AttemptsBefore(p.attempts, 0, p.clock)
    && (p.retry.Some? ==> AttemptsBefore(p.attempts, DurationNs(RETRY_MS), Ns(p.retry.value)))
  }

  /** The invariant of the control plane. Losing the control is noticed a
      little later, so tracking may outlive it until then. */
  ghost predicate PlaneOk(p: Plane, policy: Policy) {
    && p.clock < CLOCK_LIMIT_SECONDS * NS_PER_SECOND
    && FlagsAreTimers(p)
    && (policy.timeoutNs == 0 ==> p.running.None?) && (policy.throttleNs == 0 ==> p.paused.None?)
    && DeadlineOk(p.running, p.clock) && DeadlineOk(p.paused, p.clock) && DeadlineOk(p.retry, p.clock)
    && MarksOk(p, policy)
    && RetriesOk(p)
  }

  /** The invariant once a loss has been noticed: tracking is on exactly while
      there is a control. */
  ghost predicate PlaneSettled(p: Plane, policy: Policy) {
    PlaneOk(p, policy) && p.tracking == p.connected
  }

  /** Without a control, and without a retry to bring one back. */
  predicate GivenUp(p: Plane) {
    !p.connected && !p.tracking && p.retry.None?
  }

  /** Marks and attempts only grow, no control appears without an attempt, and a
      control that was given up stays so: there is no further attempt. */
  ghost predicate PlaneGoesOn(a: Plane, b: Plane) {
    && a.clock <= b.clock
    && a.marks <= b.marks
    && a.attempts <= b.attempts
    && (!a.connected && b.connected ==> |a.attempts| < |b.attempts|)
    && (GivenUp(a) ==> GivenUp(b) && b.attempts == a.attempts)
  }

  /** Nothing was cut off from `marks` on to `later`. */
  ghost predicate NoCut(marks: seq<Mark>, later: seq<Mark>) {
    forall k | |marks| <= k < |later| :: later[k] != Cut
  }

  /** Without a cut a flag falls by its timer only. */
  lemma {:induction false} FlagFalls(marks: seq<Mark>, later: seq<Mark>, paused: bool) returns (k: nat)
    requires marks <= later && NoCut(marks, later) && Flag(marks, paused) && !Flag(later, paused)
    ensures |marks| <= k < |later| && later[k].Expired? && later[k].paused == paused
    decreases |later|
  {
    assert later[..|later|] == later && marks == later[..|marks|];
    var rest := later[..|later| - 1];
    k := |rest|;
    if Flag(rest, paused) {
      FlagSnoc(rest, later[k], paused);
      assert later == rest + [later[k]];
    } else {
      k := FlagFalls(marks, rest, paused);
    }
  }

  /** What holds within one uninterrupted period from `a` to `b`: an indication
      that was up and is down again was held for its whole time after every
      event that raised or extended it, and the paused one rose at most once per
      throttle. */
  ghost predicate PeriodLaws(a: Plane, b: Plane, policy: Policy) {
    && (a.state.activityWhileRunning && !b.state.activityWhileRunning ==>
          RunningBefore(a.marks, policy.timeoutNs, b.clock))
    && (a.state.activityWhilePaused && !b.state.activityWhilePaused ==>
          PausedBefore(a.marks, policy.throttleNs, b.clock))
    && forall i, j | |a.marks| <= i < j < |b.marks| && b.marks[i].Raised? && b.marks[i].paused
                     && b.marks[j].Raised? && b.marks[j].paused ::
         b.marks[i].at + policy.throttleNs <= b.marks[j].at
  }

  lemma UncutPeriodLaws(a: Plane, b: Plane, policy: Policy)
    requires PlaneOk(a, policy) && PlaneOk(b, policy) && a.marks <= b.marks && NoCut(a.marks, b.marks)
    ensures PeriodLaws(a, b, policy)
  {
    hide DeadlineOk, RetriesOk, Flag;
    if a.state.activityWhileRunning && !b.state.activityWhileRunning {
      var k := FlagFalls(a.marks, b.marks, false);
      assert forall i | 0 <= i < |a.marks| :: a.marks[i] == b.marks[i];
      assert b.marks[k].at <= b.clock;
    }
    if a.state.activityWhilePaused && !b.state.activityWhilePaused {
      var k := FlagFalls(a.marks, b.marks, true);
      assert forall i | 0 <= i < |a.marks| :: a.marks[i] == b.marks[i];
      assert b.marks[k].at <= b.clock;
    }
    assert forall i, j | |a.marks| <= i < j < |b.marks| :: Uncut(b.marks, i, j);
  }

  /** The mode-scoped flags exclude each other. */
  lemma FlagsExclusive(p: Plane, policy: Policy)
    requires PlaneOk(p, policy)
    ensures !(p.state.activityWhileRunning && p.state.activityWhilePaused)
    ensures p.state.activityWhileRunning || p.state.activityWhilePaused ==> p.tracking
    ensures p.state.activityWhileRunning ==> !p.state.paused
    ensures p.state.activityWhilePaused ==> p.state.paused
  {
  }

  // ----- How the plane moves -----

  /** A session that has just started: one attempt, and no activity. */
  ghost predicate Started(p: Plane) {
    && p.running.None? && p.paused.None? && p.retry.None? && p.tracking == p.connected
    && !p.state.activityWhileRunning && !p.state.activityWhilePaused
    && p.marks == [] && p.attempts == [p.clock] && p.clock < CLOCK_LIMIT_SECONDS * NS_PER_SECOND
  }

  /** After the first attempt to create the control. */
  lemma StartPlane(p: Plane, policy: Policy)
    requires Started(p)
    ensures PlaneSettled(p, policy)
  {
  }

  lemma ClockAdvances(p: Plane, policy: Policy, t: nat)
    requires PlaneOk(p, policy) && p.clock <= t < CLOCK_LIMIT_SECONDS * NS_PER_SECOND
    ensures PlaneOk(p.(clock := t), policy)
  {
  }

  /** The same with an outdated retry. */
  lemma PlaneGoesOnInTime(p: Plane, policy: Policy, t: nat)
    requires p.clock <= t < CLOCK_LIMIT_SECONDS * NS_PER_SECOND
    ensures PlaneOk(p, policy) ==> PlaneOk(p.(clock := t), policy)
    ensures PlaneOk(p.(retry := None), policy) ==> PlaneOk(p.(clock := t).(retry := None), policy)
  {
    hide PlaneOk;
    var q := p.(retry := None);
    if PlaneOk(p, policy) {
      ClockAdvances(p, policy, t);
    }
    if PlaneOk(q, policy) {
      ClockAdvances(q, policy, t);
      assert q.(clock := t) == p.(clock := t).(retry := None);
    }
  }

  lemma DisconnectKeepsPlane(p: Plane, policy: Policy, connected: bool)
    requires PlaneOk(p, policy) && (connected ==> p.connected)
    ensures PlaneOk(p.(connected := connected), policy)
  {
  }

  /** A control appears: tracking starts, with both flags down. */
  lemma ConnectKeepsPlane(p: Plane, policy: Policy)
    requires PlaneOk(p, policy) && p.retry.None?
    ensures PlaneOk(p.(connected := true, tracking := true), policy)
    ensures !p.tracking ==> !p.state.activityWhileRunning && !p.state.activityWhilePaused
  {
  }

  lemma RetryMeansLost(p: Plane, policy: Policy)
    requires PlaneOk(p, policy)
    ensures p.retry.Some? ==> !p.connected && !p.tracking
  {
  }

  lemma IdleTimers(p: Plane, policy: Policy)
    requires PlaneOk(p, policy) && !p.state.activityWhileRunning && !p.state.activityWhilePaused
    ensures p.running.None? && p.paused.None?
  {
  }

  lemma RetryDropped(p: Plane, policy: Policy)
    requires PlaneOk(p, policy)
    ensures PlaneOk(p.(retry := None), policy)
  {
  }

  lemma AvailabilityKeepsPlane(p: Plane, policy: Policy, available: bool)
    requires PlaneOk(p, policy)
    ensures PlaneOk(p.(state := p.state.(sourceAvailable := available)), policy)
  {
  }

  /** A committed pause or resume, or a discarded tracking. */
  function AfterCut(p: Plane): Plane {
    p.(state := p.state.(activityWhileRunning := false, activityWhilePaused := false),
       running := None, paused := None, marks := p.marks + [Cut])
  }

  lemma CutKeepsPlane(p: Plane, policy: Policy)
    requires PlaneOk(p, policy)
    ensures PlaneOk(AfterCut(p), policy)
    ensures forall b: bool :: PlaneOk(AfterCut(p).(state := AfterCut(p).state.(paused := b)), policy)
  {
    FlagSnoc(p.marks, Cut, false);
    FlagSnoc(p.marks, Cut, true);
    var marks := AfterCut(p).marks;
    assert TimingLaws(marks, policy.timeoutNs, policy.throttleNs) by {
      UncutPrefix(p.marks, Cut);
    }
    assert marks[|marks| - 1] == Cut;
    assert forall i | 0 <= i < |marks| - 1 :: !Uncut(marks, i, |marks|);
  }

  lemma UncutPrefix(marks: seq<Mark>, m: Mark)
    ensures forall i, j | 0 <= i < j <= |marks| :: Uncut(marks + [m], i, j) <==> Uncut(marks, i, j)
  {
    forall i, j | 0 <= i < j <= |marks| ensures Uncut(marks + [m], i, j) <==> Uncut(marks, i, j) {
      assert forall k | i < k < j :: (marks + [m])[k] == marks[k];
    }
  }

  /** A mark at the present time keeps what earlier marks established. */
  lemma MarkNow(marks: seq<Mark>, m: Mark, clock: nat)
    requires MarkedBy(marks, clock) && !m.Cut? && m.at == clock
    ensures MarkedBy(marks + [m], clock)
    ensures forall i, j | 0 <= i < j <= |marks| :: Uncut(marks + [m], i, j) <==> Uncut(marks, i, j)
    ensures forall i | 0 <= i < |marks| :: Uncut(marks + [m], i, |marks| + 1) <==> Uncut(marks, i, |marks|)
    ensures forall i | 0 <= i < |marks| :: (marks + [m])[i] == marks[i]
    ensures (marks + [m])[|marks|] == m
    ensures forall b: bool :: Flag(marks + [m], b) ==
              if m.Raised? && m.paused == b then true
              else if m.Expired? && m.paused == b then false
              else Flag(marks, b)
  {
    UncutPrefix(marks, m);
    FlagSnoc(marks, m, false);
    FlagSnoc(marks, m, true);
    forall i | 0 <= i < |marks| ensures Uncut(marks + [m], i, |marks| + 1) <==> Uncut(marks, i, |marks|) {
      assert (marks + [m])[|marks|] != Cut;
      assert forall k | i < k < |marks| :: (marks + [m])[k] == marks[k];
    }
  }

  function Timed(p: Plane, m: Mark): Plane {
    p.(marks := p.marks + [m])
  }

  lemma MarkNowKeepsMarks(p: Plane, policy: Policy, m: Mark)
    requires MarksOk(p, policy) && !m.Cut? && m.at == p.clock && !m.Expired? && !(m.Raised? && m.paused)
    ensures TimingLaws(p.marks + [m], policy.timeoutNs, policy.throttleNs)
    ensures MarkedBy(p.marks + [m], p.clock)
    ensures RunningBefore(p.marks + [m], policy.timeoutNs, p.clock + policy.timeoutNs)
    ensures if p.paused.Some? then PausedBefore(p.marks + [m], policy.throttleNs, Ns(p.paused.value))
            else UncutPausedBefore(p.marks + [m], policy.throttleNs, p.clock)
  {
    MarkNow(p.marks, m, p.clock);
  }

  /** Noting an eligible event disturbs nothing, provided a running hold lasts
      a full timeout from now. */
  lemma EligibleKeepsPlane(p: Plane, policy: Policy)
    requires PlaneOk(p, policy)
    requires p.running.Some? ==> p.clock + policy.timeoutNs <= Ns(p.running.value)
    ensures PlaneOk(Timed(p, Eligible(p.state.paused, p.clock)), policy)
    ensures p.marks <= Timed(p, Eligible(p.state.paused, p.clock)).marks
    ensures NoCut(p.marks, Timed(p, Eligible(p.state.paused, p.clock)).marks)
  {
    hide TimingLaws, MarkedBy, PausedBefore, UncutPausedBefore, Flag, Spaced, AttemptsBefore, DeadlineOk;
    var m := Eligible(p.state.paused, p.clock);
    MarkNowKeepsMarks(p, policy, m);
    FlagSnoc(p.marks, m, false);
    FlagSnoc(p.marks, m, true);
  }

  /** A lost control is noticed, with the given answer of the clock: activity is
      forgotten, and a retry is due a full interval later, or never. */
  function AfterLoss(p: Plane, reading: Option<nat>): Plane {
    AfterCut(p).(
      tracking := false,
      retry := if reading.Some? then Some(FromNs(reading.value + DurationNs(RETRY_MS))) else None)
  }

  /** A loss leaves a sound plane, and is given up exactly when the clock could
      not be read. */
  lemma LossGivesUpIff(p: Plane, policy: Policy, reading: Option<nat>)
    requires PlaneOk(p, policy) && !p.connected && p.tracking && (reading.Some? ==> reading.value == p.clock)
    ensures PlaneSettled(AfterLoss(p, reading), policy)
    ensures GivenUp(AfterLoss(p, reading)) <==> reading.None?
  {
    hide TimingLaws, MarkedBy, Flag;
    CutKeepsPlane(p, policy);
    var q := AfterCut(p).(tracking := false);
    assert PlaneOk(q, policy);
    if reading.Some? {
      RetryKeepsPlane(q, policy, FromNs(p.clock + DurationNs(RETRY_MS)));
    }
  }

  /** So a loss may be final at any time: a session starts with a control, time
      passes, the control goes, and the clock can not be read. */
  lemma LossMayBeFinal(policy: Policy, start: nat, t: nat)
    requires start <= t < CLOCK_LIMIT_SECONDS * NS_PER_SECOND
    ensures exists p: Plane ::
      && Started(p) && p.connected && p.clock == start && PlaneSettled(p, policy)
      && PlaneOk(p.(clock := t), policy)
      && PlaneOk(p.(clock := t).(connected := false), policy)
      && PlaneSettled(AfterLoss(p.(clock := t).(connected := false), None), policy)
      && GivenUp(AfterLoss(p.(clock := t).(connected := false), None))
  {
    hide PlaneOk;
    var p := Plane(RuntimeState(false, false, false, false), true, true, None, None, None, start, [], [start]);
    assert Started(p);
    StartPlane(p, policy);
    ClockAdvances(p, policy, t);
    DisconnectKeepsPlane(p.(clock := t), policy, false);
    LossGivesUpIff(p.(clock := t).(connected := false), policy, None);
  }

  /** An eligible event while running raises the flag, if it is down, and
      restarts the hold. */
  function AfterRunningRestart(p: Plane, deadline: Timespec): Plane {
    (if p.running.Some? then p else Timed(p, Raised(false, p.clock))).(
      running := Some(deadline), state := p.state.(activityWhileRunning := true))
  }

  function AfterRunningActivity(p: Plane, deadline: Timespec): Plane {
    Timed(AfterRunningRestart(p, deadline), Eligible(false, p.clock))
  }

  lemma RunningRestartKeepsPlane(p: Plane, policy: Policy, deadline: Timespec)
    requires PlaneOk(p, policy) && !p.state.paused && p.tracking && policy.timeoutNs > 0
    requires DeadlineOk(Some(deadline), p.clock) && Ns(deadline) == p.clock + policy.timeoutNs
    ensures PlaneOk(AfterRunningRestart(p, deadline), policy)
  {
    hide TimingLaws, PausedBefore, UncutPausedBefore, Flag, Spaced, AttemptsBefore;
    if p.running.None? {
      MarkNowKeepsMarks(p, policy, Raised(false, p.clock));
      FlagSnoc(p.marks, Raised(false, p.clock), false);
      FlagSnoc(p.marks, Raised(false, p.clock), true);
    }
  }

  lemma RunningActivityKeepsPlane(p: Plane, policy: Policy, deadline: Timespec)
    requires PlaneOk(p, policy) && !p.state.paused && p.tracking && policy.timeoutNs > 0
    requires DeadlineOk(Some(deadline), p.clock) && Ns(deadline) == p.clock + policy.timeoutNs
    ensures PlaneOk(AfterRunningActivity(p, deadline), policy)
    ensures p.marks <= AfterRunningActivity(p, deadline).marks
    ensures NoCut(p.marks, AfterRunningActivity(p, deadline).marks)
  {
    hide TimingLaws, MarkedBy, Flag, RetriesOk, DeadlineOk, MarksOk, FlagsAreTimers;
    RunningRestartKeepsPlane(p, policy, deadline);
    EligibleKeepsPlane(AfterRunningRestart(p, deadline), policy);
  }

  /** An eligible event while paused, with no throttle running, raises the flag
      and starts the throttle. */
  function AfterPausedActivity(p: Plane, deadline: Timespec): Plane {
    Timed(Timed(p, Eligible(true, p.clock)), Raised(true, p.clock)).(
      paused := Some(deadline), state := p.state.(activityWhilePaused := true))
  }

  /** A rise of the paused flag, a full throttle after any other since the last
      cut. */
  lemma PausedRiseKeepsMarks(marks: seq<Mark>, policy: Policy, clock: nat)
    requires TimingLaws(marks, policy.timeoutNs, policy.throttleNs) && MarkedBy(marks, clock)
    requires UncutPausedBefore(marks, policy.throttleNs, clock)
    ensures var after := marks + [Raised(true, clock)];
            && TimingLaws(after, policy.timeoutNs, policy.throttleNs)
            && MarkedBy(after, clock)
            && PausedBefore(after, policy.throttleNs, clock + policy.throttleNs)
  {
    MarkNow(marks, Raised(true, clock), clock);
  }

  lemma PausedActivityKeepsPlane(p: Plane, policy: Policy, deadline: Timespec)
    requires PlaneOk(p, policy) && p.state.paused && p.tracking && p.paused.None? && policy.throttleNs > 0
    requires DeadlineOk(Some(deadline), p.clock) && Ns(deadline) == p.clock + policy.throttleNs
    ensures PlaneOk(AfterPausedActivity(p, deadline), policy)
    ensures p.marks <= AfterPausedActivity(p, deadline).marks && NoCut(p.marks, AfterPausedActivity(p, deadline).marks)
  {
    hide TimingLaws, MarkedBy, PausedBefore, UncutPausedBefore, Flag, Spaced, AttemptsBefore, DeadlineOk;
    EligibleKeepsPlane(p, policy);
    var marks := p.marks + [Eligible(true, p.clock)];
    PausedRiseKeepsMarks(marks, policy, p.clock);
    FlagSnoc(marks, Raised(true, p.clock), false);
    FlagSnoc(marks, Raised(true, p.clock), true);
  }

  function AfterRunningExpiry(p: Plane): Plane {
    Timed(p, Expired(false, p.clock)).(running := None, state := p.state.(activityWhileRunning := false))
  }

  lemma RunningExpiryKeepsPlane(p: Plane, policy: Policy)
    requires PlaneOk(p, policy) && p.running.Some? && Ns(p.running.value) <= p.clock
    ensures PlaneOk(AfterRunningExpiry(p), policy)
    ensures p.marks <= AfterRunningExpiry(p).marks && NoCut(p.marks, AfterRunningExpiry(p).marks)
  {
    MarkNow(p.marks, Expired(false, p.clock), p.clock);
  }

  function AfterPausedExpiry(p: Plane): Plane {
    Timed(p, Expired(true, p.clock)).(paused := None, state := p.state.(activityWhilePaused := false))
  }

  lemma PausedExpiryKeepsPlane(p: Plane, policy: Policy)
    requires PlaneOk(p, policy) && p.paused.Some? && Ns(p.paused.value) <= p.clock
    ensures PlaneOk(AfterPausedExpiry(p), policy)
    ensures p.marks <= AfterPausedExpiry(p).marks && NoCut(p.marks, AfterPausedExpiry(p).marks)
  {
    MarkNow(p.marks, Expired(true, p.clock), p.clock);
  }

  /** Scheduling a retry a full interval from now. */
  lemma RetryKeepsPlane(p: Plane, policy: Policy, deadline: Timespec)
    requires PlaneOk(p, policy) && !p.connected && !p.tracking
    requires DeadlineOk(Some(deadline), p.clock) && Ns(deadline) == p.clock + DurationNs(RETRY_MS)
    ensures PlaneOk(p.(retry := Some(deadline)), policy)
  {
  }

  /** A due retry makes one more attempt. */
  lemma AttemptKeepsPlane(p: Plane, policy: Policy)
    requires PlaneOk(p, policy) && p.retry.Some? && Ns(p.retry.value) <= p.clock
    ensures PlaneOk(p.(retry := None, attempts := p.attempts + [p.clock]), policy)
  {
  }
}
