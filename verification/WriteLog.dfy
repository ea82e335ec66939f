/** The history of a session as steps, the writes and reads it accounts for,
    and the order in which steps may follow each other. */
module WriteLog {
  import opened Input
  import opened Evdev
  import opened Capture
  import opened Neutralization
  import opened SourceDevices

  /** A synchronization with a source, or a neutralization of a virtual device. */
  datatype Correction = Synchronizing(source: EvdevNode) | Releasing(virtual: EvdevNode)

  function BatchOf(c: Correction): seq<Event> {
    match c
    case Synchronizing(n) => SyncBatch(n.device, n.state)
    case Releasing(n) => NeutralBatch(n.device, n.state)
  }

  datatype Step =
    | Created                              // a virtual device without a predecessor
    | Synchronized(source: EvdevNode)      // a full batch, its boundary, the source still there
    | Forwarded(e: Event)                  // read and written
    | Suppressed(e: Event)                 // read while paused
    | Lost(e: Event)                       // read, but the write failed
    | Released(virtual: EvdevNode)         // a complete neutralization
    | Interrupted(c: Correction, part: seq<Event>) // a correction that failed after writing `part`
    | Turned(paused: bool)                 // a committed pause or resume

  /** Silent: nothing is forwarded. Forwarding: a segment is open. Broken: a
      correction or a write failed. Rejected: the steps are out of order. */
  datatype Mode = Silent | Forwarding | Broken | Rejected

  function Next(mode: Mode, step: Step): Mode {
    match step
    case Created => if mode == Silent then Silent else Rejected
    case Synchronized(_) =>
      if mode == Silent then Forwarding else if mode == Broken then Broken else Rejected
    case Forwarded(_) => if mode == Forwarding then Forwarding else Rejected
    case Suppressed(_) => if mode == Silent then Silent else Rejected
    case Lost(_) => if mode == Forwarding then Broken else Rejected
    case Released(n) =>
      if mode == Forwarding then Silent
      else if mode == Silent && NeutralBatch(n.device, n.state) == [] then Silent
      else if mode == Broken then Broken
      else Rejected
    case Interrupted(c, part) => if mode == Rejected || !(part <= BatchOf(c)) then Rejected else Broken
    case Turned(paused) => if paused && mode == Forwarding then Rejected else mode
  }

  function ModeOf(history: seq<Step>): Mode {
    if history == [] then Silent
    else Next(ModeOf(history[..|history| - 1]), history[|history| - 1])
  }

  function WritesOfStep(step: Step): seq<Event> {
    match step
    case Created => []
    case Synchronized(n) => SyncBatch(n.device, n.state)
    case Forwarded(e) => [e]
    case Suppressed(_) => []
    case Lost(_) => []
    case Released(n) => NeutralBatch(n.device, n.state)
    case Interrupted(_, part) => part
    case Turned(_) => []
  }

  function ReadsOfStep(step: Step): seq<Event> {
    if step.Forwarded? || step.Suppressed? || step.Lost? then [step.e] else []
  }

  function WritesOf(history: seq<Step>): seq<Event> {
    if history == [] then []
    else WritesOf(history[..|history| - 1]) + WritesOfStep(history[|history| - 1])
  }

  function ReadsOf(history: seq<Step>): seq<Event> {
    if history == [] then []
    else ReadsOf(history[..|history| - 1]) + ReadsOfStep(history[|history| - 1])
  }

  /** Whether the session is paused after the steps, if it started so. */
  function PausedAfter(history: seq<Step>, start: bool): bool {
    if history == [] then start
    else
      var last := history[|history| - 1];
      if last.Turned? then last.paused else PausedAfter(history[..|history| - 1], start)
  }

  /** Every read was suppressed if the session was paused then, and forwarded,
      or lost on the way, if it was not; and every turn was one. */
  ghost predicate ReadsByMode(history: seq<Step>, start: bool) {
    history == [] ||
    var rest, last := history[..|history| - 1], history[|history| - 1];
    && ReadsByMode(rest, start)
    && (last.Suppressed? ==> PausedAfter(rest, start))
    && (last.Forwarded? || last.Lost? ==> !PausedAfter(rest, start))
    && (last.Turned? ==> last.paused != PausedAfter(rest, start))
  }

  lemma SnocByMode(history: seq<Step>, step: Step, start: bool)
    ensures PausedAfter(history + [step], start) == if step.Turned? then step.paused else PausedAfter(history, start)
    ensures ReadsByMode(history + [step], start) <==>
            && ReadsByMode(history, start)
            && (step.Suppressed? ==> PausedAfter(history, start))
            && (step.Forwarded? || step.Lost? ==> !PausedAfter(history, start))
            && (step.Turned? ==> step.paused != PausedAfter(history, start))
  {
    assert (history + [step])[..|history|] == history;
  }

  lemma Snoc(history: seq<Step>, step: Step)
    ensures ModeOf(history + [step]) == Next(ModeOf(history), step)
    ensures WritesOf(history + [step]) == WritesOf(history) + WritesOfStep(step)
    ensures ReadsOf(history + [step]) == ReadsOf(history) + ReadsOfStep(step)
  {
  }

  // ----- Segments -----

  /** One stretch of forwarding: it opens with a full synchronization, carries
      the events read, and is closed by a neutralization. */
  datatype Segment = Segment(source: EvdevNode, events: seq<Event>, closing: Option<EvdevNode>)

  function Content(s: Segment): seq<Event> {
    SyncBatch(s.source.device, s.source.state) + s.events +
    if s.closing.Some? then NeutralBatch(s.closing.value.device, s.closing.value.state) else []
  }

  function Contents(segments: seq<Segment>): seq<Event> {
    if segments == [] then []
    else Contents(segments[..|segments| - 1]) + Content(segments[|segments| - 1])
  }

  function WithEvent(s: Segment, e: Event): Segment {
    s.(events := s.events + [e])
  }

  function WithClosing(s: Segment, n: EvdevNode): Segment {
    s.(closing := Some(n))
  }

  /** How a step extends the segments so far. */
  function Extend(segments: seq<Segment>, mode: Mode, step: Step): seq<Segment> {
    if step.Synchronized? && mode == Silent then segments + [Segment(step.source, [], None)]
    else if segments == [] || mode != Forwarding then segments
    else
      var last := segments[|segments| - 1];
      if step.Forwarded? then segments[|segments| - 1 := WithEvent(last, step.e)]
      else if step.Released? then segments[|segments| - 1 := WithClosing(last, step.virtual)]
      else segments
  }

  function SegmentsOf(history: seq<Step>): seq<Segment> {
    if history == [] then []
    else
      var rest := history[..|history| - 1];
      Extend(SegmentsOf(rest), ModeOf(rest), history[|history| - 1])
  }

  /** Every segment but an open last one is closed. */
  ghost predicate OpenLast(segments: seq<Segment>, mode: Mode) {
    && (mode == Forwarding ==> segments != [])
    && forall i | 0 <= i < |segments| ::
         segments[i].closing.None? <==> mode == Forwarding && i == |segments| - 1
  }

  lemma ContentsSnoc(segments: seq<Segment>, last: Segment)
    ensures Contents(segments + [last]) == Contents(segments) + Content(last)
  {
    hide Content;
    assert (segments + [last])[..|segments|] == segments;
  }

  lemma ContentGrows(s: Segment, step: Step)
    requires s.closing.None?
    ensures step.Forwarded? ==> Content(WithEvent(s, step.e)) == Content(s) + WritesOfStep(step)
    ensures step.Released? ==> Content(WithClosing(s, step.virtual)) == Content(s) + WritesOfStep(step)
  {
    hide SyncBatch, NeutralBatch;
    var batch := SyncBatch(s.source.device, s.source.state);
    assert Content(s) == batch + s.events;
    if step.Forwarded? {
      assert batch + (s.events + [step.e]) + [] == batch + s.events + [step.e];
    }
  }

  lemma OpeningContent(n: EvdevNode)
    ensures Content(Segment(n, [], None)) == WritesOfStep(Synchronized(n))
  {
    hide SyncBatch, NeutralBatch;
  }

  lemma ExtendSilent(segments: seq<Segment>, step: Step)
    requires Next(Silent, step) in {Silent, Forwarding} && OpenLast(segments, Silent)
    ensures Contents(Extend(segments, Silent, step)) == Contents(segments) + WritesOfStep(step)
    ensures OpenLast(Extend(segments, Silent, step), Next(Silent, step))
  {
    hide SyncBatch, NeutralBatch, Content, Contents;
    if step.Synchronized? {
      ContentsSnoc(segments, Segment(step.source, [], None));
      OpeningContent(step.source);
    }
  }

  lemma ExtendForwarding(segments: seq<Segment>, step: Step)
    requires Next(Forwarding, step) in {Silent, Forwarding} && OpenLast(segments, Forwarding)
    ensures Contents(Extend(segments, Forwarding, step)) == Contents(segments) + WritesOfStep(step)
    ensures OpenLast(Extend(segments, Forwarding, step), Next(Forwarding, step))
  {
    hide SyncBatch, NeutralBatch, Content, Contents;
    if !step.Turned? {
      var rest, last := segments[..|segments| - 1], segments[|segments| - 1];
      var changed := if step.Forwarded? then WithEvent(last, step.e) else WithClosing(last, step.virtual);
      assert segments == rest + [last] && Extend(segments, Forwarding, step) == rest + [changed];
      ContentGrows(last, step);
      ContentsSnoc(rest, last);
      ContentsSnoc(rest, changed);
    }
  }

  /** The whole write log of a session in which nothing failed is a sequence of
      segments; every segment but an open last one is closed. */
  lemma {:induction false} WritesAreSegments(history: seq<Step>)
    requires ModeOf(history) in {Silent, Forwarding}
    ensures WritesOf(history) == Contents(SegmentsOf(history))
    ensures OpenLast(SegmentsOf(history), ModeOf(history))
    decreases |history|
  {
    if history != [] {
      var rest, step := history[..|history| - 1], history[|history| - 1];
      WritesAreSegments(rest);
      if ModeOf(rest) == Silent {
        ExtendSilent(SegmentsOf(rest), step);
      } else {
        ExtendForwarding(SegmentsOf(rest), step);
      }
    }
  }

  /** The events inside the segments. */
  function EventsOf(segments: seq<Segment>): seq<Event> {
    if segments == [] then []
    else EventsOf(segments[..|segments| - 1]) + segments[|segments| - 1].events
  }

  /** The events that were read while forwarding, in the order of reading. */
  function ForwardedOf(history: seq<Step>): seq<Event> {
    if history == [] then []
    else
      var last := history[|history| - 1];
      ForwardedOf(history[..|history| - 1]) + if last.Forwarded? then [last.e] else []
  }

  lemma EventsSnoc(segments: seq<Segment>, last: Segment)
    ensures EventsOf(segments + [last]) == EventsOf(segments) + last.events
  {
    assert (segments + [last])[..|segments|] == segments;
  }

  lemma ExtendEvents(segments: seq<Segment>, mode: Mode, step: Step)
    requires mode in {Silent, Forwarding} && Next(mode, step) in {Silent, Forwarding} && OpenLast(segments, mode)
    ensures EventsOf(Extend(segments, mode, step)) ==
            EventsOf(segments) + if step.Forwarded? then [step.e] else []
  {
    hide EventsOf, SyncBatch, NeutralBatch;
    if mode == Silent {
      if step.Synchronized? {
        EventsSnoc(segments, Segment(step.source, [], None));
      }
    } else if !step.Turned? {
      var rest, last := segments[..|segments| - 1], segments[|segments| - 1];
      var changed := if step.Forwarded? then WithEvent(last, step.e) else WithClosing(last, step.virtual);
      assert segments == rest + [last] && Extend(segments, mode, step) == rest + [changed];
      EventsSnoc(rest, last);
      EventsSnoc(rest, changed);
    }
  }

  /** The segments carry exactly the events read while forwarding, in order:
      nothing that was read while paused, and nothing twice. */
  lemma {:induction false} SegmentsCarryForwarded(history: seq<Step>)
    requires ModeOf(history) in {Silent, Forwarding}
    ensures EventsOf(SegmentsOf(history)) == ForwardedOf(history)
    decreases |history|
  {
    if history != [] {
      var rest := history[..|history| - 1];
      WritesAreSegments(rest);
      SegmentsCarryForwarded(rest);
      ExtendEvents(SegmentsOf(rest), ModeOf(rest), history[|history| - 1]);
    }
  }

  /** The first `clean` steps are in order; what follows, if anything, starts
      with a failure and forwards nothing that is read any more. */
  ghost predicate CleanUntil(history: seq<Step>, clean: nat) {
    && clean <= |history|
    && ModeOf(history[..clean]) in {Silent, Forwarding}
    && WritesOf(history[..clean]) <= WritesOf(history)
    && (clean < |history| ==> history[clean].Lost? || history[clean].Interrupted?)
    && forall j | clean < j < |history| :: ReadsOfStep(history[j]) == []
  }

  /** How a history comes to be broken, and how it stays so. */
  lemma BrokenBy(mode: Mode, step: Step)
    requires Next(mode, step) == Broken
    ensures mode == Broken ==> ReadsOfStep(step) == []
    ensures mode != Broken ==> mode in {Silent, Forwarding} && (step.Lost? || step.Interrupted?)
  {
  }

  lemma {:induction false} CleanPrefix(history: seq<Step>) returns (clean: nat)
    requires ModeOf(history) != Rejected
    ensures CleanUntil(history, clean)
    ensures clean == |history| <==> ModeOf(history) != Broken
    decreases |history|
  {
    hide Next, ReadsOfStep, WritesOfStep;
    clean := |history|;
    assert history[..|history|] == history;
    if ModeOf(history) == Broken {
      var rest := history[..|history| - 1];
      BrokenBy(ModeOf(rest), history[|history| - 1]);
      clean := CleanPrefix(rest);
      assert rest[..clean] == history[..clean];
      assert forall j | 0 <= j < |rest| :: rest[j] == history[j];
    }
  }

  /** Up to the first failure the writes are segments that carry exactly what
      was read while forwarding; after it nothing is read ever again. */
  ghost predicate Segmented(history: seq<Step>) {
    exists clean: nat ::
      && CleanUntil(history, clean)
      && (clean == |history| <==> ModeOf(history) != Broken)
      && Contents(SegmentsOf(history[..clean])) <= WritesOf(history)
      && EventsOf(SegmentsOf(history[..clean])) == ForwardedOf(history[..clean])
  }

  /** Main result: every history in order, broken or not, is segmented. */
  lemma WholeWriteLog(history: seq<Step>)
    requires ModeOf(history) != Rejected
    ensures Segmented(history)
  {
    var clean := CleanPrefix(history);
    WritesAreSegments(history[..clean]);
    SegmentsCarryForwarded(history[..clean]);
  }

  // ----- Later histories -----

  /** What was written and read stays written and read. */
  lemma {:induction false} LaterKeeps(history: seq<Step>, later: seq<Step>)
    requires history <= later
    ensures WritesOf(history) <= WritesOf(later) && ReadsOf(history) <= ReadsOf(later)
    decreases |later|
  {
    if |history| < |later| {
      LaterKeeps(history, later[..|later| - 1]);
    } else {
      assert history == later;
    }
  }

  /** After a failure nothing is read any more: failure is sticky. */
  lemma {:induction false} BrokenStaysBroken(history: seq<Step>, later: seq<Step>)
    requires history <= later && ModeOf(history) == Broken && ModeOf(later) != Rejected
    ensures ModeOf(later) == Broken && ReadsOf(later) == ReadsOf(history)
    decreases |later|
  {
    if |history| < |later| {
      var rest := later[..|later| - 1];
      BrokenStaysBroken(history, rest);
      assert ReadsOfStep(later[|later| - 1]) == [];
    } else {
      assert history == later;
    }
  }

  // ----- The observable state of a session -----

  datatype Head = Head(
    start: bool,
    paused: bool,
    available: bool,
    fatal: Result,
    source: Option<Node>,
    virtual: Option<Node>,
    known: set<(nat, nat)>,
    history: seq<Step>,
    written: seq<Event>,
    consumed: seq<Event>)

  ghost predicate ValidNode(n: Option<Node>) {
    n.Some? ==> ValidDevice(n.value.device) && WellFormed(n.value.device, n.value.state)
  }

  /** The history accounts for every write and every read, in order, and for
      what was done with each read. */
  ghost predicate Accounted(h: Head) {
    && ModeOf(h.history) != Rejected
    && h.paused == PausedAfter(h.history, h.start)
    && ReadsByMode(h.history, h.start)
    && h.written == WritesOf(h.history)
    && h.consumed == ReadsOf(h.history)
  }

  /** Both devices, when there are any, are proper, and the virtual device
      represents the source. */
  ghost predicate Paired(h: Head) {
    && ValidNode(h.source)
    && ValidNode(h.virtual)
    && h.available == h.source.Some?
    && (h.source.Some? ==>
          h.virtual.Some? && ProfileOf(h.source.value.device) == ProfileOf(h.virtual.value.device))
  }

  /** The (slot, axis) pairs covered after a synchronization in state `s` and the
      events forwarded since. */
  ghost function Covered(d: Device, s: State, es: seq<Event>): set<(nat, nat)> {
    if es == [] then KnownAfterSync(s)
    else
      var rest := es[..|es| - 1];
      KnownAfter(d, ApplyAll(d, s, rest), Covered(d, s, rest), es[|es| - 1])
  }

  /** In state `s`, `e` goes to the axis `a` of slot `i`. */
  ghost predicate WritesSlotAxis(d: Device, s: State, e: Event, i: nat, a: nat) {
    e.kind == EV_ABS && e.code == a && SlotAxis(d, a) && s.cursor == i < |s.slots|
  }

  ghost predicate WrittenSince(d: Device, s: State, es: seq<Event>, i: nat, a: nat) {
    exists k | 0 <= k < |es| :: WritesSlotAxis(d, ApplyAll(d, s, es[..k]), es[k], i, a)
  }

  lemma WrittenSinceSnoc(d: Device, s: State, es: seq<Event>, e: Event, i: nat, a: nat)
    ensures WrittenSince(d, s, es + [e], i, a) <==>
            WrittenSince(d, s, es, i, a) || WritesSlotAxis(d, ApplyAll(d, s, es), e, i, a)
  {
    hide Apply, ApplyAll, WritesSlotAxis;
    var all := es + [e];
    assert forall k | 0 <= k < |es| :: all[..k] == es[..k] && all[k] == es[k];
    assert all[..|es|] == es && all[|es|] == e;
  }

  /** In words: the axes of slots that were active at the synchronization, and
      those that were written since. */
  lemma {:induction false} CoveredIff(d: Device, s: State, es: seq<Event>, i: nat, a: nat)
    ensures (i, a) in Covered(d, s, es) <==>
            || (i < |s.slots| && s.slots[i].tracking >= 0 && a in s.slots[i].axes)
            || WrittenSince(d, s, es, i, a)
    decreases |es|
  {
    hide Apply, ApplyAll, SlotAxis, WrittenSince;
    if es == [] {
      NothingWritten(d, s, i, a);
    } else {
      var rest, e := es[..|es| - 1], es[|es| - 1];
      CoveredIff(d, s, rest, i, a);
      WrittenSinceSnoc(d, s, rest, e, i, a);
      assert es == rest + [e];
    }
  }

  lemma NothingWritten(d: Device, s: State, i: nat, a: nat)
    ensures !WrittenSince(d, s, [], i, a)
  {
  }

  /** The open segment tells what the source shows and what the mirror covers. */
  ghost predicate Tracked(h: Head) {
    var segments := SegmentsOf(h.history);
    && segments != [] && h.source.Some?
    && var opening, events := segments[|segments| - 1].source, segments[|segments| - 1].events;
       && h.source.value == Node(opening.device, ApplyAll(opening.device, opening.state, events))
       && h.known == Covered(opening.device, opening.state, events)
  }

  /** What the history's mode says about the devices. */
  ghost predicate Faithful(h: Head) {
    match ModeOf(h.history)
    case Forwarding =>
      h.source.Some? && h.virtual.Some? && !h.paused && Tracked(h) &&
      Mirrors(h.source.value.state, h.virtual.value.state, h.known)
    case Silent =>
      (h.source.None? || h.paused) && (h.virtual.Some? ==> Neutral(h.virtual.value.state))
    case _ => true
  }

  /** The invariant of every loop head and of every point where a pause request
      can arrive. */
  ghost predicate HeadOk(h: Head) {
    && Accounted(h)
    && Paired(h)
    && Faithful(h)
    && (ModeOf(h.history) == Broken <==> h.fatal != Success)
    && h.fatal in {Success, ReadFailed, OutOfMemory, WriteFailed, Disconnected}
  }

  lemma HeadIsAccounted(h: Head)
    requires HeadOk(h)
    ensures Accounted(h) && h.fatal in {Success, ReadFailed, OutOfMemory, WriteFailed, Disconnected}
  {
  }

  /** A session without devices and without a past. */
  lemma StartHead(h: Head)
    requires h.source.None? && h.virtual.None? && !h.available && h.fatal == Success
    requires h.history == [] && h.written == [] && h.consumed == [] && h.paused == h.start
    ensures HeadOk(h)
  {
  }

  /** In words: an unpaused session with a source mirrors it; a paused one, or
      one without a source, is neutral; both only while nothing failed. */
  lemma MirrorOrNeutral(h: Head)
    requires HeadOk(h) && h.fatal == Success
    ensures h.source.Some? && !h.paused ==>
              h.virtual.Some? && Tracked(h) && Mirrors(h.source.value.state, h.virtual.value.state, h.known)
    ensures h.source.None? || h.paused ==> (h.virtual.Some? ==> Neutral(h.virtual.value.state))
    ensures WritesOf(h.history) == Contents(SegmentsOf(h.history))
  {
    WritesAreSegments(h.history);
  }

  // ----- Steps between heads -----

  /** A read advances the source only. */
  ghost function AfterRead(h: Head, e: Event): Head
    requires h.source.Some?
  {
    var n := h.source.value;
    h.(source := Some(n.(state := Apply(n.device, n.state, e))), consumed := h.consumed + [e])
  }

  ghost function AfterSuppress(h: Head, e: Event): Head
    requires h.source.Some?
  {
    AfterRead(h, e).(history := h.history + [Suppressed(e)])
  }

  ghost function AfterForward(h: Head, e: Event): Head
    requires h.source.Some? && h.virtual.Some?
  {
    var n := h.virtual.value;
    AfterRead(h, e).(
      history := h.history + [Forwarded(e)],
      written := h.written + [e],
      known := KnownAfter(h.source.value.device, h.source.value.state, h.known, e),
      virtual := Some(n.(state := Apply(n.device, n.state, e))))
  }

  lemma SuppressKeepsHead(h: Head, e: Event)
    requires HeadOk(h) && h.fatal == Success && h.source.Some? && h.paused
    ensures HeadOk(AfterSuppress(h, e))
  {
    Snoc(h.history, Suppressed(e));
    SnocByMode(h.history, Suppressed(e), h.start);
    ApplyKeepsWellFormed(h.source.value.device, h.source.value.state, e);
  }

  lemma SegmentsSnoc(history: seq<Step>, step: Step)
    ensures SegmentsOf(history + [step]) == Extend(SegmentsOf(history), ModeOf(history), step)
  {
    assert (history + [step])[..|history|] == history;
  }

  lemma CoveredSnoc(d: Device, s: State, es: seq<Event>, e: Event)
    ensures Covered(d, s, es + [e]) == KnownAfter(d, ApplyAll(d, s, es), Covered(d, s, es), e)
  {
    assert (es + [e])[..|es|] == es;
  }

  lemma ForwardingIsTracked(h: Head, e: Event)
    requires Tracked(h) && h.virtual.Some? && ModeOf(h.history) == Forwarding
    ensures Tracked(AfterForward(h, e))
  {
    hide Apply, ApplyAll, KnownAfter, Covered, SegmentsOf, ModeOf, KnownAfterSync;
    SegmentsSnoc(h.history, Forwarded(e));
    var segments := SegmentsOf(h.history);
    var last := segments[|segments| - 1];
    ApplyAllSnoc(last.source.device, last.source.state, last.events, e);
    CoveredSnoc(last.source.device, last.source.state, last.events, e);
  }

  lemma ForwardKeepsHead(h: Head, e: Event)
    requires HeadOk(h) && h.fatal == Success && h.source.Some? && !h.paused
    ensures HeadOk(AfterForward(h, e))
  {
    Snoc(h.history, Forwarded(e));
    SnocByMode(h.history, Forwarded(e), h.start);
    var s, v := h.source.value, h.virtual.value;
    EqualProfilesAgree(s.device, v.device);
    ApplyKeepsWellFormed(s.device, s.state, e);
    ApplyKeepsWellFormed(v.device, v.state, e);
    ForwardingKeepsMirror(s.device, s.state, v.state, h.known, e);
    ForwardingIsTracked(h, e);
  }

  ghost function AfterLost(h: Head, e: Event): Head
    requires h.source.Some?
  {
    AfterRead(h, e).(history := h.history + [Lost(e)])
  }

  lemma LostIsAccounted(h: Head, e: Event)
    requires HeadOk(h) && h.fatal == Success && h.source.Some? && !h.paused
    ensures Accounted(AfterLost(h, e)) && ModeOf(AfterLost(h, e).history) == Broken
  {
    Snoc(h.history, Lost(e));
    SnocByMode(h.history, Lost(e), h.start);
  }

  /** A complete neutralization of the virtual device. */
  ghost function AfterRelease(h: Head): Head
    requires h.virtual.Some?
    requires ValidDevice(h.virtual.value.device) && WellFormed(h.virtual.value.device, h.virtual.value.state)
  {
    var n := h.virtual.value;
    h.(history := h.history + [Released(n)],
       written := h.written + NeutralBatch(n.device, n.state),
       virtual := Some(n.(state := Neutralized(n.state))))
  }

  lemma ReleaseIsAccounted(h: Head)
    requires Accounted(h) && Paired(h) && h.virtual.Some?
    requires ModeOf(h.history) == Silent ==> Neutral(h.virtual.value.state)
    ensures var t := AfterRelease(h);
            && Accounted(t)
            && Paired(t)
            && ModeOf(t.history) == (if ModeOf(h.history) == Broken then Broken else Silent)
            && Neutral(t.virtual.value.state)
  {
    var n := h.virtual.value;
    Snoc(h.history, Released(n));
    SnocByMode(h.history, Released(n), h.start);
    NeutralBatchCount(n.device, n.state);
    NeutralBatchEffect(n.device, n.state);
    ApplyAllKeepsWellFormed(n.device, n.state, NeutralBatch(n.device, n.state));
  }

  /** A complete synchronization of the virtual device with the source. */
  ghost function AfterSync(h: Head): Head
    requires h.source.Some? && h.virtual.Some? && Paired(h)
  {
    var s, v := h.source.value, h.virtual.value;
    EqualProfilesAgree(s.device, v.device);
    h.(history := h.history + [Synchronized(s)],
       written := h.written + SyncBatch(s.device, s.state),
       known := KnownAfterSync(s.state),
       virtual := Some(v.(state := Synced(s.state, v.state))))
  }

  lemma SyncIsTracked(h: Head)
    requires Paired(h) && h.source.Some? && ModeOf(h.history) == Silent
    ensures Tracked(AfterSync(h))
  {
    hide SyncBatch, Synced, KnownAfterSync, Apply;
    SegmentsSnoc(h.history, Synchronized(h.source.value));
  }

  lemma SyncIsAccounted(h: Head)
    requires Accounted(h) && Paired(h) && h.source.Some?
    requires ModeOf(h.history) in {Silent, Broken}
    ensures var t := AfterSync(h);
            && Accounted(t)
            && Paired(t)
            && ModeOf(t.history) == (if ModeOf(h.history) == Broken then Broken else Forwarding)
            && Mirrors(t.source.value.state, t.virtual.value.state, t.known)
            && (ModeOf(h.history) == Silent ==> Tracked(t))
  {
    hide Tracked, SyncBatch, KnownAfterSync;
    var s, v := h.source.value, h.virtual.value;
    Snoc(h.history, Synchronized(s));
    SnocByMode(h.history, Synchronized(s), h.start);
    EqualProfilesAgree(s.device, v.device);
    SyncBatchEffect(s.device, s.state, v.state);
    ApplyAllKeepsWellFormed(s.device, v.state, SyncBatch(s.device, s.state));
    SyncedMirrors(s.device, s.state, v.state);
    if ModeOf(h.history) == Silent {
      SyncIsTracked(h);
    }
  }

  lemma InterruptionIsAccounted(h: Head, c: Correction, part: seq<Event>)
    requires Accounted(h) && part <= BatchOf(c)
    ensures var t := h.(history := h.history + [Interrupted(c, part)], written := h.written + part);
            Accounted(t) && ModeOf(t.history) == Broken
  {
    Snoc(h.history, Interrupted(c, part));
    SnocByMode(h.history, Interrupted(c, part), h.start);
  }

  /** What a pause or resume needs of the devices, when there is a source. */
  ghost function AfterCorrection(h: Head, paused: bool): Head
    requires HeadOk(h)
  {
    if h.source.None? then h else if paused then AfterRelease(h) else AfterSync(h)
  }

  /** A pause or resume: corrected first, then committed. */
  ghost function AfterPauseChange(h: Head, paused: bool): Head
    requires HeadOk(h)
  {
    var t := AfterCorrection(h, paused);
    t.(paused := paused, history := t.history + [Turned(paused)])
  }

  lemma TurnIsTracked(h: Head, paused: bool)
    requires Tracked(h)
    ensures Tracked(h.(paused := paused, history := h.history + [Turned(paused)]))
  {
    hide ApplyAll, Covered, SegmentsOf, ModeOf;
    SegmentsSnoc(h.history, Turned(paused));
  }

  lemma TurnIsAccounted(h: Head, paused: bool)
    requires Accounted(h) && h.paused != paused && (paused ==> ModeOf(h.history) != Forwarding)
    ensures var t := h.(paused := paused, history := h.history + [Turned(paused)]);
            && Accounted(t)
            && ModeOf(t.history) == ModeOf(h.history)
            && (Tracked(h) ==> Tracked(t))
  {
    hide Tracked, ModeOf, WritesOf, ReadsOf, ReadsByMode, PausedAfter;
    Snoc(h.history, Turned(paused));
    SnocByMode(h.history, Turned(paused), h.start);
    if Tracked(h) {
      TurnIsTracked(h, paused);
    }
  }

  lemma PauseChangeKeepsHead(h: Head, paused: bool)
    requires HeadOk(h) && h.paused != paused
    ensures HeadOk(AfterPauseChange(h, paused))
  {
    if h.source.Some? {
      if paused {
        ReleaseIsAccounted(h);
      } else {
        SyncIsAccounted(h);
      }
    }
    TurnIsAccounted(AfterCorrection(h, paused), paused);
  }

  /** A source was opened; nothing failed, and the virtual device, if there is
      one, is neutral. */
  ghost predicate Attaching(h: Head) {
    && Accounted(h)
    && ModeOf(h.history) == Silent
    && h.fatal == Success
    && h.available
    && h.source.Some?
    && ValidNode(h.source)
    && ValidNode(h.virtual)
    && (h.virtual.Some? ==> Neutral(h.virtual.value.state))
  }

  lemma OpenedIsAttaching(h: Head, n: Node)
    requires HeadOk(h) && h.fatal == Success && h.source.None? && ValidNode(Some(n))
    ensures Attaching(h.(source := Some(n), available := true))
  {
  }

  lemma AttachingIsAccounted(h: Head)
    requires Attaching(h)
    ensures Accounted(h) && Accounted(h.(source := None, available := false))
  {
  }

  lemma AttachingWithout(h: Head)
    requires Attaching(h)
    ensures Attaching(h.(virtual := None))
  {
  }

  lemma CreationIsAccounted(h: Head, n: Node)
    requires Attaching(h) && ValidNode(Some(n)) && Neutral(n.state)
    ensures Attaching(h.(history := h.history + [Created], virtual := Some(n)))
  {
    Snoc(h.history, Created);
    SnocByMode(h.history, Created, h.start);
  }

  /** With a virtual device that fits, the session may stay paused or be
      synchronized. */
  lemma AttachedHead(h: Head)
    requires Attaching(h) && h.virtual.Some?
    requires ProfileOf(h.source.value.device) == ProfileOf(h.virtual.value.device)
    ensures Paired(h)
    ensures h.paused ==> HeadOk(h)
    ensures !h.paused ==> HeadOk(AfterSync(h))
  {
    SyncIsAccounted(h);
  }

  lemma AccountedWithout(h: Head)
    requires Accounted(h)
    ensures Accounted(h.(source := None, available := false))
  {
  }

  /** A loss that was announced, before and after the release. */
  lemma LossIsAccounted(h: Head)
    requires HeadOk(h) && h.virtual.Some?
    ensures Accounted(h.(available := false)) && ValidNode(h.virtual)
    ensures AfterRelease(h.(available := false)) == AfterRelease(h).(available := false)
    ensures Accounted(AfterRelease(h).(available := false))
  {
    ReleaseIsAccounted(h);
  }

  /** The source is gone: the virtual device is released and waits. */
  lemma LossKeepsHead(h: Head)
    requires HeadOk(h) && h.virtual.Some?
    ensures HeadOk(AfterRelease(h).(available := false, source := None))
  {
    ReleaseIsAccounted(h);
  }
}
