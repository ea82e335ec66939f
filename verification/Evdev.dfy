/** What an evdev node is (its description) and what it currently shows (its
    state), with the one function that says how an event changes that state.
    Multitouch follows protocol B of the Linux kernel's "Multi-touch (MT)
    Protocol" document: a slot cursor, a tracking id per slot, axes per slot. */
module Evdev {
  import opened Input

  datatype AbsInfo = AbsInfo(
    value: int, minimum: int, maximum: int, fuzz: int, flat: int, resolution: int)

  /** A description as libevdev holds it; `axes` and `repeats` carry the data
      attached to EV_ABS and EV_REP codes. */
  datatype Device = Device(
    name: string,
    uniq: Option<string>,
    bustype: int,
    vendor: int,
    product: int,
    version: int,
    properties: set<nat>,
    types: set<nat>,
    codes: set<(nat, nat)>,
    axes: map<nat, AbsInfo>,
    repeats: map<nat, int>)

  predicate HasCode(d: Device, kind: nat, code: nat) {
    (kind, code) in d.codes
  }

  ghost predicate ValidDevice(d: Device) {
    && (forall p: nat :: p in d.properties ==> p <= INPUT_PROP_MAX)
    && (forall t: nat :: t in d.types ==> t <= EV_MAX)
    && (forall t: nat, k: nat :: HasCode(d, t, k) ==> t in d.types && k <= MaxCode(t))
    && (forall k: nat :: k in d.axes <==> HasCode(d, EV_ABS, k))
    && (forall k: nat :: k in d.repeats <==> HasCode(d, EV_REP, k))
  }

  predicate IsMultitouchAxis(code: nat) {
    ABS_MT_TOUCH_MAJOR <= code <= ABS_MT_TOOL_Y
  }

  predicate TypeB(d: Device) {
    HasCode(d, EV_ABS, ABS_MT_SLOT) && HasCode(d, EV_ABS, ABS_MT_TRACKING_ID)
  }

  /** The slot count a device reports; not positive means none. */
  function SlotCount(d: Device): int {
    if ABS_MT_SLOT in d.axes then d.axes[ABS_MT_SLOT].maximum + 1 else 0
  }

  /** Absolute axes with one value for the whole device. */
  predicate PlainAxis(d: Device, code: nat) {
    HasCode(d, EV_ABS, code) && !(TypeB(d) && (code == ABS_MT_SLOT || IsMultitouchAxis(code)))
  }

  /** Absolute axes with one value per slot. */
  predicate SlotAxis(d: Device, code: nat) {
    TypeB(d) && HasCode(d, EV_ABS, code) && IsMultitouchAxis(code) && code != ABS_MT_TRACKING_ID
  }

  datatype Slot = Slot(tracking: int, axes: map<nat, int>)

  datatype State = State(
    keys: set<nat>,
    switches: set<nat>,
    axes: map<nat, int>,
    cursor: nat,
    slots: seq<Slot>)

  ghost predicate SwitchesFit(d: Device, kind: nat, on: set<nat>) {
    forall k: nat :: k in on ==> HasCode(d, kind, k)
  }

  ghost predicate AxesFit(d: Device, axes: map<nat, int>) {
    forall a: nat :: a in axes <==> PlainAxis(d, a)
  }

  ghost predicate SlotFits(d: Device, slot: Slot) {
    forall a: nat :: a in slot.axes <==> SlotAxis(d, a)
  }

  ghost predicate SlotsFit(d: Device, cursor: nat, slots: seq<Slot>) {
    && |slots| == (if TypeB(d) && SlotCount(d) > 0 then SlotCount(d) else 0)
    && (if slots == [] then cursor == 0 else cursor < |slots|)
    && forall i | 0 <= i < |slots| :: SlotFits(d, slots[i])
  }

  /** `s` is a possible state of a device described by `d`. */
  ghost predicate WellFormed(d: Device, s: State) {
    && SwitchesFit(d, EV_KEY, s.keys)
    && SwitchesFit(d, EV_SW, s.switches)
    && AxesFit(d, s.axes)
    && SlotsFit(d, s.cursor, s.slots)
  }

  /** How one event changes the state of a device. Codes the device does not
      advertise, slots out of range and key repeats change nothing. */
  function Apply(d: Device, s: State, e: Event): State {
    if !HasCode(d, e.kind, e.code) then s
    else if e.kind == EV_KEY then
      if e.value == 2 then s
      else if e.value == 0 then s.(keys := s.keys - {e.code})
      else s.(keys := s.keys + {e.code})
    else if e.kind == EV_SW then
      if e.value == 0 then s.(switches := s.switches - {e.code})
      else s.(switches := s.switches + {e.code})
    else if e.kind == EV_ABS then
      if PlainAxis(d, e.code) then s.(axes := s.axes[e.code := e.value])
      else if e.code == ABS_MT_SLOT then
        if 0 <= e.value < |s.slots| then s.(cursor := e.value) else s
      else if s.cursor >= |s.slots| then s
      else
        var slot := s.slots[s.cursor];
        s.(slots := s.slots[s.cursor :=
          if e.code == ABS_MT_TRACKING_ID then slot.(tracking := e.value)
          else slot.(axes := slot.axes[e.code := e.value])])
    else s
  }

  function ApplyAll(d: Device, s: State, es: seq<Event>): State {
    if es == [] then s
    else Apply(d, ApplyAll(d, s, es[..|es| - 1]), es[|es| - 1])
  }

  lemma ApplyAllSnoc(d: Device, s: State, es: seq<Event>, e: Event)
    ensures ApplyAll(d, s, es + [e]) == Apply(d, ApplyAll(d, s, es), e)
  {
  }

  lemma {:induction false} ApplyAllConcat(d: Device, s: State, a: seq<Event>, b: seq<Event>)
    ensures ApplyAll(d, s, a + b) == ApplyAll(d, ApplyAll(d, s, a), b)
    decreases |b|
  {
    if b == [] {
      assert a + b == a;
    } else {
      var n := |b| - 1;
      assert (a + b)[..|a + b| - 1] == a + b[..n];
      ApplyAllConcat(d, s, a, b[..n]);
    }
  }

  lemma ApplyKeepsWellFormed(d: Device, s: State, e: Event)
    requires WellFormed(d, s)
    ensures WellFormed(d, Apply(d, s, e))
  {
  }

  lemma {:induction false} ApplyAllKeepsWellFormed(d: Device, s: State, es: seq<Event>)
    requires WellFormed(d, s)
    ensures WellFormed(d, ApplyAll(d, s, es))
    decreases |es|
  {
    if es != [] {
      ApplyAllKeepsWellFormed(d, s, es[..|es| - 1]);
      ApplyKeepsWellFormed(d, ApplyAll(d, s, es[..|es| - 1]), es[|es| - 1]);
    }
  }

  /** Key repeats, codes that are not advertised and slots out of range change
      nothing. */
  lemma IgnoredEvents(d: Device, s: State, e: Event)
    requires || (e.kind == EV_KEY && e.value == 2)
             || (e.kind, e.code) !in d.codes
             || (e.kind == EV_ABS && e.code == ABS_MT_SLOT && TypeB(d) && !(0 <= e.value < |s.slots|))
             || e.kind !in {EV_KEY, EV_SW, EV_ABS}
    ensures Apply(d, s, e) == s
  {
  }

  /** Nothing is pressed and no contact is down. */
  ghost predicate Neutral(s: State) {
    s.keys == {} && forall i | 0 <= i < |s.slots| :: s.slots[i].tracking < 0
  }

  /** Both sides have the axis `a` in slot `i`, with the same value. */
  ghost predicate KnownAgrees(s: State, v: State, i: nat, a: nat) {
    && i < |s.slots| == |v.slots|
    && a in s.slots[i].axes
    && a in v.slots[i].axes
    && v.slots[i].axes[a] == s.slots[i].axes[a]
  }

  /** `v` shows what `s` shows. `known` names the (slot, axis) pairs whose
      values are covered; everything else is covered unconditionally. */
  ghost predicate Mirrors(s: State, v: State, known: set<(nat, nat)>) {
    && v.keys == s.keys
    && v.switches == s.switches
    && v.axes == s.axes
    && v.cursor == s.cursor
    && |v.slots| == |s.slots|
    && (forall i | 0 <= i < |s.slots| :: v.slots[i].tracking == s.slots[i].tracking)
    && (forall i: nat, a: nat | (i, a) in known :: KnownAgrees(s, v, i, a))
  }

  /** The pairs covered after `e` reaches both sides in state `s`. */
  function KnownAfter(d: Device, s: State, known: set<(nat, nat)>, e: Event): set<(nat, nat)> {
    if e.kind == EV_ABS && SlotAxis(d, e.code) && s.cursor < |s.slots|
    then known + {(s.cursor, e.code)}
    else known
  }

  /** Forwarding an event keeps the mirror and widens what it covers. */
  lemma ForwardingKeepsMirror(d: Device, s: State, v: State, known: set<(nat, nat)>, e: Event)
    requires WellFormed(d, s) && WellFormed(d, v) && Mirrors(s, v, known)
    ensures Mirrors(Apply(d, s, e), Apply(d, v, e), KnownAfter(d, s, known, e))
  {
  }

  /** The part of an axis description that consumers may rely on. */
  datatype AxisRange = AxisRange(minimum: int, maximum: int, fuzz: int, flat: int, resolution: int)

  function RangeOf(a: AbsInfo): AxisRange {
    AxisRange(a.minimum, a.maximum, a.fuzz, a.flat, a.resolution)
  }

  /** The represented projection of a description: all of it except the name
      and the current axis values. */
  datatype Profile = Profile(
    uniq: Option<string>,
    bustype: int,
    vendor: int,
    product: int,
    version: int,
    properties: set<nat>,
    types: set<nat>,
    codes: set<(nat, nat)>,
    ranges: map<nat, AxisRange>,
    repeats: map<nat, int>)

  function ProfileOf(d: Device): Profile {
    Profile(d.uniq, d.bustype, d.vendor, d.product, d.version, d.properties, d.types, d.codes,
            map k | k in d.axes :: RangeOf(d.axes[k]), d.repeats)
  }

  /** Devices with equal profiles have the same axes and the same slots, and
      read every event the same way. */
  lemma EqualProfilesAgree(a: Device, b: Device)
    requires ProfileOf(a) == ProfileOf(b)
    ensures SlotCount(a) == SlotCount(b)
    ensures TypeB(a) == TypeB(b)
    ensures forall s: State {:trigger WellFormed(a, s)} :: WellFormed(a, s) <==> WellFormed(b, s)
    ensures forall s: State, e: Event :: Apply(a, s, e) == Apply(b, s, e)
  {
    var pa, pb := ProfileOf(a), ProfileOf(b);
    assert a.axes.Keys == pa.ranges.Keys == pb.ranges.Keys == b.axes.Keys;
    if ABS_MT_SLOT in a.axes {
      assert pa.ranges[ABS_MT_SLOT] == pb.ranges[ABS_MT_SLOT];
    }
    assert forall k: nat, c: nat :: HasCode(a, k, c) == HasCode(b, k, c);
    assert forall c: nat :: PlainAxis(a, c) == PlainAxis(b, c);
    assert forall c: nat :: SlotAxis(a, c) == SlotAxis(b, c);
    forall s: State ensures WellFormed(a, s) <==> WellFormed(b, s) {
      assert forall i | 0 <= i < |s.slots| :: SlotFits(a, s.slots[i]) <==> SlotFits(b, s.slots[i]);
    }
  }

  lemma {:induction false} EqualProfilesApplyAll(a: Device, b: Device, s: State, es: seq<Event>)
    requires ProfileOf(a) == ProfileOf(b)
    ensures ApplyAll(a, s, es) == ApplyAll(b, s, es)
    decreases |es|
  {
    if es != [] {
      EqualProfilesApplyAll(a, b, s, es[..|es| - 1]);
      EqualProfilesAgree(a, b);
    }
  }
}
