/** The event list that describes a source's current state, and what it does to
    a virtual device: whatever that device showed before, it then shows the
    source. */
module Capture {
  import opened Input
  import opened Evdev

  /** The current value of a key or a switch. */
  function SwitchValue(s: State, kind: nat, code: nat): int {
    if kind == EV_KEY then (if code in s.keys then 1 else 0)
    else (if code in s.switches then 1 else 0)
  }

  /** Events for the codes of `kind` below `n`. */
  function TypeEvents(d: Device, s: State, kind: nat, n: nat): seq<Event> {
    if n == 0 then []
    else TypeEvents(d, s, kind, n - 1) +
         if HasCode(d, kind, n - 1) then [Event(kind, n - 1, SwitchValue(s, kind, n - 1))] else []
  }

  function AxisEvents(d: Device, s: State, n: nat): seq<Event>
    requires AxesFit(d, s.axes)
  {
    if n == 0 then []
    else AxisEvents(d, s, n - 1) +
         if PlainAxis(d, n - 1) then [Event(EV_ABS, n - 1, s.axes[n - 1])] else []
  }

  /** Events for the per-slot axes below `n`. */
  function SlotAxisEvents(d: Device, slot: Slot, n: nat): seq<Event>
    requires SlotFits(d, slot)
  {
    if n == 0 then []
    else SlotAxisEvents(d, slot, n - 1) +
         if SlotAxis(d, n - 1) then [Event(EV_ABS, n - 1, slot.axes[n - 1])] else []
  }

  function SlotEvents(d: Device, s: State, i: nat): seq<Event>
    requires SlotsFit(d, s.cursor, s.slots) && i < |s.slots|
  {
    [Event(EV_ABS, ABS_MT_SLOT, i), Event(EV_ABS, ABS_MT_TRACKING_ID, s.slots[i].tracking)] +
    if s.slots[i].tracking < 0 then [] else SlotAxisEvents(d, s.slots[i], ABS_MT_TOOL_Y + 1)
  }

  /** Events for the slots below `n`. */
  function AllSlotEvents(d: Device, s: State, n: nat): seq<Event>
    requires SlotsFit(d, s.cursor, s.slots) && n <= |s.slots|
  {
    if n == 0 then [] else AllSlotEvents(d, s, n - 1) + SlotEvents(d, s, n - 1)
  }

  function MultitouchEvents(d: Device, s: State): seq<Event>
    requires SlotsFit(d, s.cursor, s.slots)
  {
    if TypeB(d)
    then AllSlotEvents(d, s, |s.slots|) + [Event(EV_ABS, ABS_MT_SLOT, s.cursor)]
    else []
  }

  /** The complete captured list. */
  function CapturedEvents(d: Device, s: State): seq<Event>
    requires WellFormed(d, s)
  {
    TypeEvents(d, s, EV_KEY, KEY_MAX + 1) + TypeEvents(d, s, EV_SW, SW_MAX + 1) +
    AxisEvents(d, s, ABS_MAX + 1) + MultitouchEvents(d, s)
  }

  /** A full synchronization batch: the captured list and its boundary. */
  function SyncBatch(d: Device, s: State): seq<Event>
    requires WellFormed(d, s)
  {
    CapturedEvents(d, s) + [BOUNDARY]
  }

  // ----- The frame of the batch -----

  ghost predicate NoBoundary(es: seq<Event>) {
    forall e | e in es :: e.kind != EV_SYN
  }

  lemma {:induction false} TypeEventsFramed(d: Device, s: State, kind: nat, n: nat)
    requires kind != EV_SYN
    ensures NoBoundary(TypeEvents(d, s, kind, n))
  {
    if n > 0 {
      TypeEventsFramed(d, s, kind, n - 1);
    }
  }

  lemma {:induction false} AxisEventsFramed(d: Device, s: State, n: nat)
    requires AxesFit(d, s.axes)
    ensures NoBoundary(AxisEvents(d, s, n))
  {
    if n > 0 {
      AxisEventsFramed(d, s, n - 1);
    }
  }

  lemma {:induction false} SlotAxisEventsFramed(d: Device, slot: Slot, n: nat)
    requires SlotFits(d, slot)
    ensures NoBoundary(SlotAxisEvents(d, slot, n))
  {
    if n > 0 {
      SlotAxisEventsFramed(d, slot, n - 1);
    }
  }

  lemma {:induction false} AllSlotEventsFramed(d: Device, s: State, n: nat)
    requires SlotsFit(d, s.cursor, s.slots) && n <= |s.slots|
    ensures NoBoundary(AllSlotEvents(d, s, n))
  {
    if n > 0 {
      AllSlotEventsFramed(d, s, n - 1);
      SlotAxisEventsFramed(d, s.slots[n - 1], ABS_MT_TOOL_Y + 1);
    }
  }

  /** A full batch is one frame: exactly one boundary, at its end. */
  lemma SyncBatchIsOneFrame(d: Device, s: State)
    requires WellFormed(d, s)
    ensures var batch := SyncBatch(d, s);
            forall i | 0 <= i < |batch| :: batch[i].kind == EV_SYN <==> i == |batch| - 1
    ensures SyncBatch(d, s)[|SyncBatch(d, s)| - 1] == BOUNDARY
  {
    TypeEventsFramed(d, s, EV_KEY, KEY_MAX + 1);
    TypeEventsFramed(d, s, EV_SW, SW_MAX + 1);
    AxisEventsFramed(d, s, ABS_MAX + 1);
    AllSlotEventsFramed(d, s, |s.slots|);
    assert NoBoundary(CapturedEvents(d, s));
  }

  // ----- The batch is complete -----

  lemma {:induction false} TypeEventsComplete(d: Device, s: State, kind: nat, n: nat, k: nat)
    requires k < n && HasCode(d, kind, k)
    ensures Event(kind, k, SwitchValue(s, kind, k)) in TypeEvents(d, s, kind, n)
  {
    if k < n - 1 {
      TypeEventsComplete(d, s, kind, n - 1, k);
    }
  }

  lemma {:induction false} AxisEventsComplete(d: Device, s: State, n: nat, k: nat)
    requires AxesFit(d, s.axes) && k < n && PlainAxis(d, k)
    ensures Event(EV_ABS, k, s.axes[k]) in AxisEvents(d, s, n)
  {
    if k < n - 1 {
      AxisEventsComplete(d, s, n - 1, k);
    }
  }

  /** Every advertised key and switch is captured, and every advertised absolute
      axis but those a device with slots and tracking ids keeps per slot. */
  lemma CapturesEveryControl(d: Device, s: State, code: nat)
    requires ValidDevice(d) && WellFormed(d, s)
    ensures (EV_KEY, code) in d.codes ==>
              Event(EV_KEY, code, if code in s.keys then 1 else 0) in CapturedEvents(d, s)
    ensures (EV_SW, code) in d.codes ==>
              Event(EV_SW, code, if code in s.switches then 1 else 0) in CapturedEvents(d, s)
    ensures (EV_ABS, code) in d.codes && !(0x2f <= code <= 0x3d) ==>
              code in s.axes && Event(EV_ABS, code, s.axes[code]) in CapturedEvents(d, s)
    ensures (EV_ABS, code) in d.codes && ((EV_ABS, 0x2f) !in d.codes || (EV_ABS, 0x39) !in d.codes) ==>
              code in s.axes && Event(EV_ABS, code, s.axes[code]) in CapturedEvents(d, s)
  {
    if HasCode(d, EV_KEY, code) {
      TypeEventsComplete(d, s, EV_KEY, KEY_MAX + 1, code);
    }
    if HasCode(d, EV_SW, code) {
      TypeEventsComplete(d, s, EV_SW, SW_MAX + 1, code);
    }
    if HasCode(d, EV_ABS, code) && PlainAxis(d, code) {
      AxisEventsComplete(d, s, ABS_MAX + 1, code);
    }
  }

  // ----- What the batch does to a device in any state -----

  lemma {:induction false} ApplyKeyEvents(d: Device, s: State, v: State, n: nat)
    requires SwitchesFit(d, EV_KEY, s.keys) && SwitchesFit(d, EV_KEY, v.keys)
    ensures var t := ApplyAll(d, v, TypeEvents(d, s, EV_KEY, n));
            && t == v.(keys := t.keys)
            && forall k: nat :: k in t.keys <==> k in (if k < n then s.keys else v.keys)
  {
    if n > 0 {
      ApplyKeyEvents(d, s, v, n - 1);
      var rest := TypeEvents(d, s, EV_KEY, n - 1);
      if HasCode(d, EV_KEY, n - 1) {
        ApplyAllSnoc(d, v, rest, Event(EV_KEY, n - 1, SwitchValue(s, EV_KEY, n - 1)));
      } else {
        assert TypeEvents(d, s, EV_KEY, n) == rest;
      }
    }
  }

  lemma {:induction false} ApplySwitchEvents(d: Device, s: State, v: State, n: nat)
    requires SwitchesFit(d, EV_SW, s.switches) && SwitchesFit(d, EV_SW, v.switches)
    ensures var t := ApplyAll(d, v, TypeEvents(d, s, EV_SW, n));
            && t == v.(switches := t.switches)
            && forall k: nat :: k in t.switches <==> k in (if k < n then s.switches else v.switches)
  {
    if n > 0 {
      ApplySwitchEvents(d, s, v, n - 1);
      var rest := TypeEvents(d, s, EV_SW, n - 1);
      if HasCode(d, EV_SW, n - 1) {
        ApplyAllSnoc(d, v, rest, Event(EV_SW, n - 1, SwitchValue(s, EV_SW, n - 1)));
      } else {
        assert TypeEvents(d, s, EV_SW, n) == rest;
      }
    }
  }

  function BelowMap(n: nat, a: map<nat, int>, b: map<nat, int>): map<nat, int>
    requires a.Keys == b.Keys
  {
    map k: nat | k in b :: if k < n then a[k] else b[k]
  }

  lemma {:induction false} ApplyAxisEvents(d: Device, s: State, v: State, n: nat)
    requires AxesFit(d, s.axes) && AxesFit(d, v.axes)
    ensures s.axes.Keys == v.axes.Keys
    ensures ApplyAll(d, v, AxisEvents(d, s, n)) == v.(axes := BelowMap(n, s.axes, v.axes))
  {
    assert s.axes.Keys == v.axes.Keys;
    if n == 0 {
      assert BelowMap(0, s.axes, v.axes) == v.axes;
    } else {
      ApplyAxisEvents(d, s, v, n - 1);
      var rest := AxisEvents(d, s, n - 1);
      if PlainAxis(d, n - 1) {
        ApplyAllSnoc(d, v, rest, Event(EV_ABS, n - 1, s.axes[n - 1]));
        assert BelowMap(n, s.axes, v.axes) == BelowMap(n - 1, s.axes, v.axes)[n - 1 := s.axes[n - 1]];
      } else {
        assert AxisEvents(d, s, n) == rest;
        assert BelowMap(n, s.axes, v.axes) == BelowMap(n - 1, s.axes, v.axes);
      }
    }
  }

  /** `v` with the axes of the slot under its cursor replaced. */
  function WithAxes(v: State, axes: map<nat, int>): State
    requires v.cursor < |v.slots|
  {
    v.(slots := v.slots[v.cursor := v.slots[v.cursor].(axes := axes)])
  }

  lemma ApplySlotAxis(d: Device, v: State, axes: map<nat, int>, code: nat, value: int)
    requires v.cursor < |v.slots| && SlotAxis(d, code)
    ensures Apply(d, WithAxes(v, axes), Event(EV_ABS, code, value)) == WithAxes(v, axes[code := value])
  {
  }

  lemma {:induction false} ApplySlotAxisEvents(d: Device, slot: Slot, v: State, n: nat)
    requires v.cursor < |v.slots| && slot.axes.Keys == v.slots[v.cursor].axes.Keys
    requires SlotFits(d, slot)
    ensures ApplyAll(d, v, SlotAxisEvents(d, slot, n)) ==
            WithAxes(v, BelowMap(n, slot.axes, v.slots[v.cursor].axes))
  {
    hide Apply, SlotAxis;
    var mine := v.slots[v.cursor].axes;
    if n == 0 {
      assert BelowMap(0, slot.axes, mine) == mine;
      assert WithAxes(v, mine) == v;
    } else {
      ApplySlotAxisEvents(d, slot, v, n - 1);
      var rest := SlotAxisEvents(d, slot, n - 1);
      if SlotAxis(d, n - 1) {
        ApplyAllSnoc(d, v, rest, Event(EV_ABS, n - 1, slot.axes[n - 1]));
        ApplySlotAxis(d, v, BelowMap(n - 1, slot.axes, mine), n - 1, slot.axes[n - 1]);
        assert BelowMap(n, slot.axes, mine) == BelowMap(n - 1, slot.axes, mine)[n - 1 := slot.axes[n - 1]];
      } else {
        assert SlotAxisEvents(d, slot, n) == rest;
        assert BelowMap(n, slot.axes, mine) == BelowMap(n - 1, slot.axes, mine);
      }
    }
  }

  /** A slot after synchronization: the source's contact, and the source's axes
      only when that contact is down. */
  function SyncedSlot(s: Slot, v: Slot): Slot {
    Slot(s.tracking, if s.tracking < 0 then v.axes else s.axes)
  }

  lemma ApplyContact(d: Device, v: State, i: nat, tracking: int)
    requires TypeB(d) && i < |v.slots|
    ensures ApplyAll(d, v, [Event(EV_ABS, ABS_MT_SLOT, i), Event(EV_ABS, ABS_MT_TRACKING_ID, tracking)]) ==
            v.(cursor := i, slots := v.slots[i := v.slots[i].(tracking := tracking)])
  {
    var e0, e1 := Event(EV_ABS, ABS_MT_SLOT, i), Event(EV_ABS, ABS_MT_TRACKING_ID, tracking);
    ApplyAllSnoc(d, v, [e0], e1);
    ApplyAllSnoc(d, v, [], e0);
    assert [e0] + [e1] == [e0, e1] && [] + [e0] == [e0];
  }

  lemma ApplySlotEvents(d: Device, s: State, v: State, i: nat)
    requires ValidDevice(d) && SlotsFit(d, s.cursor, s.slots) && i < |s.slots| == |v.slots|
    requires SlotFits(d, v.slots[i])
    ensures ApplyAll(d, v, SlotEvents(d, s, i)) ==
            v.(cursor := i, slots := v.slots[i := SyncedSlot(s.slots[i], v.slots[i])])
  {
    var from, into := s.slots[i], v.slots[i];
    var contact := [Event(EV_ABS, ABS_MT_SLOT, i), Event(EV_ABS, ABS_MT_TRACKING_ID, from.tracking)];
    var w := v.(cursor := i, slots := v.slots[i := into.(tracking := from.tracking)]);
    ApplyContact(d, v, i, from.tracking);
    if from.tracking >= 0 {
      ApplyAllConcat(d, v, contact, SlotAxisEvents(d, from, ABS_MT_TOOL_Y + 1));
      assert from.axes.Keys == into.axes.Keys by {
        assert SlotFits(d, from) && SlotFits(d, into);
      }
      ApplySlotAxisEvents(d, from, w, ABS_MT_TOOL_Y + 1);
      assert BelowMap(ABS_MT_TOOL_Y + 1, from.axes, into.axes) == from.axes by {
        assert forall a: nat :: a in from.axes ==> SlotAxis(d, a);
      }
      assert WithAxes(w, from.axes).slots == v.slots[i := SyncedSlot(from, into)];
    } else {
      assert SlotEvents(d, s, i) == contact;
    }
  }

  function SyncedSlots(n: nat, s: seq<Slot>, v: seq<Slot>): seq<Slot>
    requires n <= |s| == |v|
  {
    seq(|v|, i requires 0 <= i < |v| => if i < n then SyncedSlot(s[i], v[i]) else v[i])
  }

  lemma {:induction false} ApplyAllSlotEvents(d: Device, s: State, v: State, n: nat)
    requires ValidDevice(d) && SlotsFit(d, s.cursor, s.slots) && SlotsFit(d, v.cursor, v.slots)
    requires n <= |s.slots|
    ensures ApplyAll(d, v, AllSlotEvents(d, s, n)) ==
            v.(cursor := if n == 0 then v.cursor else n - 1, slots := SyncedSlots(n, s.slots, v.slots))
  {
    hide Apply, SlotEvents, SyncedSlot;
    if n == 0 {
      assert SyncedSlots(0, s.slots, v.slots) == v.slots;
    } else {
      ApplyAllSlotEvents(d, s, v, n - 1);
      var rest := AllSlotEvents(d, s, n - 1);
      ApplyAllConcat(d, v, rest, SlotEvents(d, s, n - 1));
      assert SlotFits(d, v.slots[n - 1]);
      ApplySlotEvents(d, s, ApplyAll(d, v, rest), n - 1);
      assert SyncedSlots(n, s.slots, v.slots) ==
             SyncedSlots(n - 1, s.slots, v.slots)[n - 1 := SyncedSlot(s.slots[n - 1], v.slots[n - 1])];
    }
  }

  /** The state a device in state `v` reaches when a source in state `s` is
      synchronized into it. */
  function Synced(s: State, v: State): State
    requires |s.slots| == |v.slots|
  {
    s.(slots := SyncedSlots(|s.slots|, s.slots, v.slots))
  }

  lemma ApplyMultitouchEvents(d: Device, s: State, v: State)
    requires ValidDevice(d) && SlotsFit(d, s.cursor, s.slots) && SlotsFit(d, v.cursor, v.slots)
    ensures ApplyAll(d, v, MultitouchEvents(d, s)) ==
            v.(cursor := s.cursor, slots := SyncedSlots(|s.slots|, s.slots, v.slots))
  {
    if TypeB(d) {
      ApplyAllSlotEvents(d, s, v, |s.slots|);
      ApplyAllSnoc(d, v, AllSlotEvents(d, s, |s.slots|), Event(EV_ABS, ABS_MT_SLOT, s.cursor));
    } else {
      assert SyncedSlots(|s.slots|, s.slots, v.slots) == v.slots;
    }
  }

  lemma ApplyAllKeys(d: Device, s: State, v: State, n: nat)
    requires ValidDevice(d) && SwitchesFit(d, EV_KEY, s.keys) && SwitchesFit(d, EV_KEY, v.keys)
    requires n > KEY_MAX
    ensures ApplyAll(d, v, TypeEvents(d, s, EV_KEY, n)) == v.(keys := s.keys)
  {
    ApplyKeyEvents(d, s, v, n);
    var t := ApplyAll(d, v, TypeEvents(d, s, EV_KEY, n));
    assert forall k: nat :: k in v.keys || k in s.keys ==> HasCode(d, EV_KEY, k) && k < n;
    assert t.keys == s.keys;
  }

  lemma ApplyAllSwitches(d: Device, s: State, v: State, n: nat)
    requires ValidDevice(d) && SwitchesFit(d, EV_SW, s.switches) && SwitchesFit(d, EV_SW, v.switches)
    requires n > SW_MAX
    ensures ApplyAll(d, v, TypeEvents(d, s, EV_SW, n)) == v.(switches := s.switches)
  {
    ApplySwitchEvents(d, s, v, n);
    var t := ApplyAll(d, v, TypeEvents(d, s, EV_SW, n));
    assert forall k: nat :: k in v.switches || k in s.switches ==> HasCode(d, EV_SW, k) && k < n;
    assert t.switches == s.switches;
  }

  lemma ApplyAllAxes(d: Device, s: State, v: State, n: nat)
    requires ValidDevice(d) && AxesFit(d, s.axes) && AxesFit(d, v.axes)
    requires n > ABS_MAX
    ensures ApplyAll(d, v, AxisEvents(d, s, n)) == v.(axes := s.axes)
  {
    ApplyAxisEvents(d, s, v, n);
    assert forall k: nat :: k in s.axes ==> HasCode(d, EV_ABS, k);
    assert BelowMap(n, s.axes, v.axes) == s.axes;
  }

  /** Main result: a full batch takes a device from any state to exactly the
      source's keys, switches, plain axes, tracking ids and cursor, with the
      axes of the source's active slots. */
  lemma SyncBatchEffect(d: Device, s: State, v: State)
    requires ValidDevice(d) && WellFormed(d, s) && WellFormed(d, v)
    ensures ApplyAll(d, v, SyncBatch(d, s)) == Synced(s, v)
  {
    var keys, switches := TypeEvents(d, s, EV_KEY, KEY_MAX + 1), TypeEvents(d, s, EV_SW, SW_MAX + 1);
    var axes, touch := AxisEvents(d, s, ABS_MAX + 1), MultitouchEvents(d, s);
    var v1 := v.(keys := s.keys);
    var v2 := v1.(switches := s.switches);
    var v3 := v2.(axes := s.axes);
    ApplyAllSnoc(d, v, CapturedEvents(d, s), BOUNDARY);
    ApplyAllConcat(d, v, keys + switches + axes, touch);
    ApplyAllConcat(d, v, keys + switches, axes);
    ApplyAllConcat(d, v, keys, switches);
    ApplyAllKeys(d, s, v, KEY_MAX + 1);
    ApplyAllSwitches(d, s, v1, SW_MAX + 1);
    ApplyAllAxes(d, s, v2, ABS_MAX + 1);
    ApplyMultitouchEvents(d, s, v3);
  }

  /** The same for a device that represents the source's description. */
  lemma SyncReaches(d: Device, represented: Device, s: State, v: State)
    requires ValidDevice(d) && WellFormed(d, s) && WellFormed(represented, v)
    requires ProfileOf(d) == ProfileOf(represented)
    ensures |s.slots| == |v.slots|
    ensures ApplyAll(represented, v, SyncBatch(d, s)) == Synced(s, v)
  {
    EqualProfilesAgree(d, represented);
    EqualProfilesApplyAll(d, represented, v, SyncBatch(d, s));
    SyncBatchEffect(d, s, v);
  }

  /** The (slot, axis) pairs a synchronization covers: the axes of the slots
      that are active in the source. */
  ghost function KnownAfterSync(s: State): set<(nat, nat)> {
    set i: nat, a: nat | i < |s.slots| && s.slots[i].tracking >= 0 && a in s.slots[i].axes :: (i, a)
  }

  lemma SyncedMirrors(d: Device, s: State, v: State)
    requires WellFormed(d, s) && WellFormed(d, v)
    ensures Mirrors(s, Synced(s, v), KnownAfterSync(s))
  {
  }

  /** The axes of the slots that are idle in the source are left alone, so they
      match exactly when they matched before. */
  lemma SyncedMatchesFullyIff(d: Device, s: State, v: State)
    requires WellFormed(d, s) && WellFormed(d, v)
    ensures Synced(s, v) == s <==>
            forall i | 0 <= i < |s.slots| && s.slots[i].tracking < 0 :: v.slots[i].axes == s.slots[i].axes
  {
  }
}
