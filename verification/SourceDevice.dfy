/** The physical source: an evdev node read through libevdev. `view` is
    libevdev's local state, which every successful read advances. */
module SourceDevices {
  import opened Input
  import opened Evdev
  import opened Capture

  /** An evdev node as the kernel offers it when it is opened. */
  datatype Node = Node(device: Device, state: State)

  const EMPTY_NODE := Node(
    Device("", None, 0, 0, 0, 0, {}, {}, {}, map[], map[]),
    State({}, {}, map[], 0, []))

  type EvdevNode = n: Node | ValidDevice(n.device) && WellFormed(n.device, n.state) witness EMPTY_NODE

  /** The growing event list of a capture. */
  class SourceState {
    var events: seq<Event>

    constructor ()
      ensures events == []
    {
      events := [];
    }

    method Append(kind: nat, code: nat, value: int) returns (r: Result, ghost memory: bool)
      modifies this
      ensures r in {Success, OutOfMemory} && (r == Success <==> memory)
      ensures events == if r == Success then old(events) + [Event(kind, code, value)] else old(events)
    {
      var obtained: bool := *;
      memory := obtained;
      if !obtained {
        return OutOfMemory, memory;
      }
      events := events + [Event(kind, code, value)];
      return Success, memory;
    }
  }

  class SourceDevice {
    const device: Device
    var view: State
    ghost var consumed: seq<Event>
    ghost var closed: bool

    ghost predicate Valid()
      reads this
    {
      !closed && ValidDevice(device) && WellFormed(device, view)
    }

    constructor (node: EvdevNode)
      ensures Valid() && device == node.device && view == node.state && consumed == []
    {
      device, view, consumed, closed := node.device, node.state, [], false;
    }

    ghost method Close()
      requires !closed
      modifies this`closed
      ensures closed
    {
      closed := true;
    }

    /** A normal or a recovery read: the kernel decides the answer and the
        event. */
    method Read(answers: set<Result>) returns (r: Result, e: Event)
      requires Valid()
      requires ReadFailed in answers
      modifies this`view, this`consumed
      ensures Valid()
      ensures r in answers
      ensures r == Success ==> view == Apply(device, old(view), e) && consumed == old(consumed) + [e]
      ensures r != Success ==> view == old(view) && consumed == old(consumed)
    {
      r, e := *, *;
      if r !in answers {
        r := ReadFailed;
      }
      if r == Success {
        ApplyKeepsWellFormed(device, view, e);
        view := Apply(device, view, e);
        consumed := consumed + [e];
      }
    }

    method ReadEvent() returns (r: Result, e: Event)
      requires Valid()
      modifies this`view, this`consumed
      ensures Valid()
      ensures r in {Success, SyncRequired, Unavailable, Disconnected, ReadFailed}
      ensures r == Success ==> view == Apply(device, old(view), e) && consumed == old(consumed) + [e]
      ensures r != Success ==> view == old(view) && consumed == old(consumed)
    {
      r, e := Read({Success, SyncRequired, Unavailable, Disconnected, ReadFailed});
    }

    method ReadSyncEvent() returns (r: Result, e: Event)
      requires Valid()
      modifies this`view, this`consumed
      ensures Valid()
      ensures r in {Success, Unavailable, Disconnected, ReadFailed}
      ensures r == Success ==> view == Apply(device, old(view), e) && consumed == old(consumed) + [e]
      ensures r != Success ==> view == old(view) && consumed == old(consumed)
    {
      r, e := Read({Success, Unavailable, Disconnected, ReadFailed});
    }

    method CaptureEventType(state: SourceState, kind: nat, maximum: nat) returns (r: Result, ghost smooth: bool)
      requires Valid() && kind in {EV_KEY, EV_SW}
      modifies state
      ensures r in {Success, ReadFailed, OutOfMemory} && (r == Success <==> smooth)
      ensures r == Success ==> state.events == old(state.events) + TypeEvents(device, view, kind, maximum + 1)
    {
      smooth := true;
      for code := 0 to maximum + 1
        invariant state.events == old(state.events) + TypeEvents(device, view, kind, code)
        invariant smooth
      {
        if !HasCode(device, kind, code) {
          continue;
        }
        var fetched: bool := *;
        smooth := fetched;
        if !fetched {
          return ReadFailed, smooth;
        }
        ghost var memory;
        r, memory := state.Append(kind, code, SwitchValue(view, kind, code));
        smooth := smooth && memory;
        if r != Success {
          return;
        }
      }
      r := Success;
    }

    method CaptureAbsoluteState(state: SourceState, typeB: bool) returns (r: Result, ghost smooth: bool)
      requires Valid() && typeB == TypeB(device)
      modifies state
      ensures r in {Success, ReadFailed, OutOfMemory} && (r == Success <==> smooth)
      ensures r == Success ==> state.events == old(state.events) + AxisEvents(device, view, ABS_MAX + 1)
    {
      smooth := true;
      for code := 0 to ABS_MAX + 1
        invariant state.events == old(state.events) + AxisEvents(device, view, code)
        invariant smooth
      {
        if !HasCode(device, EV_ABS, code) {
          continue;
        }
        if typeB && (code == ABS_MT_SLOT || IsMultitouchAxis(code)) {
          continue;
        }
        var fetched: bool := *;
        smooth := fetched;
        if !fetched {
          return ReadFailed, smooth;
        }
        ghost var memory;
        r, memory := state.Append(EV_ABS, code, view.axes[code]);
        smooth := smooth && memory;
        if r != Success {
          return;
        }
      }
      r := Success;
    }

    method CaptureSlotAxes(state: SourceState, slot: nat) returns (r: Result, ghost smooth: bool)
      requires Valid() && TypeB(device) && slot < |view.slots|
      modifies state
      ensures r in {Success, ReadFailed, OutOfMemory} && (r == Success <==> smooth)
      ensures r == Success ==>
        SlotFits(device, view.slots[slot]) &&
        state.events == old(state.events) + SlotAxisEvents(device, view.slots[slot], ABS_MT_TOOL_Y + 1)
    {
      ghost var current := view.slots[slot];
      assert SlotFits(device, current);
      NoSlotAxesBelow(device, current, ABS_MT_TOUCH_MAJOR);
      smooth := true;
      for code := ABS_MT_TOUCH_MAJOR to ABS_MT_TOOL_Y + 1
        invariant state.events == old(state.events) + SlotAxisEvents(device, current, code)
        invariant smooth
      {
        if code == ABS_MT_TRACKING_ID || !HasCode(device, EV_ABS, code) {
          continue;
        }
        var fetched: bool := *;
        smooth := fetched;
        if !fetched {
          return ReadFailed, smooth;
        }
        ghost var memory;
        r, memory := state.Append(EV_ABS, code, view.slots[slot].axes[code]);
        smooth := smooth && memory;
        if r != Success {
          return;
        }
      }
      r := Success;
    }

    method CaptureSlot(state: SourceState, slot: nat) returns (r: Result, ghost smooth: bool)
      requires Valid() && TypeB(device) && slot < |view.slots|
      modifies state
      ensures r in {Success, ReadFailed, OutOfMemory} && (r == Success <==> smooth)
      ensures r == Success ==> state.events == old(state.events) + SlotEvents(device, view, slot)
    {
      ghost var memory, more;
      r, smooth := state.Append(EV_ABS, ABS_MT_SLOT, slot);
      if r != Success {
        return;
      }
      var fetched: bool := *;
      smooth := fetched;
      if !fetched {
        return ReadFailed, smooth;
      }
      var tracking := view.slots[slot].tracking;
      r, memory := state.Append(EV_ABS, ABS_MT_TRACKING_ID, tracking);
      smooth := smooth && memory;
      if r != Success || tracking < 0 {
        return;
      }
      r, more := CaptureSlotAxes(state, slot);
      smooth := smooth && more;
    }

    method CaptureMultitouchState(state: SourceState) returns (r: Result, ghost smooth: bool)
      requires Valid() && TypeB(device)
      modifies state
      ensures r in {Success, ReadFailed, OutOfMemory}
      ensures r == Success <==> smooth && view.slots != []
      ensures r == Success ==>
        view.slots != [] && state.events == old(state.events) + MultitouchEvents(device, view)
    {
      var fetched: bool := *;
      smooth := fetched;
      if !fetched {
        return ReadFailed, smooth;
      }
      var currentSlot := view.cursor;
      var slotCount := SlotCount(device);
      if slotCount <= 0 {
        return ReadFailed, smooth;
      }
      for slot := 0 to slotCount
        invariant smooth
        invariant state.events == old(state.events) + AllSlotEvents(device, view, slot)
      {
        ghost var more;
        r, more := CaptureSlot(state, slot);
        smooth := smooth && more;
        if r != Success {
          return;
        }
      }
      ghost var memory;
      r, memory := state.Append(EV_ABS, ABS_MT_SLOT, currentSlot);
      smooth := smooth && memory;
    }

    /** Captures the whole current state, or nothing. */
    method CaptureState(state: SourceState) returns (r: Result, ghost smooth: bool)
      requires Valid()
      modifies state
      ensures r in {Success, ReadFailed, OutOfMemory}
      ensures r == Success <==> smooth && (TypeB(device) ==> view.slots != [])
      ensures r == Success ==> state.events == CapturedEvents(device, view)
      ensures r == Success && TypeB(device) ==> view.slots != []
      ensures r != Success ==> state.events == []
    {
      state.events := [];
      r, smooth := CaptureEventType(state, EV_KEY, KEY_MAX);
      if r != Success {
        state.events := [];
        return;
      }
      ghost var more;
      r, more := CaptureEventType(state, EV_SW, SW_MAX);
      smooth := smooth && more;
      if r != Success {
        state.events := [];
        return;
      }
      var typeB := HasCode(device, EV_ABS, ABS_MT_SLOT) && HasCode(device, EV_ABS, ABS_MT_TRACKING_ID);
      r, more := CaptureAbsoluteState(state, typeB);
      smooth := smooth && more;
      if r != Success {
        state.events := [];
        return;
      }
      if typeB {
        r, more := CaptureMultitouchState(state);
        smooth := smooth && more;
        if r != Success {
          state.events := [];
        }
      }
    }

    /** Whether the source is still there. */
    method CheckAvailable() returns (r: Result, ghost present: bool)
      requires Valid()
      ensures r in {Success, Disconnected, ReadFailed}
      ensures present <==> r == Success
    {
      r := *;
      if r !in {Success, Disconnected} {
        r := ReadFailed;
      }
      present := r == Success;
    }
  }

  lemma {:induction false} NoSlotAxesBelow(d: Device, slot: Slot, n: nat)
    requires SlotFits(d, slot) && n <= ABS_MT_TOUCH_MAJOR
    ensures SlotAxisEvents(d, slot, n) == []
  {
    if n > 0 {
      NoSlotAxesBelow(d, slot, n - 1);
    }
  }

  /** Opens the configured path. */
  method OpenSource() returns (r: Result, source: SourceDevice?)
    ensures r in {Success, SourceUnavailable, PermissionDenied, OpenFailed, OutOfMemory}
    ensures r == Success <==> source != null
    ensures source != null ==> fresh(source) && source.Valid() && source.consumed == []
  {
    r := *;
    if r !in {Success, SourceUnavailable, PermissionDenied, OutOfMemory} {
      r := OpenFailed;
    }
    if r == Success {
      var node: EvdevNode := *;
      source := new SourceDevice(node);
    } else {
      source := null;
    }
  }
}
