/** The uinput mirror: created from a copy of a source's capabilities, written
    event by event, and neutralized from what the kernel shows. */
module VirtualDevices {
  import opened Input
  import opened Evdev
  import opened Neutralization
  import opened SourceDevices

  // ----- Comparing capabilities -----

  method NullableStringsEqual(left: Option<string>, right: Option<string>) returns (equal: bool)
    ensures equal <==> left == right
  {
    if left.None? || right.None? {
      return left.None? && right.None?;
    }
    return left.value == right.value;
  }

  function AbsInfoOf(d: Device, code: nat): Option<AbsInfo> {
    if code in d.axes then Some(d.axes[code]) else None
  }

  method AbsoluteInfoEqual(left: Option<AbsInfo>, right: Option<AbsInfo>) returns (equal: bool)
    ensures equal <==> (left.Some? == right.Some? && (left.Some? ==> RangeOf(left.value) == RangeOf(right.value)))
  {
    if left.None? || right.None? {
      return left.None? && right.None?;
    }
    var l, r := left.value, right.value;
    return l.minimum == r.minimum && l.maximum == r.maximum && l.fuzz == r.fuzz && l.flat == r.flat &&
           l.resolution == r.resolution;
  }

  /** What a comparison of one code requires. */
  ghost predicate CodeAgrees(a: Device, b: Device, kind: nat, code: nat) {
    && HasCode(a, kind, code) == HasCode(b, kind, code)
    && (HasCode(b, kind, code) && kind == EV_ABS ==>
          code in a.axes && code in b.axes && RangeOf(a.axes[code]) == RangeOf(b.axes[code]))
    && (HasCode(b, kind, code) && kind == EV_REP ==>
          code in a.repeats && code in b.repeats && a.repeats[code] == b.repeats[code])
  }

  ghost predicate TypeAgrees(a: Device, b: Device, kind: nat) {
    && (kind in a.types <==> kind in b.types)
    && forall code: nat | code <= MaxCode(kind) :: CodeAgrees(a, b, kind, code)
  }

  lemma AgreementIsEqualProfiles(a: Device, b: Device)
    requires ValidDevice(a) && ValidDevice(b)
    requires a.uniq == b.uniq && a.bustype == b.bustype && a.vendor == b.vendor
    requires a.product == b.product && a.version == b.version
    requires forall p: nat | p <= INPUT_PROP_MAX :: p in a.properties <==> p in b.properties
    requires forall t: nat | t <= EV_MAX :: TypeAgrees(a, b, t)
    ensures ProfileOf(a) == ProfileOf(b)
  {
    assert a.properties == b.properties;
    assert forall t: nat :: t in a.types || t in b.types ==> TypeAgrees(a, b, t);
    assert a.types == b.types;
    forall t: nat, k: nat ensures HasCode(a, t, k) == HasCode(b, t, k) {
      if HasCode(a, t, k) || HasCode(b, t, k) {
        assert TypeAgrees(a, b, t) && CodeAgrees(a, b, t, k);
      }
    }
    assert a.codes == b.codes by {
      forall c: (nat, nat) ensures c in a.codes <==> c in b.codes {
        assert HasCode(a, c.0, c.1) == HasCode(b, c.0, c.1);
      }
    }
    assert TypeAgrees(a, b, EV_ABS) && TypeAgrees(a, b, EV_REP);
    assert forall k: nat :: k in a.axes ==> CodeAgrees(a, b, EV_ABS, k);
    assert forall k: nat :: k in a.repeats ==> CodeAgrees(a, b, EV_REP, k);
    assert forall k: nat :: k in b.axes <==> HasCode(b, EV_ABS, k);
    assert forall k: nat :: k in b.repeats <==> HasCode(b, EV_REP, k);
    assert ProfileOf(a).ranges == ProfileOf(b).ranges;
    assert a.repeats == b.repeats;
  }

  lemma EqualProfilesAgreeOnCodes(a: Device, b: Device, t: nat)
    requires ValidDevice(a) && ValidDevice(b) && ProfileOf(a) == ProfileOf(b)
    ensures TypeAgrees(a, b, t)
  {
    var pa, pb := ProfileOf(a), ProfileOf(b);
    forall k: nat ensures CodeAgrees(a, b, t, k) {
      assert HasCode(a, t, k) == HasCode(b, t, k);
      if k in a.axes {
        assert pa.ranges[k] == pb.ranges[k];
        assert k in pb.ranges;
      }
    }
  }

  method TypeCodesEqual(represented: Device, source: Device, kind: nat) returns (equal: bool)
    requires ValidDevice(represented) && ValidDevice(source)
    ensures equal <==> forall code: nat | code <= MaxCode(kind) :: CodeAgrees(represented, source, kind, code)
  {
    var maximumCode := MaxCode(kind);
    if maximumCode < 0 {
      return true;
    }
    for code := 0 to maximumCode + 1
      invariant forall c: nat | c < code :: CodeAgrees(represented, source, kind, c)
    {
      if HasCode(represented, kind, code) != HasCode(source, kind, code) {
        assert !CodeAgrees(represented, source, kind, code);
        return false;
      }
      if !HasCode(source, kind, code) {
        continue;
      }
      if kind == EV_ABS {
        var same := AbsoluteInfoEqual(AbsInfoOf(represented, code), AbsInfoOf(source, code));
        if !same {
          assert !CodeAgrees(represented, source, kind, code);
          return false;
        }
      }
      if kind == EV_REP && represented.repeats[code] != source.repeats[code] {
        assert !CodeAgrees(represented, source, kind, code);
        return false;
      }
    }
    return true;
  }

  /** Equal profiles are equal descriptions but for the name and the current
      values of axes. */
  lemma EqualProfilesIff(a: Device, b: Device)
    ensures ProfileOf(a) == ProfileOf(b) <==>
            && a.axes.Keys == b.axes.Keys
            && a.(name := b.name, axes := b.axes) == b
            && forall k | k in b.axes :: k in a.axes && a.axes[k].(value := b.axes[k].value) == b.axes[k]
  {
    var pa, pb := ProfileOf(a), ProfileOf(b);
    if pa == pb {
      assert a.axes.Keys == pa.ranges.Keys == pb.ranges.Keys == b.axes.Keys;
      assert forall k | k in b.axes :: pa.ranges[k] == pb.ranges[k];
    }
    if a.axes.Keys == b.axes.Keys &&
       forall k | k in b.axes :: k in a.axes && a.axes[k].(value := b.axes[k].value) == b.axes[k] {
      assert forall k | k in b.axes :: RangeOf(a.axes[k]) == RangeOf(b.axes[k]);
      assert pa.ranges == pb.ranges;
    }
  }

  /** The comparison decides equality of the represented projection: of all but
      the name and the current values of axes. */
  method CapabilitiesEqual(represented: Device, source: Device) returns (equal: bool)
    requires ValidDevice(represented) && ValidDevice(source)
    ensures equal <==> ProfileOf(represented) == ProfileOf(source)
    ensures equal <==>
            && represented.axes.Keys == source.axes.Keys
            && represented.(name := source.name, axes := source.axes) == source
            && forall k | k in source.axes ::
                 k in represented.axes && represented.axes[k].(value := source.axes[k].value) == source.axes[k]
  {
    EqualProfilesIff(represented, source);
    var same := NullableStringsEqual(represented.uniq, source.uniq);
    if !same || represented.bustype != source.bustype || represented.vendor != source.vendor ||
       represented.product != source.product || represented.version != source.version {
      return false;
    }
    for property := 0 to INPUT_PROP_MAX + 1
      invariant forall p: nat | p < property :: p in represented.properties <==> p in source.properties
    {
      if (property in represented.properties) != (property in source.properties) {
        return false;
      }
    }
    for kind := 0 to EV_MAX + 1
      invariant forall t: nat | t < kind :: TypeAgrees(represented, source, t)
    {
      if (kind in represented.types) != (kind in source.types) {
        return false;
      }
      same := TypeCodesEqual(represented, source, kind);
      if !same {
        if ProfileOf(represented) == ProfileOf(source) {
          EqualProfilesAgreeOnCodes(represented, source, kind);
        }
        return false;
      }
    }
    AgreementIsEqualProfiles(represented, source);
    return true;
  }

  // ----- Copying capabilities -----

  /** A description under construction. Enabling can fail for want of memory. */
  class Template {
    var device: Device

    constructor (name: string, source: Device)
      ensures device == Device(name, source.uniq, source.bustype, source.vendor, source.product,
                               source.version, {}, {}, {}, map[], map[])
    {
      device := Device(name, source.uniq, source.bustype, source.vendor, source.product,
                       source.version, {}, {}, {}, map[], map[]);
    }

    method EnableProperty(property: nat) returns (ok: bool)
      modifies this
      ensures device == if ok then old(device).(properties := old(device).properties + {property}) else old(device)
    {
      ok := *;
      if ok {
        device := device.(properties := device.properties + {property});
      }
    }

    method EnableType(kind: nat) returns (ok: bool)
      modifies this
      ensures device == if ok then old(device).(types := old(device).types + {kind}) else old(device)
    {
      ok := *;
      if ok {
        device := device.(types := device.types + {kind});
      }
    }

    /** Absolute axes and repeat codes carry data; other codes carry none. */
    method EnableCode(kind: nat, code: nat, info: Option<AbsInfo>, repeat: Option<int>) returns (ok: bool)
      modifies this
      ensures !ok ==> device == old(device)
      ensures ok ==> device == old(device).(
        codes := old(device).codes + {(kind, code)},
        axes := if info.Some? then old(device).axes[code := info.value] else old(device).axes,
        repeats := if repeat.Some? then old(device).repeats[code := repeat.value] else old(device).repeats)
    {
      ok := *;
      if ok {
        device := device.(
          codes := device.codes + {(kind, code)},
          axes := if info.Some? then device.axes[code := info.value] else device.axes,
          repeats := if repeat.Some? then device.repeats[code := repeat.value] else device.repeats);
      }
    }
  }

  /** The part of a source's codes that comes before (kind, code). */
  ghost predicate Before(c: (nat, nat), kind: nat, code: nat) {
    c.0 < kind || (c.0 == kind && c.1 < code)
  }

  /** `made` holds exactly the codes of `source` before (kind, code), with the
      data they carry. */
  ghost predicate CopiedBefore(made: Device, source: Device, kind: nat, code: nat) {
    && (forall c: (nat, nat) :: c in made.codes <==> c in source.codes && Before(c, kind, code))
    && (forall k: nat :: k in made.axes <==> k in source.axes && Before((EV_ABS, k), kind, code))
    && (forall k: nat :: k in made.axes ==> k in source.axes && made.axes[k] == source.axes[k])
    && (forall k: nat :: k in made.repeats <==> k in source.repeats && Before((EV_REP, k), kind, code))
    && (forall k: nat :: k in made.repeats ==> k in source.repeats && made.repeats[k] == source.repeats[k])
  }

  lemma CopiedTypeDone(made: Device, source: Device, kind: nat, code: nat)
    requires ValidDevice(source) && CopiedBefore(made, source, kind, code)
    requires code > MaxCode(kind) || kind !in source.types
    ensures CopiedBefore(made, source, kind + 1, 0)
  {
    forall c: (nat, nat) | c in source.codes ensures Before(c, kind + 1, 0) <==> Before(c, kind, code) {
      assert HasCode(source, c.0, c.1);
    }
    assert forall k: nat :: k in source.axes ==> HasCode(source, EV_ABS, k);
    assert forall k: nat :: k in source.repeats ==> HasCode(source, EV_REP, k);
  }

  method CopyTypeCodes(destination: Template, source: Device, kind: nat) returns (r: Result, ghost smooth: bool)
    requires ValidDevice(source) && kind in source.types
    requires CopiedBefore(destination.device, source, kind, 0)
    modifies destination
    ensures r in {Success, OutOfMemory} && (r == Success <==> smooth)
    ensures r == Success ==>
      CopiedBefore(destination.device, source, kind + 1, 0) &&
      destination.device == old(destination.device).(
        codes := destination.device.codes, axes := destination.device.axes, repeats := destination.device.repeats)
  {
    var maximumCode := MaxCode(kind);
    if maximumCode < 0 {
      CopiedTypeDone(destination.device, source, kind, 0);
      return Success, true;
    }
    smooth := true;
    for code := 0 to maximumCode + 1
      invariant smooth && CopiedBefore(destination.device, source, kind, code)
      invariant destination.device == old(destination.device).(
        codes := destination.device.codes, axes := destination.device.axes, repeats := destination.device.repeats)
    {
      if !HasCode(source, kind, code) {
        continue;
      }
      var info, repeat := None, None;
      if kind == EV_ABS {
        info := AbsInfoOf(source, code);
      } else if kind == EV_REP {
        repeat := Some(source.repeats[code]);
      }
      var ok := destination.EnableCode(kind, code, info, repeat);
      smooth := smooth && ok;
      if !ok {
        return OutOfMemory, smooth;
      }
    }
    CopiedTypeDone(destination.device, source, kind, maximumCode + 1);
    r := Success;
  }

  /** Copies properties, types, codes and the data they carry. */
  method CopyCapabilities(destination: Template, source: Device) returns (r: Result, ghost smooth: bool)
    requires ValidDevice(source)
    requires destination.device.properties == {} && destination.device.types == {}
    requires destination.device.codes == {} && destination.device.axes == map[]
    requires destination.device.repeats == map[]
    modifies destination
    ensures r in {Success, OutOfMemory} && (r == Success <==> smooth)
    ensures r == Success ==> destination.device == old(destination.device).(
      properties := source.properties, types := source.types, codes := source.codes,
      axes := source.axes, repeats := source.repeats)
  {
    ghost var start := destination.device;
    smooth := true;
    for property := 0 to INPUT_PROP_MAX + 1
      invariant smooth && destination.device == start.(properties := destination.device.properties)
      invariant forall p: nat :: p in destination.device.properties <==> p in source.properties && p < property
    {
      if property in source.properties {
        var ok := destination.EnableProperty(property);
        smooth := smooth && ok;
        if !ok {
          return OutOfMemory, smooth;
        }
      }
    }
    assert destination.device.properties == source.properties;
    for kind := 0 to EV_MAX + 1
      invariant destination.device == start.(
        properties := source.properties, types := destination.device.types, codes := destination.device.codes,
        axes := destination.device.axes, repeats := destination.device.repeats)
      invariant forall t: nat :: t in destination.device.types <==> t in source.types && t < kind
      invariant smooth && CopiedBefore(destination.device, source, kind, 0)
    {
      if kind !in source.types {
        CopiedTypeDone(destination.device, source, kind, 0);
        continue;
      }
      var ok := destination.EnableType(kind);
      smooth := smooth && ok;
      if !ok {
        return OutOfMemory, smooth;
      }
      ghost var more;
      r, more := CopyTypeCodes(destination, source, kind);
      smooth := smooth && more;
      if r != Success {
        return;
      }
    }
    CopiedAll(destination.device, source);
    assert destination.device.types == source.types;
    r := Success;
  }

  lemma CopiedAll(made: Device, source: Device)
    requires ValidDevice(source) && CopiedBefore(made, source, EV_MAX + 1, 0)
    ensures made.codes == source.codes && made.axes == source.axes && made.repeats == source.repeats
  {
    forall c: (nat, nat) | c in source.codes ensures Before(c, EV_MAX + 1, 0) {
      assert HasCode(source, c.0, c.1);
    }
    assert made.codes == source.codes;
    assert made.axes == source.axes;
    assert made.repeats == source.repeats;
  }

  /** A description named `name` with a source's whole represented projection. */
  method CreateTemplate(source: Device, name: string) returns (r: Result, template: Template?, ghost smooth: bool)
    requires ValidDevice(source)
    ensures r in {Success, OutOfMemory} && (r == Success <==> template != null) && (r == Success <==> smooth)
    ensures template != null ==>
      fresh(template) && template.device == source.(name := name) && ProfileOf(template.device) == ProfileOf(source)
  {
    template := null;
    var memory: bool := *;
    smooth := memory;
    if !memory {
      return OutOfMemory, null, smooth;
    }
    var t := new Template(name, source);
    ghost var more;
    r, more := CopyCapabilities(t, source);
    smooth := smooth && more;
    if r != Success {
      return;
    }
    template := t;
  }

  // ----- The device -----

  /** What a freshly created device shows: every key up, every slot unused, the
      axes at values the kernel chose. */
  function FreshState(d: Device, axis: map<nat, int>): State {
    State({}, {},
          map a: nat | a in d.axes && PlainAxis(d, a) :: if a in axis then axis[a] else 0,
          0,
          seq(if TypeB(d) && SlotCount(d) > 0 then SlotCount(d) else 0,
              _ => Slot(-1, map a: nat | a in d.axes && SlotAxis(d, a) :: if a in axis then axis[a] else 0)))
  }

  lemma FreshStateIsNeutral(d: Device, axis: map<nat, int>)
    requires ValidDevice(d)
    ensures WellFormed(d, FreshState(d, axis)) && Neutral(FreshState(d, axis))
  {
  }

  class VirtualDevice {
    const capabilities: Device
    var kernel: State
    ghost var written: seq<Event>
    ghost var destroyed: bool

    ghost predicate Valid()
      reads this
    {
      !destroyed && ValidDevice(capabilities) && WellFormed(capabilities, kernel)
    }

    constructor (template: Device, axis: map<nat, int>)
      requires ValidDevice(template)
      ensures Valid() && capabilities == template && Neutral(kernel) && written == []
    {
      FreshStateIsNeutral(template, axis);
      capabilities, kernel, written, destroyed := template, FreshState(template, axis), [], false;
    }

    ghost method Destroy()
      requires !destroyed
      modifies this`destroyed
      ensures destroyed
    {
      destroyed := true;
    }

    method WriteEvent(e: Event) returns (r: Result, ghost smooth: bool)
      requires Valid()
      modifies this`kernel, this`written
      ensures Valid()
      ensures r in {Success, WriteFailed} && (r == Success <==> smooth)
      ensures kernel == if r == Success then Apply(capabilities, old(kernel), e) else old(kernel)
      ensures written == if r == Success then old(written) + [e] else old(written)
    {
      var delivered: bool := *;
      smooth := delivered;
      if !delivered {
        return WriteFailed, smooth;
      }
      ApplyKeepsWellFormed(capabilities, kernel, e);
      kernel := Apply(capabilities, kernel, e);
      written := written + [e];
      r := Success;
    }

    /** `kernel` is what `start` became by the events written since `before`. */
    ghost predicate Wrote(before: seq<Event>, start: State, part: seq<Event>)
      reads this
    {
      written == before + part && kernel == ApplyAll(capabilities, start, part)
    }

    /** Writes a captured list and its boundary; `part` is what was written. */
    method WriteSynchronization(events: seq<Event>) returns (r: Result, ghost part: seq<Event>, ghost smooth: bool)
      requires Valid()
      modifies this`kernel, this`written
      ensures Valid() && r in {Success, WriteFailed} && (r == Success <==> smooth)
      ensures Wrote(old(written), old(kernel), part)
      ensures if r == Success then part == events + [BOUNDARY] else part <= events
    {
      part := [];
      for index := 0 to |events|
        invariant Valid() && Wrote(old(written), old(kernel), part)
        invariant part == events[..index]
      {
        ApplyAllSnoc(capabilities, old(kernel), part, events[index]);
        r, smooth := WriteEvent(events[index]);
        if r != Success {
          return;
        }
        part := part + [events[index]];
      }
      ApplyAllSnoc(capabilities, old(kernel), part, BOUNDARY);
      r, smooth := WriteEvent(BOUNDARY);
      if r == Success {
        part := part + [BOUNDARY];
      }
    }

    /** Writes one event of a batch of which `part` is already written. */
    method WriteNeutralizingEvent(
        kind: nat, code: nat, value: int, ghost before: seq<Event>, ghost start: State, ghost part: seq<Event>)
      returns (r: Result, ghost smooth: bool)
      requires Valid() && Wrote(before, start, part)
      modifies this`kernel, this`written
      ensures Valid() && r in {Success, WriteFailed} && (r == Success <==> smooth)
      ensures Wrote(before, start, if r == Success then part + [Event(kind, code, value)] else part)
    {
      ApplyAllSnoc(capabilities, start, part, Event(kind, code, value));
      r, smooth := WriteEvent(Event(kind, code, value));
    }

    /** Reads the advertised keys from the kernel's state of this device. */
    method QueryKeys(keyValues: array<int>) returns (r: Result, ghost smooth: bool)
      requires Valid() && keyValues.Length == KEY_MAX + 1
      requires forall c: nat | c <= KEY_MAX :: keyValues[c] == 0
      modifies keyValues
      ensures r in {Success, ReadFailed} && (r == Success <==> smooth)
      ensures r == Success ==> forall c: nat | c <= KEY_MAX ::
        keyValues[c] != 0 <==> HasCode(capabilities, EV_KEY, c) && c in kernel.keys
    {
      smooth := true;
      for code := 0 to KEY_MAX + 1
        invariant smooth
        invariant forall c: nat | c < code ::
          keyValues[c] != 0 <==> HasCode(capabilities, EV_KEY, c) && c in kernel.keys
        invariant forall c: nat | code <= c <= KEY_MAX :: keyValues[c] == 0
      {
        if !HasCode(capabilities, EV_KEY, code) {
          continue;
        }
        var fetched: bool := *;
        smooth := fetched;
        if !fetched {
          return ReadFailed, smooth;
        }
        keyValues[code] := if code in kernel.keys then 1 else 0;
      }
      r := Success;
    }

    method QueryContacts(trackingIds: array<int>) returns (r: Result, ghost smooth: bool)
      requires Valid() && trackingIds.Length == |kernel.slots|
      modifies trackingIds
      ensures r in {Success, ReadFailed} && (r == Success <==> smooth)
      ensures r == Success ==> forall i | 0 <= i < |kernel.slots| :: trackingIds[i] == kernel.slots[i].tracking
    {
      smooth := true;
      for slot := 0 to trackingIds.Length
        invariant smooth
        invariant forall i | 0 <= i < slot :: trackingIds[i] == kernel.slots[i].tracking
      {
        var fetched: bool := *;
        smooth := fetched;
        if !fetched {
          return ReadFailed, smooth;
        }
        trackingIds[slot] := kernel.slots[slot].tracking;
      }
      r := Success;
    }

    method ReleaseKeys(keyValues: array<int>, ghost before: seq<Event>, ghost start: State)
      returns (r: Result, changed: bool, ghost part: seq<Event>, ghost smooth: bool)
      requires Valid() && keyValues.Length == KEY_MAX + 1 && Wrote(before, start, [])
      requires forall c: nat | c <= KEY_MAX ::
        keyValues[c] != 0 <==> HasCode(capabilities, EV_KEY, c) && c in start.keys
      modifies this`kernel, this`written
      ensures Valid() && r in {Success, WriteFailed} && (r == Success <==> smooth)
      ensures Wrote(before, start, part)
      ensures var batch := ReleasedKeys(capabilities, start, KEY_MAX + 1);
              if r == Success then part == batch && (changed <==> batch != []) else part < batch
    {
      changed, part, smooth := false, [], true;
      for code := 0 to KEY_MAX + 1
        invariant smooth && Valid() && Wrote(before, start, part)
        invariant part == ReleasedKeys(capabilities, start, code)
        invariant changed <==> part != []
      {
        if !HasCode(capabilities, EV_KEY, code) || keyValues[code] == 0 {
          continue;
        }
        r, smooth := WriteNeutralizingEvent(EV_KEY, code, 0, before, start, part);
        if r != Success {
          ReleasedKeysGrow(capabilities, start, code + 1, KEY_MAX + 1);
          return;
        }
        part := part + [Event(EV_KEY, code, 0)];
        changed := true;
      }
      r := Success;
    }

    method EndContact(slot: nat, ghost before: seq<Event>, ghost start: State, ghost from: seq<Event>)
      returns (r: Result, ghost part: seq<Event>, ghost smooth: bool)
      requires Valid() && Wrote(before, start, from)
      modifies this`kernel, this`written
      ensures Valid() && r in {Success, WriteFailed} && (r == Success <==> smooth)
      ensures Wrote(before, start, from + part)
      ensures if r == Success then part == ReleaseContact(slot) else part < ReleaseContact(slot)
    {
      part := [];
      assert from + [] == from;
      r, smooth := WriteNeutralizingEvent(EV_ABS, ABS_MT_SLOT, slot, before, start, from);
      if r != Success {
        return;
      }
      part := ReleaseContact(slot)[..1];
      assert from + part == from + [ReleaseContact(slot)[0]];
      r, smooth := WriteNeutralizingEvent(EV_ABS, ABS_MT_TRACKING_ID, -1, before, start, from + part);
      if r != Success {
        return;
      }
      assert from + ReleaseContact(slot) == from + part + [ReleaseContact(slot)[1]];
      part := ReleaseContact(slot);
    }

    method ReleaseContacts(
        trackingIds: array<int>, ghost before: seq<Event>, ghost start: State, ghost from: seq<Event>)
      returns (r: Result, changed: bool, ghost part: seq<Event>, ghost smooth: bool)
      requires Valid() && trackingIds.Length == |start.slots| && Wrote(before, start, from)
      requires forall i | 0 <= i < |start.slots| :: trackingIds[i] == start.slots[i].tracking
      modifies this`kernel, this`written
      ensures Valid() && r in {Success, WriteFailed} && (r == Success <==> smooth)
      ensures Wrote(before, start, from + part)
      ensures var batch := ReleasedContacts(start.slots, |start.slots|);
              if r == Success then part == batch && (changed <==> batch != []) else part < batch
    {
      changed, part, smooth := false, [], true;
      assert from + part == from;
      for slot := 0 to trackingIds.Length
        invariant smooth && Valid() && Wrote(before, start, from + part)
        invariant part == ReleasedContacts(start.slots, slot)
        invariant changed <==> part != []
      {
        if trackingIds[slot] < 0 {
          continue;
        }
        ghost var more;
        r, more, smooth := EndContact(slot, before, start, from + part);
        assert from + part + more == from + (part + more);
        ReleasedContactsStep(start.slots, slot, more);
        part := part + more;
        if r != Success {
          return;
        }
        changed := true;
      }
      r := Success;
    }

    /** Releases exactly what the kernel shows as held. A failed query writes
        nothing; a failed write leaves a proper part of the batch. */
    method Neutralize() returns (r: Result, ghost smooth: bool)
      requires Valid()
      modifies this`kernel, this`written
      ensures Valid()
      ensures r in {Success, ReadFailed, OutOfMemory, WriteFailed}
      ensures r == Success <==> smooth && (TypeB(capabilities) ==> old(kernel.slots) != [])
      ensures r == Success ==>
        written == old(written) + NeutralBatch(capabilities, old(kernel)) && kernel == Neutralized(old(kernel))
      ensures r in {ReadFailed, OutOfMemory} ==> written == old(written) && kernel == old(kernel)
      ensures old(written) <= written
      ensures r == WriteFailed ==> written[|old(written)|..] < NeutralBatch(capabilities, old(kernel))
    {
      ghost var before, start := written, kernel;
      var nodeOpened: bool := *;
      smooth := nodeOpened;
      if !nodeOpened {
        return ReadFailed, smooth;
      }
      var keyValues := new int[KEY_MAX + 1](_ => 0);
      ghost var more;
      r, more := QueryKeys(keyValues);
      smooth := smooth && more;
      if r != Success {
        return;
      }
      var slotCount := 0;
      if TypeB(capabilities) {
        slotCount := |kernel.slots|;
        if slotCount <= 0 {
          return ReadFailed, smooth;
        }
        var memory: bool := *;
        smooth := smooth && memory;
        if !memory {
          return OutOfMemory, smooth;
        }
      }
      var trackingIds := new int[slotCount];
      r, more := QueryContacts(trackingIds);
      smooth := smooth && more;
      if r != Success {
        return;
      }
      assert Wrote(before, start, []);
      var changedKeys, changedContacts;
      ghost var keys, contacts;
      r, changedKeys, keys, more := ReleaseKeys(keyValues, before, start);
      smooth := smooth && more;
      if r != Success {
        return;
      }
      r, changedContacts, contacts, more := ReleaseContacts(trackingIds, before, start, keys);
      smooth := smooth && more;
      if r != Success {
        return;
      }
      if changedKeys || changedContacts {
        r, more := WriteNeutralizingEvent(EV_SYN, SYN_REPORT, 0, before, start, keys + contacts);
        smooth := smooth && more;
      }
      NeutralBatchEffect(capabilities, start);
    }
  }

  lemma {:induction false} ReleasedKeysGrow(d: Device, v: State, m: nat, n: nat)
    requires m <= n
    ensures ReleasedKeys(d, v, m) <= ReleasedKeys(d, v, n)
  {
    if m < n {
      ReleasedKeysGrow(d, v, m, n - 1);
    }
  }

  lemma {:induction false} ReleasedContactsGrow(slots: seq<Slot>, m: nat, n: nat)
    requires m <= n <= |slots|
    ensures ReleasedContacts(slots, m) <= ReleasedContacts(slots, n)
  {
    if m < n {
      ReleasedContactsGrow(slots, m, n - 1);
    }
  }

  lemma ReleasedContactsStep(slots: seq<Slot>, i: nat, more: seq<Event>)
    requires i < |slots| && slots[i].tracking >= 0 && more <= ReleaseContact(i)
    ensures more == ReleaseContact(i) ==> ReleasedContacts(slots, i) + more == ReleasedContacts(slots, i + 1)
    ensures more < ReleaseContact(i) ==> ReleasedContacts(slots, i) + more < ReleasedContacts(slots, |slots|)
  {
    ReleasedContactsGrow(slots, i + 1, |slots|);
    assert ReleasedContacts(slots, i) + more <= ReleasedContacts(slots, i + 1);
  }

  /** Creates the virtual device of a source under the instance's name. */
  method CreateVirtualDevice(source: SourceDevice, name: string)
    returns (r: Result, device: VirtualDevice?, ghost smooth: bool)
    requires source.Valid()
    ensures r in {Success, OutOfMemory, UinputUnavailable, CreateFailed}
    ensures (r == Success <==> device != null) && (r == Success <==> smooth)
    ensures device != null ==>
      fresh(device) && device.Valid() && Neutral(device.kernel) && device.written == [] &&
      device.capabilities == source.device.(name := name) && ProfileOf(device.capabilities) == ProfileOf(source.device)
  {
    device := null;
    var memory: bool := *;
    smooth := memory;
    if !memory {
      return OutOfMemory, null, smooth;
    }
    var template;
    ghost var more;
    r, template, more := CreateTemplate(source.device, name);
    smooth := smooth && more;
    if r != Success {
      return;
    }
    r := *;
    smooth := smooth && r == Success;
    if r !in {Success, OutOfMemory, UinputUnavailable} {
      r := CreateFailed;
    }
    if r == Success {
      assert forall t: nat, k: nat :: HasCode(template.device, t, k) == HasCode(source.device, t, k);
      var axis: map<nat, int> := *;
      device := new VirtualDevice(template.device, axis);
    }
  }

  /** Whether a retained device can serve a source that came back. */
  method IsCompatible(device: VirtualDevice, source: SourceDevice) returns (compatible: bool)
    requires device.Valid() && source.Valid()
    ensures compatible <==> ProfileOf(device.capabilities) == ProfileOf(source.device)
    ensures compatible <==>
            && device.capabilities.axes.Keys == source.device.axes.Keys
            && device.capabilities.(name := source.device.name, axes := source.device.axes) == source.device
            && forall k | k in source.device.axes ::
                 && k in device.capabilities.axes
                 && device.capabilities.axes[k].(value := source.device.axes[k].value) == source.device.axes[k]
  {
    compatible := CapabilitiesEqual(device.capabilities, source.device);
  }
}
