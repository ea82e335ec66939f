/** The events that release everything a virtual device holds down, what they
    do, how many there are, and that they are needed only once. */
module Neutralization {
  import opened Input
  import opened Evdev

  /** Releases of the pressed keys below `n`. */
  function ReleasedKeys(d: Device, v: State, n: nat): seq<Event> {
    if n == 0 then []
    else ReleasedKeys(d, v, n - 1) +
         if HasCode(d, EV_KEY, n - 1) && n - 1 in v.keys then [Event(EV_KEY, n - 1, 0)] else []
  }

  function ReleaseContact(i: nat): seq<Event> {
    [Event(EV_ABS, ABS_MT_SLOT, i), Event(EV_ABS, ABS_MT_TRACKING_ID, -1)]
  }

  /** Releases of the contacts in the slots below `n`. */
  function ReleasedContacts(slots: seq<Slot>, n: nat): seq<Event>
    requires n <= |slots|
  {
    if n == 0 then []
    else ReleasedContacts(slots, n - 1) +
         if slots[n - 1].tracking < 0 then [] else ReleaseContact(n - 1)
  }

  function Releases(d: Device, v: State): seq<Event> {
    ReleasedKeys(d, v, KEY_MAX + 1) + ReleasedContacts(v.slots, |v.slots|)
  }

  /** The whole batch: a boundary follows only if something was released. */
  function NeutralBatch(d: Device, v: State): seq<Event> {
    if Releases(d, v) == [] then [] else Releases(d, v) + [BOUNDARY]
  }

  // ----- What the batch does -----

  lemma {:induction false} ApplyReleasedKeys(d: Device, v: State, n: nat)
    ensures var t := ApplyAll(d, v, ReleasedKeys(d, v, n));
            && t == v.(keys := t.keys)
            && forall k: nat :: k in t.keys <==> k in v.keys && !(k < n && HasCode(d, EV_KEY, k))
  {
    if n > 0 {
      ApplyReleasedKeys(d, v, n - 1);
      var rest := ReleasedKeys(d, v, n - 1);
      if HasCode(d, EV_KEY, n - 1) && n - 1 in v.keys {
        ApplyAllSnoc(d, v, rest, Event(EV_KEY, n - 1, 0));
      } else {
        assert ReleasedKeys(d, v, n) == rest;
      }
    }
  }

  lemma ApplyAllReleasedKeys(d: Device, v: State, n: nat)
    requires ValidDevice(d) && SwitchesFit(d, EV_KEY, v.keys) && n > KEY_MAX
    ensures ApplyAll(d, v, ReleasedKeys(d, v, n)) == v.(keys := {})
  {
    ApplyReleasedKeys(d, v, n);
    var t := ApplyAll(d, v, ReleasedKeys(d, v, n));
    assert forall k: nat :: k in v.keys ==> HasCode(d, EV_KEY, k) && k < n;
    assert t.keys == {};
  }

  function EndedContact(slot: Slot): Slot {
    if slot.tracking < 0 then slot else slot.(tracking := -1)
  }

  function EndedContacts(slots: seq<Slot>, n: nat): seq<Slot>
    requires n <= |slots|
  {
    seq(|slots|, i requires 0 <= i < |slots| => if i < n then EndedContact(slots[i]) else slots[i])
  }

  /** Where the cursor is left: on the last slot that was released. */
  function LastContact(slots: seq<Slot>, n: nat, cursor: nat): nat
    requires n <= |slots|
  {
    if n == 0 then cursor
    else if slots[n - 1].tracking < 0 then LastContact(slots, n - 1, cursor)
    else n - 1
  }

  lemma ApplyReleaseContact(d: Device, v: State, i: nat)
    requires TypeB(d) && i < |v.slots|
    ensures ApplyAll(d, v, ReleaseContact(i)) ==
            v.(cursor := i, slots := v.slots[i := v.slots[i].(tracking := -1)])
  {
    var e := ReleaseContact(i);
    ApplyAllSnoc(d, v, [e[0]], e[1]);
    ApplyAllSnoc(d, v, [], e[0]);
    assert [e[0]] + [e[1]] == e && [] + [e[0]] == [e[0]];
  }

  lemma {:induction false} ApplyReleasedContacts(d: Device, v: State, n: nat)
    requires v.slots != [] ==> TypeB(d)
    requires n <= |v.slots|
    ensures ApplyAll(d, v, ReleasedContacts(v.slots, n)) ==
            v.(cursor := LastContact(v.slots, n, v.cursor), slots := EndedContacts(v.slots, n))
  {
    if n == 0 {
      assert EndedContacts(v.slots, 0) == v.slots;
    } else {
      ApplyReleasedContacts(d, v, n - 1);
      var rest := ReleasedContacts(v.slots, n - 1);
      if v.slots[n - 1].tracking < 0 {
        assert ReleasedContacts(v.slots, n) == rest;
        assert EndedContacts(v.slots, n) == EndedContacts(v.slots, n - 1);
      } else {
        ApplyAllConcat(d, v, rest, ReleaseContact(n - 1));
        ApplyReleaseContact(d, ApplyAll(d, v, rest), n - 1);
        assert EndedContacts(v.slots, n) ==
               EndedContacts(v.slots, n - 1)[n - 1 := EndedContact(v.slots[n - 1])];
      }
    }
  }

  /** `v` with every key up and every contact ended; only the slot cursor moves
      besides, to the last contact that was ended. */
  function Neutralized(v: State): State {
    v.(keys := {},
       cursor := LastContact(v.slots, |v.slots|, v.cursor),
       slots := EndedContacts(v.slots, |v.slots|))
  }

  lemma BoundaryChangesNothing(d: Device, s: State)
    ensures Apply(d, s, BOUNDARY) == s
  {
  }

  lemma NeutralizedIsNeutral(v: State)
    ensures Neutral(Neutralized(v))
  {
  }

  lemma ReleasesEffect(d: Device, v: State)
    requires ValidDevice(d) && WellFormed(d, v)
    ensures ApplyAll(d, v, Releases(d, v)) == Neutralized(v)
  {
    hide Apply, ReleasedKeys, ReleasedContacts, EndedContacts, LastContact, AxesFit, SlotFits;
    var keys := ReleasedKeys(d, v, KEY_MAX + 1);
    ApplyAllReleasedKeys(d, v, KEY_MAX + 1);
    ApplyAllConcat(d, v, keys, ReleasedContacts(v.slots, |v.slots|));
    ApplyReleasedContacts(d, v.(keys := {}), |v.slots|);
  }

  /** Main result: the exact effect of a neutralization. */
  lemma NeutralBatchEffect(d: Device, v: State)
    requires ValidDevice(d) && WellFormed(d, v)
    ensures ApplyAll(d, v, NeutralBatch(d, v)) == Neutralized(v)
    ensures Neutral(Neutralized(v))
  {
    hide Apply, Neutralized, Neutral, Releases, ValidDevice, WellFormed;
    NeutralizedIsNeutral(v);
    ReleasesEffect(d, v);
    ApplyAllSnoc(d, v, Releases(d, v), BOUNDARY);
    BoundaryChangesNothing(d, Neutralized(v));
  }

  // ----- The batch is minimal, and one frame -----

  lemma {:induction false} ReleasedKeysFramed(d: Device, v: State, n: nat)
    ensures forall e | e in ReleasedKeys(d, v, n) :: e.kind == EV_KEY && e.value == 0
  {
    if n > 0 {
      ReleasedKeysFramed(d, v, n - 1);
    }
  }

  lemma {:induction false} ReleasedContactsFramed(slots: seq<Slot>, n: nat)
    requires n <= |slots|
    ensures forall e | e in ReleasedContacts(slots, n) ::
      e.kind == EV_ABS && (e.code == ABS_MT_SLOT || (e.code == ABS_MT_TRACKING_ID && e.value == -1))
  {
    if n > 0 {
      ReleasedContactsFramed(slots, n - 1);
    }
  }

  /** The release of a key, or a step of the release of a contact. */
  predicate IsRelease(e: Event) {
    || (e.kind == EV_KEY && e.value == 0)
    || (e.kind == EV_ABS && (e.code == ABS_MT_SLOT || (e.code == ABS_MT_TRACKING_ID && e.value == -1)))
  }

  /** Only releases, and at most one boundary, at the end. */
  lemma NeutralBatchIsOneFrame(d: Device, v: State)
    ensures var batch := NeutralBatch(d, v);
            forall i | 0 <= i < |batch| :: if i == |batch| - 1 then batch[i] == BOUNDARY else IsRelease(batch[i])
  {
    ReleasedKeysFramed(d, v, KEY_MAX + 1);
    ReleasedContactsFramed(v.slots, |v.slots|);
  }

  function Down(v: State, n: nat): set<nat> {
    set k | k in v.keys && k < n
  }

  lemma {:induction false} ReleasedKeysCount(d: Device, v: State, n: nat)
    requires SwitchesFit(d, EV_KEY, v.keys)
    ensures |ReleasedKeys(d, v, n)| == |Down(v, n)|
  {
    if n > 0 {
      ReleasedKeysCount(d, v, n - 1);
      if n - 1 in v.keys {
        assert Down(v, n) == Down(v, n - 1) + {n - 1};
      } else {
        assert Down(v, n) == Down(v, n - 1);
      }
    }
  }

  function Active(slots: seq<Slot>, n: nat): set<nat>
    requires n <= |slots|
  {
    set i: nat | i < n && slots[i].tracking >= 0
  }

  lemma {:induction false} ReleasedContactsCount(slots: seq<Slot>, n: nat)
    requires n <= |slots|
    ensures |ReleasedContacts(slots, n)| == 2 * |Active(slots, n)|
  {
    if n > 0 {
      ReleasedContactsCount(slots, n - 1);
      if slots[n - 1].tracking >= 0 {
        assert Active(slots, n) == Active(slots, n - 1) + {n - 1};
      } else {
        assert Active(slots, n) == Active(slots, n - 1);
      }
    }
  }

  /** One write per pressed key, two per contact, and one boundary if there was
      anything to release. */
  lemma NeutralBatchCount(d: Device, v: State)
    requires ValidDevice(d) && WellFormed(d, v)
    ensures var held := |v.keys| + 2 * |Active(v.slots, |v.slots|)|;
            |NeutralBatch(d, v)| == (if held == 0 then 0 else held + 1)
    ensures NeutralBatch(d, v) == [] <==> Neutral(v)
  {
    ReleasedKeysCount(d, v, KEY_MAX + 1);
    ReleasedContactsCount(v.slots, |v.slots|);
    assert forall k: nat :: k in v.keys ==> HasCode(d, EV_KEY, k) && k <= KEY_MAX;
    assert Down(v, KEY_MAX + 1) == v.keys;
    var active := Active(v.slots, |v.slots|);
    if NeutralBatch(d, v) == [] {
      assert v.keys == {} && active == {};
      forall i | 0 <= i < |v.slots| ensures v.slots[i].tracking < 0 {
        assert i !in active;
      }
    }
    if Neutral(v) {
      assert active == {};
    }
  }

  /** Neutralizing twice writes nothing the second time. */
  lemma SecondNeutralizationIsEmpty(d: Device, v: State)
    requires ValidDevice(d) && WellFormed(d, v)
    ensures NeutralBatch(d, Neutralized(v)) == []
  {
    NeutralBatchEffect(d, v);
    ApplyAllKeepsWellFormed(d, v, NeutralBatch(d, v));
    NeutralBatchCount(d, Neutralized(v));
  }
}
