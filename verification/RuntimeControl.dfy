/** The D-Bus control: committing property changes, telling clients about them,
    and giving the control up without freeing it under its own dispatch. */
module RuntimeControls {
  import opened Input
  import opened InstanceNames

  datatype RuntimeState = RuntimeState(
    paused: bool,
    sourceAvailable: bool,
    activityWhileRunning: bool,
    activityWhilePaused: bool)

  datatype Property = Paused | SourceAvailable | ActivityWhileRunning | ActivityWhilePaused

  /** Which properties to set, and to what. */
  datatype Changes = Changes(properties: set<Property>, values: RuntimeState)

  const NO_VALUES := RuntimeState(false, false, false, false)

  function Get(s: RuntimeState, p: Property): bool {
    match p
    case Paused => s.paused
    case SourceAvailable => s.sourceAvailable
    case ActivityWhileRunning => s.activityWhileRunning
    case ActivityWhilePaused => s.activityWhilePaused
  }

  function Set(s: RuntimeState, p: Property, value: bool): (t: RuntimeState)
    ensures forall q: Property :: Get(t, q) == if q == p then value else Get(s, q)
  {
    match p
    case Paused => s.(paused := value)
    case SourceAvailable => s.(sourceAvailable := value)
    case ActivityWhileRunning => s.(activityWhileRunning := value)
    case ActivityWhilePaused => s.(activityWhilePaused := value)
  }

  /** One PropertiesChanged signal: names, with the values at emission. */
  datatype Notification = Notification(names: seq<Property>, values: RuntimeState)

  /** What a client that held `replica` holds after the signal. */
  function Observe(replica: RuntimeState, n: Notification): RuntimeState {
    RuntimeState(
      if Paused in n.names then n.values.paused else replica.paused,
      if SourceAvailable in n.names then n.values.sourceAvailable else replica.sourceAvailable,
      if ActivityWhileRunning in n.names then n.values.activityWhileRunning else replica.activityWhileRunning,
      if ActivityWhilePaused in n.names then n.values.activityWhilePaused else replica.activityWhilePaused)
  }

  function ObserveAll(replica: RuntimeState, ns: seq<Notification>): RuntimeState {
    if ns == [] then replica
    else Observe(ObserveAll(replica, ns[..|ns| - 1]), ns[|ns| - 1])
  }

  /** `after` is `before` with exactly the requested properties set. */
  ghost predicate Committed(before: RuntimeState, changes: Changes, after: RuntimeState) {
    forall p: Property ::
      Get(after, p) == Get(if p in changes.properties then changes.values else before, p)
  }

  /** The only such state. */
  function CommittedState(before: RuntimeState, changes: Changes): RuntimeState {
    RuntimeState(
      Get(if Paused in changes.properties then changes.values else before, Paused),
      Get(if SourceAvailable in changes.properties then changes.values else before, SourceAvailable),
      Get(if ActivityWhileRunning in changes.properties then changes.values else before, ActivityWhileRunning),
      Get(if ActivityWhilePaused in changes.properties then changes.values else before, ActivityWhilePaused))
  }

  lemma CommittedIsUnique(before: RuntimeState, changes: Changes, after: RuntimeState)
    requires Committed(before, changes, after)
    ensures after == CommittedState(before, changes)
  {
  }

  /** `names` lists, without repetition, exactly the properties that differ. */
  ghost predicate NamesDifference(names: seq<Property>, before: RuntimeState, after: RuntimeState) {
    && (forall p: Property :: p in names <==> Get(before, p) != Get(after, p))
    && (forall i, j | 0 <= i < j < |names| :: names[i] != names[j])
  }

  lemma ObservingDifferenceCatchesUp(names: seq<Property>, before: RuntimeState, after: RuntimeState)
    requires NamesDifference(names, before, after)
    ensures Observe(before, Notification(names, after)) == after
  {
  }

  /** Every signal names exactly what changed since the one before, and something
      did. */
  ghost predicate SignalsExact(initial: RuntimeState, ns: seq<Notification>) {
    forall k | 0 <= k < |ns| ::
      ns[k].names != [] && NamesDifference(ns[k].names, ObserveAll(initial, ns[..k]), ns[k].values)
  }

  lemma SignalsExactSnoc(initial: RuntimeState, ns: seq<Notification>, n: Notification)
    requires SignalsExact(initial, ns) && n.names != [] && NamesDifference(n.names, ObserveAll(initial, ns), n.values)
    ensures SignalsExact(initial, ns + [n])
  {
    hide NamesDifference, ObserveAll;
    var all := ns + [n];
    assert all[..|ns|] == ns;
    forall k | 0 <= k < |all|
      ensures all[k].names != [] && NamesDifference(all[k].names, ObserveAll(initial, all[..k]), all[k].values)
    {
      assert k < |ns| ==> all[..k] == ns[..k];
    }
  }

  class RuntimeControl {
    var dispatchActive: bool
    var disablePending: bool
    ghost const initial: RuntimeState
    ghost var notifications: seq<Notification>
    ghost var destroyed: bool

    /** The control is usable, and outside its own dispatch nothing is pending. */
    ghost predicate Live()
      reads this
    {
      !destroyed && (disablePending ==> dispatchActive)
    }

    /** What a client holds that read the properties when the control appeared
        and followed every signal since. */
    ghost function Replica(): RuntimeState
      reads this
    {
      ObserveAll(initial, notifications)
    }

    /** Clients are up to date, and every signal told them exactly what changed,
        unless the control is about to go. */
    ghost predicate Coherent(state: RuntimeState)
      reads this
    {
      !disablePending ==> Replica() == state && SignalsExact(initial, notifications)
    }

    constructor (state: RuntimeState)
      ensures Live() && Coherent(state) && !dispatchActive && !disablePending
      ensures initial == state && notifications == []
    {
      dispatchActive, disablePending := false, false;
      initial, notifications, destroyed := state, [], false;
    }

    /** Never under the control's own dispatch, and never twice. */
    ghost method Destroy()
      requires !destroyed && !dispatchActive
      modifies this`destroyed
      ensures destroyed
    {
      destroyed := true;
    }

    method EmitPropertiesChanged(names: seq<Property>, values: RuntimeState) returns (ok: bool)
      requires !destroyed
      modifies this`notifications
      ensures notifications == if ok then old(notifications) + [Notification(names, values)] else old(notifications)
    {
      ok := *;
      if ok {
        notifications := notifications + [Notification(names, values)];
      }
    }
  }

  ghost function Just(control: RuntimeControl?): set<object> {
    if control == null then {} else {control}
  }

  /** `after` is `before` with the requested properties among `done` set. */
  ghost predicate CommittedSoFar(before: RuntimeState, changes: Changes, after: RuntimeState, done: set<Property>) {
    forall p: Property ::
      Get(after, p) == Get(if p in changes.properties && p in done then changes.values else before, p)
  }

  /** Sets one property if it is requested and differs, and notes its name. */
  method CommitBoolean(p: Property, changes: Changes, state: RuntimeState, names: seq<Property>,
                       ghost before: RuntimeState, ghost done: set<Property>)
    returns (committed: RuntimeState, changed: seq<Property>)
    requires p !in done && CommittedSoFar(before, changes, state, done) && NamesDifference(names, before, state)
    ensures CommittedSoFar(before, changes, committed, done + {p}) && NamesDifference(changed, before, committed)
  {
    committed, changed := state, names;
    if p in changes.properties && Get(state, p) != Get(changes.values, p) {
      assert Get(state, p) == Get(before, p);
      committed := Set(state, p, Get(changes.values, p));
      changed := names + [p];
    }
  }

  /** All four properties, in order. */
  method CommitAll(state: RuntimeState, changes: Changes) returns (committed: RuntimeState, changed: seq<Property>)
    ensures Committed(state, changes, committed) && committed == CommittedState(state, changes)
    ensures NamesDifference(changed, state, committed)
  {
    committed, changed := state, [];
    committed, changed := CommitBoolean(Paused, changes, committed, changed, state, {});
    committed, changed := CommitBoolean(SourceAvailable, changes, committed, changed, state, {Paused});
    committed, changed :=
      CommitBoolean(ActivityWhileRunning, changes, committed, changed, state, {Paused, SourceAvailable});
    committed, changed :=
      CommitBoolean(ActivityWhilePaused, changes, committed, changed, state,
                    {Paused, SourceAvailable, ActivityWhileRunning});
    CommittedIsUnique(state, changes, committed);
  }

  /** Commits the requested changes and tells clients which properties really
      changed. `kept` is the owner's pointer afterwards. */
  method ApplyChanges(control: RuntimeControl?, state: RuntimeState, changes: Changes)
    returns (kept: RuntimeControl?, committed: RuntimeState, ghost names: seq<Property>)
    requires control != null ==> control.Live() && control.Coherent(state)
    modifies Just(control)
    ensures Committed(state, changes, committed) && committed == CommittedState(state, changes)
    ensures NamesDifference(names, state, committed)
    ensures kept == control || (control != null && kept == null && !control.dispatchActive && control.destroyed)
    ensures control != null ==> control.dispatchActive == old(control.dispatchActive)
    ensures kept != null ==> kept.Live() && kept.Coherent(committed)
    ensures kept != null && !kept.disablePending ==>
      kept.notifications ==
        old(kept.notifications) + (if names == [] then [] else [Notification(names, committed)])
    ensures kept != null && old(kept.disablePending) ==> kept.disablePending
    ensures control != null && control.notifications != old(control.notifications) ==>
      kept == control && kept.disablePending == old(kept.disablePending)
    ensures names == [] && control != null ==>
      kept == control && kept.disablePending == old(kept.disablePending) &&
      kept.notifications == old(kept.notifications)
  {
    kept := control;
    var changed;
    committed, changed := CommitAll(state, changes);
    names := changed;
    if changed == [] || control == null {
      return;
    }
    var ok := control.EmitPropertiesChanged(changed, committed);
    if ok {
      ObservingDifferenceCatchesUp(changed, state, committed);
      if !control.disablePending {
        SignalsExactSnoc(control.initial, old(control.notifications), Notification(changed, committed));
      }
      assert control.notifications[..|control.notifications| - 1] == old(control.notifications);
    } else if control.dispatchActive {
      control.disablePending := true;
    } else {
      control.Destroy();
      kept := null;
    }
  }

  datatype Failure =
    | SystemBusUnavailable
    | ConnectionRejected
    | NameDenied
    | NameOwned
    | InvalidIdentifier
    | InitializationFailed

  /** Sets up the complete control or nothing. Only a name that yields no valid
      bus name is hopeless; every other failure may pass. */
  method CreateRuntimeControl(state: RuntimeState, instanceName: string)
    returns (control: RuntimeControl?, failure: Failure, ghost troubled: bool)
    ensures control != null ==>
      fresh(control) && control.Live() && control.Coherent(state) && !control.dispatchActive &&
      control.initial == state && control.notifications == []
    ensures control == null <==> troubled || failure == InvalidIdentifier
    ensures control != null ==>
      |SERVICE_PREFIX + instanceName| < SERVICE_NAME_SIZE && ValidBusName(SERVICE_PREFIX + instanceName)
    ensures failure == InvalidIdentifier ==>
      control == null &&
      !(|SERVICE_PREFIX + instanceName| < SERVICE_NAME_SIZE && ValidBusName(SERVICE_PREFIX + instanceName))
    ensures ValidName(instanceName) ==> failure != InvalidIdentifier
  {
    control := null;
    var memory: bool := *;
    troubled := !memory;
    if !memory {
      return null, InitializationFailed, troubled;
    }
    var service := DeriveServiceName(instanceName, SERVICE_NAME_SIZE);
    if service.None? {
      if ValidName(instanceName) {
        DerivedNameIsValid(instanceName);
      }
      return null, InvalidIdentifier, troubled;
    }
    failure := *;
    var connected, exported, owned: bool := *, *, *;
    troubled := troubled || !connected || !exported || !owned;
    if !connected {
      return null, if failure == ConnectionRejected then failure else SystemBusUnavailable, troubled;
    }
    if !exported {
      return null, InitializationFailed, troubled;
    }
    if !owned {
      return null, if failure in {NameDenied, NameOwned} then failure else InitializationFailed, troubled;
    }
    control := new RuntimeControl(state);
    failure := InitializationFailed;
  }
}
