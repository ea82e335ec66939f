# input-proxy: a verified model

input-proxy reads one physical input device (an evdev node) and mirrors it into
a virtual one (uinput). A session can be paused and resumed over D-Bus, survives
the loss and return of its source, recovers from dropped events, and tells
clients about activity. Instances are installed as response files, possibly with
a udev rule, and uninstalled again.

This project models that behaviour in Dafny and proves what it promises. The
model follows the C code function by function: objects whose fields the code
updates are classes with those fields, its loops are loops, and every answer of
the outside world (a read, a write, an allocation, the clock, the bus, the file
system, a signal) is an arbitrary choice. `dafny verify dfyconfig.toml` checks
everything.

## What is proved

**Mirror or neutral, in every run.** A run records a moment at every loop head.
At every such moment of every run, however reads, writes, losses, returns,
pauses and recoveries interleave: while nothing has failed, an unpaused session
with a source has a virtual device that agrees with the source on all keys,
switches, plain axes, the slot cursor, every tracking id, and the axes of every
slot that was active at the last synchronization or written since; in every
other case an existing virtual device holds no key and no contact
(`Session.Run`, `MomentMeaning`).

**The write log.** A session keeps a history of what it did; the history
accounts for every write and every read of the run, and says when the session
was paused. It only grows from one loop head to the next. Up to the first failure
the writes are a sequence of segments: a full synchronization ended by one
boundary, then exactly the events read while forwarding, in order, then a
neutralization; while a segment is open, the source shows what its events make of
the state it was synchronized in. Nothing read while paused is ever written, a
failed correction wrote the beginning of its batch, and after the first failure
nothing is read again until the run ends (`Session.Run`, `WholeWriteLog`,
`RunMeaning`).

**The two corrections.** A captured event list takes a virtual device in *any*
state to the source's state (`SyncBatchEffect`); exactly when the axes of idle
slots agreed before does nothing differ afterwards (`SyncedMatchesFullyIff`). A
neutralization releases everything with one write per key, two per contact and a
boundary only if something was held, and changes nothing else but the slot
cursor (`NeutralBatchEffect`, `NeutralBatchCount`).

**Time.** Deadlines are modelled in 64-bit arithmetic and proved exact for every
32-bit duration. Over any stream of events the paused indication rises at most
once per throttle interval of an uninterrupted paused period, and an indication
falls by timer only when its whole time has passed since every event that raised
or extended it. A period is interrupted by a pause, a resume or the loss of the
control and by nothing else: between any two loop heads with one control and no
pause or resume in between, these laws hold (`PeriodLaws`, `TimingLaws`). No
control appears without an attempt on record, and attempts are at least 5000 ms
apart (`Precedes`, `Spaced`).

**Reading, waiting, ending.** What devices answered, what was waited for and what
the bus answered is recorded. A recovery reads until nothing more is held back and
takes every event over (`Session.RecoverSynchronization`); a wait reaches the
nearest live deadline and oversleeps none (`Session.WaitForDeadline`); an absent
source is always waited for, a denied one for two seconds from its first denial
(`Session.CreateActiveDevices`). A run ends with success only for a shutdown, and
otherwise with a failure that happened (`Session.Run`).

**Clients.** A client that read the properties when the control appeared and
applied every PropertiesChanged signal holds the session's state at every loop
head, and every signal named exactly what had changed since the one before it
(`MomentOk`). The control is never freed under its own dispatch, nor twice.

**Policies and artifacts.** A stored policy read back and parsed is the same
policy, exactly when its durations fit 32 bits (`PolicyRoundTripIff`); the parser
accepts exactly the lists that spell distinct valid options
(`ParseRunConfig`). Over any sequence of installations, uninstallations, failures
and crashes after any single step, no udev rule is without its response file and
no response file is partial, so every stored instance can be run
(`Host.Operate`, `StoredInstancesRun`). Where nothing that is asked of the system
fails, a ready plan with new artifacts is applied and a stored instance is
removed (`Host.Apply`, `Host.Remove`).

## How to read it

| file | content |
|---|---|
| Input.dfy, Evdev.dfy | events, device descriptions, device states, what an event does to a state, the mirror relation |
| Capture.dfy, Neutralization.dfy | the two event lists as functions, and their effects |
| SourceDevice.dfy, VirtualDevice.dfy | the devices as classes: capture, capability comparison and copying, neutralization |
| WriteLog.dfy | histories, segments, and the invariant of loop heads |
| Deadline.dfy, RuntimeControl.dfy, Activity.dfy | clock arithmetic, the D-Bus control, the laws of the timed control plane |
| ProxySession.dfy | the session itself, up to `Run` |
| RuntimePolicy.dfy, RunOptions.dfy, ResponseFile.dfy | policies as text: decimals, option lists, response files |
| Installation.dfy | response files and rules on a host that may crash |
| InstanceName.dfy, RuntimeDiscovery.dfy | names, and the way from service names back to instances |

Values that only serve specifications are `ghost`: what a device consumed or was
written, the session's log, its marks on the time line, the moments.

Where the code and its documentation differ, the model follows the code:

- docs/DBUS_INTERFACE.md promises a retry every 5000 ms after any recoverable
  D-Bus failure. The code schedules one if and only if the monotonic clock can be
  read then (src/proxy_session.c:126-129); the model proves this of every place
  that schedules a retry. Otherwise the control is given up for good: there is a
  sound session in which that happens (`LossMayBeFinal`), and from any loop head
  at which a control is given up to the end of the run there is no further
  attempt (`RunMeaning`). Attempts are never closer than 5000 ms.
- For a resume, docs/DBUS_INTERFACE.md lists dropping the paused throttle and
  its indication before the synchronization. The code synchronizes first and
  then drops and commits everything at once (src/proxy_session.c:723-758), so
  that a failed synchronization changes no property.

## Model

| member | source | states |
|---|---|---|
| Evdev.ForwardingKeepsMirror | src/proxy_session.c:622-632 | forwarding the event just read keeps virtual and source in agreement, whatever the event, and adds the axis it wrote to what is covered |
| Evdev.ApplyKeepsWellFormed | src/source_device.c:86-116 | no event, advertised or not, in range or not, takes a device out of the states its description allows |
| Evdev.IgnoredEvents | src/source_device.c:86-116 | what changes nothing: a key repeat, an unadvertised code, a slot out of range, and any event that is no key, switch or axis |
| Evdev.EqualProfilesAgree | src/virtual_device.c:46-113 | devices the comparison calls equal have the same slots and react to every event in the same way |
| Capture.SyncBatchEffect | src/source_device.c:337-385 | from any virtual state, the captured list and its boundary reach the source's keys, switches, plain axes, tracking ids and cursor, with the axes of its active slots |
| Capture.SyncBatchIsOneFrame | src/proxy_session.c:664-677 | the batch contains exactly one SYN_REPORT, and it is the last event |
| Capture.SyncReaches | src/proxy_session.c:634-704 | the same effect on a virtual device that only has equal capabilities |
| Capture.SyncedMirrors | src/source_device.c:310-312 | after a synchronization the mirror covers the axes of all active slots |
| Capture.SyncedMatchesFullyIff | src/source_device.c:310-312 | virtual and source states are then identical if and only if the axes of the source's idle slots agreed before |
| Capture.CapturesEveryControl | src/source_device.c:196-258 | a captured list holds, for every advertised key, switch and plain axis, an event with its current value |
| SourceDevices.SourceState.Append | src/source_device.c:170-194 | the list grows by exactly the event, or stays as it was if and only if memory ran out |
| SourceDevices.SourceDevice.ReadEvent | src/source_device.c:86-116 | only a successful read moves the view, and by exactly the event |
| SourceDevices.SourceDevice.ReadSyncEvent | src/source_device.c:118-146 | the same for recovered events |
| SourceDevices.SourceDevice.CaptureEventType | src/source_device.c:196-222 | captures the current value of every advertised code of the type, once, in order; fails exactly if a fetch or an allocation fails |
| SourceDevices.SourceDevice.CaptureAbsoluteState | src/source_device.c:229-258 | captures every advertised absolute axis but those a Type B device keeps per slot; fails exactly if a fetch or an allocation fails |
| SourceDevices.SourceDevice.CaptureMultitouchState | src/source_device.c:260-335 | captures every slot, its contact, the axes of active contacts only, and the cursor at the end; fails exactly if something asked for fails or the device has no slots |
| SourceDevices.SourceDevice.CaptureState | src/source_device.c:337-385 | the whole list, whose effect SyncBatchEffect gives, or, exactly if something asked for fails or a Type B device has no slots, nothing at all |
| SourceDevices.OpenSource | src/source_device.c:22-72 | a source exactly on success, with nothing consumed yet |
| Neutralization.NeutralBatchEffect | src/virtual_device.c:398-443 | every key is up and every contact ended, and only the cursor moves besides |
| Neutralization.NeutralBatchCount | src/virtual_device.c:398-443 | one write per pressed key, two per contact, one boundary if and only if something was held |
| Neutralization.NeutralBatchIsOneFrame | src/virtual_device.c:398-443 | every event but the last is the release of a key, a slot selection or the end of a contact, and the last is the boundary |
| Neutralization.SecondNeutralizationIsEmpty | src/virtual_device.c:304-450 | a second neutralization writes nothing |
| VirtualDevices.NullableStringsEqual | src/virtual_device.c:22-29 | equality of optional identifiers |
| VirtualDevices.AbsoluteInfoEqual | src/virtual_device.c:31-44 | equality of axis ranges regardless of the current value |
| VirtualDevices.EqualProfilesIff | src/virtual_device.c:46-113 | the represented projection is the whole description but the name and the current axis values, field by field |
| VirtualDevices.CapabilitiesEqual | src/virtual_device.c:46-113 | equal if and only if the descriptions have the same axes, each with the same range, and agree in every other field but the name; that is equality of projections, so an equivalence |
| VirtualDevices.CopyCapabilities | src/virtual_device.c:115-173 | copies properties, types, codes, axes and repeats completely, or reports a failure, exactly if enabling something fails |
| VirtualDevices.CreateTemplate | src/virtual_device.c:175-203 | a description that differs from the source in its name only |
| VirtualDevices.CreateVirtualDevice | src/virtual_device.c:205-269 | a new device is neutral, unwritten, and described as its source is, under its own name; it is there exactly if nothing asked for failed |
| VirtualDevices.IsCompatible | src/virtual_device.c:271-287 | compatible if and only if both descriptions have the same axes, each with the same range, and agree in every other field but the name |
| VirtualDevices.VirtualDevice.WriteEvent | src/virtual_device.c:466-487 | a delivered event changes the device as an event does; a failed write changes nothing |
| VirtualDevices.VirtualDevice.WriteSynchronization | src/proxy_session.c:664-677 | all events and the boundary in order, or, exactly if a write fails, a proper beginning of them |
| VirtualDevices.VirtualDevice.QueryKeys | src/virtual_device.c:338-356 | a key counts as pressed exactly if it is advertised and the kernel shows it down; fails exactly if a fetch fails |
| VirtualDevices.VirtualDevice.ReleaseKeys | src/virtual_device.c:398-412 | one release per pressed key, or, exactly if a write fails, a proper beginning of them |
| VirtualDevices.VirtualDevice.ReleaseContacts | src/virtual_device.c:414-439 | slot and release for every contact, or, exactly if a write fails, a proper beginning of them |
| VirtualDevices.VirtualDevice.Neutralize | src/virtual_device.c:304-450 | exactly the neutral batch and its effect on success, which fails only if something asked for fails or a Type B device has no slots; a failed query writes nothing, a failed write leaves a proper part |
| WriteLog.WritesAreSegments | src/proxy_session.c:923-992 | in a history without failures the writes are segments, all closed but possibly the last |
| WriteLog.SegmentsCarryForwarded | src/proxy_session.c:622-632 | the segments carry exactly what was read while forwarding, in the order of reading |
| WriteLog.CleanPrefix | src/proxy_session.c:737-740 | every history is in order up to its first failure, after which nothing is read any more |
| WriteLog.WholeWriteLog | src/proxy_session.c:894-1014 | a history in order, broken or not, begins with segments that carry exactly the reads forwarded, and reads nothing after a failure; Session.Run states it of the history of every run |
| WriteLog.LaterKeeps | src/proxy_session.c:622-632 | what was written and read by some point of a history stays the beginning of what is written and read later |
| WriteLog.BrokenStaysBroken | src/proxy_session.c:928-931 | once broken, a history stays broken and reads nothing more, however it goes on |
| WriteLog.CoveredIff | src/source_device.c:310-331 | what the mirror covers beyond keys, switches, axes and contacts: exactly the axes of slots active at the last synchronization and those written since |
| WriteLog.ForwardingIsTracked | src/proxy_session.c:622-632 | while forwarding, the source shows what the open segment's events make of the state it was synchronized in |
| WriteLog.MirrorOrNeutral | src/proxy_session.c:923-992 | an unpaused session with a source mirrors it, with the coverage its open segment gives, any other is neutral, both while nothing failed |
| WriteLog.ForwardKeepsHead | src/proxy_session.c:622-632 | a forwarded event keeps the invariant of loop heads |
| WriteLog.SuppressKeepsHead | src/proxy_session.c:627-629 | an event read while paused keeps it too, and stays unwritten |
| WriteLog.ReleaseIsAccounted | src/proxy_session.c:724-731 | a neutralization in any mode ends the open segment and leaves the device neutral |
| WriteLog.SyncIsAccounted | src/proxy_session.c:732-735 | a synchronization opens a segment and establishes the mirror |
| WriteLog.PauseChangeKeepsHead | src/proxy_session.c:723-758 | a pause or resume, with a source or without, leads from one sound head to another |
| WriteLog.TurnIsAccounted | src/proxy_session.c:742-758 | a committed pause or resume, which changes the mode and leaves no segment open, decides from then on whether reads must be suppressed or forwarded |
| WriteLog.LossKeepsHead | src/proxy_session.c:956-992 | the loss of the source leads to a sound head without a source |
| WriteLog.AttachedHead | src/proxy_session.c:501-571 | a fitting virtual device and a synchronization, unless paused, make a sound head |
| WriteLog.CreationIsAccounted | src/proxy_session.c:549-560 | a replaced or first virtual device starts neutral and opens no segment |
| WriteLog.LostIsAccounted | src/proxy_session.c:631 | an event whose write failed ends all forwarding |
| WriteLog.InterruptionIsAccounted | src/proxy_session.c:737-740 | a failed correction is recorded with the beginning of the batch it wrote, and ends all forwarding |
| Deadlines.SetDeadline | src/proxy_session.c:91-104 | normalized, without overflow of seconds, and exactly duration after the reading for every 32-bit duration |
| Deadlines.DurationExactIff | src/proxy_session.c:94 | the 64-bit product is exact if and only if the duration is at most 18446744073709 ms |
| Deadlines.ExpiredIsNsComparison | src/proxy_session.c:84-89 | expiry is comparison of nanosecond counts |
| Deadlines.DeadlineWaitTimeout | src/proxy_session.c:315-338 | the smaller of the cap and the microseconds to the deadline rounded up, in 64-bit arithmetic: never before the deadline but for the cap, and never a microsecond late |
| RuntimeControls.CommitBoolean | src/runtime_control.c:307-314 | commits a requested property and names it exactly if it changed |
| RuntimeControls.ApplyChanges | src/runtime_control.c:295-351 | commits exactly the requested changes; sends one signal that names exactly the changed properties, or none; keeps clients up to date, and all signals exact, or gives the control up, later if under its dispatch, and only if the signal could not be sent |
| RuntimeControls.ObservingDifferenceCatchesUp | src/runtime_control.c:331-337 | a client that applies such a signal holds the new state |
| RuntimeControls.SignalsExactSnoc | src/runtime_control.c:307-337 | every signal of a control so far names something, and exactly what changed since the one before it |
| RuntimeControls.CommittedIsUnique | src/runtime_control.c:307-323 | a commit determines the whole new state |
| RuntimeControls.CreateRuntimeControl | src/runtime_control.c:197-293 | a complete control whose clients start from the current state, or none, because something failed or because the name yields no bus name; a valid instance name never fails for its name |
| RuntimeControls.RuntimeControl.Destroy | src/runtime_control.c:187-195 | callable only once and never under the control's own dispatch |
| Activity.FlagsExclusive | src/proxy_session.c:190-257 | the two activity flags exclude each other, belong to their mode, and need tracking |
| Activity.UncutPeriodLaws | src/proxy_session.c:190-257 | between two points with nothing cut off in between, an indication that went down was held for its whole time after every event that raised or extended it, and the paused one rose at most once per throttle |
| Activity.RunningActivityKeepsPlane | src/proxy_session.c:213-222 | restarting the running hold keeps all laws of the control plane |
| Activity.PausedActivityKeepsPlane | src/proxy_session.c:201-212 | starting a throttle interval keeps them, in particular the spacing of rises |
| Activity.RunningExpiryKeepsPlane | src/proxy_session.c:241-246 | so does the expiry of the running hold once it is due |
| Activity.PausedExpiryKeepsPlane | src/proxy_session.c:247-251 | and that of the paused throttle |
| Activity.CutKeepsPlane | src/proxy_session.c:106-120 | dropping all activity, or a pause or resume, keeps them and ends the period |
| Activity.AttemptKeepsPlane | src/proxy_session.c:155-171 | a due attempt is a full interval after every earlier one |
| Activity.RetryKeepsPlane | src/proxy_session.c:122-133 | a scheduled retry lies a full interval after every attempt |
| Activity.LossGivesUpIff | src/proxy_session.c:122-145 | a noticed loss leaves a sound control plane, which is given up if and only if the clock could not be read |
| Activity.LossMayBeFinal | src/proxy_session.c:126-129 | for every policy and all times: a session that started with a control, and loses it later with an unreadable clock, has given it up, against what the documentation promises |
| ProxySessions.EventIsActivity | src/proxy_session.c:57-77 | interaction counts, motion only if enabled, protocol bookkeeping never |
| ProxySessions.NearestFits | src/proxy_session.c:315-358 | a wait for the nearest deadline exceeds no cap, falls short of it only to reach a deadline, and oversleeps none by a microsecond if the clock could be read |
| ProxySessions.AnswerTakenOver | src/proxy_session.c:1028-1048 | one answer decides a whole step: an event is dealt with, a demand for recovery leads to one, anything else ends the step |
| ProxySessions.ZeroWaitMeansDue | src/proxy_session.c:340-358 | the wait is zero only if a live deadline has passed |
| ProxySessions.MomentMeaning | src/proxy_session.c:923-992 | what holds at every loop head of every run: mirror or neutral, available exactly with both devices, equal slot counts, exclusive flags, clients that hold the state and were told each change exactly |
| ProxySessions.PeriodsInOrder | src/proxy_session.c:190-257 | two loop heads with one control throughout and no pause or resume in between obey the laws of time |
| ProxySessions.CommitGoesOn | src/proxy_session.c:742-758 | activity is cut off only by a pause or resume, as long as there is a control |
| ProxySessions.RunMeaning | src/proxy_session.c:894-1014 | from any loop head to the end of the run: writes and reads only grow, a failure stays and nothing is read after it, a control that was given up is never tried again; between two loop heads of one period the laws of time hold, and a control that appeared in between was an attempt on record |
| ProxySessions.Session.constructor | src/proxy_session.c:824-892 | a session without devices, timers or a past, with the given name, durations, motion settings and mode |
| ProxySessions.Session.MonotonicNow | src/proxy_session.c:79-82 | a reading is normalized and never behind an earlier one; it may fail |
| ProxySessions.Session.DiscardActivityTracking | src/proxy_session.c:106-120 | both indications and timers are dropped, nothing else |
| ProxySessions.Session.ScheduleRuntimeControlRetry | src/proxy_session.c:122-133 | the retry is due exactly 5,000,000,000 ns from the reading, and there is one exactly if the clock could be read |
| ProxySessions.Session.UpdateControlAvailability | src/proxy_session.c:135-145 | tracking is on exactly with a control; a loss forgets activity and schedules a retry, or gives the control up if the clock cannot be read |
| ProxySessions.Session.NoticeLoss | src/proxy_session.c:137-141 | exactly what Activity.AfterLoss says of the answer of the clock |
| ProxySessions.Session.ProcessRuntimeControlRecovery | src/proxy_session.c:147-188 | a live control is never overwritten; under a valid name a due retry is one more attempt if the clock can be read, and afterwards no retry is overdue; a control that appears was that attempt, and starts with both indications down |
| ProxySessions.Session.RecreateControl | src/proxy_session.c:170-187 | one more attempt on the record; a new control starts from the present state with both indications down; without one, something failed or the name is hopeless, and under a valid name there is a next retry, 5000 ms ahead, if and only if the clock can be read |
| ProxySessions.Session.RestartRunningHold | src/proxy_session.c:213-225 | the running indication is up and held for the whole timeout from now, unless the timeout is zero |
| ProxySessions.Session.StartPausedThrottle | src/proxy_session.c:201-225 | the paused indication is up and throttled from now, unless the throttle is zero |
| ProxySessions.Session.ProcessPhysicalActivity | src/proxy_session.c:190-226 | when the clock can be read, the indication of the mode is up and its deadline set, except that a running throttle is left alone |
| ProxySessions.Session.ProcessActivityTimers | src/proxy_session.c:228-257 | exactly the overdue indications fall |
| ProxySessions.Session.ExpireTimers | src/proxy_session.c:241-251 | a timer stops exactly if its deadline has passed |
| ProxySessions.Session.SetSourceAvailable | src/proxy_session.c:259-274 | availability is as told, and no other policy state changes |
| ProxySessions.Session.CleanupActiveDevices | src/proxy_session.c:298-306 | both devices are gone and the source is announced unavailable |
| ProxySessions.Session.CloseSource | src/proxy_session.c:308-313 | the source is closed once and announced unavailable; the virtual device stays |
| ProxySessions.Session.DeadlineWait | src/proxy_session.c:315-338 | the smaller of the cap and the time to the deadline whenever the clock can be read, and the cap only otherwise |
| ProxySessions.Session.RuntimeWaitTimeout | src/proxy_session.c:340-358 | the least of the cap and the time to every live deadline, although the code looks at one activity timer only; a live deadline is left out only if the clock could not be read, so that the wait fits |
| ProxySessions.Session.WaitForDeadline | src/proxy_session.c:360-365 | exactly one wait, which exceeds no cap, falls short of it only to reach a deadline that is live when it starts, and oversleeps none |
| ProxySessions.Session.WaitWithActivityTimer | src/proxy_session.c:360-369 | waiting keeps the invariant, including pause requests dispatched meanwhile; afterwards, if the clock could be read, nothing is overdue |
| ProxySessions.Session.SettlingExpired | src/proxy_session.c:391-401 | the window has expired if and only if the clock cannot be read or is past the deadline |
| ProxySessions.Session.AwaitPermission | src/proxy_session.c:436-463 | gives up if and only if the clock cannot be read or the window that was open is over; the first denial opens it for two seconds |
| ProxySessions.Session.WorthWaiting | src/proxy_session.c:424-466 | whether an acquisition goes on, for every answer of the opening: always for a source that is not there, for a denied one that was there before until two seconds after the first denial, and never otherwise |
| ProxySessions.Session.WaitOrGiveUp | src/proxy_session.c:424-466 | the same, with one wait of at most 100,000 microseconds if it goes on and none otherwise |
| ProxySessions.Session.AcquireSource | src/proxy_session.c:420-423 | a fresh source exactly on success, ready to be attached |
| ProxySessions.Session.TakeSource | src/proxy_session.c:468-571 | success means that the source is held with a sound head; a virtual device that fits is kept, any other replaced; from now on a denied source may settle |
| ProxySessions.Session.TryAcquire | src/proxy_session.c:420-571 | opens only without a source; on success both devices are there and the head is sound |
| ProxySessions.Session.AcquireOrWait | src/proxy_session.c:420-466 | one opening, whose answer decides: an absent source is waited for and never an end, a denied one ends it exactly as WorthWaiting says, any other failure at once, and success uses the source |
| ProxySessions.Session.AcquisitionRound | src/proxy_session.c:412-466 | a moment, the control served, and one try, or none because the session failed |
| ProxySessions.Session.FitVirtualDevice | src/proxy_session.c:501-560 | the virtual device is kept if and only if it is compatible |
| ProxySessions.Session.AddVirtualDevice | src/proxy_session.c:552-560 | a fresh neutral device with the source's projection and the instance's name, or nothing changed |
| ProxySessions.Session.BringUp | src/proxy_session.c:513-522 | unless paused, a fitting device is synchronized; the result is a sound head |
| ProxySessions.Session.ReplaceVirtualDevice | src/proxy_session.c:549-560 | the new device has the source's projection and the instance's name; any earlier one is destroyed, also if there is no new one |
| ProxySessions.Session.Attach | src/proxy_session.c:501-595 | a compatible device survives a reconnection, an incompatible one is replaced, and unless paused the result mirrors the source; without a virtual device the source is given up |
| ProxySessions.Session.CreateActiveDevices | src/proxy_session.c:403-599 | success means a sound head with both devices, or a requested shutdown; a failure is the session's own, a correction cut short with the source held, or a failed creation or opening with the source given up, and never an absent source; a denied source was tried again as long as, and no longer than, two seconds after its first denial; history and marks only go on, and every iteration left a moment |
| ProxySessions.Session.ProcessReadEvent | src/proxy_session.c:622-632 | an event is suppressed exactly if the session is paused, and forwarded otherwise |
| ProxySessions.Session.WriteCaptured | src/proxy_session.c:664-680 | success means that all events and the boundary were written and the source was then found present |
| ProxySessions.Session.SynchronizeState | src/proxy_session.c:634-704 | on success the whole effect of a synchronization; a failed capture writes nothing; any failure ends forwarding |
| ProxySessions.Session.NeutralizeVirtualDevice | src/proxy_session.c:724-731 | on success the whole effect of a neutralization; otherwise forwarding has ended |
| ProxySessions.Session.CommitPaused | src/proxy_session.c:742-758 | one signal that names exactly what changed; the indication of the mode that is left falls with it; activity is cut off because the session turned |
| ProxySessions.Session.CorrectFor | src/proxy_session.c:723-741 | the devices are corrected exactly if the source is available |
| ProxySessions.Session.RequestPaused | src/proxy_session.c:706-777 | correct first, then commit; a failed correction is fatal and changes no state; asking for the present mode changes nothing |
| ProxySessions.Session.RecoverSynchronization | src/proxy_session.c:779-822 | reads on until the kernel has nothing more held back, and succeeds exactly then; every event before that is taken off the source and, unless paused, written, in order; no timer and no property is touched |
| ProxySessions.Session.NoteActivity | src/proxy_session.c:1040-1046 | the same decision by kind of event and mode, before anything is written |
| ProxySessions.Session.ProcessPhysicalEvent | src/proxy_session.c:1040-1048 | keys and contacts count as activity, bookkeeping never, and motion exactly if the setting of the present mode says so; an event that does not count leaves the control plane alone, one that counts is marked and raises the indication of the mode for its whole time; every event is forwarded or suppressed |
| ProxySessions.Session.ProcessEvent | src/proxy_session.c:1016-1049 | one read, and exactly if the kernel asks for it one recovery that reads to its end; what was got was taken off the source and, unless paused, written, in order; from a sound head to a sound head unless a write fails |
| ProxySessions.Session.ForwardOrWait | src/proxy_session.c:932-944 | goes on exactly after an event dealt with or when there is none, in which case there is one wait of at most 10,000 microseconds |
| ProxySessions.Session.ForwardRound | src/proxy_session.c:924-944 | every iteration leaves a moment; it reads only while nothing failed, and ends only with a failure |
| ProxySessions.Session.BusProcess | src/runtime_control.c:75-96 | a pause or resume call that succeeds leaves the session in that state, one that fails is answered with the fatal failure and changes no state; anything else changes nothing; the control stays in place |
| ProxySessions.Session.DispatchOne | src/runtime_control.c:362-370 | during one dispatch the control is neither freed nor replaced |
| ProxySessions.Session.DropControl | src/runtime_control.c:369-377 | the control is freed outside its dispatch, and the pointer is null |
| ProxySessions.Session.ControlProcess | src/runtime_control.c:353-378 | messages are dispatched until an answer is not positive; a control that is kept was answered zero and has nothing pending, one that is gone was refused or was pending |
| ProxySessions.Session.ControlWait | src/runtime_control.c:380-405 | one wait, recorded; unless it was interrupted or failed, messages are dispatched; a failed wait gives the control up |
| ProxySessions.Session.ServeControl | src/proxy_session.c:924-927 | serving the control at a loop head dispatches its messages and keeps the invariant, and leaves no indication and no retry overdue if the clock could be read |
| ProxySessions.Session.ForwardEvents | src/proxy_session.c:923-947 | ends without a failure only for a shutdown, and with a sound head if the source was lost |
| ProxySessions.Session.ForwardUntilLoss | src/proxy_session.c:923-994 | a lost source is never an end: the run goes on after a loss that was neutralized, and ends otherwise with success for a shutdown or with the failure met |
| ProxySessions.Session.NeutralizeAfterLoss | src/proxy_session.c:956-971 | the loss is announced and what was held is released, or forwarding has ended |
| ProxySessions.Session.LoseSource | src/proxy_session.c:956-992 | the source is closed; on success the head is sound and the virtual device kept |
| ProxySessions.Session.ServeSources | src/proxy_session.c:917-995 | one source after the other; ends in success only for a shutdown and with a sound head; history, marks and moments only go on |
| ProxySessions.Session.StartControl | src/proxy_session.c:904-915 | the first attempt; without a control, and with a valid name, a retry is due 5000 ms ahead if and only if the clock can be read |
| ProxySessions.Session.Finish | src/proxy_session.c:997-999 | nothing outlives the run |
| ProxySessions.Session.Run | src/proxy_session.c:894-1014 | every loop head is sound and leads to the next and to the end of the run: reads and writes only grow, all reading ends with the first failure seen, a control given up is never tried again, a control that appears was an attempt on record; within one uninterrupted period the laws of time hold between any two loop heads; the whole log is segmented; all devices and controls are gone; the timing laws hold over all marks; attempts are 5 seconds apart; success means a requested shutdown, and anything else a failure that happened |
| RuntimePolicy.DecimalRoundTrip | src/installed_instance.c:349-352 | a printed number is a digit string that reads back as the number |
| RuntimePolicy.DefaultDurationsInDecimal | src/installed_instance.c:349-352 | digits are printed and read from the most significant on: 5000 and 250 |
| RuntimePolicy.StrToUMax | src/runtime_policy.c:42-44 | reading digits of any length reports exactly the values beyond 64 bits |
| RuntimePolicy.ParseDuration | src/runtime_policy.c:25-51 | accepts exactly the non-empty digit strings whose value fits 32 bits, and returns it |
| RuntimePolicy.ParseOnOff | src/runtime_policy.c:53-69 | "on" means true, "off" means false, and nothing else means anything |
| RunOptions.SpellingsAgree | src/main.c:226-332 | what has been read of a list begins every reading of it |
| RunOptions.DoneIsTheSpelling | src/main.c:208-339 | a list of arguments spells at most one list of options |
| RunOptions.DecodeOption | src/main.c:226-331 | finds the option at a position exactly if there is a valid one |
| RunOptions.ParseRunConfig | src/main.c:208-339 | accepts exactly the lists that spell distinct valid options with a source and a name, and returns what they mean |
| RunOptions.ShortestLists | src/runtime_policy.c:15-23 | the shortest accepted lists, and what they mean by default: 5000 ms, 250 ms, both motion settings on, not paused, and verbose only if asked |
| ResponseFiles.SplitJoined | src/response_file.c:69-82 | lines written one per argument are read back as the arguments |
| ResponseFiles.ReadResponseFile | src/response_file.c:38-105 | all lines in order after program name and command, or nothing, exactly for an embedded NUL, too many lines, or a failure of memory or input |
| ResponseFiles.PolicyTextIsJoined | src/installed_instance.c:346-362 | the stored text is the policy's options, one argument per line |
| ResponseFiles.PolicyLines | src/installed_instance.c:346-362 | splitting it gives those arguments back, whatever source without newline and valid name it has |
| ResponseFiles.StoredLines | src/installed_instance.c:346-362 | the stored lines word by word, with "on" exactly for the settings that are on |
| ResponseFiles.PolicyMeaning | src/main.c:208-339 | those options mean the policy |
| ResponseFiles.PolicyRoundTripIff | src/installed_instance.c:320-362 | storing, splitting and parsing gives the same policy, not verbose, if and only if both durations fit 32 bits |
| ResponseFiles.SourceFromResponse | src/uninstall_command.c:156-162 | the argument after the first "--source", if any |
| ResponseFiles.LookupFindsSourceIff | src/uninstall_command.c:156-162 | on an accepted list the lookup finds the parser's source if and only if no name "--source" comes before it, or what follows that name happens to be the source |
| ResponseFiles.LookupFindsSource | src/uninstall_command.c:156-162 | in particular, for every accepted list with a valid name the lookup finds the source the parser finds |
| ResponseFiles.LookupMisledByInvalidName | src/uninstall_command.c:156-162 | the parser accepts a list on which the condition fails: a name "--source" followed by another flag |
| Installations.ArtifactPathsDiffer | src/installed_instance.c:89-126 | different instances never share an artifact or a unit, and no artifact is a temporary file |
| Installations.Host.CreateTemporary | src/installed_instance.c:377-383 | a new empty file under a name nothing else has |
| Installations.Host.WriteResponse | src/installed_instance.c:270-292 | success means the whole content, through partial and interrupted writes, and failure that a write failed; no artifact changes meanwhile |
| Installations.Host.WriteRule | src/installation_application.c:19-29 | the same, with a write of nothing as a failure |
| Installations.Host.PrepareResponse | src/installed_instance.c:364-400 | a temporary file with the whole content, permitted, flushed and closed, or, only if something asked for failed, nothing but possibly a temporary file that could not be removed; no artifact changes |
| Installations.Host.PublishResponse | src/installed_instance.c:364-424 | at every step the response file is absent or complete, it never replaces another, it gets its name only flushed and closed, and a failure, which means that something failed or the name was taken, leaves the artifacts as they were; all other files are untouched once the temporary one is removed |
| Installations.Host.CreateInstance | src/installed_instance.c:294-424 | refuses exactly missing arguments, sources with newlines and invalid names, each with its own error; stores exactly the policy's text, and otherwise fails only if something failed or the instance exists |
| Installations.Host.RemoveInstance | src/installed_instance.c:426-445 | removes the response file in one step, or nothing; says exactly whether the name is invalid, the file missing, or its removal failed |
| Installations.Host.PublishRule | src/installation_application.c:42-65 | at every step the rule is absent or complete, and a failure, which means that something failed or the rule was there, leaves none |
| Installations.Host.CompleteApplication | src/installation_application.c:110-128 | the rule follows the response file; if it cannot, the removal of the response file is tried, and success or failure of that is reported |
| Installations.Host.Apply | src/installation_application.c:67-129 | ends with all artifacts or with those from before, except that a failed rollback leaves and reports the response file; shows nothing else on the way; refuses exactly plans that are not ready; applies every ready plan with new artifacts unless something fails |
| Installations.Host.StopService | src/uninstall_command.c:31-43 | fails exactly if something asked for fails; otherwise says whether the unit was active, and it no longer is |
| Installations.Host.DisableService | src/uninstall_command.c:45-57 | the same of being enabled |
| Installations.Host.RemoveFile | src/uninstall_command.c:59-66 | anything but failure means that the file is gone |
| Installations.Host.StoredSource | src/uninstall_command.c:264-265 | a source that is found is the one the instance was stored with, and it is found unless something fails |
| Installations.Host.RefreshUdev | src/uninstall_command.c:269-293 | the rules are reloaded first, a source is triggered exactly if it is known and present, and udev settles after that; failure means exactly that one of these failed |
| Installations.Host.TearDown | src/uninstall_command.c:257-293 | every stage is tried in order whatever came of the one before, udev is told exactly of a rule that was removed; no failure means that the unit is inactive and disabled and the rule gone; the response file always stays |
| Installations.Host.TakeUnitDown | src/uninstall_command.c:257-262 | the service is stopped, then disabled, each tried whatever came of the other, or that is reported |
| Installations.Host.Remove | src/uninstall_command.c:175-322 | the response file goes last, at every step only after unit and rule, and its removal is tried exactly if nothing failed before; a stored instance goes unless something fails; only the stored source is ever triggered |
| Installations.StagesAreSafe | src/installation_application.c:67-129 | no state an application can be interrupted in is unsafe |
| Installations.OrderIsSafe | src/uninstall_command.c:256-312 | no state an uninstallation can be interrupted in is unsafe |
| Installations.StoredInstancesRun | src/installed_instance.c:320-362 | in a safe state every stored instance can be read and parsed under its own name |
| Installations.Host.Boot | src/main.c:341-360 | a stored instance runs with the very policy its response file was written from, unless reading fails |
| Installations.Host.Operate | src/installation_application.c:67-129 | over any sequence of commands, failures and crashes no rule is without its response file and no response file is partial |
| InstanceNames.Validate | src/instance_name.c:25-54 | decides the public rule for names, byte by byte |
| InstanceNames.DerivedNameIsValid | src/runtime_control.c:123-137 | every valid instance name gives a valid bus name that fits |
| InstanceNames.BusNameIff | src/runtime_control.c:123-137 | what a bus name is, byte by byte |
| RuntimeDiscovery.RecoveredIff | src/runtime_discovery.c:56-64 | a service name leads back to its instance if and only if that name is not empty and has no dot |
| RuntimeDiscovery.InstanceOfIff | src/runtime_discovery.c:55-64 | a service belongs to an instance exactly if it has the common prefix and something not empty after its last dot, which is the instance |
| RuntimeDiscovery.DiscoveredNameIsInstanceName | src/runtime_discovery.c:56-64 | every valid instance name is recovered from its service name |
| RuntimeDiscovery.NotBehindIff | src/runtime_discovery.c:11-17 | the order of records: the smaller byte at the first difference comes first, and a beginning before what it begins |
| RuntimeDiscovery.Snapshot.Build | src/runtime_discovery.c:35-97 | one record for each service of an instance whose source was found, none lost and none twice, in order; or nothing, exactly if memory ran out |
| RuntimeDiscovery.Snapshot.Sort | src/runtime_discovery.c:92-95 | an ordered permutation |

## Left out

- Run: a run is an arbitrary finite part of one: `patience` bounds how often the
  environment answers before a shutdown is requested, and it is arbitrary. What
  a session does when its answers never end is the union of these parts.
- ReadEvent: the kernel's own filtering (fuzz, repeated values) and the timing of
  libevdev's state while it recovers are not modelled; recovered events advance
  the view one at a time, as they are read.
- WriteEvent: the kernel shows an event as soon as it is written; key repeats
  (value 2) and slots out of range change nothing, on both sides.
- CreateVirtualDevice: the values of the axes of a new device are arbitrary; its
  switches are off, and every slot is unused.
- CreateActiveDevices: the check whether libinput ignores the source, which only
  prints a warning, and all messages.
- Apply: `Planned` collects what src/installation_planner.c has checked before;
  the planner, the activation of an installed instance, the prompts and the
  injected failures are not modelled.
- Remove: choosing an instance interactively; the operations on units are
  systemctl's, whose answers "not active" and "not enabled" are taken as true.
- Validate: ownership of instance names through abstract sockets.
- Build: sorting is any sort, as with qsort; asking the bus for names is a
  parameter.
- Repeat settings (EV_REP) as state: they are compared and copied, but events
  that change them are not tracked.
- SW_MAX is 0x10 here; it depends on the kernel headers of the build.
- Memory exhaustion is one of the arbitrary failures of a call.
- Device discovery and inspection, the list and inspect reports, service
  identities, and help texts: reading and printing with few decisions.
