/** Event codes and result codes shared by every part of the proxy.
    The numbers are those of the Linux input-event-codes header. */
module Input {

  const EV_SYN: nat := 0x00
  const EV_KEY: nat := 0x01
  const EV_REL: nat := 0x02
  const EV_ABS: nat := 0x03
  const EV_MSC: nat := 0x04
  const EV_SW: nat := 0x05
  const EV_LED: nat := 0x11
  const EV_SND: nat := 0x12
  const EV_REP: nat := 0x14
  const EV_FF: nat := 0x15
  const EV_FF_STATUS: nat := 0x17
  const EV_MAX: nat := 0x1f
  const INPUT_PROP_MAX: nat := 0x1f

  const SYN_REPORT: nat := 0

  const KEY_MAX: nat := 0x2ff
  const SW_MAX: nat := 0x10
  const ABS_MAX: nat := 0x3f

  const ABS_MT_SLOT: nat := 0x2f
  const ABS_MT_TOUCH_MAJOR: nat := 0x30
  const ABS_MT_TRACKING_ID: nat := 0x39
  const ABS_MT_TOOL_Y: nat := 0x3d

  datatype Option<+T> = None | Some(value: T)

  /** `kind` is the event type (EV_KEY, EV_ABS, ...). */
  datatype Event = Event(kind: nat, code: nat, value: int)

  const BOUNDARY: Event := Event(EV_SYN, SYN_REPORT, 0)

  /** The result codes the session, source and virtual device use. */
  datatype Result =
    | Success
    | SyncRequired
    | Unavailable
    | InvalidArgument
    | OutOfMemory
    | SourceUnavailable
    | PermissionDenied
    | OpenFailed
    | Disconnected
    | UinputUnavailable
    | CreateFailed
    | ReadFailed
    | WriteFailed

  /** The largest code of an event type, negative for a type without codes. */
  function MaxCode(kind: nat): int {
    if kind == EV_SYN then 0x0f
    else if kind == EV_KEY then KEY_MAX
    else if kind == EV_REL then 0x0f
    else if kind == EV_ABS then ABS_MAX
    else if kind == EV_MSC then 0x07
    else if kind == EV_SW then SW_MAX
    else if kind == EV_LED then 0x0f
    else if kind == EV_SND then 0x07
    else if kind == EV_REP then 0x01
    else if kind == EV_FF then 0x7f
    else if kind == EV_FF_STATUS then 0x01
    else -1
  }
}
