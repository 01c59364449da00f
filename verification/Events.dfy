/** Entries of the event log. */
module Events {
  /** `kind` is the event's number in the firmware's list; `timestamp` is zero while the clock is unset. */
  datatype Entry = Entry(timestamp: nat, boot: nat, uptime: nat, kind: nat, payload: nat)

  const MODE_CHANGED: nat := 3
  const DEFROST_START: nat := 13
  const DEFROST_END: nat := 14
  const ERROR_APPEARED: nat := 15
  const ERROR_CLEARED: nat := 16
  const KIND_COUNT: nat := 35

  const UINT32: nat := 0x1_0000_0000
}
