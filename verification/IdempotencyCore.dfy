/**
 The atomic sections of the idempotent-claim protocol
 (`internal/idempotency/store.go`) on one key: its durable row, its in-process
 flight and its in-process tombstone.
 */
module IdempotencyCore {
  import opened OperationCore

  /** How long a pending row without a visible owner is left alone, in milliseconds. */
  const LEASE: nat := 30_000

  /** A request fingerprint, opaque. */
  type Fingerprint = nat

  /** The durable row; a settled row is succeeded, failed or in doubt. */
  datatype Row = Absent | Pending(finger: Fingerprint, updated: int) | Settled(finger: Fingerprint, doubt: bool)

  datatype KeyState = KeyState(row: Row, flight: Option<Fingerprint>, tombstone: Option<Fingerprint>)

  /** What the first locked section of a claim decides. */
  datatype Gate = Conflicts | Waits | Doubtful | Proceeds

  function FirstSection(k: KeyState, finger: Fingerprint): Gate {
    if k.flight.Some? then if k.flight.value != finger then Conflicts else Waits
    else if k.tombstone.Some? then if k.tombstone.value != finger then Conflicts else Doubtful
    else Proceeds
  }

  /** What reading the row says to a claim. */
  datatype Seen = NoRow | OtherPrint | Replays | InDoubt | SeesPending(updated: int)

  function ReadRow(row: Row, finger: Fingerprint): Seen {
    match row
    case Absent => NoRow
    case Pending(p, updated) => if p != finger then OtherPrint else SeesPending(updated)
    case Settled(p, doubt) => if p != finger then OtherPrint else if doubt then InDoubt else Replays
  }

  /** INSERT of a pending row, and the flight that is set with it. */
  function InsertSection(k: KeyState, finger: Fingerprint, now: int): (KeyState, bool) {
    if k.row.Absent? then (k.(row := Pending(finger, now), flight := Some(finger)), true) else (k, false)
  }

  /** Compare-and-swap of a stale pending row, and the flight that is set with it. */
  function TakeOverSection(k: KeyState, finger: Fingerprint, now: int, updated: int): (KeyState, bool) {
    if k.row == Pending(finger, updated) then (k.(row := Pending(finger, now), flight := Some(finger)), true) else (k, false)
  }

  /** UPDATE to a terminal state; it looks only at the fingerprint. */
  function SettleSection(k: KeyState, finger: Fingerprint, doubt: bool): (KeyState, bool) {
    if !k.row.Absent? && k.row.finger == finger then (k.(row := Settled(finger, doubt)), true) else (k, false)
  }

  /** UPDATE of a pending row by its owner. */
  function RefreshSection(k: KeyState, finger: Fingerprint, now: int): KeyState {
    if k.row.Pending? && k.row.finger == finger then k.(row := Pending(finger, now)) else k
  }

  /** DELETE of a pending row. */
  function DeleteSection(k: KeyState, finger: Fingerprint): (KeyState, bool) {
    if k.row.Pending? && k.row.finger == finger then (k.(row := Absent), true) else (k, false)
  }

  function ReleaseSection(k: KeyState): KeyState { k.(flight := None) }

  /** The deferred section of `MarkInDoubt`: a flight still there becomes a tombstone. */
  function DeferredSection(k: KeyState, finger: Fingerprint): KeyState {
    if k.flight == Some(finger) then k.(flight := None, tombstone := Some(finger)) else k
  }
}
