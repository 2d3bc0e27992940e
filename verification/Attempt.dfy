/** One item's journey: every decision that is made from what the filesystem answered. */
module Attempt {
  import opened Wrappers
  import opened Bytes
  import opened Paths
  import opened Model
  import opened Entries
  import opened Layout

  datatype RenameMode = Exclusive | CheckedFallback

  datatype Attempt =
    | Moved(stored: Path, size: u64, mode: RenameMode)
    | Refused(status: ItemStatus, error: ItemErrorCode)

  datatype Destination = Destination(
    sessionDir: Path, sequence: nat, rootDevice: nat, maxSize: Option<u64>, plannedBytes: u64)
  {
    function StoredPathOf(source: Path): Path {
      StoredPath(sessionDir, sequence, Basename(source))
    }
  }

  function RecheckIdentity(item: WritablePath, stat: Result<Metadata, BrozaError>): (r: Result<Metadata, ItemErrorCode>)
    ensures r.Ok? <==> stat.Ok? && item.Matches(stat.value)
    ensures r.Ok? ==> r.value == stat.value
    ensures r.Err? ==> r.error == if stat.Err? then IoCode(stat.error) else CHANGED_SINCE_CHECK
  {
    match stat
    case Err(e) => Err(IoCode(e))
    case Ok(current) => if item.Matches(current) then Ok(current) else Err(CHANGED_SINCE_CHECK)
  }

  predicate ExceedsCap(alreadyMoved: u64, size: u64, maxSize: Option<u64>) {
    maxSize.Some? && SatAdd(alreadyMoved, size) > maxSize.value
  }

  /**
   * An item that passes the cap check keeps the exact total under the cap; the
   * one exception is a cap of `u64::MAX`, which the saturated total can never pass.
   */
  lemma CapIsExactBelowMax(alreadyMoved: u64, size: u64, cap: u64)
    ensures !ExceedsCap(alreadyMoved, size, Some(cap)) <==> alreadyMoved + size <= cap || cap == U64_MAX
  {
  }

  function FailedIo(e: BrozaError): Attempt {
    Refused(Failed, IoCode(e))
  }

  function MeasuredSize(
    item: WritablePath, current: Metadata, destination: Destination, measured: Result<u64, BrozaError>)
    : Result<u64, BrozaError>
  {
    if !item.isDir then Ok(current.allocatedBytes)
    else if destination.maxSize.None? then Ok(destination.plannedBytes)
    else measured
  }

  /** `precheck`: the size to move, or the attempt to record. Nothing is touched. */
  function Precheck(
    item: WritablePath, destination: Destination, movedBytes: u64,
    stat: Result<Metadata, BrozaError>, measured: Result<u64, BrozaError>)
    : (r: Result<u64, Attempt>)
    ensures r.Ok? ==> stat.Ok? && item.Matches(stat.value)
    ensures r.Err? ==> r.error.Refused? && r.error.status.IsUnsuccessful()
    ensures r.Ok? ==> !ExceedsCap(movedBytes, r.value, destination.maxSize)
  {
    match RecheckIdentity(item, stat)
    case Err(code) => Err(Refused(Failed, code))
    case Ok(current) =>
      if current.device != destination.rootDevice then Err(Refused(Skipped, CrossVolume))
      else
        match MeasuredSize(item, current, destination, measured)
        case Err(e) => Err(FailedIo(e))
        case Ok(size) =>
          if ExceedsCap(movedBytes, size, destination.maxSize)
          then Err(Refused(Skipped, MAX_SIZE_EXCEEDED))
          else Ok(size)
  }

  /** Only a directory under a cap, found on the store's volume as it was approved, is walked to measure it. */
  predicate Measures(item: WritablePath, destination: Destination, stat: Result<Metadata, BrozaError>) {
    && RecheckIdentity(item, stat).Ok? && stat.value.device == destination.rootDevice
    && item.isDir && destination.maxSize.Some?
  }

  /** `move_into`, given what creating the directory and then renaming answered. */
  function MoveInto(
    item: WritablePath, destination: Destination, size: u64, made: Option<BrozaError>,
    moved: Result<RenameMode, BrozaError>)
    : Attempt
  {
    if made.Some? then FailedIo(made.value)
    else
      match moved
      case Ok(mode) => Moved(destination.StoredPathOf(item.path), size, mode)
      case Err(e) => FailedIo(e)
  }

  function OutcomeOf(a: Attempt): (ItemStatus, Option<ItemErrorCode>) {
    match a
    case Moved(_, _, _) => (Quarantined, None)
    case Refused(status, error) => (status, Some(error))
  }

  function MovedOf(a: Attempt): u64 {
    if a.Moved? then a.size else 0
  }

  function UpdatedEntry(entry: QuarantineEntry, a: Attempt): QuarantineEntry {
    match a
    case Moved(stored, size, _) =>
      entry.(stored := Some(stored), size := size, status := Quarantined, error := None)
    case Refused(status, error) => entry.(stored := None, status := status, error := Some(error))
  }

  function InFlight(entry: QuarantineEntry, stored: Path, size: u64): QuarantineEntry {
    entry.(stored := Some(stored), size := size, status := MOVING, error := None)
  }
}
