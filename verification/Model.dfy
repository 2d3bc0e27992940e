/** Values shared by the plan, the executor and the quarantine store. */
module Model {
  import opened Wrappers
  import opened Bytes
  import opened Paths

  /** The failures a port reports, as far as callers tell them apart. */
  datatype BrozaError =
    | PermissionDenied
    | TargetNotFound
    | AlreadyExists
    | WouldBlock
    | IoFailure
    | Other

  /** An open enum: a token this version has no name for is kept verbatim. */
  datatype ItemStatus =
    | Planned
    | Quarantined
    | Purged
    | Restored
    | Skipped
    | Failed
    | UnknownStatus(token: string)
  {
    predicate IsUnsuccessful() {
      Skipped? || Failed?
    }
  }

  datatype ItemErrorCode =
    | CrossVolume
    | NoPermission
    | Collision
    | NotFound
    | ProtectedVolume
    | SessionBusy
    | IoError
    | UnknownCode(token: string)

  datatype Action = Quarantine | Purge | TmutilDelete | InformOnly

  const CHANGED_SINCE_CHECK := UnknownCode("changed_since_check")
  const MAX_SIZE_EXCEEDED := UnknownCode("max_size_exceeded")
  const ORPHANED_ITEM := UnknownCode("orphaned_item")
  const MOVING := UnknownStatus("moving")

  /** `lstat` of one entry. */
  datatype Metadata = Metadata(
    device: nat, inode: nat, isDir: bool,
    allocatedBytes: u64, linkCount: nat, cloneId: Option<nat>)
  {
    predicate IsClone() {
      cloneId.Some? && cloneId.value != inode
    }
  }

  /** A path the guard approved, with the identity it had then. */
  datatype WritablePath = WritablePath(path: Path, device: nat, inode: nat, isDir: bool) {
    predicate Matches(m: Metadata) {
      m.device == device && m.inode == inode
    }
  }

  datatype SnapshotRef = SnapshotRef(volume: string, name: string, uuid: string)

  datatype ApprovedItem =
    | ApprovedPath(target: WritablePath)
    | ApprovedSnapshot(mountPoint: Path, snapshot: SnapshotRef)
  {
    function ItemPath(): Path {
      if ApprovedPath? then target.path else mountPoint
    }

    function Writable(): Option<WritablePath> {
      if ApprovedPath? then Some(target) else None
    }
  }

  /** The item error code of an I/O failure. */
  function IoCode(e: BrozaError): (c: ItemErrorCode)
    ensures c == NotFound <==> e == TargetNotFound
    ensures c == NoPermission <==> e == PermissionDenied
    ensures c == IoError <==> e != TargetNotFound && e != PermissionDenied
  {
    match e
    case PermissionDenied => NoPermission
    case TargetNotFound => NotFound
    case _ => IoError
  }
}
