/**
 * Executing an approved plan against a filesystem that may answer anything.
 *
 * Every port call a run makes for item `k` reads its answer from `answers(k)`,
 * an arbitrary function, so nothing below assumes that the filesystem behaves,
 * holds still, or tells the truth. The calls made are returned in order.
 */
module Executor {
  import opened Wrappers
  import opened Bytes
  import opened Paths
  import opened Model
  import opened Plan
  import opened Attempt
  import opened Ids
  import opened Entries
  import opened Layout
  import opened SessionStart

  /** What the guard hands over; `root` is the store it validated, if it did. */
  datatype Token = Token(plan: CleanPlan, items: seq<ApprovedItem>, root: Option<Path>)

  datatype Call =
    | Stat(path: Path, answer: Result<Metadata, BrozaError>)
    | Measure(path: Path)
    | WriteManifest
    | CreateDir(path: Path)
    | Rename(from: Path, to: Path)
    | Remove(path: Path)
    | DeleteSnapshot(item: ApprovedItem)
  {
    predicate Quiet() {
      Measure? || WriteManifest? || CreateDir?
    }
  }

  /** What the filesystem and the snapshot provider will answer about one item. */
  datatype Answers = Answers(
    stat: Result<Metadata, BrozaError>,
    measured: Result<u64, BrozaError>,
    announced: Option<BrozaError>,
    made: Option<BrozaError>,
    moved: Result<RenameMode, BrozaError>,
    recorded: Option<BrozaError>,
    restat: Result<Metadata, BrozaError>,
    freed: Result<u64, BrozaError>,
    removed: Option<BrozaError>,
    deleted: Option<BrozaError>)

  // -------------------------------------------------- matching token and plan

  /** The first planned item for `path` at `cursor` or later. */
  function FindPlanned(items: seq<CleanItem>, path: Path, cursor: nat): (found: Option<nat>)
    ensures found.Some? ==>
              && cursor <= found.value < |items|
              && items[found.value].path == path && items[found.value].status.Planned?
              && forall i :: cursor <= i < found.value ==> !(items[i].path == path && items[i].status.Planned?)
    ensures found.None? ==>
              forall i :: cursor <= i < |items| ==> !(items[i].path == path && items[i].status.Planned?)
    decreases |items| - cursor
  {
    if cursor >= |items| then None
    else if items[cursor].path == path && items[cursor].status.Planned? then Some(cursor)
    else FindPlanned(items, path, cursor + 1)
  }

  /** `plan_indices`: token and plan walked together; each index lies past the one before. */
  function PlanIndices(items: seq<CleanItem>, approved: seq<ApprovedItem>, cursor: nat)
    : (r: Result<seq<nat>, BrozaError>)
    ensures r.Ok? ==> Paired(items, approved, r.value) && forall k :: 0 <= k < |r.value| ==> cursor <= r.value[k]
    decreases |approved|
  {
    if approved == [] then Ok([])
    else
      match FindPlanned(items, approved[0].ItemPath(), cursor)
      case None => Err(Other)
      case Some(at) =>
        var rest :- PlanIndices(items, approved[1..], at + 1);
        PairedCons(items, approved, cursor, at, rest);
        Ok([at] + rest)
  }

  lemma PairedCons(items: seq<CleanItem>, approved: seq<ApprovedItem>, cursor: nat, at: nat, rest: seq<nat>)
    requires approved != [] && FindPlanned(items, approved[0].ItemPath(), cursor) == Some(at)
    requires Paired(items, approved[1..], rest) && forall k :: 0 <= k < |rest| ==> at + 1 <= rest[k]
    ensures Paired(items, approved, [at] + rest) && forall k :: 0 <= k < |rest| + 1 ==> cursor <= ([at] + rest)[k]
  {
    var all := [at] + rest;
    assert all[1..] == rest;
    forall k | 0 <= k < |all|
      ensures all[k] < |items| && items[all[k]].path == approved[k].ItemPath() && items[all[k]].status.Planned?
      ensures cursor <= all[k]
    {
      if k > 0 {
        assert all[k] == rest[k - 1] && approved[1..][k - 1] == approved[k];
      }
    }
    forall j, k | 0 <= j < k < |all| ensures all[j] < all[k] {
      if j > 0 {
        assert rest[j - 1] < rest[k - 1];
      }
    }
  }

  /** An injective, order-keeping pairing of approved items with planned items of the same path. */
  ghost predicate Paired(items: seq<CleanItem>, approved: seq<ApprovedItem>, indices: seq<nat>) {
    && |indices| == |approved|
    && (forall k :: 0 <= k < |indices| ==>
          && indices[k] < |items|
          && items[indices[k]].path == approved[k].ItemPath()
          && items[indices[k]].status.Planned?)
    && forall j, k :: 0 <= j < k < |indices| ==> indices[j] < indices[k]
  }

  lemma {:induction false} PairingFound(
    items: seq<CleanItem>, approved: seq<ApprovedItem>, cursor: nat, indices: seq<nat>)
    requires Paired(items, approved, indices) && forall k :: 0 <= k < |indices| ==> cursor <= indices[k]
    ensures var r := PlanIndices(items, approved, cursor);
            r.Ok? && forall k :: 0 <= k < |indices| ==> k < |r.value| && r.value[k] <= indices[k]
    decreases |approved|
  {
    if approved != [] {
      var found := FindPlanned(items, approved[0].ItemPath(), cursor);
      assert found.Some? && found.value <= indices[0];
      PairingFound(items, approved[1..], found.value + 1, indices[1..]);
      hide FindPlanned;
    }
  }

  /** The walk finds a pairing exactly when there is one, and then the earliest. */
  lemma PairsExactly(items: seq<CleanItem>, approved: seq<ApprovedItem>)
    ensures PlanIndices(items, approved, 0).Ok? <==> exists indices :: Paired(items, approved, indices)
    ensures forall indices :: Paired(items, approved, indices) ==>
              var r := PlanIndices(items, approved, 0);
              r.Ok? && |r.value| == |indices| && forall k :: 0 <= k < |indices| ==> r.value[k] <= indices[k]
  {
    forall indices | Paired(items, approved, indices)
      ensures var r := PlanIndices(items, approved, 0);
              r.Ok? && |r.value| == |indices| && forall k :: 0 <= k < |indices| ==> r.value[k] <= indices[k]
    {
      PairingFound(items, approved, 0, indices);
    }
  }

  // ------------------------------------------------------------ purging items

  /** What removing the item frees, as far as it is certain. */
  function FreedBytes(current: Metadata, freed: Result<u64, BrozaError>): Result<u64, BrozaError> {
    if current.isDir then freed
    else if current.linkCount > 1 || current.IsClone() then Ok(0)
    else Ok(current.allocatedBytes)
  }

  datatype Outcome = Outcome(status: ItemStatus, error: Option<ItemErrorCode>, bytes: u64)

  function PurgeOne(item: WritablePath, a: Answers, running: u64, maxSize: Option<u64>): Outcome {
    match RecheckIdentity(item, a.restat)
    case Err(code) => Outcome(Failed, Some(code), 0)
    case Ok(current) =>
      match FreedBytes(current, a.freed)
      case Err(e) => Outcome(Failed, Some(IoCode(e)), 0)
      case Ok(bytes) =>
        if ExceedsCap(running, bytes, maxSize) then Outcome(Skipped, Some(MAX_SIZE_EXCEEDED), 0)
        else
          match a.removed
          case None => Outcome(Purged, None, bytes)
          case Some(e) => Outcome(Failed, Some(IoCode(e)), 0)
  }

  function PurgeCalls(item: WritablePath, a: Answers, running: u64, maxSize: Option<u64>): seq<Call> {
    var stat := [Stat(item.path, a.restat)];
    match RecheckIdentity(item, a.restat)
    case Err(_) => stat
    case Ok(current) =>
      var measured := if current.isDir then stat + [Measure(item.path)] else stat;
      match FreedBytes(current, a.freed)
      case Err(_) => measured
      case Ok(bytes) =>
        if ExceedsCap(running, bytes, maxSize) then measured else measured + [Remove(item.path)]
  }

  // ------------------------------------------------------------- moving items

  function AttemptOne(item: WritablePath, d: Destination, a: Answers, movedBytes: u64): (attempt: Attempt)
    ensures attempt.Refused? ==> attempt.status.IsUnsuccessful()
  {
    match Precheck(item, d, movedBytes, a.stat, a.measured)
    case Err(refused) => refused
    case Ok(size) => MoveInto(item, d, size, a.made, a.moved)
  }

  /** The calls of `precheck`. */
  function CheckCalls(item: WritablePath, d: Destination, a: Answers): seq<Call> {
    [Stat(item.path, a.stat)] + if Measures(item, d, a.stat) then [Measure(item.path)] else []
  }

  /** The calls of `move_into`: without its directory the item is not renamed. */
  function IntoCalls(item: WritablePath, d: Destination, a: Answers): seq<Call> {
    [CreateDir(ItemDir(d.sessionDir, d.sequence))]
    + if a.made.None? then [Rename(item.path, d.StoredPathOf(item.path))] else []
  }

  /** The calls of one move; a failed announcement stops it before anything is made. */
  function MoveCalls(item: WritablePath, d: Destination, a: Answers, movedBytes: u64): seq<Call> {
    var checked := CheckCalls(item, d, a);
    if Precheck(item, d, movedBytes, a.stat, a.measured).Err? || a.announced.Some?
    then checked + [WriteManifest]
    else checked + [WriteManifest] + IntoCalls(item, d, a) + [WriteManifest]
  }

  // --------------------------------------- what a run is, before any loop runs

  /** A pass over the token: which items it acts on, and the bytes each one added. */
  datatype Pass = Pass(
    plan: CleanPlan, indices: seq<nat>, items: seq<ApprovedItem>, answers: nat -> Answers,
    maxSize: Option<u64>, start: u64, at: Started)
  {
    ghost predicate Ready() {
      Paired(plan.items, items, indices)
    }

    /** Item `k` has this action; only a snapshot deletion may name something that is not a path. */
    predicate Acts(k: nat, action: Action) {
      && k < |items| && k < |indices| && indices[k] < |plan.items|
      && plan.items[indices[k]].action == action
      && (action.TmutilDelete? || items[k].ApprovedPath?)
    }

    /** How many items before `k` the action covers: the session position of item `k`. */
    function Position(k: nat): nat {
      if k == 0 then 0 else Position(k - 1) + if Acts(k - 1, Quarantine) then 1 else 0
    }

    function DestinationOf(k: nat): Destination
      requires Acts(k, Quarantine)
    {
      Destination(at.dir, Position(k) + 1, at.rootDevice, maxSize, plan.items[indices[k]].size)
    }

    function MovedBefore(k: nat): u64
      decreases k, 0
    {
      if k == 0 then start
      else if Acts(k - 1, Quarantine) then SatAdd(MovedBefore(k - 1), MovedOf(AttemptAt(k - 1)))
      else MovedBefore(k - 1)
    }

    function AttemptAt(k: nat): Attempt
      requires Acts(k, Quarantine)
      decreases k, 1
    {
      AttemptOne(items[k].target, DestinationOf(k), answers(k), MovedBefore(k))
    }

    function RunningBefore(k: nat): u64
      decreases k, 0
    {
      if k == 0 then start
      else if Acts(k - 1, Purge) then SatAdd(RunningBefore(k - 1), PurgeAt(k - 1).bytes)
      else RunningBefore(k - 1)
    }

    function PurgeAt(k: nat): Outcome
      requires Acts(k, Purge)
      decreases k, 1
    {
      PurgeOne(items[k].target, answers(k), RunningBefore(k), maxSize)
    }

    /** The sizes the first `k` items moved, zero for the others. */
    function MovedSizes(k: nat): (s: seq<u64>)
      ensures |s| == k
    {
      seq(k, i requires 0 <= i < k => if Acts(i, Quarantine) then MovedOf(AttemptAt(i)) else 0)
    }

    /** The bytes the first `k` items freed, zero for the others. */
    function PurgedSizes(k: nat): (s: seq<u64>)
      ensures |s| == k
    {
      seq(k, i requires 0 <= i < k => if Acts(i, Purge) then PurgeAt(i).bytes else 0)
    }
  }

  lemma SumSnoc(xs: seq<u64>, x: u64)
    ensures Sum(xs + [x]) == Sum(xs) + x
  {
    SumConcat(xs, [x]);
    assert Sum([x]) == x + Sum([]);
  }

  lemma MoveTotals(p: Pass, n: nat)
    ensures var bytes := if p.Acts(n, Quarantine) then MovedOf(p.AttemptAt(n)) else 0;
            && p.MovedBefore(n + 1) == SatAdd(p.MovedBefore(n), bytes)
            && Sum(p.MovedSizes(n + 1)) == Sum(p.MovedSizes(n)) + bytes
  {
    var bytes := if p.Acts(n, Quarantine) then MovedOf(p.AttemptAt(n)) else 0;
    assert p.MovedSizes(n + 1) == p.MovedSizes(n) + [bytes];
    SumSnoc(p.MovedSizes(n), bytes);
  }

  lemma PurgeTotals(p: Pass, n: nat)
    ensures var bytes := if p.Acts(n, Purge) then p.PurgeAt(n).bytes else 0;
            && p.RunningBefore(n + 1) == SatAdd(p.RunningBefore(n), bytes)
            && Sum(p.PurgedSizes(n + 1)) == Sum(p.PurgedSizes(n)) + bytes
  {
    var bytes := if p.Acts(n, Purge) then p.PurgeAt(n).bytes else 0;
    assert p.PurgedSizes(n + 1) == p.PurgedSizes(n) + [bytes];
    SumSnoc(p.PurgedSizes(n), bytes);
  }

  /** The running totals are the exact sums, capped once at the end rather than at every step. */
  lemma {:induction false} RunningIsCappedSum(p: Pass, k: nat)
    ensures p.MovedBefore(k) == Cap(p.start + Sum(p.MovedSizes(k)))
    ensures p.RunningBefore(k) == Cap(p.start + Sum(p.PurgedSizes(k)))
  {
    hide AttemptOne, PurgeOne;
    if k > 0 {
      RunningIsCappedSum(p, k - 1);
      MoveTotals(p, k - 1);
      PurgeTotals(p, k - 1);
    }
  }

  /** What one item adds was allowed by the cap check, or is nothing. */
  lemma EachFits(item: WritablePath, d: Destination, a: Answers, total: u64)
    ensures var moved := MovedOf(AttemptOne(item, d, a, total));
            moved == 0 || !ExceedsCap(total, moved, d.maxSize)
    ensures var bytes := PurgeOne(item, a, total, d.maxSize).bytes;
            bytes == 0 || !ExceedsCap(total, bytes, d.maxSize)
  {
  }

  /**
   * `--max-size` is never passed. The reported totals stay under the cap; below
   * `u64::MAX` so do the exact, unsaturated ones.
   */
  lemma {:induction false} CapIsKept(p: Pass, k: nat, cap: u64)
    requires p.maxSize == Some(cap) && p.start <= cap
    ensures p.MovedBefore(k) <= cap && p.RunningBefore(k) <= cap
    ensures cap < U64_MAX ==> p.start + Sum(p.MovedSizes(k)) <= cap && p.start + Sum(p.PurgedSizes(k)) <= cap
  {
    hide AttemptOne, PurgeOne;
    RunningIsCappedSum(p, k);
    if k > 0 {
      CapIsKept(p, k - 1, cap);
      if p.Acts(k - 1, Quarantine) {
        EachFits(p.items[k - 1].target, p.DestinationOf(k - 1), p.answers(k - 1), p.MovedBefore(k - 1));
      }
      if p.Acts(k - 1, Purge) {
        var d := Destination(p.at.dir, 0, p.at.rootDevice, p.maxSize, 0);
        EachFits(p.items[k - 1].target, d, p.answers(k - 1), p.RunningBefore(k - 1));
      }
    }
  }

  /** With a cap of `u64::MAX` the check never fires: two items can exceed it in exact bytes. */
  lemma MaxCapIsNoCap(running: u64, bytes: u64)
    ensures !ExceedsCap(running, bytes, Some(U64_MAX))
    ensures ExceedsCap(1, U64_MAX, Some(U64_MAX)) == false && 1 + U64_MAX > U64_MAX
  {
  }

  // --------------------------------------- one turn, in terms of the answers alone

  /** The saturated total stays within the cap, if there is one. */
  ghost predicate StaysWithin(total: u64, bytes: u64, cap: Option<u64>) {
    cap.Some? ==> total + bytes <= cap.value || cap.value == U64_MAX
  }

  /** What removing this surely gives back: a file another name or clone shares gives nothing. */
  ghost function SureBytes(m: Metadata, freed: Result<u64, BrozaError>): u64 {
    if m.isDir && freed.Ok? then freed.value
    else if !m.isDir && m.linkCount <= 1 && (m.cloneId == None || m.cloneId == Some(m.inode)) then m.allocatedBytes
    else 0
  }

  /** The path still names what was approved. */
  ghost predicate Same(item: WritablePath, stat: Result<Metadata, BrozaError>) {
    stat.Ok? && stat.value.device == item.device && stat.value.inode == item.inode
  }

  /** The removal is gone through with. */
  ghost predicate MayPurge(item: WritablePath, a: Answers, running: u64, cap: Option<u64>) {
    && Same(item, a.restat) && (a.restat.value.isDir ==> a.freed.Ok?)
    && StaysWithin(running, SureBytes(a.restat.value, a.freed), cap)
  }

  /**
   * An item counts exactly when it is recorded `purged`, and then for what was
   * measured right before; each refusal has its own status and code.
   */
  lemma PurgedExactlyWhenCounted(item: WritablePath, a: Answers, running: u64, maxSize: Option<u64>)
    ensures var o := PurgeOne(item, a, running, maxSize);
            && (o.status == Purged <==> MayPurge(item, a, running, maxSize) && a.removed.None?)
            && (o.status == Purged ==> o.error == None && o.bytes == SureBytes(a.restat.value, a.freed))
            && (o.status != Purged ==>
                  && o.bytes == 0
                  && (o.status, o.error) ==
                     if a.restat.Err? then (Failed, Some(IoCode(a.restat.error)))
                     else if !Same(item, a.restat) then (Failed, Some(CHANGED_SINCE_CHECK))
                     else if a.restat.value.isDir && a.freed.Err? then (Failed, Some(IoCode(a.freed.error)))
                     else if !MayPurge(item, a, running, maxSize) then (Skipped, Some(MAX_SIZE_EXCEEDED))
                     else (Failed, if a.removed.Some? then Some(IoCode(a.removed.value)) else None))
  {
  }

  /**
   * What an item adds to the store: a file what it occupies, a directory what was
   * measured under a cap or planned without one.
   */
  ghost function Weight(item: WritablePath, a: Answers, cap: Option<u64>, planned: u64): u64 {
    if item.isDir then
      if cap.None? then planned else if a.measured.Ok? then a.measured.value else 0
    else if a.stat.Ok? then a.stat.value.allocatedBytes
    else 0
  }

  /** Nothing before the move itself stands in the way. */
  ghost predicate MayMove(item: WritablePath, d: Destination, a: Answers, movedBytes: u64) {
    && Same(item, a.stat) && a.stat.value.device == d.rootDevice
    && (item.isDir && d.maxSize.Some? ==> a.measured.Ok?)
    && StaysWithin(movedBytes, Weight(item, a, d.maxSize, d.plannedBytes), d.maxSize)
  }

  /**
   * An item moves exactly when it still is what was approved, lies on the
   * store's volume, has a known size within the cap, its directory could be made
   * and the rename worked: under the stored path, for the size it has now, or for
   * the planned one where nothing depends on it. Each refusal has its own status
   * and code.
   */
  lemma MovedExactlyWhenAllowed(item: WritablePath, d: Destination, a: Answers, movedBytes: u64)
    ensures var attempt := AttemptOne(item, d, a, movedBytes);
            && (attempt.Moved? <==> MayMove(item, d, a, movedBytes) && a.made.None? && a.moved.Ok?)
            && (attempt.Moved? ==>
                  && attempt.size == Weight(item, a, d.maxSize, d.plannedBytes)
                  && a.moved == Ok(attempt.mode)
                  && attempt.stored == StoredPath(d.sessionDir, d.sequence, Basename(item.path)))
            && (attempt.Refused? ==>
                  (attempt.status, attempt.error) ==
                  if a.stat.Err? then (Failed, IoCode(a.stat.error))
                  else if !Same(item, a.stat) then (Failed, CHANGED_SINCE_CHECK)
                  else if a.stat.value.device != d.rootDevice then (Skipped, CrossVolume)
                  else if item.isDir && d.maxSize.Some? && a.measured.Err? then (Failed, IoCode(a.measured.error))
                  else if !MayMove(item, d, a, movedBytes) then (Skipped, MAX_SIZE_EXCEEDED)
                  else if a.made.Some? then (Failed, IoCode(a.made.value))
                  else (Failed, if a.moved.Err? then IoCode(a.moved.error) else IoError))
  {
    CodesApart();
  }

  /**
   * The calls of a move, from the answers: a directory is walked only where its
   * size decides, and the tree changes only between two manifest writes.
   */
  lemma MoveCallsExactly(item: WritablePath, d: Destination, a: Answers, movedBytes: u64)
    ensures MoveCalls(item, d, a, movedBytes)
            == [Stat(item.path, a.stat)]
               + (if Same(item, a.stat) && a.stat.value.device == d.rootDevice && item.isDir && d.maxSize.Some?
                  then [Measure(item.path)] else [])
               + [WriteManifest]
               + (if !MayMove(item, d, a, movedBytes) || a.announced.Some? then []
                  else [CreateDir(ItemDir(d.sessionDir, d.sequence))]
                       + (if a.made.Some? then []
                          else [Rename(item.path, ItemDir(d.sessionDir, d.sequence) + [Basename(item.path)])])
                       + [WriteManifest])
  {
    CheckedExactly(item, d, a, movedBytes);
    hide Precheck, MayMove, CheckCalls;
    assert ItemDir(d.sessionDir, d.sequence) + [Basename(item.path)] == d.StoredPathOf(item.path);
  }

  lemma CheckedExactly(item: WritablePath, d: Destination, a: Answers, movedBytes: u64)
    ensures Precheck(item, d, movedBytes, a.stat, a.measured).Ok? <==> MayMove(item, d, a, movedBytes)
    ensures CheckCalls(item, d, a)
            == [Stat(item.path, a.stat)]
               + if Same(item, a.stat) && a.stat.value.device == d.rootDevice && item.isDir && d.maxSize.Some?
                 then [Measure(item.path)] else []
  {
  }

  /** The calls of a removal, exactly. */
  lemma PurgeCallsExactly(item: WritablePath, a: Answers, running: u64, maxSize: Option<u64>)
    ensures PurgeCalls(item, a, running, maxSize)
            == [Stat(item.path, a.restat)]
               + (if Same(item, a.restat) && a.restat.value.isDir then [Measure(item.path)] else [])
               + (if MayPurge(item, a, running, maxSize) then [Remove(item.path)] else [])
  {
  }

  lemma CodesApart()
    ensures CHANGED_SINCE_CHECK != MAX_SIZE_EXCEEDED
    ensures forall e :: IoCode(e) != CHANGED_SINCE_CHECK && IoCode(e) != MAX_SIZE_EXCEEDED && IoCode(e) != CrossVolume
  {
    assert |"changed_since_check"| != |"max_size_exceeded"|;
  }

  // ----------------------------------------------- every change was re-checked

  /** The path a call changes: the source of a rename, or what is removed. */
  function ChangedPath(c: Call): Path
    requires c.Remove? || c.Rename?
  {
    if c.Remove? then c.path else c.from
  }

  /** Call `j` saw, at the path call `i` changes, the identity the token holds for item `k`. */
  ghost predicate Witnesses(calls: seq<Call>, approved: seq<ApprovedItem>, i: nat, j: nat, k: nat) {
    && j < i < |calls| && k < |approved|
    && (calls[i].Remove? || calls[i].Rename?)
    && approved[k].ApprovedPath? && approved[k].target.path == ChangedPath(calls[i])
    && calls[j].Stat? && calls[j].path == ChangedPath(calls[i])
    && calls[j].answer.Ok? && approved[k].target.Matches(calls[j].answer.value)
    && forall m :: j < m < i ==> calls[m].Quiet()
  }

  /**
   * Every call that changes the tree at a path comes after a stat of that path
   * that matched the token, with only quiet calls in between.
   */
  ghost predicate AllRechecked(calls: seq<Call>, approved: seq<ApprovedItem>) {
    forall i :: 0 <= i < |calls| && (calls[i].Remove? || calls[i].Rename?) ==>
      exists j, k :: Witnesses(calls, approved, i, j, k)
  }

  lemma RecheckedConcat(a: seq<Call>, b: seq<Call>, approved: seq<ApprovedItem>)
    requires AllRechecked(a, approved) && AllRechecked(b, approved)
    ensures AllRechecked(a + b, approved)
  {
    var c := a + b;
    forall i | 0 <= i < |c| && (c[i].Remove? || c[i].Rename?)
      ensures exists j, k :: Witnesses(c, approved, i, j, k)
    {
      if i < |a| {
        assert c[i] == a[i];
        var j, k :| Witnesses(a, approved, i, j, k);
        assert Witnesses(c, approved, i, j, k);
      } else {
        assert c[i] == b[i - |a|];
        var j, k :| Witnesses(b, approved, i - |a|, j, k);
        forall m | |a| + j < m < i ensures c[m].Quiet() {
          assert c[m] == b[m - |a|];
        }
        assert Witnesses(c, approved, i, |a| + j, k);
      }
    }
  }

  lemma PurgeIsRechecked(approved: seq<ApprovedItem>, k: nat, a: Answers, running: u64, maxSize: Option<u64>)
    requires k < |approved| && approved[k].ApprovedPath?
    ensures AllRechecked(PurgeCalls(approved[k].target, a, running, maxSize), approved)
  {
    var item := approved[k].target;
    var calls := PurgeCalls(item, a, running, maxSize);
    forall i | 0 <= i < |calls| && (calls[i].Remove? || calls[i].Rename?)
      ensures exists j, k :: Witnesses(calls, approved, i, j, k)
    {
      assert Witnesses(calls, approved, i, 0, k);
    }
  }

  lemma MoveIsRechecked(approved: seq<ApprovedItem>, k: nat, d: Destination, a: Answers, movedBytes: u64)
    requires k < |approved| && approved[k].ApprovedPath?
    ensures AllRechecked(MoveCalls(approved[k].target, d, a, movedBytes), approved)
  {
    var item := approved[k].target;
    var calls := MoveCalls(item, d, a, movedBytes);
    forall i | 0 <= i < |calls| && (calls[i].Remove? || calls[i].Rename?)
      ensures exists j, k :: Witnesses(calls, approved, i, j, k)
    {
      assert Witnesses(calls, approved, i, 0, k);
    }
  }

  // ------------------------------------------------- what a run calls, and warns of

  datatype Warning =
    | NotExclusive(stored: Path)
    | NeedsAdmin(item: ApprovedItem)

  /** `warning_of`: a rename that had to check instead of being exclusive. */
  function WarningsOf(a: Attempt): (w: seq<Warning>) {
    if a.Moved? && a.mode.CheckedFallback? then [NotExclusive(a.stored)] else []
  }

  /** The calls of item `k`'s move, if it is to be moved. */
  function MoveTurn(p: Pass, k: nat): (calls: seq<Call>) {
    if p.Acts(k, Quarantine) then MoveCalls(p.items[k].target, p.DestinationOf(k), p.answers(k), p.MovedBefore(k)) else []
  }

  function MoveTrace(p: Pass, n: nat): (calls: seq<Call>) {
    if n == 0 then [] else MoveTrace(p, n - 1) + MoveTurn(p, n - 1)
  }

  function MoveWarnings(p: Pass, n: nat): (warnings: seq<Warning>) {
    if n == 0 then []
    else MoveWarnings(p, n - 1) + if p.Acts(n - 1, Quarantine) then WarningsOf(p.AttemptAt(n - 1)) else []
  }

  /** The calls of item `k`'s removal, if it is to be removed. */
  function PurgeTurn(p: Pass, k: nat): (calls: seq<Call>) {
    if p.Acts(k, Purge) then PurgeCalls(p.items[k].target, p.answers(k), p.RunningBefore(k), p.maxSize) else []
  }

  function PurgeTrace(p: Pass, n: nat): (calls: seq<Call>) {
    if n == 0 then [] else PurgeTrace(p, n - 1) + PurgeTurn(p, n - 1)
  }

  function DeleteTrace(p: Pass, n: nat): (calls: seq<Call>) {
    if n == 0 then []
    else DeleteTrace(p, n - 1) + if p.Acts(n - 1, TmutilDelete) then [DeleteSnapshot(p.items[n - 1])] else []
  }

  function DeleteWarnings(p: Pass, n: nat): (warnings: seq<Warning>) {
    if n == 0 then []
    else
      DeleteWarnings(p, n - 1)
      + if p.Acts(n - 1, TmutilDelete) then RefusalOf(p.items[n - 1], p.answers(n - 1)) else []
  }

  /** A deletion refused for lack of privilege earns the command the user may run. */
  function RefusalOf(item: ApprovedItem, a: Answers): (w: seq<Warning>) {
    if a.deleted == Some(PermissionDenied) then [NeedsAdmin(item)] else []
  }

  lemma TraceSteps(p: Pass, n: nat)
    ensures MoveTrace(p, 0) == PurgeTrace(p, 0) == []
    ensures MoveTrace(p, n + 1) == MoveTrace(p, n) + MoveTurn(p, n)
    ensures PurgeTrace(p, n + 1) == PurgeTrace(p, n) + PurgeTurn(p, n)
  {
    hide MoveTurn, PurgeTurn;
  }

  lemma {:induction false} MoveTraceGrows(p: Pass, k: nat, n: nat)
    requires k <= n
    ensures MoveTrace(p, k) <= MoveTrace(p, n)
    decreases n
  {
    if k < n {
      MoveTraceGrows(p, k, n - 1);
    }
  }

  lemma {:induction false} PurgeTraceGrows(p: Pass, k: nat, n: nat)
    requires k <= n
    ensures PurgeTrace(p, k) <= PurgeTrace(p, n)
    decreases n
  {
    if k < n {
      PurgeTraceGrows(p, k, n - 1);
    }
  }

  /** Item `k` gets as far as this rename. */
  ghost predicate Renames(p: Pass, k: nat, c: Call) {
    && p.Acts(k, Quarantine)
    && MayMove(p.items[k].target, p.DestinationOf(k), p.answers(k), p.MovedBefore(k))
    && p.answers(k).announced.None? && p.answers(k).made.None?
    && c == Rename(p.items[k].target.path, StoredPath(p.at.dir, p.Position(k) + 1, Basename(p.items[k].target.path)))
  }

  /** Item `k` gets as far as this removal. */
  ghost predicate Removes(p: Pass, k: nat, c: Call) {
    && p.Acts(k, Purge) && c == Remove(p.items[k].target.path)
    && MayPurge(p.items[k].target, p.answers(k), p.RunningBefore(k), p.maxSize)
  }

  lemma MoveTurnChanges(p: Pass, k: nat, c: Call)
    requires c.Rename? || c.Remove?
    ensures c in MoveTurn(p, k) <==> Renames(p, k, c)
  {
    if p.Acts(k, Quarantine) {
      CheckedExactly(p.items[k].target, p.DestinationOf(k), p.answers(k), p.MovedBefore(k));
    }
    hide Precheck, MayMove, Pass.MovedBefore, Pass.Position;
  }

  lemma PurgeTurnChanges(p: Pass, k: nat, c: Call)
    requires c.Rename? || c.Remove?
    ensures c in PurgeTurn(p, k) <==> Removes(p, k, c)
  {
    if p.Acts(k, Purge) {
      PurgeCallsExactly(p.items[k].target, p.answers(k), p.RunningBefore(k), p.maxSize);
    }
    hide PurgeCalls, MayPurge, Pass.RunningBefore;
  }

  ghost predicate AnyRenames(p: Pass, n: nat, c: Call) {
    exists k: nat :: k < n && Renames(p, k, c)
  }

  ghost predicate AnyRemoves(p: Pass, n: nat, c: Call) {
    exists k: nat :: k < n && Removes(p, k, c)
  }

  lemma OneMoreTurn(p: Pass, n: nat, c: Call)
    ensures AnyRenames(p, n + 1, c) <==> AnyRenames(p, n, c) || Renames(p, n, c)
    ensures AnyRemoves(p, n + 1, c) <==> AnyRemoves(p, n, c) || Removes(p, n, c)
  {
    hide Renames, Removes;
  }

  lemma InTrace(a: seq<Call>, b: seq<Call>, c: Call)
    ensures c in a + b <==> c in a || c in b
  {
  }

  lemma {:induction false} MoveTraceExactly(p: Pass, n: nat, c: Call)
    requires c.Rename? || c.Remove?
    ensures c in MoveTrace(p, n) <==> AnyRenames(p, n, c)
  {
    hide MoveTrace, MoveTurn, PurgeTurn, Renames, Removes;
    TraceSteps(p, if n == 0 then 0 else n - 1);
    if n == 0 {
      assert !AnyRenames(p, n, c);
    } else {
      hide AnyRenames, AnyRemoves;
      MoveTraceExactly(p, n - 1, c);
      MoveTurnChanges(p, n - 1, c);
      OneMoreTurn(p, n - 1, c);
      InTrace(MoveTrace(p, n - 1), MoveTurn(p, n - 1), c);
    }
  }

  lemma {:induction false} PurgeTraceExactly(p: Pass, n: nat, c: Call)
    requires c.Rename? || c.Remove?
    ensures c in PurgeTrace(p, n) <==> AnyRemoves(p, n, c)
  {
    hide PurgeTrace, MoveTurn, PurgeTurn, Renames, Removes;
    TraceSteps(p, if n == 0 then 0 else n - 1);
    if n == 0 {
      assert !AnyRemoves(p, n, c);
    } else {
      hide AnyRenames, AnyRemoves;
      PurgeTraceExactly(p, n - 1, c);
      PurgeTurnChanges(p, n - 1, c);
      OneMoreTurn(p, n - 1, c);
      InTrace(PurgeTrace(p, n - 1), PurgeTurn(p, n - 1), c);
    }
  }

  lemma {:induction false} DeleteTraceChangesNothing(p: Pass, n: nat, c: Call)
    requires c.Rename? || c.Remove?
    ensures c !in DeleteTrace(p, n)
  {
    if n > 0 {
      DeleteTraceChangesNothing(p, n - 1, c);
    }
  }

  lemma MoveTurnRechecked(p: Pass, k: nat)
    requires k < |p.items|
    ensures AllRechecked(MoveTurn(p, k), p.items)
  {
    hide MoveCalls, AllRechecked;
    NothingRechecked(p.items);
    if p.Acts(k, Quarantine) {
      MoveIsRechecked(p.items, k, p.DestinationOf(k), p.answers(k), p.MovedBefore(k));
    }
  }

  lemma PurgeTurnRechecked(p: Pass, k: nat)
    requires k < |p.items|
    ensures AllRechecked(PurgeTurn(p, k), p.items)
  {
    hide PurgeCalls, AllRechecked;
    NothingRechecked(p.items);
    if p.Acts(k, Purge) {
      PurgeIsRechecked(p.items, k, p.answers(k), p.RunningBefore(k), p.maxSize);
    }
  }

  lemma {:induction false} TracesRechecked(p: Pass, n: nat)
    requires n <= |p.items|
    ensures AllRechecked(MoveTrace(p, n), p.items) && AllRechecked(PurgeTrace(p, n), p.items)
  {
    hide MoveTrace, PurgeTrace, MoveTurn, PurgeTurn, AllRechecked;
    NothingRechecked(p.items);
    TraceSteps(p, if n == 0 then 0 else n - 1);
    if n > 0 {
      TracesRechecked(p, n - 1);
      MoveTurnRechecked(p, n - 1);
      PurgeTurnRechecked(p, n - 1);
      RecheckedConcat(MoveTrace(p, n - 1), MoveTurn(p, n - 1), p.items);
      RecheckedConcat(PurgeTrace(p, n - 1), PurgeTurn(p, n - 1), p.items);
    }
  }

  lemma NothingRechecked(approved: seq<ApprovedItem>)
    ensures AllRechecked([], approved)
  {
  }

  /** A run cut short is re-checked as far as it got. */
  lemma RecheckedPrefix(a: seq<Call>, b: seq<Call>, approved: seq<ApprovedItem>)
    requires a <= b && AllRechecked(b, approved)
    ensures AllRechecked(a, approved)
  {
    forall i | 0 <= i < |a| && (a[i].Remove? || a[i].Rename?) ensures exists j, k :: Witnesses(a, approved, i, j, k) {
      assert a[i] == b[i];
      var j, k :| Witnesses(b, approved, i, j, k);
      assert Witnesses(a, approved, i, j, k);
    }
  }

  // --------------------------------------------------------------- the passes

  /** Plan item `i` is one the first `n` approved items act on with `action`. */
  ghost predicate Touched(p: Pass, n: nat, action: Action, i: nat) {
    exists k :: 0 <= k < n && p.Acts(k, action) && p.indices[k] == i
  }

  /** `after` is `before` with nothing but the outcomes of the touched items replaced. */
  ghost predicate OnlyTouched(p: Pass, n: nat, action: Action, before: CleanPlan, after: CleanPlan) {
    && Valid(after) && !after.dryRun && Follows(before, after)
    && after == before.(items := after.items)
    && forall i :: 0 <= i < |before.items| && !Touched(p, n, action, i) ==> after.items[i] == before.items[i]
  }

  /** Before its turn, an item of the pass still is what the token paired it with. */
  ghost predicate Untouched(p: Pass, action: Action, plan: CleanPlan) {
    && p.Ready() && Valid(plan) && !plan.dryRun && Follows(p.plan, plan)
    && forall k :: 0 <= k < |p.items| && p.Acts(k, action) ==> plan.items[p.indices[k]].status.Planned?
  }

  /** Recording item `n` keeps what the pass has recorded so far. */
  lemma RecordOne(
    p: Pass, n: nat, action: Action, before: CleanPlan, now: CleanPlan, status: ItemStatus,
    error: Option<ItemErrorCode>)
    requires Untouched(p, action, before) && OnlyTouched(p, n, action, before, now)
    requires n < |p.items| && p.Acts(n, action) && (error.Some? ==> status.IsUnsuccessful())
    ensures var r := WithItemStatus(now, p.indices[n], status, error);
            && r.Ok? && OnlyTouched(p, n + 1, action, before, r.value)
            && r.value.items[p.indices[n]].status == status && r.value.items[p.indices[n]].error == error
            && forall k :: 0 <= k < n ==> r.value.items[p.indices[k]] == now.items[p.indices[k]]
  {
    var at := p.indices[n];
    assert now.items[at] == before.items[at];
    WithItemStatusExactly(now, at, status, error);
    var after := WithItemStatus(now, at, status, error).value;
    FollowsTrans(before, now, after);
    forall i | 0 <= i < |before.items| && !Touched(p, n + 1, action, i)
      ensures after.items[i] == before.items[i]
    {
      TouchedGrows(p, n, action, i);
    }
  }

  lemma TouchedGrows(p: Pass, n: nat, action: Action, i: nat)
    ensures Touched(p, n, action, i) ==> Touched(p, n + 1, action, i)
    ensures p.Acts(n, action) && p.indices[n] == i ==> Touched(p, n + 1, action, i)
  {
  }

  lemma SkipOne(p: Pass, n: nat, action: Action, before: CleanPlan, now: CleanPlan)
    requires OnlyTouched(p, n, action, before, now) && !p.Acts(n, action)
    ensures OnlyTouched(p, n + 1, action, before, now)
  {
    forall i | 0 <= i < |before.items| && !Touched(p, n + 1, action, i)
      ensures now.items[i] == before.items[i]
    {
      TouchedGrows(p, n, action, i);
    }
  }

  /** A snapshot where a path is needed: a plan the guard never builds, and the only way a purge aborts. */
  predicate SnapshotInPass(p: Pass, action: Action, k: nat) {
    && k < |p.items| && k < |p.indices| && p.indices[k] < |p.plan.items|
    && p.plan.items[p.indices[k]].action == action && p.items[k].ApprovedSnapshot?
  }

  /** Every item the pass acts on has the outcome of its own turn. */
  ghost predicate PurgesRecorded(p: Pass, n: nat, plan: CleanPlan) {
    forall k :: 0 <= k < n && p.Acts(k, Purge) ==>
      && p.indices[k] < |plan.items|
      && plan.items[p.indices[k]].status == p.PurgeAt(k).status
      && plan.items[p.indices[k]].error == p.PurgeAt(k).error
  }

  ghost predicate MovesRecorded(p: Pass, n: nat, plan: CleanPlan) {
    forall k :: 0 <= k < n && p.Acts(k, Quarantine) ==>
      && p.indices[k] < |plan.items|
      && plan.items[p.indices[k]].status == OutcomeOf(p.AttemptAt(k)).0
      && plan.items[p.indices[k]].error == OutcomeOf(p.AttemptAt(k)).1
  }

  /** What the purge loop has established when it reaches item `n`. */
  ghost predicate PurgeSoFar(
    p: Pass, n: nat, before: CleanPlan, plan: CleanPlan, running: u64, freed: u64, calls: seq<Call>)
  {
    && n <= |p.items|
    && OnlyTouched(p, n, Purge, before, plan) && PurgesRecorded(p, n, plan)
    && running == p.RunningBefore(n) && freed == Cap(Sum(p.PurgedSizes(n)))
    && (forall k :: 0 <= k < n ==> !SnapshotInPass(p, Purge, k))
    && calls == PurgeTrace(p, n)
  }

  lemma PurgeSkips(
    p: Pass, n: nat, before: CleanPlan, plan: CleanPlan, running: u64, freed: u64, calls: seq<Call>)
    requires PurgeSoFar(p, n, before, plan, running, freed, calls) && n < |p.items|
    requires !p.Acts(n, Purge) && !SnapshotInPass(p, Purge, n)
    ensures PurgeSoFar(p, n + 1, before, plan, running, freed, calls)
  {
    SkipOne(p, n, Purge, before, plan);
    PurgeTotals(p, n);
  }

  lemma RecordedPurge(p: Pass, n: nat, plan: CleanPlan, next: CleanPlan)
    requires PurgesRecorded(p, n, plan) && |next.items| == |plan.items| && n < |p.indices|
    requires forall k :: 0 <= k < n && p.Acts(k, Purge) ==> next.items[p.indices[k]] == plan.items[p.indices[k]]
    requires p.Acts(n, Purge) && p.indices[n] < |next.items|
    requires next.items[p.indices[n]].status == p.PurgeAt(n).status
    requires next.items[p.indices[n]].error == p.PurgeAt(n).error
    ensures PurgesRecorded(p, n + 1, next)
  {
    hide PurgeOne, Pass.PurgeAt, Pass.RunningBefore;
  }

  lemma PurgeActs(
    p: Pass, n: nat, before: CleanPlan, plan: CleanPlan, running: u64, freed: u64, calls: seq<Call>)
    requires PurgeSoFar(p, n, before, plan, running, freed, calls) && n < |p.items|
    requires Untouched(p, Purge, before) && p.Acts(n, Purge)
    ensures var o := PurgeOne(p.items[n].target, p.answers(n), running, p.maxSize);
            var r := WithItemStatus(plan, p.indices[n], o.status, o.error);
            && r.Ok?
            && PurgeSoFar(p, n + 1, before, r.value, SatAdd(running, o.bytes), SatAdd(freed, o.bytes),
                          calls + PurgeCalls(p.items[n].target, p.answers(n), running, p.maxSize))
  {
    hide PurgeOne, PurgeCalls, WithItemStatus, Valid, Sum, ItemFollows, PurgesRecorded;
    var o := p.PurgeAt(n);
    PurgedExactlyWhenCounted(p.items[n].target, p.answers(n), running, p.maxSize);
    RecordOne(p, n, Purge, before, plan, o.status, o.error);
    RecordedPurge(p, n, plan, WithItemStatus(plan, p.indices[n], o.status, o.error).value);
    PurgeTotals(p, n);
  }

  /** The purge's result: every outcome recorded, and the freed bytes added to what was reclaimed. */
  ghost predicate PurgeDone(p: Pass, before: CleanPlan, done: CleanPlan) {
    && OnlyTouched(p, |p.items|, Purge, before, done.(reclaimed := before.reclaimed))
    && done.reclaimed == SatAdd(before.reclaimed, Cap(Sum(p.PurgedSizes(|p.items|))))
    && PurgesRecorded(p, |p.items|, done)
  }

  /**
   * `purge_items`. Whatever the filesystem answers, the loop runs to its end and
   * records every outcome; only a snapshot among the purge items stops it.
   */
  method PurgeItems(p: Pass, before: CleanPlan) returns (r: Result<CleanPlan, BrozaError>, calls: seq<Call>)
    requires Untouched(p, Purge, before) && p.start == before.quarantined
    ensures r.Err? <==> exists k :: SnapshotInPass(p, Purge, k)
    ensures r.Ok? ==> PurgeDone(p, before, r.value) && calls == PurgeTrace(p, |p.items|)
    ensures calls <= PurgeTrace(p, |p.items|)
  {
    hide PurgeOne, PurgeCalls, WithItemStatus;
    var plan, running, freed := before, before.quarantined, 0;
    calls := [];
    for n := 0 to |p.items|
      invariant PurgeSoFar(p, n, before, plan, running, freed, calls)
    {
      var index, item := p.indices[n], p.items[n];
      if plan.items[index].action != Purge {
        PurgeSkips(p, n, before, plan, running, freed, calls);
        continue;
      }
      if item.Writable().None? {
        assert SnapshotInPass(p, Purge, n);
        PurgeTraceGrows(p, n, |p.items|);
        return Err(Other), calls;
      }
      PurgeActs(p, n, before, plan, running, freed, calls);
      var outcome := PurgeOne(item.target, p.answers(n), running, p.maxSize);
      calls := calls + PurgeCalls(item.target, p.answers(n), running, p.maxSize);
      running := SatAdd(running, outcome.bytes);
      freed := SatAdd(freed, outcome.bytes);
      plan := WithItemStatus(plan, index, outcome.status, outcome.error).value;
    }
    r := WithBytes(plan, plan.quarantined, SatAdd(plan.reclaimed, freed));
  }

  // ------------------------------------------------------------- the mover's loop

  /** What ends the whole move at item `k`: the manifest cannot be written, or the plan is one the guard never builds. */
  ghost predicate MoveStops(p: Pass, k: nat) {
    || SnapshotInPass(p, Quarantine, k)
    || (p.Acts(k, Quarantine) && p.answers(k).recorded.Some?)
    || (p.Acts(k, Quarantine) && p.answers(k).announced.Some?
        && MayMove(p.items[k].target, p.DestinationOf(k), p.answers(k), p.MovedBefore(k)))
  }

  /** `movable_items`: where in the plan the items to be moved are, among the first `n`. */
  function MovableIndices(p: Pass, n: nat): (at: seq<nat>) {
    if n == 0 then []
    else
      MovableIndices(p, n - 1)
      + if n <= |p.indices| && p.indices[n - 1] < |p.plan.items| && p.plan.items[p.indices[n - 1]].action == Quarantine
        then [p.indices[n - 1]] else []
  }

  /** The plan asks to move approved item `k`, whatever it is. */
  ghost predicate ToMove(p: Pass, k: nat) {
    k < |p.items| && k < |p.indices| && p.indices[k] < |p.plan.items| && p.plan.items[p.indices[k]].action.Quarantine?
  }

  /** The items to be moved before item `k`. */
  ghost function MovedBy(p: Pass, k: nat): set<nat> {
    set j: nat | j < k && ToMove(p, j)
  }

  /** More items than there are sequence numbers: the entries of the session cannot be planned. */
  ghost predicate TooMany(p: Pass) {
    |MovedBy(p, |p.items|)| > 0xFFFF_FFFF
  }

  /** The list has one place for each item to be moved, as many places in as there are such items before it. */
  lemma {:induction false} MovableExactly(p: Pass, n: nat)
    requires n <= |p.items|
    ensures |MovableIndices(p, n)| == |MovedBy(p, n)|
    ensures forall k: nat :: k < n && ToMove(p, k) ==>
              |MovedBy(p, k)| < |MovableIndices(p, n)| && MovableIndices(p, n)[|MovedBy(p, k)|] == p.indices[k]
  {
    if n == 0 {
      assert MovedBy(p, n) == {};
    } else {
      OneMoreMoved(p, n - 1);
      hide MovedBy;
      MovableExactly(p, n - 1);
    }
  }

  lemma OneMoreMoved(p: Pass, k: nat)
    ensures |MovedBy(p, k + 1)| == |MovedBy(p, k)| + if ToMove(p, k) then 1 else 0
  {
    assert MovedBy(p, k + 1) == MovedBy(p, k) + if ToMove(p, k) then {k} else {};
  }

  lemma TooManyExactly(p: Pass)
    ensures TooMany(p) <==> |MovableIndices(p, |p.items|)| > U32_MAX
  {
    MovableExactly(p, |p.items|);
  }

  /**
   * The session position of an item is how many are to be moved before it, up to
   * where a misplaced snapshot stops the move.
   */
  lemma {:induction false} PositionExactly(p: Pass, k: nat)
    requires k <= |p.items| && forall j: nat :: j < k ==> !SnapshotInPass(p, Quarantine, j)
    ensures p.Position(k) == |MovedBy(p, k)|
  {
    if k == 0 {
      assert MovedBy(p, k) == {};
    } else {
      PositionExactly(p, k - 1);
      OneMoreMoved(p, k - 1);
      hide MovedBy;
      assert !SnapshotInPass(p, Quarantine, k - 1);
      assert p.Acts(k - 1, Quarantine) <==> ToMove(p, k - 1);
    }
  }

  /** The entries of the session can be planned exactly when there are not too many items to move. */
  lemma EntriesExactly(p: Pass, calendar: Calendar)
    requires p.Ready() && IsSessionId(p.plan.sessionId, calendar)
    ensures PlannedEntries(p.plan, MovableIndices(p, |p.items|), calendar).Ok? <==> !TooMany(p)
  {
    var all := MovableIndices(p, |p.items|);
    PlannedEntriesAreNumbered(p.plan, all, calendar);
    TooManyExactly(p);
    MovableInRange(p, |p.items|);
    hide IsSessionId, PlannedEntries, EntryIdText, MovableIndices, TooMany;
    assert forall i :: 0 <= i < |all| ==> all[i] in all;
  }

  /**
   * The entry at an item's position is its own: it names that path, and its
   * number is the one the item is stored under.
   */
  lemma EntriesAreTheItems(p: Pass, k: nat, calendar: Calendar)
    requires p.Ready() && IsSessionId(p.plan.sessionId, calendar) && !TooMany(p)
    requires p.Acts(k, Quarantine) && forall j: nat :: j < k ==> !SnapshotInPass(p, Quarantine, j)
    ensures PlannedEntries(p.plan, MovableIndices(p, |p.items|), calendar).Ok?
    ensures var entries := PlannedEntries(p.plan, MovableIndices(p, |p.items|), calendar).value;
            && p.Position(k) < |entries| && entries[p.Position(k)].original == p.items[k].target.path
            && entries[p.Position(k)].id == EntryIdText(p.plan.sessionId, p.DestinationOf(k).sequence)
  {
    hide IsSessionId, PlannedEntries, EntryIdText, MovableIndices, MovedBy, TooMany, SnapshotInPass;
    EntriesExactly(p, calendar);
    PlannedEntriesAreNumbered(p.plan, MovableIndices(p, |p.items|), calendar);
    MovableExactly(p, |p.items|);
    PositionExactly(p, k);
    assert ToMove(p, k);
  }

  lemma {:induction false} MovableInRange(p: Pass, n: nat)
    ensures forall i :: i in MovableIndices(p, n) ==> i < |p.plan.items|
  {
    if n > 0 {
      MovableInRange(p, n - 1);
    }
  }

  /** How many of the first `n` items arrived in the store. */
  ghost function Arrived(p: Pass, n: nat): nat {
    if n == 0 then 0
    else Arrived(p, n - 1) + if p.Acts(n - 1, Quarantine) && p.AttemptAt(n - 1).Moved? then 1 else 0
  }

  lemma {:induction false} ArrivedExactly(p: Pass, n: nat)
    ensures Arrived(p, n) > 0 <==> exists k :: 0 <= k < n && p.Acts(k, Quarantine) && p.AttemptAt(k).Moved?
  {
    hide AttemptOne;
    if n > 0 {
      ArrivedExactly(p, n - 1);
    }
  }

  /** What the move loop has established when it reaches item `n`. */
  ghost predicate MoveSoFar(
    p: Pass, n: nat, before: CleanPlan, plan: CleanPlan, moved: u64, arrived: nat, calls: seq<Call>,
    warnings: seq<Warning>)
  {
    && n <= |p.items|
    && OnlyTouched(p, n, Quarantine, before, plan) && MovesRecorded(p, n, plan)
    && moved == p.MovedBefore(n)
    && arrived == Arrived(p, n)
    && calls == MoveTrace(p, n) && warnings == MoveWarnings(p, n)
  }

  lemma MoveSkips(
    p: Pass, n: nat, before: CleanPlan, plan: CleanPlan, moved: u64, arrived: nat, calls: seq<Call>,
    warnings: seq<Warning>)
    requires MoveSoFar(p, n, before, plan, moved, arrived, calls, warnings) && n < |p.items|
    requires !p.Acts(n, Quarantine)
    ensures MoveSoFar(p, n + 1, before, plan, moved, arrived, calls, warnings)
  {
    hide AttemptOne, MoveCalls, WarningsOf, Valid, Sum, ItemFollows, OnlyTouched;
    SkipOne(p, n, Quarantine, before, plan);
    MoveTotals(p, n);
  }

  lemma RecordedMove(p: Pass, n: nat, plan: CleanPlan, next: CleanPlan)
    requires MovesRecorded(p, n, plan) && |next.items| == |plan.items| && n < |p.indices|
    requires forall k :: 0 <= k < n && p.Acts(k, Quarantine) ==> next.items[p.indices[k]] == plan.items[p.indices[k]]
    requires p.Acts(n, Quarantine) && p.indices[n] < |next.items|
    requires next.items[p.indices[n]].status == OutcomeOf(p.AttemptAt(n)).0
    requires next.items[p.indices[n]].error == OutcomeOf(p.AttemptAt(n)).1
    ensures MovesRecorded(p, n + 1, next)
  {
    hide AttemptOne, Pass.AttemptAt, Pass.MovedBefore;
  }

  lemma MoveActs(
    p: Pass, n: nat, before: CleanPlan, plan: CleanPlan, moved: u64, arrived: nat, calls: seq<Call>,
    warnings: seq<Warning>)
    requires MoveSoFar(p, n, before, plan, moved, arrived, calls, warnings) && n < |p.items|
    requires Untouched(p, Quarantine, before) && p.Acts(n, Quarantine)
    ensures var a := AttemptOne(p.items[n].target, p.DestinationOf(n), p.answers(n), moved);
            var r := WithItemStatus(plan, p.indices[n], OutcomeOf(a).0, OutcomeOf(a).1);
            && r.Ok?
            && MoveSoFar(p, n + 1, before, r.value, SatAdd(moved, MovedOf(a)), arrived + if a.Moved? then 1 else 0,
                         calls + MoveCalls(p.items[n].target, p.DestinationOf(n), p.answers(n), moved),
                         warnings + WarningsOf(a))
  {
    hide MoveCalls, AttemptOne, WithItemStatus, WarningsOf, Valid, Sum, Precheck, ExceedsCap, Cap, PurgeOne,
      MovesRecorded, ItemFollows;
    var d, a := p.DestinationOf(n), p.AttemptAt(n);
    RecordOne(p, n, Quarantine, before, plan, OutcomeOf(a).0, OutcomeOf(a).1);
    RecordedMove(p, n, plan, WithItemStatus(plan, p.indices[n], OutcomeOf(a).0, OutcomeOf(a).1).value);
    MoveTotals(p, n);
  }

  /** The current plan still pairs item `n` with the action the token's plan gives it. */
  lemma SameAction(p: Pass, n: nat, action: Action, before: CleanPlan, plan: CleanPlan)
    requires Untouched(p, action, before) && OnlyTouched(p, n, action, before, plan) && n < |p.items|
    ensures n < |p.indices| && p.indices[n] < |plan.items| && p.indices[n] < |p.plan.items|
    ensures plan.items[p.indices[n]].action == p.plan.items[p.indices[n]].action
  {
    assert ItemFollows(p.plan.items[p.indices[n]], before.items[p.indices[n]]);
    assert ItemFollows(before.items[p.indices[n]], plan.items[p.indices[n]]);
  }

  lemma MoveStarts(p: Pass, before: CleanPlan)
    requires Untouched(p, Quarantine, before) && p.start == 0
    ensures MoveSoFar(p, 0, before, before, 0, 0, [], [])
  {
    assert forall i :: 0 <= i < |before.items| ==> ItemFollows(before.items[i], before.items[i]);
  }

  /** Where the plan says its items went: the session's directory, if anything arrived there. */
  ghost function StorePath(p: Pass): Option<Path> {
    if Arrived(p, |p.items|) > 0 then Some(p.at.dir) else None
  }

  lemma UntouchedIsValid(p: Pass, action: Action, plan: CleanPlan)
    requires Untouched(p, action, plan)
    ensures Valid(plan)
  {
  }

  lemma NamedIsUntouched(p: Pass, before: CleanPlan, named: CleanPlan)
    requires Untouched(p, Quarantine, before) && Valid(named) && named == before.(sessionId := named.sessionId)
    ensures Untouched(p, Quarantine, named)
  {
  }

  /** The move's result: what the loop recorded, applied, under the claimed name, with the bytes moved. */
  ghost predicate MoveDone(p: Pass, before: CleanPlan, done: CleanPlan) {
    && Valid(done)
    && OnlyTouched(p, |p.items|, Quarantine, before.(sessionId := p.at.claimed),
                   done.(quarantinePath := before.quarantinePath, quarantined := before.quarantined))
    && MovesRecorded(p, |p.items|, done)
    && done.quarantined == p.MovedBefore(|p.items|)
    && done.quarantinePath == StorePath(p)
  }

  /** `finish`: the plan in apply mode under the session directory, if anything arrived there. */
  function Finish(p: Pass, plan: CleanPlan, moved: u64, arrived: nat): Result<CleanPlan, BrozaError> {
    var applied :- IntoApplied(plan, if arrived > 0 then Some(p.at.dir) else None);
    WithBytes(applied, moved, applied.reclaimed)
  }

  lemma FinishKeeps(
    p: Pass, before: CleanPlan, plan: CleanPlan, moved: u64, arrived: nat, calls: seq<Call>, warnings: seq<Warning>)
    requires MoveSoFar(p, |p.items|, before.(sessionId := p.at.claimed), plan, moved, arrived, calls, warnings)
    ensures Finish(p, plan, moved, arrived).Ok?
    ensures MoveDone(p, before, Finish(p, plan, moved, arrived).value)
  {
    hide AttemptOne;
    var done := Finish(p, plan, moved, arrived).value;
    assert done.(quarantinePath := before.quarantinePath, quarantined := before.quarantined) == plan;
  }

  /**
   * The whole move, from claiming a session to its last manifest, `finished`. The
   * plan goes on under the name that was claimed. A single item's failure is
   * recorded and the loop goes on; the run stops only when the manifest cannot be
   * written.
   */
  method QuarantineItems(
    p: Pass, before: CleanPlan, root: Option<Path>, opening: Opening, calendar: Calendar,
    finished: Option<BrozaError>)
    returns (r: Result<CleanPlan, BrozaError>, calls: seq<Call>, warnings: seq<Warning>)
    requires Untouched(p, Quarantine, before) && p.start == 0 && IsSessionId(before.sessionId, calendar)
    requires var start := Start(root, before.sessionId, opening); start.Ok? ==> p.at == start.value
    ensures r.Err? <==>
            || Start(root, before.sessionId, opening).Err? || TooMany(p) || finished.Some?
            || exists k :: MoveStops(p, k)
    ensures r.Ok? ==>
              && MoveDone(p, before, r.value)
              && calls == MoveTrace(p, |p.items|) && warnings == MoveWarnings(p, |p.items|)
    ensures calls <= MoveTrace(p, |p.items|)
    ensures Start(root, before.sessionId, opening).Err? || TooMany(p) ==> calls == []
  {
    hide AttemptOne, MoveCalls, WithItemStatus, Precheck, Finish, MoveDone, OnlyTouched, MovesRecorded, Untouched,
      WarningsOf, Start, IsSessionId, MovableIndices, TooMany;
    calls, warnings := [], [];
    assert Valid(before) by { UntouchedIsValid(p, Quarantine, before); }
    var at, named := Begin(root, before, opening, calendar);
    if at.Err? {
      return Err(at.error), calls, warnings;
    }
    NamedIsUntouched(p, before, named);
    MoveStarts(p, named);
    var plan, moved, arrived := named, 0, 0;
    TooManyExactly(p);
    if |MovableIndices(p, |p.items|)| > U32_MAX {
      return Err(Other), calls, warnings;
    }
    for n := 0 to |p.items|
      invariant MoveSoFar(p, n, named, plan, moved, arrived, calls, warnings)
      invariant forall k :: 0 <= k < n ==> !MoveStops(p, k)
    {
      SameAction(p, n, Quarantine, named, plan);
      var index, item := p.indices[n], p.items[n];
      if plan.items[index].action != Quarantine {
        MoveSkips(p, n, named, plan, moved, arrived, calls, warnings);
        continue;
      }
      if item.Writable().None? {
        assert MoveStops(p, n);
        MoveTraceGrows(p, n, |p.items|);
        return Err(Other), calls, warnings;
      }
      MoveActs(p, n, named, plan, moved, arrived, calls, warnings);
      CheckedExactly(item.target, p.DestinationOf(n), p.answers(n), moved);
      var a, d := p.answers(n), p.DestinationOf(n);
      var attempt := AttemptOne(item.target, d, a, moved);
      calls := calls + MoveCalls(item.target, d, a, moved);
      if (Precheck(item.target, d, moved, a.stat, a.measured).Ok? && a.announced.Some?) || a.recorded.Some? {
        assert MoveStops(p, n);
        MoveTraceGrows(p, n + 1, |p.items|);
        return Err(Other), calls, warnings;
      }
      moved := SatAdd(moved, MovedOf(attempt));
      arrived := arrived + if attempt.Moved? then 1 else 0;
      plan := WithItemStatus(plan, index, OutcomeOf(attempt).0, OutcomeOf(attempt).1).value;
      warnings := warnings + WarningsOf(attempt);
    }
    if finished.Some? {
      return Err(finished.value), calls, warnings;
    }
    FinishKeeps(p, before, plan, moved, arrived, calls, warnings);
    r := Finish(p, plan, moved, arrived);
  }

  // ------------------------------------------------------ deleting snapshots

  function DeletionOf(a: Answers): (ItemStatus, Option<ItemErrorCode>) {
    match a.deleted
    case None => (Purged, None)
    case Some(e) => (Failed, Some(IoCode(e)))
  }

  ghost predicate DeletionsRecorded(p: Pass, n: nat, plan: CleanPlan) {
    forall k :: 0 <= k < n && p.Acts(k, TmutilDelete) ==>
      && p.indices[k] < |plan.items|
      && plan.items[p.indices[k]].status == DeletionOf(p.answers(k)).0
      && plan.items[p.indices[k]].error == DeletionOf(p.answers(k)).1
  }

  /** What the deletion loop has established when it reaches item `n`. */
  ghost predicate DeleteSoFar(
    p: Pass, n: nat, before: CleanPlan, plan: CleanPlan, calls: seq<Call>, warnings: seq<Warning>)
  {
    && OnlyTouched(p, n, TmutilDelete, before, plan) && DeletionsRecorded(p, n, plan)
    && calls == DeleteTrace(p, n) && warnings == DeleteWarnings(p, n)
  }

  lemma DeletionStarts(p: Pass, before: CleanPlan)
    requires Untouched(p, TmutilDelete, before)
    ensures DeleteSoFar(p, 0, before, before, [], [])
  {
    FollowsSelf(before);
  }

  lemma DeletionSkips(p: Pass, n: nat, before: CleanPlan, plan: CleanPlan, calls: seq<Call>, warnings: seq<Warning>)
    requires DeleteSoFar(p, n, before, plan, calls, warnings) && !p.Acts(n, TmutilDelete)
    ensures DeleteSoFar(p, n + 1, before, plan, calls, warnings)
  {
    SkipOne(p, n, TmutilDelete, before, plan);
  }

  lemma DeletionActs(p: Pass, n: nat, before: CleanPlan, plan: CleanPlan, calls: seq<Call>, warnings: seq<Warning>)
    requires Untouched(p, TmutilDelete, before) && n < |p.items| && p.Acts(n, TmutilDelete)
    requires DeleteSoFar(p, n, before, plan, calls, warnings)
    ensures var outcome := DeletionOf(p.answers(n));
            var r := WithItemStatus(plan, p.indices[n], outcome.0, outcome.1);
            && r.Ok?
            && DeleteSoFar(p, n + 1, before, r.value, calls + [DeleteSnapshot(p.items[n])],
                           warnings + RefusalOf(p.items[n], p.answers(n)))
  {
    hide WithItemStatus, IoCode, Valid, ItemFollows, Untouched, RefusalOf, Sum;
    var outcome := DeletionOf(p.answers(n));
    assert n < |p.indices| && p.indices[n] < |plan.items| by {
      SameAction(p, n, TmutilDelete, before, plan);
    }
    RecordOne(p, n, TmutilDelete, before, plan, outcome.0, outcome.1);
    RecordedDeletion(p, n, plan, WithItemStatus(plan, p.indices[n], outcome.0, outcome.1).value);
  }

  lemma RecordedDeletion(p: Pass, n: nat, plan: CleanPlan, next: CleanPlan)
    requires DeletionsRecorded(p, n, plan) && |next.items| == |plan.items| && n < |p.indices|
    requires forall k :: 0 <= k < n && p.Acts(k, TmutilDelete) ==> next.items[p.indices[k]] == plan.items[p.indices[k]]
    requires p.Acts(n, TmutilDelete) && p.indices[n] < |next.items|
    requires next.items[p.indices[n]].status == DeletionOf(p.answers(n)).0
    requires next.items[p.indices[n]].error == DeletionOf(p.answers(n)).1
    ensures DeletionsRecorded(p, n + 1, next)
  {
    hide DeletionOf;
  }

  /** `delete_snapshots`: each outcome is recorded, it never fails, and a refusal for lack of privilege earns a warning. */
  method DeleteSnapshots(p: Pass, before: CleanPlan)
    returns (plan: CleanPlan, calls: seq<Call>, warnings: seq<Warning>)
    requires Untouched(p, TmutilDelete, before)
    ensures OnlyTouched(p, |p.items|, TmutilDelete, before, plan)
    ensures DeletionsRecorded(p, |p.items|, plan)
    ensures calls == DeleteTrace(p, |p.items|) && warnings == DeleteWarnings(p, |p.items|)
  {
    plan, calls, warnings := before, [], [];
    DeletionStarts(p, before);
    hide WithItemStatus, IoCode, Untouched, Valid, DeletionOf, RefusalOf, DeleteTrace, DeleteWarnings, DeletionsRecorded,
      OnlyTouched, DeleteSoFar, Pass.Acts;
    for n := 0 to |p.items|
      invariant DeleteSoFar(p, n, before, plan, calls, warnings)
    {
      DeletesExactly(p, n, before, plan, calls, warnings);
      if plan.items[p.indices[n]].action != TmutilDelete {
        DeletionSkips(p, n, before, plan, calls, warnings);
        continue;
      }
      DeletionActs(p, n, before, plan, calls, warnings);
      var outcome := DeletionOf(p.answers(n));
      calls := calls + [DeleteSnapshot(p.items[n])];
      warnings := warnings + RefusalOf(p.items[n], p.answers(n));
      plan := WithItemStatus(plan, p.indices[n], outcome.0, outcome.1).value;
    }
    DeletionEnds(p, before, plan, calls, warnings);
  }

  lemma DeletesExactly(p: Pass, n: nat, before: CleanPlan, plan: CleanPlan, calls: seq<Call>, warnings: seq<Warning>)
    requires Untouched(p, TmutilDelete, before) && DeleteSoFar(p, n, before, plan, calls, warnings) && n < |p.items|
    ensures n < |p.indices| && p.indices[n] < |plan.items|
    ensures p.Acts(n, TmutilDelete) <==> plan.items[p.indices[n]].action == TmutilDelete
  {
    SameAction(p, n, TmutilDelete, before, plan);
  }

  lemma DeletionEnds(p: Pass, before: CleanPlan, plan: CleanPlan, calls: seq<Call>, warnings: seq<Warning>)
    requires DeleteSoFar(p, |p.items|, before, plan, calls, warnings)
    ensures OnlyTouched(p, |p.items|, TmutilDelete, before, plan) && DeletionsRecorded(p, |p.items|, plan)
    ensures calls == DeleteTrace(p, |p.items|) && warnings == DeleteWarnings(p, |p.items|)
  {
  }

  // ------------------------------------------------------------------ the run

  /** Everything one run reads: the token, the answers, the cap and the session it started. */
  datatype Run = Run(token: Token, indices: seq<nat>, answers: nat -> Answers, maxSize: Option<u64>, at: Started)
  {
    function Moving(): Pass {
      Pass(token.plan, indices, token.items, answers, maxSize, 0, at)
    }

    /** One cap for the whole run: the purge pass starts at what the mover quarantined. */
    function Purging(): Pass {
      Pass(token.plan, indices, token.items, answers, maxSize, Cap(Sum(MovedBytes())), at)
    }

    function MovedBytes(): seq<u64> {
      Moving().MovedSizes(|token.items|)
    }

    function PurgedBytes(): seq<u64>
    {
      Purging().PurgedSizes(|token.items|)
    }
  }

  /** Some approved item is to be moved. */
  ghost predicate AnyToMove(r: Run) {
    exists k: nat :: k < |r.token.items| && ToMove(r.Moving(), k)
  }

  lemma NoneToMove(r: Run)
    ensures MovableIndices(r.Moving(), |r.token.items|) == [] <==> !AnyToMove(r)
    ensures !AnyToMove(r) ==> forall k :: 0 <= k < |r.token.items| ==> !r.Moving().Acts(k, Quarantine)
  {
    var m, n := r.Moving(), |r.token.items|;
    MovableExactly(m, n);
    if k: nat :| k < n && ToMove(m, k) {
      assert k in MovedBy(m, n);
    } else {
      assert MovedBy(m, n) == {};
    }
    forall k | 0 <= k < n && m.Acts(k, Quarantine) ensures ToMove(m, k) {
    }
  }

  /** The name a completed run goes by: the claimed one, if there was anything to move. */
  ghost function SessionName(r: Run): string {
    if AnyToMove(r) then r.at.claimed else r.token.plan.sessionId
  }

  /** What a completed run leaves, for any answers. */
  ghost predicate Executed(r: Run, done: CleanPlan) {
    && Valid(done) && !done.dryRun && Follows(r.token.plan, done)
    && done.sessionId == SessionName(r) && done.quarantinePath == StorePath(r.Moving())
    && MovesRecorded(r.Moving(), |r.token.items|, done)
    && PurgesRecorded(r.Purging(), |r.token.items|, done)
    && DeletionsRecorded(r.Moving(), |r.token.items|, done)
    && done.quarantined == Cap(Sum(r.MovedBytes()))
    && done.reclaimed == Cap(Sum(r.PurgedBytes()))
    && (forall i :: 0 <= i < |done.items| && i !in r.indices ==> done.items[i] == r.token.plan.items[i])
  }

  /**
   * The cap holds for quarantined and reclaimed bytes together: in the reported
   * counters always, in exact bytes for every cap below `u64::MAX`.
   */
  lemma RunStaysUnderCap(r: Run, done: CleanPlan, cap: u64)
    requires Executed(r, done) && r.maxSize == Some(cap)
    ensures SatAdd(done.quarantined, done.reclaimed) <= cap
    ensures cap < U64_MAX ==> Sum(r.MovedBytes()) + Sum(r.PurgedBytes()) <= cap
  {
    CapIsKept(r.Moving(), |r.token.items|, cap);
    RunningIsCappedSum(r.Moving(), |r.token.items|);
    CapIsKept(r.Purging(), |r.token.items|, cap);
    RunningIsCappedSum(r.Purging(), |r.token.items|);
  }

  /** An item one action touches is not touched by another. */
  lemma ActionsDisjoint(p: Pass, n: nat, a: Action, b: Action, k: nat)
    requires p.Ready() && a != b && k < |p.items| && p.Acts(k, b)
    ensures !Touched(p, n, a, p.indices[k])
  {
  }

  /** After the pass for `a`, the pass for `b` still finds its items as the token paired them. */
  lemma NextPassReady(p: Pass, q: Pass, a: Action, b: Action, before: CleanPlan, after: CleanPlan)
    requires q.plan == p.plan && q.items == p.items && q.indices == p.indices && a != b
    requires Untouched(p, b, before) && Follows(p.plan, after) && Valid(after) && !after.dryRun
    requires |after.items| == |before.items|
    requires forall i :: 0 <= i < |before.items| && !Touched(p, |p.items|, a, i) ==> after.items[i] == before.items[i]
    ensures Untouched(q, b, after)
  {
    forall k | 0 <= k < |q.items| && q.Acts(k, b) ensures after.items[q.indices[k]].status.Planned? {
      assert p.Acts(k, b);
      ActionsDisjoint(p, |p.items|, a, b, k);
    }
  }

  lemma FollowsSelf(plan: CleanPlan)
    ensures Follows(plan, plan)
  {
    assert forall i :: 0 <= i < |plan.items| ==> ItemFollows(plan.items[i], plan.items[i]);
  }

  lemma NothingRecorded(p: Pass, n: nat, plan: CleanPlan)
    requires forall k :: 0 <= k < n ==> !p.Acts(k, Quarantine)
    ensures MovesRecorded(p, n, plan) && forall i :: !Touched(p, n, Quarantine, i)
  {
  }

  lemma {:induction false} NothingMoves(p: Pass, n: nat)
    requires forall k :: 0 <= k < n ==> !p.Acts(k, Quarantine)
    ensures Sum(p.MovedSizes(n)) == 0 && p.MovedBefore(n) == p.start
  {
    if n > 0 {
      NothingMoves(p, n - 1);
      MoveTotals(p, n - 1);
    }
  }

  /** Before the purge: what the move recorded, and nothing else changed. */
  ghost predicate AfterMove(r: Run, p1: CleanPlan) {
    var m := r.Moving();
    && Valid(p1) && !p1.dryRun && Follows(r.token.plan, p1)
    && p1.sessionId == SessionName(r) && p1.quarantinePath == StorePath(m)
    && p1.quarantined == Cap(Sum(r.MovedBytes())) && p1.reclaimed == 0
    && MovesRecorded(m, |r.token.items|, p1)
    && forall i :: 0 <= i < |p1.items| && !Touched(m, |r.token.items|, Quarantine, i)
         ==> p1.items[i] == r.token.plan.items[i]
  }

  /** What the guard hands over: an applied plan with both counters at zero, paired with the token's items. */
  ghost predicate Approved(r: Run) {
    && Valid(r.token.plan) && !r.token.plan.dryRun
    && r.token.plan.quarantined == 0 && r.token.plan.reclaimed == 0
    && r.Moving().Ready()
  }

  lemma ApprovedIsUntouched(r: Run, action: Action)
    requires Approved(r)
    ensures Untouched(r.Moving(), action, r.token.plan)
  {
    FollowsSelf(r.token.plan);
  }

  lemma MoveDoneIsAfterMove(r: Run, p1: CleanPlan)
    requires Approved(r) && AnyToMove(r) && MoveDone(r.Moving(), r.token.plan, p1)
    ensures AfterMove(r, p1)
  {
    hide AttemptOne, Sum, ItemFollows;
    RunningIsCappedSum(r.Moving(), |r.token.items|);
  }

  lemma NoMoveIsAfterMove(r: Run)
    requires Approved(r) && !AnyToMove(r)
    ensures IntoApplied(r.token.plan, None).Ok? && AfterMove(r, IntoApplied(r.token.plan, None).value)
  {
    NoneToMove(r);
    hide AttemptOne, Sum, ItemFollows, MovableIndices, AnyToMove;
    FollowsSelf(r.token.plan);
    NothingMoves(r.Moving(), |r.token.items|);
    ArrivedExactly(r.Moving(), |r.token.items|);
    NothingRecorded(r.Moving(), |r.token.items|, r.token.plan);
  }

  lemma AfterMoveIsUntouched(r: Run, p1: CleanPlan)
    requires Approved(r) && AfterMove(r, p1)
    ensures Untouched(r.Purging(), Purge, p1) && Untouched(r.Moving(), TmutilDelete, p1)
    ensures r.Purging().start == p1.quarantined
  {
    hide AttemptOne, Sum, ItemFollows;
    ApprovedIsUntouched(r, Purge);
    ApprovedIsUntouched(r, TmutilDelete);
    NextPassReady(r.Moving(), r.Purging(), Quarantine, Purge, r.token.plan, p1);
    NextPassReady(r.Moving(), r.Moving(), Quarantine, TmutilDelete, r.token.plan, p1);
  }

  lemma PurgeDoneIsUntouched(r: Run, p1: CleanPlan, p2: CleanPlan)
    requires Approved(r) && AfterMove(r, p1) && PurgeDone(r.Purging(), p1, p2)
    ensures Untouched(r.Moving(), TmutilDelete, p2)
  {
    hide AttemptOne, PurgeOne, Sum, ItemFollows;
    ApprovedIsUntouched(r, TmutilDelete);
    AfterMoveIsUntouched(r, p1);
    FollowsTrans(r.token.plan, p1, p2);
    NextPassReady(r.Moving(), r.Moving(), Quarantine, TmutilDelete, r.token.plan, p1);
    forall k | 0 <= k < |r.token.items| && r.Moving().Acts(k, TmutilDelete)
      ensures p2.items[r.indices[k]].status.Planned?
    {
      assert r.Purging().Acts(k, TmutilDelete);
      ActionsDisjoint(r.Purging(), |r.token.items|, Purge, TmutilDelete, k);
    }
  }

  /** Putting the three passes together: each keeps what the ones before it recorded. */
  lemma PassesCompose(r: Run, p1: CleanPlan, p2: CleanPlan, p3: CleanPlan)
    requires Approved(r) && AfterMove(r, p1) && PurgeDone(r.Purging(), p1, p2)
    requires OnlyTouched(r.Moving(), |r.token.items|, TmutilDelete, p2, p3)
    requires DeletionsRecorded(r.Moving(), |r.token.items|, p3)
    ensures Executed(r, p3)
  {
    hide AttemptOne, PurgeOne, Sum, Valid, ItemFollows, IoCode;
    var n, m, p := |r.token.items|, r.Moving(), r.Purging();
    FollowsTrans(r.token.plan, p1, p2);
    FollowsTrans(r.token.plan, p2, p3);
    forall k | 0 <= k < n && m.Acts(k, Quarantine) ensures p3.items[m.indices[k]] == p1.items[m.indices[k]] {
      assert p.Acts(k, Quarantine);
      ActionsDisjoint(p, n, Purge, Quarantine, k);
      ActionsDisjoint(m, n, TmutilDelete, Quarantine, k);
    }
    forall k | 0 <= k < n && p.Acts(k, Purge) ensures p3.items[p.indices[k]] == p2.items[p.indices[k]] {
      assert m.Acts(k, Purge);
      ActionsDisjoint(m, n, TmutilDelete, Purge, k);
    }
    assert forall i :: 0 <= i < |p3.items| && i !in r.indices ==>
        !Touched(m, n, Quarantine, i) && !Touched(p, n, Purge, i) && !Touched(m, n, TmutilDelete, i);
  }

  /** The run an approved token, the answers and the limits determine. */
  function RunOf(token: Token, answers: nat -> Answers, maxSize: Option<u64>, opening: Opening): Run {
    var indices := PlanIndices(token.plan.items, token.items, 0);
    var start := Start(token.root, token.plan.sessionId, opening);
    Run(token, if indices.Ok? then indices.value else [], answers, maxSize,
        if start.Ok? then start.value else Started(token.plan.sessionId, [], 0))
  }

  /** Every call of a completed run, in order. */
  function RunCalls(r: Run): (calls: seq<Call>) {
    var n := |r.token.items|;
    MoveTrace(r.Moving(), n) + PurgeTrace(r.Purging(), n) + DeleteTrace(r.Moving(), n)
  }

  function RunWarnings(r: Run): (warnings: seq<Warning>) {
    MoveWarnings(r.Moving(), |r.token.items|) + DeleteWarnings(r.Moving(), |r.token.items|)
  }

  lemma RunCallsRechecked(r: Run)
    ensures AllRechecked(RunCalls(r), r.token.items)
  {
    var n := |r.token.items|;
    TracesRechecked(r.Moving(), n);
    TracesRechecked(r.Purging(), n);
    assert AllRechecked(DeleteTrace(r.Moving(), n), r.token.items) by {
      forall c | c in DeleteTrace(r.Moving(), n) ensures !c.Rename? && !c.Remove? {
        if c.Rename? || c.Remove? {
          DeleteTraceChangesNothing(r.Moving(), n, c);
        }
      }
    }
    hide AllRechecked;
    RecheckedConcat(MoveTrace(r.Moving(), n), PurgeTrace(r.Purging(), n), r.token.items);
    RecheckedConcat(MoveTrace(r.Moving(), n) + PurgeTrace(r.Purging(), n), DeleteTrace(r.Moving(), n), r.token.items);
  }

  lemma {:induction false} NothingToMove(p: Pass, n: nat)
    requires forall k: nat :: k < n ==> !p.Acts(k, Quarantine)
    ensures MoveTrace(p, n) == [] && MoveWarnings(p, n) == []
  {
    if n > 0 {
      NothingToMove(p, n - 1);
    }
  }

  /** What ends a run: a plan that does not match its token, a move that cannot go on, or a misplaced snapshot. */
  ghost predicate Stops(r: Run, opening: Opening, finished: Option<BrozaError>) {
    || PlanIndices(r.token.plan.items, r.token.items, 0).Err?
    || (AnyToMove(r)
        && (Start(r.token.root, r.token.plan.sessionId, opening).Err? || TooMany(r.Moving()) || finished.Some?
            || exists k :: MoveStops(r.Moving(), k)))
    || (exists k :: SnapshotInPass(r.Purging(), Purge, k))
  }

  /**
   * `execute`: move, then purge, then delete snapshots. The guard hands over an
   * applied plan with both counters at zero. Any result is a valid plan for the
   * same work with every outcome recorded; no single item's failure is fatal. The
   * calls are those of each item's turn, up to where a run that fails stops.
   */
  method Execute(
    token: Token, answers: nat -> Answers, maxSize: Option<u64>, opening: Opening, calendar: Calendar,
    finished: Option<BrozaError>)
    returns (res: Result<CleanPlan, BrozaError>, calls: seq<Call>, warnings: seq<Warning>)
    requires Valid(token.plan) && !token.plan.dryRun && token.plan.quarantined == 0 && token.plan.reclaimed == 0
    requires IsSessionId(token.plan.sessionId, calendar)
    ensures var r := RunOf(token, answers, maxSize, opening);
            && (res.Ok? ==> Executed(r, res.value) && calls == RunCalls(r) && warnings == RunWarnings(r))
            && (res.Err? <==> Stops(r, opening, finished))
            && calls <= RunCalls(r) && AllRechecked(calls, token.items)
  {
    hide Untouched, MoveDone, PurgeDone, OnlyTouched, AfterMove, Executed, DeletionsRecorded, Valid, IntoApplied,
      AllRechecked, MoveTrace, PurgeTrace, DeleteTrace, MoveStops, TooMany, SnapshotInPass, IsSessionId, Start,
      MovableIndices, AnyToMove, MoveWarnings, DeleteWarnings;
    calls, warnings := [], [];
    var r := RunOf(token, answers, maxSize, opening);
    RunCallsRechecked(r);
    NothingRechecked(token.items);
    var indices := PlanIndices(token.plan.items, token.items, 0);
    if indices.Err? {
      return Err(indices.error), calls, warnings;
    }
    assert Approved(r);
    var plan: CleanPlan;
    NoneToMove(r);
    if MovableIndices(r.Moving(), |token.items|) == [] {
      NoMoveIsAfterMove(r);
      NothingToMove(r.Moving(), |token.items|);
      plan := IntoApplied(token.plan, None).value;
    } else {
      ApprovedIsUntouched(r, Quarantine);
      var moved;
      moved, calls, warnings := QuarantineItems(r.Moving(), token.plan, token.root, opening, calendar, finished);
      if moved.Err? {
        RecheckedPrefix(calls, RunCalls(r), token.items);
        return moved, calls, warnings;
      }
      plan := moved.value;
      MoveDoneIsAfterMove(r, plan);
    }
    AfterMoveIsUntouched(r, plan);
    var purged, purgeCalls := PurgeItems(r.Purging(), plan);
    calls := calls + purgeCalls;
    if purged.Err? {
      RecheckedPrefix(calls, RunCalls(r), token.items);
      return purged, calls, warnings;
    }
    PurgeDoneIsUntouched(r, plan, purged.value);
    var done, deleteCalls, refusals := DeleteSnapshots(r.Moving(), purged.value);
    calls, warnings := calls + deleteCalls, warnings + refusals;
    PassesCompose(r, plan, purged.value, done);
    res := Ok(done);
  }

  /**
   * How a completed run names itself, whatever happened to its items. With nothing
   * to move it keeps the plan's name. Otherwise it goes by a name of the same
   * instant that nobody had, the plan's own exactly when that was free; and it
   * says its items went to that session of the store exactly when one of them is
   * recorded as moved.
   */
  lemma SessionIsNamed(
    token: Token, answers: nat -> Answers, maxSize: Option<u64>, opening: Opening, calendar: Calendar, done: CleanPlan)
    requires IsSessionId(token.plan.sessionId, calendar)
    requires var r := RunOf(token, answers, maxSize, opening);
             Executed(r, done) && (AnyToMove(r) ==> Start(token.root, token.plan.sessionId, opening).Ok?)
    ensures var r := RunOf(token, answers, maxSize, opening);
            && IsSessionId(done.sessionId, calendar)
            && TimestampPart(done.sessionId) == TimestampPart(token.plan.sessionId)
            && (!AnyToMove(r) ==> done.sessionId == token.plan.sessionId)
            && (AnyToMove(r) ==>
                  && done.sessionId !in opening.taken
                  && (done.sessionId == token.plan.sessionId <==> token.plan.sessionId !in opening.taken))
            && (done.quarantinePath.Some? ==>
                  token.root.Some? && done.quarantinePath == Some(token.root.value + [done.sessionId]))
            && (done.quarantinePath.Some? <==> exists k :: RecordedAsMoved(r, done, k))
  {
    hide IsSessionId, TimestampPart, Start, Valid, Follows, Sum, Cap, PurgesRecorded, DeletionsRecorded, MovesRecorded,
      AttemptOne, AnyToMove, Arrived, RecordedAsMoved;
    var r := RunOf(token, answers, maxSize, opening);
    StartsExactly(token.root, token.plan.sessionId, opening, calendar);
    ArrivedIsRecorded(r, done);
  }

  lemma ArrivedIsRecorded(r: Run, done: CleanPlan)
    requires Executed(r, done)
    ensures Arrived(r.Moving(), |r.token.items|) > 0 <==> exists k :: RecordedAsMoved(r, done, k)
    ensures Arrived(r.Moving(), |r.token.items|) > 0 ==> AnyToMove(r)
  {
    hide Valid, Follows, Sum, Cap, PurgesRecorded, DeletionsRecorded, AttemptOne;
    var m, n := r.Moving(), |r.token.items|;
    ArrivedExactly(m, n);
    forall k: nat | k < n && m.Acts(k, Quarantine)
      ensures ToMove(m, k) && (RecordedAsMoved(r, done, k) <==> m.AttemptAt(k).Moved?)
    {
    }
  }

  /** The plan records item `k`, which was to be moved, as moved. */
  predicate RecordedAsMoved(r: Run, done: CleanPlan, k: nat) {
    && k < |r.token.items| && r.Moving().Acts(k, Quarantine) && r.indices[k] < |done.items|
    && done.items[r.indices[k]].status == Quarantined
  }

  /** The renames and removals of a completed run are exactly those of the items that get that far. */
  lemma RunChangesExactly(r: Run, c: Call)
    requires c.Rename? || c.Remove?
    ensures c in RunCalls(r) <==> AnyRenames(r.Moving(), |r.token.items|, c) || AnyRemoves(r.Purging(), |r.token.items|, c)
  {
    var n := |r.token.items|;
    MoveTraceExactly(r.Moving(), n, c);
    PurgeTraceExactly(r.Purging(), n, c);
    DeleteTraceChangesNothing(r.Moving(), n, c);
    hide AnyRenames, AnyRemoves, MoveTrace, PurgeTrace, DeleteTrace;
  }

  /**
   * A completed run's calls and its plan tell the same story: an item is recorded
   * as moved or purged exactly when its own rename or removal is among the calls
   * and went through. One refused before that has none. A snapshot is recorded as
   * its deletion came out.
   */
  lemma OutcomesMatchCalls(r: Run, done: CleanPlan, k: nat)
    requires Executed(r, done) && k < |r.token.items| && !MoveStops(r.Moving(), k)
    ensures var m := r.Moving();
            m.Acts(k, Quarantine) ==>
              var rename := Rename(m.items[k].target.path, m.DestinationOf(k).StoredPathOf(m.items[k].target.path));
              && (Renames(m, k, rename) ==> rename in RunCalls(r))
              && (done.items[r.indices[k]].status == Quarantined <==> Renames(m, k, rename) && r.answers(k).moved.Ok?)
    ensures var p := r.Purging();
            p.Acts(k, Purge) ==>
              var remove := Remove(p.items[k].target.path);
              && (Removes(p, k, remove) ==> remove in RunCalls(r))
              && (done.items[r.indices[k]].status == Purged <==> Removes(p, k, remove) && r.answers(k).removed.None?)
    ensures r.Moving().Acts(k, TmutilDelete) ==>
              && DeleteSnapshot(r.token.items[k]) in RunCalls(r)
              && (done.items[r.indices[k]].status, done.items[r.indices[k]].error)
                 == if r.answers(k).deleted.Some? then (Failed, Some(IoCode(r.answers(k).deleted.value)))
                    else (Purged, None)
  {
    var m, p := r.Moving(), r.Purging();
    if m.Acts(k, Quarantine) {
      RunChangesExactly(
        r, Rename(m.items[k].target.path, m.DestinationOf(k).StoredPathOf(m.items[k].target.path)));
      MovedByItsRename(m, k);
    }
    if p.Acts(k, Purge) {
      RunChangesExactly(r, Remove(p.items[k].target.path));
      PurgedExactlyWhenCounted(p.items[k].target, p.answers(k), p.RunningBefore(k), p.maxSize);
    }
    if m.Acts(k, TmutilDelete) {
      DeletionCalled(m, |r.token.items|, k);
      assert DeleteSnapshot(r.token.items[k]) in RunCalls(r);
    }
    hide AttemptOne, PurgeOne, Valid, Sum, Cap, Precheck, RunCalls, MayMove, MayPurge;
  }

  lemma MovedByItsRename(p: Pass, k: nat)
    requires p.Acts(k, Quarantine) && !MoveStops(p, k)
    ensures var rename := Rename(p.items[k].target.path, p.DestinationOf(k).StoredPathOf(p.items[k].target.path));
            OutcomeOf(p.AttemptAt(k)).0 == Quarantined <==> Renames(p, k, rename) && p.answers(k).moved.Ok?
  {
    MovedExactlyWhenAllowed(p.items[k].target, p.DestinationOf(k), p.answers(k), p.MovedBefore(k));
    hide AttemptOne, MayMove;
  }

  lemma {:induction false} DeletionCalled(p: Pass, n: nat, k: nat)
    requires k < n && p.Acts(k, TmutilDelete)
    ensures DeleteSnapshot(p.items[k]) in DeleteTrace(p, n)
  {
    if k < n - 1 {
      DeletionCalled(p, n - 1, k);
    }
  }

  /** What a run warns of: the renames that were not exclusive, and the deletions refused for lack of privilege. */
  lemma WarningsExactly(r: Run, w: Warning)
    ensures w in RunWarnings(r) <==>
            exists k: nat :: k < |r.token.items| && (MoveWarns(r.Moving(), k, w) || DeleteWarns(r.Moving(), k, w))
  {
    MoveWarningsExactly(r.Moving(), |r.token.items|, w);
    DeleteWarningsExactly(r.Moving(), |r.token.items|, w);
    hide MoveWarnings, DeleteWarnings, MoveWarns, DeleteWarns;
  }

  ghost predicate MoveWarns(p: Pass, k: nat, w: Warning) {
    && p.Acts(k, Quarantine)
    && MayMove(p.items[k].target, p.DestinationOf(k), p.answers(k), p.MovedBefore(k))
    && p.answers(k).made.None? && p.answers(k).moved == Ok(CheckedFallback)
    && w == NotExclusive(StoredPath(p.at.dir, p.Position(k) + 1, Basename(p.items[k].target.path)))
  }

  ghost predicate DeleteWarns(p: Pass, k: nat, w: Warning) {
    p.Acts(k, TmutilDelete) && p.answers(k).deleted == Some(PermissionDenied) && w == NeedsAdmin(p.items[k])
  }

  lemma {:induction false} MoveWarningsExactly(p: Pass, n: nat, w: Warning)
    ensures w in MoveWarnings(p, n) <==> exists k: nat :: k < n && MoveWarns(p, k, w)
  {
    if n > 0 {
      MoveWarningsExactly(p, n - 1, w);
      TurnWarns(p, n - 1, w);
      hide AttemptOne, MoveWarns, WarningsOf;
    }
  }

  lemma TurnWarns(p: Pass, k: nat, w: Warning)
    ensures MoveWarns(p, k, w) <==> p.Acts(k, Quarantine) && w in WarningsOf(p.AttemptAt(k))
  {
    if p.Acts(k, Quarantine) {
      MovedExactlyWhenAllowed(p.items[k].target, p.DestinationOf(k), p.answers(k), p.MovedBefore(k));
    }
    hide AttemptOne, MayMove;
  }

  lemma {:induction false} DeleteWarningsExactly(p: Pass, n: nat, w: Warning)
    ensures w in DeleteWarnings(p, n) <==> exists k: nat :: k < n && DeleteWarns(p, k, w)
  {
    if n > 0 {
      DeleteWarningsExactly(p, n - 1, w);
      var last := if p.Acts(n - 1, TmutilDelete) then RefusalOf(p.items[n - 1], p.answers(n - 1)) else [];
      assert w in last <==> DeleteWarns(p, n - 1, w);
      assert w in DeleteWarnings(p, n) <==> w in DeleteWarnings(p, n - 1) || w in last;
    }
  }

  /** What item `k` is worth to `reclaimed_bytes`, read off the finished plan and the answers alone. */
  ghost function Reclaimed(r: Run, done: CleanPlan, k: nat): u64
    requires k < |r.token.items|
  {
    if r.Purging().Acts(k, Purge) && r.indices[k] < |done.items| && done.items[r.indices[k]].status == Purged
       && r.answers(k).restat.Ok?
    then SureBytes(r.answers(k).restat.value, r.answers(k).freed)
    else 0
  }

  /** What item `k` is worth to `quarantined_bytes`, likewise. */
  ghost function MovedIn(r: Run, done: CleanPlan, k: nat): u64
    requires k < |r.token.items|
  {
    if r.Moving().Acts(k, Quarantine) && r.indices[k] < |done.items| && done.items[r.indices[k]].status == Quarantined
    then Weight(r.token.items[k].target, r.answers(k), r.maxSize, r.token.plan.items[r.indices[k]].size)
    else 0
  }

  ghost function ReclaimedBytes(r: Run, done: CleanPlan): (s: seq<u64>)
    ensures |s| == |r.token.items| && forall k :: 0 <= k < |s| ==> s[k] == Reclaimed(r, done, k)
  {
    seq(|r.token.items|, k requires 0 <= k < |r.token.items| => Reclaimed(r, done, k))
  }

  ghost function MovedInBytes(r: Run, done: CleanPlan): (s: seq<u64>)
    ensures |s| == |r.token.items| && forall k :: 0 <= k < |s| ==> s[k] == MovedIn(r, done, k)
  {
    seq(|r.token.items|, k requires 0 <= k < |r.token.items| => MovedIn(r, done, k))
  }

  /**
   * The counters are the saturated sums over exactly the items recorded with
   * that outcome: an item that was moved is never counted as reclaimed, one
   * that was skipped or failed counts nowhere. And under a cap what was moved and
   * what was freed stays within it, in exact bytes unless the cap is the largest.
   */
  lemma CountersMatchOutcomes(r: Run, done: CleanPlan)
    requires Executed(r, done)
    ensures done.reclaimed == Cap(Sum(ReclaimedBytes(r, done)))
    ensures done.quarantined == Cap(Sum(MovedInBytes(r, done)))
    ensures r.maxSize.Some? && r.maxSize.value < U64_MAX ==>
              Sum(MovedInBytes(r, done)) + Sum(ReclaimedBytes(r, done)) <= r.maxSize.value
  {
    hide Valid, Follows, Cap, Sum, AttemptOne, PurgeOne, Weight, SureBytes, MayMove, MayPurge;
    var n := |r.token.items|;
    forall k | 0 <= k < n ensures r.PurgedBytes()[k] == Reclaimed(r, done, k) {
      if r.Purging().Acts(k, Purge) {
        PurgedExactlyWhenCounted(r.token.items[k].target, r.answers(k), r.Purging().RunningBefore(k), r.maxSize);
        PurgedIsSeen(r.token.items[k].target, r.answers(k), r.Purging().RunningBefore(k), r.maxSize);
      }
    }
    assert r.PurgedBytes() == ReclaimedBytes(r, done);
    assert r.MovedBytes() == MovedInBytes(r, done) by {
      forall k | 0 <= k < n ensures r.MovedBytes()[k] == MovedIn(r, done, k) {
        if r.Moving().Acts(k, Quarantine) {
          assert r.indices[k] < |done.items|;
          var m := r.Moving();
          MovedExactlyWhenAllowed(r.token.items[k].target, m.DestinationOf(k), r.answers(k), m.MovedBefore(k));
        }
      }
    }
    if r.maxSize.Some? {
      RunStaysUnderCap(r, done, r.maxSize.value);
    }
  }

  lemma PurgedIsSeen(item: WritablePath, a: Answers, running: u64, cap: Option<u64>)
    ensures MayPurge(item, a, running, cap) ==> a.restat.Ok?
  {
  }
}
