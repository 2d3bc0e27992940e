/**
 * The quarantine store as its sessions: reading, closing, expiring and purging
 * them. Each operation is atomic from its read on; a directory is removed whole
 * or not at all. `items` is the sorted listing of a session's stored items,
 * `strays` whatever else lies in its directory.
 */
module SessionStore {
  import opened Wrappers
  import opened Bytes
  import opened Paths
  import opened Model
  import opened Entries
  import opened Reconcile

  /** One stored item, with what measuring it answers. */
  datatype StoredItem = StoredItem(path: Path, bytes: Result<u64, BrozaError>)

  datatype ManifestFile = Missing | Corrupt | Written(session: Session)

  datatype SessionDir = SessionDir(
    device: nat, inode: nat, manifest: ManifestFile, items: seq<StoredItem>, strays: seq<Path>)

  /** The session directories of the store, by session id. */
  type Store = map<string, SessionDir>

  datatype Taken = Held | Busy | Unavailable(error: BrozaError)

  /** A manifest write that failed, before the new contents were in place or after. */
  datatype WriteFailure = WriteFailure(error: BrozaError, landed: bool)

  /** What one call's port operations answer beyond what the store determines. */
  datatype Answers = Answers(
    read: Option<BrozaError>, lock: Taken, stat: Option<BrozaError>, write: Option<WriteFailure>,
    remove: Option<BrozaError>)

  datatype OperationKind = Expire | Purge

  datatype StoredSession = StoredSession(id: string, dir: Path, session: Session, orphans: seq<StoredItem>)

  function DirOf(root: Path, id: string): Path {
    root + [id]
  }

  function OnDisk(items: seq<StoredItem>): set<Path> {
    set i | 0 <= i < |items| :: items[i].path
  }

  predicate Listed(p: Path, entries: seq<QuarantineEntry>) {
    exists i :: 0 <= i < |entries| && entries[i].stored == Some(p)
  }

  /** The stored items no entry accounts for, in listing order. */
  function Orphans(items: seq<StoredItem>, entries: seq<QuarantineEntry>): (o: seq<StoredItem>)
    ensures o == [] <==> forall i :: 0 <= i < |items| ==> Listed(items[i].path, entries)
  {
    if items == [] then []
    else (if Listed(items[0].path, entries) then [] else [items[0]]) + Orphans(items[1..], entries)
  }

  /** `read_one`: the session, reconciled with the disk. */
  function ReadOne(root: Path, store: Store, id: string, a: Answers): Result<StoredSession, BrozaError> {
    if a.read.Some? then Err(a.read.value)
    else if id !in store || store[id].manifest.Missing? then Err(TargetNotFound)
    else if store[id].manifest.Corrupt? then Err(Other)
    else
      var m := store[id].manifest.session;
      if !ValidManifest(m) || m.id != id then Err(Other)
      else
        var settled := ReconcileSession(m, OnDisk(store[id].items)).session;
        Ok(StoredSession(id, DirOf(root, id), settled, Orphans(store[id].items, settled.entries)))
  }

  // ------------------------------------------------------------- the re-check

  datatype Recheck = Unchanged | Refused(code: ItemErrorCode)

  /** The first approved item at `path` decides, and only a path can be written. */
  function Approval(items: seq<ApprovedItem>, path: Path): Option<WritablePath> {
    if items == [] then None
    else if items[0].ItemPath() == path then items[0].Writable()
    else Approval(items[1..], path)
  }

  /** `recheck`: an error when the token does not cover the path at all. */
  function RecheckDir(items: seq<ApprovedItem>, root: Path, store: Store, id: string, a: Answers)
    : Result<Recheck, BrozaError>
  {
    match Approval(items, DirOf(root, id))
    case None => Err(Other)
    case Some(approved) =>
      if a.stat.Some? then Ok(Refused(IoCode(a.stat.value)))
      else if id !in store then Ok(Refused(NotFound))
      else if store[id].device != approved.device || store[id].inode != approved.inode then
        Ok(Refused(CHANGED_SINCE_CHECK))
      else Ok(Unchanged)
  }

  // ------------------------------------------------------- expiring and purging

  datatype ReclaimSession = ReclaimSession(id: string, total: u64, itemCount: nat, status: ItemStatus)

  datatype ErrorEntry = ErrorEntry(id: string, code: ItemErrorCode)

  datatype Removed = Removed(
    session: ReclaimSession, errors: seq<ErrorEntry>, warnings: seq<Path>, reclaimed: u64)

  const MANIFEST_CORRUPT := UnknownCode("manifest_corrupt")

  function Unreadable(id: string): Removed {
    Removed(ReclaimSession(id, 0, 0, Skipped), [ErrorEntry(id, MANIFEST_CORRUPT)], [], 0)
  }

  function RefusedLine(found: StoredSession, code: ItemErrorCode): Removed {
    Removed(
      ReclaimSession(found.id, HeldBytes(found.session.entries), found.session.itemCount, Skipped),
      [ErrorEntry(found.id, code)], [], 0)
  }

  function PurgedLine(found: StoredSession, orphanBytes: u64): Removed {
    var reclaimed := SatAdd(HeldBytes(found.session.entries), orphanBytes);
    Removed(
      ReclaimSession(found.id, reclaimed, found.session.itemCount, Purged), [],
      seq(|found.orphans|, i requires 0 <= i < |found.orphans| => found.orphans[i].path), reclaimed)
  }

  /** `measure_orphans`: the first item that cannot be measured fails the whole call. */
  function MeasureOrphans(orphans: seq<StoredItem>, sum: u64): Result<u64, BrozaError>
    decreases |orphans|
  {
    if orphans == [] then Ok(sum)
    else
      var bytes :- orphans[0].bytes;
      MeasureOrphans(orphans[1..], SatAdd(sum, bytes))
  }

  /** `remove_session`: read one session, check it may go, and remove its whole directory. */
  function RemoveSession(
    root: Path, token: seq<ApprovedItem>, store: Store, id: string, op: OperationKind, a: Answers)
    : (Result<Removed, BrozaError>, Store)
  {
    match ReadOne(root, store, id, a)
    case Err(_) => (Ok(Unreadable(id)), store)
    case Ok(found) =>
      if found.session.state.Restoring? then (Ok(RefusedLine(found, SessionBusy)), store)
      else if a.lock.Busy? then (Ok(RefusedLine(found, SessionBusy)), store)
      else if a.lock.Unavailable? then (Ok(Unreadable(id)), store)
      else if op.Expire? && found.orphans != [] then
        (Ok(RefusedLine(found, ORPHANED_ITEM).(errors := OrphanErrors(found.id, |found.orphans|))), store)
      else
        match RecheckDir(token, root, store, id, a)
        case Err(e) => (Err(e), store)
        case Ok(Refused(code)) => (Ok(RefusedLine(found, code)), store)
        case Ok(Unchanged) =>
          match MeasureOrphans(found.orphans, 0)
          case Err(e) => (Err(e), store)
          case Ok(orphanBytes) =>
            if a.remove.Some? then (Ok(RefusedLine(found, IoCode(a.remove.value))), store)
            else (Ok(PurgedLine(found, orphanBytes)), store - {id})
  }

  function OrphanErrors(id: string, count: nat): (e: seq<ErrorEntry>)
    ensures |e| == count
  {
    seq(count, _ => ErrorEntry(id, ORPHANED_ITEM))
  }

  /** The removals of `ids` in turn; the first fatal one ends the run, and what was done before it stays done. */
  function RemoveAll(
    root: Path, token: seq<ApprovedItem>, store: Store, ids: seq<string>, op: OperationKind, answers: nat -> Answers)
    : (Result<seq<Removed>, BrozaError>, Store)
    decreases |ids|
  {
    if ids == [] then (Ok([]), store)
    else
      var n := |ids| - 1;
      var (before, between) := RemoveAll(root, token, store, ids[..n], op, answers);
      if before.Err? then (before, between)
      else
        var (last, after) := RemoveSession(root, token, between, ids[n], op, answers(n));
        if last.Err? then (Err(last.error), after) else (Ok(before.value + [last.value]), after)
  }

  datatype ReclaimReport = ReclaimReport(
    operation: OperationKind, reclaimed: u64, sessions: seq<ReclaimSession>,
    errors: seq<ErrorEntry>, warnings: seq<Path>)

  function ReclaimedOf(removed: seq<Removed>): (s: seq<u64>)
    ensures |s| == |removed| && forall i :: 0 <= i < |s| ==> s[i] == removed[i].reclaimed
  {
    seq(|removed|, i requires 0 <= i < |removed| => removed[i].reclaimed)
  }

  function LinesOf(removed: seq<Removed>): (s: seq<ReclaimSession>)
    ensures |s| == |removed| && forall i :: 0 <= i < |s| ==> s[i] == removed[i].session
  {
    seq(|removed|, i requires 0 <= i < |removed| => removed[i].session)
  }

  function ErrorsOf(removed: seq<Removed>): (e: seq<ErrorEntry>)
    ensures e == [] <==> forall i :: 0 <= i < |removed| ==> removed[i].errors == []
    ensures forall x :: x in e <==> exists i :: 0 <= i < |removed| && x in removed[i].errors
  {
    if removed == [] then [] else removed[0].errors + ErrorsOf(removed[1..])
  }

  function WarningsOf(removed: seq<Removed>): (w: seq<Path>)
    ensures forall x :: x in w <==> exists i :: 0 <= i < |removed| && x in removed[i].warnings
  {
    if removed == [] then [] else removed[0].warnings + WarningsOf(removed[1..])
  }

  function Report(op: OperationKind, removed: seq<Removed>): ReclaimReport {
    ReclaimReport(op, SatFold(0, ReclaimedOf(removed)), LinesOf(removed), ErrorsOf(removed), WarningsOf(removed))
  }

  // -------------------------------------------------- what a removal is worth

  /** The exact bytes measuring these items gives, when all of them can be measured. */
  function OrphanBytes(orphans: seq<StoredItem>): Option<nat> {
    if orphans == [] then Some(0)
    else if orphans[0].bytes.Err? then None
    else match OrphanBytes(orphans[1..])
         case None => None
         case Some(rest) => Some(orphans[0].bytes.value + rest)
  }

  lemma {:induction false} MeasureOrphansIsExact(orphans: seq<StoredItem>, sum: u64)
    ensures MeasureOrphans(orphans, sum).Ok? <==> OrphanBytes(orphans).Some?
    ensures MeasureOrphans(orphans, sum).Ok? ==>
              MeasureOrphans(orphans, sum).value == Cap(sum + OrphanBytes(orphans).value)
    decreases |orphans|
  {
    if orphans != [] && orphans[0].bytes.Ok? {
      MeasureOrphansIsExact(orphans[1..], SatAdd(sum, orphans[0].bytes.value));
    }
  }

  /** The exact bytes a session gives back: its settled entries' plus its orphans'. */
  ghost function Worth(store: Store, id: string): nat {
    if id !in store || !store[id].manifest.Written? then 0
    else
      var dir := store[id];
      var entries := ReconcileSession(dir.manifest.session, OnDisk(dir.items)).session.entries;
      Sum(StoredSizes(entries)) + Sum(OrphanSizes(dir))
  }

  /** No entry of the manifest names stored item `i`. */
  ghost predicate Orphaned(dir: SessionDir, i: int) {
    && 0 <= i < |dir.items| && dir.manifest.Written?
    && forall j :: 0 <= j < |dir.manifest.session.entries| ==>
         dir.manifest.session.entries[j].stored != Some(dir.items[i].path)
  }

  /** What each unlisted item measures; nothing for the others. */
  ghost function OrphanSizes(dir: SessionDir): (s: seq<u64>)
    ensures |s| == |dir.items|
  {
    seq(|dir.items|, i requires 0 <= i < |dir.items| =>
      if Orphaned(dir, i) && dir.items[i].bytes.Ok? then dir.items[i].bytes.value else 0)
  }

  /** One for each item no entry lists. */
  ghost function OrphanMarks(dir: SessionDir): (s: seq<u64>)
    ensures |s| == |dir.items|
  {
    seq(|dir.items|, i requires 0 <= i < |dir.items| => if Orphaned(dir, i) then 1 else 0)
  }

  /** Settling against the disk neither hides an item of it nor brings one up. */
  lemma ListedAlike(dir: SessionDir, i: nat)
    requires i < |dir.items| && dir.manifest.Written?
    ensures var settled := ReconcileSession(dir.manifest.session, OnDisk(dir.items)).session.entries;
            Listed(dir.items[i].path, settled) <==> !Orphaned(dir, i)
  {
    var m, onDisk := dir.manifest.session, OnDisk(dir.items);
    ReconcileExactly(m, onDisk);
    var settled := ReconcileSession(m, onDisk).session.entries;
    assert dir.items[i].path in onDisk;
    hide ReconcileSession;
    if j :| 0 <= j < |settled| && settled[j].stored == Some(dir.items[i].path) {
      assert ReadsAs(m.entries[j], onDisk, settled[j]);
    }
    if j :| 0 <= j < |m.entries| && m.entries[j].stored == Some(dir.items[i].path) {
      assert ReadsAs(m.entries[j], onDisk, settled[j]) && settled[j].stored == Some(dir.items[i].path);
    }
  }

  lemma {:induction false} OrphansExactly(items: seq<StoredItem>, entries: seq<QuarantineEntry>, o: StoredItem)
    ensures o in Orphans(items, entries) <==> o in items && !Listed(o.path, entries)
  {
    if items != [] {
      hide Listed;
      OrphansExactly(items[1..], entries, o);
      assert items == [items[0]] + items[1..];
    }
  }

  /** The items no entry lists: whether all can be measured, and what they add up to. */
  lemma {:induction false} OrphansMeasure(
    items: seq<StoredItem>, entries: seq<QuarantineEntry>, sizes: seq<u64>, marks: seq<u64>)
    requires |sizes| == |marks| == |items|
    requires forall i :: 0 <= i < |items| ==> marks[i] == if !Listed(items[i].path, entries) then 1 else 0
    requires forall i :: 0 <= i < |items| ==>
               sizes[i] == if !Listed(items[i].path, entries) && items[i].bytes.Ok? then items[i].bytes.value else 0
    ensures var bytes := OrphanBytes(Orphans(items, entries));
            && (bytes.Some? <==> forall i :: 0 <= i < |items| && !Listed(items[i].path, entries) ==> items[i].bytes.Ok?)
            && (bytes.Some? ==> bytes.value == Sum(sizes)) && |Orphans(items, entries)| == Sum(marks)
  {
    if items != [] {
      hide Listed;
      OrphansMeasure(items[1..], entries, sizes[1..], marks[1..]);
      var orphans, rest := Orphans(items, entries), Orphans(items[1..], entries);
      if Listed(items[0].path, entries) {
        assert orphans == [] + rest == rest;
      } else {
        assert orphans == [items[0]] + rest && orphans[1..] == rest;
      }
    }
  }

  /** Exactly when a session is removed, and what that reports; otherwise nothing of it changes. */
  lemma RemoveSessionExactly(
    root: Path, token: seq<ApprovedItem>, store: Store, id: string, op: OperationKind, a: Answers)
    ensures var (r, after) := RemoveSession(root, token, store, id, op, a);
            && (r.Err? ==> after == store)
            && (r.Ok? ==>
                  && r.value.session.id == id && (forall e :: e in r.value.errors ==> e.id == id)
                  && (r.value.session.status == Purged <==> id in store && id !in after)
                  && (r.value.session.status == Purged ==>
                        && after == store - {id} && r.value.errors == []
                        && r.value.reclaimed == r.value.session.total == Cap(Worth(store, id))
                        && ReadOne(root, store, id, a).Ok?
                        && !ReadOne(root, store, id, a).value.session.state.Restoring?
                        && (op.Expire? ==> ReadOne(root, store, id, a).value.orphans == []))
                  && (r.value.session.status != Purged ==>
                        after == store && r.value.errors != [] && r.value.reclaimed == 0))
  {
    hide ReadOne, MeasureOrphans, Worth, RecheckDir, HeldBytes, Cap;
    ReadIsThatSession(root, store, id, a);
    if ReadOne(root, store, id, a).Ok? {
      PurgedIsWorth(root, store, id, a);
      RecheckedExists(root, token, store, id, a);
    }
  }

  lemma ReadIsThatSession(root: Path, store: Store, id: string, a: Answers)
    ensures ReadOne(root, store, id, a).Ok? ==> ReadOne(root, store, id, a).value.id == id
  {
  }

  /** What a removed session is reported to have freed is what it was worth. */
  lemma PurgedIsWorth(root: Path, store: Store, id: string, a: Answers)
    requires ReadOne(root, store, id, a).Ok?
    ensures var found := ReadOne(root, store, id, a).value;
            MeasureOrphans(found.orphans, 0).Ok? ==>
              PurgedLine(found, MeasureOrphans(found.orphans, 0).value).reclaimed == Cap(Worth(store, id))
  {
    hide ReconcileSession, MeasureOrphans, OrphanBytes, HeldBytes, Sum, Orphans, Orphaned, OrphanSizes;
    var found := ReadOne(root, store, id, a).value;
    MeasureOrphansIsExact(found.orphans, 0);
    OrphansOfRead(root, store, id, a);
    HeldExactly(found.session.entries);
  }

  /** The orphans of a session as read, from its directory. */
  lemma OrphansOfRead(root: Path, store: Store, id: string, a: Answers)
    requires ReadOne(root, store, id, a).Ok?
    ensures var orphans := ReadOne(root, store, id, a).value.orphans;
            && id in store
            && (forall o :: o in orphans <==> exists i :: Orphaned(store[id], i) && store[id].items[i] == o)
            && (OrphanBytes(orphans).Some? <==>
                  forall i :: Orphaned(store[id], i) ==> store[id].items[i].bytes.Ok?)
            && (OrphanBytes(orphans).Some? ==> OrphanBytes(orphans).value == Sum(OrphanSizes(store[id])))
            && |orphans| == Sum(OrphanMarks(store[id]))
  {
    var dir, found := store[id], ReadOne(root, store, id, a).value;
    var settled := ReconcileSession(dir.manifest.session, OnDisk(dir.items)).session.entries;
    assert found.orphans == Orphans(dir.items, settled);
    forall i | 0 <= i < |dir.items| ensures Listed(dir.items[i].path, settled) <==> !Orphaned(dir, i) {
      ListedAlike(dir, i);
    }
    OrphansMeasure(dir.items, settled, OrphanSizes(dir), OrphanMarks(dir));
    forall o ensures o in found.orphans <==> o in dir.items && !Listed(o.path, settled) {
      OrphansExactly(dir.items, settled, o);
    }
    hide ReadOne, ReconcileSession, Orphans, OrphanBytes, Listed, Orphaned;
  }

  lemma RecheckedExists(root: Path, token: seq<ApprovedItem>, store: Store, id: string, a: Answers)
    ensures RecheckDir(token, root, store, id, a) == Ok(Unchanged) ==> id in store
  {
  }

  /** What a sequence of removals did, line by line. */
  ghost predicate Accounted(store: Store, after: Store, ids: seq<string>, removed: seq<Removed>) {
    && |removed| == |ids|
    && (forall i :: 0 <= i < |ids| ==> LineTells(store, after, ids[i], removed[i]))
    && (forall i, j :: 0 <= i < j < |ids| && removed[i].session.status == Purged && removed[j].session.status == Purged
          ==> ids[i] != ids[j])
    && forall id :: id in store && id !in after ==>
        exists i :: 0 <= i < |ids| && ids[i] == id && removed[i].session.status == Purged
  }

  /** A line says `purged` only for a session that is gone, and then for its exact worth, capped. */
  ghost predicate LineTells(store: Store, after: Store, id: string, line: Removed) {
    && line.session.id == id
    && (line.session.status == Purged ==>
          id in store && id !in after && line.errors == [] && line.reclaimed == Cap(Worth(store, id)))
    && (line.session.status != Purged ==> line.errors != [] && line.reclaimed == 0)
    && forall e :: e in line.errors ==> e.id == id
  }

  /** No session changes; sessions only disappear. */
  ghost predicate OnlyRemoves(store: Store, after: Store) {
    forall id :: id in after ==> id in store && after[id] == store[id]
  }

  /**
   * Whatever the answers and however often an id is repeated: the removals only
   * remove whole sessions, and if the call completes, every session that went is
   * reported `purged`, once, for its exact worth.
   */
  lemma {:induction false} RemoveAllIsAccounted(
    root: Path, token: seq<ApprovedItem>, store: Store, ids: seq<string>, op: OperationKind, answers: nat -> Answers)
    ensures var (r, after) := RemoveAll(root, token, store, ids, op, answers);
            OnlyRemoves(store, after) && (r.Ok? ==> Accounted(store, after, ids, r.value))
    decreases |ids|
  {
    if ids != [] {
      hide RemoveSession, Worth;
      var n := |ids| - 1;
      var (before, between) := RemoveAll(root, token, store, ids[..n], op, answers);
      RemoveAllIsAccounted(root, token, store, ids[..n], op, answers);
      if before.Ok? {
        RemoveSessionExactly(root, token, between, ids[n], op, answers(n));
        var (last, after) := RemoveSession(root, token, between, ids[n], op, answers(n));
        if last.Ok? {
          SameWorth(store, between, ids[n]);
          AccountedSnoc(store, between, after, ids, before.value, last.value);
        }
      }
    }
  }

  lemma SameWorth(store: Store, between: Store, id: string)
    requires OnlyRemoves(store, between)
    ensures id in between ==> Worth(between, id) == Worth(store, id)
  {
  }

  lemma AccountedSnoc(
    store: Store, between: Store, after: Store, ids: seq<string>, removed: seq<Removed>, last: Removed)
    requires ids != [] && OnlyRemoves(store, between) && OnlyRemoves(between, after)
    requires Accounted(store, between, ids[..|ids| - 1], removed)
    requires LineTells(store, after, ids[|ids| - 1], last)
    requires last.session.status == Purged ==> after == between - {ids[|ids| - 1]} && ids[|ids| - 1] in between
    requires last.session.status != Purged ==> after == between
    ensures Accounted(store, after, ids, removed + [last])
  {
    hide Worth;
    var n, all := |ids| - 1, removed + [last];
    forall i | 0 <= i < |ids| ensures LineTells(store, after, ids[i], all[i]) {
      if i < n {
        assert LineTells(store, between, ids[..n][i], removed[i]);
      }
    }
    forall id | id in store && id !in after
      ensures exists i :: 0 <= i < |ids| && ids[i] == id && all[i].session.status == Purged
    {
      if id !in between {
        var i :| 0 <= i < n && ids[..n][i] == id && removed[i].session.status == Purged;
        assert ids[i] == id && all[i].session.status == Purged;
      } else {
        assert ids[n] == id && all[n].session.status == Purged;
      }
    }
    forall i, j | 0 <= i < j < |ids| && all[i].session.status == Purged && all[j].session.status == Purged
      ensures ids[i] != ids[j]
    {
      assert LineTells(store, between, ids[..n][i], removed[i]);
      if j < n {
        assert ids[..n][i] != ids[..n][j];
      }
    }
  }

  /** The exact bytes of the sessions reported `purged`. */
  ghost function ExactTotal(store: Store, removed: seq<Removed>): nat {
    if removed == [] then 0
    else
      var n := |removed| - 1;
      ExactTotal(store, removed[..n])
      + if removed[n].session.status == Purged then Worth(store, removed[n].session.id) else 0
  }

  /** A line adds what it reports and, exactly, what its session was worth. */
  lemma LineAdds(store: Store, after: Store, id: string, line: Removed, front: seq<u64>, exact: nat)
    requires LineTells(store, after, id, line) && Cap(Sum(front)) == Cap(exact)
    ensures Cap(Sum(front + [line.reclaimed]))
            == Cap(exact + if line.session.status == Purged then Worth(store, line.session.id) else 0)
  {
    hide Worth;
    SumConcat(front, [line.reclaimed]);
    assert Sum([line.reclaimed]) == line.reclaimed + Sum([]);
  }

  lemma {:induction false} TotalIsExact(store: Store, after: Store, ids: seq<string>, removed: seq<Removed>)
    requires |removed| == |ids| && forall i :: 0 <= i < |ids| ==> LineTells(store, after, ids[i], removed[i])
    ensures Cap(Sum(ReclaimedOf(removed))) == Cap(ExactTotal(store, removed))
    decreases |removed|
  {
    if removed != [] {
      hide Worth, LineTells;
      var n := |removed| - 1;
      TotalIsExact(store, after, ids[..n], removed[..n]);
      LineAdds(store, after, ids[n], removed[n], ReclaimedOf(removed[..n]), ExactTotal(store, removed[..n]));
      assert ReclaimedOf(removed) == ReclaimedOf(removed[..n]) + [removed[n].reclaimed];
    }
  }

  /**
   * Conservation, for every completed `expire` or `purge`: the reported bytes are
   * the exact bytes of the sessions reported `purged`, capped once; no session
   * counts twice; every session that went is reported and every other one is
   * whole; and there are errors exactly when some session stayed.
   */
  lemma ReclaimConserves(
    root: Path, token: seq<ApprovedItem>, store: Store, ids: seq<string>, op: OperationKind, answers: nat -> Answers)
    requires RemoveAll(root, token, store, ids, op, answers).0.Ok?
    ensures var (r, after) := RemoveAll(root, token, store, ids, op, answers);
            var report := Report(op, r.value);
            && report.reclaimed == Cap(ExactTotal(store, r.value))
            && Accounted(store, after, ids, r.value) && OnlyRemoves(store, after)
            && (report.errors == [] <==> forall i :: 0 <= i < |ids| ==> report.sessions[i].status == Purged)
            && (forall i :: 0 <= i < |ids| ==>
                  && report.sessions[i].id == ids[i]
                  && (report.sessions[i].status != Purged ==> exists e :: e in report.errors && e.id == ids[i]))
            && (forall w :: w in report.warnings <==> exists i :: 0 <= i < |ids| && w in r.value[i].warnings)
  {
    hide RemoveAll, Worth, Sum, SatFold, Cap, ExactTotal, OnlyRemoves, ErrorsOf, WarningsOf, Accounted;
    var (r, after) := RemoveAll(root, token, store, ids, op, answers);
    RemoveAllIsAccounted(root, token, store, ids, op, answers);
    SatFoldIsCappedSum(0, ReclaimedOf(r.value));
    LinesTell(store, after, ids, r.value);
  }

  /** Line by line: what an accounted-for call reports. */
  lemma LinesTell(store: Store, after: Store, ids: seq<string>, removed: seq<Removed>)
    requires Accounted(store, after, ids, removed)
    ensures |removed| == |ids| && Cap(Sum(ReclaimedOf(removed))) == Cap(ExactTotal(store, removed))
    ensures ErrorsOf(removed) == [] <==> forall i :: 0 <= i < |ids| ==> removed[i].session.status == Purged
    ensures forall i :: 0 <= i < |ids| ==>
              && removed[i].session.id == ids[i]
              && (removed[i].session.status != Purged ==> exists e :: e in ErrorsOf(removed) && e.id == ids[i])
    ensures forall w :: w in WarningsOf(removed) <==> exists i :: 0 <= i < |ids| && w in removed[i].warnings
  {
    hide Worth, Sum, Cap, ExactTotal, ErrorsOf, WarningsOf;
    TotalIsExact(store, after, ids, removed);
    forall i | 0 <= i < |ids|
      ensures removed[i].session.id == ids[i] && (removed[i].errors == [] <==> removed[i].session.status == Purged)
      ensures removed[i].session.status != Purged ==> exists e :: e in ErrorsOf(removed) && e.id == ids[i]
    {
      assert LineTells(store, after, ids[i], removed[i]);
      if removed[i].session.status != Purged {
        assert removed[i].errors[0] in removed[i].errors;
      }
    }
  }

  // ------------------------------------------------- when a call has no report

  /** The session's manifest can be read, and is its own. */
  ghost predicate Readable(store: Store, id: string, a: Answers) {
    && a.read.None? && id in store && store[id].manifest.Written?
    && !store[id].manifest.session.state.Expired? && store[id].manifest.session.id == id
  }

  /** Of everything the token says of this path, item `i` is the first. */
  ghost predicate FirstAt(token: seq<ApprovedItem>, path: Path, i: nat) {
    i < |token| && token[i].ItemPath() == path && forall j: nat :: j < i ==> token[j].ItemPath() != path
  }

  /** The token approves writing to this path. */
  ghost predicate Covered(token: seq<ApprovedItem>, path: Path) {
    exists i: nat :: FirstAt(token, path, i) && token[i].ApprovedPath?
  }

  /** What stands in the session's place is the very directory the token approves. */
  ghost predicate Vouched(token: seq<ApprovedItem>, root: Path, store: Store, id: string) {
    id in store
    && exists i: nat :: FirstAt(token, root + [id], i) && token[i].ApprovedPath?
                        && token[i].target.device == store[id].device && token[i].target.inode == store[id].inode
  }

  lemma {:induction false} ApprovalExactly(token: seq<ApprovedItem>, path: Path)
    ensures Approval(token, path).Some? <==> Covered(token, path)
    ensures forall i: nat :: FirstAt(token, path, i) ==> Approval(token, path) == token[i].Writable()
  {
    if token != [] {
      var rest := token[1..];
      ApprovalExactly(rest, path);
      assert forall i: nat :: 0 < i < |token| ==> token[i] == rest[i - 1];
      if token[0].ItemPath() == path {
        assert FirstAt(token, path, 0);
        assert forall i: nat :: FirstAt(token, path, i) ==> i == 0;
      } else {
        assert forall i: nat :: FirstAt(token, path, i) ==> i > 0 && FirstAt(rest, path, i - 1);
        assert forall i: nat :: FirstAt(rest, path, i) ==> FirstAt(token, path, i + 1);
      }
    }
  }

  /** The re-check compares what stands there with the token's first word on it, device and inode both. */
  lemma RecheckExactly(token: seq<ApprovedItem>, root: Path, store: Store, id: string, a: Answers)
    ensures var r := RecheckDir(token, root, store, id, a);
            && (r.Err? <==> !Covered(token, root + [id])) && (r.Err? ==> r.error == Other)
            && (r == Ok(Unchanged) <==> a.stat.None? && Vouched(token, root, store, id))
            && (r.Ok? && r.value.Refused? ==>
                  r.value.code == if a.stat.Some? then IoCode(a.stat.value)
                                  else if id !in store then NotFound
                                  else CHANGED_SINCE_CHECK)
  {
    ApprovalExactly(token, DirOf(root, id));
    hide Approval, Covered, IoCode;
    if Covered(token, DirOf(root, id)) {
      CoveredHasFirst(token, DirOf(root, id));
      var i: nat :| FirstAt(token, DirOf(root, id), i) && token[i].ApprovedPath?;
      assert Approval(token, DirOf(root, id)) == Some(token[i].target);
      assert forall j: nat :: FirstAt(token, DirOf(root, id), j) ==> j == i;
    }
  }

  lemma CoveredHasFirst(token: seq<ApprovedItem>, path: Path)
    requires Covered(token, path)
    ensures exists i: nat :: FirstAt(token, path, i) && token[i].ApprovedPath?
  {
  }

  /** What reading a session gives, from what is in its directory. */
  lemma ReadExactly(root: Path, store: Store, id: string, a: Answers)
    ensures var r := ReadOne(root, store, id, a);
            && (r.Ok? <==> Readable(store, id, a))
            && (r.Err? ==> r.error == if a.read.Some? then a.read.value
                                      else if id !in store || store[id].manifest == Missing then TargetNotFound
                                      else Other)
            && (r.Ok? ==>
                  && r.value.id == id && r.value.session.state == store[id].manifest.session.state
                  && r.value.session.itemCount == |store[id].manifest.session.entries|
                  && r.value.session.entries == SettledEntries(store[id])
                  && (r.value.orphans == [] <==> forall i :: !Orphaned(store[id], i)))
  {
    if ReadOne(root, store, id, a).Ok? {
      OrphansOfRead(root, store, id, a);
      var orphans := ReadOne(root, store, id, a).value.orphans;
      hide Orphaned, Orphans;
      if orphans != [] {
        assert orphans[0] in orphans;
      }
    }
  }

  /** The read and the lock let this removal get as far as the re-check of the directory. */
  ghost predicate ReachesRecheck(store: Store, id: string, op: OperationKind, a: Answers) {
    && Readable(store, id, a) && !store[id].manifest.session.state.Restoring? && a.lock.Held?
    && (op.Expire? ==> forall i :: !Orphaned(store[id], i))
  }

  /** The token lacks the directory, or an unlisted item of it cannot be measured; all of it can be looked up beforehand. */
  ghost predicate IsFatal(root: Path, token: seq<ApprovedItem>, store: Store, id: string, op: OperationKind, a: Answers) {
    && ReachesRecheck(store, id, op, a)
    && (!Covered(token, root + [id])
        || (a.stat.None? && Vouched(token, root, store, id)
            && exists i :: Orphaned(store[id], i) && !store[id].items[i].bytes.Ok?))
  }

  /**
   * A removal is fatal exactly when it gets to the re-check and the token lacks
   * the directory, or an orphan cannot be measured.
   */
  lemma FatalExactly(root: Path, token: seq<ApprovedItem>, store: Store, id: string, op: OperationKind, a: Answers)
    ensures RemoveSession(root, token, store, id, op, a).0.Err? <==> IsFatal(root, token, store, id, op, a)
  {
    ReadExactly(root, store, id, a);
    RecheckExactly(token, root, store, id, a);
    VouchedIsCovered(token, root, store, id);
    hide ReadOne, MeasureOrphans, OrphanBytes, RecheckDir, Readable, Covered, Vouched, Orphaned;
    var found := ReadOne(root, store, id, a);
    if found.Ok? {
      OrphansOfRead(root, store, id, a);
      MeasureOrphansIsExact(found.value.orphans, 0);
    }
  }

  /** The guards of a removal all pass, and the disk allows it. */
  ghost predicate Goes(root: Path, token: seq<ApprovedItem>, store: Store, id: string, op: OperationKind, a: Answers) {
    && ReachesRecheck(store, id, op, a) && a.stat.None? && Vouched(token, root, store, id)
    && (forall i :: Orphaned(store[id], i) ==> store[id].items[i].bytes.Ok?) && a.remove.None?
  }

  /**
   * A removal takes the session exactly when its guards pass: its manifest reads
   * as its own, nobody restores or holds it, an expiry finds nothing unlisted, and
   * the directory is the very one that was approved.
   */
  lemma GoesExactly(root: Path, token: seq<ApprovedItem>, store: Store, id: string, op: OperationKind, a: Answers)
    ensures RemoveSession(root, token, store, id, op, a).1
            == if Goes(root, token, store, id, op, a) then store - {id} else store
    ensures Goes(root, token, store, id, op, a) || IsFatal(root, token, store, id, op, a) ==> id in store
    ensures !(Goes(root, token, store, id, op, a) && IsFatal(root, token, store, id, op, a))
  {
    ReadExactly(root, store, id, a);
    RecheckExactly(token, root, store, id, a);
    VouchedIsCovered(token, root, store, id);
    assert Readable(store, id, a) ==> id in store;
    hide ReadOne, MeasureOrphans, OrphanBytes, RecheckDir, Readable, Covered, Vouched, Orphaned;
    var found := ReadOne(root, store, id, a);
    if found.Ok? {
      OrphansOfRead(root, store, id, a);
      MeasureOrphansIsExact(found.value.orphans, 0);
    }
  }

  lemma VouchedIsCovered(token: seq<ApprovedItem>, root: Path, store: Store, id: string)
    ensures Vouched(token, root, store, id) ==> Covered(token, root + [id])
  {
  }

  /** Why a session was not removed, as its line says. */
  ghost function Reason(root: Path, token: seq<ApprovedItem>, store: Store, id: string, op: OperationKind, a: Answers)
    : ItemErrorCode
  {
    if !Readable(store, id, a) then MANIFEST_CORRUPT
    else if store[id].manifest.session.state.Restoring? || a.lock.Busy? then SessionBusy
    else if a.lock.Unavailable? then MANIFEST_CORRUPT
    else if op.Expire? && exists i :: Orphaned(store[id], i) then ORPHANED_ITEM
    else if a.stat.Some? then IoCode(a.stat.value)
    else if !Vouched(token, root, store, id) then CHANGED_SINCE_CHECK
    else if a.remove.Some? then IoCode(a.remove.value)
    else IoError
  }

  /**
   * What the line of one removal says, whatever came of it: a session that stays
   * is `skipped` for its reason, and every unlisted item that went with one that
   * did not is warned of.
   */
  lemma LineExactly(root: Path, token: seq<ApprovedItem>, store: Store, id: string, op: OperationKind, a: Answers)
    ensures var r := RemoveSession(root, token, store, id, op, a).0;
            r.Ok? ==>
              && r.value.session.id == id
              && (if Goes(root, token, store, id, op, a) then
                    && r.value.session.status == Purged && r.value.errors == []
                    && (forall p :: p in r.value.warnings <==>
                          exists i :: Orphaned(store[id], i) && store[id].items[i].path == p)
                  else
                    && r.value.session.status == Skipped && r.value.errors != [] && r.value.warnings == []
                    && forall e :: e in r.value.errors ==> e == ErrorEntry(id, Reason(root, token, store, id, op, a)))
              && (!Goes(root, token, store, id, op, a) && Reason(root, token, store, id, op, a) == ORPHANED_ITEM ==>
                    |r.value.errors| == Sum(OrphanMarks(store[id])))
              && (if Readable(store, id, a) && (!a.lock.Unavailable? || store[id].manifest.session.state.Restoring?) then
                    && r.value.session.itemCount == |store[id].manifest.session.entries|
                    && (!Goes(root, token, store, id, op, a) ==>
                          r.value.session.total == Cap(Sum(StoredSizes(SettledEntries(store[id])))))
                  else
                    r.value.session.itemCount == r.value.session.total == 0)
  {
    CodesDiffer();
    GoesExactly(root, token, store, id, op, a);
    ReadExactly(root, store, id, a);
    RecheckExactly(token, root, store, id, a);
    ReadIsThatSession(root, store, id, a);
    hide ReadOne, MeasureOrphans, OrphanBytes, RecheckDir, Covered, Vouched, Orphaned, HeldBytes, IoCode;
    if Readable(store, id, a) {
      OrphansOfRead(root, store, id, a);
      var found := ReadOne(root, store, id, a).value;
      HeldExactly(found.session.entries);
      MeasureOrphansIsExact(found.orphans, 0);
      var bytes := MeasureOrphans(found.orphans, 0);
      WarnedPaths(store[id], found, if bytes.Ok? then bytes.value else 0);
    }
  }

  /** The entries of a session as reading it settles them. */
  ghost function SettledEntries(dir: SessionDir): seq<QuarantineEntry>
    requires dir.manifest.Written?
  {
    ReconcileSession(dir.manifest.session, OnDisk(dir.items)).session.entries
  }

  lemma CodesDiffer()
    ensures ORPHANED_ITEM != MANIFEST_CORRUPT && ORPHANED_ITEM != CHANGED_SINCE_CHECK
    ensures forall e :: IoCode(e) != ORPHANED_ITEM
  {
    assert |"orphaned_item"| != |"manifest_corrupt"| && |"orphaned_item"| != |"changed_since_check"|;
  }

  lemma WarnedPaths(dir: SessionDir, found: StoredSession, bytes: u64)
    requires forall o :: o in found.orphans <==> exists i :: Orphaned(dir, i) && dir.items[i] == o
    ensures forall p :: p in PurgedLine(found, bytes).warnings <==>
              exists i :: Orphaned(dir, i) && dir.items[i].path == p
  {
    var warnings := PurgedLine(found, bytes).warnings;
    forall p ensures p in warnings <==> exists i :: Orphaned(dir, i) && dir.items[i].path == p {
      if p in warnings {
        var k :| 0 <= k < |warnings| && warnings[k] == p;
        assert found.orphans[k] in found.orphans;
      }
      if i :| Orphaned(dir, i) && dir.items[i].path == p {
        assert dir.items[i] in found.orphans;
        var k :| 0 <= k < |found.orphans| && found.orphans[k] == dir.items[i];
        assert warnings[k] == p;
      }
    }
  }

  /** Both guards look at that one session only. */
  lemma GuardsAreLocal(
    root: Path, token: seq<ApprovedItem>, store: Store, between: Store, id: string, op: OperationKind, a: Answers)
    requires id in store && id in between && between[id] == store[id]
    ensures IsFatal(root, token, between, id, op, a) <==> IsFatal(root, token, store, id, op, a)
    ensures Goes(root, token, between, id, op, a) <==> Goes(root, token, store, id, op, a)
  {
    assert Vouched(token, root, between, id) <==> Vouched(token, root, store, id);
    hide Vouched, Covered, Orphaned;
  }

  /** Of the store as the call finds it: removal `k` is fatal, and no earlier one has taken that session. */
  ghost predicate FatalAt(
    root: Path, token: seq<ApprovedItem>, store: Store, ids: seq<string>, op: OperationKind, answers: nat -> Answers,
    k: nat)
  {
    && k < |ids| && IsFatal(root, token, store, ids[k], op, answers(k))
    && forall j: nat :: j < k && ids[j] == ids[k] ==> !Goes(root, token, store, ids[j], op, answers(j))
  }

  /** Of the store as the call finds it: some removal takes this session. */
  ghost predicate IsTaken(
    root: Path, token: seq<ApprovedItem>, store: Store, ids: seq<string>, op: OperationKind, answers: nat -> Answers,
    id: string)
  {
    exists j: nat :: j < |ids| && ids[j] == id && Goes(root, token, store, id, op, answers(j))
  }

  lemma TakenSoFar(
    root: Path, token: seq<ApprovedItem>, store: Store, ids: seq<string>, op: OperationKind, answers: nat -> Answers,
    id: string)
    requires ids != []
    ensures var n := |ids| - 1;
            && (IsTaken(root, token, store, ids, op, answers, id) <==>
                  || IsTaken(root, token, store, ids[..n], op, answers, id)
                  || (ids[n] == id && Goes(root, token, store, id, op, answers(n))))
            && (FatalAt(root, token, store, ids, op, answers, n) <==>
                  && IsFatal(root, token, store, ids[n], op, answers(n))
                  && !IsTaken(root, token, store, ids[..n], op, answers, ids[n]))
            && forall k: nat :: k < n ==>
                 (FatalAt(root, token, store, ids, op, answers, k) <==>
                  FatalAt(root, token, store, ids[..n], op, answers, k))
  {
    hide Goes, IsFatal;
    var n := |ids| - 1;
    assert forall j: nat :: j < n ==> ids[..n][j] == ids[j];
    if ids[n] == id && Goes(root, token, store, id, op, answers(n)) {
      assert IsTaken(root, token, store, ids, op, answers, id);
    }
  }

  /**
   * When a call gives no report, from what can be looked up before it, ids
   * repeated or not: exactly when some removal is fatal in the store as it is and
   * none before it takes that session. A call that does report has taken exactly
   * the sessions whose guards pass.
   */
  lemma {:induction false} NoReportExactly(
    root: Path, token: seq<ApprovedItem>, store: Store, ids: seq<string>, op: OperationKind, answers: nat -> Answers)
    ensures var (r, after) := RemoveAll(root, token, store, ids, op, answers);
            && (r.Err? <==> exists k: nat :: FatalAt(root, token, store, ids, op, answers, k))
            && (r.Ok? ==> forall id :: id in store ==>
                  (id !in after <==> IsTaken(root, token, store, ids, op, answers, id)))
    decreases |ids|
  {
    if ids != [] {
      hide RemoveSession, IsFatal, Goes, FatalAt, IsTaken, Worth;
      var n := |ids| - 1;
      var (before, between) := RemoveAll(root, token, store, ids[..n], op, answers);
      NoReportExactly(root, token, store, ids[..n], op, answers);
      RemoveAllIsAccounted(root, token, store, ids[..n], op, answers);
      TakenSoFar(root, token, store, ids, op, answers, ids[n]);
      if before.Err? {
        var k: nat :| FatalAt(root, token, store, ids[..n], op, answers, k);
        FatalIsInside(root, token, store, ids[..n], op, answers, k);
        assert FatalAt(root, token, store, ids, op, answers, k);
      } else {
        NoReportStep(root, token, store, between, ids[..n], ids, op, answers);
      }
    } else {
      NoneFatal(root, token, store, op, answers);
    }
  }

  lemma FatalIsInside(
    root: Path, token: seq<ApprovedItem>, store: Store, ids: seq<string>, op: OperationKind, answers: nat -> Answers,
    k: nat)
    requires FatalAt(root, token, store, ids, op, answers, k)
    ensures k < |ids|
  {
  }

  lemma NoneFatal(root: Path, token: seq<ApprovedItem>, store: Store, op: OperationKind, answers: nat -> Answers)
    ensures forall k: nat :: !FatalAt(root, token, store, [], op, answers, k)
    ensures forall id :: !IsTaken(root, token, store, [], op, answers, id)
  {
  }

  /** The last removal, when the ones before it all completed. */
  lemma NoReportStep(
    root: Path, token: seq<ApprovedItem>, store: Store, between: Store, front: seq<string>, ids: seq<string>,
    op: OperationKind, answers: nat -> Answers)
    requires ids != [] && front == ids[..|ids| - 1] && OnlyRemoves(store, between)
    requires forall id :: id in store ==> (id !in between <==> IsTaken(root, token, store, front, op, answers, id))
    requires forall k: nat :: !FatalAt(root, token, store, front, op, answers, k)
    ensures var n := |ids| - 1;
            var (last, after) := RemoveSession(root, token, between, ids[n], op, answers(n));
            && (last.Err? <==> exists k: nat :: FatalAt(root, token, store, ids, op, answers, k))
            && forall id :: id in store ==> (id !in after <==> IsTaken(root, token, store, ids, op, answers, id))
  {
    hide RemoveSession, IsFatal, Goes, FatalAt, IsTaken, Worth;
    var n := |ids| - 1;
    var last := ids[n];
    FatalExactly(root, token, between, last, op, answers(n));
    GoesExactly(root, token, between, last, op, answers(n));
    GoesExactly(root, token, store, last, op, answers(n));
    TakenSoFar(root, token, store, ids, op, answers, last);
    if last in between {
      GuardsAreLocal(root, token, store, between, last, op, answers(n));
    }
    if k: nat :| FatalAt(root, token, store, ids, op, answers, k) {
      FatalIsInside(root, token, store, ids, op, answers, k);
      assert k == n;
    }
    forall id | id in store
      ensures IsTaken(root, token, store, ids, op, answers, id) <==>
                IsTaken(root, token, store, ids[..n], op, answers, id)
                || (last == id && Goes(root, token, store, id, op, answers(n)))
    {
      TakenSoFar(root, token, store, ids, op, answers, id);
    }
  }

  /** Of the store as the call finds it: removal `j` takes this session, and none before it is fatal. */
  ghost predicate TakesAt(
    root: Path, token: seq<ApprovedItem>, store: Store, ids: seq<string>, op: OperationKind, answers: nat -> Answers,
    id: string, j: nat)
  {
    && j < |ids| && ids[j] == id && Goes(root, token, store, id, op, answers(j))
    && forall i: nat :: i < j ==> !FatalAt(root, token, store, ids, op, answers, i)
  }

  /** A removal takes this session before any ends the call. */
  ghost predicate TakenInTime(
    root: Path, token: seq<ApprovedItem>, store: Store, ids: seq<string>, op: OperationKind, answers: nat -> Answers,
    id: string)
  {
    exists j: nat :: TakesAt(root, token, store, ids, op, answers, id, j)
  }

  /** Which sessions a call takes, with a report or without. */
  lemma {:induction false} TakenExactly(
    root: Path, token: seq<ApprovedItem>, store: Store, ids: seq<string>, op: OperationKind, answers: nat -> Answers,
    id: string)
    requires id in store
    ensures id !in RemoveAll(root, token, store, ids, op, answers).1
            <==> TakenInTime(root, token, store, ids, op, answers, id)
    decreases |ids|
  {
    if ids != [] {
      hide RemoveAll, IsFatal, Goes, FatalAt, IsTaken, TakenInTime, Accounted;
      var n := |ids| - 1;
      var (before, between) := RemoveAll(root, token, store, ids[..n], op, answers);
      TakenExactly(root, token, store, ids[..n], op, answers, id);
      NoReportExactly(root, token, store, ids[..n], op, answers);
      RemoveAllIsAccounted(root, token, store, ids[..n], op, answers);
      TakesSoFar(root, token, store, ids, op, answers, id);
      LastTakes(root, token, store, ids, op, answers, id);
      if id in between {
        GuardsAreLocal(root, token, store, between, id, op, answers(n));
      }
    } else {
      NoneTaken(root, token, store, op, answers, id);
    }
  }

  lemma LastTakes(
    root: Path, token: seq<ApprovedItem>, store: Store, ids: seq<string>, op: OperationKind, answers: nat -> Answers,
    id: string)
    requires ids != []
    ensures var n := |ids| - 1;
            var (before, between) := RemoveAll(root, token, store, ids[..n], op, answers);
            id !in RemoveAll(root, token, store, ids, op, answers).1 <==>
              || id !in between
              || (before.Ok? && ids[n] == id && Goes(root, token, between, id, op, answers(n)))
  {
    hide RemoveSession, Goes;
    var n := |ids| - 1;
    GoesExactly(root, token, RemoveAll(root, token, store, ids[..n], op, answers).1, ids[n], op, answers(n));
  }

  lemma NoneTaken(
    root: Path, token: seq<ApprovedItem>, store: Store, op: OperationKind, answers: nat -> Answers, id: string)
    ensures !TakenInTime(root, token, store, [], op, answers, id)
  {
  }

  lemma TakesSoFar(
    root: Path, token: seq<ApprovedItem>, store: Store, ids: seq<string>, op: OperationKind, answers: nat -> Answers,
    id: string)
    requires ids != []
    ensures var n := |ids| - 1;
            TakenInTime(root, token, store, ids, op, answers, id) <==>
              || TakenInTime(root, token, store, ids[..n], op, answers, id)
              || (ids[n] == id && Goes(root, token, store, id, op, answers(n))
                  && forall k: nat :: !FatalAt(root, token, store, ids[..n], op, answers, k))
  {
    hide Goes, IsFatal, FatalAt, IsTaken;
    var n := |ids| - 1;
    TakenSoFar(root, token, store, ids, op, answers, id);
    forall k: nat | FatalAt(root, token, store, ids[..n], op, answers, k) ensures k < n {
      FatalIsInside(root, token, store, ids[..n], op, answers, k);
    }
    forall j: nat | j < n
      ensures TakesAt(root, token, store, ids, op, answers, id, j) <==>
              TakesAt(root, token, store, ids[..n], op, answers, id, j)
    {
      assert ids[..n][j] == ids[j];
    }
    assert TakesAt(root, token, store, ids, op, answers, id, n) <==>
        ids[n] == id && Goes(root, token, store, id, op, answers(n))
        && forall k: nat :: !FatalAt(root, token, store, ids[..n], op, answers, k);
  }

  /** A purge completes when its token covers every directory and what lies in them can be measured. */
  lemma CoveredPurgeCompletes(
    root: Path, token: seq<ApprovedItem>, store: Store, ids: seq<string>, op: OperationKind, answers: nat -> Answers)
    requires forall i :: 0 <= i < |ids| ==> Covered(token, root + [ids[i]])
    requires forall id :: id in ids && id in store ==>
               forall i :: 0 <= i < |store[id].items| ==> store[id].items[i].bytes.Ok?
    ensures RemoveAll(root, token, store, ids, op, answers).0.Ok?
  {
    NoReportExactly(root, token, store, ids, op, answers);
    hide RemoveAll, Covered, Vouched;
    forall k: nat ensures !FatalAt(root, token, store, ids, op, answers, k) {
      assert k < |ids| ==> ids[k] in ids;
    }
  }

  /** An expiry whose token covers every directory always completes, and so reports all it removed. */
  lemma {:induction false} CoveredExpiryCompletes(
    root: Path, token: seq<ApprovedItem>, store: Store, ids: seq<string>, answers: nat -> Answers)
    requires forall i :: 0 <= i < |ids| ==> Covered(token, root + [ids[i]])
    ensures RemoveAll(root, token, store, ids, Expire, answers).0.Ok?
    decreases |ids|
  {
    if ids != [] {
      hide RemoveSession;
      var n := |ids| - 1;
      CoveredExpiryCompletes(root, token, store, ids[..n], answers);
      var between := RemoveAll(root, token, store, ids[..n], Expire, answers).1;
      FatalExactly(root, token, between, ids[n], Expire, answers(n));
    }
  }

  /**
   * A call that ends in an error gives no report, yet keeps what it removed
   * before: it fails exactly when some removal is fatal, and leaves the store as
   * that removal found it.
   */
  lemma {:induction false} FailedCallStopsThere(
    root: Path, token: seq<ApprovedItem>, store: Store, ids: seq<string>, op: OperationKind, answers: nat -> Answers)
    returns (k: nat)
    requires RemoveAll(root, token, store, ids, op, answers).0.Err?
    ensures k < |ids| && FailsAt(root, token, store, ids, op, answers, k)
    ensures RemoveAll(root, token, store, ids, op, answers).1 == RemoveAll(root, token, store, ids[..k], op, answers).1
    decreases |ids|
  {
    hide RemoveSession;
    k := |ids| - 1;
    if RemoveAll(root, token, store, ids[..k], op, answers).0.Err? {
      var front := ids[..k];
      k := FailedCallStopsThere(root, token, store, front, op, answers);
      assert front[..k] == ids[..k];
    } else {
      var between := RemoveAll(root, token, store, ids[..k], op, answers).1;
      RemoveSessionExactly(root, token, between, ids[k], op, answers(k));
    }
  }

  lemma {:induction false} FatalRemovalFailsCall(
    root: Path, token: seq<ApprovedItem>, store: Store, ids: seq<string>, op: OperationKind, answers: nat -> Answers,
    k: nat)
    requires k < |ids| && FailsAt(root, token, store, ids, op, answers, k)
    ensures RemoveAll(root, token, store, ids, op, answers).0.Err?
    decreases |ids|
  {
    hide RemoveSession;
    var n := |ids| - 1;
    if k < n {
      var front := ids[..n];
      assert front[..k] == ids[..k] && front[k] == ids[k];
      FatalRemovalFailsCall(root, token, store, front, op, answers, k);
    }
  }

  /** The calls before `k` all completed and the one for `ids[k]` is fatal. */
  ghost predicate FailsAt(
    root: Path, token: seq<ApprovedItem>, store: Store, ids: seq<string>, op: OperationKind, answers: nat -> Answers,
    k: nat)
    requires k < |ids|
  {
    var (before, between) := RemoveAll(root, token, store, ids[..k], op, answers);
    before.Ok? && RemoveSession(root, token, between, ids[k], op, answers(k)).0.Err?
  }

  function EmptySession(id: string, inode: nat): SessionDir {
    SessionDir(1, inode, Written(Session(id, 0, 0, 0, 0, Complete, [])), [], [])
  }

  /** A purge whose token covers the first of two sessions only: the first is gone, and no report says so. */
  lemma PurgeCanLoseItsReport(root: Path, answers: nat -> Answers)
    requires answers(0) == answers(1) == Answers(None, Held, None, None, None)
    ensures var store := map["a" := EmptySession("a", 2), "b" := EmptySession("b", 3)];
            var token := [ApprovedPath(WritablePath(DirOf(root, "a"), 1, 2, true))];
            var (r, after) := RemoveAll(root, token, store, ["a", "b"], OperationKind.Purge, answers);
            r.Err? && "a" !in after && "b" in after
  {
    var store := map["a" := EmptySession("a", 2), "b" := EmptySession("b", 3)];
    var token := [ApprovedPath(WritablePath(DirOf(root, "a"), 1, 2, true))];
    var ids, op := ["a", "b"], OperationKind.Purge;
    assert ids[..1] == ["a"] && ["a"][..0] == [];
    assert DirOf(root, "a")[|root|] == "a" && DirOf(root, "b")[|root|] == "b";
    var first := RemoveSession(root, token, store, "a", op, answers(0));
    assert first.0.Ok? && first.1 == store - {"a"} by {
      FatalExactly(root, token, store, "a", op, answers(0));
      RemoveSessionExactly(root, token, store, "a", op, answers(0));
    }
    assert RemoveAll(root, token, store, [], op, answers) == (Ok([]), store);
    assert RemoveAll(root, token, store, ["a"], op, answers).1 == store - {"a"};
    assert IsFatal(root, token, store - {"a"}, "b", op, answers(1));
    FatalExactly(root, token, store - {"a"}, "b", op, answers(1));
  }

  // --------------------------------------------------- the store, step by step

  /** The disk's quarantine store; `Reclaim` is the shared body of `expire` and `purge`. */
  class QuarantineStore {
    var sessions: Store

    constructor (sessions: Store)
      ensures this.sessions == sessions
    {
      this.sessions := sessions;
    }

    method Reclaim(root: Path, token: seq<ApprovedItem>, ids: seq<string>, op: OperationKind, answers: nat -> Answers)
      returns (r: Result<ReclaimReport, BrozaError>)
      modifies this
      ensures sessions == RemoveAll(root, token, old(sessions), ids, op, answers).1
      ensures r.Ok? <==> RemoveAll(root, token, old(sessions), ids, op, answers).0.Ok?
      ensures r.Ok? ==> r.value == Report(op, RemoveAll(root, token, old(sessions), ids, op, answers).0.value)
    {
      hide RemoveSession;
      var removed: seq<Removed> := [];
      for n := 0 to |ids|
        invariant RemoveAll(root, token, old(sessions), ids[..n], op, answers) == (Ok(removed), sessions)
      {
        assert ids[..n + 1][..n] == ids[..n];
        var (one, after) := RemoveSession(root, token, sessions, ids[n], op, answers(n));
        sessions := after;
        if one.Err? {
          assert RemoveAll(root, token, old(sessions), ids[..n + 1], op, answers) == (Err(one.error), sessions);
          StaysFailed(root, token, old(sessions), ids, op, answers, n + 1);
          return Err(one.error);
        }
        removed := removed + [one.value];
      }
      assert ids[..|ids|] == ids;
      r := Ok(Report(op, removed));
    }
  }

  lemma {:induction false} StaysFailed(
    root: Path, token: seq<ApprovedItem>, store: Store, ids: seq<string>, op: OperationKind, answers: nat -> Answers,
    k: nat)
    requires k <= |ids| && RemoveAll(root, token, store, ids[..k], op, answers).0.Err?
    ensures RemoveAll(root, token, store, ids, op, answers) == RemoveAll(root, token, store, ids[..k], op, answers)
    decreases |ids|
  {
    hide RemoveSession;
    if k < |ids| {
      var front := ids[..|ids| - 1];
      assert front[..k] == ids[..k];
      StaysFailed(root, token, store, front, op, answers, k);
    } else {
      assert ids[..k] == ids;
    }
  }
}
