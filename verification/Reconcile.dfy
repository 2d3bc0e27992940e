/** Making a manifest agree with what is really under `items/`. */
module Reconcile {
  import opened Wrappers
  import opened Bytes
  import opened Paths
  import opened Model
  import opened Entries
  import opened Layout
  import opened Placement

  /**
   * Every `items/<seq>/<name>`, and anything directly under `items/` that is not
   * a sequence directory.
   */
  function StoredItems(t: Tree, dir: Path): set<Path> {
    set p | p in t && ItemsDir(dir) <= p
            && (|p| == |dir| + 3 || (|p| == |dir| + 2 && !t[p].isDir))
  }

  function Settle(entry: QuarantineEntry, onDisk: set<Path>): QuarantineEntry {
    if entry.status != MOVING then entry
    else if entry.stored.Some? && entry.stored.value in onDisk then
      entry.(status := Quarantined, error := None)
    else entry.(stored := None, status := Failed, error := Some(IoError))
  }

  function Settled(entries: seq<QuarantineEntry>, onDisk: set<Path>): (s: seq<QuarantineEntry>)
    ensures |s| == |entries| && forall i :: 0 <= i < |s| ==> s[i] == Settle(entries[i], onDisk)
  {
    seq(|entries|, i requires 0 <= i < |entries| => Settle(entries[i], onDisk))
  }

  datatype Reconciled = Reconciled(session: Session, orphans: set<Path>)

  /** `reconcile`: entries in flight settled against the disk, and what no entry accounts for. */
  function ReconcileSession(s: Session, onDisk: set<Path>): Reconciled {
    var entries := Settled(s.entries, onDisk);
    Reconciled(
      WithEntries(s, entries),
      set p | p in onDisk && forall i :: 0 <= i < |entries| ==> entries[i].stored != Some(p))
  }

  /** What reading makes of an entry, from what is on disk. */
  ghost predicate ReadsAs(was: QuarantineEntry, onDisk: set<Path>, entry: QuarantineEntry) {
    var arrived := was.stored.Some? && was.stored.value in onDisk;
    && entry == was.(stored := entry.stored, status := entry.status, error := entry.error)
    && (was.status != MOVING ==> entry == was)
    && (was.status == MOVING ==>
          && (entry.status == Quarantined <==> arrived) && (entry.status == Failed <==> !arrived)
          && entry.stored == (if arrived then was.stored else None)
          && entry.error == (if arrived then None else Some(IoError)))
  }

  /**
   * Reading settles what was in flight by where it is, and that alone: there it is
   * `quarantined`, not there it is `failed` and holds nothing. The orphans are what
   * is on disk and no entry of the manifest names. Nothing else of the session
   * changes but its totals.
   */
  lemma ReconcileExactly(s: Session, onDisk: set<Path>)
    ensures var read := ReconcileSession(s, onDisk);
            && |read.session.entries| == |s.entries|
            && (forall i :: 0 <= i < |s.entries| ==> ReadsAs(s.entries[i], onDisk, read.session.entries[i]))
            && (forall p :: p in read.orphans <==>
                  p in onDisk && forall i :: 0 <= i < |s.entries| ==> s.entries[i].stored != Some(p))
            && read.session.total == Cap(Sum(StoredSizes(read.session.entries)))
            && read.session.itemCount == |s.entries|
            && s == read.session.(entries := s.entries, total := s.total, itemCount := s.itemCount)
  {
    HeldExactly(Settled(s.entries, onDisk));
    hide HeldBytes;
  }

  /** A file right under `items/` is nothing a run put there: it is an orphan unless an entry names it. */
  lemma StrayIsFound(s: Session, t: Tree, dir: Path, p: Path)
    requires p in t && !t[p].isDir && ItemsDir(dir) <= p && |p| == |ItemsDir(dir)| + 1
    requires forall i :: 0 <= i < |s.entries| ==> s.entries[i].stored != Some(p)
    ensures p in ReconcileSession(s, StoredItems(t, dir)).orphans
  {
    ReconcileExactly(s, StoredItems(t, dir));
    hide ReconcileSession;
  }

  /** Reading settles once: a second read of the same disk changes nothing more. */
  lemma ReconcileIsIdempotent(s: Session, onDisk: set<Path>)
    ensures var once := ReconcileSession(s, onDisk);
            ReconcileSession(once.session, onDisk) == once
  {
    var entries := Settled(s.entries, onDisk);
    assert Settled(entries, onDisk) == entries;
  }
}
