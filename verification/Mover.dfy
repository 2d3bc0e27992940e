/**
 * Moving approved items into a session so that a crash at any point leaves a
 * store a later run can read. The disk records an image after every primitive
 * step; a crash shows the world the last image, so what holds of every image
 * holds after every crash. A power cut may leave less of it than that.
 */
module Mover {
  import opened Wrappers
  import opened Bytes
  import opened Paths
  import opened Model
  import opened Entries
  import opened Attempt
  import opened Layout
  import opened Placement
  import opened Reconcile

  /** What a crash of the process leaves: the tree, and the manifest `write_atomic` last put in place. */
  datatype Image = Image(tree: Tree, manifest: Option<Session>)

  // ------------------------------------------------------- crash safety, stated

  /** The on-disk entry of item `k` names where its object is, or that it is in flight and where to. */
  ghost predicate EntryTells(w: World, k: nat, fate: Fate, entry: QuarantineEntry)
    requires k < |w.paths| && k < |w.slots|
  {
    && entry.original == w.paths[k]
    && (fate == Stored ==>
          entry.stored == Some(w.Home(k)) && (entry.status == MOVING || entry.status == Quarantined) && entry.error.None?)
    && (fate == Stays ==>
          || (entry.stored.None? && entry.status != MOVING && entry.status != Quarantined)
          || (entry.stored == Some(w.Home(k)) && entry.status == MOVING && entry.error.None?))
  }

  /** The manifest describes the fates, and its total is the bytes of the entries with a stored path. */
  ghost predicate ManifestTells(w: World, fates: seq<Fate>, m: Session)
    requires |fates| == |w.paths| == |w.slots|
  {
    && |m.entries| == |w.paths|
    && m.total == HeldBytes(m.entries) && m.itemCount == |m.entries| && ValidManifest(m)
    && forall k :: 0 <= k < |w.paths| ==> EntryTells(w, k, fates[k], m.entries[k])
  }

  /** A move removes nothing, and only what was there has moved. */
  ghost predicate FatesTold(w: World, fates: seq<Fate>)
    requires |fates| == |w.paths|
  {
    forall k :: 0 <= k < |fates| ==> fates[k] != Gone && (fates[k] == Stored ==> w.paths[k] in w.start)
  }

  ghost predicate ImageTells(w: World, fates: seq<Fate>, image: Image) {
    && Placed(w, fates, image.tree)
    && FatesTold(w, fates)
    && (image.manifest.None? ==> forall k :: 0 <= k < |fates| ==> fates[k] == Stays)
    && (image.manifest.Some? ==> ManifestTells(w, fates, image.manifest.value))
  }

  ghost predicate CrashSafe(w: World, image: Image) {
    exists fates :: ImageTells(w, fates, image)
  }

  // -------------------------------------------------- each step keeps it

  lemma EntryReplaced(w: World, fates: seq<Fate>, after: seq<Fate>, m: Session, k: nat, entry: QuarantineEntry)
    requires |fates| == |after| == |w.paths| == |w.slots| && k < |w.paths|
    requires ManifestTells(w, fates, m) && EntryTells(w, k, after[k], entry)
    requires forall j :: 0 <= j < |fates| && j != k ==> after[j] == fates[j]
    ensures ManifestTells(w, after, WithEntry(m, k, entry))
  {
  }

  /** Announcing: the entry says `moving`, the object has not left. */
  lemma AnnounceSafe(w: World, fates: seq<Fate>, t: Tree, m: Session, k: nat, size: u64)
    requires ImageTells(w, fates, Image(t, Some(m))) && k < |w.paths| && fates[k] == Stays
    ensures var next := WithEntry(m, k, InFlight(m.entries[k], w.Home(k), size));
            && ImageTells(w, fates, Image(t, Some(next)))
            && next.entries[k]
               == m.entries[k].(stored := Some(w.Home(k)), status := MOVING, size := size, error := None)
  {
    EntryReplaced(w, fates, fates, m, k, InFlight(m.entries[k], w.Home(k), size));
  }

  lemma RenameTells(w: World, fates: seq<Fate>, t: Tree, m: Session, k: nat)
    requires w.Ready() && |fates| == |w.paths| == |w.slots| && k < |w.paths| && fates[k] == Stays
    requires Placed(w, fates, t) && FatesTold(w, fates) && ManifestTells(w, fates, m)
    requires m.entries[k].stored == Some(w.Home(k)) && m.entries[k].status == MOVING && w.paths[k] in t
    ensures Free(t, w.Home(k))
    ensures ImageTells(w, fates[k := Stored], Image(Renamed(t, w.paths[k], w.Home(k)), Some(m)))
  {
    hide IsAt, Renamed, World.Ready, HeldBytes, Free, Placed, ManifestTells, FatesTold;
    ArrivalPlaced(w, fates, t, k);
    ArrivalTold(w, fates, m, k);
  }

  /** The rename: the object arrives where the announced entry already says. */
  lemma RenameSafe(w: World, fates: seq<Fate>, t: Tree, m: Session, k: nat)
    requires w.Ready() && ImageTells(w, fates, Image(t, Some(m))) && k < |w.paths| && fates[k] == Stays
    requires m.entries[k].stored == Some(w.Home(k)) && m.entries[k].status == MOVING && w.paths[k] in t
    ensures Free(t, w.Home(k))
    ensures ImageTells(w, fates[k := Stored], Image(Renamed(t, w.paths[k], w.Home(k)), Some(m)))
    ensures CrashSafe(w, Image(t, Some(m)))
    ensures CrashSafe(w, Image(Renamed(t, w.paths[k], w.Home(k)), Some(m)))
  {
    assert |fates| == |w.paths| == |w.slots| && Placed(w, fates, t) && FatesTold(w, fates) && ManifestTells(w, fates, m);
    hide CrashSafe, World.Ready, Free, Renamed, Placed, FatesTold, ManifestTells;
    RenameTells(w, fates, t, m, k);
    hide ImageTells;
    TellsIsSafe(w, fates, Image(t, Some(m)));
    TellsIsSafe(w, fates[k := Stored], Image(Renamed(t, w.paths[k], w.Home(k)), Some(m)));
  }

  lemma ArrivalPlaced(w: World, fates: seq<Fate>, t: Tree, k: nat)
    requires w.Ready() && |fates| == |w.paths| && Placed(w, fates, t) && k < |w.paths| && fates[k] == Stays
    requires w.paths[k] in t && FatesTold(w, fates)
    ensures Free(t, w.Home(k)) && FatesTold(w, fates[k := Stored])
    ensures Placed(w, fates[k := Stored], Renamed(t, w.paths[k], w.Home(k)))
  {
    hide IsAt, Renamed, World.Ready;
    MoveKeeps(w, fates, t, k);
    StaysBelow(w, fates, t, k, w.paths[k]);
  }

  lemma ArrivalTold(w: World, fates: seq<Fate>, m: Session, k: nat)
    requires |fates| == |w.paths| == |w.slots| && k < |w.paths| && ManifestTells(w, fates, m) && fates[k] == Stays
    requires m.entries[k].stored == Some(w.Home(k)) && m.entries[k].status == MOVING
    ensures ManifestTells(w, fates[k := Stored], m)
  {
  }

  /** Recording: a moved item's entry becomes `quarantined`, a refused one's forgets the stored path. */
  lemma RecordSafe(w: World, fates: seq<Fate>, t: Tree, m: Session, k: nat, a: Attempt)
    requires ImageTells(w, fates, Image(t, Some(m))) && k < |w.paths|
    requires a.Moved? ==> fates[k] == Stored && a.stored == w.Home(k)
    requires a.Refused? ==> fates[k] == Stays && a.status.IsUnsuccessful()
    ensures ImageTells(w, fates, Image(t, Some(WithEntry(m, k, UpdatedEntry(m.entries[k], a)))))
  {
    EntryReplaced(w, fates, fates, m, k, UpdatedEntry(m.entries[k], a));
  }

  lemma CreateSafe(w: World, fates: seq<Fate>, t: Tree, m: Option<Session>, more: Tree)
    requires ImageTells(w, fates, Image(t, m))
    requires forall d :: d in more ==> Made(w, more, d) && d !in t
    ensures ImageTells(w, fates, Image(t + more, m))
  {
    CreateKeeps(w, fates, t, more);
  }

  // ------------------------------------------------ what crash safety is worth

  /** What is on disk under `items/` is exactly the homes of the items that moved. */
  lemma OnDiskIsWhatMoved(w: World, fates: seq<Fate>, t: Tree, p: Path)
    requires w.Ready() && Placed(w, fates, t)
    requires forall k :: 0 <= k < |fates| ==> fates[k] != Gone && (fates[k] == Stored ==> w.paths[k] in w.start)
    ensures p in StoredItems(t, w.session) <==>
            exists k :: 0 <= k < |fates| && fates[k] == Stored && p == w.Home(k)
  {
    forall k | 0 <= k < |fates| && fates[k] == Stored && p == w.Home(k) ensures p in StoredItems(t, w.session) {
      ExactlyOnePlace(w, fates, t, k);
      HomesApart(w, k, p);
    }
    if p in StoredItems(t, w.session) {
      var q :| q in w.start && IsAt(w, fates, q, p);
      var j := WhereIs(w, fates, q, p);
      assert |w.Home(j)| == |w.session| + 3 && w.Home(j) <= p;
      assert p == w.Home(j);
    }
  }

  /**
   * After a crash at any step, every approved object that was there is at
   * exactly one of its original path and the stored path its on-disk entry
   * names, and it is the node it was.
   */
  lemma CrashKeepsOnePlace(w: World, image: Image)
    requires w.Ready() && CrashSafe(w, image)
    ensures forall k :: 0 <= k < |w.paths| && w.paths[k] in w.start ==> OnePlace(w, image, k)
  {
    var fates :| ImageTells(w, fates, image);
    forall k | 0 <= k < |w.paths| && w.paths[k] in w.start ensures OnePlace(w, image, k) {
      ExactlyOnePlace(w, fates, image.tree, k);
    }
  }

  /** Everything that is no item's, nor inside one, is untouched by a run that crashed anywhere. */
  lemma CrashDisturbsNothingElse(w: World, image: Image, q: Path)
    requires w.Ready() && CrashSafe(w, image) && q in w.start
    requires forall k: nat :: !w.Covers(k, q)
    ensures q in image.tree && image.tree[q] == w.start[q]
  {
    var fates :| ImageTells(w, fates, image);
    assert IsAt(w, fates, q, q);
  }

  /**
   * Reading the session after a crash settles every entry to where its object
   * is, leaves none in flight, finds no orphan, and totals what the store holds.
   */
  lemma CrashReadsBack(w: World, image: Image)
    requires w.Ready() && CrashSafe(w, image) && image.manifest.Some?
    ensures image.manifest.value.total == Cap(Sum(StoredSizes(image.manifest.value.entries)))
    ensures var read := ReconcileSession(image.manifest.value, StoredItems(image.tree, w.session));
            && read.orphans == {}
            && read.session.total == Cap(Sum(StoredSizes(read.session.entries)))
            && |read.session.entries| == |w.paths|
            && (read.session.id, read.session.state) == (image.manifest.value.id, image.manifest.value.state)
            && forall k :: 0 <= k < |w.paths| ==> SettledTo(w, image, k, read.session.entries[k])
  {
    var m, onDisk := image.manifest.value, StoredItems(image.tree, w.session);
    ReconcileExactly(m, onDisk);
    HeldExactly(m.entries);
    var fates :| ImageTells(w, fates, image);
    Lengths(w, fates, image);
    TotalTold(w, fates, image.tree, m);
    hide HeldBytes, StoredSizes, Sum, World.Ready, ReconcileSession, ImageTells, CrashSafe, SettledTo;
    var read := ReconcileSession(m, onDisk);
    forall k | 0 <= k < |w.paths| ensures SettledTo(w, image, k, read.session.entries[k]) {
      EntryReadsBack(w, fates, image, k, read.session.entries[k]);
    }
    forall p | p in onDisk ensures p !in read.orphans {
      StoredIsNamed(w, fates, image, p);
    }
  }

  lemma EntryReadsBack(w: World, fates: seq<Fate>, image: Image, k: nat, entry: QuarantineEntry)
    requires w.Ready() && ImageTells(w, fates, image) && image.manifest.Some? && k < |w.paths|
    requires |w.slots| == |w.paths| == |image.manifest.value.entries|
    requires ReadsAs(image.manifest.value.entries[k], StoredItems(image.tree, w.session), entry)
    ensures SettledTo(w, image, k, entry)
  {
    hide HeldBytes, IsAt, Placed, World.Ready;
    Lengths(w, fates, image);
    OnDiskIsWhatMoved(w, fates, image.tree, w.Home(k));
    StayedIsNotOnDisk(w, fates, image.tree, k);
  }

  lemma StoredIsNamed(w: World, fates: seq<Fate>, image: Image, p: Path)
    requires w.Ready() && ImageTells(w, fates, image) && image.manifest.Some?
    requires p in StoredItems(image.tree, w.session)
    ensures var entries := image.manifest.value.entries;
            exists k :: 0 <= k < |entries| && entries[k].stored == Some(p)
  {
    hide HeldBytes, IsAt, Placed, World.Ready;
    Lengths(w, fates, image);
    OnDiskIsWhatMoved(w, fates, image.tree, p);
  }

  lemma StayedIsNotOnDisk(w: World, fates: seq<Fate>, t: Tree, k: nat)
    requires w.Ready() && Placed(w, fates, t) && k < |w.paths|
    ensures fates[k] != Stored ==> w.Home(k) !in t
    ensures fates[k] == Stored && w.paths[k] in w.start ==> w.Home(k) in t
  {
    if fates[k] != Stored {
      HomeFree(w, fates, t, k);
    } else if w.paths[k] in w.start {
      ExactlyOnePlace(w, fates, t, k);
    }
  }

  /** The object of item `k` is in one place only, as the node it always was, and the entry names that place. */
  ghost predicate OnePlace(w: World, image: Image, k: nat)
    requires |w.slots| == |w.paths| && k < |w.paths| && w.paths[k] in w.start
  {
    var t, here, there := image.tree, w.paths[k], w.Home(k);
    || (here in t && t[here] == w.start[here] && there !in t)
    || (there in t && t[there] == w.start[here] && here !in t
        && image.manifest.Some? && k < |image.manifest.value.entries|
        && image.manifest.value.entries[k].stored == Some(there))
  }

  /**
   * A settled entry says `quarantined`, and where, exactly when its object is
   * there. One in flight whose object is not there says that it failed; one that
   * was not in flight is as it was.
   */
  ghost predicate SettledTo(w: World, image: Image, k: nat, entry: QuarantineEntry)
    requires |w.slots| == |w.paths| && k < |w.paths|
  {
    && image.manifest.Some? && k < |image.manifest.value.entries|
    && var was := image.manifest.value.entries[k];
    && entry.original == w.paths[k] && entry.status != MOVING
    && (entry.status == Quarantined <==> w.Home(k) in image.tree)
    && entry.stored == (if w.Home(k) in image.tree then Some(w.Home(k)) else None)
    && (w.Home(k) in image.tree ==> entry.error.None?)
    && (was.status == MOVING && w.Home(k) !in image.tree ==> entry.status == Failed && entry.error == Some(IoError))
    && (was.status != MOVING ==> entry == was)
    && entry == was.(stored := entry.stored, status := entry.status, error := entry.error)
  }

  // ------------------------------------------------------- when the power goes

  /** Some renames into the store were never written out; every other fate stands. */
  ghost predicate Undone(fates: seq<Fate>, kept: seq<Fate>) {
    && |kept| == |fates|
    && forall k :: 0 <= k < |fates| ==> kept[k] == fates[k] || (fates[k] == Stored && kept[k] == Stays)
  }

  /** What a power cut may leave of an image: its manifest, which is synced, without some of the renames, which are not. */
  ghost predicate CutLeaves(w: World, image: Image, left: Image) {
    && left.manifest == image.manifest
    && exists fates, kept :: ImageTells(w, fates, image) && Undone(fates, kept) && Placed(w, kept, left.tree)
  }

  /** An entry that says `quarantined` where nothing is. */
  predicate SaysStored(w: World, left: Image, k: nat)
    requires |w.slots| == |w.paths| && k < |w.paths|
  {
    && left.manifest.Some? && k < |left.manifest.value.entries| && w.Home(k) !in left.tree
    && var entry := left.manifest.value.entries[k]; entry.stored.Some? && entry.status == Quarantined
  }

  /** A power cut loses nothing: every object is at exactly one of its two places, and named there if it is in the store. */
  lemma CutKeepsOnePlace(w: World, image: Image, left: Image)
    requires w.Ready() && CutLeaves(w, image, left)
    ensures forall k :: 0 <= k < |w.paths| && w.paths[k] in w.start ==> OnePlace(w, left, k)
    ensures forall q :: q in w.start && (forall k: nat :: !w.Covers(k, q)) ==> q in left.tree && left.tree[q] == w.start[q]
  {
    var fates, kept :| ImageTells(w, fates, image) && Undone(fates, kept) && Placed(w, kept, left.tree);
    hide World.Ready, HeldBytes;
    forall k | 0 <= k < |w.paths| && w.paths[k] in w.start ensures OnePlace(w, left, k) {
      hide Placed, IsAt;
      ExactlyOnePlace(w, kept, left.tree, k);
    }
    forall q | q in w.start && (forall k: nat :: !w.Covers(k, q)) ensures q in left.tree && left.tree[q] == w.start[q] {
      assert IsAt(w, kept, q, q);
    }
  }

  /**
   * But reading settles only entries in flight: after a power cut it is right about
   * an item exactly when its entry does not say `quarantined` where nothing is. No
   * stored item is left without an entry.
   */
  lemma CutReadsBackExactly(w: World, image: Image, left: Image)
    requires w.Ready() && CutLeaves(w, image, left) && left.manifest.Some?
    ensures var read := ReconcileSession(left.manifest.value, StoredItems(left.tree, w.session));
            && read.orphans == {} && |read.session.entries| == |w.paths|
            && forall k :: 0 <= k < |w.paths| ==>
                 (SettledTo(w, left, k, read.session.entries[k]) <==> !SaysStored(w, left, k))
  {
    hide HeldBytes, IsAt, Placed, World.Ready;
    var fates, kept :| ImageTells(w, fates, image) && Undone(fates, kept) && Placed(w, kept, left.tree);
    Lengths(w, fates, image);
    var t, onDisk := left.tree, StoredItems(left.tree, w.session);
    var read := ReconcileSession(left.manifest.value, onDisk);
    forall k | 0 <= k < |w.paths|
      ensures SettledTo(w, left, k, read.session.entries[k]) <==> !SaysStored(w, left, k)
      ensures kept[k] == Stored ==> read.session.entries[k].stored == Some(w.Home(k))
    {
      OnDiskIsWhatMoved(w, kept, t, w.Home(k));
      StayedIsNotOnDisk(w, kept, t, k);
    }
    forall p | p in onDisk ensures p !in read.orphans {
      OnDiskIsWhatMoved(w, kept, t, p);
    }
  }

  /** Manifest `m` with the move of item `k` recorded. */
  function RecordedMove(w: World, m: Session, k: nat): Session
    requires k < |w.paths| && k < |w.slots| && k < |m.entries|
  {
    WithEntry(m, k, UpdatedEntry(m.entries[k], Moved(w.Home(k), m.entries[k].size, Exclusive)))
  }

  /** A power cut after item `k` was moved and its manifest written leaves the manifest and no move. */
  ghost predicate CutMisleads(w: World, m: Session, k: nat)
    requires |w.slots| == |w.paths| && k < |w.paths|
  {
    && Free(w.start, w.Home(k))
    && CutLeaves(w, Image(Renamed(w.start, w.paths[k], w.Home(k)), Some(m)), Image(w.start, Some(m)))
    && SaysStored(w, Image(w.start, Some(m)), k)
  }

  /** And that happens: the record of a move can outlive the move. */
  lemma CutCanMislead(w: World, m: Session, k: nat)
    requires w.Ready() && k < |w.paths| && w.paths[k] in w.start && NewSession(w, m)
    ensures |w.slots| == |w.paths| == |m.entries| && CutMisleads(w, RecordedMove(w, m, k), k)
  {
    hide World.Ready, HeldBytes, ManifestTells, Placed, IsAt, Renamed, NewSession, Free, CutLeaves, SaysStored,
      RecordedMove;
    var stays, gone := seq(|w.paths|, _ => Stays), seq(|w.paths|, _ => Stays)[k := Stored];
    RecordedTells(w, m, k);
    PlacedAtStart(w);
    HomeFree(w, stays, w.start, k);
    MoveKeeps(w, stays, w.start, k);
    CutOf(w, gone, stays, Image(Renamed(w.start, w.paths[k], w.Home(k)), Some(RecordedMove(w, m, k))), w.start);
  }

  lemma RecordedTells(w: World, m: Session, k: nat)
    requires w.Ready() && k < |w.paths| && NewSession(w, m)
    ensures |w.slots| == |w.paths| == |m.entries|
    ensures var recorded := RecordedMove(w, m, k);
            && ManifestTells(w, seq(|w.paths|, _ => Stays)[k := Stored], recorded)
            && SaysStored(w, Image(w.start, Some(recorded)), k)
  {
    hide HeldBytes;
    var stays := seq(|w.paths|, _ => Stays);
    PlacedAtStart(w);
    HomeFree(w, stays, w.start, k);
    assert ManifestTells(w, stays, m);
    var entry := UpdatedEntry(m.entries[k], Moved(w.Home(k), m.entries[k].size, Exclusive));
    EntryReplaced(w, stays, stays[k := Stored], m, k, entry);
  }

  lemma CutOf(w: World, fates: seq<Fate>, kept: seq<Fate>, image: Image, t: Tree)
    requires ImageTells(w, fates, image) && Undone(fates, kept) && Placed(w, kept, t)
    ensures CutLeaves(w, image, Image(t, image.manifest))
  {
  }

  // ---------------------------------------------------------------- the disk

  /**
   * The filesystem the mover works on. Each method is one port call: it may
   * refuse for reasons of its own, which `faults` counts, and it appends the
   * image a crash right after each of its steps would leave.
   */
  class Disk {
    var tree: Tree
    var manifest: Option<Session>
    ghost var history: seq<Image>
    ghost var faults: nat

    constructor (tree: Tree)
      ensures this.tree == tree && manifest == None && history == [Image(tree, None)] && faults == 0
    {
      this.tree, manifest, history, faults := tree, None, [Image(tree, None)], 0;
    }

    method Stat(path: Path) returns (r: Result<Metadata, BrozaError>)
      modifies this`faults
      ensures faults >= old(faults)
      ensures faults == old(faults) ==> if path in tree then r.Ok? else r == Err(TargetNotFound)
      ensures r.Ok? ==>
                && path in tree && r.value.device == tree[path].device
                && r.value.inode == tree[path].inode && r.value.isDir == tree[path].isDir
      ensures path !in tree ==> r == Err(TargetNotFound) || r == Err(PermissionDenied)
    {
      var denied: bool := *;
      if denied {
        faults := faults + 1;
        return Err(PermissionDenied);
      }
      if path !in tree {
        return Err(TargetNotFound);
      }
      var blocks: u64, links: nat, clone: Option<nat> := *, *, *;
      return Ok(Metadata(tree[path].device, tree[path].inode, tree[path].isDir, blocks, links, clone));
    }

    /** `measure_dir_bytes`: some figure, or the failure of the walk. */
    method Measure(path: Path) returns (r: Result<u64, BrozaError>)
      modifies this`faults
      ensures faults >= old(faults) && (faults == old(faults) ==> r.Ok?)
    {
      r := *;
      if !r.Ok? {
        faults := faults + 1;
      }
    }

    /** `manifest::write`: atomic, so a failure leaves the old contents or the new. */
    method WriteManifest(session: Session) returns (failed: Option<BrozaError>)
      modifies this
      ensures tree == old(tree)
      ensures failed.None? ==> manifest == Some(session) && ValidManifest(session)
      ensures failed.Some? ==> manifest == old(manifest) || manifest == Some(session)
      ensures !ValidManifest(session) ==> failed == Some(Other) && manifest == old(manifest)
      ensures history == old(history) + [Image(tree, manifest)]
      ensures faults >= old(faults) && (faults == old(faults) && ValidManifest(session) ==> failed.None?)
    {
      failed := *;
      if !failed.None? {
        faults := faults + 1;
      }
      var replaced: bool := *;
      if !ValidManifest(session) {
        failed, replaced := Some(Other), false;
      }
      if failed.None? || replaced {
        manifest := Some(session);
      }
      history := history + [Image(tree, manifest)];
    }

    /** One `mkdir`, if the directory is missing and the kernel allows it. */
    method MakeDir(path: Path) returns (failed: Option<BrozaError>)
      modifies this
      ensures manifest == old(manifest)
      ensures failed.None? ==> path in tree && tree[path].isDir
      ensures tree == old(tree)
              || (path !in old(tree) && exists n: Node :: n.isDir && tree == old(tree) + map[path := n])
      ensures history == old(history) + [Image(tree, manifest)]
      ensures faults >= old(faults)
      ensures faults == old(faults) && (path in old(tree) ==> old(tree)[path].isDir) ==> failed.None?
    {
      failed := *;
      if !failed.None? {
        faults := faults + 1;
      }
      if path in tree {
        failed := if tree[path].isDir then None else Some(AlreadyExists);
      } else if failed.None? {
        var device: nat, inode: nat := *, *;
        tree := tree + map[path := Node(device, inode, true)];
      }
      history := history + [Image(tree, manifest)];
    }

    /** `rename_exclusive`: refuses anything already at the destination; onto itself it moves nothing. */
    method RenameExclusive(from: Path, to: Path) returns (r: Result<RenameMode, BrozaError>)
      modifies this
      ensures manifest == old(manifest)
      ensures r.Err? ==> tree == old(tree)
      ensures r.Ok? ==>
                && from in old(tree)
                && if from == to then tree == old(tree)
                   else Free(old(tree), to) && tree == Renamed(old(tree), from, to)
      ensures history == old(history) + [Image(tree, manifest)]
      ensures faults >= old(faults)
      ensures faults == old(faults) && from in old(tree) && Free(old(tree), to) && !(from <= to) ==> r.Ok?
      ensures from !in old(tree) ==> r == Err(TargetNotFound)
      ensures from in old(tree) && from != to && !Free(old(tree), to) ==> r == Err(AlreadyExists)
    {
      r := *;
      if !r.Ok? {
        faults := faults + 1;
      }
      if from !in tree {
        r := Err(TargetNotFound);
      } else if from == to {
        r := Ok(Exclusive);
      } else if exists q :: q in tree && to <= q {
        r := Err(AlreadyExists);
      } else if from <= to {
        r := Err(IoFailure);
      } else if r.Ok? {
        tree := Renamed(tree, from, to);
      }
      history := history + [Image(tree, manifest)];
    }

    /** `create_dir_all` of an item's directory: `items/` first, then the numbered one. */
    method CreateItemDir(destination: Destination, ghost w: World, ghost fates: seq<Fate>)
      returns (failed: Option<BrozaError>)
      requires w.Ready() && ImageTells(w, fates, Image(tree, manifest))
      requires destination.sessionDir == w.session
      requires w.Created(ItemDir(w.session, destination.sequence))
      modifies this
      ensures manifest == old(manifest)
      ensures faults >= old(faults) && (faults == old(faults) ==> failed.None?)
      ensures failed.None? ==> ItemDir(w.session, destination.sequence) in tree
      ensures forall p :: p in old(tree) ==> p in tree && tree[p] == old(tree)[p]
      ensures ImageTells(w, fates, Image(tree, manifest))
      ensures |history| >= |old(history)| && history[..|old(history)|] == old(history)
      ensures forall i :: |old(history)| <= i < |history| ==> CrashSafe(w, history[i])
    {
      hide Placed, ManifestTells, World.Ready, HeldBytes, ImageTells, CrashSafe;
      var items := ItemsDir(destination.sessionDir);
      PlacedOf(w, fates, Image(tree, manifest));
      CreatedIsDir(w, fates, tree, items);
      failed := MakeDir(items);
      MadeSafe(w, fates, old(tree), tree, manifest, items);
      if failed.None? {
        label L:
        var item_dir := ItemDir(destination.sessionDir, destination.sequence);
        PlacedOf(w, fates, Image(tree, manifest));
        CreatedIsDir(w, fates, tree, item_dir);
        failed := MakeDir(item_dir);
        MadeSafe(w, fates, old@L(tree), tree, manifest, item_dir);
      }
    }

    /** `move_into`: the item's directory, then the rename into it. */
    method MoveIntoStore(item: WritablePath, destination: Destination, size: u64, ghost w: World, ghost k: nat,
                         ghost fates: seq<Fate>)
      returns (attempt: Attempt)
      requires w.Ready() && k < |w.paths| && item.path == w.paths[k]
      requires destination.sessionDir == w.session && destination.sequence == w.slots[k]
      requires manifest.Some? && ImageTells(w, fates, Image(tree, manifest)) && fates[k] == Stays
      requires manifest.value.entries[k].stored == Some(w.Home(k)) && manifest.value.entries[k].status == MOVING
      modifies this
      ensures manifest == old(manifest)
      ensures attempt.Moved? ==> attempt.stored == w.Home(k) && attempt.size == size
      ensures attempt.Refused? ==> attempt.status == Failed
      ensures faults >= old(faults)
      ensures faults == old(faults) && item.path in old(tree) ==> attempt.Moved?
      ensures ImageTells(w, if attempt.Moved? then fates[k := Stored] else fates, Image(tree, manifest))
      ensures |history| >= |old(history)| && history[..|old(history)|] == old(history)
      ensures forall i :: |old(history)| <= i < |history| ==> CrashSafe(w, history[i])
    {
      hide Placed, ManifestTells, World.Ready, Renamed, HeldBytes, ImageTells, Free, CrashSafe;
      Lengths(w, fates, Image(tree, manifest));
      var failed := CreateItemDir(destination, w, fates);
      if failed.Some? {
        return FailedIo(failed.value);
      }
      var stored := destination.StoredPathOf(item.path);
      HomeIsElsewhere(w, k);
      PlacedOf(w, fates, Image(tree, manifest));
      HomeFree(w, fates, tree, k);
      ghost var before := tree;
      var renamed := RenameExclusive(item.path, stored);
      if renamed.Ok? {
        RenameSafe(w, fates, before, manifest.value, k);
      } else {
        TellsIsSafe(w, fates, Image(tree, manifest));
      }
      attempt := MoveInto(item, destination, size, None, renamed);
    }

    /** A manifest write between two manifests that both tell the truth. */
    method Persist(next: Session, ghost w: World, ghost fates: seq<Fate>) returns (failed: Option<BrozaError>)
      requires manifest.Some? && ImageTells(w, fates, Image(tree, manifest))
      requires ImageTells(w, fates, Image(tree, Some(next)))
      modifies this
      ensures tree == old(tree) && (failed.None? ==> manifest == Some(next))
      ensures history == old(history) + [Image(tree, manifest)] && CrashSafe(w, Image(tree, manifest))
      ensures faults >= old(faults) && (faults == old(faults) ==> failed.None?)
    {
      assert ValidManifest(next);
      hide ImageTells;
      TellsEither(w, fates, tree, manifest.value, next);
      failed := WriteManifest(next);
    }

    /** An item that passed the precheck: its entry announced as in flight, then the move itself. */
    method AnnounceAndMove(item: WritablePath, destination: Destination, session: Session, size: u64, k: nat,
                           ghost w: World, ghost fates: seq<Fate>)
      returns (r: Result<(Session, Attempt), BrozaError>, ghost after: seq<Fate>)
      requires w.Ready() && k < |w.paths| && item.path == w.paths[k]
      requires destination.sessionDir == w.session && destination.sequence == w.slots[k]
      requires manifest == Some(session) && ImageTells(w, fates, Image(tree, manifest))
      requires k < |session.entries| && fates[k] == Stays
      modifies this
      ensures |history| >= |old(history)| && history[..|old(history)|] == old(history)
      ensures forall i :: |old(history)| <= i < |history| ==> CrashSafe(w, history[i])
      ensures faults >= old(faults)
      ensures faults == old(faults) && item.path in old(tree) ==> r.Ok? && r.value.1.Moved?
      ensures r.Ok? ==>
                && manifest == Some(r.value.0) && ImageTells(w, after, Image(tree, manifest))
                && r.value.0 == WithEntry(session, k, InFlight(session.entries[k], w.Home(k), size))
                && after == (if r.value.1.Moved? then fates[k := Stored] else fates)
                && (r.value.1.Moved? ==> r.value.1.stored == w.Home(k) && r.value.1.size == size)
                && (r.value.1.Refused? ==> r.value.1.status.IsUnsuccessful())
    {
      hide Placed, ManifestTells, World.Ready, Renamed, HeldBytes, ImageTells, Free, CrashSafe, WithEntry, InFlight;
      Lengths(w, fates, Image(tree, manifest));
      after := fates;
      var stored := destination.StoredPathOf(item.path);
      var announced := WithEntry(session, k, InFlight(session.entries[k], stored, size));
      AnnounceSafe(w, fates, tree, session, k, size);
      var failed := Persist(announced, w, fates);
      if failed.Some? {
        return Err(failed.value), after;
      }
      var attempt := MoveIntoStore(item, destination, size, w, k, fates);
      after := if attempt.Moved? then fates[k := Stored] else fates;
      r := Ok((announced, attempt));
    }

    /**
     * `move_one`: check, announce, move, record. A manifest that cannot be
     * written ends the run at once, and even then every image is crash-safe.
     */
    method MoveOne(item: WritablePath, destination: Destination, session: Session, movedBytes: u64, k: nat,
                   ghost w: World, ghost fates: seq<Fate>)
      returns (r: Result<(Session, u64), BrozaError>, ghost after: seq<Fate>)
      requires w.Ready() && k < |w.paths| && item.path == w.paths[k]
      requires destination.sessionDir == w.session && destination.sequence == w.slots[k]
      requires manifest == Some(session) && ImageTells(w, fates, Image(tree, manifest))
      requires k < |session.entries| && fates[k] == Stays
      modifies this
      ensures |history| >= |old(history)| && history[..|old(history)|] == old(history)
      ensures forall i :: |old(history)| <= i < |history| ==> CrashSafe(w, history[i])
      ensures r.Ok? ==>
                && manifest == Some(r.value.0) && ImageTells(w, after, Image(tree, manifest))
                && SameBut(k, session, fates, r.value.0, after)
                && RecordedAs(after[k], session.entries[k], r.value.0.entries[k])
                && r.value.1 == (if after[k] == Stored then SatAdd(movedBytes, r.value.0.entries[k].size) else movedBytes)
                && (after[k] == Stored ==> Found(old(tree), item, destination.rootDevice))
                && (destination.maxSize.Some? && movedBytes <= destination.maxSize.value ==>
                      r.value.1 <= destination.maxSize.value)
      ensures faults >= old(faults)
      ensures faults == old(faults) ==>
                r.Ok? && AsDeserved(
                  old(tree), item, destination.rootDevice, destination.maxSize, after[k], r.value.0.entries[k])
    {
      hide Placed, ManifestTells, World.Ready, HeldBytes, ImageTells, Precheck, CrashSafe, SameBut, RecordedAs,
        WithEntry, UpdatedEntry, InFlight;
      Lengths(w, fates, Image(tree, manifest));
      after := fates;
      var stat := Stat(item.path);
      var measured: Result<u64, BrozaError> := Err(Other);
      if Measures(item, destination, stat) {
        measured := Measure(item.path);
      }
      var size := Precheck(item, destination, movedBytes, stat, measured);
      CheckedExactly(item, destination, movedBytes, stat, measured);
      var current, attempt := session, Refused(Failed, IoError);
      if size.Err? {
        attempt := size.error;
      } else {
        var moved;
        moved, after := AnnounceAndMove(item, destination, session, size.value, k, w, fates);
        if moved.Err? {
          return Err(moved.error), after;
        }
        current, attempt := moved.value.0, moved.value.1;
      }
      Lengths(w, after, Image(tree, manifest));
      var recorded := WithEntry(current, k, UpdatedEntry(current.entries[k], attempt));
      RecordSafe(w, after, tree, current, k, attempt);
      var failed := Persist(recorded, w, after);
      if failed.Some? {
        return Err(failed.value), after;
      }
      Recorded(session, current, k, attempt, fates, after, w.Home(k), if size.Ok? then size.value else 0);
      r := Ok((recorded, SatAdd(movedBytes, MovedOf(attempt))));
    }

    /**
     * The whole move: the session's first manifest, every item in turn, and the
     * closing write. Every image along the way is crash-safe, whatever the disk
     * refuses; a completed run has settled every entry.
     */
    method MoveItems(items: seq<WritablePath>, planned: Session, rootDevice: nat, maxSize: Option<u64>,
                     sessionDir: Path, ghost w: World)
      returns (r: Result<Session, BrozaError>, ghost fates: seq<Fate>)
      requires w.Ready() && w.start == tree && w.session == sessionDir && manifest == None
      requires |items| == |w.paths| && |items| <= U32_MAX
      requires forall k :: 0 <= k < |items| ==> items[k].path == w.paths[k] && w.slots[k] == k + 1
      requires NewSession(w, planned)
      modifies this
      ensures |history| >= |old(history)| && history[..|old(history)|] == old(history)
      ensures forall i :: |old(history)| <= i < |history| ==> CrashSafe(w, history[i])
      ensures faults >= old(faults)
      ensures faults == old(faults) ==>
                r.Ok? && AllDeserved(w, items, rootDevice, maxSize, |items|, r.value, fates)
      ensures r.Ok? ==>
                && manifest == Some(r.value) && r.value.state == Complete
                && ImageTells(w, fates, Image(tree, manifest))
                && r.value.id == planned.id && r.value.total == Cap(Sum(StoredSizes(r.value.entries)))
                && (maxSize.Some? ==> r.value.total <= maxSize.value)
                && AllRecorded(w, planned, items, rootDevice, |items|, r.value, fates)
    {
      hide ImageTells, Placed, ManifestTells, World.Ready, HeldBytes, CrashSafe, SoFar, AllDeserved, AsDeserved, SameBut,
        RecordedAs, NewSession, Found;
      fates := seq(|w.paths|, _ => Stays);
      var session, moved: u64 := planned, 0;
      StartTells(w, planned);
      NothingSoFar(w, planned, items, rootDevice, maxSize);
      var failed := WriteManifest(session);
      if failed.Some? {
        return Err(failed.value), fates;
      }
      ghost var begun := |old(history)|;
      for k := 0 to |items|
        invariant |session.entries| == |fates| == |items|
        invariant manifest == Some(session) && ImageTells(w, fates, Image(tree, manifest))
        invariant SoFar(w, planned, items, rootDevice, maxSize, k, session, fates, moved)
        invariant faults >= old(faults)
        invariant faults == old(faults) ==> AllDeserved(w, items, rootDevice, maxSize, k, session, fates)
        invariant |history| >= begun && history[..begun] == old(history)
        invariant forall i :: begun <= i < |history| ==> CrashSafe(w, history[i])
      {
        ghost var soFar := history;
        var destination := Destination(sessionDir, k + 1, rootDevice, maxSize, session.entries[k].size);
        var step;
        ghost var after;
        NextIsUntouched(w, planned, items, rootDevice, maxSize, k, session, fates, moved);
        ghost var atTurn := tree;
        FoundFromTheStart(w, fates, Image(tree, manifest), k, items[k]);
        step, after := MoveOne(items[k], destination, session, moved, k, w, fates);
        assert history[..begun] == soFar[..begun];
        assert forall i :: begun <= i < |soFar| ==> history[i] == soFar[i];
        if step.Err? {
          return Err(step.error), after;
        }
        DeservedGrows(w, items, rootDevice, maxSize, k, session, fates, step.value.0, after, atTurn);
        SoFarGrows(w, planned, items, rootDevice, maxSize, k, session, fates, moved, step.value.0, after, step.value.1);
        session, moved, fates := step.value.0, step.value.1, after;
      }
      TotalTold(w, fates, tree, session);
      var done := session.(state := Complete);
      SoFarEnds(w, planned, items, rootDevice, maxSize, session, fates, moved);
      StateTells(w, fates, tree, session, Complete);
      failed := WriteManifest(done);
      if failed.Some? {
        return Err(failed.value), fates;
      }
      r := Ok(done);
    }
  }

  /** A new session: one planned entry per item, holding nothing. */
  ghost predicate NewSession(w: World, s: Session) {
    && |s.entries| == |w.paths| && s.total == HeldBytes(s.entries) && s.itemCount == |s.entries| && ValidManifest(s)
    && forall k :: 0 <= k < |w.paths| ==>
        s.entries[k].original == w.paths[k] && s.entries[k].stored.None? && s.entries[k].status.Planned?
  }

  lemma StartTells(w: World, s: Session)
    requires w.Ready() && NewSession(w, s)
    ensures var fates := seq(|w.paths|, _ => Stays);
            && ImageTells(w, fates, Image(w.start, None)) && ImageTells(w, fates, Image(w.start, Some(s)))
            && CrashSafe(w, Image(w.start, None)) && CrashSafe(w, Image(w.start, Some(s)))
  {
    PlacedAtStart(w);
    var fates := seq(|w.paths|, _ => Stays);
    assert ImageTells(w, fates, Image(w.start, None));
    assert ImageTells(w, fates, Image(w.start, Some(s)));
  }

  lemma StateTells(w: World, fates: seq<Fate>, t: Tree, s: Session, state: SessionState)
    requires ImageTells(w, fates, Image(t, Some(s))) && !state.Expired?
    ensures ImageTells(w, fates, Image(t, Some(s.(state := state))))
    ensures CrashSafe(w, Image(t, Some(s))) && CrashSafe(w, Image(t, Some(s.(state := state))))
  {
    assert ManifestTells(w, fates, s.(state := state));
    assert ImageTells(w, fates, Image(t, Some(s.(state := state))));
  }

  /** Only entry `k` and fate `k` may differ. */
  ghost predicate SameBut(k: nat, s: Session, fates: seq<Fate>, s': Session, fates': seq<Fate>) {
    && |s'.entries| == |s.entries| && |fates'| == |fates|
    && s' == s.(entries := s'.entries, total := s'.total, itemCount := s'.itemCount)
    && forall j :: 0 <= j < |s.entries| && j < |fates| && j != k ==> s'.entries[j] == s.entries[j] && fates'[j] == fates[j]
  }

  /**
   * The settled outcome of one item: `quarantined` with a stored path exactly when
   * the object moved. What the entry says of the object itself has not changed.
   */
  predicate RecordedAs(fate: Fate, was: QuarantineEntry, entry: QuarantineEntry) {
    && entry.id == was.id && entry.original == was.original && entry.restoredTo == was.restoredTo
    && if fate == Stored then entry.status == Quarantined && entry.stored.Some? && entry.error.None?
       else entry.status.IsUnsuccessful() && entry.stored.None? && entry.error.Some?
  }

  /** The path names the very object that was approved, on the store's volume. */
  predicate Found(t: Tree, item: WritablePath, rootDevice: nat) {
    && item.path in t && t[item.path].device == item.device && t[item.path].inode == item.inode
    && t[item.path].device == rootDevice
  }

  /** What the precheck lets through, on a disk that tells the truth. */
  lemma CheckedExactly(
    item: WritablePath, d: Destination, movedBytes: u64, stat: Result<Metadata, BrozaError>,
    measured: Result<u64, BrozaError>)
    ensures var size := Precheck(item, d, movedBytes, stat, measured);
            && (size.Ok? ==>
                  && stat.Ok? && stat.value.device == item.device == d.rootDevice && stat.value.inode == item.inode
                  && (d.maxSize.Some? ==> SatAdd(movedBytes, size.value) <= d.maxSize.value))
            && (size.Err? ==>
                  var attempt := (size.error.status, size.error.error);
                  && (stat == Err(TargetNotFound) ==> attempt == (Failed, NotFound))
                  && (stat.Ok? ==>
                        var m := stat.value;
                        if m.device != item.device || m.inode != item.inode then attempt == (Failed, CHANGED_SINCE_CHECK)
                        else if m.device != d.rootDevice then attempt == (Skipped, CrossVolume)
                        else if Measures(item, d, stat) && measured.Err? then true
                        else d.maxSize.Some? && attempt == (Skipped, MAX_SIZE_EXCEEDED)))
  {
  }

  lemma {:induction false} NothingStored(entries: seq<QuarantineEntry>)
    requires forall i :: 0 <= i < |entries| ==> entries[i].stored.None?
    ensures Sum(StoredSizes(entries)) == 0
  {
    if entries != [] {
      NothingStored(entries[1..]);
      assert StoredSizes(entries)[1..] == StoredSizes(entries[1..]);
    }
  }

  /** Each of the first `k` items has the entry of its fate, and only what was approved has moved. */
  ghost predicate AllRecorded(
    w: World, planned: Session, items: seq<WritablePath>, rootDevice: nat, k: nat, s: Session, fates: seq<Fate>)
  {
    && k <= |items| == |planned.entries| == |s.entries| == |fates|
    && forall j :: 0 <= j < k ==>
         && RecordedAs(fates[j], planned.entries[j], s.entries[j])
         && (fates[j] == Stored ==> Found(w.start, items[j], rootDevice))
  }

  /** What keeps an item that is not there as approved, or not on the store's volume. */
  function WhyNot(t: Tree, item: WritablePath): (ItemStatus, ItemErrorCode) {
    if item.path !in t then (Failed, NotFound)
    else if t[item.path].device != item.device || t[item.path].inode != item.inode then (Failed, CHANGED_SINCE_CHECK)
    else (Skipped, CrossVolume)
  }

  /** On a disk that refuses nothing: what is there as approved moves, unless the cap keeps it, and nothing else does. */
  predicate AsDeserved(
    t: Tree, item: WritablePath, rootDevice: nat, maxSize: Option<u64>, fate: Fate, entry: QuarantineEntry)
  {
    if Found(t, item, rootDevice) then
      fate == Stored || (maxSize.Some? && entry.status == Skipped && entry.error == Some(MAX_SIZE_EXCEEDED))
    else
      fate != Stored && entry.status == WhyNot(t, item).0 && entry.error == Some(WhyNot(t, item).1)
  }

  /** Each of the first `k` items has got what it deserved, by the tree the run started with. */
  ghost predicate AllDeserved(
    w: World, items: seq<WritablePath>, rootDevice: nat, maxSize: Option<u64>, k: nat, s: Session, fates: seq<Fate>)
  {
    && k <= |items| == |fates| == |s.entries|
    && forall j :: 0 <= j < k ==> AsDeserved(w.start, items[j], rootDevice, maxSize, fates[j], s.entries[j])
  }

  /** What the loop has established when it reaches item `k`. */
  ghost predicate SoFar(
    w: World, planned: Session, items: seq<WritablePath>, rootDevice: nat, maxSize: Option<u64>, k: nat, s: Session,
    fates: seq<Fate>, moved: u64)
  {
    && AllRecorded(w, planned, items, rootDevice, k, s, fates)
    && s.id == planned.id && moved == Cap(Sum(StoredSizes(s.entries))) && (maxSize.Some? ==> moved <= maxSize.value)
    && forall j :: k <= j < |items| ==>
         fates[j] == Stays && s.entries[j] == planned.entries[j] && planned.entries[j].stored.None?
  }

  lemma NothingSoFar(
    w: World, planned: Session, items: seq<WritablePath>, rootDevice: nat, maxSize: Option<u64>)
    requires NewSession(w, planned) && |items| == |w.paths|
    ensures SoFar(w, planned, items, rootDevice, maxSize, 0, planned, seq(|w.paths|, _ => Stays), 0)
    ensures AllDeserved(w, items, rootDevice, maxSize, 0, planned, seq(|w.paths|, _ => Stays))
    ensures |planned.entries| == |items| && ValidManifest(planned)
  {
    NothingStored(planned.entries);
  }

  lemma NextIsUntouched(
    w: World, planned: Session, items: seq<WritablePath>, rootDevice: nat, maxSize: Option<u64>, k: nat, s: Session,
    fates: seq<Fate>, moved: u64)
    requires SoFar(w, planned, items, rootDevice, maxSize, k, s, fates, moved) && k < |items|
    ensures k < |fates| == |s.entries| == |planned.entries|
    ensures fates[k] == Stays && s.entries[k] == planned.entries[k] && (maxSize.Some? ==> moved <= maxSize.value)
  {
  }

  lemma SoFarGrows(
    w: World, planned: Session, items: seq<WritablePath>, rootDevice: nat, maxSize: Option<u64>, k: nat, s: Session,
    fates: seq<Fate>, moved: u64, next: Session, after: seq<Fate>, movedNext: u64)
    requires SoFar(w, planned, items, rootDevice, maxSize, k, s, fates, moved) && k < |items|
    requires SameBut(k, s, fates, next, after) && RecordedAs(after[k], s.entries[k], next.entries[k])
    requires after[k] == Stored ==> Found(w.start, items[k], rootDevice)
    requires movedNext == if after[k] == Stored then SatAdd(moved, next.entries[k].size) else moved
    requires maxSize.Some? ==> movedNext <= maxSize.value
    ensures SoFar(w, planned, items, rootDevice, maxSize, k + 1, next, after, movedNext)
    ensures |next.entries| == |after| == |items|
  {
    HeldGrows(s, next, k, fates, after);
    hide Found, StoredSizes, Sum;
  }

  lemma DeservedGrows(
    w: World, items: seq<WritablePath>, rootDevice: nat, maxSize: Option<u64>, k: nat, s: Session, fates: seq<Fate>,
    next: Session, after: seq<Fate>, t: Tree)
    requires k < |items| == |fates| == |s.entries| && SameBut(k, s, fates, next, after)
    requires items[k].path in t <==> items[k].path in w.start
    requires items[k].path in t ==> t[items[k].path] == w.start[items[k].path]
    ensures |after| == |fates| && |next.entries| == |items|
    ensures AllDeserved(w, items, rootDevice, maxSize, k, s, fates)
            && AsDeserved(t, items[k], rootDevice, maxSize, after[k], next.entries[k])
            ==> AllDeserved(w, items, rootDevice, maxSize, k + 1, next, after)
    ensures Found(t, items[k], rootDevice) <==> Found(w.start, items[k], rootDevice)
  {
  }

  lemma SoFarEnds(
    w: World, planned: Session, items: seq<WritablePath>, rootDevice: nat, maxSize: Option<u64>, s: Session,
    fates: seq<Fate>, moved: u64)
    requires SoFar(w, planned, items, rootDevice, maxSize, |items|, s, fates, moved) && s.total == HeldBytes(s.entries)
    ensures s.id == planned.id && s.total == Cap(Sum(StoredSizes(s.entries))) && (maxSize.Some? ==> s.total <= maxSize.value)
    ensures AllRecorded(w, planned, items, rootDevice, |items|, s.(state := Complete), fates)
    ensures AllDeserved(w, items, rootDevice, maxSize, |items|, s, fates) ==>
              AllDeserved(w, items, rootDevice, maxSize, |items|, s.(state := Complete), fates)
  {
    HeldExactly(s.entries);
  }

  /** An item that still stays is what it was when the run started. */
  lemma FoundFromTheStart(w: World, fates: seq<Fate>, image: Image, k: nat, item: WritablePath)
    requires w.Ready() && ImageTells(w, fates, image) && k < |w.paths| && fates[k] == Stays && item.path == w.paths[k]
    ensures item.path in image.tree <==> item.path in w.start
    ensures item.path in image.tree ==> image.tree[item.path] == w.start[item.path]
  {
    StaysInPlace(w, fates, image.tree, k);
  }

  lemma HeldGrows(s: Session, next: Session, k: nat, fates: seq<Fate>, after: seq<Fate>)
    requires k < |s.entries| == |fates| && SameBut(k, s, fates, next, after) && s.entries[k].stored.None?
    requires RecordedAs(after[k], s.entries[k], next.entries[k])
    ensures Sum(StoredSizes(next.entries))
            == Sum(StoredSizes(s.entries)) + if after[k] == Stored then next.entries[k].size else 0
  {
    SumReplaced(StoredSizes(s.entries), k, StoredSizes(next.entries)[k]);
    assert StoredSizes(next.entries) == StoredSizes(s.entries)[k := StoredSizes(next.entries)[k]];
  }

  lemma TotalTold(w: World, fates: seq<Fate>, t: Tree, s: Session)
    requires ImageTells(w, fates, Image(t, Some(s)))
    ensures s.total == HeldBytes(s.entries)
  {
  }

  lemma PlacedOf(w: World, fates: seq<Fate>, image: Image)
    requires ImageTells(w, fates, image)
    ensures Placed(w, fates, image.tree)
  {
  }

  /** What stands where the run makes a directory is one it made. */
  lemma CreatedIsDir(w: World, fates: seq<Fate>, t: Tree, d: Path)
    requires w.Ready() && Placed(w, fates, t) && w.Created(d)
    ensures d in t ==> t[d].isDir
  {
    if d in t && !Made(w, t, d) {
      var q :| q in w.start && IsAt(w, fates, q, d);
      var j := WhereIs(w, fates, q, d);
      if d != q {
        HomesApart(w, j, d);
      }
    }
  }

  lemma TellsIsSafe(w: World, fates: seq<Fate>, image: Image)
    requires ImageTells(w, fates, image)
    ensures CrashSafe(w, image)
  {
  }

  /** One item's two writes change its own entry only, and the last one is its outcome. */
  lemma Recorded(
    session: Session, current: Session, k: nat, a: Attempt, fates: seq<Fate>, after: seq<Fate>, home: Path, size: u64)
    requires k < |session.entries| && k < |fates|
    requires current == session || current == WithEntry(session, k, InFlight(session.entries[k], home, size))
    requires after == (if a.Moved? then fates[k := Stored] else fates) && fates[k] == Stays
    requires a.Refused? ==> a.status.IsUnsuccessful()
    ensures var recorded := WithEntry(current, k, UpdatedEntry(current.entries[k], a));
            && SameBut(k, session, fates, recorded, after)
            && RecordedAs(after[k], session.entries[k], recorded.entries[k])
            && (a.Moved? ==> recorded.entries[k].size == a.size)
            && (a.Refused? ==> recorded.entries[k].status == a.status && recorded.entries[k].error == Some(a.error))
  {
  }

  /** Replacing one entry changes what the entries hold by what that entry held and holds. */
  lemma SumReplaced(xs: seq<u64>, k: nat, x: u64)
    requires k < |xs|
    ensures Sum(xs[k := x]) + xs[k] == Sum(xs) + x
  {
    assert xs == xs[..k] + ([xs[k]] + xs[k + 1..]) && xs[k := x] == xs[..k] + ([x] + xs[k + 1..]);
    SumConcat(xs[..k], [xs[k]] + xs[k + 1..]);
    SumConcat(xs[..k], [x] + xs[k + 1..]);
    assert ([xs[k]] + xs[k + 1..])[1..] == ([x] + xs[k + 1..])[1..];
  }

  lemma Lengths(w: World, fates: seq<Fate>, image: Image)
    requires w.Ready() && ImageTells(w, fates, image)
    ensures |w.slots| == |w.paths| == |fates|
    ensures image.manifest.Some? ==> |image.manifest.value.entries| == |w.paths|
    ensures forall k :: 0 <= k < |w.slots| ==> w.Created(ItemDir(w.session, w.slots[k]))
  {
  }

  lemma TellsEither(w: World, fates: seq<Fate>, t: Tree, before: Session, next: Session)
    requires ImageTells(w, fates, Image(t, Some(before))) && ImageTells(w, fates, Image(t, Some(next)))
    ensures CrashSafe(w, Image(t, Some(before))) && CrashSafe(w, Image(t, Some(next)))
  {
  }

  lemma HomeIsElsewhere(w: World, k: nat)
    requires w.Ready() && k < |w.paths|
    ensures !(w.paths[k] <= w.Home(k))
  {
    HomesApart(w, k, w.Home(k));
    assert !w.Covers(k, w.Home(k));
  }

  lemma MadeSafe(w: World, fates: seq<Fate>, before: Tree, after: Tree, m: Option<Session>, d: Path)
    requires ImageTells(w, fates, Image(before, m)) && w.Created(d)
    requires before == after || (d !in before && exists n: Node :: n.isDir && after == before + map[d := n])
    ensures ImageTells(w, fates, Image(after, m)) && CrashSafe(w, Image(after, m))
  {
    if before != after {
      var n: Node :| n.isDir && after == before + map[d := n];
      CreateSafe(w, fates, before, m, map[d := n]);
    }
    assert ImageTells(w, fates, Image(after, m));
  }
}
