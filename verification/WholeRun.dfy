/**
 * A whole run on an undisturbed disk, without a cap: the items' turns, in any
 * order, over the tree itself. What the executor decides at each turn is the
 * same function `Executor` uses; only its answers come from the tree now.
 */
module WholeRun {
  import opened Wrappers
  import opened Bytes
  import opened Paths
  import opened Model
  import opened Attempt
  import opened Executor
  import Plan
  import opened Layout
  import opened Placement

  /**
   * The items of a run. `answers(k)` is what the disk says about item `k`
   * beyond what the tree determines: sizes, and any refusal of its own.
   * `inodes(d)` is the inode a directory gets if this run creates it at `d`;
   * `halfway(k)` says whether a `create_dir_all` refused for item `k` gets as far
   * as `items/`.
   */
  datatype Work = Work(
    items: seq<WritablePath>, actions: seq<Action>, answers: nat -> Answers, planned: nat -> u64, rootDevice: nat,
    inodes: Path -> nat, halfway: nat -> bool)

  ghost predicate Fits(w: World, r: Work) {
    && w.Ready() && |r.items| == |r.actions| == |w.paths|
    && (forall k :: 0 <= k < |w.paths| ==> r.items[k].path == w.paths[k])
    && forall k :: 0 <= k < |w.paths| ==> r.actions[k] == Quarantine || r.actions[k] == Purge
  }

  /** `lstat` of what the tree really holds; the figures beyond identity are the disk's. */
  function Seen(t: Tree, p: Path, a: Result<Metadata, BrozaError>): Result<Metadata, BrozaError> {
    if p !in t then Err(TargetNotFound)
    else if a.Ok? then Ok(a.value.(device := t[p].device, inode := t[p].inode, isDir := t[p].isDir))
    else Ok(Metadata(t[p].device, t[p].inode, t[p].isDir, 0, 1, None))
  }

  /** What a rename into the store answers on this tree. */
  ghost function Arrival(t: Tree, from: Path, to: Path, a: Result<RenameMode, BrozaError>): Result<RenameMode, BrozaError> {
    if a.Err? then a
    else if from !in t then Err(TargetNotFound)
    else if !Free(t, to) then Err(AlreadyExists)
    else a
  }

  ghost function TreeAnswers(w: World, r: Work, t: Tree, k: nat): Answers
    requires Fits(w, r) && k < |w.paths|
  {
    var a := r.answers(k);
    a.(stat := Seen(t, w.paths[k], a.stat), restat := Seen(t, w.paths[k], a.restat),
       moved := Arrival(t, w.paths[k], w.Home(k), a.moved))
  }

  function DestinationOf(w: World, r: Work, k: nat): Destination
    requires k < |w.slots|
  {
    Destination(w.session, w.slots[k], r.rootDevice, None, r.planned(k))
  }

  /** The outcome of one turn, as the executor computes it. */
  ghost function TurnOutcome(w: World, r: Work, t: Tree, k: nat): (ItemStatus, Option<ItemErrorCode>)
    requires Fits(w, r) && k < |w.paths|
  {
    var a := TreeAnswers(w, r, t, k);
    if r.actions[k] == Quarantine then OutcomeOf(AttemptOne(r.items[k], DestinationOf(w, r, k), a, 0))
    else (PurgeOne(r.items[k], a, 0, None).status, PurgeOne(r.items[k], a, 0, None).error)
  }

  /** The directories `create_dir_all` sees to for item `k`, refused or not. */
  function Dirs(w: World, r: Work, k: nat): set<Path>
    requires k < |w.slots|
  {
    if r.answers(k).made.None? then {ItemsDir(w.session), ItemDir(w.session, w.slots[k])}
    else if r.halfway(k) then {ItemsDir(w.session)}
    else {}
  }

  /** Those of them it adds. */
  ghost function NewDirs(w: World, r: Work, t: Tree, k: nat): Tree
    requires k < |w.slots|
  {
    map d | d in Dirs(w, r, k) && d !in t :: Node(r.rootDevice, r.inodes(d), true)
  }

  /** Item `k` gets as far as `create_dir_all`, with `total` bytes moved so far. */
  ghost predicate Attempted(w: World, r: Work, t: Tree, k: nat, total: u64, cap: Option<u64>)
    requires Fits(w, r) && k < |w.paths|
  {
    var a := TreeAnswers(w, r, t, k);
    && r.actions[k] == Quarantine
    && Precheck(r.items[k], DestinationOf(w, r, k).(maxSize := cap), total, a.stat, a.measured).Ok?
  }

  /** The tree once item `k`'s directories are there, if it gets as far. */
  ghost function ReadyFor(w: World, r: Work, t: Tree, k: nat, attempted: bool): Tree
    requires k < |w.slots|
  {
    if attempted then t + NewDirs(w, r, t, k) else t
  }

  /** The tree after one turn. */
  ghost function TurnTree(w: World, r: Work, t: Tree, k: nat): Tree
    requires Fits(w, r) && k < |w.paths|
  {
    TreeBy(w, r, t, k, Attempted(w, r, t, k, 0, None), TurnOutcome(w, r, t, k).0)
  }

  /** The tree after item `k` came out as `status`. */
  ghost function TreeBy(w: World, r: Work, t: Tree, k: nat, attempted: bool, status: ItemStatus): Tree
    requires Fits(w, r) && k < |w.paths|
  {
    var ready := ReadyFor(w, r, t, k, attempted);
    match status
    case Quarantined => if Free(ready, w.Home(k)) then Renamed(ready, w.paths[k], w.Home(k)) else ready
    case Purged => Without(ready, w.paths[k])
    case _ => ready
  }

  ghost predicate IsOrder(w: World, order: seq<nat>) {
    && (forall i :: 0 <= i < |order| ==> order[i] < |w.paths|)
    && forall i, j :: 0 <= i < j < |order| ==> order[i] != order[j]
  }

  ghost function TreeAfter(w: World, r: Work, order: seq<nat>): Tree
    requires Fits(w, r) && IsOrder(w, order)
    decreases |order|
  {
    if order == [] then w.start
    else
      var before := order[..|order| - 1];
      TurnTree(w, r, TreeAfter(w, r, before), order[|order| - 1])
  }

  // ------------------------------------- the verdict, from the start alone

  /** What becomes of item `k`: decided by the tree the run started with and the disk's own refusals. */
  ghost function Verdict(start: Tree, r: Work, k: nat): (ItemStatus, Option<ItemErrorCode>, Fate)
    requires k < |r.items| && k < |r.actions|
  {
    var item, a := r.items[k], r.answers(k);
    if item.path !in start then (Failed, Some(NotFound), Stays)
    else if start[item.path].device != item.device || start[item.path].inode != item.inode then
      (Failed, Some(CHANGED_SINCE_CHECK), Stays)
    else if r.actions[k] == Quarantine then
      if start[item.path].device != r.rootDevice then (Skipped, Some(CrossVolume), Stays)
      else if a.made.Some? then (Failed, Some(IoCode(a.made.value)), Stays)
      else if a.moved.Err? then (Failed, Some(IoCode(a.moved.error)), Stays)
      else (Quarantined, None, Stored)
    else if start[item.path].isDir && a.freed.Err? then (Failed, Some(IoCode(a.freed.error)), Stays)
    else if a.removed.Some? then (Failed, Some(IoCode(a.removed.value)), Stays)
    else (Purged, None, Gone)
  }

  /** Whether item `k` gets as far as `create_dir_all`, from the start alone. */
  ghost predicate Attempts(start: Tree, r: Work, k: nat)
    requires k < |r.items| && k < |r.actions|
  {
    var item := r.items[k];
    && item.path in start && start[item.path].device == item.device && start[item.path].inode == item.inode
    && r.actions[k] == Quarantine && start[item.path].device == r.rootDevice
  }

  ghost function FatesAfter(w: World, r: Work, order: seq<nat>): (f: seq<Fate>)
    requires Fits(w, r)
    ensures |f| == |w.paths|
  {
    seq(|w.paths|, k requires 0 <= k < |w.paths| => if k in order then Verdict(w.start, r, k).2 else Stays)
  }

  /** A turn taken while the item still stays comes out as the verdict, whatever else has happened. */
  lemma TurnIsVerdict(w: World, r: Work, fates: seq<Fate>, t: Tree, k: nat)
    requires Fits(w, r) && Placed(w, fates, t) && k < |w.paths| && fates[k] == Stays
    ensures TurnOutcome(w, r, t, k) == (Verdict(w.start, r, k).0, Verdict(w.start, r, k).1)
    ensures Attempted(w, r, t, k, 0, None) <==> Attempts(w.start, r, k)
    ensures Verdict(w.start, r, k).2 == Stored ==> Verdict(w.start, r, k).0 == Quarantined
    ensures Verdict(w.start, r, k).2 == Gone ==> Verdict(w.start, r, k).0 == Purged
    ensures Verdict(w.start, r, k).2 == Stays ==> Verdict(w.start, r, k).0.IsUnsuccessful()
  {
    hide Placed, Free, Renamed, World.Ready;
    StaysBelow(w, fates, t, k, w.paths[k]);
    HomeFree(w, fates, t, k);
  }

  lemma TurnKeepsPlaced(w: World, r: Work, fates: seq<Fate>, t: Tree, k: nat)
    requires Fits(w, r) && |fates| == |w.paths| == |w.slots|
    requires Placed(w, fates, t) && k < |w.paths| && fates[k] == Stays
    ensures Placed(w, fates[k := Verdict(w.start, r, k).2], TurnTree(w, r, t, k))
  {
    hide Verdict, TurnOutcome, Attempted, ReadyFor, Placed, Free, Renamed, World.Ready;
    TurnIsVerdict(w, r, fates, t, k);
    var fate, attempted := Verdict(w.start, r, k).2, Attempted(w, r, t, k, 0, None);
    ReadyKeeps(w, r, fates, t, k, attempted);
    if fate == Stored {
      MoveKeeps(w, fates, ReadyFor(w, r, t, k, attempted), k);
    } else if fate == Gone {
      RemoveKeeps(w, fates, ReadyFor(w, r, t, k, attempted), k);
    } else {
      assert fates[k := fate] == fates;
    }
  }

  lemma ReadyKeeps(w: World, r: Work, fates: seq<Fate>, t: Tree, k: nat, attempted: bool)
    requires Fits(w, r) && k < |w.paths| && Placed(w, fates, t)
    ensures Placed(w, fates, ReadyFor(w, r, t, k, attempted))
  {
    var more := NewDirs(w, r, t, k);
    assert forall d :: d in more ==> Made(w, more, d) && d !in t;
    hide Placed, World.Ready;
    CreateKeeps(w, fates, t, more);
  }

  /** After any turns in any order, every object is where the verdicts say. */
  lemma {:induction false} RunIsPlaced(w: World, r: Work, order: seq<nat>)
    requires Fits(w, r) && IsOrder(w, order)
    ensures Placed(w, FatesAfter(w, r, order), TreeAfter(w, r, order))
    decreases |order|
  {
    if order == [] {
      PlacedAtStart(w);
      assert FatesAfter(w, r, order) == seq(|w.paths|, _ => Stays);
    } else {
      hide Verdict, TurnTree, Placed;
      var n := |order| - 1;
      var before, k := order[..n], order[n];
      RunIsPlaced(w, r, before);
      assert k !in before;
      TurnKeepsPlaced(w, r, FatesAfter(w, r, before), TreeAfter(w, r, before), k);
      FatesAfterOne(w, r, order);
    }
  }

  lemma FatesAfterOne(w: World, r: Work, order: seq<nat>)
    requires Fits(w, r) && IsOrder(w, order) && order != []
    ensures var n := |order| - 1;
            FatesAfter(w, r, order) == FatesAfter(w, r, order[..n])[order[n] := Verdict(w.start, r, order[n]).2]
  {
    hide Verdict, World.Ready;
    var n := |order| - 1;
    assert order == order[..n] + [order[n]];
  }

  /**
   * Every turn, in every order, comes out as its verdict. In particular an item
   * whose recorded identity held when the run started is never found missing or
   * changed: no other item's move or removal can disturb it.
   */
  lemma EveryTurnIsVerdict(w: World, r: Work, order: seq<nat>, i: nat)
    requires Fits(w, r) && IsOrder(w, order) && i < |order|
    ensures IsOrder(w, order[..i])
    ensures var k := order[i];
            var outcome := TurnOutcome(w, r, TreeAfter(w, r, order[..i]), k);
            && outcome == (Verdict(w.start, r, k).0, Verdict(w.start, r, k).1)
            && (w.paths[k] in w.start && Identified(w, r, k) ==> outcome.1 != Some(CHANGED_SINCE_CHECK))
            && (w.paths[k] in w.start && Identified(w, r, k) && !Refuses(r, k, TargetNotFound) ==>
                  outcome.1 != Some(NotFound))
  {
    hide Placed, TurnTree, Free, Antichain;
    var before := order[..i];
    RunIsPlaced(w, r, before);
    assert order[i] !in before;
    TurnIsVerdict(w, r, FatesAfter(w, r, before), TreeAfter(w, r, before), order[i]);
  }

  /** The path still is the object the guard recorded. */
  ghost predicate Identified(w: World, r: Work, k: nat)
    requires k < |w.paths| && k < |r.items| && w.paths[k] in w.start
  {
    w.start[w.paths[k]].device == r.items[k].device && w.start[w.paths[k]].inode == r.items[k].inode
  }

  /** The disk itself answers `e` to an operation on item `k`. */
  predicate Refuses(r: Work, k: nat, e: BrozaError) {
    var a := r.answers(k);
    a.made == Some(e) || a.moved == Err(e) || a.freed == Err(e) || a.removed == Some(e)
  }

  /** Two runs of the same work: same items and refusals; sizes and session numbering may differ. */
  ghost predicate SameWork(w: World, r: Work, w': World, r': Work) {
    && Fits(w, r) && Fits(w', r')
    && w'.start == w.start && w'.paths == w.paths && w'.session == w.session
    && r'.items == r.items && r'.actions == r.actions && r'.rootDevice == r.rootDevice
    && forall k: nat ::
        && r.answers(k).made == r'.answers(k).made
        && (r.answers(k).moved.Err? || r'.answers(k).moved.Err? ==> r.answers(k).moved == r'.answers(k).moved)
        && (r.answers(k).freed.Err? || r'.answers(k).freed.Err? ==> r.answers(k).freed == r'.answers(k).freed)
        && r.answers(k).removed == r'.answers(k).removed
  }

  ghost predicate Agree(t: Tree, t': Tree, q: Path) {
    (q in t <==> q in t') && (q in t ==> t[q] == t'[q])
  }

  /**
   * The order of the items does not matter: the same statuses, the same tree
   * outside the session's items, and the same subtree in each item's place there.
   */
  lemma OrderDoesNotMatter(w: World, r: Work, order: seq<nat>, w': World, r': Work, order': seq<nat>)
    requires SameWork(w, r, w', r') && IsOrder(w, order) && IsOrder(w', order')
    requires forall k: nat :: k in order <==> k in order'
    ensures forall k: nat :: k < |w.paths| ==> Verdict(w.start, r, k) == Verdict(w'.start, r', k)
    ensures forall q :: !(ItemsDir(w.session) <= q) ==>
              Agree(TreeAfter(w, r, order), TreeAfter(w', r', order'), q)
    ensures forall k: nat, q :: k in order && Verdict(w.start, r, k).2 == Stored && w.Covers(k, q) && q in w.start ==>
              var (t, t') := (TreeAfter(w, r, order), TreeAfter(w', r', order'));
              var (p, p') := (Carried(w.paths[k], w.Home(k), q), Carried(w.paths[k], w'.Home(k), q));
              p in t && p' in t' && t[p] == t'[p'] == w.start[q]
  {
    hide TreeAfter, Free, Verdict, Placed, IsAt, Antichain, Carried;
    var t, t' := TreeAfter(w, r, order), TreeAfter(w', r', order');
    var fates, fates' := FatesAfter(w, r, order), FatesAfter(w', r', order');
    RunIsPlaced(w, r, order);
    RunIsPlaced(w', r', order');
    SameVerdicts(w, r, w', r');
    assert fates == fates';
    forall q | !(ItemsDir(w.session) <= q)
      ensures Agree(t, t', q)
    {
      OutsideAgrees(w, w', fates, t, t', q);
      OutsideAgrees(w', w, fates, t', t, q);
    }
    forall k: nat, q | k in order && Verdict(w.start, r, k).2 == Stored && w.Covers(k, q) && q in w.start
      ensures var (p, p') := (Carried(w.paths[k], w.Home(k), q), Carried(w.paths[k], w'.Home(k), q));
              p in t && p' in t' && t[p] == t'[p'] == w.start[q]
    {
      StoredBelow(w, fates, t, k, q);
      StoredBelow(w', fates, t', k, q);
    }
  }

  lemma SameVerdicts(w: World, r: Work, w': World, r': Work)
    requires SameWork(w, r, w', r')
    ensures forall k: nat :: k < |w.paths| ==> Verdict(w.start, r, k) == Verdict(w'.start, r', k)
  {
    hide World.Ready, Free;
  }

  lemma OutsideAgrees(w: World, w': World, fates: seq<Fate>, t: Tree, t': Tree, q: Path)
    requires w.Ready() && w'.Ready() && Placed(w, fates, t) && Placed(w', fates, t')
    requires w'.start == w.start && w'.paths == w.paths && w'.session == w.session
    requires !(ItemsDir(w.session) <= q)
    ensures q in t ==> q in t' && t'[q] == t[q]
  {
    if q in t {
      assert !w.Created(q);
      var s :| s in w.start && IsAt(w, fates, s, q);
      var j := WhereIs(w, fates, s, q);
      if s != q {
        HomesApart(w, j, q);
      } else {
        NotCarried(w, fates, q);
        assert IsAt(w', fates, q, q);
      }
    }
  }

  /** An object found at its own path is covered by no item that left. */
  lemma NotCarried(w: World, fates: seq<Fate>, q: Path)
    requires w.Ready() && |fates| == |w.paths| && IsAt(w, fates, q, q)
    ensures forall k: nat :: w.Covers(k, q) ==> fates[k] == Stays
  {
    forall k: nat | w.Covers(k, q) ensures fates[k] == Stays {
      if fates[k] == Stored {
        CarriedBack(w.paths[k], w.Home(k), q);
        HomesApart(w, k, q);
      }
    }
  }

  lemma StoredBelow(w: World, fates: seq<Fate>, t: Tree, k: nat, q: Path)
    requires w.Ready() && Placed(w, fates, t) && w.Covers(k, q) && fates[k] == Stored && q in w.start
    ensures var p := Carried(w.paths[k], w.Home(k), q); p in t && t[p] == w.start[q]
  {
    forall j: nat | w.Covers(j, q) ensures j == k {
      OneCover(w, j, k, q);
    }
    assert IsAt(w, fates, q, Carried(w.paths[k], w.Home(k), q));
  }

  // ------------------------------------------------- the same tree, whole

  lemma RenameSpares(t: Tree, from: Path, to: Path, d: Path)
    requires Free(t, to) && !(from <= d) && !(to <= d)
    ensures Agree(t, Renamed(t, from, to), d)
  {
    forall q | q in t && Carried(from, to, q) == d ensures q == d {
      if from <= q { CarriedBack(from, to, q); }
    }
    assert Carried(from, to, d) == d;
  }

  /** A turn leaves a directory of the session as it is, or adds it for an item that gets so far. */
  lemma TurnDirs(w: World, r: Work, fates: seq<Fate>, t: Tree, k: nat, d: Path)
    requires Fits(w, r) && Placed(w, fates, t) && k < |w.paths| && fates[k] == Stays && w.Created(d)
    ensures var t' := TurnTree(w, r, t, k);
            var added := Attempts(w.start, r, k) && Leaves(w, r, k, d);
            && (d in t' <==> d in t || added)
            && (d in t' ==> t'[d] == if d in t then t[d] else Node(r.rootDevice, r.inodes(d), true))
  {
    TurnIsVerdict(w, r, fates, t, k);
    LeavesExactly(w, r, k, d);
    assert !(w.paths[k] <= d) by {
      if w.Covers(k, d) { CoveredOutside(w, k, d); }
    }
    assert !(w.Home(k) <= d) by {
      if w.Home(k) <= d { HomesApart(w, k, d); }
    }
    hide Verdict, TurnOutcome, Attempted, Attempts, Dirs, Leaves, Placed, Free, World.Ready, World.Created, Renamed;
    var ready := ReadyFor(w, r, t, k, Attempted(w, r, t, k, 0, None));
    if Verdict(w.start, r, k).2 == Stored && Free(ready, w.Home(k)) {
      RenameSpares(ready, w.paths[k], w.Home(k), d);
    }
  }

  /** An item that gets so far leaves `items/` unless nothing could be made, and its own directory if all could. */
  ghost predicate Leaves(w: World, r: Work, k: nat, d: Path)
    requires k < |w.slots|
  {
    || (d == ItemsDir(w.session) && (r.answers(k).made == None || r.halfway(k)))
    || (d == ItemDir(w.session, w.slots[k]) && r.answers(k).made == None)
  }

  lemma LeavesExactly(w: World, r: Work, k: nat, d: Path)
    requires k < |w.slots|
    ensures Leaves(w, r, k, d) <==> d in Dirs(w, r, k)
  {
  }

  /** Some item that got as far as `create_dir_all` had this directory made. */
  ghost predicate Needed(w: World, r: Work, order: seq<nat>, d: Path)
    requires Fits(w, r) && IsOrder(w, order)
  {
    exists k: nat :: k in order && Attempts(w.start, r, k) && Leaves(w, r, k, d)
  }

  lemma NoneMadeYet(w: World, d: Path)
    requires w.Ready() && w.Created(d)
    ensures d !in w.start
  {
  }

  lemma NeededGrows(w: World, r: Work, order: seq<nat>, d: Path)
    requires Fits(w, r) && IsOrder(w, order) && order != []
    ensures var n := |order| - 1;
            Needed(w, r, order, d) <==>
              || Needed(w, r, order[..n], d)
              || (Attempts(w.start, r, order[n]) && Leaves(w, r, order[n], d))
  {
    hide Attempts, Leaves, World.Ready;
    var n := |order| - 1;
    assert order == order[..n] + [order[n]];
    assert order[n] in order;
  }

  /** The session has exactly the directories made for its items, moved in the end or not, whatever the order. */
  lemma {:induction false} MadeExactly(w: World, r: Work, order: seq<nat>, d: Path)
    requires Fits(w, r) && IsOrder(w, order) && w.Created(d)
    ensures var t := TreeAfter(w, r, order);
            && (d in t <==> Needed(w, r, order, d))
            && (d in t ==> t[d] == Node(r.rootDevice, r.inodes(d), true))
    decreases |order|
  {
    hide Verdict, Attempts, Leaves, TurnTree, Placed, World.Ready, World.Created;
    if order == [] {
      NoneMadeYet(w, d);
    } else {
      var n := |order| - 1;
      var before, k := order[..n], order[n];
      MadeExactly(w, r, before, d);
      RunIsPlaced(w, r, before);
      assert k !in before;
      TurnDirs(w, r, FatesAfter(w, r, before), TreeAfter(w, r, before), k, d);
      NeededGrows(w, r, order, d);
    }
  }

  /** The same entry, or a directory of the session that each run made for itself. */
  ghost predicate Alike(w: World, r: Work, t: Tree, t': Tree, p: Path)
    requires p in t && p in t'
  {
    t[p] == t'[p] || (w.Created(p) && t[p].isDir && t'[p].isDir && t[p].device == t'[p].device == r.rootDevice)
  }

  ghost predicate Within(w: World, r: Work, t: Tree, t': Tree) {
    forall p :: p in t ==> p in t' && Alike(w, r, t, t', p)
  }

  /**
   * With the items numbered alike, every order of them ends with the same tree,
   * entry for entry, but for the inodes of the directories each run makes.
   */
  lemma EveryOrderSameTree(w: World, r: Work, order: seq<nat>, inodes: Path -> nat, other: seq<nat>)
    requires Fits(w, r) && IsOrder(w, order) && IsOrder(w, other)
    requires forall k: nat :: k in order <==> k in other
    ensures Fits(w, r.(inodes := inodes))
    ensures var t, t' := TreeAfter(w, r, order), TreeAfter(w, r.(inodes := inodes), other);
            t.Keys == t'.Keys && forall p :: p in t ==> Alike(w, r, t, t', p)
    ensures inodes == r.inodes ==> TreeAfter(w, r, order) == TreeAfter(w, r, other)
  {
    var r' := r.(inodes := inodes);
    SubTree(w, r, order, r', other);
    SubTree(w, r', other, r, order);
    SameKeys(w, r, TreeAfter(w, r, order), TreeAfter(w, r', other));
    if inodes == r.inodes {
      assert r' == r;
      SameDirs(w, r, order, other);
    }
  }

  lemma SameKeys(w: World, r: Work, t: Tree, t': Tree)
    requires Within(w, r, t, t') && forall p :: p in t' ==> p in t
    ensures t.Keys == t'.Keys && forall p :: p in t ==> Alike(w, r, t, t', p)
  {
    hide Alike;
  }

  /** What a directory's inode is never decides a verdict. */
  lemma SubTree(w: World, r: Work, order: seq<nat>, r': Work, other: seq<nat>)
    requires Fits(w, r) && Fits(w, r') && r' == r.(inodes := r'.inodes) && IsOrder(w, order) && IsOrder(w, other)
    requires forall k: nat :: k in order <==> k in other
    ensures Within(w, r, TreeAfter(w, r, order), TreeAfter(w, r', other))
  {
    SameVerdictsAnyway(w, r, r');
    hide TreeAfter, Verdict, IsAt, Alike, World.Ready, World.Created;
    var t, t' := TreeAfter(w, r, order), TreeAfter(w, r', other);
    var fates := FatesAfter(w, r, order);
    assert fates == FatesAfter(w, r', other);
    RunIsPlaced(w, r, order);
    RunIsPlaced(w, r', other);
    forall p | p in t ensures p in t' && Alike(w, r, t, t', p) {
      if q :| q in w.start && IsAt(w, fates, q, p) {
        SameEntry(w, r, t, t', p);
      } else {
        assert Made(w, t, p);
        MadeAlike(w, r, order, r', other, p);
      }
    }
  }

  lemma MadeAlike(w: World, r: Work, order: seq<nat>, r': Work, other: seq<nat>, d: Path)
    requires Fits(w, r) && Fits(w, r') && r' == r.(inodes := r'.inodes) && IsOrder(w, order) && IsOrder(w, other)
    requires (forall k: nat :: k in order <==> k in other) && w.Created(d)
    ensures var t, t' := TreeAfter(w, r, order), TreeAfter(w, r', other);
            d in t ==> d in t' && Alike(w, r, t, t', d)
  {
    hide TreeAfter, World.Ready, World.Created;
    MadeExactly(w, r, order, d);
    MadeExactly(w, r', other, d);
  }

  lemma SameEntry(w: World, r: Work, t: Tree, t': Tree, p: Path)
    requires p in t && p in t' && t[p] == t'[p]
    ensures Alike(w, r, t, t', p)
  {
  }

  lemma SameVerdictsAnyway(w: World, r: Work, r': Work)
    requires Fits(w, r) && Fits(w, r') && r' == r.(inodes := r'.inodes)
    ensures forall k: nat :: k < |w.paths| ==> Verdict(w.start, r, k) == Verdict(w.start, r', k)
  {
  }

  lemma SameDirs(w: World, r: Work, order: seq<nat>, other: seq<nat>)
    requires Fits(w, r) && IsOrder(w, order) && IsOrder(w, other)
    requires var t, t' := TreeAfter(w, r, order), TreeAfter(w, r, other);
             t.Keys == t'.Keys && forall p :: p in t ==> Alike(w, r, t, t', p)
    ensures TreeAfter(w, r, order) == TreeAfter(w, r, other)
  {
    hide TreeAfter, World.Ready;
    var t, t' := TreeAfter(w, r, order), TreeAfter(w, r, other);
    forall p | p in t ensures t[p] == t'[p] {
      if t[p] != t'[p] {
        MadeExactly(w, r, order, p);
        MadeExactly(w, r, other, p);
      }
    }
  }

  // ------------------------------------------------- the executor on the tree

  /**
   * The executor's run answers each of its turns from the tree as the turns
   * before it in `order` left it, item by item as the token and the plan pair
   * them, without a cap.
   */
  ghost predicate RunsOn(w: World, r: Work, run: Run, order: seq<nat>)
    requires Fits(w, r) && IsOrder(w, order)
  {
    && |run.token.items| == |run.indices| == |w.paths|
    && run.maxSize == None && run.at.dir == w.session && run.at.rootDevice == r.rootDevice
    && (forall k: nat :: k < |w.paths| ==>
          && run.indices[k] < |run.token.plan.items| && run.token.items[k] == ApprovedPath(r.items[k])
          && run.token.plan.items[run.indices[k]].action == r.actions[k]
          && run.token.plan.items[run.indices[k]].size == r.planned(k)
          && (r.actions[k] == Quarantine ==> w.slots[k] == run.Moving().Position(k) + 1))
    && forall i: nat :: i < |order| ==>
         IsOrder(w, order[..i])
         && run.answers(order[i]) == TreeAnswers(w, r, TreeAfter(w, r, order[..i]), order[i])
  }

  /** Without a cap the bytes already moved or freed decide nothing. */
  lemma NoCapNoTotal(item: WritablePath, d: Destination, a: Answers, x: u64, y: u64)
    requires d.maxSize == None
    ensures OutcomeOf(AttemptOne(item, d, a, x)) == OutcomeOf(AttemptOne(item, d, a, y))
    ensures PurgeOne(item, a, x, None) == PurgeOne(item, a, y, None)
  {
  }

  /** Item `k`'s turn in the executor is its turn on the tree. */
  lemma SameTurn(w: World, r: Work, run: Run, done: Plan.CleanPlan, order: seq<nat>, i: nat)
    requires Fits(w, r) && IsOrder(w, order) && i < |order| && RunsOn(w, r, run, order) && Executed(run, done)
    ensures IsOrder(w, order[..i]) && run.indices[order[i]] < |done.items|
    ensures var k := order[i];
            (done.items[run.indices[k]].status, done.items[run.indices[k]].error)
            == TurnOutcome(w, r, TreeAfter(w, r, order[..i]), k)
  {
    var k := order[i];
    assert w.paths[k] == r.items[k].path && k < |w.slots|;
    hide TreeAfter, World.Ready, AttemptOne, PurgeOne, TreeAnswers, Executed, OutcomeOf, Pass.MovedBefore,
      Pass.RunningBefore, Pass.Position;
    if r.actions[k] == Quarantine {
      assert run.Moving().Acts(k, Quarantine);
      RecordedMoveIs(run, done, k);
      NoCapNoTotal(r.items[k], DestinationOf(w, r, k), run.answers(k), run.Moving().MovedBefore(k), 0);
    } else {
      assert run.Purging().Acts(k, Purge);
      RecordedPurgeIs(run, done, k);
      NoCapNoTotal(r.items[k], DestinationOf(w, r, k), run.answers(k), run.Purging().RunningBefore(k), 0);
    }
  }

  /** So the executor's own plan records every item's verdict. */
  lemma ExecutedRecordsVerdicts(w: World, r: Work, run: Run, done: Plan.CleanPlan, order: seq<nat>, i: nat)
    requires Fits(w, r) && IsOrder(w, order) && i < |order| && RunsOn(w, r, run, order) && Executed(run, done)
    ensures var k := order[i];
            && run.indices[k] < |done.items|
            && done.items[run.indices[k]].status == Verdict(w.start, r, k).0
            && done.items[run.indices[k]].error == Verdict(w.start, r, k).1
  {
    hide Executed, Verdict, TurnOutcome, TreeAfter, World.Ready;
    EveryTurnIsVerdict(w, r, order, i);
    SameTurn(w, r, run, done, order, i);
  }

  lemma RecordedMoveIs(run: Run, done: Plan.CleanPlan, k: nat)
    requires Executed(run, done) && k < |run.token.items| && run.Moving().Acts(k, Quarantine)
    ensures run.indices[k] < |done.items|
    ensures var m := run.Moving();
            var attempt := AttemptOne(m.items[k].target, m.DestinationOf(k), run.answers(k), m.MovedBefore(k));
            (done.items[run.indices[k]].status, done.items[run.indices[k]].error) == OutcomeOf(attempt)
  {
    hide AttemptOne, Plan.Valid, Plan.Follows, Sum, Cap;
  }

  lemma RecordedPurgeIs(run: Run, done: Plan.CleanPlan, k: nat)
    requires Executed(run, done) && k < |run.token.items| && run.Purging().Acts(k, Purge)
    ensures run.indices[k] < |done.items|
    ensures var p := run.Purging();
            var o := PurgeOne(p.items[k].target, run.answers(k), p.RunningBefore(k), p.maxSize);
            done.items[run.indices[k]].status == o.status && done.items[run.indices[k]].error == o.error
  {
    hide PurgeOne, Plan.Valid, Plan.Follows, Sum, Cap;
  }

  // ------------------------------------------------- under a cap

  function FateOf(status: ItemStatus): Fate {
    if status == Quarantined then Stored else if status == Purged then Gone else Stays
  }

  /** Whatever a turn came to, the tree is placed again. */
  lemma StatusKeepsPlaced(
    w: World, r: Work, fates: seq<Fate>, t: Tree, k: nat, attempted: bool, status: ItemStatus)
    requires Fits(w, r) && |fates| == |w.paths| == |w.slots|
    requires Placed(w, fates, t) && k < |w.paths| && fates[k] == Stays
    ensures Placed(w, fates[k := FateOf(status)], TreeBy(w, r, t, k, attempted, status))
  {
    hide Placed, Free, Renamed, ReadyFor, World.Ready;
    var ready := ReadyFor(w, r, t, k, attempted);
    ReadyKeeps(w, r, fates, t, k, attempted);
    if status == Quarantined {
      HomeFree(w, fates, ready, k);
      MoveKeeps(w, fates, ready, k);
    } else if status == Purged {
      RemoveKeeps(w, fates, ready, k);
    } else {
      assert fates[k := Stays] == fates;
    }
  }

  /** One turn of a capped run that has already moved and freed `total` bytes. */
  ghost function CappedOutcome(w: World, r: Work, t: Tree, k: nat, total: u64, cap: Option<u64>): Outcome
    requires Fits(w, r) && k < |w.paths|
  {
    var a := TreeAnswers(w, r, t, k);
    if r.actions[k] == Quarantine then
      var attempt := AttemptOne(r.items[k], DestinationOf(w, r, k).(maxSize := cap), a, total);
      Outcome(OutcomeOf(attempt).0, OutcomeOf(attempt).1, MovedOf(attempt))
    else PurgeOne(r.items[k], a, total, cap)
  }

  /** A capped turn moves or removes as the item's action says, when the answers and the total so far allow it. */
  lemma CappedTurnExactly(w: World, r: Work, t: Tree, k: nat, total: u64, cap: Option<u64>)
    requires Fits(w, r) && k < |w.paths| && k < |w.slots|
    ensures var o := CappedOutcome(w, r, t, k, total, cap);
            var item, a, d := r.items[k], TreeAnswers(w, r, t, k), DestinationOf(w, r, k).(maxSize := cap);
            if r.actions[k] == Quarantine then
              && (Attempted(w, r, t, k, total, cap) <==> MayMove(item, d, a, total))
              && (o.status == Quarantined <==> MayMove(item, d, a, total) && a.made.None? && a.moved.Ok?)
              && o.status != Purged && o.bytes == (if o.status == Quarantined then Weight(item, a, cap, r.planned(k)) else 0)
            else
              && !Attempted(w, r, t, k, total, cap)
              && (o.status == Purged <==> MayPurge(item, a, total, cap) && a.removed.None?)
              && o.status != Quarantined
              && o.bytes == (if o.status == Purged then SureBytes(a.restat.value, a.freed) else 0)
  {
    hide TreeAnswers, World.Ready;
    var item, a, d := r.items[k], TreeAnswers(w, r, t, k), DestinationOf(w, r, k).(maxSize := cap);
    if r.actions[k] == Quarantine {
      MovedExactlyWhenAllowed(item, d, a, total);
      CheckedExactly(item, d, a, total);
    } else {
      PurgedExactlyWhenCounted(item, a, total, cap);
    }
    hide Precheck, MayMove, MayPurge, AttemptOne, PurgeOne;
  }

  /** Without a cap the turns are the ones above. */
  lemma {:induction false} UncappedIsWhole(w: World, r: Work, order: seq<nat>)
    requires Fits(w, r) && IsOrder(w, order)
    ensures CappedRun(w, r, order, None).0 == TreeAfter(w, r, order)
    decreases |order|
  {
    if order != [] {
      var n := |order| - 1;
      var k := order[n];
      UncappedIsWhole(w, r, order[..n]);
      var (t, total) := CappedRun(w, r, order[..n], None);
      UncappedTurn(w, r, t, k, total);
      hide CappedOutcome, Attempted, TurnOutcome, TreeBy;
    }
  }

  lemma UncappedTurn(w: World, r: Work, t: Tree, k: nat, total: u64)
    requires Fits(w, r) && k < |w.paths|
    ensures CappedOutcome(w, r, t, k, total, None).status == TurnOutcome(w, r, t, k).0
    ensures Attempted(w, r, t, k, total, None) <==> Attempted(w, r, t, k, 0, None)
  {
    assert k < |w.slots|;
    hide TreeAnswers, World.Ready;
    NoCapNoTotal(r.items[k], DestinationOf(w, r, k), TreeAnswers(w, r, t, k), total, 0);
    assert DestinationOf(w, r, k).(maxSize := None) == DestinationOf(w, r, k);
    hide AttemptOne, PurgeOne;
  }

  /** The tree and the running total after the turns of `order`. */
  ghost function CappedRun(w: World, r: Work, order: seq<nat>, cap: Option<u64>): (Tree, u64)
    requires Fits(w, r) && IsOrder(w, order)
    decreases |order|
  {
    if order == [] then (w.start, 0)
    else
      var (t, total) := CappedRun(w, r, order[..|order| - 1], cap);
      var k := order[|order| - 1];
      var o := CappedOutcome(w, r, t, k, total, cap);
      (TreeBy(w, r, t, k, Attempted(w, r, t, k, total, cap), o.status), SatAdd(total, o.bytes))
  }

  /** Whatever the cap let pass, every object is where some fates put it, and an item without a turn has stayed. */
  lemma {:induction false} CappedRunIsPlaced(w: World, r: Work, order: seq<nat>, cap: Option<u64>)
    returns (fates: seq<Fate>)
    requires Fits(w, r) && IsOrder(w, order)
    ensures |fates| == |w.paths| == |w.slots| && Placed(w, fates, CappedRun(w, r, order, cap).0)
    ensures forall k: nat :: k < |w.paths| && k !in order ==> fates[k] == Stays
    decreases |order|
  {
    if order == [] {
      PlacedAtStart(w);
      fates := seq(|w.paths|, _ => Stays);
    } else {
      hide Placed, World.Ready, CappedOutcome, Attempted, TreeBy;
      var n := |order| - 1;
      var before, k := order[..n], order[n];
      assert order == before + [k] && k !in before;
      fates := CappedRunIsPlaced(w, r, before, cap);
      var (t, total) := CappedRun(w, r, before, cap);
      var status := CappedOutcome(w, r, t, k, total, cap).status;
      StatusKeepsPlaced(w, r, fates, t, k, Attempted(w, r, t, k, total, cap), status);
      fates := fates[k := FateOf(status)];
    }
  }

  /**
   * A turn that finds the approved object ends with one of the disk's own
   * refusals, a volume's or the cap's, or with none.
   */
  lemma FoundItemErrors(w: World, r: Work, t: Tree, k: nat, total: u64, cap: Option<u64>)
    requires Fits(w, r) && k < |w.paths| && w.paths[k] in t && Free(t, w.Home(k))
    requires t[w.paths[k]].device == r.items[k].device && t[w.paths[k]].inode == r.items[k].inode
    ensures var o := CappedOutcome(w, r, t, k, total, cap);
            && o.error != Some(CHANGED_SINCE_CHECK)
            && (o.error == Some(NotFound) ==> Refuses(r, k, TargetNotFound) || r.answers(k).measured == Err(TargetNotFound))
  {
    assert k < |w.slots|;
    hide Free, World.Ready, World.Home;
    CodesApart();
    var a := TreeAnswers(w, r, t, k);
    if r.actions[k] == Quarantine {
      MovedExactlyWhenAllowed(r.items[k], DestinationOf(w, r, k).(maxSize := cap), a, total);
    } else {
      PurgedExactlyWhenCounted(r.items[k], a, total, cap);
    }
  }

  /** With a cap too, in every order: an item whose identity held at the start is still that object at its turn. */
  lemma CappedTurnFindsItsItem(w: World, r: Work, order: seq<nat>, i: nat, cap: Option<u64>)
    requires Fits(w, r) && IsOrder(w, order) && i < |order|
    requires w.paths[order[i]] in w.start && Identified(w, r, order[i])
    ensures IsOrder(w, order[..i])
    ensures var k := order[i];
            var (t, total) := CappedRun(w, r, order[..i], cap);
            var o := CappedOutcome(w, r, t, k, total, cap);
            && w.paths[k] in t && t[w.paths[k]] == w.start[w.paths[k]]
            && o.error != Some(CHANGED_SINCE_CHECK)
            && (o.error == Some(NotFound) ==> Refuses(r, k, TargetNotFound) || r.answers(k).measured == Err(TargetNotFound))
  {
    var before, k := order[..i], order[i];
    assert k !in before;
    var fates := CappedRunIsPlaced(w, r, before, cap);
    var (t, total) := CappedRun(w, r, before, cap);
    hide Placed, Free, World.Ready, CappedRun, CappedOutcome;
    StaysBelow(w, fates, t, k, w.paths[k]);
    HomeFree(w, fates, t, k);
    FoundItemErrors(w, r, t, k, total, cap);
  }
}
