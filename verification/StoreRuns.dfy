/**
 * Closing a restored session, and what holds over every sequence of store
 * operations: stored data leaves the disk only with a report that says so.
 */
module StoreRuns {
  import opened Wrappers
  import opened Bytes
  import opened Paths
  import opened Model
  import opened Entries
  import opened Reconcile
  import opened SessionStore
  import Plan

  // -------------------------------------------------------------- closing

  /** Everything in a session directory that is not the session's own plumbing. */
  function Leftovers(dir: SessionDir): (left: seq<Path>)
    ensures left == [] <==> dir.items == [] && dir.strays == []
  {
    seq(|dir.items|, i requires 0 <= i < |dir.items| => dir.items[i].path) + dir.strays
  }

  function Unlisted(left: seq<Path>, entries: seq<QuarantineEntry>): (u: seq<Path>)
    ensures u == [] <==> forall i :: 0 <= i < |left| ==> Listed(left[i], entries)
  {
    if left == [] then []
    else (if Listed(left[0], entries) then [] else [left[0]]) + Unlisted(left[1..], entries)
  }

  datatype Closing = Closing(untracked: seq<Path>, leftBehind: bool)

  function WriteState(store: Store, id: string, manifest: Session, state: SessionState, a: Answers)
    : (Result<(), BrozaError>, Store)
    requires id in store
  {
    var written := store[id := store[id].(manifest := Written(manifest.(state := state)))];
    match a.write
    case None => (Ok(()), written)
    case Some(failure) => (Err(failure.error), if failure.landed then written else store)
  }

  /** `drop_session`: the re-check, then the removal. */
  function DropSession(root: Path, store: Store, id: string, token: seq<ApprovedItem>, a: Answers)
    : (Result<(), BrozaError>, Store)
  {
    match RecheckDir(token, root, store, id, a)
    case Err(e) => (Err(e), store)
    case Ok(Refused(_)) => (Err(Other), store)
    case Ok(Unchanged) => if a.remove.Some? then (Err(a.remove.value), store) else (Ok(()), store - {id})
  }

  /** `close`: remove an emptied session, or leave it in a state that can be retried. */
  function Close(
    root: Path, store: Store, id: string, manifest: Session, token: seq<ApprovedItem>, a: Answers, retryable: bool)
    : (Result<Closing, BrozaError>, Store)
  {
    if a.read.Some? || id !in store then (Err(if a.read.Some? then a.read.value else TargetNotFound), store)
    else
      var left := Leftovers(store[id]);
      var untracked := Unlisted(left, manifest.entries);
      if untracked != [] then
        var (w, after) := WriteState(store, id, manifest, Restoring, a);
        (if w.Err? then Err(w.error) else Ok(Closing(untracked, false)), after)
      else if left != [] then
        var (w, after) := WriteState(store, id, manifest, if retryable then Restoring else Complete, a);
        (if w.Err? then Err(w.error) else Ok(Closing([], false)), after)
      else
        var (d, after) := DropSession(root, store, id, token, a);
        if d.Ok? then (Ok(Closing([], false)), after)
        else
          var (w, after) := WriteState(store, id, manifest, Complete, a);
          (if w.Err? then Err(w.error) else Ok(Closing([], true)), after)
  }

  /** Something lies in the session's directory that no entry of the manifest names. */
  ghost predicate Strange(dir: SessionDir, manifest: Session, p: Path) {
    && ((exists i :: 0 <= i < |dir.items| && dir.items[i].path == p) || p in dir.strays)
    && forall j :: 0 <= j < |manifest.entries| ==> manifest.entries[j].stored != Some(p)
  }

  /** The state a session that is kept is left in: retried if it holds what it should not, or what did not go back. */
  ghost function KeptState(dir: SessionDir, manifest: Session, retryable: bool): SessionState {
    if exists p :: Strange(dir, manifest, p) then Restoring
    else if retryable && (dir.items != [] || dir.strays != []) then Restoring
    else Complete
  }

  lemma {:induction false} UnlistedExactly(left: seq<Path>, entries: seq<QuarantineEntry>, p: Path)
    ensures p in Unlisted(left, entries) <==> p in left && !Listed(p, entries)
  {
    if left != [] {
      hide Listed;
      UnlistedExactly(left[1..], entries, p);
      assert left == [left[0]] + left[1..];
    }
  }

  lemma LeftoversExactly(dir: SessionDir, manifest: Session, p: Path)
    ensures p in Unlisted(Leftovers(dir), manifest.entries) <==> Strange(dir, manifest, p)
  {
    UnlistedExactly(Leftovers(dir), manifest.entries, p);
    var left := Leftovers(dir);
    assert p in left <==> (exists i :: 0 <= i < |dir.items| && dir.items[i].path == p) || p in dir.strays by {
      if i :| 0 <= i < |dir.items| && dir.items[i].path == p {
        assert left[i] == p;
      }
      if i :| 0 <= i < |dir.strays| && dir.strays[i] == p {
        assert left[|dir.items| + i] == p;
      }
    }
    hide Leftovers, Unlisted;
  }

  /**
   * Closing removes a directory exactly when the disk - not the manifest - says
   * nothing is in it, it is the very one approved and the removal is allowed. It
   * never touches a stored item or another session; one that is kept is left in
   * the state that says what to do about it, and what its manifest does not list
   * is reported.
   */
  lemma CloseExactly(
    root: Path, store: Store, id: string, manifest: Session, token: seq<ApprovedItem>, a: Answers, retryable: bool)
    ensures var (r, after) := Close(root, store, id, manifest, token, a, retryable);
            if a.read.Some? || id !in store then
              r == Err(if a.read.Some? then a.read.value else TargetNotFound) && after == store
            else
              var dir := store[id];
              var empty := dir.items == [] && dir.strays == [];
              var goes := empty && a.stat.None? && Vouched(token, root, store, id) && a.remove.None?;
              && (goes ==> r == Ok(Closing([], false)) && after == store - {id})
              && (!goes ==>
                    && (r.Ok? <==> a.write.None?)
                    && (r.Ok? ==> (r.value.leftBehind <==> empty))
                    && after == (if a.write.None? || a.write.value.landed
                                 then store[id := dir.(manifest :=
                                              Written(manifest.(state := KeptState(dir, manifest, retryable))))]
                                 else store))
              && (r.Ok? ==> forall p :: p in r.value.untracked <==> Strange(dir, manifest, p))
  {
    if id in store {
      var dir := store[id];
      RecheckExactly(token, root, store, id, a);
      forall p ensures p in Unlisted(Leftovers(dir), manifest.entries) <==> Strange(dir, manifest, p) {
        LeftoversExactly(dir, manifest, p);
      }
      hide RecheckDir, Listed, Vouched, Strange, Leftovers, Unlisted;
      var untracked := Unlisted(Leftovers(dir), manifest.entries);
      if untracked != [] {
        assert untracked[0] in untracked;
      }
    }
  }

  // ----------------------------------------------------- sequences of operations

  /**
   * One store operation. `Rewrite` is any manifest write, including one that
   * lost track of items; `Arrive` and `PutBack` are the renames in and out.
   */
  datatype Op =
    | Claim(id: string, device: nat, inode: nat)
    | Rewrite(id: string, written: ManifestFile)
    | Arrive(id: string, item: StoredItem)
    | PutBack(id: string, path: Path)
    | CloseSession(id: string, listed: Session, token: seq<ApprovedItem>, a: Answers, retryable: bool)
    | Reclaim(token: seq<ApprovedItem>, ids: seq<string>, op: OperationKind, answers: nat -> Answers)

  function WithoutItem(items: seq<StoredItem>, path: Path): (r: seq<StoredItem>)
    ensures forall x :: x in r <==> x in items && x.path != path
  {
    if items == [] then []
    else (if items[0].path == path then [] else [items[0]]) + WithoutItem(items[1..], path)
  }

  function Step(root: Path, store: Store, op: Op): Store {
    match op
    case Claim(id, device, inode) =>
      if id in store then store else store[id := SessionDir(device, inode, Missing, [], [])]
    case Rewrite(id, manifest) => if id in store then store[id := store[id].(manifest := manifest)] else store
    case Arrive(id, item) =>
      if id in store then store[id := store[id].(items := store[id].items + [item])] else store
    case PutBack(id, path) =>
      if id in store then store[id := store[id].(items := WithoutItem(store[id].items, path))] else store
    case CloseSession(id, manifest, token, a, retryable) => Close(root, store, id, manifest, token, a, retryable).1
    case Reclaim(token, ids, op, answers) => RemoveAll(root, token, store, ids, op, answers).1
  }

  /** Writing, arriving and going back do what they say, and to that session alone. */
  lemma StepsHappen(root: Path, store: Store, op: Op)
    requires op.Rewrite? || op.Arrive? || op.PutBack?
    ensures var after := Step(root, store, op);
            && after.Keys == store.Keys
            && (forall id :: id in store && id != op.id ==> after[id] == store[id])
            && (op.id in store ==>
                  && (op.Rewrite? ==> after[op.id] == store[op.id].(manifest := op.written))
                  && (op.Arrive? ==> Holds(after, op.id, op.item.path))
                  && (op.PutBack? ==> !Holds(after, op.id, op.path)))
  {
    hide RemoveAll, Close, Worth;
    if op.Arrive? && op.id in store {
      var items := Step(root, store, op)[op.id].items;
      assert items[|items| - 1] == op.item;
    }
  }

  function After(root: Path, store: Store, ops: seq<Op>): Store
    decreases |ops|
  {
    if ops == [] then store else Step(root, After(root, store, ops[..|ops| - 1]), ops[|ops| - 1])
  }

  ghost predicate Holds(store: Store, id: string, path: Path) {
    id in store && exists i :: 0 <= i < |store[id].items| && store[id].items[i].path == path
  }

  /** The operation accounts for the item's leaving: it went back out, or its session is reported `purged`. */
  ghost predicate Explains(root: Path, store: Store, op: Op, id: string, path: Path) {
    || op == PutBack(id, path)
    || (op.Reclaim? && var r := RemoveAll(root, op.token, store, op.ids, op.op, op.answers).0;
        r.Ok? && exists i :: 0 <= i < |r.value| && r.value[i].session.id == id && r.value[i].session.status == Purged)
  }

  /** A purge or expiry that removed the session and then ended in an error, and so reported nothing. */
  ghost predicate Unreported(root: Path, store: Store, op: Op, id: string) {
    && op.Reclaim? && RemoveAll(root, op.token, store, op.ids, op.op, op.answers).0.Err?
    && id in op.ids && id in store && id !in Step(root, store, op)
  }

  /** A removal takes only sessions it was asked to take, whether or not it completes. */
  lemma {:induction false} RemovesOnlyNamed(
    root: Path, token: seq<ApprovedItem>, store: Store, ids: seq<string>, op: OperationKind, answers: nat -> Answers,
    id: string)
    requires id in store && id !in RemoveAll(root, token, store, ids, op, answers).1
    ensures id in ids
    decreases |ids|
  {
    if ids != [] {
      hide RemoveSession, Worth;
      var n := |ids| - 1;
      var (before, between) := RemoveAll(root, token, store, ids[..n], op, answers);
      if id !in between {
        RemovesOnlyNamed(root, token, store, ids[..n], op, answers, id);
      } else if before.Ok? {
        RemoveSessionExactly(root, token, between, ids[n], op, answers(n));
      }
    }
  }

  /** Claiming, writing and moves leave every other item where it is. */
  lemma QuietStepKeeps(root: Path, store: Store, op: Op, id: string, path: Path)
    requires Holds(store, id, path) && !op.CloseSession? && !op.Reclaim? && op != PutBack(id, path)
    ensures Holds(Step(root, store, op), id, path)
  {
    hide RemoveAll, Close, Worth;
    var after := Step(root, store, op);
    var i :| 0 <= i < |store[id].items| && store[id].items[i].path == path;
    if op.PutBack? && op.id == id {
      assert store[id].items[i] in WithoutItem(store[id].items, op.path);
    } else {
      assert id in after && i < |after[id].items| && after[id].items[i] == store[id].items[i];
    }
  }

  /** One operation: a stored item is still there, or the operation explains why not, or it took the session and failed. */
  lemma StepKeepsItem(root: Path, store: Store, op: Op, id: string, path: Path)
    requires Holds(store, id, path)
    ensures || Holds(Step(root, store, op), id, path) || Explains(root, store, op, id, path)
            || Unreported(root, store, op, id)
  {
    hide RemoveAll, Close, Worth;
    var after := Step(root, store, op);
    if op.CloseSession? {
      CloseExactly(root, store, op.id, op.listed, op.token, op.a, op.retryable);
      if id in after {
        assert after[id].items == store[id].items;
      }
    } else if op.Reclaim? {
      RemoveAllIsAccounted(root, op.token, store, op.ids, op.op, op.answers);
      var (r, _) := RemoveAll(root, op.token, store, op.ids, op.op, op.answers);
      if id in after {
        assert after[id] == store[id];
      } else {
        RemovesOnlyNamed(root, op.token, store, op.ids, op.op, op.answers, id);
        if r.Ok? {
          var k :| 0 <= k < |op.ids| && op.ids[k] == id && r.value[k].session.status == Purged;
          assert LineTells(store, after, op.ids[k], r.value[k]);
        }
      }
    } else if op != PutBack(id, path) {
      QuietStepKeeps(root, store, op, id, path);
    }
  }

  /**
   * Over every sequence of operations, with manifests rewritten arbitrarily in
   * between: an item that was in the store and is not any more left at some step
   * that held it and lost it, and that step put it back, or reports its session
   * as `purged`, or is a call that took its session and then failed.
   */
  lemma {:induction false} NothingLeavesUnexplained(root: Path, store: Store, ops: seq<Op>, id: string, path: Path)
    requires Holds(store, id, path)
    ensures Holds(After(root, store, ops), id, path)
            || exists k :: 0 <= k < |ops| && Left(root, store, ops, k, id, path)
    decreases |ops|
  {
    if ops != [] {
      hide Step, Holds, Explains, Unreported;
      var n := |ops| - 1;
      var front := ops[..n];
      NothingLeavesUnexplained(root, store, front, id, path);
      if Holds(After(root, store, front), id, path) {
        StepKeepsItem(root, After(root, store, front), ops[n], id, path);
        assert Holds(After(root, store, ops), id, path) || Left(root, store, ops, n, id, path);
      } else {
        var k :| 0 <= k < |front| && Left(root, store, front, k, id, path);
        assert front[..k] == ops[..k] && front[k] == ops[k];
        assert Left(root, store, ops, k, id, path);
      }
    }
  }

  /** Step `k` is where the item left, and it left in one of the three ways there are. */
  ghost predicate Left(root: Path, store: Store, ops: seq<Op>, k: nat, id: string, path: Path)
    requires k < |ops|
  {
    var before := After(root, store, ops[..k]);
    && Holds(before, id, path) && !Holds(Step(root, before, ops[k]), id, path)
    && (Explains(root, before, ops[k], id, path) || Unreported(root, before, ops[k], id))
  }

  /** A session that is being restored, or holds an item its manifest does not list. */
  ghost predicate Unaccounted(store: Store, id: string) {
    && id in store && store[id].manifest.Written?
    && (store[id].manifest.session.state.Restoring?
        || exists i :: 0 <= i < |store[id].items|
                       && !Listed(store[id].items[i].path, store[id].manifest.session.entries))
  }

  lemma UnaccountedStays(root: Path, token: seq<ApprovedItem>, store: Store, id: string, a: Answers)
    requires Unaccounted(store, id)
    ensures RemoveSession(root, token, store, id, Expire, a).1 == store
  {
    if !store[id].manifest.session.state.Restoring? {
      var m, items := store[id].manifest.session, store[id].items;
      var i :| 0 <= i < |items| && !Listed(items[i].path, m.entries);
      SettlingListsNoMore(m.entries, OnDisk(items), items[i].path);
    }
    RemoveSessionExactly(root, token, store, id, Expire, a);
  }

  /** An unattended expiry of any sessions leaves every unaccounted one exactly as it was, completed or not. */
  lemma {:induction false} ExpirySparesUnaccounted(
    root: Path, token: seq<ApprovedItem>, store: Store, ids: seq<string>, answers: nat -> Answers, id: string)
    requires Unaccounted(store, id)
    ensures var after := RemoveAll(root, token, store, ids, Expire, answers).1;
            id in after && after[id] == store[id]
    decreases |ids|
  {
    if ids != [] {
      hide RemoveSession, Worth, Listed;
      var n := |ids| - 1;
      ExpirySparesUnaccounted(root, token, store, ids[..n], answers, id);
      var (before, between) := RemoveAll(root, token, store, ids[..n], Expire, answers);
      if before.Ok? {
        if ids[n] == id {
          UnaccountedStays(root, token, between, id, answers(n));
        } else {
          RemoveSessionExactly(root, token, between, ids[n], Expire, answers(n));
        }
      }
    }
  }

  /** So in every run: what an item's leaving is blamed on is never an expiry of a session unaccounted for. */
  lemma ExpiryIsNeverToBlame(root: Path, store: Store, ops: seq<Op>, k: nat, id: string, path: Path)
    requires k < |ops| && Left(root, store, ops, k, id, path) && Unaccounted(After(root, store, ops[..k]), id)
    ensures !(ops[k].Reclaim? && ops[k].op.Expire?)
  {
    hide RemoveAll, After, Unaccounted, Explains, Unreported;
    var before := After(root, store, ops[..k]);
    if ops[k].Reclaim? && ops[k].op.Expire? {
      ExpirySparesUnaccounted(root, ops[k].token, before, ops[k].ids, ops[k].answers, id);
    }
  }

  /** Settling entries against the disk can drop a stored path, never add one. */
  lemma SettlingListsNoMore(entries: seq<QuarantineEntry>, onDisk: set<Path>, p: Path)
    ensures Listed(p, Settled(entries, onDisk)) ==> Listed(p, entries)
  {
  }

  // ---------------------------------------------------- what `clean` reports

  datatype Answer = Yes | No | NoTty

  datatype Expiry = Expiry(sessions: seq<Plan.ExpiredSession>, freed: u64, errors: seq<ErrorEntry>)

  /** The sessions removed, as the plan lists them. */
  function ExpiredLines(lines: seq<ReclaimSession>): seq<Plan.ExpiredSession> {
    if lines == [] then []
    else
      (if lines[0].status == Purged then [Plan.ExpiredSession(lines[0].id, lines[0].total)] else [])
      + ExpiredLines(lines[1..])
  }

  function FreedOf(lines: seq<Plan.ExpiredSession>): (s: seq<u64>)
    ensures |s| == |lines| && forall i :: 0 <= i < |s| ==> s[i] == lines[i].freed
  {
    seq(|lines|, i requires 0 <= i < |lines| => lines[i].freed)
  }

  /**
   * `expire_due`, from the sessions found due on: nothing due, a declined
   * prompt and a call that failed all expire nothing the plan hears of.
   */
  function ExpireDue(
    root: Path, store: Store, due: seq<string>, yes: bool, answer: Answer,
    token: Result<seq<ApprovedItem>, BrozaError>, answers: nat -> Answers)
    : (Expiry, Store)
  {
    var nothing := Expiry([], 0, []);
    if due == [] || (!yes && answer != Yes) || token.Err? then (nothing, store)
    else
      var (r, after) := RemoveAll(root, token.value, store, due, Expire, answers);
      if r.Err? then (nothing, after)
      else
        var report := Report(Expire, r.value);
        (Expiry(ExpiredLines(report.sessions), report.reclaimed, report.errors), after)
  }

  predicate Lists(sessions: seq<Plan.ExpiredSession>, id: string) {
    exists i :: 0 <= i < |sessions| && sessions[i].id == id
  }

  /** The expiry step gets as far as removing. */
  predicate Asked(due: seq<string>, yes: bool, answer: Answer, token: Result<seq<ApprovedItem>, BrozaError>) {
    due != [] && (yes || answer == Yes) && token.Ok?
  }

  /**
   * What the expiry step takes, and what is heard of it: the sessions it took are
   * listed and every other due one has an error, unless some removal was fatal, and
   * then there is neither.
   */
  lemma ExpiryTellsExactly(
    root: Path, store: Store, due: seq<string>, yes: bool, answer: Answer,
    token: Result<seq<ApprovedItem>, BrozaError>, answers: nat -> Answers, id: string)
    requires id in store
    ensures var (expiry, after) := ExpireDue(root, store, due, yes, answer, token, answers);
            && (id !in after <==>
                  Asked(due, yes, answer, token) && TakenInTime(root, token.value, store, due, Expire, answers, id))
            && (Lists(expiry.sessions, id) <==>
                  id !in after && !exists k: nat :: FatalAt(root, token.value, store, due, Expire, answers, k))
            && (Asked(due, yes, answer, token) && id in due && !Lists(expiry.sessions, id)
                && (!exists k: nat :: FatalAt(root, token.value, store, due, Expire, answers, k)) ==>
                  exists e :: e in expiry.errors && e.id == id)
            && (forall e :: e in expiry.errors ==> e.id in due)
  {
    hide RemoveAll, TakenInTime, FatalAt, Worth;
    if Asked(due, yes, answer, token) {
      var (r, after) := RemoveAll(root, token.value, store, due, Expire, answers);
      TakenExactly(root, token.value, store, due, Expire, answers, id);
      NoReportExactly(root, token.value, store, due, Expire, answers);
      RemoveAllIsAccounted(root, token.value, store, due, Expire, answers);
      if r.Ok? {
        ExpiredLinesList(r.value, id);
        AccountedLists(store, after, due, r.value, id);
        AccountedErrors(store, after, due, r.value, id);
      }
    }
  }

  /** The report of a completed call has a `purged` line for exactly the sessions that went. */
  lemma AccountedLists(store: Store, after: Store, ids: seq<string>, removed: seq<Removed>, id: string)
    requires Accounted(store, after, ids, removed) && id in store
    ensures id !in after <==> exists i :: 0 <= i < |removed| && TellsOf(removed[i], id)
  {
    hide Worth;
    if id !in after {
      var i :| 0 <= i < |ids| && ids[i] == id && removed[i].session.status == Purged;
      assert LineTells(store, after, ids[i], removed[i]);
    } else if i :| 0 <= i < |removed| && TellsOf(removed[i], id) {
      assert LineTells(store, after, ids[i], removed[i]);
    }
  }

  /** A line that reports the session as removed. */
  predicate TellsOf(line: Removed, id: string) {
    line.session.id == id && line.session.status == Purged
  }

  lemma AccountedErrors(store: Store, after: Store, ids: seq<string>, removed: seq<Removed>, id: string)
    requires Accounted(store, after, ids, removed)
    ensures id in ids && (forall i :: 0 <= i < |removed| ==> !TellsOf(removed[i], id)) ==>
              exists e :: e in ErrorsOf(removed) && e.id == id
    ensures forall e :: e in ErrorsOf(removed) ==> e.id in ids
  {
    hide Worth;
    if id in ids && (forall i :: 0 <= i < |removed| ==> !TellsOf(removed[i], id)) {
      var k :| 0 <= k < |ids| && ids[k] == id;
      assert LineTells(store, after, ids[k], removed[k]) && !TellsOf(removed[k], id);
      assert removed[k].errors[0] in removed[k].errors;
    }
    forall e | e in ErrorsOf(removed) ensures e.id in ids {
      var k :| 0 <= k < |removed| && e in removed[k].errors;
      assert LineTells(store, after, ids[k], removed[k]);
    }
  }

  lemma {:induction false} ExpiredLinesList(removed: seq<Removed>, id: string)
    ensures Lists(ExpiredLines(LinesOf(removed)), id) <==> exists i :: 0 <= i < |removed| && TellsOf(removed[i], id)
  {
    if removed != [] {
      var first, rest := removed[0].session, removed[1..];
      var line := if first.status == Purged then [Plan.ExpiredSession(first.id, first.total)] else [];
      ExpiredLinesList(rest, id);
      ListsConcat(line, ExpiredLines(LinesOf(rest)), id);
      assert LinesOf(removed)[1..] == LinesOf(rest);
      assert ExpiredLines(LinesOf(removed)) == line + ExpiredLines(LinesOf(rest));
      assert Lists(line, id) <==> TellsOf(removed[0], id) by {
        assert TellsOf(removed[0], id) ==> line[0].id == id;
      }
      hide TellsOf, Lists, ExpiredLines;
      assert forall i :: 0 < i < |removed| ==> removed[i] == rest[i - 1];
      assert forall i :: 0 <= i < |rest| ==> rest[i] == removed[i + 1];
    }
  }

  lemma ListsConcat(a: seq<Plan.ExpiredSession>, b: seq<Plan.ExpiredSession>, id: string)
    ensures Lists(a + b, id) <==> Lists(a, id) || Lists(b, id)
  {
    if i :| 0 <= i < |a| && a[i].id == id {
      assert (a + b)[i].id == id;
    }
    if i :| 0 <= i < |b| && b[i].id == id {
      assert (a + b)[|a| + i].id == id;
    }
  }

  /** A `purged` line's total is what it reclaimed; any other reclaimed nothing. */
  predicate TotalTells(line: Removed) {
    if line.session.status == Purged then line.session.total == line.reclaimed else line.reclaimed == 0
  }

  lemma {:induction false} ExpiredLinesSum(removed: seq<Removed>)
    requires forall i :: 0 <= i < |removed| ==> TotalTells(removed[i])
    ensures Sum(FreedOf(ExpiredLines(LinesOf(removed)))) == Sum(ReclaimedOf(removed))
  {
    if removed != [] {
      var first, rest := removed[0], removed[1..];
      ExpiredLinesSum(rest);
      assert LinesOf(removed)[1..] == LinesOf(rest);
      assert ReclaimedOf(removed)[1..] == ReclaimedOf(rest);
      var lines := ExpiredLines(LinesOf(rest));
      if first.session.status == Purged {
        assert ExpiredLines(LinesOf(removed)) == [Plan.ExpiredSession(first.session.id, first.session.total)] + lines;
        assert FreedOf([Plan.ExpiredSession(first.session.id, first.session.total)] + lines)[1..] == FreedOf(lines);
      } else {
        assert ExpiredLines(LinesOf(removed)) == [] + lines == lines;
      }
    }
  }

  /** An expiry adds to a counter what its listed sessions freed, capped once. */
  lemma ExpiryAddsItsLines(
    root: Path, store: Store, due: seq<string>, yes: bool, answer: Answer,
    token: Result<seq<ApprovedItem>, BrozaError>, answers: nat -> Answers, purged: nat)
    ensures var expiry := ExpireDue(root, store, due, yes, answer, token, answers).0;
            SatAdd(Cap(purged), expiry.freed) == Cap(purged + Sum(FreedOf(expiry.sessions)))
  {
    hide RemoveSession, Worth;
    var expiry := ExpireDue(root, store, due, yes, answer, token, answers).0;
    if expiry.sessions == [] && expiry.freed == 0 {
      assert FreedOf(expiry.sessions) == [];
    } else {
      var (r, after) := RemoveAll(root, token.value, store, due, Expire, answers);
      RemoveAllIsAccounted(root, token.value, store, due, Expire, answers);
      RemovedTotals(root, token.value, store, due, Expire, answers);
      ExpiredLinesSum(r.value);
      SatFoldIsCappedSum(0, ReclaimedOf(r.value));
    }
  }

  lemma {:induction false} RemovedTotals(
    root: Path, token: seq<ApprovedItem>, store: Store, ids: seq<string>, op: OperationKind, answers: nat -> Answers)
    ensures var r := RemoveAll(root, token, store, ids, op, answers).0;
            r.Ok? ==> forall i :: 0 <= i < |r.value| ==> TotalTells(r.value[i])
    decreases |ids|
  {
    if ids != [] {
      hide RemoveSession, Worth;
      var n := |ids| - 1;
      RemovedTotals(root, token, store, ids[..n], op, answers);
      var (before, between) := RemoveAll(root, token, store, ids[..n], op, answers);
      RemoveSessionExactly(root, token, between, ids[n], op, answers(n));
      var (last, after) := RemoveSession(root, token, between, ids[n], op, answers(n));
      if before.Ok? && last.Ok? {
        assert TotalTells(last.value);
        var all := before.value + [last.value];
        assert RemoveAll(root, token, store, ids, op, answers).0 == Ok(all);
        forall i | 0 <= i < |all| ensures TotalTells(all[i]) {
          assert i == |before.value| || all[i] == before.value[i];
        }
      }
    }
  }
}
