/** `clean --apply`: the expiry step and the executed plan folded into one report. */
module CleanRun {
  import opened Wrappers
  import opened Bytes
  import opened Paths
  import opened Model
  import opened Plan
  import Ids
  import Executor
  import SessionStart
  import SessionStore
  import StoreRuns

  /** The end of `execute`: the expired sessions join the plan, and their bytes its counter. */
  function Folded(done: CleanPlan, expiry: StoreRuns.Expiry): Result<CleanPlan, BrozaError> {
    var listed :- WithExpired(done, expiry.sessions);
    WithBytes(listed, done.quarantined, SatAdd(done.reclaimed, expiry.freed))
  }

  /** The end of `nothing_to_move`. */
  function ExpiredOnly(plan: CleanPlan, expiry: StoreRuns.Expiry): Result<CleanPlan, BrozaError> {
    var listed :- WithExpired(plan, expiry.sessions);
    WithBytes(listed, 0, expiry.freed)
  }

  /** The report exists and counts `purged` and the expired sessions' bytes as reclaimed, `moved` apart. */
  ghost predicate ReportTells(done: CleanPlan, expiry: StoreRuns.Expiry, purged: nat, moved: nat) {
    var report := Folded(done, expiry);
    && report.Ok? && Valid(report.value)
    && report.value.items == done.items && report.value.expired == expiry.sessions
    && report.value.sessionId == done.sessionId && report.value.quarantinePath == done.quarantinePath
    && report.value.reclaimed == Cap(purged + Sum(StoreRuns.FreedOf(expiry.sessions)))
    && report.value.quarantined == Cap(moved)
  }

  lemma FoldTells(done: CleanPlan, expiry: StoreRuns.Expiry, purged: nat, moved: nat)
    requires Valid(done) && !done.dryRun && done.reclaimed == Cap(purged) && done.quarantined == Cap(moved)
    requires SatAdd(Cap(purged), expiry.freed) == Cap(purged + Sum(StoreRuns.FreedOf(expiry.sessions)))
    ensures ReportTells(done, expiry, purged, moved)
  {
    hide Sum, Valid, Folded;
    FoldedExactly(done, expiry);
  }

  lemma ExecutedIsApplied(r: Executor.Run, done: CleanPlan)
    requires Executor.Executed(r, done)
    ensures Valid(done) && !done.dryRun
  {
    hide Valid, Follows, Sum, Cap;
  }

  /**
   * For any answers of the disk to the run and to the expiry: the report exists,
   * its `reclaimed_bytes` is what the items recorded `purged` freed plus the
   * `freed_bytes` of the sessions it lists as expired, capped once, and what was
   * quarantined is counted apart.
   */
  lemma CleanReclaimsExpiredAndPurged(
    r: Executor.Run, done: CleanPlan, root: Path, store: SessionStore.Store, due: seq<string>, yes: bool,
    answer: StoreRuns.Answer, token: Result<seq<ApprovedItem>, BrozaError>, answers: nat -> SessionStore.Answers)
    requires Executor.Executed(r, done)
    ensures ReportTells(
              done, StoreRuns.ExpireDue(root, store, due, yes, answer, token, answers).0,
              Sum(Executor.ReclaimedBytes(r, done)), Sum(Executor.MovedInBytes(r, done)))
  {
    hide *;
    ExecutedIsApplied(r, done);
    Executor.CountersMatchOutcomes(r, done);
    var purged, moved := Sum(Executor.ReclaimedBytes(r, done)), Sum(Executor.MovedInBytes(r, done));
    StoreRuns.ExpiryAddsItsLines(root, store, due, yes, answer, token, answers, purged);
    FoldTells(done, StoreRuns.ExpireDue(root, store, due, yes, answer, token, answers).0, purged, moved);
  }

  lemma FoldedExactly(done: CleanPlan, expiry: StoreRuns.Expiry)
    requires Valid(done) && !done.dryRun
    ensures Folded(done, expiry)
            == Ok(done.(expired := expiry.sessions, reclaimed := SatAdd(done.reclaimed, expiry.freed)))
    ensures Valid(Folded(done, expiry).value)
  {
    UpdatesExactly(done, None, 0, 0, expiry.sessions, done.sessionId);
    var reclaimed := SatAdd(done.reclaimed, expiry.freed);
    UpdatesExactly(done.(expired := expiry.sessions), None, done.quarantined, reclaimed, [], done.sessionId);
  }

  /** With nothing left to move the expiry still runs, and the counter is what its sessions freed. */
  lemma NothingToMoveReclaimsExpired(
    plan: CleanPlan, root: Path, store: SessionStore.Store, due: seq<string>, yes: bool, answer: StoreRuns.Answer,
    token: Result<seq<ApprovedItem>, BrozaError>, answers: nat -> SessionStore.Answers)
    requires Valid(plan) && !plan.dryRun
    ensures var expiry := StoreRuns.ExpireDue(root, store, due, yes, answer, token, answers).0;
            var report := ExpiredOnly(plan, expiry);
            && report.Ok? && report.value.items == plan.items && report.value.expired == expiry.sessions
            && report.value.reclaimed == Cap(Sum(StoreRuns.FreedOf(expiry.sessions)))
            && report.value.quarantined == 0
  {
    hide StoreRuns.ExpireDue, Sum;
    var expiry := StoreRuns.ExpireDue(root, store, due, yes, answer, token, answers).0;
    StoreRuns.ExpiryAddsItsLines(root, store, due, yes, answer, token, answers, 0);
    UpdatesExactly(plan, None, 0, 0, expiry.sessions, plan.sessionId);
    UpdatesExactly(plan.(expired := expiry.sessions), None, 0, expiry.freed, [], plan.sessionId);
  }

  /**
   * The end of `clean --apply`, once confirmed: what is due expires first, then the
   * plan is executed, and only a run that does not stop reports either. A session
   * goes with no word of it exactly when the expiry takes it and then the run
   * stops, or a removal of that expiry was fatal.
   */
  method Apply(
    token: Executor.Token, answers: nat -> Executor.Answers, maxSize: Option<u64>, opening: SessionStart.Opening,
    calendar: Ids.Calendar, finished: Option<BrozaError>, root: Path, store: SessionStore.Store, due: seq<string>,
    yes: bool, answer: StoreRuns.Answer, dirs: Result<seq<ApprovedItem>, BrozaError>,
    removals: nat -> SessionStore.Answers)
    returns (res: Result<CleanPlan, BrozaError>, after: SessionStore.Store)
    requires Valid(token.plan) && !token.plan.dryRun && token.plan.quarantined == 0 && token.plan.reclaimed == 0
    requires Ids.IsSessionId(token.plan.sessionId, calendar)
    ensures var r := Executor.RunOf(token, answers, maxSize, opening);
            var expiry := StoreRuns.ExpireDue(root, store, due, yes, answer, dirs, removals);
            && after == expiry.1 && (res.Err? <==> Executor.Stops(r, opening, finished))
            && (res.Ok? ==> exists done :: Executor.Executed(r, done) && Folded(done, expiry.0) == res
                              && ReportTells(done, expiry.0, Sum(Executor.ReclaimedBytes(r, done)),
                                             Sum(Executor.MovedInBytes(r, done))))
    ensures var r := Executor.RunOf(token, answers, maxSize, opening);
            forall id :: id in store ==>
              (id !in after && !(res.Ok? && StoreRuns.Lists(res.value.expired, id)) <==>
                && StoreRuns.Asked(due, yes, answer, dirs)
                && SessionStore.TakenInTime(root, dirs.value, store, due, SessionStore.Expire, removals, id)
                && (Executor.Stops(r, opening, finished)
                    || exists k: nat ::
                         SessionStore.FatalAt(root, dirs.value, store, due, SessionStore.Expire, removals, k)))
  {
    hide *;
    var expired := StoreRuns.ExpireDue(root, store, due, yes, answer, dirs, removals);
    after := expired.1;
    var done, calls, warnings := Executor.Execute(token, answers, maxSize, opening, calendar, finished);
    forall id | id in store {
      StoreRuns.ExpiryTellsExactly(root, store, due, yes, answer, dirs, removals, id);
    }
    if done.Err? {
      return done, after;
    }
    var r := Executor.RunOf(token, answers, maxSize, opening);
    CleanReclaimsExpiredAndPurged(r, done.value, root, store, due, yes, answer, dirs, removals);
    ReportLists(
      done.value, expired.0, Sum(Executor.ReclaimedBytes(r, done.value)), Sum(Executor.MovedInBytes(r, done.value)));
    res := Folded(done.value, expired.0);
  }

  lemma ReportLists(done: CleanPlan, expiry: StoreRuns.Expiry, purged: nat, moved: nat)
    requires ReportTells(done, expiry, purged, moved)
    ensures Folded(done, expiry).Ok? && Folded(done, expiry).value.expired == expiry.sessions
  {
  }

  /** The store's one due session goes, the first manifest of the run cannot be written, and nobody hears of either. */
  lemma CleanCanLoseItsReport(
    r: Executor.Run, opening: SessionStart.Opening, finished: Option<BrozaError>, root: Path,
    answers: nat -> SessionStore.Answers)
    requires Executor.AnyToMove(r) && opening.written.Some?
    requires answers(0) == SessionStore.Answers(None, SessionStore.Held, None, None, None)
    ensures var store := map["a" := SessionStore.EmptySession("a", 2)];
            var dirs := Ok([ApprovedPath(WritablePath(SessionStore.DirOf(root, "a"), 1, 2, true))]);
            && Executor.Stops(r, opening, finished)
            && "a" !in StoreRuns.ExpireDue(root, store, ["a"], true, StoreRuns.Yes, dirs, answers).1
  {
    var store := map["a" := SessionStore.EmptySession("a", 2)];
    var token := [ApprovedPath(WritablePath(SessionStore.DirOf(root, "a"), 1, 2, true))];
    SessionStore.GoesExactly(root, token, store, "a", SessionStore.Expire, answers(0));
    assert SessionStore.Goes(root, token, store, "a", SessionStore.Expire, answers(0));
    assert SessionStore.TakesAt(root, token, store, ["a"], SessionStore.Expire, answers, "a", 0);
    hide StoreRuns.ExpireDue, SessionStore.TakesAt, SessionStore.Goes, SessionStore.EmptySession;
    StoreRuns.ExpiryTellsExactly(root, store, ["a"], true, StoreRuns.Yes, Ok(token), answers, "a");
  }
}
