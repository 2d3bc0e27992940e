/** The clean plan: a value that cannot exist unless it validates. */
module Plan {
  import opened Wrappers
  import opened Bytes
  import opened Paths
  import opened Model

  datatype CleanItem = CleanItem(
    path: Path, findingId: string, size: u64, status: ItemStatus, action: Action,
    error: Option<ItemErrorCode>, snapshot: Option<SnapshotRef>)

  datatype ExpiredSession = ExpiredSession(id: string, freed: u64)

  datatype CleanPlan = CleanPlan(
    dryRun: bool, sessionId: string, planned: u64, quarantined: u64, reclaimed: u64,
    quarantinePath: Option<Path>, expired: seq<ExpiredSession>, items: seq<CleanItem>)

  function Sizes(items: seq<CleanItem>): (s: seq<u64>)
    ensures |s| == |items| && forall i :: 0 <= i < |s| ==> s[i] == items[i].size
  {
    seq(|items|, i requires 0 <= i < |items| => items[i].size)
  }

  predicate Valid(p: CleanPlan) {
    && CheckedFold(0, Sizes(p.items)) == Some(p.planned)
    && (forall i :: 0 <= i < |p.items| && p.items[i].error.Some? ==> p.items[i].status.IsUnsuccessful())
    && (p.dryRun ==>
          && p.quarantined == 0
          && p.reclaimed == 0
          && p.quarantinePath.None?
          && p.expired == []
          && forall i :: 0 <= i < |p.items| ==> p.items[i].status.Planned?)
  }

  /** Every way into a plan ends here. */
  function Checked(p: CleanPlan): Result<CleanPlan, BrozaError> {
    if Valid(p) then Ok(p) else Err(Other)
  }

  function DryRun(sessionId: string, items: seq<CleanItem>): Result<CleanPlan, BrozaError> {
    match CheckedFold(0, Sizes(items))
    case None => Err(Other)
    case Some(total) => Checked(CleanPlan(true, sessionId, total, 0, 0, None, [], items))
  }

  function IntoApplied(p: CleanPlan, quarantinePath: Option<Path>): Result<CleanPlan, BrozaError> {
    Checked(p.(dryRun := false, quarantinePath := quarantinePath))
  }

  function WithItemStatus(p: CleanPlan, index: nat, status: ItemStatus, error: Option<ItemErrorCode>)
    : Result<CleanPlan, BrozaError>
  {
    if index >= |p.items| then Err(Other)
    else if p.items[index].status.IsUnsuccessful() && p.items[index].status != status then Err(Other)
    else Checked(p.(items := p.items[index := p.items[index].(status := status, error := error)]))
  }

  function WithBytes(p: CleanPlan, quarantined: u64, reclaimed: u64): Result<CleanPlan, BrozaError> {
    Checked(p.(quarantined := quarantined, reclaimed := reclaimed))
  }

  /** The same plan under the name that was claimed for its session. */
  function WithSessionId(p: CleanPlan, sessionId: string): Result<CleanPlan, BrozaError> {
    if p.sessionId == sessionId then Ok(p) else Checked(p.(sessionId := sessionId))
  }

  function WithExpired(p: CleanPlan, expired: seq<ExpiredSession>): Result<CleanPlan, BrozaError> {
    Checked(p.(expired := expired))
  }

  /** Same work: only the session's name and outcomes may differ, and what was given up on stays given up on. */
  ghost predicate Follows(before: CleanPlan, after: CleanPlan) {
    && after.planned == before.planned
    && after.expired == before.expired
    && |after.items| == |before.items|
    && forall i :: 0 <= i < |before.items| ==> ItemFollows(before.items[i], after.items[i])
  }

  predicate ItemFollows(before: CleanItem, after: CleanItem) {
    && after == before.(status := after.status, error := after.error)
    && (before.status.IsUnsuccessful() ==> after.status == before.status)
  }

  lemma FollowsTrans(a: CleanPlan, b: CleanPlan, c: CleanPlan)
    requires Follows(a, b) && Follows(b, c)
    ensures Follows(a, c)
  {
    forall i | 0 <= i < |a.items| ensures ItemFollows(a.items[i], c.items[i]) {
      assert ItemFollows(a.items[i], b.items[i]) && ItemFollows(b.items[i], c.items[i]);
    }
  }

  /** `planned_bytes` is the exact sum of the sizes, never a wrapped one. */
  lemma PlannedIsExactSum(p: CleanPlan)
    requires Valid(p)
    ensures p.planned == Sum(Sizes(p.items))
  {
    CheckedFoldIsSum(0, Sizes(p.items));
  }

  /** A dry run exists exactly when the sizes add up, the statuses are planned and no error is set. */
  lemma DryRunExactly(sessionId: string, items: seq<CleanItem>)
    ensures DryRun(sessionId, items).Ok? <==>
            && Sum(Sizes(items)) <= U64_MAX
            && forall i :: 0 <= i < |items| ==> items[i].status.Planned? && items[i].error.None?
    ensures DryRun(sessionId, items).Err? ==> DryRun(sessionId, items).error == Other
    ensures DryRun(sessionId, items).Ok? ==>
              var p := DryRun(sessionId, items).value;
              Valid(p) && p == CleanPlan(true, sessionId, Sum(Sizes(items)), 0, 0, None, [], items)
  {
    CheckedFoldIsSum(0, Sizes(items));
  }

  /** A plan that has not been applied has moved, freed and expired nothing, and says so of no item or place. */
  lemma DryRunMovesNothing(p: CleanPlan)
    requires Valid(p) && p.dryRun
    ensures p.quarantined == p.reclaimed == 0 && p.quarantinePath == None && p.expired == []
    ensures forall item :: item in p.items ==> item.status == Planned && item.error == None
  {
    assert forall item :: item in p.items ==> exists i :: 0 <= i < |p.items| && p.items[i] == item;
  }

  /**
   * A plan can always be applied and renamed; counters and expired sessions can
   * be set exactly when it is not a dry run, or are empty.
   */
  lemma UpdatesExactly(
    p: CleanPlan, path: Option<Path>, quarantined: u64, reclaimed: u64, expired: seq<ExpiredSession>, sessionId: string)
    requires Valid(p)
    ensures IntoApplied(p, path) == Ok(p.(dryRun := false, quarantinePath := path))
    ensures WithBytes(p, quarantined, reclaimed)
            == if p.dryRun && (quarantined > 0 || reclaimed > 0) then Err(Other)
               else Ok(p.(quarantined := quarantined, reclaimed := reclaimed))
    ensures WithSessionId(p, sessionId) == Ok(p.(sessionId := sessionId))
    ensures WithExpired(p, expired) == if p.dryRun && expired != [] then Err(Other) else Ok(p.(expired := expired))
  {
  }

  /** Exactly when an outcome can be recorded in an applied plan, and what recording it changes. */
  lemma WithItemStatusExactly(p: CleanPlan, index: nat, status: ItemStatus, error: Option<ItemErrorCode>)
    requires Valid(p) && !p.dryRun
    ensures WithItemStatus(p, index, status, error).Ok? <==>
            && index < |p.items|
            && (p.items[index].status.IsUnsuccessful() ==> p.items[index].status == status)
            && (error.Some? ==> status.IsUnsuccessful())
    ensures WithItemStatus(p, index, status, error).Err? ==> WithItemStatus(p, index, status, error).error == Other
    ensures WithItemStatus(p, index, status, error).Ok? ==>
              var q := WithItemStatus(p, index, status, error).value;
              Valid(q) && Follows(p, q) && q == p.(items := q.items)
              && q.items[index].status == status && q.items[index].error == error
              && forall i :: 0 <= i < |p.items| && i != index ==> q.items[i] == p.items[i]
  {
    if index < |p.items| {
      var items := p.items[index := p.items[index].(status := status, error := error)];
      assert Sizes(items) == Sizes(p.items);
      assert items[index].error == error && items[index].status == status;
    }
  }
}
