/** What a move does before its first item: the store's root, a name of its own, the lock, the first manifest. */
module SessionStart {
  import opened Wrappers
  import opened Paths
  import opened Ids
  import opened Model
  import opened Plan
  import opened Layout
  import SessionStore

  /**
   * What the disk answers up to the first item. `taken` and `broken` are what it
   * says to the names tried; `written` is the first manifest's write.
   */
  datatype Opening = Opening(
    root: Option<BrozaError>, taken: set<string>, broken: nat -> Option<BrozaError>, lock: SessionStore.Taken,
    stat: Result<Metadata, BrozaError>, written: Option<BrozaError>)

  /** The session's name and directory, and the device it lies on. */
  datatype Started = Started(claimed: string, dir: Path, rootDevice: nat)

  /** How a move whose plan is named `sessionId` starts under `root`, if it does. */
  function Start(root: Option<Path>, sessionId: string, o: Opening): Result<Started, BrozaError> {
    if root.None? then Err(Other)
    else if o.root.Some? then Err(o.root.value)
    else
      var claimed :- Claimed(sessionId, 0, o.taken, o.broken);
      match o.lock
      case Unavailable(e) => Err(e)
      case Busy => Err(Other)
      case Held =>
        var dir :- o.stat;
        if o.written.Some? then Err(o.written.value) else Ok(Started(claimed, root.value + [claimed], dir.device))
  }

  /**
   * A move starts exactly when the guard validated a root, it can be made, one of
   * the names is free, the lock is got, and the directory and its manifest answer.
   * The session is then a directory of the root nobody else has.
   */
  lemma StartsExactly(root: Option<Path>, sessionId: string, o: Opening, calendar: Calendar)
    requires IsSessionId(sessionId, calendar)
    ensures Start(root, sessionId, o).Ok? <==>
            && root.Some? && o.root.None? && (exists k :: FirstFree(sessionId, k, o.taken, o.broken))
            && o.lock.Held? && o.stat.Ok? && o.written.None?
    ensures Start(root, sessionId, o).Ok? ==>
              var at := Start(root, sessionId, o).value;
              && at.dir == root.value + [at.claimed] && at.rootDevice == o.stat.value.device
              && IsSessionId(at.claimed, calendar) && TimestampPart(at.claimed) == TimestampPart(sessionId)
              && at.claimed !in o.taken && (at.claimed == sessionId <==> sessionId !in o.taken)
  {
    hide Claimed, IsSessionId, TimestampPart, FirstFree;
    ClaimedExactly(sessionId, o.taken, o.broken, calendar);
  }

  /** The start of `quarantine_items`: the session, and the plan under its name. */
  method Begin(root: Option<Path>, plan: CleanPlan, o: Opening, calendar: Calendar)
    returns (r: Result<Started, BrozaError>, named: CleanPlan)
    requires Valid(plan) && IsSessionId(plan.sessionId, calendar)
    ensures r == Start(root, plan.sessionId, o)
    ensures named == if r.Ok? then plan.(sessionId := r.value.claimed) else plan
    ensures Valid(named)
  {
    hide Valid, IsSessionId, Claimed;
    named := plan;
    if root.None? {
      return Err(Other), named;
    }
    if o.root.Some? {
      return Err(o.root.value), named;
    }
    var claimed, tries := ClaimSession(plan.sessionId, o.taken, o.broken, calendar);
    if claimed.Err? {
      return Err(claimed.error), named;
    }
    match o.lock {
      case Unavailable(error) => return Err(error), named;
      case Busy => return Err(Other), named;
      case Held =>
    }
    if o.stat.Err? {
      return Err(o.stat.error), named;
    }
    if o.written.Some? {
      return Err(o.written.value), named;
    }
    RenamedExactly(plan, claimed.value);
    named := WithSessionId(plan, claimed.value).value;
    r := Ok(Started(claimed.value, root.value + [claimed.value], o.stat.value.device));
  }

  lemma RenamedExactly(plan: CleanPlan, sessionId: string)
    requires Valid(plan)
    ensures WithSessionId(plan, sessionId) == Ok(plan.(sessionId := sessionId)) && Valid(plan.(sessionId := sessionId))
  {
    UpdatesExactly(plan, None, 0, 0, [], sessionId);
  }
}
