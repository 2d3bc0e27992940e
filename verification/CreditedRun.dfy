/** From findings to the last turn of the run: crediting, planning and executing, put together. */
module CreditedRun {
  import opened Wrappers
  import opened Bytes
  import opened Paths
  import opened Model
  import opened Attempt
  import opened Layout
  import opened Placement
  import opened WholeRun
  import F = Findings
  import O = Overlap
  import Planner

  /**
   * The items of `w` are path items of a plan made from credited findings, in
   * its order: those the guard approved, whichever they are. The session is in
   * the store, freshly claimed, and no item is around the store.
   */
  ghost predicate Planned(w: World, findings: seq<F.Finding>, sel: Planner.Selection, sessionId: string, root: Path) {
    var made := Planner.PlanDryRun(O.Credited(findings), sel, sessionId, Some(root));
    && (forall i :: 0 <= i < |findings| ==> F.Valid(findings[i]))
    && made.Ok? && Planner.Sublist(w.paths, Planner.ItemPaths(made.value.plan.items))
    && root <= w.session && (forall k :: 0 <= k < |w.paths| ==> !(w.paths[k] <= root))
    && |w.slots| == |w.paths| && (forall j, k :: 0 <= j < k < |w.slots| ==> w.slots[j] != w.slots[k])
    && Free(w.start, ItemsDir(w.session))
  }

  /** Each item's token is for its path, and it is to be moved or removed. */
  ghost predicate Approved(w: World, r: Work) {
    && |r.items| == |r.actions| == |w.paths|
    && forall k :: 0 <= k < |w.paths| ==>
         r.items[k].path == w.paths[k] && (r.actions[k] == Quarantine || r.actions[k] == Purge)
  }

  /** When the run starts, this item is what the guard approved; the others need not be. */
  ghost predicate AsFound(w: World, r: Work, k: nat) {
    k < |w.paths| && k < |r.items| && w.paths[k] in w.start && Identified(w, r, k)
  }

  lemma PlannedIsReady(w: World, findings: seq<F.Finding>, sel: Planner.Selection, sessionId: string, root: Path)
    requires Planned(w, findings, sel, sessionId, root)
    ensures w.Ready()
  {
    hide Free, F.Valid, O.Credited, Planner.PlanDryRun, Planner.ItemPaths, Antichain;
    Planner.CreditedPlanIsAntichain(findings, sel, sessionId, root);
    var items := Planner.PlanDryRun(O.Credited(findings), sel, sessionId, Some(root)).value.plan.items;
    Planner.SublistAntichain(w.paths, Planner.ItemPaths(items));
    forall k | 0 <= k < |w.paths| ensures Apart(w.paths[k], w.session) {
      var j := Planner.SublistMember(w.paths, Planner.ItemPaths(items), k);
      assert w.paths[k] in Planner.ItemPaths(items);
    }
  }

  /**
   * Nothing outside interfering, every item that was what the guard approved when
   * the run started still is when its turn comes, in every order and whatever the
   * other items are: it does not end as changed, and as not found only when the
   * disk itself says so of that very item.
   */
  lemma ApprovedItemsAreNeverLost(
    w: World, r: Work, findings: seq<F.Finding>, sel: Planner.Selection, sessionId: string, root: Path,
    order: seq<nat>, i: nat)
    requires Planned(w, findings, sel, sessionId, root) && Approved(w, r)
    requires IsOrder(w, order) && i < |order| && AsFound(w, r, order[i])
    ensures Fits(w, r) && IsOrder(w, order[..i])
    ensures var k := order[i];
            var outcome := TurnOutcome(w, r, TreeAfter(w, r, order[..i]), k);
            && outcome == (Verdict(w.start, r, k).0, Verdict(w.start, r, k).1)
            && outcome.1 != Some(CHANGED_SINCE_CHECK)
            && (outcome.1 == Some(NotFound) ==> Refuses(r, k, TargetNotFound))
  {
    hide World.Ready, Planned, TurnOutcome, TreeAfter, Verdict;
    PlannedIsReady(w, findings, sel, sessionId, root);
    EveryTurnIsVerdict(w, r, order, i);
  }

  /** Under `--max-size` as well: at its turn, in every order, the item is there and is what was approved. */
  lemma CappedItemsAreNeverLost(
    w: World, r: Work, findings: seq<F.Finding>, sel: Planner.Selection, sessionId: string, root: Path,
    order: seq<nat>, i: nat, cap: Option<u64>)
    requires Planned(w, findings, sel, sessionId, root) && Approved(w, r)
    requires IsOrder(w, order) && i < |order| && AsFound(w, r, order[i])
    ensures Fits(w, r) && IsOrder(w, order[..i])
    ensures var k := order[i];
            var (t, total) := CappedRun(w, r, order[..i], cap);
            var o := CappedOutcome(w, r, t, k, total, cap);
            && w.paths[k] in t && t[w.paths[k]] == w.start[w.paths[k]]
            && o.error != Some(CHANGED_SINCE_CHECK)
            && (o.error == Some(NotFound) ==> Refuses(r, k, TargetNotFound) || r.answers(k).measured == Err(TargetNotFound))
  {
    hide World.Ready, Planned, CappedOutcome, CappedRun;
    PlannedIsReady(w, findings, sel, sessionId, root);
    CappedTurnFindsItsItem(w, r, order, i, cap);
  }

  /** And every order of the items ends with the same tree, but for the inodes of the directories each run makes. */
  lemma ApprovedOrderDoesNotMatter(
    w: World, r: Work, findings: seq<F.Finding>, sel: Planner.Selection, sessionId: string, root: Path,
    order: seq<nat>, inodes: Path -> nat, other: seq<nat>)
    requires Planned(w, findings, sel, sessionId, root) && Approved(w, r)
    requires IsOrder(w, order) && IsOrder(w, other) && forall k: nat :: k in order <==> k in other
    ensures Fits(w, r) && Fits(w, r.(inodes := inodes))
    ensures var t, t' := TreeAfter(w, r, order), TreeAfter(w, r.(inodes := inodes), other);
            t.Keys == t'.Keys && forall p :: p in t ==> Alike(w, r, t, t', p)
  {
    hide Planned, TreeAfter, World.Ready;
    PlannedIsReady(w, findings, sel, sessionId, root);
    EveryOrderSameTree(w, r, order, inodes, other);
  }
}
