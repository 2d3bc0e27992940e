/** The dry-run planner: credited findings and a selection become the items of a plan. */
module Planner {
  import opened Wrappers
  import opened Bytes
  import opened Paths
  import opened Model
  import F = Findings
  import P = Plan
  import O = Overlap

  /** What the user asked to clean; `excluded` is the verdict of the exclusion globs. */
  datatype Selection = Selection(
    categories: Option<set<F.Category>>, riskCeiling: Option<F.Risk>, purge: bool, excluded: Path -> bool)
  {
    predicate Matches(f: F.Finding) {
      && (categories.None? || f.category in categories.value)
      && (riskCeiling.None? || f.risk.Level() <= riskCeiling.value.Level())
    }
  }

  datatype PlanOutcome = PlanOutcome(plan: P.CleanPlan, informedOnly: seq<string>, informedInPassing: seq<string>)

  function ExpectedAction(action: Action, purge: bool): Action {
    if purge && action.Quarantine? then Purge else action
  }

  /** The paths of a finding that become items: neither excluded nor inside the store. */
  predicate Kept(p: Path, sel: Selection, root: Option<Path>) {
    !sel.excluded(p) && (root.None? || !(root.value <= p))
  }

  function PathItems(f: F.Finding, paths: seq<F.FindingPath>, sel: Selection, root: Option<Path>): seq<P.CleanItem> {
    if paths == [] then []
    else
      (if Kept(paths[0].path, sel, root) then
         [P.CleanItem(paths[0].path, f.id, paths[0].size, Planned, ExpectedAction(f.action, sel.purge), None, None)]
       else [])
      + PathItems(f, paths[1..], sel, root)
  }

  function SnapshotItems(f: F.Finding, snapshots: seq<F.Snapshot>, purge: bool): seq<P.CleanItem> {
    if snapshots == [] then []
    else
      var s := snapshots[0];
      (if s.actionable && s.volume.Some? && s.mountPoint.Some? && s.uuid.Some? then
         [P.CleanItem(s.mountPoint.value, f.id, 0, Planned, ExpectedAction(f.action, purge), None,
                      Some(SnapshotRef(s.volume.value, s.name, s.uuid.value)))]
       else [])
      + SnapshotItems(f, snapshots[1..], purge)
  }

  function ItemsOf(f: F.Finding, sel: Selection, root: Option<Path>): seq<P.CleanItem> {
    if f.category.Snapshots? then SnapshotItems(f, f.snapshots, sel.purge) else PathItems(f, f.paths, sel, root)
  }

  /** What one finding contributes to a plan: its items, if it is selected and not inform-only. */
  function Contribution(f: F.Finding, sel: Selection, root: Option<Path>): seq<P.CleanItem> {
    if sel.Matches(f) && !f.action.InformOnly? then ItemsOf(f, sel, root) else []
  }

  /** The items of every selected finding that is not inform-only, in finding order. */
  function Items(findings: seq<F.Finding>, sel: Selection, root: Option<Path>): seq<P.CleanItem> {
    if findings == [] then []
    else Contribution(findings[0], sel, root) + Items(findings[1..], sel, root)
  }

  /** The selected inform-only findings, of an inform-only category or merely in passing. */
  function Informed(findings: seq<F.Finding>, sel: Selection, byCategory: bool): seq<string> {
    if findings == [] then []
    else
      var f := findings[0];
      (if sel.Matches(f) && f.action.InformOnly? && f.category.IsInformOnly() == byCategory then [f.id] else [])
      + Informed(findings[1..], sel, byCategory)
  }

  function PlanDryRun(findings: seq<F.Finding>, sel: Selection, sessionId: string, root: Option<Path>)
    : Result<PlanOutcome, BrozaError>
  {
    if root == Some([]) then Err(Other)
    else
      var plan :- P.DryRun(sessionId, Items(findings, sel, root));
      Ok(PlanOutcome(plan, Informed(findings, sel, true), Informed(findings, sel, false)))
  }

  // ------------------------------------------------------- which items, exactly

  /** `--purge` makes a removal of what would be moved, and changes nothing else. */
  ghost predicate ActsAsAsked(found: Action, purge: bool, planned: Action) {
    && (planned == Purge <==> found == Purge || (purge && found == Quarantine))
    && (planned == Quarantine <==> found == Quarantine && !purge)
    && (planned == TmutilDelete <==> found == TmutilDelete)
  }

  /** The category is asked for and the risk is not above the ceiling. */
  ghost predicate Selected(f: F.Finding, sel: Selection) {
    && (sel.categories.Some? ==> f.category in sel.categories.value)
    && (sel.riskCeiling == Some(F.Green) ==> f.risk == F.Green)
    && (sel.riskCeiling == Some(F.Amber) ==> f.risk != F.Red)
  }

  /** A planned item of this finding: nothing has been done to it and nothing has failed. */
  ghost predicate ItemFor(f: F.Finding, purge: bool, item: P.CleanItem) {
    && item.findingId == f.id && item.status.Planned? && item.error.None? && ActsAsAsked(f.action, purge, item.action)
  }

  /** The item is one of these paths of the finding, not excluded and outside the store. */
  ghost predicate FromPath(
    f: F.Finding, paths: seq<F.FindingPath>, sel: Selection, root: Option<Path>, item: P.CleanItem)
  {
    && ItemFor(f, sel.purge, item) && item.snapshot.None?
    && !sel.excluded(item.path) && (root.Some? ==> !(root.value <= item.path))
    && exists p :: p in paths && item.path == p.path && item.size == p.size
  }

  /** The item is one of these snapshots, if it can be deleted and is known well enough. */
  ghost predicate FromSnapshot(f: F.Finding, snapshots: seq<F.Snapshot>, purge: bool, item: P.CleanItem) {
    && ItemFor(f, purge, item) && item.size == 0 && item.snapshot.Some?
    && exists s :: s in snapshots && s.actionable && s.mountPoint == Some(item.path) && s.name == item.snapshot.value.name
         && s.volume == Some(item.snapshot.value.volume) && s.uuid == Some(item.snapshot.value.uuid)
  }

  ghost predicate Contributes(f: F.Finding, sel: Selection, root: Option<Path>, item: P.CleanItem) {
    && Selected(f, sel) && f.action != InformOnly
    && (if f.category.Snapshots? then FromSnapshot(f, f.snapshots, sel.purge, item)
        else FromPath(f, f.paths, sel, root, item))
  }

  lemma {:induction false} PathItemsExactly(
    f: F.Finding, paths: seq<F.FindingPath>, sel: Selection, root: Option<Path>, item: P.CleanItem)
    ensures item in PathItems(f, paths, sel, root) <==> FromPath(f, paths, sel, root, item)
  {
    if paths != [] {
      PathItemsExactly(f, paths[1..], sel, root, item);
      assert paths == [paths[0]] + paths[1..];
    }
  }

  lemma {:induction false} SnapshotItemsExactly(
    f: F.Finding, snapshots: seq<F.Snapshot>, purge: bool, item: P.CleanItem)
    ensures item in SnapshotItems(f, snapshots, purge) <==> FromSnapshot(f, snapshots, purge, item)
  {
    if snapshots != [] {
      SnapshotItemsExactly(f, snapshots[1..], purge, item);
      assert snapshots == [snapshots[0]] + snapshots[1..];
    }
  }

  lemma ContributionExactly(f: F.Finding, sel: Selection, root: Option<Path>, item: P.CleanItem)
    ensures item in Contribution(f, sel, root) <==> Contributes(f, sel, root, item)
  {
    PathItemsExactly(f, f.paths, sel, root, item);
    SnapshotItemsExactly(f, f.snapshots, sel.purge, item);
    hide PathItems, SnapshotItems, FromPath, FromSnapshot;
  }

  /** A plan has exactly the items its selected findings contribute: none is lost and none made up. */
  lemma {:induction false} ItemsExactly(
    findings: seq<F.Finding>, sel: Selection, root: Option<Path>, item: P.CleanItem)
    ensures item in Items(findings, sel, root) <==> exists f :: f in findings && Contributes(f, sel, root, item)
  {
    if findings != [] {
      var f, rest := findings[0], findings[1..];
      ItemsExactly(rest, sel, root, item);
      ContributionExactly(f, sel, root, item);
      hide Contribution, Contributes;
      assert findings == [f] + rest && f in findings;
      assert Items(findings, sel, root) == Contribution(f, sel, root) + Items(rest, sel, root);
      if g :| g in findings && Contributes(g, sel, root, item) {
        assert g == f || g in rest;
      }
    }
  }

  /** And the selected findings that only inform are reported apart, each on its own side. */
  lemma {:induction false} InformedExactly(findings: seq<F.Finding>, sel: Selection, byCategory: bool, id: string)
    ensures id in Informed(findings, sel, byCategory) <==>
            exists f :: f in findings && f.id == id && Selected(f, sel) && f.action == InformOnly
                        && (byCategory <==> f.category == F.CloudSynced)
  {
    if findings != [] {
      InformedExactly(findings[1..], sel, byCategory, id);
      assert findings == [findings[0]] + findings[1..];
    }
  }

  /**
   * A dry run is made of a selection exactly when the store is not the whole disk
   * and the sizes fit. It has moved and removed nothing, and every item acts as
   * was asked: it moves what the finding would move, or with `--purge` removes it.
   */
  lemma PlannedExactly(findings: seq<F.Finding>, sel: Selection, sessionId: string, root: Option<Path>)
    ensures var r := PlanDryRun(findings, sel, sessionId, root);
            var items := Items(findings, sel, root);
            && (r.Ok? <==> root != Some([]) && Sum(P.Sizes(items)) <= U64_MAX) && (r.Err? ==> r.error == Other)
            && (r.Ok? ==>
                  && r.value.plan == P.CleanPlan(true, sessionId, Sum(P.Sizes(items)), 0, 0, None, [], items)
                  && (forall item :: item in r.value.plan.items ==>
                        exists f :: f in findings && Contributes(f, sel, root, item)
                                    && ActsAsAsked(f.action, sel.purge, item.action))
                  && (forall id :: id in r.value.informedOnly <==>
                        exists f :: f in findings && f.id == id && Selected(f, sel) && f.action == InformOnly
                                    && f.category == F.CloudSynced)
                  && (forall id :: id in r.value.informedInPassing <==>
                        exists f :: f in findings && f.id == id && Selected(f, sel) && f.action == InformOnly
                                    && f.category != F.CloudSynced))
  {
    var items := Items(findings, sel, root);
    P.DryRunExactly(sessionId, items);
    forall item ensures item in items <==> exists f :: f in findings && Contributes(f, sel, root, item) {
      ItemsExactly(findings, sel, root, item);
    }
    forall id, byCategory
      ensures id in Informed(findings, sel, byCategory) <==>
              exists f :: f in findings && f.id == id && Selected(f, sel) && f.action == InformOnly
                          && (byCategory <==> f.category == F.CloudSynced)
    {
      InformedExactly(findings, sel, byCategory, id);
    }
    forall i | 0 <= i < |items| ensures items[i].status.Planned? && items[i].error.None? {
      assert items[i] in items;
    }
    hide Items, Informed, Selected, ActsAsAsked, Sum, P.Sizes, P.Valid;
  }

  /** The paths of the items that are paths, not snapshots. */
  function ItemPaths(items: seq<P.CleanItem>): seq<Path> {
    if items == [] then []
    else (if items[0].snapshot.None? then [items[0].path] else []) + ItemPaths(items[1..])
  }

  /** `a` is `b` with some elements left out. */
  ghost predicate Sublist(a: seq<Path>, b: seq<Path>) {
    if a == [] then true
    else if b == [] then false
    else (a[0] == b[0] && Sublist(a[1..], b[1..])) || Sublist(a, b[1..])
  }

  lemma {:induction false} SublistConcat(a: seq<Path>, b: seq<Path>, c: seq<Path>, d: seq<Path>)
    requires Sublist(a, b) && Sublist(c, d)
    ensures Sublist(a + c, b + d)
    decreases |b|, |d|
  {
    if a == [] {
      assert a + c == c;
      if b == [] {
        assert b + d == d;
      } else {
        assert (b + d)[1..] == b[1..] + d;
        SublistConcat([], b[1..], c, d);
        assert [] + c == c;
      }
    } else {
      assert (a + c)[1..] == a[1..] + c && (b + d)[1..] == b[1..] + d;
      if a[0] == b[0] && Sublist(a[1..], b[1..]) {
        SublistConcat(a[1..], b[1..], c, d);
      } else {
        SublistConcat(a, b[1..], c, d);
      }
    }
  }

  lemma {:induction false} SublistMember(a: seq<Path>, b: seq<Path>, i: nat) returns (j: nat)
    requires Sublist(a, b) && i < |a|
    ensures j < |b| && a[i] == b[j]
    decreases |b|
  {
    if a[0] == b[0] && Sublist(a[1..], b[1..]) {
      if i == 0 {
        j := 0;
      } else {
        var k := SublistMember(a[1..], b[1..], i - 1);
        j := k + 1;
      }
    } else {
      var k := SublistMember(a, b[1..], i);
      j := k + 1;
    }
  }

  lemma {:induction false} SublistAntichain(a: seq<Path>, b: seq<Path>)
    requires Sublist(a, b) && Antichain(b)
    ensures Antichain(a)
    decreases |b|
  {
    if a != [] {
      assert Antichain(b[1..]);
      if a[0] == b[0] && Sublist(a[1..], b[1..]) {
        SublistAntichain(a[1..], b[1..]);
        forall i | 1 <= i < |a| ensures Apart(a[0], a[i]) {
          var j := SublistMember(a[1..], b[1..], i - 1);
          assert Apart(b[0], b[j + 1]);
        }
        forall i, j | 1 <= i < j < |a| ensures Apart(a[i], a[j]) {
          assert a[1..][i - 1] == a[i] && a[1..][j - 1] == a[j];
        }
      } else {
        SublistAntichain(a, b[1..]);
      }
    }
  }

  lemma {:induction false} PathItemsSublist(f: F.Finding, paths: seq<F.FindingPath>, sel: Selection, root: Option<Path>)
    ensures Sublist(ItemPaths(PathItems(f, paths, sel, root)), F.PathsOf(paths))
    ensures forall p :: p in ItemPaths(PathItems(f, paths, sel, root)) ==> Kept(p, sel, root)
  {
    if paths != [] {
      PathItemsSublist(f, paths[1..], sel, root);
      var items := PathItems(f, paths, sel, root);
      assert F.PathsOf(paths)[1..] == F.PathsOf(paths[1..]);
      if Kept(paths[0].path, sel, root) {
        assert items[1..] == PathItems(f, paths[1..], sel, root);
        assert ItemPaths(items) == [paths[0].path] + ItemPaths(items[1..]);
        assert ItemPaths(items)[1..] == ItemPaths(items[1..]);
      } else {
        assert items == PathItems(f, paths[1..], sel, root);
      }
    }
  }

  lemma {:induction false} SnapshotItemsNoPath(f: F.Finding, snapshots: seq<F.Snapshot>, purge: bool)
    ensures ItemPaths(SnapshotItems(f, snapshots, purge)) == []
  {
    if snapshots != [] {
      SnapshotItemsNoPath(f, snapshots[1..], purge);
      var items, rest := SnapshotItems(f, snapshots, purge), SnapshotItems(f, snapshots[1..], purge);
      assert items == rest || items[1..] == rest;
    }
  }

  lemma {:induction false} ItemPathsConcat(a: seq<P.CleanItem>, b: seq<P.CleanItem>)
    ensures ItemPaths(a + b) == ItemPaths(a) + ItemPaths(b)
  {
    if a == [] {
      assert a + b == b;
    } else {
      assert (a + b)[1..] == a[1..] + b;
      ItemPathsConcat(a[1..], b);
    }
  }

  lemma ContributionIsClaimed(f: F.Finding, sel: Selection, root: Option<Path>)
    requires F.Valid(f)
    ensures Sublist(ItemPaths(Contribution(f, sel, root)), F.PathsOf(if f.actionable then f.paths else []))
    ensures forall p :: p in ItemPaths(Contribution(f, sel, root)) ==> Kept(p, sel, root)
  {
    PathItemsSublist(f, f.paths, sel, root);
    SnapshotItemsNoPath(f, f.snapshots, sel.purge);
  }

  lemma {:induction false} ItemsAreClaims(findings: seq<F.Finding>, sel: Selection, root: Option<Path>)
    requires forall i :: 0 <= i < |findings| ==> F.Valid(findings[i])
    ensures Sublist(ItemPaths(Items(findings, sel, root)), F.PathsOf(O.Claims(findings)))
    ensures forall p :: p in ItemPaths(Items(findings, sel, root)) ==> Kept(p, sel, root)
  {
    if findings != [] {
      var f, rest := findings[0], findings[1..];
      var mine, claims := Contribution(f, sel, root), if f.actionable then f.paths else [];
      assert Items(findings, sel, root) == mine + Items(rest, sel, root);
      assert F.PathsOf(O.Claims(findings)) == F.PathsOf(claims) + F.PathsOf(O.Claims(rest));
      hide Contribution, ItemsOf, Items, Sublist, F.Valid, Kept;
      ItemsAreClaims(rest, sel, root);
      ContributionIsClaimed(f, sel, root);
      ItemPathsConcat(mine, Items(rest, sel, root));
      SublistConcat(ItemPaths(mine), F.PathsOf(claims), ItemPaths(Items(rest, sel, root)), F.PathsOf(O.Claims(rest)));
    }
  }

  /**
   * What the executor relies on: the path items of a plan made from credited
   * findings form an antichain, and none is inside the quarantine store. When
   * none is around the store either, each is apart from every session in it.
   */
  lemma CreditedPlanIsAntichain(findings: seq<F.Finding>, sel: Selection, sessionId: string, root: Path)
    requires forall i :: 0 <= i < |findings| ==> F.Valid(findings[i])
    requires PlanDryRun(O.Credited(findings), sel, sessionId, Some(root)).Ok?
    ensures var paths := ItemPaths(PlanDryRun(O.Credited(findings), sel, sessionId, Some(root)).value.plan.items);
            && Antichain(paths)
            && (forall p :: p in paths ==> !(root <= p) && !sel.excluded(p))
            && forall p, session: Path :: p in paths && !(p <= root) && root <= session ==> Apart(p, session)
  {
    var kept := O.Credited(findings);
    var paths := ItemPaths(Items(kept, sel, Some(root)));
    O.CreditedIsMinimal(findings);
    O.NothingDropped(findings, O.PathSet(O.Claims(findings)), {});
    ItemsAreClaims(kept, sel, Some(root));
    SublistAntichain(paths, F.PathsOf(O.Claims(kept)));
    forall p, session: Path | p in paths && !(p <= root) && root <= session ensures Apart(p, session) {
      if p <= session {
        AncestorsComparable(p, root, session);
      } else if session <= p {
        PrefixTrans(root, session, p);
      }
    }
  }
}
