/** Findings: what a detector reports, and the invariants no finding can break. */
module Findings {
  import opened Wrappers
  import opened Bytes
  import opened Paths
  import opened Model
  import opened Ids

  datatype Category =
    | UserCache | BuildCache | IosSimulators | Trash | Snapshots
    | OldBackups | UnusedApps | CloudSynced | Duplicates | LargeOldFiles
  {
    function Id(): string {
      match this
      case UserCache => "user-cache"
      case BuildCache => "build-cache"
      case IosSimulators => "ios-simulators"
      case Trash => "trash"
      case Snapshots => "snapshots"
      case OldBackups => "old-backups"
      case UnusedApps => "unused-apps"
      case CloudSynced => "cloud-synced"
      case Duplicates => "duplicates"
      case LargeOldFiles => "large-old-files"
    }

    predicate IsInformOnly() {
      CloudSynced?
    }
  }

  datatype Risk = Green | Amber | Red {
    function Level(): nat {
      match this case Green => 0 case Amber => 1 case Red => 2
    }
  }

  datatype FindingPath = FindingPath(path: Path, size: u64, lastUsed: Option<int>)

  datatype Snapshot = Snapshot(
    name: string, actionable: bool, volume: Option<string>, mountPoint: Option<Path>, uuid: Option<string>)

  /** `text` stands for the members no rule looks at: title, description, reasoning. */
  datatype Finding = Finding(
    id: string, category: Category, risk: Risk, reclaimable: u64, itemCount: Option<u64>,
    actionable: bool, action: Action, paths: seq<FindingPath>, snapshots: seq<Snapshot>,
    hasInstructions: bool, text: seq<string>)

  function CategoryPart(id: string): string {
    match SplitOnce(id, '.') case None => "" case Some(parts) => parts.0
  }

  predicate Valid(f: Finding) {
    && CategoryPart(f.id) == f.category.Id()
    && (f.category.IsInformOnly() ==> f.action.InformOnly? && !f.actionable && f.risk.Red?)
    && f.actionable == !f.action.InformOnly?
    && f.hasInstructions == f.action.InformOnly?
    && (f.snapshots != [] ==> f.category.Snapshots?)
  }

  /** The category an identifier's first part stands for. */
  function CategoryNamed(text: string): Option<Category> {
    if text == "user-cache" then Some(UserCache)
    else if text == "build-cache" then Some(BuildCache)
    else if text == "ios-simulators" then Some(IosSimulators)
    else if text == "trash" then Some(Trash)
    else if text == "snapshots" then Some(Snapshots)
    else if text == "old-backups" then Some(OldBackups)
    else if text == "unused-apps" then Some(UnusedApps)
    else if text == "cloud-synced" then Some(CloudSynced)
    else if text == "duplicates" then Some(Duplicates)
    else if text == "large-old-files" then Some(LargeOldFiles)
    else None
  }

  /** A category's id is read back as that category, and no other text is. */
  lemma IdsReadBack(c: Category, text: string)
    ensures CategoryNamed(text) == Some(c) <==> text == c.Id()
  {
  }

  /**
   * What a finding can be: its identifier is its category's id, a dot and a name;
   * it can be acted on exactly when it comes with an action instead of
   * instructions; and what a cloud service holds is never acted on.
   */
  lemma ValidExactly(f: Finding)
    ensures Valid(f) <==>
            && (exists name :: f.id == f.category.Id() + "." + name)
            && (f.actionable <==> f.action != InformOnly) && (f.actionable <==> !f.hasInstructions)
            && (f.category == CloudSynced ==> !f.actionable && f.risk == Red)
            && (f.category != Category.Snapshots ==> f.snapshots == [])
  {
    NoDotInIds(f.category);
    hide Category.Id;
    if name :| f.id == f.category.Id() + "." + name {
      SplitOnceAtFirst(f.category.Id(), name, '.');
      assert f.id == f.category.Id() + ['.'] + name;
    }
    if CategoryPart(f.id) == f.category.Id() {
      assert f.category.Id() != "";
      var at := SplitOnce(f.id, '.').value;
      SplitOnceRejoins(f.id, '.');
      assert f.id == f.category.Id() + "." + at.1;
    }
  }

  lemma NoDotInIds(c: Category)
    ensures c.Id() != "" && '.' !in c.Id()
  {
  }

  function SizesOf(paths: seq<FindingPath>): (s: seq<u64>)
    ensures |s| == |paths| && forall i :: 0 <= i < |s| ==> s[i] == paths[i].size
  {
    seq(|paths|, i requires 0 <= i < |paths| => paths[i].size)
  }

  function PathsOf(paths: seq<FindingPath>): (s: seq<Path>)
    ensures |s| == |paths| && forall i :: 0 <= i < |s| ==> s[i] == paths[i].path
  {
    seq(|paths|, i requires 0 <= i < |paths| => paths[i].path)
  }

  /** `with_paths`: the same finding over `paths`, its numbers recomputed. */
  function WithPaths(f: Finding, paths: seq<FindingPath>): Result<Finding, BrozaError> {
    var g := f.(reclaimable := SatFold(0, SizesOf(paths)), itemCount := Some(Cap(|paths|)), paths := paths);
    if Valid(g) then Ok(g) else Err(Other)
  }

  /** The finding's bytes are exactly what its paths add up to. */
  ghost predicate PathSummed(f: Finding) {
    f.reclaimable == Sum(SizesOf(f.paths))
  }
}
