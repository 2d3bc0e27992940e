/**
 * Directories below by descriptor, for paths longer than the kernel takes: the
 * deepest ancestor that opens by path, then a stretch of names per `openat`.
 */
module DeepOpen {
  import opened Wrappers
  import opened Packing
  import opened FileTree

  const PATH_MAX_BYTES: nat := 1024

  /** What opening with `O_DIRECTORY` makes of a walk's answer. */
  function AsDirectory(t: Tree, walked: Result<nat, Errno>): Result<nat, Errno> {
    if walked.Ok? && walked.value !in t.dirs then Err(NotDir) else walked
  }

  /** One name at a time from `from`: what opening a directory is for. */
  function Reach(t: Tree, from: nat, names: seq<string>): Result<nat, Errno> {
    AsDirectory(t, t.Walk(from, names))
  }

  /** The kernel's `openat` with `O_NOFOLLOW_ANY`: a string, so `..` and a leading slash would mean what they say. */
  function OpenAt(t: Tree, dir: nat, relative: string): Result<nat, Errno> {
    if |relative| >= PATH_MAX_BYTES then Err(NameTooLong)
    else if relative == "" then Err(NoEntry)
    else AsDirectory(t, t.Walk(if IsAbsolute(relative) then t.root else dir, Split(relative)))
  }

  /**
   * The kernel's `open` by path in a tree without links. Besides strings that
   * are too long it may refuse any path but the root for its length.
   */
  function OpenByPath(t: Tree, refuses: seq<string> -> bool, names: seq<string>): Result<nat, Errno> {
    if |Show(names)| >= PATH_MAX_BYTES || (names != [] && refuses(names)) then Err(NameTooLong)
    else AsDirectory(t, t.Walk(t.root, Split(Show(names))))
  }

  predicate AllNormal(steps: seq<Component>) {
    forall i :: 0 <= i < |steps| ==> steps[i].Normal? && IsName(steps[i].name)
  }

  function NamesOf(steps: seq<Component>): (names: seq<string>)
    requires AllNormal(steps)
    ensures |names| == |steps| && AllNames(names)
  {
    seq(|steps|, i requires 0 <= i < |steps| => steps[i].name)
  }

  predicate AllShort(names: seq<string>) {
    forall n :: n in names ==> |n| < PATH_MAX_BYTES
  }

  /**
   * `r` opens exactly what `reached` does. The error is the same one too, but
   * for a name no directory can hold, which the kernel may call too long.
   */
  predicate Agrees(r: Result<nat, Errno>, reached: Result<nat, Errno>, names: seq<string>) {
    && (r.Ok? <==> reached.Ok?)
    && (r.Ok? || AllShort(names) ==> r == reached)
  }

  /** The stretches the loop opens. */
  function Stretches(names: seq<string>): (stretches: seq<seq<string>>) {
    Greedy(names, PATH_MAX_BYTES - 1)
  }

  // ------------------------------------------------------- Steps of the kernel

  /** A stretch of names opens what the names reach, unless its text is too long. */
  lemma StretchOpens(t: Tree, dir: nat, stretch: seq<string>)
    requires stretch != [] && AllNames(stretch)
    ensures OpenAt(t, dir, Join(stretch, '/'))
            == if |Join(stretch, '/')| >= PATH_MAX_BYTES then Err(NameTooLong) else Reach(t, dir, stretch)
  {
    SplitJoin(stretch);
    assert IsName(stretch[0]);
    assert Join(stretch, '/')[0] == stretch[0][0] && stretch[0][0] in stretch[0];
  }

  /** Where a part of the way fails, the whole way fails the same. */
  lemma FailsBelow(t: Tree, from: nat, a: seq<string>, b: seq<string>)
    requires Reach(t, from, a).Err? && b != []
    ensures Reach(t, from, a + b) == Reach(t, from, a)
  {
    t.WalkConcat(from, a, b);
  }

  lemma ReachConcat(t: Tree, from: nat, a: seq<string>, b: seq<string>, at: nat)
    requires t.Walk(from, a) == Ok(at)
    ensures Reach(t, from, a + b) == Reach(t, at, b)
  {
    t.WalkConcat(from, a, b);
  }

  /** No directory holds a name of `PATH_MAX` bytes. */
  lemma LongNameFails(t: Tree, from: nat, name: string, rest: seq<string>)
    requires t.ShortNames(PATH_MAX_BYTES) && IsName(name) && |name| >= PATH_MAX_BYTES
    ensures Reach(t, from, [name] + rest).Err?
  {
    assert ([name] + rest)[0] == name;
    assert (from, name) !in t.child;
  }

  /** A failing `openat` on the way, or at its end, is a failure of the whole. */
  lemma FailureAgrees(t: Tree, from: nat, dir: nat, past: seq<string>, stretch: seq<string>, rest: seq<string>)
    requires t.ShortNames(PATH_MAX_BYTES) && AllNames(stretch) && t.Walk(from, past) == Ok(dir)
    requires Fits(stretch, PATH_MAX_BYTES - 1) && OpenAt(t, dir, Join(stretch, '/')).Err?
    ensures Agrees(OpenAt(t, dir, Join(stretch, '/')), Reach(t, from, past + stretch + rest), past + stretch + rest)
  {
    StretchOpens(t, dir, stretch);
    JoinWidth(stretch, '/');
    ReachConcat(t, from, past, stretch + rest, dir);
    assert past + stretch + rest == past + (stretch + rest);
    if |Join(stretch, '/')| >= PATH_MAX_BYTES {
      assert stretch == [stretch[0]] && stretch[0] in stretch;
      LongNameFails(t, dir, stretch[0], rest);
      assert stretch[0] in past + stretch + rest;
    } else if rest != [] {
      FailsBelow(t, dir, stretch, rest);
    } else {
      assert stretch + rest == stretch;
    }
  }

  // ------------------------------------------------------- What is passed

  /** Every string handed to `openat` is below `PATH_MAX`, when every name is. */
  lemma CallsAreShort(names: seq<string>, i: nat)
    requires AllShort(names) && i < |Stretches(names)|
    ensures |Texts(Stretches(names), '/')[i]| < PATH_MAX_BYTES
  {
    GreedyBreaks(names, PATH_MAX_BYTES - 1);
    var stretch := Stretches(names)[i];
    JoinWidth(stretch, '/');
    if |stretch| == 1 {
      FlattenHolds(Stretches(names), i, stretch[0]);
    }
  }

  /** No other split into strings below `PATH_MAX` takes fewer calls. */
  lemma FewestCalls(names: seq<string>, others: seq<seq<string>>)
    requires Flatten(others) == names
    requires forall i :: 0 <= i < |others| ==> others[i] != [] && |Join(others[i], '/')| < PATH_MAX_BYTES
    ensures |Stretches(names)| <= |others|
  {
    forall i | 0 <= i < |others| ensures Fits(others[i], PATH_MAX_BYTES - 1) {
      JoinWidth(others[i], '/');
    }
    GreedyIsOptimal(names, others, PATH_MAX_BYTES - 1);
  }

  // ------------------------------------------------------- The loops

  /** Where the loop is: `done` below as far as `dir`, `filling` not yet, the rest to come. */
  ghost predicate Progress(
    t: Tree, anchor: nat, dir: nat, done: seq<seq<string>>, filling: seq<string>, names: seq<string>, i: nat)
  {
    && AllNames(names) && i <= |names|
    && Flatten(done) + filling == names[..i]
    && t.Walk(anchor, Flatten(done)) == Ok(dir)
    && done + GreedyFrom(filling, names[i..], PATH_MAX_BYTES - 1) == Stretches(names)
    && (filling != [] ==> Fits(filling, PATH_MAX_BYTES - 1))
  }

  lemma ProgressStart(t: Tree, anchor: nat, names: seq<string>)
    requires AllNames(names)
    ensures Progress(t, anchor, anchor, [], [], names, 0)
  {
    assert names[0..] == names;
  }

  lemma ProgressOpens(
    t: Tree, anchor: nat, dir: nat, done: seq<seq<string>>, filling: seq<string>, names: seq<string>, i: nat)
    requires Progress(t, anchor, dir, done, filling, names, i) && i < |names| && filling != []
    requires |Join(filling, '/')| + 1 + |names[i]| >= PATH_MAX_BYTES && OpenAt(t, dir, Join(filling, '/')).Ok?
    ensures Progress(t, anchor, OpenAt(t, dir, Join(filling, '/')).value, done + [filling], [names[i]], names, i + 1)
  {
    JoinWidth(filling, '/');
    GreedyBreaksHere(done, filling, names, i, PATH_MAX_BYTES - 1);
    FlattenSnoc(done, filling);
    assert forall n :: n in filling ==> n in names[..i];
    StretchOpens(t, dir, filling);
    t.WalkConcat(anchor, Flatten(done), filling);
    assert names[..i + 1] == names[..i] + [names[i]];
  }

  lemma ProgressGrows(
    t: Tree, anchor: nat, dir: nat, done: seq<seq<string>>, filling: seq<string>, names: seq<string>, i: nat)
    requires Progress(t, anchor, dir, done, filling, names, i) && i < |names|
    requires filling == [] || |Join(filling, '/')| + 1 + |names[i]| < PATH_MAX_BYTES
    ensures Progress(t, anchor, dir, done, filling + [names[i]], names, i + 1)
  {
    if filling != [] {
      JoinWidth(filling, '/');
      SpanSnoc(|filling[0]|, filling[1..], names[i]);
      assert (filling + [names[i]])[1..] == filling[1..] + [names[i]];
    }
    GreedyGrowsHere(filling, names, i, PATH_MAX_BYTES - 1);
    assert names[..i + 1] == names[..i] + [names[i]];
  }

  /** The last call, or a failing one before it, answers for the whole way. */
  lemma ProgressEnds(
    t: Tree, anchor: nat, dir: nat, done: seq<seq<string>>, filling: seq<string>, names: seq<string>, i: nat)
    requires t.ShortNames(PATH_MAX_BYTES)
    requires Progress(t, anchor, dir, done, filling, names, i) && filling != []
    requires i == |names| || OpenAt(t, dir, Join(filling, '/')).Err?
    ensures Agrees(OpenAt(t, dir, Join(filling, '/')), Reach(t, anchor, names), names)
  {
    assert forall n :: n in filling ==> n in names[..i];
    assert Flatten(done) + filling + names[i..] == names;
    if OpenAt(t, dir, Join(filling, '/')).Err? {
      FailureAgrees(t, anchor, dir, Flatten(done), filling, names[i..]);
    } else {
      StretchOpens(t, dir, filling);
      ReachConcat(t, anchor, Flatten(done), filling, dir);
      assert Flatten(done) + filling == names;
    }
  }

  lemma ProgressCalls(
    t: Tree, anchor: nat, dir: nat, done: seq<seq<string>>, filling: seq<string>, names: seq<string>, i: nat)
    requires Progress(t, anchor, dir, done, filling, names, i) && filling != []
    requires i == |names| || |Join(filling, '/')| + 1 + |names[i]| >= PATH_MAX_BYTES
    ensures Texts(done, '/') + [Join(filling, '/')] <= Texts(Stretches(names), '/')
    ensures i == |names| ==> Texts(done, '/') + [Join(filling, '/')] == Texts(Stretches(names), '/')
  {
    TextsSnoc(done, filling, '/');
    if i < |names| {
      JoinWidth(filling, '/');
      GreedyBreaksHere(done, filling, names, i, PATH_MAX_BYTES - 1);
      TextsPrefix(done + [filling], GreedyFrom([names[i]], names[i + 1..], PATH_MAX_BYTES - 1), '/');
    } else {
      GreedyEnds(filling, PATH_MAX_BYTES - 1);
      assert names[i..] == [];
    }
  }

  /**
   * `open_directory_below`: with only normal components it opens what one name
   * at a time would, by the greedy stretches; with any other it opens nothing.
   * The calls are returned so that what is passed to the kernel can be stated.
   */
  method OpenDirectoryBelow(t: Tree, anchor: nat, relative: string) returns (r: Result<nat, Errno>, calls: seq<string>)
    requires t.ShortNames(PATH_MAX_BYTES)
    ensures !AllNormal(Components(relative)) ==> r.Err?
    ensures AllNormal(Components(relative)) ==>
              var names := NamesOf(Components(relative));
              && Agrees(r, Reach(t, anchor, names), names)
              && (names == [] ==> calls == ["."])
              && (names != [] ==> calls <= Texts(Stretches(names), '/'))
              && (names != [] && r.Ok? ==> calls == Texts(Stretches(names), '/'))
  {
    var steps := Components(relative);
    ComponentsAreNames(relative);
    hide Components, OpenAt, Reach, Progress, Agrees, Texts, Stretches;
    ghost var normal := AllNormal(steps);
    ghost var names := if normal then NamesOf(steps) else [];
    var dir, stretch := anchor, "";
    calls := [];
    ghost var done: seq<seq<string>>, filling: seq<string> := [], [];
    ProgressStart(t, anchor, names);
    NoTexts();
    for i := 0 to |steps|
      invariant forall j :: 0 <= j < i ==> steps[j].Normal?
      invariant stretch == Join(filling, '/') && (stretch == "" <==> filling == [])
      invariant normal ==> Progress(t, anchor, dir, done, filling, names, i) && calls == Texts(done, '/')
      invariant (i == 0 <==> filling == []) && (i == 0 ==> dir == anchor && calls == [])
    {
      if !steps[i].Normal? {
        r := Err(Invalid);
        return;
      }
      var name := steps[i].name;
      if filling != [] {
        JoinSnoc(filling, name, '/');
      }
      if stretch != "" && |stretch| + 1 + |name| >= PATH_MAX_BYTES {
        var below := OpenAt(t, dir, stretch);
        if normal {
          ProgressCalls(t, anchor, dir, done, filling, names, i);
          TextsSnoc(done, filling, '/');
        }
        calls := calls + [stretch];
        if below.Err? {
          if normal {
            ProgressEnds(t, anchor, dir, done, filling, names, i);
          }
          r := below;
          return;
        }
        if normal {
          ProgressOpens(t, anchor, dir, done, filling, names, i);
          assert [] + [name] == [names[i]];
        }
        dir, stretch := below.value, "";
        done, filling := done + [filling], [];
      } else if normal {
        ProgressGrows(t, anchor, dir, done, filling, names, i);
      }
      stretch := if stretch == "" then name else stretch + "/" + name;
      filling := filling + [name];
    }
    if stretch == "" {
      OpenHere(t, dir);
      assert calls == [];
      stretch := ".";
    } else if normal {
      ProgressEnds(t, anchor, dir, done, filling, names, |steps|);
      ProgressCalls(t, anchor, dir, done, filling, names, |steps|);
    }
    calls := calls + [stretch];
    r := OpenAt(t, dir, stretch);
  }

  lemma NoTexts()
    ensures Texts([], '/') == []
  {
  }

  /** `.` opens the directory one is in. */
  lemma OpenHere(t: Tree, dir: nat)
    ensures Agrees(OpenAt(t, dir, "."), Reach(t, dir, []), [])
  {
    SplitOne(".");
    assert ["."][1..] == [];
  }

  /** The directory `k` levels up. */
  function Up(t: Tree, n: nat, k: nat): nat {
    if k == 0 then n else t.Parent(Up(t, n, k - 1))
  }

  /** Whatever links the tree holds, what names reach is inside: as many levels up is where they started. */
  lemma {:induction false} ReachedIsInside(t: Tree, anchor: nat, names: seq<string>)
    requires t.Valid() && AllNames(names) && Reach(t, anchor, names).Ok?
    ensures Up(t, Reach(t, anchor, names).value, |names|) == anchor
    decreases |names|
  {
    if names != [] {
      assert IsName(names[0]);
      var next := t.Enter(anchor, names[0]).value;
      ReachedIsInside(t, next, names[1..]);
      assert next in t.dirs by {
        if |names| > 1 {
          assert t.Enter(next, names[1..][0]).Ok?;
        }
      }
      assert (anchor, names[0]) in t.child;
    }
  }

  // ------------------------------------------------------- By absolute path

  lemma RootWalk(t: Tree)
    requires t.root in t.dirs
    ensures t.Walk(t.root, Split(Show([]))) == Ok(t.root)
  {
    SplitJoint("", "");
    assert Show([]) == "" + ['/'] + "";
    assert ([""] + [""])[1..] == [""] && [""][1..] == [];
    assert t.Walk(t.root, [""]) == Ok(t.root);
  }

  lemma RootOpens(t: Tree, refuses: seq<string> -> bool)
    requires t.Valid()
    ensures |Show([])| < PATH_MAX_BYTES && OpenByPath(t, refuses, []) == Ok(t.root)
  {
    RootWalk(t);
  }

  lemma OpenByPathReaches(t: Tree, refuses: seq<string> -> bool, names: seq<string>)
    requires AllNames(names) && t.root in t.dirs
    requires OpenByPath(t, refuses, names) != Err(NameTooLong)
    ensures OpenByPath(t, refuses, names) == Reach(t, t.root, names)
  {
    if names == [] {
      RootWalk(t);
    } else {
      assert Show(names)[1..] == Join(names, '/');
      SplitJoin(names);
      assert ([""] + names)[1..] == names;
    }
  }

  lemma RelativeComponents(names: seq<string>)
    requires names != [] && AllNames(names)
    ensures Components(Join(names, '/')) == Named(names)
  {
    SplitJoin(names);
    PlainNames(names);
    assert IsName(names[0]) && names[0][0] in names[0];
    JoinLeads(names);
    hide Join, Split, Plain;
  }

  lemma JoinLeads(names: seq<string>)
    requires names != [] && names[0] != ""
    ensures names[0] <= Join(names, '/')
  {
  }

  /** What a relative text of names is read back as. */
  lemma RelativeNames(names: seq<string>)
    requires names != [] && AllNames(names)
    ensures AllNormal(Components(Join(names, '/'))) && NamesOf(Components(Join(names, '/'))) == names
  {
    RelativeComponents(names);
    hide Components, Join;
    assert forall i :: 0 <= i < |names| ==> names[i] in names;
    assert NamesOf(Named(names)) == names;
  }

  lemma ReachThrough(t: Tree, from: nat, a: seq<string>, b: seq<string>, at: nat)
    requires Reach(t, from, a) == Ok(at)
    ensures Reach(t, from, a + b) == Reach(t, at, b)
  {
    ReachConcat(t, from, a, b, at);
  }

  /**
   * `open_directory`: however the kernel refuses paths for their length, the
   * directory opened is the one that one name at a time reaches, none is opened
   * exactly when there is none, and the error is that of the way itself.
   */
  method OpenDirectory(t: Tree, refuses: seq<string> -> bool, names: seq<string>) returns (r: Result<nat, Errno>)
    requires t.Valid() && t.NoLinks() && t.ShortNames(PATH_MAX_BYTES) && AllNames(names)
    ensures Agrees(r, Reach(t, t.root, names), names)
  {
    hide OpenByPath, Reach, Components, AllNormal, NamesOf;
    var k := |names|;
    RootOpens(t, refuses);
    assert names[..0] == [];
    while |Show(names[..k])| >= PATH_MAX_BYTES || OpenByPath(t, refuses, names[..k]) == Err(NameTooLong)
      invariant 0 <= k <= |names|
      decreases k
    {
      k := k - 1;
    }
    var ancestor, rest := names[..k], names[k..];
    assert names == ancestor + rest;
    var answer := OpenByPath(t, refuses, ancestor);
    OpenByPathReaches(t, refuses, ancestor);
    if answer.Err? || rest == [] {
      if rest != [] {
        FailsBelow(t, t.root, ancestor, rest);
      } else {
        assert ancestor == names;
      }
      return answer;
    }
    RelativeNames(rest);
    ReachThrough(t, t.root, ancestor, rest, answer.value);
    var calls;
    r, calls := OpenDirectoryBelow(t, answer.value, Join(rest, '/'));
    assert forall n :: n in rest ==> n in names;
  }
}
