/**
 * Replacing a file so that a crash shows the old contents or the new: temporary
 * file, `fsync`, rename, `fsync` of the directory. What is not synced is
 * volatile: after a crash a file's unsynced data may be anything, each name of
 * an unsynced directory may lead where it led at any moment since the last sync,
 * and a directory whose own entry was never synced may be gone.
 */
module AtomicWrite {
  import opened Wrappers

  type Data = seq<bv8>

  datatype Node = Plain(data: Data, mode: nat) | Symlink

  const DEFAULT_FILE_MODE: nat := 0x1A4 // 0o644
  const TEMP_FILE_MODE: nat := 0x180 // 0o600, which `NamedTempFile` creates with

  /**
   * One directory and the files in it. `images` are the directory's contents
   * since its last sync, oldest first, whether it `stands` or not; `nodes` the files as they are read now,
   * `synced` as they were last synced; `linked` whether the directory's own
   * entry in its parent is durable.
   */
  datatype State = State(
    stands: bool, linked: bool, images: seq<map<string, nat>>, nodes: map<nat, Node>, synced: map<nat, Node>, next: nat)
  {
    function Last(): map<string, nat>
      requires images != []
    {
      images[|images| - 1]
    }

    /** What a read finds now. */
    function Reads(name: string): Option<Node>
      requires images != []
    {
      if name in Last() && Last()[name] in nodes then Some(nodes[Last()[name]]) else None
    }

    /** Where the name may lead after a crash. */
    function Leads(name: string): set<Option<nat>> {
      set i | 0 <= i < |images| :: At(images[i], name)
    }

    ghost predicate Valid() {
      && images != [] && (!stands ==> images == [map[]])
      && (forall i, n :: 0 <= i < |images| && n in images[i] ==> images[i][n] < next && images[i][n] in nodes)
      && (forall ino :: ino in synced ==> ino in nodes && ino < next)
    }
  }

  function At(image: map<string, nat>, name: string): Option<nat> {
    if name in image then Some(image[name]) else None
  }

  /** A crash now may leave `found` at this place: an unsynced file's contents are anything. */
  predicate Shows(s: State, place: Option<nat>, found: Option<Node>) {
    match place
    case None => found == None
    case Some(ino) =>
      && found.Some?
      && (ino in s.synced && ino in s.nodes && s.synced[ino] == s.nodes[ino] ==> found == Some(s.nodes[ino]))
  }

  /** What may be found under `name` after a crash now. */
  ghost predicate MayFind(s: State, name: string, found: Option<Node>) {
    || (!s.linked && found == None)
    || (exists place :: place in s.Leads(name) && Shows(s, place, found))
  }

  /** Under a name that leads to one file a crash leaves that file if it is synced, and otherwise anything, but a file. */
  lemma CrashShowsExactly(s: State, name: string, ino: nat, found: Option<Node>)
    requires s.linked && ino in s.nodes && s.Leads(name) == {Some(ino)}
    ensures MayFind(s, name, found) <==>
            found.Some? && (ino in s.synced && s.synced[ino] == s.nodes[ino] ==> found == Some(s.nodes[ino]))
  {
    assert Some(ino) in s.Leads(name);
  }

  // ------------------------------------------------------- Primitive steps

  function Appended(s: State, image: map<string, nat>): State {
    s.(images := s.images + [image])
  }

  /** `create_dir_all`. */
  function MakeDir(s: State): State {
    if s.stands then s else s.(stands := true, linked := false, images := [map[]])
  }

  /** A new empty file under a name nobody has. */
  function Create(s: State, temp: string): State
    requires s.images != []
  {
    Appended(s, s.Last()[temp := s.next]).(
      nodes := s.nodes[s.next := Plain([], TEMP_FILE_MODE)], synced := s.synced - {s.next}, next := s.next + 1)
  }

  function Fill(s: State, ino: nat, node: Node): State {
    s.(nodes := s.nodes[ino := node])
  }

  /** `fsync` of a file. */
  function Sync(s: State, ino: nat): State {
    if ino in s.nodes then s.(synced := s.synced[ino := s.nodes[ino]]) else s
  }

  /** `rename`, replacing whatever has the name. */
  function Rename(s: State, from: string, to: string): State
    requires s.images != []
  {
    if from in s.Last() then Appended(s, (s.Last() - {from})[to := s.Last()[from]]) else s
  }

  function Unlink(s: State, name: string): State
    requires s.images != []
  {
    Appended(s, s.Last() - {name})
  }

  /** `fsync` of the directory: of what it names, not of its own name. */
  function SyncDir(s: State): State
    requires s.images != []
  {
    s.(images := [s.Last()])
  }

  // ------------------------------------------------------- The protocol, phase by phase

  /** The files there were before read, and are synced, as before. */
  ghost predicate OldFilesKept(s: State, t: State) {
    && (forall ino :: ino < s.next ==> (ino in s.nodes <==> ino in t.nodes) && (ino in s.synced <==> ino in t.synced))
    && (forall ino :: ino < s.next && ino in s.nodes ==> s.nodes[ino] == t.nodes[ino])
    && (forall ino :: ino < s.next && ino in s.synced ==> s.synced[ino] == t.synced[ino])
  }

  /** Every name but those of `except` leads where it led, or fewer places, and reads as it did. */
  ghost predicate OthersKept(s: State, t: State, except: set<string>)
    requires s.images != [] && t.images != []
  {
    forall n :: n !in except ==> t.Leads(n) <= s.Leads(n) && At(t.Last(), n) == At(s.Last(), n)
  }

  /** The temporary file is there, and nothing else has changed. */
  ghost predicate Preparing(s: State, t: State, temp: string) {
    && t.Valid() && t.linked == s.linked && t.next == s.next + 1 && OldFilesKept(s, t)
    && s.images != [] && OthersKept(s, t, {temp}) && At(t.Last(), temp) == Some(s.next)
  }

  /** The new file is complete and synced, and the destination leads to it or where it led. */
  ghost predicate Switched(s: State, t: State, temp: string, dest: string, node: Node) {
    && t.Valid() && t.linked == s.linked && OldFilesKept(s, t) && s.images != []
    && OthersKept(s, t, {temp, dest})
    && t.Leads(dest) <= s.Leads(dest) + {Some(s.next)} && At(t.Last(), dest) == Some(s.next)
    && s.next in t.nodes && s.next in t.synced && t.nodes[s.next] == t.synced[s.next] == node
    && temp !in t.Last()
  }

  /** Every place the name could lead to before is a file there was. */
  lemma LeadsOld(s: State, name: string)
    requires s.Valid()
    ensures forall ino :: Some(ino) in s.Leads(name) ==> ino < s.next && ino in s.nodes
  {
  }

  lemma AppendedLeads(s: State, image: map<string, nat>, name: string)
    requires s.images != []
    ensures Appended(s, image).Leads(name) == s.Leads(name) + {At(image, name)}
  {
    var t := Appended(s, image);
    assert t.images[|s.images|] == image;
    forall i | 0 <= i < |s.images| ensures At(s.images[i], name) in t.Leads(name) {
      assert t.images[i] == s.images[i];
    }
  }

  lemma LastLeads(s: State, name: string)
    requires s.images != []
    ensures At(s.Last(), name) in s.Leads(name)
  {
  }

  /** A crash finds what it would have found before, under a name that leads no further. */
  lemma SameCrash(s: State, t: State, name: string, found: Option<Node>)
    requires s.Valid() && OldFilesKept(s, t) && t.linked == s.linked && t.Leads(name) <= s.Leads(name)
    requires MayFind(t, name, found)
    ensures MayFind(s, name, found)
  {
    LeadsOld(s, name);
    if exists place :: place in t.Leads(name) && Shows(t, place, found) {
      var place :| place in t.Leads(name) && Shows(t, place, found);
      assert place in s.Leads(name) && Shows(s, place, found);
    }
  }

  lemma CreateStarts(s: State, temp: string)
    requires s.Valid() && s.stands
    ensures Preparing(s, Create(s, temp), temp)
  {
    var t, image := Create(s, temp), s.Last()[temp := s.next];
    forall n | n != temp ensures t.Leads(n) <= s.Leads(n) && At(t.Last(), n) == At(s.Last(), n) {
      AppendedLeads(s, image, n);
      assert t.Leads(n) == Appended(s, image).Leads(n);
      LastLeads(s, n);
    }
  }

  lemma AppendedValid(s: State, image: map<string, nat>)
    requires s.Valid() && s.stands && forall n :: n in image ==> image[n] < s.next && image[n] in s.nodes
    ensures Appended(s, image).Valid()
  {
  }

  /** Writing, `chmod` and `fsync` touch the new file alone. */
  lemma FillPrepares(s: State, t: State, temp: string, node: Node)
    requires s.Valid() && Preparing(s, t, temp)
    ensures Preparing(s, Fill(t, s.next, node), temp)
  {
    forall n ensures Fill(t, s.next, node).Leads(n) == t.Leads(n) {}
  }

  lemma SyncPrepares(s: State, t: State, temp: string)
    requires s.Valid() && Preparing(s, t, temp)
    ensures Preparing(s, Sync(t, s.next), temp)
  {
    forall n ensures Sync(t, s.next).Leads(n) == t.Leads(n) {}
  }

  /** Dropping the temporary file on a failure leaves every name where it led. */
  lemma UnlinkUndoes(s: State, t: State, temp: string)
    requires s.Valid() && s.stands && Preparing(s, t, temp)
    ensures Undone(s, Unlink(t, temp), temp)
  {
    var u, image := Unlink(t, temp), t.Last() - {temp};
    AppendedValid(t, image);
    forall n | n != temp ensures u.Leads(n) <= s.Leads(n) && At(u.Last(), n) == At(s.Last(), n) {
      AppendedLeads(t, image, n);
      LastLeads(t, n);
    }
  }

  /** As before the call, the temporary file gone again. */
  ghost predicate Undone(s: State, t: State, temp: string) {
    && t.Valid() && t.linked == s.linked && OldFilesKept(s, t)
    && s.images != [] && OthersKept(s, t, {temp}) && temp !in t.Last()
  }

  lemma RenamedLeads(s: State, t: State, temp: string, dest: string, name: string)
    requires s.Valid() && s.stands && Preparing(s, t, temp) && name != temp && name != dest
    ensures var u := Rename(t, temp, dest);
            u.images != [] && u.Leads(name) <= s.Leads(name) && At(u.Last(), name) == At(s.Last(), name)
  {
    AppendedLeads(t, (t.Last() - {temp})[dest := s.next], name);
    LastLeads(t, name);
  }

  lemma RenameSwitches(s: State, t: State, temp: string, dest: string, node: Node)
    requires s.Valid() && s.stands && Preparing(s, t, temp) && temp != dest && Complete(t, s.next, node)
    ensures Switched(s, Rename(t, temp, dest), temp, dest, node)
  {
    var u, image := Rename(t, temp, dest), (t.Last() - {temp})[dest := s.next];
    assert u == Appended(t, image);
    AppendedValid(t, image);
    AppendedLeads(t, image, dest);
    assert t.Leads(dest) <= s.Leads(dest);
    assert u.linked == s.linked && OldFilesKept(s, u) && At(u.Last(), dest) == Some(s.next) && temp !in u.Last();
    assert u.nodes == t.nodes && u.synced == t.synced;
    assert OthersKept(s, u, {temp, dest}) by {
      forall n | n != temp && n != dest ensures u.Leads(n) <= s.Leads(n) && At(u.Last(), n) == At(s.Last(), n) {
        hide Rename;
        RenamedLeads(s, t, temp, dest, n);
      }
    }
  }

  lemma SyncDirSettles(s: State, t: State, temp: string, dest: string, node: Node)
    requires s.Valid() && s.stands && Switched(s, t, temp, dest, node)
    ensures Switched(s, SyncDir(t), temp, dest, node) && SyncDir(t).Leads(dest) == {Some(s.next)}
  {
    var u := SyncDir(t);
    forall n ensures u.Leads(n) == {At(t.Last(), n)} && u.Leads(n) <= t.Leads(n) {
      assert At(u.images[0], n) in u.Leads(n);
      LastLeads(t, n);
    }
  }

  // ------------------------------------------------------- After a crash

  /**
   * A crash at `t` finds under every name what a crash at `s` could have found,
   * and under the destination that or the new file, whole.
   */
  ghost predicate OldOrNew(s: State, t: State, temp: string, dest: string, node: Node) {
    forall name, found :: name != temp && MayFind(t, name, found) ==>
      MayFind(s, name, found) || (name == dest && found == Some(node))
  }

  lemma QuietIsSafe(s: State, t: State, temp: string, dest: string, node: Node)
    requires s.Valid() && OldFilesKept(s, t) && t.linked == s.linked && t.images != [] && OthersKept(s, t, {temp})
    ensures OldOrNew(s, t, temp, dest, node)
  {
    forall name, found | name != temp && MayFind(t, name, found) ensures MayFind(s, name, found) {
      SameCrash(s, t, name, found);
    }
  }

  lemma SwitchedIsSafe(s: State, t: State, temp: string, dest: string, node: Node)
    requires s.Valid() && Switched(s, t, temp, dest, node)
    ensures OldOrNew(s, t, temp, dest, node)
  {
    forall name, found | name != temp && MayFind(t, name, found)
      ensures MayFind(s, name, found) || (name == dest && found == Some(node))
    {
      if name != dest {
        SameCrash(s, t, name, found);
      } else if s.linked || found != None {
        var place :| place in t.Leads(name) && Shows(t, place, found);
        if place != Some(s.next) {
          LeadsOld(s, name);
          assert place in s.Leads(name) && Shows(s, place, found);
        }
      }
    }
  }

  /** Whatever a crash leaves under the name is the new file. */
  ghost predicate Survives(t: State, name: string, node: Node) {
    forall found :: MayFind(t, name, found) ==> found == Some(node)
  }

  /** Once the directory is synced the new file survives exactly when the directory's own entry does. */
  lemma SettledSurvivesExactly(s: State, t: State, temp: string, dest: string, node: Node)
    requires s.Valid() && Switched(s, t, temp, dest, node) && t.Leads(dest) == {Some(s.next)}
    ensures Survives(t, dest, node) <==> t.linked
  {
    if !t.linked {
      assert MayFind(t, dest, None);
    }
  }

  /** A directory just made holds nothing, and neither did its place. */
  lemma MakeDirIsSafe(s: State, name: string, found: Option<Node>)
    requires s.Valid() && MayFind(MakeDir(s), name, found)
    ensures MayFind(s, name, found)
  {
    if !s.stands {
      assert s.images == MakeDir(s).images == [map[]];
      assert At(s.images[0], name) == None && None in s.Leads(name) && Shows(s, None, None);
    }
  }

  // ------------------------------------------------------- The operations

  datatype Failure = CreateFailed | WriteFailed(written: Data) | ModeFailed | FlushFailed | RenameFailed | SyncFailed

  /** A plain file's twelve permission bits are kept; what is new gets `rw-r--r--`. */
  ghost predicate KeepsMode(found: Option<Node>, mode: nat) {
    && mode < 0x1000
    && if found.Some? && found.value.Plain? then (found.value.mode - mode) % 0x1000 == 0
       else mode == 6 * 64 + 4 * 8 + 4
  }

  /** Permission bits the destination keeps, when it is a plain file. */
  function ModeFor(found: Option<Node>): (mode: nat)
    ensures KeepsMode(found, mode)
  {
    if found.Some? && found.value.Plain? then found.value.mode % 0x1000 else DEFAULT_FILE_MODE
  }

  /** Every other name reads as before, and no temporary file is left. */
  ghost predicate OthersRead(s: State, t: State, temp: string, dest: string) {
    && s.images != [] && t.images != [] && temp !in t.Last()
    && forall name :: name != temp && name != dest ==> t.Reads(name) == s.Reads(name)
  }

  lemma SwitchedReads(s: State, t: State, temp: string, dest: string, node: Node)
    requires s.Valid() && Switched(s, t, temp, dest, node)
    ensures OthersRead(s, t, temp, dest) && t.Reads(dest) == Some(node)
  {
    forall name | name != temp && name != dest ensures t.Reads(name) == s.Reads(name) {
      assert At(t.Last(), name) == At(s.Last(), name);
    }
  }

  lemma UndoneReads(s: State, t: State, temp: string, dest: string)
    requires s.Valid() && Undone(s, t, temp) && temp != dest
    ensures OthersRead(s, t, temp, dest) && t.Reads(dest) == s.Reads(dest)
  {
    forall name | name != temp ensures t.Reads(name) == s.Reads(name) {
      assert At(t.Last(), name) == At(s.Last(), name);
    }
  }

  class Volume {
    var st: State
    /** The state after every primitive step, which a crash may stop at. */
    ghost var history: seq<State>

    constructor (s: State)
      ensures st == s && history == [s]
    {
      st := s;
      history := [s];
    }

    method Step(next: State)
      modifies this
      ensures st == next && history == old(history) + [next]
    {
      st := next;
      history := history + [next];
    }

    /** The history goes on from `before`, and every state since is safe to crash in. */
    ghost predicate SafeSince(before: seq<State>, s: State, temp: string, dest: string, node: Node)
      reads this
    {
      && before <= history
      && forall i :: |before| <= i < |history| ==> OldOrNew(s, history[i], temp, dest, node)
    }

    /** One step, and that the state it leads to is safe as well. */
    method SafeStep(
      next: State, ghost before: seq<State>, ghost s: State, ghost temp: string, ghost dest: string, ghost node: Node)
      requires SafeSince(before, s, temp, dest, node) && OldOrNew(s, next, temp, dest, node)
      modifies this
      ensures st == next && history == old(history) + [next]
      ensures SafeSince(before, s, temp, dest, node)
    {
      hide OldOrNew;
      Step(next);
    }

    /** `write_all` and `set_permissions`: the new file is `file` now. */
    method Put(
      file: Node, ino: nat, ghost before: seq<State>, ghost s: State, ghost temp: string, ghost dest: string,
      ghost node: Node)
      requires s.Valid() && Preparing(s, st, temp) && SafeSince(before, s, temp, dest, node) && ino == s.next
      modifies this
      ensures Preparing(s, st, temp) && SafeSince(before, s, temp, dest, node)
      ensures ino in st.nodes && st.nodes[ino] == file
    {
      FillPrepares(s, st, temp, file);
      PreparingIsSafe(s, Fill(st, ino, file), temp, dest, node);
      SafeStep(Fill(st, ino, file), before, s, temp, dest, node);
    }

    /** `sync_all` of the new file. */
    method Flush(
      ino: nat, ghost before: seq<State>, ghost s: State, ghost temp: string, ghost dest: string, ghost node: Node)
      requires s.Valid() && Preparing(s, st, temp) && SafeSince(before, s, temp, dest, node) && ino == s.next
      requires ino in st.nodes && st.nodes[ino] == node
      modifies this
      ensures Preparing(s, st, temp) && SafeSince(before, s, temp, dest, node) && Complete(st, ino, node)
    {
      SyncPrepares(s, st, temp);
      PreparingIsSafe(s, Sync(st, ino), temp, dest, node);
      SafeStep(Sync(st, ino), before, s, temp, dest, node);
    }

    /** The temporary file, written, given its mode and flushed; gone again if a step fails. */
    method Prepare(temp: string, ghost dest: string, node: Node, setMode: bool, fault: Option<Failure>)
      returns (r: Result<(), Failure>)
      requires st.Valid() && st.stands && temp !in st.Last() && node.Plain?
      requires !setMode ==> node.mode == TEMP_FILE_MODE
      modifies this
      ensures SafeSince(old(history), old(st), temp, dest, node)
      ensures r.Err? ==> Undone(old(st), st, temp)
      ensures r.Ok? ==> Preparing(old(st), st, temp) && Complete(st, old(st).next, node)
      ensures r == if fault.Some? && Strikes(fault.value, setMode) then Err(fault.value) else Ok(())
    {
      ghost var s, before := st, history;
      var ino := st.next;
      assert SafeSince(before, s, temp, dest, node);
      if fault == Some(CreateFailed) {
        UntouchedIsUndone(s, temp);
        return Err(CreateFailed);
      }
      CreateStarts(s, temp);
      hide OldOrNew, Preparing, Undone, SafeSince, Create, Complete;
      PreparingIsSafe(s, Create(s, temp), temp, dest, node);
      SafeStep(Create(st, temp), before, s, temp, dest, node);
      if fault.Some? && fault.value.WriteFailed? {
        Put(Plain(fault.value.written, TEMP_FILE_MODE), ino, before, s, temp, dest, node);
        Drop(before, s, temp, dest, node);
        return Err(fault.value);
      }
      Put(Plain(node.data, TEMP_FILE_MODE), ino, before, s, temp, dest, node);
      if fault == Some(ModeFailed) && setMode {
        Drop(before, s, temp, dest, node);
        return Err(ModeFailed);
      }
      if setMode {
        Put(node, ino, before, s, temp, dest, node);
      }
      if fault == Some(FlushFailed) {
        Drop(before, s, temp, dest, node);
        return Err(FlushFailed);
      }
      Flush(ino, before, s, temp, dest, node);
      r := Ok(());
    }

    /** `NamedTempFile`'s own drop: the file is unlinked when it was not persisted. */
    method Drop(ghost before: seq<State>, ghost s: State, temp: string, ghost dest: string, ghost node: Node)
      requires s.Valid() && s.stands && Preparing(s, st, temp) && SafeSince(before, s, temp, dest, node)
      modifies this
      ensures SafeSince(before, s, temp, dest, node) && Undone(s, st, temp)
    {
      UnlinkUndoes(s, st, temp);
      UndoneIsSafe(s, Unlink(st, temp), temp, dest, node);
      SafeStep(Unlink(st, temp), before, s, temp, dest, node);
    }

    /**
     * The protocol both writers share; `fault` is the step that fails, if one
     * does. A crash at any step finds the old file or the new; a failure before
     * the rename leaves all as it was; after success the new file survives a
     * crash exactly when the directory's own entry does.
     */
    method Replace(dest: string, temp: string, node: Node, setMode: bool, fault: Option<Failure>)
      returns (r: Result<(), Failure>)
      requires st.Valid() && st.stands && temp !in st.Last() && temp != dest && node.Plain?
      requires !setMode ==> node.mode == TEMP_FILE_MODE
      modifies this
      ensures SafeSince(old(history), old(st), temp, dest, node)
      ensures r.Err? && r.error != SyncFailed ==> Undone(old(st), st, temp)
      ensures r.Err? && r.error == SyncFailed ==> Switched(old(st), st, temp, dest, node)
      ensures r.Ok? ==> Switched(old(st), st, temp, dest, node) && (Survives(st, dest, node) <==> st.linked)
      ensures r == if fault.Some? && (Strikes(fault.value, setMode) || fault.value.RenameFailed? || fault.value.SyncFailed?)
                   then Err(fault.value) else Ok(())
    {
      ghost var s, before := st, history;
      r := Prepare(temp, dest, node, setMode, fault);
      if r.Err? {
        return;
      }
      hide OldOrNew, Preparing, Undone, Switched, SafeSince, Survives;
      if fault == Some(RenameFailed) {
        Drop(before, s, temp, dest, node);
        return Err(RenameFailed);
      }
      RenameSwitches(s, st, temp, dest, node);
      SwitchedIsSafe(s, Rename(st, temp, dest), temp, dest, node);
      SafeStep(Rename(st, temp, dest), before, s, temp, dest, node);
      if fault == Some(SyncFailed) {
        return Err(SyncFailed);
      }
      SyncDirSettles(s, st, temp, dest, node);
      SwitchedIsSafe(s, SyncDir(st), temp, dest, node);
      SwitchedHasImages(s, st, temp, dest, node);
      SafeStep(SyncDir(st), before, s, temp, dest, node);
      SettledSurvivesExactly(s, st, temp, dest, node);
    }

    /** `write_atomic`: the destination keeps its mode, and a new one gets the default. */
    method WriteAtomic(dest: string, temp: string, contents: Data, fault: Option<Failure>) returns (r: Result<(), Failure>)
      requires st.Valid() && temp !in st.Last() && temp != dest
      modifies this
      ensures var node := Plain(contents, ModeFor(old(st).Reads(dest)));
              && SafeSince(old(history), old(st), temp, dest, node)
              && (r.Err? && r.error != SyncFailed ==> Undone(old(st), st, temp))
              && (r.Ok? || r.error == SyncFailed ==> Switched(old(st), st, temp, dest, node))
              && (r.Ok? ==> (Survives(st, dest, node) <==> old(st).linked))
      ensures r == if !old(st).stands then Err(CreateFailed) else if fault.Some? then Err(fault.value) else Ok(())
      ensures OthersRead(old(st), st, temp, dest)
      ensures if r.Ok? || r.error == SyncFailed
              then st.Reads(dest).Some? && st.Reads(dest).value.Plain?
                   && st.Reads(dest).value.data == contents && KeepsMode(old(st).Reads(dest), st.Reads(dest).value.mode)
              else st.Reads(dest) == old(st).Reads(dest)
    {
      ghost var s := st;
      if !st.stands {
        UntouchedIsUndone(st, temp);
        UndoneReads(st, st, temp, dest);
        return Err(CreateFailed);
      }
      var node := Plain(contents, ModeFor(st.Reads(dest)));
      r := Replace(dest, temp, node, true, fault);
      if r.Ok? || r.error == SyncFailed {
        SwitchedReads(s, st, temp, dest, node);
      } else {
        UndoneReads(s, st, temp, dest);
      }
    }

    /** The command line's `write`: parent directories made first, no mode set. */
    method Write(dest: string, temp: string, contents: Data, fault: Option<Failure>) returns (r: Result<(), Failure>)
      requires st.Valid() && temp !in st.Last() && temp != dest
      modifies this
      ensures var node := Plain(contents, TEMP_FILE_MODE);
              && SafeSince(old(history), old(st), temp, dest, node)
              && (r.Ok? ==> st.images != [] && st.Reads(dest) == Some(node))
              && (r.Ok? ==> (Survives(st, dest, node) <==> old(st).stands && old(st).linked))
      ensures r == if fault.Some? && fault.value != ModeFailed then Err(fault.value) else Ok(())
      ensures OthersRead(old(st), st, temp, dest)
      ensures st.Reads(dest)
              == if r.Ok? || r.error == SyncFailed then Some(Plain(contents, 6 * 64)) else old(st).Reads(dest)
    {
      ghost var s, before := st, history;
      var node := Plain(contents, TEMP_FILE_MODE);
      MadeDir(s);
      MadeDirReads(s);
      Step(MakeDir(st));
      ghost var made := history;
      r := Replace(dest, temp, node, false, fault);
      if r.Ok? || r.error == SyncFailed {
        SwitchedReads(MakeDir(s), st, temp, dest, node);
      } else {
        UndoneReads(MakeDir(s), st, temp, dest);
      }
      forall i | |before| <= i < |history| ensures OldOrNew(s, history[i], temp, dest, node) {
        if i < |made| {
          assert history[i] == made[i] == MakeDir(s);
        } else {
          MadeDirBefore(s, history[i], temp, dest, node);
        }
      }
    }
  }

  /** The faults that stop the temporary file from being made ready. */
  predicate Strikes(fault: Failure, setMode: bool) {
    fault.CreateFailed? || fault.WriteFailed? || (fault.ModeFailed? && setMode) || fault.FlushFailed?
  }

  /** The new file is whole and durable. */
  predicate Complete(t: State, ino: nat, node: Node) {
    ino in t.nodes && ino in t.synced && t.nodes[ino] == t.synced[ino] == node
  }

  lemma SwitchedHasImages(s: State, t: State, temp: string, dest: string, node: Node)
    requires Switched(s, t, temp, dest, node)
    ensures t.images != [] && t.linked == s.linked
  {
  }

  lemma MadeDir(s: State)
    requires s.Valid()
    ensures MakeDir(s).Valid() && MakeDir(s).stands && MakeDir(s).Last() == s.Last()
    ensures MakeDir(s).linked == (s.stands && s.linked)
    ensures forall temp, dest, node :: OldOrNew(s, MakeDir(s), temp, dest, node)
  {
    forall name, found | MayFind(MakeDir(s), name, found) ensures MayFind(s, name, found) {
      MakeDirIsSafe(s, name, found);
    }
  }

  /** Making the directory changes nothing a read finds in it. */
  lemma MadeDirReads(s: State)
    requires s.Valid()
    ensures MakeDir(s).images != [] && forall name :: MakeDir(s).Reads(name) == s.Reads(name)
  {
  }

  /** What is safe next to the directory just made is safe next to its absence. */
  lemma MadeDirBefore(s: State, t: State, temp: string, dest: string, node: Node)
    requires s.Valid() && OldOrNew(MakeDir(s), t, temp, dest, node)
    ensures OldOrNew(s, t, temp, dest, node)
  {
    forall name, found | name != temp && MayFind(t, name, found)
      ensures MayFind(s, name, found) || (name == dest && found == Some(node))
    {
      if MayFind(MakeDir(s), name, found) {
        MakeDirIsSafe(s, name, found);
      }
    }
  }

  lemma PreparingIsSafe(s: State, t: State, temp: string, dest: string, node: Node)
    requires s.Valid() && Preparing(s, t, temp)
    ensures OldOrNew(s, t, temp, dest, node)
  {
    QuietIsSafe(s, t, temp, dest, node);
  }

  lemma UndoneIsSafe(s: State, t: State, temp: string, dest: string, node: Node)
    requires s.Valid() && Undone(s, t, temp)
    ensures OldOrNew(s, t, temp, dest, node)
  {
    QuietIsSafe(s, t, temp, dest, node);
  }

  lemma UntouchedIsUndone(s: State, temp: string)
    requires s.Valid() && temp !in s.Last()
    ensures Undone(s, s, temp)
  {
  }
}
