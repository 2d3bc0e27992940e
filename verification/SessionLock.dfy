/**
 * Any number of processes working on one session name, one system call at a
 * time: the existence probe, opening the lock file, `flock`, the re-check of the
 * directory, its removal, and a mover claiming the name anew. Every directory
 * and every lock file has an identity that is never used again.
 */
module SessionLock {
  import opened Wrappers

  type Pid = nat

  /**
   * Where a process is. `ino` is the lock file it opened, `dir` the directory
   * that file was opened in, `token` the identity the guard recorded when the
   * process is there to remove the session, and none for any other writer.
   */
  datatype Place =
    | Idle
    | Guarded(approved: nat)
    | Seen(dir: nat)
    | Opened(token: Option<nat>, ino: nat, dir: nat)
    | Holding(token: Option<nat>, ino: nat, dir: nat)
    | Checked(ino: nat, dir: nat)
    | Removing(ino: nat, dir: nat)
    | Removed(ino: nat, dir: nat)
  {
    /** The process has `flock`ed the file it opened. */
    predicate Locks() {
      Holding? || Checked? || Removing? || Removed?
    }

    /** The process has the lock file open. */
    predicate HasFile() {
      Opened? || Locks()
    }

    /** It may start an open: it is fresh, approved to remove, or saw a lock file. */
    predicate MayOpen() {
      Idle? || Guarded? || Seen?
    }

    function Token(): Option<nat> {
      if Guarded? then Some(approved) else None
    }
  }

  /**
   * `current` is the directory at the session's path and `last` the newest one
   * there ever was, `locks` the `.lock` linked in each directory and `holder`
   * who has each lock file `flock`ed. `unlinked` are the directories whose
   * `.lock` a removal ever took while they stood.
   */
  datatype State = State(
    current: Option<nat>, last: nat, locks: map<nat, nat>, holder: map<nat, Pid>, unlinked: set<nat>, next: nat,
    places: map<Pid, Place>)
  {
    function At(p: Pid): Place {
      if p in places then places[p] else Idle
    }
  }

  datatype Step =
    | Claim                 // `create_dir_exclusive` by a mover
    | Guard(p: Pid)         // the guard records the directory's identity
    | See(p: Pid)           // `take_if_present`: the lock file is there
    | Open(p: Pid)          // `open_lock_file`, creating it if missing
    | Flock(p: Pid)
    | Recheck(p: Pid)
    | RemoveWhole(p: Pid)   // `remove_tree`, all or nothing
    | UnlinkLock(p: Pid)    // `remove_tree` on its way: `.lock` is gone, the directory is not
    | FinishRemoval(p: Pid) // the last `rmdir`, which an entry made since refuses
    | FailRemoval(p: Pid)   // `remove_tree` gives up part of the way
    | Drop(p: Pid)          // the guard value goes out of scope

  /** The process is past its re-check: what it does next, it does to whatever has the name. */
  predicate Threatens(at: Place) {
    at.Checked? || at.Removing?
  }

  function Move(s: State, p: Pid, to: Place): State {
    s.(places := s.places[p := to])
  }

  function Release(s: State, p: Pid, ino: nat): State {
    Move(s, p, Idle).(holder := s.holder - {ino})
  }

  function AfterOpen(s: State, p: Pid): State {
    if s.current.None? then Move(s, p, Idle)
    else
      var d, token := s.current.value, s.At(p).Token();
      if d in s.locks then Move(s, p, Opened(token, s.locks[d], d))
      else Move(s, p, Opened(token, s.next, d)).(locks := s.locks[d := s.next], next := s.next + 1)
  }

  function AfterFlock(s: State, p: Pid): State
    requires s.At(p).Opened?
  {
    var at := s.At(p);
    if at.ino in s.holder then Move(s, p, Idle)
    else Move(s, p, Holding(at.token, at.ino, at.dir)).(holder := s.holder[at.ino := p])
  }

  /** The state after a step; a step that is not enabled changes nothing. */
  function After(s: State, step: Step): State {
    match step
    case Claim =>
      if s.current.None? then s.(current := Some(s.next), last := s.next, next := s.next + 1) else s
    case Guard(p) => if s.At(p).Idle? && s.current.Some? then Move(s, p, Guarded(s.current.value)) else s
    case See(p) =>
      if s.At(p).Idle? && s.current.Some? && s.current.value in s.locks then Move(s, p, Seen(s.current.value)) else s
    case Open(p) => if s.At(p).MayOpen() then AfterOpen(s, p) else s
    case Flock(p) => if s.At(p).Opened? then AfterFlock(s, p) else s
    case Recheck(p) =>
      if !s.At(p).Holding? || s.At(p).token.None? then s
      else if s.current == s.At(p).token then Move(s, p, Checked(s.At(p).ino, s.At(p).dir))
      else Release(s, p, s.At(p).ino)
    case RemoveWhole(p) =>
      if s.At(p).Checked? then Move(s, p, Removed(s.At(p).ino, s.At(p).dir)).(current := None) else s
    case UnlinkLock(p) =>
      if Threatens(s.At(p)) && s.current.Some? then
        Move(s, p, Removing(s.At(p).ino, s.At(p).dir)).(
          locks := s.locks - {s.current.value}, unlinked := s.unlinked + {s.current.value})
      else s
    case FinishRemoval(p) =>
      if s.At(p).Removing? && s.current.Some? && s.current.value !in s.locks
      then Move(s, p, Removed(s.At(p).ino, s.At(p).dir)).(current := None) else s
    case FailRemoval(p) =>
      if s.At(p).Removing? then Move(s, p, Holding(None, s.At(p).ino, s.At(p).dir)) else s
    case Drop(p) =>
      if s.At(p).Holding? || s.At(p).Checked? || s.At(p).Removed? then Release(s, p, s.At(p).ino) else s
  }

  const START := State(None, 0, map[], map[], {}, 1, map[])

  function RunFrom(s: State, steps: seq<Step>): State
    decreases |steps|
  {
    if steps == [] then s else After(RunFrom(s, steps[..|steps| - 1]), steps[|steps| - 1])
  }

  /** `remove_tree` is all or nothing throughout the run. */
  ghost predicate RemovesWhole(steps: seq<Step>) {
    forall i :: 0 <= i < |steps| ==> !steps[i].UnlinkLock?
  }

  /** The process a step belongs to. */
  predicate By(step: Step, p: Pid) {
    !step.Claim? && step.p == p
  }

  /** `p` holds the lock of directory `d`. */
  predicate Holds(s: State, p: Pid, d: nat) {
    s.At(p).Locks() && s.At(p).dir == d
  }

  // ------------------------------------------------------- Invariants

  /** Each lock file has the one holder `flock` knows of. */
  ghost predicate HoldersOk(s: State) {
    && (forall p: Pid :: s.At(p).HasFile() ==> s.At(p).ino < s.next)
    && (forall p: Pid :: s.At(p).Locks() ==> s.At(p).ino in s.holder && s.holder[s.At(p).ino] == p)
    && (forall ino :: ino in s.holder ==> s.At(s.holder[ino]).Locks() && s.At(s.holder[ino]).ino == ino)
    && (forall d :: d in s.locks ==> s.locks[d] < s.next)
  }

  /** Directories come in order, and no two share a lock file. */
  ghost predicate NamesOk(s: State) {
    && s.last < s.next
    && (s.current.Some? ==> s.current.value == s.last)
    && (forall d :: d in s.locks ==> d <= s.last)
    && (forall d, e :: d in s.locks && e in s.locks && s.locks[d] == s.locks[e] ==> d == e)
  }

  lemma HeldFilesAreOld(s: State)
    requires HoldersOk(s)
    ensures forall ino :: ino in s.holder ==> ino < s.next
  {
  }

  /**
   * What a process knows is never from the future, and its file is its
   * directory's own unless that was unlinked. While nothing ever was, a process
   * past its re-check stands on its own directory.
   */
  ghost predicate PlaceOk(s: State, at: Place) {
    && (at.Guarded? ==> at.approved <= s.last)
    && (at.Seen? ==> at.dir in s.locks || at.dir in s.unlinked)
    && (at.HasFile() ==>
          at.dir <= s.last && (at.dir in s.unlinked || (at.dir in s.locks && s.locks[at.dir] == at.ino)))
    && ((at.Opened? || at.Holding?) && at.token.Some? ==> at.token.value <= at.dir)
    && (s.unlinked == {} ==> (at.Checked? ==> s.current == Some(at.dir)) && !at.Removing?)
  }

  /** The invariant of every run. */
  ghost predicate Inv(s: State) {
    && HoldersOk(s)
    && NamesOk(s)
    && (forall p: Pid :: PlaceOk(s, s.At(p)))
  }

  lemma OthersStay(s: State, step: Step, p: Pid)
    requires !By(step, p)
    ensures After(s, step).At(p) == s.At(p)
  {
  }

  lemma HolderOfAfter(s: State, step: Step, p: Pid)
    requires HoldersOk(s)
    ensures var t := After(s, step);
            && (t.At(p).HasFile() ==> t.At(p).ino < t.next)
            && (t.At(p).Locks() ==> t.At(p).ino in t.holder && t.holder[t.At(p).ino] == p)
  {
    if !By(step, p) { OthersStay(s, step, p); }
  }

  lemma HeldByOtherAfter(s: State, step: Step, ino: nat)
    requires HoldersOk(s) && ino in After(s, step).holder && !By(step, After(s, step).holder[ino])
    ensures ino in s.holder && s.holder[ino] == After(s, step).holder[ino]
  {
  }

  /** Only `flock` takes a lock file, for the one that calls it. */
  lemma FlockTakes(s: State, p: Pid, ino: nat)
    requires HoldersOk(s) && ino in After(s, Flock(p)).holder && After(s, Flock(p)).holder[ino] == p
    ensures After(s, Flock(p)).At(p).Locks() && After(s, Flock(p)).At(p).ino == ino
  {
    if ino in s.holder && s.holder[ino] == p {
      assert s.At(p).Locks() && s.At(p).ino == ino;
    }
  }

  lemma OthersTakeNothing(s: State, step: Step, ino: nat)
    requires !step.Flock? && ino in After(s, step).holder
    ensures ino in s.holder && s.holder[ino] == After(s, step).holder[ino]
  {
  }

  /** What a process still holds after its step it holds by the same file. */
  lemma ActorStillHolds(s: State, step: Step, p: Pid)
    requires HoldersOk(s) && By(step, p) && !step.Flock? && s.At(p).Locks() && s.At(p).ino in After(s, step).holder
    ensures After(s, step).At(p).Locks() && After(s, step).At(p).ino == s.At(p).ino
  {
  }

  lemma HeldByActorAfter(s: State, step: Step, ino: nat)
    requires HoldersOk(s) && ino in After(s, step).holder && By(step, After(s, step).holder[ino])
    ensures After(s, step).At(step.p).Locks() && After(s, step).At(step.p).ino == ino
  {
    hide After;
    if step.Flock? {
      FlockTakes(s, step.p, ino);
    } else {
      OthersTakeNothing(s, step, ino);
      assert s.At(step.p).Locks() && s.At(step.p).ino == ino;
      ActorStillHolds(s, step, step.p);
    }
  }

  lemma HeldFileAfter(s: State, step: Step, ino: nat)
    requires HoldersOk(s) && ino in After(s, step).holder
    ensures var t := After(s, step); t.At(t.holder[ino]).Locks() && t.At(t.holder[ino]).ino == ino
  {
    var p := After(s, step).holder[ino];
    if By(step, p) {
      HeldByActorAfter(s, step, ino);
    } else {
      OthersStay(s, step, p);
      HeldByOtherAfter(s, step, ino);
      hide After;
    }
  }

  lemma HoldersAfter(s: State, step: Step)
    requires HoldersOk(s)
    ensures HoldersOk(After(s, step))
  {
    var t := After(s, step);
    assert forall d :: d in t.locks ==> t.locks[d] < t.next;
    hide After;
    forall p: Pid
      ensures t.At(p).HasFile() ==> t.At(p).ino < t.next
      ensures t.At(p).Locks() ==> t.At(p).ino in t.holder && t.holder[t.At(p).ino] == p
    {
      HolderOfAfter(s, step, p);
    }
    forall ino | ino in t.holder
      ensures t.At(t.holder[ino]).Locks() && t.At(t.holder[ino]).ino == ino
    {
      HeldFileAfter(s, step, ino);
    }
  }

  lemma NamesAfter(s: State, step: Step)
    requires HoldersOk(s) && NamesOk(s)
    ensures NamesOk(After(s, step))
  {
  }

  /** Two holders of one directory are one, unless its lock file was unlinked while it stood. */
  lemma OneHolder(s: State, p: Pid, q: Pid, d: nat)
    requires Inv(s) && Holds(s, p, d) && Holds(s, q, d)
    ensures p == q || d in s.unlinked
  {
    assert PlaceOk(s, s.At(p)) && PlaceOk(s, s.At(q));
    assert s.holder[s.At(p).ino] == p && s.holder[s.At(q).ino] == q;
  }

  /** A process that did nothing still knows what is so. */
  lemma OtherPlaceAfter(s: State, step: Step, p: Pid)
    requires Inv(s) && !By(step, p)
    ensures PlaceOk(After(s, step), s.At(p))
  {
    assert PlaceOk(s, s.At(p));
    if s.At(p).Checked? && step.RemoveWhole? && s.At(step.p).Checked? && s.unlinked == {} {
      assert PlaceOk(s, s.At(step.p));
      OneHolder(s, p, step.p, s.At(p).dir);
    }
    if step.FinishRemoval? {
      assert PlaceOk(s, s.At(step.p));
    }
  }

  /** What the process that acted then knows is so. */
  lemma OwnPlaceAfter(s: State, step: Step, p: Pid)
    requires Inv(s) && By(step, p)
    ensures PlaceOk(After(s, step), After(s, step).At(p))
  {
    assert PlaceOk(s, s.At(p));
  }

  lemma InvAfter(s: State, step: Step)
    requires Inv(s)
    ensures Inv(After(s, step))
  {
    HoldersAfter(s, step);
    NamesAfter(s, step);
    forall p: Pid ensures PlaceOk(After(s, step), After(s, step).At(p)) {
      if By(step, p) {
        OwnPlaceAfter(s, step, p);
      } else {
        OthersStay(s, step, p);
        OtherPlaceAfter(s, step, p);
      }
    }
  }

  lemma {:induction false} InvAlways(steps: seq<Step>)
    ensures Inv(RunFrom(START, steps))
    decreases |steps|
  {
    if steps != [] {
      InvAlways(steps[..|steps| - 1]);
      InvAfter(RunFrom(START, steps[..|steps| - 1]), steps[|steps| - 1]);
    }
  }

  /** Only a removal taken apart unlinks a lock file from a directory that stands. */
  lemma {:induction false} WholeRemovalsUnlinkNothing(steps: seq<Step>)
    requires RemovesWhole(steps)
    ensures RunFrom(START, steps).unlinked == {}
    decreases |steps|
  {
    if steps != [] {
      WholeRemovalsUnlinkNothing(steps[..|steps| - 1]);
    }
  }

  lemma Unrolled(s: State, steps: seq<Step>, step: Step)
    ensures RunFrom(s, steps + [step]) == After(RunFrom(s, steps), step)
  {
    assert (steps + [step])[..|steps|] == steps;
  }

  // ------------------------------------------------------- Exclusion

  /**
   * In every run: no lock file linked in a directory has two holders, and two
   * processes hold one directory only if its lock file was unlinked under them.
   */
  lemma ExclusionAlways(steps: seq<Step>, p: Pid, q: Pid, d: nat)
    requires Holds(RunFrom(START, steps), p, d) && Holds(RunFrom(START, steps), q, d)
    ensures var s := RunFrom(START, steps);
            && (p == q || d in s.unlinked)
            && (p == q || s.At(p).ino != s.At(q).ino)
            && (RemovesWhole(steps) ==> p == q)
  {
    InvAlways(steps);
    OneHolder(RunFrom(START, steps), p, q, d);
    if RemovesWhole(steps) {
      WholeRemovalsUnlinkNothing(steps);
    }
  }

  /**
   * In every run a directory leaves only by a process past its re-check; and
   * while no lock file has been unlinked from a standing directory, that is the
   * one process holding the lock of that very directory.
   */
  lemma OnlyTheHolderRemoves(steps: seq<Step>, step: Step, d: nat)
    requires RunFrom(START, steps).current == Some(d)
    requires After(RunFrom(START, steps), step).current != Some(d)
    ensures var s := RunFrom(START, steps);
            && (step.RemoveWhole? || step.FinishRemoval?) && Threatens(s.At(step.p))
            && (s.unlinked == {} ==>
                  step.RemoveWhole? && Holds(s, step.p, d) && forall q: Pid :: Holds(s, q, d) ==> q == step.p)
  {
    var s := RunFrom(START, steps);
    InvAlways(steps);
    assert PlaceOk(s, s.At(step.p));
    if s.unlinked == {} {
      forall q: Pid | Holds(s, q, d) ensures q == step.p {
        OneHolder(s, q, step.p, d);
      }
    }
  }

  /**
   * In any run: a fresh process that opens and `flock`s gets the lock of the
   * standing directory exactly when the file linked there is not held, whoever
   * holds an unlinked one.
   */
  lemma SecondHolderExactly(steps: seq<Step>, q: Pid, d: nat)
    requires RunFrom(START, steps).current == Some(d) && RunFrom(START, steps).At(q).Idle?
    ensures var s := RunFrom(START, steps);
            Holds(After(After(s, Open(q)), Flock(q)), q, d)
            <==> d !in s.locks || s.locks[d] !in s.holder
  {
    var s := RunFrom(START, steps);
    HoldersAlways(steps);
    HeldFilesAreOld(s);
  }

  lemma HoldersAlways(steps: seq<Step>)
    ensures HoldersOk(RunFrom(START, steps))
  {
    InvAlways(steps);
  }

  /**
   * With the removal taken apart, exclusion is lost whenever a newcomer arrives
   * between the unlinking of `.lock` and the end: both hold the standing directory.
   */
  lemma StepwiseRemovalLetsTwoIn(steps: seq<Step>, p: Pid, q: Pid, d: nat)
    requires RunFrom(START, steps).current == Some(d) && Holds(RunFrom(START, steps), p, d)
    requires Threatens(RunFrom(START, steps).At(p)) && RunFrom(START, steps).At(q).Idle?
    ensures var s := After(After(After(RunFrom(START, steps), UnlinkLock(p)), Open(q)), Flock(q));
            p != q && s.current == Some(d) && Holds(s, p, d) && Holds(s, q, d)
  {
    var s := RunFrom(START, steps);
    HoldersAlways(steps);
    HeldFilesAreOld(s);
    var t := After(s, UnlinkLock(p));
    assert t.At(q).Idle? && d !in t.locks && t.current == Some(d) && Holds(t, p, d);
    var u := After(t, Open(q));
    assert u.At(q) == Opened(None, s.next, d) && u.holder == s.holder && u.At(p) == t.At(p);
  }

  // ------------------------------------------------------- Keeping a session

  /** The process has another lock file of `d` than `ino` open, and was approved to remove `d`. */
  predicate IsRival(at: Place, ino: nat, d: nat) {
    (at.Opened? || at.Holding?) && at.token == Some(d) && at.ino != ino
  }

  /**
   * `p` holds the standing directory `d` by the file linked there, no other
   * process is past its re-check, and none approved to remove `d` has another
   * lock file of it open.
   */
  ghost predicate IsSafe(s: State, p: Pid, d: nat) {
    && s.current == Some(d) && Holds(s, p, d) && d in s.locks && s.locks[d] == s.At(p).ino
    && forall q: Pid :: q != p ==> !Threatens(s.At(q)) && !IsRival(s.At(q), s.At(p).ino, d)
  }

  ghost predicate ByOthers(steps: seq<Step>, p: Pid) {
    forall i :: 0 <= i < |steps| ==> !By(steps[i], p)
  }

  lemma SafeLockAfter(s: State, step: Step, p: Pid, d: nat)
    requires HoldersOk(s) && IsSafe(s, p, d) && !By(step, p)
    ensures var t := After(s, step);
            t.current == Some(d) && d in t.locks && t.locks[d] == s.At(p).ino && t.At(p) == s.At(p)
  {
    assert step.Claim? || !Threatens(s.At(step.p));
  }

  lemma SafeOthersAfter(s: State, step: Step, p: Pid, d: nat, q: Pid)
    requires HoldersOk(s) && IsSafe(s, p, d) && !By(step, p) && q != p
    ensures var t := After(s, step); !Threatens(t.At(q)) && !IsRival(t.At(q), s.At(p).ino, d)
  {
    assert !Threatens(s.At(q)) && !IsRival(s.At(q), s.At(p).ino, d);
    if By(step, q) {
      if s.At(q).Holding? {
        assert s.holder[s.At(q).ino] == q && s.holder[s.At(p).ino] == p;
      }
    } else {
      OthersStay(s, step, q);
    }
  }

  lemma SafeAfter(s: State, step: Step, p: Pid, d: nat)
    requires HoldersOk(s) && IsSafe(s, p, d) && !By(step, p)
    ensures IsSafe(After(s, step), p, d)
  {
    SafeLockAfter(s, step, p, d);
    var t := After(s, step);
    forall q: Pid | q != p ensures !Threatens(t.At(q)) && !IsRival(t.At(q), t.At(p).ino, d) {
      SafeOthersAfter(s, step, p, d, q);
    }
  }

  lemma {:induction false} SafeStays(s: State, steps: seq<Step>, p: Pid, d: nat)
    requires HoldersOk(s) && IsSafe(s, p, d) && ByOthers(steps, p)
    ensures HoldersOk(RunFrom(s, steps)) && IsSafe(RunFrom(s, steps), p, d)
    decreases |steps|
  {
    if steps != [] {
      var front, step := steps[..|steps| - 1], steps[|steps| - 1];
      SafeStays(s, front, p, d);
      HoldersAfter(RunFrom(s, front), step);
      SafeAfter(RunFrom(s, front), step, p, d);
    }
  }

  // ------------------------------------------------------- Losing it

  /** Some steps of the others, and the directory is gone. */
  ghost predicate CanLose(s: State, p: Pid, d: nat) {
    exists steps: seq<Step> :: ByOthers(steps, p) && RunFrom(s, steps).current != Some(d)
  }

  lemma LosesNow(s: State, p: Pid, d: nat)
    requires s.current != Some(d)
    ensures CanLose(s, p, d)
  {
    assert ByOthers([], p) && RunFrom(s, []).current != Some(d);
  }

  /** What can be lost after one step of another can be lost. */
  lemma LosesLater(s: State, step: Step, p: Pid, d: nat)
    requires !By(step, p) && CanLose(After(s, step), p, d)
    ensures CanLose(s, p, d)
  {
    var steps: seq<Step> :| ByOthers(steps, p) && RunFrom(After(s, step), steps).current != Some(d);
    RunAfterStep(s, step, steps);
    assert ByOthers([step] + steps, p);
  }

  lemma {:induction false} RunAfterStep(s: State, step: Step, steps: seq<Step>)
    ensures RunFrom(s, [step] + steps) == RunFrom(After(s, step), steps)
    decreases |steps|
  {
    var all := [step] + steps;
    if steps == [] {
      assert all[..|all| - 1] == [] && all[|all| - 1] == step;
    } else {
      assert all[..|all| - 1] == [step] + steps[..|steps| - 1] && all[|all| - 1] == steps[|steps| - 1];
      RunAfterStep(s, step, steps[..|steps| - 1]);
    }
  }

  lemma ThreatLoses(s: State, p: Pid, q: Pid, d: nat)
    requires q != p && s.current == Some(d) && Threatens(s.At(q))
    ensures CanLose(s, p, d)
  {
    if s.At(q).Checked? {
      LosesNow(After(s, RemoveWhole(q)), p, d);
      LosesLater(s, RemoveWhole(q), p, d);
    } else {
      var t := After(s, UnlinkLock(q));
      assert t.At(q).Removing? && t.current == Some(d) && d !in t.locks;
      LosesNow(After(t, FinishRemoval(q)), p, d);
      LosesLater(t, FinishRemoval(q), p, d);
      LosesLater(s, UnlinkLock(q), p, d);
    }
  }

  lemma RivalHolderLoses(s: State, p: Pid, q: Pid, d: nat)
    requires q != p && s.current == Some(d) && s.At(q).Holding? && s.At(q).token == Some(d)
    ensures CanLose(s, p, d)
  {
    var t := After(s, Recheck(q));
    assert t.At(q).Checked? && t.current == Some(d);
    ThreatLoses(t, p, q, d);
    LosesLater(s, Recheck(q), p, d);
  }

  lemma FreeRivalLoses(s: State, p: Pid, q: Pid, d: nat)
    requires q != p && s.current == Some(d) && s.At(q).Opened? && s.At(q).token == Some(d)
    requires s.At(q).ino !in s.holder
    ensures CanLose(s, p, d)
  {
    var t := After(s, Flock(q));
    assert t.At(q) == Holding(Some(d), s.At(q).ino, s.At(q).dir) && t.current == Some(d);
    RivalHolderLoses(t, p, q, d);
    LosesLater(s, Flock(q), p, d);
  }

  lemma RivalLoses(s: State, p: Pid, q: Pid, d: nat)
    requires HoldersOk(s) && q != p && s.current == Some(d) && s.At(p).Locks()
    requires IsRival(s.At(q), s.At(p).ino, d)
    ensures CanLose(s, p, d)
  {
    var ino := s.At(q).ino;
    if s.At(q).Holding? {
      RivalHolderLoses(s, p, q, d);
    } else if ino !in s.holder {
      FreeRivalLoses(s, p, q, d);
    } else {
      var y := s.holder[ino];
      assert s.At(y).Locks() && s.At(y).ino == ino && y != p && y != q;
      if Threatens(s.At(y)) {
        ThreatLoses(s, p, y, d);
      } else {
        var t := After(s, Drop(y));
        assert t.At(q) == s.At(q) && ino !in t.holder && t.current == Some(d);
        FreeRivalLoses(t, p, q, d);
        LosesLater(s, Drop(y), p, d);
      }
    }
  }

  /** There is always a process that has done nothing yet. */
  lemma {:induction false} Newcomer(pids: set<Pid>) returns (q: Pid)
    ensures forall p :: p in pids ==> p < q
    decreases |pids|
  {
    if pids == {} {
      q := 0;
    } else {
      var p :| p in pids;
      var rest := Newcomer(pids - {p});
      q := if p < rest then rest else p + 1;
      assert forall x :: x in pids ==> x == p || x in pids - {p};
    }
  }

  /** A lock by a file that is not the one linked there keeps nobody out. */
  lemma UnlinkedLoses(s: State, p: Pid, d: nat)
    requires HoldersOk(s) && s.current == Some(d) && s.At(p).Locks()
    requires d !in s.locks || s.locks[d] != s.At(p).ino
    ensures CanLose(s, p, d)
  {
    var q := Newcomer(s.places.Keys + {p});
    assert s.At(q).Idle? && q != p;
    var t := After(s, Guard(q));
    assert t.At(q) == Guarded(d) && t.At(p) == s.At(p) && t.locks == s.locks && t.current == Some(d);
    HoldersAfter(s, Guard(q));
    var u := After(t, Open(q));
    HoldersAfter(t, Open(q));
    assert u.At(p) == s.At(p) && u.current == Some(d) && IsRival(u.At(q), s.At(p).ino, d);
    RivalLoses(u, p, q, d);
    LosesLater(t, Open(q), p, d);
    LosesLater(s, Guard(q), p, d);
  }

  /**
   * In any run, what a lock is worth: whatever the others do from now on, the
   * process keeps lock and directory exactly when it holds the standing one by
   * the file linked there, nobody else is past a re-check, and nobody approved to
   * remove it has another lock file of it open.
   */
  lemma KeptExactly(before: seq<Step>, p: Pid, d: nat)
    requires Holds(RunFrom(START, before), p, d)
    ensures var s := RunFrom(START, before);
            IsSafe(s, p, d) <==>
            forall steps: seq<Step> :: ByOthers(steps, p) ==>
              RunFrom(s, steps).current == Some(d) && Holds(RunFrom(s, steps), p, d)
  {
    var s := RunFrom(START, before);
    HoldersAlways(before);
    hide RunFrom;
    if IsSafe(s, p, d) {
      forall steps: seq<Step> | ByOthers(steps, p)
        ensures RunFrom(s, steps).current == Some(d) && Holds(RunFrom(s, steps), p, d)
      {
        SafeStays(s, steps, p, d);
      }
    } else {
      UnsafeLoses(s, p, d);
    }
  }

  lemma UnsafeLoses(s: State, p: Pid, d: nat)
    requires HoldersOk(s) && Holds(s, p, d) && !IsSafe(s, p, d)
    ensures CanLose(s, p, d)
  {
    if s.current != Some(d) {
      LosesNow(s, p, d);
    } else if d !in s.locks || s.locks[d] != s.At(p).ino {
      UnlinkedLoses(s, p, d);
    } else {
      var q: Pid :| q != p && (Threatens(s.At(q)) || IsRival(s.At(q), s.At(p).ino, d));
      if Threatens(s.At(q)) {
        ThreatLoses(s, p, q, d);
      } else {
        RivalLoses(s, p, q, d);
      }
    }
  }

  /**
   * While no lock file has been unlinked from a standing directory, and so in every
   * run of whole removals, each holder of the standing one keeps it.
   */
  lemma HolderKeepsItsSession(before: seq<Step>, p: Pid, d: nat)
    requires Holds(RunFrom(START, before), p, d) && RunFrom(START, before).current == Some(d)
    requires RunFrom(START, before).unlinked == {}
    ensures var s := RunFrom(START, before);
            && IsSafe(s, p, d)
            && forall steps: seq<Step> :: ByOthers(steps, p) ==>
                 RunFrom(s, steps).current == Some(d) && Holds(RunFrom(s, steps), p, d)
  {
    HolderIsSafe(before, p, d);
    KeptExactly(before, p, d);
  }

  lemma HolderIsSafe(before: seq<Step>, p: Pid, d: nat)
    requires Holds(RunFrom(START, before), p, d) && RunFrom(START, before).current == Some(d)
    requires RunFrom(START, before).unlinked == {}
    ensures IsSafe(RunFrom(START, before), p, d)
  {
    var s := RunFrom(START, before);
    InvAlways(before);
    assert PlaceOk(s, s.At(p));
    forall q: Pid | q != p ensures !Threatens(s.At(q)) && !IsRival(s.At(q), s.At(p).ino, d) {
      assert PlaceOk(s, s.At(q));
      if s.At(q).Checked? {
        OneHolder(s, p, q, d);
      }
    }
  }

  /**
   * A writer's lock can be stale from the start. After its `flock`, in any run:
   * it keeps its session whatever the others do exactly when it is safe then; and
   * if its directory had gone before the `flock`, it never stands again.
   */
  lemma StaleFromTheStart(before: seq<Step>, p: Pid)
    requires RunFrom(START, before).At(p).Opened?
    requires After(RunFrom(START, before), Flock(p)).At(p).Holding?
    ensures var d, t := RunFrom(START, before).At(p).dir, After(RunFrom(START, before), Flock(p));
            && (IsSafe(t, p, d) <==>
                forall steps: seq<Step> :: ByOthers(steps, p) ==>
                  RunFrom(t, steps).current == Some(d) && Holds(RunFrom(t, steps), p, d))
            && (t.current != Some(d) ==> forall steps: seq<Step> :: RunFrom(t, steps).current != Some(d))
  {
    var s := RunFrom(START, before);
    var d, t := s.At(p).dir, After(s, Flock(p));
    Unrolled(START, before, Flock(p));
    InvAlways(before);
    assert PlaceOk(s, s.At(p));
    KeptExactly(before + [Flock(p)], p, d);
    InvAlways(before + [Flock(p)]);
    if t.current != Some(d) {
      forall steps: seq<Step> ensures RunFrom(t, steps).current != Some(d) {
        GoneStaysGone(t, steps, d);
      }
    }
  }

  /** An identity that is past does not come back. */
  lemma GoneAfter(s: State, step: Step, d: nat)
    requires NamesOk(s) && d <= s.last && s.current != Some(d)
    ensures After(s, step).current != Some(d) && d <= After(s, step).last
  {
  }

  lemma {:induction false} GoneStaysGone(s: State, steps: seq<Step>, d: nat)
    requires HoldersOk(s) && NamesOk(s) && d <= s.last && s.current != Some(d)
    ensures var t := RunFrom(s, steps); HoldersOk(t) && NamesOk(t) && d <= t.last && t.current != Some(d)
    decreases |steps|
  {
    if steps != [] {
      var front, step := steps[..|steps| - 1], steps[|steps| - 1];
      GoneStaysGone(s, front, d);
      HoldersAfter(RunFrom(s, front), step);
      NamesAfter(RunFrom(s, front), step);
      GoneAfter(RunFrom(s, front), step, d);
    }
  }

  /** Both kinds of holder at once: one of the directory that went, one of its successor by the same name. */
  lemma TwoHoldersOfOneName(steps: seq<Step>, p: Pid, q: Pid, r: Pid)
    requires RunFrom(START, steps).At(r).Checked? && RunFrom(START, steps).At(q).Idle?
    requires RunFrom(START, steps).At(p) == Opened(None, RunFrom(START, steps).At(r).ino, RunFrom(START, steps).At(r).dir)
    ensures var s := RunFrom(START, steps);
            var t := After(After(After(s, RemoveWhole(r)), Drop(r)), Flock(p));
            var u := After(After(After(t, Claim), Open(q)), Flock(q));
            && Holds(u, p, s.At(p).dir) && u.current.Some? && Holds(u, q, u.current.value)
            && u.current != Some(s.At(p).dir)
  {
    var s := RunFrom(START, steps);
    InvAlways(steps);
    assert PlaceOk(s, s.At(r)) && PlaceOk(s, s.At(p));
    HeldFilesAreOld(s);
    LateFlock(s, p, q, r);
    NewcomerHolds(After(After(After(s, RemoveWhole(r)), Drop(r)), Flock(p)), p, q);
  }

  /** The directory goes, and a process that had opened its lock file takes the lock. */
  lemma LateFlock(s: State, p: Pid, q: Pid, r: Pid)
    requires Inv(s) && s.At(r).Checked? && s.At(q).Idle?
    requires s.At(p) == Opened(None, s.At(r).ino, s.At(r).dir)
    ensures var t := After(After(After(s, RemoveWhole(r)), Drop(r)), Flock(p));
            && Holds(t, p, s.At(p).dir) && t.At(q).Idle? && t.current == None
            && t.next == s.next && t.locks == s.locks
            && (forall ino :: ino in t.holder ==> ino < t.next)
  {
    HeldFilesAreOld(s);
    var s1 := After(s, RemoveWhole(r));
    assert s1.At(r).Removed? && s1.At(p) == s.At(p) && s1.At(q).Idle?;
    var s2 := After(s1, Drop(r));
    assert s2.At(p) == s.At(p) && s2.At(q).Idle? && s.At(p).ino !in s2.holder;
  }

  /** Where no directory stands, a newcomer's claim and lock leave an older holder as it was. */
  lemma NewcomerHolds(t: State, p: Pid, q: Pid)
    requires t.current == None && t.At(q).Idle? && t.At(p).Locks()
    requires t.next !in t.locks && forall ino :: ino in t.holder ==> ino < t.next
    ensures var u := After(After(After(t, Claim), Open(q)), Flock(q));
            u.At(p) == t.At(p) && u.current == Some(t.next) && Holds(u, q, t.next)
  {
    var u := After(t, Claim);
    assert u.At(q).Idle? && u.At(p) == t.At(p);
    var v := After(u, Open(q));
    assert v.At(q) == Opened(None, t.next + 1, t.next) && v.holder == t.holder && v.At(p) == t.At(p);
  }

  // ------------------------------------------------------- The probe

  /**
   * `take_if_present` is two steps, a look and an open. In any run it creates a
   * lock file exactly when the standing directory has none linked; and then the
   * directory it looked at was replaced in between, or had its lock file unlinked.
   */
  lemma ProbeCreatesExactly(steps: seq<Step>, p: Pid)
    requires RunFrom(START, steps).At(p).Seen?
    ensures var s := RunFrom(START, steps);
            && (After(s, Open(p)).locks != s.locks <==> s.current.Some? && s.current.value !in s.locks)
            && (After(s, Open(p)).locks != s.locks ==> s.current != Some(s.At(p).dir) || s.At(p).dir in s.unlinked)
            && (s.unlinked == {} ==>
                  (After(s, Open(p)).locks != s.locks <==>
                     s.current.Some? && s.current != Some(s.At(p).dir) && s.current.value !in s.locks))
  {
    var s := RunFrom(START, steps);
    InvAlways(steps);
    assert PlaceOk(s, s.At(p));
    if s.current.Some? && s.current.value !in s.locks {
      assert s.current.value in After(s, Open(p)).locks;
    }
  }

  // ------------------------------------------------------- Runs that get there

  /** A removal past its re-check, and a process that had opened the lock file: process 2 and process 1. */
  const TO_THE_RECHECK: seq<Step> := [Claim, Open(1), Guard(2), Open(2), Flock(2), Recheck(2)]

  lemma RunsToTheRecheck()
    ensures var s := RunFrom(START, TO_THE_RECHECK);
            && s.current == Some(1) && s.unlinked == {} && s.At(1) == Opened(None, 2, 1) && s.At(2) == Checked(2, 1)
            && s.At(3).Idle? && RemovesWhole(TO_THE_RECHECK)
  {
    RunOfSix(START, Claim, Open(1), Guard(2), Open(2), Flock(2), Recheck(2));
    var s1 := After(START, Claim);
    var s2 := After(s1, Open(1));
    assert s2.At(1) == Opened(None, 2, 1) && s2.locks == map[1 := 2] && s2.current == Some(1) && s2.holder == map[];
    var s3 := After(s2, Guard(2));
    assert s3.At(2) == Guarded(1) && s3.At(1) == s2.At(1) && s3.locks == s2.locks;
    var s4 := After(s3, Open(2));
    assert s4.At(2) == Opened(Some(1), 2, 1) && s4.At(1) == s2.At(1) && s4.holder == map[];
  }

  lemma RunOfThree(s: State, a: Step, b: Step, c: Step)
    ensures RunFrom(s, [a, b, c]) == After(After(After(s, a), b), c)
  {
    Unrolled(s, [], a);
    Unrolled(s, [a], b);
    Unrolled(s, [a, b], c);
    hide After;
    assert [] + [a] == [a] && [a] + [b] == [a, b] && [a, b] + [c] == [a, b, c];
  }

  lemma RunOfSix(s: State, a: Step, b: Step, c: Step, d: Step, e: Step, f: Step)
    ensures RunFrom(s, [a, b, c, d, e, f]) == After(After(After(After(After(After(s, a), b), c), d), e), f)
  {
    RunOfThree(s, a, b, c);
    RunOfThree(RunFrom(s, [a, b, c]), d, e, f);
    RunOfBoth(s, [a, b, c], [d, e, f]);
    hide After, RunFrom;
    assert [a, b, c] + [d, e, f] == [a, b, c, d, e, f];
  }

  /** A run with whole removals only ends with two holders of one session name. */
  lemma TwoHoldersAreReached()
    ensures exists steps: seq<Step>, d: nat, e: nat ::
              && RemovesWhole(steps) && d != e && RunFrom(START, steps).current == Some(e)
              && Holds(RunFrom(START, steps), 1, d) && Holds(RunFrom(START, steps), 3, e)
  {
    RunsToTheRecheck();
    TwoHoldersOfOneName(TO_THE_RECHECK, 1, 3, 2);
    var more := [RemoveWhole(2), Drop(2), Flock(1), Claim, Open(3), Flock(3)];
    var s := RunFrom(START, TO_THE_RECHECK);
    RunOfSix(s, RemoveWhole(2), Drop(2), Flock(1), Claim, Open(3), Flock(3));
    RunOfBoth(START, TO_THE_RECHECK, more);
    hide After, RunFrom;
    var all, d := TO_THE_RECHECK + more, s.At(1).dir;
    assert RemovesWhole(all) && Holds(RunFrom(START, all), 1, d);
  }

  lemma {:induction false} RunOfBoth(s: State, a: seq<Step>, b: seq<Step>)
    ensures RunFrom(s, a + b) == RunFrom(RunFrom(s, a), b)
    decreases |b|
  {
    if b == [] {
      assert a + b == a;
    } else {
      assert (a + b)[..|a + b| - 1] == a + b[..|b| - 1];
      RunOfBoth(s, a, b[..|b| - 1]);
    }
  }

  /** A probe creates a lock file in a directory that replaced the one it looked at. */
  lemma ProbeCreatesInASuccessor()
    ensures exists steps: seq<Step> ::
              && RemovesWhole(steps) && RunFrom(START, steps).At(3) == Seen(1)
              && RunFrom(START, steps).current != Some(1)
              && After(RunFrom(START, steps), Open(3)).locks != RunFrom(START, steps).locks
  {
    RunsToTheRecheck();
    var s := RunFrom(START, TO_THE_RECHECK);
    InvAlways(TO_THE_RECHECK);
    assert PlaceOk(s, s.At(2));
    var all := TO_THE_RECHECK + [See(3)] + [RemoveWhole(2)] + [Claim];
    Unrolled(START, TO_THE_RECHECK, See(3));
    Unrolled(START, TO_THE_RECHECK + [See(3)], RemoveWhole(2));
    Unrolled(START, TO_THE_RECHECK + [See(3)] + [RemoveWhole(2)], Claim);
    var t := After(s, See(3));
    assert t.At(3) == Seen(1) && t.At(2).Checked?;
    var u := After(After(t, RemoveWhole(2)), Claim);
    assert u.At(3) == Seen(1) && u.current == Some(s.next) && s.next !in u.locks;
    assert s.next in After(u, Open(3)).locks;
    assert RunFrom(START, all) == u && RemovesWhole(all);
  }

  /** With the removal taken apart, a probe creates a lock file in the very directory it looked at. */
  lemma ProbeCreatesInTheSame()
    ensures exists steps: seq<Step> ::
              && RunFrom(START, steps).At(3) == Seen(1) && RunFrom(START, steps).current == Some(1)
              && After(RunFrom(START, steps), Open(3)).locks != RunFrom(START, steps).locks
  {
    RunsToTheRecheck();
    var s := RunFrom(START, TO_THE_RECHECK);
    InvAlways(TO_THE_RECHECK);
    assert PlaceOk(s, s.At(2));
    var all := TO_THE_RECHECK + [See(3)] + [UnlinkLock(2)];
    Unrolled(START, TO_THE_RECHECK, See(3));
    Unrolled(START, TO_THE_RECHECK + [See(3)], UnlinkLock(2));
    var u := After(After(s, See(3)), UnlinkLock(2));
    assert u.At(3) == Seen(1) && u.current == Some(1) && 1 !in u.locks;
    assert 1 in After(u, Open(3)).locks;
    assert RunFrom(START, all) == u;
  }

  /** With the removal taken apart, a run ends with two holders of one standing directory. */
  lemma RemovalIsReached()
    ensures exists steps: seq<Step> ::
              RunFrom(START, steps).current == Some(1) && Holds(RunFrom(START, steps), 2, 1)
              && Holds(RunFrom(START, steps), 3, 1)
  {
    RunsToTheRecheck();
    StepwiseRemovalLetsTwoIn(TO_THE_RECHECK, 2, 3, 1);
    var all := TO_THE_RECHECK + [UnlinkLock(2)] + [Open(3)] + [Flock(3)];
    Unrolled(START, TO_THE_RECHECK, UnlinkLock(2));
    Unrolled(START, TO_THE_RECHECK + [UnlinkLock(2)], Open(3));
    Unrolled(START, TO_THE_RECHECK + [UnlinkLock(2)] + [Open(3)], Flock(3));
    hide After, RunFrom;
    assert Holds(RunFrom(START, all), 2, 1) && Holds(RunFrom(START, all), 3, 1);
  }
}
