/** `normalize`: a target made absolute and cleaned of `.` and `..`, textually. */
module Normalize {
  import opened Wrappers
  import opened Packing
  import opened FileTree

  /** `Path::join`. */
  function JoinPath(base: string, path: string): (joined: string)
    ensures IsAbsolute(joined) <==> IsAbsolute(base) || IsAbsolute(path)
  {
    if IsAbsolute(path) then path
    else if base == "" || base[|base| - 1] == '/' then base + path
    else base + ['/'] + path
  }

  function AbsoluteText(path: string, cwd: Option<string>): string {
    if IsAbsolute(path) then path
    else JoinPath(match cwd case Some(dir) => dir case None => "/", path)
  }

  /** The names left after the loop: a name pushes, `..` pops, and the root has nothing to pop. */
  function Clean(cleaned: seq<string>, steps: seq<Component>): (names: seq<string>)
    decreases |steps|
  {
    if steps == [] then cleaned
    else
      match steps[0]
      case Normal(name) => Clean(cleaned + [name], steps[1..])
      case ParentDir => Clean(if cleaned == [] then [] else cleaned[..|cleaned| - 1], steps[1..])
      case _ => Clean(cleaned, steps[1..])
  }

  function Normalized(path: string, cwd: Option<string>): (names: seq<string>) {
    Clean([], Components(AbsoluteText(path, cwd)))
  }

  lemma {:induction false} CleanConcat(cleaned: seq<string>, a: seq<Component>, b: seq<Component>)
    ensures Clean(cleaned, a + b) == Clean(Clean(cleaned, a), b)
    decreases |a|
  {
    if a == [] {
      assert a + b == b;
    } else {
      assert (a + b)[0] == a[0] && (a + b)[1..] == a[1..] + b;
      match a[0]
      case Normal(name) => CleanConcat(cleaned + [name], a[1..], b);
      case ParentDir => CleanConcat(if cleaned == [] then [] else cleaned[..|cleaned| - 1], a[1..], b);
      case _ => CleanConcat(cleaned, a[1..], b);
    }
  }

  /** What leads a path, `/` or `.`, leaves the loop as it was. */
  lemma LeadIsSkipped(cleaned: seq<string>, s: string)
    ensures Clean(cleaned, Components(s)) == Clean(cleaned, Plain(Split(s)))
  {
    var lead := if IsAbsolute(s) then [RootDir] else if Split(s)[0] == "." then [CurDir] else [];
    CleanConcat(cleaned, lead, Plain(Split(s)));
    assert lead == [] || lead[1..] == [];
  }

  lemma {:induction false} CleanNames(cleaned: seq<string>, names: seq<string>)
    ensures Clean(cleaned, Named(names)) == cleaned + names
    decreases |names|
  {
    if names == [] {
      assert cleaned + names == cleaned;
    } else {
      assert Named(names)[1..] == Named(names[1..]);
      CleanNames(cleaned + [names[0]], names[1..]);
      assert cleaned + [names[0]] + names[1..] == cleaned + names;
    }
  }

  /** Joining two texts joins what they name. */
  lemma JoinedPieces(base: string, path: string)
    requires !IsAbsolute(path)
    ensures Plain(Split(JoinPath(base, path))) == Plain(Split(base)) + Plain(Split(path))
  {
    if base == "" {
      assert base + path == path;
      assert [""][1..] == [] && Plain([""]) == [];
    } else if base[|base| - 1] == '/' {
      var front := base[..|base| - 1];
      assert base == front + ['/'] + "" && base + path == front + ['/'] + path;
      SplitJoint(front, "");
      SplitJoint(front, path);
      PlainConcat(Split(front), [""]);
      PlainConcat(Split(front), Split(path));
      assert [""][1..] == [] && Plain([""]) == [];
    } else {
      SplitJoint(base, path);
      PlainConcat(Split(base), Split(path));
    }
  }

  lemma {:induction false} PlainGivesNames(cleaned: seq<string>, pieces: seq<string>)
    requires AllNames(cleaned) && forall p :: p in pieces ==> '/' !in p
    ensures AllNames(Clean(cleaned, Plain(pieces)))
    decreases |pieces|
  {
    if pieces != [] {
      var piece, rest := pieces[0], Plain(pieces[1..]);
      assert piece in pieces;
      if piece == "" || piece == "." {
        PlainGivesNames(cleaned, pieces[1..]);
      } else if piece == ".." {
        assert Plain(pieces) == [ParentDir] + rest && ([ParentDir] + rest)[1..] == rest;
        PlainGivesNames(if cleaned == [] then [] else cleaned[..|cleaned| - 1], pieces[1..]);
      } else {
        assert Plain(pieces) == [Normal(piece)] + rest && ([Normal(piece)] + rest)[1..] == rest;
        PlainGivesNames(cleaned + [piece], pieces[1..]);
      }
    }
  }

  /** The result holds no empty piece, no `.`, no `..` and no slash. */
  lemma NormalizedIsClean(path: string, cwd: Option<string>)
    ensures AllNames(Normalized(path, cwd))
  {
    LeadIsSkipped([], AbsoluteText(path, cwd));
    PlainGivesNames([], Split(AbsoluteText(path, cwd)));
  }

  /** A clean absolute path is its own normal form. */
  lemma CleanIsFixed(names: seq<string>, cwd: Option<string>)
    requires AllNames(names)
    ensures Normalized(Show(names), cwd) == names
  {
    ComponentsOfShow(names);
    CleanConcat([], [RootDir], Named(names));
    assert [RootDir][1..] == [];
    CleanNames([], names);
    assert [] + names == names;
  }

  lemma NormalizeIsIdempotent(path: string, cwd: Option<string>, other: Option<string>)
    ensures Normalized(Show(Normalized(path, cwd)), other) == Normalized(path, cwd)
  {
    NormalizedIsClean(path, cwd);
    CleanIsFixed(Normalized(path, cwd), other);
  }

  lemma CleanJoin(base: string, path: string)
    requires !IsAbsolute(path)
    ensures Clean([], Components(JoinPath(base, path))) == Clean(Clean([], Components(base)), Plain(Split(path)))
  {
    JoinedPieces(base, path);
    LeadIsSkipped([], JoinPath(base, path));
    LeadIsSkipped([], base);
    CleanConcat([], Plain(Split(base)), Plain(Split(path)));
  }

  lemma JoinIsAssociative(base: string, a: string, b: string)
    requires !IsAbsolute(a) && !IsAbsolute(b)
    ensures Clean([], Components(JoinPath(JoinPath(base, a), b)))
            == Clean([], Components(JoinPath(base, JoinPath(a, b))))
  {
    CleanJoin(JoinPath(base, a), b);
    CleanJoin(base, a);
    CleanJoin(base, JoinPath(a, b));
    JoinedPieces(a, b);
    CleanConcat(Clean([], Components(base)), Plain(Split(a)), Plain(Split(b)));
  }

  /** Resolving `b` where `a` leads is resolving `a/b`, whichever of the two is absolute. */
  lemma NormalizeComposes(a: string, b: string, cwd: Option<string>)
    ensures Normalized(b, Some(Show(Normalized(a, cwd)))) == Normalized(JoinPath(a, b), cwd)
  {
    if !IsAbsolute(b) {
      var here := Normalized(a, cwd);
      NormalizeIsIdempotent(a, cwd, cwd);
      CleanJoin(Show(here), b);
      assert Normalized(b, Some(Show(here))) == Clean(here, Plain(Split(b)));
      if IsAbsolute(a) {
        CleanJoin(a, b);
      } else {
        var base := match cwd case Some(dir) => dir case None => "/";
        CleanJoin(base, a);
        CleanJoin(JoinPath(base, a), b);
        JoinIsAssociative(base, a, b);
      }
    }
  }

  // ------------------------------------------------------- Meaning

  /** While the cleaned names lead to where the walk is, they go on doing so. */
  lemma {:induction false} CleanFollowsWalk(t: Tree, cleaned: seq<string>, at: nat, pieces: seq<string>)
    requires t.Valid() && AllNames(cleaned) && (forall p :: p in pieces ==> '/' !in p)
    requires t.Walk(t.root, cleaned) == Ok(at) && t.Walk(at, pieces).Ok?
    ensures t.Walk(t.root, Clean(cleaned, Plain(pieces))) == t.Walk(at, pieces)
    decreases |pieces|
  {
    if pieces != [] {
      var piece, rest := pieces[0], Plain(pieces[1..]);
      assert piece in pieces;
      var next := t.Enter(at, piece).value;
      if piece == "" || piece == "." {
        CleanFollowsWalk(t, cleaned, at, pieces[1..]);
      } else if piece == ".." {
        assert Plain(pieces) == [ParentDir] + rest && ([ParentDir] + rest)[1..] == rest;
        WalkUp(t, cleaned, at);
        CleanFollowsWalk(t, if cleaned == [] then [] else cleaned[..|cleaned| - 1], next, pieces[1..]);
      } else {
        assert Plain(pieces) == [Normal(piece)] + rest && ([Normal(piece)] + rest)[1..] == rest;
        t.WalkConcat(t.root, cleaned, [piece]);
        assert [piece][1..] == [] && t.Walk(at, [piece]) == Ok(next);
        CleanFollowsWalk(t, cleaned + [piece], next, pieces[1..]);
      }
    }
  }

  /** Dropping the last name leads to the parent. */
  lemma WalkUp(t: Tree, cleaned: seq<string>, at: nat)
    requires t.Valid() && AllNames(cleaned) && t.Walk(t.root, cleaned) == Ok(at) && at in t.dirs
    ensures t.Walk(t.root, if cleaned == [] then [] else cleaned[..|cleaned| - 1]) == Ok(t.Parent(at))
  {
    if cleaned != [] {
      var front, last := cleaned[..|cleaned| - 1], cleaned[|cleaned| - 1];
      assert cleaned == front + [last] && IsName(last);
      t.WalkConcat(t.root, front, [last]);
      var above := t.Walk(t.root, front).value;
      assert [last][1..] == [] && t.Walk(above, [last]) == t.Enter(above, last);
      assert (above, last) in t.child;
    }
  }

  /**
   * The result names the very node a walk of the text reaches, one component at
   * a time, wherever that walk meets no symbolic link: an absolute target from
   * the root, any other from where the working directory leads.
   */
  lemma NormalizedNamesTheNode(t: Tree, path: string, cwd: string, at: nat)
    requires t.Valid() && t.Walk(t.root, Split(cwd)) == Ok(at)
    requires t.Walk(if IsAbsolute(path) then t.root else at, Split(path)).Ok?
    ensures t.Walk(t.root, Normalized(path, Some(cwd)))
            == t.Walk(if IsAbsolute(path) then t.root else at, Split(path))
  {
    if IsAbsolute(path) {
      LeadIsSkipped([], path);
      CleanFollowsWalk(t, [], t.root, Split(path));
    } else {
      LeadIsSkipped([], cwd);
      CleanFollowsWalk(t, [], t.root, Split(cwd));
      CleanJoin(cwd, path);
      PlainGivesNames([], Split(cwd));
      CleanFollowsWalk(t, Clean([], Components(cwd)), at, Split(path));
    }
  }

  /** A name and `..` cancel, whether the name is there or not. */
  lemma UpCancels(name: string)
    requires IsName(name)
    ensures Clean([], Plain([name, ".."])) == []
  {
    var up := [ParentDir];
    assert [name, ".."][1..] == [".."] && [".."][1..] == [];
    assert up[1..] == [] && Plain([".."]) == up;
    assert Plain([name, ".."]) == [Normal(name)] + up && ([Normal(name)] + up)[1..] == up;
    assert Clean([name], up) == Clean([], []);
  }

  /** The other way fails: the textual `..` steps back over a name that is not there, and a walk cannot. */
  lemma NormalizedCanSayMore(t: Tree, name: string, cwd: Option<string>)
    requires t.Valid() && IsName(name) && (t.root, name) !in t.child
    ensures var text := Show([name, ".."]);
            t.Walk(t.root, Split(text)) == Err(NoEntry) && t.Walk(t.root, Normalized(text, cwd)) == Ok(t.root)
  {
    var text, pieces := Show([name, ".."]), [name, ".."];
    SplitJoin(pieces);
    assert text[1..] == Join(pieces, '/');
    assert Split(text) == [""] + pieces && ([""] + pieces)[1..] == pieces;
    assert Plain(Split(text)) == Plain(pieces);
    LeadIsSkipped([], text);
    UpCancels(name);
  }

  // ------------------------------------------------------- Exactly when they agree

  /** What one piece of text makes of the names so far. */
  function NextStack(cleaned: seq<string>, piece: string): (names: seq<string>) {
    if piece == "" || piece == "." then cleaned
    else if piece == ".." then if cleaned == [] then [] else cleaned[..|cleaned| - 1]
    else cleaned + [piece]
  }

  function Stack(cleaned: seq<string>, pieces: seq<string>): (names: seq<string>)
    decreases |pieces|
  {
    if pieces == [] then cleaned else Stack(NextStack(cleaned, pieces[0]), pieces[1..])
  }

  /** The names so far at each piece of the text: where a walk needs a directory. */
  function Visited(cleaned: seq<string>, pieces: seq<string>): (stacks: seq<seq<string>>)
    decreases |pieces|
  {
    if pieces == [] then [] else [cleaned] + Visited(NextStack(cleaned, pieces[0]), pieces[1..])
  }

  lemma {:induction false} StackIsClean(cleaned: seq<string>, pieces: seq<string>)
    ensures Clean(cleaned, Plain(pieces)) == Stack(cleaned, pieces)
    decreases |pieces|
  {
    if pieces != [] {
      var piece, rest := pieces[0], Plain(pieces[1..]);
      StackIsClean(NextStack(cleaned, piece), pieces[1..]);
      if piece == ".." {
        assert Plain(pieces) == [ParentDir] + rest && ([ParentDir] + rest)[1..] == rest;
      } else if piece != "" && piece != "." {
        assert Plain(pieces) == [Normal(piece)] + rest && ([Normal(piece)] + rest)[1..] == rest;
      }
    }
  }

  lemma NormalizedIsStack(path: string, cwd: Option<string>)
    ensures Normalized(path, cwd) == Stack([], Split(AbsoluteText(path, cwd)))
  {
    LeadIsSkipped([], AbsoluteText(path, cwd));
    StackIsClean([], Split(AbsoluteText(path, cwd)));
  }

  predicate IsDirAt(t: Tree, names: seq<string>) {
    var walked := t.Walk(t.root, names);
    walked.Ok? && walked.value in t.dirs
  }

  lemma EnterIsWalk(t: Tree, cleaned: seq<string>, at: nat, name: string)
    requires t.Walk(t.root, cleaned) == Ok(at)
    ensures t.Walk(t.root, cleaned + [name]) == t.Enter(at, name)
  {
    t.WalkConcat(t.root, cleaned, [name]);
    assert [name][1..] == [];
  }

  lemma {:induction false} WalksExactly(t: Tree, cleaned: seq<string>, at: nat, pieces: seq<string>)
    requires t.Valid() && AllNames(cleaned) && (forall p :: p in pieces ==> '/' !in p)
    requires t.Walk(t.root, cleaned) == Ok(at)
    ensures t.Walk(at, pieces).Ok? <==>
            && (forall names :: names in Visited(cleaned, pieces) ==> IsDirAt(t, names))
            && t.Walk(t.root, Stack(cleaned, pieces)).Ok?
    decreases |pieces|
  {
    if pieces != [] {
      var piece, next := pieces[0], NextStack(cleaned, pieces[0]);
      VisitedOnce(cleaned, pieces);
      assert piece in pieces && cleaned in Visited(cleaned, pieces);
      assert IsDirAt(t, cleaned) <==> at in t.dirs;
      if at in t.dirs {
        if piece == ".." {
          WalkUp(t, cleaned, at);
        } else if piece != "" && piece != "." {
          EnterIsWalk(t, cleaned, at, piece);
        }
        assert t.Walk(t.root, next) == t.Enter(at, piece) && AllNames(next);
        if t.Enter(at, piece).Ok? {
          WalksExactly(t, next, t.Enter(at, piece).value, pieces[1..]);
        } else if |pieces| > 1 {
          assert next in Visited(next, pieces[1..]) && !IsDirAt(t, next);
        }
      }
    }
  }

  lemma VisitedOnce(cleaned: seq<string>, pieces: seq<string>)
    requires pieces != []
    ensures forall names :: names in Visited(cleaned, pieces) <==>
              names == cleaned || names in Visited(NextStack(cleaned, pieces[0]), pieces[1..])
  {
  }

  /**
   * On any tree: a walk of the text succeeds exactly when a walk of the result
   * does and every place the text steps from is a directory.
   */
  lemma TextWalksExactly(t: Tree, path: string, cwd: Option<string>)
    requires t.Valid()
    ensures var pieces := Split(AbsoluteText(path, cwd));
            t.Walk(t.root, pieces).Ok? <==>
            && t.Walk(t.root, Normalized(path, cwd)).Ok?
            && forall names :: names in Visited([], pieces) ==> IsDirAt(t, names)
  {
    NormalizedIsStack(path, cwd);
    WalksExactly(t, [], t.root, Split(AbsoluteText(path, cwd)));
  }

  /** The text steps from nowhere but the root and places on the way to the result. */
  predicate KeepsToTheWay(pieces: seq<string>) {
    forall names :: names in Visited([], pieces) ==> names == [] || names < Stack([], pieces)
  }

  /** Then a walk of the text fails where a walk of the result fails, and alike. */
  lemma {:induction false} FailsAlike(t: Tree, cleaned: seq<string>, at: nat, pieces: seq<string>, way: seq<string>)
    requires t.Valid() && AllNames(cleaned) && (forall p :: p in pieces ==> '/' !in p)
    requires t.Walk(t.root, cleaned) == Ok(at) && Stack(cleaned, pieces) == way && t.Walk(t.root, way).Err?
    requires forall names :: names in Visited(cleaned, pieces) ==> names == [] || names < way
    ensures t.Walk(at, pieces) == t.Walk(t.root, way)
    decreases |pieces|
  {
    if pieces != [] {
      var piece, next := pieces[0], NextStack(cleaned, pieces[0]);
      VisitedOnce(cleaned, pieces);
      assert piece in pieces && cleaned in Visited(cleaned, pieces);
      if at !in t.dirs {
        FailsThrough(t, cleaned, way);
      } else {
        if piece == ".." {
          WalkUp(t, cleaned, at);
        } else if piece != "" && piece != "." {
          EnterIsWalk(t, cleaned, at, piece);
        }
        if t.Enter(at, piece).Ok? {
          FailsAlike(t, next, t.Enter(at, piece).value, pieces[1..], way);
        } else {
          assert next <= way by {
            if |pieces| > 1 {
              assert next in Visited(next, pieces[1..]);
            }
          }
          t.WalkConcat(t.root, next, way[|next|..]);
          assert next + way[|next|..] == way;
        }
      }
    }
  }

  lemma FailsThrough(t: Tree, cleaned: seq<string>, way: seq<string>)
    requires t.root in t.dirs && t.Walk(t.root, cleaned).Ok? && t.Walk(t.root, cleaned).value !in t.dirs
    requires cleaned == [] || cleaned < way
    ensures t.Walk(t.root, way) == Err(NotDir)
  {
    t.WalkConcat(t.root, cleaned, way[|cleaned|..]);
    assert cleaned + way[|cleaned|..] == way;
  }

  /** On the way to something that is there, every earlier place is a directory. */
  lemma WayIsDirs(t: Tree, names: seq<string>, way: seq<string>)
    requires t.root in t.dirs && t.Walk(t.root, way).Ok? && (names == [] || names < way)
    ensures IsDirAt(t, names)
  {
    if names != [] {
      t.WalkConcat(t.root, names, way[|names|..]);
      assert names + way[|names|..] == way;
    }
  }

  /** The tree that holds this one way, with a file at its end. */
  function OneWay(way: seq<string>): Tree {
    Tree(
      map i: nat | i < |way| :: (i, way[i]) := Node(i + 1),
      map i: nat | i <= |way| && HasEntries(i, way) :: i := if i == 0 then 0 else i - 1,
      set i: nat | i <= |way| && HasEntries(i, way), 0)
  }

  predicate HasEntries(i: nat, way: seq<string>) {
    i < |way| || i == 0
  }

  lemma {:induction false} OneWayWalks(way: seq<string>, names: seq<string>)
    requires AllNames(names)
    ensures OneWay(way).Walk(0, names).Ok? <==> names <= way
    ensures names <= way ==> OneWay(way).Walk(0, names) == Ok(|names|)
    decreases |names|
  {
    if names != [] {
      var front, last := names[..|names| - 1], names[|names| - 1];
      assert names == front + [last] && IsName(last);
      OneWayWalks(way, front);
      OneWay(way).WalkConcat(0, front, [last]);
      assert [last][1..] == [];
    }
  }

  /**
   * The walk of a text and of its normal form are the same in every tree, errors
   * included, exactly when the text steps from nowhere but the root and places on
   * the way to the result: a detour by `..` or a trailing `.` or slash may ask for
   * a directory that the result does not.
   */
  lemma AgreeEverywhereExactly(path: string, cwd: Option<string>)
    ensures var pieces := Split(AbsoluteText(path, cwd));
            KeepsToTheWay(pieces) <==>
            forall t: Tree :: t.Valid() ==> t.Walk(t.root, pieces) == t.Walk(t.root, Normalized(path, cwd))
  {
    var pieces, way := Split(AbsoluteText(path, cwd)), Normalized(path, cwd);
    NormalizedIsStack(path, cwd);
    NormalizedIsClean(path, cwd);
    if KeepsToTheWay(pieces) {
      forall t: Tree | t.Valid() ensures t.Walk(t.root, pieces) == t.Walk(t.root, way) {
        AgreesOnTheWay(t, pieces, way);
      }
    } else {
      OneWayDisagrees(pieces, way);
    }
  }

  lemma AgreesOnTheWay(t: Tree, pieces: seq<string>, way: seq<string>)
    requires t.Valid() && (forall p :: p in pieces ==> '/' !in p) && way == Stack([], pieces) && KeepsToTheWay(pieces)
    ensures t.Walk(t.root, pieces) == t.Walk(t.root, way)
  {
    if t.Walk(t.root, way).Ok? {
      forall names | names in Visited([], pieces) ensures IsDirAt(t, names) {
        WayIsDirs(t, names, way);
      }
      WalksExactly(t, [], t.root, pieces);
      StackIsClean([], pieces);
      CleanFollowsWalk(t, [], t.root, pieces);
    } else {
      FailsAlike(t, [], t.root, pieces, way);
    }
  }

  lemma OneWayDisagrees(pieces: seq<string>, way: seq<string>)
    requires (forall p :: p in pieces ==> '/' !in p) && way == Stack([], pieces) && AllNames(way) && !KeepsToTheWay(pieces)
    ensures OneWay(way).Valid() && OneWay(way).Walk(0, pieces) != OneWay(way).Walk(0, way)
  {
    var names :| names in Visited([], pieces) && names != [] && !(names < way);
    var t := OneWay(way);
    VisitedNames([], pieces, names);
    OneWayWalks(way, names);
    OneWayWalks(way, way);
    WalksExactly(t, [], 0, pieces);
  }

  lemma {:induction false} VisitedNames(cleaned: seq<string>, pieces: seq<string>, names: seq<string>)
    requires AllNames(cleaned) && (forall p :: p in pieces ==> '/' !in p) && names in Visited(cleaned, pieces)
    ensures AllNames(names)
    decreases |pieces|
  {
    VisitedOnce(cleaned, pieces);
    if names != cleaned {
      assert pieces[0] in pieces;
      VisitedNames(NextStack(cleaned, pieces[0]), pieces[1..], names);
    }
  }

  lemma OneMore(cleaned: seq<string>, piece: string, rest: seq<string>)
    ensures Stack(cleaned, [piece] + rest) == Stack(NextStack(cleaned, piece), rest)
    ensures Visited(cleaned, [piece] + rest) == [cleaned] + Visited(NextStack(cleaned, piece), rest)
  {
    assert ([piece] + rest)[1..] == rest;
  }

  /** A `.` between two names keeps to the way. */
  lemma DotInside(f: string, g: string)
    requires IsName(f) && IsName(g)
    ensures KeepsToTheWay(["", f, ".", g])
  {
    OneMore([], "", [f, ".", g]);
    OneMore([], f, [".", g]);
    OneMore([f], ".", [g]);
    OneMore([f], g, []);
    assert Stack([f, g], []) == [f, g] && Visited([f, g], []) == [];
    hide Stack, Visited;
    assert [] + [f] == [f] && [f] + [g] == [f, g] && [g] + [] == [g] && [f] < [f, g];
    assert ["", f, ".", g] == [""] + [f, ".", g] && [f, ".", g] == [f] + [".", g] && [".", g] == ["."] + [g];
  }

  /** A `.` after the last name does not, and nor does a name undone by `..`. */
  lemma DotLast(f: string, dots: string)
    requires IsName(f) && (dots == "." || dots == "..")
    ensures !KeepsToTheWay(["", f, dots])
  {
    var last := ["", f, dots];
    assert last[1..] == [f, dots] && [f, dots][1..] == [dots] && [dots][1..] == [];
    assert [] + [f] == [f];
    assert Stack([], last) == Stack([], [f, dots]) == Stack([f], [dots]);
    assert Visited([], last) == [[]] + Visited([], [f, dots]) == [[]] + ([[]] + Visited([f], [dots]));
    assert Visited([], last)[2] == Visited([f], [dots])[0] == [f];
    assert [f] in Visited([], last) && !([f] < Stack([], last));
  }

  /** `normalize`, the loop pushing and popping. */
  method NormalizePath(path: string, cwd: Option<string>) returns (cleaned: seq<string>)
    ensures cleaned == Normalized(path, cwd)
  {
    var steps := Components(AbsoluteText(path, cwd));
    cleaned := [];
    for i := 0 to |steps|
      invariant Clean(cleaned, steps[i..]) == Normalized(path, cwd)
    {
      assert steps[i..][0] == steps[i] && steps[i..][1..] == steps[i + 1..];
      match steps[i] {
        case Normal(name) => cleaned := cleaned + [name];
        case ParentDir =>
          if cleaned != [] {
            cleaned := cleaned[..|cleaned| - 1];
          }
        case _ =>
      }
    }
  }
}
