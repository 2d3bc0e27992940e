/**
 * Where every object of a tree is after some of the approved items were moved
 * into a session or removed. The tree maps each path to the node it names;
 * a move carries the whole subtree.
 */
module Placement {
  import opened Paths
  import opened Layout

  datatype Node = Node(device: nat, inode: nat, isDir: bool)

  type Tree = map<Path, Node>

  /** `remove_tree`: the path and everything below it. */
  function Without(t: Tree, p: Path): Tree {
    map q | q in t && !(p <= q) :: t[q]
  }

  /** Nothing is at `p`, nor below it. */
  ghost predicate Free(t: Tree, p: Path) {
    forall q :: q in t ==> !(p <= q)
  }

  /** Where a rename of `from` to `to` takes path `q`. */
  function Carried(from: Path, to: Path, q: Path): Path {
    if from <= q then to + q[|from|..] else q
  }

  lemma CarriedBack(from: Path, to: Path, q: Path)
    requires from <= q
    ensures to <= Carried(from, to, q) && Carried(to, from, Carried(from, to, q)) == q
  {
    assert Carried(from, to, q)[|to|..] == q[|from|..];
  }

  /** `rename` onto a free destination. */
  function Renamed(t: Tree, from: Path, to: Path): (r: Tree)
    requires Free(t, to)
    ensures forall q :: q in t ==> Carried(from, to, q) in r && r[Carried(from, to, q)] == t[q]
    ensures forall p :: p in r ==> exists q :: q in t && p == Carried(from, to, q)
  {
    assert forall q :: q in t && from <= q ==>
        to <= Carried(from, to, q) && Carried(to, from, Carried(from, to, q)) == q by {
      forall q | q in t && from <= q { CarriedBack(from, to, q); }
    }
    map p | p in (set q | q in t :: Carried(from, to, q)) :: t[Carried(to, from, p)]
  }

  // --------------------------------------------------------------- the run

  datatype Fate = Stays | Stored | Gone

  /** A tree, the items of a run, the session they may be moved to and the sequence number of each. */
  datatype World = World(start: Tree, paths: seq<Path>, session: Path, slots: seq<nat>) {
    function Home(k: nat): Path
      requires k < |paths| && k < |slots|
    {
      StoredPath(session, slots[k], Basename(paths[k]))
    }

    /**
     * What crediting and planning guarantee, and a freshly claimed session:
     * no item is inside another or around the store, sequence numbers are
     * distinct, and nothing is under `items/` yet.
     */
    ghost predicate Ready() {
      && |slots| == |paths|
      && Antichain(paths)
      && (forall k :: 0 <= k < |paths| ==> Apart(paths[k], session))
      && (forall j, k :: 0 <= j < k < |slots| ==> slots[j] != slots[k])
      && Free(start, ItemsDir(session))
    }

    /** A directory the run itself creates inside the session. */
    predicate Created(p: Path) {
      p == ItemsDir(session) || exists k :: 0 <= k < |slots| && p == ItemDir(session, slots[k])
    }

    ghost predicate Covers(k: nat, q: Path) {
      k < |paths| && paths[k] <= q
    }
  }

  /** Where the object that started at `q` is now; `None` when it was removed. */
  ghost predicate IsAt(w: World, fates: seq<Fate>, q: Path, p: Path)
    requires |w.slots| == |w.paths| == |fates|
  {
    && (forall k: nat :: w.Covers(k, q) ==> fates[k] != Gone)
    && (forall k: nat :: w.Covers(k, q) && fates[k] == Stored ==> p == Carried(w.paths[k], w.Home(k), q))
    && ((forall k: nat :: w.Covers(k, q) ==> fates[k] == Stays) ==> p == q)
  }

  /** A directory of the session, made by the run. */
  predicate Made(w: World, t: Tree, p: Path) {
    w.Created(p) && p in t && t[p].isDir
  }

  /**
   * The tree holds exactly the objects it started with, each where its item's
   * fate says, plus directories the run created.
   */
  ghost predicate Placed(w: World, fates: seq<Fate>, t: Tree) {
    && |w.slots| == |w.paths| == |fates|
    && (forall q, p :: q in w.start && IsAt(w, fates, q, p) ==> p in t && t[p] == w.start[q])
    && (forall p :: p in t ==> Made(w, t, p) || exists q :: q in w.start && IsAt(w, fates, q, p))
  }

  lemma OneCover(w: World, j: nat, k: nat, q: Path)
    requires w.Ready() && w.Covers(j, q) && w.Covers(k, q)
    ensures j == k
  {
    AncestorsComparable(w.paths[j], w.paths[k], q);
  }

  /** Homes are inside the session, below `items/`, deeper than anything the run creates, and apart. */
  lemma HomesApart(w: World, k: nat, q: Path)
    requires w.Ready() && k < |w.paths| && w.Home(k) <= q
    ensures ItemsDir(w.session) <= q && !w.Created(q)
    ensures forall j :: 0 <= j < |w.paths| ==> !w.Covers(j, q)
    ensures forall j :: 0 <= j < |w.paths| && w.Home(j) <= q ==> j == k
  {
    assert w.session <= q && ItemsDir(w.session) <= q;
    forall j | 0 <= j < |w.paths| ensures !w.Covers(j, q) {
      if w.Covers(j, q) {
        CoveredOutside(w, j, q);
      }
    }
    forall j | 0 <= j < |w.paths| && w.Home(j) <= q ensures j == k {
      if j != k {
        StoredPathsApart(w.session, w.slots[j], w.slots[k], Basename(w.paths[j]), Basename(w.paths[k]));
        AncestorsComparable(w.Home(j), w.Home(k), q);
      }
    }
  }

  /** What an item covers lies outside the session. */
  lemma CoveredOutside(w: World, k: nat, q: Path)
    requires w.Ready() && w.Covers(k, q)
    ensures !(w.session <= q) && !w.Created(q)
  {
    if w.session <= q {
      AncestorsComparable(w.paths[k], w.session, q);
    }
  }

  lemma PlacedAtStart(w: World)
    requires w.Ready()
    ensures Placed(w, seq(|w.paths|, _ => Stays), w.start)
  {
    var fates := seq(|w.paths|, _ => Stays);
    forall p | p in w.start ensures IsAt(w, fates, p, p) {
    }
  }

  /** An item that stays is still exactly what it was at the start: nothing else in the run touches it. */
  lemma StaysInPlace(w: World, fates: seq<Fate>, t: Tree, k: nat)
    requires w.Ready() && Placed(w, fates, t) && k < |w.paths| && fates[k] == Stays
    ensures w.paths[k] in w.start <==> w.paths[k] in t
    ensures w.paths[k] in t ==> t[w.paths[k]] == w.start[w.paths[k]]
    ensures forall q :: w.Covers(k, q) ==> (q in t <==> q in w.start)
  {
    forall q | w.Covers(k, q) ensures q in t <==> q in w.start
      ensures q in w.start ==> q in t && t[q] == w.start[q]
    {
      StaysBelow(w, fates, t, k, q);
    }
    assert w.Covers(k, w.paths[k]);
  }

  lemma StaysBelow(w: World, fates: seq<Fate>, t: Tree, k: nat, q: Path)
    requires w.Ready() && Placed(w, fates, t) && k < |w.paths| && fates[k] == Stays && w.Covers(k, q)
    ensures q in t <==> q in w.start
    ensures q in w.start ==> t[q] == w.start[q]
  {
    forall j: nat | w.Covers(j, q) ensures j == k {
      OneCover(w, j, k, q);
    }
    assert IsAt(w, fates, q, q);
    if q in t {
      CoveredOutside(w, k, q);
      var s :| s in w.start && IsAt(w, fates, s, q);
      if s != q {
        var j: nat :| w.Covers(j, s) && fates[j] == Stored;
        CarriedBack(w.paths[j], w.Home(j), s);
        HomesApart(w, j, q);
      }
    }
  }

  /** An object is at its own path or inside the home of the one item that covers it. */
  lemma WhereIs(w: World, fates: seq<Fate>, q: Path, p: Path) returns (j: nat)
    requires w.Ready() && |fates| == |w.paths| && IsAt(w, fates, q, p)
    ensures p != q ==> w.Covers(j, q) && fates[j] == Stored && p == Carried(w.paths[j], w.Home(j), q) && w.Home(j) <= p
  {
    j := 0;
    if p != q {
      var i: nat :| w.Covers(i, q) && fates[i] != Stays;
      CarriedBack(w.paths[i], w.Home(i), q);
      j := i;
    }
  }

  /** The place an item would move to is free until the item is there. */
  lemma HomeFree(w: World, fates: seq<Fate>, t: Tree, k: nat)
    requires w.Ready() && Placed(w, fates, t) && k < |w.paths| && fates[k] != Stored
    ensures Free(t, w.Home(k))
  {
    forall r | r in t ensures !(w.Home(k) <= r) {
      if w.Home(k) <= r {
        HomesApart(w, k, r);
        var q :| q in w.start && IsAt(w, fates, q, r);
        var j := WhereIs(w, fates, q, r);
      }
    }
  }

  /** Being elsewhere than under item `k` does not depend on the fate of item `k`. */
  lemma OtherFate(w: World, fates: seq<Fate>, k: nat, fate: Fate, q: Path, p: Path)
    requires w.Ready() && |fates| == |w.paths| && k < |w.paths| && !w.Covers(k, q)
    ensures IsAt(w, fates[k := fate], q, p) <==> IsAt(w, fates, q, p)
  {
    assert forall j: nat :: w.Covers(j, q) ==> fates[k := fate][j] == fates[j];
  }

  /** What stands outside item `k` is not below it, wherever it is now. */
  lemma OutsideStaysOutside(w: World, fates: seq<Fate>, k: nat, q: Path, p: Path)
    requires w.Ready() && |fates| == |w.paths| && k < |w.paths| && !w.Covers(k, q) && IsAt(w, fates, q, p)
    ensures !w.Covers(k, p)
  {
    var j := WhereIs(w, fates, q, p);
    if p != q {
      HomesApart(w, j, p);
    }
  }

  /** Moving item `k` into the session moves exactly its subtree, replaces nothing and disturbs nothing else. */
  lemma MoveKeeps(w: World, fates: seq<Fate>, t: Tree, k: nat)
    requires w.Ready() && Placed(w, fates, t) && k < |w.paths| && fates[k] == Stays
    ensures Free(t, w.Home(k))
    ensures Placed(w, fates[k := Stored], Renamed(t, w.paths[k], w.Home(k)))
  {
    HomeFree(w, fates, t, k);
    var from, to, after := w.paths[k], w.Home(k), fates[k := Stored];
    var r := Renamed(t, from, to);
    forall q, p | q in w.start && IsAt(w, after, q, p) ensures p in r && r[p] == w.start[q] {
      if w.Covers(k, q) {
        StaysBelow(w, fates, t, k, q);
      } else {
        OtherFate(w, fates, k, Stored, q, p);
        OutsideStaysOutside(w, fates, k, q, p);
        assert Carried(from, to, p) == p;
      }
    }
    forall p | p in r && !Made(w, r, p) ensures exists q :: q in w.start && IsAt(w, after, q, p) {
      var c :| c in t && p == Carried(from, to, c);
      if w.Covers(k, c) {
        StaysBelow(w, fates, t, k, c);
        forall j: nat | w.Covers(j, c) ensures j == k {
          OneCover(w, j, k, c);
        }
        assert IsAt(w, after, c, p);
      } else {
        assert c == p && t[p] == r[p];
        var q :| q in w.start && IsAt(w, fates, q, c);
        StaysOrOutside(w, fates, k, q, c);
        OtherFate(w, fates, k, Stored, q, c);
      }
    }
  }

  lemma StaysOrOutside(w: World, fates: seq<Fate>, k: nat, q: Path, p: Path)
    requires w.Ready() && |fates| == |w.paths| && k < |w.paths| && fates[k] == Stays
    requires IsAt(w, fates, q, p) && !w.Covers(k, p)
    ensures !w.Covers(k, q)
  {
    if w.Covers(k, q) {
      forall j: nat | w.Covers(j, q) ensures j == k {
        OneCover(w, j, k, q);
      }
    }
  }

  /** Removing item `k` for good removes exactly its subtree. */
  lemma RemoveKeeps(w: World, fates: seq<Fate>, t: Tree, k: nat)
    requires w.Ready() && Placed(w, fates, t) && k < |w.paths| && fates[k] == Stays
    ensures Placed(w, fates[k := Gone], Without(t, w.paths[k]))
  {
    var after, r := fates[k := Gone], Without(t, w.paths[k]);
    forall q, p | q in w.start && IsAt(w, after, q, p) ensures p in r && r[p] == w.start[q] {
      assert after[k] == Gone && !w.Covers(k, q);
      OtherFate(w, fates, k, Gone, q, p);
      OutsideStaysOutside(w, fates, k, q, p);
    }
    forall p | p in r && !Made(w, r, p) ensures exists q :: q in w.start && IsAt(w, after, q, p) {
      var q :| q in w.start && IsAt(w, fates, q, p);
      StaysOrOutside(w, fates, k, q, p);
      OtherFate(w, fates, k, Gone, q, p);
    }
  }

  /** Creating the session's own directories disturbs nothing. */
  lemma CreateKeeps(w: World, fates: seq<Fate>, t: Tree, more: Tree)
    requires Placed(w, fates, t)
    requires forall d :: d in more ==> Made(w, more, d) && d !in t
    ensures Placed(w, fates, t + more)
  {
  }

  /**
   * The object an item names is at exactly one of its original path and its
   * place in the session, as the very node it was.
   */
  lemma ExactlyOnePlace(w: World, fates: seq<Fate>, t: Tree, k: nat)
    requires w.Ready() && Placed(w, fates, t) && k < |w.paths| && w.paths[k] in w.start && fates[k] != Gone
    ensures fates[k] == Stays ==>
              w.paths[k] in t && t[w.paths[k]] == w.start[w.paths[k]] && w.Home(k) !in t
    ensures fates[k] == Stored ==>
              w.Home(k) in t && t[w.Home(k)] == w.start[w.paths[k]] && w.paths[k] !in t
  {
    var q := w.paths[k];
    if fates[k] == Stays {
      StaysInPlace(w, fates, t, k);
      HomeFree(w, fates, t, k);
    } else {
      forall j: nat | w.Covers(j, q) ensures j == k {
        OneCover(w, j, k, q);
      }
      assert Carried(q, w.Home(k), q) == w.Home(k);
      assert IsAt(w, fates, q, w.Home(k));
      if q in t {
        CoveredOutside(w, k, q);
        var s :| s in w.start && IsAt(w, fates, s, q);
        var j := WhereIs(w, fates, s, q);
        HomesApartAt(w, j, q);
      }
    }
  }

  lemma HomesApartAt(w: World, j: nat, q: Path)
    requires w.Ready()
    ensures j < |w.paths| && w.Home(j) <= q ==> w.session <= q
  {
    if j < |w.paths| && w.Home(j) <= q {
      HomesApart(w, j, q);
    }
  }
}
