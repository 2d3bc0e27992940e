/**
 * Absolute paths as the sequence of their names; the root is the empty sequence.
 * The prefix order `<=` of sequences is then "is an ancestor of, or the same path".
 */
module Paths {
  type Path = seq<string>

  /** Neither path is the other, nor inside the other. */
  predicate Apart(p: Path, q: Path) {
    !(p <= q) && !(q <= p)
  }

  /** No path of the list is another one, nor inside another one. */
  ghost predicate Antichain(paths: seq<Path>) {
    forall i, j :: 0 <= i < j < |paths| ==> Apart(paths[i], paths[j])
  }

  lemma PrefixTrans(p: Path, q: Path, r: Path)
    requires p <= q && q <= r
    ensures p <= r
  {
    assert r[..|q|] == q;
    assert p == q[..|p|] == r[..|p|];
  }

  /** Two ancestors of one path are comparable, so apart paths share no descendant. */
  lemma AncestorsComparable(p: Path, q: Path, r: Path)
    requires p <= r && q <= r
    ensures p <= q || q <= p
  {
    if |p| <= |q| {
      assert p == r[..|p|] == q[..|p|];
    } else {
      assert q == r[..|q|] == p[..|q|];
    }
  }
}
