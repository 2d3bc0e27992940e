/** Crediting a path to one finding when several claim it. */
module Overlap {
  import opened Wrappers
  import opened Bytes
  import opened Paths
  import opened Findings

  /** A strict ancestor of `p` is itself claimed. */
  predicate CoveredByAncestor(p: Path, claimed: set<Path>) {
    exists i :: 0 <= i < |p| && p[..i] in claimed
  }

  /** Every path an actionable finding names, in finding order. */
  function Claims(findings: seq<Finding>): seq<FindingPath> {
    if findings == [] then []
    else (if findings[0].actionable then findings[0].paths else []) + Claims(findings[1..])
  }

  function PathSet(ps: seq<FindingPath>): (s: set<Path>)
    ensures forall i :: 0 <= i < |ps| ==> ps[i].path in s
  {
    set i | 0 <= i < |ps| :: ps[i].path
  }

  /** One pass of the filter: paths no ancestor covers, each the first time it is seen. */
  function Narrow(ps: seq<FindingPath>, claimed: set<Path>, seen: set<Path>): (r: (seq<FindingPath>, set<Path>)) {
    if ps == [] then ([], seen)
    else if CoveredByAncestor(ps[0].path, claimed) || ps[0].path in seen then Narrow(ps[1..], claimed, seen)
    else
      var rest := Narrow(ps[1..], claimed, seen + {ps[0].path});
      ([ps[0]] + rest.0, rest.1)
  }

  /** What becomes of one finding: kept, narrowed, dropped, or impossible to rebuild. */
  function CreditOne(f: Finding, claimed: set<Path>, seen: set<Path>): (r: (seq<Finding>, seq<Finding>, set<Path>)) {
    if !f.actionable || f.paths == [] then ([f], [], seen)
    else
      var (paths, after) := Narrow(f.paths, claimed, seen);
      if paths == [] then ([], [], after)
      else if |paths| == |f.paths| then ([f], [], after)
      else
        match WithPaths(f, paths)
        case Ok(narrowed) => ([narrowed], [], after)
        case Err(_) => ([], [f], after)
  }

  /** The findings kept, those dropped because they could not be rebuilt, and the paths seen. */
  function Credit(findings: seq<Finding>, claimed: set<Path>, seen: set<Path>)
    : (seq<Finding>, seq<Finding>, set<Path>)
  {
    if findings == [] then ([], [], seen)
    else
      var one := CreditOne(findings[0], claimed, seen);
      var rest := Credit(findings[1..], claimed, one.2);
      (one.0 + rest.0, one.1 + rest.1, rest.2)
  }

  function Credited(findings: seq<Finding>): seq<Finding> {
    Credit(findings, PathSet(Claims(findings)), {}).0
  }

  lemma {:induction false} CreditSnoc(a: seq<Finding>, f: Finding, claimed: set<Path>, seen: set<Path>)
    ensures var (before, after) := (Credit(a, claimed, seen), Credit(a + [f], claimed, seen));
            var one := CreditOne(f, claimed, before.2);
            after == (before.0 + one.0, before.1 + one.1, one.2)
  {
    hide CreditOne;
    if a == [] {
      assert a + [f] == [f] && [f][1..] == [];
      var one := CreditOne(f, claimed, seen);
      assert Credit([], claimed, one.2) == ([], [], one.2);
      assert Credit([f], claimed, seen) == (one.0 + [], one.1 + [], one.2);
      assert one.0 + [] == [] + one.0 && one.1 + [] == [] + one.1;
    } else {
      assert (a + [f])[1..] == a[1..] + [f];
      var head := CreditOne(a[0], claimed, seen);
      CreditSnoc(a[1..], f, claimed, head.2);
      var tail := Credit(a[1..], claimed, head.2);
      var one := CreditOne(f, claimed, tail.2);
      assert (head.0 + tail.0) + one.0 == head.0 + (tail.0 + one.0);
      assert (head.1 + tail.1) + one.1 == head.1 + (tail.1 + one.1);
    }
  }

  /** `credit_once`: one loop over the findings, in the order the registry gave them. */
  method CreditOnce(findings: seq<Finding>) returns (kept: seq<Finding>, dropped: seq<Finding>)
    ensures kept == Credited(findings)
    ensures (forall i :: 0 <= i < |findings| ==> Valid(findings[i])) ==> dropped == []
  {
    hide CreditOne, WithPaths;
    var claimed := PathSet(Claims(findings));
    var seen: set<Path> := {};
    kept, dropped := [], [];
    for n := 0 to |findings|
      invariant (kept, dropped, seen) == Credit(findings[..n], claimed, {})
    {
      var (one, failed, after) := CreditOne(findings[n], claimed, seen);
      CreditSnoc(findings[..n], findings[n], claimed, {});
      assert findings[..n + 1] == findings[..n] + [findings[n]];
      kept, dropped, seen := kept + one, dropped + failed, after;
    }
    assert findings[..|findings|] == findings;
    if forall i :: 0 <= i < |findings| ==> Valid(findings[i]) {
      NothingDropped(findings, claimed, {});
    }
  }

  /** The branch that reports a finding it could not narrow is never taken for validated findings. */
  lemma {:induction false} NothingDropped(findings: seq<Finding>, claimed: set<Path>, seen: set<Path>)
    requires forall i :: 0 <= i < |findings| ==> Valid(findings[i])
    ensures Credit(findings, claimed, seen).1 == []
    ensures forall i :: 0 <= i < |Credit(findings, claimed, seen).0| ==> Valid(Credit(findings, claimed, seen).0[i])
  {
    if findings != [] {
      NothingDropped(findings[1..], claimed, CreditOne(findings[0], claimed, seen).2);
    }
  }

  // -------------------------------------------------- crediting is one filter

  lemma {:induction false} NarrowConcat(a: seq<FindingPath>, b: seq<FindingPath>, claimed: set<Path>, seen: set<Path>)
    ensures var first := Narrow(a, claimed, seen);
            Narrow(a + b, claimed, seen) ==
              (first.0 + Narrow(b, claimed, first.1).0, Narrow(b, claimed, first.1).1)
  {
    if a == [] {
      assert a + b == b && [] + Narrow(b, claimed, seen).0 == Narrow(b, claimed, seen).0;
    } else {
      assert (a + b)[1..] == a[1..] + b;
      if CoveredByAncestor(a[0].path, claimed) || a[0].path in seen {
        NarrowConcat(a[1..], b, claimed, seen);
      } else {
        NarrowConcat(a[1..], b, claimed, seen + {a[0].path});
        var rest := Narrow(a[1..], claimed, seen + {a[0].path});
        assert Narrow(a, claimed, seen).0 == [a[0]] + rest.0;
        assert ([a[0]] + rest.0) + Narrow(b, claimed, rest.1).0 == [a[0]] + (rest.0 + Narrow(b, claimed, rest.1).0);
      }
    }
  }

  lemma {:induction false} ClaimsConcat(a: seq<Finding>, b: seq<Finding>)
    ensures Claims(a + b) == Claims(a) + Claims(b)
  {
    if a == [] {
      assert a + b == b;
    } else {
      assert (a + b)[1..] == a[1..] + b;
      ClaimsConcat(a[1..], b);
    }
  }

  /** A filter that keeps as many as it was given kept them all. */
  lemma {:induction false} NarrowKeepsAll(ps: seq<FindingPath>, claimed: set<Path>, seen: set<Path>)
    ensures |Narrow(ps, claimed, seen).0| <= |ps|
    ensures |Narrow(ps, claimed, seen).0| == |ps| ==> Narrow(ps, claimed, seen).0 == ps
  {
    if ps != [] {
      NarrowKeepsAll(ps[1..], claimed, seen);
      NarrowKeepsAll(ps[1..], claimed, seen + {ps[0].path});
    }
  }

  lemma OneFindingIsOneFilter(f: Finding, claimed: set<Path>, seen: set<Path>)
    requires Valid(f)
    ensures var one := CreditOne(f, claimed, seen);
            Narrow(Claims([f]), claimed, seen) == (Claims(one.0), one.2)
  {
    ClaimsOne(f);
    var r := Narrow(f.paths, claimed, seen);
    if f.actionable && r.0 != [] {
      NarrowKeepsAll(f.paths, claimed, seen);
      if |r.0| != |f.paths| {
        ClaimsOne(WithPaths(f, r.0).value);
      }
    }
  }

  lemma ClaimsOne(f: Finding)
    ensures Claims([f]) == if f.actionable then f.paths else []
  {
    assert [f][1..] == [];
    assert Claims([f]) == (if f.actionable then f.paths else []) + Claims([]);
  }

  /** Crediting findings is the one filter over all their paths in order: findings only group them. */
  lemma {:induction false} CreditIsNarrow(findings: seq<Finding>, claimed: set<Path>, seen: set<Path>)
    requires forall i :: 0 <= i < |findings| ==> Valid(findings[i])
    ensures Claims(Credit(findings, claimed, seen).0) == Narrow(Claims(findings), claimed, seen).0
  {
    if findings != [] {
      hide CreditOne, Valid;
      var f, rest := findings[0], findings[1..];
      var one := CreditOne(f, claimed, seen);
      OneFindingIsOneFilter(f, claimed, seen);
      CreditIsNarrow(rest, claimed, one.2);
      assert findings == [f] + rest;
      ClaimsConcat([f], rest);
      NarrowConcat(Claims([f]), Claims(rest), claimed, seen);
      ClaimsConcat(one.0, Credit(rest, claimed, one.2).0);
    }
  }

  lemma CreditedIsNarrow(findings: seq<Finding>)
    requires forall i :: 0 <= i < |findings| ==> Valid(findings[i])
    ensures Claims(Credited(findings)) == Narrow(Claims(findings), PathSet(Claims(findings)), {}).0
  {
    CreditIsNarrow(findings, PathSet(Claims(findings)), {});
  }

  // --------------------------------------------------- what the filter keeps

  /** A path is kept exactly when it is claimed, uncovered and not seen before. */
  lemma {:induction false} NarrowExactly(ps: seq<FindingPath>, claimed: set<Path>, seen: set<Path>, p: Path)
    ensures p in PathSet(Narrow(ps, claimed, seen).0) <==>
            p in PathSet(ps) && !CoveredByAncestor(p, claimed) && p !in seen
  {
    if ps != [] {
      var first, rest := ps[0], ps[1..];
      assert PathSet(ps) == {first.path} + PathSet(rest) by { assert ps == [first] + rest; PathSetCons(first, rest); }
      if CoveredByAncestor(first.path, claimed) || first.path in seen {
        NarrowExactly(rest, claimed, seen, p);
      } else {
        NarrowExactly(rest, claimed, seen + {first.path}, p);
        PathSetCons(first, Narrow(rest, claimed, seen + {first.path}).0);
      }
    }
  }

  lemma PathSetCons(f: FindingPath, ps: seq<FindingPath>)
    ensures PathSet([f] + ps) == {f.path} + PathSet(ps)
  {
    var all := [f] + ps;
    forall p | p in PathSet(all) ensures p in {f.path} + PathSet(ps) {
      var i :| 0 <= i < |all| && all[i].path == p;
      assert i == 0 || all[i] == ps[i - 1];
    }
    forall p | p in {f.path} + PathSet(ps) ensures p in PathSet(all) {
      if p == f.path {
        assert all[0].path == p;
      } else {
        var i :| 0 <= i < |ps| && ps[i].path == p;
        assert all[i + 1].path == p;
      }
    }
  }

  ghost predicate Distinct(ps: seq<FindingPath>) {
    forall i, j :: 0 <= i < j < |ps| ==> ps[i].path != ps[j].path
  }

  /** Each kept path is kept once. */
  lemma {:induction false} NarrowOnce(ps: seq<FindingPath>, claimed: set<Path>, seen: set<Path>)
    ensures Distinct(Narrow(ps, claimed, seen).0)
  {
    if ps != [] {
      if CoveredByAncestor(ps[0].path, claimed) || ps[0].path in seen {
        NarrowOnce(ps[1..], claimed, seen);
        assert Narrow(ps, claimed, seen) == Narrow(ps[1..], claimed, seen);
      } else {
        NarrowOnce(ps[1..], claimed, seen + {ps[0].path});
        NarrowExactly(ps[1..], claimed, seen + {ps[0].path}, ps[0].path);
        var rest := Narrow(ps[1..], claimed, seen + {ps[0].path}).0;
        assert forall j :: 0 <= j < |rest| ==> rest[j].path in PathSet(rest);
        assert Narrow(ps, claimed, seen).0 == [ps[0]] + rest;
      }
    }
  }

  /** The shortest claimed ancestor-or-self of a claimed path is covered by nothing. */
  lemma ShortestAncestor(claimed: set<Path>, p: Path) returns (q: Path)
    requires p in claimed
    ensures q in claimed && q <= p && !CoveredByAncestor(q, claimed)
  {
    var n := 0;
    while p[..n] !in claimed
      invariant 0 <= n <= |p| && forall i :: 0 <= i < n ==> p[..i] !in claimed
      decreases |p| - n
    {
      assert n < |p| by { assert p[..|p|] == p; }
      n := n + 1;
    }
    q := p[..n];
    forall i | 0 <= i < |q| ensures q[..i] !in claimed {
      assert q[..i] == p[..i];
    }
  }

  /**
   * `credit_once` keeps exactly the minimal claimed paths, each once. They form
   * an antichain, and every claimed path has a kept ancestor or is kept itself.
   */
  lemma CreditedIsMinimal(findings: seq<Finding>)
    requires forall i :: 0 <= i < |findings| ==> Valid(findings[i])
    ensures var claimed, kept := PathSet(Claims(findings)), Claims(Credited(findings));
            && PathSet(kept) == Minimal(claimed)
            && Antichain(PathsOf(kept))
            && forall p :: p in claimed ==> exists q :: q in PathSet(kept) && q <= p
  {
    hide Valid, Credited, Narrow, CoveredByAncestor;
    CreditedIsNarrow(findings);
    NarrowIsMinimal(Claims(findings));
    NarrowIsAntichain(Claims(findings));
    EveryClaimHasMinimal(PathSet(Claims(findings)));
  }

  lemma EveryClaimHasMinimal(claimed: set<Path>)
    ensures forall p :: p in claimed ==> exists q :: q in Minimal(claimed) && q <= p
  {
    forall p | p in claimed ensures exists q :: q in Minimal(claimed) && q <= p {
      var q := ShortestAncestor(claimed, p);
      assert q in Minimal(claimed) && q <= p;
    }
  }

  /** The claimed paths no other claimed path is above. */
  function Minimal(claimed: set<Path>): set<Path> {
    set p | p in claimed && !CoveredByAncestor(p, claimed)
  }

  lemma NarrowIsMinimal(ps: seq<FindingPath>)
    ensures PathSet(Narrow(ps, PathSet(ps), {}).0) == Minimal(PathSet(ps))
  {
    forall p ensures p in PathSet(Narrow(ps, PathSet(ps), {}).0) <==> p in Minimal(PathSet(ps)) {
      NarrowExactly(ps, PathSet(ps), {}, p);
    }
  }

  lemma NarrowIsAntichain(ps: seq<FindingPath>)
    ensures Antichain(PathsOf(Narrow(ps, PathSet(ps), {}).0))
  {
    hide Narrow;
    var claimed := PathSet(ps);
    var kept := Narrow(ps, claimed, {}).0;
    NarrowOnce(ps, claimed, {});
    NarrowIsMinimal(ps);
    forall i, j | 0 <= i < |kept| && 0 <= j < |kept| && i != j ensures !(kept[i].path <= kept[j].path) {
      assert kept[i].path in PathSet(kept) && kept[j].path in PathSet(kept);
      if kept[i].path <= kept[j].path {
        StrictAncestorCovers(claimed, kept[i].path, kept[j].path);
      }
    }
  }

  lemma StrictAncestorCovers(claimed: set<Path>, p: Path, q: Path)
    requires p in claimed && p <= q && p != q
    ensures CoveredByAncestor(q, claimed)
  {
    assert q[..|p|] == p;
  }

  /** The kept set depends on what is claimed, not on the order of the findings or their grouping. */
  lemma KeptSetIgnoresOrder(a: seq<Finding>, b: seq<Finding>)
    requires forall i :: 0 <= i < |a| ==> Valid(a[i])
    requires forall i :: 0 <= i < |b| ==> Valid(b[i])
    requires PathSet(Claims(a)) == PathSet(Claims(b))
    ensures PathSet(Claims(Credited(a))) == PathSet(Claims(Credited(b)))
  {
    CreditedIsMinimal(a);
    CreditedIsMinimal(b);
  }

  // ------------------------------------------------------- honest totals

  /** The bytes each actionable finding with paths promises. */
  function Promised(findings: seq<Finding>): seq<u64> {
    if findings == [] then []
    else
      (if findings[0].actionable && findings[0].paths != [] then [findings[0].reclaimable] else [])
      + Promised(findings[1..])
  }

  lemma {:induction false} NarrowSum(ps: seq<FindingPath>, claimed: set<Path>, seen: set<Path>)
    ensures Sum(SizesOf(Narrow(ps, claimed, seen).0)) <= Sum(SizesOf(ps))
  {
    if ps != [] {
      SizesCons(ps[0], ps[1..]);
      assert ps == [ps[0]] + ps[1..];
      if CoveredByAncestor(ps[0].path, claimed) || ps[0].path in seen {
        NarrowSum(ps[1..], claimed, seen);
      } else {
        NarrowSum(ps[1..], claimed, seen + {ps[0].path});
        SizesCons(ps[0], Narrow(ps[1..], claimed, seen + {ps[0].path}).0);
      }
    }
  }

  lemma SizesCons(p: FindingPath, ps: seq<FindingPath>)
    ensures Sum(SizesOf([p] + ps)) == p.size + Sum(SizesOf(ps))
  {
    assert SizesOf([p] + ps) == [p.size] + SizesOf(ps);
    assert ([p.size] + SizesOf(ps))[1..] == SizesOf(ps);
  }

  lemma SizesConcat(a: seq<FindingPath>, b: seq<FindingPath>)
    ensures Sum(SizesOf(a + b)) == Sum(SizesOf(a)) + Sum(SizesOf(b))
  {
    assert SizesOf(a + b) == SizesOf(a) + SizesOf(b);
    SumConcat(SizesOf(a), SizesOf(b));
  }

  /** What crediting keeps of a finding, at most one, still promises what its paths add up to. */
  lemma OneIsSummed(f: Finding, claimed: set<Path>, seen: set<Path>)
    requires f.actionable && f.paths != [] ==> PathSummed(f)
    ensures var kept := CreditOne(f, claimed, seen).0;
            |kept| <= 1 && (kept != [] && kept[0].actionable && kept[0].paths != [] ==> PathSummed(kept[0]))
  {
    if f.actionable && f.paths != [] {
      NarrowSum(f.paths, claimed, seen);
      SatFoldIsCappedSum(0, SizesOf(Narrow(f.paths, claimed, seen).0));
    }
  }

  lemma SingleSum(g: Finding)
    requires g.actionable && g.paths != [] ==> PathSummed(g)
    ensures Sum(Promised([g])) == Sum(SizesOf(Claims([g])))
  {
    ClaimsOne(g);
    assert [g][1..] == [];
    assert Promised([g]) == (if g.actionable && g.paths != [] then [g.reclaimable] else []) + Promised([]);
    if g.actionable && g.paths != [] {
      assert Promised([g]) == [g.reclaimable] && [g.reclaimable][1..] == [];
    } else {
      assert Promised([g]) == [] && Claims([g]) == [];
    }
  }

  /** A finding that is kept still promises exactly what its remaining paths add up to. */
  lemma OneStaysSummed(f: Finding, claimed: set<Path>, seen: set<Path>)
    requires f.actionable && f.paths != [] ==> PathSummed(f)
    ensures forall g :: g in CreditOne(f, claimed, seen).0 && g.actionable && g.paths != [] ==> PathSummed(g)
    ensures Sum(Promised(CreditOne(f, claimed, seen).0)) == Sum(SizesOf(Claims(CreditOne(f, claimed, seen).0)))
  {
    OneIsSummed(f, claimed, seen);
    var kept := CreditOne(f, claimed, seen).0;
    hide CreditOne, PathSummed;
    if kept != [] {
      assert kept == [kept[0]];
      SingleSum(kept[0]);
    } else {
      assert Claims(kept) == [] && Promised(kept) == [];
    }
  }

  lemma {:induction false} PromisedConcat(a: seq<Finding>, b: seq<Finding>)
    ensures Promised(a + b) == Promised(a) + Promised(b)
  {
    if a == [] {
      assert a + b == b;
    } else {
      assert (a + b)[1..] == a[1..] + b;
      PromisedConcat(a[1..], b);
    }
  }

  lemma {:induction false} CreditStaysSummed(findings: seq<Finding>, claimed: set<Path>, seen: set<Path>)
    requires forall f :: f in findings && f.actionable && f.paths != [] ==> PathSummed(f)
    ensures var kept := Credit(findings, claimed, seen).0;
            && (forall g :: g in kept && g.actionable && g.paths != [] ==> PathSummed(g))
            && Sum(Promised(kept)) == Sum(SizesOf(Claims(kept)))
  {
    hide CreditOne, PathSummed;
    if findings != [] {
      var one := CreditOne(findings[0], claimed, seen);
      var rest := Credit(findings[1..], claimed, one.2).0;
      OneStaysSummed(findings[0], claimed, seen);
      CreditStaysSummed(findings[1..], claimed, one.2);
      PromisedConcat(one.0, rest);
      ClaimsConcat(one.0, rest);
      SumConcat(Promised(one.0), Promised(rest));
      SizesConcat(Claims(one.0), Claims(rest));
    }
  }

  /**
   * Honest numbers: when every input finding promises what its paths add up to,
   * the credited findings together promise each minimal path's bytes once.
   */
  lemma CreditedTotalCountsOnce(findings: seq<Finding>)
    requires forall i :: 0 <= i < |findings| ==> Valid(findings[i])
    requires forall f :: f in findings && f.actionable && f.paths != [] ==> PathSummed(f)
    ensures var kept := Credited(findings);
            && Sum(Promised(kept)) == Sum(SizesOf(Claims(kept)))
            && Distinct(Claims(kept)) && PathSet(Claims(kept)) == Minimal(PathSet(Claims(findings)))
  {
    CreditStaysSummed(findings, PathSet(Claims(findings)), {});
    CreditedIsNarrow(findings);
    NarrowOnce(Claims(findings), PathSet(Claims(findings)), {});
    NarrowIsMinimal(Claims(findings));
  }

  // ------------------------------------------- what crediting leaves alone

  /** The findings that take no part: inform-only ones, and those without paths. */
  function Bystanders(findings: seq<Finding>): seq<Finding> {
    if findings == [] then []
    else
      (if !findings[0].actionable || findings[0].paths == [] then [findings[0]] else [])
      + Bystanders(findings[1..])
  }

  lemma {:induction false} BystandersPass(findings: seq<Finding>, claimed: set<Path>, seen: set<Path>)
    ensures Bystanders(Credit(findings, claimed, seen).0) == Bystanders(findings)
  {
    if findings != [] {
      var one := CreditOne(findings[0], claimed, seen);
      var rest := Credit(findings[1..], claimed, one.2).0;
      BystandersPass(findings[1..], claimed, one.2);
      if one.0 == [] {
        assert one.0 + rest == rest;
      } else {
        assert (one.0 + rest)[1..] == rest;
      }
    }
  }

  /** Findings whose paths are uncovered, new and distinct are left exactly as they are. */
  lemma {:induction false} CleanFindingsStay(findings: seq<Finding>, claimed: set<Path>, seen: set<Path>)
    requires Clean(Claims(findings), claimed, seen)
    ensures Credit(findings, claimed, seen).0 == findings
  {
    if findings != [] {
      var f, rest := findings[0], findings[1..];
      assert findings == [f] + rest;
      ClaimsConcat([f], rest);
      ClaimsOne(f);
      var mine := Claims([f]);
      CleanSplit(mine, Claims(rest), claimed, seen);
      CleanNarrow(mine, claimed, seen);
      CleanFindingsStay(rest, claimed, CreditOne(f, claimed, seen).2);
    }
  }

  /** Nothing of `ps` is covered, seen before, or listed twice. */
  ghost predicate Clean(ps: seq<FindingPath>, claimed: set<Path>, seen: set<Path>) {
    && Distinct(ps)
    && forall i :: 0 <= i < |ps| ==> !CoveredByAncestor(ps[i].path, claimed) && ps[i].path !in seen
  }

  lemma CleanSplit(a: seq<FindingPath>, b: seq<FindingPath>, claimed: set<Path>, seen: set<Path>)
    requires Clean(a + b, claimed, seen)
    ensures Clean(a, claimed, seen) && Clean(b, claimed, seen + PathSet(a))
  {
    hide CoveredByAncestor;
    var c := a + b;
    assert forall i :: 0 <= i < |a| ==> c[i] == a[i];
    assert forall i :: 0 <= i < |b| ==> c[|a| + i] == b[i];
  }

  lemma {:induction false} CleanNarrow(ps: seq<FindingPath>, claimed: set<Path>, seen: set<Path>)
    requires Clean(ps, claimed, seen)
    ensures Narrow(ps, claimed, seen) == (ps, seen + PathSet(ps))
  {
    hide CoveredByAncestor;
    if ps == [] {
      assert seen + PathSet(ps) == seen;
    } else {
      assert ps == [ps[0]] + ps[1..];
      PathSetCons(ps[0], ps[1..]);
      CleanSplit([ps[0]], ps[1..], claimed, seen);
      assert PathSet([ps[0]]) == {ps[0].path};
      CleanNarrow(ps[1..], claimed, seen + {ps[0].path});
      assert (seen + {ps[0].path}) + PathSet(ps[1..]) == seen + PathSet(ps);
      assert Narrow(ps, claimed, seen).0 == [ps[0]] + ps[1..];
    }
  }

  /** Crediting twice is crediting once. */
  lemma CreditedIsIdempotent(findings: seq<Finding>)
    requires forall i :: 0 <= i < |findings| ==> Valid(findings[i])
    ensures Credited(Credited(findings)) == Credited(findings)
  {
    var kept := Credited(findings);
    var claims := Claims(kept);
    CreditedIsNarrow(findings);
    NarrowOnce(Claims(findings), PathSet(Claims(findings)), {});
    NarrowIsAntichain(Claims(findings));
    forall i | 0 <= i < |claims| ensures !CoveredByAncestor(claims[i].path, PathSet(claims)) {
      AntichainUncovered(claims, i);
    }
    CleanFindingsStay(kept, PathSet(claims), {});
  }

  lemma AntichainUncovered(ps: seq<FindingPath>, i: nat)
    requires Antichain(PathsOf(ps)) && i < |ps|
    ensures !CoveredByAncestor(ps[i].path, PathSet(ps))
  {
    var p, paths := ps[i].path, PathsOf(ps);
    forall n | 0 <= n < |p| ensures p[..n] !in PathSet(ps) {
      forall j | 0 <= j < |ps| ensures ps[j].path != p[..n] {
        assert j < i ==> Apart(paths[j], paths[i]);
        assert i < j ==> Apart(paths[i], paths[j]);
        assert p[..n] <= p;
      }
    }
  }
}
