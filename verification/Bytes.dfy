/** Byte counters: `u64` with the saturating and the checked sum the program uses. */
module Bytes {
  import opened Wrappers

  const U64_MAX: nat := 0xFFFF_FFFF_FFFF_FFFF

  type u64 = n: int | 0 <= n <= U64_MAX

  function Cap(n: nat): (r: u64)
    ensures r <= n
  {
    if n <= U64_MAX then n else U64_MAX
  }

  function SatAdd(a: u64, b: u64): (r: u64)
    ensures a <= r && b <= r
  {
    Cap(a + b)
  }

  /** The exact, unbounded sum a saturating fold is measured against. */
  function Sum(xs: seq<u64>): (s: nat) {
    if xs == [] then 0 else xs[0] + Sum(xs[1..])
  }

  /** `fold(acc, saturating_add)`, left to right. */
  function SatFold(acc: u64, xs: seq<u64>): u64
    decreases |xs|
  {
    if xs == [] then acc else SatFold(SatAdd(acc, xs[0]), xs[1..])
  }

  /** `try_fold(acc, checked_add)`, left to right. */
  function CheckedFold(acc: u64, xs: seq<u64>): Option<u64>
    decreases |xs|
  {
    if xs == [] then Some(acc)
    else if acc + xs[0] > U64_MAX then None
    else CheckedFold(acc + xs[0], xs[1..])
  }

  lemma {:induction false} SatFoldIsCappedSum(acc: u64, xs: seq<u64>)
    ensures SatFold(acc, xs) == Cap(acc + Sum(xs))
    decreases |xs|
  {
    if xs != [] {
      SatFoldIsCappedSum(SatAdd(acc, xs[0]), xs[1..]);
    }
  }

  lemma {:induction false} CheckedFoldIsSum(acc: u64, xs: seq<u64>)
    ensures CheckedFold(acc, xs) ==
            if acc + Sum(xs) <= U64_MAX then Some(acc + Sum(xs)) else None
    decreases |xs|
  {
    if xs != [] && acc + xs[0] <= U64_MAX {
      CheckedFoldIsSum(acc + xs[0], xs[1..]);
    }
  }

  lemma {:induction false} SumConcat(xs: seq<u64>, ys: seq<u64>)
    ensures Sum(xs + ys) == Sum(xs) + Sum(ys)
  {
    if xs == [] {
      assert xs + ys == ys;
    } else {
      assert (xs + ys)[1..] == xs[1..] + ys;
      SumConcat(xs[1..], ys);
    }
  }
}
