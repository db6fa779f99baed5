/** The scheduling test's histogram of waiting times. */
module Histogram {

  const INT64_MAX: int := 0x7fff_ffff_ffff_ffff

  datatype Bin = Bin(minval: int, maxval: int, count: nat)

  /** Start of bin i when [lo, hi] is cut into `bins` parts; for i == bins it is one past hi. */
  function MinVal(lo: int, hi: int, bins: nat, i: nat): int
    requires bins > 0 && lo <= hi
  {
    lo + (hi - lo + 1) * i / bins
  }

  function MaxVal(lo: int, hi: int, bins: nat, i: nat): int
    requires bins > 0 && lo <= hi
  {
    lo + ((hi - lo + 1) * (i + 1) / bins - 1)
  }

  predicate InBin(lo: int, hi: int, bins: nat, i: nat, v: int)
    requires bins > 0 && lo <= hi
  {
    MinVal(lo, hi, bins, i) <= v <= MaxVal(lo, hi, bins, i)
  }

  lemma {:induction false} MultiplesRise(d: nat, p: int, q: int)
    requires p < q
    ensures d * p + d <= d * q
    decreases q - p
  {
    assert d * q == d * (q - 1) + d;
    if p < q - 1 {
      MultiplesRise(d, p, q - 1);
    }
  }

  lemma DivisionIsMonotone(a: int, b: int, d: nat)
    requires a <= b && d > 0
    ensures a / d <= b / d
  {
    var p, q := a / d, b / d;
    assert d * p <= a && b < d * q + d;
    if q < p { MultiplesRise(d, q, p); }
  }

  lemma DivisionCancels(r: int, d: nat)
    requires d > 0
    ensures r * d / d == r
  {
    var q := r * d / d;
    assert d * q <= d * r < d * q + d;
    if q < r { MultiplesRise(d, q, r); }
    if r < q { MultiplesRise(d, r, q); }
  }

  lemma {:induction false} EdgesRise(lo: int, hi: int, bins: nat, i: nat, j: nat)
    requires bins > 0 && lo <= hi && i <= j
    ensures MinVal(lo, hi, bins, i) <= MinVal(lo, hi, bins, j)
    decreases j - i
  {
    if i < j {
      EdgesRise(lo, hi, bins, i, j - 1);
      var r := hi - lo + 1;
      assert r * j == r * (j - 1) + r;
      DivisionIsMonotone(r * (j - 1), r * j, bins);
    }
  }

  lemma OuterEdges(lo: int, hi: int, bins: nat)
    requires bins > 0 && lo <= hi
    ensures MinVal(lo, hi, bins, 0) == lo && MinVal(lo, hi, bins, bins) == hi + 1
  {
    var r := hi - lo + 1;
    assert r * 0 == 0;
    DivisionCancels(r, bins);
  }

  /** The bins tile [lo, hi]: the first starts at lo, each begins where the one before ended, the last
      ends at hi.  A bin may be empty. */
  lemma BinsTile(lo: int, hi: int, bins: nat, i: nat)
    requires bins > 0 && lo <= hi && i < bins
    ensures MinVal(lo, hi, bins, 0) == lo && MaxVal(lo, hi, bins, bins - 1) == hi
    ensures MinVal(lo, hi, bins, i + 1) == MaxVal(lo, hi, bins, i) + 1
    ensures MinVal(lo, hi, bins, i) <= MaxVal(lo, hi, bins, i) + 1
    ensures lo <= MinVal(lo, hi, bins, i) && MaxVal(lo, hi, bins, i) <= hi
  {
    OuterEdges(lo, hi, bins);
    EdgesRise(lo, hi, bins, i, i + 1);
    EdgesRise(lo, hi, bins, 0, i);
    EdgesRise(lo, hi, bins, i + 1, bins);
  }

  /** Bin i starts at the i-th of `bins` equal parts of the range, rounded down. */
  lemma EdgeExactly(lo: int, hi: int, bins: nat, i: nat, edge: int)
    requires bins > 0 && lo <= hi
    ensures edge == MinVal(lo, hi, bins, i) <==>
            bins * (edge - lo) <= (hi - lo + 1) * i < bins * (edge - lo) + bins
  {
    var p, r := edge - lo, (hi - lo + 1) * i;
    var q := r / bins;
    assert bins * q <= r < bins * q + bins;
    if bins * p <= r < bins * p + bins {
      if p < q { GapOfMultiples(bins, p, q); }
      if q < p { GapOfMultiples(bins, q, p); }
    }
  }

  lemma GapOfMultiples(d: nat, p: int, q: int)
    requires p < q
    ensures d * p + d <= d * q
  {
    MultiplesRise(d, p, q);
  }

  /** So no bin is wider or narrower than an equal share by a whole unit or more. */
  lemma BinsAreEven(lo: int, hi: int, bins: nat, i: nat)
    requires bins > 0 && lo <= hi
    ensures var width := MaxVal(lo, hi, bins, i) - MinVal(lo, hi, bins, i) + 1;
            hi - lo + 1 - bins < bins * width < hi - lo + 1 + bins
  {
    var r := hi - lo + 1;
    var a, b := MinVal(lo, hi, bins, i), MaxVal(lo, hi, bins, i) + 1;
    assert b == MinVal(lo, hi, bins, i + 1);
    EdgeExactly(lo, hi, bins, i, a);
    EdgeExactly(lo, hi, bins, i + 1, b);
    assert r * (i + 1) == r * i + r;
    assert bins * (b - a) == bins * (b - lo) - bins * (a - lo);
  }

  /** The bin a value falls in, found by walking down from n. */
  function BinOf(lo: int, hi: int, bins: nat, v: int, n: nat): nat
    requires bins > 0 && lo <= hi
  {
    if n == 0 || MinVal(lo, hi, bins, n) <= v then n else BinOf(lo, hi, bins, v, n - 1)
  }

  lemma {:induction false} BinOfHolds(lo: int, hi: int, bins: nat, v: int, n: nat)
    requires bins > 0 && lo <= v <= hi && v < MinVal(lo, hi, bins, n + 1)
    ensures BinOf(lo, hi, bins, v, n) <= n && InBin(lo, hi, bins, BinOf(lo, hi, bins, v, n), v)
  {
    if n == 0 {
      OuterEdges(lo, hi, bins);
    } else if v < MinVal(lo, hi, bins, n) {
      BinOfHolds(lo, hi, bins, v, n - 1);
    }
  }

  /** Every value between the extremes lies in one bin and in no other. */
  lemma ExactlyOneBin(lo: int, hi: int, bins: nat, v: int)
    requires bins > 0 && lo <= v <= hi
    ensures exists i: nat :: i < bins && InBin(lo, hi, bins, i, v)
    ensures forall i: nat, j: nat :: InBin(lo, hi, bins, i, v) && InBin(lo, hi, bins, j, v) ==> i == j
  {
    OuterEdges(lo, hi, bins);
    BinOfHolds(lo, hi, bins, v, bins - 1);
    forall i: nat, j: nat | InBin(lo, hi, bins, i, v) && InBin(lo, hi, bins, j, v) ensures i == j {
      if i < j {
        EdgesRise(lo, hi, bins, i + 1, j);
      } else if j < i {
        EdgesRise(lo, hi, bins, j + 1, i);
      }
    }
  }

  // ----- counting -----

  function CountIn(lo: int, hi: int, bins: nat, i: nat, values: seq<int>): nat
    requires bins > 0 && lo <= hi
  {
    if values == [] then 0
    else
      CountIn(lo, hi, bins, i, values[..|values| - 1])
      + (if InBin(lo, hi, bins, i, values[|values| - 1]) then 1 else 0)
  }

  /** All counts of the first n bins together. */
  function Total(lo: int, hi: int, bins: nat, n: nat, values: seq<int>): nat
    requires bins > 0 && lo <= hi
  {
    if n == 0 then 0 else Total(lo, hi, bins, n - 1, values) + CountIn(lo, hi, bins, n - 1, values)
  }

  lemma {:induction false} TotalOfNothing(lo: int, hi: int, bins: nat, n: nat)
    requires bins > 0 && lo <= hi
    ensures Total(lo, hi, bins, n, []) == 0
  {
    if n > 0 { TotalOfNothing(lo, hi, bins, n - 1); }
  }

  /** One more value raises the total of the first n bins by one if its bin is among them. */
  lemma {:induction false} TotalStep(lo: int, hi: int, bins: nat, n: nat, values: seq<int>, v: int, b: nat)
    requires bins > 0 && lo <= v <= hi && InBin(lo, hi, bins, b, v)
    ensures Total(lo, hi, bins, n, values + [v]) == Total(lo, hi, bins, n, values) + (if b < n then 1 else 0)
  {
    if n > 0 {
      TotalStep(lo, hi, bins, n - 1, values, v, b);
      ExactlyOneBin(lo, hi, bins, v);
      assert (values + [v])[..|values|] == values;
    }
  }

  /** The counts account for every passenger exactly once. */
  lemma {:induction false} CountsSumToAll(lo: int, hi: int, bins: nat, values: seq<int>)
    requires bins > 0 && lo <= hi && forall k :: 0 <= k < |values| ==> lo <= values[k] <= hi
    ensures Total(lo, hi, bins, bins, values) == |values|
  {
    if values == [] {
      TotalOfNothing(lo, hi, bins, bins);
    } else {
      var front, v := values[..|values| - 1], values[|values| - 1];
      CountsSumToAll(lo, hi, bins, front);
      ExactlyOneBin(lo, hi, bins, v);
      var b: nat :| b < bins && InBin(lo, hi, bins, b, v);
      TotalStep(lo, hi, bins, bins, front, v, b);
      assert front + [v] == values;
    }
  }

  /** The extremes, the bins and the counts, as the test computes them. */
  method BuildHistogram(values: seq<int>, wanted: nat) returns (lo: int, hi: int, histogram: seq<Bin>)
    requires values != [] && wanted > 0
    requires forall k :: 0 <= k < |values| ==> 0 <= values[k] <= INT64_MAX
    ensures lo in values && hi in values && forall k :: 0 <= k < |values| ==> lo <= values[k] <= hi
    ensures |histogram| == (if wanted < |values| then wanted else |values|)
    ensures var bins := |histogram|;
            && (forall i :: 0 <= i < bins ==>
                  histogram[i] == Bin(MinVal(lo, hi, bins, i), MaxVal(lo, hi, bins, i),
                                      CountIn(lo, hi, bins, i, values)))
            && Total(lo, hi, bins, bins, values) == |values|
  {
    lo, hi := Extremes(values);
    var bins := if wanted < |values| then wanted else |values|;
    var minvals := new int[bins];
    var maxvals := new int[bins];
    var counts := new nat[bins];
    var i := 0;
    while i < bins
      invariant 0 <= i <= bins
      invariant forall k :: 0 <= k < i ==>
        minvals[k] == MinVal(lo, hi, bins, k) && maxvals[k] == MaxVal(lo, hi, bins, k) && counts[k] == 0
    {
      minvals[i] := lo + (hi - lo + 1) * i / bins;
      maxvals[i] := lo + ((hi - lo + 1) * (i + 1) / bins - 1);
      counts[i] := 0;
      i := i + 1;
    }
    i := 0;
    while i < |values|
      invariant 0 <= i <= |values|
      invariant forall k :: 0 <= k < bins ==>
                  minvals[k] == MinVal(lo, hi, bins, k) && maxvals[k] == MaxVal(lo, hi, bins, k)
      invariant forall k :: 0 <= k < bins ==> counts[k] == CountIn(lo, hi, bins, k, values[..i])
    {
      CountValue(minvals, maxvals, counts, values[i], lo, hi, bins, values[..i]);
      assert values[..i + 1] == values[..i] + [values[i]];
      i := i + 1;
    }
    assert values[..i] == values;
    histogram := seq(bins, k requires 0 <= k < bins reads minvals, maxvals, counts =>
                             Bin(minvals[k], maxvals[k], counts[k]));
    CountsSumToAll(lo, hi, bins, values);
  }

  /** The inner loop: one value against every bin. */
  method CountValue(minvals: array<int>, maxvals: array<int>, counts: array<nat>, v: int,
                    ghost lo: int, ghost hi: int, ghost bins: nat, ghost before: seq<int>)
    requires bins > 0 && lo <= hi && minvals.Length == maxvals.Length == counts.Length == bins
    requires forall k :: 0 <= k < bins ==>
               minvals[k] == MinVal(lo, hi, bins, k) && maxvals[k] == MaxVal(lo, hi, bins, k)
    requires forall k :: 0 <= k < bins ==> counts[k] == CountIn(lo, hi, bins, k, before)
    requires counts != minvals as object && counts != maxvals as object
    modifies counts
    ensures forall k :: 0 <= k < bins ==> counts[k] == CountIn(lo, hi, bins, k, before + [v])
  {
    assert (before + [v])[..|before|] == before;
    var j := 0;
    while j < counts.Length
      invariant 0 <= j <= bins
      invariant forall k :: 0 <= k < j ==> counts[k] == CountIn(lo, hi, bins, k, before + [v])
      invariant forall k :: j <= k < bins ==> counts[k] == CountIn(lo, hi, bins, k, before)
    {
      if v >= minvals[j] && v <= maxvals[j] {
        counts[j] := counts[j] + 1;
      }
      j := j + 1;
    }
  }

  method Extremes(values: seq<int>) returns (lo: int, hi: int)
    requires values != [] && forall k :: 0 <= k < |values| ==> 0 <= values[k] <= INT64_MAX
    ensures lo in values && hi in values && forall k :: 0 <= k < |values| ==> lo <= values[k] <= hi
  {
    lo, hi := INT64_MAX, 0;
    var i := 0;
    while i < |values|
      invariant 0 <= i <= |values|
      invariant forall k :: 0 <= k < i ==> lo <= values[k] <= hi
      invariant lo in values[..i] || (lo == INT64_MAX && forall k :: 0 <= k < i ==> values[k] == INT64_MAX)
      invariant hi in values[..i] || (hi == 0 && forall k :: 0 <= k < i ==> values[k] == 0)
    {
      hi := if hi > values[i] then hi else values[i];
      lo := if lo < values[i] then lo else values[i];
      i := i + 1;
    }
    assert values[..i] == values;
    if lo == INT64_MAX { assert values[0] == lo; }
    if hi == 0 { assert values[0] == hi; }
  }
}
