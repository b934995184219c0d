/**
 * Dense vectors over idealised reals: the dot products the Euclidean hashes take and the
 * normalisation `generateRandomHash` applies to each random projection.
 */
module Vectors {

  /** Sum of `v[i] * h[i]` over the first `n` components, accumulated in index order. */
  function Dot(v: seq<real>, h: seq<real>, n: nat): real
    requires n <= |v| && n <= |h|
  {
    if n == 0 then 0.0 else Dot(v, h, n - 1) + v[n - 1] * h[n - 1]
  }

  /** Sum of the components of `v`. */
  function RawSum(v: seq<real>): real
  {
    if |v| == 0 then 0.0 else RawSum(v[..|v| - 1]) + v[|v| - 1]
  }

  /** Squared Euclidean length of `v`. */
  function SumOfSquares(v: seq<real>): (r: real)
    ensures 0.0 <= r
  {
    if |v| == 0 then 0.0 else SumOfSquares(v[..|v| - 1]) + v[|v| - 1] * v[|v| - 1]
  }

  function Scale(v: seq<real>, c: real): (r: seq<real>)
    ensures |r| == |v|
  {
    seq(|v|, i requires 0 <= i < |v| => c * v[i])
  }

  /** `normalize`'s second loop: every component divided by the magnitude. */
  function Normalize(v: seq<real>, magnitude: real): (r: seq<real>)
    requires magnitude != 0.0
    ensures |r| == |v|
  {
    Scale(v, 1.0 / magnitude)
  }

  /** The squared length of `c * v` is `c * c` times that of `v`. */
  lemma {:induction false} SumOfSquaresScale(v: seq<real>, c: real)
    ensures SumOfSquares(Scale(v, c)) == c * c * SumOfSquares(v)
  {
    if |v| == 0 {
    } else {
      var n := |v| - 1;
      assert forall i | 0 <= i < n :: Scale(v, c)[..n][i] == Scale(v[..n], c)[i];
      assert Scale(v, c)[..n] == Scale(v[..n], c);
      SumOfSquaresScale(v[..n], c);
      var x := v[n];
      calc {
        SumOfSquares(Scale(v, c));
      ==
        SumOfSquares(Scale(v[..n], c)) + (c * x) * (c * x);
      ==
        c * c * SumOfSquares(v[..n]) + c * c * (x * x);
      ==
        c * c * (SumOfSquares(v[..n]) + x * x);
      ==
        c * c * SumOfSquares(v);
      }
    }
  }

  /**
   * Dividing by the true magnitude, the square root of the sum of SQUARES, yields a unit
   * vector. This is the normalisation the hash family is meant to have.
   */
  lemma NormalizeIsUnit(v: seq<real>, magnitude: real)
    requires 0.0 < magnitude && magnitude * magnitude == SumOfSquares(v)
    ensures SumOfSquares(Normalize(v, magnitude)) == 1.0
  {
    var c := 1.0 / magnitude;
    SumOfSquaresScale(v, c);
    calc {
      SumOfSquares(Normalize(v, magnitude));
    ==
      c * c * SumOfSquares(v);
    ==
      c * c * (magnitude * magnitude);
    ==
      (c * magnitude) * (c * magnitude);
    ==
      1.0;
    }
  }

  /**
   * `normalize` as written: the magnitude it divides by is the square root of the RAW sum of
   * the components, so the squared length it leaves is the sum of squares over the raw sum.
   */
  function NormalizeAsWritten(v: seq<real>, magnitude: real): (r: seq<real>)
    requires 0.0 < magnitude && magnitude * magnitude == RawSum(v)
    ensures |r| == |v|
    ensures SumOfSquares(r) * RawSum(v) == SumOfSquares(v)
  {
    var c := 1.0 / magnitude;
    SumOfSquaresScale(v, c);
    assert c * c * RawSum(v) == 1.0 by {
      assert c * c * (magnitude * magnitude) == (c * magnitude) * (c * magnitude);
    }
    calc {
      SumOfSquares(Normalize(v, magnitude)) * RawSum(v);
    ==
      (c * c * SumOfSquares(v)) * RawSum(v);
    ==
      SumOfSquares(v) * (c * c * RawSum(v));
    ==
      SumOfSquares(v);
    }
    Normalize(v, magnitude)
  }

  /** The as-written normalisation yields a unit vector exactly when the raw sum happens to equal the sum of squares. */
  lemma AsWrittenIsUnitOnlyBySeeming(v: seq<real>, magnitude: real)
    requires 0.0 < magnitude && magnitude * magnitude == RawSum(v)
    ensures SumOfSquares(NormalizeAsWritten(v, magnitude)) == 1.0 <==> SumOfSquares(v) == RawSum(v)
  {
    var r := NormalizeAsWritten(v, magnitude);
    assert 0.0 < RawSum(v);
    if SumOfSquares(v) == RawSum(v) {
      assert SumOfSquares(r) * RawSum(v) == 1.0 * RawSum(v);
    }
  }

  /**
   * The defect on one input: for `[0.5, 0.5]` the raw sum is 1, the magnitude divided by is 1,
   * and the result keeps a squared length of 0.5 instead of 1.
   */
  lemma RawSumMagnitudeIsNotUnit()
    ensures var v := [0.5, 0.5];
      RawSum(v) == 1.0 * 1.0 && SumOfSquares(NormalizeAsWritten(v, 1.0)) == 0.5
  {
    var v := [0.5, 0.5];
    assert v[..1] == [0.5];
    assert Normalize(v, 1.0) == [0.5, 0.5];
    assert Normalize(v, 1.0)[..1] == [0.5];
  }

  /**
   * Components are drawn from [-0.5, 0.5), so the raw sum is negative about half the time;
   * then no real magnitude exists (Java's `Math.sqrt` returns NaN and the whole hash row
   * becomes NaN). `[-0.25, -0.25]` is such a draw.
   */
  lemma RawSumMagnitudeCanBeUndefined(m: real)
    ensures var v := [-0.25, -0.25]; RawSum(v) == -0.5 && m * m != RawSum(v)
  {
    var v := [-0.25, -0.25];
    assert v[..1] == [-0.25];
    assert m * m >= 0.0 by {
      if m < 0.0 { assert m * m == (-m) * (-m); }
    }
  }
}
