/**
 * Sparse vectors as the lazy KNN searches read them: a record is a list of `pos:val` tokens,
 * here already parsed into positions and values. The two searches disagree on where positions
 * start (at 1 in the `knn` package, at 0 in the top-level class); `base` says which.
 */
module SparseVectors {
  import opened Vectors

  datatype SparseEntry = SparseEntry(pos: int, val: real)

  /** Every position, counted from `base`, indexes one of `dim` components (else `hash[...]` throws). */
  predicate InRange(sv: seq<SparseEntry>, dim: nat, base: int)
  {
    forall i :: 0 <= i < |sv| ==> base <= sv[i].pos < base + dim
  }

  /** `hashed`'s accumulation: `val * hash[pos - base]`, summed over the entries in order. */
  function SparseDot(sv: seq<SparseEntry>, hash: seq<real>, base: int): real
    requires InRange(sv, |hash|, base)
  {
    if |sv| == 0 then 0.0
    else
      var e := sv[|sv| - 1];
      SparseDot(sv[..|sv| - 1], hash, base) + e.val * hash[e.pos - base]
  }

  /** The value the entries give position `p`; a repeated position adds up, as the sum above does. */
  function ValueAt(sv: seq<SparseEntry>, p: int): real
  {
    if |sv| == 0 then 0.0
    else ValueAt(sv[..|sv| - 1], p) + (if sv[|sv| - 1].pos == p then sv[|sv| - 1].val else 0.0)
  }

  /** The dense vector of `dim` components the entries describe, positions counted from `base`. */
  function Expand(sv: seq<SparseEntry>, dim: nat, base: int): seq<real>
  {
    seq(dim, j requires 0 <= j < dim => ValueAt(sv, j + base))
  }

  /** Raising component `p` of `u` by `d` raises a dot product over the first `n` components by `d * h[p]` when `p < n`. */
  lemma {:induction false} DotOfRaised(u: seq<real>, w: seq<real>, h: seq<real>, n: nat, p: nat, d: real)
    requires n <= |u| == |w| && n <= |h|
    requires forall j :: 0 <= j < |u| ==> w[j] == u[j] + (if j == p then d else 0.0)
    ensures Dot(w, h, n) == Dot(u, h, n) + (if p < n then d * h[p] else 0.0)
  {
    if n > 0 {
      DotOfRaised(u, w, h, n - 1, p, d);
      if n - 1 == p {
        assert w[p] * h[p] == u[p] * h[p] + d * h[p];
      }
    }
  }

  /** The sparse sum is the dense dot product of the expanded vector with the hash row. */
  lemma {:induction false} SparseDotIsDenseDot(sv: seq<SparseEntry>, hash: seq<real>, base: int)
    requires InRange(sv, |hash|, base)
    ensures SparseDot(sv, hash, base) == Dot(Expand(sv, |hash|, base), hash, |hash|)
  {
    var n := |hash|;
    if |sv| == 0 {
      var u := Expand(sv, n, base);
      forall j | 0 <= j < n
        ensures u[j] == 0.0
      {
        assert u[j] == ValueAt(sv, j + base);
      }
      ZeroDot(u, hash, n);
    } else {
      var init, e := sv[..|sv| - 1], sv[|sv| - 1];
      assert InRange(init, n, base);
      SparseDotIsDenseDot(init, hash, base);
      var u, w := Expand(init, n, base), Expand(sv, n, base);
      forall j | 0 <= j < n
        ensures w[j] == u[j] + (if j == e.pos - base then e.val else 0.0)
      {
        assert w[j] == ValueAt(sv, j + base);
        assert u[j] == ValueAt(init, j + base);
      }
      DotOfRaised(u, w, hash, n, e.pos - base, e.val);
    }
  }

  lemma {:induction false} ZeroDot(u: seq<real>, h: seq<real>, n: nat)
    requires n <= |u| && n <= |h|
    requires forall j :: 0 <= j < |u| ==> u[j] == 0.0
    ensures Dot(u, h, n) == 0.0
  {
    if n > 0 {
      ZeroDot(u, h, n - 1);
    }
  }

  /** The worked case: with 1-based positions, `3:5.0 1:2.0` stands for `[2, 0, 5, 0, 0]`. */
  lemma OneBasedExample(hash: seq<real>)
    requires |hash| == 5
    ensures var sv := [SparseEntry(3, 5.0), SparseEntry(1, 2.0)];
      && Expand(sv, 5, 1) == [2.0, 0.0, 5.0, 0.0, 0.0]
      && SparseDot(sv, hash, 1) == Dot([2.0, 0.0, 5.0, 0.0, 0.0], hash, 5)
  {
    var sv := [SparseEntry(3, 5.0), SparseEntry(1, 2.0)];
    assert sv[..1] == [SparseEntry(3, 5.0)];
    assert sv[..1][..0] == [];
    var x := Expand(sv, 5, 1);
    assert x[0] == ValueAt(sv, 1) == 2.0;
    assert x[1] == ValueAt(sv, 2) == 0.0;
    assert x[2] == ValueAt(sv, 3) == 5.0;
    assert x[3] == ValueAt(sv, 4) == 0.0;
    assert x[4] == ValueAt(sv, 5) == 0.0;
    SparseDotIsDenseDot(sv, hash, 1);
  }

  /**
   * The two conventions differ by one component: reading positions from 1 is reading them from 0
   * against the hash row with one extra component in front.
   */
  lemma {:induction false} OneBasedIsShiftedZeroBased(sv: seq<SparseEntry>, hash: seq<real>, x: real)
    requires InRange(sv, |hash|, 1)
    ensures InRange(sv, |[x] + hash|, 0)
    ensures SparseDot(sv, hash, 1) == SparseDot(sv, [x] + hash, 0)
  {
    if |sv| > 0 {
      var init := sv[..|sv| - 1];
      assert InRange(init, |hash|, 1);
      OneBasedIsShiftedZeroBased(init, hash, x);
    }
  }

  /**
   * The same record read under the two conventions gives different scalars: `1:1.0` against the
   * row `[0, 1]` is 0 read from 1 and 1 read from 0; and the largest 1-based position, `2`, is
   * out of range when read from 0.
   */
  lemma ConventionsDisagree()
    ensures var sv := [SparseEntry(1, 1.0)]; var hash := [0.0, 1.0];
      && SparseDot(sv, hash, 1) == 0.0 && SparseDot(sv, hash, 0) == 1.0
      && InRange([SparseEntry(2, 1.0)], 2, 1) && !InRange([SparseEntry(2, 1.0)], 2, 0)
  {
    var sv := [SparseEntry(1, 1.0)];
    var hash := [0.0, 1.0];
    assert sv[..0] == [];
    assert SparseDot(sv, hash, 1) == 1.0 * hash[0];
    assert SparseDot(sv, hash, 0) == 1.0 * hash[1];
    var top := [SparseEntry(2, 1.0)];
    assert !(0 <= top[0].pos < 0 + 2);
  }
}
