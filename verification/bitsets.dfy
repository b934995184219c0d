/**
 * `java.util.BitSet` as the set of indices of its set bits, with the operations the sign
 * sketches use: `length`, `xor` + `cardinality` (the Hamming distance), and the ordering
 * `BitSetWritable.compareTo` gives sketches when they are shuffled as map-output keys.
 */
module BitSets {

  type BitSet = set<nat>

  /** The indices `0 .. n-1`. */
  function Below(n: nat): (r: set<nat>)
    ensures forall i: nat :: i in r <==> i < n
  {
    if n == 0 then {} else Below(n - 1) + {n - 1}
  }

  lemma {:induction false} CardBelow(n: nat)
    ensures |Below(n)| == n
  {
    if n > 0 {
      var prev := Below(n - 1);
      assert n - 1 !in prev;
      CardBelow(n - 1);
      assert |prev + {n - 1}| == |prev| + 1;
    }
  }

  /** A set of indices all below `n` has at most `n` elements. */
  lemma {:induction false} CardOfBounded(s: set<nat>, n: nat)
    requires forall i :: i in s ==> i < n
    ensures |s| <= n
  {
    if n > 0 {
      var s' := s - {n - 1};
      CardOfBounded(s', n - 1);
    } else {
      assert s == {};
    }
  }

  lemma {:induction false} MaxExists(s: set<nat>)
    requires s != {}
    ensures exists m :: m in s && forall x :: x in s ==> x <= m
    decreases |s|
  {
    var y :| y in s;
    var rest := s - {y};
    if rest == {} {
      forall x | x in s
        ensures x <= y
      {
        assert x !in rest;
      }
    } else {
      assert |rest| < |s|;
      MaxExists(rest);
      var m :| m in rest && forall x :: x in rest ==> x <= m;
      var top := if y > m then y else m;
      forall x | x in s
        ensures x <= top
      {
        if x != y {
          assert x in rest;
        }
      }
      assert top in s;
    }
  }

  function Max(s: set<nat>): (m: nat)
    requires s != {}
    ensures m in s && forall x :: x in s ==> x <= m
  {
    MaxExists(s);
    var m :| m in s && forall x :: x in s ==> x <= m;
    m
  }

  /** `BitSet.length()`: one past the highest set bit, 0 for the empty bitset. */
  function Length(s: BitSet): (r: nat)
    ensures forall i :: i in s ==> i < r
    ensures s != {} ==> r - 1 in s
    ensures s == {} <==> r == 0
  {
    if s == {} then 0 else Max(s) + 1
  }

  /** `Length` is determined by the highest set bit. */
  lemma LengthOfHighest(s: BitSet, k: nat)
    requires k in s && forall i :: i in s ==> i <= k
    ensures Length(s) == k + 1
  {
  }

  /** `a.xor(b)`: the bits set in exactly one of the two. */
  function Xor(a: BitSet, b: BitSet): (r: BitSet)
    ensures forall i :: i in r <==> (i in a) != (i in b)
  {
    (a - b) + (b - a)
  }

  /** The reduce-side Hamming distance: `cardinality()` of the xor of two sketches. */
  function HammingDistance(a: BitSet, b: BitSet): (d: nat)
    ensures d == 0 <==> a == b
  {
    |Xor(a, b)|
  }

  lemma HammingSymmetric(a: BitSet, b: BitSet)
    ensures HammingDistance(a, b) == HammingDistance(b, a)
  {
    assert Xor(a, b) == Xor(b, a);
  }

  /** Sketches whose bits all lie below `n` are at most `n` apart. */
  lemma HammingBounded(a: BitSet, b: BitSet, n: nat)
    requires forall i :: i in a ==> i < n
    requires forall i :: i in b ==> i < n
    ensures HammingDistance(a, b) <= n
  {
    CardOfBounded(Xor(a, b), n);
  }

  /**
   * `BitSetWritable.compareTo`: 0 for equal bitsets; otherwise the longer bitset is greater;
   * for equal lengths, the one holding the highest bit of their xor is greater.
   */
  function CompareTo(a: BitSet, b: BitSet): (r: int)
    ensures r == 0 <==> a == b
    ensures -1 <= r <= 1
  {
    if a == b then 0
    else if Length(a) != Length(b) then (if Length(a) > Length(b) then 1 else -1)
    else
      var firstDifferent := Length(Xor(a, b)) - 1;
      if firstDifferent in a then 1 else -1
  }

  function Pow2(i: nat): (r: nat)
    ensures 1 <= r
  {
    if i == 0 then 1 else 2 * Pow2(i - 1)
  }

  /** The bitset's bits below `n` read as an unsigned binary number. */
  function Value(s: BitSet, n: nat): nat
  {
    if n == 0 then 0 else Value(s, n - 1) + (if n - 1 in s then Pow2(n - 1) else 0)
  }

  lemma {:induction false} ValueBelowPow2(s: BitSet, n: nat)
    ensures Value(s, n) < Pow2(n)
  {
    if n > 0 {
      ValueBelowPow2(s, n - 1);
    }
  }

  /**
   * Among the bits below `n`, the bitset holding the highest differing bit `j` has the larger
   * binary value.
   */
  lemma {:induction false} HighestDifferenceDecides(a: BitSet, b: BitSet, j: nat, n: nat)
    requires j < n && j in a && j !in b
    requires forall i :: j < i < n ==> (i in a <==> i in b)
    ensures Value(a, n) > Value(b, n)
  {
    if n == j + 1 {
      ValueBelowPow2(b, j);
    } else {
      HighestDifferenceDecides(a, b, j, n - 1);
    }
  }

  /**
   * For distinct bitsets, `CompareTo` picks the side holding the highest differing bit, in both
   * of its branches (different lengths, equal lengths).
   */
  lemma CompareToFollowsHighestDifference(a: BitSet, b: BitSet)
    requires a != b
    ensures var j := Length(Xor(a, b)) - 1;
      0 <= j && (CompareTo(a, b) == 1 <==> j in a) && (CompareTo(a, b) == -1 <==> j in b)
  {
    var x := Xor(a, b);
    var la, lb := Length(a), Length(b);
    if la > lb {
      LengthOfHighest(x, la - 1);
    } else if lb > la {
      LengthOfHighest(x, lb - 1);
    }
  }

  function Sign(x: int): int
  {
    if x > 0 then 1 else if x < 0 then -1 else 0
  }

  /**
   * `CompareTo` orders bitsets exactly as the unsigned binary numbers they spell, read over any
   * width `n` that covers both.
   */
  lemma CompareToIsBinaryOrder(a: BitSet, b: BitSet, n: nat)
    requires Length(a) <= n && Length(b) <= n
    ensures CompareTo(a, b) == Sign(Value(a, n) - Value(b, n))
  {
    if a != b {
      CompareToFollowsHighestDifference(a, b);
      var x := Xor(a, b);
      var j := Length(x) - 1;
      assert forall i :: j < i < n ==> (i in a <==> i in b) by {
        forall i | j < i < n
          ensures i in a <==> i in b
        {
          assert i !in x;
        }
      }
      if j in a {
        HighestDifferenceDecides(a, b, j, n);
      } else {
        HighestDifferenceDecides(b, a, j, n);
      }
    }
  }

  lemma CompareToAntisymmetric(a: BitSet, b: BitSet)
    ensures CompareTo(a, b) == -CompareTo(b, a)
  {
    var n := if Length(a) > Length(b) then Length(a) else Length(b);
    CompareToIsBinaryOrder(a, b, n);
    CompareToIsBinaryOrder(b, a, n);
  }

  lemma CompareToTransitive(a: BitSet, b: BitSet, c: BitSet)
    requires CompareTo(a, b) > 0 && CompareTo(b, c) > 0
    ensures CompareTo(a, c) > 0
  {
    var n := Length(a) + Length(b) + Length(c);
    CompareToIsBinaryOrder(a, b, n);
    CompareToIsBinaryOrder(b, c, n);
    CompareToIsBinaryOrder(a, c, n);
  }
}
