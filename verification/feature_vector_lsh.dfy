/**
 * The angular (SimHash) job: every hash is the sign vector of a random hyperplane, stored
 * as a BitSet over `VectorLength` dimensions (set bit = +1, clear bit = -1). A vector's
 * sketch has bit `i` set when it lies on the non-negative side of hyperplane `i`. The mapper
 * keys every record by its sketch; the reducer scores each key by its Hamming distance to the
 * query's sketch and keeps or drops the whole group.
 */
module FeatureVectorLsh {
  import opened BitSets
  import opened JavaStrings
  import Vectors

  const VectorLength: nat := 4000
  const SketchLength: nat := 15

  /** The hyperplane normal's component `b`: +1 for a set bit, -1 for a clear one. */
  function PlaneSign(plane: BitSet, b: nat): real
  {
    if b in plane then 1.0 else -1.0
  }

  /** Dot product of the first `n` components of `v` with the hyperplane's ±1 normal. */
  function SignedSum(v: seq<real>, plane: BitSet, n: nat): real
    requires n <= |v|
  {
    if n == 0 then 0.0 else SignedSum(v, plane, n - 1) + PlaneSign(plane, n - 1) * v[n - 1]
  }

  /** The vector lies on the non-negative side of the hyperplane. */
  predicate SameDirection(v: seq<real>, plane: BitSet)
    requires VectorLength <= |v|
  {
    SignedSum(v, plane, VectorLength) >= 0.0
  }

  /** `isSameDirection`: adds `v[b]` for a set bit and subtracts it for a clear one. */
  method IsSameDirection(v: seq<real>, plane: BitSet) returns (same: bool)
    requires VectorLength <= |v|
    ensures same <==> SignedSum(v, plane, VectorLength) >= 0.0
  {
    var dot := 0.0;
    var b := 0;
    while b < VectorLength
      invariant 0 <= b <= VectorLength
      invariant dot == SignedSum(v, plane, b)
    {
      if b in plane {
        dot := dot + v[b];
      } else {
        dot := dot - v[b];
      }
      b := b + 1;
    }
    same := dot >= 0.0;
  }

  /** The sketch of `v`: the indices of the hyperplanes it lies on the non-negative side of. */
  function Sketch(v: seq<real>, hashFunction: seq<BitSet>): BitSet
    requires VectorLength <= |v|
  {
    set i: nat | i < |hashFunction| && SameDirection(v, hashFunction[i])
  }

  /** `calculateHash`: one sketch bit per hyperplane, no bit at or beyond the number of hyperplanes. */
  method CalculateHash(v: seq<real>, hashFunction: seq<BitSet>) returns (sketch: BitSet)
    requires VectorLength <= |v|
    ensures forall i: nat :: i in sketch <==> i < |hashFunction| && SameDirection(v, hashFunction[i])
    ensures sketch == Sketch(v, hashFunction)
  {
    sketch := {};
    var i := 0;
    while i < |hashFunction|
      invariant 0 <= i <= |hashFunction|
      invariant forall j: nat :: j in sketch <==> j < i && SameDirection(v, hashFunction[j])
    {
      var same := IsSameDirection(v, hashFunction[i]);
      if same {
        sketch := sketch + {i};
      }
      i := i + 1;
    }
  }

  /** What the mapper emits for one record: the record's sketch as key, the whole line as value. */
  datatype MapOutput = MapOutput(key: BitSet, value: string)

  /**
   * `TokenizerMapper.map`: the vector is the text after the first tab, parsed by `parse`
   * (standing for `parseDoubleArr(vect.split(","))`); it is hashed with the same hash family
   * the query sketch was built from.
   */
  method Map(line: string, hashFunction: seq<BitSet>, parse: string -> seq<real>) returns (out: MapOutput)
    requires '\t' in line
    requires VectorLength <= |parse(After(line, '\t'))|
    ensures out.value == line
    ensures out.key == Sketch(parse(After(line, '\t')), hashFunction)
  {
    var vect := After(line, '\t');
    var inputVector := parse(vect);
    var inputSketch := CalculateHash(inputVector, hashFunction);
    out := MapOutput(inputSketch, line);
  }

  /** A reducer output pair: the similarity score and the record line. */
  datatype Scored = Scored(similarity: real, value: string)

  /**
   * The estimated similarity of a key at Hamming distance `d` from the query: `estimate`
   * stands for `x => Math.cos(x * Math.PI)`, applied to `d / SKETCH_LENGTH`.
   */
  function Similarity(d: nat, estimate: real -> real): real
  {
    estimate(d as real / SketchLength as real)
  }

  /** A key clears the threshold. */
  predicate Passes(searchSketch: BitSet, key: BitSet, estimate: real -> real, threshold: real)
  {
    Similarity(HammingDistance(searchSketch, key), estimate) >= threshold
  }

  /**
   * `MyReducer.reduce`: all or nothing per key. When the key's similarity clears the threshold
   * every value of the group is written with that same score, in order; otherwise none is.
   */
  method Reduce(searchSketch: BitSet, key: BitSet, values: seq<string>, estimate: real -> real, threshold: real)
    returns (out: seq<Scored>)
    ensures Passes(searchSketch, key, estimate, threshold) ==> |out| == |values|
    ensures !Passes(searchSketch, key, estimate, threshold) ==> out == []
    ensures forall j :: 0 <= j < |out| ==>
      out[j] == Scored(Similarity(HammingDistance(searchSketch, key), estimate), values[j])
  {
    var hammingDist := |Xor(searchSketch, key)|;
    var similarity := estimate(hammingDist as real / SketchLength as real);
    out := [];
    if similarity >= threshold {
      var j := 0;
      while j < |values|
        invariant 0 <= j <= |values|
        invariant |out| == j
        invariant forall k :: 0 <= k < j ==> out[k] == Scored(similarity, values[k])
      {
        out := out + [Scored(similarity, values[j])];
        j := j + 1;
      }
    }
  }

  /** `estimate` never increases with the distance fraction, as `cos(x * PI)` on [0, 1]. */
  ghost predicate NonIncreasing(estimate: real -> real)
  {
    forall x: real, y: real :: 0.0 <= x <= y <= 1.0 ==> estimate(y) <= estimate(x)
  }

  /**
   * With an estimate non-increasing on [0, 1] the threshold filter is monotone: any key at most
   * as far from the query as a passing key passes too. Keys of `SketchLength` hyperplanes are at
   * most `SketchLength` apart (`SketchDistanceBounded`), so every fraction lies in [0, 1].
   */
  lemma PassesMonotone(searchSketch: BitSet, near: BitSet, far: BitSet, estimate: real -> real, threshold: real)
    requires NonIncreasing(estimate)
    requires HammingDistance(searchSketch, near) <= HammingDistance(searchSketch, far) <= SketchLength
    requires Passes(searchSketch, far, estimate, threshold)
    ensures Passes(searchSketch, near, estimate, threshold)
  {
    var dn, df := HammingDistance(searchSketch, near) as real, HammingDistance(searchSketch, far) as real;
    var l := SketchLength as real;
    assert dn / l <= df / l;
    assert df / l <= 1.0;
  }

  /** The all-zero vector is on the non-negative side of every hyperplane. */
  lemma {:induction false} SignedSumOfZero(v: seq<real>, plane: BitSet, n: nat)
    requires n <= |v|
    requires forall i :: 0 <= i < |v| ==> v[i] == 0.0
    ensures SignedSum(v, plane, n) == 0.0
  {
    if n > 0 {
      SignedSumOfZero(v, plane, n - 1);
    }
  }

  /** Every sketch bit of the all-zero vector is set. */
  lemma ZeroVectorSketchIsFull(v: seq<real>, hashFunction: seq<BitSet>)
    requires VectorLength <= |v|
    requires forall i :: 0 <= i < |v| ==> v[i] == 0.0
    ensures Sketch(v, hashFunction) == Below(|hashFunction|)
  {
    forall i: nat | i < |hashFunction|
      ensures i in Sketch(v, hashFunction)
    {
      SignedSumOfZero(v, hashFunction[i], VectorLength);
    }
  }

  /** The signed sum is linear in the vector. */
  lemma {:induction false} SignedSumScale(v: seq<real>, c: real, plane: BitSet, n: nat)
    requires n <= |v|
    ensures SignedSum(Vectors.Scale(v, c), plane, n) == c * SignedSum(v, plane, n)
  {
    if n > 0 {
      SignedSumScale(v, c, plane, n - 1);
      var w := Vectors.Scale(v, c);
      assert w[n - 1] == c * v[n - 1];
      Distribute(SignedSum(v, plane, n - 1), PlaneSign(plane, n - 1), c, v[n - 1]);
    }
  }

  lemma Distribute(s: real, p: real, c: real, x: real)
    ensures c * s + p * (c * x) == c * (s + p * x)
  {
  }

  /** Sign sketches depend on direction only: scaling by a positive factor keeps the sketch. */
  lemma SketchScaleInvariant(v: seq<real>, c: real, hashFunction: seq<BitSet>)
    requires VectorLength <= |v| && 0.0 < c
    ensures Sketch(Vectors.Scale(v, c), hashFunction) == Sketch(v, hashFunction)
  {
    forall i: nat | i < |hashFunction|
      ensures SameDirection(Vectors.Scale(v, c), hashFunction[i]) <==> SameDirection(v, hashFunction[i])
    {
      SignedSumScale(v, c, hashFunction[i], VectorLength);
      var s := SignedSum(v, hashFunction[i], VectorLength);
      if s < 0.0 {
        assert c * s < 0.0 by {
          assert c * (-s) > 0.0;
        }
      } else {
        assert c * s >= 0.0;
      }
    }
  }

  /**
   * The opposite vector lies on the other side of every hyperplane it is not on: when no signed
   * sum is 0, the sketches of `v` and `-v` differ in every bit, so the Hamming distance is the
   * number of hyperplanes and the estimate is at its minimum.
   */
  lemma OppositeVectorIsFarthest(v: seq<real>, hashFunction: seq<BitSet>)
    requires VectorLength <= |v|
    requires forall i :: 0 <= i < |hashFunction| ==> SignedSum(v, hashFunction[i], VectorLength) != 0.0
    ensures HammingDistance(Sketch(v, hashFunction), Sketch(Vectors.Scale(v, -1.0), hashFunction)) == |hashFunction|
  {
    var a, b := Sketch(v, hashFunction), Sketch(Vectors.Scale(v, -1.0), hashFunction);
    forall i: nat | i < |hashFunction|
      ensures (i in a) != (i in b)
    {
      SignedSumScale(v, -1.0, hashFunction[i], VectorLength);
    }
    assert Xor(a, b) == Below(|hashFunction|);
    CardBelow(|hashFunction|);
  }

  /** Two sketches under the same hash family are at most the family's size apart. */
  lemma SketchDistanceBounded(v: seq<real>, w: seq<real>, hashFunction: seq<BitSet>)
    requires VectorLength <= |v| && VectorLength <= |w|
    ensures HammingDistance(Sketch(v, hashFunction), Sketch(w, hashFunction)) <= |hashFunction|
  {
    HammingBounded(Sketch(v, hashFunction), Sketch(w, hashFunction), |hashFunction|);
  }

  /**
   * Query and record are encoded alike: a record line whose vector parses to the search vector
   * is keyed by `Map` with exactly the query's sketch, so its key is at distance 0 and the
   * reducer keeps it whenever the estimate at distance 0 clears the threshold.
   */
  lemma QueryRecordPasses(line: string, searchVector: seq<real>, hashFunction: seq<BitSet>,
                          parse: string -> seq<real>, estimate: real -> real, threshold: real)
    requires '\t' in line && parse(After(line, '\t')) == searchVector
    requires VectorLength <= |searchVector|
    requires estimate(0.0) >= threshold
    ensures var key := Sketch(parse(After(line, '\t')), hashFunction);
      var searchSketch := Sketch(searchVector, hashFunction);
      key == searchSketch
      && HammingDistance(searchSketch, key) == 0
      && Similarity(HammingDistance(searchSketch, key), estimate) == estimate(0.0)
      && Passes(searchSketch, key, estimate, threshold)
  {
    assert 0 as real / SketchLength as real == 0.0;
  }

  /**
   * The job end to end on the query's own record: the mapper keys the line, the reducer receives
   * it under that key first, followed by the `others` lines grouped under the same key, and
   * writes every one of them once, in that order, with the similarity of distance 0.
   */
  method QueryRecordIsWritten(line: string, others: seq<string>, searchVector: seq<real>,
                              hashFunction: seq<BitSet>, parse: string -> seq<real>,
                              estimate: real -> real, threshold: real)
    returns (out: seq<Scored>)
    requires '\t' in line && parse(After(line, '\t')) == searchVector
    requires VectorLength <= |searchVector|
    requires estimate(0.0) >= threshold
    ensures |out| == 1 + |others|
    ensures out[0] == Scored(estimate(0.0), line)
    ensures forall j :: 0 <= j < |others| ==> out[j + 1] == Scored(estimate(0.0), others[j])
  {
    var mapped := Map(line, hashFunction, parse);
    QueryRecordPasses(line, searchVector, hashFunction, parse, estimate, threshold);
    out := Reduce(Sketch(searchVector, hashFunction), mapped.key, [mapped.value] + others, estimate, threshold);
  }

  /** The hyperplane a draw of `VectorLength` uniform numbers yields: bit `b` set when draw `b` exceeds 0.5. */
  function HashOfDraw(draw: seq<real>): BitSet
    requires |draw| == VectorLength
  {
    set b: nat | b < VectorLength && draw[b] > 0.5
  }

  /** `h` is the hyperplane of one of the draws. */
  predicate Drawn(h: BitSet, draws: seq<seq<real>>)
  {
    exists j :: 0 <= j < |draws| && |draws[j]| == VectorLength && h == HashOfDraw(draws[j])
  }

  /** Appending a value not yet recorded keeps the new values distinct, new and recorded. */
  lemma AddFresh<T>(history: set<T>, found: seq<T>, recorded: set<T>, x: T)
    requires recorded == history + set h | h in found
    requires x !in recorded
    ensures recorded + {x} == history + set h | h in found + [x]
    ensures x !in history && x !in found
  {
    assert (set h | h in found + [x]) == (set h | h in found) + {x};
  }

  /**
   * `generateRandomHash` with the random numbers as an explicit sequence of draws. A draw
   * already in the history is rejected and the next one taken, so the new hashes are pairwise
   * distinct, none was in the prior history, and all are added to it. When the draws run out
   * before `count` new hashes are found, the result is short and every draw was used.
   */
  method GenerateRandomHash(history: set<BitSet>, count: nat, draws: seq<seq<real>>)
    returns (hashes: seq<BitSet>, updated: set<BitSet>)
    requires forall j :: 0 <= j < |draws| ==> |draws[j]| == VectorLength
    ensures |hashes| <= count
    ensures forall i, j :: 0 <= i < j < |hashes| ==> hashes[i] != hashes[j]
    ensures forall i :: 0 <= i < |hashes| ==> hashes[i] !in history
    ensures updated == history + set h | h in hashes
    ensures forall i :: 0 <= i < |hashes| ==> Drawn(hashes[i], draws)
    ensures |hashes| < count ==> forall j :: 0 <= j < |draws| ==> HashOfDraw(draws[j]) in updated
  {
    hashes := [];
    updated := history;
    var next := 0;
    ghost var from: seq<nat> := [];
    while |hashes| < count && next < |draws|
      invariant 0 <= next <= |draws|
      invariant |hashes| <= count
      invariant forall i, j :: 0 <= i < j < |hashes| ==> hashes[i] != hashes[j]
      invariant forall i :: 0 <= i < |hashes| ==> hashes[i] !in history
      invariant updated == history + set h | h in hashes
      invariant |from| == |hashes|
      invariant forall i :: 0 <= i < |hashes| ==> from[i] < next && hashes[i] == HashOfDraw(draws[from[i]])
      invariant forall j :: 0 <= j < next ==> HashOfDraw(draws[j]) in updated
    {
      var newHash := HashOfDraw(draws[next]);
      if newHash !in updated {
        AddFresh(history, hashes, updated, newHash);
        updated := updated + {newHash};
        hashes := hashes + [newHash];
        from := from + [next];
      }
      next := next + 1;
    }
    forall i | 0 <= i < |hashes|
      ensures Drawn(hashes[i], draws)
    {
      assert |draws[from[i]]| == VectorLength;
    }
  }
}
