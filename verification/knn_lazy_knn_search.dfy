/**
 * The `knn` package's lazy KNN search: the query is a sparse vector with 1-based positions,
 * hashed into a printed bucket signature; every stored line of the filtered files is scored by
 * the Hamming distance of its signature to the query's, and the `k` nearest are written out as
 * `distance<TAB>payload`.
 */
module KnnLazyKnnSearch {
  import opened JavaStrings
  import opened Numerics
  import opened Vectors
  import opened SparseVectors
  import opened Signatures
  import opened Ranking

  /** `hashed`: positions start at 1 (`hash[pos - 1]`); the bucket is the truncated quotient. */
  function Hashed(sv: seq<SparseEntry>, hash: seq<real>, width: int): (r: int)
    requires InRange(sv, |hash|, 1)
    ensures IntMin <= r <= IntMax
    ensures r == Bucket(Dot(Expand(sv, |hash|, 1), hash, |hash|), width)
  {
    SparseHashedIsDense(sv, hash, width, 1);
    SparseHashed(sv, hash, width, 1)
  }

  /** `calculateSignature`: entry `h` is the printed bucket of the query under hash row `h`. */
  method CalculateSignature(searchVector: seq<SparseEntry>, hashFunction: seq<seq<real>>, width: int)
    returns (signature: seq<string>)
    requires FitsAll(searchVector, hashFunction, 1)
    ensures |signature| == |hashFunction|
    ensures forall h :: 0 <= h < |hashFunction| ==> signature[h] == IntToString(Hashed(searchVector, hashFunction[h], width))
    ensures signature == Render(Buckets(searchVector, hashFunction, width, 1))
  {
    signature := SparseSignature(searchVector, hashFunction, width, 1);
    forall h | 0 <= h < |hashFunction|
      ensures signature[h] == IntToString(Hashed(searchVector, hashFunction[h], width))
    {
      assert Buckets(searchVector, hashFunction, width, 1)[h] == SparseHashed(searchVector, hashFunction[h], width, 1);
    }
  }

  /**
   * Two vectors' printed signatures differ in as many bands as their buckets do, so the
   * text distance the search ranks by is the bucket distance.
   */
  lemma SignatureDistanceIsBucketDistance(a: seq<SparseEntry>, b: seq<SparseEntry>, hashFunction: seq<seq<real>>, width: int)
    requires FitsAll(a, hashFunction, 1) && FitsAll(b, hashFunction, 1)
    ensures Mismatches(Render(Buckets(a, hashFunction, width, 1)), Render(Buckets(b, hashFunction, width, 1)), |hashFunction|)
         == Mismatches(Buckets(a, hashFunction, width, 1), Buckets(b, hashFunction, width, 1), |hashFunction|)
  {
    MismatchesOfRendered(Buckets(a, hashFunction, width, 1), Buckets(b, hashFunction, width, 1), |hashFunction|);
  }

  /** The pair `searchInFile` builds for one stored line: its distance and its payload. */
  function Scored(line: string, searchSignature: seq<string>): (p: Ranked<string>)
    requires Readable(line, searchSignature)
    ensures p.distance <= |searchSignature|
  {
    Ranked(LineDistance(line, searchSignature), EntryOf(line))
  }

  /**
   * `searchInFile`: one pair per line of the file, in line order, appended after the pairs of
   * the files searched before.
   */
  method SearchInFile(knnDistances: seq<Ranked<string>>, lines: seq<string>, searchSignature: seq<string>)
    returns (r: seq<Ranked<string>>)
    requires forall j :: 0 <= j < |lines| ==> Readable(lines[j], searchSignature)
    ensures |r| == |knnDistances| + |lines|
    ensures r[..|knnDistances|] == knnDistances
    ensures forall j :: 0 <= j < |lines| ==>
      r[|knnDistances| + j] == Ranked(LineDistance(lines[j], searchSignature), EntryOf(lines[j]))
  {
    r := knnDistances;
    var j := 0;
    while j < |lines|
      invariant 0 <= j <= |lines|
      invariant |r| == |knnDistances| + j
      invariant r[..|knnDistances|] == knnDistances
      invariant forall m :: 0 <= m < j ==> r[|knnDistances| + m] == Scored(lines[m], searchSignature)
    {
      var dist := HammingDistance(searchSignature, SignatureOf(lines[j]));
      var pair := Ranked(dist, EntryOf(lines[j]));
      assert pair == Scored(lines[j], searchSignature);
      r := r + [pair];
      j := j + 1;
    }
  }

  /** One output line of `getNeighbours`: the distance, a tab, the payload. */
  function FormatNeighbour(p: Ranked<string>): string
  {
    IntToString(p.distance) + "\t" + p.item
  }

  /** An output line reads back as the distance and the payload it was written from. */
  lemma NeighbourLineDecodes(p: Ranked<string>)
    ensures '\t' in FormatNeighbour(p)
    ensures Before(FormatNeighbour(p), '\t') == IntToString(p.distance)
    ensures EntryOf(FormatNeighbour(p)) == p.item
  {
    var text := IntToString(p.distance);
    assert FormatNeighbour(p) == text + ['\t'] + p.item;
    SplitAtFirstOfConcat(text, '\t', p.item);
    assert FormatNeighbour(p)[|text|] == '\t';
  }

  /**
   * `getNeighbours`: sorts the pairs by distance (stably) and writes the first `k` of them. A `k`
   * beyond the number of pairs makes `get` throw, hence the precondition; a `k` of 0 or less
   * writes nothing.
   */
  method GetNeighbours(knnDistances: seq<Ranked<string>>, k: int) returns (out: seq<string>)
    requires k <= |knnDistances|
    ensures k <= 0 ==> out == []
    ensures 0 <= k ==> |out| == k
    ensures forall i :: 0 <= i < k ==> out[i] == FormatNeighbour(Sort(knnDistances)[i])
  {
    var sorted := Sort(knnDistances);
    out := [];
    var i := 0;
    while i < k
      invariant 0 <= k ==> 0 <= i <= k
      invariant k < 0 ==> i == 0
      invariant |out| == i
      invariant forall m :: 0 <= m < i ==> out[m] == FormatNeighbour(sorted[m])
    {
      out := out + [FormatNeighbour(sorted[i])];
      i := i + 1;
    }
  }

  /**
   * What the written neighbours mean: the `k` pairs written are the first `k` after sorting, their
   * distances are non-decreasing down the file, every pair not written is at least as far as every
   * pair written, and each line decodes to its pair.
   */
  lemma NeighboursAreNearest(knnDistances: seq<Ranked<string>>, k: nat)
    requires k <= |knnDistances|
    ensures var top := TopK(knnDistances, k);
      && (forall i :: 0 <= i < k ==> top[i] == Sort(knnDistances)[i])
      && (forall i, j :: 0 <= i < j < k ==> top[i].distance <= top[j].distance)
      && (forall y, i :: y in multiset(knnDistances) - multiset(top) && 0 <= i < k ==> top[i].distance <= y.distance)
      && (forall i :: 0 <= i < k ==> EntryOf(FormatNeighbour(top[i])) == top[i].item)
  {
    var top := TopK(knnDistances, k);
    forall i | 0 <= i < k
      ensures EntryOf(FormatNeighbour(top[i])) == top[i].item
    {
      NeighbourLineDecodes(top[i]);
    }
  }
}
