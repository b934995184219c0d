/**
 * Bucket signatures as text, the way both lazy KNN searches compute, store and compare them:
 * one decimal string per band; a stored line is the bands joined by commas, a tab, and the
 * record's payload.
 */
module Signatures {
  import opened JavaStrings
  import opened Numerics
  import opened Vectors
  import opened SparseVectors

  /** The number of positions below `n` where `a` and `b` differ. */
  function Mismatches<T(==)>(a: seq<T>, b: seq<T>, n: nat): (r: nat)
    requires n <= |a| && n <= |b|
    ensures r <= n
  {
    if n == 0 then 0 else Mismatches(a, b, n - 1) + (if a[n - 1] != b[n - 1] then 1 else 0)
  }

  /** No mismatch exactly when the two agree on the first `n` positions. */
  lemma {:induction false} MismatchesZeroIff<T>(a: seq<T>, b: seq<T>, n: nat)
    requires n <= |a| && n <= |b|
    ensures Mismatches(a, b, n) == 0 <==> a[..n] == b[..n]
  {
    if n > 0 {
      MismatchesZeroIff(a, b, n - 1);
      assert a[..n] == a[..n - 1] + [a[n - 1]];
      assert b[..n] == b[..n - 1] + [b[n - 1]];
      if a[..n] == b[..n] {
        assert a[..n - 1] == a[..n][..n - 1] == b[..n][..n - 1] == b[..n - 1];
        assert a[n - 1] == a[..n][n - 1] == b[..n][n - 1] == b[n - 1];
      }
    }
  }

  lemma {:induction false} MismatchesSymmetric<T>(a: seq<T>, b: seq<T>, n: nat)
    requires n <= |a| && n <= |b|
    ensures Mismatches(a, b, n) == Mismatches(b, a, n)
  {
    if n > 0 {
      MismatchesSymmetric(a, b, n - 1);
    }
  }

  /**
   * `getHammingDistance` with `equals`: the positions of the search signature at which the stored
   * signature holds a different string. An index past the stored signature throws, hence the
   * precondition.
   */
  method HammingDistance(searchSignature: seq<string>, entry: seq<string>) returns (dist: nat)
    requires |searchSignature| <= |entry|
    ensures dist == Mismatches(searchSignature, entry, |searchSignature|)
    ensures dist <= |searchSignature|
    ensures dist == 0 <==> entry[..|searchSignature|] == searchSignature
  {
    dist := 0;
    var i := 0;
    while i < |searchSignature|
      invariant 0 <= i <= |searchSignature|
      invariant dist == Mismatches(searchSignature, entry, i)
    {
      if searchSignature[i] != entry[i] {
        dist := dist + 1;
      }
      i := i + 1;
    }
    MismatchesZeroIff(searchSignature, entry, |searchSignature|);
    assert searchSignature[..|searchSignature|] == searchSignature;
  }

  /** Each bucket index printed with `"" + bucket`. */
  function Render(buckets: seq<int>): (r: seq<string>)
    ensures |r| == |buckets|
    ensures forall i :: 0 <= i < |r| ==> r[i] != "" && ',' !in r[i] && '\t' !in r[i]
  {
    seq(|buckets|, i requires 0 <= i < |buckets| => IntToString(buckets[i]))
  }

  /** Comparing printed signatures is comparing the buckets: the text distance is the bucket distance. */
  lemma MismatchesOfRendered(a: seq<int>, b: seq<int>, n: nat)
    requires n <= |a| && n <= |b|
    ensures Mismatches(Render(a), Render(b), n) == Mismatches(a, b, n)
  {
    forall i | 0 <= i < n
      ensures (Render(a)[i] != Render(b)[i]) == (a[i] != b[i])
    {
      RenderedDiffer(a, b, i);
    }
    MismatchesOfPointwise(Render(a), Render(b), a, b, n);
  }

  /** Two pairs of sequences that differ at the same positions have the same mismatch count. */
  lemma {:induction false} MismatchesOfPointwise<T, U>(a: seq<T>, b: seq<T>, c: seq<U>, d: seq<U>, n: nat)
    requires n <= |a| && n <= |b| && n <= |c| && n <= |d|
    requires forall i :: 0 <= i < n ==> (a[i] != b[i]) == (c[i] != d[i])
    ensures Mismatches(a, b, n) == Mismatches(c, d, n)
  {
    if n > 0 {
      MismatchesOfPointwise(a, b, c, d, n - 1);
    }
  }

  /** Position `i` of two printed signatures differs exactly when the buckets there differ. */
  lemma RenderedDiffer(a: seq<int>, b: seq<int>, i: nat)
    requires i < |a| && i < |b|
    ensures (Render(a)[i] != Render(b)[i]) == (a[i] != b[i])
  {
    assert Render(a)[i] == IntToString(a[i]) && Render(b)[i] == IntToString(b[i]);
    IntToStringInjective(a[i], b[i]);
  }

  lemma RenderInjective(a: seq<int>, b: seq<int>)
    ensures Render(a) == Render(b) <==> a == b
  {
    if Render(a) == Render(b) {
      forall i | 0 <= i < |a|
        ensures a[i] == b[i]
      {
        assert Render(a)[i] == Render(b)[i];
        IntToStringInjective(a[i], b[i]);
      }
    }
  }

  /** `hashed` for positions counted from `base`: the bucket of the sparse sum. */
  function SparseHashed(sv: seq<SparseEntry>, hash: seq<real>, width: int, base: int): (r: int)
    requires InRange(sv, |hash|, base)
    ensures IntMin <= r <= IntMax
  {
    Bucket(SparseDot(sv, hash, base), width)
  }

  /** The sparse `hashed` is the bucket of the dense dot product, for either position base. */
  lemma SparseHashedIsDense(sv: seq<SparseEntry>, hash: seq<real>, width: int, base: int)
    requires InRange(sv, |hash|, base)
    ensures SparseHashed(sv, hash, width, base) == Bucket(Dot(Expand(sv, |hash|, base), hash, |hash|), width)
  {
    SparseDotIsDenseDot(sv, hash, base);
  }

  /** Every position of `sv` indexes every hash row. */
  predicate FitsAll(sv: seq<SparseEntry>, hashFunction: seq<seq<real>>, base: int)
  {
    forall h :: 0 <= h < |hashFunction| ==> InRange(sv, |hashFunction[h]|, base)
  }

  /** The bucket of `sv` under every hash row, in order. */
  function Buckets(sv: seq<SparseEntry>, hashFunction: seq<seq<real>>, width: int, base: int): (r: seq<int>)
    requires FitsAll(sv, hashFunction, base)
    ensures |r| == |hashFunction|
  {
    seq(|hashFunction|, h requires 0 <= h < |hashFunction| => SparseHashed(sv, hashFunction[h], width, base))
  }

  /** `calculateSignature` for positions counted from `base`: each hash row's bucket, printed with `"" + bucket`. */
  method SparseSignature(sv: seq<SparseEntry>, hashFunction: seq<seq<real>>, width: int, base: int)
    returns (signature: seq<string>)
    requires FitsAll(sv, hashFunction, base)
    ensures |signature| == |hashFunction|
    ensures signature == Render(Buckets(sv, hashFunction, width, base))
  {
    ghost var buckets := Buckets(sv, hashFunction, width, base);
    var computed: seq<int> := [];
    var h := 0;
    while h < |hashFunction|
      invariant 0 <= h <= |hashFunction|
      invariant computed == buckets[..h]
    {
      computed := computed + [SparseHashed(sv, hashFunction[h], width, base)];
      h := h + 1;
    }
    assert computed == buckets;
    signature := Render(computed);
  }

  /** `getSignature`: the text before the first tab, split at commas. */
  function SignatureOf(line: string): (r: seq<string>)
    requires '\t' in line
    ensures forall i :: 0 <= i < |r| ==> ',' !in r[i] && '\t' !in r[i]
  {
    var prefix := Before(line, '\t');
    assert forall i :: 0 <= i < |Split(prefix, ',')| ==> '\t' !in Split(prefix, ',')[i] by {
      SplitKeepsOut(prefix, ',', '\t');
    }
    Split(prefix, ',')
  }

  /** `getEntry`: the text after the first tab; the whole line when it has none. */
  function EntryOf(line: string): (r: string)
    ensures '\t' !in line ==> r == line
    ensures '\t' in line ==> Before(line, '\t') + "\t" + r == line
  {
    if '\t' in line then
      SplitAtFirstReconstructs(line, '\t');
      After(line, '\t')
    else
      After(line, '\t')
  }

  /** A stored line whose signature the search signature can be compared against without an exception. */
  predicate Readable(line: string, searchSignature: seq<string>)
  {
    '\t' in line && |searchSignature| <= |SignatureOf(line)|
  }

  /** The Hamming distance of a readable stored line to the search signature. */
  function LineDistance(line: string, searchSignature: seq<string>): (d: nat)
    requires Readable(line, searchSignature)
    ensures d <= |searchSignature|
  {
    Mismatches(searchSignature, SignatureOf(line), |searchSignature|)
  }

  /** A stored line: the bands joined by commas, a tab, then the payload. */
  function FormatLine(signature: seq<string>, entry: string): string
    requires |signature| >= 1
  {
    Join(signature, ',') + "\t" + entry
  }

  /** The line format round-trips: a formatted line reads back as its bands and its payload. */
  lemma ParseFormattedLine(signature: seq<string>, entry: string)
    requires |signature| >= 1
    requires forall i :: 0 <= i < |signature| ==> ',' !in signature[i] && '\t' !in signature[i]
    requires signature[|signature| - 1] != ""
    ensures '\t' in FormatLine(signature, entry)
    ensures SignatureOf(FormatLine(signature, entry)) == signature
    ensures EntryOf(FormatLine(signature, entry)) == entry
  {
    var joined := Join(signature, ',');
    JoinKeepsOut(signature, ',', '\t');
    SplitAtFirstOfConcat(joined, '\t', entry);
    assert FormatLine(signature, entry) == joined + ['\t'] + entry;
    assert FormatLine(signature, entry)[|joined|] == '\t';
    SplitOfJoin(signature, ',');
  }

  /** A line whose signature is the search signature is at distance 0 from it. */
  lemma OwnSignatureIsNearest(signature: seq<string>, entry: string)
    requires |signature| >= 1
    requires forall i :: 0 <= i < |signature| ==> ',' !in signature[i] && '\t' !in signature[i]
    requires signature[|signature| - 1] != ""
    ensures Readable(FormatLine(signature, entry), signature)
    ensures LineDistance(FormatLine(signature, entry), signature) == 0
  {
    ParseFormattedLine(signature, entry);
    MismatchesZeroIff(signature, signature, |signature|);
  }

  /** Joining strings that avoid `c` with a separator other than `c` yields a string without `c`. */
  lemma {:induction false} JoinKeepsOut(xs: seq<string>, sep: char, c: char)
    requires |xs| >= 1 && sep != c
    requires forall i :: 0 <= i < |xs| ==> c !in xs[i]
    ensures c !in Join(xs, sep)
  {
    if |xs| > 1 {
      JoinKeepsOut(xs[1..], sep, c);
    }
  }

  /** The pieces of a string without `c` are without `c`. */
  lemma SplitKeepsOut(s: string, sep: char, c: char)
    requires c !in s
    ensures forall i :: 0 <= i < |Split(s, sep)| ==> c !in Split(s, sep)[i]
  {
    if sep in s {
      PiecesKeepOut(s, sep, c);
    }
  }

  lemma {:induction false} PiecesKeepOut(s: string, sep: char, c: char)
    requires c !in s
    ensures forall i :: 0 <= i < |Pieces(s, sep)| ==> c !in Pieces(s, sep)[i]
    decreases |s|
  {
    if sep in s {
      var before, after := Before(s, sep), After(s, sep);
      SplitAtFirstReconstructs(s, sep);
      assert forall x :: x in before ==> x in s;
      assert forall x :: x in after ==> x in s;
      PiecesKeepOut(after, sep, c);
    }
  }
}
