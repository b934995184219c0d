/**
 * The Euclidean job: every hash is a random projection vector; a vector's signature is,
 * per projection, the bucket `(int)(dot / BUCKET_WIDTH)`. The mapper emits a record's label
 * only when its bucket equals the query's in every band (AND-construction), stopping at the
 * first mismatch; the reducer (also used as combiner) writes each key once per value.
 */
module EuclideanLsh {
  import opened Numerics
  import opened Vectors
  import opened JavaStrings
  import opened Wrappers

  /** `hashed`: the bucket of the projection of `v` onto `hash`, over the first `|hash|` components. */
  function Hashed(v: seq<real>, hash: seq<real>, width: int): (r: int)
    requires |hash| <= |v|
    ensures IntMin <= r <= IntMax
    ensures 0 < width && -(width as real) < Dot(v, hash, |hash|) < width as real ==> r == 0
  {
    Bucket(Dot(v, hash, |hash|), width)
  }

  /** Every projection is no longer than the vector (else `vector[i]` is out of bounds). */
  predicate RowsFit(v: seq<real>, hashFunction: seq<seq<real>>)
  {
    forall h :: 0 <= h < |hashFunction| ==> |hashFunction[h]| <= |v|
  }

  /** The signature of `v`: its bucket under every projection, in order. */
  function Signature(v: seq<real>, hashFunction: seq<seq<real>>, width: int): seq<int>
    requires RowsFit(v, hashFunction)
  {
    seq(|hashFunction|, h requires 0 <= h < |hashFunction| => Hashed(v, hashFunction[h], width))
  }

  /**
   * `calculateSignature`, which repeats `hashed`'s projection inline rather than calling it.
   * Its entries agree with `hashed` band by band, so the query (encoded here) and the records
   * (encoded by the mapper through `hashed`) are encoded alike.
   */
  method CalculateSignature(v: seq<real>, hashFunction: seq<seq<real>>, width: int) returns (signature: seq<int>)
    requires RowsFit(v, hashFunction)
    ensures |signature| == |hashFunction|
    ensures forall h :: 0 <= h < |hashFunction| ==> signature[h] == Hashed(v, hashFunction[h], width)
    ensures signature == Signature(v, hashFunction, width)
  {
    signature := [];
    var h := 0;
    while h < |hashFunction|
      invariant 0 <= h <= |hashFunction|
      invariant |signature| == h
      invariant forall k :: 0 <= k < h ==> signature[k] == Hashed(v, hashFunction[k], width)
    {
      var scalar := 0.0;
      var i := 0;
      while i < |hashFunction[h]|
        invariant 0 <= i <= |hashFunction[h]|
        invariant scalar == Dot(v, hashFunction[h], i)
      {
        scalar := scalar + v[i] * hashFunction[h][i];
        i := i + 1;
      }
      signature := signature + [Bucket(scalar, width)];
      h := h + 1;
    }
  }

  /** The record's bucket equals the query's in every band. */
  predicate AllBandsMatch(v: seq<real>, hashFunction: seq<seq<real>>, searchSig: seq<int>, width: int)
    requires RowsFit(v, hashFunction) && |hashFunction| <= |searchSig|
  {
    forall i :: 0 <= i < |hashFunction| ==> Hashed(v, hashFunction[i], width) == searchSig[i]
  }

  /**
   * `HashSignatureMapper.map`: the label is the text before the first tab and the vector is
   * parsed (by `parse`, standing for `parseDoubleArr(vect.split(","))`) from the text after it.
   * The early return on the first mismatching band decides exactly as checking every band.
   */
  method Map(line: string, hashFunction: seq<seq<real>>, searchSig: seq<int>, width: int, parse: string -> seq<real>)
    returns (emitted: Option<string>)
    requires '\t' in line
    requires RowsFit(parse(After(line, '\t')), hashFunction)
    requires |hashFunction| <= |searchSig|
    ensures emitted.Some? <==> AllBandsMatch(parse(After(line, '\t')), hashFunction, searchSig, width)
    ensures emitted.Some? ==> emitted.value == Before(line, '\t')
    ensures |hashFunction| == 0 ==> emitted == Some(Before(line, '\t'))
  {
    var className := Before(line, '\t');
    var vect := After(line, '\t');
    var inputVector := parse(vect);
    var i := 0;
    while i < |hashFunction|
      invariant 0 <= i <= |hashFunction|
      invariant forall j :: 0 <= j < i ==> Hashed(inputVector, hashFunction[j], width) == searchSig[j]
    {
      if Hashed(inputVector, hashFunction[i], width) != searchSig[i] {
        return None;
      }
      i := i + 1;
    }
    return Some(className);
  }

  /** Band-by-band matching is equality of the record's signature with the query's. */
  lemma AllBandsMatchIffSignatureEqual(v: seq<real>, hashFunction: seq<seq<real>>, searchSig: seq<int>, width: int)
    requires RowsFit(v, hashFunction) && |hashFunction| <= |searchSig|
    ensures AllBandsMatch(v, hashFunction, searchSig, width) <==> Signature(v, hashFunction, width) == searchSig[..|hashFunction|]
  {
    if AllBandsMatch(v, hashFunction, searchSig, width) {
      assert forall i :: 0 <= i < |hashFunction| ==> Signature(v, hashFunction, width)[i] == searchSig[..|hashFunction|][i];
    }
    if Signature(v, hashFunction, width) == searchSig[..|hashFunction|] {
      forall i | 0 <= i < |hashFunction|
        ensures Hashed(v, hashFunction[i], width) == searchSig[i]
      {
        assert Signature(v, hashFunction, width)[i] == searchSig[..|hashFunction|][i];
      }
    }
  }

  /**
   * A record whose vector is the search vector always matches the query signature the driver
   * computed from it with the same projections and width.
   */
  lemma SearchVectorAlwaysMatches(v: seq<real>, hashFunction: seq<seq<real>>, width: int)
    requires RowsFit(v, hashFunction)
    ensures AllBandsMatch(v, hashFunction, Signature(v, hashFunction, width), width)
  {
    AllBandsMatchIffSignatureEqual(v, hashFunction, Signature(v, hashFunction, width), width);
  }

  /**
   * `MyReducer.reduce` (also the combiner): the key is written once per incoming value, so the
   * number of output records equals the number of input records for that key.
   */
  method Reduce(key: string, values: seq<string>) returns (out: seq<string>)
    ensures |out| == |values|
    ensures forall k :: 0 <= k < |out| ==> out[k] == key
  {
    out := [];
    var j := 0;
    while j < |values|
      invariant 0 <= j <= |values|
      invariant |out| == j
      invariant forall k :: 0 <= k < j ==> out[k] == key
    {
      out := out + [key];
      j := j + 1;
    }
  }

  /** A projection before normalisation: the first `vectorLength` draws, each shifted down by 0.5. */
  function Center(draw: seq<real>, vectorLength: nat): (r: seq<real>)
    requires vectorLength <= |draw|
    ensures |r| == vectorLength
  {
    seq(vectorLength, j requires 0 <= j < vectorLength => draw[j] - 0.5)
  }

  /** `m` is the Euclidean length of `v`, i.e. the square root of its sum of squares. */
  predicate IsMagnitude(m: real, v: seq<real>)
  {
    0.0 < m && m * m == SumOfSquares(v)
  }

  /**
   * `generateRandomHash`, with `Math.random` replaced by the explicit `draws` and `Math.sqrt` by
   * the explicit `magnitudes`, and with the sum-of-squares normalisation (the source sums the raw
   * components; see `Vectors.RawSumMagnitudeIsNotUnit`). It yields `signatureLength` projections
   * of `vectorLength` components, each a unit vector pointing along its centred draw.
   */
  method GenerateRandomHash(draws: seq<seq<real>>, magnitudes: seq<real>, signatureLength: nat, vectorLength: nat)
    returns (hashes: seq<seq<real>>)
    requires signatureLength <= |draws| && signatureLength <= |magnitudes|
    requires forall i :: 0 <= i < signatureLength ==>
      vectorLength <= |draws[i]| && IsMagnitude(magnitudes[i], Center(draws[i], vectorLength))
    ensures |hashes| == signatureLength
    ensures forall i :: 0 <= i < signatureLength ==> UnitAlongDraw(hashes[i], draws[i], magnitudes[i], vectorLength)
  {
    hashes := [];
    var i := 0;
    while i < signatureLength
      invariant 0 <= i <= signatureLength
      invariant |hashes| == i
      invariant forall k :: 0 <= k < i ==> UnitAlongDraw(hashes[k], draws[k], magnitudes[k], vectorLength)
    {
      hashes := hashes + [HashRow(draws[i], magnitudes[i], vectorLength)];
      i := i + 1;
    }
  }

  /**
   * `row` is a unit vector of `vectorLength` components pointing along the centred `draw`:
   * scaled back by `magnitude` it gives the centred draw.
   */
  predicate UnitAlongDraw(row: seq<real>, draw: seq<real>, magnitude: real, vectorLength: nat)
  {
    && |row| == vectorLength <= |draw|
    && SumOfSquares(row) == 1.0
    && forall j :: 0 <= j < vectorLength ==> row[j] * magnitude == draw[j] - 0.5
  }

  /** One normalised projection: the centred draw divided by its magnitude. */
  function HashRow(draw: seq<real>, magnitude: real, vectorLength: nat): (r: seq<real>)
    requires vectorLength <= |draw| && IsMagnitude(magnitude, Center(draw, vectorLength))
    ensures UnitAlongDraw(r, draw, magnitude, vectorLength)
  {
    var row := Center(draw, vectorLength);
    NormalizeIsUnit(row, magnitude);
    NormalizeUndoesScale(row, magnitude);
    Normalize(row, magnitude)
  }

  lemma NormalizeUndoesScale(v: seq<real>, m: real)
    requires m != 0.0
    ensures forall j :: 0 <= j < |v| ==> Normalize(v, m)[j] * m == v[j]
  {
    forall j | 0 <= j < |v|
      ensures Normalize(v, m)[j] * m == v[j]
    {
      DivideThenMultiply(v[j], m);
    }
  }

  lemma DivideThenMultiply(x: real, m: real)
    requires m != 0.0
    ensures (1.0 / m * x) * m == x
  {
  }
}
