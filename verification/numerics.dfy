/**
 * Java's numeric conversions as the LSH code uses them, over idealised `real` arithmetic:
 * the `(int)` narrowing of a double and the bucket index `(int)(scalar / width)` where
 * `width` is a Java `int` promoted to double.
 */
module Numerics {

  const IntMin: int := -0x8000_0000
  const IntMax: int := 0x7fff_ffff

  /** Rounds toward zero, the first half of Java's double-to-int narrowing. */
  function Truncate(x: real): (r: int)
    ensures 0.0 <= x ==> 0 <= r && r as real <= x < r as real + 1.0
    ensures x < 0.0 ==> r <= 0 && r as real - 1.0 < x <= r as real
  {
    if x >= 0.0 then x.Floor else -((-x).Floor)
  }

  /** Java's `(int)` of a finite double: truncation toward zero, saturating at the int range. */
  function ToJavaInt(x: real): (r: int)
    ensures IntMin <= r <= IntMax
    ensures IntMin <= Truncate(x) <= IntMax ==> r == Truncate(x)
    ensures Truncate(x) < IntMin ==> r == IntMin
    ensures IntMax < Truncate(x) ==> r == IntMax
  {
    var t := Truncate(x);
    if t < IntMin then IntMin else if t > IntMax then IntMax else t
  }

  /**
   * `(int)(scalar / width)`. A zero width divides in floating point: a positive scalar
   * gives +Infinity (narrowed to IntMax), a negative one -Infinity (IntMin), and 0/0 is
   * NaN, which Java narrows to 0.
   */
  function Bucket(scalar: real, width: int): (r: int)
    ensures IntMin <= r <= IntMax
    ensures 0 < width && -(width as real) < scalar < width as real ==> r == 0
    ensures width < 0 && (width as real) < scalar < -(width as real) ==> r == 0
    ensures width == 0 && scalar > 0.0 ==> r == IntMax
    ensures width == 0 && scalar < 0.0 ==> r == IntMin
    ensures width == 0 && scalar == 0.0 ==> r == 0
  {
    if width == 0 then
      (if scalar > 0.0 then IntMax else if scalar < 0.0 then IntMin else 0)
    else
      QuotientNearZero(scalar, width as real);
      ToJavaInt(scalar / width as real)
  }

  /** A scalar less than one width away from zero has a quotient strictly inside (-1, 1). */
  lemma QuotientNearZero(scalar: real, w: real)
    requires w != 0.0
    ensures -(if w < 0.0 then -w else w) < scalar < (if w < 0.0 then -w else w) ==> -1.0 < scalar / w < 1.0
  {
    var q := scalar / w;
    assert q * w == scalar;
    if w > 0.0 && -w < scalar < w {
      if q >= 1.0 { MulMono(q, 1.0, w); assert false; }
      if q <= -1.0 { MulMono(-1.0, q, w); assert false; }
    } else if w < 0.0 && w < scalar < -w {
      if q >= 1.0 { MulMono(q, 1.0, -w); assert false; }
      if q <= -1.0 { MulMono(-1.0, q, -w); assert false; }
    }
  }

  /** Multiplying by a positive factor preserves order. */
  lemma MulMono(a: real, b: real, c: real)
    requires b <= a && 0.0 < c
    ensures b * c <= a * c
  {
    assert (a - b) * c >= 0.0;
  }

  /** Multiplying by a positive factor preserves strict order. */
  lemma MulStrict(a: real, b: real, c: real)
    requires b < a && 0.0 < c
    ensures b * c < a * c
  {
    assert (a - b) * c > 0.0;
  }

  /** The bucket of the p-stable LSH scheme, `floor(a . v / w)`: mathematical floor instead of truncation. */
  function FloorBucket(scalar: real, width: int): (r: int)
    requires 0 < width
    ensures (r * width) as real <= scalar < ((r + 1) * width) as real
  {
    var w := width as real;
    var q := scalar / w;
    var r := q.Floor;
    assert (r * width) as real == r as real * w;
    assert ((r + 1) * width) as real == (r as real + 1.0) * w;
    assert scalar == q * w;
    MulMono(q, r as real, w);
    assert q < r as real + 1.0;
    MulStrict(r as real + 1.0, q, w);
    assert scalar < ((r + 1) * width) as real;
    r
  }

  /**
   * Truncation is odd-symmetric: negating the scalar negates the bucket, so bucket 0 is
   * the only bucket that straddles zero.
   */
  lemma TruncateIsOdd(x: real)
    ensures Truncate(-x) == -Truncate(x)
  {
    if x == 0.0 {
    } else if x > 0.0 {
      assert -(-x) == x;
    } else {
      assert -(-x) == x;
    }
  }

  /**
   * Away from the clamp, `Bucket` rounds the quotient toward zero: `r * width` lies between
   * 0 and the scalar, less than one width away from it.
   */
  lemma BucketIsTruncatedQuotient(scalar: real, width: int)
    requires 0 < width
    requires IntMin <= Truncate(scalar / width as real) <= IntMax
    ensures var r := Bucket(scalar, width) as real; var w := width as real;
      if 0.0 <= scalar then 0.0 <= r * w <= scalar < r * w + w
      else r * w - w < scalar <= r * w <= 0.0
  {
    var w := width as real;
    var q := scalar / w;
    assert scalar == q * w;
    TruncatedProductBracket(scalar, q, w);
  }

  /** Division-free core of `BucketIsTruncatedQuotient`, with `q` the quotient of `scalar` by `w`. */
  lemma TruncatedProductBracket(scalar: real, q: real, w: real)
    requires 0.0 < w && scalar == q * w
    ensures var r := Truncate(q) as real;
      if 0.0 <= scalar then 0.0 <= r * w <= scalar < r * w + w
      else r * w - w < scalar <= r * w <= 0.0
  {
    var r := Truncate(q) as real;
    if 0.0 <= scalar {
      if q < 0.0 { MulStrict(0.0, q, w); assert false; }
      BracketAbove(scalar, q, r, w);
    } else {
      if q >= 0.0 { MulMono(q, 0.0, w); assert false; }
      BracketBelow(scalar, q, r, w);
    }
  }

  /** A non-negative quotient and its truncation `r`: `r * w` is within one `w` below the scalar. */
  lemma BracketAbove(scalar: real, q: real, r: real, w: real)
    requires 0.0 < w && scalar == q * w && 0.0 <= r <= q < r + 1.0
    ensures 0.0 <= r * w <= scalar < r * w + w
  {
    MulMono(r, 0.0, w);
    MulMono(q, r, w);
    MulStrict(r + 1.0, q, w);
    calc {
      scalar;
    ==
      q * w;
    <
      (r + 1.0) * w;
    ==
      r * w + w;
    }
  }

  /** A negative quotient and its truncation `r`: `r * w` is within one `w` above the scalar. */
  lemma BracketBelow(scalar: real, q: real, r: real, w: real)
    requires 0.0 < w && scalar == q * w && r - 1.0 < q <= r <= 0.0
    ensures r * w - w < scalar <= r * w <= 0.0
  {
    MulMono(0.0, r, w);
    MulMono(r, q, w);
    MulStrict(q, r - 1.0, w);
    calc {
      r * w - w;
    ==
      (r - 1.0) * w;
    <
      q * w;
    ==
      scalar;
    }
  }

  /**
   * The code truncates where the LSH scheme floors: every scalar strictly inside
   * `(-width, width)` lands in bucket 0, so bucket 0 is twice as wide as every other
   * bucket, and the scalar `-width/2` is one input on which the two disagree.
   */
  lemma TruncationWidensBucketZero(width: int)
    requires 0 < width
    ensures Bucket(-(width as real) / 2.0, width) == 0
    ensures FloorBucket(-(width as real) / 2.0, width) == -1
    ensures Bucket(-(width as real), width) == -1 && Bucket(width as real, width) == 1
  {
    var w := width as real;
    assert (-w / 2.0) / w == -0.5;
    assert -w / w == -1.0;
    assert w / w == 1.0;
    assert Truncate(-0.5) == 0;
    assert Truncate(-1.0) == -1;
  }
}
