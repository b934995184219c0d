/**
 * The `java.lang.String` operations the LSH code uses to cut records apart and to print
 * bucket indices: `indexOf`, the two `substring`s around the first separator, `split`
 * (which drops trailing empty pieces) and `"" + int`.
 */
module JavaStrings {

  /** `s.indexOf(c)`: the first position holding `c`, or -1 when there is none. */
  function IndexOf(s: string, c: char): (r: int)
    ensures -1 <= r < |s|
    ensures r == -1 <==> c !in s
    ensures 0 <= r ==> s[r] == c && c !in s[..r]
  {
    if |s| == 0 then -1
    else if s[0] == c then 0
    else
      var k := IndexOf(s[1..], c);
      if k == -1 then -1
      else
        assert s[..k + 1] == [s[0]] + s[1..][..k];
        k + 1
  }

  /** `s.substring(0, s.indexOf(c))`: the text before the first `c`; Java throws when `c` is absent. */
  function Before(s: string, c: char): (r: string)
    requires c in s
    ensures c !in r && |r| < |s|
  {
    s[..IndexOf(s, c)]
  }

  /** `s.substring(s.indexOf(c) + 1)`: the text after the first `c`, or all of `s` when `c` is absent. */
  function After(s: string, c: char): (r: string)
    ensures c !in s ==> r == s
    ensures c in s ==> |r| < |s|
  {
    s[IndexOf(s, c) + 1..]
  }

  /** Cutting at the first separator loses nothing: the two halves and the separator rebuild the text. */
  lemma SplitAtFirstReconstructs(s: string, c: char)
    requires c in s
    ensures Before(s, c) + [c] + After(s, c) == s
  {
    var i := IndexOf(s, c);
    assert s == s[..i] + [s[i]] + s[i + 1..];
  }

  /**
   * The decoding direction: a text assembled as `head + c + tail` with no `c` in `head`
   * is cut back into exactly `head` and `tail`.
   */
  lemma {:induction false} SplitAtFirstOfConcat(head: string, c: char, tail: string)
    requires c !in head
    ensures IndexOf(head + [c] + tail, c) == |head|
    ensures Before(head + [c] + tail, c) == head
    ensures After(head + [c] + tail, c) == tail
  {
    var s := head + [c] + tail;
    if head == [] {
      assert s[0] == c;
    } else {
      assert s[1..] == head[1..] + [c] + tail;
      SplitAtFirstOfConcat(head[1..], c, tail);
    }
  }

  /** Every piece of `s` between occurrences of `sep`, empty pieces included. */
  function Pieces(s: string, sep: char): (r: seq<string>)
    ensures |r| >= 1
    ensures forall i :: 0 <= i < |r| ==> sep !in r[i]
    decreases |s|
  {
    if sep !in s then [s]
    else [Before(s, sep)] + Pieces(After(s, sep), sep)
  }

  /** The longest prefix of `ps` that does not end in an empty string. */
  function DropTrailingEmpty(ps: seq<string>): (r: seq<string>)
    ensures r <= ps
    ensures r == [] || r[|r| - 1] != ""
    ensures forall i :: |r| <= i < |ps| ==> ps[i] == ""
  {
    if ps == [] then []
    else if ps[|ps| - 1] == "" then DropTrailingEmpty(ps[..|ps| - 1])
    else ps
  }

  /**
   * Java's `s.split(sep)` for a separator that is not a regular-expression metacharacter:
   * without a match the result is `[s]`; otherwise the pieces, with trailing empty ones removed.
   */
  function Split(s: string, sep: char): (r: seq<string>)
    ensures forall i :: 0 <= i < |r| ==> sep !in r[i]
    ensures sep !in s ==> r == [s]
  {
    if sep !in s then [s] else DropTrailingEmpty(Pieces(s, sep))
  }

  /** The inverse of `Pieces`: the strings of `xs` separated by `sep`. */
  function Join(xs: seq<string>, sep: char): string
    requires |xs| >= 1
  {
    if |xs| == 1 then xs[0] else xs[0] + [sep] + Join(xs[1..], sep)
  }

  /** `Pieces` undoes `Join` when no element contains the separator. */
  lemma {:induction false} PiecesOfJoin(xs: seq<string>, sep: char)
    requires |xs| >= 1
    requires forall i :: 0 <= i < |xs| ==> sep !in xs[i]
    ensures Pieces(Join(xs, sep), sep) == xs
  {
    if |xs| > 1 {
      var tail := Join(xs[1..], sep);
      var joined := xs[0] + [sep] + tail;
      assert Join(xs, sep) == joined;
      assert joined[|xs[0]|] == sep;
      SplitAtFirstOfConcat(xs[0], sep, tail);
      calc {
        Pieces(joined, sep);
      ==
        [Before(joined, sep)] + Pieces(After(joined, sep), sep);
      ==
        [xs[0]] + Pieces(tail, sep);
      ==  { PiecesOfJoin(xs[1..], sep); }
        [xs[0]] + xs[1..];
      ==
        xs;
      }
    }
  }

  /**
   * `split` undoes `Join` when no element contains the separator and the last element is
   * non-empty (so nothing is dropped as a trailing empty string).
   */
  lemma SplitOfJoin(xs: seq<string>, sep: char)
    requires |xs| >= 1
    requires forall i :: 0 <= i < |xs| ==> sep !in xs[i]
    requires xs[|xs| - 1] != ""
    ensures Split(Join(xs, sep), sep) == xs
  {
    PiecesOfJoin(xs, sep);
    if |xs| == 1 {
    } else {
      assert Join(xs, sep)[|xs[0]|] == sep;
    }
  }

  function DigitChar(d: nat): (c: char)
    requires d < 10
    ensures '0' <= c <= '9'
  {
    ('0' as int + d) as char
  }

  /** Decimal digits of `n`, most significant first, without leading zeros. */
  function NatToString(n: nat): (r: string)
    ensures |r| >= 1
    ensures forall i :: 0 <= i < |r| ==> '0' <= r[i] <= '9'
    ensures 10 <= n ==> |r| >= 2
  {
    if n < 10 then [DigitChar(n)] else NatToString(n / 10) + [DigitChar(n % 10)]
  }

  /** Java's `"" + n` for an integer `n`: its decimal text, with a leading '-' when negative. */
  function IntToString(n: int): (r: string)
    ensures |r| >= 1
    ensures ',' !in r && '\t' !in r && ':' !in r
    ensures r[0] == '-' <==> n < 0
  {
    if n < 0 then "-" + NatToString(-n) else NatToString(n)
  }

  lemma {:induction false} NatToStringInjective(a: nat, b: nat)
    requires NatToString(a) == NatToString(b)
    ensures a == b
  {
    var sa, sb := NatToString(a), NatToString(b);
    if a < 10 && b < 10 {
      assert sa[0] == sb[0];
    } else if 10 <= a && 10 <= b {
      assert sa[|sa| - 1] == sb[|sb| - 1];
      assert a % 10 == b % 10;
      assert sa[..|sa| - 1] == NatToString(a / 10);
      assert sb[..|sb| - 1] == NatToString(b / 10);
      NatToStringInjective(a / 10, b / 10);
    }
  }

  /** Printing bucket indices loses nothing: two indices print alike exactly when they are equal. */
  lemma IntToStringInjective(a: int, b: int)
    ensures IntToString(a) == IntToString(b) <==> a == b
  {
    if IntToString(a) == IntToString(b) {
      if a < 0 {
        assert b < 0;
        assert IntToString(a)[1..] == NatToString(-a);
        assert IntToString(b)[1..] == NatToString(-b);
        NatToStringInjective(-a, -b);
      } else {
        NatToStringInjective(a, b);
      }
    }
  }
}
