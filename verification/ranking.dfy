/**
 * The ranking both lazy KNN searches share: pairs of a Hamming distance and an item (a record's
 * payload, or its line number), ordered by `compareTo` as `distance - other.distance` and
 * sorted with `Collections.sort`, which is stable.
 */
module Ranking {

  /** `DistanceEntryPair` (item = payload text) and `DistanceIndexPair` (item = line number). */
  datatype Ranked<T> = Ranked(distance: nat, item: T)

  /**
   * `compareTo`: `this.distance - other.distance`. Distances are Hamming distances, non-negative
   * Java ints, so the subtraction cannot wrap around.
   */
  function CompareTo<T>(a: Ranked<T>, b: Ranked<T>): (r: int)
    ensures r < 0 <==> a.distance < b.distance
    ensures r == 0 <==> a.distance == b.distance
    ensures r > 0 <==> a.distance > b.distance
  {
    a.distance - b.distance
  }

  lemma CompareToAntisymmetric<T>(a: Ranked<T>, b: Ranked<T>)
    ensures CompareTo(a, b) == -CompareTo(b, a)
  {
  }

  lemma CompareToTransitive<T>(a: Ranked<T>, b: Ranked<T>, c: Ranked<T>)
    requires CompareTo(a, b) <= 0 && CompareTo(b, c) <= 0
    ensures CompareTo(a, c) <= 0
  {
  }

  /** Ascending under `compareTo`: no pair is farther than a pair after it. */
  predicate Sorted<T>(s: seq<Ranked<T>>)
  {
    forall i, j :: 0 <= i < j < |s| ==> s[i].distance <= s[j].distance
  }

  /** Places `x` after every pair of the (sorted) `s` that is not farther than it. */
  function Insert<T>(x: Ranked<T>, s: seq<Ranked<T>>): (r: seq<Ranked<T>>)
    ensures |r| == |s| + 1
    ensures multiset(r) == multiset(s) + multiset{x}
  {
    if |s| == 0 then [x]
    else if x.distance < s[0].distance then [x] + s
    else
      assert s == [s[0]] + s[1..];
      [s[0]] + Insert(x, s[1..])
  }

  lemma {:induction false} InsertKeepsSorted<T>(x: Ranked<T>, s: seq<Ranked<T>>)
    requires Sorted(s)
    ensures Sorted(Insert(x, s))
  {
    if |s| > 0 && x.distance >= s[0].distance {
      var rest := Insert(x, s[1..]);
      InsertKeepsSorted(x, s[1..]);
      forall j | 0 <= j < |rest|
        ensures s[0].distance <= rest[j].distance
      {
        assert rest[j] in multiset(s[1..]) + multiset{x};
        if rest[j] != x {
          assert rest[j] in s[1..];
        }
      }
    }
  }

  /** `Collections.sort` by `compareTo`: insertion of each pair, in input order, into the sorted prefix. */
  function Sort<T>(s: seq<Ranked<T>>): (r: seq<Ranked<T>>)
    ensures |r| == |s| && Sorted(r)
    ensures multiset(r) == multiset(s)
  {
    if |s| == 0 then []
    else
      assert s == s[..|s| - 1] + [s[|s| - 1]];
      InsertKeepsSorted(s[|s| - 1], Sort(s[..|s| - 1]));
      Insert(s[|s| - 1], Sort(s[..|s| - 1]))
  }

  /** The pairs of `s` at distance `d`, in their order in `s`. */
  function AtDistance<T>(s: seq<Ranked<T>>, d: nat): seq<Ranked<T>>
  {
    if |s| == 0 then [] else (if s[0].distance == d then [s[0]] else []) + AtDistance(s[1..], d)
  }

  lemma {:induction false} AtDistanceAppend<T>(a: seq<Ranked<T>>, b: seq<Ranked<T>>, d: nat)
    ensures AtDistance(a + b, d) == AtDistance(a, d) + AtDistance(b, d)
  {
    if |a| > 0 {
      var head := if a[0].distance == d then [a[0]] else [];
      assert (a + b)[0] == a[0];
      assert (a + b)[1..] == a[1..] + b;
      AtDistanceAppend(a[1..], b, d);
      calc {
        AtDistance(a + b, d);
      ==
        head + AtDistance(a[1..] + b, d);
      ==
        head + (AtDistance(a[1..], d) + AtDistance(b, d));
      ==
        (head + AtDistance(a[1..], d)) + AtDistance(b, d);
      }
    } else {
      assert a + b == b;
    }
  }

  lemma {:induction false} AtDistanceOfFarther<T>(s: seq<Ranked<T>>, d: nat)
    requires forall i :: 0 <= i < |s| ==> s[i].distance > d
    ensures AtDistance(s, d) == []
  {
    if |s| > 0 {
      AtDistanceOfFarther(s[1..], d);
    }
  }

  lemma {:induction false} InsertKeepsOrderWithinDistance<T>(x: Ranked<T>, s: seq<Ranked<T>>, d: nat)
    requires Sorted(s)
    ensures AtDistance(Insert(x, s), d) == AtDistance(s, d) + (if x.distance == d then [x] else [])
  {
    if |s| == 0 {
    } else if x.distance < s[0].distance {
      if x.distance == d {
        AtDistanceOfFarther(s, d);
      }
      assert ([x] + s)[1..] == s;
    } else {
      InsertKeepsOrderWithinDistance(x, s[1..], d);
      assert ([s[0]] + Insert(x, s[1..]))[1..] == Insert(x, s[1..]);
    }
  }

  /** `Collections.sort` is stable: pairs at equal distance keep their input order. */
  lemma SortIsStable<T>(s: seq<Ranked<T>>)
    ensures forall d: nat :: AtDistance(Sort(s), d) == AtDistance(s, d)
  {
    forall d: nat
      ensures AtDistance(Sort(s), d) == AtDistance(s, d)
    {
      SortIsStableAt(s, d);
    }
  }

  /** Stability at one distance `d`, by induction on the input. */
  lemma {:induction false} SortIsStableAt<T>(s: seq<Ranked<T>>, d: nat)
    ensures AtDistance(Sort(s), d) == AtDistance(s, d)
  {
    if |s| > 0 {
      var init, x := s[..|s| - 1], s[|s| - 1];
      var own := if x.distance == d then [x] else [];
      assert s == init + [x];
      assert AtDistance([x], d) == own by {
        assert [x][1..] == [];
      }
      calc {
        AtDistance(Sort(s), d);
      ==
        AtDistance(Insert(x, Sort(init)), d);
      ==  { InsertKeepsOrderWithinDistance(x, Sort(init), d); }
        AtDistance(Sort(init), d) + own;
      ==  { SortIsStableAt(init, d); }
        AtDistance(init, d) + AtDistance([x], d);
      ==  { AtDistanceAppend(init, [x], d); }
        AtDistance(s, d);
      }
    }
  }

  /** When every pair is at the same distance, each pair is its own group, so sorting changes nothing. */
  lemma {:induction false} AtDistanceOfEqual<T>(s: seq<Ranked<T>>, d: nat)
    requires forall i :: 0 <= i < |s| ==> s[i].distance == d
    ensures AtDistance(s, d) == s
  {
    if |s| > 0 {
      AtDistanceOfEqual(s[1..], d);
    }
  }

  lemma SortOfEqualDistances<T>(s: seq<Ranked<T>>, d: nat)
    requires forall i :: 0 <= i < |s| ==> s[i].distance == d
    ensures Sort(s) == s
  {
    var r := Sort(s);
    forall i | 0 <= i < |r|
      ensures r[i].distance == d
    {
      assert r[i] in multiset(s);
    }
    AtDistanceOfEqual(s, d);
    AtDistanceOfEqual(r, d);
    SortIsStable(s);
  }

  /**
   * The first `k` pairs after sorting: in ascending order, drawn from `s`, none farther than any
   * pair left out, and, within each distance, the earliest pairs of `s`.
   */
  function TopK<T>(s: seq<Ranked<T>>, k: nat): (r: seq<Ranked<T>>)
    requires k <= |s|
    ensures |r| == k && Sorted(r)
    ensures multiset(r) <= multiset(s)
    ensures forall y, i :: y in multiset(s) - multiset(r) && 0 <= i < k ==> r[i].distance <= y.distance
    ensures forall d: nat :: AtDistance(r, d) <= AtDistance(s, d)
  {
    PrefixOfSortedIsNearest(s, k);
    PrefixOfSortedIsEarliest(s, k);
    var sorted := Sort(s);
    assert Sorted(sorted[..k]) by {
      forall i, j | 0 <= i < j < k
        ensures sorted[..k][i].distance <= sorted[..k][j].distance
      {
        assert sorted[..k][i] == sorted[i] && sorted[..k][j] == sorted[j];
      }
    }
    sorted[..k]
  }

  lemma PrefixOfSortedIsNearest<T>(s: seq<Ranked<T>>, k: nat)
    requires k <= |s|
    ensures multiset(Sort(s)[..k]) <= multiset(s)
    ensures forall y, i :: y in multiset(s) - multiset(Sort(s)[..k]) && 0 <= i < k ==> Sort(s)[i].distance <= y.distance
  {
    var sorted := Sort(s);
    SplitMultiset(sorted, k);
    SortedPrefixIsNearest(sorted, k);
  }

  lemma SortedPrefixIsNearest<T>(sorted: seq<Ranked<T>>, k: nat)
    requires k <= |sorted| && Sorted(sorted)
    ensures forall y, i :: y in multiset(sorted[k..]) && 0 <= i < k ==> sorted[i].distance <= y.distance
  {
    forall y: Ranked<T>, i | y in multiset(sorted[k..]) && 0 <= i < k
      ensures sorted[i].distance <= y.distance
    {
      var j :| k <= j < |sorted| && sorted[j] == y;
    }
  }

  /** Cutting a sequence in two splits its multiset in two. */
  lemma SplitMultiset<T>(s: seq<T>, k: nat)
    requires k <= |s|
    ensures multiset(s) - multiset(s[..k]) == multiset(s[k..])
    ensures multiset(s[..k]) <= multiset(s)
  {
    assert s == s[..k] + s[k..];
  }

  lemma PrefixOfSortedIsEarliest<T>(s: seq<Ranked<T>>, k: nat)
    requires k <= |s|
    ensures forall d: nat :: AtDistance(Sort(s)[..k], d) <= AtDistance(s, d)
  {
    var sorted := Sort(s);
    var r, rest := sorted[..k], sorted[k..];
    assert sorted == r + rest;
    SortIsStable(s);
    forall d: nat
      ensures AtDistance(r, d) <= AtDistance(s, d)
    {
      AtDistanceAppend(r, rest, d);
    }
  }

  /** No two pairs carry the same item. */
  predicate DistinctItems<T(==)>(s: seq<Ranked<T>>)
  {
    forall i, j :: 0 <= i < j < |s| ==> s[i].item != s[j].item
  }

  lemma {:induction false} InsertKeepsDistinctItems<T>(x: Ranked<T>, s: seq<Ranked<T>>)
    requires DistinctItems(s)
    requires forall i :: 0 <= i < |s| ==> s[i].item != x.item
    ensures DistinctItems(Insert(x, s))
  {
    if |s| > 0 && x.distance >= s[0].distance {
      InsertKeepsDistinctItems(x, s[1..]);
      var rest := Insert(x, s[1..]);
      forall j | 0 <= j < |rest|
        ensures rest[j].item != s[0].item
      {
        assert rest[j] in multiset(s[1..]) + multiset{x};
      }
    }
  }

  lemma {:induction false} SortKeepsDistinctItems<T>(s: seq<Ranked<T>>)
    requires DistinctItems(s)
    ensures DistinctItems(Sort(s))
  {
    if |s| > 0 {
      var init, x := s[..|s| - 1], s[|s| - 1];
      SortKeepsDistinctItems(init);
      var sorted := Sort(init);
      forall i | 0 <= i < |sorted|
        ensures sorted[i].item != x.item
      {
        assert sorted[i] in multiset(init);
      }
      InsertKeepsDistinctItems(x, sorted);
    }
  }

  /** The items of the pairs, in order. */
  function Items<T>(s: seq<Ranked<T>>): (r: seq<T>)
    ensures |r| == |s| && forall i :: 0 <= i < |s| ==> r[i] == s[i].item
  {
    seq(|s|, i requires 0 <= i < |s| => s[i].item)
  }

  /** The items of a pair followed by more pairs. */
  lemma ItemsCons<T>(a: Ranked<T>, t: seq<Ranked<T>>)
    ensures multiset(Items([a] + t)) == multiset{a.item} + multiset(Items(t))
  {
    assert Items([a] + t) == [a.item] + Items(t);
  }

  /** Inserting a pair adds its item to the items. */
  lemma {:induction false} InsertItems<T>(x: Ranked<T>, s: seq<Ranked<T>>)
    ensures multiset(Items(Insert(x, s))) == multiset(Items(s)) + multiset{x.item}
  {
    if |s| == 0 {
      ItemsCons(x, s);
    } else if x.distance < s[0].distance {
      ItemsCons(x, s);
    } else {
      var rest := Insert(x, s[1..]);
      assert Insert(x, s) == [s[0]] + rest;
      assert s == [s[0]] + s[1..];
      calc {
        multiset(Items(Insert(x, s)));
      ==
        multiset(Items([s[0]] + rest));
      == { ItemsCons(s[0], rest); }
        multiset{s[0].item} + multiset(Items(rest));
      == { InsertItems(x, s[1..]); }
        multiset{s[0].item} + multiset(Items(s[1..])) + multiset{x.item};
      == { ItemsCons(s[0], s[1..]); }
        multiset(Items([s[0]] + s[1..])) + multiset{x.item};
      ==
        multiset(Items(s)) + multiset{x.item};
      }
    }
  }

  lemma ItemsSnoc<T>(t: seq<Ranked<T>>, a: Ranked<T>)
    ensures Items(t + [a]) == Items(t) + [a.item]
  {
  }

  /** Sorting permutes the items along with the pairs. */
  lemma {:induction false} SortItems<T>(s: seq<Ranked<T>>)
    ensures multiset(Items(Sort(s))) == multiset(Items(s))
  {
    if |s| > 0 {
      var init, x := s[..|s| - 1], s[|s| - 1];
      assert s == init + [x];
      ItemsSnoc(init, x);
      assert Sort(s) == Insert(x, Sort(init));
      InsertItems(x, Sort(init));
      SortItems(init);
    }
  }

  lemma {:induction false} AtDistanceMembers<T>(s: seq<Ranked<T>>, d: nat)
    ensures forall y :: y in AtDistance(s, d) <==> y in s && y.distance == d
  {
    if |s| > 0 {
      AtDistanceMembers(s[1..], d);
      assert s == [s[0]] + s[1..];
    }
  }

  /** Items that increase along the sequence. */
  predicate IncreasingItems(s: seq<Ranked<nat>>)
  {
    forall i, j :: 0 <= i < j < |s| ==> s[i].item < s[j].item
  }

  /** Picking the pairs at one distance keeps increasing items increasing. */
  lemma {:induction false} AtDistanceKeepsIncreasing(s: seq<Ranked<nat>>, d: nat)
    requires IncreasingItems(s)
    ensures IncreasingItems(AtDistance(s, d))
  {
    if |s| > 0 {
      AtDistanceKeepsIncreasing(s[1..], d);
      AtDistanceMembers(s[1..], d);
      var rest := AtDistance(s[1..], d);
      forall j | 0 <= j < |rest|
        ensures s[0].item < rest[j].item
      {
        assert rest[j] in rest;
        var k :| 0 <= k < |s[1..]| && s[1..][k] == rest[j];
        assert s[k + 1] == rest[j];
      }
    }
  }
}
