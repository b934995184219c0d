/**
 * The top-level lazy KNN search (`main`): the query is a sparse vector with 0-based positions;
 * every stored line gets a pair of its Hamming distance and its 0-based line number; the pairs
 * are sorted, the line numbers of the `KNN` nearest are picked and sorted, and a second pass
 * over the same file writes the payloads of exactly those lines, in file order.
 */
module LazyKnnSearch {
  import opened Wrappers
  import opened JavaStrings
  import opened Numerics
  import opened Vectors
  import opened SparseVectors
  import opened Signatures
  import opened Ranking

  /** `KNN` when no `-k`/`-knn` argument is given. */
  const DefaultKnn: int := 20

  /** `hashed`: positions start at 0 (`hash[pos]`); the bucket is the truncated quotient. */
  function Hashed(sv: seq<SparseEntry>, hash: seq<real>, width: int): (r: int)
    requires InRange(sv, |hash|, 0)
    ensures IntMin <= r <= IntMax
    ensures r == Bucket(Dot(Expand(sv, |hash|, 0), hash, |hash|), width)
  {
    SparseHashedIsDense(sv, hash, width, 0);
    SparseHashed(sv, hash, width, 0)
  }

  /** `calculateSignature`: entry `h` is the printed bucket of the query under hash row `h`. */
  method CalculateSignature(sparseVect: seq<SparseEntry>, hashFunction: seq<seq<real>>, width: int)
    returns (signature: seq<string>)
    requires FitsAll(sparseVect, hashFunction, 0)
    ensures |signature| == |hashFunction|
    ensures forall h :: 0 <= h < |hashFunction| ==> signature[h] == IntToString(Hashed(sparseVect, hashFunction[h], width))
    ensures signature == Render(Buckets(sparseVect, hashFunction, width, 0))
  {
    signature := SparseSignature(sparseVect, hashFunction, width, 0);
    forall h | 0 <= h < |hashFunction|
      ensures signature[h] == IntToString(Hashed(sparseVect, hashFunction[h], width))
    {
      assert Buckets(sparseVect, hashFunction, width, 0)[h] == SparseHashed(sparseVect, hashFunction[h], width, 0);
    }
  }

  // ---------------------------------------------------------------------------------------
  // getHammingDistance as written: `searchSig[i] != storedSig[i]` compares references.

  /** A Java `String` object: its identity and its text. */
  datatype JString = JString(id: nat, text: string)

  function Ids(s: seq<JString>): (r: seq<nat>)
    ensures |r| == |s| && forall i :: 0 <= i < |s| ==> r[i] == s[i].id
  {
    seq(|s|, i requires 0 <= i < |s| => s[i].id)
  }

  function Texts(s: seq<JString>): (r: seq<string>)
    ensures |r| == |s| && forall i :: 0 <= i < |s| ==> r[i] == s[i].text
  {
    seq(|s|, i requires 0 <= i < |s| => s[i].text)
  }

  /** One object has one text. */
  predicate CoherentObjects(a: seq<JString>, b: seq<JString>)
  {
    forall i, j :: 0 <= i < |a| && 0 <= j < |b| && a[i].id == b[j].id ==> a[i].text == b[j].text
  }

  /** No object of `a` is an object of `b`: strings `split` and `"" + int` allocate are fresh. */
  predicate DistinctObjects(a: seq<JString>, b: seq<JString>)
  {
    forall i, j :: 0 <= i < |a| && 0 <= j < |b| ==> a[i].id != b[j].id
  }

  /** `getHammingDistance` as written: counts the positions whose two strings are different objects. */
  function HammingDistanceAsWritten(storedSig: seq<JString>, searchSig: seq<JString>): (dist: nat)
    requires |searchSig| <= |storedSig|
    ensures dist <= |searchSig|
  {
    Mismatches(Ids(searchSig), Ids(storedSig), |searchSig|)
  }

  /** Reference inequality over-counts: every text difference is an object difference. */
  lemma {:induction false} ReferenceCountBoundsTextCount(storedSig: seq<JString>, searchSig: seq<JString>, n: nat)
    requires n <= |searchSig| <= |storedSig|
    requires CoherentObjects(searchSig, storedSig)
    ensures Mismatches(Texts(searchSig), Texts(storedSig), n) <= Mismatches(Ids(searchSig), Ids(storedSig), n)
  {
    if n > 0 {
      ReferenceCountBoundsTextCount(storedSig, searchSig, n - 1);
    }
  }

  /** Against freshly allocated strings every position counts, whatever the texts. */
  lemma {:induction false} FreshStringsAlwaysDiffer(storedSig: seq<JString>, searchSig: seq<JString>, n: nat)
    requires n <= |searchSig| <= |storedSig|
    requires DistinctObjects(searchSig, storedSig)
    ensures Mismatches(Ids(searchSig), Ids(storedSig), n) == n
  {
    if n > 0 {
      FreshStringsAlwaysDiffer(storedSig, searchSig, n - 1);
    }
  }

  /**
   * The defect on one input: a stored signature spelling exactly the query's buckets, `3,-1`, is
   * at distance 2 (the maximum) as written, and at distance 0 by value.
   */
  lemma IdenticalSignatureAtFullDistance()
    ensures var search := [JString(0, "3"), JString(1, "-1")];
      var stored := [JString(2, "3"), JString(3, "-1")];
      && HammingDistanceAsWritten(stored, search) == 2
      && Mismatches(Texts(search), Texts(stored), 2) == 0
  {
    var search := [JString(0, "3"), JString(1, "-1")];
    var stored := [JString(2, "3"), JString(3, "-1")];
    FreshStringsAlwaysDiffer(stored, search, 2);
    assert Texts(search) == Texts(stored);
    MismatchesZeroIff(Texts(search), Texts(stored), 2);
  }

  /**
   * So as written every line is at the same distance, `|searchSig|`, the stable sort keeps the file
   * order, and the "nearest" lines are simply the first lines of the file.
   */
  lemma AsWrittenRankingIsFileOrder(pairs: seq<Ranked<nat>>, searchLength: nat)
    requires forall j :: 0 <= j < |pairs| ==> pairs[j].distance == searchLength
    ensures Sort(pairs) == pairs
  {
    SortOfEqualDistances(pairs, searchLength);
  }

  // ---------------------------------------------------------------------------------------
  // The first pass, corrected to compare by value (`equals`).

  /** Each pair's item is its position: the 0-based line number. */
  predicate Indexed(pairs: seq<Ranked<nat>>)
  {
    forall j :: 0 <= j < |pairs| ==> pairs[j].item == j
  }

  /** The first read of the file: pair `j` is line `j`'s distance and the line number `j`. */
  method Scan(lines: seq<string>, searchSig: seq<string>) returns (pairs: seq<Ranked<nat>>)
    requires forall j :: 0 <= j < |lines| ==> Readable(lines[j], searchSig)
    ensures |pairs| == |lines| && Indexed(pairs)
    ensures forall j :: 0 <= j < |lines| ==> pairs[j].distance == LineDistance(lines[j], searchSig)
  {
    pairs := [];
    var i := 0;
    while i < |lines|
      invariant 0 <= i <= |lines|
      invariant |pairs| == i && Indexed(pairs)
      invariant forall j :: 0 <= j < i ==> pairs[j].distance == LineDistance(lines[j], searchSig)
    {
      var storedSig := SignatureOf(lines[i]);
      var dist := HammingDistance(searchSig, storedSig);
      pairs := pairs + [Ranked(dist, i)];
      i := i + 1;
    }
  }

  // ---------------------------------------------------------------------------------------
  // Picking the line numbers.

  /**
   * Lines 45-48 as written: `new ArrayList(KNN)` rejects a negative `KNN`, and each of the `KNN`
   * rounds adds `get(i)`, where `i` is the loop counter of the first pass, not `k`.
   */
  method SelectLineNumbersAsWritten(sorted: seq<Ranked<nat>>, knn: int, i: int) returns (r: Result<seq<nat>>)
    ensures knn < 0 ==> r == Failure(IllegalCapacity(knn))
    ensures knn == 0 ==> r == Success([])
    ensures 0 < knn && i == |sorted| ==> r == Failure(IndexOutOfBounds(|sorted|, |sorted|))
    ensures r.Success? ==> |r.value| == knn && forall k :: 0 <= k < knn ==> 0 <= i < |sorted| && r.value[k] == sorted[i].item
  {
    if knn < 0 {
      return Failure(IllegalCapacity(knn));
    }
    var lineNumbers: seq<nat> := [];
    var k := 0;
    while k < knn
      invariant 0 <= k <= knn && |lineNumbers| == k
      invariant 0 < k ==> 0 <= i < |sorted|
      invariant forall m :: 0 <= m < k ==> 0 <= i < |sorted| && lineNumbers[m] == sorted[i].item
    {
      if !(0 <= i < |sorted|) {
        return Failure(IndexOutOfBounds(i, |sorted|));
      }
      lineNumbers := lineNumbers + [sorted[i].item];
      k := k + 1;
    }
    return Success(lineNumbers);
  }

  /**
   * The selection as intended: `get(k)`, the line numbers of the `knn` nearest pairs in rank
   * order. `new ArrayList(KNN)` still rejects a negative `KNN`, and a `KNN` beyond the number of
   * pairs still reads past the end, at `get(size)`.
   */
  method SelectLineNumbers(sorted: seq<Ranked<nat>>, knn: int) returns (r: Result<seq<nat>>)
    ensures knn < 0 ==> r == Failure(IllegalCapacity(knn))
    ensures |sorted| < knn ==> r == Failure(IndexOutOfBounds(|sorted|, |sorted|))
    ensures 0 <= knn <= |sorted| ==> r.Success? && |r.value| == knn
    ensures r.Success? ==> forall k :: 0 <= k < |r.value| ==> k < |sorted| && r.value[k] == sorted[k].item
  {
    if knn < 0 {
      return Failure(IllegalCapacity(knn));
    }
    var lineNumbers: seq<nat> := [];
    var k := 0;
    while k < knn
      invariant 0 <= k <= knn && k <= |sorted| && |lineNumbers| == k
      invariant forall m :: 0 <= m < k ==> lineNumbers[m] == sorted[m].item
    {
      if k == |sorted| {
        return Failure(IndexOutOfBounds(k, |sorted|));
      }
      lineNumbers := lineNumbers + [sorted[k].item];
      k := k + 1;
    }
    return Success(lineNumbers);
  }

  /** `KNN` at its default of 20 makes the selection as written fail on every file. */
  method DefaultKnnFailsAsWritten(sorted: seq<Ranked<nat>>) returns (r: Result<seq<nat>>)
    ensures r == Failure(IndexOutOfBounds(|sorted|, |sorted|))
  {
    r := SelectLineNumbersAsWritten(sorted, DefaultKnn, |sorted|);
  }

  /** With `get(k)`, the default `KNN` of 20 still fails on a file of fewer than 20 lines. */
  method DefaultKnnOnShortFile(sorted: seq<Ranked<nat>>) returns (r: Result<seq<nat>>)
    requires |sorted| < DefaultKnn
    ensures r == Failure(IndexOutOfBounds(|sorted|, |sorted|))
  {
    r := SelectLineNumbers(sorted, DefaultKnn);
  }

  /** Each number paired with itself as its distance, so sorting by distance sorts the numbers. */
  function Tagged(nums: seq<nat>): (r: seq<Ranked<nat>>)
    ensures |r| == |nums| && forall i :: 0 <= i < |nums| ==> r[i] == Ranked(nums[i], nums[i])
  {
    seq(|nums|, i requires 0 <= i < |nums| => Ranked(nums[i], nums[i]))
  }

  predicate Distinct(nums: seq<nat>)
  {
    forall i, j :: 0 <= i < j < |nums| ==> nums[i] != nums[j]
  }

  /**
   * `Collections.sort(lineNumbers)`: the same numbers in ascending order, strictly ascending when
   * they are distinct.
   */
  function SortAscending(nums: seq<nat>): (r: seq<nat>)
    ensures |r| == |nums|
    ensures forall i, j :: 0 <= i < j < |r| ==> r[i] <= r[j]
    ensures forall x :: x in r <==> x in nums
    ensures multiset(r) == multiset(nums)
    ensures Distinct(nums) ==> forall i, j :: 0 <= i < j < |r| ==> r[i] < r[j]
  {
    var sorted := Sort(Tagged(nums));
    SortedTagsAreTags(nums);
    Items(sorted)
  }

  lemma SortedTagsAreTags(nums: seq<nat>)
    ensures forall i :: 0 <= i < |nums| ==> Sort(Tagged(nums))[i].distance == Sort(Tagged(nums))[i].item
    ensures forall x :: x in Items(Sort(Tagged(nums))) <==> x in nums
    ensures multiset(Items(Sort(Tagged(nums)))) == multiset(nums)
    ensures Distinct(nums) ==> DistinctItems(Sort(Tagged(nums)))
  {
    SortItems(Tagged(nums));
    assert Items(Tagged(nums)) == nums;
    if Distinct(nums) {
      SortKeepsDistinctItems(Tagged(nums));
    }
    forall i | 0 <= i < |nums|
      ensures Sort(Tagged(nums))[i].distance == Sort(Tagged(nums))[i].item
    {
      SortedTagIsTag(nums, i);
    }
    forall x
      ensures x in Items(Sort(Tagged(nums))) <==> x in nums
    {
      if x in Items(Sort(Tagged(nums))) {
        SortedItemIsNumber(nums, x);
      }
      if x in nums {
        NumberIsSortedItem(nums, x);
      }
    }
  }

  /** Sorting moves tags around but does not make new ones. */
  lemma SortedTagIsTag(nums: seq<nat>, i: nat)
    requires i < |nums|
    ensures Sort(Tagged(nums))[i].distance == Sort(Tagged(nums))[i].item
  {
    var tags := Tagged(nums);
    var sorted := Sort(tags);
    assert sorted[i] in multiset(sorted);
    assert sorted[i] in multiset(tags);
    var j :| 0 <= j < |tags| && tags[j] == sorted[i];
  }

  lemma SortedItemIsNumber(nums: seq<nat>, x: nat)
    requires x in Items(Sort(Tagged(nums)))
    ensures x in nums
  {
    var tags := Tagged(nums);
    var sorted := Sort(tags);
    var i :| 0 <= i < |sorted| && Items(sorted)[i] == x;
    assert sorted[i] in multiset(sorted);
    assert sorted[i] in multiset(tags);
    var j :| 0 <= j < |tags| && tags[j] == sorted[i];
    assert nums[j] == x;
  }

  lemma NumberIsSortedItem(nums: seq<nat>, x: nat)
    requires x in nums
    ensures x in Items(Sort(Tagged(nums)))
  {
    var tags := Tagged(nums);
    var sorted := Sort(tags);
    var j :| 0 <= j < |nums| && nums[j] == x;
    assert tags[j] in multiset(tags);
    assert tags[j] in multiset(sorted);
    var i :| 0 <= i < |sorted| && sorted[i] == tags[j];
    assert Items(sorted)[i] == x;
  }

  // ---------------------------------------------------------------------------------------
  // The second pass.

  /**
   * Lines 53-63: reads the file again, and whenever the line number equals the next wanted
   * number (`Integer` unboxed, so compared by value) writes the line's payload and moves on to
   * the next wanted number; it stops after `knn` payloads or at the end of the file.
   */
  method SecondPass(lines: seq<string>, lineNumbers: seq<nat>, knn: int) returns (out: seq<string>)
    requires knn <= |lineNumbers|
    ensures |out| <= |lineNumbers| && (knn <= 0 ==> out == [])
    ensures 0 <= knn ==> |out| <= knn
    ensures forall b :: 0 <= b < |out| ==> lineNumbers[b] < |lines| && out[b] == EntryOf(lines[lineNumbers[b]])
    ensures (0 <= knn && (forall a, b :: 0 <= a < b < knn ==> lineNumbers[a] < lineNumbers[b])
      && (forall a :: 0 <= a < knn ==> lineNumbers[a] < |lines|)) ==> |out| == knn
  {
    ghost var ascending := forall x, y :: 0 <= x < y < knn ==> lineNumbers[x] < lineNumbers[y];
    out := [];
    var i := 0;
    var a := 0;
    while i < |lines| && a < knn
      invariant 0 <= i <= |lines|
      invariant 0 <= a <= |lineNumbers| && (0 < a ==> a <= knn)
      invariant |out| == a
      invariant forall b :: 0 <= b < a ==> lineNumbers[b] < i && out[b] == EntryOf(lines[lineNumbers[b]])
      invariant ascending && a < knn ==> i <= lineNumbers[a]
    {
      if lineNumbers[a] == i {
        out := out + [EntryOf(lines[i])];
        a := a + 1;
        assert ascending && a < knn ==> lineNumbers[a - 1] < lineNumbers[a];
      }
      i := i + 1;
    }
  }

  // ---------------------------------------------------------------------------------------
  // The whole search, corrected.

  /** Pair `m` comes before pair `j` in the stable order: nearer, or as near and earlier. */
  predicate Precedes(pairs: seq<Ranked<nat>>, m: nat, j: nat)
    requires m < |pairs| && j < |pairs|
  {
    pairs[m].distance < pairs[j].distance || (pairs[m].distance == pairs[j].distance && m < j)
  }

  /** Every line picked precedes every line left out. */
  predicate PickedFirst(pairs: seq<Ranked<nat>>, picked: seq<nat>)
  {
    forall m, j :: m in picked && 0 <= j < |pairs| && j !in picked ==> m < |pairs| && Precedes(pairs, m, j)
  }

  /**
   * Among indexed pairs, the line numbers of the first `knn` after sorting are distinct, are
   * line numbers of the file, and each precedes, in the stable order, every line not picked.
   */
  lemma TopLinesAreNearest(pairs: seq<Ranked<nat>>, knn: nat)
    requires Indexed(pairs) && knn <= |pairs|
    ensures Distinct(Items(TopK(pairs, knn)))
    ensures forall a :: 0 <= a < knn ==> Items(TopK(pairs, knn))[a] < |pairs|
    ensures PickedFirst(pairs, Items(TopK(pairs, knn)))
  {
    var sel := Items(TopK(pairs, knn));
    TopItemsDistinct(pairs, knn);
    forall a | 0 <= a < knn
      ensures sel[a] < |pairs|
    {
      TopPairIsIndexed(pairs, knn, a);
    }
    forall m, j | m in sel && 0 <= j < |pairs| && j !in sel
      ensures m < |pairs| && Precedes(pairs, m, j)
    {
      var a :| 0 <= a < knn && sel[a] == m;
      TopPairPrecedes(pairs, knn, a, j);
    }
  }

  /** Sorting keeps the distinct line numbers distinct, and a prefix of them stays distinct. */
  lemma TopItemsDistinct(pairs: seq<Ranked<nat>>, knn: nat)
    requires Indexed(pairs) && knn <= |pairs|
    ensures Distinct(Items(TopK(pairs, knn)))
  {
    assert DistinctItems(pairs);
    SortKeepsDistinctItems(pairs);
    var sorted, top := Sort(pairs), TopK(pairs, knn);
    forall a, b | 0 <= a < b < knn
      ensures Items(top)[a] != Items(top)[b]
    {
      assert top[a] == sorted[a] && top[b] == sorted[b];
    }
  }

  /** A pair among the first `knn` is the pair of the line its item names. */
  lemma TopPairIsIndexed(pairs: seq<Ranked<nat>>, knn: nat, a: nat)
    requires Indexed(pairs) && knn <= |pairs| && a < knn
    ensures TopK(pairs, knn)[a].item < |pairs| && pairs[TopK(pairs, knn)[a].item] == TopK(pairs, knn)[a]
  {
    var top := TopK(pairs, knn);
    assert top[a] in multiset(top);
    assert top[a] in multiset(pairs);
    var j :| 0 <= j < |pairs| && pairs[j] == top[a];
  }

  /** Pair `a` of the first `knn` precedes every line whose number was not picked. */
  lemma TopPairPrecedes(pairs: seq<Ranked<nat>>, knn: nat, a: nat, j: nat)
    requires Indexed(pairs) && knn <= |pairs| && a < knn && j < |pairs|
    requires j !in Items(TopK(pairs, knn))
    ensures TopK(pairs, knn)[a].item < |pairs| && Precedes(pairs, TopK(pairs, knn)[a].item, j)
  {
    var top := TopK(pairs, knn);
    var m := top[a].item;
    TopPairIsIndexed(pairs, knn, a);
    forall b | 0 <= b < knn
      ensures top[b] != pairs[j]
    {
      assert Items(top)[b] == top[b].item;
    }
    assert pairs[j] !in multiset(top);
    assert pairs[j] in multiset(pairs);
    assert pairs[j] in multiset(pairs) - multiset(top);
    assert top[a].distance <= pairs[j].distance;
    if pairs[m].distance == pairs[j].distance {
      assert pairs[m] in top;
      EarlierWinsTie(pairs, knn, m, j);
    }
  }

  /** The tie rule, from the stability of the sort. */
  lemma EarlierWinsTie(pairs: seq<Ranked<nat>>, knn: nat, m: nat, j: nat)
    requires Indexed(pairs) && knn <= |pairs|
    requires m < |pairs| && j < |pairs| && pairs[m].distance == pairs[j].distance
    requires pairs[m] in TopK(pairs, knn) && pairs[j] !in TopK(pairs, knn)
    ensures m < j
  {
    var d := pairs[m].distance;
    var top := TopK(pairs, knn);
    var picked, all := AtDistance(top, d), AtDistance(pairs, d);
    AtDistanceMembers(top, d);
    AtDistanceMembers(pairs, d);
    assert picked <= all;
    assert IncreasingItems(pairs);
    AtDistanceKeepsIncreasing(pairs, d);
    assert pairs[m] in picked && pairs[j] in all;
    var p :| 0 <= p < |picked| && picked[p] == pairs[m];
    var q :| 0 <= q < |all| && all[q] == pairs[j];
    forall t | 0 <= t < |picked|
      ensures all[t] != pairs[j]
    {
      assert all[t] == picked[t];
      assert picked[t] in picked;
    }
    assert all[p] == pairs[m];
  }

  /** Re-sorting the picked numbers keeps them picked: membership is all `PickedFirst` looks at. */
  lemma PickedFirstOfSameMembers(pairs: seq<Ranked<nat>>, picked: seq<nat>, reordered: seq<nat>)
    requires PickedFirst(pairs, picked)
    requires forall x :: x in reordered <==> x in picked
    ensures PickedFirst(pairs, reordered)
  {
  }

  /** `PickedFirst` restated on the lines' own distances. */
  lemma PickedLinesAreNearest(lines: seq<string>, searchSig: seq<string>, pairs: seq<Ranked<nat>>, chosen: seq<nat>)
    requires forall j :: 0 <= j < |lines| ==> Readable(lines[j], searchSig)
    requires |pairs| == |lines|
    requires forall j :: 0 <= j < |lines| ==> pairs[j].distance == LineDistance(lines[j], searchSig)
    requires PickedFirst(pairs, chosen)
    ensures forall m, j :: m in chosen && 0 <= j < |lines| && j !in chosen ==>
      m < |lines| && (LineDistance(lines[m], searchSig) < LineDistance(lines[j], searchSig)
        || (LineDistance(lines[m], searchSig) == LineDistance(lines[j], searchSig) && m < j))
  {
    forall m, j | m in chosen && 0 <= j < |lines| && j !in chosen
      ensures m < |lines| && (LineDistance(lines[m], searchSig) < LineDistance(lines[j], searchSig)
        || (LineDistance(lines[m], searchSig) == LineDistance(lines[j], searchSig) && m < j))
    {
      assert Precedes(pairs, m, j);
    }
  }

  /**
   * What the selection and the re-sort give the second pass: the line numbers are strictly
   * ascending and in range, and every line picked precedes every line left out.
   */
  lemma ChosenLines(pairs: seq<Ranked<nat>>, knn: nat, picked: seq<nat>, lineNumbers: seq<nat>)
    requires Indexed(pairs) && knn <= |pairs|
    requires |picked| == knn && forall k :: 0 <= k < knn ==> picked[k] == Sort(pairs)[k].item
    requires lineNumbers == SortAscending(picked)
    ensures |lineNumbers| == knn
    ensures forall a, b :: 0 <= a < b < knn ==> lineNumbers[a] < lineNumbers[b]
    ensures forall a :: 0 <= a < knn ==> lineNumbers[a] < |pairs|
    ensures PickedFirst(pairs, lineNumbers)
  {
    var top := TopK(pairs, knn);
    assert picked == Items(top) by {
      forall k | 0 <= k < knn
        ensures picked[k] == Items(top)[k]
      {
        assert top[k] == Sort(pairs)[k];
      }
    }
    TopLinesAreNearest(pairs, knn);
    PickedFirstOfSameMembers(pairs, picked, lineNumbers);
    forall a | 0 <= a < knn
      ensures lineNumbers[a] < |pairs|
    {
      assert lineNumbers[a] in picked;
    }
  }

  /** What `main` writes: the chosen line numbers, and the payloads of those lines in file order. */
  datatype Selection = Selection(lineNumbers: seq<nat>, payloads: seq<string>)

  /**
   * `main` with both defects corrected (value comparison, `get(k)`): writes the payloads of the
   * `knn` lines nearest to the query, in file order. A line is left out only for one nearer, or
   * as near and earlier in the file. A negative `knn` or one beyond the number of lines throws
   * before anything is written.
   */
  method SearchNearest(lines: seq<string>, searchSig: seq<string>, knn: int) returns (r: Result<Selection>)
    requires forall j :: 0 <= j < |lines| ==> Readable(lines[j], searchSig)
    ensures knn < 0 ==> r == Failure(IllegalCapacity(knn))
    ensures |lines| < knn ==> r == Failure(IndexOutOfBounds(|lines|, |lines|))
    ensures 0 <= knn <= |lines| ==> r.Success?
    ensures r.Success? ==> 0 <= knn && |r.value.lineNumbers| == knn && |r.value.payloads| == knn
    ensures r.Success? ==> forall a, b :: 0 <= a < b < knn ==> r.value.lineNumbers[a] < r.value.lineNumbers[b]
    ensures r.Success? ==> forall a :: 0 <= a < knn ==>
      r.value.lineNumbers[a] < |lines| && r.value.payloads[a] == EntryOf(lines[r.value.lineNumbers[a]])
    ensures r.Success? ==> forall m, j :: m in r.value.lineNumbers && 0 <= j < |lines| && j !in r.value.lineNumbers ==>
      m < |lines| && (LineDistance(lines[m], searchSig) < LineDistance(lines[j], searchSig)
        || (LineDistance(lines[m], searchSig) == LineDistance(lines[j], searchSig) && m < j))
  {
    var pairs := Scan(lines, searchSig);
    var sorted := Sort(pairs);
    var picked := SelectLineNumbers(sorted, knn);
    if picked.Failure? {
      return Failure(picked.error);
    }
    var lineNumbers := SortAscending(picked.value);
    ChosenLines(pairs, knn, picked.value, lineNumbers);
    PickedLinesAreNearest(lines, searchSig, pairs, lineNumbers);
    var out := SecondPass(lines, lineNumbers, knn);
    return Success(Selection(lineNumbers, out));
  }
}
