# LSH nearest-neighbour search, modelled in Dafny

This project models the core of a locality-sensitive-hashing (LSH) search system. The system
answers "which stored vectors are near this query vector?" without comparing the query with
every record in full. It has three parts:

- **Angular LSH as a Hadoop job** (`FeatureVectorLsh`). Every hash is a random hyperplane whose
  normal has ±1 components, stored as a `BitSet`. A vector's sketch has bit `i` set when the
  vector lies on the non-negative side of hyperplane `i`. The mapper keys every record by its
  sketch. The reducer computes each key's Hamming distance to the query's sketch and turns it
  into a similarity, `cos(d / 15 · π)`. It then writes either all records of the key or none.
  `BitSetWritable.compareTo` orders the keys in the shuffle.
- **Euclidean (p-stable) LSH as a Hadoop job** (`EuclideanLsh`). Every hash is a random
  projection. A vector's signature holds one bucket index per projection,
  `(int)(a · v / BUCKET_WIDTH)`. The mapper emits a record's label only when every band of its
  signature equals the query's, and it stops at the first band that differs. The reducer
  writes the key once per value.
- **Two lazy KNN searches** over stored lines of the form `b1,b2,…,bn<TAB>payload`. The query is
  a sparse vector of `pos:val` tokens, hashed to a printed bucket signature. Every stored line
  is scored by the Hamming distance between its bucket strings and the query's. The pairs are
  sorted by distance with the stable `Collections.sort`, and the `k` nearest are reported.
  - The `knn` package version (`KnnLazyKnnSearch`) counts positions from 1. It writes
    `distance<TAB>payload` lines.
  - The top-level version (`LazyKnnSearch`) counts positions from 0 and ranks line numbers. It
    then reads the file a second time and writes the payloads of the chosen lines, in file
    order.

The model is built from immutable datatypes and pure functions over idealised arithmetic
(`real`, `int`). Loops are modelled as methods, with invariants. Shared pieces live in their own
modules:

| module | contents |
|---|---|
| `Wrappers` | `Option`, `Result`, the Java exceptions raised on normal paths |
| `Numerics` | Java's `(int)` narrowing of a double, and the bucket index |
| `JavaStrings` | `indexOf`, `substring` around the first tab, `split`, `"" + int` |
| `Vectors` | dense dot products and normalisation |
| `BitSets` | `java.util.BitSet` as the set of its set bits |
| `SparseVectors` | `pos:val` records under either position base |
| `Signatures` | printed bucket signatures, the stored line format, and the string Hamming distance |
| `Ranking` | distance-ranked pairs and the stable sort |

The model follows the code in two places where a reader might expect something else:

- **Buckets truncate.** The p-stable LSH scheme defines a bucket as `floor(a · v / w)`. The
  code computes `(int)(a · v / w)`, which truncates toward zero. The model follows the code
  (`Numerics.Bucket`). `Numerics.TruncationWidensBucketZero` shows the consequence: bucket 0
  covers the whole interval `(-w, w)`, twice the width of every other bucket, and `-w/2` is an
  input on which the two rules differ.
- **Position bases differ.** The two lazy searches read the same `pos:val` text differently:
  `hash[pos - 1]` in `src/knn/LazyKnnSearch.java:42` and `hash[pos]` in
  `src/LazyKnnSearch.java:89`. Each is modelled as written. `SparseVectors.ConventionsDisagree`
  and `SparseVectors.OneBasedIsShiftedZeroBased` relate the two readings.

## Model

| member | source | states |
|---|---|---|
| `Numerics.Truncate` | src/EuclideanLsh.java:106 | the integer part of a double, rounded toward zero: between 0 and the value, less than one away from the value, on either side of 0 |
| `Numerics.ToJavaInt` | src/EuclideanLsh.java:106 | `(int)` of a finite double: the truncated value when it fits in 32 bits, otherwise saturated at `Integer.MIN_VALUE` or `Integer.MAX_VALUE` |
| `Numerics.Bucket` | src/EuclideanLsh.java:106 | `(int)(scalar / width)` is a 32-bit int; it is 0 for any scalar less than one width away from 0; with width 0 it is 0 exactly when the scalar is 0 (NaN), and the int limits otherwise (±Infinity) |
| `Numerics.TruncateIsOdd` | src/EuclideanLsh.java:106 | negating the scalar negates its truncation, so buckets are symmetric about 0 |
| `Numerics.BucketIsTruncatedQuotient` | src/EuclideanLsh.java:106 | away from the clamp, `bucket · width` lies between 0 and the scalar, less than one width from it |
| `Numerics.TruncationWidensBucketZero` | src/EuclideanLsh.java:118 | `-w/2` falls in bucket 0 when truncated but in bucket -1 under the floor rule of the LSH scheme, while `±w` fall in buckets ±1 |
| `JavaStrings.IndexOf` | src/FeatureVectorLsh.java:74 | `indexOf` returns -1 exactly when the character is absent; otherwise it returns a position holding it, with no earlier occurrence |
| `JavaStrings.SplitAtFirstReconstructs` | src/FeatureVectorLsh.java:74-76 | the text before the first tab, the tab and the text after it rebuild the record line |
| `JavaStrings.SplitAtFirstOfConcat` | src/knn/LazyKnnSearch.java:89-97 | a line built as `head + tab + tail`, with no tab in `head`, is cut back into exactly `head` and `tail` |
| `JavaStrings.Split` | src/knn/LazyKnnSearch.java:90-91 | `split` yields pieces free of the separator, and yields `[s]` when the separator is absent |
| `JavaStrings.PiecesOfJoin` | src/knn/LazyKnnSearch.java:90-91 | cutting at every separator undoes joining strings that do not contain it |
| `JavaStrings.SplitOfJoin` | src/knn/LazyKnnSearch.java:90-91 | `split` undoes a comma join when the last band is non-empty, so no trailing empty piece is dropped |
| `JavaStrings.IntToString` | src/knn/LazyKnnSearch.java:52-53 | a printed bucket is non-empty, has no comma, tab or colon, and starts with '-' exactly when the bucket is negative |
| `JavaStrings.NatToStringInjective` | src/knn/LazyKnnSearch.java:52-53 | distinct non-negative numbers print differently |
| `JavaStrings.IntToStringInjective` | src/knn/LazyKnnSearch.java:52-53 | two buckets print alike exactly when they are equal |
| `Vectors.SumOfSquaresScale` | src/EuclideanLsh.java:141-143 | dividing every component by `m` divides the squared length by `m · m` |
| `Vectors.NormalizeIsUnit` | src/EuclideanLsh.java:134-144 | dividing by the true magnitude, the square root of the sum of squares, gives a unit vector |
| `Vectors.NormalizeAsWritten` | src/EuclideanLsh.java:134-144 | as written, dividing by the square root of the raw sum leaves a squared length equal to the sum of squares over the raw sum |
| `Vectors.AsWrittenIsUnitOnlyBySeeming` | src/EuclideanLsh.java:135-139 | the as-written result is a unit vector exactly when the raw sum happens to equal the sum of squares |
| `Vectors.RawSumMagnitudeIsNotUnit` | src/EuclideanLsh.java:135-139 | `[0.5, 0.5]` has raw sum 1 and is normalised as written to squared length 0.5 |
| `Vectors.RawSumMagnitudeCanBeUndefined` | src/EuclideanLsh.java:135-139 | for `[-0.25, -0.25]` no real number squares to the raw sum, so the as-written magnitude does not exist |
| `BitSets.CardBelow` | src/FeatureVectorLsh.java:118 | a bitset with all bits `0 .. n-1` set has cardinality `n` |
| `BitSets.CardOfBounded` | src/FeatureVectorLsh.java:118 | a bitset whose bits all lie below `n` has cardinality at most `n` |
| `BitSets.Length` | src/FeatureVectorLsh.java:189-193 | `BitSet.length()` is one past the highest set bit, and 0 exactly for the empty bitset |
| `BitSets.LengthOfHighest` | src/FeatureVectorLsh.java:193 | `length()` is determined by the highest set bit |
| `BitSets.Xor` | src/FeatureVectorLsh.java:116-117 | `xor` keeps exactly the bits set in one of the two bitsets |
| `BitSets.HammingDistance` | src/FeatureVectorLsh.java:116-118 | the cardinality of the xor is 0 exactly when the two sketches are equal |
| `BitSets.HammingSymmetric` | src/FeatureVectorLsh.java:116-118 | the xor cardinality does not depend on the order of its operands |
| `BitSets.HammingBounded` | src/FeatureVectorLsh.java:116-118 | sketches over `n` hyperplanes are at most `n` apart |
| `BitSets.CompareTo` | src/FeatureVectorLsh.java:184-195 | `compareTo` is 0 exactly for equal bitsets and otherwise ±1 |
| `BitSets.ValueBelowPow2` | src/FeatureVectorLsh.java:189-194 | the bits below `n`, read as a binary number, are less than `2^n` |
| `BitSets.HighestDifferenceDecides` | src/FeatureVectorLsh.java:191-194 | the bitset holding the highest differing bit has the larger binary value |
| `BitSets.CompareToFollowsHighestDifference` | src/FeatureVectorLsh.java:189-194 | both branches, the length branch and the xor branch, pick the side holding the highest differing bit |
| `BitSets.CompareToIsBinaryOrder` | src/FeatureVectorLsh.java:184-195 | `compareTo` is the sign of the difference of the bitsets' unsigned binary values |
| `BitSets.CompareToAntisymmetric` | src/FeatureVectorLsh.java:184-195 | swapping the operands negates the result, as `Comparable` requires |
| `BitSets.CompareToTransitive` | src/FeatureVectorLsh.java:184-195 | the order is transitive, so the shuffle sort of sketch keys is well defined |
| `FeatureVectorLsh.IsSameDirection` | src/FeatureVectorLsh.java:260-273 | true exactly when the first 4000 components, added for set bits and subtracted for clear bits, sum to at least 0 |
| `FeatureVectorLsh.CalculateHash` | src/FeatureVectorLsh.java:237-248 | bit `i` of the sketch is set exactly when `i` indexes a hyperplane that the vector lies on the non-negative side of |
| `FeatureVectorLsh.Map` | src/FeatureVectorLsh.java:72-85 | the mapper writes the whole input line as value, keyed by the sketch of the vector after the first tab |
| `FeatureVectorLsh.Reduce` | src/FeatureVectorLsh.java:114-135 | all or nothing per key: if the similarity clears the threshold, every value is written in order with that score; otherwise nothing is written |
| `FeatureVectorLsh.PassesMonotone` | src/FeatureVectorLsh.java:118-121 | with an estimate non-increasing on [0, 1], as `cos(x·π)` is, a key no farther from the query than a passing key (itself within the sketch length) passes too |
| `FeatureVectorLsh.SignedSumOfZero` | src/FeatureVectorLsh.java:261-271 | the signed sum of the zero vector is 0 under every hyperplane |
| `FeatureVectorLsh.ZeroVectorSketchIsFull` | src/FeatureVectorLsh.java:272 | ties go to the set side (`>= 0`), so the zero vector's sketch has every bit set |
| `FeatureVectorLsh.SignedSumScale` | src/FeatureVectorLsh.java:264-271 | the signed sum is linear in the vector |
| `FeatureVectorLsh.SketchScaleInvariant` | src/FeatureVectorLsh.java:237-248 | a sketch depends only on direction: scaling by a positive factor leaves it unchanged |
| `FeatureVectorLsh.OppositeVectorIsFarthest` | src/FeatureVectorLsh.java:116-118 | with no signed sum exactly 0, `v` and `-v` differ in every sketch bit |
| `FeatureVectorLsh.SketchDistanceBounded` | src/FeatureVectorLsh.java:116-118 | two sketches under the same hyperplanes are at most the number of hyperplanes apart |
| `FeatureVectorLsh.QueryRecordPasses` | src/FeatureVectorLsh.java:114-121 | a record line whose vector parses to the search vector gets, as the mapper computes it, exactly the query's sketch as key; that key is at distance 0, scores the estimate at 0, and passes whenever that clears the threshold |
| `FeatureVectorLsh.QueryRecordIsWritten` | src/FeatureVectorLsh.java:72-135 | mapping the query's own record keys it with the query's sketch; reducing that key's group, the record followed by any other lines sharing the key, writes each line once, in order, with the similarity of distance 0 |
| `FeatureVectorLsh.GenerateRandomHash` | src/FeatureVectorLsh.java:209-225 | the new hashes are pairwise distinct, none was in the history, all are added to it, and each comes from a draw; a short result means every draw was already in the history |
| `FeatureVectorLsh.AddFresh` | src/FeatureVectorLsh.java:218-222 | a hash not yet in the history is new, not among those found, and is recorded with them |
| `EuclideanLsh.Hashed` | src/EuclideanLsh.java:101-108 | the bucket of the projection is a 32-bit int, and 0 when the projection is less than one width from 0 |
| `EuclideanLsh.CalculateSignature` | src/EuclideanLsh.java:110-121 | the inline projection agrees with `hashed` band by band, so the query and the records are encoded alike |
| `EuclideanLsh.Map` | src/EuclideanLsh.java:58-71 | the label is emitted exactly when every band matches the query's, and the early return decides the same way; with no bands, every label is emitted |
| `EuclideanLsh.AllBandsMatchIffSignatureEqual` | src/EuclideanLsh.java:66-68 | matching band by band is equivalent to equality of the whole signature with the query's |
| `EuclideanLsh.SearchVectorAlwaysMatches` | src/EuclideanLsh.java:66-68 | a record holding the search vector always matches the query signature |
| `EuclideanLsh.Reduce` | src/EuclideanLsh.java:84-88 | the key is written once per value, so the record count is preserved |
| `EuclideanLsh.GenerateRandomHash` | src/EuclideanLsh.java:123-132 | `signatureLength` projections of `VECTOR_LENGTH` components, each a unit vector along its centred draw (with the corrected normalisation) |
| `EuclideanLsh.HashRow` | src/EuclideanLsh.java:126-129 | one projection: unit length, and scaling it back by the magnitude gives the draw minus 0.5 |
| `EuclideanLsh.NormalizeUndoesScale` | src/EuclideanLsh.java:141-143 | multiplying a normalised component by the magnitude restores the original component |
| `SparseVectors.DotOfRaised` | src/knn/LazyKnnSearch.java:42 | adding one entry raises the dense dot product by the entry's value times its hash component |
| `SparseVectors.SparseDotIsDenseDot` | src/knn/LazyKnnSearch.java:36-46 | the sparse sum over the entries equals the dot product of the dense vector they describe (repeated positions add up) |
| `SparseVectors.ZeroDot` | src/EuclideanLsh.java:102-105 | the projection of the zero vector is 0 |
| `SparseVectors.OneBasedExample` | src/knn/LazyKnnSearch.java:42 | with 1-based positions, `3:5.0 1:2.0` stands for `[2, 0, 5, 0, 0]` |
| `SparseVectors.OneBasedIsShiftedZeroBased` | src/knn/LazyKnnSearch.java:42 | reading from 1 is reading from 0 against the hash row with one extra leading component |
| `SparseVectors.ConventionsDisagree` | src/LazyKnnSearch.java:89 | the same record gives different scalars under the two bases, and the top 1-based position is out of range when read from 0 |
| `Signatures.Mismatches` | src/knn/LazyKnnSearch.java:79-87 | the count of differing positions is at most the number of positions compared |
| `Signatures.MismatchesZeroIff` | src/knn/LazyKnnSearch.java:79-87 | no position differs exactly when the two signatures agree on the positions compared |
| `Signatures.MismatchesSymmetric` | src/knn/LazyKnnSearch.java:79-87 | the count does not depend on which signature is the query |
| `Signatures.HammingDistance` | src/knn/LazyKnnSearch.java:79-87 | `getHammingDistance` with `equals` counts the query positions whose stored string differs; the count is 0 exactly when the stored signature starts with the query's |
| `Signatures.Render` | src/knn/LazyKnnSearch.java:48-56 | printed bands are non-empty and free of commas and tabs, so they survive the stored line format |
| `Signatures.MismatchesOfRendered` | src/knn/LazyKnnSearch.java:52-53 | the distance between printed signatures equals the distance between their buckets |
| `Signatures.RenderedDiffer` | src/knn/LazyKnnSearch.java:52-53 | two printed bands differ exactly when their buckets differ |
| `Signatures.MismatchesOfPointwise` | src/knn/LazyKnnSearch.java:79-87 | two pairs of signatures that differ at the same positions are at the same distance |
| `Signatures.RenderInjective` | src/knn/LazyKnnSearch.java:52-53 | two bucket signatures print alike exactly when they are equal |
| `Signatures.SparseHashed` | src/knn/LazyKnnSearch.java:36-46 | the sparse `hashed` is a 32-bit int, for either position base |
| `Signatures.SparseHashedIsDense` | src/knn/LazyKnnSearch.java:36-46 | the sparse `hashed` is the bucket of the dot product of the dense vector the entries describe |
| `Signatures.SparseSignature` | src/knn/LazyKnnSearch.java:48-56 | one printed band per hash row, and the bands are the printed buckets of the query, row by row |
| `Signatures.SignatureOf` | src/knn/LazyKnnSearch.java:89-92 | the stored bands contain neither commas nor tabs |
| `Signatures.EntryOf` | src/knn/LazyKnnSearch.java:94-97 | the payload is what follows the first tab, so signature text, tab and payload rebuild the line; without a tab it is the whole line |
| `Signatures.LineDistance` | src/knn/LazyKnnSearch.java:73 | a stored line's distance to the query is at most the query's length |
| `Signatures.ParseFormattedLine` | src/knn/LazyKnnSearch.java:89-97 | a line written as bands, tab and payload reads back as exactly those bands and that payload |
| `Signatures.OwnSignatureIsNearest` | src/knn/LazyKnnSearch.java:79-92 | a stored line carrying the query's own signature is at distance 0 |
| `Signatures.JoinKeepsOut` | src/knn/LazyKnnSearch.java:90 | joining tab-free bands with commas gives tab-free text, so the first tab of a line is the separator |
| `Signatures.SplitKeepsOut` | src/knn/LazyKnnSearch.java:90-91 | `split` introduces no character that was not in the text |
| `Signatures.PiecesKeepOut` | src/knn/LazyKnnSearch.java:90-91 | cutting at separators introduces no character that was not in the text |
| `Ranking.CompareTo` | src/knn/LazyKnnSearch.java:120-123 | `distance - other.distance` is negative, zero or positive exactly as the distances compare |
| `Ranking.CompareToAntisymmetric` | src/knn/LazyKnnSearch.java:120-123 | swapping the pairs negates the comparison |
| `Ranking.CompareToTransitive` | src/LazyKnnSearch.java:113-116 | the order is transitive |
| `Ranking.Insert` | src/LazyKnnSearch.java:44 | inserting one pair adds exactly that pair |
| `Ranking.InsertKeepsSorted` | src/LazyKnnSearch.java:44 | inserting into a sorted sequence keeps it sorted |
| `Ranking.Sort` | src/LazyKnnSearch.java:44 | `Collections.sort` returns a permutation of the pairs in non-decreasing distance |
| `Ranking.AtDistanceAppend` | src/LazyKnnSearch.java:44 | the pairs at one distance in a concatenation are those of each part, in order |
| `Ranking.AtDistanceOfFarther` | src/LazyKnnSearch.java:44 | a sorted sequence whose pairs are all farther than `d` holds none at `d` |
| `Ranking.InsertKeepsOrderWithinDistance` | src/LazyKnnSearch.java:44 | inserting a pair places it after every pair already there at its distance |
| `Ranking.SortIsStable` | src/knn/LazyKnnSearch.java:102 | the sort is stable: at every distance, the pairs keep their input order |
| `Ranking.SortIsStableAt` | src/knn/LazyKnnSearch.java:102 | at one distance, the sorted pairs are the input's pairs at that distance, in input order |
| `Ranking.AtDistanceOfEqual` | src/LazyKnnSearch.java:44 | when every pair is at distance `d`, the group at `d` is the whole sequence |
| `Ranking.SortOfEqualDistances` | src/LazyKnnSearch.java:44 | when all distances are equal, sorting leaves the file order unchanged |
| `Ranking.TopK` | src/knn/LazyKnnSearch.java:102-107 | the first `k` after sorting are sorted and drawn from the pairs, none farther than any pair left out, and at each distance the earliest pairs |
| `Ranking.PrefixOfSortedIsNearest` | src/knn/LazyKnnSearch.java:102-107 | no pair left out of the first `k` is nearer than a pair kept |
| `Ranking.SortedPrefixIsNearest` | src/knn/LazyKnnSearch.java:104-107 | in any sorted sequence, no pair after position `k` is nearer than a pair before it |
| `Ranking.SplitMultiset` | src/knn/LazyKnnSearch.java:104-107 | the pairs left out are exactly the suffix after the first `k` |
| `Ranking.PrefixOfSortedIsEarliest` | src/knn/LazyKnnSearch.java:102-107 | the kept pairs at each distance are the earliest pairs of the input at that distance |
| `Ranking.InsertKeepsDistinctItems` | src/LazyKnnSearch.java:44 | inserting a new line number keeps the line numbers distinct |
| `Ranking.SortKeepsDistinctItems` | src/LazyKnnSearch.java:44 | sorting keeps the line numbers distinct |
| `Ranking.InsertItems` | src/LazyKnnSearch.java:44 | inserting a pair adds exactly its item to the multiset of items |
| `Ranking.SortItems` | src/LazyKnnSearch.java:44 | sorting the pairs permutes their items: the multiset of items is unchanged |
| `Ranking.AtDistanceMembers` | src/LazyKnnSearch.java:44 | the group at a distance holds exactly the pairs at that distance |
| `Ranking.AtDistanceKeepsIncreasing` | src/LazyKnnSearch.java:44 | a subsequence of pairs with increasing line numbers still has increasing line numbers |
| `KnnLazyKnnSearch.Hashed` | src/knn/LazyKnnSearch.java:36-46 | with positions counted from 1, the bucket is that of the dense dot product, a 32-bit int |
| `KnnLazyKnnSearch.CalculateSignature` | src/knn/LazyKnnSearch.java:48-56 | one printed bucket per hash row, each equal to `hashed` of the query under that row |
| `KnnLazyKnnSearch.SignatureDistanceIsBucketDistance` | src/knn/LazyKnnSearch.java:79-87 | the text distance that the search ranks by equals the distance between bucket vectors |
| `KnnLazyKnnSearch.Scored` | src/knn/LazyKnnSearch.java:73-74 | a line's pair has distance at most the query's length |
| `KnnLazyKnnSearch.SearchInFile` | src/knn/LazyKnnSearch.java:68-76 | one pair per line, in line order, appended after the pairs of earlier files, each the line's distance and payload |
| `KnnLazyKnnSearch.NeighbourLineDecodes` | src/knn/LazyKnnSearch.java:105-106 | an output line reads back as its distance text and its payload |
| `KnnLazyKnnSearch.GetNeighbours` | src/knn/LazyKnnSearch.java:101-109 | the output is the first `k` pairs after the stable sort, each written as distance, tab, payload; nothing is written for `k <= 0` |
| `KnnLazyKnnSearch.NeighboursAreNearest` | src/knn/LazyKnnSearch.java:101-109 | the lines written are those of the first `k` pairs after sorting; their distances never decrease, no pair left out is nearer than a pair written, and each line decodes to its payload |
| `LazyKnnSearch.Hashed` | src/LazyKnnSearch.java:83-93 | with positions counted from 0, the bucket is that of the dense dot product, a 32-bit int |
| `LazyKnnSearch.CalculateSignature` | src/LazyKnnSearch.java:95-102 | one printed bucket per hash row, each equal to `hashed` of the query under that row |
| `LazyKnnSearch.HammingDistanceAsWritten` | src/LazyKnnSearch.java:74-81 | as written, the count of positions whose strings are different objects, at most the query's length |
| `LazyKnnSearch.ReferenceCountBoundsTextCount` | src/LazyKnnSearch.java:76-78 | reference inequality over-counts: every text difference is an object difference |
| `LazyKnnSearch.FreshStringsAlwaysDiffer` | src/LazyKnnSearch.java:76-78 | against freshly split strings every position counts, whatever the texts |
| `LazyKnnSearch.IdenticalSignatureAtFullDistance` | src/LazyKnnSearch.java:74-81 | a stored signature that spells the query's buckets is at the maximum distance as written and at 0 by value |
| `LazyKnnSearch.AsWrittenRankingIsFileOrder` | src/LazyKnnSearch.java:41-44 | when every line is at the same distance, the stable sort keeps file order, so as written the "nearest" lines are the first lines of the file |
| `LazyKnnSearch.Scan` | src/LazyKnnSearch.java:36-43 | pair `j` holds line `j`'s distance (by value) and its 0-based line number |
| `LazyKnnSearch.SelectLineNumbersAsWritten` | src/LazyKnnSearch.java:45-48 | a negative `KNN` is an illegal capacity; `KNN = 0` selects nothing; any positive `KNN` after the first pass reads past the end; any success repeats one line number `KNN` times |
| `LazyKnnSearch.SelectLineNumbers` | src/LazyKnnSearch.java:45-48 | with `get(k)`: a negative `KNN` is an illegal capacity, a `KNN` beyond the number of pairs reads `get(size)` and fails, and otherwise the result is the line numbers of the first `KNN` sorted pairs, in rank order |
| `LazyKnnSearch.DefaultKnnFailsAsWritten` | src/LazyKnnSearch.java:15-48 | at the default `KNN = 20`, the selection as written fails on every file |
| `LazyKnnSearch.DefaultKnnOnShortFile` | src/LazyKnnSearch.java:15-48 | even with `get(k)`, the default `KNN = 20` fails on a file of fewer than 20 lines |
| `LazyKnnSearch.SortAscending` | src/LazyKnnSearch.java:49 | `Collections.sort` of the line numbers: a permutation (the same multiset of numbers), ascending, and strictly ascending when they are distinct |
| `LazyKnnSearch.SortedTagsAreTags` | src/LazyKnnSearch.java:49 | sorting the tagged numbers keeps each tag equal to its number, permutes the numbers (same multiset), and keeps distinct numbers distinct |
| `LazyKnnSearch.SortedTagIsTag` | src/LazyKnnSearch.java:49 | after sorting, each tag still carries its own number as its distance |
| `LazyKnnSearch.SortedItemIsNumber` | src/LazyKnnSearch.java:49 | every number in the sorted result was in the input |
| `LazyKnnSearch.NumberIsSortedItem` | src/LazyKnnSearch.java:49 | every input number is in the sorted result |
| `LazyKnnSearch.SecondPass` | src/LazyKnnSearch.java:53-63 | payload `b` is the payload of line `lineNumbers[b]`; with strictly ascending in-range numbers, exactly `KNN` payloads are written |
| `LazyKnnSearch.TopLinesAreNearest` | src/LazyKnnSearch.java:44-48 | the picked line numbers are distinct, and each is nearer than every line left out, or as near and earlier |
| `LazyKnnSearch.TopItemsDistinct` | src/LazyKnnSearch.java:44-48 | distinct line numbers stay distinct among the first `KNN` after sorting |
| `LazyKnnSearch.TopPairIsIndexed` | src/LazyKnnSearch.java:44-48 | each of the first `KNN` pairs after sorting is the pair of the line its number names |
| `LazyKnnSearch.TopPairPrecedes` | src/LazyKnnSearch.java:44-48 | each of the first `KNN` pairs is nearer than every line not picked, or as near and earlier |
| `LazyKnnSearch.EarlierWinsTie` | src/LazyKnnSearch.java:44 | between two lines at the same distance, the one picked is the earlier |
| `LazyKnnSearch.PickedFirstOfSameMembers` | src/LazyKnnSearch.java:49 | sorting the picked numbers keeps them picked |
| `LazyKnnSearch.PickedLinesAreNearest` | src/LazyKnnSearch.java:41-49 | the picked lines precede the rest in (distance, line) order, stated on the lines' own distances |
| `LazyKnnSearch.ChosenLines` | src/LazyKnnSearch.java:44-49 | after selection and `Collections.sort`, the line numbers are strictly ascending, in range, and picked before every line left out |
| `LazyKnnSearch.SearchNearest` | src/LazyKnnSearch.java:36-63 | with both defects corrected: a negative `KNN` is an illegal capacity and a `KNN` beyond the number of lines reads past the end, both before anything is written; otherwise it writes `KNN` payloads in file order, and a line is left out only for a nearer line or an equally near, earlier one |

## Left out

- Hadoop wiring is left out, because it is framework I/O, not the logic of the core. This
  covers `setup`, the distributed-cache config files, `createConfigFile`, job drivers and
  `main`, command-line parsing, `KnnDriver`, and the `BitSetWritable` serialisation
  (`write`, `readFields`, `toString`). Map and reduce are modelled as functions of one record
  or group.
- File reading and writing is left out. A file is a sequence of lines; written output is the
  returned sequence.
- Number parsing is a parameter. `parseDoubleArr` and `Double.parseDouble` become the `parse`
  function parameter. Sparse records arrive already parsed as `SparseEntry` values, so
  `Integer.parseInt` and the `split(":")` are not modelled.
- Floating point is idealised as exact `real` arithmetic: rounding, `float` vs `double`, NaN
  and infinities. The one exception is the zero bucket width in `Numerics.Bucket`, where
  ±Infinity and NaN decide the result.
- `Math.random` becomes an explicit sequence of draws. `Math.sqrt` becomes an explicit
  magnitude argument constrained by `IsMagnitude`. `Math.cos(x · π)` becomes the abstract
  `estimate` function. `PassesMonotone` additionally assumes that `estimate` is
  non-increasing on [0, 1], the range of the distance fraction.
- FeatureVectorLsh.GenerateRandomHash: the source loops until it finds enough new hashes. With
  a finite sequence of draws, the model stops when the draws run out, and its contract says
  what a short result means.
- Signatures.SparseSignature: the loop computes each hash row's bucket and the buckets are
  printed after the loop, where `calculateSignature` prints each one inside it. The resulting
  strings are the same.
- EuclideanLsh.GenerateRandomHash: the source's unused `usedHashes` parameter is dropped. The
  model uses the corrected normalisation (see Findings).
- `BUCKET_WIDTH` is passed as the `width` argument. In the source it is a static field that the
  driver's `-b` option assigns in the driver JVM. The mapper JVMs would still see the
  default 20.
- `EuclideanLsh.Reduce` models the body of `MyReducer.reduce`. That method takes
  `Iterable<Text>` while the values are `NullWritable`, so it overloads rather than overrides,
  and Hadoop's identity reduce runs instead. That reduce also writes the key once per value,
  so the output is the same.
- Runtime exceptions on malformed input are preconditions: a record line without a tab, a
  vector shorter than a hash row, a sparse position outside the hash row, a stored signature
  shorter than the query's, and `k` larger than the number of pairs in `getNeighbours`. The
  exceptions are kept as values where the code raises them on an ordinary argument: a
  negative `KNN` and a `KNN` beyond the number of lines (`SelectLineNumbersAsWritten`,
  `SelectLineNumbers`, `SearchNearest`).
- EuclideanLsh.HashRow: proves unit length under the corrected sum-of-squares magnitude. The
  `normalize` that lines 126-129 call divides by the square root of the raw sum instead; that
  behaviour is modelled by `Vectors.NormalizeAsWritten` (see Findings).
- String identity is modelled as an explicit object id (`JString`). Interning is not modelled.
  The strings involved come from `split` and concatenation, which allocate new objects at run
  time, and `FreshStringsAlwaysDiffer` states that as its precondition.
- The unused `KNN = 2` constant of `FeatureVectorLsh`, and the commented-out code in both
  reducers, are not modelled.

## Findings

| source | as written | input that shows it | evidently intended | confidence | as-written member | corrected member |
|---|---|---|---|---|---|---|
| src/LazyKnnSearch.java:77 | `searchSig[i] != storedSig[i]` compares `String` references, and the two signatures' strings are always distinct objects | query signature `["3", "-1"]` against the stored line `3,-1<TAB>…`: distance 2 (the maximum) instead of 0 (`IdenticalSignatureAtFullDistance`); every line ties, so the "nearest" lines are the first lines of the file (`AsWrittenRankingIsFileOrder`) | `!searchSig[i].equals(storedSig[i])`, as src/knn/LazyKnnSearch.java:82 writes it | high, not executed | `LazyKnnSearch.HammingDistanceAsWritten` | `Signatures.HammingDistance` |
| src/LazyKnnSearch.java:47 | `knnDistances.get(i)` indexes with the first pass's line counter `i`, which equals the number of lines once that pass ends | any file with `KNN >= 1`: `get(size)` throws `IndexOutOfBoundsException` | `knnDistances.get(k)`, the `k`-th nearest pair | high, not executed | `LazyKnnSearch.SelectLineNumbersAsWritten` | `LazyKnnSearch.SelectLineNumbers` |
| src/EuclideanLsh.java:137 | `sumOfSq += vector[i]` sums the raw components, so the "magnitude" is the square root of their sum | `[0.5, 0.5]` is normalised to squared length 0.5 (`RawSumMagnitudeIsNotUnit`); for `[-0.25, -0.25]` the raw sum is negative and no magnitude exists, where Java yields NaN (`RawSumMagnitudeCanBeUndefined`) | `sumOfSq += vector[i] * vector[i]` | high, not executed | `Vectors.NormalizeAsWritten` | `Vectors.NormalizeIsUnit` |

With the corrections in place, `LazyKnnSearch.SearchNearest` uses `Signatures.HammingDistance`
(through `Scan`) and `SelectLineNumbers`. `EuclideanLsh.GenerateRandomHash` uses the
sum-of-squares magnitude (through `HashRow`).
