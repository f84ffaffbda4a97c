# irws-project: a verified model of the indexing core

This project models, in Dafny, the core of a small information-retrieval
experiment written in Kotlin. The experiment reads a collection of
documents in the `.I <id>` / `.W` / token-lines format. It turns every
token into a numeric term id and measures how many bits the d-gaps of the
posting lists cost under four encoders. The encoders are 32-bit fixed
length, variable byte, Elias gamma and Elias delta. It also clusters the
documents with a streaming clusterer driven by Jaccard distance.

The modules follow the source files:

- `BinaryEncoder` (`binary_encoder.dfy`) covers the encoders' `calcBits`, `bitsCount` and the fixed-length `maxValue`.
- `Utils` (`utils.dfy`) covers the Jaccard index and distance and the generic `minOf`.
- `Documents` (`documents.dfy`) covers the document value, its `equals`/`hashCode`, the document distance and `remapIds`.
- `DGaps` (`dgaps.dfy`) covers `compute` and `computeDGaps`. They are proved against a specification built from per-term posting lists.
- `Terms` (`terms.dfy`) covers the term dictionary as a class with the `getTermId`/`toTermIds` methods. They are proved against a pure fold `RegisterAll`.
- `Parsing` (`parsing.dfy`) covers the line iterator and `nextDocument` (both copies: src/main/java/com/github/mmauro94/irws/Parsing.kt and the older src/com/github/mmauro94/irws/Document.kt). They are proved against a pure reader `ReadDocument`.
- `Clustering` (`clustering.dfy`) covers `Cluster` as a class and `streamCluster` as a method. They are proved against a pure fold `StreamClusterSpec`. The older copy src/com/github/mmauro94/irws/Cluster.kt is the same class and the same loop without the progress message, so `Cluster` and `StreamCluster` model both copies.
- `Common` (`common.dfy`) holds `Option` and `Result`.

Where the prose documentation and the code disagree, the model follows the code:

- **Variable byte** costs `(bitsCount / 7) * 8`. The division rounds down, so values below 64 cost 0 bits. The repository's tests expect a rounded-up byte count (8 bits for 1).
- **Elias gamma** reuses the unary encoder, which costs `n + 1`. Gamma therefore costs `2 * bitsCount(n)`, one bit more than the textbook `2*floor(log2 n)+1` the tests expect. Elias delta of 7 is 6, not 5.
- **`minOf`** replaces the kept pair when `min.second < selected`. It therefore returns the FIRST MAXIMUM, not a minimum. `streamCluster` then joins a document to a cluster only when every medoid is closer than the radius.
- **`remapIds`** numbers documents from 0, although its comment says 1.
- **The terminating blank line** of a document is split like any other. An empty terminator adds the empty token `""`, which gets a term id of its own.

## Model

| member | source | states |
|---|---|---|
| BinaryEncoder.BitsCount | src/main/java/com/github/mmauro94/irws/BinaryEncoder.kt:24-26 | the bit length of n >= 1: 2^(len-1) <= n < 2^len |
| BinaryEncoder.BitsCountUnique | src/test/java/com/github/mmauro94/irws/BinaryEncoderTest.kt:10-13 | any len with 2^(len-1) <= n < 2^len is the bit count (binary string length) |
| BinaryEncoder.CalcBits | src/main/java/com/github/mmauro94/irws/BinaryEncoder.kt:39-90 | the four `calcBits` bodies as one function over the encoder family; only positive values are accepted and a cost is never negative (the per-encoder costs are the lemmas below) |
| BinaryEncoder.FixedLengthCost | src/main/java/com/github/mmauro94/irws/BinaryEncoder.kt:39-42 | a fixed-length encoder costs `bits` exactly for n in 1..2^bits-1 and rejects every other n |
| BinaryEncoder.FixedLengthFits | src/main/java/com/github/mmauro94/irws/BinaryEncoder.kt:37-40 | for 0..62 bits, a positive value is accepted exactly when its binary representation fits in `bits` bits |
| BinaryEncoder.FixedLengthEdges | src/main/java/com/github/mmauro94/irws/BinaryEncoder.kt:37-40 | the double-to-Long truncation of maxValue: a negative width accepts nothing; from 63 bits every value below Long.MAX_VALUE is accepted, Long.MAX_VALUE itself is not |
| BinaryEncoder.NonPositiveRejected | src/main/java/com/github/mmauro94/irws/BinaryEncoder.kt:40-87 | every encoder's `require` rejects n <= 0 |
| BinaryEncoder.VariableByteCost | src/main/java/com/github/mmauro94/irws/BinaryEncoder.kt:55-58 | variable byte accepts every n >= 1 and costs a multiple of 8 bits, floor(bitsCount/7) bytes |
| BinaryEncoder.VariableByteFreeBelow64 | src/main/java/com/github/mmauro94/irws/BinaryEncoder.kt:55-58 | every n in 1..63 costs 0 bits under variable byte |
| BinaryEncoder.VariableByteShortByOne | src/main/java/com/github/mmauro94/irws/BinaryEncoder.kt:57 | when bitsCount is not a multiple of 7, the cost is one byte less than ceil(bitsCount/7) bytes |
| BinaryEncoder.VariableByteExamples | src/test/java/com/github/mmauro94/irws/BinaryEncoderTest.kt:19-25 | the code's costs on the test inputs: 1, 10 → 0; 127, 128, 200 → 8; 16383, 16384 → 16 |
| BinaryEncoder.UnaryCost | src/main/java/com/github/mmauro94/irws/BinaryEncoder.kt:70-73 | unary costs n + 1 bits for n >= 1 and rejects n <= 0 |
| BinaryEncoder.UnaryExamples | src/test/java/com/github/mmauro94/irws/BinaryEncoderTest.kt:30-32 | the tested values 1 → 2, 5 → 6, 100 → 101 |
| BinaryEncoder.UnboundedNeverFails | src/main/java/com/github/mmauro94/irws/BinaryEncoder.kt:55-90 | variable byte, unary and Elias codes over them accept every n >= 1 with a non-negative cost |
| BinaryEncoder.GammaCost | src/main/java/com/github/mmauro94/irws/BinaryEncoder.kt:86-99 | gamma costs unary(bitsCount) + bitsCount - 1 = 2 * bitsCount(n) |
| BinaryEncoder.GammaOnRange | src/test/java/com/github/mmauro94/irws/BinaryEncoderTest.kt:53-55 | every n in [2^(k-1), 2^k) costs 2k under gamma |
| BinaryEncoder.GammaExamples | src/test/java/com/github/mmauro94/irws/BinaryEncoderTest.kt:37-51 | the code's gamma costs on the test inputs: 1 → 2, 2 → 4, 4 → 6, 511 → 18, 1025 → 22 |
| BinaryEncoder.DeltaCost | src/main/java/com/github/mmauro94/irws/BinaryEncoder.kt:86-108 | delta costs 2 * bitsCount(bitsCount(n)) + bitsCount(n) - 1 |
| BinaryEncoder.EliasCostOk | src/main/java/com/github/mmauro94/irws/BinaryEncoder.kt:86-90 | an Elias code costs its length encoder's cost of bitsCount(n) plus bitsCount(n) - 1 |
| BinaryEncoder.DeltaOfSeven | src/test/java/com/github/mmauro94/irws/BinaryEncoderTest.kt:60 | the code's delta cost of 7 is 6 |
| Utils.LessIsStrictTotalOrder | src/main/java/com/github/mmauro94/irws/Utils.kt:30 | the Double `<` used by minOf (NaN above every number) is irreflexive, asymmetric, transitive and total |
| Utils.Less | src/main/java/com/github/mmauro94/irws/Utils.kt:30 | definition of `min.second < selected` for Double keys by `compareTo` (NaN above every number); LessIsStrictTotalOrder proves it an order |
| Utils.Below | src/main/java/com/github/mmauro94/irws/Cluster.kt:20 | definition of `min.second < radius` as an IEEE comparison, false for NaN; used by JoinRule and NothingBelowZero |
| Utils.FirstMaxIndex | src/main/java/com/github/mmauro94/irws/Utils.kt:26-35 | the index the minOf loop ends on, always a valid index; FirstMaxIndexIsFirstMax characterises it |
| Utils.JaccardIndex | src/main/java/com/github/mmauro94/irws/Utils.kt:16-20 | the index is NaN (0/0) exactly when both sets are empty |
| Utils.JaccardDistance | src/main/java/com/github/mmauro94/irws/Utils.kt:8-10 | the distance is NaN exactly when both sets are empty |
| Utils.JaccardIndexRange | src/main/java/com/github/mmauro94/irws/Utils.kt:16-20 | for non-empty input the index is in [0,1]; it is 1 iff the sets are equal and 0 iff they are disjoint |
| Utils.JaccardDistanceRange | src/main/java/com/github/mmauro94/irws/Utils.kt:8-10 | the distance is in [0,1]; it is 0 iff the sets are equal, 1 iff disjoint, and index + distance = 1 |
| Utils.JaccardSymmetric | src/main/java/com/github/mmauro94/irws/Utils.kt:8-20 | index and distance are symmetric in their arguments |
| Utils.JaccardExamples | src/test/java/com/github/mmauro94/irws/UtilsTest.kt:14-35 | the tested values: 1.0, 0.0, 0.5, 0.2 and distance 0.8 |
| Utils.FirstMaxIndexIsFirstMax | src/main/java/com/github/mmauro94/irws/Utils.kt:26-35 | the kept index holds a largest key and every earlier key is strictly smaller |
| Utils.FirstMaxUnique | src/main/java/com/github/mmauro94/irws/Utils.kt:26-35 | at most one index is the first maximum, so the loop's choice is determined |
| Utils.FirstMaxIsMaximum | src/main/java/com/github/mmauro94/irws/Utils.kt:30 | no key is larger than the kept one |
| Utils.MinOfIsMinimumOnlyWhenAllEqual | src/main/java/com/github/mmauro94/irws/Utils.kt:26-35 | the kept key is a minimum only when all keys are equal |
| Utils.MinOf | src/main/java/com/github/mmauro94/irws/Utils.kt:26-35 | null exactly for an empty iterable; otherwise the pair (element, key) at the first maximum of the keys |
| Utils.MinOfTestExample | src/test/java/com/github/mmauro94/irws/UtilsTest.kt:41 | on key lengths 5, 3, 8 the code keeps index 2 (length 8), not the 3 the test expects |
| Documents.SameDocumentSameHash | src/main/java/com/github/mmauro94/irws/Document.kt:11-12 | equal documents (same id) have equal hash codes; equality ignores the terms |
| Documents.SameDocument | src/main/java/com/github/mmauro94/irws/Document.kt:12 | definition of `equals`: same docId, terms ignored |
| Documents.HashCode | src/main/java/com/github/mmauro94/irws/Document.kt:11 | definition of `hashCode` as Long.hashCode of the id; SameDocumentSameHash and HashCollision relate it to equals |
| Documents.LongHash | src/main/java/com/github/mmauro94/irws/Document.kt:11 | definition of Long.hashCode: the two 32-bit halves of the 64-bit two's-complement form xor-ed |
| Documents.HashCollision | src/main/java/com/github/mmauro94/irws/Document.kt:11 | Long.hashCode maps ids 0 and 2^32+1 to the same hash, yet they are different documents |
| Documents.DocDistanceProperties | src/main/java/com/github/mmauro94/irws/Document.kt:19 | symmetric; NaN exactly for two documents without terms; otherwise in [0,1] and 0 iff the term sets are equal |
| Documents.RemapIds | src/main/java/com/github/mmauro94/irws/Document.kt:26-31 | the i-th document becomes Document(i, same terms), same length |
| Documents.RemappedIdsDistinct | src/main/java/com/github/mmauro94/irws/Document.kt:26-31 | remapped ids are strictly increasing and pairwise distinct, and the term sets are kept as a multiset |
| Documents.DistinctIdsPermutation | src/main/java/com/github/mmauro94/irws/DGaps.kt:36 | reordering the documents keeps their ids distinct |
| DGaps.InsertById | src/main/java/com/github/mmauro94/irws/DGaps.kt:36 | inserting into an id-sorted list keeps it sorted and adds exactly that document |
| DGaps.SortByDocId | src/main/java/com/github/mmauro94/irws/DGaps.kt:36 | `sortedBy { docId }` yields an id-sorted permutation of the input |
| DGaps.SortedArrangementUnique | src/main/java/com/github/mmauro94/irws/DGaps.kt:36 | with distinct ids there is only one id-sorted arrangement of a multiset of documents |
| DGaps.SortIsOrderIndependent | src/main/java/com/github/mmauro94/irws/DGaps.kt:36 | with distinct ids, the sorted list (and so the cost) does not depend on the input order |
| DGaps.PostingListNonEmpty | src/main/java/com/github/mmauro94/irws/DGaps.kt:37-42 | a term has a posting entry iff some document contains it |
| DGaps.PostingList | src/main/java/com/github/mmauro94/irws/DGaps.kt:37-42 | definition: the ids of the documents containing a term, in collection order; its properties are the PostingList lemmas below |
| DGaps.GapBits | src/main/java/com/github/mmauro94/irws/DGaps.kt:38-41 | definition: the summed cost of the gaps between consecutive entries, or the first rejection; GapBitsOk characterises success |
| DGaps.TotalBits | src/main/java/com/github/mmauro94/irws/DGaps.kt:35-45 | definition: the sum over all terms of their GapBits; Compute is proved equal to it |
| DGaps.PostingListMembers | src/main/java/com/github/mmauro94/irws/DGaps.kt:42 | every posting entry is the id of a document containing the term |
| DGaps.PostingListLength | src/main/java/com/github/mmauro94/irws/DGaps.kt:37-42 | a posting list is no longer than the collection |
| DGaps.PostingListBounded | src/main/java/com/github/mmauro94/irws/DGaps.kt:37-42 | posting entries are ids of the collection: below any bound on those ids |
| DGaps.PostingListIncreasing | src/main/java/com/github/mmauro94/irws/DGaps.kt:36-42 | sorted by distinct ids, every posting list is strictly increasing, so every gap is positive |
| DGaps.PostingListLastIsLargest | src/main/java/com/github/mmauro94/irws/DGaps.kt:42 | the last id stored for a term is the largest id of a document containing it |
| DGaps.GapBitsOk | src/main/java/com/github/mmauro94/irws/DGaps.kt:38-41 | a posting list's gaps cost a number iff the encoder accepts every gap |
| DGaps.GapBitsErrPrefix | src/main/java/com/github/mmauro94/irws/DGaps.kt:40 | a rejected gap in a prefix makes the whole list fail |
| DGaps.MapSumRemove | src/main/java/com/github/mmauro94/irws/DGaps.kt:35-40 | the total is any term's cost plus the rest's |
| DGaps.WalkDocument | src/main/java/com/github/mmauro94/irws/DGaps.kt:37-43 | one document's term loop: either an encoder rejection of the collection or the walk invariant for one more document |
| DGaps.WalkDone | src/main/java/com/github/mmauro94/irws/DGaps.kt:45 | at the end of the walk the total equals the sum over terms of their posting-list gap costs |
| DGaps.Compute | src/main/java/com/github/mmauro94/irws/DGaps.kt:33-46 | an error iff some gap of the id-sorted collection is rejected; otherwise the total d-gap cost over all posting lists |
| DGaps.FewDocumentsCostNothing | src/main/java/com/github/mmauro94/irws/DGaps.kt:37-44 | with at most one document there is no gap: cost 0, no failure |
| DGaps.DistinctIdsNeverFail | src/main/java/com/github/mmauro94/irws/DGaps.kt:33-46 | with distinct ids, variable byte, gamma and delta never fail |
| DGaps.EqualIdsSharingTermFail | src/main/java/com/github/mmauro94/irws/DGaps.kt:36-42 | two documents anywhere in the input with the same id and a shared term make every encoder fail on the sorted collection, so `compute` errs |
| DGaps.SortedEqualIdsFail | src/main/java/com/github/mmauro94/irws/DGaps.kt:38-41 | in an id-sorted list, two equal-id documents sharing a term put a gap <= 0 into its posting list, which every encoder rejects |
| DGaps.PostingListIncreasingWhenDisjoint | src/main/java/com/github/mmauro94/irws/DGaps.kt:36-42 | sorted documents whose equal ids never share a term give strictly increasing posting lists |
| DGaps.UnboundedFailsExactly | src/main/java/com/github/mmauro94/irws/DGaps.kt:33-46 | for variable byte, gamma and delta, `compute` fails exactly when two documents with the same id share a term |
| DGaps.EncodingsDistinct | src/main/java/com/github/mmauro94/irws/Main.kt:24-29 | the four encodings are pairwise different, so the result map has four entries |
| DGaps.ComputeDGaps | src/main/java/com/github/mmauro94/irws/DGaps.kt:28 | on success, a map from exactly the given encoders to their total costs; an error only when some encoder fails |
| Terms.Register | src/main/java/com/github/mmauro94/irws/Terms.kt:19 | getOrPut: a known term keeps its id and the counter; a new one gets counter+1; other entries are untouched |
| Terms.RegisterAll | src/main/java/com/github/mmauro94/irws/Terms.kt:25 | definition: `getTermId` applied to a list from left to right; ToTermIds is proved equal to it and the RegisterAll lemmas give its properties |
| Terms.RegisterKeepsDictionary | src/main/java/com/github/mmauro94/irws/Terms.kt:10-19 | ids stay in 1..lastTermId, injective, with exactly lastTermId terms |
| Terms.RegisterAllKeepsDictionary | src/main/java/com/github/mmauro94/irws/Terms.kt:25 | the same invariant after registering a list |
| Terms.Strings | src/main/java/com/github/mmauro94/irws/Terms.kt:25 | the distinct strings of a list, membership both ways |
| Terms.RegisterAllKeys | src/main/java/com/github/mmauro94/irws/Terms.kt:25 | after a list, the known terms are the old ones plus the list's strings |
| Terms.RegisterAllKeeps | src/main/java/com/github/mmauro94/irws/Terms.kt:19-25 | a known term's id never changes |
| Terms.RegisterAllCount | src/main/java/com/github/mmauro94/irws/Terms.kt:10-25 | the counter grows by the number of new distinct strings |
| Terms.IdsOfSize | src/main/java/com/github/mmauro94/irws/Terms.kt:25 | the id set is as large as the set of distinct strings (ids are injective) |
| Terms.ImageSize | src/main/java/com/github/mmauro94/irws/Terms.kt:19 | an injective dictionary maps a set of terms to the same number of ids |
| Terms.IdsAreDense | src/main/java/com/github/mmauro94/irws/Terms.kt:10-19 | the ids in use are exactly 1..lastTermId |
| Terms.FirstSeenOrder | src/main/java/com/github/mmauro94/irws/Terms.kt:19-25 | the first occurrence of a new string gets lastTermId + (number of new strings before it) + 1: ids follow first-seen order |
| Terms.RegisterAllAppend | src/main/java/com/github/mmauro94/irws/Terms.kt:25 | registering a + b is registering a, then b |
| Terms.FirstSeenExample | src/main/java/com/github/mmauro94/irws/Terms.kt:19-25 | on "to be or not to be" the ids are 1, 2, 3, 4 and the repeats reuse 1 and 2 |
| Terms.Terms.constructor | src/main/java/com/github/mmauro94/irws/Terms.kt:10-14 | an empty dictionary with counter 0 |
| Terms.Terms.GetTermId | src/main/java/com/github/mmauro94/irws/Terms.kt:19 | the new state is Register of the old; a known term returns its old id, a new one the old counter + 1; the invariant is kept |
| Terms.Terms.ToTermIds | src/main/java/com/github/mmauro94/irws/Terms.kt:25 | the new state is RegisterAll of the old; the result is the ids of the list, as many as its distinct strings |
| Parsing.SplitSpaces | src/main/java/com/github/mmauro94/irws/Parsing.kt:43 | splitting on " +" always yields at least one piece |
| Parsing.IsWhitespace | src/main/java/com/github/mmauro94/irws/Parsing.kt:57 | definition of Char.isWhitespace as a table of code points (Java whitespace and the Unicode space separators) |
| Parsing.IsBlank | src/main/java/com/github/mmauro94/irws/Parsing.kt:57-74 | definition of isNullOrBlank/isNotBlank on a present line: empty or all whitespace |
| Parsing.RemoveSpaces | src/main/java/com/github/mmauro94/irws/Parsing.kt:43 | the result has no space |
| Parsing.SplitSpacesPieces | src/main/java/com/github/mmauro94/irws/Parsing.kt:43 | no piece holds a space, inner pieces are non-empty, and the pieces concatenate to the line without its spaces |
| Parsing.SplitJoin | src/main/java/com/github/mmauro94/irws/Parsing.kt:43-73 | splitting pieces joined by single spaces gives the pieces back |
| Parsing.DecimalString | src/main/java/com/github/mmauro94/irws/Parsing.kt:39 | the decimal rendering is a non-empty digit string |
| Parsing.DecimalRoundTrip | src/main/java/com/github/mmauro94/irws/Parsing.kt:61 | parsing a rendered number gives it back |
| Parsing.LeadingZero | src/main/java/com/github/mmauro94/irws/Parsing.kt:39-61 | leading zeros do not change the parsed id, so `.I 007` and `.I 7` name the same document |
| Parsing.HeaderDigits | src/main/java/com/github/mmauro94/irws/Parsing.kt:39-61 | a header is ".I " followed by the non-empty digit group |
| Parsing.IsHeader | src/main/java/com/github/mmauro94/irws/Parsing.kt:39-60 | definition of a full match of `^\.I ([0-9]+)$`: ".I " then one or more ASCII digits |
| Parsing.ParseLongRendered | src/main/java/com/github/mmauro94/irws/Parsing.kt:61 | `toLong` of an id written in decimal gives the id back when it fits a Long, and a NumberFormatException otherwise |
| Parsing.FirstBlankFrom | src/main/java/com/github/mmauro94/irws/Parsing.kt:69-74 | the first blank line at or after k, or none when all remaining lines are non-blank |
| Parsing.ReadDocument | src/main/java/com/github/mmauro94/irws/Parsing.kt:54-76 | reference definition of one `nextDocument` call on the lines from a position, with the checks in the source's order; SkippedExactly and ParsedExactly characterise it, and ScanDocument and NextDocument are proved equal to it |
| Parsing.SkippedExactly | src/main/java/com/github/mmauro94/irws/Parsing.kt:56-57 | nothing is read iff the input is over or the next line is blank; a blank line is consumed |
| Parsing.ParsedExactly | src/main/java/com/github/mmauro94/irws/Parsing.kt:54-76 | a document is read iff header, Long-sized id, `.W` and a later blank line are present; it then consumes through that blank line and holds its tokens |
| Parsing.EmptyTerminatorToken | src/main/java/com/github/mmauro94/irws/Parsing.kt:71-74 | an empty terminating line adds the empty token |
| Parsing.TokensHaveNoSpaces | src/main/java/com/github/mmauro94/irws/Parsing.kt:73 | no token holds a space |
| Parsing.ReadRendered | src/main/java/com/github/mmauro94/irws/Parsing.kt:54-76 | a rendered document followed by anything reads back as its id and tokens, consuming exactly its lines |
| Parsing.LineIterator.constructor | src/main/java/com/github/mmauro94/irws/Parsing.kt:22 | an iterator at the first line |
| Parsing.LineIterator.Next | src/main/java/com/github/mmauro94/irws/Parsing.kt:56 | returns the current line and advances by one |
| Parsing.NextLineOrIOException | src/main/java/com/github/mmauro94/irws/Parsing.kt:81-84 | the next line and one step, or "unexpected end" with no step |
| Parsing.ScanTokens | src/main/java/com/github/mmauro94/irws/Parsing.kt:69-74 | the do-while: the tokens of the lines through the first blank one, stopping after it, or "unexpected end" |
| Parsing.ScanDocument | src/main/java/com/github/mmauro94/irws/Parsing.kt:54-74 | the iterator ends where ReadDocument says, returning nothing, (id, tokens) or its error |
| Parsing.NextDocument | src/main/java/com/github/mmauro94/irws/Parsing.kt:54-76 | as ReadDocument; on success the dictionary registers the tokens and the document holds their ids; on skip or error the dictionary is unchanged |
| Parsing.NextDocumentLegacy | src/com/github/mmauro94/irws/Document.kt:14-39 | the older copy: the same reader, with toTermIds applied to the tokens |
| Clustering.JoinRule | src/main/java/com/github/mmauro94/irws/Cluster.kt:19-21 | a document joins iff its distance to every medoid is a number below the radius; it joins the first farthest medoid |
| Clustering.Joins | src/main/java/com/github/mmauro94/irws/Cluster.kt:19-20 | definition of the join test: some cluster exists and the key minOf keeps is below the radius; JoinRule characterises it |
| Clustering.Step | src/main/java/com/github/mmauro94/irws/Cluster.kt:19-24 | definition of one iteration: add to the chosen cluster or append a new one; StepPreserves and StepCount give its properties |
| Clustering.StreamClusterSpec | src/main/java/com/github/mmauro94/irws/Cluster.kt:13-27 | reference definition of `streamCluster` as a fold of Step over the documents; StreamCluster is proved equal to it |
| Clustering.FirstDocumentFounds | src/main/java/com/github/mmauro94/irws/Cluster.kt:19-23 | the first document founds a cluster |
| Clustering.StepPreserves | src/main/java/com/github/mmauro94/irws/Cluster.kt:19-23 | a step adds at most one cluster (exactly when not joining), keeps medoids and members, and a new cluster is (doc, empty) |
| Clustering.JoinStep | src/main/java/com/github/mmauro94/irws/Cluster.kt:21 | when joining, only the chosen cluster gains the document |
| Clustering.FoundStep | src/main/java/com/github/mmauro94/irws/Cluster.kt:23 | otherwise a cluster with the document as medoid is appended |
| Clustering.SpecSnoc | src/main/java/com/github/mmauro94/irws/Cluster.kt:15-25 | streaming one more document is one more step |
| Clustering.ClusterCount | src/main/java/com/github/mmauro94/irws/Cluster.kt:13-27 | never more clusters than documents, at least one once a document came |
| Clustering.StreamGrows | src/main/java/com/github/mmauro94/irws/Cluster.kt:13-27 | later documents never remove a cluster, change a medoid or drop a member |
| Clustering.RadiusNonPositive | src/main/java/com/github/mmauro94/irws/Cluster.kt:20 | with radius <= 0 every document founds its own cluster |
| Clustering.NothingBelowZero | src/main/java/com/github/mmauro94/irws/Cluster.kt:20 | no distance is below a non-positive radius |
| Clustering.StepCount | src/main/java/com/github/mmauro94/irws/Cluster.kt:19-23 | a step places a new id exactly once (as medoid or member) and leaves other ids' counts alone |
| Clustering.Ids | src/main/java/com/github/mmauro94/irws/Cluster.kt:15 | the ids of the streamed documents |
| Clustering.PlacedExactlyOnce | src/main/java/com/github/mmauro94/irws/Cluster.kt:13-27 | with distinct ids, every streamed document is in exactly one cluster and no other id appears |
| Clustering.FarMedoidSplits | src/main/java/com/github/mmauro94/irws/Main.kt:15 | at radius 0.925, a document at distance 1/3 from one medoid still founds a new cluster because another medoid is at distance 1 |
| Clustering.Cluster.constructor | src/main/java/com/github/mmauro94/irws/Cluster.kt:3-6 | a cluster with the given medoid and no members |
| Clustering.Cluster.AddDoc | src/main/java/com/github/mmauro94/irws/Cluster.kt:7-9 | the member map gains id → document and nothing else changes |
| Clustering.KeysAreDistances | src/main/java/com/github/mmauro94/irws/Cluster.kt:19 | the keys minOf computes over the cluster objects are the spec's distances |
| Clustering.Place | src/main/java/com/github/mmauro94/irws/Cluster.kt:19-24 | one loop iteration: the clusters' states become Step of the old states; clusters stay distinct objects |
| Clustering.StreamCluster | src/main/java/com/github/mmauro94/irws/Cluster.kt:13-27 | fresh, distinct clusters whose states are exactly StreamClusterSpec of the documents |

## Left out

- `documents()` (src/main/java/com/github/mmauro94/irws/Parsing.kt:15-34) reads gzip files from a directory and yields documents lazily. This is file I/O. The model takes the lines of one file as `LineIterator.lines`, and `NextDocument` is its loop body.
- `main` and the constants in Main.kt are left out, apart from the encoder list and the 0.925 radius. `main` is the program's driver and prints results. It also calls `streamCluster` with two arguments (a radius and a cluster limit), `runTSP` and `remap`; none of these three exists in the source with that shape. The older Main.kt (src/com/github/mmauro94/irws/Main.kt) only prints the number of clusters at radius 0.5.
- `DGaps.print` and `bitsToString` are left out. They only format output.
- The progress `println` in `streamCluster` is left out. It is output only.
- Encoder `name` strings and exception messages are left out. Errors are modelled as `EncodeError` and `ParseError` values.
- Floating point is not modelled. `bitsCount` uses `log2` on a double and is modelled as the exact bit length. `maxValue` uses `pow` and is modelled as an exact power of two, truncated as the Long cast does. The Jaccard index is modelled as an exact rational, with NaN kept as its own value.
- 64-bit overflow of `lastTermId`, of gap arithmetic and of `totalBits` is not modelled. Integers are unbounded. `toLong` overflow IS modelled as `NumberFormat`.
- HashMap and HashSet iteration order is not modelled. `compute` sums per-term costs, so the order does not matter. `streamCluster` scans clusters in creation order, while the program scans them in hash order. That order picks the cluster among equally far medoids.
- Kotlin's `Regex` engine is not modelled. The two regular expressions are written out: a header check and a split on runs of spaces.
- The whitespace tested by `isBlank` follows Java's `Character.isWhitespace` plus the space separators, as a fixed table of code points.
- DGaps.Compute: the error value is not pinned. The contract says an error is returned exactly when some gap is rejected, but not which `EncodeError` the first rejected gap raises.
- DGaps.ComputeDGaps: on error the contract names a failing encoder but not which one (the first in the list).
- Parsing.NextDocumentLegacy: the older `toTermIds` extension lives in a file that is not part of this model. It is taken as a function parameter.
- Clustering.Place: the program's `Set<Cluster>` is modelled as a sequence of distinct cluster objects in creation order.
