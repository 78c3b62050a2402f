# Presto: verified models of seven cores

Dafny models of parts of the Presto SQL engine, with proofs about all their inputs and runs.

- **Segmented arrays and their sort** (`BigArrays`, `SortSpec`, `IntBigArrays`, `BigArray`, `Sequences`). Arrays made of
  fixed-size segments behave like one flat growing sequence. The in-place three-way quicksort over the segments is
  proved to sort, to rearrange, to leave everything else alone and to terminate. `IntBigArray` and `ObjectBigArray` are
  one class here, `BigArray<T>`.
- **Memory accounting** (`ReferenceCounts`, `Changes`, `SliceBigArray`, `BlockBigArray`). A running byte total over shared
  slices and blocks equals a count from scratch after every run of calls.
- **K-D-B tree** (`Rectangle`, `KdbTree`, `KdbTreeTheorems`, `KdbTreeShape`, `KdbTreeBuild`). The tree divides its extent,
  shares out the items, numbers its leaves from left to right, and its pruned search equals a scan. When and where nodes
  are split is stated of the tree alone, and determines it. Building is specified in two parts, a plan of all splits and
  a numbering, and the program's single pass is proved to produce both together.
- **Statement client** (`OutputHandler`, `StatementClient`, `StatementClientTheorems`). One thread drains pages and
  prints rows while any threads may close the client, requests fail, and time passes. A run is any sequence of atomic
  steps. Proved for all runs: delivery of rows, one way out of RUNNING, one DELETE, bounded retries, termination; and
  for all runs without trouble, that every row is printed.
- **Query translation** (`Domains`, `QueryTranslation`). When the Boolean search query built from a tuple domain
  matches exactly the documents that satisfy it.
- **Nested-field folding** (`NestedFields`, `NestedPaths`, `NestedKeys`, `NestedFieldsTheorems`, `NestedColumns`). When folding
  dotted paths into row types can be undone, and which columns and fields come out in what order.
- **Text forms** (`Decimals`, `JavaInt`, `Intervals`, `Tsv`, `ProgressBar`). Round trips of intervals over the whole
  integer ranges, of tab-separated rows, and the repair of progress bar lengths.

`dafny verify dfyconfig.toml` checks the whole project.

## What the proofs show about the code

- The translation of a domain with ranges never matches a document without the field, even if the domain admits a
  missing value. A tuple domain that admits nothing is translated into a query that matches everything. Constraints on
  columns that are not requested are ignored. `QueryTranslation.ExactIff` gives the exact condition for any value sets
  of the types, `QueryTranslation.ExactIffDense` the short form for types without gaps.
- Nested-field folding loses paths when a parent's text is the start of another's at the same depth and the next
  character sorts after a dot, when a path is also a parent, and when top-level names differ by case alone.
  `NestedFieldsTheorems.RoundTripIffLossless` gives the exact condition.
- The K-D-B tree stops splitting a dimension as soon as the median value is the largest value, although smaller values
  could still be cut off, as `KdbTreeTheorems.NoCutAlthoughSeparable` shows. The comment at that place says that the
  items cannot be split. The model follows the code.
- The pattern for day-time intervals has an unescaped dot, so any character but a line end is accepted between seconds
  and milliseconds, and three digits in a row are accepted without one. The model follows the code.
- The progress bar check fires for a bar without width while something runs. Products of counts and width can overflow,
  and then no bar is drawn, as `ProgressBar.OverflowFails` shows; `ProgressBar.BarIsDrawn` gives the exact condition.
- A tab-separated row without fields reads back as a row with one empty field.

## Assumptions of the models

- Indices are not negative, and arrays stay below 2^31 elements, the range of the `int` capacity.
- Comparators are total preorders, as the contract of comparators asks.
- Reference counts are keyed by object identity. The source keys them by hash code and size and accepts collisions.
- A slice retains its instance size plus the size of its base; a block reports a shared part always with the same size.
- Coordinates are reals. With floating point the middle of two neighbouring values can equal one of them.
- A page, once served for a URI, is served again for a retry. The constructor's first response is page 0.
- A search query matches fields with one value or none, by exact values. Values are reals in the order of their type;
  which reals are values of a type is a parameter of the results.
- Counts of a progress bar are not negative, and a bar is narrower than 2^31 - 1 columns.
- Field paths have no empty parts in the round trip; termination is proved for any keys.
- Letters are compared without case through a character folding given as a parameter.

## Model

| member | source | states |
|---|---|---|
| `BigArrays.SlotsAreDistinct` | presto-array/src/main/java/io/prestosql/array/BigArrays.java:49-64 | segment and offset together give every index a slot of its own |
| `BigArrays.FlatAt` | presto-array/src/main/java/io/prestosql/array/IntBigArrays.java:59-62 | reading segment by offset reads that index of the flat sequence the segments stand for |
| `BigArrays.Set` | presto-array/src/main/java/io/prestosql/array/IntBigArrays.java:70-73 | a write changes that one index of the flat sequence, across segment borders, and nothing else |
| `IntBigArrays.Swap` | presto-array/src/main/java/io/prestosql/array/IntBigArrays.java:82-87 | two elements of the flat sequence change places, also when they share a segment or an index; all others stay |
| `IntBigArrays.Med3` | presto-array/src/main/java/io/prestosql/array/IntBigArrays.java:172-180 | the index returned holds one of the three values, with two of them no later and two no earlier under the comparator |
| `IntBigArrays.ChoosePivot` | presto-array/src/main/java/io/prestosql/array/IntBigArrays.java:111-123 | the pivot lies in the range; it is the middle element at seven, the median of first, middle and last up to forty, and beyond that the median of the medians of three triples around first, middle and last |
| `IntBigArrays.PseudomedianBounds` | presto-array/src/main/java/io/prestosql/array/IntBigArrays.java:116-122 | the median of medians has four of the nine samples no later and four no earlier |
| `IntBigArrays.FindLeast` | presto-array/src/main/java/io/prestosql/array/IntBigArrays.java:185-190 | the inner scan of the selection sort ends at a least element of what is left |
| `IntBigArrays.SelectionSort` | presto-array/src/main/java/io/prestosql/array/IntBigArrays.java:182-195 | the range is sorted, its elements are a rearrangement, the rest is untouched |
| `IntBigArrays.ScanUp` | presto-array/src/main/java/io/prestosql/array/IntBigArrays.java:132-137 | keeps alike, before, unknown, after, alike while moving up, and stops at an element after the pivot or at the end |
| `IntBigArrays.ScanDown` | presto-array/src/main/java/io/prestosql/array/IntBigArrays.java:138-143 | keeps the same five regions while moving down, and stops at an element before the pivot or at the end |
| `IntBigArrays.Partition` | presto-array/src/main/java/io/prestosql/array/IntBigArrays.java:125-148 | no element is left unknown: alike, before, after, alike, as a rearrangement of the range |
| `IntBigArrays.VecSwap` | presto-array/src/main/java/io/prestosql/array/IntBigArrays.java:165-170 | two blocks change places element for element, everything else stays |
| `IntBigArrays.RegroupLow` | presto-array/src/main/java/io/prestosql/array/IntBigArrays.java:152-153 | whichever run is shorter, the first block swap leaves before, alike, with exactly b - a elements before the pivot |
| `IntBigArrays.RegroupHigh` | presto-array/src/main/java/io/prestosql/array/IntBigArrays.java:154-155 | whichever run is shorter, the second block swap leaves alike, after, with exactly d - c elements after the pivot |
| `IntBigArrays.PivotStays` | presto-array/src/main/java/io/prestosql/array/IntBigArrays.java:156-162 | the pivot's own class is never empty, so both recursive ranges are strictly shorter than the range |
| `IntBigArrays.SortedOutside` | presto-array/src/main/java/io/prestosql/array/IntBigArrays.java:156-162 | sorting the two outer groups of a three-way split sorts the whole range and rearranges only that range |
| `IntBigArrays.SplitThreeWay` | presto-array/src/main/java/io/prestosql/array/IntBigArrays.java:111-155 | one round: before, alike, after around some pivot, with a non-empty middle, as a rearrangement of the range |
| `IntBigArrays.QuickSort` | presto-array/src/main/java/io/prestosql/array/IntBigArrays.java:103-163 | for every total preorder and every range: sorted, a rearrangement, nothing outside changed, and termination |
| `SortSpec.RangeKeepsElements` | presto-array/src/main/java/io/prestosql/array/IntBigArrays.java:89-101 | a rearrangement keeps the multiset of elements of its own range |
| `BigArray.BigArray.constructor` | presto-array/src/main/java/io/prestosql/array/IntBigArray.java:51-56 | one segment of the initial value, in fresh arrays |
| `BigArray.BigArray.AllocateNewSegment` | presto-array/src/main/java/io/prestosql/array/IntBigArray.java:152-161 | exactly one segment of the initial value is appended; capacity and segment count follow |
| `BigArray.LeastSegments` | presto-array/src/main/java/io/prestosql/array/IntBigArray.java:136-142 | growth reaches the index with whole segments of 1024 and not one more |
| `BigArray.BigArray.Grow` | presto-array/src/main/java/io/prestosql/array/IntBigArray.java:136-150 | capacity becomes the least multiple of the segment size above the length; old elements stay, only initial values are added |
| `BigArray.BigArray.EnsureCapacity` | presto-array/src/main/java/io/prestosql/array/IntBigArray.java:117-124 | the index becomes valid; the contents are the old ones, grown only if the index was missing |
| `BigArray.BigArray.Fill` | presto-array/src/main/java/io/prestosql/array/IntBigArray.java:126-134 | every element up to the first empty slot, which is all of them, holds the value |
| `BigArray.BigArray.Get` | presto-array/src/main/java/io/prestosql/array/ObjectBigArray.java:70-73 | reads that index of the flat contents |
| `BigArray.BigArray.Set` | presto-array/src/main/java/io/prestosql/array/ObjectBigArray.java:80-83 | writes that index of the flat contents and no other |
| `BigArray.Add` | presto-array/src/main/java/io/prestosql/array/IntBigArray.java:108-111 | adds to one element with 32-bit wrap-around |
| `BigArray.Sort` | presto-array/src/main/java/io/prestosql/array/IntBigArray.java:163-166 | sorts the range of the flat contents and keeps the array valid |
| `BigArray.PerformAll` | presto-array/src/main/java/io/prestosql/array/IntBigArray.java:77-161 | any run of set, add, ensureCapacity and fill on the segments is the same run on one flat sequence |
| `BigArray.CellsAreIndependent` | presto-array/src/main/java/io/prestosql/array/IntBigArray.java:77-161 | after any run each index holds what its own history alone makes of it; an index added by growth starts at the initial value and misses earlier fills |
| `ReferenceCounts.ReferenceCountMap.IncrementAndGet` | presto-array/src/main/java/io/prestosql/array/ReferenceCountMap.java:43-46 | the count goes up by one and is returned |
| `ReferenceCounts.ReferenceCountMap.DecrementAndGet` | presto-array/src/main/java/io/prestosql/array/ReferenceCountMap.java:51-59 | the count goes down by one and is returned; an entry that would be zero is removed |
| `ReferenceCounts.IncrementCounts` | presto-array/src/main/java/io/prestosql/array/ReferenceCountMap.java:43-46 | a map that counts a bag of references counts the bag with one more; the result is 1 exactly for a new object |
| `ReferenceCounts.DecrementCounts` | presto-array/src/main/java/io/prestosql/array/ReferenceCountMap.java:51-59 | a map that counts a bag of references counts the bag with one fewer, without zero entries; the result is 0 exactly for the last reference |
| `SliceBigArray.ChargeIsDifference` | presto-array/src/main/java/io/prestosql/array/SliceBigArray.java:76-103 | the amount the code adds or subtracts, deciding by the base first, is the exact change of the total counted from scratch |
| `SliceBigArray.SliceBigArray.Release` | presto-array/src/main/java/io/prestosql/array/SliceBigArray.java:79-90 | dropping one reference keeps map and total equal to a count from scratch |
| `SliceBigArray.SliceBigArray.Retain` | presto-array/src/main/java/io/prestosql/array/SliceBigArray.java:91-102 | adding one reference keeps map and total equal to a count from scratch |
| `SliceBigArray.SliceBigArray.UpdateRetainedSize` | presto-array/src/main/java/io/prestosql/array/SliceBigArray.java:76-103 | brings map and total to what a count from scratch gives once the new value is stored, null and the same slice included |
| `SliceBigArray.SliceBigArray.Set` | presto-array/src/main/java/io/prestosql/array/SliceBigArray.java:61-65 | the position changes and the counters stay equal to a count from scratch |
| `SliceBigArray.SliceBigArray.EnsureCapacity` | presto-array/src/main/java/io/prestosql/array/SliceBigArray.java:71-74 | growth adds null positions only, on fresh segments, and leaves the counters right |
| `SliceBigArray.RefsCountPositions` | presto-array/src/main/java/io/prestosql/array/SliceBigArray.java:76-103 | the count kept for a slice or a base is the number of positions that refer to it |
| `SliceBigArray.RetainedMeaning` | presto-array/src/main/java/io/prestosql/array/SliceBigArray.java:76-103 | the running total is the sizes of the distinct bases in use plus one instance size for each distinct slice in use |
| `SliceBigArray.PerformAll` | presto-array/src/main/java/io/prestosql/array/SliceBigArray.java:61-103 | after any run of set and ensureCapacity the contents are those of the same run on one flat sequence, the total is the distinct bases in use plus one instance size for each distinct slice, and every count is the number of positions that refer to the object |
| `BlockBigArray.BlockBigArray.ReleasePart` | presto-array/src/main/java/io/prestosql/array/BlockBigArray.java:64-74 | one callback for a leaving block keeps the counters right, own and shared parts, repeats included |
| `BlockBigArray.BlockBigArray.RetainPart` | presto-array/src/main/java/io/prestosql/array/BlockBigArray.java:77-87 | one callback for an entering block keeps the counters right, own and shared parts, repeats included |
| `BlockBigArray.BlockBigArray.Release` | presto-array/src/main/java/io/prestosql/array/BlockBigArray.java:62-75 | after all callbacks of the old block the counters are those of the other positions |
| `BlockBigArray.BlockBigArray.Retain` | presto-array/src/main/java/io/prestosql/array/BlockBigArray.java:76-88 | after all callbacks of the new block the counters include it |
| `BlockBigArray.BlockBigArray.Set` | presto-array/src/main/java/io/prestosql/array/BlockBigArray.java:60-90 | sizeOfBlocks stays the own bytes summed over all occupied positions plus each distinct shared part once, also when a block replaces itself |
| `BlockBigArray.BlockBigArray.EnsureCapacity` | presto-array/src/main/java/io/prestosql/array/BlockBigArray.java:96-99 | growth adds null positions only, on fresh segments, and leaves the counters right |
| `BlockBigArray.RefsCountReports` | presto-array/src/main/java/io/prestosql/array/BlockBigArray.java:60-90 | the count kept for an object is the number of times the blocks in place report it as a part other than themselves |
| `BlockBigArray.TotalMeaning` | presto-array/src/main/java/io/prestosql/array/BlockBigArray.java:60-90 | the running total is the own bytes of every occupied position plus each distinct shared part once |
| `BlockBigArray.PerformAll` | presto-array/src/main/java/io/prestosql/array/BlockBigArray.java:60-99 | after any run of set and ensureCapacity the contents are those of the same run on one flat sequence, the total is the own bytes of all positions plus each shared part once, and every count is the number of reports of the object |
| `Rectangle.Intersection` | presto-geospatial-toolkit/src/main/java/io/prestosql/geospatial/Rectangle.java:92-100 | holds exactly the common points, and is missing exactly when there are none |
| `Rectangle.IntersectsIffCommonPoint` | presto-geospatial-toolkit/src/main/java/io/prestosql/geospatial/Rectangle.java:86-90 | the four comparisons hold exactly when some point lies in both |
| `KdbTree.SkipEqual` | presto-geospatial-toolkit/src/main/java/io/prestosql/geospatial/KdbTree.java:340-345 | the first index from the median on with another value |
| `KdbTree.SortedCopyIsSorted` | presto-geospatial-toolkit/src/main/java/io/prestosql/geospatial/KdbTree.java:333-334 | the sorted copy is sorted by the dimension and holds the same items |
| `KdbTree.FindCutSeparates` | presto-geospatial-toolkit/src/main/java/io/prestosql/geospatial/KdbTree.java:331-363 | a cut leaves every item strictly on one side of it and shares out all items |
| `KdbTreeTheorems.NoCutIffTopHeavy` | presto-geospatial-toolkit/src/main/java/io/prestosql/geospatial/KdbTree.java:336-350 | a dimension is given up on exactly when the items with the largest value are enough to reach down to the median, even if smaller values could be cut off |
| `KdbTreeTheorems.NoCutAlthoughSeparable` | presto-geospatial-toolkit/src/main/java/io/prestosql/geospatial/KdbTree.java:336-350 | items at 0, 1 and 1 are not split, although the first could be cut off from the others |
| `KdbTreeTheorems.CutFallsInside` | presto-geospatial-toolkit/src/main/java/io/prestosql/geospatial/KdbTree.java:223-259 | over an extent that holds the items' min corners the strict-inside check never fails, and each half holds its items' corners |
| `KdbTreeTheorems.PlanIsSound` | presto-geospatial-toolkit/src/main/java/io/prestosql/geospatial/KdbTree.java:280-305 | building succeeds, divides the extent, shares out exactly the items with corners inside their leaves, and leaves a leaf overfull only at the level cap or when neither dimension can be cut |
| `KdbTreeTheorems.NumberIsSound` | presto-geospatial-toolkit/src/main/java/io/prestosql/geospatial/KdbTree.java:262-270 | leaf ids run up by one from left to right, one for each leaf |
| `KdbTreeShape.CutDivides` | presto-geospatial-toolkit/src/main/java/io/prestosql/geospatial/KdbTree.java:334-357 | the items up to the median value go left; the cut lies half way between the largest value on the left and the smallest on the right |
| `KdbTreeShape.EitherIs` | presto-geospatial-toolkit/src/main/java/io/prestosql/geospatial/KdbTree.java:292-298 | the longer side is split over, the width on a tie, unless its largest value is shared down to the median; then the other side |
| `KdbTreeShape.PlanIsBuilt` | presto-geospatial-toolkit/src/main/java/io/prestosql/geospatial/KdbTree.java:279-305 | a node is split exactly if it has more items than fit, is below the level cap and some side can be cut; then over the right side, at the right place, with the items and extents of both parts |
| `KdbTreeShape.BuiltOnce` | presto-geospatial-toolkit/src/main/java/io/prestosql/geospatial/KdbTree.java:279-305 | no other tree fits that description: items, extent and node size determine the tree but for leaf ids |
| `KdbTreeTheorems.LeavesInExtent` | presto-geospatial-toolkit/src/main/java/io/prestosql/geospatial/KdbTree.java:204-260 | the leaves cover the extent exactly: a point is in the extent if and only if it is in a leaf |
| `KdbTreeTheorems.LeavesDisjoint` | presto-geospatial-toolkit/src/main/java/io/prestosql/geospatial/KdbTree.java:204-260 | no point lies inside two leaves |
| `KdbTreeTheorems.PrunedMissNothing` | presto-geospatial-toolkit/src/main/java/io/prestosql/geospatial/KdbTree.java:180-184 | an extent that misses the envelope has no leaf that meets it |
| `KdbTreeTheorems.SearchIsFilteredScan` | presto-geospatial-toolkit/src/main/java/io/prestosql/geospatial/KdbTree.java:166-193 | the pruned search returns exactly the leaves of a full scan that meet the envelope, in the same order |
| `KdbTreeTheorems.MeetingRectanglesShareLeaf` | presto-geospatial-toolkit/src/main/java/io/prestosql/geospatial/KdbTree.java:173-178 | two rectangles that meet at a point of the root's extent have a returned leaf in common |
| `KdbTreeBuild.LeafIdAllocator.Next` | presto-geospatial-toolkit/src/main/java/io/prestosql/geospatial/KdbTree.java:262-270 | hands out the next id |
| `KdbTreeBuild.SkipDuplicates` | presto-geospatial-toolkit/src/main/java/io/prestosql/geospatial/KdbTree.java:342-345 | the loop ends at the first index with another value |
| `KdbTreeBuild.TrySplit` | presto-geospatial-toolkit/src/main/java/io/prestosql/geospatial/KdbTree.java:329-364 | builds the planned halves with consecutive ids; a split that cannot be made uses no id |
| `KdbTreeBuild.BuildKdbTreeNode` | presto-geospatial-toolkit/src/main/java/io/prestosql/geospatial/KdbTree.java:280-305 | the single pass with its id counter makes the planned node and hands out the ids of its leaves; what the plan is, KdbTreeShape.PlanIsBuilt and KdbTreeShape.BuiltOnce state |
| `KdbTreeBuild.BuildKdbTree` | presto-geospatial-toolkit/src/main/java/io/prestosql/geospatial/KdbTree.java:272-278 | rejects non-positive sizes; any tree is the one that Built describes, a single leaf with id 0 if the items fit; over an extent that holds the items' min corners a tree always comes out, divides the extent, and its leaves are numbered 0, 1, 2, ... from left to right |
| `OutputHandler.OutputHandler.FlushBuffer` | presto-cli/src/main/java/io/prestosql/cli/OutputHandler.java:89-96 | prints a non-empty buffer as one batch and empties it |
| `OutputHandler.OutputHandler.Process` | presto-cli/src/main/java/io/prestosql/cli/OutputHandler.java:47-58 | buffers the row and flushes at the limit |
| `OutputHandler.OutputHandler.ProcessData` | presto-cli/src/main/java/io/prestosql/cli/OutputHandler.java:74-83 | feeds a page row by row and then flushes if the buffer is old |
| `OutputHandler.OutputHandler.Close` | presto-cli/src/main/java/io/prestosql/cli/OutputHandler.java:60-68 | only the first close prints what is left; the printer is told to finish exactly once, however often close is called |
| `OutputHandler.FlushKeepsRows` | presto-cli/src/main/java/io/prestosql/cli/OutputHandler.java:89-96 | a flush neither loses, adds nor reorders rows and keeps batches non-empty and within the limit |
| `OutputHandler.PageEnters` | presto-cli/src/main/java/io/prestosql/cli/OutputHandler.java:73-86 | a page adds exactly its rows to those that have entered, whatever is flushed on the way |
| `OutputHandler.AgeDecides` | presto-cli/src/main/java/io/prestosql/cli/OutputHandler.java:70-87 | an old buffer is printed with the page; else the printer is called for full batches of 10,000 rows only |
| `StatementClientTheorems.PageStep` | presto-client/src/main/java/io/prestosql/client/StatementClientV1.java:339-405 | every step of every thread keeps track of which pages have been dealt with |
| `StatementClientTheorems.AbortStep` | presto-client/src/main/java/io/prestosql/client/StatementClientV1.java:480-489 | every step keeps the bound of one abort, one DELETE and one late fetch |
| `StatementClientTheorems.RetryStep` | presto-client/src/main/java/io/prestosql/client/StatementClientV1.java:353-404 | every step keeps the time since the first attempt above the back-off so far |
| `StatementClientTheorems.RowStep` | presto-cli/src/main/java/io/prestosql/cli/OutputHandler.java:70-87 | every step keeps the rows that have entered equal to the rows of the pages dealt with |
| `StatementClientTheorems.Delivery` | presto-cli/src/main/java/io/prestosql/cli/Query.java:191-196 | in every run what is printed is a prefix of the rows, in non-empty batches of at most 10,000; the thread ends only when the client has left RUNNING, with an empty buffer; a run that ends finished has printed every row |
| `StatementClientTheorems.CompleteDelivery` | presto-client/src/main/java/io/prestosql/client/StatementClientV1.java:339-406 | a run without closer, interrupt, refusal, failed query or timeout ends, after enough steps, done and finished with all rows printed, also if fetches were unavailable or failed and were retried |
| `StatementClientTheorems.SmoothIsCalm` | presto-client/src/main/java/io/prestosql/client/StatementClientV1.java:339-406 | if every fetch is accepted, no timeout can come in the way |
| `StatementClientTheorems.FailureIsNotRendered` | presto-cli/src/main/java/io/prestosql/cli/Query.java:151-163 | a failed query without data is not rendered |
| `StatementClientTheorems.LeavesRunningOnce` | presto-client/src/main/java/io/prestosql/client/StatementClientV1.java:339-405 | once the state is not RUNNING, no later step of any thread changes it |
| `StatementClientTheorems.AbortIsSafe` | presto-client/src/main/java/io/prestosql/client/StatementClientV1.java:480-489 | in every run at most one DELETE, only after an abort, and exactly one once an abort is through while there is a next page; at most one fetch begun after an abort; a finished client holds the last page |
| `StatementClientTheorems.CloseEnds` | presto-client/src/main/java/io/prestosql/client/StatementClientV1.java:480-489 | after a close by any thread the client is not running, in every run |
| `StatementClientTheorems.InterruptAborts` | presto-client/src/main/java/io/prestosql/client/StatementClientV1.java:371-382 | an interrupted back-off of a running client ends in CLIENT_ABORTED |
| `StatementClientTheorems.AbortsAreAskedFor` | presto-client/src/main/java/io/prestosql/client/StatementClientV1.java:480-489 | without a closer and an interrupt no run ends aborted |
| `StatementClientTheorems.RefusalGivesUp` | presto-client/src/main/java/io/prestosql/client/StatementClientV1.java:361-404 | a refusal, a timeout and an interrupted sleep give the fetch up |
| `StatementClientTheorems.GivenUpNeverFinishes` | presto-client/src/main/java/io/prestosql/client/StatementClientV1.java:361-404 | after a refusal, a timeout or an interrupt no run finishes and no page comes in |
| `StatementClientTheorems.AttemptsAreBounded` | presto-client/src/main/java/io/prestosql/client/StatementClientV1.java:353-404 | attempt n is made only while 50 (n - 1) (n - 2) milliseconds fit the request timeout |
| `StatementClientTheorems.RetriesOnSchedule` | presto-client/src/main/java/io/prestosql/client/StatementClientV1.java:366-383 | if only the back-off takes time, attempt n goes out exactly after 100, 200, ..., (n - 1) * 100 milliseconds |
| `StatementClientTheorems.DrainTerminates` | presto-client/src/main/java/io/prestosql/client/StatementClientV1.java:357-404 | whatever fails, closes or takes time, the draining thread is done after as many steps as a bound fixed at the start |
| `Domains.RejectsSomething` | presto-spi/src/main/java/io/prestosql/spi/predicate/TupleDomain.java:49-57 | on values without gaps, a normalised domain of ordered, separated ranges rejects some value or the missing value |
| `Domains.SomeAdmitted` | presto-spi/src/main/java/io/prestosql/spi/predicate/TupleDomain.java:49-57 | a normalised domain admits a value, or only the missing value |
| `QueryTranslation.NoAllRange` | presto-elasticsearch/src/main/java/io/prestosql/elasticsearch/ElasticsearchQueryBuilder.java:170 | the check against an all-embracing range never fires |
| `QueryTranslation.BuildRangeQuery` | presto-elasticsearch/src/main/java/io/prestosql/elasticsearch/ElasticsearchQueryBuilder.java:168-208 | builds the clause of one range |
| `QueryTranslation.BuildTermQuery` | presto-elasticsearch/src/main/java/io/prestosql/elasticsearch/ElasticsearchQueryBuilder.java:165-211 | one optional clause for each range, in order; succeeds exactly for bigint, integer, double, boolean and varchar |
| `QueryTranslation.BuildPredicate` | presto-elasticsearch/src/main/java/io/prestosql/elasticsearch/ElasticsearchQueryBuilder.java:147-163 | builds the query of one column; succeeds exactly for those five types, and for other orderable types if the domain asks for no value or for any |
| `QueryTranslation.BuildSearchQuery` | presto-elasticsearch/src/main/java/io/prestosql/elasticsearch/ElasticsearchQueryBuilder.java:127-145 | succeeds exactly when every requested column with a domain is of those five types, or orderable with a domain of no or all values; the query then tests every requested column by its domain and nothing else, for every document |
| `QueryTranslation.RangeQueryMeaning` | presto-elasticsearch/src/main/java/io/prestosql/elasticsearch/ElasticsearchQueryBuilder.java:168-208 | a range's query matches exactly the documents whose field has a value in the range, for single values and open, closed and half-open ranges |
| `QueryTranslation.PredicateMeaning` | presto-elasticsearch/src/main/java/io/prestosql/elasticsearch/ElasticsearchQueryBuilder.java:147-163 | a column's query matches only missing, any, or in-range values as its domain asks, but never a missing value when there are ranges |
| `QueryTranslation.SearchMeaning` | presto-elasticsearch/src/main/java/io/prestosql/elasticsearch/ElasticsearchQueryBuilder.java:127-145 | for every tuple domain and document: the query tests exactly the requested columns, each by its own query |
| `QueryTranslation.MissingValue` | presto-elasticsearch/src/main/java/io/prestosql/elasticsearch/ElasticsearchQueryBuilder.java:165-211 | a requested column whose domain admits values and the missing value loses a well-typed document that satisfies all domains, provided that they can be satisfied |
| `QueryTranslation.Unnoticed` | presto-elasticsearch/src/main/java/io/prestosql/elasticsearch/ElasticsearchQueryBuilder.java:130-138 | if the domain of a column that is not requested rejects something of the column's type, the query matches a well-typed document that violates it, provided that every requested column's query can match |
| `QueryTranslation.ExactIff` | presto-elasticsearch/src/main/java/io/prestosql/elasticsearch/ElasticsearchQueryBuilder.java:127-211 | for any value sets of the types: among well-typed documents the query matches exactly those that satisfy the domain if and only if the domain is not none and either both match nothing, or no requested column admits both values and the missing value and every other column admits all of its type |
| `QueryTranslation.ExactIffDense` | presto-elasticsearch/src/main/java/io/prestosql/elasticsearch/ElasticsearchQueryBuilder.java:127-211 | for types without gaps: if and only if the domain is not none, constrains requested columns only, and no domain admits both values and the missing value |
| `QueryTranslation.GapsCanAdmitAll` | presto-elasticsearch/src/main/java/io/prestosql/elasticsearch/ElasticsearchQueryBuilder.java:130-138 | a normalised domain can admit every whole number, so an unrequested column of a type with gaps need not do harm |
| `NestedPaths.ProperDepth` | presto-elasticsearch/src/main/java/io/prestosql/elasticsearch/ElasticsearchClient.java:446-454 | on paths without empty parts the split length is the number of parts |
| `NestedColumns.SplitLengthIs` | presto-elasticsearch/src/main/java/io/prestosql/elasticsearch/ElasticsearchClient.java:446-455 | for any text the length is that of a split at every dot without trailing empty parts, or one without a dot |
| `NestedPaths.LexMeans` | presto-elasticsearch/src/main/java/io/prestosql/elasticsearch/ElasticsearchClient.java:451-453 | text order: a beginning comes first, else the first difference decides |
| `NestedPaths.BeforeTrans` | presto-elasticsearch/src/main/java/io/prestosql/elasticsearch/ElasticsearchClient.java:446-454 | the comparator is transitive |
| `NestedPaths.BeforeTotal` | presto-elasticsearch/src/main/java/io/prestosql/elasticsearch/ElasticsearchClient.java:446-454 | the comparator is total and calls only equal paths equal |
| `NestedPaths.PutSorted` | presto-elasticsearch/src/main/java/io/prestosql/elasticsearch/ElasticsearchClient.java:404 | put replaces the entry of that key or adds one, and keeps the order |
| `NestedFields.FoldMeasure` | presto-elasticsearch/src/main/java/io/prestosql/elasticsearch/ElasticsearchClient.java:389-405 | on any map whatever, each fold gives up key characters, so the recursion ends |
| `NestedFields.PickUp` | presto-elasticsearch/src/main/java/io/prestosql/elasticsearch/ElasticsearchClient.java:391-403 | the iterator loop removes exactly the picked keys and lists them as fields in key order |
| `NestedFields.ProcessNestedFields` | presto-elasticsearch/src/main/java/io/prestosql/elasticsearch/ElasticsearchClient.java:381-415 | the recursion of the program computes the worklist to its end on any map, and the given columns stay in front |
| `NestedKeys.ApartMeansFaultless` | presto-elasticsearch/src/main/java/io/prestosql/elasticsearch/ElasticsearchClient.java:389-405 | with keys apart, a fold picks up only children of its parent and overwrites nothing |
| `NestedKeys.ApartStays` | presto-elasticsearch/src/main/java/io/prestosql/elasticsearch/ElasticsearchClient.java:389-405 | a fold of keys that are apart leaves keys that are apart |
| `NestedKeys.ApartWasThere` | presto-elasticsearch/src/main/java/io/prestosql/elasticsearch/ElasticsearchClient.java:389-405 | a faultless fold hides no trouble: keys apart afterwards were apart before |
| `NestedFieldsTheorems.FoldKeeps` | presto-elasticsearch/src/main/java/io/prestosql/elasticsearch/ElasticsearchClient.java:389-405 | a faultless fold keeps every full path and type |
| `NestedFieldsTheorems.FoldLoses` | presto-elasticsearch/src/main/java/io/prestosql/elasticsearch/ElasticsearchClient.java:389-405 | any other fold shortens the paths in total |
| `NestedFieldsTheorems.LosslessAcrossColumn` | presto-elasticsearch/src/main/java/io/prestosql/elasticsearch/ElasticsearchClient.java:406-413 | taking a column off the map is lossless exactly when its name differs by more than case from every other |
| `NestedFieldsTheorems.RoundTripIffLossless` | presto-elasticsearch/src/main/java/io/prestosql/elasticsearch/ElasticsearchClient.java:381-415 | flattening the resulting columns gives back exactly the given paths and types if and only if no path is also a parent, no two parents at one depth clash, and no two top-level names differ by case alone |
| `NestedColumns.ColumnsInOrder` | presto-elasticsearch/src/main/java/io/prestosql/elasticsearch/ElasticsearchClient.java:381-416 | after the given columns come, in text order, exactly the top-level entries that are new and first among names that differ by case alone; when no keys clash their names are the keys' roots |
| `NestedColumns.PickedInTextOrder` | presto-elasticsearch/src/main/java/io/prestosql/elasticsearch/ElasticsearchClient.java:389-404 | the fields of a new row come in the text order of the paths picked up |
| `NestedColumns.FieldsInOrder` | presto-elasticsearch/src/main/java/io/prestosql/elasticsearch/ElasticsearchClient.java:381-416 | when no keys clash, the fields of every row at every depth are in text order |
| `NestedFieldsTheorems.CaseCollisionLosesColumn` | presto-elasticsearch/src/main/java/io/prestosql/elasticsearch/ElasticsearchClient.java:407-411 | A.x and a.x do not both survive |
| `NestedFieldsTheorems.SiblingPrefixLosesPath` | presto-elasticsearch/src/main/java/io/prestosql/elasticsearch/ElasticsearchClient.java:396 | ab.y ends up under a when a.x is there |
| `Intervals.ToMillisExact` | presto-client/src/main/java/io/prestosql/client/IntervalDayTime.java:37-50 | for parts that do not mix signs the sum succeeds exactly when the true total fits a long |
| `Intervals.ToMillisIff` | presto-client/src/main/java/io/prestosql/client/IntervalDayTime.java:37-50 | for any parts the sum is the true total; it succeeds exactly when at each step the new total fits, or, if the signs differ, the term added does |
| `Intervals.MixedSignsCanFail` | presto-client/src/main/java/io/prestosql/client/IntervalDayTime.java:37-50 | with mixed signs it can fail although the total fits |
| `Intervals.MatchIsSound` | presto-client/src/main/java/io/prestosql/client/IntervalDayTime.java:33 | the groups matched are digits and spell out the text |
| `Intervals.MatchIsComplete` | presto-client/src/main/java/io/prestosql/client/IntervalDayTime.java:33 | every text of the pattern's shape is matched, with its own groups when the separator is no digit and with the longest seconds when it is |
| `Intervals.MillisRoundTrip` | presto-client/src/main/java/io/prestosql/client/IntervalDayTime.java:52-99 | parseMillis undoes formatMillis for every long, the smallest included |
| `Intervals.MillisText` | presto-client/src/main/java/io/prestosql/client/IntervalDayTime.java:52-73 | for every long but the smallest: a minus exactly if negative, then days without leading zeros, hours below 24, minutes and seconds below 60 with two digits, milliseconds below 1000 with three, of the right total |
| `Intervals.NormalisedOnce` | presto-client/src/main/java/io/prestosql/client/IntervalDayTime.java:52-73 | there is only one such text for each amount |
| `Intervals.TextMeans` | presto-client/src/main/java/io/prestosql/client/IntervalDayTime.java:75-99 | any digits of the shape, in or out of bounds, stand for their total if it fits, and are rejected if not |
| `Intervals.SignIsRead` | presto-client/src/main/java/io/prestosql/client/IntervalDayTime.java:75-99 | a minus stands for the opposite, and the literal for the smallest long hides no other text |
| `Intervals.OnlyShapesAreRead` | presto-client/src/main/java/io/prestosql/client/IntervalDayTime.java:87-90 | nothing but texts of the shape is read |
| `Intervals.LiteralReadsAsTooLarge` | presto-client/src/main/java/io/prestosql/client/IntervalDayTime.java:31 | the literal for the smallest long would overflow if read like any other text |
| `Intervals.ToMonthsExact` | presto-client/src/main/java/io/prestosql/client/IntervalYearMonth.java:32-40 | the sum is the true total; it succeeds exactly when the total fits an int, or, if the signs of years and months differ, the years in months do |
| `Intervals.MonthsRoundTrip` | presto-client/src/main/java/io/prestosql/client/IntervalYearMonth.java:42-78 | parseMonths undoes formatMonths for every int, the smallest included |
| `Intervals.MonthsTextIs` | presto-client/src/main/java/io/prestosql/client/IntervalYearMonth.java:42-55 | for every int but the smallest: a minus exactly if negative, then years and months below 12 of the right total, without leading zeros |
| `Intervals.NormalisedMonthsOnce` | presto-client/src/main/java/io/prestosql/client/IntervalYearMonth.java:42-55 | there is only one such text for each amount |
| `Intervals.MonthsTextMeans` | presto-client/src/main/java/io/prestosql/client/IntervalYearMonth.java:57-78 | any digits around a minus stand for their total if it fits, and are rejected if not |
| `Intervals.MonthsSignIsRead` | presto-client/src/main/java/io/prestosql/client/IntervalYearMonth.java:57-78 | a minus in front stands for the opposite, and the literal for the smallest int hides no other text |
| `Tsv.BuildRow` | presto-cli/src/main/java/io/prestosql/cli/TsvPrinter.java:63-80 | the loop over the fields builds the formatted row |
| `Tsv.AppendEscaped` | presto-cli/src/main/java/io/prestosql/cli/TsvPrinter.java:70-72 | the loop over the characters appends the escaped field |
| `Tsv.EscapeTable` | presto-cli/src/main/java/io/prestosql/cli/TsvPrinter.java:82-109 | what is written for each of the seven special characters; all others stay |
| `Tsv.EscapeHides` | presto-cli/src/main/java/io/prestosql/cli/TsvPrinter.java:82-109 | no special character but the backslash survives in any field, and each costs one backslash |
| `Tsv.TsvPrinter.PrintRows` | presto-cli/src/main/java/io/prestosql/cli/TsvPrinter.java:42-53 | writes the rows after what was written, preceded by the header the first time only |
| `Tsv.TsvPrinter.Finish` | presto-cli/src/main/java/io/prestosql/cli/TsvPrinter.java:55-61 | writes the header if nothing was printed before |
| `Tsv.RowShape` | presto-cli/src/main/java/io/prestosql/cli/TsvPrinter.java:63-109 | a formatted row has one raw newline, at its end, and one raw tab fewer than fields, or none without fields |
| `Tsv.RowsReadBackIff` | presto-cli/src/main/java/io/prestosql/cli/TsvPrinter.java:42-109 | formatted rows read back as exactly the rows if and only if every row has a field |
| `Tsv.PrintAll` | presto-cli/src/main/java/io/prestosql/cli/TsvPrinter.java:41-109 | after any batches and finish, the whole text is the header, if asked for, and all rows, and reads back as exactly these if and only if each has a field |
| `ProgressBar.RepairsAddUp` | presto-cli/src/main/java/io/prestosql/cli/FormatUtils.java:204-216 | from any nominal lengths whose complete columns are not negative, the three repairs make the lengths add up to the width unless something runs in a bar without width; what runs is shown, and nothing else is if the complete columns fill the bar when nothing is left |
| `ProgressBar.BarIsDrawn` | presto-cli/src/main/java/io/prestosql/cli/FormatUtils.java:188-223 | for all int counts, overflow included: the bar is drawn exactly when the share of complete columns has not wrapped below zero, the pending share is not negative beside lengths that add up, and what runs has a column; it then fills its width and each sign appears with its cause |
| `ProgressBar.BarWithoutOverflow` | presto-cli/src/main/java/io/prestosql/cli/FormatUtils.java:188-223 | if no product overflows, drawing fails exactly for width 0 with something running, a running column appears exactly when something runs, and a blank one only if something is pending |
| `ProgressBar.RepairsSettle` | presto-cli/src/main/java/io/prestosql/cli/FormatUtils.java:204-216 | what the repairs leave: the complete columns, less one if needed to show what runs; of the pending ones what the others leave over; the rest runs |
| `ProgressBar.BarShows` | presto-cli/src/main/java/io/prestosql/cli/FormatUtils.java:194-222 | the bar is complete columns, running ones and blanks in that order, in the settled numbers of the shares rounded up |
| `ProgressBar.BlankWithoutTotal` | presto-cli/src/main/java/io/prestosql/cli/FormatUtils.java:190-192 | without a total the bar is blank |
| `ProgressBar.OverflowFails` | presto-cli/src/main/java/io/prestosql/cli/FormatUtils.java:188-223 | thirty of forty million parts in a hundred columns cannot be drawn, because the product overflows |
| `ProgressBar.IndeterminateIsDrawn` | presto-cli/src/main/java/io/prestosql/cli/FormatUtils.java:172-186 | the bar is drawn, and fills its width, exactly when it is wider than the marker and the tick is not negative or at a turning point |
| `ProgressBar.MarkerIsDrawn` | presto-cli/src/main/java/io/prestosql/cli/FormatUtils.java:172-186 | the marker is drawn at a triangle wave of the tick, between blanks that fill the width |
| `ProgressBar.MovesOneColumn` | presto-cli/src/main/java/io/prestosql/cli/FormatUtils.java:172-186 | from tick to tick the marker moves by exactly one column, also where it turns |

## Left out

- HTTP, TLS, Kerberos, JSON, redirects, request headers and session updates: a fetch is a free choice of outcome.
- The statement client is modelled on values, as a step machine: its fields are not heap objects, and memory ordering between threads is taken as sequentially consistent.
- Queries that update or have no columns, printing of warnings and status, printer failures, the pager and signal handling.
- `SliceBigArray` and `BlockBigArray` constructors with an initial value: that value is never counted by the source, so the totals do not hold for them.
- Hash collisions of `ReferenceCountMap`, and the `sizeOf` byte constants of all classes.
- Slices without a base object.
- Arrays of other element types, and `increment`, which follow the same template.
- The bit operations behind segment and offset: they are division and remainder here, which agree for indices that are not negative.
- Serialisation, equality and hashing of trees and rectangles, and `merge`.
- The tree map and column list of nested-field folding are values here, so their update in place is not captured; column attributes other than name and type are not modelled, nor is the extraction of paths from mapping metadata.
- Text analysis, fields with several values, scrolling and retries of the search engine.
- Rates, sizes and times in `FormatUtils`; null and binary values in tab-separated output, which print like strings.
