# Merge-on-read scan core of the Iceberg reader

A Dafny model of the part of the vendored Iceberg reader (`iceberg-db-rs/patches/iceberg-0.9.1`) that turns a data
file and its delete files into the rows of a table, with proofs of what that part promises.

| file | what it models |
|---|---|
| `Prelude.dfy`, `Decimals.dfy`, `IcebergTypes.dfy`, `ArrowTypes.dfy` | options and results, machine integers, decimal text, table types, column types |
| `DeleteVector.dfy` | the two-level bitmap of deleted positions, its iterator and `advance_to` |
| `RowSelection.dfy` | positional deletes to run-length row selections |
| `ScanPruning.dfy` | row groups by byte range and predicate, page and delete selections, the row filter |
| `SkippedGroups.dfy` | for which row groups and selections the positional deletes are right whatever is deleted |
| `RowGroupMetrics.dfy`, `PageIndexEvaluator.dfy` | ruling out row groups by statistics and pages by the column index |
| `RangeCoalescing.dfy` | merging byte ranges before fetching and slicing the bytes back |
| `Predicate.dfy`, `EqualityDeletes.dfy` | predicates in three-valued logic, elimination of `NOT`, equality deletes as one balanced conjunction |
| `DeleteFilter.dfy` | the state shared by all tasks, one method for each lock region |
| `PositionalLoad.dfy`, `EqualityLoad.dfy` | loading delete files as protocols over every interleaving of any number of tasks |
| `MergeOnRead.dfy` | reading a file after its deletes have been loaded, end to end |
| `DeleteFileIndex.dfy` | the hashed index of delete files, populated once in the background |
| `BatchTransformer.dfy` | the cached plan that brings record batches to the table schema |
| `SchemaConversion.dfy` | conversion of nested types in both directions |
| `Int96.dfy` | the stack visitor that corrects timestamp resolutions |
| `Projector.dfy` | nested projection by field id |
| `FallbackIds.dfy` | position-based ids for files without field ids |
| `MetadataLocation.dfy` | the text form of metadata locations |
| `PartitionSplitter.dfy` | splitting a batch by partition value |

Where the source changes state in place the model is a class or a method with loops, proved against a function of
the old state; the properties are then lemmas about those functions. The concurrent protocols take one atomic step
for each lock region, whose effect is the function the corresponding method is proved against. A failed operation is
`Err`: which calls fail is stated exactly, what the error says is not modelled. Recursion that a loop mirrors takes
the last element off, so that a loop's prefix is the recursion's argument.

Every lemma turns automatic induction off, so each induction is the one written down. `hide` statements keep the
definitions a proof does not use away from the solver.

`dafny verify dfyconfig.toml` checks the whole project.

## What the code does that its documentation does not say

* `advance_to` applies the low 32 bits without comparing the high ones, and stays on the last bitmap when the bitmaps
  run out (`delete_vector.rs:124-135`); `AdvanceExactness` is the exact condition for one call. Reading a file then finds
  the right deletes if and only if the walk over its row groups serves each selected one (`BuildDeletesRowSelection`).
  For which row groups and selections that is so whatever is deleted is `RightWhenSafe`, from the first and last rows of
  the groups alone. It is so for files of fewer than 2^32 rows (`SmallFilesSafe`) and when no row group is skipped
  (`ServableIsServed`). Beyond, `DeleteLostInFile` is a file in which a deleted row is read, and `DeleteStallsFile` one
  on which the loop never ends.
* A row group that a split boundary cuts in its middle is selected by the splits on both sides, so its rows are read
  twice (`reader.rs:1080-1104`); `SplitsReadings` counts the readings exactly.
* Both evaluators are safe exactly when the metadata's bounds hold for every value (`ConservativeWhenSound`,
  `PageIndexConservativeWhenSound`). Bounds that leave NaN out therefore lose NaN rows under a lower limit, although the
  row filter orders NaN last and lets them through (`NanRowLost`). The page evaluator gives its bounds the type of the
  column but the literal of the stored type (`page_index_evaluator.rs:257-271`), and literals of different kinds never
  compare (`datum.rs:178-291`): on a promoted or a decimal column every inequality skips every page that has the bound
  it looks at (`PromotedRowLost`). The row-group evaluator drops such bounds instead (`schema.rs:773-917`).
* A missing column is treated as null by rules of its own (`reader.rs:1553-1834`): equality and inequality are both
  false on it, so eliminating `NOT` changes the answer there and only there (`LeafNegated`, `MissingEqualityFlips`).
* A row with a null in an equality column that faces a non-null deleted value is dropped, although no delete row
  matches it (`caching_delete_file_loader.rs:393-406`). `KeptAgreesWithStandard` says exactly when the two readings
  agree on a row.
* The schema comparison of the batch transformer ignores field ids (`record_batch_transformer.rs:448-462`), so columns
  of one type in another order are relabelled. `KeptColumnsExact` is the exact condition.
* The INT96 coercion is given up for the whole file when one column cannot be visited (`int96.rs:49`, `schema.rs:136-140,
  162-172`): a column of nulls, a run-end-encoded column, a map without a two-field entry, selected or not. Every
  nanosecond timestamp of the file then stays as it is (`NullColumnStopsCoercion`). Where the coercion does happen it
  also replaces dictionary columns by their value types and rebuilds map entries (`int96.rs:197-222`, `schema.rs:168`;
  `DictionaryIsReplaced`). `CoercedSchema` says exactly for which schemas the reader goes on with the intended fields.
* Loading an equality delete file replaces the notifier under which the file was reserved (`delete_filter.rs:232-244`,
  `caching_delete_file_loader.rs:245-250`), and nobody fires the first one. A query that asks in between waits for ever
  (`StrandedForever`, `AskedTooEarly`); `QueryCanResume` says exactly which queries go on. Positional loads keep their
  notifier, so there every waiter can wake once the load has succeeded (`WaiterCanWake`).
* A prefix test with a literal that is not text can be bound, and then both evaluators fail on it, the row-group one
  unless the null count alone decides (`row_group_metrics_evaluator.rs:347-352, 407-412`). On metadata that can be read
  nothing else fails (`VisitSucceeds`, `VisitPagesSucceeds`).
* A record batch without columns fails in the transformer whenever something is projected
  (`record_batch_transformer.rs:599-601`), although every projected field could be filled (`NoColumnsLost`). The reader
  projects all columns when none of the requested ones is in the file (`reader.rs:826-828, 920-923`), so only a file that
  has no columns at all yields such a batch.
* The delete file index takes a data file without a partition for a global delete file (`delete_file_index.rs:132-140`).
* A fixed-size binary with a negative width is read as a huge fixed length (`schema.rs:479-481`), which is the only way
  a type read from columns is not in normal form (`ReadIsNormal`).
* A metadata location with a negative version prints a text that does not parse back (`metadata_location.rs:76-85`).

## Model

| member | source | states |
|---|---|---|
| DeleteVectors.DeleteVectorIterator.Next | iceberg-db-rs/patches/iceberg-0.9.1/src/delete_vector.rs:92-113 | yields the first remaining position and leaves exactly the others; at the end it stays at the end |
| DeleteVectors.DeleteVectorIterator.AdvanceTo | iceberg-db-rs/patches/iceberg-0.9.1/src/delete_vector.rs:115-137 | moves the two fields to the state `Advanced` describes, including the two ways it can miss its target |
| DeleteVectors.NextOfMeaning | iceberg-db-rs/patches/iceberg-0.9.1/src/delete_vector.rs:95-112 | the next position in order is yielded and exactly the others are left, bitmaps being made current one after the other |
| DeleteVectors.AdvanceExactness | iceberg-db-rs/patches/iceberg-0.9.1/src/delete_vector.rs:116-136 | `advance_to(pos)` leaves exactly the remaining positions at or after `pos` if and only if the bitmap it stops at has the high bits of `pos` or no member with smaller low bits, or nothing is left to drop |
| DeleteVectors.AdvanceBelow32 | iceberg-db-rs/patches/iceberg-0.9.1/src/delete_vector.rs:116-136 | below 2^32 it loses nothing at or after `pos`, keeps nothing before it and invents nothing |
| DeleteVectors.AdvanceFailsBeyond32 | iceberg-db-rs/patches/iceberg-0.9.1/src/delete_vector.rs:125-135 | concrete states beyond 2^32 where a delete is lost and where a stale delete is left behind |
| DeleteVectors.DeleteVector.Insert | iceberg-db-rs/patches/iceberg-0.9.1/src/delete_vector.rs:44-46 | adds one position and says whether it was new |
| DeleteVectors.DeleteVector.InsertPositions | iceberg-db-rs/patches/iceberg-0.9.1/src/delete_vector.rs:56-65 | succeeds if and only if the input is strictly ascending and beyond every present position, and then adds exactly it; a failed call has added exactly the positions before the first offending one |
| DeleteVectors.DeleteVector.BitOrAssign | iceberg-db-rs/patches/iceberg-0.9.1/src/delete_vector.rs:139-143 | the union, in place, the operand untouched |
| DeleteVectors.DeleteVector.Iter | iceberg-db-rs/patches/iceberg-0.9.1/src/delete_vector.rs:39-42 | a fresh iterator over exactly the positions of the vector |
| DeleteVectors.InsertMembers | iceberg-db-rs/patches/iceberg-0.9.1/src/delete_vector.rs:44-46 | inserting into the two-level bitmap keeps it ordered and adds exactly the position |
| RowSelections.BuildDeletesRowSelection | iceberg-db-rs/patches/iceberg-0.9.1/src/arrow/reader.rs:639-751 | whenever the call returns, the run list expands to one boolean per row of the selected groups in file order, true iff the row is not among the deletes the walk finds; these are the undeleted rows if and only if every selected group is served its deletes |
| RowSelections.RightWhenServed | iceberg-db-rs/patches/iceberg-0.9.1/src/arrow/reader.rs:639-751 | the deletes the walk finds give the right rows if and only if it finds exactly those of each selected group |
| RowSelections.HarmlessSkipsServe | iceberg-db-rs/patches/iceberg-0.9.1/src/arrow/reader.rs:671-684 | where `advance_to` is exact at the end of each skipped group, the call returns and serves every selected group, whatever the size of the file |
| RowSelections.ServableIsServed | iceberg-db-rs/patches/iceberg-0.9.1/src/arrow/reader.rs:639-751 | whatever is deleted, a selection that skips nothing before its last group, or ends below row 2^32, returns and is served |
| RowSelections.StaleStalls | iceberg-db-rs/patches/iceberg-0.9.1/src/arrow/reader.rs:708-739 | with a cached delete before the current row a pass of the loop changes nothing, so it never ends |
| RowSelections.StaleNeverReturns | iceberg-db-rs/patches/iceberg-0.9.1/src/arrow/reader.rs:686-739 | a call that reaches a selected group with a stale delete in the cache does not return |
| RowSelections.DeleteLostInFile | iceberg-db-rs/patches/iceberg-0.9.1/src/arrow/reader.rs:639-751 | a whole call on a file of more than 2^32 rows that returns and reads a deleted row |
| RowSelections.DeleteStallsFile | iceberg-db-rs/patches/iceberg-0.9.1/src/arrow/reader.rs:639-751 | a whole call on a file of more than 2^32 rows that never returns |
| RowSelections.SelectRowGroup | iceberg-db-rs/patches/iceberg-0.9.1/src/arrow/reader.rs:686-745 | the runs of one row group say exactly which of its rows are held as deleted, and exactly the deletes before its end are taken out |
| RowSelections.CountDeletedRun | iceberg-db-rs/patches/iceberg-0.9.1/src/arrow/reader.rs:716-738 | the run of consecutive deletes is counted to its end, the group's end or the last delete |
| RowSelections.SkipRowGroup | iceberg-db-rs/patches/iceberg-0.9.1/src/arrow/reader.rs:671-684 | the iterator is advanced and a stale cache refilled, as the walk says, for every end of the group |
| SkippedGroups.RightWhenSafe | iceberg-db-rs/patches/iceberg-0.9.1/src/arrow/reader.rs:639-751 | the call returns and serves every selected group for every delete vector if and only if, by the first and last rows of the groups alone, no skipped group can drop a delete of a later selected one (`Drops`) or leave a stale one for the next selected one (`Stalls`) |
| SkippedGroups.EmptyGroupSafe | iceberg-db-rs/patches/iceberg-0.9.1/src/arrow/reader.rs:671-684 | skipping a group without rows is safe before a group of any size, also beyond 2^32 rows |
| SkippedGroups.SafeIsRight | iceberg-db-rs/patches/iceberg-0.9.1/src/arrow/reader.rs:639-751 | a selection that can neither drop nor stall returns and is served, whatever is deleted |
| SkippedGroups.DropsAboveZero | iceberg-db-rs/patches/iceberg-0.9.1/src/arrow/reader.rs:671-684 | for every selection that can drop the delete of a row with low bits above zero there is a delete vector with which the call goes wrong |
| SkippedGroups.DropsAtZero | iceberg-db-rs/patches/iceberg-0.9.1/src/arrow/reader.rs:671-684 | the same for a row whose low bits are zero, behind a group that crosses a multiple of 2^32 |
| SkippedGroups.StallsFar | iceberg-db-rs/patches/iceberg-0.9.1/src/arrow/reader.rs:671-684 | for every selection that can stall there is a delete vector with which the call does not return: here a group that starts more than 2^32 rows before the last multiple of 2^32 in it |
| SkippedGroups.StallsNear | iceberg-db-rs/patches/iceberg-0.9.1/src/arrow/reader.rs:671-684 | the same for a group that starts closer to it |
| SkippedGroups.AdvancedShape | iceberg-db-rs/patches/iceberg-0.9.1/src/delete_vector.rs:116-136 | `advance_to` on a started iterator stays behind on the last bitmap or lands on the first that reaches the high bits, and what it then keeps |
| ScanPruning.ScanFile | iceberg-db-rs/patches/iceberg-0.9.1/src/arrow/reader.rs:495-600 | whenever the walk over the deletes returns, the pruned scan returns exactly the ascending positions in the scan task's row groups that are not among the deletes found and on which the final predicate is true; these are the undeleted ones where every selected group is served; fails iff an evaluation it asks for fails |
| ScanPruning.ChooseRowGroups | iceberg-db-rs/patches/iceberg-0.9.1/src/arrow/reader.rs:501-543 | the selected groups are exactly those in the byte range that the predicate cannot rule out, ascending; fails iff an evaluation fails |
| ScanPruning.ChosenGroupsChosen | iceberg-db-rs/patches/iceberg-0.9.1/src/arrow/reader.rs:501-543 | the intersection of the two lists is exactly the groups that pass both, in ascending order |
| ScanPruning.ServedWanted | iceberg-db-rs/patches/iceberg-0.9.1/src/arrow/reader.rs:560-588 | deletes that agree in the selected groups give the same result, since the other groups hold no wanted row |
| ScanPruning.SmallFileServed | iceberg-db-rs/patches/iceberg-0.9.1/src/arrow/reader.rs:560-588 | files of fewer than 2^32 rows, and scans that select no groups, return and are served |
| ScanPruning.SelectRows | iceberg-db-rs/patches/iceberg-0.9.1/src/arrow/reader.rs:545-588 | the combined selection reads every undeleted row on which the predicate is true and skips every deleted one, with one boolean per selected row |
| ScanPruning.PrunedIsWanted | iceberg-db-rs/patches/iceberg-0.9.1/src/arrow/reader.rs:495-588 | pruning drops no wanted row and keeps no other, for any conservative evaluators |
| ScanPruning.ReaderReturnsWanted | iceberg-db-rs/patches/iceberg-0.9.1/src/arrow/reader.rs:575-588 | a reader given a faithful selection returns the wanted rows in ascending order, and the selection is as long as the selected groups |
| ScanPruning.FilterRowGroupsByByteRange | iceberg-db-rs/patches/iceberg-0.9.1/src/arrow/reader.rs:1080-1104 | in ascending order exactly the groups that share a byte with the range, where the first group starts at byte 4 and each at the end of the one before; the end of the range wraps in 64 bits |
| ScanPruning.GetSelectedRowGroupIndices | iceberg-db-rs/patches/iceberg-0.9.1/src/arrow/reader.rs:985-1006 | exactly the groups the evaluator answers `true` for, ascending; fails iff an evaluation fails |
| ScanPruning.GetRowSelectionForFilterPredicate | iceberg-db-rs/patches/iceberg-0.9.1/src/arrow/reader.rs:1008-1074 | the page selections of exactly the selected groups, or of all, joined in file order, the index into the selected groups never out of bounds; fails iff the page index or an evaluation of a selected group is missing |
| ScanPruning.PageRunsNamed | iceberg-db-rs/patches/iceberg-0.9.1/src/arrow/reader.rs:1033-1074 | the page runs taken before a row group are those of the selected groups before it, one after the other |
| ScanPruning.IntersectAscending | iceberg-db-rs/patches/iceberg-0.9.1/src/arrow/reader.rs:531-543 | intersecting two lists of groups keeps them strictly ascending |
| ScanPruning.BoundarySplit | iceberg-db-rs/patches/iceberg-0.9.1/src/arrow/reader.rs:1080-1104 | the split from byte `4 + (bytes of the first a groups)` to `4 + (bytes of the first b groups)` selects exactly the groups a to b, none being empty |
| ScanPruning.SplitsPartition | iceberg-db-rs/patches/iceberg-0.9.1/src/arrow/reader.rs:1080-1104 | cuts at row-group boundaries select every non-empty group exactly once, in order |
| ScanPruning.SplitsCover | iceberg-db-rs/patches/iceberg-0.9.1/src/arrow/reader.rs:1080-1104 | wherever consecutive splits are cut, every non-empty group is selected by at least one |
| ScanPruning.SplitsReadings | iceberg-db-rs/patches/iceberg-0.9.1/src/arrow/reader.rs:1080-1104 | a non-empty group is read once more than there are cuts strictly inside it, so exactly once if and only if no cut is inside |
| RangeCoalescing.GetByteRanges | iceberg-db-rs/patches/iceberg-0.9.1/src/arrow/reader.rs:1873-1910 | every request gets exactly the file's bytes of its range, in request order, for any gap; an error iff some range ends outside the file; the lookup never underflows |
| RangeCoalescing.MergeRanges | iceberg-db-rs/patches/iceberg-0.9.1/src/arrow/reader.rs:1942-1974 | the same result for every order of the input, covering every request, merged ranges more than the gap apart, nothing fetched beyond short holes between requests |
| RangeCoalescing.MergeSorted | iceberg-db-rs/patches/iceberg-0.9.1/src/arrow/reader.rs:1950-1973 | the two nested index loops compute the recursive merge |
| RangeCoalescing.CoalesceCanonical | iceberg-db-rs/patches/iceberg-0.9.1/src/arrow/reader.rs:1942-1974 | all sorted arrangements of the same ranges, ties included, merge to the same list |
| RangeCoalescing.CoalesceShape | iceberg-db-rs/patches/iceberg-0.9.1/src/arrow/reader.rs:1942-1974 | merged ranges are more than the gap apart and each request lies within one |
| RangeCoalescing.CoalesceIdempotent | iceberg-db-rs/patches/iceberg-0.9.1/src/arrow/reader.rs:1942-1974 | merging a merged list changes nothing |
| RangeCoalescing.CoalesceAccounted | iceberg-db-rs/patches/iceberg-0.9.1/src/arrow/reader.rs:1942-1974 | every fetched byte is requested or lies in an unrequested run of at most the gap between two requests |
| RangeCoalescing.LastStartContains | iceberg-db-rs/patches/iceberg-0.9.1/src/arrow/reader.rs:1895-1906 | the last merged range starting at or before a request exists and contains it |
| Predicates.Trichotomy | iceberg-db-rs/patches/iceberg-0.9.1/src/expr/mod.rs:147-164 | values of one kind are totally ordered, so each ordering operator is the opposite of its inverse |
| Predicates.NegateMeaning | iceberg-db-rs/patches/iceberg-0.9.1/src/expr/predicate.rs:624-652 | negation by inverse operators and De Morgan is Kleene negation on every row |
| Predicates.RewriteNotMeaning | iceberg-db-rs/patches/iceberg-0.9.1/src/expr/predicate.rs:672-675 | eliminating `NOT` keeps the three-valued meaning and leaves no `NOT` |
| Predicates.LeafNegated | iceberg-db-rs/patches/iceberg-0.9.1/src/arrow/reader.rs:1553-1834 | on a file without some columns a comparison and its inverse answer opposite things, except equality on a missing column |
| Predicates.MissingIsLeast | iceberg-db-rs/patches/iceberg-0.9.1/src/arrow/reader.rs:1553-1834 | on a missing column null tests answer as on a null, comparisons, prefix and set tests as on a value below all literals and without the prefix; `!=` and `is_nan` are false and `not_nan` true |
| Predicates.RewriteNotOnFile | iceberg-db-rs/patches/iceberg-0.9.1/src/arrow/reader.rs:1553-1834 | eliminating `NOT` keeps the row filter's answers when no equality is asked of a missing column |
| Predicates.MissingEqualityFlips | iceberg-db-rs/patches/iceberg-0.9.1/src/arrow/reader.rs:1695-1733 | a negated equality on a missing column lets every row through before the elimination and none after it |
| RowGroupMetrics.ConservativeWhenSound | iceberg-db-rs/patches/iceberg-0.9.1/src/expr/visitors/row_group_metrics_evaluator.rs:59-516 | the row-group evaluator rules out no row that the row filter lets through, whatever is asked, if and only if the statistics are true of the rows: null counts, and bounds around every value |
| RowGroupMetrics.VisitRulesOut | iceberg-db-rs/patches/iceberg-0.9.1/src/expr/visitors/row_group_metrics_evaluator.rs:191-516 | on true statistics a predicate that cannot match is true on no row of the group |
| RowGroupMetrics.ComparisonRuledOut | iceberg-db-rs/patches/iceberg-0.9.1/src/expr/visitors/row_group_metrics_evaluator.rs:154-333 | a comparison that the bounds rule out is false of every value between them |
| RowGroupMetrics.PrefixRuledOut | iceberg-db-rs/patches/iceberg-0.9.1/src/expr/visitors/row_group_metrics_evaluator.rs:335-460 | a prefix test that the bounds, cut to the prefix's length, rule out is false of every text between them |
| RowGroupMetrics.RuledOutExactly | iceberg-db-rs/patches/iceberg-0.9.1/src/expr/visitors/row_group_metrics_evaluator.rs:154-460 | with the bounds known that it looks at, a comparison or prefix test is ruled out if and only if no value between the bounds satisfies it or all rows are null |
| RowGroupMetrics.SetRuledOutExactly | iceberg-db-rs/patches/iceberg-0.9.1/src/expr/visitors/row_group_metrics_evaluator.rs:462-504 | a set test is ruled out iff all rows are null, or there are at most 200 literals and all are below the bounds or all above |
| RowGroupMetrics.JoinedAnswers | iceberg-db-rs/patches/iceberg-0.9.1/src/expr/visitors/row_group_metrics_evaluator.rs:191-516 | a conjunction is ruled out iff either side is, a disjunction iff both are; `AlwaysFalse` always, `AlwaysTrue` only in a group without rows |
| RowGroupMetrics.NullAnswers | iceberg-db-rs/patches/iceberg-0.9.1/src/expr/visitors/row_group_metrics_evaluator.rs:214-516 | null tests are ruled out by the null count alone; `!=` and `not in` never |
| RowGroupMetrics.VisitSucceeds | iceberg-db-rs/patches/iceberg-0.9.1/src/expr/visitors/row_group_metrics_evaluator.rs:191-516 | on statistics of the columns' types whose bounds can be read, a predicate is answered iff each of its prefix tests is made of text or is decided by the null count |
| RowGroupMetrics.UnsoundLosesRow | iceberg-db-rs/patches/iceberg-0.9.1/src/expr/visitors/row_group_metrics_evaluator.rs:59-516 | for each untrue statistic a predicate and a row it hides |
| RowGroupMetrics.NanRowLost | iceberg-db-rs/patches/iceberg-0.9.1/src/expr/visitors/row_group_metrics_evaluator.rs:154-188 | bounds that leave NaN out: a lower limit rules out a group whose NaN row the filter lets through |
| RowGroupMetrics.NotRulesOut | iceberg-db-rs/patches/iceberg-0.9.1/src/expr/visitors/row_group_metrics_evaluator.rs:210-212 | under a `NOT` the evaluator loses a row on true statistics; eliminating it first does not |
| PageIndexEvaluators.CalcRowCounts | iceberg-db-rs/patches/iceberg-0.9.1/src/expr/visitors/page_index_evaluator.rs:219-238 | the loop gives each page the rows up to the next page, the last page what remains |
| PageIndexEvaluators.PageIndexConservativeWhenSound | iceberg-db-rs/patches/iceberg-0.9.1/src/expr/visitors/page_index_evaluator.rs:82-111 | skipping pages loses no row that the row filter lets through, whatever is asked, if and only if the column index is true of its pages and the bounds of pages with values compare with literals |
| PageIndexEvaluators.VisitSkipsSafely | iceberg-db-rs/patches/iceberg-0.9.1/src/expr/visitors/page_index_evaluator.rs:420-780 | on a true column index a row that the selection skips satisfies no predicate |
| PageIndexEvaluators.MaskAt | iceberg-db-rs/patches/iceberg-0.9.1/src/expr/visitors/page_index_evaluator.rs:130-216 | a row is read exactly when the entry of its page may match |
| PageIndexEvaluators.PageAgreesWithRowGroup | iceberg-db-rs/patches/iceberg-0.9.1/src/expr/visitors/page_index_evaluator.rs:382-717 | on comparable bounds that are not NaN a page is skipped exactly when a row group with its statistics would be ruled out |
| PageIndexEvaluators.PageInExactly | iceberg-db-rs/patches/iceberg-0.9.1/src/expr/visitors/page_index_evaluator.rs:719-768 | a set test skips a page with a bound iff no literal lies within its bounds |
| PageIndexEvaluators.JoinedSelections | iceberg-db-rs/patches/iceberg-0.9.1/src/expr/visitors/page_index_evaluator.rs:420-780 | a row is read under a conjunction iff both sides read it, under a disjunction iff either does; `AlwaysFalse` reads none |
| PageIndexEvaluators.NeverSkipped | iceberg-db-rs/patches/iceberg-0.9.1/src/expr/visitors/page_index_evaluator.rs:566-780 | `!=` and `not in` read every row |
| PageIndexEvaluators.MissingColumnSelects | iceberg-db-rs/patches/iceberg-0.9.1/src/expr/visitors/page_index_evaluator.rs:130-141 | on a column the row group does not have, order comparisons, null tests and negated prefix tests read every row, and `=`, `in`, prefix and non-null tests none |
| PageIndexEvaluators.VisitPagesSucceeds | iceberg-db-rs/patches/iceberg-0.9.1/src/expr/visitors/page_index_evaluator.rs:130-216 | a predicate is answered iff its prefix tests are made of text and the columns it uses are in the schema and have a usable column index with page locations, or none |
| PageIndexEvaluators.UnsoundPageLosesRow | iceberg-db-rs/patches/iceberg-0.9.1/src/expr/visitors/page_index_evaluator.rs:82-111 | for each untrue entry a predicate and a row it skips |
| PageIndexEvaluators.PromotedRowLost | iceberg-db-rs/patches/iceberg-0.9.1/src/expr/visitors/page_index_evaluator.rs:382-417 | bounds stored in another type than the column's: an inequality skips a page whose row satisfies it |
| PageIndexEvaluators.TrueMetadataIsConservative | iceberg-db-rs/patches/iceberg-0.9.1/src/arrow/reader.rs:985-1074 | on metadata that is true of the file both evaluators together prune safely, as `ScanFile` asks |
| Predicates.EvaluateIn | iceberg-db-rs/patches/iceberg-0.9.1/src/arrow/reader.rs:1776-1804 | the fold over the literals is set membership, unknown on null, in any order of the literals |
| Predicates.EvaluateNotIn | iceberg-db-rs/patches/iceberg-0.9.1/src/arrow/reader.rs:1806-1834 | the fold for the negated set predicate |
| EqualityDeletes.NegatedRowMeaning | iceberg-db-rs/patches/iceberg-0.9.1/src/arrow/caching_delete_file_loader.rs:393-406 | one delete row's predicate is true on a data row iff some column is non-null there and differs from the deleted value |
| EqualityDeletes.CombineBalanced | iceberg-db-rs/patches/iceberg-0.9.1/src/arrow/caching_delete_file_loader.rs:409-427 | the level-by-level loop terminates and computes the balanced conjunction |
| EqualityDeletes.BalancedAndMeaning | iceberg-db-rs/patches/iceberg-0.9.1/src/arrow/caching_delete_file_loader.rs:409-427 | balancing keeps the meaning of the conjunction on every row |
| EqualityDeletes.BalancedAndConjuncts | iceberg-db-rs/patches/iceberg-0.9.1/src/arrow/caching_delete_file_loader.rs:409-427 | balancing keeps the conjuncts and their order |
| EqualityDeletes.BalancedAndDepth | iceberg-db-rs/patches/iceberg-0.9.1/src/arrow/caching_delete_file_loader.rs:409-427 | combining n predicates nests at most ceil(log2 n) levels |
| EqualityDeletes.Log2CeilIsLeast | iceberg-db-rs/patches/iceberg-0.9.1/src/arrow/caching_delete_file_loader.rs:409-427 | the depth bound is the least exponent of two reaching n |
| EqualityDeletes.DeletePredicateMeaning | iceberg-db-rs/patches/iceberg-0.9.1/src/arrow/caching_delete_file_loader.rs:357-428 | the balanced predicate of a list of delete rows is true on a data row iff every delete row has a column that is non-null there and differs |
| EqualityDeletes.FilePredicateMeaning | iceberg-db-rs/patches/iceberg-0.9.1/src/arrow/caching_delete_file_loader.rs:357-428 | the parsed predicate is true on a data row iff a batch without columns ended the parse, or for every row of every batch some column of that batch is non-null in the data and differs from its own cell of that row |
| EqualityDeletes.EqualityPredicatesMeaning | iceberg-db-rs/patches/iceberg-0.9.1/src/arrow/delete_filter.rs:175-213 | a row passes the conjunction iff it passes every loaded equality predicate of the scan task |
| EqualityDeletes.EqualityDeletePredicateMeaning | iceberg-db-rs/patches/iceberg-0.9.1/src/arrow/delete_filter.rs:175-213 | the joined predicate is true on a row exactly where the conjunction of the loaded ones is |
| EqualityDeletes.KeptAgreesWithStandard | iceberg-db-rs/patches/iceberg-0.9.1/src/arrow/caching_delete_file_loader.rs:391-406 | the filter agrees with `kept iff no delete row matches` exactly when the row is matched or no delete row is left undecided by a null |
| EqualityDeletes.KeptWithoutNulls | iceberg-db-rs/patches/iceberg-0.9.1/src/arrow/caching_delete_file_loader.rs:391-406 | without nulls in the equality columns a row is kept iff no delete row matches it |
| EqualityDeletes.NullRowLost | iceberg-db-rs/patches/iceberg-0.9.1/src/arrow/caching_delete_file_loader.rs:391-406 | a concrete unmatched row with a null that the filter drops |
| EqualityDeletes.DeletePredicateShape | iceberg-db-rs/patches/iceberg-0.9.1/src/arrow/caching_delete_file_loader.rs:391-427 | the conjuncts of a file's predicate are its delete rows in order, nested exactly ceil(log2 n) levels deep, which no nesting undercuts |
| EqualityDeletes.ParseBatch | iceberg-db-rs/patches/iceberg-0.9.1/src/arrow/caching_delete_file_loader.rs:381-406 | one predicate for each row of the batch's columns, true on a data row iff some column is non-null there and differs from its cell of that row |
| EqualityDeletes.ParseEqualityDeletes | iceberg-db-rs/patches/iceberg-0.9.1/src/arrow/caching_delete_file_loader.rs:357-428 | the predicate of a whole file is true on a data row iff a batch without columns ended the parse, or every row of every batch, read off the batch's own columns, has one that is non-null in the data and differs |
| EqualityDeletes.BuildEqualityDeletePredicate | iceberg-db-rs/patches/iceberg-0.9.1/src/arrow/delete_filter.rs:175-213 | the conjunction over all equality delete files of a task; fails iff one has no predicate, and nothing is returned only when every row passes |
| DeleteFilters.DeleteFilter.TryStartPosDelLoad | iceberg-db-rs/patches/iceberg-0.9.1/src/arrow/delete_filter.rs:114-131 | the first caller is told to load, later ones to wait on its notifier or that the file is loaded |
| DeleteFilters.DeleteFilter.FinishPosDelLoad | iceberg-db-rs/patches/iceberg-0.9.1/src/arrow/delete_filter.rs:133-149 | the file becomes loaded and the loading notifier is handed back |
| DeleteFilters.DeleteFilter.UpsertDeleteVector | iceberg-db-rs/patches/iceberg-0.9.1/src/arrow/delete_filter.rs:215-230 | the data file's vector is stored or merged in place, all others unchanged |
| DeleteFilters.DeleteFilter.TryStartEqDelLoad | iceberg-db-rs/patches/iceberg-0.9.1/src/arrow/delete_filter.rs:93-108 | a notifier only for the first caller, and the file is then loading |
| DeleteFilters.DeleteFilter.InsertEqualityDelete | iceberg-db-rs/patches/iceberg-0.9.1/src/arrow/delete_filter.rs:232-244 | loading again, under a new notifier |
| DeleteFilters.DeleteFilter.StoreEqualityDelete | iceberg-db-rs/patches/iceberg-0.9.1/src/arrow/delete_filter.rs:248-257 | the file becomes loaded with the predicate that was sent |
| DeleteFilters.DeleteFilter.GetDeleteVectorForPath | iceberg-db-rs/patches/iceberg-0.9.1/src/arrow/delete_filter.rs:83-91 | the data file's own vector, if any |
| DeleteFilters.DeleteFilter.LookupEqualityDelete | iceberg-db-rs/patches/iceberg-0.9.1/src/arrow/delete_filter.rs:152-172 | the state of a file as a query reads it |
| PositionalLoad.ActionKeeps | iceberg-db-rs/patches/iceberg-0.9.1/src/arrow/delete_filter.rs:114-149 | every step of every job keeps the invariant, and files, positions and notifications only grow |
| PositionalLoad.AtMostOneLoad | iceberg-db-rs/patches/iceberg-0.9.1/src/arrow/delete_filter.rs:114-131 | over any interleaving at most one job is told to load a file |
| PositionalLoad.LoadedIsForever | iceberg-db-rs/patches/iceberg-0.9.1/src/arrow/delete_filter.rs:133-149 | loaded is absorbing, and all positions of a loaded file stay in the vectors |
| PositionalLoad.WokenFindsEverything | iceberg-db-rs/patches/iceberg-0.9.1/src/arrow/caching_delete_file_loader.rs:226-241 | a job woken by a notifier finds all positions of its file in the vectors |
| PositionalLoad.WaiterCanWake | iceberg-db-rs/patches/iceberg-0.9.1/src/arrow/delete_filter.rs:114-149 | over any interleaving, once the job told to load a file is done the notifier of every job waiting for it has fired; until then that job can go on, unless reading has failed |
| PositionalLoad.SuccessfulLoadIsComplete | iceberg-db-rs/patches/iceberg-0.9.1/src/arrow/caching_delete_file_loader.rs:151-216 | after a successful `load_deletes` no requested position is missing, and no vector holds a position of a file that was never started |
| PositionalLoad.ParsePositionalDeletes | iceberg-db-rs/patches/iceberg-0.9.1/src/arrow/caching_delete_file_loader.rs:316-355 | position p of a data file is deleted iff some row names the file and p itself, or p - 2^64 as a negative number; files no row names get no vector; fails iff a path or a position is null |
| PositionalLoad.RequestedRows | iceberg-db-rs/patches/iceberg-0.9.1/src/arrow/caching_delete_file_loader.rs:316-355 | the deletes of a set of files are exactly those that some row of one of them names |
| EqualityLoad.ActionKeeps | iceberg-db-rs/patches/iceberg-0.9.1/src/arrow/delete_filter.rs:93-258 | every step keeps the invariant and moves a file forward by at most one stage |
| EqualityLoad.FileMovesForward | iceberg-db-rs/patches/iceberg-0.9.1/src/arrow/delete_filter.rs:93-258 | over any run a file only goes absent, loading, loading under a new notifier, loaded |
| EqualityLoad.AtMostOneLoad | iceberg-db-rs/patches/iceberg-0.9.1/src/arrow/delete_filter.rs:93-108 | at most one job starts the load of a file |
| EqualityLoad.LoadedNeverChanges | iceberg-db-rs/patches/iceberg-0.9.1/src/arrow/delete_filter.rs:232-258 | a loaded predicate is the one its loader sent and never changes |
| EqualityLoad.AnswersAreTheLoaders | iceberg-db-rs/patches/iceberg-0.9.1/src/arrow/delete_filter.rs:152-172 | every answer is the loader's predicate, and the unreachable branch after the wait is never taken |
| EqualityLoad.NeverMissingAfterLoad | iceberg-db-rs/patches/iceberg-0.9.1/src/arrow/delete_filter.rs:152-172 | after a job has reserved a file no query reports its predicate as missing |
| EqualityLoad.AnsweredAfterLoad | iceberg-db-rs/patches/iceberg-0.9.1/src/arrow/delete_filter.rs:152-172 | an answer to a query asked after the load of its file has begun is the loader's predicate, never a missing one |
| EqualityLoad.QueryCanResume | iceberg-db-rs/patches/iceberg-0.9.1/src/arrow/delete_filter.rs:93-258 | when the job that loads a file is through, a query waiting for it can go on iff it waits for the notifier that replaced the reserving one; before that, such a query has a job that can go on, unless reading has failed |
| EqualityLoad.StrandedForever | iceberg-db-rs/patches/iceberg-0.9.1/src/arrow/delete_filter.rs:232-258 | a query that waits for the reserving notifier is never woken, whatever happens |
| EqualityLoad.AskedTooEarly | iceberg-db-rs/patches/iceberg-0.9.1/src/arrow/caching_delete_file_loader.rs:245-250 | a run in which a query asks between the reservation and the insertion and waits although the file is loaded |
| MergeOnRead.ReadTask | iceberg-db-rs/patches/iceberg-0.9.1/src/arrow/reader.rs:465-600 | the delete predicate, joined with the filter, and the delete vector of the file decide the rows returned: exactly the ascending ones in the row groups, not among the deletes the walk finds, passing the filter and every loaded equality predicate; where the walk serves the deletes, those not in the vector; fails iff an answer is missing or an evaluation fails |
| MergeOnRead.ReadAfterLoads | iceberg-db-rs/patches/iceberg-0.9.1/src/arrow/reader.rs:464-600 | end to end: after a successful load the rows returned are exactly those in the row groups that share a byte with the scan task's range, that the filter lets through, that every delete row of every equality delete file spares and that the walk does not find deleted; where it serves the deletes, those not in the loaded vector, and when only requested files delete from the data file, those that no row of a requested positional delete file names; fails iff an evaluation fails |
| MergeOnRead.LoadedRows | iceberg-db-rs/patches/iceberg-0.9.1/src/arrow/caching_delete_file_loader.rs:151-216 | after a successful load the vector of a data file holds every position that a row of a requested file deletes, and only positions that a row of a started file deletes |
| MergeOnRead.TaskIsConservative | iceberg-db-rs/patches/iceberg-0.9.1/src/arrow/reader.rs:471-543 | on metadata that is true of the file nothing is pruned that the final predicate would let through |
| MergeOnRead.LoadedTaskIsConservative | iceberg-db-rs/patches/iceberg-0.9.1/src/arrow/reader.rs:464-543 | the same with the predicates that the loads have left, so that pruning is safe end to end |
| MergeOnRead.TaskEvaluates | iceberg-db-rs/patches/iceberg-0.9.1/src/arrow/reader.rs:464-543 | on metadata that can be read no evaluation for the final predicate fails, provided its prefix tests are made of text |
| MergeOnRead.LoadedTaskEvaluates | iceberg-db-rs/patches/iceberg-0.9.1/src/arrow/reader.rs:464-543 | the same with the predicates that the loads have left, so that the read returns rows |
| MergeOnRead.FilePredicateAskable | iceberg-db-rs/patches/iceberg-0.9.1/src/arrow/caching_delete_file_loader.rs:357-428 | the predicate of an equality delete file whose cells have their columns' types can be asked of the metadata: without `NOT`, and of these columns |
| MergeOnRead.FinalPredicateMeaning | iceberg-db-rs/patches/iceberg-0.9.1/src/arrow/reader.rs:471-478 | the final predicate is true exactly where the filter and the delete predicate are |
| MergeOnRead.SmallTaskServed | iceberg-db-rs/patches/iceberg-0.9.1/src/arrow/reader.rs:560-588 | for files of fewer than 2^32 rows the walk returns and serves, whatever is filtered and deleted |
| DeleteFileIndexes.NewIndex | iceberg-db-rs/patches/iceberg-0.9.1/src/delete_file_index.rs:120-161 | the loop builds the hashed index of the whole list, an unpartitioned data file counting as global; it fails iff a data file has a partition |
| DeleteFileIndexes.IndexedIsPlain | iceberg-db-rs/patches/iceberg-0.9.1/src/delete_file_index.rs:164-212 | the hashed index answers as three plain filters of the whole list: global, equality, positional, in list order |
| DeleteFileIndexes.FilterPicks | iceberg-db-rs/patches/iceberg-0.9.1/src/delete_file_index.rs:168-212 | a filter takes exactly the files to be kept, each where it stands in the list, in the order of the list |
| DeleteFileIndexes.GetDeletesForDataFile | iceberg-db-rs/patches/iceberg-0.9.1/src/delete_file_index.rs:164-212 | returned, as often as collected, are exactly the files of an unpartitioned spec and the equality deletes of the data's partition and spec that are strictly newer than the data, and the positional deletes of both that are not older; in the order of the plain answer |
| DeleteFileIndexes.DeleteFileIndex.Populate | iceberg-db-rs/patches/iceberg-0.9.1/src/delete_file_index.rs:65-79 | the state is switched in place to the index of the collected files, and left alone if they cannot be indexed |
| DeleteFileIndexes.DeleteFileIndex.ReadFirst | iceberg-db-rs/patches/iceberg-0.9.1/src/delete_file_index.rs:90-98 | if populated a query is answered with exactly the collected files that apply, else told to wait |
| DeleteFileIndexes.DeleteFileIndex.ReadSecond | iceberg-db-rs/patches/iceberg-0.9.1/src/delete_file_index.rs:102-109 | the read after the wait, answered in the same way |
| DeleteFileIndexes.ActionKeeps | iceberg-db-rs/patches/iceberg-0.9.1/src/delete_file_index.rs:56-109 | every step keeps the invariant; a populated index and the collected files never change |
| DeleteFileIndexes.AnswersAreComplete | iceberg-db-rs/patches/iceberg-0.9.1/src/delete_file_index.rs:56-109 | over any run every answer, early or late, has exactly the files of the complete list that apply, and no query breaks |
| DeleteFileIndexes.QueryCanResume | iceberg-db-rs/patches/iceberg-0.9.1/src/delete_file_index.rs:71-109 | once the notifier has fired every waiting query can go on, and the index is there |
| BatchTransformer.ConstantsMap | iceberg-db-rs/patches/iceberg-0.9.1/src/arrow/record_batch_transformer.rs:52-110 | constants for exactly the identity fields with a value, the last such field of an id giving type and value; fails iff an identity field is missing, or it or its value is not primitive |
| BatchTransformer.BuildFieldIdMap | iceberg-db-rs/patches/iceberg-0.9.1/src/arrow/record_batch_transformer.rs:571-592 | each id leads to the last field that carries it; fails iff some id does not parse |
| BatchTransformer.CompareSchemas | iceberg-db-rs/patches/iceberg-0.9.1/src/arrow/record_batch_transformer.rs:438-469 | different iff lengths, types or nullability differ; else by names; ids are not looked at |
| BatchTransformer.GenerateBatchTransform | iceberg-db-rs/patches/iceberg-0.9.1/src/arrow/record_batch_transformer.rs:347-424 | the plan made from the two id maps is the specified plan |
| BatchTransformer.OperationsResolve | iceberg-db-rs/patches/iceberg-0.9.1/src/arrow/record_batch_transformer.rs:471-569 | running the operations is resolving every projected id afresh, and gives exactly the columns that follow the rules: the constant, else the file's column cast to the table's type, else the field's primitive initial default, else null |
| BatchTransformer.ExpectedExactly | iceberg-db-rs/patches/iceberg-0.9.1/src/arrow/record_batch_transformer.rs:347-569 | resolving afresh yields exactly the batches with, for each projected id, the name, type and nullability asked for and a column that follows the rules; it fails iff there is none or the table's types or an id of the file cannot be read |
| BatchTransformer.ConstantTypeIsColumnType | iceberg-db-rs/patches/iceberg-0.9.1/src/arrow/schema.rs:1102-1133 | constants have the column type of their table type, except that times are bare 64-bit numbers and UUID, fixed and binary share one type; decimals are cut to a byte each |
| BatchTransformer.EqualWhenAnonymous | iceberg-db-rs/patches/iceberg-0.9.1/src/arrow/record_batch_transformer.rs:530 | a file column is passed on uncast iff its type is the table's but for names and metadata of inner fields |
| BatchTransformer.DifferentIsExact | iceberg-db-rs/patches/iceberg-0.9.1/src/arrow/record_batch_transformer.rs:408-423 | where the schemas differ the plan gives what resolving afresh gives; a batch without columns fails |
| BatchTransformer.KeptColumnsExact | iceberg-db-rs/patches/iceberg-0.9.1/src/arrow/record_batch_transformer.rs:438-469 | where they do not, keeping the columns is right for every batch if and only if the file's ids are the projected ones position by position |
| BatchTransformer.MisalignedLoses | iceberg-db-rs/patches/iceberg-0.9.1/src/arrow/record_batch_transformer.rs:438-469 | for every other file a one-row batch that comes out wrong |
| BatchTransformer.ReorderedIsRelabelled | iceberg-db-rs/patches/iceberg-0.9.1/src/arrow/record_batch_transformer.rs:438-469 | two columns of one type in the other order keep their data and exchange their labels |
| BatchTransformer.ConstantForcesModify | iceberg-db-rs/patches/iceberg-0.9.1/src/arrow/record_batch_transformer.rs:359-423 | a projected constant over file columns that are not run-end encoded always rebuilds the batch |
| BatchTransformer.ExactWhenSound | iceberg-db-rs/patches/iceberg-0.9.1/src/arrow/record_batch_transformer.rs:298-338 | over all files with a column, the plan agrees with resolving afresh on every batch if and only if the schema differs from the target or the columns are the projected ones in order |
| BatchTransformer.PlanIsExact | iceberg-db-rs/patches/iceberg-0.9.1/src/arrow/record_batch_transformer.rs:298-338 | for every such file the plan agrees with resolving afresh on each batch, rows kept; a batch without columns fails when something is projected |
| BatchTransformer.TrustedIsSound | iceberg-db-rs/patches/iceberg-0.9.1/src/arrow/record_batch_transformer.rs:438-469 | files whose ids are distinct and follow the projection are such files |
| BatchTransformer.NoColumnsFails | iceberg-db-rs/patches/iceberg-0.9.1/src/arrow/record_batch_transformer.rs:594-601 | a batch without columns fails as soon as something is projected |
| BatchTransformer.NoColumnsLost | iceberg-db-rs/patches/iceberg-0.9.1/src/arrow/record_batch_transformer.rs:594-601 | a batch without columns that resolves to a column of nulls and fails |
| BatchTransformer.RecordBatchTransformer.ProcessRecordBatch | iceberg-db-rs/patches/iceberg-0.9.1/src/arrow/record_batch_transformer.rs:298-338 | the plan is made once, kept if it could be made, and applied |
| BatchTransformer.RecordBatchTransformer.ProcessStream | iceberg-db-rs/patches/iceberg-0.9.1/src/arrow/reader.rs:590-600 | each output of a stream sharing one such schema agrees with resolving that batch afresh, rows kept: every column follows the rules, and an output fails only where no batch would follow them |
| SchemaConversion.ConvertsWhen | iceberg-db-rs/patches/iceberg-0.9.1/src/arrow/schema.rs:501-695 | a table type converts iff every decimal at any depth has a precision of 1 to 38 and a scale within it |
| SchemaConversion.RoundTrip | iceberg-db-rs/patches/iceberg-0.9.1/src/arrow/schema.rs:114-713 | to a column type and back gives the normalised type, ids, documentation and nullability kept at every depth |
| SchemaConversion.NormalizeIdempotent | iceberg-db-rs/patches/iceberg-0.9.1/src/arrow/schema.rs:354-695 | normalising twice is normalising once |
| SchemaConversion.ReadIsNormal | iceberg-db-rs/patches/iceberg-0.9.1/src/arrow/schema.rs:354-490 | a type read from columns is normal iff no fixed-size binary has a negative width |
| SchemaConversion.ReadAgain | iceberg-db-rs/patches/iceberg-0.9.1/src/arrow/schema.rs:114-713 | what was read once, written back, is read the same again |
| SchemaConversion.ReadAsInteger | iceberg-db-rs/patches/iceberg-0.9.1/src/arrow/schema.rs:431-446 | which column types are read as truth values and as each integer type of the table |
| SchemaConversion.ReadAsFloating | iceberg-db-rs/patches/iceberg-0.9.1/src/arrow/schema.rs:445-446 | which column types are read as each floating type |
| SchemaConversion.ReadAsDecimal | iceberg-db-rs/patches/iceberg-0.9.1/src/arrow/schema.rs:447-453 | a decimal column is read with its precision, from 1 to 38, and its scale modulo 2^32 |
| SchemaConversion.ReadAsTime | iceberg-db-rs/patches/iceberg-0.9.1/src/arrow/schema.rs:454-475 | which column types are read as each time type: no zone, or "UTC" or "+00:00" |
| SchemaConversion.ReadAsBytes | iceberg-db-rs/patches/iceberg-0.9.1/src/arrow/schema.rs:476-484 | which column types are read as text, bytes and fixed bytes; none is read as a UUID |
| SchemaConversion.NotRead | iceberg-db-rs/patches/iceberg-0.9.1/src/arrow/schema.rs:429-490 | which column types are not read |
| SchemaConversion.IntegersWiden | iceberg-db-rs/patches/iceberg-0.9.1/src/arrow/schema.rs:432-446 | an integer column is read as the smallest table type that holds all its values, or not at all |
| SchemaConversion.ReadsWhen | iceberg-db-rs/patches/iceberg-0.9.1/src/arrow/schema.rs:114-490 | a column type is read iff every visited leaf has a table type, every field an id, every map an entry of two fields, and the temporary ids suffice |
| SchemaConversion.NestedNames | iceberg-db-rs/patches/iceberg-0.9.1/src/arrow/schema.rs:354-427 | elements, keys and values get their fixed names and the nullability of their columns; keys are required |
| SchemaConversion.ReadAsPlain | iceberg-db-rs/patches/iceberg-0.9.1/src/arrow/schema.rs:114-490 | every column type is read as the form that writing would produce, with one kind of list and of map and no dictionaries |
| SchemaConversion.WrittenIsPlain | iceberg-db-rs/patches/iceberg-0.9.1/src/arrow/schema.rs:501-695 | what writing produces is in that form, map entries being neither nullable nor sorted |
| SchemaConversion.TemporaryIds | iceberg-db-rs/patches/iceberg-0.9.1/src/arrow/schema.rs:271-333 | without ids in the metadata every field at every depth gets its own number, consecutively |
| SchemaConversion.ArrowSchemaConverter.GetFieldId | iceberg-db-rs/patches/iceberg-0.9.1/src/arrow/schema.rs:296-308 | the id in the metadata, or the counter, which is stepped |
| SchemaConversion.ArrowSchemaConverter.ConvertFields | iceberg-db-rs/patches/iceberg-0.9.1/src/arrow/schema.rs:310-333 | the pushing loop builds the specified fields, stopping at the first bad id |
| SchemaConversion.ArrowSchemaConverter.VisitStruct | iceberg-db-rs/patches/iceberg-0.9.1/src/arrow/schema.rs:188-199 | all field types first, then the fields; fails at the first failure |
| SchemaConversion.ArrowSchemaConverter.VisitType | iceberg-db-rs/patches/iceberg-0.9.1/src/arrow/schema.rs:114-186 | the visitor's result and counter are those of the specification, on every column type |
| Int96.TargetUnit | iceberg-db-rs/patches/iceberg-0.9.1/src/arrow/int96.rs:78-108 | microseconds exactly for nanosecond timestamps that the table does not declare as nanoseconds |
| Int96.Int96CoercionVisitor.VisitType | iceberg-db-rs/patches/iceberg-0.9.1/src/arrow/int96.rs:111-247 | with a field on the stack no underflow; on success the stack is restored, and the flag is set iff some leaf changed |
| Int96.VisitSucceeds | iceberg-db-rs/patches/iceberg-0.9.1/src/arrow/schema.rs:114-174 | the visit succeeds iff the type holds no null and no run-end-encoded type and its map entries have two fields |
| Int96.VisitIsCoercion | iceberg-db-rs/patches/iceberg-0.9.1/src/arrow/int96.rs:162-247 | a field comes out as the pure recursive map says if and only if it can be visited, has no dictionary and only standard map entries |
| Int96.NeedsWhenDifferent | iceberg-db-rs/patches/iceberg-0.9.1/src/arrow/int96.rs:78-108 | the intended map changes a field iff it holds a nanosecond timestamp the table does not keep |
| Int96.ChangesWhenNeeded | iceberg-db-rs/patches/iceberg-0.9.1/src/arrow/int96.rs:224-247 | on visitable fields the flag is set whenever a change is needed, and on standard ones only then |
| Int96.CoerceIdempotent | iceberg-db-rs/patches/iceberg-0.9.1/src/arrow/int96.rs:162-247 | coercing twice is coercing once |
| Int96.OnlyUnitsChange | iceberg-db-rs/patches/iceberg-0.9.1/src/arrow/int96.rs:162-247 | the intended map keeps names, zones, nullability, metadata and nesting; a timestamp that needs it becomes microseconds of its own zone |
| Int96.NothingLeftToCoerce | iceberg-db-rs/patches/iceberg-0.9.1/src/arrow/int96.rs:162-247 | afterwards no timestamp needs to be coerced |
| Int96.CoerceInt96Timestamps | iceberg-db-rs/patches/iceberg-0.9.1/src/arrow/int96.rs:44-55 | a new schema exactly when every column can be visited and something changed, metadata kept |
| Int96.CoercedSchema | iceberg-db-rs/patches/iceberg-0.9.1/src/arrow/int96.rs:44-55 | for every schema: the fields in use are the intended ones if and only if a replaced schema is standard and one not replaced needed nothing |
| Int96.VisitableSchema | iceberg-db-rs/patches/iceberg-0.9.1/src/arrow/int96.rs:44-55 | a schema that can be visited goes wrong only by being changed without being standard |
| Int96.NullColumnStopsCoercion | iceberg-db-rs/patches/iceberg-0.9.1/src/arrow/int96.rs:49 | a standard schema with a column of nulls, whose timestamp keeps its nanoseconds |
| Int96.DictionaryIsReplaced | iceberg-db-rs/patches/iceberg-0.9.1/src/arrow/schema.rs:168 | a schema whose dictionary column is replaced by its value type because a timestamp beside it is coerced |
| Projector.FetchFieldIndex | iceberg-db-rs/patches/iceberg-0.9.1/src/arrow/record_batch_projector.rs:123-157 | the specified path is pushed on success; nothing is pushed otherwise |
| Projector.FindIsFirst | iceberg-db-rs/patches/iceberg-0.9.1/src/arrow/record_batch_projector.rs:123-157 | the search finds the first match in pre-order with no bad id before it, or nothing when there is neither; it fails on a bad id with no match before it |
| Projector.FailsWhenBadFirst | iceberg-db-rs/patches/iceberg-0.9.1/src/arrow/record_batch_projector.rs:123-157 | it fails iff some reachable bad id has no match before it in pre-order |
| Projector.FoundWhenReachable | iceberg-db-rs/patches/iceberg-0.9.1/src/arrow/record_batch_projector.rs:123-157 | it succeeds iff a field with the id is reachable through searchable structs and no bad id is before it |
| Projector.GetColumnByFieldIndex | iceberg-db-rs/patches/iceberg-0.9.1/src/arrow/record_batch_projector.rs:181-200 | the column at the end of the path, null in a row iff it or any struct around it is; fails iff something in between is not a struct |
| Projector.FoundIsFollowed | iceberg-db-rs/patches/iceberg-0.9.1/src/arrow/record_batch_projector.rs:123-200 | a found path can be followed through any columns of the schema |
| Projector.NewProjector | iceberg-db-rs/patches/iceberg-0.9.1/src/arrow/record_batch_projector.rs:48-83 | a path for each id, or a failure iff some id cannot be found |
| FallbackIds.LeafCountCounts | iceberg-db-rs/patches/iceberg-0.9.1/src/arrow/reader.rs:1138-1144 | `leaf_count` is the number of flattened leaves |
| FallbackIds.UnnestingKeepsLeaves | iceberg-db-rs/patches/iceberg-0.9.1/src/arrow/reader.rs:1138-1144 | writing the fields of a group in its place leaves the leaves as they are |
| FallbackIds.FlatLeaves | iceberg-db-rs/patches/iceberg-0.9.1/src/arrow/reader.rs:1138-1144 | primitive fields are their own leaves |
| FallbackIds.ColumnsAreLeaves | iceberg-db-rs/patches/iceberg-0.9.1/src/arrow/reader.rs:1156-1169 | the columns of a file are the leaves of its roots, in order |
| FallbackIds.BuildFallbackFieldIdMap | iceberg-db-rs/patches/iceberg-0.9.1/src/arrow/reader.rs:1156-1169 | an entry for exactly the primitive top-level fields, leading to the field's own leaf: its index is the number of leaves of the fields before it |
| FallbackIds.FallbackIdIsRead | iceberg-db-rs/patches/iceberg-0.9.1/src/arrow/reader.rs:1247-1277 | the field at position p reads back id p+1, its other metadata untouched |
| FallbackIds.AddFallbackIds | iceberg-db-rs/patches/iceberg-0.9.1/src/arrow/reader.rs:1247-1277 | names, types and nullability stay as they were |
| FallbackIds.GetProjectionMaskFallback | iceberg-db-rs/patches/iceberg-0.9.1/src/arrow/reader.rs:932-954 | a leaf is read iff the id of its root, one more than its position, is asked for, and everything is read iff no asked id is in the file |
| FallbackIds.FallbacksAgree | iceberg-db-rs/patches/iceberg-0.9.1/src/arrow/reader.rs:932-1277 | schema ids, leaf indices and projected roots agree for every primitive column, and no nested leaf has an entry |
| MetadataLocations.PrintThenParse | iceberg-db-rs/patches/iceberg-0.9.1/src/catalog/metadata_location.rs:53-107 | printing then parsing gives the location back iff its version is not negative, whatever the table location |
| MetadataLocations.ParseThenPrint | iceberg-db-rs/patches/iceberg-0.9.1/src/catalog/metadata_location.rs:53-107 | what was parsed prints to a form that parses the same |
| MetadataLocations.ParsesExactly | iceberg-db-rs/patches/iceberg-0.9.1/src/catalog/metadata_location.rs:63-107 | a text parses to a location iff it is its table location, "/metadata/", a number, the first dash, an id without slashes and ".metadata.json", the number and the id being read as the location's |
| MetadataLocations.PrintedText | iceberg-db-rs/patches/iceberg-0.9.1/src/catalog/metadata_location.rs:80-88 | the printed text in full: a version up to 99999 in exactly five digits, a larger one in its own without a leading zero |
| MetadataLocations.ParsedVersion | iceberg-db-rs/patches/iceberg-0.9.1/src/catalog/metadata_location.rs:63-77 | a parsed version is never negative |
| Decimals.ParseSigned | iceberg-db-rs/patches/iceberg-0.9.1/src/catalog/metadata_location.rs:76-85 | every 32-bit integer is read back from its text |
| Decimals.DigitsLength | iceberg-db-rs/patches/iceberg-0.9.1/src/catalog/metadata_location.rs:82-86 | a number prints in at most k digits iff it is below 10^k, without leading zeros |
| Decimals.ParsedTexts | iceberg-db-rs/patches/iceberg-0.9.1/src/catalog/metadata_location.rs:63-77 | a text is read as an integer iff it is the integer's digits behind zeros and a sign that fits |
| Decimals.ZerosDoNotCount | iceberg-db-rs/patches/iceberg-0.9.1/src/catalog/metadata_location.rs:82-86 | zero padding does not change the number |
| PartitionSplitter.Split | iceberg-db-rs/patches/iceberg-0.9.1/src/arrow/record_batch_partition_splitter.rs:179-211 | distinct keys, exactly those of the rows, each with the batch's rows at the ascending positions that have the key |
| PartitionSplitter.GroupRows | iceberg-db-rs/patches/iceberg-0.9.1/src/arrow/record_batch_partition_splitter.rs:179-186 | each key maps to the row ids with that key |
| PartitionSplitter.FilterArray | iceberg-db-rs/patches/iceberg-0.9.1/src/arrow/record_batch_partition_splitter.rs:191-198 | the buffer is set exactly at the key's rows |
| PartitionSplitter.SplitConserves | iceberg-db-rs/patches/iceberg-0.9.1/src/arrow/record_batch_partition_splitter.rs:179-211 | every row is in the parts as often as in the batch, and sizes add up |
| PartitionSplitter.RowsInOrder | iceberg-db-rs/patches/iceberg-0.9.1/src/arrow/record_batch_partition_splitter.rs:179-211 | a part's rows are the batch's rows at the key's positions, ascending |

## Left out

Members whose contract covers less than the code could be asked for:

- RowSelections.BuildDeletesRowSelection: asks that no selected row group is reached with a stale delete in the cache; there the loop does not end (`StaleStalls`), and no method of the model can return.
- ScanPruning.ScanFile: the same, and that the metrics and page-index evaluators never rule out a matching row, which `TrueMetadataIsConservative` derives from true metadata. The end of the byte range is computed in 64 bits and wraps; a build that checks overflow would panic there.
- MergeOnRead.ReadAfterLoads: asks, as `ScanFile` does, that the walk over the row groups returns and that pruning is safe (`SmallTaskServed`, `LoadedTaskIsConservative`); binding the predicates to the schema is not modelled.
- MergeOnRead.TaskIsConservative: for predicates on columns that the file has, whose meaning there is `Eval`; missing columns are covered one level below, by `TrueMetadataIsConservative`.
- RowGroupMetrics.ConservativeWhenSound: starts from the bounds as literals; their conversion from stored statistics, which may fail, and column names resolved to leaf columns are inputs.
- RowGroupMetrics.RuledOutExactly: for bounds that are known and not NaN; where one of the two bounds that equality or a prefix test looks at is unknown, only safety is stated (`VisitRulesOut`).
- PageIndexEvaluators.VisitSkipsSafely: offsets that do not describe the row group, and text bounds that are not UTF-8, for which the code would panic, are excluded; the cache of row counts, which only saves work, is left out.
- RowSelections.CountDeletedRun: the inner loop's early exit is folded into the loop condition; the runs pushed are the same.
- DeleteVectors.DeleteVector.InsertPositions: which prefix the bitmap library leaves behind after a failed append is taken to be the part before the first offending position.
- EqualityDeletes.BuildEqualityDeletePredicate: binding to the schema, which may fail, is not modelled.
- EqualityDeletes.ParseEqualityDeletes: starts from the collected columns of each batch; their collection by the schema visitor and errors while converting literals are not modelled.
- PositionalLoad.WaiterCanWake: the notifier has fired; that a job which begins to wait only after that still returns is not claimed, because the library's notifier keeps no permit for it.
- EqualityLoad.QueryCanResume: the same.
- DeleteFileIndexes.QueryCanResume: the same.
- DeleteFileIndexes.NewIndex: the panic on a partitioned data file is a failure.
- BatchTransformer.ExactWhenSound: leaves out files without columns, for which `NoColumnsFails` says what happens.
- BatchTransformer.PlanIsExact: casting and filling columns are parameters, and an index past the columns of a batch, which would panic, is a failure.
- BatchTransformer.RecordBatchTransformer.ProcessStream: all batches of a stream have the schema of the first one; the plan is not made again for another.
- SchemaConversion.ArrowSchemaConverter.GetFieldId: running out of 32-bit temporary ids is a failure; in the code the counter overflows.
- SchemaConversion.ArrowSchemaConverter.VisitType: nested types and the fields of a schema; the validation and the reassignment of ids by the schema builder are not part of this model.
- FallbackIds.BuildFallbackFieldIdMap: asks for at most 2^31 - 1 top-level fields: ids are 32-bit, and so is the length of the list that holds a Parquet schema.
- FallbackIds.AddFallbackIds: the same.
- FallbackIds.GetProjectionMaskFallback: the same.
- MetadataLocations.PrintThenParse: the text of a UUID is assumed to be read back and to contain no slash.
- PartitionSplitter.Split: starts from one partition value for each row; computing the values and building partition keys are not modelled.
- Projector.GetColumnByFieldIndex: an index out of the range of a struct's columns would panic and is excluded; `FoundIsFollowed` shows that a found path has none.

Behaviour that is not modelled:

- The bitmap library's internals, Parquet decoding, column casts and comparison kernels: stated by what they compute.
- `is_nan` and `not_nan` (placeholders in the converter) beyond their constant results.
- Column values other than numbers, NaN and text: numbers stand for all ordered numeric types, and a NaN with its sign bit set, which sorts first, is not told apart.
- Predicate binding to a schema, and the conversion of literals to column values.
- Error recovery after a failed load: a file whose load failed stays in the loading state.
- The metadata-stripping visitor: on lists and maps it pops frames it never pushed.
- Column projection for files with field ids, name mapping, and type-promotion checks of the projection mask.
- Metadata column tables, object cache, compression, storage back ends, HTTP, authentication, the command line and the web bindings.
- `with_next_version` and the random part of metadata file names.
