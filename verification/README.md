# The sample path of Joule, modelled and proved in Dafny

A stream of timestamped samples enters Joule through a pipe, is fanned out by a
worker, inserted into a database with its interval boundaries and its decimated
copies, and read back in blocks that are cut at those boundaries. This project
models that path and proves what the parts promise each other:

- **Pipes** (`Framing`, `OutputPipes`, `InputPipes`, `WireRuns`, `ReadAlls`,
  `LocalPipes`, `LocalRuns`): rows and breaks are printed as bytes and parsed
  again from chunks of any size with three carry-over buffers; the in-process
  pipe does the same with a queue, a read buffer and a write cache.
- **Worker** (`Workers`): what each subscriber gets, under any mix of accepted,
  late, broken and lost writes, restarts and changes of subscribers.
- **Interval store** (`Rows`, `Segments`, `Bounds`, `Store`, `StoreProperties`,
  `StoreReports`, `Removal`): a table of rows and a table of boundary timestamps. `Segments.Split`
  is the reference: rows are cut between `a` and the next row `b` exactly when a
  boundary lies in `(a, b]`.
- **Insertion and decimation** (`Inserters`, `InserterRuns`, `Acceptance`, `Lives`,
  `LifeRuns`, `Decimation`, `DecimatedKeys`, `Decimators`, `DecimatedSegments`): runs of
  inserters, and the chain of stages against a batch definition of each level.
- **Extraction** (`Extraction`, `ExtractionRuns`, `ExtractionProperties`,
  `ExtractionTrouble`, `Callbacks`, `RowBudget`, `RangeBudget`, `RangeEstimates`): reading a range
  in blocks, the two callbacks that consume the blocks, and the choice of level.
- **Interval algebra** (`IntervalTools`), **sliding-window filters** (`Filters`,
  `FilterProperties`), **the database copy format** (`Codec`, `CopyLayout`), **folders and paths** (`Paths`,
  `Folders`). `Arithmetic` holds facts about division.

The parts that change state are classes or loops (`Decimator`, `StreamStore`,
`Inserter`, `JsonResponse`, `OutputPipe`, `InputPipe`, `LocalPipe`, `Worker`,
`FolderTree`, and methods such as `Imerge`, `ExtractData`, `FindIntervalToken`).
Each method is proved equal to a function on values, and the properties are
proved about those functions, over whole runs. What such a function returns is
fixed by theorems that do not name it: which reports, bytes, folders, rows and
errors are right is said in terms of the rows and bytes themselves.

## Where a promise does not hold, and exactly when it does

Each of these has an exact condition, an if-and-only-if or two theorems that
meet, and an input for which the promise fails.

- Extraction tests the length of a block after the interval token was appended,
  so a remainder one row short of a block is read again from timestamp 1.
  `ExtractionTrouble.ExtractionRightIff`; `ExtractionTrouble.TroubleExample` is
  read for ever.
- `close_interval` adds no boundary when one sits on the last row itself.
  `Bounds.CloseSeparatesIff`; after a removal, `Removal.MarkedIff`,
  `Removal.RemovalLeavesGap`, `Removal.LostMarkOverlaps`, `Removal.MarkCanBeLost`.
- Consolidation deletes boundaries at the end of an interval only; a boundary
  inside a gap, left when rows were removed, keeps the gap open although it is
  counted. `StoreProperties.ConsolidationExact`, `Removal.StaleBoundaryStays`.
- An input pipe raises the end of the pipe when its reader is at its end, and
  drops the last row if only a part of it had been read before.
  `WireRuns.WireRoundTrip`, `WireRuns.LastRowCanBeLost`.
- A local pipe that was closed reports that it is empty when a break is next,
  although rows follow. `LocalRuns.ReaderFollowsWriter`, `LocalRuns.RowsCanBeLeft`.
  Turning its cache on again drops the rows in it. `LocalRuns.RowsAreConserved`,
  `LocalRuns.ItemsAreConserved`.
- The number of rows is estimated as n times 4^d from n >= 25 rows of the
  coarsest level that has so many, which is less than there are. Of all streams,
  and of all ranges, counted so, every one stays within the budget if and only
  if the budget is less than 4n: `RowBudget.BudgetKeptIff`,
  `RangeBudget.RangeBudgetIff`. One interval of 101 rows is counted as 100, and a
  budget of 100 returns 101: `RowBudget.BudgetCanBeExceeded`. Counts of raw rows
  always keep the budget: `RangeBudget.RangeBudgetKept`.
- The response to a request for JSON shows an empty segment for an interval
  without rows that was handed a chunk without rows: `Callbacks.EmptySegmentIff`.
  It is the row stream cut at the tokens if and only if there is none:
  `Callbacks.ResponseIsSplitIff`. An extraction without rows hands over one such
  chunk: `Callbacks.EmptySegmentShown`.
- Moving a folder into itself passes the checks of the controller; the table
  would then no longer be a tree. `Folders.MoveKeepsIff`, `Folders.IntoItself`.
  The commit that follows in the same `try` block may still refuse the cycle
  (src/joule/controllers/folder_controller.py:77-92 turns that into the same
  error); whether the database layer does is not part of this model.
- An output pipe drops a break asked for before it has a writer, and the rows in
  a cache that is replaced; into a cache of no lines it writes none.
  `OutputPipes.AcceptsAllIff`, `OutputPipes.CommandsAreDropped`.
- A comment says otherwise than the code: a first insert joins the previous
  interval when it is at most `merge_gap + 1` after its last row, while
  src/joule/models/data_store/timescale_inserter.py:67-68 says less than
  `merge_gap`. `InserterRuns.MergeThreshold`; over any number of inserters,
  `LifeRuns.StoreKeepsLivesIff`.

## Model

| member | source | states |
|---|---|---|
| Segments.SplitIsSplit | src/joule/models/data_store/timescale.py:114-142 | the reference cut of a table: non-empty segments that concatenate to the rows, none with a boundary inside, a boundary between any two neighbours |
| Segments.SplitUnique | src/joule/models/data_store/timescale.py:114-142 | those properties determine the segments |
| Segments.PiecesAreSegments | src/joule/models/data_store/psql_helpers.py:353-372 | range queries between consecutive boundaries, empty ones dropped, give exactly the segments of the range |
| Bounds.CloseSeparatesIff | src/joule/models/data_store/psql_helpers.py:293-313 | a close cuts the last row from every later timestamp if and only if no boundary sits on that row without another before the timestamp |
| Bounds.CloseElsewhere | src/joule/models/data_store/psql_helpers.py:293-313 | a close neither cuts nor joins any other pair of rows |
| Bounds.TogetherIff | src/joule/models/data_store/timescale.py:114-142 | two rows are in one segment if and only if no boundary lies after the first and up to the second |
| Store.StreamStore.CloseInterval | src/joule/models/data_store/psql_helpers.py:293-313 | the boundary table after a close is the specified one; rows and order kept |
| Store.StreamStore.RemoveIntervalBreaks | src/joule/models/data_store/psql_helpers.py:282-291 | exactly the boundaries of the closed range are gone |
| Store.StreamStore.Intervals | src/joule/models/data_store/timescale.py:114-142 | the loop over boundaries reports the extents of the segments of the range, and raises where the code does |
| Store.StreamStore.IntervalsBetween | src/joule/models/data_store/timescale.py:118-142 | one report for each pair of boundaries with rows between them |
| Store.ReportsAreExtents | src/joule/models/data_store/timescale.py:123-141 | the reports are the extents of the non-empty pieces |
| Store.StreamStore.Consolidate | src/joule/models/data_store/timescale.py:92-112 | boundaries left and count returned; rows unchanged |
| Store.StreamStore.Remove | src/joule/models/data_store/timescale.py:176-205 | rows outside the range are untouched and in order, those inside gone, boundaries as specified with the mark at the start |
| StoreProperties.EachRowOnce | src/joule/models/data_store/timescale.py:114-142 | every row of a range lies in exactly one reported interval |
| StoreProperties.EndsOnRows | src/joule/models/data_store/timescale.py:126-130 | an interval starts on a row and ends 1us after a row, both in the range |
| Store.IntervalsAreChain | src/joule/models/data_store/timescale.py:114-142 | reported intervals are sorted, disjoint and not empty |
| StoreProperties.SharedIff | src/joule/models/data_store/timescale.py:114-142 | two rows are reported in one interval if and only if no boundary cuts between them |
| StoreProperties.ConsolidationExact | src/joule/models/data_store/timescale.py:92-112 | the count is the drop in intervals and the gaps left are exactly the longer ones, if and only if every gap to close is cut only just after its first row |
| StoreProperties.AlignedIsClean | src/joule/models/data_store/timescale.py:107-109 | the condition holds when every boundary is a stored row plus 1us |
| StoreReports.IntervalsAreRight | src/joule/models/data_store/timescale.py:114-142 | for every range, open ends included: the call raises exactly for an empty table with a given start and an open end; otherwise every row of the range is in exactly one reported interval, each of which starts on such a row and ends 1us after one, and two rows share one if and only if no boundary lies between |
| StoreReports.ReportIsUnique | src/joule/models/data_store/timescale.py:114-142 | there is only one such report |
| StoreReports.ConsolidateIsRight | src/joule/models/data_store/timescale.py:92-112 | for every range and gap: the count is the number of gaps of at most that length, exactly the boundaries at their starts are gone, and the count is the drop in intervals and the longer gaps remain if and only if no such gap is cut elsewhere |
| StoreReports.CloseIsRight | src/joule/models/data_store/psql_helpers.py:293-313 | a close adds the boundary 1us after the last row up to its time, unless one lies from that row on, and changes nothing else |
| StoreReports.RemovedBounds | src/joule/models/data_store/timescale.py:176-205 | a removal deletes exactly the boundaries of the range, and marks its start 1us after the last row kept, whether or not it has an end |
| Removal.MarkedIff | src/joule/models/data_store/timescale.py:203-205 | rows on both sides of a removal are cut apart if and only if the mark is not lost |
| Removal.RemovalLeavesGap | src/joule/models/data_store/timescale.py:176-205 | then no query reports an interval that overlaps the removed range |
| Removal.LostMarkOverlaps | src/joule/models/data_store/timescale.py:176-205 | otherwise every query over the rows on both sides does |
| Removal.MarkCanBeLost | src/joule/models/data_store/psql_helpers.py:308-313 | a table for which the mark is lost and an interval overlaps the removed range |
| Removal.StaleBoundaryStays | src/joule/models/data_store/timescale.py:92-112 | for any three rows, the removal of the middle one, at which an interval had ended, leaves a table for which a consolidation returns a wrong count and leaves a small gap |
| IntervalTools.Imerge | src/joule/utilities/interval_tools.py:59-92 | the two-stream merge loop computes the specified merge |
| IntervalTools.MergeContents | src/joule/utilities/interval_tools.py:59-65 | the merge is a permutation of its inputs |
| IntervalTools.MergeInOrder | src/joule/utilities/interval_tools.py:59-65 | and in timestamp order |
| IntervalTools.IntervalMathHelper | src/joule/utilities/interval_tools.py:13-55 | the sweep loop computes the specified sweep |
| IntervalTools.MathExact | src/joule/utilities/interval_tools.py:13-55 | a point is in the result if and only if the operation holds of its membership in source and destination; the result is sorted, disjoint and without empty intervals |
| IntervalTools.IntervalDifference | src/joule/utilities/interval_tools.py:5-6 | a point is in the result if and only if it is in the source and not in the destination; the result is sorted, disjoint and without empty intervals |
| IntervalTools.IntervalIntersection | src/joule/utilities/interval_tools.py:9-10 | a point is in the result if and only if it is in both; the result is sorted, disjoint and without empty intervals |
| IntervalTools.LengthConserved | src/joule/utilities/interval_tools.py:5-10 | difference and intersection share out the length of the source |
| IntervalTools.CopySplitsSource | src/joule/cli/data/copy.py:105-106 | new and existing intervals of a copy split the source exactly |
| IntervalTools.DifferenceIsGaps | src/joule/models/data_store/timescale.py:98-100 | the duration less the intervals is exactly the positive gaps |
| Inserters.Inserter.WriteRows | src/joule/models/data_store/timescale_inserter.py:63-108 | opening close, merge gap, monotonic and value checks, decimator creation, copy and decimation, with the state left by each error |
| Inserters.Inserter.HandleRead | src/joule/models/data_store/timescale_inserter.py:56-113 | one turn of the loop, the interval break included |
| Inserters.Inserter.Run | src/joule/models/data_store/timescale_inserter.py:40-122 | a life of the inserter over the reads of its pipe |
| Inserters.InsertKeepsOrder | src/joule/models/data_store/timescale_inserter.py:90-102 | rows inserted without a clash of keys keep the table strictly ordered |
| Acceptance.ReadTakenIff | src/joule/models/data_store/timescale_inserter.py:82-102 | a read is taken if and only if it has no rows, or its values are numbers, its rows rise strictly from the last one, and none has a stored timestamp |
| Acceptance.RefusedKeeps | src/joule/models/data_store/timescale_inserter.py:82-102 | a refused read leaves rows and decimated tables as they were, and the boundaries too unless it was the first |
| Acceptance.LifeAcceptedIff | src/joule/models/data_store/timescale_inserter.py:40-122 | a life ends without an error if and only if all values are numbers, the rows of all reads rise strictly, and none has a timestamp stored before |
| Acceptance.LifeStores | src/joule/models/data_store/timescale_inserter.py:40-122 | every life stores exactly the rows of the longest run of reads that meets these conditions, in order of time |
| Acceptance.LifeDecimates | src/joule/models/data_store/timescale_inserter.py:88-89 | after a life there is a decimator if and only if the stream is decimated and rows were read |
| Acceptance.NeverDecimates | src/joule/models/data_store/timescale_inserter.py:88-89 | a stream that is not decimated never gets one, whatever its reads |
| Acceptance.OpeningIsRight | src/joule/models/data_store/timescale_inserter.py:64-72 | a first insert closes just before its first row and deletes exactly the boundaries of its merge gap |
| InserterRuns.PlaySound | src/joule/models/data_store/timescale_inserter.py:40-122 | over any run of inserters rows and boundaries only grow and every boundary is a stored row plus 1us |
| InserterRuns.BreakSurvives | src/joule/models/data_store/timescale_inserter.py:110-113 | rows up to an interval break and rows after it stay cut apart, whatever inserters do later |
| InserterRuns.StartSeparates | src/joule/models/data_store/timescale_inserter.py:64-66 | the first insert of an inserter cuts its rows from the earlier ones for good |
| InserterRuns.BreaksSurviveRuns | src/joule/models/data_store/timescale_inserter.py:56-116 | from an empty stream, no query reports rows on both sides of a break in one interval |
| InserterRuns.MergeIff | src/joule/models/data_store/timescale_inserter.py:63-72 | with a merge gap, the cut before a first insert remains if and only if the distance is more than the gap plus 1 and the close was recorded |
| InserterRuns.MergeThreshold | src/joule/models/data_store/timescale_inserter.py:63-72 | with rows 2us apart, a first insert joins the previous row if and only if it is at most the gap plus 1 after it |
| Lives.StoreKeepsIntervals | src/joule/models/data_store/timescale_inserter.py:40-122 | the intervals of the store after a life are exactly the non-empty intervals of the pipe |
| LifeRuns.LaterLife | src/joule/models/data_store/timescale_inserter.py:56-116 | on any stored stream, the segments after a life with later rows are the earlier ones less the boundaries its merge gap removes, continued by the intervals of its pipe |
| LifeRuns.StoreKeepsLivesIff | src/joule/models/data_store/timescale_inserter.py:40-122 | after any number of inserters, each with later rows, the segments are the non-empty intervals of all pipes in order if and only if none began within its merge gap of the last row stored |
| Lives.LifeFeeds | src/joule/models/data_store/timescale_inserter.py:106-113 | the decimator has been fed exactly the blocks and breaks of the pipe |
| Decimation.DecimateAppend | src/joule/models/data_store/timescale_inserter.py:234-264 | later rows decimated after the leftover ones are as if decimated all at once |
| Decimation.LevelSize | src/joule/models/data_store/timescale_inserter.py:255-267 | level 4^k of n rows has n / 4^k rows |
| Decimation.LevelSummarises | src/joule/models/data_store/timescale_inserter.py:240-279 | row j at level 4^k is the exact mean, minimum and maximum of its 4^k raw rows |
| Decimation.SummaryOrdered | src/joule/models/data_store/timescale_inserter.py:269-272 | the mean lies between the minimum and the maximum |
| DecimatedKeys.LevelIncreasing | src/joule/models/data_store/timescale_inserter.py:269-279 | timestamps at every level increase strictly, so keys do not repeat |
| DecimatedKeys.LevelInSpan | src/joule/models/data_store/timescale_inserter.py:269-279 | a decimated timestamp lies within the raw rows it stands for |
| DecimatedKeys.MeanError | src/joule/models/data_store/timescale_inserter.py:269-279 | at level 4^k it is within 3k/4 us of the exact mean |
| DecimatedKeys.MeanFallsShort | src/joule/models/data_store/timescale_inserter.py:269-279 | and never above it when no timestamp is negative |
| Decimators.Decimator.ProcessRows | src/joule/models/data_store/timescale_inserter.py:229-281 | rows put out and rows kept, from the buffer and the new block |
| Decimators.Decimator.Process | src/joule/models/data_store/timescale_inserter.py:198-222 | the whole chain after a block, stages made as they are needed |
| Decimators.Decimator.CloseInterval | src/joule/models/data_store/timescale_inserter.py:224-227 | every buffer of the chain is emptied |
| Decimators.FeedAgrees | src/joule/models/data_store/timescale_inserter.py:198-222 | every stage agrees with the batch definition after a block |
| Decimators.CloseAgrees | src/joule/models/data_store/timescale_inserter.py:224-227 | and after the end of an interval |
| Decimators.DecimationIsBatch | src/joule/models/data_store/timescale_inserter.py:198-281 | however rows are cut into blocks, each table is the batch decimation of every interval in order |
| Decimators.RowsConserved | src/joule/models/data_store/timescale_inserter.py:255-264 | at every stage, rows taken in are four times the rows put out plus those buffered |
| DecimatedSegments.TablesFollowStore | src/joule/models/data_store/timescale_inserter.py:56-116 | after a life each table is the decimation of each interval the store reports |
| DecimatedSegments.DecimatedIntervals | src/joule/models/data_store/timescale.py:273-343 | cutting a decimated table at the raw boundaries gives the decimation of each interval |
| Extraction.ExtractData | src/joule/models/data_store/timescale.py:273-343 | the loops compute the specified blocks and say whether they ended |
| Extraction.ExtractInterval | src/joule/models/data_store/timescale.py:301-343 | the inner loop for one boundary record |
| ExtractionRuns.AllRuns | src/joule/models/data_store/timescale.py:300-343 | without trouble the extraction ends with the blocks of every interval |
| ExtractionProperties.BlocksAreSegments | src/joule/models/data_store/timescale.py:273-343 | splitting those blocks at tokens gives exactly the segments of the range |
| ExtractionTrouble.ExtractionRightIff | src/joule/models/data_store/timescale.py:325-339 | for every block size from 2, the extraction ends with the right segments if and only if no interval but the last leaves a remainder one short of a block while a row from 1 on precedes its end |
| ExtractionTrouble.TroubleIsWrong | src/joule/models/data_store/timescale.py:325-339 | with such an interval no number of queries gives the right rows |
| ExtractionTrouble.ReadForEver | src/joule/models/data_store/timescale.py:325-339 | an interval of one row before a boundary, read in blocks of two, is read again without end |
| ExtractionTrouble.TroubleExample | src/joule/models/data_store/timescale.py:325-339 | a table of two rows for which no number of queries is right or enough |
| Callbacks.JsonResponse.RetrieveData | src/joule/controllers/data_controller.py:61-92 | blocks and open segment after a chunk, in each of its cases |
| Callbacks.JsonResponse.Finish | src/joule/controllers/data_controller.py:110-114 | the open segment is put last |
| Callbacks.ReadJson | src/joule/controllers/data_controller.py:57-114 | the response after a sequence of chunks |
| Callbacks.ResponseShows | src/joule/controllers/data_controller.py:57-114 | for every stream of chunks, empty ones too, the response has a segment for each interval that was handed a chunk, with the rows of its chunks |
| Callbacks.GroupsAreSplit | src/joule/controllers/data_controller.py:61-92 | for chunks with the token at most last, those intervals are the rows of all chunks cut at the tokens, row by row |
| Callbacks.EmptySegmentIff | src/joule/controllers/data_controller.py:80-92 | the response has an empty segment if and only if an interval without rows was handed a chunk |
| Callbacks.EmptySegmentShown | src/joule/models/data_store/timescale.py:163-168 | the single chunk without rows that an extraction without rows hands over gives a response of one empty segment |
| Callbacks.ResponseIsSplitIff | src/joule/controllers/data_controller.py:57-114 | the response is the row stream cut at tokens, empty segments dropped, if and only if there is no such interval |
| Callbacks.ResponseIsSplit | src/joule/controllers/data_controller.py:57-114 | so it is for all chunks that are not empty |
| Callbacks.ChunkingIsFree | src/joule/controllers/data_controller.py:57-114 | two ways of cutting the same rows into chunks give the same response |
| Callbacks.JsonIsSegments | src/joule/controllers/data_controller.py:99-114 | the response to a range is the list of its segments |
| Callbacks.Redecimate | src/joule/models/data_store/timescale.py:64-90 | the callback feeds a new chain the blocks and breaks of the extraction |
| Callbacks.RedecimationIsBatch | src/joule/models/data_store/timescale.py:64-90 | redecimation gives the batch decimation of each interval, whatever the block size |
| RowBudget.ChosenIsLeast | src/joule/models/data_store/timescale.py:155-161 | the level is the least power of 4 that keeps the counted rows within the budget |
| RangeBudget.StreamRowCount | src/joule/sql/row_count.sql:22-41 | the count of a range comes from the coarsest level with 25 rows or more in it, times what each stands for, or from the raw rows with the end taken in |
| RangeEstimates.CountedIsCoarsest | src/joule/sql/row_count.sql:22-34 | the level counted is the coarsest with 25 rows in the range, or that of the raw rows |
| RangeEstimates.RawCount | src/joule/sql/row_count.sql:35-41 | raw rows are counted with both ends of the range taken in |
| RangeEstimates.CountIsNear | src/joule/sql/row_count.sql:22-34 | the count of a range is less than two groups above the number of its rows, and less than two groups for each interval touched below it |
| RowBudget.TableSize | src/joule/models/data_store/timescale_inserter.py:255-267 | the table of a level has the rows the lengths of the intervals give it |
| RowBudget.BudgetKept | src/joule/models/data_store/timescale.py:155-161 | a whole stream read at a level at least as coarse as the one counted stays within the budget |
| RowBudget.CoarseEnoughIff | src/joule/models/data_store/timescale.py:155-161 | the level chosen for n rows at level 4^d is at least as coarse if and only if the budget is less than 4n |
| RowBudget.BudgetKeptIff | src/joule/models/data_store/timescale.py:155-161 | of all streams counted as n rows at level 4^d, with any number of tables: every one stays within the budget if and only if the budget is less than 4n |
| RowBudget.BudgetCanBeExceeded | src/joule/sql/row_count.sql:22-34 | one interval of 101 rows, counted as 100 however many tables there are, returns 101 for a budget of 100 |
| RangeBudget.WholeCount | src/joule/sql/row_count.sql:22-41 | the count of a range that covers the stream is that of its intervals |
| RangeBudget.RangeBudgetKept | src/joule/models/data_store/timescale.py:155-161 | any range, counted at whatever level the query picks, returns at most one row more than the budget if the level chosen is at least as coarse; counts of raw rows always are |
| RangeBudget.RangeBudgetIff | src/joule/models/data_store/timescale.py:155-161 | of all ranges of all streams counted as n rows at level 4^d: every one returns at most one row more than the budget if and only if the budget is less than 4n |
| Framing.DecodeEncode | src/joule/models/pipes/pipe.py:352-376 | decoding undoes encoding when no row is the token |
| Framing.PrefixReceived | src/joule/models/pipes/pipe.py:352-376 | a prefix of the bytes carries a prefix of the rows and breaks |
| Framing.ItemAt | src/joule/models/pipes/pipe.py:352-357 | item i of a stream stands in the i-th row of bytes, a row as it is and a break as zeros |
| Framing.FindIntervalToken | src/joule/models/pipes/pipe.py:360-376 | the first token aligned to a row, if there is one |
| OutputPipes.OutputPipe.Write | src/joule/models/pipes/output_pipe.py:24-39 | rows are accepted in order, in the cache or on the wire; a closed pipe and a cache of no lines accept none |
| OutputPipes.OutputPipe.FlushCache | src/joule/models/pipes/output_pipe.py:46-52 | nothing accepted is lost, and all of it is on the wire |
| OutputPipes.OutputPipe.CloseInterval | src/joule/models/pipes/output_pipe.py:66-74 | the break follows everything accepted, if a writer is attached |
| OutputPipes.OutputPipe.Close | src/joule/models/pipes/output_pipe.py:87-106 | everything accepted is on the wire |
| OutputPipes.OutputPipe.EnableCache | src/joule/models/pipes/output_pipe.py:41-44 | the cache is empty, of any size, and what is on the wire stays |
| OutputPipes.Send | src/joule/models/pipes/output_pipe.py:24-106 | after any run of writes, breaks, flushes and caches, and a close, the wire is the encoding of everything accepted, in order |
| OutputPipes.AcceptsAllIff | src/joule/models/pipes/output_pipe.py:24-74 | that is all that was asked for if and only if no interval was ended before there was a writer, no cache replaced with rows in it and no row written to a cache of no lines |
| OutputPipes.LittleWaits | src/joule/models/pipes/output_pipe.py:24-74 | rows without a cache are on the wire at once, everything is after a flush or a break, and fewer rows than the cache has lines wait |
| OutputPipes.CommandsAreDropped | src/joule/models/pipes/output_pipe.py:41-70 | a break as the first command, and a row in a cache that is replaced, are dropped |
| InputPipes.InputPipe.Read | src/joule/models/pipes/input_pipe.py:35-126 | rows offered and the three carry-over buffers after a read, for every pattern of arrivals and timeouts |
| InputPipes.InputPipe.GatherBytes | src/joule/models/pipes/input_pipe.py:55-83 | the bytes read until there is a row or the end |
| InputPipes.InputPipe.OfferRows | src/joule/models/pipes/input_pipe.py:111-126 | rows before the first token are offered, the rest kept |
| InputPipes.InputPipe.Consume | src/joule/models/pipes/input_pipe.py:128-137 | rolling the buffer drops exactly the first rows; other counts change nothing |
| InputPipes.InputPipe.IsEmpty | src/joule/models/pipes/pipe.py:191-211 | whether the pipe is at its end; if not, the next read is prepared |
| WireRuns.ReadConserves | src/joule/models/pipes/input_pipe.py:35-126 | a read loses and adds no byte, keeps the buffers aligned to rows, never sees a bad length, and ends the pipe if and only if nothing is at hand and less than a row is to come |
| WireRuns.RowsFit | src/joule/models/pipes/input_pipe.py:46-51 | the buffer holds its nominal number of rows, or one more if a row came in pieces |
| WireRuns.AskingIsFree | src/joule/models/pipes/pipe.py:191-211 | asking whether the pipe is empty does not change what the next read gives |
| WireRuns.ReadFills | src/joule/models/pipes/input_pipe.py:51-77 | with whole rows at hand a read takes as many as there is room for |
| WireRuns.DrainConserves | src/joule/models/pipes/input_pipe.py:35-137 | over a whole run, what was taken and what is left are the bytes sent |
| WireRuns.WireRoundTrip | src/joule/models/pipes/input_pipe.py:35-137 | for any chunks, a reader has a prefix of the rows and breaks sent; at the end it has all if and only if the last read did not begin with part of a row still to come, and otherwise lacks exactly the last |
| WireRuns.FullReadsSuffice | src/joule/models/pipes/input_pipe.py:52-83 | nothing is lost if each read brings at least a row |
| WireRuns.RowChunksSuffice | src/joule/models/pipes/input_pipe.py:52-83 | nothing is lost if chunks are whole rows, timeouts included |
| WireRuns.DrainEnds | src/joule/models/pipes/input_pipe.py:35-137 | a reader that takes all it is offered reaches the end in one turn more than there are rows and breaks |
| WireRuns.LastRowCanBeLost | src/joule/models/pipes/input_pipe.py:57-66 | for every row width above a byte, a cut of two rows that loses the second |
| ReadAlls.ReadAll | src/joule/models/pipes/pipe.py:114-166 | all rows or the first of them or the error, for what was sent or all but its last item, and for all of it when chunks are whole rows |
| ReadAlls.FirstRows | src/joule/models/pipes/pipe.py:114-166 | the rows returned are the first of those sent, as many as allowed; the error comes only for more, and no data only for nothing sent |
| LocalPipes.LocalPipe.Read | src/joule/models/pipes/local_pipe.py:48-88 | state and outcome of a read in each case |
| LocalPipes.LocalPipe.TakeQueued | src/joule/models/pipes/local_pipe.py:124-150 | the buffer sized by the count of queued rows takes the blocks in front of the first break |
| LocalPipes.LocalPipe.Consume | src/joule/models/pipes/local_pipe.py:156-166 | the first rows of the read buffer are gone; other counts change nothing |
| LocalPipes.LocalPipe.WriteRows | src/joule/models/pipes/local_pipe.py:171-205 | queue, count and cache after a write |
| LocalPipes.LocalPipe.Flush | src/joule/models/pipes/local_pipe.py:235-241 | the cached rows become a block of the queue |
| LocalPipes.LocalPipe.CloseInterval | src/joule/models/pipes/local_pipe.py:243-252 | the cache, then a break, follow what is queued |
| LocalPipes.LocalPipe.Close | src/joule/models/pipes/local_pipe.py:282-292 | the cache is queued and the pipe closed |
| LocalPipes.LocalPipe.IsEmpty | src/joule/models/pipes/pipe.py:191-211 | the same question for a local pipe |
| LocalPipes.LocalPipe.EnableCache | src/joule/models/pipes/local_pipe.py:230-233 | the cache is empty, of any size; rows of an earlier one are gone and all else stays |
| LocalPipes.TakeUpSplits | src/joule/models/pipes/local_pipe.py:137-146 | a read takes exactly the rows in front of the first break, and the break: it never crosses one |
| LocalRuns.RowsAreConserved | src/joule/models/pipes/local_pipe.py:124-255 | over every run the count of queued rows is right, and rows consumed, buffered, queued and cached are all rows written, in order, if and only if no cache was replaced with rows in it |
| LocalRuns.NewPipeConserves | src/joule/models/pipes/local_pipe.py:24-255 | so it is in every state reached from a new pipe |
| LocalRuns.ItemsAreConserved | src/joule/models/pipes/local_pipe.py:48-252 | for every interleaving, what the reader took and what is left are the rows and breaks written, in order, if and only if no cache was replaced with rows in it |
| LocalRuns.AcceptsAllIff | src/joule/models/pipes/local_pipe.py:171-252 | everything the writer asks for is accepted, in order, if and only if it writes nothing to a closed pipe and no rows to a cache of no lines |
| LocalRuns.ReadIsRight | src/joule/models/pipes/local_pipe.py:48-150 | a read waits exactly while an open pipe has nothing queued; otherwise it returns what it had and all rows in front of the first break, and takes that break |
| LocalRuns.RefusedIff | src/joule/models/pipes/local_pipe.py:50-56 | which calls are refused, and that a failed pipe is closed by a read or a write |
| LocalRuns.FlushDelivers | src/joule/models/pipes/local_pipe.py:235-241 | after a flush the next read has the cached rows, after all that were queued |
| LocalRuns.LittleWaits | src/joule/models/pipes/local_pipe.py:171-252 | fewer rows than the cache has lines wait in it, and none after a break, a flush or the close |
| LocalRuns.ReaderFollowsWriter | src/joule/models/pipes/local_pipe.py:48-88 | then the reader has a prefix of the rows and breaks written; the end is raised if and only if the pipe is closed, nothing is at hand and no row is in front of the next break; the reader then has all rows if and only if none are queued |
| LocalRuns.RowsCanBeLeft | src/joule/models/pipes/local_pipe.py:80-88 | an interleaving that leaves rows unread |
| Filters.FirRows | src/joule/client/fir_filter_module.py:35-46 | the convolution of whole windows with the times of their middles |
| Filters.MedianRows | src/joule/client/builtins/median_filter.py:113-119 | the filter padded with zeros, its ends cut off, is the median of whole windows |
| Filters.MedianIsMiddle | src/joule/client/builtins/median_filter.py:116 | at most half of a window is below the median and at most half above |
| FilterProperties.MedianOfWindow | src/joule/client/builtins/median_filter.py:113-119 | of the rows in a window at most half are below the output in that column, and at most half above |
| FilterProperties.FirImpulse | src/joule/client/fir_filter_module.py:35-46 | a single value in a column shows times the taps, the first tap for the last row of a window |
| FilterProperties.FirAdds | src/joule/client/fir_filter_module.py:44-46 | the output for a sum of signals is the sum of their outputs, which with the above fixes the convolution |
| Filters.Run | src/joule/client/fir_filter_module.py:16-56 | the loop over reads: every output interval is the start of the filter of the whole input interval, at most a window's worth of rows short |
| Filters.StreamingIsBatch | src/joule/client/fir_filter_module.py:22-56 | the same for any state reached and any way of cutting the input into reads |
| Filters.IntervalComplete | src/joule/client/fir_filter_module.py:24-33 | an interval loses no output if and only if the last read leaves less than a window or at least two |
| Filters.StopsIff | src/joule/client/fir_filter_module.py:24-33 | the module ends exactly at a read that finds the pipe closed with less than two windows at hand |
| Filters.BatchCentres | src/joule/client/fir_filter_module.py:38-40 | output times are those of the input but for half a window at either end, without duplicates or holes |
| Codec.DataToBytes | src/joule/models/data_store/psql_helpers.py:21-48 | the bytes written are the encoding, and decode to the samples |
| Codec.BytesToData | src/joule/models/data_store/psql_helpers.py:51-87 | the samples, or the error of the first check that fails |
| CopyLayout.CopyLaidOut | src/joule/models/data_store/psql_helpers.py:18-42 | row i begins after 19 bytes and i rows, with the number of its fields and the length 8; the time counts microseconds from the year 2000, modulo 2^64; each element follows its length; all numbers have the most significant byte first |
| CopyLayout.CopyEnds | src/joule/models/data_store/psql_helpers.py:43-46 | the signature and eight zeros come first, two bytes of ones last, and the rows fill what is between |
| CopyLayout.CopyErrors | src/joule/models/data_store/psql_helpers.py:64-86 | which of the three checks fails first, on the bytes themselves |
| CopyLayout.CopyRead | src/joule/models/data_store/psql_helpers.py:72-80 | without an error there is a sample for each row of bytes, with the numbers that stand there, counts and lengths not being looked at |
| Codec.CopyRoundTrip | src/joule/models/data_store/psql_helpers.py:21-87 | decoding undoes encoding for every number of rows, width and element size; the length is 21 plus the rows |
| Codec.CopyAgain | src/joule/models/data_store/psql_helpers.py:51-87 | any bytes decode if and only if header, size and footer are right, and encode to themselves again if and only if the counts and lengths inside, which are not checked, are right |
| Codec.TimeRoundTrip | src/joule/models/data_store/psql_helpers.py:39-78 | moving a 64-bit time to the other epoch and back is exact even where it wraps around |
| Workers.Worker.HandleOutput | src/joule/models/worker.py:331-373 | subscribers, what each pipe was given, and whether the handler goes on |
| Workers.Worker.WriteAll | src/joule/models/worker.py:348-359 | the loop over a copy of the subscribers |
| Workers.Worker.VerifyMonotonic | src/joule/models/worker.py:433-451 | true if and only if times rise within the block and from the last one |
| Workers.Worker.Restart | src/joule/models/worker.py:182-186 | every subscriber gets a break between two lives of the module; one that is closed raises, and the module is not started again |
| Workers.Worker.Subscribe | src/joule/models/worker.py:225-229 | a new pipe is added last |
| Workers.Worker.Unsubscribe | src/joule/models/worker.py:231-238 | the pipe is removed if it is still there |
| Workers.DeliveredGets | src/joule/models/worker.py:346-362 | what one pipe gets of a delivery after which the handler runs on: the rows, a break, or nothing, by what became of its own write, then a break if an interval ended |
| Workers.RunsOnIff | src/joule/models/worker.py:331-373 | the handler runs on if and only if times rise, no subscriber written to is broken, and at an interval end none of those left is closed |
| Workers.DeliveredKeepsBooks | src/joule/models/worker.py:331-373 | the rows produced, the interval ends and the last time after a delivery, and that exactly the subscribers found to be gone have left |
| Workers.RefusedBreaks | src/joule/models/worker.py:334-345 | times that do not rise end the handler: nothing is taken and every subscriber reached gets a break |
| Workers.RestartBreaks | src/joule/models/worker.py:182-186 | a restart forgets the last time, breaks every subscriber reached, and succeeds if and only if none is closed |
| Workers.SubscribersAre | src/joule/models/worker.py:225-238 | who subscribes after a subscription and after its end; nobody else is touched |
| Workers.NeighboursWereNeighbours | src/joule/models/worker.py:331-373 | over any run, two rows a pipe got with no break between them were produced one right after the other in one life and interval of the module, the second later |
| Workers.LogsAreInOrder | src/joule/models/worker.py:331-373 | over any run, and whatever breaks lie between them: the rows a pipe got are in the order they were produced, none twice, and within one life of the module their times rise strictly |
| Paths.SplitJoin | src/joule/models/folder.py:153 | splitting undoes joining of names without a slash |
| Paths.JoinSplit | src/joule/models/folder.py:129-146 | joining undoes splitting, for every path |
| Folders.PathRoundTrip | src/joule/models/folder.py:150-175 | the path of every stream in the tree leads back to it |
| Folders.EnsureFinds | src/joule/models/folder.py:123-147 | finding with creation keeps one tree with distinct sibling names and all folders in it, and gives the folder with that path, the one that was there if it was |
| Folders.LookupIff | src/joule/models/folder.py:123-147 | a path leads to a folder if and only if it is the path of that folder, and then none is created |
| Folders.AddedOnPath | src/joule/models/folder.py:139-147 | every folder that is created lies on the path |
| Folders.RefusedIff | src/joule/models/folder.py:124-136 | a path is refused if and only if it is neither the root's nor made of names that are not empty |
| Folders.FoundIsThere | src/joule/models/folder.py:150-165 | a stream that is found has the last name of the path and is in the folder the names before it lead to |
| Folders.FolderTree.Find | src/joule/models/folder.py:123-147 | the folder found or created, and the paths that are refused |
| Folders.FolderTree.Move | src/joule/controllers/folder_controller.py:64-92 | the outcome of the checks and the table after the move; it is a tree if and only if nothing moved or the destination is another folder |
| Folders.FolderTree.MoveToPath | src/joule/controllers/folder_controller.py:59-92 | the same with the destination found or created by its path; what was created is rolled back when the move is refused |
| Folders.MovesIff | src/joule/controllers/folder_controller.py:62-92 | a move is refused exactly for the root or a folder in use, then if the destination has a folder of that name, then if the folder is above the destination; every other move is let through |
| Folders.RestFollows | src/joule/controllers/folder_controller.py:88 | the folder and all below it are then found under the destination |
| Folders.OthersStay | src/joule/controllers/folder_controller.py:88 | all other folders are where they were |
| Folders.MoveKeepsIff | src/joule/controllers/folder_controller.py:79-88 | a move the checks let through keeps the tree if and only if the destination is not the folder itself |
| Folders.IntoItself | src/joule/controllers/folder_controller.py:79-86 | the checks let such a move through for every unlocked folder without a child of its own name |

## Left out

- Extraction.ExtractData: takes the number of queries it may make, because the code can read for ever; the theorems quantify over that number.
- InputPipes.InputPipe.Read: a caller must not leave more rows than the nominal size of the buffer; beyond it the code passes a negative count to the stream reader, and what the reader and the array library then do is not part of this model.
- InputPipes.InputPipe.IsEmpty: asks the same of its caller, since it reads.
- WireRuns.WireRoundTrip: a row counts as the token when its bytes are zero; the code compares numbers, for which a row of negative zeros is a token too.
- Framing.FindIntervalToken: compares bytes, as for the wire round trip.
- LocalPipes.LocalPipe.Read: waiting for data is an outcome that changes nothing else; time limits, bounded queues and subscribers of the pipe are not modelled.
- IntervalTools.Imerge: merges two streams of events, as the interval algebra does; the code merges any number.
- Store.StreamStore.Remove: the approximate removal of whole chunks with `exact=False` is not modelled.
- Inserters.Inserter.WriteRows: whether the values of a read are numbers is given with the read.
- Inserters.Inserter.HandleRead: the periodic removal of old rows is not modelled.
- Inserters.Inserter.Run: cancellation and retry after a lost connection are not modelled.
- OutputPipes.OutputPipe.Write: passing rows on to subscribers of the pipe is not modelled.
- OutputPipes.OutputPipe.Close: closing the writer and the subscribers is not modelled.
- LocalPipes.LocalPipe.WriteRows: bounded queues and subscribers of the pipe are not modelled.
- LocalPipes.LocalPipe.CloseInterval: breaks passed on to subscribers of the pipe are not modelled.
- LocalPipes.LocalPipe.Close: closing the subscribers of the pipe is not modelled.
- LifeRuns.StoreKeepsLivesIff: speaks of inserters that end without an error and bring later rows than those stored.
- Workers.Worker.HandleOutput: each write is one step that either reaches the pipe or does not; processes, logging and cancellation are not modelled.
- Folders.FolderTree.Move: what the commit does with a folder that is its own parent is not part of this model.
- Folders.FolderTree.MoveToPath: the same.
- Folders.MoveKeepsIff: speaks of the checks, not of the commit after them, which may refuse the cycle.
- Filters.Run: reads are given as a sequence; conversion of the output to 32-bit numbers is left out.
- Decimators.Decimator.Process: means are over real numbers, and tables, chunk sizes and key clashes of decimated rows are not modelled.
- Rounding of floating point numbers.
- SQL text, hypertables, chunk intervals, retention, approximate removal with `exact=False`, connection loss and retry.
- Filling in open time bounds of an extraction over an empty stream.
- `close_interval_nowait` and `read_nowait`, which drop cached rows or are meant for tests, but for the breaks a worker inserts.
- The filter that merges several pipes, historic runs of modules, the event store, event paging, remote streams, HTTP handlers, the command line, configuration, users and documentation server.
- Folder deletion and renaming, update times, and names shared between data streams and event streams.
