# Rolling median of vertex degree over a 60-second payment window

This project is a Dafny model of the core of `src/rolling_median.py`. That
program reads a stream of payments `(created_time, actor, target)` and writes
one number per input line: the median vertex degree of the payment graph
formed by the payments of the last 60 seconds.

The program keeps the window as a singly linked list of `Transaction` nodes,
in ascending time order. For each line, `process`:

1. moves the watermark `window_end` forward when the event is later;
2. drops an event more than 60 seconds older than the watermark and repeats
   the last median instead;
3. makes one pass over the list that does three things:
   - unlinks the stale prefix;
   - tallies the degree of every person named by a kept node;
   - links the new node, with `insert`, in front of the first kept node whose
     time is at least the new time, or at the end;
4. takes the median of `Counter.most_common()`.

The model has two layers:

- **Value layer** (modules `Windows`, `Tally`, `Medians`, `Stream`). It holds
  the window as a sequence of `Payment` records, eviction and ordered
  insertion as functions, the tally as a `map<string, nat>` and the median as
  a `real`. `Stream.Step` is one input line as a function on a `State`, and
  `Stream.Run` is a whole stream of lines. The properties of the program are
  proved here:
  - the window stays sorted;
  - eviction drops exactly the stale prefix;
  - every kept record and the new one appear exactly once;
  - degrees count record ends, so the tallies sum to twice the window size;
  - the median splits the degrees in halves;
  - the watermark is the latest time seen;
  - every line emits exactly one value.
- **Pointer layer** (module `RollingMedian`). `Transaction` is a class with a
  mutable `next` field. `Insert` is the source's `insert`. `Processor` holds
  `first_transaction`, `window_end`, `last_median` and the output, and its
  `Process` method performs the loop body over the linked list in place:
  - `Walk` is the `while cur_transaction` loop;
  - `Visit` is one turn of that loop;
  - `Finish` is the `if not inserted` insertion;
  - `MedianDegree` computes the median, with `Medians.MostCommon` and
    `Medians.Median`.

  `Process` is proved to change the abstract state exactly as `Stream.Step`
  does. A ghost sequence `nodes` lists the nodes reachable from `first`, and
  `WellFormed` ties the two together: each node's `next` is the node after
  it, the last node points to `null`, and no node occurs twice.

- **Scenarios** (module `Scenarios`). Small concrete streams are worked
  through `Stream.Run`:
  - a triangle of payments emits 1, 1, 2;
  - a payment 61 s after the first evicts it;
  - a payment 61 s late is dropped, while one 60 s late is kept;
  - a tie in time goes in front;
  - a self-payment gives degree 2.

Where the model and the code, or the model and the design description of
the system, part ways:

- **Repeated pairs are not collapsed.** There is no duplicate-pair collapsing
  and no skipped recomputation. Every accepted payment is a node and counts
  as an edge.
- **Ties go first.** A new payment goes in front of a kept payment with the
  same time (`>=` at line 165). The design description says it goes after.
- **Malformed lines are not skipped.** The source does not catch parse
  errors, so no line is skipped.
- **Staleness uses total elapsed seconds.** Here the model departs from the
  code. The source tests the `seconds` field of a `timedelta`, which drops
  whole days. The model follows the design description instead; see
  "## Left out" and "## Findings".

Times are whole seconds, which is the resolution of the source's timestamp
format. Python 2 semantics are used throughout: the index `n / 2` at line 185
is integer division, as the source needs it to be for indexing.

## Model

| member | source | states |
|---|---|---|
| RollingMedian.Transaction.constructor | src/rolling_median.py:27-45 | a new node carries the parsed time, actor and target, and its `next` is null |
| RollingMedian.Insert | src/rolling_median.py:48-79 | the inserted node points to the given next node; when a previous node exists, it points to the inserted node and the list head is returned unchanged; otherwise the inserted node is the new head |
| RollingMedian.WalkInsert | src/rolling_median.py:164-170 | calling `insert` with the last kept node and the current node appends the new node to the rebuilt list, keeps the rebuilt list linked and duplicate-free, leaves the rest of the old list intact, and yields the rebuilt list's head |
| RollingMedian.WalkStale | src/rolling_median.py:153-156 | moving the head past a stale node while nothing has been kept yet leaves the rebuilt list empty, with the head at the following node |
| RollingMedian.WalkKeep | src/rolling_median.py:172-176 | a kept node joins the end of the rebuilt list, becomes `last_transaction`, and the walk moves on to its `next` |
| RollingMedian.CountEnds | src/rolling_median.py:159-162 | the two `+= 1` updates of one record's ends, in either order, turn the tally of the records so far into the tally with that record added |
| RollingMedian.EvictStep | src/rolling_median.py:150-156 | visiting one node either drops it from the kept records (stale) or appends it to them (fresh) |
| RollingMedian.PlaceNew | src/rolling_median.py:164-170 | linking the new record in front of the first kept record at least as late puts it where ordered insertion into the kept records puts it |
| RollingMedian.PlaceAtEnd | src/rolling_median.py:178-180 | when no kept record is at least as late, appending the new record at the end is ordered insertion |
| RollingMedian.Visit | src/rolling_median.py:150-176 | one loop turn keeps the walk invariant: the rebuilt list is linked and duplicate-free, the tally equals the degree map of the new record plus the records kept so far, and the rebuilt records are the kept prefix (before insertion) or a prefix of the final window (after) |
| RollingMedian.Walk | src/rolling_median.py:141-177 | after the loop, the tally equals the degree map of the new record plus every non-stale old record, and the rebuilt list places the new record where ordered insertion does or still lacks it |
| RollingMedian.Finish | src/rolling_median.py:178-180 | the final list is well formed and non-empty; the new node is appended when the loop did not insert it |
| RollingMedian.WalkDone | src/rolling_median.py:141-180 | the final list holds exactly the old list's non-stale records plus the new record, in ordered-insertion position, and the tally is that list's degree map |
| RollingMedian.Splice | src/rolling_median.py:134-180 | one pass over the linked list turns it into a well-formed list whose records are `InsertOrdered(Evict(old records), new)`, using only old nodes and one fresh node, and returns that list's degree map |
| RollingMedian.Accept | src/rolling_median.py:134-191 | an accepted event leaves a sorted, well-formed list of the kept records plus the new one, and its median is the window median of that list |
| RollingMedian.MedianDegree | src/rolling_median.py:182-191 | the median computed from the tally equals the window median of the records the tally counts |
| RollingMedian.Processor.constructor | src/rolling_median.py:111-114 | empty list, no watermark, no median and no output: the initial state |
| RollingMedian.Processor.Process | src/rolling_median.py:118-193 | one input line changes the processor's abstract state exactly as `Stream.Step` does, keeps the list well formed and sorted, and adds only fresh nodes |
| RollingMedian.Processor.Install | src/rolling_median.py:186-193 | the new head, watermark and median are stored, and the median is appended to the output |
| RollingMedian.ProcessAll | src/rolling_median.py:118-193 | processing every line in order emits exactly the output of `Stream.Run` |
| Windows.SecondsFieldMissesWholeDays | src/rolling_median.py:126 | the source's `.seconds` test calls a record exactly one day old fresh although it is stale; on the stream at 0, 86430, 172810 it keeps the record at 0 and calls the one at 86430 stale |
| Windows.StaleDownwardClosed | src/rolling_median.py:150-156 | with total elapsed seconds, anything older than a stale record is stale and anything newer than a fresh one is fresh |
| Windows.EvictKeepsFresh | src/rolling_median.py:150-162 | eviction keeps exactly the non-stale records, each as many times as it occurs |
| Windows.EvictDropsStalePrefix | src/rolling_median.py:150-156 | on a sorted list the stale records are exactly a prefix, and eviction removes exactly that prefix |
| Windows.InsertOrderedPosition | src/rolling_median.py:164-170 | the new record lands after every record strictly earlier than it and before the first record at least as late |
| Windows.InsertOrderedPermutation | src/rolling_median.py:164-180 | ordered insertion adds exactly one occurrence of the new record and nothing else |
| Windows.InsertOrderedAscending | src/rolling_median.py:164-180 | ordered insertion keeps a list in ascending time order |
| Tally.Inc | src/rolling_median.py:142-143 | `counter[k] += 1` adds `k` to the keys, sets its count to the old count (0 if missing) plus one, and leaves every other key alone |
| Tally.DegreePositive | src/rolling_median.py:159-162 | a person has a positive degree exactly when some record of the window names them |
| Tally.DegreesSnoc | src/rolling_median.py:161-162 | adding a record adds one to its actor's tally and one to its target's, so a self-payment adds two |
| Tally.IncCommute | src/rolling_median.py:161-162 | incrementing target then actor gives the same tally as actor then target |
| Tally.DegreesPermutation | src/rolling_median.py:141-162 | the tally of a window does not depend on the order of its records |
| Tally.Handshake | src/rolling_median.py:141-162 | the tallies of a window sum to twice the number of its records |
| Tally.DegreesNonEmpty | src/rolling_median.py:141-143 | a non-empty window names at least one person, so the median has at least one count |
| Medians.BagSize | src/rolling_median.py:183-184 | `most_common` has one count per person |
| Medians.SortDescendingSpec | src/rolling_median.py:183 | the reference descending arrangement holds exactly the counts of the tally, largest first |
| Medians.DescendingUnique | src/rolling_median.py:183 | a bag of counts has only one descending arrangement, so the tie order of `most_common` cannot change the median |
| Medians.MostCommon | src/rolling_median.py:183 | the counts of `most_common()`, one per person and largest first, equal the reference arrangement |
| Medians.Median | src/rolling_median.py:184-191 | with the index `n / 2` in integer division, the median is the mean of the two middle counts of the descending list, which are the same count when n is odd |
| Medians.MedianIsMiddle | src/rolling_median.py:184-191 | the median lies between the smallest and the largest count; at least half the counts are at least the median and at least half are at most it |
| Medians.MedianParity | src/rolling_median.py:184-191 | an odd number of counts gives a whole median; an even number gives a whole or half-whole one |
| Stream.Dropped | src/rolling_median.py:122-126 | a line is dropped exactly when a watermark exists and the line's time is more than 60 s before it; the "not later than the watermark" test is implied by that |
| Stream.Advance | src/rolling_median.py:122-124 | the new watermark is at least the old watermark and at least the event time |
| Stream.Step | src/rolling_median.py:118-193 | every line sets the watermark and a last median, and appends exactly the new last median to the output |
| Stream.WindowMedianOf | src/rolling_median.py:183-191 | any descending arrangement of the window's counts gives the window median |
| Stream.InitialInv | src/rolling_median.py:111-114 | the initial state satisfies the invariant |
| Stream.EvictAscending | src/rolling_median.py:150-156 | what eviction leaves of a sorted window is sorted |
| Stream.InsertedInside | src/rolling_median.py:150-180 | after eviction and insertion, every record is at most the watermark and not stale |
| Stream.AcceptedEvent | src/rolling_median.py:134-191 | an accepted event: the watermark advances; the new window is sorted and holds the kept records plus the event exactly once; the removed records are exactly the stale prefix; no record left is stale; the last median is the window median |
| Stream.DroppedEvent | src/rolling_median.py:126-132 | a dropped event changes neither window, watermark nor last median, changes no degree, and repeats the previous output value |
| Stream.WatermarkMonotone | src/rolling_median.py:122-124 | the watermark never decreases, and after an accepted event it is the later of the old watermark and the event time |
| Stream.StepInv | src/rolling_median.py:118-193 | every line keeps the invariant: the window is sorted and inside the window of the watermark, and the last median is its median and the last value emitted |
| Stream.RunInv | src/rolling_median.py:118-193 | the invariant holds after any stream of lines |
| Stream.RunOutputLength | src/rolling_median.py:118-193 | every processed line emits exactly one value |
| Stream.RunWatermarkIsMax | src/rolling_median.py:122-124 | once a line has been processed, the watermark is the latest time seen |
| Scenarios.OnePayment | src/rolling_median.py:141-191 | a window of one payment between two people has median 1 |
| Scenarios.SelfPayment | src/rolling_median.py:141-143 | a self-payment gives its single person degree 2, and the median is 2 |
| Scenarios.TwoSidesMedian | src/rolling_median.py:183-191 | degrees 1, 2, 1 give median 1 |
| Scenarios.TriangleMedian | src/rolling_median.py:183-191 | degrees 2, 2, 2 give median 2 |
| Scenarios.Triangle | src/rolling_median.py:118-193 | payments A→B, B→C, C→A one second apart emit 1, 1, 2 and keep all three in order |
| Scenarios.EvictedAfterSixtyOne | src/rolling_median.py:150-156 | a payment 61 s after the first evicts it, and the second value is 1 |
| Scenarios.LateArrivals | src/rolling_median.py:122-132 | a payment 61 s behind the watermark is dropped and repeats the last value; one 60 s behind is kept, in front of the later one |
| Scenarios.WholeDayLater | src/rolling_median.py:150-156 | a repeated pair one whole day after the first payment evicts it, and both values are 1 (the model's total-seconds reading; the source keeps it, see "## Left out") |
| Scenarios.TiesGoFirst | src/rolling_median.py:165 | a payment at the same second as a kept one goes in front of it |

## Left out

- Parsing: the JSON parsing and `strptime` in the `Transaction` constructor (lines 42-45) are not modelled. The constructor takes an already parsed integer time and two names. The source does not catch parse errors.
- Output formatting: `output_append` (lines 82-94) writes each value with two decimals. The model keeps the values as a sequence of `real`.
- File and command-line handling is not modelled: the input-file check, `open`, directory creation and the final write (lines 108-116, 195-205), and the `__main__` entry point (lines 208-210). `ProcessAll` takes the parsed lines as a sequence.
- Floating point: the `/ 2.0` at line 191 is exact `real` division. A sum of two counts halved is exactly representable as a double at any realistic size.
- Medians.MostCommon: returns only the counts, without the names and the tie order of `Counter.most_common`. The median reads only the counts, and `Medians.DescendingUnique` shows the tie order is immaterial.
- Staleness (lines 126 and 153): the model measures the gap in total elapsed seconds, so a record a whole number of days old is dropped or evicted where the source keeps it. For the payments (A,B) at time 0 and (A,B) at time 86400 the source writes 1.00 and 2.00, and the model gives [1.0, 1.0] (`Scenarios.WholeDayLater`). The as-written test is `Windows.StaleBySecondsField`; see "## Findings".
- Memory: unlinked nodes are left to the garbage collector in the source. The model does not track them beyond the fact that they leave the list.

## Findings

| source | as written | input that shows it | evidently intended | confidence | as-written member | corrected member |
|---|---|---|---|---|---|---|
| src/rolling_median.py:126 | `(window_end - time).seconds > 60` is also the test at line 153; `.seconds` is only the within-day part of the gap, i.e. the gap modulo 86400 | payments (A,B) at 0, (C,D) at 86430, (E,F) at 172810: at the third event `.seconds` is 10 for the node at 0, which is kept, and 86380 for the node at 86430, which is stale; line 156 sets `first_transaction` to None, the `insert` at line 180 links behind the unreachable node at 0 and returns None, so the window ends up empty and the new payment is lost | compare the total elapsed seconds with 60 | not executed | Windows.SecondsFieldMissesWholeDays | Windows.EvictDropsStalePrefix |
