# Stream group accumulator

A Dafny model of the stream group accumulator of CockroachDB's distributed SQL
execution engine (`pkg/sql/distsqlrun/stream_group_accumulator.go`). The
accumulator reads a row source that is supposed to be sorted by a column
ordering and splits it into maximal runs of rows that compare equal on the
ordering columns. Operators such as merge joins consume it through two calls:
`peekAtCurrentGroup` returns the first row of the current group without consuming
it, and `advanceGroup` returns the whole current group and moves on to the next
one. It fails with a "badly ordered input" error when a row sorts before the
first row of its group.

The model is a functional state machine:

- `RowOrdering` (`row_ordering.dfy`) holds rows, column orderings and the row
  comparator. A datum either decodes to an integer or is corrupt. The comparator
  walks the ordering columns in order. For each column it decodes the left datum,
  then the right one, and stops at the first column that differs. A descending
  column flips the sign. Decoding a corrupt datum is a decode error. The module
  also gives a reference definition (sort keys compared lexicographically) and the
  total-preorder laws the comparator satisfies.
- `RowSource` (`row_source.dfy`) models the row source as a fixed script of
  events and a cursor. Each event is a row or a failure. Past the end of the
  script, every pull reports end-of-stream.
- `StreamGroupAccumulator` (`stream_group_accumulator.dfy`) holds the accumulator
  record (`srcConsumed`, `curGroup`, the source and the ordering). It has `Make`,
  `Peek` and `Advance`, which are pure functions returning the answer and the new
  state, plus lemmas about single calls and pairs of calls. `Pending(a)` is the
  list of rows not yet handed to the caller. It is the current group followed by
  the rows the source still has to yield. Once the source is consumed, nothing is
  pending.
- `Grouping` (`grouping.dfy`) models the consumer loop that advances until there
  is no group. It proves that sorted input is partitioned into maximal equal runs,
  and that unsorted input is rejected.
- `Wrappers` (`wrappers.dfy`) holds `Option` and `Result`.

An empty group stands for the nil slice `advanceGroup` returns when there is no group.

Behaviour of the code that the model keeps as written:

- `advanceGroup` compares the group's first row with the pulled row, in that
  operand order. A result of 1 (first > row) is the ordering error. A result of -1
  closes the group, and the pulled row becomes the next group's only row.
- After an error, `curGroup` keeps the rows accumulated before the failing pull.
  Only the row that caused the failure is lost.
- When end-of-stream sets `srcConsumed`, `curGroup` still holds the group that was
  just returned. Nothing reads it afterwards.
- `advanceGroup` called on an empty group seeds the group itself. Calling `peek`
  first is not required.

## Model

| member | source | states |
|---|---|---|
| StreamGroupAccumulator.Make | pkg/sql/distsqlrun/stream_group_accumulator.go:39-47 | A new accumulator pulls nothing: its pending rows are exactly the rows the source has yet to yield, with an empty group and the source not consumed. |
| StreamGroupAccumulator.Peek | pkg/sql/distsqlrun/stream_group_accumulator.go:49-69 | Once the source is consumed, peek returns no row and changes nothing. A non-empty group is answered from the buffer without pulling. Otherwise peek pulls exactly one event. The row it returns is the first pending row, and it becomes the group's only member. No row means nothing is pending and the source is marked consumed. When the group is empty and the next event is a failure, peek returns that failure unchanged and no row. Any error it returns is such a failure, and only the cursor moves. |
| StreamGroupAccumulator.Advance | pkg/sql/distsqlrun/stream_group_accumulator.go:74-125 | Once the source is consumed, advance returns no group and leaves the state, and so the source, untouched. On a live accumulator every call makes progress. An empty group is returned only together with end-of-stream. |
| StreamGroupAccumulator.AdvanceConserves | pkg/sql/distsqlrun/stream_group_accumulator.go:83-122 | A returned group followed by the rows still pending equals the rows pending before the call. No row is lost, duplicated or reordered. The group is empty exactly when nothing was pending. At end-of-stream the group is every row not yet handed out. A successful call pulled no failed event, so a source failure is never skipped. |
| StreamGroupAccumulator.AdvanceGroupsEqualRows | pkg/sql/distsqlrun/stream_group_accumulator.go:93-122 | Every row of a returned group compares equal to the group's first row. Unless the source ended, the row that closed the group compares greater than the group's first row. It is kept as the only member of the next group. |
| StreamGroupAccumulator.AdvanceReportsCulprit | pkg/sql/distsqlrun/stream_group_accumulator.go:84-111 | An error names the last event pulled. It is either the source's failure unchanged, the comparator's decode error unchanged, or the badly ordered pair (group's first row, pulled row) whose comparison is 1. |
| StreamGroupAccumulator.AdvanceKeepsGroupOnError | pkg/sql/distsqlrun/stream_group_accumulator.go:83-111 | After a failing advance, the rows accumulated before the failure stay in the current group. Of the rows pending before the call, only the culprit event's row, if it had one, is gone. |
| StreamGroupAccumulator.AdvanceStopsAtFirstFailure | pkg/sql/distsqlrun/stream_group_accumulator.go:83-104 | A failing advance stops at the first event that causes an error: every event it pulled before that one yielded a row. |
| StreamGroupAccumulator.ExhaustedIsFinal | pkg/sql/distsqlrun/stream_group_accumulator.go:49-81 | With the source consumed, peek and advance both answer "no group" and return the state unchanged. |
| StreamGroupAccumulator.PeekIsIdempotent | pkg/sql/distsqlrun/stream_group_accumulator.go:56-68 | Peeking again after a successful peek returns the same answer and the same state. |
| StreamGroupAccumulator.PeekThenAdvance | pkg/sql/distsqlrun/stream_group_accumulator.go:49-98 | A successful advance after a peek returns a non-empty group that starts with the peeked row. |
| StreamGroupAccumulator.AdvanceThenPeek | pkg/sql/distsqlrun/stream_group_accumulator.go:112-122 | After an advance that did not reach end-of-stream, the next peek pulls nothing. It returns the first pending row, which is the row that closed the group and sorts after the group's first row. |
| StreamGroupAccumulator.PeekThenAdvanceAgrees | pkg/sql/distsqlrun/stream_group_accumulator.go:56-98 | After a successful peek, advance returns the same group or error, and leaves the same accumulator state, as it would have without the peek. |
| Grouping.AdvanceOnSortedSucceeds | pkg/sql/distsqlrun/stream_group_accumulator.go:101-111 | When the pending rows are sorted and the source does not fail, advance does not fail. |
| Grouping.DrainGroupsPartition | pkg/sql/distsqlrun/stream_group_accumulator.go:74-125 | Advancing until there is no group hands out every pending row exactly once and in order. The rows are split into non-empty groups of equal rows, with strictly increasing first rows. Each group's last row is less than the next group's first row. |
| Grouping.DrainSortedSucceeds | pkg/sql/distsqlrun/stream_group_accumulator.go:101-111 | Sorted pending rows from a source that does not fail drain without error. |
| Grouping.DrainFailsOnlyOnBadOrder | pkg/sql/distsqlrun/stream_group_accumulator.go:84-111 | When the source does not fail and every row decodes, a drain can fail only with an ordering violation. It names two pending rows, and the first compares greater than the second. |
| Grouping.PartitionOfSortedInput | pkg/sql/distsqlrun/stream_group_accumulator.go:71-125 | For sorted input, a fresh accumulator's groups concatenate to the input. They are maximal runs of equal rows with strictly increasing first rows. |
| Grouping.DrainSucceedsIffSorted | pkg/sql/distsqlrun/stream_group_accumulator.go:105-111 | Draining a fresh accumulator succeeds if and only if the input is sorted. |
| Grouping.UnsortedInputIsRejected | pkg/sql/distsqlrun/stream_group_accumulator.go:107-111 | Unsorted input whose rows all decode is rejected with a "badly ordered input" error. The error names two input rows, and the first compares greater than the second. |
| RowOrdering.CompareRows | pkg/sql/distsqlrun/stream_group_accumulator.go:101-112 | The comparison the accumulator branches on is -1, 0 or 1. It fails only when an ordering column of one of the rows does not decode. |
| RowOrdering.CompareByKey | pkg/sql/distsqlrun/stream_group_accumulator.go:101-112 | On decodable rows the comparator equals the lexicographic comparison of the rows' sort keys. A sort key lists the ordering columns' values, negated for descending columns. |
| RowOrdering.CompareLeftSubstitution | pkg/sql/distsqlrun/stream_group_accumulator.go:101-106 | A row equal to the group's first row compares with any third row exactly as the first row does. This is why comparing each pulled row only with `curGroup[0]` suffices. |

## Left out

- The lookup join reader, `RowBuffer` and post-processing are not part of this model. The join reader's test (`pkg/sql/distsqlrun/joinreader_test.go`) drives them against a live server and key-value store.
- Slice capacity handling is not modelled: the pre-sized `make(..., 0, 64)` buffers, the `[:n:n]` capacity-capped return and backing-array reuse. A returned group is an immutable sequence, so no aliasing can arise.
- `EncDatumRow.Compare` is not part of this model. In its place is a concrete comparator over integer datums with lazy per-column decoding. `types`, `datumAlloc` and `evalCtx` are therefore absent, and so are NULLs, other column types and collations.
- The error message text is not modelled. The ordering error carries the two rows it would print.
- A column index beyond a row's width makes the Go comparator panic. The model requires every row to fit the ordering (`Fits`, `SourceFits`) instead.
- Sources are not required to stop being called after an error, because the accumulator does not rely on that. The scripted source keeps going past a failure.
- The consumer loop (`Grouping.DrainGroups`) calls only advance. A successful peek changes neither the next advance's answer nor the state it leaves (`StreamGroupAccumulator.PeekThenAdvanceAgrees`), so interleaving peeks cannot change the groups.
