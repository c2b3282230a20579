/** The pull interface the accumulator reads from: a fixed script of events
    and a cursor. Each pull yields the next row or a failure; past the end
    of the script every pull reports end-of-stream. */
module RowSource {
  import opened RowOrdering

  datatype Event = Yield(row: Row) | Fail(message: string)

  datatype Source = Source(events: seq<Event>, cursor: nat)

  /** What one pull returns. */
  datatype Pulled = PulledRow(row: Row) | EndOfStream | PullError(message: string)

  predicate WellFormed(s: Source) {
    s.cursor <= |s.events|
  }

  /** The rows among a list of events, in order. */
  function RowsOf(events: seq<Event>): seq<Row>
    decreases |events|
  {
    if events == [] then []
    else (if events[0].Yield? then [events[0].row] else []) + RowsOf(events[1..])
  }

  /** The rows the source has yet to produce. */
  function Rest(s: Source): seq<Row>
    requires WellFormed(s)
  {
    RowsOf(s.events[s.cursor..])
  }

  /** Every row the script yields fits the ordering. */
  predicate SourceFits(ord: Ordering, events: seq<Event>) {
    forall i :: 0 <= i < |events| && events[i].Yield? ==> Fits(ord, events[i].row)
  }

  lemma {:induction false} RowsOfFit(ord: Ordering, events: seq<Event>)
    requires SourceFits(ord, events)
    ensures AllFit(ord, RowsOf(events))
    decreases |events|
  {
    if events != [] {
      assert SourceFits(ord, events[1..]) by {
        forall i | 0 <= i < |events[1..]| && events[1..][i].Yield?
          ensures Fits(ord, events[1..][i].row)
        {
          assert events[1..][i] == events[i + 1];
        }
      }
      RowsOfFit(ord, events[1..]);
    }
  }

  lemma RestFits(ord: Ordering, s: Source)
    requires WellFormed(s)
    ensures SourceFits(ord, s.events) ==> AllFit(ord, Rest(s))
  {
    if SourceFits(ord, s.events) {
      assert SourceFits(ord, s.events[s.cursor..]) by {
        forall i | 0 <= i < |s.events[s.cursor..]| && s.events[s.cursor..][i].Yield?
          ensures Fits(ord, s.events[s.cursor..][i].row)
        {
          assert s.events[s.cursor..][i] == s.events[s.cursor + i];
        }
      }
      RowsOfFit(ord, s.events[s.cursor..]);
    }
  }

  /** No pull from here on fails. */
  predicate NoFailures(s: Source) {
    forall i :: s.cursor <= i < |s.events| ==> s.events[i].Yield?
  }

  /** Pulls one event. */
  function NextRow(s: Source): (res: (Pulled, Source))
    requires WellFormed(s)
    ensures WellFormed(res.1) && res.1.events == s.events
    ensures res.0.EndOfStream? <==> s.cursor == |s.events|
    ensures res.0.EndOfStream? ==> res.1 == s && Rest(s) == []
    ensures !res.0.EndOfStream? ==> res.1.cursor == s.cursor + 1
    ensures res.0.PulledRow? ==>
              Rest(s) == [res.0.row] + Rest(res.1) && s.events[s.cursor] == Yield(res.0.row)
    ensures res.0.PullError? ==>
              Rest(s) == Rest(res.1) && s.events[s.cursor] == Fail(res.0.message)
    ensures NoFailures(s) ==> NoFailures(res.1) && !res.0.PullError?
  {
    if s.cursor == |s.events| then (EndOfStream, s)
    else
      var s' := s.(cursor := s.cursor + 1);
      assert s.events[s.cursor..][1..] == s.events[s'.cursor..];
      match s.events[s.cursor]
      case Yield(r) => (PulledRow(r), s')
      case Fail(m) => (PullError(m), s')
  }

  /** The events that replay a list of rows without failing. */
  function Yields(rows: seq<Row>): (events: seq<Event>)
    ensures |events| == |rows|
    ensures forall i :: 0 <= i < |rows| ==> events[i] == Yield(rows[i])
  {
    seq(|rows|, i requires 0 <= i < |rows| => Yield(rows[i]))
  }

  /** A fresh source over `rows`. */
  function FromRows(rows: seq<Row>): (s: Source)
    ensures WellFormed(s) && NoFailures(s) && Rest(s) == rows
  {
    RowsOfYields(rows);
    Source(Yields(rows), 0)
  }

  lemma {:induction false} RowsOfYields(rows: seq<Row>)
    ensures RowsOf(Yields(rows)) == rows
    decreases |rows|
  {
    if rows != [] {
      assert Yields(rows)[1..] == Yields(rows[1..]);
      RowsOfYields(rows[1..]);
      assert rows == [rows[0]] + rows[1..];
    }
  }
}
