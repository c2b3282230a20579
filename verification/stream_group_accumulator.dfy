/** The stream group accumulator: reads a row source that is sorted by an
    ordering and splits it into maximal runs of rows that compare equal on
    the ordering columns. `Peek` returns the first row of the current group;
    `Advance` returns the whole current group and moves to the next one.

    Both operations are pure: they take the accumulator state and return
    the answer together with the new state. An empty group stands for the
    nil slice `advanceGroup` returns when there is no group. */
module StreamGroupAccumulator {
  import opened Wrappers
  import opened RowOrdering
  import opened RowSource

  datatype Error =
    | SourceFailure(message: string)
    | DecodeFailure(cause: DecodeError)
      /** The stream claims to be sorted but `row` sorts before `first`. */
    | BadlyOrdered(first: Row, row: Row)

  datatype Accumulator = Accumulator(
    src: Source,
    ordering: Ordering,
    /** Set once the source has reported end-of-stream. */
    srcConsumed: bool,
    /** Rows accumulated in the current group, in source order. */
    curGroup: seq<Row>)

  /** Every row of a group compares equal to the group's first row. */
  predicate Coherent(ord: Ordering, g: seq<Row>)
    requires AllFit(ord, g)
  {
    forall i :: 1 <= i < |g| ==> CompareRows(ord, g[0], g[i]) == Ok(0)
  }

  predicate Valid(a: Accumulator) {
    && WellFormed(a.src)
    && SourceFits(a.ordering, a.src.events)
    && AllFit(a.ordering, a.curGroup)
    && Coherent(a.ordering, a.curGroup)
    && (a.srcConsumed ==> a.src.cursor == |a.src.events|)
  }

  /** The rows not yet handed to the caller, in source order. Once the source
      is consumed nothing is pending, whatever `curGroup` still holds. */
  function Pending(a: Accumulator): (rows: seq<Row>)
    requires WellFormed(a.src)
    ensures SourceFits(a.ordering, a.src.events) && AllFit(a.ordering, a.curGroup)
            ==> AllFit(a.ordering, rows)
  {
    if a.srcConsumed then []
    else
      RestFits(a.ordering, a.src);
      a.curGroup + Rest(a.src)
  }

  /** Decreases with every call that is not a no-op. */
  function Measure(a: Accumulator): nat
    requires WellFormed(a.src)
  {
    |a.src.events| - a.src.cursor + (if a.srcConsumed then 0 else 1)
  }

  /** A new accumulator over `src`; nothing is pulled yet. */
  function Make(src: Source, ord: Ordering): (a: Accumulator)
    requires WellFormed(src) && SourceFits(ord, src.events)
    ensures Valid(a) && a.src == src && a.ordering == ord
    ensures Pending(a) == Rest(src) && a.curGroup == [] && !a.srcConsumed
  {
    Accumulator(src, ord, false, [])
  }

  /** The first row of the current group, pulling one row to seed the group
      when it is empty. `None` means there are no more groups. */
  function Peek(a: Accumulator): (res: (Result<Option<Row>, Error>, Accumulator))
    requires Valid(a)
    ensures Valid(res.1) && res.1.ordering == a.ordering && res.1.src.events == a.src.events
    // exhausted: no group, and the source is not pulled again
    ensures a.srcConsumed ==> res == (Ok(None), a)
    // a non-empty group is answered from the buffer alone
    ensures !a.srcConsumed && a.curGroup != [] ==> res == (Ok(Some(a.curGroup[0])), a)
    // at most one pull, and exactly one when the group is empty and the source is live
    ensures a.src.cursor <= res.1.src.cursor <= a.src.cursor + 1
    ensures !a.srcConsumed && a.curGroup == [] ==>
              (res.1.src.cursor == a.src.cursor + 1 <==> a.src.cursor < |a.src.events|)
    // a row pulled to seed an empty group becomes its only member
    ensures a.curGroup == [] && res.0.Ok? && res.0.value.Some? ==> res.1.curGroup == [res.0.value.value]
    // peeking loses and duplicates no row
    ensures res.0.Ok? ==> Pending(res.1) == Pending(a)
    ensures res.0.Ok? ==> (res.0.value.None? <==> Pending(a) == [])
    ensures res.0.Ok? && res.0.value.None? ==> res.1.srcConsumed
    // the row returned is the next row not yet handed out, and it heads the group
    ensures res.0.Ok? && res.0.value.Some? ==>
              && Pending(a) != [] && res.0.value.value == Pending(a)[0]
              && !res.1.srcConsumed && res.1.curGroup != []
              && res.1.curGroup[0] == res.0.value.value
    // a failed pull is always reported, unchanged, with no row
    ensures !a.srcConsumed && a.curGroup == [] && a.src.cursor < |a.src.events|
            && a.src.events[a.src.cursor].Fail? ==>
              res.0 == Err(SourceFailure(a.src.events[a.src.cursor].message))
    // an error can only come from a failed pull; only the cursor moves
    ensures res.0.Err? ==>
              && a.src.cursor < |a.src.events|
              && a.src.events[a.src.cursor].Fail?
              && res.0.error == SourceFailure(a.src.events[a.src.cursor].message)
              && res.1 == a.(src := a.src.(cursor := a.src.cursor + 1))
  {
    if a.srcConsumed then (Ok(None), a)
    else if |a.curGroup| == 0 then
      var (p, s') := NextRow(a.src);
      match p
      case PullError(m) => (Err(SourceFailure(m)), a.(src := s'))
      case PulledRow(r) => (Ok(Some(r)), a.(src := s', curGroup := [r]))
      case EndOfStream => (Ok(None), a.(src := s', srcConsumed := true))
    else (Ok(Some(a.curGroup[0])), a)
  }

  /** What a failed `Advance` reports about the last event it pulled:
      a source failure is that event's message; a decode or ordering error
      comes from comparing the first row of the group with that event's row. */
  predicate Culprit(ord: Ordering, e: Error, ev: Event, group: seq<Row>)
    requires AllFit(ord, group)
    requires ev.Yield? ==> Fits(ord, ev.row)
  {
    match e
    case SourceFailure(m) => ev == Fail(m)
    case DecodeFailure(d) =>
      ev.Yield? && group != [] && CompareRows(ord, group[0], ev.row) == Err(d)
    case BadlyOrdered(f, r) =>
      ev == Yield(r) && group != [] && f == group[0] && CompareRows(ord, f, r) == Ok(1)
  }

  /** Returns the rows of the current group and moves to the next group:
      pulls rows while they compare equal to the group's first row, stops at
      the first row that compares greater (keeping it as the next group's
      first row), fails on a row that compares less. What the result means is
      stated by the lemmas that follow. */
  function Advance(a: Accumulator): (res: (Result<seq<Row>, Error>, Accumulator))
    requires Valid(a)
    ensures Valid(res.1) && res.1.ordering == a.ordering && res.1.src.events == a.src.events
    ensures a.src.cursor <= res.1.src.cursor
    // exhausted: no group, and the source is not pulled again
    ensures a.srcConsumed ==> res == (Ok([]), a)
    // every call on a live accumulator makes progress
    ensures !a.srcConsumed ==> Measure(res.1) < Measure(a)
    // an empty group only comes with the end of the source
    ensures res.0.Ok? && res.0.value == [] ==> res.1.srcConsumed
    decreases |a.src.events| - a.src.cursor
  {
    if a.srcConsumed then (Ok([]), a)
    else
      var (p, s') := NextRow(a.src);
      match p
      case PullError(m) => (Err(SourceFailure(m)), a.(src := s'))
      case EndOfStream => (Ok(a.curGroup), a.(src := s', srcConsumed := true))
      case PulledRow(row) =>
        if |a.curGroup| == 0 then
          Advance(a.(src := s', curGroup := [row]))
        else
          match CompareRows(a.ordering, a.curGroup[0], row)
          case Err(d) => (Err(DecodeFailure(d)), a.(src := s'))
          case Ok(cmp) =>
            if cmp == 0 then
              Advance(a.(src := s', curGroup := a.curGroup + [row]))
            else if cmp == 1 then
              (Err(BadlyOrdered(a.curGroup[0], row)), a.(src := s'))
            else
              (Ok(a.curGroup), a.(src := s', curGroup := [row]))
  }

  /** `Advance` hands out a prefix of the pending rows, so nothing is lost,
      duplicated or reordered; the group is empty only when nothing is pending. */
  lemma {:induction false} AdvanceConserves(a: Accumulator)
    requires Valid(a)
    ensures var (r, a') := Advance(a);
            r.Ok? ==> r.value + Pending(a') == Pending(a) && (r.value == [] <==> Pending(a) == [])
    // at end-of-stream the group is exactly every row not yet handed out
    ensures var (r, a') := Advance(a);
            r.Ok? && a'.srcConsumed ==> r.value == Pending(a) && a'.src.cursor == |a.src.events|
    // a successful call pulled no failure: a failed pull is never skipped
    ensures var (r, a') := Advance(a);
            r.Ok? ==> forall i :: a.src.cursor <= i < a'.src.cursor ==> a.src.events[i].Yield?
    decreases |a.src.events| - a.src.cursor
  {
    if !a.srcConsumed {
      var (p, s') := NextRow(a.src);
      if p.PulledRow? {
        if |a.curGroup| == 0 {
          var a1 := a.(src := s', curGroup := [p.row]);
          assert Pending(a1) == Pending(a);
          AdvanceConserves(a1);
        } else if CompareRows(a.ordering, a.curGroup[0], p.row) == Ok(0) {
          var a1 := a.(src := s', curGroup := a.curGroup + [p.row]);
          assert Pending(a1) == Pending(a);
          AdvanceConserves(a1);
        } else {
          assert a.curGroup + ([p.row] + Rest(s')) == Pending(a);
        }
      }
    }
  }

  /** Every row of a returned group compares equal to its first row, and
      unless the source ended, the row that closed the group compares greater
      than the group's first row and is kept as the only row of the next group. */
  lemma {:induction false} AdvanceGroupsEqualRows(a: Accumulator)
    requires Valid(a)
    ensures var (r, a') := Advance(a);
            r.Ok? ==> AllFit(a.ordering, r.value) && Coherent(a.ordering, r.value)
    ensures var (r, a') := Advance(a);
            r.Ok? && !a'.srcConsumed ==>
              && r.value != [] && |a'.curGroup| == 1
              && CompareRows(a.ordering, r.value[0], a'.curGroup[0]) == Ok(-1)
    decreases |a.src.events| - a.src.cursor
  {
    if !a.srcConsumed {
      var (p, s') := NextRow(a.src);
      if p.PulledRow? {
        if |a.curGroup| == 0 {
          AdvanceGroupsEqualRows(a.(src := s', curGroup := [p.row]));
        } else if CompareRows(a.ordering, a.curGroup[0], p.row) == Ok(0) {
          AdvanceGroupsEqualRows(a.(src := s', curGroup := a.curGroup + [p.row]));
        }
      }
    }
  }

  /** A failing `Advance` has pulled at least one event, and its error is
      the one that event caused: the source's own failure unchanged, the
      comparator's decode error unchanged, or the badly ordered pair made of
      the group's first row and the event's row. */
  lemma {:induction false} AdvanceReportsCulprit(a: Accumulator)
    requires Valid(a)
    ensures var (r, a') := Advance(a);
            r.Err? ==>
              && a.src.cursor < a'.src.cursor
              && !a'.srcConsumed
              && Culprit(a.ordering, r.error, a.src.events[a'.src.cursor - 1], a'.curGroup)
    decreases |a.src.events| - a.src.cursor
  {
    if !a.srcConsumed {
      var (p, s') := NextRow(a.src);
      if p.PulledRow? {
        if |a.curGroup| == 0 {
          AdvanceReportsCulprit(a.(src := s', curGroup := [p.row]));
        } else if CompareRows(a.ordering, a.curGroup[0], p.row) == Ok(0) {
          AdvanceReportsCulprit(a.(src := s', curGroup := a.curGroup + [p.row]));
        }
      }
    }
  }

  /** After a failing `Advance` the rows accumulated before the failure stay
      in the current group; of the pending rows only the culprit's row, if
      any, is gone. */
  lemma {:induction false} AdvanceKeepsGroupOnError(a: Accumulator, e: Error, a': Accumulator)
    requires Valid(a) && Advance(a) == (Err(e), a')
    ensures a.src.cursor < a'.src.cursor <= |a.src.events|
    ensures var ev := a.src.events[a'.src.cursor - 1];
            Pending(a) == a'.curGroup + (if ev.Yield? then [ev.row] else []) + Rest(a'.src)
    decreases |a.src.events| - a.src.cursor
  {
    var (p, s') := NextRow(a.src);
    var cg := a.curGroup;
    match p
    case PullError(m) =>
      assert Pending(a) == cg + [] + Rest(s');
    case PulledRow(row) =>
      if |cg| == 0 {
        var a1 := a.(src := s', curGroup := [row]);
        assert Pending(a1) == Pending(a);
        AdvanceKeepsGroupOnError(a1, e, a');
      } else if CompareRows(a.ordering, cg[0], row) == Ok(0) {
        var a1 := a.(src := s', curGroup := cg + [row]);
        assert Pending(a1) == Pending(a);
        AdvanceKeepsGroupOnError(a1, e, a');
      } else {
        assert Pending(a) == cg + [row] + Rest(s');
      }
  }

  /** `Advance` stops at the first failed pull: every event pulled before
      the one that caused an error yielded a row, so together with
      `AdvanceConserves` no failure is ever skipped. */
  lemma {:induction false} AdvanceStopsAtFirstFailure(a: Accumulator)
    requires Valid(a)
    ensures var (r, a') := Advance(a);
            r.Err? ==>
              && a.src.cursor < a'.src.cursor
              && forall i :: a.src.cursor <= i < a'.src.cursor - 1 ==> a.src.events[i].Yield?
    decreases |a.src.events| - a.src.cursor
  {
    if !a.srcConsumed {
      var (p, s') := NextRow(a.src);
      if p.PulledRow? {
        if |a.curGroup| == 0 {
          AdvanceStopsAtFirstFailure(a.(src := s', curGroup := [p.row]));
        } else if CompareRows(a.ordering, a.curGroup[0], p.row) == Ok(0) {
          AdvanceStopsAtFirstFailure(a.(src := s', curGroup := a.curGroup + [p.row]));
        }
      }
    }
  }

  /** Once the source is exhausted both operations answer "no group" and
      leave the state, and so the source, untouched. */
  lemma ExhaustedIsFinal(a: Accumulator)
    requires Valid(a) && a.srcConsumed
    ensures Peek(a) == (Ok(None), a)
    ensures Advance(a) == (Ok([]), a)
    ensures Pending(a) == []
  {
  }

  /** Peeking again right after a successful peek changes nothing. */
  lemma PeekIsIdempotent(a: Accumulator)
    requires Valid(a) && Peek(a).0.Ok?
    ensures Peek(Peek(a).1) == Peek(a)
  {
  }

  /** The group `Advance` returns starts with the row `Peek` returned. */
  lemma PeekThenAdvance(a: Accumulator)
    requires Valid(a)
    requires Peek(a).0.Ok? && Peek(a).0.value.Some?
    ensures var a1 := Peek(a).1;
            Advance(a1).0.Ok? ==>
              Advance(a1).0.value != [] && Advance(a1).0.value[0] == Peek(a).0.value.value
  {
    AdvanceConserves(Peek(a).1);
  }

  /** The row that closed a group is not dropped: the next peek returns it,
      without pulling, and it sorts after the returned group's first row. */
  lemma AdvanceThenPeek(a: Accumulator, g: seq<Row>, a': Accumulator)
    requires Valid(a) && Advance(a) == (Ok(g), a') && !a'.srcConsumed
    ensures a'.curGroup != [] && Pending(a') != [] && Pending(a')[0] == a'.curGroup[0]
    ensures Peek(a') == (Ok(Some(a'.curGroup[0])), a')
    ensures g != [] && AllFit(a.ordering, g) && Fits(a.ordering, a'.curGroup[0])
            && CompareRows(a.ordering, g[0], a'.curGroup[0]) == Ok(-1)
  {
    AdvanceGroupsEqualRows(a);
  }

  /** A peek before an advance changes neither what the advance returns nor
      the state it leaves, so later calls see the same groups too. */
  lemma PeekThenAdvanceAgrees(a: Accumulator)
    requires Valid(a) && Peek(a).0.Ok?
    ensures Advance(Peek(a).1) == Advance(a)
  {
    if !a.srcConsumed && a.curGroup == [] {
      var (p, s') := NextRow(a.src);
      if p.PulledRow? {
        assert Peek(a).1 == a.(src := s', curGroup := [p.row]);
      }
    }
  }
}
