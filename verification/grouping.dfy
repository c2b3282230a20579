/** What a consumer sees when it calls `Advance` until there is no group:
    for sorted input, the groups partition the input into maximal runs of
    rows that compare equal; for unsorted input, an ordering error. */
module Grouping {
  import opened Wrappers
  import opened RowOrdering
  import opened RowSource
  import opened StreamGroupAccumulator

  function Flatten(gs: seq<seq<Row>>): seq<Row>
    decreases |gs|
  {
    if gs == [] then [] else gs[0] + Flatten(gs[1..])
  }

  /** The consumer loop: advance until an empty group or an error. */
  function DrainGroups(a: Accumulator): Result<seq<seq<Row>>, Error>
    requires Valid(a)
    decreases Measure(a)
  {
    var (r, a') := Advance(a);
    match r
    case Err(e) => Err(e)
    case Ok(g) =>
      if g == [] then Ok([])
      else
        match DrainGroups(a')
        case Err(e) => Err(e)
        case Ok(gs) => Ok([g] + gs)
  }

  /** Each group is non-empty and all its rows compare equal to its first row. */
  predicate WellGrouped(ord: Ordering, gs: seq<seq<Row>>) {
    forall i :: 0 <= i < |gs| ==> gs[i] != [] && AllFit(ord, gs[i]) && Coherent(ord, gs[i])
  }

  /** Consecutive groups' first rows are strictly increasing. */
  predicate Increasing(ord: Ordering, gs: seq<seq<Row>>)
    requires WellGrouped(ord, gs)
  {
    forall i :: 0 <= i < |gs| - 1 ==> CompareRows(ord, gs[i][0], gs[i + 1][0]) == Ok(-1)
  }

  /** No group could be extended by the first row of the next one: the last
      row of each group compares less than the next group's first row. */
  predicate Maximal(ord: Ordering, gs: seq<seq<Row>>)
    requires WellGrouped(ord, gs)
  {
    forall i :: 0 <= i < |gs| - 1 ==> CompareRows(ord, gs[i][|gs[i]| - 1], gs[i + 1][0]) == Ok(-1)
  }

  /** The rows of a coherent group compare equal to each other in turn. */
  lemma CoherentIsSorted(ord: Ordering, g: seq<Row>)
    requires AllFit(ord, g) && Coherent(ord, g)
    ensures Sorted(ord, g)
  {
    forall i | 0 <= i < |g| - 1
      ensures CompareRows(ord, g[i], g[i + 1]) == Ok(0)
    {
      if i > 0 {
        CompareLeftSubstitution(ord, g[0], g[i], g[i + 1]);
      }
    }
  }

  /** Putting a coherent group in front of a partition whose first group
      starts with a greater row keeps it a partition into maximal runs. */
  lemma PrependGroup(ord: Ordering, g: seq<Row>, rest: seq<seq<Row>>)
    requires g != [] && AllFit(ord, g) && Coherent(ord, g)
    requires WellGrouped(ord, rest) && Increasing(ord, rest) && Maximal(ord, rest)
    requires rest != [] ==> CompareRows(ord, g[0], rest[0][0]) == Ok(-1)
    ensures var gs := [g] + rest;
            && Flatten(gs) == g + Flatten(rest)
            && WellGrouped(ord, gs) && Increasing(ord, gs) && Maximal(ord, gs)
  {
    var gs := [g] + rest;
    assert gs[1..] == rest;
    if rest != [] {
      assert CompareRows(ord, g[|g| - 1], rest[0][0]) == Ok(-1) by {
        if |g| > 1 {
          CompareLeftSubstitution(ord, g[0], g[|g| - 1], rest[0][0]);
        }
      }
    }
    assert WellGrouped(ord, gs) by {
      forall i | 0 <= i < |gs|
        ensures gs[i] != [] && AllFit(ord, gs[i]) && Coherent(ord, gs[i])
      {
        if i > 0 { assert gs[i] == rest[i - 1]; }
      }
    }
    forall i | 0 <= i < |gs| - 1
      ensures CompareRows(ord, gs[i][0], gs[i + 1][0]) == Ok(-1)
      ensures CompareRows(ord, gs[i][|gs[i]| - 1], gs[i + 1][0]) == Ok(-1)
    {
      if i > 0 { assert gs[i] == rest[i - 1] && gs[i + 1] == rest[i]; }
    }
  }

  /** A successful drain hands out every pending row exactly once, in order,
      split into maximal runs of equal rows with strictly increasing first rows. */
  lemma {:induction false} DrainGroupsPartition(a: Accumulator)
    requires Valid(a) && DrainGroups(a).Ok?
    ensures var gs := DrainGroups(a).value;
            && Flatten(gs) == Pending(a)
            && WellGrouped(a.ordering, gs)
            && Increasing(a.ordering, gs)
            && Maximal(a.ordering, gs)
    decreases Measure(a)
  {
    var (r, a') := Advance(a);
    AdvanceConserves(a);
    AdvanceGroupsEqualRows(a);
    var g := r.value;
    if g != [] {
      DrainGroupsPartition(a');
      var rest := DrainGroups(a').value;
      assert DrainGroups(a).value == [g] + rest;
      if rest != [] {
        assert Flatten(rest) == rest[0] + Flatten(rest[1..]);
        assert !a'.srcConsumed;
        assert rest[0][0] == Pending(a')[0] == a'.curGroup[0];
      }
      PrependGroup(a.ordering, g, rest);
    }
  }

  /** Runs of equal rows joined at strictly increasing seams form a sorted run. */
  lemma {:induction false} GroupedIsSorted(ord: Ordering, gs: seq<seq<Row>>)
    requires WellGrouped(ord, gs) && Maximal(ord, gs)
    ensures AllFit(ord, Flatten(gs)) && Sorted(ord, Flatten(gs))
    decreases |gs|
  {
    if gs != [] {
      var rest := gs[1..];
      assert WellGrouped(ord, rest) && Maximal(ord, rest) by {
        forall i | 0 <= i < |rest| ensures rest[i] == gs[i + 1] { }
      }
      GroupedIsSorted(ord, rest);
      CoherentIsSorted(ord, gs[0]);
      if rest != [] {
        assert Flatten(rest)[0] == rest[0][0];
        SortedConcat(ord, gs[0], Flatten(rest));
      }
    }
  }

  /** On sorted pending rows from a source that does not fail, `Advance`
      does not fail. */
  lemma {:induction false} AdvanceOnSortedSucceeds(a: Accumulator)
    requires Valid(a) && NoFailures(a.src)
    requires Sorted(a.ordering, Pending(a))
    ensures Advance(a).0.Ok?
    decreases |a.src.events| - a.src.cursor
  {
    if !a.srcConsumed {
      var (p, s') := NextRow(a.src);
      if p.PulledRow? {
        var ord := a.ordering;
        var cg := a.curGroup;
        if |cg| == 0 {
          var a1 := a.(src := s', curGroup := [p.row]);
          assert Pending(a1) == Pending(a);
          AdvanceOnSortedSucceeds(a1);
        } else {
          var pend := Pending(a);
          assert pend == cg + ([p.row] + Rest(s'));
          assert pend[|cg| - 1] == cg[|cg| - 1] && pend[|cg|] == p.row;
          if |cg| > 1 {
            CompareLeftSubstitution(ord, cg[0], cg[|cg| - 1], p.row);
          }
          if CompareRows(ord, cg[0], p.row) == Ok(0) {
            var a1 := a.(src := s', curGroup := cg + [p.row]);
            assert Pending(a1) == Pending(a);
            AdvanceOnSortedSucceeds(a1);
          }
        }
      }
    }
  }

  /** Sorted input from a source that does not fail drains without error. */
  lemma {:induction false} DrainSortedSucceeds(a: Accumulator)
    requires Valid(a) && NoFailures(a.src)
    requires Sorted(a.ordering, Pending(a))
    ensures DrainGroups(a).Ok?
    decreases Measure(a)
  {
    var (r, a') := Advance(a);
    AdvanceOnSortedSucceeds(a);
    AdvanceConserves(a);
    if r.value != [] {
      SortedSuffix(a.ordering, Pending(a), |r.value|);
      assert Pending(a)[|r.value|..] == Pending(a');
      DrainSortedSucceeds(a');
    }
  }

  /** Over a source that does not fail and whose rows all decode, the only
      way a drain can fail is an ordering violation: two pending rows, the
      first of which compares greater than the second. */
  lemma {:induction false} DrainFailsOnlyOnBadOrder(a: Accumulator)
    requires Valid(a) && NoFailures(a.src)
    requires AllDecodable(a.ordering, Pending(a))
    ensures var r := DrainGroups(a);
            r.Err? ==>
              && r.error.BadlyOrdered?
              && r.error.first in Pending(a) && r.error.row in Pending(a)
              && Fits(a.ordering, r.error.first) && Fits(a.ordering, r.error.row)
              && CompareRows(a.ordering, r.error.first, r.error.row) == Ok(1)
    decreases Measure(a)
  {
    var (r, a') := Advance(a);
    var ord := a.ordering;
    if r.Err? {
      AdvanceReportsCulprit(a);
      AdvanceKeepsGroupOnError(a, r.error, a');
      var ev := a.src.events[a'.src.cursor - 1];
      assert ev.Yield?;
      assert Pending(a) == a'.curGroup + [ev.row] + Rest(a'.src);
      assert a'.curGroup != [];
      assert Pending(a)[0] == a'.curGroup[0];
      assert Pending(a)[|a'.curGroup|] == ev.row;
      assert Decodable(ord, a'.curGroup[0]) && Decodable(ord, ev.row);
    } else if r.value != [] {
      AdvanceConserves(a);
      assert Pending(a) == r.value + Pending(a');
      assert AllDecodable(ord, Pending(a')) by {
        forall j | 0 <= j < |Pending(a')|
          ensures Decodable(ord, Pending(a')[j])
        {
          assert Pending(a')[j] == Pending(a)[|r.value| + j];
        }
      }
      DrainFailsOnlyOnBadOrder(a');
    }
  }

  // ---------------------------------------------------------------------
  // The same statements for a fresh accumulator over a list of rows.

  /** For sorted input the groups are a partition of the input into maximal
      runs of equal rows, in input order, with strictly increasing first rows. */
  lemma PartitionOfSortedInput(ord: Ordering, rows: seq<Row>)
    requires AllFit(ord, rows) && Sorted(ord, rows)
    ensures var src := FromRows(rows);
            SourceFits(ord, src.events) &&
            var r := DrainGroups(Make(src, ord));
            && r.Ok?
            && Flatten(r.value) == rows
            && WellGrouped(ord, r.value)
            && Increasing(ord, r.value)
            && Maximal(ord, r.value)
  {
    var src := FromRows(rows);
    var a := Make(src, ord);
    DrainSortedSucceeds(a);
    DrainGroupsPartition(a);
  }

  /** Draining succeeds exactly when the input is sorted. */
  lemma DrainSucceedsIffSorted(ord: Ordering, rows: seq<Row>)
    requires AllFit(ord, rows)
    ensures SourceFits(ord, FromRows(rows).events)
    ensures Sorted(ord, rows) ==> DrainGroups(Make(FromRows(rows), ord)).Ok?
    ensures DrainGroups(Make(FromRows(rows), ord)).Ok? ==> Sorted(ord, rows)
  {
    var a := Make(FromRows(rows), ord);
    if Sorted(ord, rows) {
      DrainSortedSucceeds(a);
    }
    if DrainGroups(a).Ok? {
      DrainGroupsPartition(a);
      GroupedIsSorted(ord, DrainGroups(a).value);
    }
  }

  /** Unsorted input whose rows all decode is rejected with an ordering
      violation naming two input rows, the first greater than the second. */
  lemma UnsortedInputIsRejected(ord: Ordering, rows: seq<Row>)
    requires AllFit(ord, rows) && AllDecodable(ord, rows) && !Sorted(ord, rows)
    ensures SourceFits(ord, FromRows(rows).events)
    ensures var r := DrainGroups(Make(FromRows(rows), ord));
            && r.Err? && r.error.BadlyOrdered?
            && r.error.first in rows && r.error.row in rows
            && Fits(ord, r.error.first) && Fits(ord, r.error.row)
            && CompareRows(ord, r.error.first, r.error.row) == Ok(1)
  {
    var a := Make(FromRows(rows), ord);
    DrainSucceedsIffSorted(ord, rows);
    DrainFailsOnlyOnBadOrder(a);
  }
}
