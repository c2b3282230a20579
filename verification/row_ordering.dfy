/** Rows, column orderings, and the row comparator that the stream group
    accumulator uses to find group boundaries.

    A datum either decodes to an integer or is an encoding that fails to
    decode. The comparator walks the ordering columns in order, decodes the
    left datum and then the right datum of each column lazily, and stops at
    the first column that differs; a descending column flips the sign. */
module RowOrdering {
  import opened Wrappers

  datatype Datum = Int(value: int) | Corrupt(code: nat)

  type Row = seq<Datum>

  datatype Direction = Ascending | Descending

  datatype ColumnOrder = ColumnOrder(colIdx: nat, direction: Direction)

  type Ordering = seq<ColumnOrder>

  /** The failure to decode the datum in column `colIdx`. */
  datatype DecodeError = DecodeError(colIdx: nat, code: nat)

  /** Every ordering column indexes into the row (the comparator panics otherwise). */
  predicate Fits(ord: Ordering, r: Row) {
    forall i :: 0 <= i < |ord| ==> ord[i].colIdx < |r|
  }

  predicate AllFit(ord: Ordering, rows: seq<Row>) {
    forall j :: 0 <= j < |rows| ==> Fits(ord, rows[j])
  }

  /** Every ordering column of the row decodes. */
  predicate Decodable(ord: Ordering, r: Row)
    requires Fits(ord, r)
  {
    forall i :: 0 <= i < |ord| ==> r[ord[i].colIdx].Int?
  }

  predicate AllDecodable(ord: Ordering, rows: seq<Row>)
    requires AllFit(ord, rows)
  {
    forall j :: 0 <= j < |rows| ==> Decodable(ord, rows[j])
  }

  function Sign(x: int): int {
    if x < 0 then -1 else if x > 0 then 1 else 0
  }

  lemma FitsTail(ord: Ordering, r: Row)
    requires ord != [] && Fits(ord, r)
    ensures Fits(ord[1..], r) && ord[0].colIdx < |r|
  {
    forall i | 0 <= i < |ord[1..]|
      ensures ord[1..][i].colIdx < |r|
    {
      assert ord[1..][i] == ord[i + 1];
    }
  }

  /** Compares `lhs` with `rhs` under `ord`: -1, 0 or 1, or the decode error
      of the first datum that fails to decode on the way. */
  function CompareRows(ord: Ordering, lhs: Row, rhs: Row): (r: Result<int, DecodeError>)
    requires Fits(ord, lhs) && Fits(ord, rhs)
    ensures r.Ok? ==> -1 <= r.value <= 1
    ensures r.Err? ==> !(Decodable(ord, lhs) && Decodable(ord, rhs))
    decreases |ord|
  {
    if ord == [] then Ok(0)
    else
      FitsTail(ord, lhs);
      FitsTail(ord, rhs);
      var c := ord[0];
      var l := lhs[c.colIdx];
      var rd := rhs[c.colIdx];
      if l.Corrupt? then Err(DecodeError(c.colIdx, l.code))
      else if rd.Corrupt? then Err(DecodeError(c.colIdx, rd.code))
      else
        var s := Sign(l.value - rd.value);
        var cmp := if c.direction == Descending then -s else s;
        if cmp != 0 then Ok(cmp)
        else
          var rest := CompareRows(ord[1..], lhs, rhs);
          assert rest.Err? ==> !(Decodable(ord, lhs) && Decodable(ord, rhs)) by {
            if Decodable(ord, lhs) && Decodable(ord, rhs) {
              forall i | 0 <= i < |ord[1..]|
                ensures lhs[ord[1..][i].colIdx].Int? && rhs[ord[1..][i].colIdx].Int?
              {
                assert ord[1..][i] == ord[i + 1];
              }
            }
          }
          rest
  }

  // ---------------------------------------------------------------------
  // Reference definition: the sort key of a decodable row, compared
  // lexicographically.

  /** The value of one ordering column as it sorts: negated when descending. */
  function ColumnKey(c: ColumnOrder, d: Datum): int {
    var v := if d.Int? then d.value else 0;
    if c.direction == Descending then -v else v
  }

  function Key(ord: Ordering, r: Row): (k: seq<int>)
    requires Fits(ord, r)
    ensures |k| == |ord|
    decreases |ord|
  {
    if ord == [] then []
    else
      FitsTail(ord, r);
      [ColumnKey(ord[0], r[ord[0].colIdx])] + Key(ord[1..], r)
  }

  /** Lexicographic comparison of two keys of equal length. */
  function LexCmp(x: seq<int>, y: seq<int>): int
    requires |x| == |y|
    decreases |x|
  {
    if x == [] then 0
    else if x[0] < y[0] then -1
    else if x[0] > y[0] then 1
    else LexCmp(x[1..], y[1..])
  }

  /** Two keys compare equal exactly when they are the same key. */
  lemma {:induction false} LexCmpZeroIffEqual(x: seq<int>, y: seq<int>)
    requires |x| == |y|
    ensures LexCmp(x, y) == 0 <==> x == y
    decreases |x|
  {
    if x != [] {
      LexCmpZeroIffEqual(x[1..], y[1..]);
      if x[0] == y[0] && x[1..] == y[1..] {
        assert x == [x[0]] + x[1..] && y == [y[0]] + y[1..];
      }
    }
  }

  /** On decodable rows the comparator is the lexicographic comparison of
      their sort keys. */
  lemma {:induction false} CompareByKey(ord: Ordering, a: Row, b: Row)
    requires Fits(ord, a) && Fits(ord, b)
    requires Decodable(ord, a) && Decodable(ord, b)
    ensures CompareRows(ord, a, b) == Ok(LexCmp(Key(ord, a), Key(ord, b)))
    decreases |ord|
  {
    if ord != [] {
      FitsTail(ord, a);
      FitsTail(ord, b);
      forall i | 0 <= i < |ord[1..]|
        ensures a[ord[1..][i].colIdx].Int? && b[ord[1..][i].colIdx].Int?
      {
        assert ord[1..][i] == ord[i + 1];
      }
      CompareByKey(ord[1..], a, b);
      assert a[ord[0].colIdx].Int? && b[ord[0].colIdx].Int?;
      var ka := Key(ord, a);
      var kb := Key(ord, b);
      assert ka[1..] == Key(ord[1..], a);
      assert kb[1..] == Key(ord[1..], b);
    }
  }

  /** A decodable row compares equal to itself. */
  lemma {:induction false} CompareReflexive(ord: Ordering, a: Row)
    requires Fits(ord, a) && Decodable(ord, a)
    ensures CompareRows(ord, a, a) == Ok(0)
  {
    CompareByKey(ord, a, a);
    LexCmpZeroIffEqual(Key(ord, a), Key(ord, a));
  }

  /** Swapping the operands of a successful comparison negates its result. */
  lemma {:induction false} CompareAntisymmetric(ord: Ordering, a: Row, b: Row)
    requires Fits(ord, a) && Fits(ord, b)
    requires CompareRows(ord, a, b).Ok?
    ensures CompareRows(ord, b, a) == Ok(-CompareRows(ord, a, b).value)
    decreases |ord|
  {
    if ord != [] {
      FitsTail(ord, a);
      FitsTail(ord, b);
      var c := ord[0];
      var s := Sign(a[c.colIdx].value - b[c.colIdx].value);
      if s == 0 {
        CompareAntisymmetric(ord[1..], a, b);
      }
    }
  }

  /** Rows that compare equal are interchangeable as the left operand,
      including which decode error is reported. */
  lemma {:induction false} CompareLeftSubstitution(ord: Ordering, a: Row, b: Row, c: Row)
    requires Fits(ord, a) && Fits(ord, b) && Fits(ord, c)
    requires CompareRows(ord, a, b) == Ok(0)
    ensures CompareRows(ord, a, c) == CompareRows(ord, b, c)
    decreases |ord|
  {
    if ord != [] {
      FitsTail(ord, a);
      FitsTail(ord, b);
      FitsTail(ord, c);
      var col := ord[0].colIdx;
      assert a[col].Int? && b[col].Int?;
      assert a[col].value == b[col].value;
      CompareLeftSubstitution(ord[1..], a, b, c);
    }
  }

  /** Non-increasing steps compose, and the composition is strict when
      either step is. */
  lemma {:induction false} CompareTransitive(ord: Ordering, a: Row, b: Row, c: Row)
    requires Fits(ord, a) && Fits(ord, b) && Fits(ord, c)
    requires CompareRows(ord, a, b).Ok? && CompareRows(ord, a, b).value <= 0
    requires CompareRows(ord, b, c).Ok? && CompareRows(ord, b, c).value <= 0
    ensures CompareRows(ord, a, c).Ok? && CompareRows(ord, a, c).value <= 0
    ensures CompareRows(ord, a, b).value < 0 || CompareRows(ord, b, c).value < 0
            ==> CompareRows(ord, a, c).value < 0
    decreases |ord|
  {
    if ord != [] {
      FitsTail(ord, a);
      FitsTail(ord, b);
      FitsTail(ord, c);
      var col := ord[0].colIdx;
      assert a[col].Int? && b[col].Int? && c[col].Int?;
      if a[col].value == b[col].value && b[col].value == c[col].value {
        CompareTransitive(ord[1..], a, b, c);
      }
    }
  }

  // ---------------------------------------------------------------------
  // Sorted streams.

  /** Each row compares less than or equal to the next one. */
  predicate Sorted(ord: Ordering, rows: seq<Row>)
    requires AllFit(ord, rows)
  {
    forall i :: 0 <= i < |rows| - 1 ==>
      CompareRows(ord, rows[i], rows[i + 1]).Ok? && CompareRows(ord, rows[i], rows[i + 1]).value <= 0
  }

  lemma SortedSuffix(ord: Ordering, rows: seq<Row>, k: nat)
    requires AllFit(ord, rows) && Sorted(ord, rows) && k <= |rows|
    ensures AllFit(ord, rows[k..]) && Sorted(ord, rows[k..])
  {
    forall i | 0 <= i < |rows[k..]| - 1
      ensures CompareRows(ord, rows[k..][i], rows[k..][i + 1]).Ok?
      ensures CompareRows(ord, rows[k..][i], rows[k..][i + 1]).value <= 0
    {
      assert rows[k..][i] == rows[k + i] && rows[k..][i + 1] == rows[k + i + 1];
    }
  }

  /** Two sorted runs joined at a non-decreasing seam form a sorted run. */
  lemma SortedConcat(ord: Ordering, x: seq<Row>, y: seq<Row>)
    requires AllFit(ord, x) && AllFit(ord, y) && Sorted(ord, x) && Sorted(ord, y)
    requires x != [] && y != []
    requires CompareRows(ord, x[|x| - 1], y[0]).Ok? && CompareRows(ord, x[|x| - 1], y[0]).value <= 0
    ensures AllFit(ord, x + y) && Sorted(ord, x + y)
  {
    var z := x + y;
    forall i | 0 <= i < |z| - 1
      ensures CompareRows(ord, z[i], z[i + 1]).Ok? && CompareRows(ord, z[i], z[i + 1]).value <= 0
    {
      if i + 1 < |x| {
        assert z[i] == x[i] && z[i + 1] == x[i + 1];
      } else if i + 1 == |x| {
        assert z[i] == x[|x| - 1] && z[i + 1] == y[0];
      } else {
        assert z[i] == y[i - |x|] && z[i + 1] == y[i - |x| + 1];
      }
    }
  }
}
