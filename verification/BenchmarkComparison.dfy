/** Comparing reports the benchmark printed: the guarantees of the comparison apply to them without condition. */
module BenchmarkComparison {
  import opened Wrappers
  import opened Sums
  import opened ReportComparison
  import B = Benchmark

  lemma BenchmarkNamesSeparable(b: B.Bucket)
    ensures Separable(B.BucketName(b))
  {
    B.InitialsOf(b);
    SpacelessSeparable(B.BucketName(b));
  }

  predicate Distinct(ts: seq<B.DeviceType>) {
    forall i, j :: 0 <= i < j < |ts| ==> ts[i] != ts[j]
  }

  function TypeName(t: B.DeviceType): string { B.BucketName(Some(t)) }

  /** One printed row. */
  function PrintRow(row: B.Row, columns: seq<B.DeviceType>): seq<(string, int)>
    requires forall a :: a in columns ==> a in row
  {
    seq(|columns|, j requires 0 <= j < |columns| => (TypeName(columns[j]), row[columns[j]]))
  }

  /** `rows` and `columns` list the types of the matrix, once each. */
  ghost predicate Orders(matrix: map<B.DeviceType, B.Row>, rows: seq<B.DeviceType>, columns: seq<B.DeviceType>) {
    && Distinct(rows) && Distinct(columns)
    && (forall t :: t in rows <==> t in matrix)
    && (forall t :: t in matrix ==> forall a :: a in columns <==> a in matrix[t])
  }

  lemma {:induction false} Listed(ts: set<B.DeviceType>) returns (xs: seq<B.DeviceType>)
    ensures Distinct(xs) && forall t :: t in xs <==> t in ts
  {
    xs := [];
    if ts != {} {
      var t :| t in ts;
      var rest := Listed(ts - {t});
      xs := rest + [t];
    }
  }

  /** Every report can be printed: its rows all have the same columns. */
  lemma ReportHasOrder(ds: seq<B.Case>, expected: B.Expected) returns (rows: seq<B.DeviceType>, columns: seq<B.DeviceType>)
    ensures Orders(B.ReportOf(ds, expected).matrix, rows, columns)
  {
    var cells := B.Cells(ds, expected);
    rows := Listed(B.ExpectedTypes(cells));
    columns := Listed(B.ExpectedTypes(cells) + B.ActualTypes(cells));
  }

  /** The matrix as the report file holds it, in the order of its keys. */
  function PrintMatrix(matrix: map<B.DeviceType, B.Row>, rows: seq<B.DeviceType>, columns: seq<B.DeviceType>): seq<Row>
    requires forall t :: t in rows ==> t in matrix && forall a :: a in columns ==> a in matrix[t]
  {
    seq(|rows|, i requires 0 <= i < |rows| => Row(TypeName(rows[i]), Some(PrintRow(matrix[rows[i]], columns))))
  }

  /** A printed report balances, so comparing two of them adds up. */
  lemma PrintedBalances(matrix: map<B.DeviceType, B.Row>, rows: seq<B.DeviceType>, columns: seq<B.DeviceType>)
    requires Orders(matrix, rows, columns)
    ensures Balances(CellsOf(PrintMatrix(matrix, rows, columns)))
  {
    var printed := PrintMatrix(matrix, rows, columns);
    forall i | 0 <= i < |rows| ensures Separable(printed[i].expected) { BenchmarkNamesSeparable(Some(rows[i])); }
    forall i, j | 0 <= i < j < |rows| ensures printed[i].expected != printed[j].expected {
      if printed[i].expected == printed[j].expected { B.BucketNamesDiffer(Some(rows[i]), Some(rows[j])); }
    }
    forall i | 0 <= i < |rows| ensures DistinctKeys(printed[i].counts.value) {
      PrintedKeysDistinct(matrix[rows[i]], columns);
    }
    ParsedBalances(printed);
  }

  lemma PrintedKeysDistinct(row: B.Row, columns: seq<B.DeviceType>)
    requires Distinct(columns) && forall a :: a in columns ==> a in row
    ensures DistinctKeys(PrintRow(row, columns))
  {
    var printed := PrintRow(row, columns);
    forall i, j | 0 <= i < j < |columns| ensures printed[i].0 != printed[j].0 {
      if printed[i].0 == printed[j].0 { B.BucketNamesDiffer(Some(columns[i]), Some(columns[j])); }
    }
  }

  // ---- The comparison's total is the benchmark's ----

  lemma {:induction false} OffDiagonalJoin(a: seq<Cell>, b: seq<Cell>)
    ensures OffDiagonalTotal(a + b) == OffDiagonalTotal(a) + OffDiagonalTotal(b)
  {
    if b == [] {
      assert a + b == a;
    } else {
      OffDiagonalJoin(a, b[..|b| - 1]);
      assert (a + b)[..|a + b| - 1] == a + b[..|b| - 1];
    }
  }

  function RowSet(t: B.DeviceType, columns: seq<B.DeviceType>): set<B.Cell> {
    set a | a in columns && a != t :: B.Cell(Some(t), a)
  }

  function CellSet(rows: seq<B.DeviceType>, columns: seq<B.DeviceType>): set<B.Cell> {
    set t, a | t in rows && a in columns && t != a :: B.Cell(Some(t), a)
  }

  lemma TypeNamesDiffer(t: B.DeviceType, a: B.DeviceType)
    ensures TypeName(t) == TypeName(a) <==> t == a
  {
    if TypeName(t) == TypeName(a) { B.BucketNamesDiffer(Some(t), Some(a)); }
  }

  /** One more column adds its count to the set's total, unless it is the diagonal one. */
  lemma RowSetStep(t: B.DeviceType, init: seq<B.DeviceType>, last: B.DeviceType, f: B.Cell -> int)
    requires last !in init
    ensures Sum(RowSet(t, init + [last]), f) == Sum(RowSet(t, init), f) + if t != last then f(B.Cell(Some(t), last)) else 0
  {
    var before, after, c := RowSet(t, init), RowSet(t, init + [last]), B.Cell(Some(t), last);
    if t == last {
      assert after == before;
    } else {
      assert after == before + {c} && c !in before;
      SumTake(after, f, c);
      assert after - {c} == before;
    }
  }

  lemma PrintRowStep(row: B.Row, init: seq<B.DeviceType>, last: B.DeviceType, expected: string)
    requires forall a :: a in init + [last] ==> a in row
    ensures (forall a :: a in init ==> a in row) && last in row
    ensures RowCells(expected, PrintRow(row, init + [last]))
      == RowCells(expected, PrintRow(row, init)) + [Cell(expected, TypeName(last), row[last])]
  {
    assert forall a :: a in init ==> a in init + [last];
    assert last in init + [last];
    var printed := PrintRow(row, init + [last]);
    assert printed[..|init|] == PrintRow(row, init);
  }

  lemma {:induction false} RowTotal(t: B.DeviceType, row: B.Row, columns: seq<B.DeviceType>, f: B.Cell -> int)
    requires Distinct(columns) && forall a :: a in columns ==> a in row
    requires forall a :: a in columns ==> f(B.Cell(Some(t), a)) == row[a]
    ensures OffDiagonalTotal(RowCells(TypeName(t), PrintRow(row, columns))) == Sum(RowSet(t, columns), f)
  {
    if columns != [] {
      var init, last := columns[..|columns| - 1], columns[|columns| - 1];
      assert columns == init + [last] && last !in init && last in columns;
      RowTotal(t, row, init, f);
      PrintRowStep(row, init, last, TypeName(t));
      FlattenStep(RowCells(TypeName(t), PrintRow(row, init)), Cell(TypeName(t), TypeName(last), row[last]));
      TypeNamesDiffer(t, last);
      RowSetStep(t, init, last, f);
    }
  }

  lemma {:induction false} PrintedTotal(matrix: map<B.DeviceType, B.Row>, rows: seq<B.DeviceType>,
                                        columns: seq<B.DeviceType>, f: B.Cell -> int)
    requires Distinct(rows) && Distinct(columns)
    requires forall t :: t in rows ==> t in matrix && forall a :: a in columns ==> a in matrix[t]
    requires forall t, a :: t in rows && a in columns ==> f(B.Cell(Some(t), a)) == matrix[t][a]
    ensures OffDiagonalTotal(CellsOf(PrintMatrix(matrix, rows, columns))) == Sum(CellSet(rows, columns), f)
  {
    if rows != [] {
      var init, last := rows[..|rows| - 1], rows[|rows| - 1];
      var printed := PrintMatrix(matrix, rows, columns);
      assert rows == init + [last] && last !in init;
      assert printed[..|rows| - 1] == PrintMatrix(matrix, init, columns);
      PrintedTotal(matrix, init, columns, f);
      RowTotal(last, matrix[last], columns, f);
      OffDiagonalJoin(CellsOf(PrintMatrix(matrix, init, columns)),
                      RowCells(TypeName(last), PrintRow(matrix[last], columns)));
      assert CellSet(rows, columns) == CellSet(init, columns) + RowSet(last, columns);
      SumJoin(CellSet(init, columns), RowSet(last, columns), f);
    }
  }

  /** What the comparison totals for a printed benchmark report, together with its MISSING bucket, is the
      benchmark's own incorrect count. */
  lemma ComparedTotalIsIncorrect(ds: seq<B.Case>, expected: B.Expected, rows: seq<B.DeviceType>,
                                 columns: seq<B.DeviceType>)
    requires Orders(B.ReportOf(ds, expected).matrix, rows, columns)
    ensures var r := B.ReportOf(ds, expected);
      OffDiagonalTotal(CellsOf(PrintMatrix(r.matrix, rows, columns)))
        + Sum(B.MissingBucket(r), B.MisclassifiedAt(r)) == r.incorrect
  {
    var r := B.ReportOf(ds, expected);
    PrintedTotal(r.matrix, rows, columns, B.MatrixAt(r));
    assert CellSet(rows, columns) == B.OffDiagonal(r);
    B.OffDiagonalAndMissingAreIncorrect(ds, expected);
  }
}
