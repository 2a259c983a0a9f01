/** The benchmark runner's accounting: four structures updated side by side in one loop. */
module Benchmark {
  import opened Wrappers
  import opened Sums

  datatype DeviceType =
    | UNKNOWN | ROUTER | SWITCH | FIREWALL | SERVER | WORKSTATION
    | PRINTER | PHONE | ACCESS_POINT | HYPERVISOR | CAMERA

  /** The expected type of a device; `None` when none was given, which reports print as MISSING. */
  type Bucket = Option<DeviceType>

  /** The key a bucket has in a report. */
  function BucketName(b: Bucket): string {
    match b
    case None => "MISSING"
    case Some(UNKNOWN) => "UNKNOWN"
    case Some(ROUTER) => "ROUTER"
    case Some(SWITCH) => "SWITCH"
    case Some(FIREWALL) => "FIREWALL"
    case Some(SERVER) => "SERVER"
    case Some(WORKSTATION) => "WORKSTATION"
    case Some(PRINTER) => "PRINTER"
    case Some(PHONE) => "PHONE"
    case Some(ACCESS_POINT) => "ACCESS_POINT"
    case Some(HYPERVISOR) => "HYPERVISOR"
    case Some(CAMERA) => "CAMERA"
  }

  function Initials(b: Bucket): (char, char) {
    match b
    case None => ('M', 'I')
    case Some(UNKNOWN) => ('U', 'N')
    case Some(ROUTER) => ('R', 'O')
    case Some(SWITCH) => ('S', 'W')
    case Some(FIREWALL) => ('F', 'I')
    case Some(SERVER) => ('S', 'E')
    case Some(WORKSTATION) => ('W', 'O')
    case Some(PRINTER) => ('P', 'R')
    case Some(PHONE) => ('P', 'H')
    case Some(ACCESS_POINT) => ('A', 'C')
    case Some(HYPERVISOR) => ('H', 'Y')
    case Some(CAMERA) => ('C', 'A')
  }

  lemma InitialsOf(b: Bucket)
    ensures |BucketName(b)| >= 2 && (BucketName(b)[0], BucketName(b)[1]) == Initials(b)
    ensures ' ' !in BucketName(b)
  {
  }

  /** No device type shares its name with another or with the MISSING bucket, so keying the books by bucket
      is keying them by name. */
  lemma BucketNamesDiffer(a: Bucket, b: Bucket)
    requires BucketName(a) == BucketName(b)
    ensures a == b
  {
    InitialsOf(a);
    InitialsOf(b);
  }

  /** What one device adds to the books. */
  datatype Cell = Cell(expected: Bucket, actual: DeviceType)

  /** A device with the type the classifier gave it. */
  datatype Case = Case(ip: string, hostname: Option<string>, predicted: DeviceType)

  type Expected = map<string, DeviceType>

  function CellOf(d: Case, expected: Expected): Cell {
    Cell(if d.ip in expected then Some(expected[d.ip]) else None, d.predicted)
  }

  predicate Known(c: Cell) { c.expected.Some? }

  predicate Correct(c: Cell) { c.expected == Some(c.actual) }

  predicate Wrong(c: Cell) { !Correct(c) }

  function Cells(ds: seq<Case>, expected: Expected): seq<Cell> {
    if ds == [] then [] else Cells(ds[..|ds| - 1], expected) + [CellOf(ds[|ds| - 1], expected)]
  }

  function Keep(cells: seq<Cell>, p: Cell -> bool): seq<Cell> {
    if cells == [] then []
    else
      var kept := Keep(cells[..|cells| - 1], p);
      if p(cells[|cells| - 1]) then kept + [cells[|cells| - 1]] else kept
  }

  // ---- Nested counters ----

  type Row = map<DeviceType, nat>

  type Table = map<Bucket, Row>

  function At(t: Table, c: Cell): nat {
    if Listed(t, c) then t[c.expected][c.actual] else 0
  }

  predicate Listed(t: Table, c: Cell) {
    c.expected in t && c.actual in t[c.expected]
  }

  /** `row = table.setdefault(expected, {}); row[actual] = row.get(actual, 0) + 1`. */
  function Bump(t: Table, c: Cell): Table {
    var row := if c.expected in t then t[c.expected] else map[];
    t[c.expected := row[c.actual := (if c.actual in row then row[c.actual] else 0) + 1]]
  }

  lemma BumpExact(t: Table, c: Cell, d: Cell)
    ensures At(Bump(t, c), d) == At(t, d) + (if c == d then 1 else 0)
    ensures Listed(Bump(t, c), d) <==> Listed(t, d) || c == d
    ensures d.expected in Bump(t, c) <==> d.expected in t || c.expected == d.expected
  {
  }

  function Tabulate(cells: seq<Cell>): Table {
    if cells == [] then map[] else Bump(Tabulate(cells[..|cells| - 1]), cells[|cells| - 1])
  }

  ghost predicate HasRow(cells: seq<Cell>, b: Bucket) {
    exists c :: c in cells && c.expected == b
  }

  lemma HasRowStep(init: seq<Cell>, last: Cell, b: Bucket)
    ensures HasRow(init + [last], b) <==> HasRow(init, b) || last.expected == b
  {
    assert last in init + [last] && forall c :: c in init ==> c in init + [last];
  }

  /** A table entry is the multiplicity of its cell; entries and rows exist exactly where something was counted. */
  lemma {:induction false} TabulateExact(cells: seq<Cell>, d: Cell)
    ensures At(Tabulate(cells), d) == multiset(cells)[d]
    ensures Listed(Tabulate(cells), d) <==> d in cells
    ensures d.expected in Tabulate(cells) <==> HasRow(cells, d.expected)
  {
    if cells != [] {
      var init, last := cells[..|cells| - 1], cells[|cells| - 1];
      assert cells == init + [last];
      TabulateExact(init, d);
      BumpExact(Tabulate(init), last, d);
      HasRowStep(init, last, d.expected);
    }
  }

  // ---- Sums over sets of cells ----

  /** How many of the cells lie in `s`. */
  function CountIn(cells: seq<Cell>, s: set<Cell>): nat {
    if cells == [] then 0
    else CountIn(cells[..|cells| - 1], s) + if cells[|cells| - 1] in s then 1 else 0
  }

  function Multiplicity(cells: seq<Cell>): Cell -> int {
    (c: Cell) => multiset(cells)[c]
  }

  lemma MultiplicityStep(init: seq<Cell>, last: Cell, c: Cell)
    ensures Multiplicity(init + [last])(c) == Multiplicity(init)(c) + (if c == last then 1 else 0)
  {
  }

  /** Adding up multiplicities over a set of cells counts the devices that fell into it. */
  lemma {:induction false} SumOfMultiplicities(cells: seq<Cell>, s: set<Cell>)
    ensures Sum(s, Multiplicity(cells)) == CountIn(cells, s)
  {
    if cells == [] {
      SumOfNone(s, Multiplicity(cells));
    } else {
      var init, last := cells[..|cells| - 1], cells[|cells| - 1];
      assert cells == init + [last];
      SumOfMultiplicities(init, s);
      forall c ensures Multiplicity(cells)(c) == Multiplicity(init)(c) + (if c == last then 1 else 0) {
        MultiplicityStep(init, last, c);
      }
      if last in s {
        SumBump(s, Multiplicity(init), Multiplicity(cells), last);
      } else {
        SumSame(s, Multiplicity(cells), Multiplicity(init));
      }
    }
  }

  // ---- The books ----

  datatype Tally = Tally(total: nat, correct: nat, incorrect: nat)

  function NewTally(ts: map<DeviceType, Tally>, t: DeviceType): Tally {
    if t in ts then ts[t] else Tally(0, 0, 0)
  }

  function Summarized(ts: map<DeviceType, Tally>, c: Cell): map<DeviceType, Tally> {
    if !Known(c) then ts
    else
      var t := NewTally(ts, c.expected.value);
      ts[c.expected.value :=
        Tally(t.total + 1, if Correct(c) then t.correct + 1 else t.correct,
              if Correct(c) then t.incorrect else t.incorrect + 1)]
  }

  function Summaries(cells: seq<Cell>): map<DeviceType, Tally> {
    if cells == [] then map[] else Summarized(Summaries(cells[..|cells| - 1]), cells[|cells| - 1])
  }

  datatype Mismatch = Mismatch(ip: string, hostname: Option<string>, expected: Bucket, actual: DeviceType)

  function NewMismatches(d: Case, c: Cell): seq<Mismatch> {
    if Correct(c) then [] else [Mismatch(d.ip, d.hostname, c.expected, c.actual)]
  }

  function Mismatches(ds: seq<Case>, expected: Expected): seq<Mismatch> {
    if ds == [] then []
    else
      Mismatches(ds[..|ds| - 1], expected) + NewMismatches(ds[|ds| - 1], CellOf(ds[|ds| - 1], expected))
  }

  datatype Report = Report(
    total: nat, correct: nat, incorrect: int, summary: map<DeviceType, Tally>,
    matrix: map<DeviceType, Row>, misclassified: Table, mismatches: seq<Mismatch>)

  function ExpectedTypes(cells: seq<Cell>): set<DeviceType> {
    set c | c in cells && Known(c) :: c.expected.value
  }

  function ActualTypes(cells: seq<Cell>): set<DeviceType> {
    set c | c in cells && Known(c) :: c.actual
  }

  /** The printed matrix: a row per expected type, a column per type seen on either side, zeros filled in. */
  function Matrix(counts: Table, rows: set<DeviceType>, columns: set<DeviceType>): map<DeviceType, Row> {
    map e | e in rows :: map a | a in columns :: At(counts, Cell(Some(e), a))
  }

  function ReportOf(ds: seq<Case>, expected: Expected): Report {
    var cells := Cells(ds, expected);
    var correct := |Keep(cells, Correct)|;
    Report(|ds|, correct, |ds| - correct, Summaries(cells),
      Matrix(Tabulate(Keep(cells, Known)), ExpectedTypes(cells), ExpectedTypes(cells) + ActualTypes(cells)),
      Tabulate(Keep(cells, Wrong)), Mismatches(ds, expected))
  }

  // ---- The accounts agree ----

  function MatrixAt(r: Report): Cell -> int {
    (c: Cell) =>
      if c.expected.Some? && c.expected.value in r.matrix && c.actual in r.matrix[c.expected.value]
      then r.matrix[c.expected.value][c.actual] else 0
  }

  function MisclassifiedAt(r: Report): Cell -> int {
    (c: Cell) => At(r.misclassified, c)
  }

  lemma {:induction false} KeepMultiplicity(cells: seq<Cell>, p: Cell -> bool, c: Cell)
    ensures multiset(Keep(cells, p))[c] == if p(c) then multiset(cells)[c] else 0
    ensures c in Keep(cells, p) <==> c in cells && p(c)
  {
    if cells != [] {
      KeepMultiplicity(cells[..|cells| - 1], p, c);
      assert cells == cells[..|cells| - 1] + [cells[|cells| - 1]];
    }
  }

  lemma {:induction false} KeepPartition(cells: seq<Cell>)
    ensures |Keep(cells, Correct)| + |Keep(cells, Wrong)| == |cells|
  {
    if cells != [] { KeepPartition(cells[..|cells| - 1]); }
  }

  lemma {:induction false} CountInIsKeep(cells: seq<Cell>, s: set<Cell>, p: Cell -> bool)
    requires forall c :: c in cells ==> (c in s <==> p(c))
    ensures CountIn(cells, s) == |Keep(cells, p)|
  {
    if cells != [] {
      var init := cells[..|cells| - 1];
      assert forall c :: c in init ==> c in cells;
      CountInIsKeep(init, s, p);
    }
  }

  lemma TypesOf(cells: seq<Cell>, c: Cell)
    requires c in cells && Known(c)
    ensures c.expected.value in ExpectedTypes(cells) && c.actual in ActualTypes(cells)
  {
  }

  lemma MatrixAtCell(counts: Table, rows: set<DeviceType>, columns: set<DeviceType>, r: Report, c: Cell)
    requires Known(c) && r.matrix == Matrix(counts, rows, columns)
    ensures MatrixAt(r)(c) == if c.expected.value in rows && c.actual in columns then At(counts, c) else 0
  {
  }

  lemma MatrixExact(ds: seq<Case>, expected: Expected, c: Cell)
    requires Known(c)
    ensures MatrixAt(ReportOf(ds, expected))(c) == multiset(Cells(ds, expected))[c]
    ensures c in Cells(ds, expected) ==>
      c.expected.value in ReportOf(ds, expected).matrix && c.actual in ReportOf(ds, expected).matrix[c.expected.value]
  {
    var cells := Cells(ds, expected);
    var counts := Tabulate(Keep(cells, Known));
    TabulateExact(Keep(cells, Known), c);
    KeepMultiplicity(cells, Known, c);
    var rows, columns := ExpectedTypes(cells), ExpectedTypes(cells) + ActualTypes(cells);
    MatrixAtCell(counts, rows, columns, ReportOf(ds, expected), c);
    if c in cells { TypesOf(cells, c); }
  }

  lemma MisclassifiedExact(ds: seq<Case>, expected: Expected, c: Cell)
    ensures MisclassifiedAt(ReportOf(ds, expected))(c) == if Wrong(c) then multiset(Cells(ds, expected))[c] else 0
    ensures Listed(ReportOf(ds, expected).misclassified, c) <==> Wrong(c) && c in Cells(ds, expected)
  {
    var cells := Cells(ds, expected);
    TabulateExact(Keep(cells, Wrong), c);
    KeepMultiplicity(cells, Wrong, c);
  }

  function Diagonal(r: Report): (s: set<Cell>)
    ensures forall c :: c in s <==> Correct(c) && c.actual in r.matrix
  {
    set t | t in r.matrix :: Cell(Some(t), t)
  }

  function OffDiagonal(r: Report): (s: set<Cell>)
    ensures forall c :: c in s <==>
      Known(c) && Wrong(c) && c.expected.value in r.matrix && c.actual in r.matrix[c.expected.value]
  {
    set e, a | e in r.matrix && a in r.matrix[e] && e != a :: Cell(Some(e), a)
  }

  function MissingBucket(r: Report): (s: set<Cell>)
    ensures forall c :: c in s <==> c.expected.None? && Listed(r.misclassified, c)
  {
    if None in r.misclassified then set a | a in r.misclassified[None] :: Cell(None, a) else {}
  }

  function RowCells(r: Report, t: DeviceType): (s: set<Cell>)
    ensures forall c :: c in s <==> c.expected == Some(t) && t in r.matrix && c.actual in r.matrix[t]
  {
    if t in r.matrix then set a | a in r.matrix[t] :: Cell(Some(t), a) else {}
  }

  lemma SumOfMatrix(ds: seq<Case>, expected: Expected, s: set<Cell>)
    requires forall c :: c in s ==> Known(c)
    ensures Sum(s, MatrixAt(ReportOf(ds, expected))) == CountIn(Cells(ds, expected), s)
  {
    var f, g := MatrixAt(ReportOf(ds, expected)), Multiplicity(Cells(ds, expected));
    forall c | c in s ensures f(c) == g(c) { MatrixExact(ds, expected, c); }
    SumSame(s, f, g);
    SumOfMultiplicities(Cells(ds, expected), s);
  }

  /** The matrix diagonal adds up to the number of correct classifications. */
  lemma DiagonalIsCorrect(ds: seq<Case>, expected: Expected)
    ensures var r := ReportOf(ds, expected); Sum(Diagonal(r), MatrixAt(r)) == r.correct
  {
    var r, cells := ReportOf(ds, expected), Cells(ds, expected);
    SumOfMatrix(ds, expected, Diagonal(r));
    forall c | c in cells ensures c in Diagonal(r) <==> Correct(c) {
      if Correct(c) { MatrixExact(ds, expected, c); }
    }
    CountInIsKeep(cells, Diagonal(r), Correct);
  }

  lemma {:induction false} CellsLength(ds: seq<Case>, expected: Expected)
    ensures |Cells(ds, expected)| == |ds|
  {
    if ds != [] { CellsLength(ds[..|ds| - 1], expected); }
  }

  function MismatchCells(ms: seq<Mismatch>): seq<Cell> {
    seq(|ms|, i requires 0 <= i < |ms| => Cell(ms[i].expected, ms[i].actual))
  }

  /** The mismatch list names exactly the wrong classifications, in order. */
  lemma {:induction false} MismatchesExact(ds: seq<Case>, expected: Expected)
    ensures MismatchCells(Mismatches(ds, expected)) == Keep(Cells(ds, expected), Wrong)
  {
    if ds != [] { MismatchesExact(ds[..|ds| - 1], expected); }
  }

  /** Off-diagonal cells and the MISSING bucket add up to the incorrect count, which is the number of mismatches. */
  lemma OffDiagonalAndMissingAreIncorrect(ds: seq<Case>, expected: Expected)
    ensures var r := ReportOf(ds, expected);
      Sum(OffDiagonal(r), MatrixAt(r)) + Sum(MissingBucket(r), MisclassifiedAt(r)) == r.incorrect == |r.mismatches|
  {
    var r, cells := ReportOf(ds, expected), Cells(ds, expected);
    var off, missing := OffDiagonal(r), MissingBucket(r);
    SumOfMatrix(ds, expected, off);
    forall c | c in missing ensures MisclassifiedAt(r)(c) == Multiplicity(cells)(c) {
      MisclassifiedExact(ds, expected, c);
    }
    SumSame(missing, MisclassifiedAt(r), Multiplicity(cells));
    SumOfMultiplicities(cells, off);
    SumJoin(off, missing, Multiplicity(cells));
    SumOfMultiplicities(cells, off + missing);
    forall c | c in cells ensures c in off + missing <==> Wrong(c) {
      MisclassifiedExact(ds, expected, c);
      if Known(c) { MatrixExact(ds, expected, c); }
    }
    CountInIsKeep(cells, off + missing, Wrong);
    KeepPartition(cells);
    CellsLength(ds, expected);
    MismatchesExact(ds, expected);
  }

  function OfType(t: DeviceType): Cell -> bool {
    (c: Cell) => c.expected == Some(t)
  }

  lemma {:induction false} SummariesExact(cells: seq<Cell>, t: DeviceType)
    ensures t in Summaries(cells) <==> HasRow(cells, Some(t))
    ensures NewTally(Summaries(cells), t).total == |Keep(cells, OfType(t))|
    ensures NewTally(Summaries(cells), t).correct == multiset(cells)[Cell(Some(t), t)]
    ensures var y := NewTally(Summaries(cells), t); y.total == y.correct + y.incorrect
  {
    if cells != [] {
      var init, last := cells[..|cells| - 1], cells[|cells| - 1];
      assert cells == init + [last];
      SummariesExact(init, t);
      HasRowStep(init, last, Some(t));
    }
  }

  /** The per-type totals are the row sums of the matrix, and split into its diagonal entry and the rest. */
  lemma SummaryIsRowSums(ds: seq<Case>, expected: Expected, t: DeviceType)
    ensures var r := ReportOf(ds, expected); t in r.summary <==> t in r.matrix
    ensures var r := ReportOf(ds, expected); t in r.summary ==>
      r.summary[t].total == Sum(RowCells(r, t), MatrixAt(r))
    ensures var r := ReportOf(ds, expected); t in r.summary ==>
      r.summary[t].correct == MatrixAt(r)(Cell(Some(t), t))
      && r.summary[t].total == r.summary[t].correct + r.summary[t].incorrect
  {
    var r, cells := ReportOf(ds, expected), Cells(ds, expected);
    SummariesExact(cells, t);
    MatrixExact(ds, expected, Cell(Some(t), t));
    SumOfMatrix(ds, expected, RowCells(r, t));
    forall c | c in cells ensures c in RowCells(r, t) <==> OfType(t)(c) {
      if Known(c) { MatrixExact(ds, expected, c); }
    }
    CountInIsKeep(cells, RowCells(r, t), OfType(t));
  }

  /** Apart from MISSING, the misclassification summary is the non-zero off-diagonal part of the matrix. */
  lemma MisclassifiedIsOffDiagonal(ds: seq<Case>, expected: Expected, c: Cell)
    requires Known(c)
    ensures var r := ReportOf(ds, expected);
      Listed(r.misclassified, c) <==> c in OffDiagonal(r) && MatrixAt(r)(c) > 0
    ensures var r := ReportOf(ds, expected);
      Listed(r.misclassified, c) ==> At(r.misclassified, c) == MatrixAt(r)(c)
  {
    MatrixExact(ds, expected, c);
    MisclassifiedExact(ds, expected, c);
  }

  // ---- The loop ----

  lemma KeepStep(seen: seq<Cell>, c: Cell, p: Cell -> bool)
    ensures Keep(seen + [c], p) == if p(c) then Keep(seen, p) + [c] else Keep(seen, p)
  {
    assert (seen + [c])[..|seen|] == seen;
  }

  lemma TabulateStep(seen: seq<Cell>, c: Cell)
    ensures Tabulate(seen + [c]) == Bump(Tabulate(seen), c)
  {
    assert (seen + [c])[..|seen|] == seen;
  }

  lemma TypesStep(seen: seq<Cell>, c: Cell)
    ensures ExpectedTypes(seen + [c]) == if Known(c) then ExpectedTypes(seen) + {c.expected.value} else ExpectedTypes(seen)
    ensures ActualTypes(seen + [c]) == if Known(c) then ActualTypes(seen) + {c.actual} else ActualTypes(seen)
  {
    forall d | d in seen + [c] ensures d in seen || d == c {}
    assert c in seen + [c] && forall d :: d in seen ==> d in seen + [c];
  }

  lemma SummariesStep(seen: seq<Cell>, c: Cell)
    ensures Summaries(seen + [c]) == Summarized(Summaries(seen), c)
  {
    assert (seen + [c])[..|seen|] == seen;
  }

  lemma DeviceStep(ds: seq<Case>, i: nat, expected: Expected)
    requires i < |ds|
    ensures Cells(ds[..i + 1], expected) == Cells(ds[..i], expected) + [CellOf(ds[i], expected)]
    ensures Mismatches(ds[..i + 1], expected)
      == Mismatches(ds[..i], expected) + NewMismatches(ds[i], CellOf(ds[i], expected))
  {
    assert ds[..i + 1][..i] == ds[..i];
  }

  /** The per-type counters of one device. */
  method Summarize(summary: map<DeviceType, Tally>, c: Cell) returns (after: map<DeviceType, Tally>)
    ensures after == Summarized(summary, c)
  {
    after := summary;
    if c.expected.None? { return; }
    var t := c.expected.value;
    if t !in after { after := after[t := Tally(0, 0, 0)]; }
    after := after[t := after[t].(total := after[t].total + 1)];
    if c.expected == Some(c.actual) {
      after := after[t := after[t].(correct := after[t].correct + 1)];
    } else {
      after := after[t := after[t].(incorrect := after[t].incorrect + 1)];
    }
  }

  /** The matrix counters of one device that has an expected type. */
  method CountExpected(c: Cell, counts: Table, expectedTypes: set<DeviceType>, actualTypes: set<DeviceType>,
                       ghost seen: seq<Cell>)
      returns (counts': Table, expectedTypes': set<DeviceType>, actualTypes': set<DeviceType>)
    requires counts == Tabulate(Keep(seen, Known))
    requires expectedTypes == ExpectedTypes(seen) && actualTypes == ActualTypes(seen)
    ensures counts' == Tabulate(Keep(seen + [c], Known))
    ensures expectedTypes' == ExpectedTypes(seen + [c]) && actualTypes' == ActualTypes(seen + [c])
  {
    counts', expectedTypes', actualTypes' := counts, expectedTypes, actualTypes;
    KeepStep(seen, c, Known);
    TabulateStep(Keep(seen, Known), c);
    TypesStep(seen, c);
    if c.expected.Some? {
      expectedTypes' := expectedTypes' + {c.expected.value};
      actualTypes' := actualTypes' + {c.actual};
      counts' := Bump(counts', c);
    }
  }

  method RunBenchmark(ds: seq<Case>, expected: Expected) returns (report: Report)
    ensures report == ReportOf(ds, expected)
  {
    var correct := 0;
    var summary: map<DeviceType, Tally> := map[];
    var counts: Table := map[];
    var expectedTypes: set<DeviceType>, actualTypes: set<DeviceType> := {}, {};
    var misclassified: Table := map[];
    var mismatches: seq<Mismatch> := [];
    ghost var seen: seq<Cell> := [];
    for i := 0 to |ds|
      invariant seen == Cells(ds[..i], expected) && mismatches == Mismatches(ds[..i], expected)
      invariant correct == |Keep(seen, Correct)| && summary == Summaries(seen)
      invariant counts == Tabulate(Keep(seen, Known)) && misclassified == Tabulate(Keep(seen, Wrong))
      invariant expectedTypes == ExpectedTypes(seen) && actualTypes == ActualTypes(seen)
    {
      var c := CellOf(ds[i], expected);
      DeviceStep(ds, i, expected);
      SummariesStep(seen, c);
      summary := Summarize(summary, c);
      counts, expectedTypes, actualTypes := CountExpected(c, counts, expectedTypes, actualTypes, seen);
      KeepStep(seen, c, Correct);
      KeepStep(seen, c, Wrong);
      TabulateStep(Keep(seen, Wrong), c);
      seen := seen + [c];
      if c.expected == Some(c.actual) {
        correct := correct + 1;
        continue;
      }
      misclassified := Bump(misclassified, c);
      mismatches := mismatches + [Mismatch(ds[i].ip, ds[i].hostname, c.expected, c.actual)];
    }
    assert ds[..|ds|] == ds;
    report := Report(|ds|, correct, |ds| - correct, summary, Matrix(counts, expectedTypes, expectedTypes + actualTypes),
                     misclassified, mismatches);
  }
}
