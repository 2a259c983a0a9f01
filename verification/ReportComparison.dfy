/** Comparing two benchmark reports through their flattened confusion matrices. */
module ReportComparison {
  import opened Wrappers
  import opened Sums

  // ---- Flattened keys ----

  const SEPARATOR := " -> "

  function FlatKey(expected: string, actual: string): string {
    expected + SEPARATOR + actual
  }

  predicate SeparatorAt(s: string, i: nat) {
    i + 4 <= |s| && s[i] == ' ' && s[i + 1] == '-' && s[i + 2] == '>' && s[i + 3] == ' '
  }

  /** `key.split(" -> ", maxsplit=1)`; nothing when there is no separator to split at. */
  function SplitOnce(s: string): Option<(string, string)> {
    if SeparatorAt(s, 0) then Some(("", s[4..]))
    else if s == "" then None
    else
      var rest :- SplitOnce(s[1..]);
      Some(([s[0]] + rest.0, rest.1))
  }

  /** No separator inside the name, and none half-written at its end. */
  predicate Separable(name: string) {
    && (forall i :: 0 <= i < |name| ==> !SeparatorAt(name, i))
    && !(|name| >= 3 && name[|name| - 3] == ' ' && name[|name| - 2] == '-' && name[|name| - 1] == '>')
  }

  lemma {:induction false} SplitFindsFirst(s: string, i: nat)
    requires SeparatorAt(s, i)
    ensures SplitOnce(s).Some? && |SplitOnce(s).value.0| <= i
  {
    if !SeparatorAt(s, 0) {
      assert SeparatorAt(s[1..], i - 1);
      SplitFindsFirst(s[1..], i - 1);
    }
  }

  lemma SeparableTail(name: string)
    requires Separable(name) && name != ""
    ensures Separable(name[1..])
  {
    var tail := name[1..];
    forall i | 0 <= i < |tail| ensures !SeparatorAt(tail, i) {
      assert !SeparatorAt(name, i + 1);
    }
  }

  lemma FlatKeyStart(expected: string, actual: string)
    requires Separable(expected) && expected != ""
    ensures !SeparatorAt(FlatKey(expected, actual), 0)
  {
    var s := FlatKey(expected, actual);
    if SeparatorAt(s, 0) {
      assert s[|expected|] == ' ' && s[|expected| + 1] == '-';
      assert |expected| >= 4 ==> SeparatorAt(expected, 0);
    }
  }

  lemma {:induction false} SeparableSplits(expected: string, actual: string)
    requires Separable(expected)
    ensures SplitOnce(FlatKey(expected, actual)) == Some((expected, actual))
  {
    var s := FlatKey(expected, actual);
    if expected == "" {
      assert s[4..] == actual;
    } else {
      FlatKeyStart(expected, actual);
      SeparableTail(expected);
      SeparableSplits(expected[1..], actual);
      assert s[1..] == FlatKey(expected[1..], actual);
      assert [expected[0]] + expected[1..] == expected;
    }
  }

  /** Splitting a flattened key gives back the two names exactly when the first name is separable; that it
      contains no separator is not enough, as a name ending in the separator's first three characters shows. */
  lemma SplitInverts(expected: string, actual: string)
    ensures SplitOnce(FlatKey(expected, actual)) == Some((expected, actual)) <==> Separable(expected)
  {
    var s := FlatKey(expected, actual);
    if Separable(expected) {
      SeparableSplits(expected, actual);
    } else if i :| 0 <= i < |expected| && SeparatorAt(expected, i) {
      assert SeparatorAt(s, i);
      SplitFindsFirst(s, i);
    } else {
      assert s[|expected|] == ' ';
      assert SeparatorAt(s, |expected| - 3);
      SplitFindsFirst(s, |expected| - 3);
    }
  }

  /** Names without spaces, such as every device type name, are separable. */
  lemma SpacelessSeparable(name: string)
    requires ' ' !in name
    ensures Separable(name)
  {
  }

  lemma HalfSeparatorFails()
    ensures (forall i :: 0 <= i < 4 ==> !SeparatorAt("A ->", i)) && !Separable("A ->")
    ensures FlatKey("A ->", "B") == FlatKey("A", "-> B")
  {
    var name := "A ->";
    assert name[1] == ' ' && name[2] == '-' && name[3] == '>';
  }

  // ---- The matrix of a report ----

  datatype Cell = Cell(expected: string, actual: string, count: int)

  /** One row of the parsed matrix; `None` stands for a value that is not an object, which is skipped. */
  datatype Row = Row(expected: string, counts: Option<seq<(string, int)>>)

  function RowCells(expected: string, counts: seq<(string, int)>): seq<Cell> {
    if counts == [] then []
    else
      var (actual, count) := counts[|counts| - 1];
      RowCells(expected, counts[..|counts| - 1]) + [Cell(expected, actual, count)]
  }

  function CellsOf(rows: seq<Row>): seq<Cell> {
    if rows == [] then []
    else
      var row := rows[|rows| - 1];
      CellsOf(rows[..|rows| - 1]) + match row.counts { case Some(cs) => RowCells(row.expected, cs) case None => [] }
  }

  /** Keys of one object are distinct, so no cell is listed twice. */
  predicate DistinctCells(cells: seq<Cell>) {
    forall i, j :: 0 <= i < j < |cells| ==> (cells[i].expected, cells[i].actual) != (cells[j].expected, cells[j].actual)
  }

  predicate AllSeparable(cells: seq<Cell>) {
    forall i :: 0 <= i < |cells| ==> Separable(cells[i].expected)
  }

  predicate DistinctKeys(counts: seq<(string, int)>) {
    forall i, j :: 0 <= i < j < |counts| ==> counts[i].0 != counts[j].0
  }

  /** What a JSON parser delivers: no key twice in any object. */
  predicate WellFormed(rows: seq<Row>) {
    && (forall i, j :: 0 <= i < j < |rows| ==> rows[i].expected != rows[j].expected)
    && (forall i :: 0 <= i < |rows| && rows[i].counts.Some? ==> DistinctKeys(rows[i].counts.value))
  }

  lemma {:induction false} RowCellsExact(expected: string, counts: seq<(string, int)>)
    requires DistinctKeys(counts)
    ensures |RowCells(expected, counts)| == |counts|
    ensures forall i :: 0 <= i < |counts| ==>
      RowCells(expected, counts)[i] == Cell(expected, counts[i].0, counts[i].1)
    ensures DistinctCells(RowCells(expected, counts))
  {
    if counts != [] { RowCellsExact(expected, counts[..|counts| - 1]); }
  }

  lemma {:induction false} CellsNamed(rows: seq<Row>, c: Cell)
    requires WellFormed(rows) && c in CellsOf(rows)
    ensures exists i :: 0 <= i < |rows| && rows[i].expected == c.expected
  {
    var init, row := rows[..|rows| - 1], rows[|rows| - 1];
    if c in CellsOf(init) {
      CellsNamed(init, c);
    } else {
      RowCellsExact(row.expected, row.counts.value);
    }
  }

  lemma JoinDistinct(a: seq<Cell>, b: seq<Cell>)
    requires DistinctCells(a) && DistinctCells(b)
    requires forall i, j :: 0 <= i < |a| && 0 <= j < |b| ==> a[i].expected != b[j].expected
    ensures DistinctCells(a + b)
  {
  }

  /** A parsed matrix lists no cell twice. */
  lemma {:induction false} WellFormedDistinct(rows: seq<Row>)
    requires WellFormed(rows)
    ensures DistinctCells(CellsOf(rows))
  {
    if rows != [] {
      var init, row := rows[..|rows| - 1], rows[|rows| - 1];
      WellFormedDistinct(init);
      if row.counts.Some? {
        var a, b := CellsOf(init), RowCells(row.expected, row.counts.value);
        RowCellsExact(row.expected, row.counts.value);
        forall i, j | 0 <= i < |a| && 0 <= j < |b| ensures a[i].expected != b[j].expected {
          CellsNamed(init, a[i]);
        }
        JoinDistinct(a, b);
      }
    }
  }

  type Flat = map<string, int>

  function Flatten(cells: seq<Cell>): Flat {
    if cells == [] then map[]
    else
      var c := cells[|cells| - 1];
      Flatten(cells[..|cells| - 1])[FlatKey(c.expected, c.actual) := c.count]
  }

  function OffDiagonalTotal(cells: seq<Cell>): int {
    if cells == [] then 0
    else
      var c := cells[|cells| - 1];
      OffDiagonalTotal(cells[..|cells| - 1]) + if c.expected != c.actual then c.count else 0
  }

  // ---- Comparing two of them ----

  function Get(f: Flat, key: string): int { if key in f then f[key] else 0 }

  function Keys(a: Flat, b: Flat): set<string> { a.Keys + b.Keys }

  function Delta(a: Flat, b: Flat): string -> int {
    (key: string) => Get(b, key) - Get(a, key)
  }

  predicate OnDiagonal(key: string) {
    var parts := SplitOnce(key);
    parts.Some? && parts.value.0 == parts.value.1
  }

  datatype Change = Improved | Regressed | Unchanged

  /** More on the diagonal, or less off it, is an improvement. */
  function ChangeOf(a: Flat, b: Flat, key: string): Change {
    var delta := Get(b, key) - Get(a, key);
    if delta == 0 then Unchanged
    else if (delta > 0) == OnDiagonal(key) then Improved
    else Regressed
  }

  /** A cell's change, from its names and the sign of its delta: on the diagonal more is an improvement and less
      a regression, off the diagonal the other way round. */
  lemma ChangeExact(a: Flat, b: Flat, expected: string, actual: string)
    requires Separable(expected)
    ensures var key := FlatKey(expected, actual);
      var before, after := (if key in a then a[key] else 0), (if key in b then b[key] else 0);
      && (ChangeOf(a, b, key) == Improved <==> if expected == actual then after > before else after < before)
      && (ChangeOf(a, b, key) == Regressed <==> if expected == actual then after < before else after > before)
      && (ChangeOf(a, b, key) == Unchanged <==> after == before)
  {
    SplitInverts(expected, actual);
  }

  /** The count a matrix gives a cell; one it does not list counts nothing. */
  ghost predicate CountAt(cells: seq<Cell>, expected: string, actual: string, n: int) {
    || Cell(expected, actual, n) in cells
    || (n == 0 && forall c :: c in cells ==> c.expected != expected || c.actual != actual)
  }

  lemma {:induction false} FlattenKeeps(cells: seq<Cell>, i: nat)
    requires DistinctCells(cells) && AllSeparable(cells) && i < |cells|
    ensures FlatKey(cells[i].expected, cells[i].actual) in Flatten(cells)
    ensures Flatten(cells)[FlatKey(cells[i].expected, cells[i].actual)] == cells[i].count
  {
    var init, last := cells[..|cells| - 1], cells[|cells| - 1];
    if i < |init| {
      FlattenKeeps(init, i);
      if FlatKey(cells[i].expected, cells[i].actual) == FlatKey(last.expected, last.actual) {
        FlatKeyInjective(cells[i], last);
      }
    }
  }

  lemma FlattenedCount(cells: seq<Cell>, expected: string, actual: string, n: int)
    requires DistinctCells(cells) && AllSeparable(cells) && Separable(expected) && CountAt(cells, expected, actual, n)
    ensures Get(Flatten(cells), FlatKey(expected, actual)) == n
  {
    if Cell(expected, actual, n) in cells {
      var i :| 0 <= i < |cells| && cells[i] == Cell(expected, actual, n);
      FlattenKeeps(cells, i);
    } else if FlatKey(expected, actual) in Flatten(cells) {
      FlattenKeys(cells, FlatKey(expected, actual));
      var c :| c in cells && FlatKey(expected, actual) == FlatKey(c.expected, c.actual);
      FlatKeyInjective(Cell(expected, actual, n), c);
    }
  }

  /** The same from the two matrices: a cell improves exactly when its own count grows on the diagonal or
      shrinks off it. */
  lemma CellChange(a: seq<Cell>, b: seq<Cell>, expected: string, actual: string, before: int, after: int)
    requires DistinctCells(a) && AllSeparable(a) && DistinctCells(b) && AllSeparable(b) && Separable(expected)
    requires CountAt(a, expected, actual, before) && CountAt(b, expected, actual, after)
    ensures var change := ChangeOf(Flatten(a), Flatten(b), FlatKey(expected, actual));
      && (change == Improved <==> if expected == actual then after > before else after < before)
      && (change == Regressed <==> if expected == actual then after < before else after > before)
      && (change == Unchanged <==> after == before)
  {
    FlattenedCount(a, expected, actual, before);
    FlattenedCount(b, expected, actual, after);
    ChangeExact(Flatten(a), Flatten(b), expected, actual);
  }

  function OffDiagonalKeys(keys: set<string>): set<string> {
    set k | k in keys && !OnDiagonal(k)
  }

  function CellValue(f: Flat): string -> int {
    (key: string) => Get(f, key)
  }

  lemma FlatKeyInjective(c: Cell, d: Cell)
    requires Separable(c.expected) && Separable(d.expected)
    requires FlatKey(c.expected, c.actual) == FlatKey(d.expected, d.actual)
    ensures c.expected == d.expected && c.actual == d.actual
  {
    SplitInverts(c.expected, c.actual);
    SplitInverts(d.expected, d.actual);
  }

  lemma {:induction false} FlattenKeys(cells: seq<Cell>, key: string)
    requires key in Flatten(cells)
    ensures exists c :: c in cells && key == FlatKey(c.expected, c.actual)
  {
    var c := cells[|cells| - 1];
    assert c in cells;
    if key != FlatKey(c.expected, c.actual) {
      FlattenKeys(cells[..|cells| - 1], key);
      var d :| d in cells[..|cells| - 1] && key == FlatKey(d.expected, d.actual);
      assert d in cells;
    }
  }

  function KeyOf(c: Cell): string { FlatKey(c.expected, c.actual) }

  lemma {:induction false} FlattenHas(cells: seq<Cell>, i: nat)
    requires i < |cells|
    ensures KeyOf(cells[i]) in Flatten(cells)
  {
    if i < |cells| - 1 { FlattenHas(cells[..|cells| - 1], i); }
  }

  // ---- When the flattened cells add up to the matrix ----

  /** The flattened matrix keeps this cell's count, under a key the comparison takes for off-diagonal. */
  predicate Counted(cells: seq<Cell>, i: nat)
    requires i < |cells|
  {
    !OnDiagonal(KeyOf(cells[i])) && forall j :: i < j < |cells| ==> KeyOf(cells[j]) != KeyOf(cells[i])
  }

  /** Exactly the off-diagonal cells are counted. Only the names decide this. */
  predicate Balances(cells: seq<Cell>) {
    forall i :: 0 <= i < |cells| ==> (Counted(cells, i) <==> cells[i].expected != cells[i].actual)
  }

  function Picked(cells: seq<Cell>, pick: seq<bool>): int
    requires |pick| == |cells|
  {
    if cells == [] then 0 else (if pick[0] then cells[0].count else 0) + Picked(cells[1..], pick[1..])
  }

  function CountedPick(cells: seq<Cell>): (pick: seq<bool>)
    ensures |pick| == |cells| && forall i :: 0 <= i < |cells| ==> pick[i] == Counted(cells, i)
  {
    seq(|cells|, i requires 0 <= i < |cells| => Counted(cells, i))
  }

  function OffDiagonalPick(cells: seq<Cell>): (pick: seq<bool>)
    ensures |pick| == |cells| && forall i :: 0 <= i < |cells| ==> pick[i] == (cells[i].expected != cells[i].actual)
  {
    seq(|cells|, i requires 0 <= i < |cells| => cells[i].expected != cells[i].actual)
  }

  lemma {:induction false} OffDiagonalHead(cells: seq<Cell>)
    requires cells != []
    ensures OffDiagonalTotal(cells)
      == (if cells[0].expected != cells[0].actual then cells[0].count else 0) + OffDiagonalTotal(cells[1..])
  {
    if |cells| > 1 {
      OffDiagonalHead(cells[..|cells| - 1]);
      assert cells[..|cells| - 1][1..] == cells[1..][..|cells| - 2];
    }
  }

  lemma {:induction false} OffDiagonalPicked(cells: seq<Cell>)
    ensures OffDiagonalTotal(cells) == Picked(cells, OffDiagonalPick(cells))
  {
    if cells != [] {
      OffDiagonalHead(cells);
      OffDiagonalPicked(cells[1..]);
      assert OffDiagonalPick(cells)[1..] == OffDiagonalPick(cells[1..]);
    }
  }

  lemma {:induction false} FlattenHead(cells: seq<Cell>)
    requires cells != []
    ensures Flatten(cells) == map[KeyOf(cells[0]) := cells[0].count] + Flatten(cells[1..])
  {
    if |cells| > 1 {
      FlattenHead(cells[..|cells| - 1]);
      assert cells[..|cells| - 1][1..] == cells[1..][..|cells| - 2];
    }
  }

  lemma HeadCounted(cells: seq<Cell>)
    requires cells != []
    ensures Counted(cells, 0) <==> !OnDiagonal(KeyOf(cells[0])) && KeyOf(cells[0]) !in Flatten(cells[1..])
  {
    var key, rest := KeyOf(cells[0]), cells[1..];
    if key in Flatten(rest) {
      FlattenKeys(rest, key);
      var c :| c in rest && key == FlatKey(c.expected, c.actual);
      var j :| 0 <= j < |rest| && rest[j] == c;
      assert KeyOf(cells[j + 1]) == key;
    } else {
      forall j | 0 < j < |cells| ensures KeyOf(cells[j]) != key {
        assert cells[j] == rest[j - 1];
        FlattenHas(rest, j - 1);
      }
    }
  }

  lemma TailCounted(cells: seq<Cell>)
    requires cells != []
    ensures CountedPick(cells)[1..] == CountedPick(cells[1..])
  {
    var rest := cells[1..];
    forall i | 0 <= i < |rest| ensures Counted(cells, i + 1) == Counted(rest, i) {
      if Counted(cells, i + 1) {
        forall j | i < j < |rest| ensures KeyOf(rest[j]) != KeyOf(rest[i]) { assert rest[j] == cells[j + 1]; }
      }
      if Counted(rest, i) {
        forall j | i + 1 < j < |cells| ensures KeyOf(cells[j]) != KeyOf(cells[i + 1]) { assert cells[j] == rest[j - 1]; }
      }
    }
  }

  /** The off-diagonal flattened cells, over any larger key set, add up to the counted cells: for every matrix. */
  lemma {:induction false} FlatPicked(cells: seq<Cell>, keys: set<string>)
    requires Flatten(cells).Keys <= keys
    ensures Sum(OffDiagonalKeys(keys), CellValue(Flatten(cells))) == Picked(cells, CountedPick(cells))
  {
    var off := OffDiagonalKeys(keys);
    if cells == [] {
      SumOfNone(off, CellValue(Flatten(cells)));
    } else {
      var rest, key := cells[1..], KeyOf(cells[0]);
      FlattenHead(cells);
      FlatPicked(rest, keys);
      HeadCounted(cells);
      TailCounted(cells);
      var f, g := CellValue(Flatten(rest)), CellValue(Flatten(cells));
      assert forall k :: k != key ==> f(k) == g(k);
      if Counted(cells, 0) {
        SumBump(off, f, g, key);
      } else {
        SumSame(off, f, g);
      }
    }
  }

  /** The signed sum of the off-diagonal cell deltas. */
  ghost function KeyDeltas(a: Flat, b: Flat): int {
    Sum(OffDiagonalKeys(Keys(a, b)), Delta(a, b))
  }

  lemma KeyDeltasPicked(a: seq<Cell>, b: seq<Cell>)
    ensures KeyDeltas(Flatten(a), Flatten(b)) == Picked(b, CountedPick(b)) - Picked(a, CountedPick(a))
  {
    var keys := Keys(Flatten(a), Flatten(b));
    FlatPicked(a, keys);
    FlatPicked(b, keys);
    SumDifference(OffDiagonalKeys(keys), CellValue(Flatten(b)), CellValue(Flatten(a)), Delta(Flatten(a), Flatten(b)));
  }

  /** When both reports balance, the off-diagonal delta is the signed sum of the off-diagonal cell deltas. */
  lemma OffDiagonalDelta(a: seq<Cell>, b: seq<Cell>)
    requires Balances(a) && Balances(b)
    ensures OffDiagonalTotal(b) - OffDiagonalTotal(a) == KeyDeltas(Flatten(a), Flatten(b))
  {
    KeyDeltasPicked(a, b);
    OffDiagonalPicked(a);
    OffDiagonalPicked(b);
    assert CountedPick(a) == OffDiagonalPick(a) && CountedPick(b) == OffDiagonalPick(b);
  }

  ghost predicate SameNames(a: seq<Cell>, b: seq<Cell>) {
    && |a| == |b|
    && forall i :: 0 <= i < |a| ==> a[i].expected == b[i].expected && a[i].actual == b[i].actual
  }

  /** The delta adds up whatever the counts under these names are. */
  ghost predicate AlwaysAddsUp(a: seq<Cell>, b: seq<Cell>) {
    forall a', b' {:trigger SameNames(a, a'), SameNames(b, b')} :: SameNames(a, a') && SameNames(b, b') ==>
      OffDiagonalTotal(b') - OffDiagonalTotal(a') == KeyDeltas(Flatten(a'), Flatten(b'))
  }

  lemma SameNamesCounted(a: seq<Cell>, b: seq<Cell>, i: nat)
    requires SameNames(a, b) && i < |a|
    ensures Counted(a, i) == Counted(b, i)
  {
    assert KeyOf(a[i]) == KeyOf(b[i]);
    assert forall j :: 0 <= j < |a| ==> KeyOf(a[j]) == KeyOf(b[j]);
  }

  lemma SameNamesBalance(a: seq<Cell>, b: seq<Cell>)
    requires SameNames(a, b) && Balances(a)
    ensures Balances(b)
  {
    forall i | 0 <= i < |b| ensures Counted(b, i) <==> b[i].expected != b[i].actual {
      SameNamesCounted(a, b, i);
    }
  }

  /** These names with a count of one at `at` and of zero elsewhere. */
  function Unit(cells: seq<Cell>, at: int): (unit: seq<Cell>)
    ensures SameNames(cells, unit)
  {
    seq(|cells|, j requires 0 <= j < |cells| => Cell(cells[j].expected, cells[j].actual, if j == at then 1 else 0))
  }

  lemma {:induction false} PickedUnit(cells: seq<Cell>, at: int, pick: seq<bool>)
    requires |pick| == |cells|
    ensures Picked(Unit(cells, at), pick) == if 0 <= at < |cells| && pick[at] then 1 else 0
  {
    if cells != [] {
      PickedUnit(cells[1..], at - 1, pick[1..]);
      assert Unit(cells, at)[1..] == Unit(cells[1..], at - 1);
    }
  }

  lemma UnitTotals(cells: seq<Cell>, at: int)
    ensures OffDiagonalTotal(Unit(cells, at))
      == if 0 <= at < |cells| && cells[at].expected != cells[at].actual then 1 else 0
    ensures Picked(Unit(cells, at), CountedPick(Unit(cells, at)))
      == if 0 <= at < |cells| && Counted(cells, at) then 1 else 0
  {
    var unit := Unit(cells, at);
    OffDiagonalPicked(unit);
    PickedUnit(cells, at, OffDiagonalPick(unit));
    PickedUnit(cells, at, CountedPick(unit));
    if 0 <= at < |cells| { SameNamesCounted(cells, unit, at); }
  }

  /** The names that make the delta add up, whatever the counts, are exactly those under which both reports
      balance: each cell survives flattening, off the diagonal, if and only if its two names differ. */
  lemma AddsUpExactly(a: seq<Cell>, b: seq<Cell>)
    ensures AlwaysAddsUp(a, b) <==> Balances(a) && Balances(b)
  {
    if Balances(a) && Balances(b) {
      forall a', b' | SameNames(a, a') && SameNames(b, b')
        ensures OffDiagonalTotal(b') - OffDiagonalTotal(a') == KeyDeltas(Flatten(a'), Flatten(b')) {
        SameNamesBalance(a, a');
        SameNamesBalance(b, b');
        OffDiagonalDelta(a', b');
      }
    }
    if AlwaysAddsUp(a, b) {
      forall i | 0 <= i < |a| ensures Counted(a, i) <==> a[i].expected != a[i].actual { AddsUpAt(a, b, i, -1); }
      forall i | 0 <= i < |b| ensures Counted(b, i) <==> b[i].expected != b[i].actual { AddsUpAt(a, b, -1, i); }
    }
  }

  lemma AddsUpAt(a: seq<Cell>, b: seq<Cell>, i: int, j: int)
    requires AlwaysAddsUp(a, b) && (i == -1 || j == -1)
    ensures 0 <= i < |a| ==> (Counted(a, i) <==> a[i].expected != a[i].actual)
    ensures 0 <= j < |b| ==> (Counted(b, j) <==> b[j].expected != b[j].actual)
  {
    assert SameNames(a, Unit(a, i)) && SameNames(b, Unit(b, j));
    KeyDeltasPicked(Unit(a, i), Unit(b, j));
    UnitTotals(a, i);
    UnitTotals(b, j);
  }

  /** Distinct cells with separable expected names balance. */
  lemma SeparableBalances(cells: seq<Cell>)
    requires DistinctCells(cells) && AllSeparable(cells)
    ensures Balances(cells)
  {
    forall i | 0 <= i < |cells| ensures Counted(cells, i) <==> cells[i].expected != cells[i].actual {
      SplitInverts(cells[i].expected, cells[i].actual);
      forall j | i < j < |cells| ensures KeyOf(cells[j]) != KeyOf(cells[i]) {
        if KeyOf(cells[j]) == KeyOf(cells[i]) { FlatKeyInjective(cells[i], cells[j]); }
      }
    }
  }

  /** Two cells, no name of which contains a separator, share a flat key: the matrix holds 3 off its diagonal, its
      single flattened cell 2. */
  lemma SharedKeyLosesACell()
    ensures var cells := [Cell("A ->", "B", 1), Cell("A", "-> B", 2)];
      && DistinctCells(cells) && !Balances(cells)
      && OffDiagonalTotal(cells) == 3
      && Sum(OffDiagonalKeys(Flatten(cells).Keys), CellValue(Flatten(cells))) == 2
  {
    var cells := [Cell("A ->", "B", 1), Cell("A", "-> B", 2)];
    HalfSeparatorFails();
    assert KeyOf(cells[0]) == KeyOf(cells[1]);
    assert !Counted(cells, 0);
    OffDiagonalPicked(cells);
    FlatPicked(cells, Flatten(cells).Keys);
    assert Separable("A");
    SplitInverts("A", "-> B");
    assert Counted(cells, 1);
    TwoPicked(cells, OffDiagonalPick(cells));
    TwoPicked(cells, CountedPick(cells));
  }

  lemma TwoPicked(cells: seq<Cell>, pick: seq<bool>)
    requires |cells| == |pick| == 2
    ensures Picked(cells, pick) == (if pick[0] then cells[0].count else 0) + (if pick[1] then cells[1].count else 0)
  {
    assert Picked(cells[1..], pick[1..]) == if pick[1] then cells[1].count else 0;
  }

  /** The off-diagonal total does not grow when no off-diagonal cell regressed, whatever the diagonal did. */
  lemma NoRegressionNoIncrease(a: seq<Cell>, b: seq<Cell>)
    requires Balances(a) && Balances(b)
    requires forall k :: k in OffDiagonalKeys(Keys(Flatten(a), Flatten(b))) ==>
      ChangeOf(Flatten(a), Flatten(b), k) != Regressed
    ensures OffDiagonalTotal(b) <= OffDiagonalTotal(a)
  {
    OffDiagonalDelta(a, b);
    SumNotPositive(OffDiagonalKeys(Keys(Flatten(a), Flatten(b))), Delta(Flatten(a), Flatten(b)));
  }

  // ---- The counting loop ----

  datatype Counts = Counts(changedCells: nat, improvedCells: nat, regressedCells: nat, unchangedCells: nat)

  function KeysWith(change: Change, a: Flat, b: Flat, keys: set<string>): set<string> {
    set k | k in keys && ChangeOf(a, b, k) == change
  }

  ghost predicate CountsOf(n: Counts, a: Flat, b: Flat, keys: set<string>) {
    && n.improvedCells == |KeysWith(Improved, a, b, keys)|
    && n.regressedCells == |KeysWith(Regressed, a, b, keys)|
    && n.unchangedCells == |KeysWith(Unchanged, a, b, keys)|
    && n.changedCells == n.improvedCells + n.regressedCells
    && n.changedCells + n.unchangedCells == |keys|
  }

  lemma KeysWithStep(change: Change, a: Flat, b: Flat, keys: set<string>, key: string)
    requires key !in keys
    ensures |KeysWith(change, a, b, keys + {key})|
      == |KeysWith(change, a, b, keys)| + if ChangeOf(a, b, key) == change then 1 else 0
  {
    if ChangeOf(a, b, key) == change {
      assert KeysWith(change, a, b, keys + {key}) == KeysWith(change, a, b, keys) + {key};
    } else {
      assert KeysWith(change, a, b, keys + {key}) == KeysWith(change, a, b, keys);
    }
  }

  lemma NothingCounted(a: Flat, b: Flat)
    ensures CountsOf(Counts(0, 0, 0, 0), a, b, {})
  {
    assert forall change :: KeysWith(change, a, b, {}) == {};
  }

  /** The body of the loop, for one key. */
  method CountKey(n: Counts, a: Flat, b: Flat, key: string, ghost done: set<string>) returns (n': Counts)
    requires CountsOf(n, a, b, done) && key !in done
    ensures CountsOf(n', a, b, done + {key})
  {
    KeysWithStep(Improved, a, b, done, key);
    KeysWithStep(Regressed, a, b, done, key);
    KeysWithStep(Unchanged, a, b, done, key);
    n' := n;
    var delta := Get(b, key) - Get(a, key);
    if delta == 0 {
      n' := n'.(unchangedCells := n'.unchangedCells + 1);
      return;
    }
    n' := n'.(changedCells := n'.changedCells + 1);
    var parts := SplitOnce(key);
    if parts.Some? && parts.value.0 == parts.value.1 {
      if delta > 0 {
        n' := n'.(improvedCells := n'.improvedCells + 1);
      } else {
        n' := n'.(regressedCells := n'.regressedCells + 1);
      }
    } else {
      if delta < 0 {
        n' := n'.(improvedCells := n'.improvedCells + 1);
      } else {
        n' := n'.(regressedCells := n'.regressedCells + 1);
      }
    }
  }

  /** The loop over the union of the keys; its result does not depend on the order they are visited in. */
  method CountCells(a: Flat, b: Flat) returns (n: Counts)
    ensures CountsOf(n, a, b, Keys(a, b))
  {
    n := Counts(0, 0, 0, 0);
    var all := a.Keys + b.Keys;
    var left := all;
    ghost var done: set<string> := {};
    NothingCounted(a, b);
    while left != {}
      invariant done == all - left && left <= all
      invariant CountsOf(n, a, b, done)
      decreases left
    {
      var key :| key in left;
      n := CountKey(n, a, b, key, done);
      left := left - {key};
      done := done + {key};
    }
    assert done == all;
  }

  // ---- Flattening and totalling a parsed matrix ----

  lemma RowCellsStep(expected: string, counts: seq<(string, int)>, i: nat)
    requires i < |counts|
    ensures RowCells(expected, counts[..i + 1])
      == RowCells(expected, counts[..i]) + [Cell(expected, counts[i].0, counts[i].1)]
  {
    assert counts[..i + 1][..i] == counts[..i];
  }

  lemma CellsOfStep(rows: seq<Row>, i: nat)
    requires i < |rows|
    ensures rows[i].counts.Some? ==>
      CellsOf(rows[..i + 1]) == CellsOf(rows[..i]) + RowCells(rows[i].expected, rows[i].counts.value)
    ensures rows[i].counts.None? ==> CellsOf(rows[..i + 1]) == CellsOf(rows[..i])
  {
    assert rows[..i + 1][..i] == rows[..i];
  }

  lemma FlattenStep(cells: seq<Cell>, c: Cell)
    ensures Flatten(cells + [c]) == Flatten(cells)[FlatKey(c.expected, c.actual) := c.count]
    ensures OffDiagonalTotal(cells + [c]) == OffDiagonalTotal(cells) + if c.expected != c.actual then c.count else 0
  {
    assert (cells + [c])[..|cells|] == cells;
  }

  method FlattenConfusionMatrix(rows: seq<Row>) returns (flat: Flat)
    ensures flat == Flatten(CellsOf(rows))
  {
    flat := map[];
    for i := 0 to |rows|
      invariant flat == Flatten(CellsOf(rows[..i]))
    {
      CellsOfStep(rows, i);
      if rows[i].counts.None? { continue; }
      var counts := rows[i].counts.value;
      ghost var before := CellsOf(rows[..i]);
      assert before + RowCells(rows[i].expected, counts[..0]) == before;
      for j := 0 to |counts|
        invariant flat == Flatten(before + RowCells(rows[i].expected, counts[..j]))
      {
        var c := Cell(rows[i].expected, counts[j].0, counts[j].1);
        ghost var seen := before + RowCells(rows[i].expected, counts[..j]);
        RowCellsStep(rows[i].expected, counts, j);
        FlattenStep(seen, c);
        assert seen + [c] == before + RowCells(rows[i].expected, counts[..j + 1]);
        flat := flat[FlatKey(c.expected, c.actual) := c.count];
      }
      assert counts[..|counts|] == counts;
    }
    assert rows[..|rows|] == rows;
  }

  method OffDiagonal(rows: seq<Row>) returns (total: int)
    ensures total == OffDiagonalTotal(CellsOf(rows))
  {
    total := 0;
    for i := 0 to |rows|
      invariant total == OffDiagonalTotal(CellsOf(rows[..i]))
    {
      CellsOfStep(rows, i);
      if rows[i].counts.None? { continue; }
      var counts := rows[i].counts.value;
      ghost var before := CellsOf(rows[..i]);
      assert before + RowCells(rows[i].expected, counts[..0]) == before;
      for j := 0 to |counts|
        invariant total == OffDiagonalTotal(before + RowCells(rows[i].expected, counts[..j]))
      {
        var c := Cell(rows[i].expected, counts[j].0, counts[j].1);
        ghost var seen := before + RowCells(rows[i].expected, counts[..j]);
        RowCellsStep(rows[i].expected, counts, j);
        FlattenStep(seen, c);
        assert seen + [c] == before + RowCells(rows[i].expected, counts[..j + 1]);
        if c.expected != c.actual { total := total + c.count; }
      }
      assert counts[..|counts|] == counts;
    }
    assert rows[..|rows|] == rows;
  }

  datatype Comparison = Comparison(baselineOffDiagonal: int, candidateOffDiagonal: int, delta: int, counts: Counts)

  predicate BothBalance(baseline: seq<Row>, candidate: seq<Row>) {
    Balances(CellsOf(baseline)) && Balances(CellsOf(candidate))
  }

  ghost predicate OnlyDiagonalRegressed(baseline: seq<Row>, candidate: seq<Row>) {
    var a, b := Flatten(CellsOf(baseline)), Flatten(CellsOf(candidate));
    forall k :: k in OffDiagonalKeys(Keys(a, b)) ==> ChangeOf(a, b, k) != Regressed
  }

  /** Where both reports balance, the delta is the signed sum of the off-diagonal cell deltas, and it is not
      positive when every regressed cell lies on the diagonal. */
  method CompareReports(baseline: seq<Row>, candidate: seq<Row>) returns (r: Comparison)
    ensures CountsOf(r.counts, Flatten(CellsOf(baseline)), Flatten(CellsOf(candidate)),
                     Keys(Flatten(CellsOf(baseline)), Flatten(CellsOf(candidate))))
    ensures r.baselineOffDiagonal == OffDiagonalTotal(CellsOf(baseline))
    ensures r.candidateOffDiagonal == OffDiagonalTotal(CellsOf(candidate))
    ensures r.delta == r.candidateOffDiagonal - r.baselineOffDiagonal
    ensures BothBalance(baseline, candidate) ==>
      r.delta == KeyDeltas(Flatten(CellsOf(baseline)), Flatten(CellsOf(candidate)))
    ensures BothBalance(baseline, candidate) && OnlyDiagonalRegressed(baseline, candidate) ==> r.delta <= 0
  {
    var a := FlattenConfusionMatrix(baseline);
    var b := FlattenConfusionMatrix(candidate);
    var counts := CountCells(a, b);
    var before := OffDiagonal(baseline);
    var after := OffDiagonal(candidate);
    r := Comparison(before, after, after - before, counts);
    if BothBalance(baseline, candidate) {
      OffDiagonalDelta(CellsOf(baseline), CellsOf(candidate));
      if OnlyDiagonalRegressed(baseline, candidate) { NoRegressionNoIncrease(CellsOf(baseline), CellsOf(candidate)); }
    }
  }

  /** Read off the counters: when the regressed cells are all on the diagonal, in particular when there are
      none, the off-diagonal total did not grow. */
  lemma NothingRegressed(n: Counts, a: seq<Cell>, b: seq<Cell>)
    requires Balances(a) && Balances(b)
    requires CountsOf(n, Flatten(a), Flatten(b), Keys(Flatten(a), Flatten(b)))
    requires n.regressedCells == |KeysWith(Regressed, Flatten(a), Flatten(b), DiagonalKeys(Keys(Flatten(a), Flatten(b))))|
    ensures OffDiagonalTotal(b) - OffDiagonalTotal(a) <= 0
  {
    var f, g, keys := Flatten(a), Flatten(b), Keys(Flatten(a), Flatten(b));
    var off := KeysWith(Regressed, f, g, OffDiagonalKeys(keys));
    var on := KeysWith(Regressed, f, g, DiagonalKeys(keys));
    assert KeysWith(Regressed, f, g, keys) == on + off && on !! off;
    assert off == {};
    forall k | k in OffDiagonalKeys(keys) ensures ChangeOf(f, g, k) != Regressed { assert k !in off; }
    NoRegressionNoIncrease(a, b);
  }

  function DiagonalKeys(keys: set<string>): set<string> {
    set k | k in keys && OnDiagonal(k)
  }

  predicate SeparableRows(rows: seq<Row>) {
    forall i :: 0 <= i < |rows| ==> Separable(rows[i].expected)
  }

  /** A parsed matrix whose row names are separable balances. */
  lemma ParsedBalances(rows: seq<Row>)
    requires WellFormed(rows) && SeparableRows(rows)
    ensures Balances(CellsOf(rows))
  {
    var cells := CellsOf(rows);
    WellFormedDistinct(rows);
    forall i | 0 <= i < |cells| ensures Separable(cells[i].expected) { CellsNamed(rows, cells[i]); }
    SeparableBalances(cells);
  }
}
