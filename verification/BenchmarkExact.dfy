/** The benchmark report, read off the classified devices and the expected types alone. */
module BenchmarkExact {
  import opened Wrappers
  import opened Benchmark

  /** The devices of a run that satisfy `p`, by position. */
  ghost function Where(ds: seq<Case>, p: Case -> bool): set<nat> {
    set i: nat | i < |ds| && p(ds[i])
  }

  lemma WhereGrows(ds: seq<Case>, d: Case, p: Case -> bool)
    ensures |Where(ds + [d], p)| == |Where(ds, p)| + if p(d) then 1 else 0
  {
    if p(d) {
      assert Where(ds + [d], p) == Where(ds, p) + {|ds|};
    } else {
      assert Where(ds + [d], p) == Where(ds, p);
    }
  }

  /** Given the type expected of it. */
  predicate AsExpected(d: Case, expected: Expected) {
    d.ip in expected && expected[d.ip] == d.predicted
  }

  predicate ExpectedToBe(d: Case, expected: Expected, e: DeviceType) {
    d.ip in expected && expected[d.ip] == e
  }

  /** Expected to be `e` and classified as `a`. */
  predicate Confused(d: Case, expected: Expected, e: DeviceType, a: DeviceType) {
    d.ip in expected && expected[d.ip] == e && d.predicted == a
  }

  /** Classified as `a` with no type expected of it. */
  predicate Unlabelled(d: Case, expected: Expected, a: DeviceType) {
    d.ip !in expected && d.predicted == a
  }

  ghost predicate SomeExpected(ds: seq<Case>, expected: Expected, e: DeviceType) {
    exists d :: d in ds && ExpectedToBe(d, expected, e)
  }

  ghost predicate SomeClassified(ds: seq<Case>, expected: Expected, a: DeviceType) {
    exists d :: d in ds && d.ip in expected && d.predicted == a
  }

  lemma CellsGrow(ds: seq<Case>, expected: Expected)
    requires ds != []
    ensures Cells(ds, expected) == Cells(ds[..|ds| - 1], expected) + [CellOf(ds[|ds| - 1], expected)]
    ensures ds == ds[..|ds| - 1] + [ds[|ds| - 1]]
  {
  }

  lemma {:induction false} CorrectCells(ds: seq<Case>, expected: Expected)
    ensures |Keep(Cells(ds, expected), Correct)| == |Where(ds, d => AsExpected(d, expected))|
  {
    if ds == [] {
      assert Where(ds, d => AsExpected(d, expected)) == {};
    } else {
      CellsGrow(ds, expected);
      CorrectCells(ds[..|ds| - 1], expected);
      WhereGrows(ds[..|ds| - 1], ds[|ds| - 1], d => AsExpected(d, expected));
    }
  }

  lemma {:induction false} CellMultiplicity(ds: seq<Case>, expected: Expected, c: Cell)
    ensures multiset(Cells(ds, expected))[c] == |Where(ds, d => CellOf(d, expected) == c)|
  {
    if ds == [] {
      assert Where(ds, d => CellOf(d, expected) == c) == {};
    } else {
      CellsGrow(ds, expected);
      CellMultiplicity(ds[..|ds| - 1], expected, c);
      WhereGrows(ds[..|ds| - 1], ds[|ds| - 1], d => CellOf(d, expected) == c);
    }
  }

  lemma SameWhere(ds: seq<Case>, p: Case -> bool, q: Case -> bool)
    requires forall d :: p(d) <==> q(d)
    ensures Where(ds, p) == Where(ds, q)
  {
  }

  lemma LabelledCell(ds: seq<Case>, expected: Expected, e: DeviceType, a: DeviceType)
    ensures multiset(Cells(ds, expected))[Cell(Some(e), a)] == |Where(ds, d => Confused(d, expected, e, a))|
  {
    CellMultiplicity(ds, expected, Cell(Some(e), a));
    SameWhere(ds, d => CellOf(d, expected) == Cell(Some(e), a), d => Confused(d, expected, e, a));
  }

  lemma UnlabelledCell(ds: seq<Case>, expected: Expected, a: DeviceType)
    ensures multiset(Cells(ds, expected))[Cell(None, a)] == |Where(ds, d => Unlabelled(d, expected, a))|
  {
    CellMultiplicity(ds, expected, Cell(None, a));
    SameWhere(ds, d => CellOf(d, expected) == Cell(None, a), d => Unlabelled(d, expected, a));
  }

  lemma {:induction false} CellMembers(ds: seq<Case>, expected: Expected, c: Cell)
    ensures c in Cells(ds, expected) <==> exists d :: d in ds && CellOf(d, expected) == c
  {
    if ds != [] {
      CellsGrow(ds, expected);
      var init, last := ds[..|ds| - 1], ds[|ds| - 1];
      CellMembers(init, expected, c);
      assert last in ds;
      if d :| d in ds && CellOf(d, expected) == c { assert d in init || d == last; }
      if d :| d in init && CellOf(d, expected) == c { assert d in ds; }
    }
  }

  lemma DeviceTypes(ds: seq<Case>, expected: Expected, d: Case)
    requires d in ds && d.ip in expected
    ensures expected[d.ip] in ExpectedTypes(Cells(ds, expected)) && d.predicted in ActualTypes(Cells(ds, expected))
  {
    CellMembers(ds, expected, CellOf(d, expected));
    TypesOf(Cells(ds, expected), CellOf(d, expected));
  }

  lemma DeviceBehind(ds: seq<Case>, expected: Expected, c: Cell) returns (d: Case)
    requires c in Cells(ds, expected) && Known(c)
    ensures d in ds && ExpectedToBe(d, expected, c.expected.value) && d.predicted == c.actual
  {
    CellMembers(ds, expected, c);
    d :| d in ds && CellOf(d, expected) == c;
  }

  lemma ExpectedTypesExact(ds: seq<Case>, expected: Expected, t: DeviceType)
    ensures t in ExpectedTypes(Cells(ds, expected)) <==> SomeExpected(ds, expected, t)
  {
    if d :| d in ds && ExpectedToBe(d, expected, t) { DeviceTypes(ds, expected, d); }
    if c :| c in Cells(ds, expected) && Known(c) && c.expected.value == t {
      var d := DeviceBehind(ds, expected, c);
    }
  }

  lemma ActualTypesExact(ds: seq<Case>, expected: Expected, t: DeviceType)
    ensures t in ActualTypes(Cells(ds, expected)) <==> SomeClassified(ds, expected, t)
  {
    if d :| d in ds && d.ip in expected && d.predicted == t { DeviceTypes(ds, expected, d); }
    if c :| c in Cells(ds, expected) && Known(c) && c.actual == t {
      var d := DeviceBehind(ds, expected, c);
    }
  }

  /** The counts: every device, those given the type expected of them, and the rest. */
  lemma CountsExact(ds: seq<Case>, expected: Expected)
    ensures var r := ReportOf(ds, expected);
      && r.total == |ds|
      && r.correct == |Where(ds, d => AsExpected(d, expected))|
      && r.correct + r.incorrect == |ds|
  {
    CorrectCells(ds, expected);
  }

  /** The printed matrix: a row for every type expected of some device, a column for every type expected of or
      given to a device of a known type, and in each cell the number of devices it is about. */
  lemma MatrixCells(ds: seq<Case>, expected: Expected, e: DeviceType, a: DeviceType)
    ensures var m := ReportOf(ds, expected).matrix;
      && (e in m <==> SomeExpected(ds, expected, e))
      && (e in m ==> (a in m[e] <==> SomeExpected(ds, expected, a) || SomeClassified(ds, expected, a)))
      && (e in m && a in m[e] ==> m[e][a] == |Where(ds, d => Confused(d, expected, e, a))|)
  {
    ExpectedTypesExact(ds, expected, e);
    ExpectedTypesExact(ds, expected, a);
    ActualTypesExact(ds, expected, a);
    MatrixExact(ds, expected, Cell(Some(e), a));
    LabelledCell(ds, expected, e, a);
  }

  /** The misclassification summary: how many devices were expected to be one thing and classified as another,
      and in the MISSING row how many with no expected type got each type. */
  lemma MisclassifiedCells(ds: seq<Case>, expected: Expected, e: DeviceType, a: DeviceType)
    ensures var m := ReportOf(ds, expected).misclassified;
      && At(m, Cell(Some(e), a)) == (if e == a then 0 else |Where(ds, d => Confused(d, expected, e, a))|)
      && At(m, Cell(None, a)) == |Where(ds, d => Unlabelled(d, expected, a))|
  {
    MisclassifiedExact(ds, expected, Cell(Some(e), a));
    MisclassifiedExact(ds, expected, Cell(None, a));
    LabelledCell(ds, expected, e, a);
    UnlabelledCell(ds, expected, a);
  }

  /** The per-type summary: how many devices the type was expected of, and how many of them were given it. */
  lemma SummaryCells(ds: seq<Case>, expected: Expected, t: DeviceType)
    ensures var s := ReportOf(ds, expected).summary;
      && (t in s <==> SomeExpected(ds, expected, t))
      && (t in s ==>
            && s[t].total == |Where(ds, d => ExpectedToBe(d, expected, t))|
            && s[t].correct == |Where(ds, d => Confused(d, expected, t, t))|
            && s[t].incorrect == s[t].total - s[t].correct)
  {
    var cells := Cells(ds, expected);
    SummariesExact(cells, t);
    LabelledCell(ds, expected, t, t);
    TypedCells(ds, expected, t);
    ExpectedTypesExact(ds, expected, t);
    if HasRow(cells, Some(t)) { assert t in ExpectedTypes(cells); }
  }

  lemma {:induction false} TypedCells(ds: seq<Case>, expected: Expected, t: DeviceType)
    ensures |Keep(Cells(ds, expected), OfType(t))| == |Where(ds, d => ExpectedToBe(d, expected, t))|
  {
    if ds == [] {
      assert Where(ds, d => ExpectedToBe(d, expected, t)) == {};
    } else {
      CellsGrow(ds, expected);
      TypedCells(ds[..|ds| - 1], expected, t);
      WhereGrows(ds[..|ds| - 1], ds[|ds| - 1], d => ExpectedToBe(d, expected, t));
    }
  }

  // ---- The mismatch list ----

  /** What is listed about a device: its address and name, the type expected of it if any, and the one given. */
  predicate Reports(m: Mismatch, d: Case, expected: Expected) {
    && m.ip == d.ip && m.hostname == d.hostname && m.actual == d.predicted
    && (if d.ip in expected then m.expected == Some(expected[d.ip]) else m.expected == None)
  }

  /** `others` are the positions of the devices not given the type expected of them, ascending. */
  ghost predicate OtherDevices(ds: seq<Case>, expected: Expected, others: seq<nat>) {
    && (forall i, j :: 0 <= i < j < |others| ==> others[i] < others[j])
    && (forall k: nat :: k in others <==> k < |ds| && !AsExpected(ds[k], expected))
  }

  ghost predicate ListReports(ms: seq<Mismatch>, ds: seq<Case>, expected: Expected, others: seq<nat>) {
    |ms| == |others| && forall j :: 0 <= j < |ms| ==> others[j] < |ds| && Reports(ms[j], ds[others[j]], expected)
  }

  lemma OthersGrow(ds: seq<Case>, d: Case, expected: Expected, before: seq<nat>)
    requires OtherDevices(ds, expected, before)
    ensures OtherDevices(ds + [d], expected, if AsExpected(d, expected) then before else before + [|ds|])
  {
    forall i | 0 <= i < |before| ensures before[i] < |ds| { assert before[i] in before; }
  }

  lemma ReportsGrow(ms: seq<Mismatch>, m: Mismatch, ds: seq<Case>, d: Case, expected: Expected, others: seq<nat>)
    requires ListReports(ms, ds, expected, others) && Reports(m, d, expected)
    ensures ListReports(ms, ds + [d], expected, others)
    ensures ListReports(ms + [m], ds + [d], expected, others + [|ds|])
  {
  }

  /** The list names exactly the other devices, in the order in which they were classified. */
  ghost predicate ListsOthers(ms: seq<Mismatch>, ds: seq<Case>, expected: Expected, others: seq<nat>) {
    OtherDevices(ds, expected, others) && ListReports(ms, ds, expected, others)
  }

  lemma ListGrows(ms: seq<Mismatch>, ds: seq<Case>, d: Case, expected: Expected, before: seq<nat>)
      returns (others: seq<nat>)
    requires ListsOthers(ms, ds, expected, before)
    ensures ListsOthers(ms + NewMismatches(d, CellOf(d, expected)), ds + [d], expected, others)
  {
    var c := CellOf(d, expected);
    var m := Mismatch(d.ip, d.hostname, c.expected, c.actual);
    others := if AsExpected(d, expected) then before else before + [|ds|];
    OthersGrow(ds, d, expected, before);
    ReportsGrow(ms, m, ds, d, expected, before);
    assert NewMismatches(d, c) == if AsExpected(d, expected) then [] else [m];
    assert ms + [] == ms;
  }

  lemma {:induction false} MismatchesListed(ds: seq<Case>, expected: Expected) returns (others: seq<nat>)
    ensures ListsOthers(Mismatches(ds, expected), ds, expected, others)
  {
    others := [];
    if ds != [] {
      CellsGrow(ds, expected);
      var before := MismatchesListed(ds[..|ds| - 1], expected);
      others := ListGrows(Mismatches(ds[..|ds| - 1], expected), ds[..|ds| - 1], ds[|ds| - 1], expected, before);
    }
  }

  /** The report's mismatches are exactly the devices not given the type expected of them, in order. */
  lemma MismatchList(ds: seq<Case>, expected: Expected) returns (others: seq<nat>)
    ensures ListsOthers(ReportOf(ds, expected).mismatches, ds, expected, others)
  {
    others := MismatchesListed(ds, expected);
  }
}
