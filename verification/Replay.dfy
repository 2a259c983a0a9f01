/** Replay verification: re-run the resolvers on an artifact and compare with the run's CSV. */
module Replay {
  import opened Wrappers
  import opened Ordering
  import opened Grouping
  import opened Json
  import opened Observations
  import opened ReplayFormat
  import opened CsvExport
  import opened Devices
  import opened Presentation
  import R = RelationshipResolution
  import Pipeline

  /** The compared columns of one row; the hostname columns are not among them. */
  datatype RelationshipRow = RelationshipRow(
    subject: string, category: string, relatedSubject: string, state: string, provenance: string)

  function RowEdge(row: RelationshipRow): Key { [row.subject, row.category, row.relatedSubject] }

  function RowOf(edge: R.CanonicalRelationship): RelationshipRow {
    RelationshipRow(edge.subject, edge.category, edge.relatedSubject, StateText(edge.state),
                    ProvenanceText(edge.observations))
  }

  /** `relationship_rows`: in resolver order. */
  function RelationshipRows(edges: seq<R.CanonicalRelationship>): seq<RelationshipRow> { Mapped(RowOf, edges) }

  /** `_provenance_tokens`, the replay side's own copy of the rule. */
  method ProvenanceTokens(edge: R.CanonicalRelationship) returns (text: string)
    ensures text == RowOf(edge).provenance
  {
    var os := edge.observations;
    var seen: set<Source> := {};
    var tokens: seq<string> := [];
    for i := 0 to |os|
      invariant seen == Members(KeysInOrder(RelationshipSource, os[..i]))
      invariant tokens == Mapped(Token, KeysInOrder(RelationshipSource, os[..i]))
    {
      var key := RelationshipSource(os[i]);
      assert os[..i + 1][..i] == os[..i];
      if key !in seen {
        seen := seen + {key};
        tokens := tokens + [Token(key)];
      }
    }
    assert os[..|os|] == os;
    text := Join(tokens);
  }

  datatype InputError = UnexpectedHeader | WrongColumnCount(line: nat)

  function ReadRow(row: Row): RelationshipRow
    requires |row| == |HEADER|
  {
    RelationshipRow(row[0], row[2], row[3], row[5], row[6])
  }

  function ReadRows(rows: seq<Row>): Result<seq<RelationshipRow>, InputError> {
    if rows == [] then Success([])
    else
      var earlier :- ReadRows(rows[..|rows| - 1]);
      if |rows[|rows| - 1]| != |HEADER| then Failure(WrongColumnCount(|rows| + 1))
      else Success(earlier + [ReadRow(rows[|rows| - 1])])
  }

  /** `read_relationships_csv`, from the rows the CSV reader yields. */
  function ReadCsv(rows: seq<Row>): Result<seq<RelationshipRow>, InputError> {
    if rows == [] || rows[0] != HEADER then Failure(UnexpectedHeader) else ReadRows(rows[1..])
  }

  // ---- Comparison ----

  datatype DifferingEdge = DifferingEdge(edge: Key, csvRows: seq<RelationshipRow>, replayedRows: seq<RelationshipRow>)

  datatype Comparison = Comparison(
    replayedRows: seq<RelationshipRow>, csvRows: seq<RelationshipRow>,
    missingFromReplay: nat, notInCsv: nat, differing: seq<DifferingEdge>)
  {
    predicate Matches() { replayedRows == csvRows }

    /** A mismatch in the order alone: each row occurs equally often in both. */
    predicate OrderDiffers() { !Matches() && multiset(replayedRows) == multiset(csvRows) }
  }

  function EdgeCounter(rows: seq<RelationshipRow>): multiset<Key> { multiset(Mapped(RowEdge, rows)) }

  function SelfKey(k: Key): Key { k }

  /** The edges named on both sides, sorted. */
  function CommonEdges(replayed: seq<RelationshipRow>, csv: seq<RelationshipRow>): seq<Key> {
    SortBy(SelfKey, Select((k: Key) => k in EdgeCounter(csv), true, KeysInOrder(RowEdge, replayed)))
  }

  function Differing(edges: seq<Key>, replayed: seq<RelationshipRow>, csv: seq<RelationshipRow>): seq<DifferingEdge> {
    if edges == [] then []
    else
      var earlier := Differing(edges[..|edges| - 1], replayed, csv);
      var e := edges[|edges| - 1];
      var c, r := Select(RowEdge, e, csv), Select(RowEdge, e, replayed);
      if multiset(c) == multiset(r) then earlier else earlier + [DifferingEdge(e, c, r)]
  }

  function Compare(replayed: seq<RelationshipRow>, csv: seq<RelationshipRow>): Comparison {
    Comparison(replayed, csv,
               |EdgeCounter(csv) - EdgeCounter(replayed)|, |EdgeCounter(replayed) - EdgeCounter(csv)|,
               Differing(CommonEdges(replayed, csv), replayed, csv))
  }

  lemma {:induction false} EdgeCounts(rows: seq<RelationshipRow>, e: Key)
    ensures EdgeCounter(rows)[e] == |Select(RowEdge, e, rows)|
  {
    if rows != [] {
      var init, last := rows[..|rows| - 1], rows[|rows| - 1];
      EdgeCounts(init, e);
      assert Mapped(RowEdge, rows) == Mapped(RowEdge, init) + [RowEdge(last)];
    } else {
      assert Mapped(RowEdge, rows) == [];
    }
  }

  lemma CommonEdgesExact(replayed: seq<RelationshipRow>, csv: seq<RelationshipRow>, e: Key)
    ensures e in CommonEdges(replayed, csv) <==> EdgeCounter(replayed)[e] > 0 && EdgeCounter(csv)[e] > 0
  {
    var seen := KeysInOrder(RowEdge, replayed);
    var inCsv := (k: Key) => k in EdgeCounter(csv);
    SortByCorrect(SelfKey, Select(inCsv, true, seen));
    SameElements(CommonEdges(replayed, csv), Select(inCsv, true, seen));
    SelectMembers(inCsv, true, seen);
    KeysExact(RowEdge, replayed, e);
    EdgeCounts(replayed, e);
    SelectMembers(RowEdge, e, replayed);
    if e in seen {
      var row :| row in replayed && RowEdge(row) == e;
      assert row in Select(RowEdge, e, replayed);
    }
    if EdgeCounter(replayed)[e] > 0 {
      var row := Select(RowEdge, e, replayed)[0];
      assert row in Select(RowEdge, e, replayed);
    }
  }

  lemma {:induction false} NoneDiffer(edges: seq<Key>, replayed: seq<RelationshipRow>, csv: seq<RelationshipRow>)
    ensures Differing(edges, replayed, csv) == [] <==>
      forall e :: e in edges ==> multiset(Select(RowEdge, e, csv)) == multiset(Select(RowEdge, e, replayed))
  {
    if edges != [] {
      var init, last := edges[..|edges| - 1], edges[|edges| - 1];
      assert edges == init + [last];
      NoneDiffer(init, replayed, csv);
      assert last in edges && forall e :: e in init ==> e in edges;
    }
  }

  lemma SameRowsSameEdges(replayed: seq<RelationshipRow>, csv: seq<RelationshipRow>, e: Key)
    requires multiset(replayed) == multiset(csv)
    ensures multiset(Select(RowEdge, e, csv)) == multiset(Select(RowEdge, e, replayed))
    ensures EdgeCounter(replayed)[e] == EdgeCounter(csv)[e]
  {
    forall row ensures multiset(Select(RowEdge, e, csv))[row] == multiset(Select(RowEdge, e, replayed))[row] {
      SelectCounts(RowEdge, e, csv, row);
      SelectCounts(RowEdge, e, replayed, row);
    }
    EdgeCounts(replayed, e);
    EdgeCounts(csv, e);
    SameElements(Select(RowEdge, e, csv), Select(RowEdge, e, replayed));
  }

  lemma NothingMissing(replayed: seq<RelationshipRow>, csv: seq<RelationshipRow>)
    ensures |EdgeCounter(csv) - EdgeCounter(replayed)| == 0 && |EdgeCounter(replayed) - EdgeCounter(csv)| == 0
      <==> EdgeCounter(csv) == EdgeCounter(replayed)
  {
    var a, b := EdgeCounter(csv), EdgeCounter(replayed);
    if |a - b| == 0 && |b - a| == 0 {
      forall e ensures a[e] == b[e] {
        assert (a - b)[e] == 0 && (b - a)[e] == 0;
      }
    }
  }

  lemma UnexplainedMeansSameRows(replayed: seq<RelationshipRow>, csv: seq<RelationshipRow>)
    requires EdgeCounter(csv) == EdgeCounter(replayed)
    requires Differing(CommonEdges(replayed, csv), replayed, csv) == []
    ensures multiset(replayed) == multiset(csv)
  {
    NoneDiffer(CommonEdges(replayed, csv), replayed, csv);
    forall row ensures multiset(replayed)[row] == multiset(csv)[row] {
      var e := RowEdge(row);
      SelectCounts(RowEdge, e, csv, row);
      SelectCounts(RowEdge, e, replayed, row);
      CommonEdgesExact(replayed, csv, e);
      EdgeCounts(replayed, e);
      EdgeCounts(csv, e);
      if e !in CommonEdges(replayed, csv) {
        assert Select(RowEdge, e, csv) == [] == Select(RowEdge, e, replayed);
      }
    }
  }

  /** Every mismatch is explained: the order differs exactly when there is a mismatch that no missing, extra
      or differing row accounts for. The row counts differ by what is missing less what is extra. */
  lemma DiagnosisComplete(replayed: seq<RelationshipRow>, csv: seq<RelationshipRow>)
    ensures var c := Compare(replayed, csv);
      && (c.OrderDiffers() <==> !c.Matches() && c.missingFromReplay == 0 && c.notInCsv == 0 && c.differing == [])
      && |csv| - |replayed| == c.missingFromReplay - c.notInCsv
  {
    NothingMissing(replayed, csv);
    NoneDiffer(CommonEdges(replayed, csv), replayed, csv);
    if multiset(replayed) == multiset(csv) {
      forall e ensures multiset(Select(RowEdge, e, csv)) == multiset(Select(RowEdge, e, replayed))
               && EdgeCounter(replayed)[e] == EdgeCounter(csv)[e] {
        SameRowsSameEdges(replayed, csv, e);
      }
      assert EdgeCounter(csv) == EdgeCounter(replayed);
    }
    if EdgeCounter(csv) == EdgeCounter(replayed) && Compare(replayed, csv).differing == [] {
      UnexplainedMeansSameRows(replayed, csv);
    }
    DifferenceOfSizes(EdgeCounter(csv), EdgeCounter(replayed));
    assert |EdgeCounter(csv)| == |csv| && |EdgeCounter(replayed)| == |replayed|;
  }

  lemma DifferenceOfSizes(a: multiset<Key>, b: multiset<Key>)
    ensures |a - b| - |b - a| == |a| - |b|
  {
    assert a == (a - b) + (a * b);
    assert b == (b - a) + (a * b);
  }

  // ---- The command ----

  /** A run's observations file: absent, not JSON, or a JSON tree. */
  datatype ObservationsFile = NoObservations | NotJson | Tree(document: Json)

  datatype RunDirectory = NoDirectory | RunDirectory(observations: ObservationsFile, csv: Option<seq<Row>>)

  const EXIT_MATCH := 0
  const EXIT_MISMATCH := 1
  const EXIT_CANNOT_REPLAY := 2

  datatype CommandResult = CommandResult(exitCode: int, comparison: Option<Comparison>)

  const CANNOT_REPLAY := CommandResult(EXIT_CANNOT_REPLAY, None)

  /** `replay_observations` after loading: no cardinality policy is passed, so the module's own applies. */
  function ReplayedEdges(os: seq<Observation>): seq<R.CanonicalRelationship> {
    Pipeline.Edges(os, R.CATEGORY_CARDINALITY)
  }

  /** `run_replay_command`. */
  function ReplayCommand(run: RunDirectory): CommandResult {
    match run
    case RunDirectory(Tree(document), Some(csv)) =>
      (match Parse(document)
       case Failure(_) => CANNOT_REPLAY
       case Success(os) =>
         match ReadCsv(csv)
         case Failure(_) => CANNOT_REPLAY
         case Success(rows) =>
           var comparison := Compare(RelationshipRows(ReplayedEdges(os)), rows);
           CommandResult(if comparison.Matches() then EXIT_MATCH else EXIT_MISMATCH, Some(comparison)))
    case _ => CANNOT_REPLAY
  }

  // ---- The two paths agree ----

  lemma GroupRowsRead(p: RelationshipPresentation)
    ensures ReadRows(GroupRows(p)) == Success(RelationshipRows(ShownEdges(p)))
  {
    var rows, expected := GroupRows(p), RelationshipRows(ShownEdges(p));
    forall i | 0 <= i < |rows| ensures |rows[i]| == |HEADER| && ReadRow(rows[i]) == expected[i] {
      assert rows[i] == EdgeRow(p, p.related[i]) && expected[i] == RowOf(ShownEdge(p, p.related[i]));
    }
    RowsReadPointwise(rows, expected);
  }

  lemma {:induction false} RowsReadPointwise(rows: seq<Row>, expected: seq<RelationshipRow>)
    requires |rows| == |expected|
    requires forall i :: 0 <= i < |rows| ==> |rows[i]| == |HEADER| && ReadRow(rows[i]) == expected[i]
    ensures ReadRows(rows) == Success(expected)
  {
    if rows != [] {
      RowsReadPointwise(rows[..|rows| - 1], expected[..|rows| - 1]);
      assert expected == expected[..|rows| - 1] + [expected[|rows| - 1]];
    }
  }

  lemma ReadOneMore(rows: seq<Row>, row: Row)
    requires ReadRows(rows).Success? && |row| == |HEADER|
    ensures ReadRows(rows + [row]) == Success(ReadRows(rows).value + [ReadRow(row)])
  {
    assert (rows + [row])[..|rows|] == rows;
  }

  lemma {:induction false} ReadRowsJoin(a: seq<Row>, b: seq<Row>, as': seq<RelationshipRow>, bs: seq<RelationshipRow>)
    requires ReadRows(a) == Success(as') && ReadRows(b) == Success(bs)
    ensures ReadRows(a + b) == Success(as' + bs)
  {
    if b == [] {
      assert a + b == a && as' + bs == as';
    } else {
      var init, last := b[..|b| - 1], b[|b| - 1];
      var inits := ReadRows(init).value;
      ReadRowsJoin(a, init, as', inits);
      ReadOneMore(a + init, last);
      assert a + b == a + init + [last];
      assert as' + bs == as' + inits + [ReadRow(last)];
    }
  }

  lemma RowsJoin(a: seq<R.CanonicalRelationship>, b: seq<R.CanonicalRelationship>)
    ensures RelationshipRows(a + b) == RelationshipRows(a) + RelationshipRows(b)
  {
  }

  /** Reading the exported rows back gives the rows of the edges the presentation shows. */
  lemma {:induction false} DataRowsRead(ps: seq<RelationshipPresentation>)
    ensures ReadRows(DataRows(ps)) == Success(RelationshipRows(Flattened(ps)))
  {
    if ps != [] {
      var init, last := ps[..|ps| - 1], ps[|ps| - 1];
      DataRowsRead(init);
      GroupRowsRead(last);
      ReadRowsJoin(DataRows(init), GroupRows(last), RelationshipRows(Flattened(init)), RelationshipRows(ShownEdges(last)));
      RowsJoin(Flattened(init), ShownEdges(last));
    } else {
      assert RelationshipRows(Flattened(ps)) == [];
    }
  }

  lemma CsvFileRead(ps: seq<RelationshipPresentation>)
    ensures ReadCsv(CsvFile(ps)) == Success(RelationshipRows(Flattened(ps)))
  {
    DataRowsRead(ps);
    assert CsvFile(ps)[1..] == DataRows(ps);
  }

  /** The run directory one application run leaves behind. */
  function ExportedRun(os: seq<Observation>, devices: DeviceLookup): Result<RunDirectory, string> {
    var presented :- Present(ReplayedEdges(os), devices);
    Success(RunDirectory(Tree(Serialize(os)), Some(CsvFile(presented))))
  }

  /** Every exported run replays as MATCH: the export never fails, and although the CSV is written through
      the presentation's regrouping while the replay starts from reordered records, the rows agree in order. */
  lemma ExportedRunReplaysAsMatch(os: seq<Observation>, devices: DeviceLookup)
    ensures ExportedRun(os, devices).Success?
    ensures ReplayCommand(ExportedRun(os, devices).value).exitCode == EXIT_MATCH
  {
    var edges := ReplayedEdges(os);
    ResolverOutputPresents(os, Pipeline.I.Subjects(Pipeline.Identities(os)), R.CATEGORY_CARDINALITY, devices);
    CsvFileRead(Present(edges, devices).value);
    RoundTrip(os);
    Pipeline.PipelineOrderIndependent(os, SerializedOrder(os), R.CATEGORY_CARDINALITY);
  }

  /** For two files that are there, MATCH says exactly that the artifact is the writer's document for some
      observations, up to the order of keys, and that the CSV holds the rows those observations resolve to. */
  lemma MatchExact(document: Json, csv: seq<Row>)
    ensures ReplayCommand(RunDirectory(Tree(document), Some(csv))).exitCode == EXIT_MATCH <==>
      exists os :: IsArtifactOf(document, os) && ReadCsv(csv) == Success(RelationshipRows(ReplayedEdges(os)))
  {
    if Parse(document).Success? { StrictParsingExact(document, Parse(document).value); }
    forall os | IsArtifactOf(document, os) ensures Parse(document) == Success(os) {
      StrictParsingExact(document, os);
    }
  }

  /** `document` is what the writer produces for `os`, its records in that order. */
  ghost predicate IsArtifactOf(document: Json, os: seq<Observation>) {
    SortKeys(document) == Document(os)
  }

  /** One run's artifact matches another run's CSV exactly when both runs resolve to the same rows. */
  lemma CrossReplay(os: seq<Observation>, os': seq<Observation>, devices: DeviceLookup)
    requires ExportedRun(os', devices).Success?
    ensures ReplayCommand(RunDirectory(Tree(Serialize(os)), ExportedRun(os', devices).value.csv)).exitCode ==
      if RelationshipRows(ReplayedEdges(os)) == RelationshipRows(ReplayedEdges(os')) then EXIT_MATCH else EXIT_MISMATCH
  {
    ResolverOutputPresents(os', Pipeline.I.Subjects(Pipeline.Identities(os')), R.CATEGORY_CARDINALITY, devices);
    CsvFileRead(Present(ReplayedEdges(os'), devices).value);
    RoundTrip(os);
    Pipeline.PipelineOrderIndependent(os, SerializedOrder(os), R.CATEGORY_CARDINALITY);
  }

  // ---- The loops ----

  method ReadRelationshipsCsv(rows: seq<Row>) returns (r: Result<seq<RelationshipRow>, InputError>)
    ensures r == ReadCsv(rows)
  {
    if rows == [] || rows[0] != HEADER { return Failure(UnexpectedHeader); }
    var data := rows[1..];
    var parsed: seq<RelationshipRow> := [];
    for i := 0 to |data|
      invariant ReadRows(data[..i]) == Success(parsed)
    {
      assert data[..i + 1][..i] == data[..i];
      if |data[i]| != |HEADER| {
        BadRowStays(data, i + 1);
        return Failure(WrongColumnCount(i + 2));
      }
      parsed := parsed + [ReadRow(data[i])];
    }
    assert data[..|data|] == data;
    return Success(parsed);
  }

  lemma {:induction false} BadRowStays(rows: seq<Row>, i: nat)
    requires i <= |rows| && ReadRows(rows[..i]).Failure?
    ensures ReadRows(rows) == ReadRows(rows[..i])
  {
    if i == |rows| {
      assert rows[..i] == rows;
    } else {
      assert rows[..|rows| - 1][..i] == rows[..i];
      BadRowStays(rows[..|rows| - 1], i);
    }
  }

  method CompareWithCsv(edges: seq<R.CanonicalRelationship>, csv: seq<Row>)
      returns (r: Result<Comparison, InputError>)
    ensures r.Success? <==> ReadCsv(csv).Success?
    ensures r.Success? ==> r.value == Compare(RelationshipRows(edges), ReadCsv(csv).value)
  {
    var read := ReadRelationshipsCsv(csv);
    if read.Failure? { return Failure(read.error); }
    var replayed, rows := RelationshipRows(edges), read.value;
    var common := CommonEdges(replayed, rows);
    var differing: seq<DifferingEdge> := [];
    for i := 0 to |common|
      invariant differing == Differing(common[..i], replayed, rows)
    {
      assert common[..i + 1][..i] == common[..i];
      var inCsv, inReplay := Select(RowEdge, common[i], rows), Select(RowEdge, common[i], replayed);
      if multiset(inCsv) != multiset(inReplay) {
        differing := differing + [DifferingEdge(common[i], inCsv, inReplay)];
      }
    }
    assert common[..|common|] == common;
    return Success(Comparison(
      replayed, rows, |EdgeCounter(rows) - EdgeCounter(replayed)|, |EdgeCounter(replayed) - EdgeCounter(rows)|,
      differing));
  }
}
