/** What the replay command answers, for every run directory. */
module ReplayExact {
  import opened Wrappers
  import opened Ordering
  import opened Grouping
  import opened Json
  import opened Observations
  import opened ReplayFormat
  import opened FormatExact
  import opened CsvExport
  import opened Devices
  import opened Presentation
  import opened ConclusionsExact
  import opened ExportExact
  import opened Replay
  import R = RelationshipResolution
  import Pipeline

  // ---- Reading the CSV ----

  predicate HeaderRow(row: Row) {
    row == ["Subject", "Subject Hostname", "Category", "Related Subject", "Related Subject Hostname",
            "Corroboration State", "Provenance"]
  }

  predicate HasHeader(csv: seq<Row>) { csv != [] && HeaderRow(csv[0]) }

  predicate SevenColumns(rows: seq<Row>) { forall i :: 0 <= i < |rows| ==> |rows[i]| == 7 }

  predicate RowRead(read: RelationshipRow, row: Row) {
    && |row| == 7
    && read.subject == row[0] && read.category == row[2] && read.relatedSubject == row[3]
    && read.state == row[5] && read.provenance == row[6]
  }

  predicate RowsRead(read: seq<RelationshipRow>, rows: seq<Row>) {
    |read| == |rows| && forall i :: 0 <= i < |rows| ==> RowRead(read[i], rows[i])
  }

  lemma {:induction false} ReadRowsExact(rows: seq<Row>)
    ensures ReadRows(rows).Success? <==> SevenColumns(rows)
    ensures ReadRows(rows).Success? ==> RowsRead(ReadRows(rows).value, rows)
  {
    if rows != [] {
      var init := rows[..|rows| - 1];
      ReadRowsExact(init);
      if SevenColumns(init) && |rows[|rows| - 1]| == 7 { assert SevenColumns(rows); }
    }
  }

  lemma {:induction false} FirstBadRow(rows: seq<Row>)
    requires ReadRows(rows).Failure?
    ensures ReadRows(rows).error.WrongColumnCount?
    ensures var line := ReadRows(rows).error.line;
      2 <= line < |rows| + 2 && |rows[line - 2]| != 7 && SevenColumns(rows[..line - 2])
  {
    var init := rows[..|rows| - 1];
    ReadRowsExact(init);
    if ReadRows(init).Failure? {
      FirstBadRow(init);
      var line := ReadRows(init).error.line;
      assert init[..line - 2] == rows[..line - 2];
    }
  }

  /** The rows after the header, or the first thing wrong with the file: its header, or the line number of the
      first row that has not seven columns. */
  lemma ReadCsvExact(csv: seq<Row>)
    ensures var read := ReadCsv(csv);
      && (read.Success? <==> HasHeader(csv) && SevenColumns(csv[1..]))
      && (read.Success? ==> RowsRead(read.value, csv[1..]))
      && (read == Failure(UnexpectedHeader) <==> !HasHeader(csv))
      && (read.Failure? && read.error.WrongColumnCount? ==>
            && 2 <= read.error.line <= |csv| && |csv[read.error.line - 1]| != 7
            && SevenColumns(csv[1..read.error.line - 1]))
  {
    if HasHeader(csv) {
      ReadRowsExact(csv[1..]);
      if ReadCsv(csv).Failure? {
        FirstBadRow(csv[1..]);
        var line := ReadCsv(csv).error.line;
        assert csv[1..][..line - 2] == csv[1..line - 1];
      }
    }
  }

  // ---- The answer ----

  /** The row of an edge in the compared columns, from the edge and its claims. */
  ghost predicate ComparedRow(row: Row, c: R.CanonicalRelationship, os: seq<Observation>) {
    && |row| == 7
    && row[0] == c.subject && row[2] == c.category && row[3] == c.relatedSubject
    && row[5] == (if EdgeCorroborated(os, c) then "confirmed" else "weak")
    && row[6] == SourceList(c.observations)
  }

  /** The CSV holds the header and, in the resolver's order, one row for every edge `os` resolves to. */
  ghost predicate ShowsRun(csv: seq<Row>, os: seq<Observation>) {
    var edges := Pipeline.Edges(os, R.CATEGORY_CARDINALITY);
    && HasHeader(csv)
    && |csv| == |edges| + 1
    && forall i :: 0 <= i < |edges| ==> ComparedRow(csv[i + 1], edges[i], os)
  }

  lemma RowOfExact(os: seq<Observation>, c: R.CanonicalRelationship, read: RelationshipRow, row: Row)
    requires c in Pipeline.Edges(os, R.CATEGORY_CARDINALITY) && RowRead(read, row)
    ensures read == RowOf(c) <==> ComparedRow(row, c, os)
  {
    var valid := Pipeline.I.Subjects(Pipeline.Identities(os));
    EdgeStateExact(os, valid, R.CATEGORY_CARDINALITY, c);
    DefaultNeverConflicts(os, valid, c);
    ProvenanceIsSourceList(c.observations);
  }

  lemma RowsAgree(os: seq<Observation>, csv: seq<Row>)
    ensures ReadCsv(csv) == Success(RelationshipRows(ReplayedEdges(os))) <==> ShowsRun(csv, os)
  {
    var edges := ReplayedEdges(os);
    var rows := RelationshipRows(edges);
    ReadCsvExact(csv);
    if ReadCsv(csv).Success? && |csv| == |edges| + 1 {
      var read := ReadCsv(csv).value;
      forall i | 0 <= i < |edges| ensures read[i] == rows[i] <==> ComparedRow(csv[i + 1], edges[i], os) {
        RowOfExact(os, edges[i], read[i], csv[i + 1]);
      }
      assert read == rows <==> forall i :: 0 <= i < |edges| ==> read[i] == rows[i];
    }
    if ShowsRun(csv, os) {
      forall i | 0 <= i < |csv| - 1 ensures |csv[1..][i]| == 7 {
        assert ComparedRow(csv[i + 1], edges[i], os);
      }
    }
  }

  ghost predicate ReplayedRow(replayed: RelationshipRow, c: R.CanonicalRelationship, os: seq<Observation>) {
    && SameFields(replayed, c)
    && replayed.state == (if EdgeCorroborated(os, c) then "confirmed" else "weak")
    && replayed.provenance == SourceList(c.observations)
  }

  predicate SameFields(row: RelationshipRow, c: R.CanonicalRelationship) {
    row.subject == c.subject && row.category == c.category && row.relatedSubject == c.relatedSubject
  }

  lemma RowOfReplayed(os: seq<Observation>, c: R.CanonicalRelationship)
    requires c in Pipeline.Edges(os, R.CATEGORY_CARDINALITY)
    ensures ReplayedRow(RowOf(c), c, os)
  {
    var valid := Pipeline.I.Subjects(Pipeline.Identities(os));
    EdgeStateExact(os, valid, R.CATEGORY_CARDINALITY, c);
    DefaultNeverConflicts(os, valid, c);
    ProvenanceIsSourceList(c.observations);
  }

  /** The two sides of the comparison: the edges of the artifact's observations, and the data rows of the CSV. */
  ghost predicate Compares(c: Comparison, os: seq<Observation>, csv: seq<Row>) {
    var edges := Pipeline.Edges(os, R.CATEGORY_CARDINALITY);
    && csv != [] && RowsRead(c.csvRows, csv[1..])
    && |c.replayedRows| == |edges|
    && forall i :: 0 <= i < |edges| ==> ReplayedRow(c.replayedRows[i], edges[i], os)
  }

  /** A run that can be replayed is compared row by row: what its artifact resolves to against its CSV. */
  lemma ComparisonMade(document: Json, csv: seq<Row>, os: seq<Observation>)
    requires DocumentWritten(document, os) && HasHeader(csv) && SevenColumns(csv[1..])
    ensures var comparison := ReplayCommand(RunDirectory(Tree(document), Some(csv))).comparison;
      comparison.Some? && Compares(comparison.value, os, csv)
  {
    ParsedIsArtifact(document, os);
    ReadCsvExact(csv);
    var edges := ReplayedEdges(os);
    forall i | 0 <= i < |edges| ensures ReplayedRow(RelationshipRows(edges)[i], edges[i], os) {
      RowOfReplayed(os, edges[i]);
    }
  }

  /** Some list of observations has this document for its artifact. */
  ghost predicate IsArtifact(document: Json) {
    exists os :: DocumentWritten(document, os)
  }

  ghost predicate ShowsArtifact(document: Json, csv: seq<Row>) {
    exists os :: DocumentWritten(document, os) && ShowsRun(csv, os)
  }

  lemma ParsedIsArtifact(document: Json, os: seq<Observation>)
    ensures Parse(document) == Success(os) <==> DocumentWritten(document, os)
  {
    StrictParsingExact(document, os);
    DocumentLiteral(document, os);
  }

  lemma ArtifactExact(document: Json, parsed: Result<seq<Observation>, FormatError>)
    requires parsed == Parse(document)
    ensures IsArtifact(document) <==> parsed.Success?
  {
    if parsed.Success? { ParsedIsArtifact(document, parsed.value); }
    if os :| DocumentWritten(document, os) { ParsedIsArtifact(document, os); }
  }

  lemma ShownExact(document: Json, csv: seq<Row>)
    ensures ShowsArtifact(document, csv) <==> ReplayCommand(RunDirectory(Tree(document), Some(csv))).exitCode == 0
  {
    MatchExact(document, csv);
    if os :| DocumentWritten(document, os) && ShowsRun(csv, os) {
      DocumentLiteral(document, os);
      RowsAgree(os, csv);
    }
    if os :| IsArtifactOf(document, os) && ReadCsv(csv) == Success(RelationshipRows(ReplayedEdges(os))) {
      DocumentLiteral(document, os);
      RowsAgree(os, csv);
    }
  }

  /** The directory or one of its two files is missing, or a file cannot be used. */
  ghost predicate CannotReplay(run: RunDirectory) {
    match run
    case NoDirectory => true
    case RunDirectory(observations, csv) =>
      || observations == NoObservations || observations == NotJson || csv == None
      || !IsArtifact(observations.document)
      || !HasHeader(csv.value) || !SevenColumns(csv.value[1..])
  }

  /** Everything is there, and the CSV shows what the artifact's observations resolve to. */
  ghost predicate Replays(run: RunDirectory) {
    && run.RunDirectory? && run.observations.Tree? && run.csv.Some?
    && ShowsArtifact(run.observations.document, run.csv.value)
  }

  /** Exit code 2 for a run that cannot be replayed, 0 for one whose CSV shows what its artifact resolves to, and
      1 for every other run; a comparison is made exactly when the run could be replayed. */
  lemma AnswerExact(run: RunDirectory)
    ensures ReplayCommand(run).exitCode == 2 <==> CannotReplay(run)
    ensures ReplayCommand(run).exitCode == 0 <==> Replays(run)
    ensures ReplayCommand(run).exitCode == 1 <==> !CannotReplay(run) && !Replays(run)
    ensures ReplayCommand(run).comparison.Some? <==> !CannotReplay(run)
  {
    match run
    case RunDirectory(Tree(document), Some(csv)) =>
      ArtifactExact(document, Parse(document));
      ReadCsvExact(csv);
      ShownExact(document, csv);
    case _ =>
  }

  /** The run an application leaves behind: the writer's document of its observations, and a CSV file that shows
      what they resolve to. */
  lemma ExportedRunExact(os: seq<Observation>, devices: DeviceLookup)
    ensures var run := ExportedRun(os, devices);
      && run.Success? && run.value.RunDirectory? && run.value.observations == Tree(Serialize(os))
      && run.value.csv.Some? && ShowsRun(run.value.csv.value, os)
  {
    var valid := Pipeline.I.Subjects(Pipeline.Identities(os));
    ResolverOutputPresents(os, valid, R.CATEGORY_CARDINALITY, devices);
    var file := CsvFile(Present(ReplayedEdges(os), devices).value);
    CsvFileRead(Present(ReplayedEdges(os), devices).value);
    RowsAgree(os, file);
  }

  /** The names in the exported rows, too, are those found at the edges' addresses. */
  lemma ExportedRow(os: seq<Observation>, devices: DeviceLookup, run: RunDirectory, i: nat)
    requires ExportedRun(os, devices) == Success(run) && i < |ReplayedEdges(os)|
    ensures run.RunDirectory? && run.csv.Some? && i + 1 < |run.csv.value|
    ensures RowFor(run.csv.value[i + 1], ReplayedEdges(os)[i], os, Pipeline.I.Subjects(Pipeline.Identities(os)),
                   R.CATEGORY_CARDINALITY, devices)
  {
    RowExact(os, Pipeline.I.Subjects(Pipeline.Identities(os)), R.CATEGORY_CARDINALITY, devices, run.csv.value, i);
  }

  // ---- The comparison ----

  predicate SameEdge(a: RelationshipRow, b: RelationshipRow) {
    a.subject == b.subject && a.category == b.category && a.relatedSubject == b.relatedSubject
  }

  /** How many of `rows` name the edge that `row` names. */
  function Alike(rows: seq<RelationshipRow>, row: RelationshipRow): nat {
    if rows == [] then 0
    else Alike(rows[..|rows| - 1], row) + if SameEdge(rows[|rows| - 1], row) then 1 else 0
  }

  /** The rows of an edge count against the other side's rows of that edge, one for one; how many are left. */
  function Surplus(rows: seq<RelationshipRow>, others: seq<RelationshipRow>): nat {
    if rows == [] then 0
    else
      var init, last := rows[..|rows| - 1], rows[|rows| - 1];
      Surplus(init, others) + if Alike(init, last) >= Alike(others, last) then 1 else 0
  }

  lemma SameEdgeIsRowEdge(a: RelationshipRow, b: RelationshipRow)
    ensures RowEdge(a) == RowEdge(b) <==> SameEdge(a, b)
  {
    var x, y := RowEdge(a), RowEdge(b);
    if x == y { assert x[0] == y[0] && x[1] == y[1] && x[2] == y[2]; }
  }

  lemma EdgeCounterGrows(rows: seq<RelationshipRow>)
    requires rows != []
    ensures EdgeCounter(rows) == EdgeCounter(rows[..|rows| - 1]) + multiset{RowEdge(rows[|rows| - 1])}
  {
    assert Mapped(RowEdge, rows) == Mapped(RowEdge, rows[..|rows| - 1]) + [RowEdge(rows[|rows| - 1])];
  }

  lemma {:induction false} AlikeCounts(rows: seq<RelationshipRow>, row: RelationshipRow)
    ensures EdgeCounter(rows)[RowEdge(row)] == Alike(rows, row)
  {
    if rows == [] {
      assert Mapped(RowEdge, rows) == [];
    } else {
      AlikeCounts(rows[..|rows| - 1], row);
      EdgeCounterGrows(rows);
      SameEdgeIsRowEdge(rows[|rows| - 1], row);
    }
  }

  lemma OneMore(a: multiset<Key>, b: multiset<Key>, e: Key)
    ensures |(a + multiset{e}) - b| == |a - b| + if a[e] >= b[e] then 1 else 0
  {
    if a[e] >= b[e] {
      assert (a + multiset{e}) - b == (a - b) + multiset{e};
    } else {
      assert (a + multiset{e}) - b == a - b;
    }
  }

  lemma {:induction false} SurplusCounts(rows: seq<RelationshipRow>, others: seq<RelationshipRow>)
    ensures |EdgeCounter(rows) - EdgeCounter(others)| == Surplus(rows, others)
  {
    if rows == [] {
      assert Mapped(RowEdge, rows) == [];
    } else {
      var init, last := rows[..|rows| - 1], rows[|rows| - 1];
      SurplusCounts(init, others);
      EdgeCounterGrows(rows);
      AlikeCounts(init, last);
      AlikeCounts(others, last);
      OneMore(EdgeCounter(init), EdgeCounter(others), RowEdge(last));
    }
  }

  /** `mine` are the rows of one edge, with their multiplicities. */
  ghost predicate RowsOfEdge(mine: seq<RelationshipRow>, edge: Key, rows: seq<RelationshipRow>) {
    && |edge| == 3 && mine != []
    && forall row :: multiset(mine)[row] ==
         if row.subject == edge[0] && row.category == edge[1] && row.relatedSubject == edge[2] then multiset(rows)[row]
         else 0
  }

  ghost predicate DiffersAt(d: DifferingEdge, replayed: seq<RelationshipRow>, csv: seq<RelationshipRow>) {
    && RowsOfEdge(d.csvRows, d.edge, csv) && RowsOfEdge(d.replayedRows, d.edge, replayed)
    && multiset(d.csvRows) != multiset(d.replayedRows)
  }

  lemma SelectedRows(e: Key, rows: seq<RelationshipRow>)
    requires EdgeCounter(rows)[e] > 0
    ensures RowsOfEdge(Select(RowEdge, e, rows), e, rows)
  {
    var mine := Select(RowEdge, e, rows);
    EdgeCounts(rows, e);
    SelectMembers(RowEdge, e, rows);
    assert mine[0] in mine && |RowEdge(mine[0])| == 3;
    forall row: RelationshipRow ensures multiset(mine)[row] ==
      if row.subject == e[0] && row.category == e[1] && row.relatedSubject == e[2] then multiset(rows)[row] else 0 {
      SelectCounts(RowEdge, e, rows, row);
      assert RowEdge(row) == e <==> row.subject == e[0] && row.category == e[1] && row.relatedSubject == e[2];
    }
  }

  lemma {:induction false} DifferingSound(edges: seq<Key>, replayed: seq<RelationshipRow>, csv: seq<RelationshipRow>)
    requires forall e :: e in edges ==> EdgeCounter(replayed)[e] > 0 && EdgeCounter(csv)[e] > 0
    ensures forall d :: d in Differing(edges, replayed, csv) ==> DiffersAt(d, replayed, csv)
  {
    if edges != [] {
      var init, last := edges[..|edges| - 1], edges[|edges| - 1];
      assert last in edges && forall e :: e in init ==> e in edges;
      DifferingSound(init, replayed, csv);
      SelectedRows(last, replayed);
      SelectedRows(last, csv);
    }
  }

  ghost predicate Listed(ds: seq<DifferingEdge>, edge: Key) {
    exists d :: d in ds && d.edge == edge
  }

  lemma {:induction false} DifferingComplete(edges: seq<Key>, replayed: seq<RelationshipRow>, csv: seq<RelationshipRow>,
                                             e: Key)
    requires e in edges && multiset(Select(RowEdge, e, csv)) != multiset(Select(RowEdge, e, replayed))
    ensures Listed(Differing(edges, replayed, csv), e)
  {
    var init, last := edges[..|edges| - 1], edges[|edges| - 1];
    var all := Differing(edges, replayed, csv);
    if e == last {
      assert all[|all| - 1].edge == e && all[|all| - 1] in all;
    } else {
      assert e in init;
      DifferingComplete(init, replayed, csv, e);
      var d :| d in Differing(init, replayed, csv) && d.edge == e;
      assert d in all;
    }
  }

  /** Rows missing and rows too many are counted edge by edge, and the differing edges are exactly those which both
      sides name and whose rows are not the same, with all their rows from either side. */
  lemma CompareExact(replayed: seq<RelationshipRow>, csv: seq<RelationshipRow>)
    ensures var c := Compare(replayed, csv);
      && c.missingFromReplay == Surplus(csv, replayed) && c.notInCsv == Surplus(replayed, csv)
      && forall d :: d in c.differing ==> DiffersAt(d, replayed, csv)
  {
    SurplusCounts(csv, replayed);
    SurplusCounts(replayed, csv);
    var common := CommonEdges(replayed, csv);
    forall e | e in common ensures EdgeCounter(replayed)[e] > 0 && EdgeCounter(csv)[e] > 0 {
      CommonEdgesExact(replayed, csv, e);
    }
    DifferingSound(common, replayed, csv);
  }

  /** An edge named on both sides, with a row that one side holds more often, is among the differing edges. */
  lemma CompareMissesNothing(replayed: seq<RelationshipRow>, csv: seq<RelationshipRow>, row: RelationshipRow)
    requires multiset(replayed)[row] != multiset(csv)[row] && Alike(replayed, row) > 0 && Alike(csv, row) > 0
    ensures Listed(Compare(replayed, csv).differing, [row.subject, row.category, row.relatedSubject])
  {
    var e := RowEdge(row);
    AlikeCounts(replayed, row);
    AlikeCounts(csv, row);
    CommonEdgesExact(replayed, csv, e);
    SelectCounts(RowEdge, e, replayed, row);
    SelectCounts(RowEdge, e, csv, row);
    assert multiset(Select(RowEdge, e, csv))[row] != multiset(Select(RowEdge, e, replayed))[row];
    DifferingComplete(CommonEdges(replayed, csv), replayed, csv, e);
  }
}
