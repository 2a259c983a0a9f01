/** `RelationshipCsvExporter`: one row of cells per presented edge. */
module CsvExport {
  import opened Wrappers
  import opened Ordering
  import opened Grouping
  import opened Observations
  import opened Devices
  import opened Presentation
  import R = RelationshipResolution

  type Row = seq<string>

  const HEADER: Row := [
    "Subject", "Subject Hostname", "Category", "Related Subject", "Related Subject Hostname",
    "Corroboration State", "Provenance"]

  /** The state's own text. */
  function StateText(s: R.EdgeState): string {
    match s case Weak => "weak" case Confirmed => "confirmed" case Conflicting => "conflicting"
  }

  function Hostname(device: Option<DeviceInfo>): string {
    match device
    case Some(DeviceInfo(Some(name))) => name
    case _ => ""
  }

  function Token(s: Source): string { s.0 + "/" + s.1 }

  function Join(tokens: seq<string>): string {
    if tokens == [] then ""
    else if |tokens| == 1 then tokens[0]
    else Join(tokens[..|tokens| - 1]) + "," + tokens[|tokens| - 1]
  }

  /** One token per distinct source, in first-seen order. */
  function ProvenanceText(os: seq<RelationshipObservation>): string {
    Join(Mapped(Token, KeysInOrder(RelationshipSource, os)))
  }

  function EdgeRow(p: RelationshipPresentation, r: RelatedPresentation): Row {
    [p.subject, Hostname(p.device), p.category, r.relatedSubject, Hostname(r.device),
     StateText(r.state), ProvenanceText(r.observations)]
  }

  function GroupRows(p: RelationshipPresentation): seq<Row> {
    seq(|p.related|, i requires 0 <= i < |p.related| => EdgeRow(p, p.related[i]))
  }

  function DataRows(ps: seq<RelationshipPresentation>): seq<Row> {
    if ps == [] then [] else DataRows(ps[..|ps| - 1]) + GroupRows(ps[|ps| - 1])
  }

  function CsvFile(ps: seq<RelationshipPresentation>): seq<Row> { [HEADER] + DataRows(ps) }

  /** The exporter's dedupe loop: each source once, in first-seen order. */
  method DistinctSources(os: seq<RelationshipObservation>) returns (sources: seq<Source>)
    ensures sources == KeysInOrder(RelationshipSource, os)
  {
    var seen: set<Source> := {};
    sources := [];
    for i := 0 to |os|
      invariant sources == KeysInOrder(RelationshipSource, os[..i])
      invariant seen == Members(sources)
    {
      var key := RelationshipSource(os[i]);
      assert os[..i + 1][..i] == os[..i];
      if key !in seen {
        seen := seen + {key};
        sources := sources + [key];
      }
    }
    assert os[..|os|] == os;
  }

  method WriteGroup(p: RelationshipPresentation) returns (rows: seq<Row>)
    ensures rows == GroupRows(p)
  {
    rows := [];
    for j := 0 to |p.related|
      invariant rows == GroupRows(p)[..j]
    {
      var related := p.related[j];
      var sources := DistinctSources(related.observations);
      rows := rows + [[
        p.subject, Hostname(p.device), p.category, related.relatedSubject, Hostname(related.device),
        StateText(related.state), Join(Mapped(Token, sources))]];
    }
  }

  method Export(edges: seq<R.CanonicalRelationship>, devices: DeviceLookup) returns (file: Result<seq<Row>, string>)
    ensures file ==
      match Present(edges, devices) { case Success(ps) => Success(CsvFile(ps)) case Failure(e) => Failure(e) }
  {
    var presented := PresentRelationships(edges, devices);
    if presented.Failure? { return Failure(presented.error); }
    var ps := presented.value;
    var rows: seq<Row> := [HEADER];
    for i := 0 to |ps|
      invariant rows == CsvFile(ps[..i])
    {
      assert ps[..i + 1][..i] == ps[..i];
      var group := WriteGroup(ps[i]);
      rows := rows + group;
    }
    assert ps[..|ps|] == ps;
    return Success(rows);
  }
}
