/** The exported CSV file, cell by cell, from the observations its edges were concluded from. */
module ExportExact {
  import opened Wrappers
  import opened Ordering
  import opened Grouping
  import opened Observations
  import opened Devices
  import opened Presentation
  import opened CsvExport
  import opened ConclusionsExact
  import R = RelationshipResolution

  // ---- The provenance cell ----

  /** One of `os` has this provider and method. */
  predicate Seen(os: seq<RelationshipObservation>, p: Provenance) {
    exists o :: o in os && o.provenance.provider == p.provider && o.provenance.collectionMethod == p.collectionMethod
  }

  function SourceName(o: RelationshipObservation): string {
    o.provenance.provider + "/" + o.provenance.collectionMethod
  }

  /** "provider/method" for each observation whose source was not seen before it, with commas between. */
  function SourceList(os: seq<RelationshipObservation>): string {
    if os == [] then ""
    else
      var earlier, o := os[..|os| - 1], os[|os| - 1];
      if Seen(earlier, o.provenance) then SourceList(earlier)
      else if earlier == [] then SourceName(o)
      else SourceList(earlier) + "," + SourceName(o)
  }

  lemma SeenIsKey(os: seq<RelationshipObservation>, o: RelationshipObservation)
    ensures Seen(os, o.provenance) <==> RelationshipSource(o) in KeysInOrder(RelationshipSource, os)
  {
    KeysExact(RelationshipSource, os, RelationshipSource(o));
    if x :| x in os && x.provenance.provider == o.provenance.provider
            && x.provenance.collectionMethod == o.provenance.collectionMethod {
      assert RelationshipSource(x) == RelationshipSource(o);
    }
  }

  lemma {:induction false} SomeKey(os: seq<RelationshipObservation>)
    requires os != []
    ensures KeysInOrder(RelationshipSource, os) != []
  {
    KeysExact(RelationshipSource, os, RelationshipSource(os[0]));
  }

  lemma {:induction false} ProvenanceIsSourceList(os: seq<RelationshipObservation>)
    ensures ProvenanceText(os) == SourceList(os)
  {
    var keys := KeysInOrder(RelationshipSource, os);
    if os != [] {
      var earlier, o := os[..|os| - 1], os[|os| - 1];
      ProvenanceIsSourceList(earlier);
      SeenIsKey(earlier, o);
      var before := KeysInOrder(RelationshipSource, earlier);
      if !Seen(earlier, o.provenance) {
        assert keys == before + [RelationshipSource(o)];
        assert Mapped(Token, keys) == Mapped(Token, before) + [Token(RelationshipSource(o))];
        assert Mapped(Token, keys)[..|before|] == Mapped(Token, before);
        if earlier != [] { SomeKey(earlier); }
      }
    }
  }

  /** `text.split(",")`. */
  function Pieces(text: string): (parts: seq<string>)
    ensures parts != []
  {
    if text == "" then [""]
    else
      var parts, c := Pieces(text[..|text| - 1]), text[|text| - 1];
      if c == ',' then parts + [""] else parts[..|parts| - 1] + [parts[|parts| - 1] + [c]]
  }

  /** `parts` with `more` written behind the last of them. */
  function Longer(parts: seq<string>, more: string): seq<string>
    requires parts != []
  {
    parts[..|parts| - 1] + [parts[|parts| - 1] + more]
  }

  lemma LongerTwice(parts: seq<string>, a: string, b: string)
    requires parts != []
    ensures Longer(Longer(parts, a), b) == Longer(parts, a + b) && Longer(parts, "") == parts
  {
    var last := parts[|parts| - 1];
    assert last + a + b == last + (a + b) && last + "" == last;
  }

  lemma PiecesStep(text: string, c: char)
    ensures Pieces(text + [c]) == if c == ',' then Pieces(text) + [""] else Longer(Pieces(text), [c])
  {
    assert (text + [c])[..|text|] == text;
  }

  lemma {:induction false} PiecesGrow(text: string, part: string)
    requires ',' !in part
    ensures Pieces(text + part) == Longer(Pieces(text), part)
  {
    if part == "" {
      assert text + part == text;
      LongerTwice(Pieces(text), "", "");
    } else {
      var init, c := part[..|part| - 1], part[|part| - 1];
      var whole := text + part;
      assert whole[..|whole| - 1] == text + init;
      PiecesGrow(text, init);
      LongerTwice(Pieces(text), init, [c]);
      assert Pieces(whole) == Longer(Pieces(text + init), [c]);
      assert init + [c] == part;
    }
  }

  lemma PiecesAdd(text: string, part: string)
    requires ',' !in part
    ensures Pieces(text + "," + part) == Pieces(text) + [part]
  {
    PiecesStep(text, ',');
    PiecesGrow(text + ",", part);
    assert "" + part == part;
  }

  ghost predicate NoCommas(os: seq<RelationshipObservation>) {
    forall o :: o in os ==> ',' !in o.provenance.provider && ',' !in o.provenance.collectionMethod
  }

  /** The positions where a source occurs for the first time. */
  function Firsts(os: seq<RelationshipObservation>): seq<nat> {
    if os == [] then []
    else
      var earlier := os[..|os| - 1];
      if Seen(earlier, os[|os| - 1].provenance) then Firsts(earlier) else Firsts(earlier) + [|os| - 1]
  }

  lemma {:induction false} FirstsBelow(os: seq<RelationshipObservation>, i: nat)
    requires i < |Firsts(os)|
    ensures Firsts(os)[i] < |os|
  {
    var earlier := os[..|os| - 1];
    if i < |Firsts(earlier)| { FirstsBelow(earlier, i); }
  }

  /** They ascend. */
  lemma {:induction false} FirstsAscend(os: seq<RelationshipObservation>, i: nat, j: nat)
    requires i < j < |Firsts(os)|
    ensures Firsts(os)[i] < Firsts(os)[j]
  {
    var earlier := os[..|os| - 1];
    if j < |Firsts(earlier)| { FirstsAscend(earlier, i, j); } else { FirstsBelow(earlier, i); }
  }

  /** A position is among them exactly when nothing before it has the same provider and method. */
  lemma {:induction false} FirstsExact(os: seq<RelationshipObservation>, k: nat)
    ensures k in Firsts(os) <==> k < |os| && !Seen(os[..k], os[k].provenance)
  {
    if os != [] {
      var earlier := os[..|os| - 1];
      FirstsExact(earlier, k);
      if k < |earlier| { assert os[..k] == earlier[..k]; }
    }
  }

  lemma SourceListOne(os: seq<RelationshipObservation>)
    requires |os| == 1 && ',' !in SourceName(os[0])
    ensures Pieces(SourceList(os)) == [SourceName(os[0])] && Firsts(os) == [0]
  {
    assert os[..0] == [];
    PiecesGrow("", SourceName(os[0]));
    assert "" + SourceName(os[0]) == SourceName(os[0]);
  }

  /** A source not seen before adds its name as one more part; one seen before adds nothing. */
  lemma SourceListLast(os: seq<RelationshipObservation>)
    requires |os| > 1 && ',' !in SourceName(os[|os| - 1])
    ensures Pieces(SourceList(os)) == Pieces(SourceList(os[..|os| - 1]))
      + if Seen(os[..|os| - 1], os[|os| - 1].provenance) then [] else [SourceName(os[|os| - 1])]
  {
    PiecesAdd(SourceList(os[..|os| - 1]), SourceName(os[|os| - 1]));
  }

  /** When no name of a provider or method holds a comma, the cell can be taken apart again: splitting it at its
      commas lists each source of the evidence once, in the order in which they are first seen. */
  lemma {:induction false} SourceListSplits(os: seq<RelationshipObservation>, i: nat)
    requires os != [] && NoCommas(os)
    ensures |Pieces(SourceList(os))| == |Firsts(os)|
    ensures i < |Firsts(os)| ==> Firsts(os)[i] < |os| && Pieces(SourceList(os))[i] == SourceName(os[Firsts(os)[i]])
  {
    var earlier, o := os[..|os| - 1], os[|os| - 1];
    assert o in os;
    if |os| == 1 {
      SourceListOne(os);
    } else {
      CommasBefore(os);
      SourceListSplits(earlier, i);
      SourceListLast(os);
    }
  }

  lemma CommasBefore(os: seq<RelationshipObservation>)
    requires os != [] && NoCommas(os)
    ensures NoCommas(os[..|os| - 1])
  {
    var earlier := os[..|os| - 1];
    forall x | x in earlier ensures ',' !in x.provenance.provider && ',' !in x.provenance.collectionMethod {
      assert x in os;
    }
  }

  // ---- The rows ----

  /** The device's name where the address has a device that has one, and nothing otherwise. */
  predicate NameCell(cell: string, devices: DeviceLookup, ip: string) {
    cell == if ip in devices && devices[ip].hostname.Some? then devices[ip].hostname.value else ""
  }

  ghost predicate StateCell(cell: string, os: seq<Observation>, valid: set<string>, policy: R.Policy,
                            c: R.CanonicalRelationship)
  {
    if c.category in policy && policy[c.category] == R.SINGLE && Rivalled(os, valid, c) then cell == "conflicting"
    else if EdgeCorroborated(os, c) then cell == "confirmed"
    else cell == "weak"
  }

  ghost predicate ShowsEdge(row: Row, c: R.CanonicalRelationship, devices: DeviceLookup) {
    && |row| == 7
    && row[0] == c.subject && NameCell(row[1], devices, c.subject)
    && row[2] == c.category
    && row[3] == c.relatedSubject && NameCell(row[4], devices, c.relatedSubject)
    && row[6] == SourceList(c.observations)
  }

  /** The row of an edge whose devices have been looked up. */
  function LookedUpRow(c: R.CanonicalRelationship, devices: DeviceLookup): Row {
    [c.subject, CsvExport.Hostname(Looked(devices, c.subject)), c.category, c.relatedSubject,
     CsvExport.Hostname(Looked(devices, c.relatedSubject)), StateText(c.state), ProvenanceText(c.observations)]
  }

  function LookedUpRows(edges: seq<R.CanonicalRelationship>, devices: DeviceLookup): (rows: seq<Row>)
    ensures |rows| == |edges| && forall i :: 0 <= i < |rows| ==> rows[i] == LookedUpRow(edges[i], devices)
  {
    seq(|edges|, i requires 0 <= i < |edges| => LookedUpRow(edges[i], devices))
  }

  lemma LookedUpRowShows(c: R.CanonicalRelationship, devices: DeviceLookup)
    ensures ShowsEdge(LookedUpRow(c, devices), c, devices)
  {
    ProvenanceIsSourceList(c.observations);
  }

  /** A presentation's devices are those found at its addresses. */
  ghost predicate DevicesFound(p: RelationshipPresentation, devices: DeviceLookup) {
    && p.device == Looked(devices, p.subject)
    && forall i :: 0 <= i < |p.related| ==> p.related[i].device == Looked(devices, p.related[i].relatedSubject)
  }

  lemma {:induction false} PresentedDevices(groups: seq<Key>, edges: seq<R.CanonicalRelationship>, devices: DeviceLookup)
    requires forall g :: g in groups ==> |g| == 2
    requires PresentGroups(groups, edges, devices).Success?
    ensures forall p :: p in PresentGroups(groups, edges, devices).value ==> DevicesFound(p, devices)
  {
    if groups != [] {
      PresentedDevices(groups[..|groups| - 1], edges, devices);
      var g := groups[|groups| - 1];
      assert DevicesFound(PresentGroup(g, Select(R.Group, g, edges), devices).value, devices);
    }
  }

  lemma GroupRowsLookedUp(p: RelationshipPresentation, devices: DeviceLookup)
    requires DevicesFound(p, devices)
    ensures GroupRows(p) == LookedUpRows(ShownEdges(p), devices)
  {
    forall i | 0 <= i < |p.related| ensures GroupRows(p)[i] == LookedUpRow(ShownEdges(p)[i], devices) {
      assert GroupRows(p)[i] == EdgeRow(p, p.related[i]);
    }
  }

  lemma {:induction false} DataRowsLookedUp(ps: seq<RelationshipPresentation>, devices: DeviceLookup)
    requires forall p :: p in ps ==> DevicesFound(p, devices)
    ensures DataRows(ps) == LookedUpRows(Flattened(ps), devices)
  {
    if ps != [] {
      var init, last := ps[..|ps| - 1], ps[|ps| - 1];
      assert last in ps && forall p :: p in init ==> p in ps;
      DataRowsLookedUp(init, devices);
      GroupRowsLookedUp(last, devices);
    }
  }

  /** The rows of the file are the edges in order, each with its own cells. */
  lemma ResolvedFile(os: seq<Observation>, valid: set<string>, policy: R.Policy, devices: DeviceLookup)
    ensures Present(R.Resolve(os, valid, policy), devices).Success?
    ensures CsvFile(Present(R.Resolve(os, valid, policy), devices).value)
      == [HEADER] + LookedUpRows(R.Resolve(os, valid, policy), devices)
  {
    var edges := R.Resolve(os, valid, policy);
    ResolverOutputPresents(os, valid, policy, devices);
    Presentation.GroupsHaveTwoParts(edges);
    PresentedDevices(KeysInOrder(R.Group, edges), edges, devices);
    DataRowsLookedUp(Present(edges, devices).value, devices);
  }

  /** The cells of an edge's row: the edge, the names found at its two addresses, the state its claims call for
      and the sources of its evidence. */
  ghost predicate RowFor(row: Row, c: R.CanonicalRelationship, os: seq<Observation>, valid: set<string>,
                         policy: R.Policy, devices: DeviceLookup) {
    ShowsEdge(row, c, devices) && StateCell(row[5], os, valid, policy, c)
  }

  lemma CellsExact(os: seq<Observation>, valid: set<string>, policy: R.Policy, devices: DeviceLookup,
                   c: R.CanonicalRelationship)
    requires c in R.Resolve(os, valid, policy)
    ensures RowFor(LookedUpRow(c, devices), c, os, valid, policy, devices)
  {
    LookedUpRowShows(c, devices);
    EdgeStateExact(os, valid, policy, c);
  }

  /** The exported file is never refused: the header, then as many rows as there are edges. */
  lemma FileExact(os: seq<Observation>, valid: set<string>, policy: R.Policy, devices: DeviceLookup)
    ensures Present(R.Resolve(os, valid, policy), devices).Success?
    ensures var file := CsvFile(Present(R.Resolve(os, valid, policy), devices).value);
      && |file| == |R.Resolve(os, valid, policy)| + 1
      && file[0] == ["Subject", "Subject Hostname", "Category", "Related Subject", "Related Subject Hostname",
                     "Corroboration State", "Provenance"]
  {
    ResolvedFile(os, valid, policy, devices);
  }

  lemma RowAt(edges: seq<R.CanonicalRelationship>, file: seq<Row>, devices: DeviceLookup, i: nat)
    requires i < |edges| && file == [HEADER] + LookedUpRows(edges, devices)
    ensures i + 1 < |file| && file[i + 1] == LookedUpRow(edges[i], devices)
  {
  }

  /** Row `i + 1` is the row of the `i`-th edge in the resolver's order. */
  lemma RowExact(os: seq<Observation>, valid: set<string>, policy: R.Policy, devices: DeviceLookup,
                 file: seq<Row>, i: nat)
    requires Present(R.Resolve(os, valid, policy), devices).Success?
    requires file == CsvFile(Present(R.Resolve(os, valid, policy), devices).value)
    requires i < |R.Resolve(os, valid, policy)|
    ensures i + 1 < |file| && RowFor(file[i + 1], R.Resolve(os, valid, policy)[i], os, valid, policy, devices)
  {
    var edges := R.Resolve(os, valid, policy);
    ResolvedFile(os, valid, policy, devices);
    RowAt(edges, file, devices, i);
    CellsExact(os, valid, policy, devices, edges[i]);
  }
}
