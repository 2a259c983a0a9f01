/** Canonical presentation: edges regrouped by (subject, category) for display, property values grouped. */
module Presentation {
  import opened Wrappers
  import opened Ordering
  import opened Grouping
  import opened Observations
  import opened Devices
  import I = IdentityResolution
  import R = RelationshipResolution

  datatype RelatedPresentation = RelatedPresentation(
    relatedSubject: string, device: Option<DeviceInfo>, state: R.EdgeState,
    observations: seq<RelationshipObservation>)

  datatype RelationshipPresentation = RelationshipPresentation(
    subject: string, device: Option<DeviceInfo>, category: string, cardinality: R.Cardinality,
    related: seq<RelatedPresentation>)

  function RelatedEntry(edge: R.CanonicalRelationship, devices: DeviceLookup): RelatedPresentation {
    RelatedPresentation(edge.relatedSubject, Looked(devices, edge.relatedSubject), edge.state, edge.observations)
  }

  function RelatedEntries(edges: seq<R.CanonicalRelationship>, devices: DeviceLookup): seq<RelatedPresentation> {
    seq(|edges|, i requires 0 <= i < |edges| => RelatedEntry(edges[i], devices))
  }

  /** `_present_relationship_group`: rejects a group whose edges disagree on cardinality. */
  function PresentGroup(group: Key, edges: seq<R.CanonicalRelationship>, devices: DeviceLookup)
      : Result<RelationshipPresentation, string>
    requires |group| == 2
  {
    var cardinalities := set e | e in edges :: e.cardinality;
    if |cardinalities| != 1 then Failure("inconsistent cardinality")
    else
      Success(RelationshipPresentation(
        group[0], Looked(devices, group[0]), group[1], edges[0].cardinality, RelatedEntries(edges, devices)))
  }

  function PresentGroups(groups: seq<Key>, edges: seq<R.CanonicalRelationship>, devices: DeviceLookup)
      : Result<seq<RelationshipPresentation>, string>
    requires forall g :: g in groups ==> |g| == 2
  {
    if groups == [] then Success([])
    else
      var earlier :- PresentGroups(groups[..|groups| - 1], edges, devices);
      var g := groups[|groups| - 1];
      var last :- PresentGroup(g, Select(R.Group, g, edges), devices);
      Success(earlier + [last])
  }

  lemma GroupsHaveTwoParts(edges: seq<R.CanonicalRelationship>)
    ensures forall g :: g in KeysInOrder(R.Group, edges) ==> |g| == 2
  {
    forall g | g in KeysInOrder(R.Group, edges) ensures |g| == 2 { KeysExact(R.Group, edges, g); }
  }

  /** `_present_relationships`. */
  function Present(edges: seq<R.CanonicalRelationship>, devices: DeviceLookup): Result<seq<RelationshipPresentation>, string> {
    GroupsHaveTwoParts(edges);
    PresentGroups(KeysInOrder(R.Group, edges), edges, devices)
  }

  // ---- The way back: the edges a presentation shows ----

  function ShownEdge(p: RelationshipPresentation, r: RelatedPresentation): R.CanonicalRelationship {
    R.CanonicalRelationship(p.subject, p.category, r.relatedSubject, p.cardinality, r.state, r.observations)
  }

  function ShownEdges(p: RelationshipPresentation): seq<R.CanonicalRelationship> {
    seq(|p.related|, i requires 0 <= i < |p.related| => ShownEdge(p, p.related[i]))
  }

  function Flattened(ps: seq<RelationshipPresentation>): seq<R.CanonicalRelationship> {
    if ps == [] then [] else Flattened(ps[..|ps| - 1]) + ShownEdges(ps[|ps| - 1])
  }

  ghost predicate OneCardinalityPerGroup(edges: seq<R.CanonicalRelationship>) {
    forall e, e' :: e in edges && e' in edges && R.Group(e) == R.Group(e') ==> e.cardinality == e'.cardinality
  }

  lemma OneCardinality(edges: seq<R.CanonicalRelationship>)
    ensures |set e | e in edges :: e.cardinality| == 1 <==>
      edges != [] && forall e :: e in edges ==> e.cardinality == edges[0].cardinality
  {
    var cs := set e | e in edges :: e.cardinality;
    if edges != [] {
      assert edges[0] in edges && edges[0].cardinality in cs;
      if |cs| == 1 {
        assert |cs - {edges[0].cardinality}| == 0;
        assert cs == {edges[0].cardinality};
        forall e | e in edges ensures e.cardinality == edges[0].cardinality { assert e.cardinality in cs; }
      }
      if forall e :: e in edges ==> e.cardinality == edges[0].cardinality {
        assert cs == {edges[0].cardinality};
      }
    }
  }

  lemma GroupFields(e: R.CanonicalRelationship, group: Key)
    requires R.Group(e) == group
    ensures |group| == 2 && e.subject == group[0] && e.category == group[1]
  {
  }

  lemma PresentGroupShows(group: Key, edges: seq<R.CanonicalRelationship>, devices: DeviceLookup)
    requires |group| == 2 && edges != [] && forall e :: e in edges ==> R.Group(e) == group
    ensures PresentGroup(group, edges, devices).Success? <==>
      forall e :: e in edges ==> e.cardinality == edges[0].cardinality
    ensures PresentGroup(group, edges, devices).Success? ==> ShownEdges(PresentGroup(group, edges, devices).value) == edges
  {
    OneCardinality(edges);
    if PresentGroup(group, edges, devices).Success? {
      var p := PresentGroup(group, edges, devices).value;
      forall i | 0 <= i < |edges| ensures ShownEdge(p, p.related[i]) == edges[i] {
        assert edges[i] in edges;
        GroupFields(edges[i], group);
      }
      assert ShownEdges(p) == edges;
    }
  }

  lemma SelectedGroup(group: Key, edges: seq<R.CanonicalRelationship>)
    requires group in KeysInOrder(R.Group, edges)
    ensures |group| == 2 && Select(R.Group, group, edges) != []
    ensures forall e :: e in Select(R.Group, group, edges) <==> e in edges && R.Group(e) == group
  {
    GroupsHaveTwoParts(edges);
    KeysExact(R.Group, edges, group);
    SelectMembers(R.Group, group, edges);
    var e :| e in edges && R.Group(e) == group;
    assert e in Select(R.Group, group, edges);
  }

  lemma {:induction false} PresentGroupsShow(groups: seq<Key>, edges: seq<R.CanonicalRelationship>, devices: DeviceLookup)
    requires forall g :: g in groups ==> g in KeysInOrder(R.Group, edges) && |g| == 2
    requires OneCardinalityPerGroup(edges)
    ensures PresentGroups(groups, edges, devices).Success?
    ensures Flattened(PresentGroups(groups, edges, devices).value) == ConcatGroups(R.Group, groups, edges)
  {
    if groups != [] {
      var g := groups[|groups| - 1];
      PresentGroupsShow(groups[..|groups| - 1], edges, devices);
      var mine := Select(R.Group, g, edges);
      SelectedGroup(g, edges);
      assert mine[0] in mine;
      PresentGroupShows(g, mine, devices);
      var earlier := PresentGroups(groups[..|groups| - 1], edges, devices).value;
      var last := PresentGroup(g, mine, devices).value;
      assert (earlier + [last])[..|earlier|] == earlier;
    }
  }

  /** The consistency error is raised exactly when some group's edges disagree on cardinality. */
  lemma PresentSucceedsExactly(edges: seq<R.CanonicalRelationship>, devices: DeviceLookup)
    ensures Present(edges, devices).Success? <==> OneCardinalityPerGroup(edges)
  {
    GroupsHaveTwoParts(edges);
    var groups := KeysInOrder(R.Group, edges);
    if OneCardinalityPerGroup(edges) { PresentGroupsShow(groups, edges, devices); }
    if Present(edges, devices).Success? {
      forall e, e' | e in edges && e' in edges && R.Group(e) == R.Group(e') ensures e.cardinality == e'.cardinality {
        KeysExact(R.Group, edges, R.Group(e));
        EveryGroupSucceeded(groups, edges, devices, R.Group(e));
        SelectedGroup(R.Group(e), edges);
        PresentGroupShows(R.Group(e), Select(R.Group, R.Group(e), edges), devices);
      }
    }
  }

  lemma {:induction false} EveryGroupSucceeded(groups: seq<Key>, edges: seq<R.CanonicalRelationship>, devices: DeviceLookup, g: Key)
    requires forall g :: g in groups ==> |g| == 2
    requires PresentGroups(groups, edges, devices).Success? && g in groups
    ensures PresentGroup(g, Select(R.Group, g, edges), devices).Success?
  {
    if g != groups[|groups| - 1] {
      assert g in groups[..|groups| - 1];
      EveryGroupSucceeded(groups[..|groups| - 1], edges, devices, g);
    }
  }

  /** Regrouping is lossless on every list whose groups are consistent and adjacent: flattening gives it back. */
  lemma RegroupedLosslessly(edges: seq<R.CanonicalRelationship>, devices: DeviceLookup)
    requires OneCardinalityPerGroup(edges) && Clustered(R.Group, edges)
    ensures Present(edges, devices).Success? && Flattened(Present(edges, devices).value) == edges
  {
    GroupsHaveTwoParts(edges);
    PresentGroupsShow(KeysInOrder(R.Group, edges), edges, devices);
    RegroupingIsIdentity(R.Group, edges);
  }

  /** Sorting by edge keeps the edges of one group together. */
  lemma SortedByEdgeIsClustered(edges: seq<R.CanonicalRelationship>)
    requires SortedBy(R.Edge, edges)
    ensures Clustered(R.Group, edges)
  {
    forall i, j, k | 0 <= i < j < k < |edges| && R.Group(edges[i]) == R.Group(edges[k])
      ensures R.Group(edges[j]) == R.Group(edges[i])
    {
      SqueezedGroup(edges[i], edges[j], edges[k]);
    }
  }

  lemma SqueezedGroup(a: R.CanonicalRelationship, b: R.CanonicalRelationship, c: R.CanonicalRelationship)
    requires KeyLe(R.Edge(a), R.Edge(b)) && KeyLe(R.Edge(b), R.Edge(c)) && R.Group(a) == R.Group(c)
    ensures R.Group(b) == R.Group(a)
  {
    GroupFields(a, R.Group(a));
    GroupFields(c, R.Group(a));
    KeyLePrefix(a, b);
    KeyLePrefix(b, c);
    KeyLeAntisymmetric(R.Group(a), R.Group(b));
  }

  lemma KeyLePrefix(a: R.CanonicalRelationship, b: R.CanonicalRelationship)
    requires KeyLe(R.Edge(a), R.Edge(b))
    ensures KeyLe(R.Group(a), R.Group(b))
  {
    var x, y := R.Edge(a), R.Edge(b);
    assert x[1..] == [a.category, a.relatedSubject] && y[1..] == [b.category, b.relatedSubject];
    assert R.Group(a)[1..] == [a.category] && R.Group(b)[1..] == [b.category];
    if a.subject == b.subject {
      assert KeyLe([a.category, a.relatedSubject], [b.category, b.relatedSubject]);
      if a.category == b.category {
        KeyLeReflexive([a.category]);
      }
    }
  }

  /** The resolver's output is always presented, and its presentation shows exactly its edges, in order. */
  lemma ResolverOutputPresents(os: seq<Observation>, valid: set<string>, policy: R.Policy, devices: DeviceLookup)
    ensures var edges := R.Resolve(os, valid, policy);
      Present(edges, devices).Success? && Flattened(Present(edges, devices).value) == edges
  {
    var edges := R.Resolve(os, valid, policy);
    R.ResolveIsResolution(R.Preprocess(os, valid), policy);
    SortedByEdgeIsClustered(edges);
    forall e, e' | e in edges && e' in edges && R.Group(e) == R.Group(e') ensures e.cardinality == e'.cardinality {
      GroupFields(e, R.Group(e));
      GroupFields(e', R.Group(e));
    }
    RegroupedLosslessly(edges, devices);
  }

  // ---- Identity properties: observations grouped by value ----

  datatype ValuePresentation = ValuePresentation(value: string, observations: seq<IdentityObservation>)

  /** `_group_property_values`. */
  function PropertyValues(os: seq<IdentityObservation>): seq<ValuePresentation> {
    var values := KeysInOrder(I.ValueOf, os);
    seq(|values|, i requires 0 <= i < |values| => ValuePresentation(values[i], Select(I.ValueOf, values[i], os)))
  }

  function ValueEvidence(vs: seq<ValuePresentation>): seq<IdentityObservation> {
    if vs == [] then [] else ValueEvidence(vs[..|vs| - 1]) + vs[|vs| - 1].observations
  }

  lemma {:induction false} ValueEvidenceIsGroups(vs: seq<ValuePresentation>, values: seq<string>, os: seq<IdentityObservation>)
    requires |vs| == |values|
    requires forall i :: 0 <= i < |vs| ==> vs[i] == ValuePresentation(values[i], Select(I.ValueOf, values[i], os))
    ensures ValueEvidence(vs) == ConcatGroups(I.ValueOf, values, os)
  {
    if vs != [] { ValueEvidenceIsGroups(vs[..|vs| - 1], values[..|values| - 1], os); }
  }

  /** No observation is hidden or repeated, and a property shows more than one value exactly when its state
      is CONFLICTING. */
  lemma PropertyValuesFaithful(p: I.PropertyCorroboration, subject: string, m: multiset<IdentityObservation>)
    requires I.PropertyCorrect(p, subject, m)
    ensures multiset(ValueEvidence(PropertyValues(p.observations))) == multiset(p.observations)
    ensures |PropertyValues(p.observations)| > 1 <==> p.state == I.Conflicting
  {
    PropertyValuesConserve(p.observations);
    TwoValuesExact(p.observations);
  }

  /** So every property of every resolved identity is shown in full. */
  lemma ResolvedPropertiesShown(os: seq<Observation>, c: I.CanonicalIdentity, p: I.PropertyCorroboration)
    requires c in I.Resolve(os) && p in c.properties
    ensures multiset(ValueEvidence(PropertyValues(p.observations))) == multiset(p.observations)
    ensures |PropertyValues(p.observations)| > 1 <==> p.state == I.Conflicting
  {
    I.ResolveIsResolution(os);
    PropertyValuesFaithful(p, c.subject, multiset(IdentitiesOf(os)));
  }

  lemma PropertyValuesConserve(os: seq<IdentityObservation>)
    ensures multiset(ValueEvidence(PropertyValues(os))) == multiset(os)
    ensures |PropertyValues(os)| == |KeysInOrder(I.ValueOf, os)|
  {
    ValueEvidenceIsGroups(PropertyValues(os), KeysInOrder(I.ValueOf, os), os);
    GroupsConserve(I.ValueOf, os);
  }

  lemma TwoValuesExact(os: seq<IdentityObservation>)
    ensures |KeysInOrder(I.ValueOf, os)| > 1 <==> I.TwoValues(os)
  {
    ManyKeys(I.ValueOf, os);
    if I.TwoValues(os) {
      var x, y :| x in os && y in os && x.value != y.value;
      assert I.ValueOf(x) != I.ValueOf(y);
    }
  }

  // ---- The loops ----

  method GroupPropertyValues(os: seq<IdentityObservation>) returns (vs: seq<ValuePresentation>)
    ensures vs == PropertyValues(os)
  {
    var byValue := GroupBy(I.ValueOf, os);
    vs := [];
    for i := 0 to |byValue.order|
      invariant vs == PropertyValues(os)[..i]
    {
      vs := vs + [ValuePresentation(byValue.order[i], byValue.at[byValue.order[i]])];
    }
  }

  method PresentRelationships(edges: seq<R.CanonicalRelationship>, devices: DeviceLookup)
      returns (r: Result<seq<RelationshipPresentation>, string>)
    ensures r == Present(edges, devices)
  {
    GroupsHaveTwoParts(edges);
    var byGroup := GroupBy(R.Group, edges);
    var groups := byGroup.order;
    var presented: seq<RelationshipPresentation> := [];
    for i := 0 to |groups|
      invariant PresentGroups(groups[..i], edges, devices) == Success(presented)
    {
      var p := PresentGroup(groups[i], byGroup.at[groups[i]], devices);
      PresentGroupsStep(groups, i, edges, devices);
      if p.Failure? {
        FailureStays(groups, i + 1, edges, devices);
        return Failure(p.error);
      }
      presented := presented + [p.value];
    }
    assert groups[..|groups|] == groups;
    return Success(presented);
  }

  lemma PresentGroupsStep(groups: seq<Key>, i: nat, edges: seq<R.CanonicalRelationship>, devices: DeviceLookup)
    requires i < |groups| && forall g :: g in groups ==> |g| == 2
    requires PresentGroups(groups[..i], edges, devices).Success?
    ensures PresentGroups(groups[..i + 1], edges, devices) ==
      match PresentGroup(groups[i], Select(R.Group, groups[i], edges), devices) {
        case Failure(e) => Failure(e)
        case Success(p) => Success(PresentGroups(groups[..i], edges, devices).value + [p])
      }
  {
    assert groups[..i + 1][..i] == groups[..i];
  }

  lemma {:induction false} FailureStays(groups: seq<Key>, i: nat, edges: seq<R.CanonicalRelationship>, devices: DeviceLookup)
    requires i <= |groups| && forall g :: g in groups ==> |g| == 2
    requires PresentGroups(groups[..i], edges, devices).Failure?
    ensures PresentGroups(groups, edges, devices) == PresentGroups(groups[..i], edges, devices)
  {
    if i == |groups| {
      assert groups[..i] == groups;
    } else {
      var init := groups[..|groups| - 1];
      assert init[..i] == groups[..i];
      FailureStays(init, i, edges, devices);
    }
  }
}
