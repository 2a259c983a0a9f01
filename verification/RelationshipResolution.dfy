/** `RelationshipResolver`: from retained observations and canonical identities to canonical edges. */
module RelationshipResolution {
  import opened Wrappers
  import opened Ordering
  import opened Grouping
  import opened Timestamps
  import opened Observations
  import IdentityResolution

  datatype Cardinality = SINGLE | MULTIPLE

  datatype EdgeState = Weak | Confirmed | Conflicting

  /** A resolver-owned category policy; a category it does not name is MULTIPLE. */
  type Policy = map<string, Cardinality>

  const CATEGORY_CARDINALITY: Policy :=
    map["arp_neighbor" := MULTIPLE, "bridge_fdb" := MULTIPLE, "connected_to" := MULTIPLE]

  function CardinalityFor(category: string, policy: Policy): Cardinality {
    if category in policy then policy[category] else MULTIPLE
  }

  datatype CanonicalRelationship = CanonicalRelationship(
    subject: string, category: string, relatedSubject: string,
    cardinality: Cardinality, state: EdgeState, observations: seq<RelationshipObservation>)

  /** The checks the record's constructor makes. */
  predicate PassesConstructor(c: CanonicalRelationship) {
    && (c.state == Conflicting ==> c.cardinality == SINGLE)
    && c.observations != []
    && forall o :: o in c.observations ==> EdgeOf(o) == Edge(c)
  }

  /** An edge is (subject, category, related subject); a group is (subject, category). */
  function EdgeOf(o: RelationshipObservation): Key { [o.subject, o.category, o.relatedSubject] }

  function Edge(c: CanonicalRelationship): Key { [c.subject, c.category, c.relatedSubject] }

  function GroupOf(o: RelationshipObservation): Key { [o.subject, o.category] }

  function Group(c: CanonicalRelationship): Key { [c.subject, c.category] }

  function RelatedOf(o: RelationshipObservation): string { o.relatedSubject }

  /** `_edge_observation_sort_key`. */
  function ObservationKey(o: RelationshipObservation): Key {
    [o.provenance.provider, o.provenance.collectionMethod, o.relatedSubject,
     o.provenance.sourceRun, IsoFormat(o.provenance.observedAt)]
  }

  /** Both endpoints resolve, and they differ. */
  predicate Survives(o: RelationshipObservation, valid: set<string>) {
    o.subject in valid && o.relatedSubject in valid && o.subject != o.relatedSubject
  }

  /** The observations that enter any group at all. */
  function Preprocess(os: seq<Observation>, valid: set<string>): seq<RelationshipObservation> {
    if os == [] then []
    else
      var rest := Preprocess(os[..|os| - 1], valid);
      var o := os[|os| - 1];
      if o.Relationship? && Survives(o.relationship, valid) then rest + [o.relationship] else rest
  }

  lemma {:induction false} PreprocessCounts(os: seq<Observation>, valid: set<string>, o: RelationshipObservation)
    ensures multiset(Preprocess(os, valid))[o] == if Survives(o, valid) then multiset(os)[Relationship(o)] else 0
  {
    if os != [] {
      PreprocessCounts(os[..|os| - 1], valid, o);
      assert os == os[..|os| - 1] + [os[|os| - 1]];
    }
  }

  lemma PreprocessMultiset(os: seq<Observation>, valid: set<string>, os': seq<Observation>, valid': set<string>)
    requires multiset(os) <= multiset(os') && valid <= valid'
    ensures multiset(Preprocess(os, valid)) <= multiset(Preprocess(os', valid'))
  {
    forall o ensures multiset(Preprocess(os, valid))[o] <= multiset(Preprocess(os', valid'))[o] {
      PreprocessCounts(os, valid, o);
      PreprocessCounts(os', valid', o);
    }
  }

  lemma {:induction false} PreprocessMembers(os: seq<Observation>, valid: set<string>)
    ensures forall o :: o in Preprocess(os, valid) <==> Relationship(o) in os && Survives(o, valid)
  {
    forall o ensures o in Preprocess(os, valid) <==> Relationship(o) in os && Survives(o, valid) {
      PreprocessCounts(os, valid, o);
      assert o in Preprocess(os, valid) <==> multiset(Preprocess(os, valid))[o] > 0;
      assert Relationship(o) in os <==> multiset(os)[Relationship(o)] > 0;
    }
  }

  // ---- What a resolution is, in terms of the multiset of surviving observations only ----

  /** Two observations of one group name different related subjects. */
  ghost predicate GroupDisagrees(group: Key, m: multiset<RelationshipObservation>) {
    exists o, o' :: o in m && o' in m && GroupOf(o) == group && GroupOf(o') == group
                    && o.relatedSubject != o'.relatedSubject
  }

  ghost predicate TwoSources(os: seq<RelationshipObservation>) {
    exists o, o' :: o in os && o' in os && RelationshipSource(o) != RelationshipSource(o')
  }

  /** The state an edge must carry. */
  ghost function StateFor(cardinality: Cardinality, group: Key, os: seq<RelationshipObservation>,
                          m: multiset<RelationshipObservation>): EdgeState {
    if cardinality == SINGLE && GroupDisagrees(group, m) then Conflicting
    else if TwoSources(os) then Confirmed
    else Weak
  }

  /** `os` is the sorted list of exactly the observations of one edge. */
  ghost predicate EvidenceOf(os: seq<RelationshipObservation>, edge: Key, m: multiset<RelationshipObservation>) {
    && SortedBy(ObservationKey, os)
    && forall o :: multiset(os)[o] == if EdgeOf(o) == edge then m[o] else 0
  }

  ghost predicate RecordCorrect(c: CanonicalRelationship, m: multiset<RelationshipObservation>, policy: Policy) {
    && EvidenceOf(c.observations, Edge(c), m)
    && c.cardinality == CardinalityFor(c.category, policy)
    && c.state == StateFor(c.cardinality, Group(c), c.observations, m)
  }

  ghost predicate HasEdge(r: seq<CanonicalRelationship>, edge: Key) {
    exists c :: c in r && Edge(c) == edge
  }

  /** One correct record per observed edge, strictly sorted by edge. */
  ghost predicate IsResolution(r: seq<CanonicalRelationship>, m: multiset<RelationshipObservation>, policy: Policy) {
    && StrictlySortedBy(Edge, r)
    && (forall c :: c in r ==> RecordCorrect(c, m, policy))
    && (forall c :: c in r ==> c.observations != [])
    && (forall o {:trigger HasEdge(r, EdgeOf(o))} :: o in m ==> HasEdge(r, EdgeOf(o)))
  }

  lemma SameEdgeTiesEqual(os: seq<RelationshipObservation>, edge: Key)
    requires forall o :: o in os ==> EdgeOf(o) == edge
    ensures TiesEqual(ObservationKey, os)
  {
    forall i, j | 0 <= i < |os| && 0 <= j < |os| && ObservationKey(os[i]) == ObservationKey(os[j])
      ensures os[i] == os[j]
    {
      var a, b := os[i], os[j];
      assert EdgeOf(a)[0] == EdgeOf(b)[0] && EdgeOf(a)[1] == EdgeOf(b)[1] && EdgeOf(a)[2] == EdgeOf(b)[2];
      var x, y := ObservationKey(a), ObservationKey(b);
      assert x[0] == y[0] && x[1] == y[1] && x[3] == y[3] && x[4] == y[4];
      IsoFormatInjective(a.provenance.observedAt, b.provenance.observedAt);
    }
  }

  lemma EvidenceMembers(os: seq<RelationshipObservation>, edge: Key, m: multiset<RelationshipObservation>)
    requires EvidenceOf(os, edge, m)
    ensures forall o :: o in os <==> o in m && EdgeOf(o) == edge
  {
    forall o ensures o in os <==> o in m && EdgeOf(o) == edge {
      assert o in os <==> multiset(os)[o] > 0;
    }
  }

  lemma EvidenceUnique(os: seq<RelationshipObservation>, os': seq<RelationshipObservation>, edge: Key,
                       m: multiset<RelationshipObservation>)
    requires EvidenceOf(os, edge, m) && EvidenceOf(os', edge, m)
    ensures os == os'
  {
    EvidenceMembers(os, edge, m);
    SameEdgeTiesEqual(os, edge);
    assert multiset(os) == multiset(os');
    SortedArrangementUnique(ObservationKey, os, os');
  }

  lemma EdgeFields(c: CanonicalRelationship, d: CanonicalRelationship)
    requires Edge(c) == Edge(d)
    ensures c.subject == d.subject && c.category == d.category && c.relatedSubject == d.relatedSubject
  {
    assert Edge(c)[0] == Edge(d)[0] && Edge(c)[1] == Edge(d)[1] && Edge(c)[2] == Edge(d)[2];
  }

  lemma ResolutionCovers(r: seq<CanonicalRelationship>, r': seq<CanonicalRelationship>,
                         m: multiset<RelationshipObservation>, policy: Policy)
    requires IsResolution(r, m, policy) && IsResolution(r', m, policy)
    ensures forall c :: c in r ==> exists d :: d in r' && Edge(d) == Edge(c)
  {
    forall c | c in r ensures exists d :: d in r' && Edge(d) == Edge(c) {
      EvidenceMembers(c.observations, Edge(c), m);
      assert c.observations[0] in c.observations;
      assert HasEdge(r', EdgeOf(c.observations[0]));
    }
  }

  /** A multiset of surviving observations has one resolution: nothing else can influence the output. */
  lemma ResolutionUnique(r: seq<CanonicalRelationship>, r': seq<CanonicalRelationship>,
                         m: multiset<RelationshipObservation>, policy: Policy)
    requires IsResolution(r, m, policy) && IsResolution(r', m, policy)
    ensures r == r'
  {
    ResolutionCovers(r, r', m, policy);
    ResolutionCovers(r', r, m, policy);
    StrictArrangementUnique(Edge, r, r');
    forall i | 0 <= i < |r| ensures r[i] == r'[i] {
      assert r[i] in r && r'[i] in r';
      RecordUnique(r[i], r'[i], m, policy);
    }
  }

  lemma RecordUnique(c: CanonicalRelationship, d: CanonicalRelationship, m: multiset<RelationshipObservation>,
                     policy: Policy)
    requires RecordCorrect(c, m, policy) && RecordCorrect(d, m, policy) && Edge(c) == Edge(d)
    ensures c == d
  {
    EdgeFields(c, d);
    EvidenceUnique(c.observations, d.observations, Edge(c), m);
  }

  // ---- Reference definition: regroup by selection, with no dictionaries ----

  /** One edge, from the observations of its whole group. */
  function ResolvedEdge(group: Key, related: string, os: seq<RelationshipObservation>, policy: Policy)
      : CanonicalRelationship
    requires |group| == 2
  {
    var mine := Select(RelatedOf, related, os);
    var cardinality := CardinalityFor(group[1], policy);
    var state :=
      if cardinality == SINGLE && |KeysInOrder(RelatedOf, os)| > 1 then Conflicting
      else if |KeysInOrder(RelationshipSource, mine)| > 1 then Confirmed
      else Weak;
    CanonicalRelationship(group[0], group[1], related, cardinality, state, SortBy(ObservationKey, mine))
  }

  function ResolvedGroup(group: Key, os: seq<RelationshipObservation>, policy: Policy): seq<CanonicalRelationship>
    requires |group| == 2
  {
    var related := KeysInOrder(RelatedOf, os);
    seq(|related|, i requires 0 <= i < |related| => ResolvedEdge(group, related[i], os, policy))
  }

  function ResolvedGroups(groups: seq<Key>, os: seq<RelationshipObservation>, policy: Policy)
      : seq<CanonicalRelationship>
    requires forall g :: g in groups ==> |g| == 2
  {
    if groups == [] then []
    else
      var g := groups[|groups| - 1];
      ResolvedGroups(groups[..|groups| - 1], os, policy) + ResolvedGroup(g, Select(GroupOf, g, os), policy)
  }

  lemma GroupsHaveTwoParts(os: seq<RelationshipObservation>)
    ensures forall g :: g in KeysInOrder(GroupOf, os) ==> |g| == 2
  {
    forall g | g in KeysInOrder(GroupOf, os) ensures |g| == 2 { KeysExact(GroupOf, os, g); }
  }

  function ResolveSurviving(os: seq<RelationshipObservation>, policy: Policy): seq<CanonicalRelationship> {
    GroupsHaveTwoParts(os);
    SortBy(Edge, ResolvedGroups(KeysInOrder(GroupOf, os), os, policy))
  }

  /** Canonical relationships of a mixed observation list, given the subjects that resolve. */
  function Resolve(os: seq<Observation>, valid: set<string>, policy: Policy): seq<CanonicalRelationship> {
    ResolveSurviving(Preprocess(os, valid), policy)
  }

  lemma EdgeIsGroupAndRelated(o: RelationshipObservation, c: CanonicalRelationship)
    ensures EdgeOf(o) == Edge(c) <==> GroupOf(o) == Group(c) && o.relatedSubject == c.relatedSubject
  {
    assert EdgeOf(o) == GroupOf(o) + [o.relatedSubject] && Edge(c) == Group(c) + [c.relatedSubject];
    if EdgeOf(o) == Edge(c) {
      assert EdgeOf(o)[2] == Edge(c)[2] && EdgeOf(o)[..2] == GroupOf(o) && Edge(c)[..2] == Group(c);
    }
  }

  lemma GroupDisagreesExact(group: Key, all: seq<RelationshipObservation>, os: seq<RelationshipObservation>)
    requires os == Select(GroupOf, group, all)
    ensures |KeysInOrder(RelatedOf, os)| > 1 <==> GroupDisagrees(group, multiset(all))
  {
    ManyKeys(RelatedOf, os);
    SelectMembers(GroupOf, group, all);
    if x, y :| x in os && y in os && RelatedOf(x) != RelatedOf(y) {
      assert x in multiset(all) && y in multiset(all);
    }
    if GroupDisagrees(group, multiset(all)) {
      var x, y :| x in all && y in all && GroupOf(x) == group && GroupOf(y) == group && x.relatedSubject != y.relatedSubject;
      assert x in os && y in os && RelatedOf(x) != RelatedOf(y);
    }
  }

  lemma TwoSourcesExact(mine: seq<RelationshipObservation>, sorted: seq<RelationshipObservation>)
    requires forall o :: o in mine <==> o in sorted
    ensures TwoSources(sorted) <==> |KeysInOrder(RelationshipSource, mine)| > 1
  {
    ManyKeys(RelationshipSource, mine);
  }

  lemma ResolvedEvidence(c: CanonicalRelationship, group: Key, related: string, all: seq<RelationshipObservation>,
                         os: seq<RelationshipObservation>, policy: Policy)
    requires |group| == 2 && os == Select(GroupOf, group, all) && related in KeysInOrder(RelatedOf, os)
    requires c == ResolvedEdge(group, related, os, policy)
    ensures EvidenceOf(c.observations, Edge(c), multiset(all)) && c.observations != [] && Group(c) == group
  {
    assert Group(c) == group;
    var mine := Select(RelatedOf, related, os);
    SortByCorrect(ObservationKey, mine);
    SameElements(c.observations, mine);
    forall o: RelationshipObservation
      ensures multiset(c.observations)[o] == if EdgeOf(o) == Edge(c) then multiset(all)[o] else 0
    {
      SelectCounts(RelatedOf, related, os, o);
      SelectCounts(GroupOf, group, all, o);
      EdgeIsGroupAndRelated(o, c);
    }
    KeysExact(RelatedOf, os, related);
    SelectMembers(RelatedOf, related, os);
    var o :| o in os && RelatedOf(o) == related;
    assert o in mine && o in c.observations;
  }

  lemma ResolvedState(c: CanonicalRelationship, group: Key, related: string, all: seq<RelationshipObservation>,
                      os: seq<RelationshipObservation>, policy: Policy)
    requires |group| == 2 && os == Select(GroupOf, group, all)
    requires c == ResolvedEdge(group, related, os, policy)
    ensures c.state == StateFor(c.cardinality, group, c.observations, multiset(all))
    ensures c.cardinality == CardinalityFor(c.category, policy)
  {
    var mine := Select(RelatedOf, related, os);
    SortByCorrect(ObservationKey, mine);
    SameElements(c.observations, mine);
    TwoSourcesExact(mine, c.observations);
    GroupDisagreesExact(group, all, os);
  }

  lemma ResolvedEdgeCorrect(c: CanonicalRelationship, group: Key, related: string, all: seq<RelationshipObservation>,
                            os: seq<RelationshipObservation>, policy: Policy)
    requires |group| == 2 && os == Select(GroupOf, group, all) && related in KeysInOrder(RelatedOf, os)
    requires c == ResolvedEdge(group, related, os, policy)
    ensures RecordCorrect(c, multiset(all), policy)
    ensures PassesConstructor(c)
  {
    ResolvedEvidence(c, group, related, all, os, policy);
    ResolvedState(c, group, related, all, os, policy);
    EvidenceMembers(c.observations, Edge(c), multiset(all));
  }

  /** What the records of a run of groups satisfy, before the final sort. */
  ghost predicate RecordsFor(records: seq<CanonicalRelationship>, groups: seq<Key>,
                             all: seq<RelationshipObservation>, policy: Policy) {
    && (forall c :: c in records ==> RecordCorrect(c, multiset(all), policy) && PassesConstructor(c) && Group(c) in groups)
    && (forall i, j :: 0 <= i < j < |records| ==> Edge(records[i]) != Edge(records[j]))
    && (forall o {:trigger HasEdge(records, EdgeOf(o))} ::
         o in all && GroupOf(o) in groups ==> HasEdge(records, EdgeOf(o)))
  }

  lemma ResolvedGroupCovers(group: Key, all: seq<RelationshipObservation>, policy: Policy, o: RelationshipObservation)
    requires |group| == 2 && o in all && GroupOf(o) == group
    ensures HasEdge(ResolvedGroup(group, Select(GroupOf, group, all), policy), EdgeOf(o))
  {
    var os := Select(GroupOf, group, all);
    var related, records := KeysInOrder(RelatedOf, os), ResolvedGroup(group, os, policy);
    SelectMembers(GroupOf, group, all);
    KeysExact(RelatedOf, os, RelatedOf(o));
    var i :| 0 <= i < |related| && related[i] == o.relatedSubject;
    EdgeIsGroupAndRelated(o, records[i]);
    assert records[i] in records;
  }

  lemma ResolvedGroupDistinct(group: Key, os: seq<RelationshipObservation>, policy: Policy)
    requires |group| == 2
    ensures var records := ResolvedGroup(group, os, policy);
      forall i, j :: 0 <= i < j < |records| ==> Edge(records[i]) != Edge(records[j])
  {
    var related, records := KeysInOrder(RelatedOf, os), ResolvedGroup(group, os, policy);
    KeysDistinct(RelatedOf, os);
    forall i, j | 0 <= i < j < |records| ensures Edge(records[i]) != Edge(records[j]) {
      assert Edge(records[i])[2] == related[i] && Edge(records[j])[2] == related[j];
    }
  }

  lemma ResolvedGroupRecords(group: Key, all: seq<RelationshipObservation>, policy: Policy)
    requires |group| == 2
    ensures RecordsFor(ResolvedGroup(group, Select(GroupOf, group, all), policy), [group], all, policy)
  {
    ResolvedGroupFine(group, all, policy);
    ResolvedGroupDistinct(group, Select(GroupOf, group, all), policy);
    var records := ResolvedGroup(group, Select(GroupOf, group, all), policy);
    forall o: RelationshipObservation | o in all && GroupOf(o) in [group] ensures HasEdge(records, EdgeOf(o)) {
      ResolvedGroupCovers(group, all, policy, o);
    }
  }

  lemma ResolvedGroupFine(group: Key, all: seq<RelationshipObservation>, policy: Policy)
    requires |group| == 2
    ensures forall c :: c in ResolvedGroup(group, Select(GroupOf, group, all), policy) ==>
      RecordCorrect(c, multiset(all), policy) && PassesConstructor(c) && Group(c) in [group]
  {
    var os := Select(GroupOf, group, all);
    var records := ResolvedGroup(group, os, policy);
    forall c | c in records
      ensures RecordCorrect(c, multiset(all), policy) && PassesConstructor(c) && Group(c) in [group]
    {
      var related := RelatedOfMember(c, group, os, policy);
      ResolvedEdgeCorrect(c, group, related, all, os, policy);
    }
  }

  lemma RelatedOfMember(c: CanonicalRelationship, group: Key, os: seq<RelationshipObservation>, policy: Policy)
      returns (related: string)
    requires |group| == 2 && c in ResolvedGroup(group, os, policy)
    ensures related in KeysInOrder(RelatedOf, os) && c == ResolvedEdge(group, related, os, policy)
    ensures Group(c) == group
  {
    var i :| 0 <= i < |ResolvedGroup(group, os, policy)| && ResolvedGroup(group, os, policy)[i] == c;
    related := KeysInOrder(RelatedOf, os)[i];
  }

  lemma JoinRecords(a: seq<CanonicalRelationship>, groups: seq<Key>, b: seq<CanonicalRelationship>, group: Key,
                    all: seq<RelationshipObservation>, policy: Policy)
    requires RecordsFor(a, groups, all, policy) && RecordsFor(b, [group], all, policy) && group !in groups
    ensures RecordsFor(a + b, groups + [group], all, policy)
  {
    var r := a + b;
    forall i, j | 0 <= i < j < |r| ensures Edge(r[i]) != Edge(r[j]) {
      if i < |a| <= j {
        assert r[i] in a && r[j] in b;
        assert Edge(r[i])[..2] == Group(r[i]) && Edge(r[j])[..2] == Group(r[j]);
      }
    }
    forall o: RelationshipObservation | o in all && GroupOf(o) in groups + [group] ensures HasEdge(r, EdgeOf(o)) {
      assert GroupOf(o) in groups || GroupOf(o) in [group];
      assert HasEdge(a, EdgeOf(o)) || HasEdge(b, EdgeOf(o));
      var c :| (c in a || c in b) && Edge(c) == EdgeOf(o);
      assert c in r;
    }
  }

  lemma {:induction false} ResolvedGroupsRecords(groups: seq<Key>, all: seq<RelationshipObservation>, policy: Policy)
    requires forall g :: g in groups ==> |g| == 2
    requires forall i, j :: 0 <= i < j < |groups| ==> groups[i] != groups[j]
    ensures RecordsFor(ResolvedGroups(groups, all, policy), groups, all, policy)
  {
    if groups != [] {
      var init, g := groups[..|groups| - 1], groups[|groups| - 1];
      assert groups == init + [g];
      ResolvedGroupsRecords(init, all, policy);
      ResolvedGroupRecords(g, all, policy);
      JoinRecords(ResolvedGroups(init, all, policy), init, ResolvedGroup(g, Select(GroupOf, g, all), policy), g, all, policy);
    }
  }

  /** The resolver's output is the resolution of the surviving observations, and every record it builds
      passes the constructor's checks. */
  lemma ResolveIsResolution(os: seq<RelationshipObservation>, policy: Policy)
    ensures IsResolution(ResolveSurviving(os, policy), multiset(os), policy)
    ensures forall c :: c in ResolveSurviving(os, policy) ==> PassesConstructor(c)
  {
    GroupsHaveTwoParts(os);
    var groups := KeysInOrder(GroupOf, os);
    var records := ResolvedGroups(groups, os, policy);
    KeysDistinct(GroupOf, os);
    ResolvedGroupsRecords(groups, os, policy);
    RecordsResolve(records, os, policy);
  }

  lemma RecordsResolve(records: seq<CanonicalRelationship>, os: seq<RelationshipObservation>, policy: Policy)
    requires RecordsFor(records, KeysInOrder(GroupOf, os), os, policy)
    ensures IsResolution(SortBy(Edge, records), multiset(os), policy)
    ensures forall c :: c in SortBy(Edge, records) ==> PassesConstructor(c)
  {
    var r := SortBy(Edge, records);
    SortByCorrect(Edge, records);
    SortByStrict(Edge, records);
    SameElements(r, records);
    forall o: RelationshipObservation | o in multiset(os) ensures HasEdge(r, EdgeOf(o)) {
      KeysExact(GroupOf, os, GroupOf(o));
      assert HasEdge(records, EdgeOf(o));
      var c :| c in records && Edge(c) == EdgeOf(o);
      assert c in r;
    }
  }

  /** Relationship resolution depends only on the multiset of observations and the set of identity subjects. */
  lemma OrderIndependent(os: seq<Observation>, os': seq<Observation>,
                         identities: seq<IdentityResolution.CanonicalIdentity>,
                         identities': seq<IdentityResolution.CanonicalIdentity>, policy: Policy)
    requires multiset(os) == multiset(os')
    requires IdentityResolution.Subjects(identities) == IdentityResolution.Subjects(identities')
    ensures Resolve(os, IdentityResolution.Subjects(identities), policy)
         == Resolve(os', IdentityResolution.Subjects(identities'), policy)
  {
    var valid := IdentityResolution.Subjects(identities);
    SameSurvivorsSameOutput(os, os', valid, policy) by {
      forall o ensures multiset(Preprocess(os, valid))[o] == multiset(Preprocess(os', valid))[o] {
        PreprocessCounts(os, valid, o);
        PreprocessCounts(os', valid, o);
      }
    }
  }

  /** Only the surviving observations matter: two lists with the same survivors resolve alike. */
  lemma SameSurvivorsSameOutput(os: seq<Observation>, os': seq<Observation>, valid: set<string>, policy: Policy)
    requires multiset(Preprocess(os, valid)) == multiset(Preprocess(os', valid))
    ensures Resolve(os, valid, policy) == Resolve(os', valid, policy)
  {
    ResolveIsResolution(Preprocess(os, valid), policy);
    ResolveIsResolution(Preprocess(os', valid), policy);
    ResolutionUnique(Resolve(os, valid, policy), Resolve(os', valid, policy), multiset(Preprocess(os, valid)), policy);
  }

  /** `os` without its identity observations, self-loops and unresolved endpoints. */
  function WithoutNoise(os: seq<Observation>, valid: set<string>): seq<Observation> {
    if os == [] then []
    else
      var rest := WithoutNoise(os[..|os| - 1], valid);
      var o := os[|os| - 1];
      if o.Relationship? && Survives(o.relationship, valid) then rest + [o] else rest
  }

  /** Deleting the noise beforehand changes nothing: it can manufacture no conflict and no edge. */
  lemma {:induction false} NoiseDoesNotInterfere(os: seq<Observation>, valid: set<string>, policy: Policy)
    ensures Resolve(WithoutNoise(os, valid), valid, policy) == Resolve(os, valid, policy)
  {
    NoiseNeverSurvives(os, valid);
  }

  lemma {:induction false} NoiseNeverSurvives(os: seq<Observation>, valid: set<string>)
    ensures Preprocess(WithoutNoise(os, valid), valid) == Preprocess(os, valid)
  {
    if os != [] {
      NoiseNeverSurvives(os[..|os| - 1], valid);
      var kept := WithoutNoise(os, valid);
      if os[|os| - 1].Relationship? && Survives(os[|os| - 1].relationship, valid) {
        assert kept[..|kept| - 1] == WithoutNoise(os[..|os| - 1], valid);
      }
    }
  }

  // ---- Conservation: the evidence of all edges together is exactly what survived ----

  function AllEvidence(r: seq<CanonicalRelationship>): seq<RelationshipObservation> {
    if r == [] then [] else r[0].observations + AllEvidence(r[1..])
  }

  lemma {:induction false} EvidenceCounts(r: seq<CanonicalRelationship>, m: multiset<RelationshipObservation>,
                                          o: RelationshipObservation)
    requires StrictlySortedBy(Edge, r)
    requires forall c :: c in r ==> EvidenceOf(c.observations, Edge(c), m)
    ensures multiset(AllEvidence(r))[o] == if HasEdge(r, EdgeOf(o)) then m[o] else 0
  {
    if r != [] {
      EvidenceCounts(r[1..], m, o);
      assert r[0] in r;
      if Edge(r[0]) == EdgeOf(o) {
        forall c | c in r[1..] ensures Edge(c) != EdgeOf(o) {
          var i :| 0 <= i < |r[1..]| && r[1..][i] == c;
          assert r[i + 1] == c;
        }
      } else if exists c :: c in r && Edge(c) == EdgeOf(o) {
        var c :| c in r && Edge(c) == EdgeOf(o);
        assert c in r[1..];
      }
    }
  }

  /** Nothing is lost, invented or counted twice. */
  lemma EvidenceConserved(os: seq<Observation>, valid: set<string>, policy: Policy)
    ensures multiset(AllEvidence(Resolve(os, valid, policy))) == multiset(Preprocess(os, valid))
  {
    var survivors := Preprocess(os, valid);
    var r := Resolve(os, valid, policy);
    ResolveIsResolution(survivors, policy);
    forall o ensures multiset(AllEvidence(r))[o] == multiset(survivors)[o] {
      EvidenceCounts(r, multiset(survivors), o);
      if o in survivors { assert HasEdge(r, EdgeOf(o)); }
    }
  }

  // ---- Conflict exactness ----

  /** In a SINGLE category, either the edge is alone in its group and not conflicting, or the group has
      another edge and both conflict. MULTIPLE and unregistered categories never conflict. Without a
      conflict, CONFIRMED means two distinct (provider, method) pairs, however many repeats there are. */
  lemma ConflictExact(os: seq<Observation>, valid: set<string>, policy: Policy, c: CanonicalRelationship)
    requires c in Resolve(os, valid, policy)
    ensures c.state == Conflicting <==>
      c.category in policy && policy[c.category] == SINGLE
      && exists d :: d in Resolve(os, valid, policy) && Group(d) == Group(c) && d.relatedSubject != c.relatedSubject
    ensures c.state != Conflicting ==> (c.state == Confirmed <==> TwoSources(c.observations))
  {
    var m, r := multiset(Preprocess(os, valid)), Resolve(os, valid, policy);
    ResolveIsResolution(Preprocess(os, valid), policy);
    if exists d :: d in r && Group(d) == Group(c) && d.relatedSubject != c.relatedSubject {
      SiblingMeansDisagreement(r, m, policy, c);
    }
    if GroupDisagrees(Group(c), m) { DisagreementMeansSibling(r, m, policy, c); }
  }

  lemma SiblingMeansDisagreement(r: seq<CanonicalRelationship>, m: multiset<RelationshipObservation>, policy: Policy,
                                 c: CanonicalRelationship)
    requires IsResolution(r, m, policy) && c in r
    requires exists d :: d in r && Group(d) == Group(c) && d.relatedSubject != c.relatedSubject
    ensures GroupDisagrees(Group(c), m)
  {
    var d :| d in r && Group(d) == Group(c) && d.relatedSubject != c.relatedSubject;
    EvidenceMembers(c.observations, Edge(c), m);
    EvidenceMembers(d.observations, Edge(d), m);
    var x, y := c.observations[0], d.observations[0];
    assert x in c.observations && y in d.observations;
    EdgeIsGroupAndRelated(x, c);
    EdgeIsGroupAndRelated(y, d);
  }

  lemma DisagreementMeansSibling(r: seq<CanonicalRelationship>, m: multiset<RelationshipObservation>, policy: Policy,
                                 c: CanonicalRelationship)
    requires IsResolution(r, m, policy) && c in r && GroupDisagrees(Group(c), m)
    ensures exists d :: d in r && Group(d) == Group(c) && d.relatedSubject != c.relatedSubject
  {
    var x, y :|
      x in m && y in m && GroupOf(x) == Group(c) && GroupOf(y) == Group(c) && x.relatedSubject != y.relatedSubject;
    var other := if x.relatedSubject != c.relatedSubject then x else y;
    assert HasEdge(r, EdgeOf(other));
    var d :| d in r && Edge(d) == EdgeOf(other);
    EdgeIsGroupAndRelated(other, d);
  }

  // ---- The resolver itself: dictionaries filled in loops ----

  lemma SourceSetSize(evidence: seq<RelationshipObservation>, sources: set<Source>)
    requires sources == set o | o in evidence :: RelationshipSource(o)
    ensures |sources| == |KeysInOrder(RelationshipSource, evidence)|
  {
    KeySetSize(RelationshipSource, evidence, sources);
  }

  /** The frozen record's constructor, which raises unless its checks pass. */
  method Construct(c: CanonicalRelationship) returns (built: Result<CanonicalRelationship, string>)
    ensures built == if PassesConstructor(c) then Success(c) else Failure("inconsistent relationship")
  {
    if c.state == Conflicting && c.cardinality != SINGLE { return Failure("inconsistent relationship"); }
    if c.observations == [] { return Failure("inconsistent relationship"); }
    for i := 0 to |c.observations|
      invariant forall o :: o in c.observations[..i] ==> EdgeOf(o) == Edge(c)
    {
      var o := c.observations[i];
      if o.subject != c.subject || o.category != c.category || o.relatedSubject != c.relatedSubject {
        assert o in c.observations && EdgeOf(o)[0] == o.subject && EdgeOf(o)[1] == o.category;
        assert EdgeOf(o)[2] == o.relatedSubject && EdgeOf(o) != Edge(c);
        return Failure("inconsistent relationship");
      }
    }
    return Success(c);
  }

  method ResolveEdge(group: Key, related: string, evidence: seq<RelationshipObservation>, cardinality: Cardinality,
                     conflicts: bool, ghost os: seq<RelationshipObservation>, ghost policy: Policy)
      returns (built: Result<CanonicalRelationship, string>)
    requires |group| == 2 && evidence == Select(RelatedOf, related, os)
    requires cardinality == CardinalityFor(group[1], policy)
    requires conflicts <==> cardinality == SINGLE && |KeysInOrder(RelatedOf, os)| > 1
    ensures PassesConstructor(ResolvedEdge(group, related, os, policy))
      ==> built == Success(ResolvedEdge(group, related, os, policy))
  {
    var sources := set o | o in evidence :: RelationshipSource(o);
    SourceSetSize(evidence, sources);
    var state := if conflicts then Conflicting else if |sources| >= 2 then Confirmed else Weak;
    built := Construct(CanonicalRelationship(
      group[0], group[1], related, cardinality, state, SortBy(ObservationKey, evidence)));
  }

  ghost predicate AllPass(cs: seq<CanonicalRelationship>) {
    forall i :: 0 <= i < |cs| ==> PassesConstructor(cs[i])
  }

  method ResolveGroup(group: Key, os: seq<RelationshipObservation>, policy: Policy)
      returns (r: Result<seq<CanonicalRelationship>, string>)
    requires |group| == 2
    ensures AllPass(ResolvedGroup(group, os, policy)) ==> r == Success(ResolvedGroup(group, os, policy))
  {
    ghost var expected := ResolvedGroup(group, os, policy);
    ghost var fine := AllPass(expected);
    var cardinality := CardinalityFor(group[1], policy);
    var byEdge := GroupBy(RelatedOf, os);
    var conflicts := cardinality == SINGLE && |byEdge.order| > 1;
    var relationships: seq<CanonicalRelationship> := [];
    for i := 0 to |byEdge.order|
      invariant fine ==> relationships == expected[..i]
    {
      var related := byEdge.order[i];
      var c := ResolveEdge(group, related, byEdge.at[related], cardinality, conflicts, os, policy);
      assert expected[i] == ResolvedEdge(group, related, os, policy);
      if c.Failure? { return Failure(c.error); }
      relationships := relationships + [c.value];
    }
    assert expected[..|expected|] == expected;
    return Success(relationships);
  }

  /** `RelationshipResolver.resolve`: no record it constructs is ever rejected, so it always returns. */
  method ResolveRelationships(os: seq<Observation>, identities: seq<IdentityResolution.CanonicalIdentity>,
                              policy: Policy := CATEGORY_CARDINALITY)
      returns (r: seq<CanonicalRelationship>)
    ensures r == Resolve(os, IdentityResolution.Subjects(identities), policy)
  {
    var survivors := Preprocess(os, IdentityResolution.Subjects(identities));
    GroupsHaveTwoParts(survivors);
    var groups := GroupBy(GroupOf, survivors);
    var relationships: seq<CanonicalRelationship> := [];
    for i := 0 to |groups.order|
      invariant relationships == ResolvedGroups(groups.order[..i], survivors, policy)
    {
      var g := groups.order[i];
      var resolved := ResolveGroup(g, groups.at[g], policy);
      assert resolved == Success(ResolvedGroup(g, Select(GroupOf, g, survivors), policy)) by {
        GroupNeverRaises(g, survivors, policy);
      }
      relationships := relationships + resolved.value;
      ResolvedGroupsStep(groups.order, i, survivors, policy);
    }
    assert groups.order[..|groups.order|] == groups.order;
    r := SortBy(Edge, relationships);
  }

  lemma ResolvedGroupsStep(groups: seq<Key>, i: nat, os: seq<RelationshipObservation>, policy: Policy)
    requires i < |groups| && forall g :: g in groups ==> |g| == 2
    ensures ResolvedGroups(groups[..i + 1], os, policy)
         == ResolvedGroups(groups[..i], os, policy) + ResolvedGroup(groups[i], Select(GroupOf, groups[i], os), policy)
  {
    assert groups[..i + 1][..i] == groups[..i];
  }

  lemma GroupNeverRaises(group: Key, all: seq<RelationshipObservation>, policy: Policy)
    requires |group| == 2
    ensures AllPass(ResolvedGroup(group, Select(GroupOf, group, all), policy))
  {
    ResolvedGroupRecords(group, all, policy);
  }
}
