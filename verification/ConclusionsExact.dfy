/** What the resolvers conclude, read off the retained observations and their fields alone. */
module ConclusionsExact {
  import opened Ordering
  import opened Timestamps
  import opened Observations
  import I = IdentityResolution
  import R = RelationshipResolution

  // ---- Identities ----

  /** Two claims about `subject` agree on the property and differ in value. */
  ghost predicate ClaimsDisagree(os: seq<Observation>, subject: string) {
    exists i, j :: Identity(i) in os && Identity(j) in os && i.subject == subject && j.subject == subject
                   && i.propertyName == j.propertyName && i.value != j.value
  }

  predicate OtherSource(p: Provenance, q: Provenance) {
    p.provider != q.provider || p.collectionMethod != q.collectionMethod
  }

  /** Two claims of one property of `subject` come from different (provider, method) pairs. */
  ghost predicate ClaimsCorroborate(os: seq<Observation>, subject: string) {
    exists i, j :: Identity(i) in os && Identity(j) in os && i.subject == subject && j.subject == subject
                   && i.propertyName == j.propertyName && OtherSource(i.provenance, j.provenance)
  }

  /** Two different properties of `subject` are claimed. */
  ghost predicate TwoPropertiesClaimed(os: seq<Observation>, subject: string) {
    exists i, j :: Identity(i) in os && Identity(j) in os && i.subject == subject && j.subject == subject
                   && i.propertyName != j.propertyName
  }

  /** `evidence` is exactly the claims of one property of one subject. */
  ghost predicate ClaimsOf(os: seq<Observation>, subject: string, name: string, evidence: seq<IdentityObservation>) {
    forall o :: o in evidence <==> Identity(o) in os && o.subject == subject && o.propertyName == name
  }

  lemma IdentityEvidence(os: seq<Observation>, c: I.CanonicalIdentity)
    requires c in I.Resolve(os)
    ensures I.IdentityCorrect(c, multiset(IdentitiesOf(os)))
  {
    I.ResolveIsResolution(os);
  }

  /** A property of an identity holds the claims of it, and the state they call for. */
  lemma PropertyEvidence(os: seq<Observation>, c: I.CanonicalIdentity, p: I.PropertyCorroboration)
    requires c in I.Resolve(os) && p in c.properties
    ensures ClaimsOf(os, c.subject, p.propertyName, p.observations) && p.observations != []
    ensures p.state == I.StateFor(p.observations)
  {
    var m := multiset(IdentitiesOf(os));
    IdentityEvidence(os, c);
    assert I.PropertyCorrect(p, c.subject, m);
    ClaimMembers(os, c.subject, p.propertyName, p.observations);
  }

  lemma ClaimMembers(os: seq<Observation>, subject: string, name: string, evidence: seq<IdentityObservation>)
    requires I.EvidenceOf(evidence, subject, name, multiset(IdentitiesOf(os)))
    ensures ClaimsOf(os, subject, name, evidence)
  {
    I.EvidenceMembers(evidence, subject, name, multiset(IdentitiesOf(os)));
    forall o
      ensures o in evidence <==> Identity(o) in os && o.subject == subject && o.propertyName == name {
      IdentityMember(os, o);
    }
  }

  lemma IdentityMember(os: seq<Observation>, o: IdentityObservation)
    ensures o in multiset(IdentitiesOf(os)) <==> Identity(o) in os
  {
    IdentitiesOfCounts(os, o);
    assert Identity(o) in os <==> multiset(os)[Identity(o)] > 0;
  }

  lemma PropertyOf(os: seq<Observation>, c: I.CanonicalIdentity, i: IdentityObservation) returns (p: I.PropertyCorroboration)
    requires c in I.Resolve(os) && Identity(i) in os && i.subject == c.subject
    ensures p in c.properties && p.propertyName == i.propertyName && i in p.observations
    ensures ClaimsOf(os, c.subject, p.propertyName, p.observations) && p.state == I.StateFor(p.observations)
  {
    IdentityEvidence(os, c);
    IdentityMember(os, i);
    assert I.HasProperty(c.properties, i.propertyName);
    p :| p in c.properties && p.propertyName == i.propertyName;
    PropertyEvidence(os, c, p);
  }

  lemma DisagreementConflicts(os: seq<Observation>, c: I.CanonicalIdentity)
    requires c in I.Resolve(os) && ClaimsDisagree(os, c.subject)
    ensures I.SomeState(c.properties, I.Conflicting)
  {
    var i, j :| Identity(i) in os && Identity(j) in os && i.subject == c.subject && j.subject == c.subject
                && i.propertyName == j.propertyName && i.value != j.value;
    var p := PropertyOf(os, c, i);
    assert j in p.observations;
  }

  lemma ConflictDisagrees(os: seq<Observation>, c: I.CanonicalIdentity, p: I.PropertyCorroboration)
    requires c in I.Resolve(os) && p in c.properties && p.state == I.Conflicting
    ensures ClaimsDisagree(os, c.subject)
  {
    PropertyEvidence(os, c, p);
    var i, j :| i in p.observations && j in p.observations && i.value != j.value;
    assert Identity(i) in os && Identity(j) in os;
  }

  lemma DisagreementIsConflict(os: seq<Observation>, c: I.CanonicalIdentity)
    requires c in I.Resolve(os)
    ensures ClaimsDisagree(os, c.subject) <==> I.SomeState(c.properties, I.Conflicting)
  {
    if ClaimsDisagree(os, c.subject) { DisagreementConflicts(os, c); }
    if p :| p in c.properties && p.state == I.Conflicting { ConflictDisagrees(os, c, p); }
  }

  lemma CorroborationConfirms(os: seq<Observation>, c: I.CanonicalIdentity)
    requires c in I.Resolve(os) && !ClaimsDisagree(os, c.subject) && ClaimsCorroborate(os, c.subject)
    ensures I.SomeState(c.properties, I.Confirmed)
  {
    var i, j :| Identity(i) in os && Identity(j) in os && i.subject == c.subject && j.subject == c.subject
                && i.propertyName == j.propertyName && OtherSource(i.provenance, j.provenance);
    var p := PropertyOf(os, c, i);
    assert j in p.observations && IdentitySource(i) != IdentitySource(j);
    if p.state == I.Conflicting { ConflictDisagrees(os, c, p); }
  }

  lemma ConfirmationCorroborates(os: seq<Observation>, c: I.CanonicalIdentity, p: I.PropertyCorroboration)
    requires c in I.Resolve(os) && p in c.properties && p.state == I.Confirmed
    ensures ClaimsCorroborate(os, c.subject)
  {
    PropertyEvidence(os, c, p);
    var i, j :| i in p.observations && j in p.observations && IdentitySource(i) != IdentitySource(j);
    assert Identity(i) in os && Identity(j) in os && OtherSource(i.provenance, j.provenance);
  }

  lemma CorroborationIsConfirmation(os: seq<Observation>, c: I.CanonicalIdentity)
    requires c in I.Resolve(os) && !ClaimsDisagree(os, c.subject)
    ensures ClaimsCorroborate(os, c.subject) <==> I.SomeState(c.properties, I.Confirmed)
  {
    if ClaimsCorroborate(os, c.subject) { CorroborationConfirms(os, c); }
    if p :| p in c.properties && p.state == I.Confirmed { ConfirmationCorroborates(os, c, p); }
  }

  lemma PropertiesCounted(os: seq<Observation>, c: I.CanonicalIdentity)
    requires c in I.Resolve(os)
    ensures TwoPropertiesClaimed(os, c.subject) <==> |c.properties| >= 2
  {
    if TwoPropertiesClaimed(os, c.subject) {
      var i, j :| Identity(i) in os && Identity(j) in os && i.subject == c.subject && j.subject == c.subject
                  && i.propertyName != j.propertyName;
      var p := PropertyOf(os, c, i);
      var q := PropertyOf(os, c, j);
      TwoMembers(c.properties, p, q);
    }
    if |c.properties| >= 2 { PropertiesClaimed(os, c, c.properties[0], c.properties[1]); }
  }

  lemma PropertiesClaimed(os: seq<Observation>, c: I.CanonicalIdentity, p: I.PropertyCorroboration,
                          q: I.PropertyCorroboration)
    requires c in I.Resolve(os) && |c.properties| >= 2 && p == c.properties[0] && q == c.properties[1]
    ensures TwoPropertiesClaimed(os, c.subject)
  {
    IdentityEvidence(os, c);
    assert I.PropertyKey(p) != I.PropertyKey(q);
    PropertyEvidence(os, c, p);
    PropertyEvidence(os, c, q);
    var i, j := p.observations[0], q.observations[0];
    assert i in p.observations && j in q.observations;
    assert Identity(i) in os && Identity(j) in os;
  }

  lemma TwoMembers<T>(xs: seq<T>, x: T, y: T)
    requires x in xs && y in xs && x != y
    ensures |xs| >= 2
  {
  }

  /** The state of an identity, from the claims about it: CONFLICTING when two claims of a property differ in value;
      else CONFIRMED when two claims of a property differ in source; else PROBABLE when two properties are claimed;
      else WEAK. */
  lemma IdentityStateExact(os: seq<Observation>, c: I.CanonicalIdentity)
    requires c in I.Resolve(os)
    ensures c.state == I.Conflicting <==> ClaimsDisagree(os, c.subject)
    ensures c.state == I.Confirmed <==> !ClaimsDisagree(os, c.subject) && ClaimsCorroborate(os, c.subject)
    ensures c.state == I.Probable <==>
      !ClaimsDisagree(os, c.subject) && !ClaimsCorroborate(os, c.subject) && TwoPropertiesClaimed(os, c.subject)
    ensures c.state == I.Weak <==>
      !ClaimsDisagree(os, c.subject) && !ClaimsCorroborate(os, c.subject) && !TwoPropertiesClaimed(os, c.subject)
  {
    IdentityEvidence(os, c);
    DisagreementIsConflict(os, c);
    if !ClaimsDisagree(os, c.subject) { CorroborationIsConfirmation(os, c); }
    PropertiesCounted(os, c);
  }

  // ---- The order everything is given in ----

  /** Not after: smaller at the first of the fields that differs, the fields in this order. */
  predicate NotAfter(provider: (string, string), method_: (string, string), claim: (string, string),
                     run: (string, string), time: (string, string)) {
    if provider.0 != provider.1 then StringLe(provider.0, provider.1)
    else if method_.0 != method_.1 then StringLe(method_.0, method_.1)
    else if claim.0 != claim.1 then StringLe(claim.0, claim.1)
    else if run.0 != run.1 then StringLe(run.0, run.1)
    else StringLe(time.0, time.1)
  }

  lemma FiveFields(a: Key, b: Key)
    requires |a| == |b| == 5 && KeyLe(a, b)
    ensures NotAfter((a[0], b[0]), (a[1], b[1]), (a[2], b[2]), (a[3], b[3]), (a[4], b[4]))
  {
    if a[0] != b[0] {
      KeyLeAt(a, b, 0);
    } else if a[1] != b[1] {
      assert a[..1] == b[..1];
      KeyLeAt(a, b, 1);
    } else if a[2] != b[2] {
      assert a[..2] == b[..2];
      KeyLeAt(a, b, 2);
    } else if a[3] != b[3] {
      assert a[..3] == b[..3];
      KeyLeAt(a, b, 3);
    } else if a[4] != b[4] {
      assert a[..4] == b[..4];
      KeyLeAt(a, b, 4);
    } else {
      StringLeReflexive(a[4]);
    }
  }

  lemma OneField(a: string, b: string)
    requires KeyLe([a], [b]) && [a] != [b]
    ensures StringLe(a, b) && a != b
  {
    assert a != b;
    assert [a][..0] == [b][..0];
    KeyLeAt([a], [b], 0);
  }

  /** Evidence of a property stands by provider, method, value, run and time. */
  lemma IdentityEvidenceOrder(os: seq<Observation>, c: I.CanonicalIdentity, p: I.PropertyCorroboration, i: nat, j: nat)
    requires c in I.Resolve(os) && p in c.properties && i < j < |p.observations|
    ensures var a, b := p.observations[i], p.observations[j];
      NotAfter((a.provenance.provider, b.provenance.provider),
               (a.provenance.collectionMethod, b.provenance.collectionMethod), (a.value, b.value),
               (a.provenance.sourceRun, b.provenance.sourceRun),
               (IsoFormat(a.provenance.observedAt), IsoFormat(b.provenance.observedAt)))
  {
    IdentityEvidence(os, c);
    FiveFields(I.ObservationKey(p.observations[i]), I.ObservationKey(p.observations[j]));
  }

  /** Identities stand by subject and properties by name, each strictly. */
  lemma IdentityOrder(os: seq<Observation>)
    ensures var r := I.Resolve(os);
      forall i, j :: 0 <= i < j < |r| ==> StringLe(r[i].subject, r[j].subject) && r[i].subject != r[j].subject
    ensures forall c :: c in I.Resolve(os) ==>
      forall i, j :: 0 <= i < j < |c.properties| ==>
        StringLe(c.properties[i].propertyName, c.properties[j].propertyName)
        && c.properties[i].propertyName != c.properties[j].propertyName
  {
    var r := I.Resolve(os);
    I.ResolveIsResolution(os);
    forall i, j | 0 <= i < j < |r|
      ensures StringLe(r[i].subject, r[j].subject) && r[i].subject != r[j].subject {
      assert I.IdentityKey(r[i]) != I.IdentityKey(r[j]);
      OneField(r[i].subject, r[j].subject);
    }
    forall c, i, j | c in r && 0 <= i < j < |c.properties|
      ensures StringLe(c.properties[i].propertyName, c.properties[j].propertyName)
              && c.properties[i].propertyName != c.properties[j].propertyName {
      assert I.PropertyKey(c.properties[i]) != I.PropertyKey(c.properties[j]);
      OneField(c.properties[i].propertyName, c.properties[j].propertyName);
    }
  }

  // ---- Relationships ----

  predicate Of(o: RelationshipObservation, c: R.CanonicalRelationship) {
    o.subject == c.subject && o.category == c.category && o.relatedSubject == c.relatedSubject
  }

  /** `evidence` is exactly the claims of one edge. */
  ghost predicate ClaimsOfEdge(os: seq<Observation>, c: R.CanonicalRelationship) {
    forall o :: o in c.observations <==> Relationship(o) in os && Of(o, c)
  }

  lemma RelationshipEvidence(os: seq<Observation>, valid: set<string>, policy: R.Policy, c: R.CanonicalRelationship)
    requires c in R.Resolve(os, valid, policy)
    ensures R.RecordCorrect(c, multiset(R.Preprocess(os, valid)), policy) && c.observations != []
    ensures ClaimsOfEdge(os, c)
    ensures c.subject in valid && c.relatedSubject in valid && c.subject != c.relatedSubject
  {
    var surviving := R.Preprocess(os, valid);
    R.ResolveIsResolution(surviving, policy);
    R.EvidenceMembers(c.observations, R.Edge(c), multiset(surviving));
    EdgeMember(os, valid, c, c.observations[0]);
    forall o ensures o in c.observations <==> Relationship(o) in os && Of(o, c) { EdgeMember(os, valid, c, o); }
  }

  lemma EdgeMember(os: seq<Observation>, valid: set<string>, c: R.CanonicalRelationship, o: RelationshipObservation)
    ensures o in multiset(R.Preprocess(os, valid)) && R.EdgeOf(o) == R.Edge(c) <==>
      Relationship(o) in os && Of(o, c) && R.Survives(o, valid)
  {
    EdgeFieldsOf(o, c);
    R.PreprocessCounts(os, valid, o);
    assert Relationship(o) in os <==> multiset(os)[Relationship(o)] > 0;
  }

  lemma EdgeFieldsOf(o: RelationshipObservation, c: R.CanonicalRelationship)
    ensures R.EdgeOf(o) == R.Edge(c) <==> Of(o, c)
  {
    var a, b := R.EdgeOf(o), R.Edge(c);
    if a == b { assert a[0] == b[0] && a[1] == b[1] && a[2] == b[2]; }
  }

  /** Another subject, both ends resolved, is claimed in the edge's own category. */
  ghost predicate Rivalled(os: seq<Observation>, valid: set<string>, c: R.CanonicalRelationship) {
    exists o :: Relationship(o) in os && o.subject == c.subject && o.category == c.category
                && o.relatedSubject in valid && o.relatedSubject != o.subject && o.relatedSubject != c.relatedSubject
  }

  /** Two claims of the edge come from different (provider, method) pairs. */
  ghost predicate EdgeCorroborated(os: seq<Observation>, c: R.CanonicalRelationship) {
    exists o, o' :: Relationship(o) in os && Relationship(o') in os && Of(o, c) && Of(o', c)
                    && OtherSource(o.provenance, o'.provenance)
  }

  lemma GroupFields(o: RelationshipObservation, c: R.CanonicalRelationship)
    ensures R.GroupOf(o) == R.Group(c) <==> o.subject == c.subject && o.category == c.category
  {
    var a, b := R.GroupOf(o), R.Group(c);
    if a == b { assert a[0] == b[0] && a[1] == b[1]; }
  }

  lemma RivalDisagrees(os: seq<Observation>, valid: set<string>, policy: R.Policy, c: R.CanonicalRelationship,
                       o: RelationshipObservation)
    requires c in R.Resolve(os, valid, policy)
    requires Relationship(o) in os && o.subject == c.subject && o.category == c.category
    requires o.relatedSubject in valid && o.relatedSubject != o.subject && o.relatedSubject != c.relatedSubject
    ensures R.GroupDisagrees(R.Group(c), multiset(R.Preprocess(os, valid)))
  {
    RelationshipEvidence(os, valid, policy, c);
    var own := c.observations[0];
    assert own in c.observations && Of(own, c);
    R.PreprocessMembers(os, valid);
    GroupFields(o, c);
    GroupFields(own, c);
    assert own in R.Preprocess(os, valid) && o in R.Preprocess(os, valid);
  }

  lemma DisagreementRivals(os: seq<Observation>, valid: set<string>, c: R.CanonicalRelationship)
    requires R.GroupDisagrees(R.Group(c), multiset(R.Preprocess(os, valid)))
    ensures Rivalled(os, valid, c)
  {
    var surviving := R.Preprocess(os, valid);
    var x, y :| x in multiset(surviving) && y in multiset(surviving) && R.GroupOf(x) == R.Group(c)
                && R.GroupOf(y) == R.Group(c) && x.relatedSubject != y.relatedSubject;
    var o := if x.relatedSubject != c.relatedSubject then x else y;
    GroupFields(o, c);
    R.PreprocessMembers(os, valid);
    assert o in surviving;
  }

  lemma RivalIsDisagreement(os: seq<Observation>, valid: set<string>, policy: R.Policy, c: R.CanonicalRelationship)
    requires c in R.Resolve(os, valid, policy)
    ensures Rivalled(os, valid, c) <==> R.GroupDisagrees(R.Group(c), multiset(R.Preprocess(os, valid)))
  {
    if o :| Relationship(o) in os && o.subject == c.subject && o.category == c.category
            && o.relatedSubject in valid && o.relatedSubject != o.subject && o.relatedSubject != c.relatedSubject {
      RivalDisagrees(os, valid, policy, c, o);
    }
    if R.GroupDisagrees(R.Group(c), multiset(R.Preprocess(os, valid))) { DisagreementRivals(os, valid, c); }
  }

  lemma CorroborationIsTwoSources(os: seq<Observation>, c: R.CanonicalRelationship)
    requires ClaimsOfEdge(os, c)
    ensures EdgeCorroborated(os, c) <==> R.TwoSources(c.observations)
  {
    if EdgeCorroborated(os, c) {
      var o, o' :| Relationship(o) in os && Relationship(o') in os && Of(o, c) && Of(o', c)
                   && OtherSource(o.provenance, o'.provenance);
      assert RelationshipSource(o) != RelationshipSource(o') && o in c.observations && o' in c.observations;
    }
    if R.TwoSources(c.observations) {
      var o, o' :| o in c.observations && o' in c.observations && RelationshipSource(o) != RelationshipSource(o');
      assert OtherSource(o.provenance, o'.provenance);
    }
  }

  /** The state of an edge, from the claims alone: CONFLICTING when its category is SINGLE and another related
      subject is claimed; else CONFIRMED when two claims of it differ in source; else WEAK. */
  lemma EdgeStateExact(os: seq<Observation>, valid: set<string>, policy: R.Policy, c: R.CanonicalRelationship)
    requires c in R.Resolve(os, valid, policy)
    ensures c.state == R.Conflicting <==>
      c.category in policy && policy[c.category] == R.SINGLE && Rivalled(os, valid, c)
    ensures c.state == R.Confirmed <==> c.state != R.Conflicting && EdgeCorroborated(os, c)
    ensures c.cardinality == R.SINGLE <==> c.category in policy && policy[c.category] == R.SINGLE
  {
    RelationshipEvidence(os, valid, policy, c);
    RivalIsDisagreement(os, valid, policy, c);
    CorroborationIsTwoSources(os, c);
  }

  /** Under the default policy no edge is ever in conflict. */
  lemma DefaultNeverConflicts(os: seq<Observation>, valid: set<string>, c: R.CanonicalRelationship)
    requires c in R.Resolve(os, valid, R.CATEGORY_CARDINALITY)
    ensures c.state != R.Conflicting && c.cardinality == R.MULTIPLE
  {
    EdgeStateExact(os, valid, R.CATEGORY_CARDINALITY, c);
  }

  /** Evidence of an edge stands by provider, method, related subject, run and time. */
  lemma EdgeEvidenceOrder(os: seq<Observation>, valid: set<string>, policy: R.Policy, c: R.CanonicalRelationship,
                          i: nat, j: nat)
    requires c in R.Resolve(os, valid, policy) && i < j < |c.observations|
    ensures var a, b := c.observations[i], c.observations[j];
      NotAfter((a.provenance.provider, b.provenance.provider),
               (a.provenance.collectionMethod, b.provenance.collectionMethod), (a.relatedSubject, b.relatedSubject),
               (a.provenance.sourceRun, b.provenance.sourceRun),
               (IsoFormat(a.provenance.observedAt), IsoFormat(b.provenance.observedAt)))
  {
    RelationshipEvidence(os, valid, policy, c);
    FiveFields(R.ObservationKey(c.observations[i]), R.ObservationKey(c.observations[j]));
  }

  /** Edges stand strictly by subject, then category, then related subject. */
  lemma EdgeOrder(os: seq<Observation>, valid: set<string>, policy: R.Policy, i: nat, j: nat)
    requires i < j < |R.Resolve(os, valid, policy)|
    ensures var a, b := R.Resolve(os, valid, policy)[i], R.Resolve(os, valid, policy)[j];
      if a.subject != b.subject then StringLe(a.subject, b.subject)
      else if a.category != b.category then StringLe(a.category, b.category)
      else a.relatedSubject != b.relatedSubject && StringLe(a.relatedSubject, b.relatedSubject)
  {
    R.ResolveIsResolution(R.Preprocess(os, valid), policy);
    var a, b := R.Resolve(os, valid, policy)[i], R.Resolve(os, valid, policy)[j];
    var x, y := R.Edge(a), R.Edge(b);
    assert KeyLe(x, y) && x != y;
    if x[0] != y[0] {
      KeyLeAt(x, y, 0);
    } else if x[1] != y[1] {
      assert x[..1] == y[..1];
      KeyLeAt(x, y, 1);
    } else {
      assert x[..2] == y[..2] && x[2] != y[2];
      KeyLeAt(x, y, 2);
    }
  }
}
