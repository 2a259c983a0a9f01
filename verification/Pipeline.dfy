/** The composed pipeline: identities from the observations, then edges from both. */
module Pipeline {
  import opened Ordering
  import opened Observations
  import I = IdentityResolution
  import R = RelationshipResolution

  function Identities(os: seq<Observation>): seq<I.CanonicalIdentity> { I.Resolve(os) }

  function Edges(os: seq<Observation>, policy: R.Policy): seq<R.CanonicalRelationship> {
    R.Resolve(os, I.Subjects(Identities(os)), policy)
  }

  /** The identities of a run are exactly the subjects its identity observations name. */
  lemma SubjectsExact(os: seq<Observation>, subject: string)
    ensures subject in I.Subjects(Identities(os)) <==> exists i :: Identity(i) in os && i.subject == subject
  {
    var r, m := Identities(os), multiset(IdentitiesOf(os));
    I.ResolveIsResolution(os);
    if subject in I.Subjects(r) {
      var c :| c in r && c.subject == subject;
      var p := c.properties[0];
      assert p in c.properties;
      I.EvidenceMembers(p.observations, c.subject, p.propertyName, m);
      var o := p.observations[0];
      assert o in p.observations;
      IdentitiesOfCounts(os, o);
      assert Identity(o) in os && o.subject == subject;
    }
    if i :| Identity(i) in os && i.subject == subject {
      IdentitiesOfCounts(os, i);
      assert i in m && I.HasSubject(r, i.subject);
      var c :| c in r && c.subject == i.subject;
    }
  }

  /** Both endpoints of every edge are canonical identities, and an edge never joins a subject to itself. */
  lemma EndpointsResolved(os: seq<Observation>, policy: R.Policy, c: R.CanonicalRelationship)
    requires c in Edges(os, policy)
    ensures c.subject in I.Subjects(Identities(os)) && c.relatedSubject in I.Subjects(Identities(os))
    ensures c.subject != c.relatedSubject
  {
    var valid := I.Subjects(Identities(os));
    var surviving := R.Preprocess(os, valid);
    R.ResolveIsResolution(surviving, policy);
    R.EvidenceMembers(c.observations, R.Edge(c), multiset(surviving));
    var o := c.observations[0];
    assert o in c.observations && o in surviving;
    R.PreprocessMembers(os, valid);
    assert R.EdgeOf(o)[0] == R.Edge(c)[0] && R.EdgeOf(o)[2] == R.Edge(c)[2];
  }

  /** Every edge rests on some observation of it between two canonical identities. */
  lemma EdgeHasEvidence(os: seq<Observation>, policy: R.Policy, edge: Key) returns (o: RelationshipObservation)
    requires R.HasEdge(Edges(os, policy), edge)
    ensures Relationship(o) in os && R.EdgeOf(o) == edge && R.Survives(o, I.Subjects(Identities(os)))
  {
    var valid := I.Subjects(Identities(os));
    var surviving := R.Preprocess(os, valid);
    R.ResolveIsResolution(surviving, policy);
    var c :| c in Edges(os, policy) && R.Edge(c) == edge;
    R.EvidenceMembers(c.observations, R.Edge(c), multiset(surviving));
    o := c.observations[0];
    assert o in c.observations && o in surviving;
    R.PreprocessMembers(os, valid);
  }

  /** Every observation between two different canonical identities has its edge. */
  lemma SurvivingClaimGivesEdge(os: seq<Observation>, policy: R.Policy, o: RelationshipObservation)
    requires Relationship(o) in os && R.Survives(o, I.Subjects(Identities(os)))
    ensures R.HasEdge(Edges(os, policy), R.EdgeOf(o))
  {
    var valid := I.Subjects(Identities(os));
    var surviving := R.Preprocess(os, valid);
    R.ResolveIsResolution(surviving, policy);
    R.PreprocessMembers(os, valid);
    assert o in multiset(surviving);
  }

  /** The whole pipeline is a function of the multiset of observations. */
  lemma PipelineOrderIndependent(os: seq<Observation>, os': seq<Observation>, policy: R.Policy)
    requires multiset(os) == multiset(os')
    ensures Identities(os) == Identities(os') && Edges(os, policy) == Edges(os', policy)
  {
    I.OrderIndependent(os, os');
    R.OrderIndependent(os, os', Identities(os), Identities(os'), policy);
  }

  // ---- Monotone corroboration ----

  function IdentityRank(s: I.IdentityState): nat {
    match s case Weak => 0 case Probable => 1 case Confirmed => 2 case Conflicting => 3
  }

  function EdgeRank(s: R.EdgeState): nat {
    match s case Weak => 0 case Confirmed => 1 case Conflicting => 2
  }

  /** No two states share a rank. */
  lemma RanksAscend()
    ensures IdentityRank(I.Weak) < IdentityRank(I.Probable) < IdentityRank(I.Confirmed) < IdentityRank(I.Conflicting)
    ensures EdgeRank(R.Weak) < EdgeRank(R.Confirmed) < EdgeRank(R.Conflicting)
  {
  }

  ghost predicate PropertyGrows(p: I.PropertyCorroboration, q: I.PropertyCorroboration) {
    && p.propertyName == q.propertyName
    && multiset(p.observations) <= multiset(q.observations)
    && IdentityRank(p.state) <= IdentityRank(q.state)
  }

  ghost predicate GrownAmong(p: I.PropertyCorroboration, qs: seq<I.PropertyCorroboration>) {
    exists q :: q in qs && PropertyGrows(p, q)
  }

  ghost predicate IdentityGrows(c: I.CanonicalIdentity, d: I.CanonicalIdentity) {
    && c.subject == d.subject
    && IdentityRank(c.state) <= IdentityRank(d.state)
    && forall p :: p in c.properties ==> GrownAmong(p, d.properties)
  }

  ghost predicate EdgeGrows(c: R.CanonicalRelationship, d: R.CanonicalRelationship) {
    && R.Edge(c) == R.Edge(d)
    && c.cardinality == d.cardinality
    && multiset(c.observations) <= multiset(d.observations)
    && EdgeRank(c.state) <= EdgeRank(d.state)
  }

  lemma SubmultisetMembers<T>(xs: seq<T>, ys: seq<T>)
    requires multiset(xs) <= multiset(ys)
    ensures forall x :: x in xs ==> x in ys
  {
    forall x | x in xs ensures x in ys {
      assert multiset(xs)[x] > 0;
      assert multiset(ys)[x] > 0;
    }
  }

  lemma StateMonotone(xs: seq<IdentityObservation>, ys: seq<IdentityObservation>)
    requires forall x :: x in xs ==> x in ys
    ensures IdentityRank(I.StateFor(xs)) <= IdentityRank(I.StateFor(ys))
  {
  }

  lemma PropertyMonotone(p: I.PropertyCorroboration, q: I.PropertyCorroboration, subject: string,
                         m: multiset<IdentityObservation>, m': multiset<IdentityObservation>)
    requires m <= m' && p.propertyName == q.propertyName
    requires I.PropertyCorrect(p, subject, m) && I.PropertyCorrect(q, subject, m')
    ensures PropertyGrows(p, q)
  {
    assert multiset(p.observations) <= multiset(q.observations);
    SubmultisetMembers(p.observations, q.observations);
    StateMonotone(p.observations, q.observations);
  }

  lemma PropertyCounterpart(p: I.PropertyCorroboration, c: I.CanonicalIdentity, d: I.CanonicalIdentity,
                            m: multiset<IdentityObservation>, m': multiset<IdentityObservation>)
      returns (q: I.PropertyCorroboration)
    requires m <= m' && c.subject == d.subject && p in c.properties
    requires I.IdentityCorrect(c, m) && I.IdentityCorrect(d, m')
    ensures q in d.properties && PropertyGrows(p, q)
  {
    I.EvidenceMembers(p.observations, c.subject, p.propertyName, m);
    var o := p.observations[0];
    assert o in p.observations && o in m';
    assert I.HasProperty(d.properties, o.propertyName);
    q :| q in d.properties && q.propertyName == o.propertyName;
    PropertyMonotone(p, q, c.subject, m, m');
  }

  lemma IdentityMonotone(c: I.CanonicalIdentity, d: I.CanonicalIdentity,
                         m: multiset<IdentityObservation>, m': multiset<IdentityObservation>)
    requires m <= m' && c.subject == d.subject
    requires I.IdentityCorrect(c, m) && I.IdentityCorrect(d, m')
    ensures IdentityGrows(c, d)
  {
    forall p | p in c.properties ensures GrownAmong(p, d.properties) {
      var q := PropertyCounterpart(p, c, d, m, m');
    }
    if |c.properties| >= 2 { TwoGrowToTwo(c.properties, d.properties); }
    RollUpMonotone(c.properties, d.properties, c.state, d.state);
  }

  lemma TwoGrowToTwo(ps: seq<I.PropertyCorroboration>, qs: seq<I.PropertyCorroboration>)
    requires |ps| >= 2 && StrictlySortedBy(I.PropertyKey, ps)
    requires forall p :: p in ps ==> GrownAmong(p, qs)
    ensures |qs| >= 2
  {
    assert ps[0] in ps && ps[1] in ps;
    assert I.PropertyKey(ps[0]) != I.PropertyKey(ps[1]);
    var q0 :| q0 in qs && PropertyGrows(ps[0], q0);
    var q1 :| q1 in qs && PropertyGrows(ps[1], q1);
    assert q0 != q1;
  }

  lemma RollUpMonotone(ps: seq<I.PropertyCorroboration>, qs: seq<I.PropertyCorroboration>,
                       s: I.IdentityState, t: I.IdentityState)
    requires I.RolledUp(s, ps) && I.RolledUp(t, qs)
    requires forall p :: p in ps ==> GrownAmong(p, qs)
    requires |ps| >= 2 ==> |qs| >= 2
    ensures IdentityRank(s) <= IdentityRank(t)
  {
    if p :| p in ps && p.state == I.Conflicting {
      var q :| q in qs && PropertyGrows(p, q);
      assert q.state == I.Conflicting;
    } else if p :| p in ps && p.state == I.Confirmed {
      var q :| q in qs && PropertyGrows(p, q);
      assert q.state == I.Confirmed || q.state == I.Conflicting;
    }
  }

  /** More evidence never removes an identity or a property and never lowers a state. */
  lemma IdentitiesMonotone(os: seq<Observation>, os': seq<Observation>, c: I.CanonicalIdentity)
    requires multiset(os) <= multiset(os') && c in Identities(os)
    ensures exists d :: d in Identities(os') && IdentityGrows(c, d)
  {
    var m, m' := multiset(IdentitiesOf(os)), multiset(IdentitiesOf(os'));
    IdentitiesOfMultiset(os, os');
    I.ResolveIsResolution(os);
    I.ResolveIsResolution(os');
    var p := c.properties[0];
    assert p in c.properties;
    I.EvidenceMembers(p.observations, c.subject, p.propertyName, m);
    var o := p.observations[0];
    assert o in p.observations && o in m';
    assert I.HasSubject(Identities(os'), o.subject);
    var d :| d in Identities(os') && d.subject == o.subject;
    IdentityMonotone(c, d, m, m');
  }

  lemma SubjectsMonotone(os: seq<Observation>, os': seq<Observation>)
    requires multiset(os) <= multiset(os')
    ensures I.Subjects(Identities(os)) <= I.Subjects(Identities(os'))
  {
    SubmultisetMembers(os, os');
    forall s | s in I.Subjects(Identities(os)) ensures s in I.Subjects(Identities(os')) {
      SubjectsExact(os, s);
      var i :| Identity(i) in os && i.subject == s;
      assert Identity(i) in os';
      SubjectsExact(os', s);
    }
  }

  lemma EdgeMonotone(c: R.CanonicalRelationship, d: R.CanonicalRelationship, policy: R.Policy,
                     m: multiset<RelationshipObservation>, m': multiset<RelationshipObservation>)
    requires m <= m' && R.Edge(c) == R.Edge(d)
    requires R.RecordCorrect(c, m, policy) && R.RecordCorrect(d, m', policy)
    ensures EdgeGrows(c, d)
  {
    R.EdgeFields(c, d);
    assert multiset(c.observations) <= multiset(d.observations);
    SubmultisetMembers(c.observations, d.observations);
    if R.GroupDisagrees(R.Group(c), m) {
      var o, o' :| o in m && o' in m && R.GroupOf(o) == R.Group(c) && R.GroupOf(o') == R.Group(c)
                   && o.relatedSubject != o'.relatedSubject;
      assert o in m' && o' in m';
    }
  }

  /** More evidence never removes an edge and never lowers its state, although the identities the
      endpoints must resolve to are themselves recomputed from the larger evidence. */
  lemma EdgesMonotone(os: seq<Observation>, os': seq<Observation>, policy: R.Policy, c: R.CanonicalRelationship)
    requires multiset(os) <= multiset(os') && c in Edges(os, policy)
    ensures exists d :: d in Edges(os', policy) && EdgeGrows(c, d)
  {
    var valid, valid' := I.Subjects(Identities(os)), I.Subjects(Identities(os'));
    SubjectsMonotone(os, os');
    var s, s' := R.Preprocess(os, valid), R.Preprocess(os', valid');
    R.PreprocessMultiset(os, valid, os', valid');
    R.ResolveIsResolution(s, policy);
    R.ResolveIsResolution(s', policy);
    R.EvidenceMembers(c.observations, R.Edge(c), multiset(s));
    var o := c.observations[0];
    assert o in c.observations && o in multiset(s');
    assert R.HasEdge(Edges(os', policy), R.EdgeOf(o));
    var d :| d in Edges(os', policy) && R.Edge(d) == R.EdgeOf(o);
    EdgeMonotone(c, d, policy, multiset(s), multiset(s'));
  }
}
