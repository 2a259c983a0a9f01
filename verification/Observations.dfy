/** Retained observations: identity claims and relationship claims in one mixed list. */
module Observations {
  import opened Ordering
  import opened Timestamps

  datatype Provenance = Provenance(
    provider: string, collectionMethod: string, observedAt: Timestamp, sourceRun: string)

  datatype IdentityObservation = IdentityObservation(
    subject: string, propertyName: string, value: string, provenance: Provenance)

  datatype RelationshipObservation = RelationshipObservation(
    subject: string, relatedSubject: string, category: string, provenance: Provenance)

  datatype Observation =
    | Identity(identity: IdentityObservation)
    | Relationship(relationship: RelationshipObservation)

  /** What independence is judged by: one (provider, method) pair is one source. */
  type Source = (string, string)

  function SourceOf(p: Provenance): Source {
    (p.provider, p.collectionMethod)
  }

  function IdentitySource(o: IdentityObservation): Source { SourceOf(o.provenance) }

  function RelationshipSource(o: RelationshipObservation): Source { SourceOf(o.provenance) }

  function IdentitiesOf(os: seq<Observation>): seq<IdentityObservation> {
    if os == [] then []
    else
      var rest := IdentitiesOf(os[..|os| - 1]);
      var o := os[|os| - 1];
      if o.Identity? then rest + [o.identity] else rest
  }

  lemma {:induction false} IdentitiesOfCounts(os: seq<Observation>, i: IdentityObservation)
    ensures multiset(IdentitiesOf(os))[i] == multiset(os)[Identity(i)]
  {
    if os != [] {
      IdentitiesOfCounts(os[..|os| - 1], i);
      assert os == os[..|os| - 1] + [os[|os| - 1]];
    }
  }

  lemma IdentitiesOfMultiset(os: seq<Observation>, os': seq<Observation>)
    requires multiset(os) <= multiset(os')
    ensures multiset(IdentitiesOf(os)) <= multiset(IdentitiesOf(os'))
  {
    forall i ensures multiset(IdentitiesOf(os))[i] <= multiset(IdentitiesOf(os'))[i] {
      IdentitiesOfCounts(os, i);
      IdentitiesOfCounts(os', i);
    }
  }

  lemma IdentitiesOfPermutation(os: seq<Observation>, os': seq<Observation>)
    requires multiset(os) == multiset(os')
    ensures multiset(IdentitiesOf(os)) == multiset(IdentitiesOf(os'))
  {
    forall i ensures multiset(IdentitiesOf(os))[i] == multiset(IdentitiesOf(os'))[i] {
      IdentitiesOfCounts(os, i);
      IdentitiesOfCounts(os', i);
    }
  }
}
