/** `IdentityResolver`: from retained observations to canonical identities. */
module IdentityResolution {
  import opened Ordering
  import opened Grouping
  import opened Timestamps
  import opened Observations

  datatype IdentityState = Weak | Probable | Confirmed | Conflicting

  datatype PropertyCorroboration = PropertyCorroboration(
    propertyName: string, state: IdentityState, observations: seq<IdentityObservation>)

  datatype CanonicalIdentity = CanonicalIdentity(
    subject: string, state: IdentityState, properties: seq<PropertyCorroboration>)

  function SubjectOf(o: IdentityObservation): string { o.subject }

  function NameOf(o: IdentityObservation): string { o.propertyName }

  function IdentityKey(c: CanonicalIdentity): Key { [c.subject] }

  function PropertyKey(p: PropertyCorroboration): Key { [p.propertyName] }

  /** `_property_observation_sort_key`. */
  function ObservationKey(o: IdentityObservation): Key {
    [o.provenance.provider, o.provenance.collectionMethod, o.value,
     o.provenance.sourceRun, IsoFormat(o.provenance.observedAt)]
  }

  ghost predicate SomeState(properties: seq<PropertyCorroboration>, state: IdentityState) {
    exists p :: p in properties && p.state == state
  }

  /** The state an identity's properties call for: a conflict before anything, else a confirmation, else PROBABLE
      for two properties. */
  ghost predicate RolledUp(state: IdentityState, properties: seq<PropertyCorroboration>) {
    && (state == Conflicting <==> SomeState(properties, Conflicting))
    && (state == Confirmed <==> !SomeState(properties, Conflicting) && SomeState(properties, Confirmed))
    && (state == Probable <==>
          !SomeState(properties, Conflicting) && !SomeState(properties, Confirmed) && |properties| >= 2)
  }

  /** `_roll_up_identity_state`. */
  function RollUp(properties: seq<PropertyCorroboration>): IdentityState {
    if exists p :: p in properties && p.state == Conflicting then Conflicting
    else if exists p :: p in properties && p.state == Confirmed then Confirmed
    else if |properties| >= 2 then Probable
    else Weak
  }

  lemma RollUpExact(properties: seq<PropertyCorroboration>)
    ensures RolledUp(RollUp(properties), properties)
  {
  }

  function Subjects(identities: seq<CanonicalIdentity>): set<string> {
    set c | c in identities :: c.subject
  }

  // ---- What a resolution is, in terms of the multiset of identity observations only ----

  ghost predicate TwoValues(os: seq<IdentityObservation>) {
    exists o, o' :: o in os && o' in os && o.value != o'.value
  }

  ghost predicate TwoSources(os: seq<IdentityObservation>) {
    exists o, o' :: o in os && o' in os && IdentitySource(o) != IdentitySource(o')
  }

  /** The state a property must carry; disagreement needs no second source. */
  ghost function StateFor(os: seq<IdentityObservation>): IdentityState {
    if TwoValues(os) then Conflicting else if TwoSources(os) then Confirmed else Weak
  }

  /** `os` is the sorted list of exactly the observations of one property of one subject. */
  ghost predicate EvidenceOf(os: seq<IdentityObservation>, subject: string, name: string,
                             m: multiset<IdentityObservation>) {
    && SortedBy(ObservationKey, os)
    && forall o :: multiset(os)[o] == if o.subject == subject && o.propertyName == name then m[o] else 0
  }

  ghost predicate PropertyCorrect(p: PropertyCorroboration, subject: string, m: multiset<IdentityObservation>) {
    && EvidenceOf(p.observations, subject, p.propertyName, m)
    && p.observations != []
    && p.state == StateFor(p.observations)
  }

  ghost predicate HasProperty(properties: seq<PropertyCorroboration>, name: string) {
    exists p :: p in properties && p.propertyName == name
  }

  ghost predicate HasSubject(r: seq<CanonicalIdentity>, subject: string) {
    exists c :: c in r && c.subject == subject
  }

  ghost predicate IdentityCorrect(c: CanonicalIdentity, m: multiset<IdentityObservation>) {
    && StrictlySortedBy(PropertyKey, c.properties)
    && c.properties != []
    && (forall p :: p in c.properties ==> PropertyCorrect(p, c.subject, m))
    && (forall o {:trigger HasProperty(c.properties, o.propertyName)} ::
         o in m && o.subject == c.subject ==> HasProperty(c.properties, o.propertyName))
    && RolledUp(c.state, c.properties)
  }

  /** One correct identity per observed subject, strictly sorted by subject. */
  ghost predicate IsResolution(r: seq<CanonicalIdentity>, m: multiset<IdentityObservation>) {
    && StrictlySortedBy(IdentityKey, r)
    && (forall c :: c in r ==> IdentityCorrect(c, m))
    && (forall o {:trigger HasSubject(r, o.subject)} :: o in m ==> HasSubject(r, o.subject))
  }

  lemma EvidenceMembers(os: seq<IdentityObservation>, subject: string, name: string, m: multiset<IdentityObservation>)
    requires EvidenceOf(os, subject, name, m)
    ensures forall o :: o in os <==> o in m && o.subject == subject && o.propertyName == name
  {
    forall o ensures o in os <==> o in m && o.subject == subject && o.propertyName == name {
      assert o in os <==> multiset(os)[o] > 0;
    }
  }

  lemma SamePropertyTiesEqual(os: seq<IdentityObservation>, subject: string, name: string)
    requires forall o :: o in os ==> o.subject == subject && o.propertyName == name
    ensures TiesEqual(ObservationKey, os)
  {
    forall i, j | 0 <= i < |os| && 0 <= j < |os| && ObservationKey(os[i]) == ObservationKey(os[j])
      ensures os[i] == os[j]
    {
      var a, b := os[i], os[j];
      var x, y := ObservationKey(a), ObservationKey(b);
      assert x[0] == y[0] && x[1] == y[1] && x[2] == y[2] && x[3] == y[3] && x[4] == y[4];
      IsoFormatInjective(a.provenance.observedAt, b.provenance.observedAt);
    }
  }

  lemma EvidenceUnique(os: seq<IdentityObservation>, os': seq<IdentityObservation>, subject: string, name: string,
                       m: multiset<IdentityObservation>)
    requires EvidenceOf(os, subject, name, m) && EvidenceOf(os', subject, name, m)
    ensures os == os'
  {
    EvidenceMembers(os, subject, name, m);
    SamePropertyTiesEqual(os, subject, name);
    assert multiset(os) == multiset(os');
    SortedArrangementUnique(ObservationKey, os, os');
  }

  lemma PropertiesCover(c: CanonicalIdentity, d: CanonicalIdentity, m: multiset<IdentityObservation>)
    requires IdentityCorrect(c, m) && IdentityCorrect(d, m) && c.subject == d.subject
    ensures forall p :: p in c.properties ==> exists q :: q in d.properties && PropertyKey(q) == PropertyKey(p)
  {
    forall p | p in c.properties ensures exists q :: q in d.properties && PropertyKey(q) == PropertyKey(p) {
      EvidenceMembers(p.observations, c.subject, p.propertyName, m);
      assert p.observations[0] in p.observations;
      assert HasProperty(d.properties, p.observations[0].propertyName);
      var q :| q in d.properties && q.propertyName == p.propertyName;
    }
  }

  lemma SameProperties(c: CanonicalIdentity, d: CanonicalIdentity, m: multiset<IdentityObservation>)
    requires IdentityCorrect(c, m) && IdentityCorrect(d, m) && c.subject == d.subject
    ensures c.properties == d.properties
  {
    PropertiesCover(c, d, m);
    PropertiesCover(d, c, m);
    StrictArrangementUnique(PropertyKey, c.properties, d.properties);
    forall i | 0 <= i < |c.properties| ensures c.properties[i] == d.properties[i] {
      var p, q := c.properties[i], d.properties[i];
      assert p in c.properties && q in d.properties;
      assert PropertyKey(p)[0] == PropertyKey(q)[0];
      EvidenceUnique(p.observations, q.observations, c.subject, p.propertyName, m);
    }
  }

  lemma RolledUpUnique(s: IdentityState, t: IdentityState, properties: seq<PropertyCorroboration>)
    requires RolledUp(s, properties) && RolledUp(t, properties)
    ensures s == t
  {
  }

  lemma IdentityUnique(c: CanonicalIdentity, d: CanonicalIdentity, m: multiset<IdentityObservation>)
    requires IdentityCorrect(c, m) && IdentityCorrect(d, m) && c.subject == d.subject
    ensures c == d
  {
    SameProperties(c, d, m);
    RolledUpUnique(c.state, d.state, c.properties);
  }

  lemma IdentitiesCover(r: seq<CanonicalIdentity>, r': seq<CanonicalIdentity>, m: multiset<IdentityObservation>)
    requires IsResolution(r, m) && IsResolution(r', m)
    ensures forall c :: c in r ==> exists d :: d in r' && IdentityKey(d) == IdentityKey(c)
  {
    forall c | c in r ensures exists d :: d in r' && IdentityKey(d) == IdentityKey(c) {
      var p := c.properties[0];
      assert p in c.properties;
      EvidenceMembers(p.observations, c.subject, p.propertyName, m);
      assert p.observations[0] in p.observations;
      assert HasSubject(r', p.observations[0].subject);
      var d :| d in r' && d.subject == c.subject;
    }
  }

  /** A multiset of identity observations has one resolution. */
  lemma ResolutionUnique(r: seq<CanonicalIdentity>, r': seq<CanonicalIdentity>, m: multiset<IdentityObservation>)
    requires IsResolution(r, m) && IsResolution(r', m)
    ensures r == r'
  {
    IdentitiesCover(r, r', m);
    IdentitiesCover(r', r, m);
    StrictArrangementUnique(IdentityKey, r, r');
    forall i | 0 <= i < |r| ensures r[i] == r'[i] {
      assert r[i] in r && r'[i] in r';
      assert IdentityKey(r[i])[0] == IdentityKey(r'[i])[0];
      IdentityUnique(r[i], r'[i], m);
    }
  }

  // ---- Reference definition: regroup by selection, with no dictionaries ----

  function ValueOf(o: IdentityObservation): string { o.value }

  function ResolvedProperty(name: string, os: seq<IdentityObservation>): PropertyCorroboration {
    var state :=
      if |KeysInOrder(ValueOf, os)| > 1 then Conflicting
      else if |KeysInOrder(IdentitySource, os)| > 1 then Confirmed
      else Weak;
    PropertyCorroboration(name, state, SortBy(ObservationKey, os))
  }

  function ResolvedProperties(os: seq<IdentityObservation>): seq<PropertyCorroboration> {
    var names := KeysInOrder(NameOf, os);
    seq(|names|, i requires 0 <= i < |names| => ResolvedProperty(names[i], Select(NameOf, names[i], os)))
  }

  function ResolvedSubject(subject: string, os: seq<IdentityObservation>): CanonicalIdentity {
    var properties := SortBy(PropertyKey, ResolvedProperties(os));
    CanonicalIdentity(subject, RollUp(properties), properties)
  }

  function ResolvedSubjects(os: seq<IdentityObservation>): seq<CanonicalIdentity> {
    var subjects := KeysInOrder(SubjectOf, os);
    seq(|subjects|, i requires 0 <= i < |subjects| =>
      ResolvedSubject(subjects[i], Select(SubjectOf, subjects[i], os)))
  }

  function Resolve(os: seq<Observation>): seq<CanonicalIdentity> {
    SortBy(IdentityKey, ResolvedSubjects(IdentitiesOf(os)))
  }

  lemma ResolvedPropertyCorrect(subject: string, name: string, claims: seq<IdentityObservation>,
                                os: seq<IdentityObservation>)
    requires subject in KeysInOrder(SubjectOf, claims)
    requires os == Select(SubjectOf, subject, claims) && name in KeysInOrder(NameOf, os)
    ensures PropertyCorrect(ResolvedProperty(name, Select(NameOf, name, os)), subject, multiset(claims))
  {
    var mine := Select(NameOf, name, os);
    var sorted := SortBy(ObservationKey, mine);
    SortByCorrect(ObservationKey, mine);
    SameElements(sorted, mine);
    forall o: IdentityObservation ensures multiset(sorted)[o]
        == if o.subject == subject && o.propertyName == name then multiset(claims)[o] else 0 {
      SelectCounts(NameOf, name, os, o);
      SelectCounts(SubjectOf, subject, claims, o);
    }
    assert sorted != [] by {
      KeysExact(NameOf, os, name);
      SelectMembers(NameOf, name, os);
      var o :| o in os && NameOf(o) == name;
      assert o in mine && o in sorted;
    }
    ManyKeys(ValueOf, mine);
    ManyKeys(IdentitySource, mine);
    StateFromKeys(mine, sorted);
  }

  lemma StateFromKeys(mine: seq<IdentityObservation>, sorted: seq<IdentityObservation>)
    requires forall o :: o in mine <==> o in sorted
    ensures StateFor(sorted) ==
      if |KeysInOrder(ValueOf, mine)| > 1 then Conflicting
      else if |KeysInOrder(IdentitySource, mine)| > 1 then Confirmed
      else Weak
  {
    ManyKeys(ValueOf, mine);
    ManyKeys(IdentitySource, mine);
    if x, y :| x in mine && y in mine && ValueOf(x) != ValueOf(y) { assert x in sorted && y in sorted; }
    if x, y :| x in sorted && y in sorted && x.value != y.value { assert ValueOf(x) != ValueOf(y); }
  }

  lemma PropertiesSorted(os: seq<IdentityObservation>)
    ensures var properties := SortBy(PropertyKey, ResolvedProperties(os));
      && StrictlySortedBy(PropertyKey, properties)
      && forall p :: p in properties <==> p in ResolvedProperties(os)
  {
    var names, built := KeysInOrder(NameOf, os), ResolvedProperties(os);
    SortByCorrect(PropertyKey, built);
    SameElements(SortBy(PropertyKey, built), built);
    KeysDistinct(NameOf, os);
    forall i, j | 0 <= i < j < |built| ensures PropertyKey(built[i]) != PropertyKey(built[j]) {
      assert PropertyKey(built[i])[0] == names[i] && PropertyKey(built[j])[0] == names[j];
    }
    SortByStrict(PropertyKey, built);
  }

  lemma ResolvedSubjectCorrect(subject: string, claims: seq<IdentityObservation>)
    requires subject in KeysInOrder(SubjectOf, claims)
    ensures IdentityCorrect(ResolvedSubject(subject, Select(SubjectOf, subject, claims)), multiset(claims))
  {
    var os := Select(SubjectOf, subject, claims);
    SelectMembers(SubjectOf, subject, claims);
    var names, built := KeysInOrder(NameOf, os), ResolvedProperties(os);
    var properties := SortBy(PropertyKey, built);
    PropertiesSorted(os);
    RollUpExact(properties);
    forall p | p in properties ensures PropertyCorrect(p, subject, multiset(claims)) {
      var i :| 0 <= i < |built| && built[i] == p;
      assert names[i] in names;
      ResolvedPropertyCorrect(subject, names[i], claims, os);
    }
    forall o: IdentityObservation | o in multiset(claims) && o.subject == subject
      ensures HasProperty(properties, o.propertyName)
    {
      assert o in os;
      KeysExact(NameOf, os, NameOf(o));
      var i :| 0 <= i < |names| && names[i] == o.propertyName;
      assert built[i] in built && built[i] in properties;
    }
    KeysExact(SubjectOf, claims, subject);
    var o :| o in claims && SubjectOf(o) == subject;
    assert o in multiset(claims);
  }

  /** The resolver's output is the resolution of its identity observations. */
  lemma ResolveIsResolution(os: seq<Observation>)
    ensures IsResolution(Resolve(os), multiset(IdentitiesOf(os)))
  {
    var claims := IdentitiesOf(os);
    var subjects, built := KeysInOrder(SubjectOf, claims), ResolvedSubjects(claims);
    var r := SortBy(IdentityKey, built);
    SortByCorrect(IdentityKey, built);
    SameElements(r, built);
    KeysDistinct(SubjectOf, claims);
    forall i, j | 0 <= i < j < |built| ensures IdentityKey(built[i]) != IdentityKey(built[j]) {
      assert IdentityKey(built[i])[0] == subjects[i] && IdentityKey(built[j])[0] == subjects[j];
    }
    SortByStrict(IdentityKey, built);
    forall c | c in r ensures IdentityCorrect(c, multiset(claims)) {
      assert c in built;
      var i :| 0 <= i < |built| && built[i] == c;
      assert subjects[i] in subjects;
      ResolvedSubjectCorrect(subjects[i], claims);
    }
    forall o: IdentityObservation | o in multiset(claims) ensures HasSubject(r, o.subject) {
      KeysExact(SubjectOf, claims, SubjectOf(o));
      var i :| 0 <= i < |subjects| && subjects[i] == o.subject;
      assert built[i] in built && built[i] in r;
    }
  }

  /** Identity resolution depends only on the multiset of observations. */
  lemma OrderIndependent(os: seq<Observation>, os': seq<Observation>)
    requires multiset(os) == multiset(os')
    ensures Resolve(os) == Resolve(os')
  {
    IdentitiesOfPermutation(os, os');
    ResolveIsResolution(os);
    ResolveIsResolution(os');
    ResolutionUnique(Resolve(os), Resolve(os'), multiset(IdentitiesOf(os)));
  }

  // ---- The resolver itself: nested dictionaries filled in loops ----

  /** The values each independent source claimed. */
  function Tally(os: seq<IdentityObservation>): map<Source, set<string>> {
    if os == [] then map[]
    else
      var values := Tally(os[..|os| - 1]);
      var o := os[|os| - 1];
      var source := IdentitySource(o);
      values[source := (if source in values then values[source] else {}) + {o.value}]
  }

  ghost predicate Claims(os: seq<IdentityObservation>, source: Source, value: string) {
    exists o :: o in os && IdentitySource(o) == source && o.value == value
  }

  lemma {:induction false} TallyExact(os: seq<IdentityObservation>, source: Source, value: string)
    ensures source in Tally(os) <==> source in KeysInOrder(IdentitySource, os)
    ensures source in Tally(os) && value in Tally(os)[source] <==> Claims(os, source, value)
  {
    if os != [] {
      var init, last := os[..|os| - 1], os[|os| - 1];
      assert os == init + [last];
      TallyExact(init, source, value);
      if Claims(os, source, value) {
        var o :| o in os && IdentitySource(o) == source && o.value == value;
        assert o in init || o == last;
      }
    }
  }

  lemma TallyCountsSources(os: seq<IdentityObservation>)
    ensures |Tally(os)| == |KeysInOrder(IdentitySource, os)|
  {
    assert |Tally(os)| == |Tally(os).Keys|;
    forall o | o in os ensures IdentitySource(o) in Tally(os).Keys {
      TallyExact(os, IdentitySource(o), o.value);
      KeysExact(IdentitySource, os, IdentitySource(o));
    }
    forall s | s in Tally(os).Keys ensures exists o :: o in os && IdentitySource(o) == s {
      TallyExact(os, s, "");
      KeysExact(IdentitySource, os, s);
    }
    KeySetSize(IdentitySource, os, Tally(os).Keys);
  }

  lemma TallyCountsValues(os: seq<IdentityObservation>, distinct: set<string>)
    requires forall s, v :: s in Tally(os) && v in Tally(os)[s] ==> v in distinct
    requires forall v :: v in distinct ==> exists s :: s in Tally(os) && v in Tally(os)[s]
    ensures |distinct| == |KeysInOrder(ValueOf, os)|
  {
    forall o | o in os ensures ValueOf(o) in distinct { TallyExact(os, IdentitySource(o), o.value); }
    forall v | v in distinct ensures exists o :: o in os && ValueOf(o) == v {
      var s :| s in Tally(os) && v in Tally(os)[s];
      TallyExact(os, s, v);
      var o :| o in os && IdentitySource(o) == s && o.value == v;
      assert ValueOf(o) == v;
    }
    KeySetSize(ValueOf, os, distinct);
  }

  method ValuesBySource(os: seq<IdentityObservation>) returns (values: map<Source, set<string>>)
    ensures values == Tally(os)
  {
    values := map[];
    for i := 0 to |os|
      invariant values == Tally(os[..i])
    {
      var source := IdentitySource(os[i]);
      assert os[..i + 1][..i] == os[..i];
      if source !in values { values := values[source := {}]; }
      values := values[source := values[source] + {os[i].value}];
    }
    assert os[..|os|] == os;
  }

  method ResolveProperty(name: string, os: seq<IdentityObservation>) returns (p: PropertyCorroboration)
    ensures p == ResolvedProperty(name, os)
  {
    var values := ValuesBySource(os);
    var distinct := set s, v | s in values && v in values[s] :: v;
    TallyCountsSources(os);
    TallyCountsValues(os, distinct);
    var state :=
      if |distinct| > 1 then Conflicting else if |values| >= 2 then Confirmed else Weak;
    p := PropertyCorroboration(name, state, SortBy(ObservationKey, os));
  }

  method ResolveSubject(subject: string, os: seq<IdentityObservation>) returns (c: CanonicalIdentity)
    ensures c == ResolvedSubject(subject, os)
  {
    var byName := GroupBy(NameOf, os);
    var properties: seq<PropertyCorroboration> := [];
    for i := 0 to |byName.order|
      invariant properties == ResolvedProperties(os)[..i]
    {
      var p := ResolveProperty(byName.order[i], byName.at[byName.order[i]]);
      properties := properties + [p];
    }
    assert properties == ResolvedProperties(os);
    properties := SortBy(PropertyKey, properties);
    c := CanonicalIdentity(subject, RollUp(properties), properties);
  }

  lemma SubjectAt(claims: seq<IdentityObservation>, i: nat)
    requires i < |KeysInOrder(SubjectOf, claims)|
    ensures |ResolvedSubjects(claims)| == |KeysInOrder(SubjectOf, claims)|
    ensures var subject := KeysInOrder(SubjectOf, claims)[i];
      ResolvedSubjects(claims)[i] == ResolvedSubject(subject, Select(SubjectOf, subject, claims))
  {
  }

  /** One subject of the loop. */
  method ResolveNext(identities: seq<CanonicalIdentity>, subject: string, os: seq<IdentityObservation>,
                     ghost expected: seq<CanonicalIdentity>)
      returns (after: seq<CanonicalIdentity>)
    requires |identities| < |expected| && identities == expected[..|identities|]
    requires expected[|identities|] == ResolvedSubject(subject, os)
    ensures |after| == |identities| + 1 && after == expected[..|after|]
  {
    var c := ResolveSubject(subject, os);
    after := identities + [c];
  }

  method ResolveIdentities(os: seq<Observation>) returns (r: seq<CanonicalIdentity>)
    ensures r == Resolve(os)
  {
    var claims := IdentitiesOf(os);
    var bySubject := GroupBy(SubjectOf, claims);
    var identities: seq<CanonicalIdentity> := [];
    ghost var expected := ResolvedSubjects(claims);
    for i := 0 to |bySubject.order|
      invariant |identities| == i && |expected| == |bySubject.order| && identities == expected[..i]
    {
      var subject := bySubject.order[i];
      SubjectAt(claims, i);
      identities := ResolveNext(identities, subject, bySubject.at[subject], expected);
    }
    assert identities == expected;
    r := SortBy(IdentityKey, identities);
  }
}
