/** Exactly what a whole run retains and concludes, in terms of the providers' tables. */
module RunExact {
  import opened Wrappers
  import opened Observations
  import opened Evidence
  import MacIndex
  import opened EvidenceExact
  import opened Providers
  import opened Engine
  import opened AttributesExact
  import Pipeline
  import I = IdentityResolution
  import R = RelationshipResolution

  // ---- One enrichment provider ----

  /** The provider's tables support the relationship claim, given the snapshot it received. */
  ghost predicate SupportsEdge(p: Enrichment, hosts: seq<string>, snapshot: seq<Observation>, r: RelationshipObservation) {
    match p
    case System(_) => false
    case Arp(p) =>
      IsArpEdge(r, p.stamp) && r.subject in hosts && Lists(EntriesOf(p.client(r.subject)), r.relatedSubject)
    case Lldp(p) =>
      IsLldpEdge(r, p.stamp) && r.subject in hosts
      && LeadsTo(EntriesOf(p.client(r.subject)), snapshot, r.relatedSubject, r.provenance.collectionMethod)
    case Fdb(p) =>
      IsFdbEdge(r, p.stamp) && r.subject in hosts
      && AnyLearnedFor(EntriesOf(p.client(r.subject)), snapshot, r.relatedSubject)
  }

  /** The provider's tables support the identity claim, given the snapshot it received. */
  ghost predicate SupportsFact(p: Enrichment, hosts: seq<string>, snapshot: seq<Observation>, i: IdentityObservation) {
    match p
    case System(p) =>
      IsSystemFact(i, p.stamp) && i.subject in hosts && SaysName(EntriesOf(p.client(i.subject)), i.value)
    case Arp(p) => IsArpFact(i, p.stamp) && i.subject in hosts && AnyLists(p.client, hosts, i.subject, i.value)
    case Lldp(p) =>
      IsLldpFact(i, p.stamp) && i.subject in hosts
      && AnyNames(p.client, hosts, snapshot, i.subject, i.provenance.collectionMethod, i.value)
    case Fdb(_) => false
  }

  lemma ReportedEdges(p: Enrichment, hosts: seq<string>, snapshot: seq<Observation>, r: RelationshipObservation)
    ensures Relationship(r) in Reported(p, hosts, snapshot) <==> SupportsEdge(p, hosts, snapshot, r)
  {
    match p
    case System(p) => SystemHasNoEdge(p.client, hosts, p.stamp, r);
    case Arp(p) => ArpEdgesExact(p.client, hosts, AddressSet(hosts), p.stamp, r);
    case Lldp(p) => LldpEdgesExact(p.client, hosts, AddressSet(hosts), snapshot, p.stamp, r);
    case Fdb(p) => FdbEdgesExact(p.client, hosts, snapshot, p.stamp, r);
  }

  lemma ReportedFacts(p: Enrichment, hosts: seq<string>, snapshot: seq<Observation>, i: IdentityObservation)
    ensures Identity(i) in Reported(p, hosts, snapshot) <==> SupportsFact(p, hosts, snapshot, i)
  {
    match p
    case System(p) => SystemFactsExact(p.client, hosts, p.stamp, i);
    case Arp(p) => ArpFactsExact(p.client, hosts, AddressSet(hosts), p.stamp, i);
    case Lldp(p) => LldpFactsExact(p.client, hosts, AddressSet(hosts), snapshot, p.stamp, i);
    case Fdb(p) => FdbNoIdentity(p.client, hosts, MacIndex.IndexOf(snapshot), p.stamp, i);
  }

  /** When an enrichment provider contributes nothing: it failed on the snapshot or on collection, a defect struck
      before the last host was done, or a host answered the system group with a field that has no attribute. */
  ghost predicate Fails(r: Registered, hosts: seq<string>) {
    || r.receiveFails || r.collectFails
    || (r.defect.Some? && r.defect.value < |hosts|)
    || (r.provider.System? && AnyAnswersUnknown(r.provider.system.client, hosts))
  }

  lemma FailsExact(r: Registered, hosts: seq<string>, snapshot: seq<Observation>)
    ensures Output(r, hosts, snapshot)
      == if Fails(r, hosts) then None else Some(Reported(r.provider, hosts, snapshot))
  {
    if r.provider.System? { MergeRaisesExact(r.provider.system.client, hosts); }
  }

  // ---- Any sequence of providers ----

  ghost predicate AddsAt<P>(adds: Adds<P>, ps: seq<P>, log: seq<Observation>, k: nat, o: Observation)
    requires k < |ps|
  {
    o in adds(ps[k], RunAll(adds, ps[..k], log))
  }

  ghost predicate AddsSomewhere<P>(adds: Adds<P>, ps: seq<P>, log: seq<Observation>, o: Observation) {
    exists k :: 0 <= k < |ps| && AddsAt(adds, ps, log, k, o)
  }

  lemma AddsStep<P>(adds: Adds<P>, ps: seq<P>, log: seq<Observation>, o: Observation)
    requires ps != []
    ensures AddsSomewhere(adds, ps, log, o) <==>
      AddsSomewhere(adds, ps[..|ps| - 1], log, o) || AddsAt(adds, ps, log, |ps| - 1, o)
  {
    var init := ps[..|ps| - 1];
    forall k | 0 <= k < |init| ensures AddsAt(adds, ps, log, k, o) == AddsAt(adds, init, log, k, o) {
      assert ps[..k] == init[..k];
    }
  }

  lemma {:induction false} RunAllExact<P>(adds: Adds<P>, ps: seq<P>, log: seq<Observation>, o: Observation)
    ensures o in RunAll(adds, ps, log) <==> o in log || AddsSomewhere(adds, ps, log, o)
  {
    if ps != [] {
      RunAllExact(adds, ps[..|ps| - 1], log, o);
      AddsStep(adds, ps, log, o);
    }
  }

  // ---- Nmap discovery ----

  predicate FromNmap(p: Provenance, method_: string, stamp: Stamp) {
    && p.provider == "nmap" && p.collectionMethod == method_
    && p.observedAt == stamp.observedAt && p.sourceRun == stamp.runId
  }

  predicate HostSays(h: ScannedHost, stamp: Stamp, i: IdentityObservation) {
    && i.subject == h.ip && i.value != "" && FromNmap(i.provenance, "host-discovery", stamp)
    && ((i.propertyName == "hostname" && h.data.hostname == Some(i.value))
        || (i.propertyName == "mac_address" && h.data.macAddress == Some(i.value)))
  }

  predicate ScriptsSay(ip: string, data: SmbRdpData, stamp: Stamp, i: IdentityObservation) {
    && i.subject == ip && i.value != ""
    && ((FromNmap(i.provenance, "smb-os-discovery", stamp)
         && ((i.propertyName == "computer_name" && data.smbComputerName == Some(i.value))
             || (i.propertyName == "domain" && data.smbDomain == Some(i.value))))
        || (FromNmap(i.provenance, "rdp-ntlm-info", stamp)
            && ((i.propertyName == "computer_name" && data.rdpComputerName == Some(i.value))
                || (i.propertyName == "domain" && data.rdpDomain == Some(i.value)))))
  }

  ghost predicate HostsSay(hosts: seq<ScannedHost>, stamp: Stamp, i: IdentityObservation) {
    exists h :: h in hosts && HostSays(h, stamp, i)
  }

  ghost predicate EnrichmentSays(hosts: seq<ScannedHost>, enriched: map<string, SmbRdpData>, stamp: Stamp,
                                 i: IdentityObservation) {
    exists h :: h in hosts && h.ip in enriched && ScriptsSay(h.ip, enriched[h.ip], stamp, i)
  }

  /** The scan reported it, in the first pass or, where there is one, in the second. */
  ghost predicate NmapSays(p: NmapProvider, i: IdentityObservation) {
    HostsSay(p.scan, p.stamp, i) || (p.enriched.Some? && EnrichmentSays(p.scan, p.enriched.value, p.stamp, i))
  }

  lemma EmittedExact(subject: string, property: string, value: Option<string>, method_: string, stamp: Stamp,
                     i: IdentityObservation)
    ensures Identity(i) in Emitted(subject, property, value, method_, stamp) <==>
      i.subject == subject && i.propertyName == property && FromNmap(i.provenance, method_, stamp)
      && value == Some(i.value) && i.value != ""
  {
    var os := Emitted(subject, property, value, method_, stamp);
    if os != [] { assert os[0] in os; }
  }

  lemma HostFacts(h: ScannedHost, stamp: Stamp, i: IdentityObservation)
    ensures Identity(i) in HostClaims(h, stamp) <==> HostSays(h, stamp, i)
  {
    EmittedExact(h.ip, "hostname", h.data.hostname, "host-discovery", stamp, i);
    EmittedExact(h.ip, "mac_address", h.data.macAddress, "host-discovery", stamp, i);
  }

  lemma ScriptFacts(ip: string, data: SmbRdpData, stamp: Stamp, i: IdentityObservation)
    ensures Identity(i) in ScriptClaims(ip, data, stamp) <==> ScriptsSay(ip, data, stamp, i)
  {
    EmittedExact(ip, "computer_name", data.smbComputerName, "smb-os-discovery", stamp, i);
    EmittedExact(ip, "computer_name", data.rdpComputerName, "rdp-ntlm-info", stamp, i);
    EmittedExact(ip, "domain", data.smbDomain, "smb-os-discovery", stamp, i);
    EmittedExact(ip, "domain", data.rdpDomain, "rdp-ntlm-info", stamp, i);
  }

  lemma HostsSayStep(init: seq<ScannedHost>, last: ScannedHost, stamp: Stamp, i: IdentityObservation)
    ensures HostsSay(init + [last], stamp, i) <==> HostsSay(init, stamp, i) || HostSays(last, stamp, i)
  {
    assert forall h :: h in init + [last] <==> h in init || h == last;
  }

  lemma EnrichmentSaysStep(init: seq<ScannedHost>, last: ScannedHost, enriched: map<string, SmbRdpData>, stamp: Stamp,
                           i: IdentityObservation)
    ensures EnrichmentSays(init + [last], enriched, stamp, i) <==>
      EnrichmentSays(init, enriched, stamp, i)
      || (last.ip in enriched && ScriptsSay(last.ip, enriched[last.ip], stamp, i))
  {
    assert forall h :: h in init + [last] <==> h in init || h == last;
  }

  lemma {:induction false} DiscoveryFacts(hosts: seq<ScannedHost>, stamp: Stamp, i: IdentityObservation)
    ensures Identity(i) in DiscoveryClaims(hosts, stamp) <==> HostsSay(hosts, stamp, i)
  {
    if hosts != [] {
      var init, last := hosts[..|hosts| - 1], hosts[|hosts| - 1];
      assert hosts == init + [last];
      DiscoveryFacts(init, stamp, i);
      HostFacts(last, stamp, i);
      HostsSayStep(init, last, stamp, i);
    }
  }

  lemma {:induction false} EnrichmentFacts(hosts: seq<ScannedHost>, enriched: map<string, SmbRdpData>, stamp: Stamp,
                                           i: IdentityObservation)
    ensures Identity(i) in EnrichmentClaims(hosts, enriched, stamp) <==> EnrichmentSays(hosts, enriched, stamp, i)
  {
    if hosts != [] {
      var init, last := hosts[..|hosts| - 1], hosts[|hosts| - 1];
      assert hosts == init + [last];
      EnrichmentFacts(init, enriched, stamp, i);
      ScriptFacts(last.ip, DataFor(enriched, last.ip), stamp, i);
      EnrichmentSaysStep(init, last, enriched, stamp, i);
    }
  }

  /** An Nmap provider retains exactly what its two passes reported. */
  lemma NmapFactsExact(p: NmapProvider, i: IdentityObservation)
    ensures Identity(i) in NmapOutput(p.scan, p.enriched, p.stamp) <==> NmapSays(p, i)
  {
    DiscoveryFacts(p.scan, p.stamp, i);
    if p.enriched.Some? { EnrichmentFacts(p.scan, p.enriched.value, p.stamp, i); }
  }

  lemma {:induction false} DiscoveryClaimsNoEdge(hosts: seq<ScannedHost>, stamp: Stamp, r: RelationshipObservation)
    ensures Relationship(r) !in DiscoveryClaims(hosts, stamp)
  {
    if hosts != [] { DiscoveryClaimsNoEdge(hosts[..|hosts| - 1], stamp, r); }
  }

  lemma {:induction false} EnrichmentClaimsNoEdge(hosts: seq<ScannedHost>, enriched: map<string, SmbRdpData>,
                                                  stamp: Stamp, r: RelationshipObservation)
    ensures Relationship(r) !in EnrichmentClaims(hosts, enriched, stamp)
  {
    if hosts != [] { EnrichmentClaimsNoEdge(hosts[..|hosts| - 1], enriched, stamp, r); }
  }

  lemma {:induction false} DiscoveryLogNoEdge(ps: seq<NmapProvider>, r: RelationshipObservation)
    ensures Relationship(r) !in DiscoveryLog(ps)
  {
    if ps != [] {
      var p := ps[|ps| - 1];
      DiscoveryLogNoEdge(ps[..|ps| - 1], r);
      DiscoveryClaimsNoEdge(p.scan, p.stamp, r);
      if p.enriched.Some? { EnrichmentClaimsNoEdge(p.scan, p.enriched.value, p.stamp, r); }
    }
  }

  ghost predicate AnyNmapSays(ps: seq<NmapProvider>, i: IdentityObservation) {
    exists p :: p in ps && NmapSays(p, i)
  }

  lemma {:induction false} DiscoveryLogFacts(ps: seq<NmapProvider>, i: IdentityObservation)
    ensures Identity(i) in DiscoveryLog(ps) <==> AnyNmapSays(ps, i)
  {
    if ps != [] {
      var init, last := ps[..|ps| - 1], ps[|ps| - 1];
      assert ps == init + [last];
      DiscoveryLogFacts(init, i);
      NmapFactsExact(last, i);
      assert forall p :: p in ps <==> p in init || p == last;
    }
  }

  // ---- The whole run ----

  /** What the `k`-th enrichment provider is shown: the log so far. */
  function SnapshotFor(ps: seq<NmapProvider>, rs: seq<Registered>, k: nat): seq<Observation>
    requires k < |rs|
  {
    AfterEnrichment(rs[..k], DeviceIps(ps), DiscoveryLog(ps))
  }

  ghost predicate EdgeSupportedAt(ps: seq<NmapProvider>, rs: seq<Registered>, k: nat, r: RelationshipObservation)
    requires k < |rs|
  {
    !Fails(rs[k], DeviceIps(ps)) && SupportsEdge(rs[k].provider, DeviceIps(ps), SnapshotFor(ps, rs, k), r)
  }

  ghost predicate FactSupportedAt(ps: seq<NmapProvider>, rs: seq<Registered>, k: nat, i: IdentityObservation)
    requires k < |rs|
  {
    !Fails(rs[k], DeviceIps(ps)) && SupportsFact(rs[k].provider, DeviceIps(ps), SnapshotFor(ps, rs, k), i)
  }

  /** Some provider that did not fail found it in its tables. */
  ghost predicate EdgeSupported(ps: seq<NmapProvider>, rs: seq<Registered>, r: RelationshipObservation) {
    exists k :: 0 <= k < |rs| && EdgeSupportedAt(ps, rs, k, r)
  }

  ghost predicate FactSupported(ps: seq<NmapProvider>, rs: seq<Registered>, i: IdentityObservation) {
    AnyNmapSays(ps, i) || exists k :: 0 <= k < |rs| && FactSupportedAt(ps, rs, k, i)
  }

  lemma ContributedEdge(reg: Registered, hosts: seq<string>, snapshot: seq<Observation>, r: RelationshipObservation)
    ensures Relationship(r) in Contributions(hosts)(reg, snapshot) <==>
      !Fails(reg, hosts) && SupportsEdge(reg.provider, hosts, snapshot, r)
  {
    FailsExact(reg, hosts, snapshot);
    ReportedEdges(reg.provider, hosts, snapshot, r);
  }

  lemma ContributedFact(reg: Registered, hosts: seq<string>, snapshot: seq<Observation>, i: IdentityObservation)
    ensures Identity(i) in Contributions(hosts)(reg, snapshot) <==>
      !Fails(reg, hosts) && SupportsFact(reg.provider, hosts, snapshot, i)
  {
    FailsExact(reg, hosts, snapshot);
    ReportedFacts(reg.provider, hosts, snapshot, i);
  }

  /** A relationship claim is retained exactly when some provider that did not fail supports it over the
      snapshot it received. */
  lemma RunEdgesExact(ps: seq<NmapProvider>, rs: seq<Registered>, r: RelationshipObservation)
    ensures Relationship(r) in RunLog(ps, rs) <==> EdgeSupported(ps, rs, r)
  {
    var hosts, log := DeviceIps(ps), DiscoveryLog(ps);
    DiscoveryLogNoEdge(ps, r);
    RunAllExact(Contributions(hosts), rs, log, Relationship(r));
    forall k | 0 <= k < |rs|
      ensures AddsAt(Contributions(hosts), rs, log, k, Relationship(r)) == EdgeSupportedAt(ps, rs, k, r) {
      ContributedEdge(rs[k], hosts, SnapshotFor(ps, rs, k), r);
    }
  }

  /** An identity claim is retained exactly when a discovery provider reported it or some enrichment provider
      that did not fail supports it over the snapshot it received. */
  lemma RunFactsExact(ps: seq<NmapProvider>, rs: seq<Registered>, i: IdentityObservation)
    ensures Identity(i) in RunLog(ps, rs) <==> FactSupported(ps, rs, i)
  {
    var hosts, log := DeviceIps(ps), DiscoveryLog(ps);
    DiscoveryLogFacts(ps, i);
    RunAllExact(Contributions(hosts), rs, log, Identity(i));
    forall k | 0 <= k < |rs|
      ensures AddsAt(Contributions(hosts), rs, log, k, Identity(i)) == FactSupportedAt(ps, rs, k, i) {
      ContributedFact(rs[k], hosts, SnapshotFor(ps, rs, k), i);
    }
  }

  /** Something is known about `subject`. */
  ghost predicate Known(ps: seq<NmapProvider>, rs: seq<Registered>, subject: string) {
    exists i: IdentityObservation :: i.subject == subject && FactSupported(ps, rs, i)
  }

  /** `subject` is claimed to be related to `related`, by whatever source. */
  ghost predicate Related(ps: seq<NmapProvider>, rs: seq<Registered>, subject: string, category: string, related: string) {
    exists r: RelationshipObservation ::
      r.subject == subject && r.category == category && r.relatedSubject == related && EdgeSupported(ps, rs, r)
  }

  /** A run's canonical identities are exactly the subjects its providers know something about. */
  lemma CanonicalSubjectsExact(ps: seq<NmapProvider>, rs: seq<Registered>, subject: string)
    ensures subject in I.Subjects(Pipeline.Identities(RunLog(ps, rs))) <==> Known(ps, rs, subject)
  {
    var log := RunLog(ps, rs);
    Pipeline.SubjectsExact(log, subject);
    if i :| Identity(i) in log && i.subject == subject { RunFactsExact(ps, rs, i); }
    if Known(ps, rs, subject) {
      var i: IdentityObservation :| i.subject == subject && FactSupported(ps, rs, i);
      RunFactsExact(ps, rs, i);
    }
  }

  /** A run concludes an edge exactly when its two ends differ, the providers know something about both, and
      some provider that did not fail supports the claim over the snapshot it received. */
  lemma CanonicalEdgesExact(ps: seq<NmapProvider>, rs: seq<Registered>, policy: R.Policy, subject: string,
                            category: string, related: string)
    ensures R.HasEdge(Pipeline.Edges(RunLog(ps, rs), policy), [subject, category, related]) <==>
      subject != related && Known(ps, rs, subject) && Known(ps, rs, related)
      && Related(ps, rs, subject, category, related)
  {
    var log := RunLog(ps, rs);
    CanonicalSubjectsExact(ps, rs, subject);
    CanonicalSubjectsExact(ps, rs, related);
    if R.HasEdge(Pipeline.Edges(log, policy), [subject, category, related]) {
      var r := Pipeline.EdgeHasEvidence(log, policy, [subject, category, related]);
      RunEdgesExact(ps, rs, r);
    }
    if subject != related && Known(ps, rs, subject) && Known(ps, rs, related)
       && Related(ps, rs, subject, category, related) {
      var r: RelationshipObservation :|
        r.subject == subject && r.category == category && r.relatedSubject == related && EdgeSupported(ps, rs, r);
      RunEdgesExact(ps, rs, r);
      Pipeline.SurvivingClaimGivesEdge(log, policy, r);
    }
  }
}
