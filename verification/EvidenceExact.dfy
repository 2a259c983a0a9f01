/** Exactly which claims the SNMP providers make, in terms of what the hosts' tables list. */
module EvidenceExact {
  import opened Wrappers
  import opened Observations
  import opened Dotted
  import opened MacIndex
  import opened Evidence

  /** Recorded by an SNMP provider under `method_`, in the run and at the time of the call. */
  predicate From(p: Provenance, method_: string, stamp: Stamp) {
    && p.provider == "snmp" && p.collectionMethod == method_
    && p.observedAt == stamp.observedAt && p.sourceRun == stamp.runId
  }

  // ---- ARP ----

  ghost predicate Lists(entries: seq<ArpEntry>, ip: string) {
    exists entry :: entry in entries && entry.ipAddress == ip
  }

  ghost predicate AnyLists(client: ArpClient, hosts: seq<string>, ip: string, mac: string) {
    exists host :: host in hosts && ArpEntry(ip, mac) in EntriesOf(client(host))
  }

  predicate IsArpEdge(r: RelationshipObservation, stamp: Stamp) {
    r.category == "arp_neighbor" && From(r.provenance, "ipNetToPhysicalTable", stamp)
  }

  predicate IsArpFact(i: IdentityObservation, stamp: Stamp) {
    i.propertyName == "mac_address" && From(i.provenance, "ipNetToPhysicalTable", stamp)
  }

  lemma ArpTableEdges(host: string, entries: seq<ArpEntry>, stamp: Stamp, r: RelationshipObservation)
    ensures Relationship(r) in ArpRelationships(host, entries, stamp) <==>
      IsArpEdge(r, stamp) && r.subject == host && Lists(entries, r.relatedSubject)
  {
    var edges := ArpRelationships(host, entries, stamp);
    if IsArpEdge(r, stamp) && r.subject == host && Lists(entries, r.relatedSubject) {
      var entry :| entry in entries && entry.ipAddress == r.relatedSubject;
      var k :| 0 <= k < |entries| && entries[k] == entry;
      assert edges[k] == Relationship(r);
    }
    if Relationship(r) in edges {
      var k :| 0 <= k < |edges| && edges[k] == Relationship(r);
      assert entries[k] in entries;
    }
  }

  lemma {:induction false} IdentitiesHoldNoEdge(entries: seq<ArpEntry>, discovered: set<string>, stamp: Stamp,
                                                r: RelationshipObservation)
    ensures Relationship(r) !in ArpIdentities(entries, discovered, stamp)
  {
    if entries != [] { IdentitiesHoldNoEdge(entries[..|entries| - 1], discovered, stamp, r); }
  }

  /** An ARP edge is reported exactly from a queried host to an address its table lists, discovered or not. */
  lemma {:induction false} ArpEdgesExact(client: ArpClient, hosts: seq<string>, discovered: set<string>, stamp: Stamp,
                                         r: RelationshipObservation)
    ensures Relationship(r) in ArpOutput(client, hosts, discovered, stamp) <==>
      IsArpEdge(r, stamp) && r.subject in hosts && Lists(EntriesOf(client(r.subject)), r.relatedSubject)
  {
    if hosts != [] {
      var init, host := hosts[..|hosts| - 1], hosts[|hosts| - 1];
      var entries := EntriesOf(client(host));
      assert hosts == init + [host];
      ArpEdgesExact(client, init, discovered, stamp, r);
      ArpTableEdges(host, entries, stamp, r);
      IdentitiesHoldNoEdge(entries, discovered, stamp, r);
    }
  }

  lemma {:induction false} ArpTableFacts(entries: seq<ArpEntry>, discovered: set<string>, stamp: Stamp,
                                         i: IdentityObservation)
    ensures Identity(i) in ArpIdentities(entries, discovered, stamp) <==>
      IsArpFact(i, stamp) && i.subject in discovered && ArpEntry(i.subject, i.value) in entries
  {
    if entries != [] {
      var init, last := entries[..|entries| - 1], entries[|entries| - 1];
      assert entries == init + [last];
      ArpTableFacts(init, discovered, stamp, i);
    }
  }

  /** A MAC claim is made exactly for a discovered address that some queried host's table pairs with that MAC. */
  lemma {:induction false} ArpFactsExact(client: ArpClient, hosts: seq<string>, discovered: set<string>, stamp: Stamp,
                                         i: IdentityObservation)
    ensures Identity(i) in ArpOutput(client, hosts, discovered, stamp) <==>
      IsArpFact(i, stamp) && i.subject in discovered && AnyLists(client, hosts, i.subject, i.value)
  {
    if hosts != [] {
      var init, host := hosts[..|hosts| - 1], hosts[|hosts| - 1];
      var entries := EntriesOf(client(host));
      assert hosts == init + [host];
      ArpFactsExact(client, init, discovered, stamp, i);
      ArpTableFacts(entries, discovered, stamp, i);
      AnyListsStep(client, init, host, i.subject, i.value);
      assert Identity(i) !in ArpRelationships(host, entries, stamp);
    }
  }

  lemma AnyListsStep(client: ArpClient, init: seq<string>, host: string, ip: string, mac: string)
    ensures AnyLists(client, init + [host], ip, mac) <==>
      AnyLists(client, init, ip, mac) || ArpEntry(ip, mac) in EntriesOf(client(host))
  {
    assert forall h :: h in init + [host] <==> h in init || h == host;
  }

  // ---- LLDP ----

  /** `subject`, and nobody else, claimed the MAC in the snapshot. */
  ghost predicate SoleClaimant(snapshot: seq<Observation>, mac: string, subject: string) {
    Claimed(snapshot, mac, subject) && forall s :: Claimed(snapshot, mac, s) ==> s == subject
  }

  /** How a row leads to `to`: by one of its management addresses; without any, by an IPv4 network address as
      its chassis ID (subtype 5), or by the sole claimant of the MAC that is its chassis ID (subtype 4). */
  ghost predicate ResolvesTo(entry: LldpEntry, snapshot: seq<Observation>, to: string, method_: string) {
    if entry.managementAddresses != [] then
      to in entry.managementAddresses && method_ == "lldp-management-address"
    else if entry.chassisIdSubtype == 5 then
      to == entry.chassisId && IsIpv4(to) && method_ == "lldp-chassis-network-address"
    else
      entry.chassisIdSubtype == 4 && SoleClaimant(snapshot, entry.chassisId, to) && method_ == "lldp-chassis-mac"
  }

  /** The subjects a row resolves to are exactly those it leads to. */
  lemma RelatedExact(entry: LldpEntry, snapshot: seq<Observation>, to: string, method_: string)
    ensures (to, method_) in RelatedSubjects(entry, IndexOf(snapshot)) <==> ResolvesTo(entry, snapshot, to, method_)
  {
    var rs := RelatedSubjects(entry, IndexOf(snapshot));
    ResolveMacExact(snapshot, entry.chassisId, to);
    if entry.managementAddresses != [] && to in entry.managementAddresses {
      var k :| 0 <= k < |entry.managementAddresses| && entry.managementAddresses[k] == to;
      assert rs[k] == (to, "lldp-management-address");
    }
  }

  /** Every management address is taken, in the row's order; any other way leads to at most one subject. */
  lemma RelatedInOrder(entry: LldpEntry, snapshot: seq<Observation>)
    ensures var rs := RelatedSubjects(entry, IndexOf(snapshot));
      if entry.managementAddresses == [] then |rs| <= 1
      else
        |rs| == |entry.managementAddresses|
        && forall k :: 0 <= k < |rs| ==> rs[k].0 == entry.managementAddresses[k] && rs[k].1 == "lldp-management-address"
  {
  }

  ghost predicate LeadsTo(entries: seq<LldpEntry>, snapshot: seq<Observation>, to: string, method_: string) {
    exists entry :: entry in entries && ResolvesTo(entry, snapshot, to, method_)
  }

  /** A row that leads to `to` and advertises `name`. */
  ghost predicate Names(entries: seq<LldpEntry>, snapshot: seq<Observation>, to: string, method_: string, name: string) {
    exists entry :: entry in entries && entry.sysName == Some(name) && ResolvesTo(entry, snapshot, to, method_)
  }

  ghost predicate AnyNames(client: LldpClient, hosts: seq<string>, snapshot: seq<Observation>, to: string,
                           method_: string, name: string) {
    exists host :: host in hosts && Names(EntriesOf(client(host)), snapshot, to, method_, name)
  }

  lemma LeadsToStep(init: seq<LldpEntry>, last: LldpEntry, snapshot: seq<Observation>, to: string, method_: string)
    ensures LeadsTo(init + [last], snapshot, to, method_) <==>
      LeadsTo(init, snapshot, to, method_) || ResolvesTo(last, snapshot, to, method_)
  {
    assert forall e :: e in init + [last] <==> e in init || e == last;
  }

  lemma NamesStep(init: seq<LldpEntry>, last: LldpEntry, snapshot: seq<Observation>, to: string, method_: string,
                  name: string)
    ensures Names(init + [last], snapshot, to, method_, name) <==>
      Names(init, snapshot, to, method_, name)
      || (last.sysName == Some(name) && ResolvesTo(last, snapshot, to, method_))
  {
    assert forall e :: e in init + [last] <==> e in init || e == last;
  }

  lemma AnyNamesStep(client: LldpClient, init: seq<string>, host: string, snapshot: seq<Observation>, to: string,
                     method_: string, name: string)
    ensures AnyNames(client, init + [host], snapshot, to, method_, name) <==>
      AnyNames(client, init, snapshot, to, method_, name) || Names(EntriesOf(client(host)), snapshot, to, method_, name)
  {
    assert forall h :: h in init + [host] <==> h in init || h == host;
  }

  predicate IsLldpEdge(r: RelationshipObservation, stamp: Stamp) {
    r.category == "connected_to" && From(r.provenance, r.provenance.collectionMethod, stamp)
  }

  predicate IsLldpFact(i: IdentityObservation, stamp: Stamp) {
    i.propertyName == "hostname" && i.value != "" && From(i.provenance, i.provenance.collectionMethod, stamp)
  }

  lemma {:induction false} LldpRowEdges(host: string, rs: seq<Resolved>, sysName: Option<string>,
                                        discovered: set<string>, stamp: Stamp, r: RelationshipObservation)
    ensures Relationship(r) in LldpClaims(host, rs, sysName, discovered, stamp) <==>
      IsLldpEdge(r, stamp) && r.subject == host && (r.relatedSubject, r.provenance.collectionMethod) in rs
  {
    if rs != [] {
      var init, last := rs[..|rs| - 1], rs[|rs| - 1];
      assert rs == init + [last];
      LldpRowEdges(host, init, sysName, discovered, stamp, r);
      LldpClaimEdge(host, last, sysName, discovered, stamp, r);
    }
  }

  lemma LldpClaimEdge(host: string, to: Resolved, sysName: Option<string>, discovered: set<string>, stamp: Stamp,
                      r: RelationshipObservation)
    ensures Relationship(r) in LldpClaim(host, to, sysName, discovered, stamp) <==>
      IsLldpEdge(r, stamp) && r.subject == host && (r.relatedSubject, r.provenance.collectionMethod) == to
  {
    var os := LldpClaim(host, to, sysName, discovered, stamp);
    assert os[0] in os;
  }

  lemma LldpClaimFact(host: string, to: Resolved, sysName: Option<string>, discovered: set<string>, stamp: Stamp,
                      i: IdentityObservation)
    ensures Identity(i) in LldpClaim(host, to, sysName, discovered, stamp) <==>
      IsLldpFact(i, stamp) && (i.subject, i.provenance.collectionMethod) == to && i.subject in discovered
      && sysName == Some(i.value)
  {
    var os := LldpClaim(host, to, sysName, discovered, stamp);
    if |os| == 2 { assert os[1] in os; }
  }

  lemma {:induction false} LldpRowFacts(host: string, rs: seq<Resolved>, sysName: Option<string>,
                                        discovered: set<string>, stamp: Stamp, i: IdentityObservation)
    ensures Identity(i) in LldpClaims(host, rs, sysName, discovered, stamp) <==>
      IsLldpFact(i, stamp) && (i.subject, i.provenance.collectionMethod) in rs && i.subject in discovered
      && sysName == Some(i.value)
  {
    if rs != [] {
      var init, last := rs[..|rs| - 1], rs[|rs| - 1];
      assert rs == init + [last];
      LldpRowFacts(host, init, sysName, discovered, stamp, i);
      LldpClaimFact(host, last, sysName, discovered, stamp, i);
    }
  }

  lemma {:induction false} LldpTableEdges(host: string, entries: seq<LldpEntry>, discovered: set<string>,
                                          snapshot: seq<Observation>, stamp: Stamp, r: RelationshipObservation)
    ensures Relationship(r) in LldpEntries(host, entries, discovered, IndexOf(snapshot), stamp) <==>
      IsLldpEdge(r, stamp) && r.subject == host
      && LeadsTo(entries, snapshot, r.relatedSubject, r.provenance.collectionMethod)
  {
    if entries != [] {
      var init, last := entries[..|entries| - 1], entries[|entries| - 1];
      assert entries == init + [last];
      LldpTableEdges(host, init, discovered, snapshot, stamp, r);
      LldpRowEdges(host, RelatedSubjects(last, IndexOf(snapshot)), last.sysName, discovered, stamp, r);
      RelatedExact(last, snapshot, r.relatedSubject, r.provenance.collectionMethod);
      LeadsToStep(init, last, snapshot, r.relatedSubject, r.provenance.collectionMethod);
    }
  }

  lemma {:induction false} LldpTableFacts(host: string, entries: seq<LldpEntry>, discovered: set<string>,
                                          snapshot: seq<Observation>, stamp: Stamp, i: IdentityObservation)
    ensures Identity(i) in LldpEntries(host, entries, discovered, IndexOf(snapshot), stamp) <==>
      IsLldpFact(i, stamp) && i.subject in discovered
      && Names(entries, snapshot, i.subject, i.provenance.collectionMethod, i.value)
  {
    if entries != [] {
      var init, last := entries[..|entries| - 1], entries[|entries| - 1];
      assert entries == init + [last];
      LldpTableFacts(host, init, discovered, snapshot, stamp, i);
      LldpRowFacts(host, RelatedSubjects(last, IndexOf(snapshot)), last.sysName, discovered, stamp, i);
      RelatedExact(last, snapshot, i.subject, i.provenance.collectionMethod);
      NamesStep(init, last, snapshot, i.subject, i.provenance.collectionMethod, i.value);
    }
  }

  /** An LLDP edge is reported exactly from a queried host to a subject one of its rows leads to, under the
      method that led there. */
  lemma {:induction false} LldpEdgesExact(client: LldpClient, hosts: seq<string>, discovered: set<string>,
                                          snapshot: seq<Observation>, stamp: Stamp, r: RelationshipObservation)
    ensures Relationship(r) in LldpOutput(client, hosts, discovered, IndexOf(snapshot), stamp) <==>
      IsLldpEdge(r, stamp) && r.subject in hosts
      && LeadsTo(EntriesOf(client(r.subject)), snapshot, r.relatedSubject, r.provenance.collectionMethod)
  {
    if hosts != [] {
      var init, host := hosts[..|hosts| - 1], hosts[|hosts| - 1];
      assert hosts == init + [host];
      LldpEdgesExact(client, init, discovered, snapshot, stamp, r);
      LldpTableEdges(host, EntriesOf(client(host)), discovered, snapshot, stamp, r);
    }
  }

  /** LLDP names a neighbour exactly when the neighbour is a discovered device and some queried host has a row
      that leads to it and advertises that name. */
  lemma {:induction false} LldpFactsExact(client: LldpClient, hosts: seq<string>, discovered: set<string>,
                                          snapshot: seq<Observation>, stamp: Stamp, i: IdentityObservation)
    ensures Identity(i) in LldpOutput(client, hosts, discovered, IndexOf(snapshot), stamp) <==>
      IsLldpFact(i, stamp) && i.subject in discovered
      && AnyNames(client, hosts, snapshot, i.subject, i.provenance.collectionMethod, i.value)
  {
    if hosts != [] {
      var init, host := hosts[..|hosts| - 1], hosts[|hosts| - 1];
      assert hosts == init + [host];
      LldpFactsExact(client, init, discovered, snapshot, stamp, i);
      LldpTableFacts(host, EntriesOf(client(host)), discovered, snapshot, stamp, i);
      AnyNamesStep(client, init, host, snapshot, i.subject, i.provenance.collectionMethod, i.value);
    }
  }

  // ---- Bridge forwarding table ----

  /** A learned row for a MAC that `subject`, and nobody else, claimed. */
  ghost predicate LearnedFor(entry: FdbEntry, snapshot: seq<Observation>, subject: string) {
    entry.status == Some("learned") && SoleClaimant(snapshot, entry.macAddress, subject)
  }

  ghost predicate AnyLearnedFor(entries: seq<FdbEntry>, snapshot: seq<Observation>, subject: string) {
    exists entry :: entry in entries && LearnedFor(entry, snapshot, subject)
  }

  lemma AnyLearnedStep(init: seq<FdbEntry>, last: FdbEntry, snapshot: seq<Observation>, subject: string)
    ensures AnyLearnedFor(init + [last], snapshot, subject) <==>
      AnyLearnedFor(init, snapshot, subject) || LearnedFor(last, snapshot, subject)
  {
    assert last in init + [last] && forall entry :: entry in init ==> entry in init + [last];
  }

  predicate IsFdbEdge(r: RelationshipObservation, stamp: Stamp) {
    r.category == "bridge_fdb" && From(r.provenance, "dot1dTpFdbTable", stamp)
  }

  lemma OnlyFdbEdge(host: string, subject: string, stamp: Stamp, r: RelationshipObservation)
    ensures Relationship(r) in [FdbEdge(host, subject, stamp)] <==>
      IsFdbEdge(r, stamp) && r.subject == host && r.relatedSubject == subject
  {
  }

  lemma {:induction false} FdbTableEdges(host: string, entries: seq<FdbEntry>, snapshot: seq<Observation>, stamp: Stamp,
                                         r: RelationshipObservation)
    ensures Relationship(r) in FdbEntries(host, entries, IndexOf(snapshot), stamp) <==>
      IsFdbEdge(r, stamp) && r.subject == host && AnyLearnedFor(entries, snapshot, r.relatedSubject)
  {
    if entries != [] {
      var init, last := entries[..|entries| - 1], entries[|entries| - 1];
      assert entries == init + [last];
      FdbTableEdges(host, init, snapshot, stamp, r);
      ResolveMacExact(snapshot, last.macAddress, r.relatedSubject);
      AnyLearnedStep(init, last, snapshot, r.relatedSubject);
      var resolved := ResolveMac(IndexOf(snapshot), last.macAddress);
      if resolved.Some? { OnlyFdbEdge(host, resolved.value, stamp, r); }
    }
  }

  /** A forwarding edge is reported exactly from a queried host to the one subject that claimed the MAC of one of
      its learned rows. */
  lemma {:induction false} FdbEdgesExact(client: FdbClient, hosts: seq<string>, snapshot: seq<Observation>, stamp: Stamp,
                                         r: RelationshipObservation)
    ensures Relationship(r) in FdbOutput(client, hosts, IndexOf(snapshot), stamp) <==>
      IsFdbEdge(r, stamp) && r.subject in hosts
      && AnyLearnedFor(EntriesOf(client(r.subject)), snapshot, r.relatedSubject)
  {
    if hosts != [] {
      var init, host := hosts[..|hosts| - 1], hosts[|hosts| - 1];
      assert hosts == init + [host];
      FdbEdgesExact(client, init, snapshot, stamp, r);
      FdbTableEdges(host, EntriesOf(client(host)), snapshot, stamp, r);
    }
  }

  /** Over one snapshot the two MAC consumers agree: an LLDP row that must fall back to its chassis MAC
      resolves to a subject exactly when a learned forwarding row for that MAC yields an edge to it. */
  lemma LldpAndFdbAgree(entry: LldpEntry, host: string, snapshot: seq<Observation>, stamp: Stamp, subject: string)
    requires entry.managementAddresses == [] && entry.chassisIdSubtype == 4
    ensures (subject, "lldp-chassis-mac") in RelatedSubjects(entry, IndexOf(snapshot)) <==>
      FdbEdge(host, subject, stamp)
        in FdbEntries(host, [FdbEntry(entry.chassisId, Some("learned"))], IndexOf(snapshot), stamp)
  {
    var rows := [FdbEntry(entry.chassisId, Some("learned"))];
    RelatedExact(entry, snapshot, subject, "lldp-chassis-mac");
    FdbTableEdges(host, rows, snapshot, stamp, FdbEdge(host, subject, stamp).relationship);
    assert rows[0] in rows;
  }

  // ---- SNMP system group ----

  /** What the returned fields say the host is called: the first `sysName`, if it is not empty. */
  ghost predicate SaysName(fields: seq<SystemField>, name: string) {
    && name != ""
    && exists k :: 0 <= k < |fields| && fields[k].name == "sysName" && fields[k].value == name
         && forall j :: 0 <= j < k ==> fields[j].name != "sysName"
  }

  lemma {:induction false} SysNameAt(fields: seq<SystemField>, k: nat)
    requires k < |fields| && fields[k].name == "sysName" && forall j :: 0 <= j < k ==> fields[j].name != "sysName"
    ensures SysName(fields) == fields[k].value
  {
    if k > 0 { SysNameAt(fields[1..], k - 1); }
  }

  lemma {:induction false} SysNameFound(fields: seq<SystemField>) returns (k: nat)
    requires SysName(fields) != ""
    ensures k < |fields| && fields[k].name == "sysName" && SysName(fields) == fields[k].value
    ensures forall j :: 0 <= j < k ==> fields[j].name != "sysName"
  {
    k := 0;
    if fields[0].name != "sysName" {
      var rest := SysNameFound(fields[1..]);
      k := rest + 1;
    }
  }

  lemma SysNameExact(fields: seq<SystemField>, name: string)
    ensures SaysName(fields, name) <==> name != "" && SysName(fields) == name
  {
    if SaysName(fields, name) {
      var k :| 0 <= k < |fields| && fields[k].name == "sysName" && fields[k].value == name
               && forall j :: 0 <= j < k ==> fields[j].name != "sysName";
      SysNameAt(fields, k);
    }
    if name != "" && SysName(fields) == name { var k := SysNameFound(fields); }
  }

  predicate IsSystemFact(i: IdentityObservation, stamp: Stamp) {
    i.propertyName == "hostname" && From(i.provenance, "sysName", stamp)
  }

  lemma SystemHostFact(client: SystemClient, host: string, stamp: Stamp, i: IdentityObservation)
    ensures Identity(i) in SystemHost(client, host, stamp) <==>
      IsSystemFact(i, stamp) && i.subject == host && SaysName(EntriesOf(client(host)), i.value)
  {
    SysNameExact(EntriesOf(client(host)), i.value);
    var os := SystemHost(client, host, stamp);
    if os != [] { assert os[0] in os; }
  }

  /** A host is named exactly by the first, non-empty `sysName` it returned itself. */
  lemma {:induction false} SystemFactsExact(client: SystemClient, hosts: seq<string>, stamp: Stamp,
                                            i: IdentityObservation)
    ensures Identity(i) in SystemOutput(client, hosts, stamp) <==>
      IsSystemFact(i, stamp) && i.subject in hosts && SaysName(EntriesOf(client(i.subject)), i.value)
  {
    if hosts != [] {
      var init, host := hosts[..|hosts| - 1], hosts[|hosts| - 1];
      assert hosts == init + [host];
      SystemFactsExact(client, init, stamp, i);
      SystemHostFact(client, host, stamp, i);
    }
  }

  lemma {:induction false} SystemHasNoEdge(client: SystemClient, hosts: seq<string>, stamp: Stamp,
                                           r: RelationshipObservation)
    ensures Relationship(r) !in SystemOutput(client, hosts, stamp)
  {
    if hosts != [] { SystemHasNoEdge(client, hosts[..|hosts| - 1], stamp, r); }
  }
}
