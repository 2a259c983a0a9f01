/** The observations each provider reports, as functions of what its client answered. */
module Evidence {
  import opened Wrappers
  import opened Grouping
  import opened Timestamps
  import opened Observations
  import opened Dotted
  import opened MacIndex

  /** One client call: it raised, or it answered. */
  datatype ClientAnswer<+E> = Raised | Answered(responded: bool, entries: seq<E>)

  /** `_query_host`: a client that raises counts as a host that did not respond. */
  function EntriesOf<E>(answer: ClientAnswer<E>): seq<E> {
    match answer
    case Answered(true, entries) => entries
    case _ => []
  }

  /** The run identifier and clock reading of one provider call. */
  datatype Stamp = Stamp(runId: string, observedAt: Timestamp)

  function SnmpProvenance(method_: string, stamp: Stamp): Provenance {
    Provenance("snmp", method_, stamp.observedAt, stamp.runId)
  }

  // ---- ARP: every entry is a relationship claim; a MAC claim only for a discovered address ----

  datatype ArpEntry = ArpEntry(ipAddress: string, macAddress: string)

  type ArpClient = string -> ClientAnswer<ArpEntry>

  function ArpRelationship(host: string, entry: ArpEntry, stamp: Stamp): Observation {
    Relationship(RelationshipObservation(
      host, entry.ipAddress, "arp_neighbor", SnmpProvenance("ipNetToPhysicalTable", stamp)))
  }

  function ArpRelationships(host: string, entries: seq<ArpEntry>, stamp: Stamp): seq<Observation> {
    seq(|entries|, i requires 0 <= i < |entries| => ArpRelationship(host, entries[i], stamp))
  }

  function ArpIdentities(entries: seq<ArpEntry>, discovered: set<string>, stamp: Stamp): seq<Observation> {
    if entries == [] then []
    else
      var earlier := ArpIdentities(entries[..|entries| - 1], discovered, stamp);
      var entry := entries[|entries| - 1];
      if entry.ipAddress !in discovered then earlier
      else earlier + [Identity(IdentityObservation(
        entry.ipAddress, "mac_address", entry.macAddress, SnmpProvenance("ipNetToPhysicalTable", stamp)))]
  }

  function ArpHost(client: ArpClient, host: string, discovered: set<string>, stamp: Stamp): seq<Observation> {
    var entries := EntriesOf(client(host));
    ArpRelationships(host, entries, stamp) + ArpIdentities(entries, discovered, stamp)
  }

  function ArpOutput(client: ArpClient, hosts: seq<string>, discovered: set<string>, stamp: Stamp): seq<Observation> {
    if hosts == [] then []
    else
      ArpOutput(client, hosts[..|hosts| - 1], discovered, stamp)
        + ArpHost(client, hosts[|hosts| - 1], discovered, stamp)
  }

  // ---- LLDP: management addresses, else a network address, else a MAC looked up in the index ----

  datatype LldpEntry = LldpEntry(
    managementAddresses: seq<string>, chassisIdSubtype: int, chassisId: string, sysName: Option<string>)

  type LldpClient = string -> ClientAnswer<LldpEntry>

  const CHASSIS_MAC_ADDRESS := 4
  const CHASSIS_NETWORK_ADDRESS := 5

  /** A related subject and the method that found it. */
  type Resolved = (string, string)

  /** `_resolve_related_subjects`. */
  function RelatedSubjects(entry: LldpEntry, index: Index): seq<Resolved> {
    if entry.managementAddresses != [] then
      seq(|entry.managementAddresses|, i requires 0 <= i < |entry.managementAddresses| =>
        (entry.managementAddresses[i], "lldp-management-address"))
    else if entry.chassisIdSubtype == CHASSIS_NETWORK_ADDRESS then
      if IsIpv4(entry.chassisId) then [(entry.chassisId, "lldp-chassis-network-address")] else []
    else if entry.chassisIdSubtype == CHASSIS_MAC_ADDRESS then
      match ResolveMac(index, entry.chassisId)
      case Some(subject) => [(subject, "lldp-chassis-mac")]
      case None => []
    else []
  }

  function LldpClaim(host: string, r: Resolved, sysName: Option<string>, discovered: set<string>, stamp: Stamp)
      : seq<Observation> {
    var edge := Relationship(RelationshipObservation(host, r.0, "connected_to", SnmpProvenance(r.1, stamp)));
    if sysName.Some? && sysName.value != "" && r.0 in discovered then
      [edge, Identity(IdentityObservation(r.0, "hostname", sysName.value, SnmpProvenance(r.1, stamp)))]
    else [edge]
  }

  function LldpClaims(host: string, rs: seq<Resolved>, sysName: Option<string>, discovered: set<string>, stamp: Stamp)
      : seq<Observation> {
    if rs == [] then []
    else
      LldpClaims(host, rs[..|rs| - 1], sysName, discovered, stamp)
        + LldpClaim(host, rs[|rs| - 1], sysName, discovered, stamp)
  }

  function LldpEntries(host: string, entries: seq<LldpEntry>, discovered: set<string>, index: Index, stamp: Stamp)
      : seq<Observation> {
    if entries == [] then []
    else
      var entry := entries[|entries| - 1];
      LldpEntries(host, entries[..|entries| - 1], discovered, index, stamp)
        + LldpClaims(host, RelatedSubjects(entry, index), entry.sysName, discovered, stamp)
  }

  function LldpOutput(client: LldpClient, hosts: seq<string>, discovered: set<string>, index: Index, stamp: Stamp)
      : seq<Observation> {
    if hosts == [] then []
    else
      var host := hosts[|hosts| - 1];
      LldpOutput(client, hosts[..|hosts| - 1], discovered, index, stamp)
        + LldpEntries(host, EntriesOf(client(host)), discovered, index, stamp)
  }

  // ---- Bridge forwarding table: a learned row whose MAC has one subject ----

  datatype FdbEntry = FdbEntry(macAddress: string, status: Option<string>)

  type FdbClient = string -> ClientAnswer<FdbEntry>

  function FdbEdge(host: string, subject: string, stamp: Stamp): Observation {
    Relationship(RelationshipObservation(host, subject, "bridge_fdb", SnmpProvenance("dot1dTpFdbTable", stamp)))
  }

  function FdbEntries(host: string, entries: seq<FdbEntry>, index: Index, stamp: Stamp): seq<Observation> {
    if entries == [] then []
    else
      var earlier := FdbEntries(host, entries[..|entries| - 1], index, stamp);
      var entry := entries[|entries| - 1];
      if entry.status != Some("learned") then earlier
      else
        match ResolveMac(index, entry.macAddress)
        case Some(subject) => earlier + [FdbEdge(host, subject, stamp)]
        case None => earlier
  }

  function FdbOutput(client: FdbClient, hosts: seq<string>, index: Index, stamp: Stamp): seq<Observation> {
    if hosts == [] then []
    else
      var host := hosts[|hosts| - 1];
      FdbOutput(client, hosts[..|hosts| - 1], index, stamp) + FdbEntries(host, EntriesOf(client(host)), index, stamp)
  }

  // ---- SNMP system group: a hostname claim about the queried host itself ----

  /** One returned system-group field. */
  datatype SystemField = SystemField(name: string, value: string)

  type SystemClient = string -> ClientAnswer<SystemField>

  /** `fields.get("sysName")`. */
  function SysName(fields: seq<SystemField>): string {
    if fields == [] then ""
    else if fields[0].name == "sysName" then fields[0].value
    else SysName(fields[1..])
  }

  function SystemHost(client: SystemClient, host: string, stamp: Stamp): seq<Observation> {
    var value := SysName(EntriesOf(client(host)));
    if value == "" then []
    else [Identity(IdentityObservation(host, "hostname", value, SnmpProvenance("sysName", stamp)))]
  }

  function SystemOutput(client: SystemClient, hosts: seq<string>, stamp: Stamp): seq<Observation> {
    if hosts == [] then []
    else SystemOutput(client, hosts[..|hosts| - 1], stamp) + SystemHost(client, hosts[|hosts| - 1], stamp)
  }

  // ---- Endpoint safety of each provider ----

  /** Every identity claim is about a discovered address. */
  ghost predicate Gated(os: seq<Observation>, discovered: set<string>) {
    forall i :: Identity(i) in os ==> i.subject in discovered
  }

  lemma GatedJoin(a: seq<Observation>, b: seq<Observation>, discovered: set<string>)
    requires Gated(a, discovered) && Gated(b, discovered)
    ensures Gated(a + b, discovered)
  {
    forall i | Identity(i) in a + b ensures i.subject in discovered {
      assert Identity(i) in a || Identity(i) in b;
    }
  }

  lemma {:induction false} ArpIdentitiesGated(entries: seq<ArpEntry>, discovered: set<string>, stamp: Stamp)
    ensures Gated(ArpIdentities(entries, discovered, stamp), discovered)
  {
    if entries != [] { ArpIdentitiesGated(entries[..|entries| - 1], discovered, stamp); }
  }

  lemma {:induction false} ArpGated(client: ArpClient, hosts: seq<string>, discovered: set<string>, stamp: Stamp)
    ensures Gated(ArpOutput(client, hosts, discovered, stamp), discovered)
  {
    if hosts != [] {
      var init, host := hosts[..|hosts| - 1], hosts[|hosts| - 1];
      ArpGated(client, init, discovered, stamp);
      var entries := EntriesOf(client(host));
      ArpIdentitiesGated(entries, discovered, stamp);
      GatedJoin(ArpRelationships(host, entries, stamp), ArpIdentities(entries, discovered, stamp), discovered);
      GatedJoin(ArpOutput(client, init, discovered, stamp), ArpHost(client, host, discovered, stamp), discovered);
    }
  }

  lemma {:induction false} LldpClaimsGated(host: string, rs: seq<Resolved>, sysName: Option<string>,
                                           discovered: set<string>, stamp: Stamp)
    ensures Gated(LldpClaims(host, rs, sysName, discovered, stamp), discovered)
  {
    if rs != [] {
      LldpClaimsGated(host, rs[..|rs| - 1], sysName, discovered, stamp);
      GatedJoin(LldpClaims(host, rs[..|rs| - 1], sysName, discovered, stamp),
                LldpClaim(host, rs[|rs| - 1], sysName, discovered, stamp), discovered);
    }
  }

  lemma {:induction false} LldpEntriesGated(host: string, entries: seq<LldpEntry>, discovered: set<string>,
                                            index: Index, stamp: Stamp)
    ensures Gated(LldpEntries(host, entries, discovered, index, stamp), discovered)
  {
    if entries != [] {
      var init, entry := entries[..|entries| - 1], entries[|entries| - 1];
      LldpEntriesGated(host, init, discovered, index, stamp);
      LldpClaimsGated(host, RelatedSubjects(entry, index), entry.sysName, discovered, stamp);
      GatedJoin(LldpEntries(host, init, discovered, index, stamp),
                LldpClaims(host, RelatedSubjects(entry, index), entry.sysName, discovered, stamp), discovered);
    }
  }

  lemma {:induction false} LldpGated(client: LldpClient, hosts: seq<string>, discovered: set<string>, index: Index,
                                     stamp: Stamp)
    ensures Gated(LldpOutput(client, hosts, discovered, index, stamp), discovered)
  {
    if hosts != [] {
      var init, host := hosts[..|hosts| - 1], hosts[|hosts| - 1];
      LldpGated(client, init, discovered, index, stamp);
      LldpEntriesGated(host, EntriesOf(client(host)), discovered, index, stamp);
      GatedJoin(LldpOutput(client, init, discovered, index, stamp),
                LldpEntries(host, EntriesOf(client(host)), discovered, index, stamp), discovered);
    }
  }

  lemma {:induction false} FdbEntriesNoIdentity(host: string, entries: seq<FdbEntry>, index: Index, stamp: Stamp,
                                                i: IdentityObservation)
    ensures Identity(i) !in FdbEntries(host, entries, index, stamp)
  {
    if entries != [] { FdbEntriesNoIdentity(host, entries[..|entries| - 1], index, stamp, i); }
  }

  /** The forwarding table never yields an identity claim of any kind. */
  lemma {:induction false} FdbNoIdentity(client: FdbClient, hosts: seq<string>, index: Index, stamp: Stamp,
                                         i: IdentityObservation)
    ensures Identity(i) !in FdbOutput(client, hosts, index, stamp)
  {
    if hosts != [] {
      var host := hosts[|hosts| - 1];
      FdbNoIdentity(client, hosts[..|hosts| - 1], index, stamp, i);
      FdbEntriesNoIdentity(host, EntriesOf(client(host)), index, stamp, i);
    }
  }

  lemma {:induction false} SystemGated(client: SystemClient, hosts: seq<string>, discovered: set<string>, stamp: Stamp)
    requires forall h :: h in hosts ==> h in discovered
    ensures Gated(SystemOutput(client, hosts, stamp), discovered)
  {
    if hosts != [] {
      var init, host := hosts[..|hosts| - 1], hosts[|hosts| - 1];
      assert host in hosts && forall h :: h in init ==> h in hosts;
      SystemGated(client, init, discovered, stamp);
      GatedJoin(SystemOutput(client, init, stamp), SystemHost(client, host, stamp), discovered);
    }
  }
}
