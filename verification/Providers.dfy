/** The providers of a run: Nmap discovery and the four SNMP enrichment providers. */
module Providers {
  import opened Wrappers
  import opened Ordering
  import opened Observations
  import opened Devices
  import opened Evidence
  import opened MacIndex

  lemma Appended(a: seq<Observation>, b: seq<Observation>, c: seq<Observation>)
    ensures (a + b) + c == a + (b + c)
  {
  }

  // ---- Nmap ----

  datatype HostData = HostData(hostname: Option<string>, macAddress: Option<string>, vendor: Option<string>)

  datatype ScannedHost = ScannedHost(ip: string, data: HostData)

  predicate DistinctHosts(hosts: seq<ScannedHost>) {
    forall i, j :: 0 <= i < j < |hosts| ==> hosts[i].ip != hosts[j].ip
  }

  /** A scan result is a dictionary keyed by address. */
  type Scan = hosts: seq<ScannedHost> | DistinctHosts(hosts) witness []

  datatype SmbRdpData = SmbRdpData(
    smbComputerName: Option<string>, rdpComputerName: Option<string>,
    smbDomain: Option<string>, rdpDomain: Option<string>,
    smbOperatingSystem: Option<string>, rdpOperatingSystem: Option<string>, smbSigning: Option<string>)

  const NO_DATA := SmbRdpData(None, None, None, None, None, None, None)

  /** `_emit_identity_observation`: nothing unless a value was observed. */
  function Emitted(subject: string, property: string, value: Option<string>, method_: string, stamp: Stamp)
      : seq<Observation> {
    match value
    case Some(v) =>
      if v == "" then []
      else [Identity(IdentityObservation(
        subject, property, v, Provenance("nmap", method_, stamp.observedAt, stamp.runId)))]
    case None => []
  }

  /** `_build_device`. */
  function HostClaims(h: ScannedHost, stamp: Stamp): seq<Observation> {
    Emitted(h.ip, "hostname", h.data.hostname, "host-discovery", stamp)
      + Emitted(h.ip, "mac_address", h.data.macAddress, "host-discovery", stamp)
  }

  function DiscoveryClaims(hosts: seq<ScannedHost>, stamp: Stamp): seq<Observation> {
    if hosts == [] then []
    else DiscoveryClaims(hosts[..|hosts| - 1], stamp) + HostClaims(hosts[|hosts| - 1], stamp)
  }

  function DataFor(enriched: map<string, SmbRdpData>, ip: string): SmbRdpData {
    if ip in enriched then enriched[ip] else NO_DATA
  }

  function ScriptClaims(ip: string, data: SmbRdpData, stamp: Stamp): seq<Observation> {
    (Emitted(ip, "computer_name", data.smbComputerName, "smb-os-discovery", stamp)
      + Emitted(ip, "computer_name", data.rdpComputerName, "rdp-ntlm-info", stamp))
      + (Emitted(ip, "domain", data.smbDomain, "smb-os-discovery", stamp)
      + Emitted(ip, "domain", data.rdpDomain, "rdp-ntlm-info", stamp))
  }

  function EnrichmentClaims(hosts: seq<ScannedHost>, enriched: map<string, SmbRdpData>, stamp: Stamp)
      : seq<Observation> {
    if hosts == [] then []
    else
      var ip := hosts[|hosts| - 1].ip;
      EnrichmentClaims(hosts[..|hosts| - 1], enriched, stamp) + ScriptClaims(ip, DataFor(enriched, ip), stamp)
  }

  lemma DiscoveryClaimsStep(hosts: seq<ScannedHost>, i: nat, stamp: Stamp)
    requires i < |hosts|
    ensures DiscoveryClaims(hosts[..i + 1], stamp) == DiscoveryClaims(hosts[..i], stamp) + HostClaims(hosts[i], stamp)
  {
    assert hosts[..i + 1][..i] == hosts[..i];
  }

  lemma EnrichmentClaimsStep(before: seq<Observation>, hosts: seq<ScannedHost>, i: nat,
                             enriched: map<string, SmbRdpData>, stamp: Stamp)
    requires i < |hosts|
    ensures before + EnrichmentClaims(hosts[..i + 1], enriched, stamp)
      == before + EnrichmentClaims(hosts[..i], enriched, stamp)
           + ScriptClaims(hosts[i].ip, DataFor(enriched, hosts[i].ip), stamp)
  {
    assert hosts[..i + 1][..i] == hosts[..i];
    Appended(before, EnrichmentClaims(hosts[..i], enriched, stamp),
             ScriptClaims(hosts[i].ip, DataFor(enriched, hosts[i].ip), stamp));
  }

  /** Everything one Nmap provider reports; without an enrichment scan (FAST) only the first part. */
  function NmapOutput(hosts: seq<ScannedHost>, enriched: Option<map<string, SmbRdpData>>, stamp: Stamp)
      : seq<Observation> {
    DiscoveryClaims(hosts, stamp)
      + match enriched { case Some(data) => EnrichmentClaims(hosts, data, stamp) case None => [] }
  }

  lemma HostClaimsGated(h: ScannedHost, stamp: Stamp, ips: set<string>)
    requires h.ip in ips
    ensures Gated(HostClaims(h, stamp), ips)
  {
    GatedJoin(Emitted(h.ip, "hostname", h.data.hostname, "host-discovery", stamp),
              Emitted(h.ip, "mac_address", h.data.macAddress, "host-discovery", stamp), ips);
  }

  lemma ScriptClaimsGated(ip: string, data: SmbRdpData, stamp: Stamp, ips: set<string>)
    requires ip in ips
    ensures Gated(ScriptClaims(ip, data, stamp), ips)
  {
    var a := Emitted(ip, "computer_name", data.smbComputerName, "smb-os-discovery", stamp);
    var b := Emitted(ip, "computer_name", data.rdpComputerName, "rdp-ntlm-info", stamp);
    var c := Emitted(ip, "domain", data.smbDomain, "smb-os-discovery", stamp);
    var d := Emitted(ip, "domain", data.rdpDomain, "rdp-ntlm-info", stamp);
    GatedJoin(a, b, ips);
    GatedJoin(c, d, ips);
    GatedJoin(a + b, c + d, ips);
  }

  lemma {:induction false} DiscoveryClaimsGated(hosts: seq<ScannedHost>, stamp: Stamp, ips: set<string>)
    requires forall h :: h in hosts ==> h.ip in ips
    ensures Gated(DiscoveryClaims(hosts, stamp), ips)
  {
    if hosts != [] {
      var init, h := hosts[..|hosts| - 1], hosts[|hosts| - 1];
      assert h in hosts && forall h :: h in init ==> h in hosts;
      DiscoveryClaimsGated(init, stamp, ips);
      HostClaimsGated(h, stamp, ips);
      GatedJoin(DiscoveryClaims(init, stamp), HostClaims(h, stamp), ips);
    }
  }

  lemma {:induction false} EnrichmentClaimsGated(hosts: seq<ScannedHost>, enriched: map<string, SmbRdpData>, stamp: Stamp,
                                                 ips: set<string>)
    requires forall h :: h in hosts ==> h.ip in ips
    ensures Gated(EnrichmentClaims(hosts, enriched, stamp), ips)
  {
    if hosts != [] {
      var init, h := hosts[..|hosts| - 1], hosts[|hosts| - 1];
      assert h in hosts && forall h :: h in init ==> h in hosts;
      EnrichmentClaimsGated(init, enriched, stamp, ips);
      ScriptClaimsGated(h.ip, DataFor(enriched, h.ip), stamp, ips);
      GatedJoin(EnrichmentClaims(init, enriched, stamp), ScriptClaims(h.ip, DataFor(enriched, h.ip), stamp), ips);
    }
  }

  lemma NmapGated(hosts: seq<ScannedHost>, enriched: Option<map<string, SmbRdpData>>, stamp: Stamp, ips: set<string>)
    requires forall h :: h in hosts ==> h.ip in ips
    ensures Gated(NmapOutput(hosts, enriched, stamp), ips)
  {
    DiscoveryClaimsGated(hosts, stamp, ips);
    if enriched.Some? {
      EnrichmentClaimsGated(hosts, enriched.value, stamp, ips);
      GatedJoin(DiscoveryClaims(hosts, stamp), EnrichmentClaims(hosts, enriched.value, stamp), ips);
    } else {
      GatedJoin(DiscoveryClaims(hosts, stamp), [], ips);
    }
  }

  /** `d[name] = value`, where `None` leaves the attribute unset. */
  function WithAttribute(attributes: Attributes, name: Attribute, value: Option<string>): Attributes {
    match value case Some(v) => attributes[name := v] case None => attributes - {name}
  }

  /** `a or b`. */
  function OrElse(a: Option<string>, b: Option<string>): Option<string> {
    match a case Some(v) => if v != "" then a else b case None => b
  }

  function BuiltAttributes(data: HostData): Attributes {
    WithAttribute(WithAttribute(WithAttribute(map[], Hostname, data.hostname),
      MacAddress, data.macAddress), Vendor, data.vendor)
  }

  /** SMB wins per field; RDP fills what SMB left empty. */
  function EnrichedAttributes(attributes: Attributes, data: SmbRdpData): Attributes {
    WithAttribute(WithAttribute(WithAttribute(WithAttribute(attributes,
      OperatingSystem, OrElse(data.smbOperatingSystem, data.rdpOperatingSystem)),
      ComputerName, OrElse(data.smbComputerName, data.rdpComputerName)),
      DomainName, OrElse(data.smbDomain, data.rdpDomain)),
      SmbSigning, data.smbSigning)
  }

  /** The attributes of the device built for one host. */
  function DiscoveredAttributes(h: ScannedHost, enriched: Option<map<string, SmbRdpData>>): Attributes {
    match enriched
    case Some(data) => EnrichedAttributes(BuiltAttributes(h.data), DataFor(data, h.ip))
    case None => BuiltAttributes(h.data)
  }

  function HostsFound(hosts: seq<ScannedHost>, enriched: Option<map<string, SmbRdpData>>): (fs: seq<Found>)
    ensures |fs| == |hosts|
    ensures forall k :: 0 <= k < |hosts| ==> fs[k] == Found(hosts[k].ip, DiscoveredAttributes(hosts[k], enriched))
  {
    if hosts == [] then []
    else
      var h := hosts[|hosts| - 1];
      HostsFound(hosts[..|hosts| - 1], enriched) + [Found(h.ip, DiscoveredAttributes(h, enriched))]
  }

  /** The first `n` devices went through the second pass, the others not yet. */
  ghost predicate EnrichedUpTo(before: seq<Attributes>, after: seq<Attributes>, hosts: seq<ScannedHost>,
                               data: map<string, SmbRdpData>, n: nat) {
    && |before| == |after| == |hosts|
    && (forall k :: 0 <= k < n && k < |hosts| ==>
          after[k] == EnrichedAttributes(before[k], DataFor(data, hosts[k].ip)))
    && (forall k :: n <= k < |hosts| ==> after[k] == before[k])
  }

  ghost predicate DistinctObjects(ds: seq<Device>) {
    forall i, j :: 0 <= i < j < |ds| ==> ds[i] != ds[j]
  }

  /** The devices the first pass builds. */
  ghost predicate BuiltFrom(devices: seq<Device>, hosts: seq<ScannedHost>)
    reads devices
  {
    && |devices| == |hosts|
    && forall k :: 0 <= k < |hosts| ==>
         devices[k].ipAddress == hosts[k].ip && devices[k].attributes == BuiltAttributes(hosts[k].data)
  }

  lemma DevicesOfHosts(devices: seq<Device>, hosts: seq<ScannedHost>)
    requires BuiltFrom(devices, hosts) && DistinctHosts(hosts)
    ensures DistinctObjects(devices)
  {
  }

  class NmapProvider {
    const scan: Scan
    /** The enrichment scan of the STANDARD and DEEP profiles; absent for FAST. */
    const enriched: Option<map<string, SmbRdpData>>
    const stamp: Stamp
    var observations: seq<Observation>

    constructor (scan: Scan, enriched: Option<map<string, SmbRdpData>>, stamp: Stamp)
      ensures this.scan == scan && this.enriched == enriched && this.stamp == stamp && observations == []
    {
      this.scan, this.enriched, this.stamp := scan, enriched, stamp;
      observations := [];
    }

    method EmitIdentityObservation(subject: string, property: string, value: Option<string>, method_: string)
      modifies this
      ensures observations == old(observations) + Emitted(subject, property, value, method_, stamp)
    {
      if value.None? || value.value == "" { return; }
      observations := observations + [Identity(IdentityObservation(
        subject, property, value.value, Provenance("nmap", method_, stamp.observedAt, stamp.runId)))];
    }

    method BuildDevice(h: ScannedHost) returns (d: Device)
      modifies this
      ensures observations == old(observations) + HostClaims(h, stamp)
      ensures fresh(d) && d.ipAddress == h.ip && d.attributes == BuiltAttributes(h.data)
    {
      EmitIdentityObservation(h.ip, "hostname", h.data.hostname, "host-discovery");
      EmitIdentityObservation(h.ip, "mac_address", h.data.macAddress, "host-discovery");
      d := new Device(h.ip, BuiltAttributes(h.data), ["nmap"]);
    }

    /** One host of the second pass. */
    method EnrichDevice(device: Device, data: SmbRdpData)
      modifies this, device
      ensures observations == old(observations) + ScriptClaims(device.ipAddress, data, stamp)
      ensures device.attributes == EnrichedAttributes(old(device.attributes), data)
    {
      var ip := device.ipAddress;
      device.attributes := EnrichedAttributes(device.attributes, data);
      EmitIdentityObservation(ip, "computer_name", data.smbComputerName, "smb-os-discovery");
      EmitIdentityObservation(ip, "computer_name", data.rdpComputerName, "rdp-ntlm-info");
      EmitIdentityObservation(ip, "domain", data.smbDomain, "smb-os-discovery");
      EmitIdentityObservation(ip, "domain", data.rdpDomain, "rdp-ntlm-info");
    }

    method DiscoverHosts() returns (devices: seq<Device>)
      modifies this
      ensures observations == DiscoveryClaims(scan, stamp)
      ensures BuiltFrom(devices, scan)
      ensures forall i :: 0 <= i < |devices| ==> fresh(devices[i])
    {
      observations := [];
      devices := [];
      var hosts: seq<ScannedHost> := scan;
      for i := 0 to |hosts|
        invariant observations == DiscoveryClaims(hosts[..i], stamp)
        invariant BuiltFrom(devices, hosts[..i])
        invariant forall k :: 0 <= k < |devices| ==> fresh(devices[k])
      {
        DiscoveryClaimsStep(hosts, i, stamp);
        var d := BuildDevice(hosts[i]);
        devices := devices + [d];
      }
      assert hosts[..|hosts|] == hosts;
    }

    method EnrichAt(devices: seq<Device>, hosts: seq<ScannedHost>, data: map<string, SmbRdpData>, i: nat,
                    ghost start: seq<Attributes>)
      requires i < |devices| == |hosts| && devices[i].ipAddress == hosts[i].ip && DistinctObjects(devices)
      requires EnrichedUpTo(start, AttributesOf(devices), hosts, data, i)
      modifies this, devices[i]
      ensures observations == old(observations) + ScriptClaims(hosts[i].ip, DataFor(data, hosts[i].ip), stamp)
      ensures EnrichedUpTo(start, AttributesOf(devices), hosts, data, i + 1)
    {
      EnrichDevice(devices[i], DataFor(data, hosts[i].ip));
    }

    /** The second pass of the two-phase profiles, over the devices of the first. */
    method EnrichDevices(devices: seq<Device>, data: map<string, SmbRdpData>)
      requires BuiltFrom(devices, scan) && DistinctObjects(devices)
      modifies this, devices
      ensures observations == old(observations) + EnrichmentClaims(scan, data, stamp)
      ensures EnrichedUpTo(old(AttributesOf(devices)), AttributesOf(devices), scan, data, |scan|)
    {
      var hosts: seq<ScannedHost> := scan;
      for i := 0 to |hosts|
        invariant observations == old(observations) + EnrichmentClaims(hosts[..i], data, stamp)
        invariant EnrichedUpTo(old(AttributesOf(devices)), AttributesOf(devices), hosts, data, i)
      {
        EnrichmentClaimsStep(old(observations), hosts, i, data, stamp);
        EnrichAt(devices, hosts, data, i, old(AttributesOf(devices)));
      }
      assert hosts[..|hosts|] == hosts;
    }

    method Discover() returns (devices: seq<Device>)
      modifies this
      ensures observations == NmapOutput(scan, enriched, stamp)
      ensures StateOf(devices) == HostsFound(scan, enriched) && DistinctObjects(devices)
      ensures forall i :: 0 <= i < |devices| ==> fresh(devices[i])
    {
      devices := DiscoverHosts();
      DevicesOfHosts(devices, scan);
      if enriched.Some? {
        EnrichDevices(devices, enriched.value);
      }
    }
  }

  // ---- SNMP system group ----

  /** `_FIELD_TO_DEVICE_ATTRIBUTE`. */
  function AttributeOf(field: string): Option<Attribute> {
    if field == "sysName" then Some(Hostname)
    else if field == "sysDescr" then Some(SnmpSysDescr)
    else if field == "sysObjectID" then Some(SnmpSysObjectId)
    else if field == "sysUpTime" then Some(SnmpSysUptime)
    else if field == "sysContact" then Some(SnmpSysContact)
    else if field == "sysLocation" then Some(SnmpSysLocation)
    else None
  }

  predicate KnownFields(fields: seq<SystemField>) {
    fields == [] || (KnownFields(fields[..|fields| - 1]) && AttributeOf(fields[|fields| - 1].name).Some?)
  }

  lemma {:induction false} KnownPrefix(fields: seq<SystemField>, n: nat)
    requires n <= |fields| && KnownFields(fields)
    ensures KnownFields(fields[..n])
  {
    if n < |fields| {
      KnownPrefix(fields[..|fields| - 1], n);
      assert fields[..|fields| - 1][..n] == fields[..n];
    } else {
      assert fields[..n] == fields;
    }
  }

  /** Fallback-only: a field fills its attribute only while that is unset. */
  function Merged(attributes: Attributes, fields: seq<SystemField>): Attributes
    requires KnownFields(fields)
  {
    if fields == [] then attributes
    else
      var f := fields[|fields| - 1];
      var before := Merged(attributes, fields[..|fields| - 1]);
      var attribute := AttributeOf(f.name).value;
      if attribute in before then before else before[attribute := f.value]
  }

  lemma {:induction false} MergedExtends(attributes: Attributes, fields: seq<SystemField>)
    requires KnownFields(fields)
    ensures Extends(attributes, Merged(attributes, fields))
  {
    if fields != [] { MergedExtends(attributes, fields[..|fields| - 1]); }
  }

  /** An attribute that was unset takes the first returned field meant for it. */
  lemma {:induction false} MergedTakesFirst(attributes: Attributes, fields: seq<SystemField>, i: nat, a: Attribute)
    requires KnownFields(fields) && i < |fields| && AttributeOf(fields[i].name) == Some(a) && a !in attributes
    requires forall j :: 0 <= j < i ==> AttributeOf(fields[j].name) != Some(a)
    ensures a in Merged(attributes, fields) && Merged(attributes, fields)[a] == fields[i].value
  {
    var init := fields[..|fields| - 1];
    if i == |fields| - 1 {
      MergedOnlyOwn(attributes, init, a);
    } else {
      MergedTakesFirst(attributes, init, i, a);
    }
  }

  lemma {:induction false} MergedOnlyOwn(attributes: Attributes, fields: seq<SystemField>, a: Attribute)
    requires KnownFields(fields) && a !in attributes
    requires forall j :: 0 <= j < |fields| ==> AttributeOf(fields[j].name) != Some(a)
    ensures a !in Merged(attributes, fields)
  {
    if fields != [] {
      assert AttributeOf(fields[|fields| - 1].name) != Some(a);
      MergedOnlyOwn(attributes, fields[..|fields| - 1], a);
    }
  }

  predicate AnswersKnownFields(client: SystemClient, host: string) {
    KnownFields(EntriesOf(client(host)))
  }

  /** Some responding host returned a field the attribute table does not have, which raises `KeyError`. */
  predicate MergeRaises(client: SystemClient, hosts: seq<string>) {
    hosts != []
    && (MergeRaises(client, hosts[..|hosts| - 1]) || !AnswersKnownFields(client, hosts[|hosts| - 1]))
  }

  lemma SystemStep(client: SystemClient, hosts: seq<string>, i: nat, stamp: Stamp)
    requires i < |hosts|
    ensures SystemOutput(client, hosts[..i + 1], stamp)
      == SystemOutput(client, hosts[..i], stamp) + SystemHost(client, hosts[i], stamp)
    ensures MergeRaises(client, hosts[..i + 1]) <==>
      MergeRaises(client, hosts[..i]) || !AnswersKnownFields(client, hosts[i])
  {
    assert hosts[..i + 1][..i] == hosts[..i];
  }

  lemma {:induction false} MergeRaisesGrows(client: SystemClient, hosts: seq<string>, n: nat)
    requires n <= |hosts| && MergeRaises(client, hosts[..n])
    ensures MergeRaises(client, hosts)
  {
    if n < |hosts| {
      assert hosts[..|hosts| - 1][..n] == hosts[..n];
      MergeRaisesGrows(client, hosts[..|hosts| - 1], n);
    } else {
      assert hosts[..n] == hosts;
    }
  }

  /** An unexpected defect strikes before this many hosts were processed; `None` when none strikes. */
  type Defect = Option<nat>

  predicate Strikes(defect: Defect, hosts: nat) {
    defect.Some? && defect.value < hosts
  }

  /** The part of a device a system-group answer may change. */
  datatype Merging = Merging(attributes: Attributes, sources: seq<string>)

  ghost function MergingOf(ds: seq<Device>): (all: seq<Merging>)
    reads ds
    ensures |all| == |ds|
    ensures forall k :: 0 <= k < |ds| ==> all[k] == Merging(ds[k].attributes, ds[k].discoverySources)
  {
    seq(|ds|, k requires 0 <= k < |ds| reads ds => Merging(ds[k].attributes, ds[k].discoverySources))
  }

  ghost function AttributesIn(ms: seq<Merging>): (all: seq<Attributes>)
    ensures |all| == |ms| && forall k :: 0 <= k < |ms| ==> all[k] == ms[k].attributes
  {
    seq(|ms|, k requires 0 <= k < |ms| => ms[k].attributes)
  }

  /** What a host's answer makes of its device: its fields fill unset attributes, and the source is named once. */
  function Visited(m: Merging, answer: ClientAnswer<SystemField>): Merging {
    if !answer.Answered? || !answer.responded || !KnownFields(answer.entries) then m
    else Merging(Merged(m.attributes, answer.entries), if "snmp" in m.sources then m.sources else m.sources + ["snmp"])
  }

  /** The devices once the first `n` were visited. */
  function VisitedFirst(before: seq<Merging>, answers: seq<ClientAnswer<SystemField>>, n: nat): (after: seq<Merging>)
    requires n <= |before| == |answers|
    ensures |after| == |before|
  {
    if n == 0 then before else VisitedFirst(before, answers, n - 1)[n - 1 := Visited(before[n - 1], answers[n - 1])]
  }

  lemma {:induction false} VisitedFirstExact(before: seq<Merging>, answers: seq<ClientAnswer<SystemField>>, n: nat, k: nat)
    requires n <= |before| == |answers| && k < |before|
    ensures VisitedFirst(before, answers, n)[k] == if k < n then Visited(before[k], answers[k]) else before[k]
  {
    if n > 0 { VisitedFirstExact(before, answers, n - 1, k); }
  }

  lemma VisitedFirstStep(before: seq<Merging>, answers: seq<ClientAnswer<SystemField>>, i: nat, now: seq<Merging>)
    requires i < |before| == |answers| && now == VisitedFirst(before, answers, i)
    ensures VisitedFirst(before, answers, i + 1) == now[i := Visited(now[i], answers[i])]
  {
    VisitedFirstExact(before, answers, i, i);
  }

  function AnswersOf(client: SystemClient, hosts: seq<string>): (answers: seq<ClientAnswer<SystemField>>)
    ensures |answers| == |hosts|
  {
    if hosts == [] then [] else AnswersOf(client, hosts[..|hosts| - 1]) + [client(hosts[|hosts| - 1])]
  }

  lemma {:induction false} AnswersAt(client: SystemClient, hosts: seq<string>, k: nat)
    requires k < |hosts|
    ensures AnswersOf(client, hosts)[k] == client(hosts[k])
  {
    if k < |hosts| - 1 { AnswersAt(client, hosts[..|hosts| - 1], k); }
  }

  lemma OneChanged(devices: seq<Device>, i: nat, was: seq<Merging>, now: seq<Merging>)
    requires i < |devices| == |was| == |now| && DistinctObjects(devices)
    requires forall k :: 0 <= k < |devices| && devices[k] != devices[i] ==> now[k] == was[k]
    ensures now == was[i := now[i]]
  {
  }

  /** If no device is listed twice, each of the first `n` has what its own host's answer makes of it. */
  ghost predicate Reached(devices: seq<Device>, first: seq<Merging>, client: SystemClient, n: nat)
    requires n <= |devices| == |first|
    reads devices
  {
    DistinctObjects(devices) ==> MergingOf(devices) == VisitedFirst(first, AnswersOf(client, Ips(devices)), n)
  }

  class SnmpEnrichmentProvider {
    const client: SystemClient
    const stamp: Stamp
    var observations: seq<Observation>

    constructor (client: SystemClient, stamp: Stamp)
      ensures this.client == client && this.stamp == stamp && observations == []
    {
      this.client, this.stamp := client, stamp;
      observations := [];
    }

    /** `_merge`: raises on a field name it does not know, after having merged the fields before it. */
    method Merge(device: Device, fields: seq<SystemField>) returns (raised: bool)
      modifies device
      ensures raised <==> !KnownFields(fields)
      ensures !raised ==> device.attributes == Merged(old(device.attributes), fields)
      ensures Extends(old(device.attributes), device.attributes)
      ensures device.deviceType == old(device.deviceType) && device.discoverySources == old(device.discoverySources)
    {
      for i := 0 to |fields|
        invariant KnownFields(fields[..i]) && device.attributes == Merged(old(device.attributes), fields[..i])
        invariant device.deviceType == old(device.deviceType) && device.discoverySources == old(device.discoverySources)
      {
        assert fields[..i + 1][..i] == fields[..i];
        if AttributeOf(fields[i].name).None? {
          MergedExtends(old(device.attributes), fields[..i]);
          if KnownFields(fields) { KnownPrefix(fields, i + 1); }
          return true;
        }
        var attribute := AttributeOf(fields[i].name).value;
        if attribute !in device.attributes {
          device.attributes := device.attributes[attribute := fields[i].value];
        }
      }
      assert fields[..|fields|] == fields;
      MergedExtends(old(device.attributes), fields);
      return false;
    }

    /** One host: merge, then retain its name claim. */
    method VisitHost(device: Device) returns (raised: bool)
      modifies this, device
      ensures raised <==> !AnswersKnownFields(client, device.ipAddress)
      ensures !raised ==> observations == old(observations) + SystemHost(client, device.ipAddress, stamp)
      ensures raised || (Merging(device.attributes, device.discoverySources)
        == Visited(old(Merging(device.attributes, device.discoverySources)), client(device.ipAddress)))
      ensures Extends(old(device.attributes), device.attributes)
      ensures device.deviceType == old(device.deviceType)
    {
      raised := false;
      var answer := client(device.ipAddress);
      if answer.Answered? && answer.responded {
        raised := Merge(device, answer.entries);
        if raised { return; }
        if "snmp" !in device.discoverySources {
          device.discoverySources := device.discoverySources + ["snmp"];
        }
        var value := SysName(answer.entries);
        if value != "" {
          observations := observations
            + [Identity(IdentityObservation(device.ipAddress, "hostname", value, SnmpProvenance("sysName", stamp)))];
        }
      }
    }

    /** The pass has got through the first `n` devices. */
    ghost predicate Passed(devices: seq<Device>, start: seq<Merging>, n: nat)
      requires n <= |devices| == |start|
      reads this, devices
    {
      && observations == SystemOutput(client, Ips(devices)[..n], stamp)
      && !MergeRaises(client, Ips(devices)[..n])
      && Reached(devices, start, client, n)
      && AllExtend(AttributesIn(start), AttributesOf(devices))
    }

    /** One device among all: the others keep what they had. */
    method VisitAmong(devices: seq<Device>, i: nat, ghost start: seq<Merging>) returns (raised: bool)
      requires i < |devices| == |start| && Reached(devices, start, client, i)
      requires AllExtend(AttributesIn(start), AttributesOf(devices))
      modifies this, devices[i]
      ensures raised <==> !AnswersKnownFields(client, devices[i].ipAddress)
      ensures !raised ==> observations == old(observations) + SystemHost(client, devices[i].ipAddress, stamp)
      ensures !raised ==> Reached(devices, start, client, i + 1)
      ensures AllExtend(AttributesIn(start), AttributesOf(devices))
    {
      ghost var before, was := AttributesOf(devices), MergingOf(devices);
      raised := VisitHost(devices[i]);
      AllExtendTransitive(AttributesIn(start), before, AttributesOf(devices));
      if !raised { ReachedStep(devices, i, start, was); }
    }

    method VisitDevice(devices: seq<Device>, i: nat, ghost start: seq<Merging>) returns (raised: bool)
      requires i < |devices| == |start| && Passed(devices, start, i)
      modifies this, devices[i]
      ensures raised ==> MergeRaises(client, Ips(devices)) && AllExtend(AttributesIn(start), AttributesOf(devices))
      ensures !raised ==> Passed(devices, start, i + 1)
    {
      SystemStep(client, Ips(devices), i, stamp);
      raised := VisitAmong(devices, i, start);
      if raised { MergeRaisesGrows(client, Ips(devices), i + 1); }
    }

    lemma ReachedStep(devices: seq<Device>, i: nat, start: seq<Merging>, was: seq<Merging>)
      requires i < |devices| == |start| == |was|
      requires DistinctObjects(devices) ==> was == VisitedFirst(start, AnswersOf(client, Ips(devices)), i)
      requires MergingOf(devices)[i] == Visited(was[i], client(devices[i].ipAddress))
      requires forall k :: 0 <= k < |devices| && devices[k] != devices[i] ==> MergingOf(devices)[k] == was[k]
      ensures Reached(devices, start, client, i + 1)
    {
      if DistinctObjects(devices) {
        OneChanged(devices, i, was, MergingOf(devices));
        AnswersAt(client, Ips(devices), i);
        VisitedFirstStep(start, AnswersOf(client, Ips(devices)), i, was);
      }
    }

    method Enrich(devices: seq<Device>, defect: Defect) returns (raised: bool)
      modifies this, devices
      ensures raised <==> Strikes(defect, |devices|) || MergeRaises(client, Ips(devices))
      ensures !raised ==> observations == SystemOutput(client, Ips(devices), stamp)
      ensures !raised ==> Reached(devices, old(MergingOf(devices)), client, |devices|)
      ensures AllExtend(old(AttributesOf(devices)), AttributesOf(devices))
    {
      observations := [];
      ghost var start := MergingOf(devices);
      assert AttributesIn(start) == AttributesOf(devices);
      for i := 0 to |devices|
        invariant !Strikes(defect, i) && Passed(devices, start, i)
      {
        if Strikes(defect, i + 1) { return true; }
        raised := VisitDevice(devices, i, start);
        if raised { return; }
      }
      assert Ips(devices)[..|devices|] == Ips(devices);
      return false;
    }
  }

  // ---- ARP ----

  lemma ArpStep(client: ArpClient, hosts: seq<string>, i: nat, discovered: set<string>, stamp: Stamp)
    requires i < |hosts|
    ensures ArpOutput(client, hosts[..i + 1], discovered, stamp)
      == ArpOutput(client, hosts[..i], discovered, stamp) + ArpHost(client, hosts[i], discovered, stamp)
  {
    assert hosts[..i + 1][..i] == hosts[..i];
  }

  class SnmpArpNeighborProvider {
    const client: ArpClient
    const stamp: Stamp
    var observations: seq<Observation>

    constructor (client: ArpClient, stamp: Stamp)
      ensures this.client == client && this.stamp == stamp && observations == []
    {
      this.client, this.stamp := client, stamp;
      observations := [];
    }

    method CollectRelationships(host: string, entries: seq<ArpEntry>)
      modifies this
      ensures observations == old(observations) + ArpRelationships(host, entries, stamp)
    {
      for i := 0 to |entries|
        invariant observations == old(observations) + ArpRelationships(host, entries, stamp)[..i]
      {
        observations := observations + [ArpRelationship(host, entries[i], stamp)];
      }
    }

    method CollectMacIdentities(entries: seq<ArpEntry>, discovered: set<string>)
      modifies this
      ensures observations == old(observations) + ArpIdentities(entries, discovered, stamp)
    {
      for i := 0 to |entries|
        invariant observations == old(observations) + ArpIdentities(entries[..i], discovered, stamp)
      {
        assert entries[..i + 1][..i] == entries[..i];
        if entries[i].ipAddress in discovered {
          observations := observations + [Identity(IdentityObservation(
            entries[i].ipAddress, "mac_address", entries[i].macAddress, SnmpProvenance("ipNetToPhysicalTable", stamp)))];
        }
      }
      assert entries[..|entries|] == entries;
    }

    method VisitHost(host: string, discovered: set<string>)
      modifies this
      ensures observations == old(observations) + ArpHost(client, host, discovered, stamp)
    {
      var answer := client(host);
      if answer.Answered? && answer.responded {
        CollectRelationships(host, answer.entries);
        CollectMacIdentities(answer.entries, discovered);
      }
    }

    method Enrich(devices: seq<Device>, defect: Defect) returns (raised: bool)
      modifies this
      ensures raised <==> Strikes(defect, |devices|)
      ensures !raised ==> observations == ArpOutput(client, Ips(devices), AddressSet(Ips(devices)), stamp)
    {
      observations := [];
      var hosts := Ips(devices);
      var discovered := AddressSet(hosts);
      for i := 0 to |devices|
        invariant observations == ArpOutput(client, hosts[..i], discovered, stamp) && !Strikes(defect, i)
      {
        if Strikes(defect, i + 1) { return true; }
        ArpStep(client, hosts, i, discovered, stamp);
        VisitHost(devices[i].ipAddress, discovered);
      }
      assert hosts[..|hosts|] == hosts;
      return false;
    }
  }

  function AddressSet(ips: seq<string>): set<string> { set ip | ip in ips }

  // ---- LLDP ----

  lemma LldpStep(client: LldpClient, hosts: seq<string>, i: nat, discovered: set<string>, index: Index, stamp: Stamp)
    requires i < |hosts|
    ensures LldpOutput(client, hosts[..i + 1], discovered, index, stamp)
      == LldpOutput(client, hosts[..i], discovered, index, stamp)
           + LldpEntries(hosts[i], EntriesOf(client(hosts[i])), discovered, index, stamp)
  {
    assert hosts[..i + 1][..i] == hosts[..i];
  }

  class SnmpLldpNeighborProvider {
    const client: LldpClient
    const stamp: Stamp
    var observations: seq<Observation>
    var received: seq<Observation>

    constructor (client: LldpClient, stamp: Stamp)
      ensures this.client == client && this.stamp == stamp && observations == [] && received == []
    {
      this.client, this.stamp := client, stamp;
      observations, received := [], [];
    }

    method ReceiveObservations(snapshot: seq<Observation>)
      modifies this
      ensures received == snapshot && observations == old(observations)
    {
      received := snapshot;
    }

    method CollectEntry(host: string, entry: LldpEntry, discovered: set<string>, index: Index)
      modifies this
      ensures received == old(received)
      ensures observations ==
        old(observations) + LldpClaims(host, RelatedSubjects(entry, index), entry.sysName, discovered, stamp)
    {
      var rs := RelatedSubjects(entry, index);
      for i := 0 to |rs|
        invariant received == old(received)
        invariant observations == old(observations) + LldpClaims(host, rs[..i], entry.sysName, discovered, stamp)
      {
        assert rs[..i + 1][..i] == rs[..i];
        ghost var before := observations;
        observations := observations
          + [Relationship(RelationshipObservation(host, rs[i].0, "connected_to", SnmpProvenance(rs[i].1, stamp)))];
        if entry.sysName.Some? && entry.sysName.value != "" && rs[i].0 in discovered {
          observations := observations
            + [Identity(IdentityObservation(rs[i].0, "hostname", entry.sysName.value, SnmpProvenance(rs[i].1, stamp)))];
        }
        assert observations == before + LldpClaim(host, rs[i], entry.sysName, discovered, stamp);
        Appended(old(observations), LldpClaims(host, rs[..i], entry.sysName, discovered, stamp),
                 LldpClaim(host, rs[i], entry.sysName, discovered, stamp));
      }
      assert rs[..|rs|] == rs;
    }

    method CollectForHost(host: string, entries: seq<LldpEntry>, discovered: set<string>, index: Index)
      modifies this
      ensures received == old(received)
      ensures observations == old(observations) + LldpEntries(host, entries, discovered, index, stamp)
    {
      for i := 0 to |entries|
        invariant received == old(received)
        invariant observations == old(observations) + LldpEntries(host, entries[..i], discovered, index, stamp)
      {
        assert entries[..i + 1][..i] == entries[..i];
        CollectEntry(host, entries[i], discovered, index);
        Appended(old(observations), LldpEntries(host, entries[..i], discovered, index, stamp),
                 LldpClaims(host, RelatedSubjects(entries[i], index), entries[i].sysName, discovered, stamp));
      }
      assert entries[..|entries|] == entries;
    }

    method VisitHost(host: string, discovered: set<string>, index: Index)
      modifies this
      ensures received == old(received)
      ensures observations == old(observations) + LldpEntries(host, EntriesOf(client(host)), discovered, index, stamp)
    {
      var answer := client(host);
      if answer.Answered? && answer.responded {
        CollectForHost(host, answer.entries, discovered, index);
      }
    }

    method Enrich(devices: seq<Device>, defect: Defect) returns (raised: bool)
      modifies this
      ensures received == old(received)
      ensures raised <==> Strikes(defect, |devices|)
      ensures !raised ==>
        observations == LldpOutput(client, Ips(devices), AddressSet(Ips(devices)), IndexOf(received), stamp)
    {
      observations := [];
      var hosts := Ips(devices);
      var discovered := AddressSet(hosts);
      var index := BuildMacIndex(received);
      for i := 0 to |devices|
        invariant received == old(received) && !Strikes(defect, i)
        invariant observations == LldpOutput(client, hosts[..i], discovered, index, stamp)
      {
        if Strikes(defect, i + 1) { return true; }
        LldpStep(client, hosts, i, discovered, index, stamp);
        VisitHost(devices[i].ipAddress, discovered, index);
      }
      assert hosts[..|hosts|] == hosts;
      return false;
    }
  }

  // ---- Bridge forwarding table ----

  lemma FdbStep(client: FdbClient, hosts: seq<string>, i: nat, index: Index, stamp: Stamp)
    requires i < |hosts|
    ensures FdbOutput(client, hosts[..i + 1], index, stamp)
      == FdbOutput(client, hosts[..i], index, stamp) + FdbEntries(hosts[i], EntriesOf(client(hosts[i])), index, stamp)
  {
    assert hosts[..i + 1][..i] == hosts[..i];
  }

  class SnmpBridgeFdbProvider {
    const client: FdbClient
    const stamp: Stamp
    var observations: seq<Observation>
    var received: seq<Observation>

    constructor (client: FdbClient, stamp: Stamp)
      ensures this.client == client && this.stamp == stamp && observations == [] && received == []
    {
      this.client, this.stamp := client, stamp;
      observations, received := [], [];
    }

    method ReceiveObservations(snapshot: seq<Observation>)
      modifies this
      ensures received == snapshot && observations == old(observations)
    {
      received := snapshot;
    }

    method CollectForHost(host: string, entries: seq<FdbEntry>, index: Index)
      modifies this
      ensures received == old(received)
      ensures observations == old(observations) + FdbEntries(host, entries, index, stamp)
    {
      for i := 0 to |entries|
        invariant received == old(received)
        invariant observations == old(observations) + FdbEntries(host, entries[..i], index, stamp)
      {
        assert entries[..i + 1][..i] == entries[..i];
        if entries[i].status != Some("learned") { continue; }
        var subjects := if entries[i].macAddress in index then index[entries[i].macAddress] else {};
        if |subjects| != 1 { continue; }
        observations := observations + [FdbEdge(host, Only(subjects), stamp)];
      }
      assert entries[..|entries|] == entries;
    }

    method VisitHost(host: string, index: Index)
      modifies this
      ensures received == old(received)
      ensures observations == old(observations) + FdbEntries(host, EntriesOf(client(host)), index, stamp)
    {
      var answer := client(host);
      if answer.Answered? && answer.responded {
        CollectForHost(host, answer.entries, index);
      }
    }

    method Enrich(devices: seq<Device>, defect: Defect) returns (raised: bool)
      modifies this
      ensures received == old(received)
      ensures raised <==> Strikes(defect, |devices|)
      ensures !raised ==> observations == FdbOutput(client, Ips(devices), IndexOf(received), stamp)
    {
      observations := [];
      var hosts := Ips(devices);
      var index := BuildMacIndex(received);
      for i := 0 to |devices|
        invariant received == old(received) && !Strikes(defect, i)
        invariant observations == FdbOutput(client, hosts[..i], index, stamp)
      {
        if Strikes(defect, i + 1) { return true; }
        FdbStep(client, hosts, i, index, stamp);
        VisitHost(devices[i].ipAddress, index);
      }
      assert hosts[..|hosts|] == hosts;
      return false;
    }
  }
}
