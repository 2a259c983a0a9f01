/** Which attribute of a device each observed value becomes. */
module AttributesExact {
  import opened Wrappers
  import opened Devices
  import opened Evidence
  import opened Providers

  /** The attribute is set exactly when there is a value, and then to it. */
  predicate AttributeIs(attributes: Attributes, name: Attribute, value: Option<string>) {
    && (name in attributes <==> value.Some?)
    && (value.Some? ==> attributes[name] == value.value)
  }

  /** SMB's value where SMB reported one that is not empty, and otherwise whatever RDP reported. */
  predicate SmbThenRdp(attributes: Attributes, name: Attribute, smb: Option<string>, rdp: Option<string>) {
    if smb.Some? && smb.value != "" then AttributeIs(attributes, name, smb) else AttributeIs(attributes, name, rdp)
  }

  ghost predicate BuiltIs(attributes: Attributes, data: HostData) {
    && AttributeIs(attributes, Hostname, data.hostname)
    && AttributeIs(attributes, MacAddress, data.macAddress)
    && AttributeIs(attributes, Vendor, data.vendor)
  }

  lemma BuiltExact(data: HostData)
    ensures BuiltIs(BuiltAttributes(data), data) && BuiltAttributes(data).Keys <= {Hostname, MacAddress, Vendor}
  {
  }

  ghost predicate ScriptsAre(attributes: Attributes, data: SmbRdpData) {
    && SmbThenRdp(attributes, OperatingSystem, data.smbOperatingSystem, data.rdpOperatingSystem)
    && SmbThenRdp(attributes, ComputerName, data.smbComputerName, data.rdpComputerName)
    && SmbThenRdp(attributes, DomainName, data.smbDomain, data.rdpDomain)
    && AttributeIs(attributes, SmbSigning, data.smbSigning)
  }

  /** The second scan sets its four fields and nothing else. */
  lemma EnrichedExact(before: Attributes, data: SmbRdpData)
    ensures ScriptsAre(EnrichedAttributes(before, data), data)
    ensures forall a :: a !in {OperatingSystem, ComputerName, DomainName, SmbSigning} ==>
      AttributeIs(EnrichedAttributes(before, data), a, if a in before then Some(before[a]) else None)
  {
  }

  /** The attributes Nmap gives the device of a host: name, MAC address and vendor from the first scan, and from the
      second, where one was made and lists the host, the four fields of its scripts. Nothing else. */
  lemma NmapAttributesExact(h: ScannedHost, enriched: Option<map<string, SmbRdpData>>)
    ensures BuiltIs(DiscoveredAttributes(h, enriched), h.data)
    ensures enriched.Some? && h.ip in enriched.value ==>
      ScriptsAre(DiscoveredAttributes(h, enriched), enriched.value[h.ip])
    ensures enriched.None? || h.ip !in enriched.value ==> OnlyBuilt(DiscoveredAttributes(h, enriched))
    ensures OnlyNmap(DiscoveredAttributes(h, enriched))
  {
    BuiltExact(h.data);
    if enriched.Some? { EnrichedExact(BuiltAttributes(h.data), DataFor(enriched.value, h.ip)); }
  }

  predicate OnlyBuilt(attributes: Attributes) {
    attributes.Keys <= {Hostname, MacAddress, Vendor}
  }

  predicate OnlyNmap(attributes: Attributes) {
    attributes.Keys <= {Hostname, MacAddress, Vendor, OperatingSystem, ComputerName, DomainName, SmbSigning}
  }

  /** The fields of the SNMP system group and the attributes they are kept under. */
  predicate SystemTable(field: string, a: Attribute) {
    || (field == "sysName" && a == Hostname)
    || (field == "sysDescr" && a == SnmpSysDescr)
    || (field == "sysObjectID" && a == SnmpSysObjectId)
    || (field == "sysUpTime" && a == SnmpSysUptime)
    || (field == "sysContact" && a == SnmpSysContact)
    || (field == "sysLocation" && a == SnmpSysLocation)
  }

  lemma AttributeTableExact(field: string, a: Attribute)
    ensures AttributeOf(field) == Some(a) <==> SystemTable(field, a)
    ensures AttributeOf(field).None? <==>
      field !in {"sysName", "sysDescr", "sysObjectID", "sysUpTime", "sysContact", "sysLocation"}
  {
    SystemNamesDiffer();
  }

  lemma SystemNamesDiffer()
    ensures "sysName" != "sysDescr" && "sysName" != "sysUpTime" && "sysDescr" != "sysUpTime"
    ensures "sysObjectID" != "sysLocation" && "sysObjectID" != "sysContact" && "sysContact" != "sysLocation"
    ensures |"sysName"| == 7 && |"sysDescr"| == 8 && |"sysUpTime"| == 9 && |"sysContact"| == 10
    ensures |"sysObjectID"| == 11 && |"sysLocation"| == 11
  {
    assert "sysObjectID"[3] == 'O' && "sysLocation"[3] == 'L';
  }

  /** The merge, field by field: an attribute the device has stays; one it has not takes the first field of the
      table's name for it; an attribute no returned field is meant for stays unset. */
  lemma SystemMergeExact(attributes: Attributes, fields: seq<SystemField>, field: string, a: Attribute)
    requires KnownFields(fields) && SystemTable(field, a)
    ensures var merged := Merged(attributes, fields);
      && (a in attributes ==> AttributeIs(merged, a, Some(attributes[a])))
      && (a !in attributes && (forall j :: 0 <= j < |fields| ==> fields[j].name != field) ==> a !in merged)
      && forall i :: 0 <= i < |fields| && a !in attributes && FirstOfName(fields, i, field) ==>
           AttributeIs(merged, a, Some(fields[i].value))
  {
    MergedExtends(attributes, fields);
    AttributeTableExact(field, a);
    forall j | 0 <= j < |fields| ensures AttributeOf(fields[j].name) == Some(a) <==> fields[j].name == field {
      AttributeTableExact(fields[j].name, a);
    }
    if a !in attributes {
      if forall j :: 0 <= j < |fields| ==> fields[j].name != field { MergedOnlyOwn(attributes, fields, a); }
      forall i | 0 <= i < |fields| && FirstOfName(fields, i, field)
        ensures AttributeIs(Merged(attributes, fields), a, Some(fields[i].value)) {
        MergedTakesFirst(attributes, fields, i, a);
      }
    }
  }

  predicate FirstOfName(fields: seq<SystemField>, i: int, field: string)
    requires 0 <= i < |fields|
  {
    fields[i].name == field && forall j :: 0 <= j < i ==> fields[j].name != field
  }

  // ---- When the system-group pass raises ----

  predicate SystemName(name: string) {
    name in {"sysName", "sysDescr", "sysObjectID", "sysUpTime", "sysContact", "sysLocation"}
  }

  lemma {:induction false} KnownFieldsExact(fields: seq<SystemField>)
    ensures KnownFields(fields) <==> forall f :: f in fields ==> SystemName(f.name)
  {
    if fields != [] {
      var init, last := fields[..|fields| - 1], fields[|fields| - 1];
      assert last in fields && forall f :: f in init ==> f in fields;
      assert forall f :: f in fields ==> f in init || f == last;
      KnownFieldsExact(init);
      AttributeTableExact(last.name, Hostname);
    }
  }

  /** The host responded with a field that has no attribute. */
  ghost predicate AnswersUnknown(client: SystemClient, host: string) {
    exists f :: f in EntriesOf(client(host)) && !SystemName(f.name)
  }

  ghost predicate AnyAnswersUnknown(client: SystemClient, hosts: seq<string>) {
    exists host :: host in hosts && AnswersUnknown(client, host)
  }

  lemma AnyAnswersGrows(client: SystemClient, init: seq<string>, last: string)
    ensures AnyAnswersUnknown(client, init + [last]) <==>
      AnyAnswersUnknown(client, init) || AnswersUnknown(client, last)
  {
    var hosts := init + [last];
    assert last in hosts && forall h :: h in init ==> h in hosts;
    assert forall h :: h in hosts ==> h in init || h == last;
  }

  lemma {:induction false} MergeRaisesExact(client: SystemClient, hosts: seq<string>)
    ensures MergeRaises(client, hosts) <==> AnyAnswersUnknown(client, hosts)
  {
    if hosts != [] {
      var init, last := hosts[..|hosts| - 1], hosts[|hosts| - 1];
      MergeRaisesExact(client, init);
      KnownFieldsExact(EntriesOf(client(last)));
      AnyAnswersGrows(client, init, last);
      assert hosts == init + [last];
    }
  }
}
