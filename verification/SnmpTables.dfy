/** SNMP table walks: filling a column by row key, and joining columns into entries. */
module SnmpTables {
  import opened Wrappers
  import opened Dotted
  import opened Evidence
  import opened SnmpRows

  /** One walked variable binding; the value is absent when the agent reported none for that row. */
  datatype VarBind<V> = VarBind(name: string, value: Option<V>)

  /** A walk either fails as a whole or yields its rows. */
  datatype Walk<V> = Failed | Walked(rows: seq<VarBind<V>>)

  type Parser<K> = string -> Option<K>

  /** A column as an insertion-ordered dictionary. */
  datatype Column<K, V> = Column(keys: seq<K>, values: map<K, V>)

  /** `values_by_key[key] = value`. */
  function Put<K(==), V>(c: Column<K, V>, key: K, value: V): Column<K, V> {
    Column(if key in c.values then c.keys else c.keys + [key], c.values[key := value])
  }

  function Entered<K(==), V>(c: Column<K, V>, row: VarBind<V>, parse: Parser<K>): Column<K, V> {
    if row.value.None? then c
    else
      match parse(row.name)
      case Some(key) => Put(c, key, row.value.value)
      case None => c
  }

  function Filled<K(==), V>(rows: seq<VarBind<V>>, parse: Parser<K>): Column<K, V> {
    if rows == [] then Column([], map[])
    else Entered(Filled(rows[..|rows| - 1], parse), rows[|rows| - 1], parse)
  }

  /** A usable row for `key`. */
  predicate RowFor<K(==), V>(row: VarBind<V>, parse: Parser<K>, key: K) {
    row.value.Some? && parse(row.name) == Some(key)
  }

  predicate AnyRowFor<K(==), V>(rows: seq<VarBind<V>>, parse: Parser<K>, key: K) {
    exists i :: 0 <= i < |rows| && RowFor(rows[i], parse, key)
  }

  predicate WellFormed<K(==), V>(c: Column<K, V>) {
    && (forall i, j :: 0 <= i < j < |c.keys| ==> c.keys[i] != c.keys[j])
    && (forall i :: 0 <= i < |c.keys| ==> c.keys[i] in c.values)
    && (forall k :: k in c.values ==> k in c.keys)
  }

  lemma PutWellFormed<K, V>(c: Column<K, V>, key: K, value: V)
    requires WellFormed(c)
    ensures WellFormed(Put(c, key, value))
  {
  }

  lemma {:induction false} FilledWellFormed<K, V>(rows: seq<VarBind<V>>, parse: Parser<K>)
    ensures WellFormed(Filled(rows, parse))
  {
    if rows != [] {
      var init, row := rows[..|rows| - 1], rows[|rows| - 1];
      FilledWellFormed(init, parse);
      if row.value.Some? && parse(row.name).Some? {
        PutWellFormed(Filled(init, parse), parse(row.name).value, row.value.value);
      }
    }
  }

  lemma AnyRowStep<K, V>(init: seq<VarBind<V>>, row: VarBind<V>, parse: Parser<K>, key: K)
    ensures AnyRowFor(init + [row], parse, key) <==> AnyRowFor(init, parse, key) || RowFor(row, parse, key)
  {
    var rows := init + [row];
    assert rows[|init|] == row && forall i :: 0 <= i < |init| ==> rows[i] == init[i];
  }

  /** A column has exactly the keys its usable rows parse to. */
  lemma {:induction false} FilledKeys<K, V>(rows: seq<VarBind<V>>, parse: Parser<K>, key: K)
    ensures key in Filled(rows, parse).values <==> AnyRowFor(rows, parse, key)
  {
    if rows != [] {
      var init, row := rows[..|rows| - 1], rows[|rows| - 1];
      assert rows == init + [row];
      FilledKeys(init, parse, key);
      AnyRowStep(init, row, parse, key);
    }
  }

  /** Keys stand in the order in which they were first met: those of the first `n` rows stay in front. */
  lemma {:induction false} FirstSeenOrder<K, V>(rows: seq<VarBind<V>>, parse: Parser<K>, n: nat)
    requires n <= |rows|
    ensures Filled(rows[..n], parse).keys <= Filled(rows, parse).keys
  {
    if n == |rows| {
      assert rows[..n] == rows;
    } else {
      assert rows[..|rows| - 1][..n] == rows[..n];
      FirstSeenOrder(rows[..|rows| - 1], parse, n);
    }
  }

  /** When rows repeat a key, the last one walked decides. */
  lemma {:induction false} LastRowWins<K, V>(rows: seq<VarBind<V>>, parse: Parser<K>, key: K, i: nat)
    requires i < |rows| && RowFor(rows[i], parse, key)
    requires forall j :: i < j < |rows| ==> !RowFor(rows[j], parse, key)
    ensures key in Filled(rows, parse).values && Filled(rows, parse).values[key] == rows[i].value.value
  {
    if i < |rows| - 1 { LastRowWins(rows[..|rows| - 1], parse, key, i); }
  }

  /** The walk loop; a failed walk yields no column at all. */
  method WalkColumn<K(==), V>(walk: Walk<V>, parse: Parser<K>) returns (column: Option<Column<K, V>>)
    ensures column == if walk.Failed? then None else Some(Filled(walk.rows, parse))
  {
    if walk.Failed? { return None; }
    var filled: Column<K, V> := Column([], map[]);
    for i := 0 to |walk.rows|
      invariant filled == Filled(walk.rows[..i], parse)
    {
      assert walk.rows[..i + 1][..i] == walk.rows[..i];
      var row := walk.rows[i];
      if row.value.None? { continue; }
      var key := parse(row.name);
      if key.None? { continue; }
      filled := Put(filled, key.value, row.value.value);
    }
    assert walk.rows[..|walk.rows|] == walk.rows;
    return Some(filled);
  }

  // ---- The ARP table: one entry per row of the PhysAddress column ----

  type Bytes = b: seq<nat> | Octets(b) witness []

  type ArpKey = (nat, string)

  const PHYS_ADDRESS_COLUMN := "1.3.6.1.2.1.4.35.1.4"

  function ArpParser(): Parser<ArpKey> {
    (oid: string) => ParseIpv4ArpRow(oid, PHYS_ADDRESS_COLUMN)
  }

  function ArpEntries(macs: Column<ArpKey, Bytes>): (entries: seq<ArpEntry>)
    requires WellFormed(macs)
    ensures |entries| == |macs.keys|
    ensures forall i :: 0 <= i < |macs.keys| ==>
      entries[i] == ArpEntry(macs.keys[i].1, FormatMac(macs.values[macs.keys[i]]))
  {
    seq(|macs.keys|, i requires 0 <= i < |macs.keys| =>
      ArpEntry(macs.keys[i].1, FormatMac(macs.values[macs.keys[i]])))
  }

  method GetArpTable(walk: Walk<Bytes>) returns (answer: ClientAnswer<ArpEntry>)
    ensures walk.Failed? ==> answer == Answered(false, [])
    ensures walk.Walked? ==>
      WellFormed(Filled(walk.rows, ArpParser())) && answer == Answered(true, ArpEntries(Filled(walk.rows, ArpParser())))
  {
    var macs := WalkColumn(walk, ArpParser());
    if macs.None? { return Answered(false, []); }
    FilledWellFormed(walk.rows, ArpParser());
    return Answered(true, ArpEntries(macs.value));
  }

  // ---- The forwarding table: one entry per row of the port column, its status looked up ----

  const FDB_PORT_COLUMN := "1.3.6.1.2.1.17.4.3.1.2"
  const FDB_STATUS_COLUMN := "1.3.6.1.2.1.17.4.3.1.3"

  function FdbParser(column: string): Parser<string> {
    (oid: string) => ParseBridgeFdbRow(oid, column)
  }

  function StatusName(code: int): Option<string> {
    if code == 1 then Some("other")
    else if code == 2 then Some("invalid")
    else if code == 3 then Some("learned")
    else if code == 4 then Some("self")
    else if code == 5 then Some("mgmt")
    else None
  }

  function StatusOf(statuses: Column<string, int>, mac: string): Option<string> {
    if mac in statuses.values then StatusName(statuses.values[mac]) else None
  }

  function FdbTableEntries(ports: Column<string, int>, statuses: Column<string, int>): (entries: seq<FdbEntry>)
    ensures |entries| == |ports.keys|
    ensures forall i :: 0 <= i < |ports.keys| ==> entries[i] == FdbEntry(ports.keys[i], StatusOf(statuses, ports.keys[i]))
  {
    seq(|ports.keys|, i requires 0 <= i < |ports.keys| => FdbEntry(ports.keys[i], StatusOf(statuses, ports.keys[i])))
  }

  /** A failed status walk leaves every status unresolved and never fails the host. */
  function BestEffort<K, V>(walk: Walk<V>, parse: Parser<K>): Column<K, V> {
    if walk.Failed? then Column([], map[]) else Filled(walk.rows, parse)
  }

  method GetBridgeFdb(portWalk: Walk<int>, statusWalk: Walk<int>) returns (answer: ClientAnswer<FdbEntry>)
    ensures portWalk.Failed? ==> answer == Answered(false, [])
    ensures portWalk.Walked? ==> answer == Answered(true, FdbTableEntries(
      Filled(portWalk.rows, FdbParser(FDB_PORT_COLUMN)), BestEffort(statusWalk, FdbParser(FDB_STATUS_COLUMN))))
  {
    var ports := WalkColumn(portWalk, FdbParser(FDB_PORT_COLUMN));
    if ports.None? { return Answered(false, []); }
    var statuses := WalkColumn(statusWalk, FdbParser(FDB_STATUS_COLUMN));
    return Answered(true, FdbTableEntries(ports.value, if statuses.Some? then statuses.value else Column([], map[])));
  }

  /** The forwarding join lists each MAC of a usable port row once, and nothing else. */
  lemma FdbJoinExact(rows: seq<VarBind<int>>, statuses: Column<string, int>, mac: string)
    ensures var entries := FdbTableEntries(Filled(rows, FdbParser(FDB_PORT_COLUMN)), statuses);
      && (AnyRowFor(rows, FdbParser(FDB_PORT_COLUMN), mac) <==>
            exists i :: 0 <= i < |entries| && entries[i].macAddress == mac)
      && forall i, j :: 0 <= i < j < |entries| ==> entries[i].macAddress != entries[j].macAddress
  {
    var ports := Filled(rows, FdbParser(FDB_PORT_COLUMN));
    FilledWellFormed(rows, FdbParser(FDB_PORT_COLUMN));
    FilledKeys(rows, FdbParser(FDB_PORT_COLUMN), mac);
    var entries := FdbTableEntries(ports, statuses);
    if mac in ports.values {
      var i :| 0 <= i < |ports.keys| && ports.keys[i] == mac;
      assert entries[i].macAddress == mac;
    }
  }

  /** The ARP join has one entry per key of a usable row, in first-seen order. */
  lemma ArpJoinExact(rows: seq<VarBind<Bytes>>, key: ArpKey)
    ensures var macs := Filled(rows, ArpParser());
      && WellFormed(macs) && |ArpEntries(macs)| == |macs.keys|
      && (AnyRowFor(rows, ArpParser(), key) <==> exists i :: 0 <= i < |macs.keys| && macs.keys[i] == key)
      && forall i, j :: 0 <= i < j < |macs.keys| ==> macs.keys[i] != macs.keys[j]
  {
    FilledWellFormed(rows, ArpParser());
    FilledKeys(rows, ArpParser(), key);
    var macs := Filled(rows, ArpParser());
    if key in macs.values { assert key in macs.keys; }
  }

  // ---- The LLDP tables ----

  type LldpKey = (nat, nat, nat)

  const CHASSIS_ID_SUBTYPE_COLUMN := "1.0.8802.1.1.2.1.4.1.1.4"
  const CHASSIS_ID_COLUMN := "1.0.8802.1.1.2.1.4.1.1.5"
  const SYS_NAME_COLUMN := "1.0.8802.1.1.2.1.4.1.1.9"
  const MAN_ADDR_COLUMN := "1.0.8802.1.1.2.1.4.2.1.3"

  function LldpParser(column: string): Parser<LldpKey> {
    (oid: string) => ParseLldpRemRow(oid, column)
  }

  /** The management addresses walked for `key`, in order. */
  function AddressesFor(rows: seq<VarBind<int>>, key: LldpKey): seq<string> {
    if rows == [] then []
    else
      var before := AddressesFor(rows[..|rows| - 1], key);
      var row := rows[|rows| - 1];
      var parsed := ParseLldpManAddrRow(row.name, MAN_ADDR_COLUMN);
      if row.value.Some? && parsed.Some? && parsed.value.0 == key then before + [parsed.value.1] else before
  }

  function AddressesAt(addresses: map<LldpKey, seq<string>>, key: LldpKey): seq<string> {
    if key in addresses then addresses[key] else []
  }

  lemma AddressesStep(rows: seq<VarBind<int>>, i: nat, key: LldpKey)
    requires i < |rows|
    ensures var parsed := ParseLldpManAddrRow(rows[i].name, MAN_ADDR_COLUMN);
      AddressesFor(rows[..i + 1], key) == AddressesFor(rows[..i], key)
        + if rows[i].value.Some? && parsed.Some? && parsed.value.0 == key then [parsed.value.1] else []
  {
    assert rows[..i + 1][..i] == rows[..i];
  }

  /** A failed walk means no management address for any row, never a failed host. */
  method WalkManAddrTable(walk: Walk<int>) returns (addresses: map<LldpKey, seq<string>>)
    ensures forall key :: AddressesAt(addresses, key) == if walk.Failed? then [] else AddressesFor(walk.rows, key)
  {
    addresses := map[];
    if walk.Failed? { return; }
    for i := 0 to |walk.rows|
      invariant forall key :: AddressesAt(addresses, key) == AddressesFor(walk.rows[..i], key)
    {
      forall key { AddressesStep(walk.rows, i, key); }
      if walk.rows[i].value.None? { continue; }
      var parsed := ParseLldpManAddrRow(walk.rows[i].name, MAN_ADDR_COLUMN);
      if parsed.None? { continue; }
      var (key, address) := parsed.value;
      addresses := addresses[key := AddressesAt(addresses, key) + [address]];
    }
    assert walk.rows[..|walk.rows|] == walk.rows;
  }

  /** `_as_optional_text`, the value already stripped. */
  function OptionalText(names: Column<LldpKey, string>, key: LldpKey): Option<string> {
    if key in names.values && names.values[key] != "" then Some(names.values[key]) else None
  }

  /** The columns an LLDP join reads. */
  datatype LldpColumns = LldpColumns(
    subtypes: Column<LldpKey, int>, chassis: Column<LldpKey, Bytes>, sysNames: Column<LldpKey, string>,
    addresses: map<LldpKey, seq<string>>)

  /** `key` has a chassis ID, and one its subtype allows. */
  predicate Joins(c: LldpColumns, key: LldpKey) {
    && key in c.subtypes.values && key in c.chassis.values
    && FormatLldpChassisId(c.subtypes.values[key], c.chassis.values[key]).Some?
  }

  function JoinedEntry(c: LldpColumns, key: LldpKey): LldpEntry
    requires Joins(c, key)
  {
    LldpEntry(AddressesAt(c.addresses, key), c.subtypes.values[key],
      FormatLldpChassisId(c.subtypes.values[key], c.chassis.values[key]).value, OptionalText(c.sysNames, key))
  }

  function JoinedKeys(c: LldpColumns, keys: seq<LldpKey>): seq<LldpKey> {
    if keys == [] then []
    else
      var before := JoinedKeys(c, keys[..|keys| - 1]);
      if Joins(c, keys[|keys| - 1]) then before + [keys[|keys| - 1]] else before
  }

  lemma {:induction false} JoinedKeysExact(c: LldpColumns, keys: seq<LldpKey>)
    requires forall i, j :: 0 <= i < j < |keys| ==> keys[i] != keys[j]
    ensures forall k :: k in JoinedKeys(c, keys) <==> k in keys && Joins(c, k)
    ensures forall i, j :: 0 <= i < j < |JoinedKeys(c, keys)| ==> JoinedKeys(c, keys)[i] != JoinedKeys(c, keys)[j]
  {
    if keys != [] {
      var init, last := keys[..|keys| - 1], keys[|keys| - 1];
      assert keys == init + [last];
      JoinedKeysExact(c, init);
    }
  }

  /** An LLDP entry for each key of the subtype column that has a well-formed chassis ID, once, and no other. */
  lemma LldpJoinExact(rows: seq<VarBind<int>>, c: LldpColumns, key: LldpKey)
    requires c.subtypes == Filled(rows, LldpParser(CHASSIS_ID_SUBTYPE_COLUMN))
    ensures key in JoinedKeys(c, c.subtypes.keys) <==>
      AnyRowFor(rows, LldpParser(CHASSIS_ID_SUBTYPE_COLUMN), key) && Joins(c, key)
    ensures var joined := JoinedKeys(c, c.subtypes.keys);
      forall i, j :: 0 <= i < j < |joined| ==> joined[i] != joined[j]
  {
    FilledWellFormed(rows, LldpParser(CHASSIS_ID_SUBTYPE_COLUMN));
    FilledKeys(rows, LldpParser(CHASSIS_ID_SUBTYPE_COLUMN), key);
    JoinedKeysExact(c, c.subtypes.keys);
  }

  /** The join loop. */
  method JoinLldp(c: LldpColumns) returns (entries: seq<LldpEntry>)
    requires WellFormed(c.subtypes)
    ensures |entries| == |JoinedKeys(c, c.subtypes.keys)|
    ensures forall i :: 0 <= i < |entries| ==>
      Joins(c, JoinedKeys(c, c.subtypes.keys)[i]) && entries[i] == JoinedEntry(c, JoinedKeys(c, c.subtypes.keys)[i])
  {
    entries := [];
    var keys := c.subtypes.keys;
    for i := 0 to |keys|
      invariant |entries| == |JoinedKeys(c, keys[..i])|
      invariant forall k :: 0 <= k < |entries| ==>
        Joins(c, JoinedKeys(c, keys[..i])[k]) && entries[k] == JoinedEntry(c, JoinedKeys(c, keys[..i])[k])
    {
      assert keys[..i + 1][..i] == keys[..i];
      var key := keys[i];
      if key !in c.chassis.values { continue; }
      var subtype := c.subtypes.values[key];
      var chassisId := FormatLldpChassisId(subtype, c.chassis.values[key]);
      if chassisId.None? { continue; }
      entries := entries
        + [LldpEntry(AddressesAt(c.addresses, key), subtype, chassisId.value, OptionalText(c.sysNames, key))];
    }
    assert keys[..|keys|] == keys;
  }

  /** Both chassis columns are needed; the other walks are best-effort. */
  method GetLldpNeighbors(subtypeWalk: Walk<int>, chassisWalk: Walk<Bytes>, nameWalk: Walk<string>,
                          addressWalk: Walk<int>)
      returns (answer: ClientAnswer<LldpEntry>, ghost columns: LldpColumns)
    ensures answer.Answered? && (answer.responded <==> subtypeWalk.Walked? && chassisWalk.Walked?)
    ensures !answer.responded ==> answer.entries == []
    ensures answer.responded ==>
      && columns.subtypes == Filled(subtypeWalk.rows, LldpParser(CHASSIS_ID_SUBTYPE_COLUMN))
      && columns.chassis == Filled(chassisWalk.rows, LldpParser(CHASSIS_ID_COLUMN))
      && columns.sysNames == BestEffort(nameWalk, LldpParser(SYS_NAME_COLUMN))
      && var joined := JoinedKeys(columns, columns.subtypes.keys);
         && |answer.entries| == |joined|
         && forall i :: 0 <= i < |joined| ==>
              Joins(columns, joined[i]) && answer.entries[i] == JoinedEntry(columns, joined[i])
    ensures answer.responded ==> forall key ::
      AddressesAt(columns.addresses, key) == if addressWalk.Failed? then [] else AddressesFor(addressWalk.rows, key)
  {
    columns := LldpColumns(Column([], map[]), Column([], map[]), Column([], map[]), map[]);
    var subtypes := WalkColumn(subtypeWalk, LldpParser(CHASSIS_ID_SUBTYPE_COLUMN));
    if subtypes.None? { return Answered(false, []), columns; }
    var chassis := WalkColumn(chassisWalk, LldpParser(CHASSIS_ID_COLUMN));
    if chassis.None? { return Answered(false, []), columns; }
    var names := WalkColumn(nameWalk, LldpParser(SYS_NAME_COLUMN));
    var addresses := WalkManAddrTable(addressWalk);
    var c := LldpColumns(subtypes.value, chassis.value, if names.Some? then names.value else Column([], map[]), addresses);
    FilledWellFormed(subtypeWalk.rows, LldpParser(CHASSIS_ID_SUBTYPE_COLUMN));
    var entries := JoinLldp(c);
    return Answered(true, entries), c;
  }
}
