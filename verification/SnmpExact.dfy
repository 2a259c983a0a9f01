/** The texts an SNMP client hands on, digit by digit: addresses, MACs, chassis identifiers and status names. */
module SnmpExact {
  import opened Wrappers
  import opened Decimal
  import opened Dotted
  import opened Evidence
  import opened SnmpRows
  import opened SnmpTables

  // ---- Hexadecimal texts ----

  lemma UpperHexExact(d: nat)
    requires d < 16
    ensures UpperHex(d) == "0123456789ABCDEF"[d]
  {
    var digits := "0123456789ABCDEF";
    assert digits[d] == UpperHex(d);
  }

  lemma LowerHexExact(d: nat)
    requires d < 16
    ensures LowerHex(d) == "0123456789abcdef"[d]
  {
    var digits := "0123456789abcdef";
    assert digits[d] == LowerHex(d);
  }

  /** Three characters for every byte but the last, which has no colon: the byte's two upper-case digits first. */
  lemma {:induction false} MacTextExact(bytes: seq<nat>, k: nat)
    requires Octets(bytes) && k < |bytes|
    ensures var text := FormatMac(bytes);
      && |text| == 3 * |bytes| - 1
      && text[3 * k] == "0123456789ABCDEF"[bytes[k] / 16]
      && text[3 * k + 1] == "0123456789ABCDEF"[bytes[k] % 16]
      && (k + 1 < |bytes| ==> text[3 * k + 2] == ':')
  {
    FormatMacLength(bytes);
    if k == 0 {
      UpperHexExact(bytes[0] / 16);
      UpperHexExact(bytes[0] % 16);
      assert FormatMac(bytes)[..2] == HexByte(bytes[0]);
      if |bytes| > 1 { assert FormatMac(bytes)[..3] == HexByte(bytes[0]) + ":"; }
    } else {
      MacTextExact(bytes[1..], k - 1);
      assert FormatMac(bytes)[3..] == FormatMac(bytes[1..]);
    }
  }

  /** Two lower-case digits for every byte. */
  lemma {:induction false} HexTextExact(bytes: seq<nat>, k: nat)
    requires Octets(bytes) && k < |bytes|
    ensures var text := Hex(bytes);
      && |text| == 2 * |bytes|
      && text[2 * k] == "0123456789abcdef"[bytes[k] / 16]
      && text[2 * k + 1] == "0123456789abcdef"[bytes[k] % 16]
  {
    HexLength(bytes);
    if k == 0 {
      LowerHexExact(bytes[0] / 16);
      LowerHexExact(bytes[0] % 16);
    } else {
      HexTextExact(bytes[1..], k - 1);
      assert Hex(bytes)[2..] == Hex(bytes[1..]);
    }
  }

  lemma {:induction false} HexLength(bytes: seq<nat>)
    requires Octets(bytes)
    ensures |Hex(bytes)| == 2 * |bytes|
  {
    if bytes != [] { HexLength(bytes[1..]); }
  }

  // ---- IPv4 addresses ----

  lemma {:induction false} JoinSplit(text: string)
    ensures Split(text) != [] && Join(Split(text)) == text
  {
    if text != "" {
      JoinSplit(text[1..]);
      var rest := Split(text[1..]);
      assert rest == [rest[0]] + rest[1..];
      assert text == [text[0]] + text[1..];
      if text[0] == '.' { JoinFirst("", rest); } else { JoinHead(text[0], rest[0], rest[1..]); }
    }
  }

  lemma JoinHead(c: char, first: string, rest: seq<string>)
    ensures Join([[c] + first] + rest) == [c] + Join([first] + rest)
  {
    JoinFirst([c] + first, rest);
    JoinFirst(first, rest);
    if rest != [] { assert [c] + first + ("." + JoinRest(rest)) == [c] + (first + ("." + JoinRest(rest))); }
  }

  /** What follows the first part. */
  function JoinRest(rest: seq<string>): string {
    if rest == [] then "" else Join(rest)
  }

  lemma JoinFirst(first: string, rest: seq<string>)
    ensures Join([first] + rest) == if rest == [] then first else first + ("." + JoinRest(rest))
  {
    assert ([first] + rest)[1..] == rest;
    if rest != [] { assert first + "." + Join(rest) == first + ("." + Join(rest)); }
  }

  /** A number written without a leading zero is the plain text of its value. */
  lemma {:induction false} PlainOfValue(s: string)
    requires s != "" && AllDigits(s) && (s == "0" || s[0] != '0')
    ensures Plain(ValueOf(s)) == s
  {
    var init, c := s[..|s| - 1], s[|s| - 1];
    assert s == init + [c] && IsDigit(c);
    if init == "" {
      assert ValueOf(init) == 0;
    } else {
      assert init[0] == s[0];
      PlainOfValue(init);
      assert Plain(0)[0] == '0';
    }
  }

  lemma FourPrinted(ns: seq<nat>)
    requires |ns| == 4
    ensures Printed(ns) == [Plain(ns[0]), Plain(ns[1]), Plain(ns[2]), Plain(ns[3])]
  {
    PrintedAt(ns, 0);
    PrintedAt(ns, 1);
    PrintedAt(ns, 2);
    PrintedAt(ns, 3);
  }

  /** Four numbers, dots between them, each in plain decimal. */
  lemma DottedFour(a: nat, b: nat, c: nat, d: nat)
    ensures DottedText([a, b, c, d]) == Plain(a) + "." + Plain(b) + "." + Plain(c) + "." + Plain(d)
  {
    FourPrinted([a, b, c, d]);
    var parts := [Plain(a), Plain(b), Plain(c), Plain(d)];
    assert parts[1..] == [Plain(b), Plain(c), Plain(d)];
    assert parts[1..][1..] == [Plain(c), Plain(d)];
    assert parts[1..][1..][1..] == [Plain(d)];
    JoinFour(parts);
  }

  lemma JoinFour(parts: seq<string>)
    requires |parts| == 4
    ensures Join(parts) == parts[0] + "." + parts[1] + "." + parts[2] + "." + parts[3]
  {
    assert Join(parts[1..][1..][1..]) == parts[3];
    assert Join(parts[1..][1..]) == parts[2] + "." + parts[3];
    assert Join(parts[1..]) == parts[1] + "." + (parts[2] + "." + parts[3]);
  }

  ghost predicate FourOctets(text: string) {
    exists ns: seq<nat> :: |ns| == 4 && Octets(ns) && text == DottedText(ns)
  }

  lemma OctetsOf(text: string) returns (ns: seq<nat>)
    requires IsIpv4(text)
    ensures |ns| == 4 && Octets(ns) && text == DottedText(ns)
  {
    var parts := Split(text);
    assert IsOctet(parts[0]) && IsOctet(parts[1]) && IsOctet(parts[2]) && IsOctet(parts[3]);
    ns := [ValueOf(parts[0]), ValueOf(parts[1]), ValueOf(parts[2]), ValueOf(parts[3])];
    PlainOfValue(parts[0]);
    PlainOfValue(parts[1]);
    PlainOfValue(parts[2]);
    PlainOfValue(parts[3]);
    FourPrinted(ns);
    assert Printed(ns) == parts;
    JoinSplit(text);
  }

  /** A text reads as an IPv4 address exactly when it is the dotted text of four octets. */
  lemma Ipv4Exact(text: string)
    ensures IsIpv4(text) <==> FourOctets(text)
  {
    if IsIpv4(text) { var ns := OctetsOf(text); }
    if ns: seq<nat> :| |ns| == 4 && Octets(ns) && text == DottedText(ns) { OctetsAreIpv4(ns); }
  }

  // ---- Row names ----

  /** `part` is the number in decimal digits; zeros may stand in front. */
  predicate Reads(part: string, n: nat) {
    part != "" && AllDigits(part) && ValueOf(part) == n
  }

  predicate AllRead(parts: seq<string>, ns: seq<nat>) {
    |parts| == |ns| && forall i :: 0 <= i < |ns| ==> Reads(parts[i], ns[i])
  }

  lemma {:induction false} NumbersExact(parts: seq<string>, ns: seq<nat>)
    ensures Numbers(parts) == Some(ns) <==> AllRead(parts, ns)
  {
    if parts != [] && ns != [] {
      NumbersExact(parts[1..], ns[1..]);
      assert ns == [ns[0]] + ns[1..];
      if AllRead(parts[1..], ns[1..]) && Reads(parts[0], ns[0]) {
        forall i | 0 <= i < |ns| ensures Reads(parts[i], ns[i]) {
          if i > 0 { assert Reads(parts[1..][i - 1], ns[1..][i - 1]); }
        }
      }
      if AllRead(parts, ns) {
        forall i | 0 <= i < |ns| - 1 ensures Reads(parts[1..][i], ns[1..][i]) { assert Reads(parts[i + 1], ns[i + 1]); }
      }
    }
  }

  /** A row name is that of its column, a dot, and these numbers with dots between them. */
  ghost predicate RowName(oid: string, column: string, ns: seq<nat>) {
    exists parts :: parts != [] && AllRead(parts, ns) && oid == column + "." + Join(parts)
  }

  lemma DigitsNoDots(parts: seq<string>, ns: seq<nat>)
    requires AllRead(parts, ns)
    ensures forall p :: p in parts ==> '.' !in p
  {
    forall p | p in parts ensures '.' !in p {
      var i :| 0 <= i < |parts| && parts[i] == p;
      assert Reads(parts[i], ns[i]);
    }
  }

  /** The components of a row name are its numbers; a name of another column, or with anything but numbers after
      the column, has none. */
  lemma ComponentsExact(oid: string, column: string, ns: seq<nat>)
    ensures Components(oid, column) == Some(ns) <==> RowName(oid, column, ns)
  {
    var prefix := column + ".";
    if Components(oid, column) == Some(ns) {
      var tail := oid[|prefix|..];
      NumbersExact(Split(tail), ns);
      JoinSplit(tail);
      assert oid == prefix + tail;
    }
    if parts :| parts != [] && AllRead(parts, ns) && oid == column + "." + Join(parts) {
      DigitsNoDots(parts, ns);
      SplitJoin(parts);
      NumbersExact(parts, ns);
      assert oid[..|prefix|] == prefix && oid[|prefix|..] == Join(parts);
    }
  }

  /** What the four parsers make of any row name at all: nothing unless it has components, and then what the
      components say, whatever zeros they were written with. */
  lemma ParsersExact(oid: string, column: string)
    ensures ParseIpv4ArpRow(oid, column).Some? <==> Components(oid, column).Some? && Ipv4At(Components(oid, column).value, 1)
    ensures ParseLldpManAddrRow(oid, column).Some? <==>
      Components(oid, column).Some? && Ipv4At(Components(oid, column).value, 3)
    ensures ParseLldpRemRow(oid, column).Some? <==> Components(oid, column).Some? && |Components(oid, column).value| == 3
    ensures ParseBridgeFdbRow(oid, column).Some? <==>
      Components(oid, column).Some? && |Components(oid, column).value| == 6 && Octets(Components(oid, column).value)
    ensures forall index: seq<nat> :: index != [] && Components(oid, column) == Some(index) ==>
      && ParseIpv4ArpRow(oid, column) == ParseIpv4ArpRow(RowOid(column, index), column)
      && ParseLldpManAddrRow(oid, column) == ParseLldpManAddrRow(RowOid(column, index), column)
      && ParseLldpRemRow(oid, column) == ParseLldpRemRow(RowOid(column, index), column)
      && ParseBridgeFdbRow(oid, column) == ParseBridgeFdbRow(RowOid(column, index), column)
  {
    if Components(oid, column).Some? && Components(oid, column).value != [] {
      ComponentsOfRow(column, Components(oid, column).value);
    }
  }

  // ---- Chassis identifiers ----

  /** Subtype 4 is a MAC address of six octets, subtype 5 a network address, whose first octet 1 says that four
      octets of IPv4 follow; neither is accepted with another length. */
  lemma ChassisIdAccepted(subtype: int, raw: seq<nat>)
    requires Octets(raw)
    ensures FormatLldpChassisId(subtype, raw).Some? <==>
      if subtype == 4 then |raw| == 6 else subtype != 5 || (|raw| > 0 && (raw[0] == 1 ==> |raw| == 5))
  {
  }

  /** The text of an accepted one: a MAC address, four decimal octets, or hexadecimal digits for everything else. */
  lemma ChassisIdText(subtype: int, raw: seq<nat>)
    requires Octets(raw) && FormatLldpChassisId(subtype, raw).Some?
    ensures var text := FormatLldpChassisId(subtype, raw).value;
      if subtype == 4 then text == FormatMac(raw)
      else if subtype == 5 && raw[0] == 1 then
        text == Plain(raw[1]) + "." + Plain(raw[2]) + "." + Plain(raw[3]) + "." + Plain(raw[4])
      else text == Hex(raw)
  {
    if subtype == 5 && raw[0] == 1 {
      DottedFour(raw[1], raw[2], raw[3], raw[4]);
      assert raw[1..] == [raw[1], raw[2], raw[3], raw[4]];
    }
  }

  // ---- Rows ----

  /** Row `i` is the last that gives a value for `key`. */
  predicate LastRowFor<K(==), V>(rows: seq<VarBind<V>>, parse: Parser<K>, key: K, i: nat) {
    && i < |rows| && RowFor(rows[i], parse, key)
    && forall j :: i < j < |rows| ==> !RowFor(rows[j], parse, key)
  }

  predicate CodeNames(code: int, status: Option<string>) {
    && (status == Some("other") <==> code == 1)
    && (status == Some("invalid") <==> code == 2)
    && (status == Some("learned") <==> code == 3)
    && (status == Some("self") <==> code == 4)
    && (status == Some("mgmt") <==> code == 5)
    && (status == None <==> code < 1 || code > 5)
  }

  lemma StatusNameExact(code: int)
    ensures CodeNames(code, StatusName(code))
  {
    assert |"learned"| == 7 && |"invalid"| == 7 && |"other"| == 5;
    assert "learned"[0] == 'l' && "invalid"[0] == 'i' && "self"[0] == 's' && "mgmt"[0] == 'm';
  }

  /** The status of a forwarding entry is the name of the code in the last status row for its MAC, "learned" for
      code 3 alone; with no such row, or a failed status walk, it has none. */
  lemma FdbStatusExact(ports: Column<string, int>, statusWalk: Walk<int>, k: nat)
    requires k < |ports.keys|
    ensures var entry := FdbTableEntries(ports, BestEffort(statusWalk, FdbParser(FDB_STATUS_COLUMN)))[k];
      && entry.macAddress == ports.keys[k]
      && (statusWalk.Failed? || !AnyRowFor(statusWalk.rows, FdbParser(FDB_STATUS_COLUMN), ports.keys[k])
          ==> entry.status == None)
      && (statusWalk.Walked? ==>
            forall i: nat :: LastRowFor(statusWalk.rows, FdbParser(FDB_STATUS_COLUMN), ports.keys[k], i) ==>
              CodeNames(statusWalk.rows[i].value.value, entry.status))
  {
    var parse, mac := FdbParser(FDB_STATUS_COLUMN), ports.keys[k];
    if statusWalk.Walked? {
      FilledKeys(statusWalk.rows, parse, mac);
      forall i: nat | LastRowFor(statusWalk.rows, parse, mac, i)
        ensures CodeNames(statusWalk.rows[i].value.value,
                          FdbTableEntries(ports, BestEffort(statusWalk, parse))[k].status) {
        LastRowWins(statusWalk.rows, parse, mac, i);
        StatusNameExact(statusWalk.rows[i].value.value);
      }
    }
  }

  /** A joined LLDP entry has the management addresses, the subtype and the chassis text of its key, and the
      advertised name whenever there is one that is not empty. */
  lemma JoinedEntryExact(c: LldpColumns, key: LldpKey)
    requires Joins(c, key)
    ensures var entry := JoinedEntry(c, key);
      && entry.managementAddresses == AddressesAt(c.addresses, key)
      && entry.chassisIdSubtype == c.subtypes.values[key]
      && Some(entry.chassisId) == FormatLldpChassisId(c.subtypes.values[key], c.chassis.values[key])
      && forall name :: entry.sysName == Some(name) <==>
           name != "" && key in c.sysNames.values && c.sysNames.values[key] == name
  {
  }

  /** An advertised name that is not empty survives the join: it is the entry's name when it stands in the last name
      row of the key. */
  lemma AdvertisedNameKept(c: LldpColumns, key: LldpKey, nameWalk: Walk<string>, i: nat)
    requires Joins(c, key) && nameWalk.Walked? && c.sysNames == BestEffort(nameWalk, LldpParser(SYS_NAME_COLUMN))
    requires LastRowFor(nameWalk.rows, LldpParser(SYS_NAME_COLUMN), key, i)
    ensures JoinedEntry(c, key).sysName
      == if nameWalk.rows[i].value.value == "" then None else Some(nameWalk.rows[i].value.value)
  {
    LastRowWins(nameWalk.rows, LldpParser(SYS_NAME_COLUMN), key, i);
  }

  ghost predicate AddressRow(rows: seq<VarBind<int>>, i: nat, key: LldpKey, address: string) {
    && i < |rows| && rows[i].value.Some?
    && ParseLldpManAddrRow(rows[i].name, "1.0.8802.1.1.2.1.4.2.1.3") == Some((key, address))
  }

  ghost predicate Advertised(rows: seq<VarBind<int>>, key: LldpKey, address: string) {
    exists i: nat :: AddressRow(rows, i, key, address)
  }

  lemma AdvertisedGrows(init: seq<VarBind<int>>, row: VarBind<int>, key: LldpKey, address: string)
    ensures Advertised(init + [row], key, address) <==>
      Advertised(init, key, address) || AddressRow([row], 0, key, address)
  {
    var rows := init + [row];
    if i: nat :| AddressRow(init, i, key, address) { assert AddressRow(rows, i, key, address); }
    if AddressRow([row], 0, key, address) { assert AddressRow(rows, |init|, key, address); }
    if i: nat :| AddressRow(rows, i, key, address) {
      assert i < |init| ==> AddressRow(init, i, key, address);
    }
  }

  /** The addresses of a key are those of its management-address rows. */
  lemma {:induction false} AddressesExact(rows: seq<VarBind<int>>, key: LldpKey, address: string)
    ensures address in AddressesFor(rows, key) <==> Advertised(rows, key, address)
  {
    if rows != [] {
      var init, row := rows[..|rows| - 1], rows[|rows| - 1];
      assert rows == init + [row];
      AddressesExact(init, key, address);
      AdvertisedGrows(init, row, key, address);
    }
  }

  /** The columns walked, by their OIDs: the tables of the ARP cache, the forwarding database and LLDP. */
  lemma ColumnsExact(index: seq<nat>)
    requires index != []
    ensures ArpParser()(RowOid("1.3.6.1.2.1.4.35.1.4", index))
      == if Ipv4At(index, 1) then Some((index[0], DottedText(index[3..7]))) else None
    ensures FdbParser(FDB_PORT_COLUMN)(RowOid("1.3.6.1.2.1.17.4.3.1.2", index))
      == if |index| == 6 && Octets(index) then Some(FormatMac(index)) else None
    ensures FdbParser(FDB_STATUS_COLUMN)(RowOid("1.3.6.1.2.1.17.4.3.1.3", index))
      == if |index| == 6 && Octets(index) then Some(FormatMac(index)) else None
    ensures LldpParser(CHASSIS_ID_SUBTYPE_COLUMN)(RowOid("1.0.8802.1.1.2.1.4.1.1.4", index))
      == if |index| == 3 then Some((index[0], index[1], index[2])) else None
    ensures LldpParser(CHASSIS_ID_COLUMN)(RowOid("1.0.8802.1.1.2.1.4.1.1.5", index))
      == if |index| == 3 then Some((index[0], index[1], index[2])) else None
    ensures LldpParser(SYS_NAME_COLUMN)(RowOid("1.0.8802.1.1.2.1.4.1.1.9", index))
      == if |index| == 3 then Some((index[0], index[1], index[2])) else None
  {
    ArpRowDecodes(PHYS_ADDRESS_COLUMN, index);
    FdbRowDecodes(FDB_PORT_COLUMN, index);
    FdbRowDecodes(FDB_STATUS_COLUMN, index);
    LldpRemRowDecodes(CHASSIS_ID_SUBTYPE_COLUMN, index);
    LldpRemRowDecodes(CHASSIS_ID_COLUMN, index);
    LldpRemRowDecodes(SYS_NAME_COLUMN, index);
  }
}
