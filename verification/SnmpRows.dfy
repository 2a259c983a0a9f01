/** Decoding SNMP table rows: keys carried in the row INDEX, columns joined by key. */
module SnmpRows {
  import opened Wrappers
  import opened Decimal
  import opened Dotted
  import opened Evidence

  // ---- Row indexes ----

  /** A row's OID: the column, then the INDEX components (section 7.7 of RFC 2578). */
  function RowOid(column: string, index: seq<nat>): string
    requires index != []
  {
    column + "." + DottedText(index)
  }

  /** The INDEX components of a row of `column`, when the OID belongs to it and ends in plain numbers. */
  function Components(oid: string, column: string): Option<seq<nat>> {
    var prefix := column + ".";
    if |prefix| <= |oid| && oid[..|prefix|] == prefix then Numbers(Split(oid[|prefix|..])) else None
  }

  lemma ComponentsOfRow(column: string, index: seq<nat>)
    requires index != []
    ensures Components(RowOid(column, index), column) == Some(index)
  {
    var prefix := column + ".";
    var oid := RowOid(column, index);
    assert oid == prefix + DottedText(index);
    assert oid[..|prefix|] == prefix && oid[|prefix|..] == DottedText(index);
    DottedRoundTrip(index);
  }

  const IPV4_ADDRESS_TYPE := 1

  /** `_parse_ipv4_arp_row`: interface index and address of an `ipNetToPhysicalTable` row. */
  function ParseIpv4ArpRow(oid: string, column: string): Option<(nat, string)> {
    var components :- Components(oid, column);
    if |components| < 3 || components[1] != IPV4_ADDRESS_TYPE || components[2] != 4 then None
    else
      var octets := if |components| < 7 then components[3..] else components[3..7];
      if |octets| != 4 || !Octets(octets) then None else Some((components[0], DottedText(octets)))
  }

  /** `_parse_lldp_rem_row`: time mark, local port and remote index. */
  function ParseLldpRemRow(oid: string, column: string): Option<(nat, nat, nat)> {
    var components :- Components(oid, column);
    if |components| != 3 then None else Some((components[0], components[1], components[2]))
  }

  /** `_parse_lldp_man_addr_row`: the same key, and the management address after it. */
  function ParseLldpManAddrRow(oid: string, column: string): Option<((nat, nat, nat), string)> {
    var components :- Components(oid, column);
    if |components| < 5 || components[3] != IPV4_ADDRESS_TYPE || components[4] != 4 then None
    else
      var octets := if |components| < 9 then components[5..] else components[5..9];
      if |octets| != 4 || !Octets(octets) then None
      else Some(((components[0], components[1], components[2]), DottedText(octets)))
  }

  // ---- MAC addresses ----

  function UpperHex(d: nat): char
    requires d < 16
  {
    if d < 10 then ('0' as int + d) as char else ('A' as int + d - 10) as char
  }

  /** `"%02X"`. */
  function HexByte(b: nat): (s: string)
    requires b <= 255
    ensures |s| == 2
  {
    [UpperHex(b / 16), UpperHex(b % 16)]
  }

  /** `_format_mac`. */
  function FormatMac(bytes: seq<nat>): string
    requires Octets(bytes)
  {
    if bytes == [] then ""
    else if |bytes| == 1 then HexByte(bytes[0])
    else HexByte(bytes[0]) + ":" + FormatMac(bytes[1..])
  }

  /** `_parse_bridge_fdb_row`: the INDEX is the six-byte MAC address itself. */
  function ParseBridgeFdbRow(oid: string, column: string): Option<string> {
    var octets :- Components(oid, column);
    if |octets| != 6 || !Octets(octets) then None else Some(FormatMac(octets))
  }

  lemma HexByteInjective(a: nat, b: nat)
    requires a <= 255 && b <= 255 && HexByte(a) == HexByte(b)
    ensures a == b
  {
    assert HexByte(a)[0] == HexByte(b)[0] && HexByte(a)[1] == HexByte(b)[1];
    assert a / 16 == b / 16 && a % 16 == b % 16;
  }

  lemma {:induction false} FormatMacLength(bytes: seq<nat>)
    requires Octets(bytes)
    ensures |FormatMac(bytes)| == if bytes == [] then 0 else 3 * |bytes| - 1
  {
    if |bytes| > 1 { FormatMacLength(bytes[1..]); }
  }

  lemma FirstByteSame(a: seq<nat>, b: seq<nat>)
    requires Octets(a) && Octets(b) && |a| == |b| > 0 && FormatMac(a) == FormatMac(b)
    ensures a[0] == b[0]
    ensures |a| > 1 ==> FormatMac(a[1..]) == FormatMac(b[1..])
  {
    var s, t := FormatMac(a), FormatMac(b);
    assert s[..2] == HexByte(a[0]) && t[..2] == HexByte(b[0]);
    HexByteInjective(a[0], b[0]);
    if |a| > 1 {
      assert s[3..] == FormatMac(a[1..]) && t[3..] == FormatMac(b[1..]);
    }
  }

  /** MAC printing is injective: different addresses never share a key. */
  lemma {:induction false} FormatMacInjective(a: seq<nat>, b: seq<nat>)
    requires Octets(a) && Octets(b) && FormatMac(a) == FormatMac(b)
    ensures a == b
  {
    FormatMacLength(a);
    FormatMacLength(b);
    if a != [] {
      FirstByteSame(a, b);
      if |a| > 1 { FormatMacInjective(a[1..], b[1..]); }
      assert a == [a[0]] + a[1..] && b == [b[0]] + b[1..];
    }
  }

  // ---- Decoding inverts the INDEX encoding ----

  predicate Ipv4At(index: seq<nat>, at: nat) {
    at + 6 <= |index| && index[at] == IPV4_ADDRESS_TYPE && index[at + 1] == 4 && Octets(index[at + 2..at + 6])
  }

  /** Which numeric rows the ARP parser accepts, and the key it gives them. */
  lemma ArpRowDecodes(column: string, index: seq<nat>)
    requires index != []
    ensures ParseIpv4ArpRow(RowOid(column, index), column)
      == if Ipv4At(index, 1) then Some((index[0], DottedText(index[3..7]))) else None
  {
    ComponentsOfRow(column, index);
  }

  lemma ManAddrRowDecodes(column: string, index: seq<nat>)
    requires index != []
    ensures ParseLldpManAddrRow(RowOid(column, index), column)
      == if Ipv4At(index, 3) then Some(((index[0], index[1], index[2]), DottedText(index[5..9]))) else None
  {
    ComponentsOfRow(column, index);
  }

  lemma LldpRemRowDecodes(column: string, index: seq<nat>)
    requires index != []
    ensures ParseLldpRemRow(RowOid(column, index), column)
      == if |index| == 3 then Some((index[0], index[1], index[2])) else None
  {
    ComponentsOfRow(column, index);
  }

  lemma FdbRowDecodes(column: string, index: seq<nat>)
    requires index != []
    ensures ParseBridgeFdbRow(RowOid(column, index), column)
      == if |index| == 6 && Octets(index) then Some(FormatMac(index)) else None
  {
    ComponentsOfRow(column, index);
  }

  /** Two accepted ARP rows share a key exactly when their first seven components agree: exactly shaped rows
      are told apart, and components the parser tolerates after the address are not. */
  lemma ArpKeysTellApart(column: string, index: seq<nat>, other: seq<nat>)
    requires Ipv4At(index, 1) && Ipv4At(other, 1)
    ensures ParseIpv4ArpRow(RowOid(column, index), column) == ParseIpv4ArpRow(RowOid(column, other), column)
      <==> index[..7] == other[..7]
  {
    ArpRowDecodes(column, index);
    ArpRowDecodes(column, other);
    if DottedText(index[3..7]) == DottedText(other[3..7]) {
      DottedInjective(index[3..7], other[3..7]);
    }
    SevenComponents(index);
    SevenComponents(other);
  }

  lemma SevenComponents(index: seq<nat>)
    requires Ipv4At(index, 1)
    ensures index[..7] == [index[0], 1, 4] + index[3..7]
  {
  }

  /** A row with a component after its address collides with the row without it. */
  lemma TrailingComponentsCollide(column: string, index: seq<nat>, extra: nat)
    requires |index| == 7 && Ipv4At(index, 1)
    ensures RowOid(column, index) != RowOid(column, index + [extra])
    ensures ParseIpv4ArpRow(RowOid(column, index), column)
      == ParseIpv4ArpRow(RowOid(column, index + [extra]), column) != None
  {
    var other := index + [extra];
    assert other[3..7] == index[3..7];
    ArpRowDecodes(column, index);
    ArpRowDecodes(column, other);
    ComponentsOfRow(column, index);
    ComponentsOfRow(column, other);
  }

  /** Forwarding rows are told apart by their whole INDEX. */
  lemma FdbKeysTellApart(column: string, index: seq<nat>, other: seq<nat>)
    requires |index| == |other| == 6 && Octets(index) && Octets(other)
    ensures ParseBridgeFdbRow(RowOid(column, index), column) == ParseBridgeFdbRow(RowOid(column, other), column)
      <==> index == other
  {
    FdbRowDecodes(column, index);
    FdbRowDecodes(column, other);
    if FormatMac(index) == FormatMac(other) { FormatMacInjective(index, other); }
  }

  /** Two accepted management-address rows agree exactly when their first nine components do. */
  lemma ManAddrKeysTellApart(column: string, index: seq<nat>, other: seq<nat>)
    requires Ipv4At(index, 3) && Ipv4At(other, 3)
    ensures ParseLldpManAddrRow(RowOid(column, index), column) == ParseLldpManAddrRow(RowOid(column, other), column)
      <==> index[..9] == other[..9]
  {
    ManAddrRowDecodes(column, index);
    ManAddrRowDecodes(column, other);
    if DottedText(index[5..9]) == DottedText(other[5..9]) {
      DottedInjective(index[5..9], other[5..9]);
    }
    NineComponents(index);
    NineComponents(other);
  }

  lemma NineComponents(index: seq<nat>)
    requires Ipv4At(index, 3)
    ensures index[..9] == [index[0], index[1], index[2], 1, 4] + index[5..9]
  {
  }

  // ---- LLDP chassis identifiers ----

  function LowerHex(d: nat): char
    requires d < 16
  {
    if d < 10 then ('0' as int + d) as char else ('a' as int + d - 10) as char
  }

  /** `bytes.hex()`. */
  function Hex(bytes: seq<nat>): string
    requires Octets(bytes)
  {
    if bytes == [] then "" else [LowerHex(bytes[0] / 16), LowerHex(bytes[0] % 16)] + Hex(bytes[1..])
  }

  /** `_format_lldp_chassis_id`: `None` when the length contradicts the claimed subtype. */
  function FormatLldpChassisId(subtype: int, raw: seq<nat>): Option<string>
    requires Octets(raw)
  {
    if subtype == CHASSIS_MAC_ADDRESS then
      if |raw| == 6 then Some(FormatMac(raw)) else None
    else if subtype == CHASSIS_NETWORK_ADDRESS then
      if |raw| < 1 then None
      else if raw[0] == IPV4_ADDRESS_TYPE then
        if |raw| != 5 then None else Some(DottedText(raw[1..]))
      else Some(Hex(raw))
    else Some(Hex(raw))
  }

  lemma {:induction false} HexHasNoDot(bytes: seq<nat>)
    requires Octets(bytes)
    ensures '.' !in Hex(bytes)
  {
    if bytes != [] { HexHasNoDot(bytes[1..]); }
  }

  lemma {:induction false} PlainNoLeadingZero(n: nat)
    ensures Plain(n) == "0" || Plain(n)[0] != '0'
  {
    PlainValue(n);
    if n >= 10 {
      PlainValue(n / 10);
      PlainNoLeadingZero(n / 10);
      assert Plain(n)[0] == Plain(n / 10)[0];
      assert "0"[..0] == "" && ValueOf("0") == 0;
    }
  }

  lemma OctetPrinted(n: nat)
    requires n <= 255
    ensures IsOctet(Plain(n))
  {
    PlainValue(n);
    PlainLength(n, 3);
    assert Pow10(3) == 1000;
    PlainNoLeadingZero(n);
  }

  lemma {:induction false} PrintedAt(ns: seq<nat>, i: nat)
    requires i < |ns|
    ensures |Printed(ns)| == |ns| && Printed(ns)[i] == Plain(ns[i])
  {
    NumbersPrinted(ns);
    if i > 0 { PrintedAt(ns[1..], i - 1); }
  }

  lemma OctetsAreIpv4(ns: seq<nat>)
    requires |ns| == 4 && Octets(ns)
    ensures IsIpv4(DottedText(ns))
  {
    NumbersPrinted(ns);
    SplitJoin(Printed(ns));
    forall i | 0 <= i < 4 ensures IsOctet(Printed(ns)[i]) {
      PrintedAt(ns, i);
      OctetPrinted(ns[i]);
    }
  }

  /** A formatted network address reads as an IPv4 address exactly when it was one: hexadecimal text of any
      other family never does, so the provider's later check declines precisely those. */
  lemma ChassisAddressExact(raw: seq<nat>)
    requires Octets(raw)
    ensures var text := FormatLldpChassisId(CHASSIS_NETWORK_ADDRESS, raw);
      text.Some? && IsIpv4(text.value) <==> |raw| == 5 && raw[0] == IPV4_ADDRESS_TYPE
  {
    if |raw| == 5 && raw[0] == IPV4_ADDRESS_TYPE {
      OctetsAreIpv4(raw[1..]);
    } else {
      HexHasNoDot(raw);
      SplitWhole(Hex(raw));
    }
  }
}
