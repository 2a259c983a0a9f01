/** Dotted strings: OIDs and IPv4 addresses. */
module Dotted {
  import opened Wrappers
  import opened Decimal

  /** `text.split(".")`. */
  function Split(text: string): seq<string> {
    if text == "" then [""]
    else
      var rest := Split(text[1..]);
      if text[0] == '.' then [""] + rest else [[text[0]] + rest[0]] + rest[1..]
  }

  function Join(parts: seq<string>): string
    requires parts != []
  {
    if |parts| == 1 then parts[0] else parts[0] + "." + Join(parts[1..])
  }

  lemma {:induction false} SplitNonEmpty(text: string)
    ensures Split(text) != []
  {
    if text != "" { SplitNonEmpty(text[1..]); }
  }

  lemma {:induction false} SplitWhole(part: string)
    requires '.' !in part
    ensures Split(part) == [part]
  {
    if part != "" {
      SplitWhole(part[1..]);
      assert [part[0]] + part[1..] == part;
    }
  }

  lemma {:induction false} SplitFirst(part: string, rest: string)
    requires '.' !in part
    ensures Split(part + "." + rest) == [part] + Split(rest)
  {
    var text := part + "." + rest;
    if part == "" {
      assert text[1..] == rest;
    } else {
      SplitFirst(part[1..], rest);
      assert text[1..] == part[1..] + "." + rest;
      assert [part[0]] + part[1..] == part;
    }
  }

  /** Splitting undoes joining when no part holds a dot. */
  lemma {:induction false} SplitJoin(parts: seq<string>)
    requires parts != [] && forall p :: p in parts ==> '.' !in p
    ensures Split(Join(parts)) == parts
  {
    assert parts[0] in parts;
    if |parts| == 1 {
      SplitWhole(parts[0]);
    } else {
      SplitJoin(parts[1..]);
      SplitFirst(parts[0], Join(parts[1..]));
      assert parts == [parts[0]] + parts[1..];
    }
  }

  /** The numbers of a dotted string, or nothing when some part is not a plain decimal number. */
  function Numbers(parts: seq<string>): Option<seq<nat>> {
    if parts == [] then Some([])
    else if parts[0] == "" || !AllDigits(parts[0]) then None
    else
      var rest :- Numbers(parts[1..]);
      Some([ValueOf(parts[0])] + rest)
  }

  function Printed(ns: seq<nat>): seq<string> {
    if ns == [] then [] else [Plain(ns[0])] + Printed(ns[1..])
  }

  function DottedText(ns: seq<nat>): string
    requires ns != []
  {
    Join(Printed(ns))
  }

  lemma {:induction false} NumbersPrinted(ns: seq<nat>)
    ensures Numbers(Printed(ns)) == Some(ns) && |Printed(ns)| == |ns|
    ensures forall p :: p in Printed(ns) ==> '.' !in p
  {
    if ns != [] {
      NumbersPrinted(ns[1..]);
      PlainValue(ns[0]);
      assert ns == [ns[0]] + ns[1..];
    }
  }

  /** Reading a dotted string of numbers gives back the numbers it was printed from. */
  lemma DottedRoundTrip(ns: seq<nat>)
    requires ns != []
    ensures Numbers(Split(DottedText(ns))) == Some(ns)
  {
    NumbersPrinted(ns);
    SplitJoin(Printed(ns));
  }

  lemma DottedInjective(ns: seq<nat>, ms: seq<nat>)
    requires ns != [] && ms != [] && DottedText(ns) == DottedText(ms)
    ensures ns == ms
  {
    DottedRoundTrip(ns);
    DottedRoundTrip(ms);
  }

  predicate Octets(ns: seq<nat>) {
    forall i :: 0 <= i < |ns| ==> ns[i] <= 255
  }

  /** What `ipaddress.IPv4Address` accepts: four decimal octets, none with a leading zero. */
  predicate IsIpv4(text: string) {
    var parts := Split(text);
    |parts| == 4 && forall i :: 0 <= i < 4 ==> IsOctet(parts[i])
  }

  predicate IsOctet(part: string) {
    && 1 <= |part| <= 3 && AllDigits(part) && (part == "0" || part[0] != '0')
    && ValueOf(part) <= 255
  }
}
