/** Decimal digits: fixed width (`%06d`, `%02d`) and plain (`str(n)`). */
module Decimal {
  import opened Wrappers

  predicate IsDigit(c: char) { '0' <= c <= '9' }

  predicate AllDigits(s: string) {
    forall i :: 0 <= i < |s| ==> IsDigit(s[i])
  }

  function Digit(n: nat): char
    requires n < 10
  {
    ('0' as int + n) as char
  }

  function Pow10(width: nat): nat {
    if width == 0 then 1 else 10 * Pow10(width - 1)
  }

  /** The last `width` decimal digits of `n`. */
  function Padded(n: nat, width: nat): string {
    if width == 0 then "" else Padded(n / 10, width - 1) + [Digit(n % 10)]
  }

  function ValueOf(s: string): nat
    requires AllDigits(s)
  {
    if s == "" then 0 else 10 * ValueOf(s[..|s| - 1]) + (s[|s| - 1] as int - '0' as int)
  }

  lemma {:induction false} PaddedShape(n: nat, width: nat)
    ensures |Padded(n, width)| == width && AllDigits(Padded(n, width))
  {
    if width > 0 { PaddedShape(n / 10, width - 1); }
  }

  lemma {:induction false} PaddedValue(n: nat, width: nat)
    requires n < Pow10(width)
    ensures AllDigits(Padded(n, width)) && ValueOf(Padded(n, width)) == n
  {
    PaddedShape(n, width);
    if width > 0 {
      PaddedValue(n / 10, width - 1);
      assert Padded(n, width)[..width - 1] == Padded(n / 10, width - 1);
    }
  }

  lemma {:induction false} ValuePadded(s: string)
    requires AllDigits(s)
    ensures ValueOf(s) < Pow10(|s|) && Padded(ValueOf(s), |s|) == s
  {
    if s != "" {
      ValuePadded(s[..|s| - 1]);
      assert s == s[..|s| - 1] + [s[|s| - 1]];
    }
  }

  /** `str(n)`. */
  function Plain(n: nat): string {
    if n < 10 then [Digit(n)] else Plain(n / 10) + [Digit(n % 10)]
  }

  lemma {:induction false} PlainValue(n: nat)
    ensures Plain(n) != "" && AllDigits(Plain(n)) && ValueOf(Plain(n)) == n
  {
    if n >= 10 {
      PlainValue(n / 10);
      assert Plain(n)[..|Plain(n)| - 1] == Plain(n / 10);
    } else {
      assert Plain(n)[..0] == "";
    }
  }

  lemma {:induction false} PlainLength(n: nat, width: nat)
    requires width > 0
    ensures n >= Pow10(width) <==> |Plain(n)| > width
  {
    if n >= 10 && width > 1 { PlainLength(n / 10, width - 1); }
    if n >= 10 && width == 1 { PlainValue(n / 10); }
    if n < 10 { PowPositive(width - 1); }
  }

  lemma {:induction false} PowPositive(width: nat)
    ensures Pow10(width) >= 1
  {
    if width > 0 { PowPositive(width - 1); }
  }

  /** `f"{n:0{width}d}"`: zero-filled, and never cut. */
  function ZeroFilled(n: nat, width: nat): string {
    if n < Pow10(width) then Padded(n, width) else Plain(n)
  }

  /** Read exactly `width` digits off the front. */
  function TakeDigits(s: string, width: nat): Option<(nat, string)> {
    if |s| >= width && AllDigits(s[..width]) then Some((ValueOf(s[..width]), s[width..])) else None
  }

  lemma TakePadded(n: nat, width: nat, rest: string)
    requires n < Pow10(width)
    ensures TakeDigits(Padded(n, width) + rest, width) == Some((n, rest))
  {
    PaddedShape(n, width);
    PaddedValue(n, width);
    var s := Padded(n, width) + rest;
    assert s[..width] == Padded(n, width) && s[width..] == rest;
  }
}
