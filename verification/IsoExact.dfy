/** `datetime.isoformat()` character by character, and the calendar its dates come from. */
module IsoExact {
  import opened Wrappers
  import opened Decimal
  import opened Timestamps

  /** `text` from position `at` on is the number, in so many digits. */
  predicate DigitsAt(text: string, at: nat, width: nat, n: nat) {
    at + width <= |text| && text[at..at + width] == Padded(n, width)
  }

  predicate CharAt(text: string, at: nat, c: char) {
    at < |text| && text[at] == c
  }

  /** The part of the printed form that begins at `at`. */
  ghost predicate TailAt(text: string, at: nat, tail: string) {
    at <= |text| && text[at..] == tail
  }

  lemma TailDigits(text: string, at: nat, n: nat, width: nat, rest: string)
    requires TailAt(text, at, Padded(n, width) + rest)
    ensures DigitsAt(text, at, width, n) && TailAt(text, at + width, rest)
  {
    PaddedShape(n, width);
    var tail := Padded(n, width) + rest;
    assert tail[..width] == Padded(n, width) && tail[width..] == rest;
    assert text[at..][..width] == text[at..at + width];
    assert text[at..][width..] == text[at + width..];
  }

  lemma TailChar(text: string, at: nat, c: char, rest: string)
    requires TailAt(text, at, [c] + rest)
    ensures CharAt(text, at, c) && TailAt(text, at + 1, rest)
  {
    assert text[at..][0] == c;
    assert text[at..][1..] == text[at + 1..];
    assert ([c] + rest)[1..] == rest;
  }

  lemma DateLayout(t: Timestamp)
    ensures var text := IsoFormat(t);
      && DigitsAt(text, 0, 4, t.year) && CharAt(text, 4, '-')
      && DigitsAt(text, 5, 2, t.month) && CharAt(text, 7, '-')
      && DigitsAt(text, 8, 2, t.day) && CharAt(text, 10, 'T')
      && TailAt(text, 11, IsoClock(t))
  {
    var text := IsoFormat(t);
    var day := Padded(t.day, 2) + ("T" + IsoClock(t));
    var month := Padded(t.month, 2) + ("-" + day);
    TailDigits(text, 0, t.year, 4, "-" + month);
    TailChar(text, 4, '-', month);
    TailDigits(text, 5, t.month, 2, "-" + day);
    TailChar(text, 7, '-', day);
    TailDigits(text, 8, t.day, 2, "T" + IsoClock(t));
    TailChar(text, 10, 'T', IsoClock(t));
  }

  lemma ClockLayout(t: Timestamp)
    ensures var text := IsoFormat(t);
      && DigitsAt(text, 11, 2, t.hour) && CharAt(text, 13, ':')
      && DigitsAt(text, 14, 2, t.minute) && CharAt(text, 16, ':')
      && DigitsAt(text, 17, 2, t.second)
      && TailAt(text, 19, IsoFraction(t.microsecond) + IsoOffset(t.offset))
  {
    DateLayout(t);
    var text := IsoFormat(t);
    var second := Padded(t.second, 2) + (IsoFraction(t.microsecond) + IsoOffset(t.offset));
    var minute := Padded(t.minute, 2) + (":" + second);
    TailDigits(text, 11, t.hour, 2, ":" + minute);
    TailChar(text, 13, ':', minute);
    TailDigits(text, 14, t.minute, 2, ":" + second);
    TailChar(text, 16, ':', second);
    TailDigits(text, 17, t.second, 2, IsoFraction(t.microsecond) + IsoOffset(t.offset));
  }

  lemma FractionTail(text: string, at: nat, micros: nat, rest: string)
    requires TailAt(text, at, IsoFraction(micros) + rest)
    ensures micros != 0 ==> CharAt(text, at, '.') && DigitsAt(text, at + 1, 6, micros)
    ensures TailAt(text, if micros == 0 then at else at + 7, rest)
  {
    if micros == 0 {
      assert "" + rest == rest;
    } else {
      var digits := Padded(micros, 6);
      assert "." + digits + rest == "." + (digits + rest);
      TailChar(text, at, '.', digits + rest);
      TailDigits(text, at + 1, micros, 6, rest);
    }
  }

  /** A naive time ends with its clock. An aware one has a sign, hours and minutes after it, then seconds when the
      offset is no whole number of minutes, and a fraction when it is no whole number of seconds. */
  ghost predicate OffsetLayout(text: string, at: nat, offset: Option<int>) {
    match offset
    case None => |text| == at
    case Some(v) =>
      var micros := if v < 0 then -v else v;
      && CharAt(text, at, if v < 0 then '-' else '+')
      && DigitsAt(text, at + 1, 2, micros / 3_600_000_000)
      && CharAt(text, at + 3, ':')
      && DigitsAt(text, at + 4, 2, micros / 60_000_000 % 60)
      && (micros % 60_000_000 == 0 ==> |text| == at + 6)
      && (micros % 60_000_000 != 0 ==> CharAt(text, at + 6, ':') && DigitsAt(text, at + 7, 2, micros / 1_000_000 % 60))
      && (micros % 60_000_000 != 0 && micros % 1_000_000 == 0 ==> |text| == at + 9)
      && (micros % 1_000_000 != 0 ==>
            |text| == at + 16 && CharAt(text, at + 9, '.') && DigitsAt(text, at + 10, 6, micros % 1_000_000))
  }

  lemma Units(v: nat)
    ensures v / 1_000_000 / 3600 == v / 3_600_000_000
    ensures v / 1_000_000 / 60 == v / 60_000_000
    ensures v % 60_000_000 == v / 1_000_000 % 60 * 1_000_000 + v % 1_000_000
  {
  }

  lemma DurationLayout(text: string, at: nat, hours: nat, minutes: nat, seconds: nat, micros: nat)
    requires TailAt(text, at, IsoParts(hours, minutes, seconds, micros))
    ensures DigitsAt(text, at, 2, hours) && CharAt(text, at + 2, ':') && DigitsAt(text, at + 3, 2, minutes)
    ensures if seconds == 0 && micros == 0 then |text| == at + 5
            else CharAt(text, at + 5, ':') && DigitsAt(text, at + 6, 2, seconds) && TailAt(text, at + 8, IsoFraction(micros))
  {
    var tail := if seconds == 0 && micros == 0 then "" else ":" + (Padded(seconds, 2) + IsoFraction(micros));
    TailDigits(text, at, hours, 2, ":" + (Padded(minutes, 2) + tail));
    TailChar(text, at + 2, ':', Padded(minutes, 2) + tail);
    TailDigits(text, at + 3, minutes, 2, tail);
    if tail != "" {
      TailChar(text, at + 5, ':', Padded(seconds, 2) + IsoFraction(micros));
      TailDigits(text, at + 6, seconds, 2, IsoFraction(micros));
    }
  }

  lemma FractionEnd(text: string, at: nat, micros: nat)
    requires TailAt(text, at, IsoFraction(micros))
    ensures micros == 0 ==> |text| == at
    ensures micros != 0 ==> |text| == at + 7 && CharAt(text, at, '.') && DigitsAt(text, at + 1, 6, micros)
  {
    assert IsoFraction(micros) + "" == IsoFraction(micros);
    FractionTail(text, at, micros, "");
  }

  lemma MagnitudePrinted(text: string, at: nat, v: nat)
    requires TailAt(text, at, IsoDuration(v))
    ensures DigitsAt(text, at, 2, v / 3_600_000_000) && CharAt(text, at + 2, ':')
    ensures DigitsAt(text, at + 3, 2, v / 60_000_000 % 60)
    ensures v % 60_000_000 == 0 ==> |text| == at + 5
    ensures v % 60_000_000 != 0 ==>
      CharAt(text, at + 5, ':') && DigitsAt(text, at + 6, 2, v / 1_000_000 % 60)
      && TailAt(text, at + 8, IsoFraction(v % 1_000_000))
  {
    Units(v);
    DurationLayout(text, at, v / 1_000_000 / 3600, v / 1_000_000 / 60 % 60, v / 1_000_000 % 60, v % 1_000_000);
  }

  lemma OffsetPrinted(text: string, at: nat, offset: Option<int>)
    requires TailAt(text, at, IsoOffset(offset))
    ensures OffsetLayout(text, at, offset)
  {
    if offset.Some? {
      var v := offset.value;
      TailChar(text, at, Sign(v), IsoDuration(Magnitude(v)));
      MagnitudePrinted(text, at + 1, Magnitude(v));
      Units(Magnitude(v));
      if Magnitude(v) % 60_000_000 != 0 { FractionEnd(text, at + 9, Magnitude(v) % 1_000_000); }
    }
  }

  /** The printed form: date and clock with their separators at fixed places, a fraction of six digits exactly when
      there are microseconds, then the offset. */
  lemma IsoLayout(t: Timestamp)
    ensures var text := IsoFormat(t);
      && DigitsAt(text, 0, 4, t.year) && CharAt(text, 4, '-') && DigitsAt(text, 5, 2, t.month)
      && CharAt(text, 7, '-') && DigitsAt(text, 8, 2, t.day) && CharAt(text, 10, 'T')
      && DigitsAt(text, 11, 2, t.hour) && CharAt(text, 13, ':') && DigitsAt(text, 14, 2, t.minute)
      && CharAt(text, 16, ':') && DigitsAt(text, 17, 2, t.second)
      && (t.microsecond != 0 ==> CharAt(text, 19, '.') && DigitsAt(text, 20, 6, t.microsecond))
      && OffsetLayout(text, if t.microsecond == 0 then 19 else 26, t.offset)
  {
    DateLayout(t);
    ClockLayout(t);
    FractionTail(IsoFormat(t), 19, t.microsecond, IsoOffset(t.offset));
    OffsetPrinted(IsoFormat(t), if t.microsecond == 0 then 19 else 26, t.offset);
  }

  // ---- The calendar ----

  function DaysInYear(year: nat): nat {
    DaysIn(year, 1) + DaysIn(year, 2) + DaysIn(year, 3) + DaysIn(year, 4) + DaysIn(year, 5) + DaysIn(year, 6)
      + DaysIn(year, 7) + DaysIn(year, 8) + DaysIn(year, 9) + DaysIn(year, 10) + DaysIn(year, 11) + DaysIn(year, 12)
  }

  /** Thirty days have the fourth, sixth, ninth and eleventh month, and thirty-one the rest but the second, which has
      what is missing to 365 days, or to 366 in a leap year. */
  lemma MonthLengths(year: nat, month: nat)
    requires 1 <= month <= 12
    ensures DaysIn(year, month) == 30 <==> month == 4 || month == 6 || month == 9 || month == 11
    ensures DaysIn(year, month) < 30 <==> month == 2
    ensures DaysIn(year, month) > 30 ==> DaysIn(year, month) == 31
    ensures DaysInYear(year) == if year % 400 == 0 || (year % 4 == 0 && year % 100 != 0) then 366 else 365
  {
  }

  /** The civil times there are, and none else. */
  lemma CivilExact(c: Civil)
    ensures ValidCivil(c) <==>
      && 1 <= c.year <= 9999 && 1 <= c.month <= 12 && 1 <= c.day <= DaysIn(c.year, c.month)
      && c.hour <= 23 && c.minute <= 59 && c.second <= 59 && c.microsecond <= 999_999
      && (c.offset.Some? ==> -86_400_000_000 < c.offset.value < 86_400_000_000)
  {
  }
}
