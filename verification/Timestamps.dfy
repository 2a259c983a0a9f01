/** Timestamps as `datetime.isoformat()` shows them: a civil time and an optional UTC offset. */
module Timestamps {
  import opened Wrappers
  import opened Decimal

  datatype Civil = Civil(
    year: nat, month: nat, day: nat,
    hour: nat, minute: nat, second: nat, microsecond: nat,
    /** The UTC offset in microseconds; absent for a naive value. */
    offset: Option<int>)

  const MICROSECONDS_PER_SECOND := 1_000_000
  const MICROSECONDS_PER_DAY := 86_400_000_000

  predicate IsLeap(year: nat) {
    year % 4 == 0 && (year % 100 != 0 || year % 400 == 0)
  }

  function DaysIn(year: nat, month: nat): nat {
    if month == 2 then (if IsLeap(year) then 29 else 28)
    else if month in {4, 6, 9, 11} then 30
    else 31
  }

  predicate ValidCivil(c: Civil) {
    && 1 <= c.year <= 9999 && 1 <= c.month <= 12 && 1 <= c.day <= DaysIn(c.year, c.month)
    && c.hour < 24 && c.minute < 60 && c.second < 60 && c.microsecond < MICROSECONDS_PER_SECOND
    && (c.offset.Some? ==> -MICROSECONDS_PER_DAY < c.offset.value < MICROSECONDS_PER_DAY)
  }

  type Timestamp = c: Civil | ValidCivil(c) witness Civil(1, 1, 1, 0, 0, 0, 0, None)

  /** `datetime.isoformat()`. */
  function IsoFormat(t: Timestamp): string {
    Padded(t.year, 4) + ("-" + (Padded(t.month, 2) + ("-" + (Padded(t.day, 2) + ("T" + IsoClock(t))))))
  }

  function IsoClock(t: Timestamp): string {
    Padded(t.hour, 2) + (":" + (Padded(t.minute, 2) + (":" + (Padded(t.second, 2)
      + (IsoFraction(t.microsecond) + IsoOffset(t.offset))))))
  }

  function IsoFraction(microsecond: nat): string {
    if microsecond == 0 then "" else "." + Padded(microsecond, 6)
  }

  function IsoOffset(offset: Option<int>): string {
    match offset
    case None => ""
    case Some(v) => [Sign(v)] + IsoDuration(Magnitude(v))
  }

  function Sign(v: int): char { if v < 0 then '-' else '+' }

  function Magnitude(v: int): nat { if v < 0 then -v else v }

  function IsoDuration(v: nat): string {
    var seconds := v / MICROSECONDS_PER_SECOND;
    IsoParts(seconds / 3600, seconds / 60 % 60, seconds % 60, v % MICROSECONDS_PER_SECOND)
  }

  /** Seconds only when there are some, and microseconds only when there are some. */
  function IsoParts(hours: nat, minutes: nat, seconds: nat, micros: nat): string {
    Padded(hours, 2) + (":" + (Padded(minutes, 2)
      + (if seconds == 0 && micros == 0 then "" else ":" + (Padded(seconds, 2) + IsoFraction(micros)))))
  }

  function TakeChar(s: string, c: char): Option<string> {
    if s != "" && s[0] == c then Some(s[1..]) else None
  }

  function TakeFraction(s: string): Option<(nat, string)> {
    if s != "" && s[0] == '.' then TakeDigits(s[1..], 6) else Some((0, s))
  }

  function ReadDuration(s: string): Option<nat> {
    var (hours, s1) :- TakeDigits(s, 2);
    var s2 :- TakeChar(s1, ':');
    var (minutes, s3) :- TakeDigits(s2, 2);
    if s3 == "" then Some(Microseconds(hours, minutes, 0, 0))
    else
      var s4 :- TakeChar(s3, ':');
      var (seconds, s5) :- TakeDigits(s4, 2);
      var (micros, s6) :- TakeFraction(s5);
      if s6 != "" then None
      else Some(Microseconds(hours, minutes, seconds, micros))
  }

  function Microseconds(hours: nat, minutes: nat, seconds: nat, micros: nat): nat {
    (hours * 3600 + minutes * 60 + seconds) * MICROSECONDS_PER_SECOND + micros
  }

  function ReadOffset(s: string): Option<Option<int>> {
    if s == "" then Some(None)
    else if s == "Z" then Some(Some(0))
    else if s[0] == '+' then
      var v :- ReadDuration(s[1..]);
      Some(Some(v))
    else if s[0] == '-' then
      var v :- ReadDuration(s[1..]);
      Some(Some(-(v as int)))
    else None
  }

  function ReadClock(year: nat, month: nat, day: nat, s: string): Option<Timestamp> {
    var (hour, s1) :- TakeDigits(s, 2);
    var s2 :- TakeChar(s1, ':');
    var (minute, s3) :- TakeDigits(s2, 2);
    var s4 :- TakeChar(s3, ':');
    var (second, s5) :- TakeDigits(s4, 2);
    var (micros, s6) :- TakeFraction(s5);
    var offset :- ReadOffset(s6);
    var c := Civil(year, month, day, hour, minute, second, micros, offset);
    if ValidCivil(c) then Some(c) else None
  }

  /** `datetime.fromisoformat`, on the extended form: more lenient than the printer, since any
      separator, a `Z` suffix and a zero fraction are all accepted. */
  function FromIsoFormat(text: string): Option<Timestamp> {
    var (year, s1) :- TakeDigits(text, 4);
    var s2 :- TakeChar(s1, '-');
    var (month, s3) :- TakeDigits(s2, 2);
    var s4 :- TakeChar(s3, '-');
    var (day, s5) :- TakeDigits(s4, 2);
    if s5 == "" then None else ReadClock(year, month, day, s5[1..])
  }

  /** `_parse_observed_at`: read, print again, and accept only an unchanged text. */
  function ParseObservedAt(text: string): Option<Timestamp> {
    var t :- FromIsoFormat(text);
    if IsoFormat(t) == text then Some(t) else None
  }

  lemma PowersOfTen()
    ensures Pow10(2) == 100 && Pow10(4) == 10_000 && Pow10(6) == 1_000_000
  {
    assert Pow10(1) == 10 && Pow10(2) == 100 && Pow10(3) == 1000;
    assert Pow10(4) == 10_000 && Pow10(5) == 100_000;
  }

  lemma TakeCharPrinted(c: char, rest: string)
    ensures TakeChar([c] + rest, c) == Some(rest)
  {
    assert ([c] + rest)[1..] == rest;
  }

  lemma TakeFractionPrinted(micros: nat, rest: string)
    requires micros < MICROSECONDS_PER_SECOND
    requires rest == "" || rest[0] != '.'
    ensures TakeFraction(IsoFraction(micros) + rest) == Some((micros, rest))
  {
    PowersOfTen();
    if micros > 0 {
      var digits := Padded(micros, 6);
      assert ("." + digits + rest)[1..] == digits + rest;
      TakePadded(micros, 6, rest);
    } else {
      assert "" + rest == rest;
    }
  }

  lemma PartsRoundTrip(hours: nat, minutes: nat, seconds: nat, micros: nat)
    requires hours < 100 && minutes < 100 && seconds < 100 && micros < MICROSECONDS_PER_SECOND
    ensures ReadDuration(IsoParts(hours, minutes, seconds, micros))
         == Some(Microseconds(hours, minutes, seconds, micros))
  {
    PowersOfTen();
    var tail := if seconds == 0 && micros == 0 then "" else ":" + (Padded(seconds, 2) + IsoFraction(micros));
    TakePadded(hours, 2, ":" + (Padded(minutes, 2) + tail));
    TakeCharPrinted(':', Padded(minutes, 2) + tail);
    TakePadded(minutes, 2, tail);
    if tail != "" {
      TakeCharPrinted(':', Padded(seconds, 2) + IsoFraction(micros));
      TakePadded(seconds, 2, IsoFraction(micros));
      TakeWholeFraction(micros);
    }
  }

  lemma TakeWholeFraction(micros: nat)
    requires micros < MICROSECONDS_PER_SECOND
    ensures TakeFraction(IsoFraction(micros)) == Some((micros, ""))
  {
    TakeFractionPrinted(micros, "");
    assert IsoFraction(micros) + "" == IsoFraction(micros);
  }

  lemma DurationRoundTrip(v: nat)
    requires v < MICROSECONDS_PER_DAY
    ensures ReadDuration(IsoDuration(v)) == Some(v)
  {
    DurationSplit(v);
    var seconds := v / MICROSECONDS_PER_SECOND;
    PartsRoundTrip(seconds / 3600, seconds / 60 % 60, seconds % 60, v % MICROSECONDS_PER_SECOND);
  }

  lemma DurationSplit(v: nat)
    ensures var seconds := v / MICROSECONDS_PER_SECOND;
      Microseconds(seconds / 3600, seconds / 60 % 60, seconds % 60, v % MICROSECONDS_PER_SECOND) == v
    ensures v < MICROSECONDS_PER_DAY ==> v / MICROSECONDS_PER_SECOND / 3600 < 24
  {
  }

  lemma SignedRoundTrip(sign: char, v: nat)
    requires v < MICROSECONDS_PER_DAY && sign in {'+', '-'}
    ensures ReadOffset([sign] + IsoDuration(v)) == Some(Some(if sign == '+' then v as int else -(v as int)))
  {
    DurationRoundTrip(v);
    var s := [sign] + IsoDuration(v);
    assert s[0] == sign && s[1..] == IsoDuration(v);
    assert s != "Z" by { assert "Z"[0] == 'Z'; }
  }

  lemma OffsetRoundTrip(offset: Option<int>)
    requires offset.Some? ==> -MICROSECONDS_PER_DAY < offset.value < MICROSECONDS_PER_DAY
    ensures ReadOffset(IsoOffset(offset)) == Some(offset)
    ensures IsoOffset(offset) == "" || IsoOffset(offset)[0] != '.'
  {
    if offset.Some? {
      SignedRoundTrip(Sign(offset.value), Magnitude(offset.value));
    }
  }

  lemma ClockRoundTrip(t: Timestamp)
    ensures ReadClock(t.year, t.month, t.day, IsoClock(t)) == Some(t)
  {
    PowersOfTen();
    OffsetRoundTrip(t.offset);
    var tail := IsoFraction(t.microsecond) + IsoOffset(t.offset);
    var seconds := Padded(t.second, 2) + tail;
    var minutes := Padded(t.minute, 2) + (":" + seconds);
    TakePadded(t.hour, 2, ":" + minutes);
    TakeCharPrinted(':', minutes);
    TakePadded(t.minute, 2, ":" + seconds);
    TakeCharPrinted(':', seconds);
    TakePadded(t.second, 2, tail);
    TakeFractionPrinted(t.microsecond, IsoOffset(t.offset));
  }

  /** Reading undoes printing. */
  lemma IsoRoundTrip(t: Timestamp)
    ensures FromIsoFormat(IsoFormat(t)) == Some(t)
  {
    PowersOfTen();
    var clock := "T" + IsoClock(t);
    var day := Padded(t.day, 2) + clock;
    var month := Padded(t.month, 2) + ("-" + day);
    TakePadded(t.year, 4, "-" + month);
    TakeCharPrinted('-', month);
    TakePadded(t.month, 2, "-" + day);
    TakeCharPrinted('-', day);
    TakePadded(t.day, 2, clock);
    assert clock[1..] == IsoClock(t);
    ClockRoundTrip(t);
  }

  /** Timestamps that print alike are equal, so comparing them through their text loses nothing. */
  lemma IsoFormatInjective(t: Timestamp, u: Timestamp)
    requires IsoFormat(t) == IsoFormat(u)
    ensures t == u
  {
    IsoRoundTrip(t);
    IsoRoundTrip(u);
  }

  /** A text is accepted exactly when it is some timestamp's printed form, and then as that timestamp. */
  lemma ObservedAtExact(text: string, t: Timestamp)
    ensures ParseObservedAt(text) == Some(t) <==> IsoFormat(t) == text
  {
    if IsoFormat(t) == text { IsoRoundTrip(t); }
  }
}
