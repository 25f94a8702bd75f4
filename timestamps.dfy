/** Python's naive datetime as far as the memory store uses it: isoformat(),
    fromisoformat() and the subtraction that calculate_recency turns into seconds
    (ISO 8601 extended complete representation of a calendar date and time of day,
    with an optional six-digit decimal fraction of the second). */
module Timestamps {
  import opened Wrappers

  predicate IsLeapYear(year: int) {
    year % 4 == 0 && (year % 100 != 0 || year % 400 == 0)
  }

  function DaysInMonth(year: int, month: int): int
    requires 1 <= month <= 12
  {
    if month == 2 then (if IsLeapYear(year) then 29 else 28)
    else if month == 4 || month == 6 || month == 9 || month == 11 then 30
    else 31
  }

  datatype DateTimeFields = DateTimeFields(
    year: int, month: int, day: int,
    hour: int, minute: int, second: int, microsecond: int)
  {
    /** The ranges datetime's constructor accepts. */
    predicate Valid() {
      && 1 <= year <= 9999
      && 1 <= month <= 12
      && 1 <= day <= DaysInMonth(year, month)
      && 0 <= hour < 24 && 0 <= minute < 60 && 0 <= second < 60
      && 0 <= microsecond < 1000000
    }
  }

  /** A naive datetime.datetime. */
  type DateTime = t: DateTimeFields | t.Valid() witness DateTimeFields(1, 1, 1, 0, 0, 0, 0)

  function Pow10(n: nat): (r: nat)
    ensures r >= 1
  {
    if n == 0 then 1 else 10 * Pow10(n - 1)
  }

  predicate IsDigit(c: char) {
    '0' <= c <= '9'
  }

  /** n written with exactly `width` decimal digits, zero padded on the left. */
  function Digits(n: nat, width: nat): (r: string)
    ensures |r| == width
    ensures forall i | 0 <= i < |r| :: IsDigit(r[i])
  {
    if width == 0 then "" else Digits(n / 10, width - 1) + [('0' as int + n % 10) as char]
  }

  /** The value of a string of decimal digits. */
  function DigitsValue(s: string): (r: nat)
    requires forall i | 0 <= i < |s| :: IsDigit(s[i])
    ensures r < Pow10(|s|)
  {
    if s == [] then 0
    else
      assert IsDigit(s[|s| - 1]);
      10 * DigitsValue(s[..|s| - 1]) + (s[|s| - 1] as int - '0' as int)
  }

  lemma {:induction false} DigitsValueOfDigits(n: nat, width: nat)
    requires n < Pow10(width)
    ensures DigitsValue(Digits(n, width)) == n
  {
    if width > 0 {
      DigitsValueOfDigits(n / 10, width - 1);
      var s := Digits(n, width);
      assert s[..|s| - 1] == Digits(n / 10, width - 1);
    }
  }

  /** datetime.isoformat(): YYYY-MM-DDTHH:MM:SS, followed by .ffffff only when
      the microsecond is not zero. */
  function IsoFormat(t: DateTime): string {
    Digits(t.year, 4) + "-" + Digits(t.month, 2) + "-" + Digits(t.day, 2) + "T"
    + Digits(t.hour, 2) + ":" + Digits(t.minute, 2) + ":" + Digits(t.second, 2)
    + (if t.microsecond != 0 then "." + Digits(t.microsecond, 6) else "")
  }

  predicate AllDigits(s: string) {
    forall i | 0 <= i < |s| :: IsDigit(s[i])
  }

  /** The digits at s[lo..hi], if they are all digits. */
  function Field(s: string, lo: nat, hi: nat): Option<nat>
    requires lo <= hi <= |s|
  {
    if AllDigits(s[lo..hi]) then Some(DigitsValue(s[lo..hi])) else None
  }

  /** The string shapes isoformat() produces: a date, one separator character,
      a time of day and, in the 26-character form, a six-digit fraction. */
  predicate IsoShape(s: string) {
    && (|s| == 19 || (|s| == 26 && s[19] == '.'))
    && s[4] == '-' && s[7] == '-' && s[13] == ':' && s[16] == ':'
  }

  /** datetime.fromisoformat() on the two shapes isoformat() writes; None
      stands for ValueError. fromisoformat also accepts shorter forms (a date
      alone, hours and minutes, three-digit fractions, a UTC offset), which
      this model treats as ValueError too. */
  function ParseIso(s: string): (r: Option<DateTime>)
    ensures r.Some? ==> IsoShape(s)
  {
    if !IsoShape(s) then None
    else
      match (Field(s, 0, 4), Field(s, 5, 7), Field(s, 8, 10), Field(s, 11, 13),
             Field(s, 14, 16), Field(s, 17, 19), if |s| == 26 then Field(s, 20, 26) else Some(0))
      case (Some(year), Some(month), Some(day), Some(hour), Some(minute), Some(second), Some(micro)) =>
        var t := DateTimeFields(year, month, day, hour, minute, second, micro);
        if t.Valid() then Some(t) else None
      case _ => None
  }

  lemma FieldOfDigits(s: string, lo: nat, hi: nat, n: nat)
    requires lo <= hi <= |s| && s[lo..hi] == Digits(n, hi - lo) && n < Pow10(hi - lo)
    ensures Field(s, lo, hi) == Some(n)
  {
    DigitsValueOfDigits(n, hi - lo);
  }

  lemma IsoFormatShape(t: DateTime)
    ensures var s := IsoFormat(t);
      && |s| == (if t.microsecond != 0 then 26 else 19)
      && IsoShape(s) && s[10] == 'T'
      && s[0..4] == Digits(t.year, 4) && s[5..7] == Digits(t.month, 2) && s[8..10] == Digits(t.day, 2)
      && s[11..13] == Digits(t.hour, 2) && s[14..16] == Digits(t.minute, 2) && s[17..19] == Digits(t.second, 2)
      && (t.microsecond != 0 ==> s[20..26] == Digits(t.microsecond, 6))
  {
  }

  /** A string of the ISO shape whose fields read as those of `t` parses to `t`. */
  lemma ParseIsoOfFields(s: string, t: DateTime)
    requires IsoShape(s) && |s| == (if t.microsecond != 0 then 26 else 19)
    requires Field(s, 0, 4) == Some(t.year) && Field(s, 5, 7) == Some(t.month) && Field(s, 8, 10) == Some(t.day)
    requires Field(s, 11, 13) == Some(t.hour) && Field(s, 14, 16) == Some(t.minute) && Field(s, 17, 19) == Some(t.second)
    requires |s| == 26 ==> Field(s, 20, 26) == Some(t.microsecond)
    ensures ParseIso(s) == Some(t)
  {
  }

  lemma DateFieldsOfLayout(s: string, t: DateTime)
    requires |s| >= 10
    requires s[0..4] == Digits(t.year, 4) && s[5..7] == Digits(t.month, 2) && s[8..10] == Digits(t.day, 2)
    ensures Field(s, 0, 4) == Some(t.year) && Field(s, 5, 7) == Some(t.month) && Field(s, 8, 10) == Some(t.day)
  {
    assert Pow10(2) == 100 && Pow10(4) == 10000;
    FieldOfDigits(s, 0, 4, t.year);
    FieldOfDigits(s, 5, 7, t.month);
    FieldOfDigits(s, 8, 10, t.day);
  }

  lemma TimeFieldsOfLayout(s: string, t: DateTime)
    requires |s| >= 19
    requires s[11..13] == Digits(t.hour, 2) && s[14..16] == Digits(t.minute, 2) && s[17..19] == Digits(t.second, 2)
    ensures Field(s, 11, 13) == Some(t.hour) && Field(s, 14, 16) == Some(t.minute) && Field(s, 17, 19) == Some(t.second)
  {
    assert Pow10(2) == 100;
    FieldOfDigits(s, 11, 13, t.hour);
    FieldOfDigits(s, 14, 16, t.minute);
    FieldOfDigits(s, 17, 19, t.second);
  }

  /** A string laid out as isoformat lays out `t` parses to `t`. */
  lemma ParseIsoOfLayout(s: string, t: DateTime)
    requires |s| == (if t.microsecond != 0 then 26 else 19) && IsoShape(s)
    requires s[0..4] == Digits(t.year, 4) && s[5..7] == Digits(t.month, 2) && s[8..10] == Digits(t.day, 2)
    requires s[11..13] == Digits(t.hour, 2) && s[14..16] == Digits(t.minute, 2) && s[17..19] == Digits(t.second, 2)
    requires t.microsecond != 0 ==> s[20..26] == Digits(t.microsecond, 6)
    ensures ParseIso(s) == Some(t)
  {
    DateFieldsOfLayout(s, t);
    TimeFieldsOfLayout(s, t);
    if t.microsecond != 0 {
      assert Pow10(6) == 1000000;
      FieldOfDigits(s, 20, 26, t.microsecond);
    }
    ParseIsoOfFields(s, t);
  }

  /** fromisoformat undoes isoformat. */
  lemma ParseIsoOfIsoFormat(t: DateTime)
    ensures ParseIso(IsoFormat(t)) == Some(t)
  {
    IsoFormatShape(t);
    ParseIsoOfLayout(IsoFormat(t), t);
  }

  /** Distinct datetimes have distinct ISO strings. */
  lemma IsoFormatInjective(a: DateTime, b: DateTime)
    ensures IsoFormat(a) == IsoFormat(b) <==> a == b
  {
    if IsoFormat(a) == IsoFormat(b) {
      ParseIsoOfIsoFormat(a);
      ParseIsoOfIsoFormat(b);
    }
  }

  /** Days in the years before `year` (datetime's proleptic Gregorian ordinal). */
  function DaysBeforeYear(year: int): int
    requires year >= 1
  {
    var p := year - 1;
    365 * p + p / 4 - p / 100 + p / 400
  }

  function DaysBeforeMonth(year: int, month: int): int
    requires 1 <= month <= 12
    decreases month
  {
    if month == 1 then 0 else DaysBeforeMonth(year, month - 1) + DaysInMonth(year, month - 1)
  }

  /** datetime.toordinal(): 1 for 0001-01-01. */
  function Ordinal(t: DateTime): int {
    DaysBeforeYear(t.year) + DaysBeforeMonth(t.year, t.month) + t.day
  }

  /** The instant as a count of microseconds, the unit timedelta keeps. */
  function Microseconds(t: DateTime): int {
    (((Ordinal(t) * 24 + t.hour) * 60 + t.minute) * 60 + t.second) * 1000000 + t.microsecond
  }

  /** (later - earlier).total_seconds() */
  function TotalSeconds(later: DateTime, earlier: DateTime): (r: real)
    ensures later == earlier ==> r == 0.0
    ensures Microseconds(later) > Microseconds(earlier) ==> r > 0.0
  {
    (Microseconds(later) - Microseconds(earlier)) as real / 1000000.0
  }
}
