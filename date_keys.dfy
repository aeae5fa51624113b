/**
 * formatDate and the three-day window of handleRequest: a time value in
 * milliseconds becomes the text Date.prototype.toISOString gives for it,
 * cut at the first 'T' and stripped of every '-'.
 */
module DateKeys {
  import opened Options
  import opened Decimal
  import opened Calendar

  const MsPerDay := 86400000

  /** The largest magnitude a Date's time value may have (ECMA-262 TimeClip). */
  const MaxTimeValue := 8640000000000000

  predicate ValidTime(t: int) {
    -MaxTimeValue <= t <= MaxTimeValue
  }

  /** ECMA-262 Day(t): floor(t / msPerDay); Dafny's division by a positive divisor floors. */
  function Day(t: int): int {
    t / MsPerDay
  }

  function TimeWithinDay(t: int): (ms: int)
    ensures 0 <= ms < MsPerDay && t == Day(t) * MsPerDay + ms
  {
    t % MsPerDay
  }

  /** The year field of toISOString: four digits, or a sign and six digits outside 0..9999. */
  function YearText(y: int): (r: string)
    ensures 0 <= y <= 9999 ==> |r| == 4 && AllDigits(r)
    ensures !(0 <= y <= 9999) ==> |r| >= 7 && (r[0] == '-' <==> y < 0) && AllDigits(r[1..])
    ensures 0 <= y <= 9999 ==> NatValue(r) == y
    ensures !(0 <= y <= 9999) ==> NatValue(r[1..]) == if y < 0 then -y else y
    ensures y > 9999 ==> r[0] == '+'
    ensures !(0 <= y <= 9999) && -1000000 < y < 1000000 ==> |r| == 7
  {
    if 0 <= y <= 9999 then
      assert Pow10(4) == 10000;
      PadWidth(y, 4);
      NatValueOfPad(y, 4);
      Pad(y, 4)
    else
      var m := if y < 0 then -y else y;
      var r := (if y < 0 then "-" else "+") + Pad(m, 6);
      assert r[1..] == Pad(m, 6);
      NatValueOfPad(m, 6);
      assert Pow10(6) == 1000000;
      if m < 1000000 then PadWidth(m, 6); r else r
  }

  /** The calendar part of toISOString: year, month and day separated by '-'. */
  function IsoDatePart(d: Date): string
    requires ValidDate(d)
  {
    YearText(d.year) + "-" + Pad(d.month, 2) + "-" + Pad(d.day, 2)
  }

  /** The clock part of toISOString, after the 'T'. */
  function IsoTimePart(ms: int): string
    requires 0 <= ms < MsPerDay
  {
    Pad(ms / 3600000, 2) + ":" + Pad(ms / 60000 % 60, 2) + ":" + Pad(ms / 1000 % 60, 2)
      + "." + Pad(ms % 1000, 3) + "Z"
  }

  /** Date.prototype.toISOString of a Date whose time value is t. */
  function IsoString(t: int): string
    requires ValidTime(t)
  {
    IsoDatePart(CivilFromDays(Day(t))) + "T" + IsoTimePart(TimeWithinDay(t))
  }

  /**
   * The shape toISOString promises: YYYY-MM-DDTHH:mm:ss.sssZ, 24 characters
   * with the 'T' at index 10, for the years 0..9999; a longer text with a
   * six-digit signed year outside them.
   */
  lemma IsoStringShape(t: int)
    requires ValidTime(t)
    ensures var d, iso := CivilFromDays(Day(t)), IsoString(t);
      (0 <= d.year <= 9999 ==> |iso| == 24 && iso[10] == 'T')
      && (!(0 <= d.year <= 9999) ==> |iso| >= 27)
      && iso[|iso| - 1] == 'Z'
  {
    var ms := TimeWithinDay(t);
    var d := CivilFromDays(Day(t));
    assert Pow10(2) == 100 && Pow10(3) == 1000;
    PadWidth(d.month, 2);
    PadWidth(d.day, 2);
    PadWidth(ms / 3600000, 2);
    PadWidth(ms / 60000 % 60, 2);
    PadWidth(ms / 1000 % 60, 2);
    PadWidth(ms % 1000, 3);
    assert |IsoTimePart(ms)| == 13;
    assert |IsoDatePart(d)| == |YearText(d.year)| + 6;
  }

  /** s.split(c)[0]: the text before the first c, or all of s when there is none. */
  function BeforeFirst(s: string, c: char): (r: string)
    ensures r <= s && c !in r
    ensures |r| < |s| ==> s[|r|] == c
  {
    if s == [] || s[0] == c then [] else [s[0]] + BeforeFirst(s[1..], c)
  }

  /** s.replace(/c/g, ""): s with every c taken out, the rest in order. */
  function RemoveAll(s: string, c: char): (r: string)
    ensures c !in r && |r| <= |s|
    ensures |r| == |s| - multiset(s)[c]
  {
    if s == [] then []
    else
      assert s == [s[0]] + s[1..];
      (if s[0] == c then [] else [s[0]]) + RemoveAll(s[1..], c)
  }

  /**
   * formatDate(ms); None is the RangeError toISOString throws for a time
   * value outside the Date range.
   */
  function FormatDate(t: int): (r: Option<string>)
    ensures r.Some? <==> ValidTime(t)
    ensures r.Some? ==> '-' !in r.value
  {
    if ValidTime(t) then Some(RemoveAll(BeforeFirst(IsoString(t), 'T'), '-')) else None
  }

  /** The YYYYMMDD key of a date, as the provider's per-day resources are named. */
  function DateKey(d: Date): string
    requires ValidDate(d) && 0 <= d.year
  {
    Pad(d.year, 4) + Pad(d.month, 2) + Pad(d.day, 2)
  }

  /** Reads a YYYYMMDD key back into its year, month and day. */
  function KeyDate(k: string): Date
    requires |k| == 8 && AllDigits(k)
  {
    Date(NatValue(k[..4]), NatValue(k[4..6]), NatValue(k[6..]))
  }

  lemma {:induction false} BeforeFirstAppend(a: string, c: char, b: string)
    requires c !in a
    ensures BeforeFirst(a + [c] + b, c) == a
  {
    if a != [] {
      assert (a + [c] + b)[1..] == a[1..] + [c] + b;
      BeforeFirstAppend(a[1..], c, b);
    }
  }

  lemma {:induction false} RemoveAllAppend(a: string, b: string, c: char)
    ensures RemoveAll(a + b, c) == RemoveAll(a, c) + RemoveAll(b, c)
  {
    if a != [] {
      assert (a + b)[1..] == a[1..] + b;
      RemoveAllAppend(a[1..], b, c);
    } else {
      assert a + b == b;
    }
  }

  lemma {:induction false} RemoveAllAbsent(s: string, c: char)
    requires c !in s
    ensures RemoveAll(s, c) == s
  {
    if s != [] {
      RemoveAllAbsent(s[1..], c);
    }
  }

  lemma DigitsHaveNoSeparators(s: string)
    requires AllDigits(s)
    ensures '-' !in s && 'T' !in s
  {
  }

  lemma YearTextHasNoT(y: int)
    ensures 'T' !in YearText(y)
  {
    if 0 <= y <= 9999 {
      DigitsHaveNoSeparators(Pad(y, 4));
    } else if y < 0 {
      DigitsHaveNoSeparators(Pad(-y, 6));
      assert YearText(y) == ['-'] + Pad(-y, 6);
    } else {
      DigitsHaveNoSeparators(Pad(y, 6));
      assert YearText(y) == ['+'] + Pad(y, 6);
    }
  }

  /** Taking the '-' out of the calendar part leaves the year text's digits, then MM and DD. */
  lemma RemoveSeparators(d: Date)
    requires ValidDate(d)
    ensures 'T' !in IsoDatePart(d)
    ensures RemoveAll(IsoDatePart(d), '-') == RemoveAll(YearText(d.year), '-') + Pad(d.month, 2) + Pad(d.day, 2)
  {
    var y, m, dd := YearText(d.year), Pad(d.month, 2), Pad(d.day, 2);
    DigitsHaveNoSeparators(m);
    DigitsHaveNoSeparators(dd);
    YearTextHasNoT(d.year);
    var a := y + "-";
    var b := a + m;
    var c := b + "-";
    assert IsoDatePart(d) == c + dd;
    assert RemoveAll("-", '-') == [];
    RemoveAllAbsent(m, '-');
    RemoveAllAbsent(dd, '-');
    RemoveAllAppend(y, "-", '-');
    assert RemoveAll(a, '-') == RemoveAll(y, '-');
    RemoveAllAppend(a, m, '-');
    assert RemoveAll(b, '-') == RemoveAll(y, '-') + m;
    RemoveAllAppend(b, "-", '-');
    assert RemoveAll(c, '-') == RemoveAll(y, '-') + m;
    RemoveAllAppend(c, dd, '-');
  }

  /** What formatDate keeps of toISOString: the date part with its separators removed. */
  lemma FormatDateOfIso(t: int)
    requires ValidTime(t)
    ensures var d := CivilFromDays(Day(t));
      FormatDate(t) == Some(RemoveAll(YearText(d.year), '-') + Pad(d.month, 2) + Pad(d.day, 2))
  {
    var d := CivilFromDays(Day(t));
    RemoveSeparators(d);
    BeforeFirstAppend(IsoDatePart(d), 'T', IsoTimePart(TimeWithinDay(t)));
  }

  /** The key of a date in the years 0..9999 is eight digits that read back as that date. */
  lemma DateKeyRoundTrip(d: Date)
    requires ValidDate(d) && 0 <= d.year <= 9999
    ensures |DateKey(d)| == 8 && AllDigits(DateKey(d)) && KeyDate(DateKey(d)) == d
  {
    var k := DateKey(d);
    assert Pow10(4) == 10000 && Pow10(2) == 100;
    PadWidth(d.year, 4);
    PadWidth(d.month, 2);
    PadWidth(d.day, 2);
    assert k[..4] == Pad(d.year, 4);
    assert k[4..6] == Pad(d.month, 2);
    assert k[6..] == Pad(d.day, 2);
    NatValueOfPad(d.year, 4);
    NatValueOfPad(d.month, 2);
    NatValueOfPad(d.day, 2);
  }

  /** Without its '-', the year text is four characters exactly for the years 0..9999. */
  lemma YearTextLength(y: int)
    ensures |RemoveAll(YearText(y), '-')| == 4 <==> 0 <= y <= 9999
  {
    assert Pow10(4) == 10000;
    if 0 <= y <= 9999 {
      var t := Pad(y, 4);
      PadWidth(y, 4);
      DigitsHaveNoSeparators(t);
      RemoveAllAbsent(t, '-');
    } else {
      var t := if y < 0 then Pad(-y, 6) else Pad(y, 6);
      var sign := if y < 0 then "-" else "+";
      assert YearText(y) == sign + t;
      DigitsHaveNoSeparators(t);
      RemoveAllAppend(sign, t, '-');
      RemoveAllAbsent(t, '-');
      assert |t| >= 6;
    }
  }

  /** The text formatDate builds from a date is eight long exactly for the years 0..9999. */
  lemma KeyTextLength(d: Date)
    requires ValidDate(d)
    ensures |RemoveAll(YearText(d.year), '-') + Pad(d.month, 2) + Pad(d.day, 2)| == 8 <==> 0 <= d.year <= 9999
  {
    assert Pow10(2) == 100;
    PadWidth(d.month, 2);
    PadWidth(d.day, 2);
    YearTextLength(d.year);
  }

  /**
   * For the years 0..9999 formatDate yields exactly eight digits, and they
   * spell the UTC calendar date of the time value.
   */
  lemma FormatDateIsKey(t: int)
    requires ValidTime(t) && 0 <= CivilFromDays(Day(t)).year <= 9999
    ensures var d := CivilFromDays(Day(t));
      FormatDate(t) == Some(DateKey(d))
      && |DateKey(d)| == 8 && AllDigits(DateKey(d))
      && KeyDate(DateKey(d)) == d
  {
    var d := CivilFromDays(Day(t));
    FormatDateOfIso(t);
    DigitsHaveNoSeparators(Pad(d.year, 4));
    RemoveAllAbsent(Pad(d.year, 4), '-');
    DateKeyRoundTrip(d);
  }

  /** Every time value in the Date range falls in a year within ±999999, so its extended year has six digits. */
  lemma ValidTimeYearBound(t: int)
    requires ValidTime(t)
    ensures -1000000 < CivilFromDays(Day(t)).year < 1000000
    ensures |YearText(CivilFromDays(Day(t)).year)| == if 0 <= CivilFromDays(Day(t)).year <= 9999 then 4 else 7
  {
    var z := Day(t);
    var y := CivilFromDays(z).year;
    assert y == YearFromDay(z);
    assert -100000000 <= z <= 100000000;
    assert DayFromYear(y) <= z < DayFromYear(y + 1);
    if y >= 1000000 || y <= -1000000 {
      assert false;
    }
  }

  /** Removing '-' from a sign followed by digits drops the sign exactly when it is '-'. */
  lemma RemoveSignedMinus(r: string)
    requires |r| >= 1 && AllDigits(r[1..])
    ensures RemoveAll(r, '-') == if r[0] == '-' then r[1..] else r
  {
    DigitsHaveNoSeparators(r[1..]);
    RemoveAllAbsent(r[1..], '-');
    assert RemoveAll(r, '-') == (if r[0] == '-' then [] else [r[0]]) + RemoveAll(r[1..], '-');
    assert r == [r[0]] + r[1..];
  }

  /** Removing '-' from an extended year leaves '+' and six digits, or six digits alone. */
  lemma YearTextWithoutMinus(y: int)
    requires !(0 <= y <= 9999)
    ensures y > 9999 ==> RemoveAll(YearText(y), '-') == "+" + Pad(y, 6)
    ensures y < 0 ==> RemoveAll(YearText(y), '-') == Pad(-y, 6)
  {
    var r := YearText(y);
    RemoveSignedMinus(r);
    if y > 9999 {
      assert r == "+" + Pad(y, 6);
    } else {
      assert r == "-" + Pad(-y, 6);
      assert r[1..] == Pad(-y, 6);
    }
  }

  /**
   * Outside the years 0..9999 the key keeps the '+' of a positive extended
   * year, but the removal of every '-' also takes away the sign of a negative one.
   */
  lemma FormatDateExtendedYear(t: int)
    requires ValidTime(t)
    ensures var d := CivilFromDays(Day(t));
      (d.year > 9999 ==> FormatDate(t) == Some("+" + Pad(d.year, 6) + Pad(d.month, 2) + Pad(d.day, 2)))
      && (d.year < 0 ==> FormatDate(t) == Some(Pad(-d.year, 6) + Pad(d.month, 2) + Pad(d.day, 2)))
  {
    var d := CivilFromDays(Day(t));
    FormatDateOfIso(t);
    if !(0 <= d.year <= 9999) {
      YearTextWithoutMinus(d.year);
    }
  }

  /** The key is eight characters long exactly for the years 0..9999. */
  lemma FormatDateLength(t: int)
    requires ValidTime(t)
    ensures |FormatDate(t).value| == 8 <==> 0 <= CivilFromDays(Day(t)).year <= 9999
  {
    FormatDateOfIso(t);
    KeyTextLength(CivilFromDays(Day(t)));
  }

  /** Day z falls in a year the key format writes with four digits. */
  predicate FourDigitYear(z: int) {
    0 <= CivilFromDays(z).year <= 9999
  }

  /** The keys for yesterday, today and tomorrow (handleRequest's dates). */
  function DateWindow(nowMs: int): (r: Option<seq<string>>)
    ensures r.Some? <==> ValidTime(nowMs - MsPerDay) && ValidTime(nowMs + MsPerDay)
    ensures r.Some? ==> |r.value| == 3
  {
    if ValidTime(nowMs - MsPerDay) && ValidTime(nowMs + MsPerDay) then
      Some([FormatDate(nowMs - MsPerDay).value, FormatDate(nowMs).value, FormatDate(nowMs + MsPerDay).value])
    else None
  }

  /** k is an eight-digit key that reads back as a real date, the one of day z. */
  predicate NamesDay(k: string, z: int) {
    |k| == 8 && AllDigits(k) && ValidDate(KeyDate(k)) && DaysFromCivil(KeyDate(k)) == z
  }

  /** A key of a four-digit year reads back as the very day it was made from. */
  lemma KeyOfDay(t: int)
    requires ValidTime(t) && FourDigitYear(Day(t))
    ensures FormatDate(t).Some? && NamesDay(FormatDate(t).value, Day(t))
  {
    FormatDateIsKey(t);
  }

  /** Keys of consecutive days are in chronological order. */
  lemma NamesDayOrder(k1: string, k2: string, z: int)
    requires NamesDay(k1, z) && NamesDay(k2, z + 1)
    ensures DateBefore(KeyDate(k1), KeyDate(k2))
  {
    CivilFromDaysOfCivil(KeyDate(k1));
    CivilFromDaysOfCivil(KeyDate(k2));
    CivilFromDaysOrder(z, z + 1);
  }

  /**
   * The window's keys name three consecutive UTC days, the one holding nowMs
   * in the middle, and so come in chronological order: yesterday, today, tomorrow.
   */
  lemma DateWindowDays(nowMs: int)
    requires ValidTime(nowMs - MsPerDay) && ValidTime(nowMs + MsPerDay)
    requires FourDigitYear(Day(nowMs) - 1) && FourDigitYear(Day(nowMs)) && FourDigitYear(Day(nowMs) + 1)
    ensures var keys := DateWindow(nowMs).value;
      NamesDay(keys[0], Day(nowMs) - 1) && NamesDay(keys[1], Day(nowMs)) && NamesDay(keys[2], Day(nowMs) + 1)
    ensures var keys := DateWindow(nowMs).value;
      DateBefore(KeyDate(keys[0]), KeyDate(keys[1])) && DateBefore(KeyDate(keys[1]), KeyDate(keys[2]))
  {
    var z := Day(nowMs);
    assert Day(nowMs - MsPerDay) == z - 1 && Day(nowMs + MsPerDay) == z + 1;
    KeyOfDay(nowMs - MsPerDay);
    KeyOfDay(nowMs);
    KeyOfDay(nowMs + MsPerDay);
    var keys := DateWindow(nowMs).value;
    NamesDayOrder(keys[0], keys[1], z - 1);
    NamesDayOrder(keys[1], keys[2], z);
  }
}
