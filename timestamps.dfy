/** Reading timestamps. A device reading carries its time in one of four
    encodings, tried in a fixed order; the first that matches decides, and a
    reading with none of them is stamped with the current time. Times are
    JavaScript Date values: milliseconds since 1970-01-01T00:00:00Z, or an
    invalid date. */
module Timestamps {
  import opened Text
  import opened Js

  /** A Date: its time value in milliseconds, or Invalid Date. */
  datatype Time = At(ms: int) | Invalid

  const MsPerDay: int := 86400000
  const MsPerHour: int := 3600000
  const MsPerMinute: int := 60000
  const MsPerSecond: int := 1000

  /** Days from 1970-01-01 to year `y`, month `m` (1..12), day `d` of the
      proleptic Gregorian calendar; `d` may lie outside the month. */
  function DaysFromCivil(y: int, m: int, d: int): (days: int)
    requires 1 <= m <= 12
  {
    var y' := if m <= 2 then y - 1 else y;
    var era := y' / 400;
    var yoe := y' - era * 400;
    var mp := (m + 9) % 12;
    var doy := (153 * mp + 2) / 5 + d - 1;
    var doe := yoe * 365 + yoe / 4 - yoe / 100 + doy;
    era * 146097 + doe - 719468
  }

  /** `Date.UTC(year, monthIndex, day, hours, minutes, seconds)`: a month
      index outside 0..11 carries into the year, and a year from 0 to 99
      means 1900 + year. */
  function DateUtc(year: int, monthIndex: int, day: int, h: int, mi: int, s: int): (ms: int)
  {
    var yr := if 0 <= year <= 99 then 1900 + year else year;
    var ym := yr + monthIndex / 12;
    var mn := monthIndex % 12;
    DaysFromCivil(ym, mn + 1, day) * MsPerDay + h * MsPerHour + mi * MsPerMinute + s * MsPerSecond
  }

  predicate IsLeap(y: int) { y % 4 == 0 && (y % 100 != 0 || y % 400 == 0) }

  function DaysInMonth(y: int, m: int): (n: int)
    requires 1 <= m <= 12
    ensures 28 <= n <= 31
  {
    if m == 2 then (if IsLeap(y) then 29 else 28)
    else if m == 4 || m == 6 || m == 9 || m == 11 then 30
    else 31
  }

  /** The first of each month follows the first of the previous one by that
      month's length, February counting 29 days in leap years. */
  lemma MonthLength(y: int, m: int)
    requires 1 <= m < 12
    ensures DaysFromCivil(y, m + 1, 1) == DaysFromCivil(y, m, 1) + DaysInMonth(y, m)
  {
    if m == 2 {
      FebruaryLength(y);
    } else {
      CivilShape(y, m);
      CivilShape(y, m + 1);
      OffsetStep(m);
    }
  }

  /** Within one year counted from March, the day offsets of consecutive
      months other than February differ by the month's length. */
  lemma OffsetStep(m: int)
    requires 1 <= m < 12 && m != 2
    ensures (153 * ((m + 1 + 9) % 12) + 2) / 5 == (153 * ((m + 9) % 12) + 2) / 5 + DaysInMonth(0, m)
  {
    if m == 1 {
      assert (153 * 11 + 2) / 5 == 337 && (153 * 10 + 2) / 5 == 306;
    } else if m <= 6 {
      assert (153 * 1 + 2) / 5 == 31 && (153 * 2 + 2) / 5 == 61 && (153 * 3 + 2) / 5 == 92
          && (153 * 4 + 2) / 5 == 122 && (153 * 0 + 2) / 5 == 0;
    } else {
      assert (153 * 5 + 2) / 5 == 153 && (153 * 6 + 2) / 5 == 184 && (153 * 7 + 2) / 5 == 214
          && (153 * 8 + 2) / 5 == 245 && (153 * 9 + 2) / 5 == 275 && (153 * 4 + 2) / 5 == 122;
    }
  }

  lemma FebruaryLength(y: int)
    ensures DaysFromCivil(y, 3, 1) == DaysFromCivil(y, 2, 1) + DaysInMonth(y, 2)
  {
    CivilShape(y, 2);
    CivilShape(y, 3);
    assert (153 * ((2 + 9) % 12) + 2) / 5 == 337;
    assert (153 * ((3 + 9) % 12) + 2) / 5 == 0;
    EraStep(y);
  }

  /** From the start of year `y - 1` (counted from March) to the start of
      year `y`: 365 days, one more when `y` is a leap year. */
  lemma EraStep(y: int)
    ensures (y / 400) * 146097 + YearDays(y % 400)
         == ((y - 1) / 400) * 146097 + YearDays((y - 1) % 400) + 365 + (if IsLeap(y) then 1 else 0)
  {
    var q, r := y / 400, y % 400;
    assert y == 400 * q + r;
    if r == 0 {
      EraFirstYear(y, q);
    } else {
      EraLaterYear(y, q, r);
    }
  }

  lemma EraFirstYear(y: int, q: int)
    requires y == 400 * q
    ensures y / 400 == q && y % 400 == 0 && (y - 1) / 400 == q - 1 && (y - 1) % 400 == 399 && IsLeap(y)
  {
  }

  lemma EraLaterYear(y: int, q: int, r: int)
    requires y == 400 * q + r && 0 < r < 400
    ensures (y / 400) * 146097 + YearDays(y % 400)
         == ((y - 1) / 400) * 146097 + YearDays((y - 1) % 400) + 365 + (if IsLeap(y) then 1 else 0)
  {
    EraDivision(y, q, r);
    EraLeap(y, q, r);
    YearStep(r - 1);
  }

  lemma EraDivision(y: int, q: int, r: int)
    requires y == 400 * q + r && 0 < r < 400
    ensures y / 400 == q && y % 400 == r && (y - 1) / 400 == q && (y - 1) % 400 == r - 1
  {
  }

  lemma EraLeap(y: int, q: int, r: int)
    requires y == 400 * q + r && 0 <= r < 400
    ensures IsLeap(y) <==> r % 4 == 0 && (r % 100 != 0 || r == 0)
  {
    ShiftMod4(100 * q, r);
    ShiftMod100(4 * q, r);
    ShiftMod400(q, r);
  }

  lemma ShiftMod4(k: int, r: int)
    ensures (4 * k + r) % 4 == r % 4
  {
  }

  lemma ShiftMod100(k: int, r: int)
    ensures (100 * k + r) % 100 == r % 100
  {
  }

  lemma ShiftMod400(k: int, r: int)
    requires 0 <= r < 400
    ensures (400 * k + r) % 400 == r
  {
  }

  /** Days from the start of a 400-year era to the start of its year `k`
      (years counted from March). */
  function YearDays(k: int): int { 365 * k + k / 4 - k / 100 }

  lemma CivilShape(y: int, m: int)
    requires 1 <= m <= 12
    ensures var y' := if m <= 2 then y - 1 else y;
      DaysFromCivil(y, m, 1) == (y' / 400) * 146097 + YearDays(y' % 400) + (153 * ((m + 9) % 12) + 2) / 5 - 719468
  {
  }

  lemma YearStep(k: int)
    requires 0 <= k < 399
    ensures YearDays(k + 1) == YearDays(k) + 365 + (if (k + 1) % 4 == 0 then 1 else 0)
                                               - (if (k + 1) % 100 == 0 then 1 else 0)
  {
  }

  lemma YearEnd(y: int)
    ensures DaysFromCivil(y + 1, 1, 1) == DaysFromCivil(y, 12, 1) + DaysInMonth(y, 12)
  {
  }

  /** Date.UTC counts days past the end of the month into the next day. */
  lemma NextDay(y: int, m: int, d: int, h: int, mi: int, s: int)
    ensures DateUtc(y, m, d + 1, h, mi, s) == DateUtc(y, m, d, h, mi, s) + MsPerDay
  {
  }

  /** A month index of twelve or more carries into the year (for years that
      are not read as 1900 + year). */
  lemma MonthCarry(y: int, m: int, d: int, h: int, mi: int, s: int)
    requires y >= 100 || y < -1
    ensures DateUtc(y, m + 12, d, h, mi, s) == DateUtc(y + 1, m, d, h, mi, s)
  {
  }

  /** Two-digit years are read as years of the twentieth century. */
  lemma TwoDigitYear(y: int, m: int, d: int, h: int, mi: int, s: int)
    requires 0 <= y <= 99
    ensures DateUtc(y, m, d, h, mi, s) == DateUtc(1900 + y, m, d, h, mi, s)
  {
  }

  /** The fields a reading may carry its time in. */
  datatype TimeFields = TimeFields(dateTime: Json, date: Json, time: Json, data: Json)

  predicate DigitsAt(s: string, lo: nat, hi: nat)
  {
    lo <= hi <= |s| && AllDigits(s[lo..hi])
  }

  /** `/^\d{4}-\d{2}-\d{2}T/` */
  predicate IsoPrefix(s: string)
  {
    |s| >= 11 && DigitsAt(s, 0, 4) && s[4] == '-' && DigitsAt(s, 5, 7) && s[7] == '-'
    && DigitsAt(s, 8, 10) && s[10] == 'T'
  }

  /** `/^\d{6}T\d{6}Z$/` */
  predicate CompactStamp(s: string)
  {
    |s| == 14 && DigitsAt(s, 0, 6) && s[6] == 'T' && DigitsAt(s, 7, 13) && s[13] == 'Z'
  }

  /** `/^\d{6}$/` */
  predicate SixDigits(s: string)
  {
    |s| == 6 && AllDigits(s)
  }

  /** `/^\d{4}-\d{2}-\d{2}$/` */
  predicate CalendarDate(s: string)
  {
    |s| == 10 && DigitsAt(s, 0, 4) && s[4] == '-' && DigitsAt(s, 5, 7) && s[7] == '-'
    && DigitsAt(s, 8, 10)
  }

  /** `+s.slice(lo, hi)` on a run of digits. */
  function Slice(s: string, lo: nat, hi: nat): (v: nat)
    requires DigitsAt(s, lo, hi)
    ensures v < Pow10(hi - lo)
  {
    DecimalValue(s[lo..hi])
  }

  /** `x || ''` followed by a pattern test, for a field that is a string. */
  function TextOf(j: Json): string
  {
    if j.Str? then j.s else ""
  }

  /** Date.UTC(2000+yy, mm-1, dd, HH, MM, SS) from a YYMMDD and an HHMMSS run
      starting at `d` and `t` in `ds` and `ts`. */
  function FromYYMMDD(ds: string, d: nat, ts: string, t: nat): Time
    requires DigitsAt(ds, d, d + 6) && DigitsAt(ts, t, t + 6)
  {
    assert ds[d..d + 6][0..2] == ds[d..d + 2] && ds[d..d + 6][2..4] == ds[d + 2..d + 4]
        && ds[d..d + 6][4..6] == ds[d + 4..d + 6];
    assert ts[t..t + 6][0..2] == ts[t..t + 2] && ts[t..t + 6][2..4] == ts[t + 2..t + 4]
        && ts[t..t + 6][4..6] == ts[t + 4..t + 6];
    At(DateUtc(2000 + Slice(ds, d, d + 2), Slice(ds, d + 2, d + 4) - 1, Slice(ds, d + 4, d + 6),
               Slice(ts, t, t + 2), Slice(ts, t + 2, t + 4), Slice(ts, t + 4, t + 6)))
  }

  /** Which encoding a reading's time was taken from. */
  datatype Source = Iso | Compact | SplitDateTime | DataFields | Now

  /** The encoding that decides: the first of the four that matches. */
  function SourceOf(f: TimeFields): (src: Source)
    ensures src == Iso <==> f.dateTime.Str? && IsoPrefix(f.dateTime.s)
    ensures src == Compact <==> f.dateTime.Str? && !IsoPrefix(f.dateTime.s) && CompactStamp(f.dateTime.s)
    ensures src == DataFields ==> CalendarDate(TextOf(Get(f.data, "f"))) && SixDigits(TextOf(Get(f.data, "h")))
    ensures src == Now ==>
      !(f.dateTime.Str? && (IsoPrefix(f.dateTime.s) || CompactStamp(f.dateTime.s)))
      && !(SixDigits(TextOf(f.date)) && SixDigits(TextOf(f.time)))
      && !(CalendarDate(TextOf(Get(f.data, "f"))) && SixDigits(TextOf(Get(f.data, "h"))))
  {
    if f.dateTime.Str? && IsoPrefix(f.dateTime.s) then Iso
    else if f.dateTime.Str? && CompactStamp(f.dateTime.s) then Compact
    else if SixDigits(TextOf(f.date)) && SixDigits(TextOf(f.time)) then SplitDateTime
    else if CalendarDate(TextOf(Get(f.data, "f"))) && SixDigits(TextOf(Get(f.data, "h"))) then DataFields
    else Now
  }

  /** parseValleTimestamp. `parseIso` stands for `new Date(text)` on an ISO
      8601 text and `now` for the clock's current time value. */
  function ParseValleTimestamp(f: TimeFields, parseIso: string -> Time, now: int): (t: Time)
    ensures SourceOf(f) == Iso ==> t == parseIso(f.dateTime.s)
    ensures SourceOf(f) == Now ==> t == At(now)
    ensures SourceOf(f) != Iso ==> t.At?
  {
    match SourceOf(f)
    case Iso => parseIso(f.dateTime.s)
    case Compact => FromYYMMDD(f.dateTime.s, 0, f.dateTime.s, 7)
    case SplitDateTime => FromYYMMDD(f.date.s, 0, f.time.s, 0)
    case DataFields =>
      var day := TextOf(Get(f.data, "f"));
      var hms := TextOf(Get(f.data, "h"));
      At(DateUtc(Slice(day, 0, 4), Slice(day, 5, 7) - 1, Slice(day, 8, 10),
                 Slice(hms, 0, 2), Slice(hms, 2, 4), Slice(hms, 4, 6)))
    case Now => At(now)
  }

  // ------------------------------------------------------------ encoders

  /** `YYMMDD` (or `HHMMSS`) from three two-digit numbers. */
  function Six(a: nat, b: nat, c: nat): (s: string)
    requires a < 100 && b < 100 && c < 100
    ensures SixDigits(s)
    ensures DigitsAt(s, 0, 6) && Slice(s, 0, 2) == a && Slice(s, 2, 4) == b && Slice(s, 4, 6) == c
  {
    var s := Pad2(a) + Pad2(b) + Pad2(c);
    assert s[0..2] == Pad2(a) && s[2..4] == Pad2(b) && s[4..6] == Pad2(c);
    assert s[..6] == s;
    s
  }

  /** The compact `YYMMDDTHHMMSSZ` text of a moment. */
  function CompactText(yy: nat, mo: nat, d: nat, h: nat, mi: nat, s: nat): (t: string)
    requires yy < 100 && mo < 100 && d < 100 && h < 100 && mi < 100 && s < 100
    ensures CompactStamp(t) && !IsoPrefix(t)
  {
    var t := Six(yy, mo, d) + "T" + Six(h, mi, s) + "Z";
    assert t[0..6] == Six(yy, mo, d) && t[7..13] == Six(h, mi, s);
    assert t[4] != '-' by { assert IsDigit(Six(yy, mo, d)[4]); }
    t
  }

  /** The `YYYY-MM-DD` text of a date. */
  function CalendarText(y: nat, mo: nat, d: nat): (t: string)
    requires 1000 <= y < 10000 && mo < 100 && d < 100
    ensures CalendarDate(t)
    ensures Slice(t, 0, 4) == y && Slice(t, 5, 7) == mo && Slice(t, 8, 10) == d
  {
    var ys := NatToString(y);
    YearHasFourDigits(y);
    var t := ys + "-" + Pad2(mo) + "-" + Pad2(d);
    assert t[0..4] == ys && t[5..7] == Pad2(mo) && t[8..10] == Pad2(d);
    t
  }

  lemma {:induction false} YearHasFourDigits(y: nat)
    requires 1000 <= y < 10000
    ensures |NatToString(y)| == 4
  {
    var a := y / 10;
    var b := a / 10;
    assert 100 <= a < 1000 && 10 <= b < 100;
    OneMoreDigit(y);
    OneMoreDigit(a);
    OneMoreDigit(b);
  }

  /** Each further digit of a number adds one character to its text. */
  lemma OneMoreDigit(n: nat)
    requires n >= 10
    ensures |NatToString(n)| == |NatToString(n / 10)| + 1
  {
  }

  // ------------------------------------------------------------ properties

  /** A compact `dateTime` decodes to year 2000+YY with its month, day, hour,
      minute and second, whatever the other fields hold. */
  lemma CompactDecodes(yy: nat, mo: nat, d: nat, h: nat, mi: nat, s: nat,
                       date: Json, time: Json, data: Json, parseIso: string -> Time, now: int)
    requires yy < 100 && mo < 100 && d < 100 && h < 100 && mi < 100 && s < 100
    ensures ParseValleTimestamp(TimeFields(Str(CompactText(yy, mo, d, h, mi, s)), date, time, data), parseIso, now)
         == At(DateUtc(2000 + yy, mo - 1, d, h, mi, s))
  {
    var t := CompactText(yy, mo, d, h, mi, s);
    var f := TimeFields(Str(t), date, time, data);
    assert SourceOf(f) == Compact;
    var six1, six2 := Six(yy, mo, d), Six(h, mi, s);
    assert t == six1 + "T" + six2 + "Z";
    CompactParts(six1, six2);
    SixFields(six1, six2, yy, mo, d, h, mi, s);
  }

  lemma CompactParts(six1: string, six2: string)
    requires SixDigits(six1) && SixDigits(six2)
    ensures var t := six1 + "T" + six2 + "Z";
            DigitsAt(t, 0, 6) && DigitsAt(t, 7, 13)
            && FromYYMMDD(t, 0, t, 7) == FromYYMMDD(six1, 0, six2, 0)
  {
    var t := six1 + "T" + six2 + "Z";
    assert t == six1 + ("T" + six2 + "Z");
    PrefixSlices(six1, "T" + six2 + "Z");
    PrefixSlices(six2, "Z");
    assert t == (six1 + "T") + (six2 + "Z");
    SuffixSlices(six1 + "T", six2 + "Z");
  }

  /** Six leading digits read the same with any text after them. */
  lemma PrefixSlices(six: string, b: string)
    requires SixDigits(six)
    ensures DigitsAt(six + b, 0, 6)
    ensures Slice(six + b, 0, 2) == Slice(six, 0, 2) && Slice(six + b, 2, 4) == Slice(six, 2, 4)
            && Slice(six + b, 4, 6) == Slice(six, 4, 6)
  {
    assert six[0..6] == six;
    SlicePrefix(six, b, 0, 6);
    SlicePrefix(six, b, 0, 2);
    SlicePrefix(six, b, 2, 4);
    SlicePrefix(six, b, 4, 6);
  }

  /** Six digits read the same with any text before them. */
  lemma SuffixSlices(a: string, b: string)
    requires DigitsAt(b, 0, 6)
    ensures DigitsAt(a + b, |a|, |a| + 6)
    ensures Slice(a + b, |a|, |a| + 2) == Slice(b, 0, 2) && Slice(a + b, |a| + 2, |a| + 4) == Slice(b, 2, 4)
            && Slice(a + b, |a| + 4, |a| + 6) == Slice(b, 4, 6)
  {
    SliceSuffix(a, b, 0, 6);
    SliceSuffix(a, b, 0, 2);
    SliceSuffix(a, b, 2, 4);
    SliceSuffix(a, b, 4, 6);
  }

  lemma SlicePrefix(a: string, b: string, lo: nat, hi: nat)
    requires DigitsAt(a, lo, hi)
    ensures DigitsAt(a + b, lo, hi) && Slice(a + b, lo, hi) == Slice(a, lo, hi)
  {
    assert (a + b)[lo..hi] == a[lo..hi];
  }

  lemma SliceSuffix(a: string, b: string, lo: nat, hi: nat)
    requires DigitsAt(b, lo, hi)
    ensures DigitsAt(a + b, |a| + lo, |a| + hi) && Slice(a + b, |a| + lo, |a| + hi) == Slice(b, lo, hi)
  {
    assert (a + b)[|a| + lo..|a| + hi] == b[lo..hi];
  }

  /** With no usable `dateTime`, six-digit `date` and `time` decode to year
      2000+YY, whatever `data` holds. */
  lemma SplitDecodes(yy: nat, mo: nat, d: nat, h: nat, mi: nat, s: nat,
                     dateTime: Json, data: Json, parseIso: string -> Time, now: int)
    requires yy < 100 && mo < 100 && d < 100 && h < 100 && mi < 100 && s < 100
    requires !(dateTime.Str? && (IsoPrefix(dateTime.s) || CompactStamp(dateTime.s)))
    ensures ParseValleTimestamp(TimeFields(dateTime, Str(Six(yy, mo, d)), Str(Six(h, mi, s)), data), parseIso, now)
         == At(DateUtc(2000 + yy, mo - 1, d, h, mi, s))
  {
    var six1, six2 := Six(yy, mo, d), Six(h, mi, s);
    var f := TimeFields(dateTime, Str(six1), Str(six2), data);
    assert SourceOf(f) == SplitDateTime;
    SixFields(six1, six2, yy, mo, d, h, mi, s);
  }

  /** The moment read from a YYMMDD and an HHMMSS text. */
  lemma SixFields(six1: string, six2: string, yy: nat, mo: nat, d: nat, h: nat, mi: nat, s: nat)
    requires DigitsAt(six1, 0, 6) && DigitsAt(six2, 0, 6)
    requires Slice(six1, 0, 2) == yy && Slice(six1, 2, 4) == mo && Slice(six1, 4, 6) == d
    requires Slice(six2, 0, 2) == h && Slice(six2, 2, 4) == mi && Slice(six2, 4, 6) == s
    ensures FromYYMMDD(six1, 0, six2, 0) == At(DateUtc(2000 + yy, mo - 1, d, h, mi, s))
  {
  }

  /** With neither of the first three encodings, `data.f` (`YYYY-MM-DD`) and
      `data.h` (`HHMMSS`) decode to that four-digit year. */
  lemma DataFieldsDecode(y: nat, mo: nat, d: nat, h: nat, mi: nat, s: nat,
                         f: TimeFields, parseIso: string -> Time, now: int)
    requires 1000 <= y < 10000 && mo < 100 && d < 100 && h < 100 && mi < 100 && s < 100
    requires !(f.dateTime.Str? && (IsoPrefix(f.dateTime.s) || CompactStamp(f.dateTime.s)))
    requires !(SixDigits(TextOf(f.date)) && SixDigits(TextOf(f.time)))
    requires Get(f.data, "f") == Str(CalendarText(y, mo, d)) && Get(f.data, "h") == Str(Six(h, mi, s))
    ensures ParseValleTimestamp(f, parseIso, now) == At(DateUtc(y, mo - 1, d, h, mi, s))
  {
    var day, hms := CalendarText(y, mo, d), Six(h, mi, s);
    assert TextOf(Get(f.data, "f")) == day && TextOf(Get(f.data, "h")) == hms;
    assert SourceOf(f) == DataFields;
    DataFieldsValue(f, parseIso, now, day, hms);
  }

  lemma DataFieldsValue(f: TimeFields, parseIso: string -> Time, now: int, day: string, hms: string)
    requires SourceOf(f) == DataFields
    requires TextOf(Get(f.data, "f")) == day && TextOf(Get(f.data, "h")) == hms
    ensures CalendarDate(day) && SixDigits(hms)
    ensures ParseValleTimestamp(f, parseIso, now)
         == At(DateUtc(Slice(day, 0, 4), Slice(day, 5, 7) - 1, Slice(day, 8, 10),
                       Slice(hms, 0, 2), Slice(hms, 2, 4), Slice(hms, 4, 6)))
  {
  }

  /** The example from the device documentation: 251017T210852Z is
      2025-10-17 21:08:52 UTC. */
  lemma CompactExample(parseIso: string -> Time, now: int)
    ensures ParseValleTimestamp(TimeFields(Str("251017T210852Z"), Undefined, Undefined, Undefined), parseIso, now)
         == At(1760735332000)
  {
    ExampleText();
    CompactDecodes(25, 10, 17, 21, 8, 52, Undefined, Undefined, Undefined, parseIso, now);
    ExampleMoment();
  }

  lemma ExampleText()
    ensures CompactText(25, 10, 17, 21, 8, 52) == "251017T210852Z"
  {
    ExampleDate();
    ExampleTime();
  }

  lemma ExampleDate()
    ensures Six(25, 10, 17) == "251017"
  {
    Pad2Digits(25);
    Pad2Digits(10);
    Pad2Digits(17);
  }

  lemma ExampleTime()
    ensures Six(21, 8, 52) == "210852"
  {
    Pad2Digits(21);
    Pad2Digits(8);
    Pad2Digits(52);
  }

  lemma Pad2Digits(n: nat)
    requires n < 100
    ensures Pad2(n) == [DigitChar(n / 10), DigitChar(n % 10)]
  {
    if n >= 10 {
      assert NatToString(n) == NatToString(n / 10) + [DigitChar(n % 10)];
    }
  }

  lemma ExampleMoment()
    ensures DateUtc(2025, 9, 17, 21, 8, 52) == 1760735332000
  {
    assert DaysFromCivil(2025, 10, 17) == 20378 by {
      assert 2025 / 400 == 5 && (10 + 9) % 12 == 7 && (153 * 7 + 2) / 5 == 214;
    }
  }

  /** The epoch itself. */
  lemma EpochIsZero()
    ensures DateUtc(1970, 0, 1, 0, 0, 0) == 0
  {
    assert DaysFromCivil(1970, 1, 1) == 0 by {
      assert 1969 / 400 == 4 && (1 + 9) % 12 == 10 && (153 * 10 + 2) / 5 == 306;
    }
  }
}
