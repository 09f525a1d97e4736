/**
 * Clock and date lexers of the backend (src-tauri/src/lib.rs):
 * `parse_clock_minutes` ("hh:mm" to minutes after midnight),
 * `extract_iso_date` (the first `full-date` shaped window of a string,
 * section 5.6 of RFC 3339, without range checks) and `chrono_today` with
 * `is_leap` (days since 1970-01-01 to a proleptic Gregorian Y-M-D). The clock
 * read of `chrono_today` becomes its day-count parameter.
 */
module ClockDate {
  import opened Wrappers
  import opened Text
  import opened Numbers

  // ---------------------------------------------------------------- clock

  /**
   * `parse_clock_minutes`: exactly two ':'-separated fields, each an `i32`
   * (sign allowed), hours 0-23 and minutes 0-59; the result is hh * 60 + mm.
   */
  function ParseClockMinutes(input: string): (r: Option<int>)
    ensures r.Some? ==> 0 <= r.value < 24 * 60
  {
    var parts := Split(input, ':');
    if |parts| != 2 then None
    else
      match (ParseI32(parts[0]), ParseI32(parts[1]))
      case (Some(hh), Some(mm)) =>
        if 0 <= hh <= 23 && 0 <= mm <= 59 then Some(hh * 60 + mm) else None
      case _ => None
  }

  /** The canonical "hh:mm" spelling of a minute of the day. */
  function ClockText(minutes: nat): string
    requires minutes < 24 * 60
  {
    ZeroPad(minutes / 60, 2) + ":" + ZeroPad(minutes % 60, 2)
  }

  /** An accepted clock gives back its two fields: the hour and the minute. */
  lemma ClockFields(input: string)
    requires ParseClockMinutes(input).Some?
    ensures |Split(input, ':')| == 2
    ensures ParseI32(Split(input, ':')[0]) == Some(ParseClockMinutes(input).value / 60)
    ensures ParseI32(Split(input, ':')[1]) == Some(ParseClockMinutes(input).value % 60)
  {
    var parts := Split(input, ':');
    ClockParts(input, parts);
    HourMinute(ParseClockMinutes(input).value, ParseI32(parts[0]).value, ParseI32(parts[1]).value);
  }

  /** An accepted clock has two fields that parse, the minute below 60, and the value they make. */
  lemma ClockParts(input: string, parts: seq<string>)
    requires ParseClockMinutes(input).Some?
    requires parts == Split(input, ':')
    ensures |parts| == 2 && ParseI32(parts[0]).Some? && ParseI32(parts[1]).Some?
    ensures 0 <= ParseI32(parts[1]).value < 60
    ensures ParseClockMinutes(input).value == ParseI32(parts[0]).value * 60 + ParseI32(parts[1]).value
  {
  }

  lemma HourMinute(v: int, hh: int, mm: int)
    requires 0 <= mm < 60 && v == hh * 60 + mm
    ensures v / 60 == hh && v % 60 == mm
  {
  }

  /** A digit string without sign parses as its value when that fits in an `i32`. */
  lemma ParseDigits(s: string)
    requires |s| >= 1 && AllDigits(s) && InI32(Value(s))
    ensures ParseI32(s) == Some(Value(s))
  {
    assert IsDigit(s[0]);
  }

  /** A digit string holds no field separator. */
  lemma DigitsHaveNo(s: string, c: char)
    requires AllDigits(s) && !IsDigit(c)
    ensures c !in s
  {
  }

  /** "hh:mm" splits into its two padded fields. */
  lemma ClockTextSplit(minutes: nat)
    requires minutes < 24 * 60
    ensures Split(ClockText(minutes), ':') == [ZeroPad(minutes / 60, 2), ZeroPad(minutes % 60, 2)]
  {
    var h := ZeroPad(minutes / 60, 2);
    var m := ZeroPad(minutes % 60, 2);
    DigitsHaveNo(h, ':');
    DigitsHaveNo(m, ':');
    assert ClockText(minutes) == h + [':'] + m;
    SplitAppend(h, ':', m);
    SplitOfFree(m, ':');
  }

  /** Every minute of the day, written "hh:mm", parses back to itself. */
  lemma ClockRoundTrip(minutes: nat)
    requires minutes < 24 * 60
    ensures ParseClockMinutes(ClockText(minutes)) == Some(minutes)
  {
    ClockTextSplit(minutes);
    PaddedFieldParses(minutes / 60);
    PaddedFieldParses(minutes % 60);
    ParseFields(ClockText(minutes), minutes / 60, minutes % 60);
    assert (minutes / 60) * 60 + minutes % 60 == minutes;
  }

  /** A two-digit padded field parses back to its value. */
  lemma PaddedFieldParses(n: nat)
    requires n < 100
    ensures ParseI32(ZeroPad(n, 2)) == Some(n)
  {
    ZeroPad2Length(n);
    ParseDigits(ZeroPad(n, 2));
  }

  /** A clock whose two fields parse to an hour and a minute in range reads as that minute of the day. */
  lemma ParseFields(input: string, hh: int, mm: int)
    requires |Split(input, ':')| == 2
    requires ParseI32(Split(input, ':')[0]) == Some(hh) && ParseI32(Split(input, ':')[1]) == Some(mm)
    requires 0 <= hh <= 23 && 0 <= mm <= 59
    ensures ParseClockMinutes(input) == Some(hh * 60 + mm)
  {
  }

  // ---------------------------------------------------------------- ISO dates

  /** A `DDDD-DD-DD` window starts at `i`. */
  predicate IsoDateAt(s: string, i: nat)
    requires i + 10 <= |s|
  {
    IsDigit(s[i]) && IsDigit(s[i + 1]) && IsDigit(s[i + 2]) && IsDigit(s[i + 3])
    && s[i + 4] == '-' && IsDigit(s[i + 5]) && IsDigit(s[i + 6])
    && s[i + 7] == '-' && IsDigit(s[i + 8]) && IsDigit(s[i + 9])
  }

  /** A string that is exactly one date window. */
  predicate IsIsoDate(d: string) {
    |d| == 10 && IsoDateAt(d, 0)
  }

  /** The first position at or after `from` where a date window starts. */
  function FirstIsoDate(s: string, from: nat): (r: Option<nat>)
    ensures r.Some? ==> from <= r.value && r.value + 10 <= |s| && IsoDateAt(s, r.value)
    ensures r.Some? ==> forall j :: from <= j < r.value ==> !IsoDateAt(s, j)
    ensures r.None? ==> forall j :: from <= j && j + 10 <= |s| ==> !IsoDateAt(s, j)
    decreases |s| - from
  {
    if from + 10 > |s| then None
    else if IsoDateAt(s, from) then Some(from)
    else FirstIsoDate(s, from + 1)
  }

  /** The date `extract_iso_date` finds: the leftmost window, if any. */
  function IsoDate(s: string): (r: Option<string>)
    ensures r.Some? ==> IsIsoDate(r.value)
    ensures r.None? <==> forall j :: 0 <= j && j + 10 <= |s| ==> !IsoDateAt(s, j)
  {
    match FirstIsoDate(s, 0)
    case Some(i) =>
      assert IsoDateAt(s, i);
      Some(s[i..i + 10])
    case None => None
  }

  /** `extract_iso_date`: scans the window positions left to right. */
  method ExtractIsoDate(s: string) returns (r: Option<string>)
    ensures r == IsoDate(s)
  {
    if |s| < 10 {
      return None;
    }
    var i := 0;
    while i <= |s| - 10
      invariant 0 <= i <= |s| - 9
      invariant FirstIsoDate(s, 0) == FirstIsoDate(s, i)
    {
      if IsoDateAt(s, i) {
        return Some(s[i..i + 10]);
      }
      i := i + 1;
    }
    return None;
  }

  /** A window found in a suffix is a window of the whole string. */
  lemma IsoDateShift(s: string, k: nat, i: nat)
    requires k <= |s| && i + 10 <= |s| - k
    ensures IsoDateAt(s[k..], i) <==> IsoDateAt(s, k + i)
  {
  }

  // ---------------------------------------------------------------- calendar

  predicate IsLeap(y: int) {
    (y % 4 == 0 && y % 100 != 0) || y % 400 == 0
  }

  function YearLength(y: int): nat {
    if IsLeap(y) then 366 else 365
  }

  const CommonMonths: seq<nat> := [31, 28, 31, 30, 31, 30, 31, 31, 30, 31, 30, 31]
  const LeapMonths: seq<nat> := [31, 29, 31, 30, 31, 30, 31, 31, 30, 31, 30, 31]

  function MonthDays(y: int): (r: seq<nat>)
    ensures |r| == 12
    ensures forall k :: 0 <= k < 12 ==> 28 <= r[k] <= 31
  {
    if IsLeap(y) then LeapMonths else CommonMonths
  }

  /** The days in the first `k` months of year `y`. */
  function DaysBeforeMonth(y: int, k: nat): nat
    requires k <= 12
  {
    if k == 0 then 0 else DaysBeforeMonth(y, k - 1) + MonthDays(y)[k - 1]
  }

  /** The days from 1970-01-01 to the first day of year `y`. */
  function DaysBeforeYear(y: int): nat
    requires y >= 1970
    decreases y - 1970
  {
    if y == 1970 then 0 else DaysBeforeYear(y - 1) + YearLength(y - 1)
  }

  datatype Civil = Civil(year: int, month: int, day: int) {
    predicate Valid() {
      year >= 1970 && 1 <= month <= 12 && 1 <= day <= MonthDays(year)[month - 1]
    }
  }

  /** The days since 1970-01-01 of a calendar date: the inverse of `chrono_today`'s walk. */
  function DaysFromCivil(c: Civil): nat
    requires c.Valid()
  {
    DaysBeforeYear(c.year) + DaysBeforeMonth(c.year, c.month - 1) + c.day - 1
  }

  /** The twelve months fill the year exactly. */
  lemma MonthsFillYear(y: int)
    ensures DaysBeforeMonth(y, 12) == YearLength(y)
  {
    var ms := MonthDays(y);
    assert DaysBeforeMonth(y, 1) == ms[0];
    assert DaysBeforeMonth(y, 2) == ms[0] + ms[1];
    assert DaysBeforeMonth(y, 3) == ms[0] + ms[1] + ms[2];
    assert DaysBeforeMonth(y, 4) == ms[0] + ms[1] + ms[2] + ms[3];
    assert DaysBeforeMonth(y, 5) == DaysBeforeMonth(y, 4) + ms[4];
    assert DaysBeforeMonth(y, 6) == DaysBeforeMonth(y, 5) + ms[5];
    assert DaysBeforeMonth(y, 7) == DaysBeforeMonth(y, 6) + ms[6];
    assert DaysBeforeMonth(y, 8) == DaysBeforeMonth(y, 7) + ms[7];
    assert DaysBeforeMonth(y, 9) == DaysBeforeMonth(y, 8) + ms[8];
    assert DaysBeforeMonth(y, 10) == DaysBeforeMonth(y, 9) + ms[9];
    assert DaysBeforeMonth(y, 11) == DaysBeforeMonth(y, 10) + ms[10];
    assert DaysBeforeMonth(y, 12) == DaysBeforeMonth(y, 11) + ms[11];
  }

  lemma DaysBeforeMonthMonotone(y: int, j: nat, k: nat)
    requires j <= k <= 12
    ensures DaysBeforeMonth(y, j) + (if j < k then MonthDays(y)[j] else 0) <= DaysBeforeMonth(y, k)
    decreases k - j
  {
    if j < k {
      DaysBeforeMonthMonotone(y, j + 1, k);
    }
  }

  lemma DaysBeforeYearMonotone(y1: int, y2: int)
    requires 1970 <= y1 < y2
    ensures DaysBeforeYear(y1) + YearLength(y1) <= DaysBeforeYear(y2)
    decreases y2 - y1
  {
    if y1 + 1 < y2 {
      DaysBeforeYearMonotone(y1 + 1, y2);
    }
  }

  /** A valid date falls within its own year. */
  lemma DayWithinYear(c: Civil)
    requires c.Valid()
    ensures DaysBeforeYear(c.year) <= DaysFromCivil(c) < DaysBeforeYear(c.year) + YearLength(c.year)
  {
    DaysBeforeMonthMonotone(c.year, c.month - 1, 12);
    MonthsFillYear(c.year);
  }

  /** Two valid dates with the same day count are the same date. */
  lemma {:induction false} CivilUnique(c1: Civil, c2: Civil)
    requires c1.Valid() && c2.Valid()
    requires DaysFromCivil(c1) == DaysFromCivil(c2)
    ensures c1 == c2
  {
    DayWithinYear(c1);
    DayWithinYear(c2);
    if c1.year < c2.year {
      DaysBeforeYearMonotone(c1.year, c2.year);
    } else if c2.year < c1.year {
      DaysBeforeYearMonotone(c2.year, c1.year);
    } else if c1.month < c2.month {
      DaysBeforeMonthMonotone(c1.year, c1.month, c2.month - 1);
    } else if c2.month < c1.month {
      DaysBeforeMonthMonotone(c1.year, c2.month, c1.month - 1);
    }
  }

  /** `{:04}-{:02}-{:02}`. */
  function FormatDate(c: Civil): string
    requires c.Valid()
  {
    ZeroPad(c.year, 4) + "-" + ZeroPad(c.month, 2) + "-" + ZeroPad(c.day, 2)
  }

  /**
   * The walk of `chrono_today`: whole years are taken off the day count while
   * they fit, then whole months of the year reached; what remains is the day
   * of the month, counted from one.
   */
  method CivilFromDays(days: nat) returns (c: Civil)
    ensures c.Valid() && DaysFromCivil(c) == days
  {
    var y := 1970;
    var remaining := days;
    while remaining >= YearLength(y)
      invariant y >= 1970 && remaining >= 0
      invariant DaysBeforeYear(y) + remaining == days
      decreases remaining
    {
      remaining := remaining - YearLength(y);
      y := y + 1;
    }
    var monthDays := if IsLeap(y) then LeapMonths else CommonMonths;
    MonthsFillYear(y);
    var m := 0;
    var i := 0;
    while i < 12
      invariant 0 <= i <= 12 && remaining >= 0
      invariant DaysBeforeMonth(y, i) + remaining == days - DaysBeforeYear(y)
      invariant remaining < DaysBeforeMonth(y, 12) - DaysBeforeMonth(y, i)
    {
      if remaining < monthDays[i] {
        m := i + 1;
        break;
      }
      remaining := remaining - monthDays[i];
      i := i + 1;
    }
    c := Civil(y, m, remaining + 1);
  }

  /** `chrono_today` on a day count since the epoch. */
  method ChronoToday(days: nat) returns (date: string)
    ensures exists c: Civil :: c.Valid() && DaysFromCivil(c) == days && date == FormatDate(c)
  {
    var c := CivilFromDays(days);
    date := FormatDate(c);
  }

  /** Four digits, two digits and two digits joined by '-' form one date window. */
  lemma IsoShape(s: string, y: string, m: string, d: string)
    requires s == y + "-" + m + "-" + d
    requires |y| == 4 && |m| == 2 && |d| == 2
    requires AllDigits(y) && AllDigits(m) && AllDigits(d)
    ensures |s| == 10 && IsoDateAt(s, 0)
  {
    assert s[0] == y[0] && s[1] == y[1] && s[2] == y[2] && s[3] == y[3];
    assert s[5] == m[0] && s[6] == m[1] && s[8] == d[0] && s[9] == d[1];
  }

  /** A date before year 10000 is written as one `DDDD-DD-DD` window. */
  lemma FormattedDateShape(c: Civil)
    requires c.Valid() && c.year <= 9999
    ensures |FormatDate(c)| == 10 && IsoDateAt(FormatDate(c), 0)
  {
    PaddedDateShape(FormatDate(c), c.year, c.month, c.day);
  }

  lemma PaddedDateShape(s: string, y: nat, m: nat, d: nat)
    requires y < 10000 && m < 100 && d < 100
    requires s == ZeroPad(y, 4) + "-" + ZeroPad(m, 2) + "-" + ZeroPad(d, 2)
    ensures |s| == 10 && IsoDateAt(s, 0)
  {
    ZeroPad4Length(y);
    ZeroPad2Length(m);
    ZeroPad2Length(d);
    IsoShape(s, ZeroPad(y, 4), ZeroPad(m, 2), ZeroPad(d, 2));
  }

  /** A string that is one date window is its own date. */
  lemma WholeWindow(s: string)
    requires |s| == 10 && IsoDateAt(s, 0)
    ensures IsoDate(s) == Some(s)
  {
    assert FirstIsoDate(s, 0) == Some(0);
    assert s[0..10] == s;
  }

  /** `extract_iso_date` finds a formatted date whole. */
  lemma FormattedDateIsIso(c: Civil)
    requires c.Valid() && c.year <= 9999
    ensures IsoDate(FormatDate(c)) == Some(FormatDate(c))
  {
    FormattedDateShape(c);
    WholeWindow(FormatDate(c));
  }
}
