/**
 * `convert_utc_to_gmt8`: parse a UTC timestamp `YYYY-MM-DDTHH:MM:SSZ`, add a
 * fixed eight hours, print `YYYY-MM-DD HH:MM:SS`. The calendar arithmetic of
 * Python's `datetime` is written out on integers.
 */
module Timestamp {
  import opened Outcomes
  import opened Text

  datatype DateTime = DateTime(year: int, month: int, day: int, hour: int, minute: int, second: int)

  const MinYear := 1
  const MaxYear := 9999
  const OffsetHours := 8

  predicate IsLeapYear(y: int) {
    y % 4 == 0 && (y % 100 != 0 || y % 400 == 0)
  }

  function DaysInMonth(y: int, m: int): (n: int)
    requires 1 <= m <= 12
    ensures 28 <= n <= 31
  {
    if m == 2 then (if IsLeapYear(y) then 29 else 28)
    else if m == 4 || m == 6 || m == 9 || m == 11 then 30
    else 31
  }

  predicate ValidDate(t: DateTime) {
    1 <= t.month <= 12 && 1 <= t.day <= DaysInMonth(t.year, t.month)
  }

  /** What `datetime` accepts: years 1..9999, a real calendar day, a time of day. */
  predicate Valid(t: DateTime) {
    && MinYear <= t.year <= MaxYear
    && ValidDate(t)
    && 0 <= t.hour < 24 && 0 <= t.minute < 60 && 0 <= t.second < 60
  }

  /** The following calendar day, carrying into the month and the year. */
  function NextDay(t: DateTime): DateTime
    requires ValidDate(t)
  {
    if t.day < DaysInMonth(t.year, t.month) then t.(day := t.day + 1)
    else if t.month < 12 then t.(month := t.month + 1, day := 1)
    else t.(year := t.year + 1, month := 1, day := 1)
  }

  /** `t + timedelta(hours=8)`, on the unbounded proleptic Gregorian calendar. */
  function AddOffset(t: DateTime): DateTime
    requires Valid(t)
  {
    if t.hour + OffsetHours < 24 then t.(hour := t.hour + OffsetHours)
    else NextDay(t).(hour := t.hour + OffsetHours - 24)
  }

  // An independent reference: the day number `date.toordinal()` computes
  // (1 for 0001-01-01), and the second on that time line.

  function DaysBeforeYear(y: int): int {
    var p := y - 1;
    p * 365 + p / 4 - p / 100 + p / 400
  }

  function DaysBeforeMonth(y: int, m: int): int
    requires 1 <= m <= 12
  {
    [0, 31, 59, 90, 120, 151, 181, 212, 243, 273, 304, 334][m - 1]
      + (if m > 2 && IsLeapYear(y) then 1 else 0)
  }

  function Ordinal(t: DateTime): int
    requires 1 <= t.month <= 12
  {
    DaysBeforeYear(t.year) + DaysBeforeMonth(t.year, t.month) + t.day
  }

  function Seconds(t: DateTime): int
    requires 1 <= t.month <= 12
  {
    Ordinal(t) * 86400 + t.hour * 3600 + t.minute * 60 + t.second
  }

  lemma QuarterStep(p: int)
    ensures (p + 1) / 4 == p / 4 + (if (p + 1) % 4 == 0 then 1 else 0)
  {
  }

  lemma CenturyStep(p: int)
    ensures (p + 1) / 100 == p / 100 + (if (p + 1) % 100 == 0 then 1 else 0)
  {
  }

  lemma QuadCenturyStep(p: int)
    ensures (p + 1) / 400 == p / 400 + (if (p + 1) % 400 == 0 then 1 else 0)
  {
  }

  /** A year has 366 days if it is a leap year and 365 otherwise. */
  lemma YearLength(y: int)
    ensures DaysBeforeYear(y + 1) == DaysBeforeYear(y) + (if IsLeapYear(y) then 366 else 365)
  {
    QuarterStep(y - 1);
    CenturyStep(y - 1);
    QuadCenturyStep(y - 1);
  }

  /** The next calendar day is exactly one day later on the time line. */
  lemma NextDayOrdinal(t: DateTime)
    requires ValidDate(t)
    ensures ValidDate(NextDay(t))
    ensures Ordinal(NextDay(t)) == Ordinal(t) + 1
  {
    if t.day == DaysInMonth(t.year, t.month) && t.month == 12 {
      YearLength(t.year);
    }
  }

  lemma HourWraps(h: int)
    requires 0 <= h < 24
    ensures (h + OffsetHours) % 24 == if h + OffsetHours < 24 then h + OffsetHours else h + OffsetHours - 24
  {
  }

  /**
   * Adding the offset moves the time line by exactly eight hours, keeps the
   * minutes and seconds, and turns the date over (by one day) iff the hour is
   * 16 or later.
   */
  lemma AddOffsetShifts(t: DateTime)
    requires Valid(t)
    ensures ValidDate(AddOffset(t))
    ensures Seconds(AddOffset(t)) == Seconds(t) + OffsetHours * 3600
    ensures AddOffset(t).minute == t.minute && AddOffset(t).second == t.second
    ensures AddOffset(t).hour == (t.hour + OffsetHours) % 24
    ensures Ordinal(AddOffset(t)) == Ordinal(t) + (if t.hour >= 24 - OffsetHours then 1 else 0)
    ensures AddOffset(t).year <= MaxYear ==> Valid(AddOffset(t))
  {
    var u := AddOffset(t);
    HourWraps(t.hour);
    if t.hour + OffsetHours >= 24 {
      NextDayOrdinal(t);
      assert Ordinal(u) == Ordinal(t) + 1;
      assert Seconds(u) == Ordinal(t) * 86400 + 86400 + (t.hour + OffsetHours - 24) * 3600 + t.minute * 60 + t.second;
    } else {
      assert Ordinal(u) == Ordinal(t);
    }
  }

  /** Only the last eight hours of 9999-12-31 leave the range `datetime` supports. */
  lemma AddOffsetOverflow(t: DateTime)
    requires Valid(t)
    ensures AddOffset(t).year > MaxYear <==> t.year == MaxYear && t.month == 12 && t.day == 31 && t.hour >= 24 - OffsetHours
  {
  }

  // Parsing `%Y-%m-%dT%H:%M:%SZ`

  /** The canonical zero-padded layout `YYYY-MM-DDTHH:MM:SSZ` (sep is 'T'), or `YYYY-MM-DD HH:MM:SS` (sep is ' '). */
  predicate HasLayout(s: string, sep: char, zulu: bool) {
    && |s| == (if zulu then 20 else 19)
    && AllDigits(s[0..4]) && s[4] == '-' && AllDigits(s[5..7]) && s[7] == '-'
    && AllDigits(s[8..10]) && s[10] == sep && AllDigits(s[11..13]) && s[13] == ':'
    && AllDigits(s[14..16]) && s[16] == ':' && AllDigits(s[17..19])
    && (zulu ==> s[19] == 'Z')
  }

  function Fields(s: string, sep: char, zulu: bool): DateTime
    requires HasLayout(s, sep, zulu)
  {
    DateTime(ValueOf(s[0..4]), ValueOf(s[5..7]), ValueOf(s[8..10]),
             ValueOf(s[11..13]), ValueOf(s[14..16]), ValueOf(s[17..19]))
  }

  /** `datetime.strptime(s, "%Y-%m-%dT%H:%M:%SZ")`, on canonical input; `None` where it raises `ValueError`. */
  function ParseUtc(s: string): Option<DateTime> {
    if HasLayout(s, 'T', true) && Valid(Fields(s, 'T', true)) then Some(Fields(s, 'T', true)) else None
  }

  lemma SliceLeft(a: string, b: string, i: nat, j: nat)
    requires i <= j <= |a|
    ensures (a + b)[i..j] == a[i..j]
  {
  }

  lemma SliceRight(a: string, b: string, i: nat, j: nat)
    requires |a| <= i <= j <= |a| + |b|
    ensures (a + b)[i..j] == b[i - |a|..j - |a|]
  {
  }

  /** `YYYY-MM-DD`, or `HH:MM:SS` with ':' as separator. */
  function Triple(a: string, sep: char, b: string, c: string): (r: string)
    requires |b| == 2 && |c| == 2
    ensures |r| == |a| + 6
    ensures r[0..|a|] == a && r[|a|] == sep && r[|a| + 1..|a| + 3] == b
    ensures r[|a| + 3] == sep && r[|a| + 4..|a| + 6] == c
    ensures forall x :: x in r ==> x in a || x == sep || x in b || x in c
  {
    a + [sep] + b + [sep] + c
  }

  /** `strftime("%Y-%m-%d %H:%M:%S")`. */
  function Format(t: DateTime): (r: string)
    requires 0 <= t.year && 0 <= t.month && 0 <= t.day && 0 <= t.hour && 0 <= t.minute && 0 <= t.second
    ensures |r| == 19 && r[4] == '-' && r[7] == '-' && r[10] == ' ' && r[13] == ':' && r[16] == ':'
    ensures r[0..4] == Padded(t.year, 4) && r[5..7] == Padded(t.month, 2) && r[8..10] == Padded(t.day, 2)
    ensures r[11..13] == Padded(t.hour, 2) && r[14..16] == Padded(t.minute, 2) && r[17..19] == Padded(t.second, 2)
  {
    var date := Triple(Padded(t.year, 4), '-', Padded(t.month, 2), Padded(t.day, 2));
    var time := Triple(Padded(t.hour, 2), ':', Padded(t.minute, 2), Padded(t.second, 2));
    var r := date + [' '] + time;
    assert r == date + ([' '] + time);
    SliceLeft(date, [' '] + time, 0, 4);
    SliceLeft(date, [' '] + time, 5, 7);
    SliceLeft(date, [' '] + time, 8, 10);
    SliceRight(date + [' '], time, 11, 13);
    SliceRight(date + [' '], time, 14, 16);
    SliceRight(date + [' '], time, 17, 19);
    r
  }

  /** The printed time has the display layout and is a single line. */
  lemma FormatLayout(t: DateTime)
    requires 0 <= t.year && 0 <= t.month && 0 <= t.day && 0 <= t.hour && 0 <= t.minute && 0 <= t.second
    ensures HasLayout(Format(t), ' ', false)
    ensures '\n' !in Format(t)
  {
    var r := Format(t);
    forall k | 0 <= k < |r|
      ensures r[k] != '\n'
    {
      if k < 4 {
        assert r[k] == r[0..4][k];
      } else if 4 < k < 7 {
        assert r[k] == r[5..7][k - 5];
      } else if 7 < k < 10 {
        assert r[k] == r[8..10][k - 8];
      } else if 10 < k < 13 {
        assert r[k] == r[11..13][k - 11];
      } else if 13 < k < 16 {
        assert r[k] == r[14..16][k - 14];
      } else if 16 < k {
        assert r[k] == r[17..19][k - 17];
      }
    }
  }

  /** Reading the printed fields back gives the date and time that was printed. */
  lemma FormatRoundTrip(t: DateTime)
    requires Valid(t)
    ensures Fields(Format(t), ' ', false) == t
  {
    assert Pow10(2) == 100 && Pow10(4) == 10000;
  }

  /**
   * `u` is `t` eight hours later: a valid time, eight hours on along the time
   * line, with the same minutes and seconds, hour `(h + 8) % 24`, and one
   * calendar day later iff `h >= 16`.
   */
  predicate ShiftedBy(t: DateTime, u: DateTime)
    requires 1 <= t.month <= 12
  {
    && Valid(u)
    && Seconds(u) == Seconds(t) + OffsetHours * 3600
    && u.minute == t.minute && u.second == t.second
    && u.hour == (t.hour + OffsetHours) % 24
    && Ordinal(u) == Ordinal(t) + (if t.hour >= 24 - OffsetHours then 1 else 0)
  }

  /** The fields printed for `t` plus the offset, read back, are `t` moved eight hours on. */
  lemma PrintedShift(t: DateTime)
    requires Valid(t) && AddOffset(t).year <= MaxYear
    ensures ShiftedBy(t, Fields(Format(AddOffset(t)), ' ', false))
  {
    AddOffsetShifts(t);
    FormatRoundTrip(AddOffset(t));
  }

  /**
   * `convert_utc_to_gmt8`: `ValueError` for a string `strptime` rejects,
   * `OverflowError` when the shifted time passes the year 9999, else the
   * shifted time printed in the display layout.
   */
  function ConvertUtcToGmt8(s: string): (r: Attempt<string>)
    ensures ParseUtc(s).None? ==> r == Raised(ValueError)
  {
    match ParseUtc(s)
    case None => Raised(ValueError)
    case Some(t) =>
      var u := AddOffset(t);
      if u.year > MaxYear then Raised(OverflowError)
      else
        Returned(Format(u))
  }

  /** A converted time has the display layout and is a single line. */
  lemma ConvertLayout(s: string)
    requires ConvertUtcToGmt8(s).Returned?
    ensures HasLayout(ConvertUtcToGmt8(s).value, ' ', false) && '\n' !in ConvertUtcToGmt8(s).value
  {
    var t := ParseUtc(s).value;
    AddOffsetShifts(t);
    FormatLayout(AddOffset(t));
  }

  /** Conversion fails with `OverflowError` exactly on the last eight hours of 9999-12-31. */
  lemma ConvertOverflow(s: string)
    requires ParseUtc(s).Some?
    ensures var t := ParseUtc(s).value;
      ConvertUtcToGmt8(s).Raised? <==> t.year == MaxYear && t.month == 12 && t.day == 31 && t.hour >= 24 - OffsetHours
    ensures ConvertUtcToGmt8(s).Raised? ==> ConvertUtcToGmt8(s) == Raised(OverflowError)
  {
    AddOffsetOverflow(ParseUtc(s).value);
  }

  /**
   * What a successful conversion printed is the parsed time eight hours
   * later: same minutes and seconds, hour `(h + 8) % 24`, and one calendar
   * day later iff `h >= 16`.
   */
  lemma ConvertShifts(s: string)
    requires ConvertUtcToGmt8(s).Returned?
    ensures ParseUtc(s).Some? && Valid(ParseUtc(s).value)
    ensures HasLayout(ConvertUtcToGmt8(s).value, ' ', false)
    ensures ShiftedBy(ParseUtc(s).value, Fields(ConvertUtcToGmt8(s).value, ' ', false))
  {
    ConvertLayout(s);
    PrintedShift(ParseUtc(s).value);
  }
}
