/** Python's `datetime` as far as the service uses it: proleptic Gregorian
    dates in years 1..9999, day arithmetic with `timedelta(days=n)` (which
    raises when it leaves that range), chronological comparison, and the two
    formats `%Y-%m-%d` and `%Y-%m-%d %H:%M:%S` for both `strftime` and
    `strptime`. */
module Calendar {
  import opened Wrappers
  import opened Text

  /** A naive `datetime` with second resolution. */
  datatype DateTime = DateTime(year: nat, month: nat, day: nat, hour: nat, minute: nat, second: nat)

  const MinYear := 1
  const MaxYear := 9999

  predicate IsLeap(y: int) {
    y % 4 == 0 && (y % 100 != 0 || y % 400 == 0)
  }

  function DaysInMonth(y: int, m: int): (n: int)
    requires 1 <= m <= 12
    ensures 28 <= n <= 31
  {
    if m == 2 then (if IsLeap(y) then 29 else 28)
    else if m == 4 || m == 6 || m == 9 || m == 11 then 30
    else 31
  }

  function YearLength(y: int): int {
    if IsLeap(y) then 366 else 365
  }

  predicate ValidDate(t: DateTime) {
    MinYear <= t.year <= MaxYear && 1 <= t.month <= 12 && 1 <= t.day <= DaysInMonth(t.year, t.month)
  }

  predicate ValidTime(t: DateTime) {
    t.hour < 24 && t.minute < 60 && t.second < 60
  }

  /** A value Python's `datetime` constructor accepts. */
  predicate Valid(t: DateTime) {
    ValidDate(t) && ValidTime(t)
  }

  /* ---------------------------------------------------------------------- */
  /* Ordinal day numbers (date.toordinal(): 0001-01-01 is day 1)             */
  /* ---------------------------------------------------------------------- */

  function DaysBeforeYear(y: nat): nat
    requires y >= 1
  {
    var p := y - 1;
    365 * p + p / 4 - p / 100 + p / 400
  }

  function DaysBeforeMonth(y: int, m: int): nat
    requires 1 <= m <= 12
  {
    if m == 1 then 0 else DaysBeforeMonth(y, m - 1) + DaysInMonth(y, m - 1)
  }

  function Ordinal(t: DateTime): int
    requires ValidDate(t)
  {
    DaysBeforeYear(t.year) + DaysBeforeMonth(t.year, t.month) + t.day
  }

  /** The ordinal of 9999-12-31, the last day `datetime` can represent. */
  const MaxOrdinal := 3652059

  lemma DaysBeforeYearStep(y: nat)
    requires y >= 1
    ensures DaysBeforeYear(y + 1) == DaysBeforeYear(y) + YearLength(y)
  {
    Multiples(y);
    LeapCount(y);
  }

  /** Counting multiples of 4, 100 and 400: year `y` adds one to each count
      it is a multiple of. */
  lemma Multiples(y: nat)
    requires y >= 1
    ensures y / 4 == (y - 1) / 4 + (if y % 4 == 0 then 1 else 0)
    ensures y / 100 == (y - 1) / 100 + (if y % 100 == 0 then 1 else 0)
    ensures y / 400 == (y - 1) / 400 + (if y % 400 == 0 then 1 else 0)
  {
  }

  /** A year's length by inclusion and exclusion of the three counts. */
  lemma LeapCount(y: nat)
    ensures YearLength(y) == 365 + (if y % 4 == 0 then 1 else 0) - (if y % 100 == 0 then 1 else 0) + (if y % 400 == 0 then 1 else 0)
  {
    if y % 400 == 0 {
      MultipleOf(y, 400, 100);
    }
    if y % 100 == 0 {
      MultipleOf(y, 100, 4);
    }
  }

  /** A multiple of `big` is a multiple of each `small` dividing it. */
  lemma MultipleOf(y: nat, big: nat, small: nat)
    requires (big == 400 && small == 100) || (big == 100 && small == 4)
    requires y % big == 0
    ensures y % small == 0
  {
    var k := y / big;
    if big == 400 {
      assert y == 100 * (4 * k);
    } else {
      assert y == 4 * (25 * k);
    }
  }

  lemma DaysBeforeDecember(y: int)
    ensures DaysBeforeMonth(y, 12) + 31 == YearLength(y)
  {
    var f := DaysInMonth(y, 2);
    assert DaysBeforeMonth(y, 2) == 31;
    assert DaysBeforeMonth(y, 3) == 31 + f;
    assert DaysBeforeMonth(y, 4) == 62 + f;
    assert DaysBeforeMonth(y, 5) == 92 + f;
    assert DaysBeforeMonth(y, 6) == 123 + f;
    assert DaysBeforeMonth(y, 7) == 153 + f;
    assert DaysBeforeMonth(y, 8) == 184 + f;
    assert DaysBeforeMonth(y, 9) == 215 + f;
    assert DaysBeforeMonth(y, 10) == 245 + f;
    assert DaysBeforeMonth(y, 11) == 276 + f;
    assert DaysBeforeMonth(y, 12) == 306 + f;
  }

  lemma {:induction false} DaysBeforeMonthBound(y: int, m: int)
    requires 1 <= m <= 12
    ensures DaysBeforeMonth(y, m) + DaysInMonth(y, m) <= YearLength(y)
    decreases 12 - m
  {
    if m == 12 {
      DaysBeforeDecember(y);
    } else {
      DaysBeforeMonthBound(y, m + 1);
    }
  }

  lemma {:induction false} DaysBeforeYearMonotone(y1: nat, y2: nat)
    requires 1 <= y1 <= y2
    ensures DaysBeforeYear(y1) + (if y1 < y2 then YearLength(y1) else 0) <= DaysBeforeYear(y2)
    decreases y2 - y1
  {
    if y1 < y2 {
      DaysBeforeYearStep(y1);
      if y1 + 1 < y2 {
        DaysBeforeYearMonotone(y1 + 1, y2);
      }
    }
  }

  /** Every representable date has an ordinal in 1..MaxOrdinal. */
  lemma OrdinalRange(t: DateTime)
    requires ValidDate(t)
    ensures 1 <= Ordinal(t) <= MaxOrdinal
  {
    DaysBeforeMonthBound(t.year, t.month);
    DaysBeforeYearMonotone(t.year, MaxYear + 1);
    assert DaysBeforeYear(MaxYear + 1) == MaxOrdinal;
  }

  predicate IsFirstDay(t: DateTime) {
    t.year == MinYear && t.month == 1 && t.day == 1
  }

  predicate IsLastDay(t: DateTime) {
    t.year == MaxYear && t.month == 12 && t.day == 31
  }

  /** The same time of day on the following calendar day. */
  function NextDay(t: DateTime): (r: DateTime)
    requires Valid(t) && !IsLastDay(t)
    ensures Valid(r) && r.hour == t.hour && r.minute == t.minute && r.second == t.second
  {
    if t.day < DaysInMonth(t.year, t.month) then
      t.(day := t.day + 1)
    else if t.month < 12 then
      t.(month := t.month + 1, day := 1)
    else
      t.(year := t.year + 1, month := 1, day := 1)
  }

  /** The following day is one ordinal later. */
  lemma NextDayOrdinal(t: DateTime)
    requires Valid(t) && !IsLastDay(t)
    ensures Ordinal(NextDay(t)) == Ordinal(t) + 1
  {
    if t.day == DaysInMonth(t.year, t.month) && t.month == 12 {
      DaysBeforeDecember(t.year);
      DaysBeforeYearStep(t.year);
    }
  }

  /** The same time of day on the preceding calendar day. */
  function PrevDay(t: DateTime): (r: DateTime)
    requires Valid(t) && !IsFirstDay(t)
    ensures Valid(r) && r.hour == t.hour && r.minute == t.minute && r.second == t.second
  {
    if t.day > 1 then
      t.(day := t.day - 1)
    else if t.month > 1 then
      t.(month := t.month - 1, day := DaysInMonth(t.year, t.month - 1))
    else
      t.(year := t.year - 1, month := 12, day := 31)
  }

  /** The preceding day is one ordinal earlier. */
  lemma PrevDayOrdinal(t: DateTime)
    requires Valid(t) && !IsFirstDay(t)
    ensures Ordinal(PrevDay(t)) + 1 == Ordinal(t)
  {
    if t.day == 1 && t.month == 1 {
      DaysBeforeDecember(t.year - 1);
      DaysBeforeYearStep(t.year - 1);
    }
  }

  lemma FirstDayOrdinal(t: DateTime)
    requires ValidDate(t)
    ensures IsFirstDay(t) <==> Ordinal(t) == 1
  {
    OrdinalRange(t);
    if !IsFirstDay(t) && t.year > 1 {
      DaysBeforeYearMonotone(1, t.year);
    }
  }

  lemma LastDayOrdinal(t: DateTime)
    requires ValidDate(t)
    ensures IsLastDay(t) <==> Ordinal(t) == MaxOrdinal
  {
    DaysBeforeDecember(MaxYear);
    assert DaysBeforeYear(MaxYear + 1) == MaxOrdinal;
    DaysBeforeYearStep(MaxYear);
    if !IsLastDay(t) {
      DaysBeforeMonthBound(t.year, t.month);
      if t.year < MaxYear {
        DaysBeforeYearMonotone(t.year, MaxYear);
      } else if t.month < 12 {
        DaysBeforeMonthBound(t.year, 12);
        DaysBeforeMonthPlus(t.year, t.month);
      }
    }
  }

  lemma {:induction false} DaysBeforeMonthPlus(y: int, m: int)
    requires 1 <= m < 12
    ensures DaysBeforeMonth(y, m) + DaysInMonth(y, m) <= DaysBeforeMonth(y, 12)
    decreases 12 - m
  {
    if m + 1 < 12 {
      DaysBeforeMonthPlus(y, m + 1);
    }
  }

  /** `t + timedelta(days=n)`: the same time of day on the day whose ordinal
      is `n` more, or `None` (Python raises `OverflowError`) when that day is
      outside 0001-01-01..9999-12-31. */
  function AddDays(t: DateTime, n: int): (r: Option<DateTime>)
    requires Valid(t)
    ensures r.Some? ==> Valid(r.value) && Ordinal(r.value) == Ordinal(t) + n
    ensures r.Some? ==> r.value.hour == t.hour && r.value.minute == t.minute && r.value.second == t.second
    ensures r.None? <==> !(1 <= Ordinal(t) + n <= MaxOrdinal)
    decreases if n >= 0 then n else -n
  {
    OrdinalRange(t);
    if n == 0 then Some(t)
    else if n > 0 then
      LastDayOrdinal(t);
      if IsLastDay(t) then None
      else
        NextDayOrdinal(t);
        AddDays(NextDay(t), n - 1)
    else
      FirstDayOrdinal(t);
      if IsFirstDay(t) then None
      else
        PrevDayOrdinal(t);
        AddDays(PrevDay(t), n + 1)
  }

  /** Two valid dates with the same ordinal are the same date. */
  lemma {:induction false} OrdinalInjective(a: DateTime, b: DateTime)
    requires ValidDate(a) && ValidDate(b) && Ordinal(a) == Ordinal(b)
    ensures a.year == b.year && a.month == b.month && a.day == b.day
  {
    if a.year < b.year {
      DaysBeforeMonthBound(a.year, a.month);
      DaysBeforeYearMonotone(a.year, b.year);
      assert false;
    } else if b.year < a.year {
      DaysBeforeMonthBound(b.year, b.month);
      DaysBeforeYearMonotone(b.year, a.year);
      assert false;
    } else if a.month < b.month {
      DaysBeforeMonthMonotone(a.year, a.month, b.month);
      assert false;
    } else if b.month < a.month {
      DaysBeforeMonthMonotone(a.year, b.month, a.month);
      assert false;
    }
  }

  lemma {:induction false} DaysBeforeMonthMonotone(y: int, m1: int, m2: int)
    requires 1 <= m1 < m2 <= 12
    ensures DaysBeforeMonth(y, m1) + DaysInMonth(y, m1) <= DaysBeforeMonth(y, m2)
    decreases m2 - m1
  {
    if m1 + 1 < m2 {
      DaysBeforeMonthMonotone(y, m1 + 1, m2);
    }
  }

  /** Shifting forward then back by the same number of days returns the
      starting point. */
  lemma AddDaysInverse(t: DateTime, n: int)
    requires Valid(t) && AddDays(t, n).Some?
    ensures AddDays(AddDays(t, n).value, -n) == Some(t)
  {
    OrdinalRange(t);
    var u := AddDays(t, n).value;
    var back := AddDays(u, -n);
    assert back.Some?;
    OrdinalInjective(back.value, t);
  }

  /* ---------------------------------------------------------------------- */
  /* Comparison                                                              */
  /* ---------------------------------------------------------------------- */

  /** Python's `a <= b` on `datetime`. */
  predicate Le(a: DateTime, b: DateTime) {
    a.year < b.year || (a.year == b.year &&
    (a.month < b.month || (a.month == b.month &&
    (a.day < b.day || (a.day == b.day &&
    (a.hour < b.hour || (a.hour == b.hour &&
    (a.minute < b.minute || (a.minute == b.minute && a.second <= b.second)))))))))
  }

  /** Python's `a <= b` on the `date()` parts. */
  predicate DateLe(a: DateTime, b: DateTime) {
    a.year < b.year || (a.year == b.year && (a.month < b.month || (a.month == b.month && a.day <= b.day)))
  }

  /** Python's `a < b` on the `date()` parts. */
  predicate DateLt(a: DateTime, b: DateTime) {
    DateLe(a, b) && !DateLe(b, a)
  }

  /** Moving back a positive number of days gives an earlier moment. */
  lemma AddDaysBackIsEarlier(t: DateTime, n: int)
    requires Valid(t) && n > 0 && AddDays(t, -n).Some?
    ensures Le(AddDays(t, -n).value, t) && AddDays(t, -n).value != t
  {
    var u := AddDays(t, -n).value;
    if DateLe(t, u) {
      OrdinalMonotone(t, u);
      assert false;
    }
  }

  lemma OrdinalMonotone(a: DateTime, b: DateTime)
    requires ValidDate(a) && ValidDate(b) && DateLe(a, b)
    ensures Ordinal(a) <= Ordinal(b)
  {
    if a.year < b.year {
      DaysBeforeMonthBound(a.year, a.month);
      DaysBeforeYearMonotone(a.year, b.year);
    } else if a.month < b.month {
      DaysBeforeMonthMonotone(a.year, a.month, b.month);
    }
  }

  /* ---------------------------------------------------------------------- */
  /* strftime / strptime                                                     */
  /* ---------------------------------------------------------------------- */

  /** `strftime("%Y-%m-%d")`. */
  function FormatDate(t: DateTime): (s: string)
    ensures |s| == 10
  {
    Pad(t.year, 4) + "-" + Pad(t.month, 2) + "-" + Pad(t.day, 2)
  }

  /** `strftime("%H:%M:%S")`. */
  function FormatTime(t: DateTime): (s: string)
    ensures |s| == 8
  {
    Pad(t.hour, 2) + ":" + Pad(t.minute, 2) + ":" + Pad(t.second, 2)
  }

  /** `strftime("%Y-%m-%d %H:%M:%S")`. */
  function FormatDateTime(t: DateTime): (s: string)
    ensures |s| == 19
  {
    FormatDate(t) + " " + FormatTime(t)
  }

  /** Midnight renders as ` 00:00:00` after its date. */
  lemma MidnightText(t: DateTime)
    requires t.hour == 0 && t.minute == 0 && t.second == 0
    ensures FormatDateTime(t) == FormatDate(t) + " 00:00:00"
  {
    assert FormatTime(t) == "00:00:00" by {
      assert Pad(0, 2) == "00";
    }
  }

  /** The last second of a day renders as ` 23:59:59` after its date. */
  lemma LastSecondText(t: DateTime)
    requires t.hour == 23 && t.minute == 59 && t.second == 59
    ensures FormatDateTime(t) == FormatDate(t) + " 23:59:59"
  {
    assert FormatTime(t) == "23:59:59" by {
      assert Pad(23, 2) == "23" && Pad(59, 2) == "59";
    }
  }

  /** `isoformat()` of a value whose microseconds are zero. */
  function IsoFormat(t: DateTime): string {
    FormatDate(t) + "T" + FormatTime(t)
  }

  /** The shape `DDDD-DD-DD`. */
  predicate DateShape(s: string) {
    |s| == 10 && AllDigits(s[0..4]) && s[4] == '-' && AllDigits(s[5..7]) && s[7] == '-' && AllDigits(s[8..10])
  }

  /** The shape `DD:DD:DD`. */
  predicate TimeShape(s: string) {
    |s| == 8 && AllDigits(s[0..2]) && s[2] == ':' && AllDigits(s[3..5]) && s[5] == ':' && AllDigits(s[6..8])
  }

  /** `datetime.strptime(s, "%Y-%m-%d")`: midnight of the day `s` names, or
      `None` where Python raises `ValueError`. Every accepted string is the
      canonical rendering of its result. */
  function ParseDate(s: string): (r: Option<DateTime>)
    ensures r.Some? ==> Valid(r.value) && r.value.hour == 0 && r.value.minute == 0 && r.value.second == 0
    ensures r.Some? ==> FormatDate(r.value) == s
  {
    if !DateShape(s) then None
    else
      var t := DateTime(NumOf(s[0..4]), NumOf(s[5..7]), NumOf(s[8..10]), 0, 0, 0);
      if ValidDate(t) then
        DateShapeRenders(s);
        Some(t)
      else None
  }

  /** The digit groups of a `DDDD-DD-DD` string, read and written back,
      give the string. */
  lemma DateShapeRenders(s: string)
    requires DateShape(s)
    ensures Pad(NumOf(s[0..4]), 4) + "-" + Pad(NumOf(s[5..7]), 2) + "-" + Pad(NumOf(s[8..10]), 2) == s
  {
    assert Pad(NumOf(s[0..4]), 4) == s[0..4] by {
      PadNumOf(s[0..4]);
    }
    assert Pad(NumOf(s[5..7]), 2) == s[5..7] by {
      PadNumOf(s[5..7]);
    }
    assert Pad(NumOf(s[8..10]), 2) == s[8..10] by {
      PadNumOf(s[8..10]);
    }
    assert s == s[0..4] + "-" + s[5..7] + "-" + s[8..10];
  }

  /** The `%H:%M:%S` part of a timestamp, read onto the day `d`. */
  function ParseClock(d: DateTime, u: string): (r: Option<DateTime>)
    requires ValidDate(d)
    ensures r.Some? ==> Valid(r.value) && FormatTime(r.value) == u
    ensures r.Some? ==> r.value.year == d.year && r.value.month == d.month && r.value.day == d.day
  {
    if !TimeShape(u) then None
    else
      var t := d.(hour := NumOf(u[0..2]), minute := NumOf(u[3..5]), second := NumOf(u[6..8]));
      if ValidTime(t) then
        TimeShapeRenders(u);
        Some(t)
      else None
  }

  /** The digit groups of a `DD:DD:DD` string, read and written back, give
      the string. */
  lemma TimeShapeRenders(u: string)
    requires TimeShape(u)
    ensures Pad(NumOf(u[0..2]), 2) + ":" + Pad(NumOf(u[3..5]), 2) + ":" + Pad(NumOf(u[6..8]), 2) == u
  {
    assert Pad(NumOf(u[0..2]), 2) == u[0..2] by {
      PadNumOf(u[0..2]);
    }
    assert Pad(NumOf(u[3..5]), 2) == u[3..5] by {
      PadNumOf(u[3..5]);
    }
    assert Pad(NumOf(u[6..8]), 2) == u[6..8] by {
      PadNumOf(u[6..8]);
    }
    assert u == u[0..2] + ":" + u[3..5] + ":" + u[6..8];
  }

  /** `datetime.strptime(s, "%Y-%m-%d %H:%M:%S")`, or `None` where Python
      raises `ValueError`. Every accepted string is the canonical rendering
      of its result. */
  function ParseDateTime(s: string): (r: Option<DateTime>)
    ensures r.Some? ==> Valid(r.value) && FormatDateTime(r.value) == s
  {
    if |s| != 19 || s[10] != ' ' then None
    else match ParseDate(s[..10])
      case None => None
      case Some(d) =>
        match ParseClock(d, s[11..])
        case None => None
        case Some(t) =>
          assert FormatDate(t) == FormatDate(d);
          assert s == s[..10] + " " + s[11..];
          Some(t)
  }

  lemma FormatDateSlices(t: DateTime)
    requires ValidDate(t)
    ensures var s := FormatDate(t);
      s[0..4] == Pad(t.year, 4) && s[4] == '-' && s[5..7] == Pad(t.month, 2) && s[7] == '-' && s[8..10] == Pad(t.day, 2)
  {
  }

  /** A valid date renders to a string that parses back to it (at midnight). */
  lemma ParseFormatDate(t: DateTime)
    requires ValidDate(t)
    ensures ParseDate(FormatDate(t)) == Some(t.(hour := 0, minute := 0, second := 0))
  {
    var s := FormatDate(t);
    FormatDateSlices(t);
    NumOfPad(t.year, 4);
    NumOfPad(t.month, 2);
    NumOfPad(t.day, 2);
  }

  /** A valid moment renders to a string that parses back to it. */
  lemma ParseFormatDateTime(t: DateTime)
    requires Valid(t)
    ensures ParseDateTime(FormatDateTime(t)) == Some(t)
  {
    var s := FormatDateTime(t);
    assert s[..10] == FormatDate(t);
    ParseFormatDate(t);
    var u := s[11..];
    assert u == FormatTime(t);
    assert u[0..2] == Pad(t.hour, 2) && u[3..5] == Pad(t.minute, 2) && u[6..8] == Pad(t.second, 2);
    NumOfPad(t.hour, 2);
    NumOfPad(t.minute, 2);
    NumOfPad(t.second, 2);
  }

  /** A common leading dash changes neither order nor equality. */
  lemma DashLexLe(x: string, y: string)
    ensures LexLe("-" + x, "-" + y) <==> LexLe(x, y)
    ensures "-" + x == "-" + y <==> x == y
  {
    LexLeConcat("-", x, "-", y);
    if "-" + x == "-" + y {
      assert x == ("-" + x)[1..];
    }
  }

  /** The `-%m-%d` part of a date's rendering. */
  function MonthDayText(t: DateTime): string {
    ("-" + Pad(t.month, 2)) + ("-" + Pad(t.day, 2))
  }

  /** For valid dates, comparing their `%Y-%m-%d` strings (as the search
      functions do) agrees with comparing the dates. */
  lemma FormatDateOrder(a: DateTime, b: DateTime)
    requires ValidDate(a) && ValidDate(b)
    ensures LexLe(FormatDate(a), FormatDate(b)) <==> DateLe(a, b)
  {
    var ya, yb := Pad(a.year, 4), Pad(b.year, 4);
    FormatDateSplit(a);
    FormatDateSplit(b);
    assert LexLe(FormatDate(a), FormatDate(b)) <==> (ya != yb && LexLe(ya, yb)) || (ya == yb && LexLe(MonthDayText(a), MonthDayText(b))) by {
      LexLeConcat(ya, MonthDayText(a), yb, MonthDayText(b));
    }
    assert LexLe(ya, yb) <==> a.year <= b.year by {
      PadLexLe(a.year, b.year, 4);
    }
    assert ya == yb <==> a.year == b.year by {
      PadInjective(a.year, b.year, 4);
    }
    MonthDayOrder(a, b);
  }

  /** A rendered date is its year followed by its `-%m-%d` part. */
  lemma FormatDateSplit(t: DateTime)
    ensures FormatDate(t) == Pad(t.year, 4) + MonthDayText(t)
  {
    Regroup(Pad(t.year, 4), "-", Pad(t.month, 2), "-", Pad(t.day, 2));
  }

  lemma Regroup(a: string, b: string, c: string, d: string, e: string)
    ensures a + b + c + d + e == a + ((b + c) + (d + e))
  {
  }

  /** Within a year, comparing the `-%m-%d` parts compares the dates. */
  lemma MonthDayOrder(a: DateTime, b: DateTime)
    requires ValidDate(a) && ValidDate(b)
    ensures LexLe(MonthDayText(a), MonthDayText(b)) <==> a.month < b.month || (a.month == b.month && a.day <= b.day)
  {
    var ma, mb := Pad(a.month, 2), Pad(b.month, 2);
    var da, db := Pad(a.day, 2), Pad(b.day, 2);
    LexLeConcat("-" + ma, "-" + da, "-" + mb, "-" + db);
    DashLexLe(ma, mb);
    DashLexLe(da, db);
    PadLexLe(a.month, b.month, 2);
    PadLexLe(a.day, b.day, 2);
    PadInjective(a.month, b.month, 2);
  }

  /* ---------------------------------------------------------------------- */
  /* Weekday                                                                 */
  /* ---------------------------------------------------------------------- */

  /** 0001-01-01, the first day of the proleptic Gregorian calendar: a
      Monday. */
  const FirstDay := DateTime(MinYear, 1, 1, 0, 0, 0)

  /** `date.weekday()`: Monday is 0 and Sunday is 6. Days count from
      0001-01-01, a Monday. */
  function Weekday(t: DateTime): (w: int)
    requires ValidDate(t)
    ensures 0 <= w < 7
    ensures IsFirstDay(t) ==> w == 0
  {
    (Ordinal(t) + 6) % 7
  }

  /** `strftime("%A")` in the C locale. */
  function WeekdayName(t: DateTime): string
    requires ValidDate(t)
  {
    ["Monday", "Tuesday", "Wednesday", "Thursday", "Friday", "Saturday", "Sunday"][Weekday(t)]
  }

  /** Weekdays differ as ordinals do, modulo seven. With 0001-01-01 a
      Monday this fixes the weekday of every date. */
  lemma WeekdayShift(a: DateTime, b: DateTime)
    requires ValidDate(a) && ValidDate(b)
    ensures (Weekday(b) - Weekday(a)) % 7 == (Ordinal(b) - Ordinal(a)) % 7
  {
    var x, y := Ordinal(a), Ordinal(b);
    assert Weekday(a) == (x + 6) % 7 && Weekday(b) == (y + 6) % 7;
    ShiftMod(x, y);
  }

  lemma ShiftMod(x: int, y: int)
    ensures (((y + 6) % 7) - ((x + 6) % 7)) % 7 == (y - x) % 7
  {
    var qx, rx := (x + 6) / 7, (x + 6) % 7;
    var qy, ry := (y + 6) / 7, (y + 6) % 7;
    assert y - x == 7 * (qy - qx) + (ry - rx);
    if ry < rx {
      assert y - x == 7 * (qy - qx - 1) + (ry - rx + 7);
    }
  }

  /** 0001-01-01 is named a Monday. */
  lemma FirstDayIsMonday()
    ensures WeekdayName(FirstDay) == "Monday"
  {
  }

  /** Two known dates: 2024-01-01 was a Monday and 2026-10-10 a Saturday. */
  lemma WeekdayKnownDates()
    ensures WeekdayName(DateTime(2024, 1, 1, 0, 0, 0)) == "Monday"
    ensures WeekdayName(DateTime(2026, 10, 10, 0, 0, 0)) == "Saturday"
  {
    assert Ordinal(DateTime(2024, 1, 1, 0, 0, 0)) == 738886;
    assert DaysBeforeMonth(2026, 10) == 273;
    assert Ordinal(DateTime(2026, 10, 10, 0, 0, 0)) == 739899;
  }

  /** The weekday advances by one from each day to the next. */
  lemma WeekdayNext(t: DateTime)
    requires Valid(t) && !IsLastDay(t)
    ensures Weekday(NextDay(t)) == (Weekday(t) + 1) % 7
  {
    NextDayOrdinal(t);
    WeekdayStep(Ordinal(t));
  }

  lemma WeekdayStep(o: int)
    ensures (o + 1 + 6) % 7 == ((o + 6) % 7 + 1) % 7
  {
    var q, r := (o + 6) / 7, (o + 6) % 7;
    assert o + 7 == 7 * q + r + 1;
    if r == 6 {
      assert o + 7 == 7 * (q + 1);
    }
  }
}
