/**
 * Calendar dates. The application keys every meal by its local `YYYY-MM-DD`
 * string and compares those strings for equality; the model keys meals by an
 * integer day number (days since 1970-01-01 in the proleptic Gregorian
 * calendar) and keeps the string form as `FormatDate`. `FormatDateInjective`
 * is what makes the two comparisons agree.
 */
module Dates {
  import opened Wrappers
  import opened JsStrings
  import opened JsNumbers

  /** A local calendar date; `month` is 1-based (the source's `getMonth() + 1`). */
  datatype CivilDate = CivilDate(year: int, month: int, day: int)

  predicate IsLeapYear(y: int) {
    y % 4 == 0 && (y % 100 != 0 || y % 400 == 0)
  }

  /** `new Date(year, month, 0).getDate()` with a 1-based `month`: the month's last day. */
  function DaysInMonth(year: int, month: int): (n: int)
    requires 1 <= month <= 12
    ensures 28 <= n <= 31
    ensures n == 29 <==> month == 2 && IsLeapYear(year)
    ensures n == 28 <==> month == 2 && !IsLeapYear(year)
    ensures month == 4 || month == 6 || month == 9 || month == 11 <==> n == 30
  {
    if month == 2 then (if IsLeapYear(year) then 29 else 28)
    else if month == 4 || month == 6 || month == 9 || month == 11 then 30
    else 31
  }

  /** A real calendar day of a year of the common era. */
  predicate ValidDate(d: CivilDate) {
    0 <= d.year && 1 <= d.month <= 12 && 1 <= d.day <= DaysInMonth(d.year, d.month)
  }

  /** Days since 1970-01-01 (a March-based year count, so that February is last). */
  function DayNumber(d: CivilDate): int {
    var y := if d.month <= 2 then d.year - 1 else d.year;
    var era := y / 400;
    var yoe := y - era * 400;
    var mp := if d.month > 2 then d.month - 3 else d.month + 9;
    var doy := (153 * mp + 2) / 5 + d.day - 1;
    var doe := yoe * 365 + yoe / 4 - yoe / 100 + doy;
    era * 146097 + doe - 719468
  }

  /** Within one month, the next day has the next day number. */
  lemma NextDayInMonth(y: int, m: int, d: int)
    ensures DayNumber(CivilDate(y, m, d + 1)) == DayNumber(CivilDate(y, m, d)) + 1
  {
  }

  /** `getDay()`: 0 is Sunday; 1970-01-01 was a Thursday. */
  function Weekday(dayNumber: int): (w: int)
    ensures 0 <= w < 7
  {
    (dayNumber + 4) % 7
  }

  /** The weekdays follow each other: the day after a Saturday is a Sunday. */
  lemma WeekdayNext(n: int)
    ensures Weekday(n + 1) == (Weekday(n) + 1) % 7
    ensures Weekday(n + 7) == Weekday(n)
  {
  }

  /** 1970-01-04 was a Sunday, and 1970-01-01 a Thursday. */
  lemma EpochWeek()
    ensures DayNumber(CivilDate(1970, 1, 1)) == 0
    ensures Weekday(DayNumber(CivilDate(1970, 1, 4))) == 0
    ensures Weekday(DayNumber(CivilDate(1970, 1, 1))) == 4
  {
  }

  /** The day number of the first of a March-based year, before `DayNumber`'s epoch shift. */
  function YearStart(y: int): int {
    var era := y / 400;
    var yoe := y - era * 400;
    era * 146097 + yoe * 365 + yoe / 4 - yoe / 100
  }

  /** A March-based year has 366 days when the February ending it is a leap February. */
  lemma YearLength(y: int)
    ensures YearStart(y + 1) == YearStart(y) + (if IsLeapYear(y + 1) then 366 else 365)
  {
    var era := y / 400;
    var yoe := y - era * 400;
    EraSplit(y, era, yoe);
    if yoe < 399 {
      EraSplit(y + 1, era, yoe + 1);
      LeapInEra(era, yoe + 1);
      StepDiv4(yoe);
      StepDiv100(yoe);
    } else {
      EraSplit(y + 1, era + 1, 0);
      LeapInEra(era + 1, 0);
    }
  }

  /** `y` splits into whole 400-year eras and a year of its era. */
  lemma EraSplit(y: int, era: int, yoe: int)
    requires y == era * 400 + yoe && 0 <= yoe < 400
    ensures y / 400 == era && y - (y / 400) * 400 == yoe
  {
  }

  /** Within an era, leap years are decided by the year of the era. */
  lemma LeapInEra(era: int, yoe: int)
    requires 0 <= yoe < 400
    ensures IsLeapYear(era * 400 + yoe) <==> yoe % 4 == 0 && (yoe % 100 != 0 || yoe == 0)
  {
    ShiftMod4(era * 100, yoe);
    ShiftMod100(era * 4, yoe);
    ShiftMod400(era, yoe);
  }

  lemma ShiftMod4(q: int, r: int)
    ensures (q * 4 + r) % 4 == r % 4
  {
  }

  lemma ShiftMod100(q: int, r: int)
    ensures (q * 100 + r) % 100 == r % 100
  {
  }

  lemma ShiftMod400(q: int, r: int)
    requires 0 <= r < 400
    ensures (q * 400 + r) % 400 == r
  {
  }

  lemma StepDiv4(r: int)
    requires 0 <= r
    ensures (r + 1) / 4 == r / 4 + (if (r + 1) % 4 == 0 then 1 else 0)
  {
  }

  lemma StepDiv100(r: int)
    requires 0 <= r
    ensures (r + 1) / 100 == r / 100 + (if (r + 1) % 100 == 0 then 1 else 0)
  {
  }

  /** The first of a month lies as many days after the first of the previous month as that month is long. */
  lemma MonthLength(y: int, m: int)
    requires 1 <= m <= 11
    ensures DayNumber(CivilDate(y, m + 1, 1)) == DayNumber(CivilDate(y, m, 1)) + DaysInMonth(y, m)
  {
    if m == 1 {
      DayNumberSplit(CivilDate(y, 1, 1), y - 1, 10);
      DayNumberSplit(CivilDate(y, 2, 1), y - 1, 11);
      MonthOffsetStep(y, 1, 10);
    } else if m == 2 {
      DayNumberSplit(CivilDate(y, 2, 1), y - 1, 11);
      DayNumberSplit(CivilDate(y, 3, 1), y, 0);
      FebruaryLength(y);
    } else {
      DayNumberSplit(CivilDate(y, m, 1), y, m - 3);
      DayNumberSplit(CivilDate(y, m + 1, 1), y, m - 2);
      MonthOffsetStep(y, m, m - 3);
    }
  }

  /** From the first of February to the first of March: the whole of February, 28 or 29 days. */
  lemma FebruaryLength(y: int)
    ensures YearStart(y) == YearStart(y - 1) + MonthOffset(11) + DaysInMonth(y, 2)
  {
    YearLength(y - 1);
    assert MonthOffset(11) == 337;
  }

  /** The offsets of consecutive months other than February differ by the length of the earlier one. */
  lemma MonthOffsetStep(y: int, m: int, mp: int)
    requires 1 <= m <= 11 && m != 2 && mp == (if m > 2 then m - 3 else m + 9)
    ensures MonthOffset(mp + 1) - MonthOffset(mp) == DaysInMonth(y, m)
  {
  }

  /** The days before the first of the month `mp` months after March. */
  function MonthOffset(mp: int): int {
    (153 * mp + 2) / 5
  }

  /** `DayNumber` is the March-based year's start, plus the month's offset, plus the day. */
  lemma DayNumberSplit(d: CivilDate, y: int, mp: int)
    requires y == (if d.month <= 2 then d.year - 1 else d.year)
    requires mp == (if d.month > 2 then d.month - 3 else d.month + 9)
    ensures DayNumber(d) == YearStart(y) + MonthOffset(mp) + d.day - 1 - 719468
  {
  }

  /** New Year's Day lies 31 days after the first of December. */
  lemma YearTurn(y: int)
    ensures DayNumber(CivilDate(y + 1, 1, 1)) == DayNumber(CivilDate(y, 12, 1)) + 31
  {
  }

  /** Within a month, the day number grows with the day. */
  lemma DayInMonth(d: CivilDate)
    ensures DayNumber(d) == DayNumber(CivilDate(d.year, d.month, 1)) + d.day - 1
  {
  }

  /** `(y, m)` comes strictly before `(y2, m2)`. */
  predicate MonthBefore(y: int, m: int, y2: int, m2: int) {
    y < y2 || (y == y2 && m < m2)
  }

  /** Every later month starts after the whole of an earlier month. */
  lemma {:induction false} LaterMonthStartsAfter(y: int, m: int, y2: int, m2: int)
    requires 1 <= m <= 12 && 1 <= m2 <= 12 && MonthBefore(y, m, y2, m2)
    ensures DayNumber(CivilDate(y2, m2, 1)) >= DayNumber(CivilDate(y, m, 1)) + DaysInMonth(y, m)
    decreases 12 * (y2 - y) + m2 - m
  {
    var (py, pm) := if m2 == 1 then (y2 - 1, 12) else (y2, m2 - 1);
    if m2 == 1 {
      YearTurn(py);
    } else {
      MonthLength(py, pm);
    }
    if (py, pm) != (y, m) {
      LaterMonthStartsAfter(y, m, py, pm);
    }
  }

  /** Different valid dates have different day numbers. */
  lemma DayNumberInjective(a: CivilDate, b: CivilDate)
    requires ValidDate(a) && ValidDate(b) && DayNumber(a) == DayNumber(b)
    ensures a == b
  {
    DayInMonth(a);
    DayInMonth(b);
    if MonthBefore(a.year, a.month, b.year, b.month) {
      LaterMonthStartsAfter(a.year, a.month, b.year, b.month);
    } else if MonthBefore(b.year, b.month, a.year, a.month) {
      LaterMonthStartsAfter(b.year, b.month, a.year, a.month);
    }
  }

  /** `${year}-${pad2(month)}-${pad2(day)}`: the local `YYYY-MM-DD` form. */
  function FormatDate(d: CivilDate): string {
    NatToString(if d.year < 0 then 0 else d.year) + "-" + PadStart2(NatToString(if d.month < 0 then 0 else d.month))
      + "-" + PadStart2(NatToString(if d.day < 0 then 0 else d.day))
  }

  /** Two decimal digits, as `FormatDate` writes month and day. */
  function TwoDigits(s: string): Option<nat>
    requires |s| == 2
  {
    if IsDigit(s[0]) && IsDigit(s[1]) then Some(DigitsValue(s)) else None
  }

  lemma PaddedTwoDigits(n: nat)
    requires n < 100
    ensures |PadStart2(NatToString(n))| == 2
    ensures TwoDigits(PadStart2(NatToString(n))) == Some(n)
  {
    var t := NatToString(n);
    var p := PadStart2(t);
    DigitsOfNat(n);
    if n < 10 {
      assert p == ['0'] + t;
      assert p[..1] == ['0'];
      assert DigitsValue(['0']) == 0;
    } else {
      assert NatToString(n / 10) == [DigitChar(n / 10)];
      assert |t| == 2;
    }
  }

  /** The pieces of a `Y-MM-DD` text sit at fixed distances from its end. */
  lemma TextLayout(s: string, ys: string, ms: string, ds: string)
    requires |ms| == 2 && |ds| == 2 && s == ys + "-" + ms + "-" + ds
    ensures |s| == |ys| + 6 && s[|s| - 6] == '-' && s[|s| - 3] == '-'
    ensures s[..|s| - 6] == ys && s[|s| - 5..|s| - 3] == ms && s[|s| - 2..] == ds
  {
  }

  /** The text ends in `-MM-DD`: month and day are two zero-padded digits that read back as the fields. */
  lemma FormatDateLayout(d: CivilDate)
    requires ValidDate(d)
    ensures var s := FormatDate(d);
      |s| >= 7 && s[|s| - 6] == '-' && s[|s| - 3] == '-'
      && s[..|s| - 6] == NatToString(d.year)
      && TwoDigits(s[|s| - 5..|s| - 3]) == Some(d.month)
      && TwoDigits(s[|s| - 2..]) == Some(d.day)
  {
    var ys, ms, ds := NatToString(d.year), PadStart2(NatToString(d.month)), PadStart2(NatToString(d.day));
    PaddedTwoDigits(d.month);
    PaddedTwoDigits(d.day);
    FormatDateParts(d);
    TextLayout(FormatDate(d), ys, ms, ds);
  }

  /** For a valid date the three fields are written as they are. */
  lemma FormatDateParts(d: CivilDate)
    requires ValidDate(d)
    ensures FormatDate(d) == NatToString(d.year) + "-" + PadStart2(NatToString(d.month)) + "-" + PadStart2(NatToString(d.day))
  {
  }

  /** A `Y-MM-DD` text determines its three fields. */
  lemma FieldsOfText(ys1: string, ms1: string, ds1: string, ys2: string, ms2: string, ds2: string)
    requires |ms1| == 2 && |ds1| == 2 && |ms2| == 2 && |ds2| == 2
    requires ys1 + "-" + ms1 + "-" + ds1 == ys2 + "-" + ms2 + "-" + ds2
    ensures ys1 == ys2 && ms1 == ms2 && ds1 == ds2
  {
    var s := ys1 + "-" + ms1 + "-" + ds1;
    TextLayout(s, ys1, ms1, ds1);
    TextLayout(s, ys2, ms2, ds2);
  }

  /** Distinct valid dates have distinct texts, so comparing texts compares dates. */
  lemma FormatDateInjective(a: CivilDate, b: CivilDate)
    requires ValidDate(a) && ValidDate(b)
    requires FormatDate(a) == FormatDate(b)
    ensures a == b
  {
    var ya, ma, da := NatToString(a.year), PadStart2(NatToString(a.month)), PadStart2(NatToString(a.day));
    var yb, mb, db := NatToString(b.year), PadStart2(NatToString(b.month)), PadStart2(NatToString(b.day));
    PaddedTwoDigits(a.month);
    PaddedTwoDigits(a.day);
    PaddedTwoDigits(b.month);
    PaddedTwoDigits(b.day);
    assert FormatDate(a) == ya + "-" + ma + "-" + da;
    assert FormatDate(b) == yb + "-" + mb + "-" + db;
    FieldsOfText(ya, ma, da, yb, mb, db);
    DigitsOfNat(a.year);
    DigitsOfNat(b.year);
  }
}
