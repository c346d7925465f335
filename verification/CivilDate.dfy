/**
 Civil-from-days on unsigned integers, against the proleptic Gregorian calendar: one day after another from
 1970-01-01 on, by the lengths of its months.
 */
module CivilDate {

  // ---------------------------------------------------------------- the calendar

  datatype Date = Date(year: nat, month: nat, day: nat)

  /** Appendix C of RFC 3339. */
  predicate IsLeap(year: nat) {
    year % 4 == 0 && (year % 100 != 0 || year % 400 == 0)
  }

  /** Section 5.7 of RFC 3339. */
  function MonthLength(year: nat, month: nat): (n: nat)
    ensures 28 <= n <= 31
  {
    if month == 2 then if IsLeap(year) then 29 else 28
    else if month == 4 || month == 6 || month == 9 || month == 11 then 30
    else 31
  }

  predicate IsDate(date: Date) {
    1 <= date.month <= 12 && 1 <= date.day <= MonthLength(date.year, date.month)
  }

  const EPOCH := Date(1970, 1, 1)

  function NextDay(date: Date): (next: Date)
    requires IsDate(date)
    ensures IsDate(next)
  {
    if date.day < MonthLength(date.year, date.month) then date.(day := date.day + 1)
    else if date.month < 12 then Date(date.year, date.month + 1, 1)
    else Date(date.year + 1, 1, 1)
  }

  // ---------------------------------------------------------------- the algorithm

  /** The year of a 400-year era that a day of the era falls in, years beginning on March 1st. */
  function YearOfEra(doe: nat): (yoe: nat)
    requires doe < 146_097
  {
    (doe - doe / 1460 + doe / 36_524 - doe / 146_096) / 365
  }

  /** Days of an era before its year `y`. */
  function YearStart(y: nat): (n: int)
  {
    365 * y + y / 4 - y / 100 + y / 400
  }

  /** A day of an era as century, four-year cycle and year of it; the last day of the era stands apart. */
  lemma EraParts(doe: nat) returns (c: nat, f: nat, h: nat, g: nat)
    requires doe < 146_096
    ensures c < 4 && f < 25 && h < 4 && g < 1461 && doe == 36_524 * c + 1461 * f + g
    ensures 365 * h <= g && (h < 3 ==> g < 365 * (h + 1)) && (f == 24 ==> g < 1460)
  {
    c := doe / 36_524;
    var r := doe % 36_524;
    f, g := r / 1461, r % 1461;
    h := if g / 365 < 3 then g / 365 else 3;
  }

  lemma YearOfParts(doe: nat, c: nat, f: nat, h: nat, g: nat)
    requires c < 4 && f < 25 && h < 4 && g < 1461 && doe == 36_524 * c + 1461 * f + g < 146_096
    requires 365 * h <= g && (h < 3 ==> g < 365 * (h + 1)) && (f == 24 ==> g < 1460)
    ensures YearOfEra(doe) == 100 * c + 4 * f + h
  {
    var t := if 24 * c + f + g >= 1460 then 1 else 0;
    assert doe / 1460 == 25 * c + f + t;
    assert doe / 36_524 == c && doe / 146_096 == 0;
    assert (g - t) / 365 == h;
    assert doe - doe / 1460 + doe / 36_524 - doe / 146_096 == 365 * (100 * c + 4 * f) + (g - t);
  }

  lemma StartOfParts(c: nat, f: nat, h: nat)
    requires c < 4 && f < 25 && h < 4
    ensures YearStart(100 * c + 4 * f + h) == 36_524 * c + 1461 * f + 365 * h
    ensures YearStart(100 * c + 4 * f + h + 1) >=
            36_524 * c + 1461 * f + (if h < 3 then 365 * (h + 1) else if f < 24 then 1461 else 1460)
  {
    var y := 100 * c + 4 * f + h;
    assert y / 4 == 25 * c + f && y / 100 == c && y / 400 == 0;
    if h < 3 {
      assert (y + 1) / 4 == 25 * c + f && (y + 1) / 100 == c && (y + 1) / 400 == 0;
    } else if f < 24 {
      assert (y + 1) / 4 == 25 * c + f + 1 && (y + 1) / 100 == c && (y + 1) / 400 == 0;
    } else {
      assert y + 1 == 100 * (c + 1);
      assert (y + 1) / 4 == 25 * (c + 1) && (y + 1) / 100 == c + 1;
    }
  }

  /** The year found is the one the day falls in. */
  lemma YearOfEraFits(doe: nat)
    requires doe < 146_097
    ensures YearOfEra(doe) < 400
    ensures YearStart(YearOfEra(doe)) <= doe < YearStart(YearOfEra(doe) + 1)
  {
    if doe == 146_096 {
      assert YearOfEra(doe) == 399;
    } else {
      var c, f, h, g := EraParts(doe);
      YearOfParts(doe, c, f, h, g);
      StartOfParts(c, f, h);
    }
  }

  /** Days of a March-based year before its month `mp`. */
  function MonthStart(mp: nat): (n: nat)
  {
    (153 * mp + 2) / 5
  }

  lemma MonthFits(doy: nat)
    requires doy <= 365
    ensures (5 * doy + 2) / 153 <= 11
    ensures MonthStart((5 * doy + 2) / 153) <= doy < MonthStart((5 * doy + 2) / 153 + 1)
  {
  }

  /** Civil-from-days. Every intermediate value is a `nat`: no unsigned subtraction can underflow. */
  function CivilFromDays(days: nat): (date: Date)
  {
    var z: nat := days + 719_468;
    var era: nat := z / 146_097;
    var doe: nat := z - era * 146_097;
    var yoe: nat := YearOfEra(doe);
    var year: nat := yoe + era * 400;
    YearOfEraFits(doe);
    var doy: nat := doe - (365 * yoe + yoe / 4 - yoe / 100);
    DayOfYearFits(doe);
    var mp: nat := (5 * doy + 2) / 153;
    MonthFits(doy);
    var day: nat := doy - (153 * mp + 2) / 5 + 1;
    var month: nat := if mp < 10 then mp + 3 else mp - 9;
    Date(if month <= 2 then year + 1 else year, month, day)
  }

  const WORD := 0x1_0000_0000_0000_0000

  /** No intermediate value leaves 64 bits, for the day count of any 64-bit number of seconds. */
  lemma CivilStaysInWord(secs: nat)
    requires secs < WORD
    ensures var z := secs / 86_400 + 719_468;
            var era := z / 146_097;
            var doe := z - era * 146_097;
            var yoe := YearOfEra(doe);
            && z < WORD && era * 146_097 < WORD && doe + doe / 36_524 < WORD
            && era * 400 < WORD && yoe + era * 400 + 1 < WORD
            && 365 * yoe + yoe / 4 < WORD
            && 5 * (doe - (365 * yoe + yoe / 4 - yoe / 100)) + 2 < WORD
  {
    var z := secs / 86_400 + 719_468;
    var era := z / 146_097;
    var doe := z - era * 146_097;
    YearOfEraFits(doe);
    DayOfYearFits(doe);
    assert z <= WORD / 86_400 + 719_468 && era <= z;
  }

  lemma DayOfYearFits(doe: nat)
    requires doe < 146_097
    ensures var yoe := YearOfEra(doe);
            yoe / 100 <= yoe / 4 && 0 <= doe - (365 * yoe + yoe / 4 - yoe / 100) <= 365
  {
    YearOfEraFits(doe);
    YearLength(YearOfEra(doe));
  }

  lemma Carry(y: nat, k: nat)
    requires k == 4 || k == 100 || k == 400
    ensures (y + 1) / k - y / k == if (y + 1) % k == 0 then 1 else 0
  {
  }

  lemma Divisibility(y: nat)
    ensures y % 400 == 0 ==> y % 100 == 0
    ensures y % 100 == 0 ==> y % 4 == 0
  {
    if y % 400 == 0 {
      assert y == 100 * (4 * (y / 400));
    }
    if y % 100 == 0 {
      assert y == 4 * (25 * (y / 100));
    }
  }

  /** Length of the year that begins in March of year `y`. */
  function YearDays(y: nat): (n: nat)
    ensures 365 <= n <= 366
  {
    if IsLeap(y + 1) then 366 else 365
  }

  /** A March-based year has a day more when the February it ends with is a leap year's. */
  lemma YearLength(y: nat)
    ensures YearStart(y + 1) - YearStart(y) == YearDays(y)
  {
    Carry(y, 4);
    Carry(y, 100);
    Carry(y, 400);
    Divisibility(y + 1);
  }

  // ---------------------------------------------------------------- day by day

  /** The date of day `doy` of the year that begins in March of `year`. */
  function MarchDate(year: nat, doy: nat): (date: Date)
    requires doy <= 365
  {
    MonthFits(doy);
    var mp := (5 * doy + 2) / 153;
    Date(if mp < 10 then year else year + 1, if mp < 10 then mp + 3 else mp - 9, doy - MonthStart(mp) + 1)
  }

  lemma MonthOf(doy: nat, mp: nat)
    requires mp <= 11 && MonthStart(mp) <= doy < MonthStart(mp + 1)
    ensures (5 * doy + 2) / 153 == mp
  {
  }

  /** The calendar month and year of March-based month `mp`. */
  function MonthDate(year: nat, mp: nat, day: nat): (date: Date)
    requires mp <= 11
  {
    Date(if mp < 10 then year else year + 1, if mp < 10 then mp + 3 else mp - 9, day)
  }

  lemma MonthLengths(year: nat, mp: nat)
    requires mp < 11
    ensures var date := MonthDate(year, mp, 1);
            MonthLength(date.year, date.month) == MonthStart(mp + 1) - MonthStart(mp)
  {
  }

  lemma LastMonthLength(year: nat)
    ensures MonthLength(year + 1, 2) == YearDays(year) - MonthStart(11)
  {
  }

  lemma MarchDateIs(year: nat, doy: nat, mp: nat)
    requires doy <= 365 && mp <= 11 && MonthStart(mp) <= doy < MonthStart(mp + 1)
    ensures MarchDate(year, doy) == MonthDate(year, mp, doy - MonthStart(mp) + 1)
  {
    MonthOf(doy, mp);
  }

  /** Inside a March-based year the next day is the next day of the calendar. */
  lemma NextInYear(year: nat, doy: nat)
    requires doy + 1 < YearDays(year)
    ensures IsDate(MarchDate(year, doy)) && NextDay(MarchDate(year, doy)) == MarchDate(year, doy + 1)
  {
    MonthFits(doy);
    var mp := (5 * doy + 2) / 153;
    MarchDateIs(year, doy, mp);
    if mp == 11 {
      LastMonthLength(year);
      MarchDateIs(year, doy + 1, 11);
    } else {
      MonthLengths(year, mp);
      MarchDateIs(year, doy + 1, if doy + 1 < MonthStart(mp + 1) then mp else mp + 1);
    }
  }

  /** It ends with the last day of February. */
  lemma NextYear(year: nat)
    ensures var last := YearDays(year) - 1;
            IsDate(MarchDate(year, last)) && NextDay(MarchDate(year, last)) == MarchDate(year + 1, 0)
  {
    MarchDateIs(year, YearDays(year) - 1, 11);
    LastMonthLength(year);
    MarchDateIs(year + 1, 0, 0);
  }

  lemma {:induction false} YearStartGrows(x: nat, y: nat)
    ensures x < y ==> YearStart(x + 1) <= YearStart(y)
    decreases y
  {
    if x + 1 < y {
      YearStartGrows(x, y - 1);
      YearLength(y - 1);
    }
  }

  lemma YearOfEraUnique(doe: nat, y: nat)
    requires doe < 146_097 && YearStart(y) <= doe < YearStart(y + 1)
    ensures YearOfEra(doe) == y
  {
    YearOfEraFits(doe);
    YearStartGrows(YearOfEra(doe), y);
    YearStartGrows(y, YearOfEra(doe));
  }

  lemma CivilParts(days: nat, era: nat, doe: nat)
    requires doe < 146_097 && days + 719_468 == era * 146_097 + doe
    ensures var yoe := YearOfEra(doe);
            && 0 <= doe - YearStart(yoe) <= 365
            && CivilFromDays(days) == MarchDate(yoe + era * 400, doe - YearStart(yoe))
  {
    assert (days + 719_468) / 146_097 == era;
    YearOfEraFits(doe);
    DayOfYearFits(doe);
    var yoe := YearOfEra(doe);
    assert yoe / 400 == 0;
    MonthFits(doe - YearStart(yoe));
  }

  /** Where a day falls: era, year of era, day of year. */
  lemma CivilOf(days: nat) returns (era: nat, yoe: nat, doy: nat)
    ensures yoe < 400 && doy < YearDays(yoe)
    ensures days + 719_468 == era * 146_097 + YearStart(yoe) + doy
    ensures CivilFromDays(days) == MarchDate(yoe + era * 400, doy)
  {
    era := (days + 719_468) / 146_097;
    var doe: nat := days + 719_468 - era * 146_097;
    yoe := YearOfEra(doe);
    CivilParts(days, era, doe);
    YearOfEraFits(doe);
    YearLength(yoe);
    doy := doe - YearStart(yoe);
  }

  lemma CivilIs(days: nat, era: nat, yoe: nat, doy: nat)
    requires yoe < 400 && doy < YearDays(yoe)
    requires days + 719_468 == era * 146_097 + YearStart(yoe) + doy
    ensures CivilFromDays(days) == MarchDate(yoe + era * 400, doy)
  {
    YearLength(yoe);
    YearStartGrows(yoe, 400);
    var doe: nat := YearStart(yoe) + doy;
    YearOfEraUnique(doe, yoe);
    CivilParts(days, era, doe);
  }

  lemma ShiftBy4(y: nat, q: nat)
    ensures (y + 4 * q) % 4 == y % 4
  {
  }

  lemma ShiftBy100(y: nat, q: nat)
    ensures (y + 100 * q) % 100 == y % 100
  {
  }

  lemma ShiftBy400(y: nat, q: nat)
    ensures (y + 400 * q) % 400 == y % 400
  {
  }

  lemma LeapRepeats(y: nat, era: nat)
    ensures IsLeap(y + era * 400) <==> IsLeap(y)
  {
    ShiftBy4(y, 100 * era);
    ShiftBy100(y, 4 * era);
    ShiftBy400(y, era);
  }

  lemma YearDaysRepeat(y: nat, era: nat)
    ensures YearDays(y + era * 400) == YearDays(y)
  {
    LeapRepeats(y + 1, era);
    assert y + era * 400 + 1 == (y + 1) + era * 400;
  }

  lemma EpochIsDayZero()
    ensures CivilFromDays(0) == EPOCH
  {
    assert YearOfEra(135_080) == 369;
  }

  lemma LastDayOfYear(days: nat, era: nat, yoe: nat, doy: nat)
    requires yoe < 400 && doy + 1 == YearDays(yoe)
    requires days + 719_468 == era * 146_097 + YearStart(yoe) + doy
    ensures CivilFromDays(days + 1) == MarchDate(yoe + era * 400 + 1, 0)
  {
    YearLength(yoe);
    if yoe < 399 {
      CivilIs(days + 1, era, yoe + 1, 0);
    } else {
      assert YearStart(400) == 146_097 && YearStart(0) == 0;
      CivilIs(days + 1, era + 1, 0, 0);
    }
  }

  /** The calendar, turned over a day at a time from the epoch. */
  function NthDate(days: nat): (date: Date)
    ensures IsDate(date) && date.year >= 1970
  {
    if days == 0 then EPOCH else NextDay(NthDate(days - 1))
  }

  /** Whatever starts at the epoch and steps with the calendar is the calendar. */
  lemma {:induction false} StepsWithCalendar(civil: nat -> Date, days: nat)
    requires civil(0) == EPOCH
    requires forall d: nat :: IsDate(civil(d)) && civil(d + 1) == NextDay(civil(d))
    ensures civil(days) == NthDate(days)
  {
    if days == 0 {
    } else {
      StepsWithCalendar(civil, days - 1);
      assert civil(days - 1 + 1) == NextDay(civil(days - 1));
    }
  }

  /** Civil-from-days is the calendar: no date is skipped, repeated or misnumbered. */
  lemma CivilIsCalendar(days: nat)
    ensures CivilFromDays(days) == NthDate(days)
  {
    forall d: nat ensures IsDate(CivilFromDays(d)) && CivilFromDays(d + 1) == NextDay(CivilFromDays(d)) {
      NextDayIsNextDate(d);
    }
    EpochIsDayZero();
    StepsWithCalendar(CivilFromDays, days);
  }

  /** The date of the next day is the next date of the calendar. */
  lemma NextDayIsNextDate(days: nat)
    ensures IsDate(CivilFromDays(days)) && CivilFromDays(days + 1) == NextDay(CivilFromDays(days))
  {
    var era, yoe, doy := CivilOf(days);
    var year := yoe + era * 400;
    YearDaysRepeat(yoe, era);
    if doy + 1 < YearDays(yoe) {
      CivilIs(days + 1, era, yoe, doy + 1);
      NextInYear(year, doy);
    } else {
      LastDayOfYear(days, era, yoe, doy);
      NextYear(year);
    }
  }

  // ---------------------------------------------------------------- counting days

  function CalendarYearLength(year: nat): (n: nat)
  {
    if IsLeap(year) then 366 else 365
  }

  /** Days from the epoch to January 1st of `year`. */
  function DaysBeforeYear(year: nat): (n: nat)
  {
    if year <= 1970 then 0 else DaysBeforeYear(year - 1) + CalendarYearLength(year - 1)
  }

  function DaysBeforeMonth(year: nat, month: nat): (n: nat)
  {
    if month <= 1 then 0 else DaysBeforeMonth(year, month - 1) + MonthLength(year, month - 1)
  }

  /** Days-from-civil, by counting: years, then months, then days. */
  function DaysFromCivil(date: Date): (n: nat)
    requires IsDate(date)
  {
    DaysBeforeYear(date.year) + DaysBeforeMonth(date.year, date.month) + date.day - 1
  }

  lemma MonthsFillYear(year: nat)
    ensures DaysBeforeMonth(year, 12) + 31 == CalendarYearLength(year)
  {
    assert DaysBeforeMonth(year, 2) == 31;
    assert DaysBeforeMonth(year, 3) == 31 + MonthLength(year, 2);
    assert DaysBeforeMonth(year, 5) == DaysBeforeMonth(year, 3) + 61;
    assert DaysBeforeMonth(year, 7) == DaysBeforeMonth(year, 5) + 61;
    assert DaysBeforeMonth(year, 9) == DaysBeforeMonth(year, 7) + 62;
    assert DaysBeforeMonth(year, 11) == DaysBeforeMonth(year, 9) + 61;
  }

  lemma NextDayCountsOne(date: Date)
    requires IsDate(date) && date.year >= 1970
    ensures DaysFromCivil(NextDay(date)) == DaysFromCivil(date) + 1
  {
    MonthsFillYear(date.year);
  }

  lemma {:induction false} NthDateCounts(days: nat)
    ensures DaysFromCivil(NthDate(days)) == days
  {
    if days == 0 {
    } else {
      NthDateCounts(days - 1);
      NextDayCountsOne(NthDate(days - 1));
    }
  }

  /** Counting the days of the date of a day gives the day back. */
  lemma DaysRoundTrip(days: nat)
    ensures IsDate(CivilFromDays(days)) && DaysFromCivil(CivilFromDays(days)) == days
  {
    CivilIsCalendar(days);
    NthDateCounts(days);
  }

  // ---------------------------------------------------------------- date order

  predicate DateLt(x: Date, y: Date) {
    x.year < y.year || (x.year == y.year && (x.month < y.month || (x.month == y.month && x.day < y.day)))
  }

  lemma {:induction false} MonthsGrow(year: nat, m: nat, n: nat)
    requires 1 <= m < n <= 12
    ensures DaysBeforeMonth(year, m) + MonthLength(year, m) <= DaysBeforeMonth(year, n)
    decreases n
  {
    if m + 1 < n {
      MonthsGrow(year, m, n - 1);
    }
  }

  lemma {:induction false} YearsGrow(x: nat, y: nat)
    requires 1970 <= x < y
    ensures DaysBeforeYear(x) + CalendarYearLength(x) <= DaysBeforeYear(y)
    decreases y
  {
    if x + 1 < y {
      YearsGrow(x, y - 1);
    }
  }

  lemma DayOfYearBound(date: Date)
    requires IsDate(date)
    ensures DaysBeforeMonth(date.year, date.month) + date.day <= CalendarYearLength(date.year)
  {
    MonthsFillYear(date.year);
    if date.month < 12 {
      MonthsGrow(date.year, date.month, 12);
    }
  }

  /** Later dates have more days before them. */
  lemma DaysGrow(x: Date, y: Date)
    requires IsDate(x) && IsDate(y) && x.year >= 1970 && DateLt(x, y)
    ensures DaysFromCivil(x) < DaysFromCivil(y)
  {
    if x.year < y.year {
      DayOfYearBound(x);
      YearsGrow(x.year, y.year);
    } else if x.month < y.month {
      MonthsGrow(x.year, x.month, y.month);
    }
  }

  lemma NthDateRoundTrip(date: Date)
    requires IsDate(date) && date.year >= 1970
    ensures NthDate(DaysFromCivil(date)) == date
  {
    var back := NthDate(DaysFromCivil(date));
    NthDateCounts(DaysFromCivil(date));
    if DateLt(back, date) {
      DaysGrow(back, date);
    } else if DateLt(date, back) {
      DaysGrow(date, back);
    }
  }

  /** Every date from the epoch on is the date of exactly the day that counting gives. */
  lemma CivilRoundTrip(date: Date)
    requires IsDate(date) && date.year >= 1970
    ensures CivilFromDays(DaysFromCivil(date)) == date
  {
    CivilIsCalendar(DaysFromCivil(date));
    NthDateRoundTrip(date);
  }

  /** Day order is date order. */
  lemma NthDateOrder(d: nat, e: nat)
    ensures d < e <==> DateLt(NthDate(d), NthDate(e))
  {
    NthDateCounts(d);
    NthDateCounts(e);
    var x, y := NthDate(d), NthDate(e);
    if DateLt(x, y) {
      DaysGrow(x, y);
    } else if DateLt(y, x) {
      DaysGrow(y, x);
    }
  }
}
