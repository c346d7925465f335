/** The printed build time: the date-time of RFC 3339, its reading back, and its string order. */
module Rfc3339 {
  import opened Wrappers
  import opened CivilDate

  const SECONDS_PER_DAY := 86_400

  /** Date and time of day of a number of seconds. */
  datatype Moment = Moment(date: Date, hour: nat, min: nat, sec: nat)

  function MomentOf(secs: nat): (m: Moment)
  {
    var days := secs / SECONDS_PER_DAY;
    var rem := secs % SECONDS_PER_DAY;
    Moment(CivilFromDays(days), rem / 3600, (rem % 3600) / 60, rem % 60)
  }

  function SecondsOf(m: Moment): (n: nat)
    requires IsDate(m.date)
  {
    DaysFromCivil(m.date) * SECONDS_PER_DAY + m.hour * 3600 + m.min * 60 + m.sec
  }

  // ---------------------------------------------------------------- digits

  function DigitChar(d: nat): (c: char)
    requires d < 10
    ensures '0' <= c <= '9'
  {
    '0' + d as char
  }

  /** `{n:0width}`: decimal, zero-padded to at least `width`. */
  function Pad(n: nat, width: nat): (s: string)
    decreases n, width
  {
    if n == 0 && width == 0 then ""
    else Pad(n / 10, if width == 0 then 0 else width - 1) + [DigitChar(n % 10)]
  }

  function Pow10(k: nat): (n: nat)
    ensures n >= 1
  {
    if k == 0 then 1 else 10 * Pow10(k - 1)
  }

  predicate IsDigits(s: string) {
    forall i | 0 <= i < |s| :: '0' <= s[i] <= '9'
  }

  function Value(s: string): (n: nat)
    requires IsDigits(s)
  {
    if s == "" then 0
    else 10 * Value(s[..|s| - 1]) + (s[|s| - 1] as int - '0' as int)
  }

  lemma {:induction false} PadFits(n: nat, width: nat)
    requires n < Pow10(width)
    ensures |Pad(n, width)| == width && IsDigits(Pad(n, width)) && Value(Pad(n, width)) == n
    decreases width
  {
    if width == 0 {
    } else {
      PadFits(n / 10, width - 1);
      var s := Pad(n, width);
      assert s[..|s| - 1] == Pad(n / 10, width - 1);
    }
  }

  // ---------------------------------------------------------------- printing

  /** A text of six fields with the separators in between. */
  function Fields(y: string, mo: string, d: string, h: string, mi: string, sec: string): (s: string)
  {
    y + "-" + mo + "-" + d + "T" + h + ":" + mi + ":" + sec + "Z"
  }

  /** `format_rfc3339`. */
  function Format(secs: nat): (s: string)
  {
    MomentText(MomentOf(secs))
  }

  function MomentText(m: Moment): (s: string)
  {
    Fields(Pad(m.date.year, 4), Pad(m.date.month, 2), Pad(m.date.day, 2), Pad(m.hour, 2), Pad(m.min, 2), Pad(m.sec, 2))
  }

  /** The last second RFC 3339 can print: 9999-12-31T23:59:59Z. */
  const LAST_SECOND := 253_402_300_799

  predicate IsTimeOfDay(m: Moment) {
    m.hour < 24 && m.min < 60 && m.sec < 60
  }

  lemma TimeOfDaySplits(rem: nat)
    requires rem < SECONDS_PER_DAY
    ensures rem / 3600 < 24 && (rem % 3600) / 60 < 60 && rem % 60 < 60
    ensures rem / 3600 * 3600 + (rem % 3600) / 60 * 60 + rem % 60 == rem
  {
    var h, r := rem / 3600, rem % 3600;
    assert rem == 60 * (60 * h) + r;
    assert rem % 60 == r % 60;
  }

  lemma MomentRoundTrip(secs: nat)
    ensures IsDate(MomentOf(secs).date) && IsTimeOfDay(MomentOf(secs))
    ensures SecondsOf(MomentOf(secs)) == secs
  {
    DaysRoundTrip(secs / SECONDS_PER_DAY);
    TimeOfDaySplits(secs % SECONDS_PER_DAY);
  }

  /** The four-digit years are exactly those up to the last second. */
  lemma FourDigitYears(secs: nat)
    ensures MomentOf(secs).date.year <= 9999 <==> secs <= LAST_SECOND
  {
    var last, days := 2_932_896, secs / SECONDS_PER_DAY;
    LastDay();
    CivilIsCalendar(days);
    CivilIsCalendar(last);
    NthDateOrder(last, days);
    assert secs <= LAST_SECOND <==> days <= last;
  }

  lemma LastDay()
    ensures CivilFromDays(2_932_896) == Date(9999, 12, 31)
  {
    assert 2_932_896 + 719_468 == 24 * 146_097 + 146_036;
    assert YearStart(399) == 145_731;
    CivilIs(2_932_896, 24, 399, 305);
    MarchDateIs(9999, 305, 9);
  }

  // ---------------------------------------------------------------- the grammar

  /** The `date-time` of section 5.6 of RFC 3339, with no fraction and a `Z` offset. */
  predicate IsDateTime(s: string) {
    && |s| == 20
    && IsDigits(s[0..4]) && s[4] == '-' && IsDigits(s[5..7]) && s[7] == '-' && IsDigits(s[8..10])
    && s[10] == 'T'
    && IsDigits(s[11..13]) && s[13] == ':' && IsDigits(s[14..16]) && s[16] == ':' && IsDigits(s[17..19])
    && s[19] == 'Z'
  }

  /** Read a date-time whose fields are in range (section 5.7 of RFC 3339). */
  function Parse(s: string): (r: Option<nat>)
  {
    if !IsDateTime(s) then None
    else
      var date := Date(Value(s[0..4]), Value(s[5..7]), Value(s[8..10]));
      var m := Moment(date, Value(s[11..13]), Value(s[14..16]), Value(s[17..19]));
      if IsDate(date) && IsTimeOfDay(m) then Some(SecondsOf(m)) else None
  }

  lemma FieldsAt(y: string, mo: string, d: string, h: string, mi: string, sec: string)
    requires |y| == 4 && |mo| == |d| == |h| == |mi| == |sec| == 2
    ensures var s := Fields(y, mo, d, h, mi, sec);
            && |s| == 20
            && s[0..4] == y && s[4] == '-' && s[5..7] == mo && s[7] == '-' && s[8..10] == d && s[10] == 'T'
            && s[11..13] == h && s[13] == ':' && s[14..16] == mi && s[16] == ':' && s[17..19] == sec && s[19] == 'Z'
  {
  }

  /** Every field fits its printed width. */
  predicate Fit(m: Moment) {
    && m.date.year < Pow10(4) && m.date.month < Pow10(2) && m.date.day < Pow10(2)
    && m.hour < Pow10(2) && m.min < Pow10(2) && m.sec < Pow10(2)
  }

  lemma FieldWidths(secs: nat)
    requires secs <= LAST_SECOND
    ensures Fit(MomentOf(secs))
  {
    FourDigitYears(secs);
    MomentRoundTrip(secs);
    assert Pow10(2) == 100 && Pow10(4) == 100 * Pow10(2);
  }

  /** Up to the end of year 9999 what is printed is a date-time, and reads back as the same second. */
  lemma FormatReadsBack(secs: nat)
    requires secs <= LAST_SECOND
    ensures IsDateTime(Format(secs)) && Parse(Format(secs)) == Some(secs)
  {
    var m := MomentOf(secs);
    FieldWidths(secs);
    PadFits(m.date.year, 4);
    PadFits(m.date.month, 2);
    PadFits(m.date.day, 2);
    PadFits(m.hour, 2);
    PadFits(m.min, 2);
    PadFits(m.sec, 2);
    FieldsAt(Pad(m.date.year, 4), Pad(m.date.month, 2), Pad(m.date.day, 2), Pad(m.hour, 2), Pad(m.min, 2), Pad(m.sec, 2));
    MomentRoundTrip(secs);
  }

  lemma FirstSecond()
    ensures Format(0) == "1970-01-01T00:00:00Z"
  {
    assert MomentOf(0) == Moment(Date(1970, 1, 1), 0, 0, 0) by {
      EpochIsDayZero();
    }
    FirstText();
  }

  lemma FirstText()
    ensures MomentText(Moment(Date(1970, 1, 1), 0, 0, 0)) == "1970-01-01T00:00:00Z"
  {
    assert Pad(1970, 4) == "1970" by {
      FourDigits(1970);
      TwoDigits(19);
      TwoDigits(70);
    }
    assert Pad(1, 2) == "01" && Pad(0, 2) == "00" by {
      TwoDigits(1);
      TwoDigits(0);
    }
  }

  lemma LastPrinted()
    ensures Format(253_402_300_799) == "9999-12-31T23:59:59Z"
  {
    LastDay();
    FourDigits(9999);
    TwoDigits(99);
    TwoDigits(12);
    TwoDigits(31);
    TwoDigits(23);
    TwoDigits(59);
    assert MomentOf(253_402_300_799) == Moment(Date(9999, 12, 31), 23, 59, 59);
  }

  lemma TwoDigits(n: nat)
    requires n < 100
    ensures Pad(n, 2) == [DigitChar(n / 10), DigitChar(n % 10)]
  {
    assert Pad(n / 10, 1) == Pad(0, 0) + [DigitChar(n / 10)];
  }

  lemma FourDigits(n: nat)
    requires n < 10_000
    ensures Pad(n, 4) == Pad(n / 100, 2) + Pad(n % 100, 2)
  {
    TwoDigits(n / 100);
    TwoDigits(n % 100);
    assert Pad(n, 4) == Pad(n / 10, 3) + [DigitChar(n % 10)];
    assert Pad(n / 10, 3) == Pad(n / 10 / 10, 2) + [DigitChar(n / 10 % 10)];
    assert n / 10 / 10 == n / 100 && n % 100 / 10 == n / 10 % 10 && n % 100 % 10 == n % 10;
  }

  // ---------------------------------------------------------------- string order

  /** Strings by the first character that differs; a proper prefix comes first. */
  predicate StrLt(a: string, b: string) {
    b != "" && (a == "" || a[0] < b[0] || (a[0] == b[0] && StrLt(a[1..], b[1..])))
  }

  lemma {:induction false} StrLtIrreflexive(a: string)
    ensures !StrLt(a, a)
  {
    if a == "" {
    } else {
      StrLtIrreflexive(a[1..]);
    }
  }

  /** Two texts of parts of equal length compare by the first part, then by the second. */
  lemma {:induction false} ConcatOrder(a: string, b: string, x: string, y: string)
    requires |a| == |b|
    ensures StrLt(a + x, b + y) <==> StrLt(a, b) || (a == b && StrLt(x, y))
    ensures a + x == b + y <==> a == b && x == y
  {
    if a == "" {
      assert a + x == x && b + y == y;
    } else {
      ConcatOrder(a[1..], b[1..], x, y);
      assert a == [a[0]] + a[1..] && b == [b[0]] + b[1..];
      assert (a + x)[1..] == a[1..] + x && (b + y)[1..] == b[1..] + y;
      assert a + x == [a[0]] + (a[1..] + x) && b + y == [b[0]] + (b[1..] + y);
    }
  }

  lemma {:induction false} PadOrder(m: nat, n: nat, width: nat)
    requires m < Pow10(width) && n < Pow10(width)
    ensures StrLt(Pad(m, width), Pad(n, width)) <==> m < n
    ensures Pad(m, width) == Pad(n, width) <==> m == n
    decreases width
  {
    if width == 0 {
    } else {
      PadOrder(m / 10, n / 10, width - 1);
      PadStep(m, n, width);
      LastDigitOrder(m, n);
    }
  }

  lemma LastDigitOrder(m: nat, n: nat)
    ensures m < n <==> m / 10 < n / 10 || (m / 10 == n / 10 && m % 10 < n % 10)
  {
  }

  lemma PadStep(m: nat, n: nat, width: nat)
    requires width > 0 && m < Pow10(width) && n < Pow10(width)
    ensures m / 10 < Pow10(width - 1) && n / 10 < Pow10(width - 1)
    ensures var a, b := Pad(m / 10, width - 1), Pad(n / 10, width - 1);
            && (StrLt(Pad(m, width), Pad(n, width)) <==> StrLt(a, b) || (a == b && m % 10 < n % 10))
            && (Pad(m, width) == Pad(n, width) <==> a == b && m % 10 == n % 10)
  {
    var a, b := Pad(m / 10, width - 1), Pad(n / 10, width - 1);
    PadFits(m / 10, width - 1);
    PadFits(n / 10, width - 1);
    assert Pad(m, width) == a + [DigitChar(m % 10)] && Pad(n, width) == b + [DigitChar(n % 10)];
    ConcatOrder(a, b, [DigitChar(m % 10)], [DigitChar(n % 10)]);
    DigitOrder(m % 10, n % 10);
  }

  lemma DigitOrder(d: nat, e: nat)
    requires d < 10 && e < 10
    ensures StrLt([DigitChar(d)], [DigitChar(e)]) <==> d < e
    ensures [DigitChar(d)] == [DigitChar(e)] <==> d == e
  {
    assert [DigitChar(d)][1..] == [DigitChar(e)][1..] == "";
    assert [DigitChar(d)][0] == DigitChar(d) && [DigitChar(e)][0] == DigitChar(e);
  }

  /** One more number after a separator decides only between equal beginnings. */
  lemma NextField(a: string, b: string, sep: string, m: nat, n: nat, width: nat)
    requires |a| == |b| && m < Pow10(width) && n < Pow10(width)
    ensures StrLt(a + sep + Pad(m, width), b + sep + Pad(n, width)) <==> StrLt(a, b) || (a == b && m < n)
    ensures a + sep + Pad(m, width) == b + sep + Pad(n, width) <==> a == b && m == n
    ensures |a + sep + Pad(m, width)| == |b + sep + Pad(n, width)|
  {
    ConcatOrder(a, b, sep, sep);
    StrLtIrreflexive(sep);
    ConcatOrder(a + sep, b + sep, Pad(m, width), Pad(n, width));
    PadOrder(m, n, width);
    PadFits(m, width);
    PadFits(n, width);
  }

  predicate TimeLt(x: Moment, y: Moment) {
    x.hour < y.hour || (x.hour == y.hour && (x.min < y.min || (x.min == y.min && x.sec < y.sec)))
  }

  predicate MomentLt(x: Moment, y: Moment) {
    DateLt(x.date, y.date) || (x.date == y.date && TimeLt(x, y))
  }

  /** The date part of the text. */
  function DateText(date: Date): (s: string)
  {
    Pad(date.year, 4) + "-" + Pad(date.month, 2) + "-" + Pad(date.day, 2)
  }

  lemma DateTextOrder(x: Moment, y: Moment)
    requires Fit(x) && Fit(y)
    ensures StrLt(DateText(x.date), DateText(y.date)) <==> DateLt(x.date, y.date)
    ensures DateText(x.date) == DateText(y.date) <==> x.date == y.date
    ensures |DateText(x.date)| == |DateText(y.date)|
  {
    PadFits(x.date.year, 4);
    PadFits(y.date.year, 4);
    PadOrder(x.date.year, y.date.year, 4);
    NextField(Pad(x.date.year, 4), Pad(y.date.year, 4), "-", x.date.month, y.date.month, 2);
    NextField(Pad(x.date.year, 4) + "-" + Pad(x.date.month, 2), Pad(y.date.year, 4) + "-" + Pad(y.date.month, 2), "-",
              x.date.day, y.date.day, 2);
  }

  lemma MomentTextOrder(x: Moment, y: Moment)
    requires Fit(x) && Fit(y)
    ensures StrLt(MomentText(x), MomentText(y)) <==> MomentLt(x, y)
  {
    DateTextOrder(x, y);
    var a, b := DateText(x.date), DateText(y.date);
    NextField(a, b, "T", x.hour, y.hour, 2);
    var a1, b1 := a + "T" + Pad(x.hour, 2), b + "T" + Pad(y.hour, 2);
    NextField(a1, b1, ":", x.min, y.min, 2);
    var a2, b2 := a1 + ":" + Pad(x.min, 2), b1 + ":" + Pad(y.min, 2);
    NextField(a2, b2, ":", x.sec, y.sec, 2);
    ConcatOrder(a2 + ":" + Pad(x.sec, 2), b2 + ":" + Pad(y.sec, 2), "Z", "Z");
    StrLtIrreflexive("Z");
  }

  lemma MomentOrder(a: nat, b: nat)
    requires a < b
    ensures MomentLt(MomentOf(a), MomentOf(b))
  {
    var x, y := MomentOf(a), MomentOf(b);
    var d, e := a / SECONDS_PER_DAY, b / SECONDS_PER_DAY;
    if d < e {
      CivilOrder(d, e);
    } else {
      assert d == e && a % SECONDS_PER_DAY < b % SECONDS_PER_DAY;
      TimeOrder(a % SECONDS_PER_DAY, b % SECONDS_PER_DAY);
    }
  }

  lemma CivilOrder(d: nat, e: nat)
    requires d < e
    ensures DateLt(CivilFromDays(d), CivilFromDays(e))
  {
    CivilIsCalendar(d);
    CivilIsCalendar(e);
    NthDateOrder(d, e);
  }

  lemma TimeOrder(r: nat, s: nat)
    requires r < s < SECONDS_PER_DAY
    ensures r / 3600 < s / 3600 || (r / 3600 == s / 3600 &&
              ((r % 3600) / 60 < (s % 3600) / 60 || ((r % 3600) / 60 == (s % 3600) / 60 && r % 60 < s % 60)))
  {
    TimeOfDaySplits(r);
    TimeOfDaySplits(s);
  }

  lemma MomentLtAsymmetric(x: Moment, y: Moment)
    ensures !(MomentLt(x, y) && MomentLt(y, x)) && !MomentLt(x, x)
  {
  }

  lemma MomentOrderIff(a: nat, b: nat)
    ensures MomentLt(MomentOf(a), MomentOf(b)) <==> a < b
  {
    MomentLtAsymmetric(MomentOf(a), MomentOf(b));
    if a < b {
      MomentOrder(a, b);
    } else if b < a {
      MomentOrder(b, a);
    }
  }

  /** Sorting the printed times as strings sorts them as times. */
  lemma FormatOrder(a: nat, b: nat)
    requires a <= LAST_SECOND && b <= LAST_SECOND
    ensures StrLt(Format(a), Format(b)) <==> a < b
  {
    FieldWidths(a);
    FieldWidths(b);
    MomentTextOrder(MomentOf(a), MomentOf(b));
    MomentOrderIff(a, b);
  }
}
