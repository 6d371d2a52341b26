/** UTC calendar arithmetic of section 21.4.1 of ECMA-262, ISO-8601 spelling and the counter windows. */
module Calendar {
  import opened Text

  const MS_PER_SECOND := 1_000
  const MS_PER_MINUTE := 60_000
  const MS_PER_HOUR := 3_600_000
  const MS_PER_DAY := 86_400_000

  datatype Window = Daily | Hourly | Minutely

  function WindowLength(window: Window): (length: nat)
    ensures length > 0
  {
    match window
    case Daily => MS_PER_DAY
    case Hourly => MS_PER_HOUR
    case Minutely => MS_PER_MINUTE
  }

  function Day(t: int): int { t / MS_PER_DAY }
  function HourOf(t: int): nat { t % MS_PER_DAY / MS_PER_HOUR }
  function MinuteOf(t: int): nat { t % MS_PER_HOUR / MS_PER_MINUTE }
  function SecondOf(t: int): nat { t % MS_PER_MINUTE / MS_PER_SECOND }
  function MilliOf(t: int): nat { t % MS_PER_SECOND }

  // ----- Civil dates ------------------------------------------------------------------------------

  predicate Leap(year: int) {
    year % 4 == 0 && (year % 100 != 0 || year % 400 == 0)
  }

  function YearLength(year: int): int {
    if Leap(year) then 366 else 365
  }

  /** The day a year begins on, counting year lengths from 1970. */
  function DayFromYear(year: int): int
    decreases if year < 1970 then 1970 - year else year - 1970
  {
    if year == 1970 then 0
    else if year > 1970 then DayFromYear(year - 1) + YearLength(year - 1)
    else DayFromYear(year + 1) - YearLength(year)
  }

  /** The closed form of ECMA-262. */
  lemma {:induction false} DayFromYearClosed(year: int)
    ensures DayFromYear(year)
         == 365 * (year - 1970) + (year - 1969) / 4 - (year - 1901) / 100 + (year - 1601) / 400
    decreases if year < 1970 then 1970 - year else year - 1970
  {
    if year > 1970 {
      DayFromYearClosed(year - 1);
      ClosedStep(year - 1);
    } else if year < 1970 {
      DayFromYearClosed(year + 1);
      ClosedStep(year);
    }
  }

  lemma ClosedStep(year: int)
    ensures (year - 1968) / 4 - (year - 1900) / 100 + (year - 1600) / 400
         == (year - 1969) / 4 - (year - 1901) / 100 + (year - 1601) / 400 + YearLength(year) - 365
  {
    assert (year - 1968) / 4 - (year - 1969) / 4 == if year % 4 == 0 then 1 else 0;
    assert (year - 1900) / 100 - (year - 1901) / 100 == if year % 100 == 0 then 1 else 0;
    assert (year - 1600) / 400 - (year - 1601) / 400 == if year % 400 == 0 then 1 else 0;
  }

  lemma YearSpan(year: int)
    ensures DayFromYear(year + 1) == DayFromYear(year) + YearLength(year)
  {
  }

  /** The largest year that has begun by `day`, searched upwards from a year known to have begun. */
  function YearAtLeast(day: int, from: int): (year: int)
    requires DayFromYear(from) <= day
    ensures DayFromYear(year) <= day < DayFromYear(year + 1)
    decreases day - DayFromYear(from)
  {
    YearSpan(from);
    if DayFromYear(from + 1) <= day then YearAtLeast(day, from + 1) else from
  }

  lemma {:induction false} EarlyYears(k: nat)
    ensures DayFromYear(1970 + k) <= 366 * k
    ensures DayFromYear(1970 - k) <= -365 * k
  {
    if k > 0 { EarlyYears(k - 1); }
  }

  function YearOf(day: int): (year: int)
    ensures DayFromYear(year) <= day < DayFromYear(year + 1)
  {
    if day >= 0 then
      EarlyYears(day / 366);
      YearAtLeast(day, 1970 + day / 366)
    else
      EarlyYears(-(day / 365));
      YearAtLeast(day, 1970 + day / 365)
  }

  function MonthLength(leap: bool, month: nat): (length: nat)
    ensures 28 <= length <= 31
  {
    if month == 2 then (if leap then 29 else 28)
    else if month == 4 || month == 6 || month == 9 || month == 11 then 30
    else 31
  }

  /** Days of a year before month `month`, months counted from 1. */
  function DaysBefore(leap: bool, month: nat): nat
    requires 1 <= month <= 13
  {
    if month == 1 then 0 else DaysBefore(leap, month - 1) + MonthLength(leap, month - 1)
  }

  /** From March on the month lengths 31, 30, 31, 30, 31 repeat: the days before a month have a closed form. */
  lemma {:induction false} DaysBeforeClosed(leap: bool, month: nat)
    requires 1 <= month <= 13
    ensures DaysBefore(leap, month)
         == if month < 3 then 31 * (month - 1) else 59 + (if leap then 1 else 0) + (153 * (month - 3) + 2) / 5
    decreases month
  {
    if month > 1 { DaysBeforeClosed(leap, month - 1); }
  }

  lemma MonthsMakeYear(leap: bool)
    ensures DaysBefore(leap, 13) == if leap then 366 else 365
  {
    DaysBeforeClosed(leap, 13);
  }

  function MonthSearch(leap: bool, dayInYear: nat, month: nat): (m: nat)
    requires 1 <= month <= 12 && DaysBefore(leap, month) <= dayInYear < DaysBefore(leap, 13)
    ensures month <= m <= 12 && DaysBefore(leap, m) <= dayInYear < DaysBefore(leap, m + 1)
    decreases 12 - month
  {
    if dayInYear < DaysBefore(leap, month + 1) then month else MonthSearch(leap, dayInYear, month + 1)
  }

  datatype Civil = Civil(year: int, month: nat, date: nat) {
    predicate Valid() {
      1 <= month <= 12 && 1 <= date <= MonthLength(Leap(year), month)
    }
  }

  function CivilOf(day: int): (c: Civil)
    ensures c.Valid()
  {
    var year := YearOf(day);
    YearSpan(year);
    MonthsMakeYear(Leap(year));
    var dayInYear := day - DayFromYear(year);
    var month := MonthSearch(Leap(year), dayInYear, 1);
    Civil(year, month, dayInYear - DaysBefore(Leap(year), month) + 1)
  }

  /** `MakeDay`: the day `date - 1` days after the first of the month, even when it leaves the month. */
  function MakeDay(year: int, month: nat, date: int): int
    requires 1 <= month <= 12
  {
    DayFromYear(year) + DaysBefore(Leap(year), month) + date - 1
  }

  lemma CivilRoundTrip(day: int)
    ensures var c := CivilOf(day); MakeDay(c.year, c.month, c.date) == day
  {
  }

  lemma {:induction false} YearsMonotone(y1: int, y2: int)
    requires y1 <= y2
    ensures DayFromYear(y1) + (y2 - y1) <= DayFromYear(y2)
    decreases y2 - y1
  {
    if y1 < y2 {
      YearsMonotone(y1, y2 - 1);
      YearSpan(y2 - 1);
    }
  }

  lemma {:induction false} MonthsMonotone(leap: bool, m1: nat, m2: nat)
    requires 1 <= m1 <= m2 <= 13
    ensures DaysBefore(leap, m1) <= DaysBefore(leap, m2)
    decreases m2 - m1
  {
    if m1 < m2 { MonthsMonotone(leap, m1, m2 - 1); }
  }

  lemma YearsInOrder(d1: int, y1: int, d2: int, y2: int)
    requires DayFromYear(y1) <= d1 <= d2 < DayFromYear(y2 + 1)
    ensures y1 <= y2
  {
    if y2 < y1 { YearsMonotone(y2 + 1, y1); }
  }

  lemma MonthsInOrder(leap: bool, n1: nat, m1: nat, n2: nat, m2: nat)
    requires 1 <= m1 <= 12 && 1 <= m2 <= 12
    requires DaysBefore(leap, m1) <= n1 <= n2 < DaysBefore(leap, m2 + 1)
    ensures m1 <= m2
  {
    if m2 < m1 { MonthsMonotone(leap, m2 + 1, m1); }
  }

  lemma CivilBounds(day: int)
    ensures var c := CivilOf(day);
            && DayFromYear(c.year) <= day < DayFromYear(c.year + 1)
            && DaysBefore(Leap(c.year), c.month) <= day - DayFromYear(c.year) < DaysBefore(Leap(c.year), c.month + 1)
            && c.date == day - DayFromYear(c.year) - DaysBefore(Leap(c.year), c.month) + 1
  {
    hide DayFromYear, Leap, MonthLength, YearLength;
  }

  lemma MakeDayBounds(c: Civil)
    requires c.Valid()
    ensures var day := MakeDay(c.year, c.month, c.date);
            && DayFromYear(c.year) <= day < DayFromYear(c.year + 1)
            && DaysBefore(Leap(c.year), c.month) <= day - DayFromYear(c.year) < DaysBefore(Leap(c.year), c.month + 1)
  {
    hide DayFromYear, Leap;
    MonthsMonotone(Leap(c.year), c.month + 1, 13);
    MonthsMakeYear(Leap(c.year));
    YearSpan(c.year);
  }

  /** Every valid civil date is the date of exactly one day. */
  lemma CivilSurjective(c: Civil)
    requires c.Valid()
    ensures CivilOf(MakeDay(c.year, c.month, c.date)) == c
  {
    hide DayFromYear, DaysBefore, CivilOf, Leap;
    var leap, day := Leap(c.year), MakeDay(c.year, c.month, c.date);
    MakeDayBounds(c);
    CivilBounds(day);
    YearsInOrder(day, c.year, day, CivilOf(day).year);
    YearsInOrder(day, CivilOf(day).year, day, c.year);
    var n, month := day - DayFromYear(c.year), CivilOf(day).month;
    MonthsInOrder(leap, n, month, n, c.month);
    MonthsInOrder(leap, n, c.month, n, month);
  }

  predicate CivilLess(a: Civil, b: Civil) {
    a.year < b.year || (a.year == b.year && (a.month < b.month || (a.month == b.month && a.date < b.date)))
  }

  lemma CivilForward(d1: int, d2: int)
    requires d1 < d2
    ensures CivilLess(CivilOf(d1), CivilOf(d2))
  {
    hide DayFromYear, DaysBefore, CivilOf, Leap;
    var a, b := CivilOf(d1), CivilOf(d2);
    CivilBounds(d1);
    CivilBounds(d2);
    YearsInOrder(d1, a.year, d2, b.year);
    if a.year == b.year {
      var start := DayFromYear(a.year);
      MonthsInOrder(Leap(a.year), d1 - start, a.month, d2 - start, b.month);
    }
  }

  // ----- ISO-8601 ---------------------------------------------------------------------------------

  function IsoYear(year: int): string {
    if 0 <= year <= 9999 then Digits(year, 4)
    else if year < 0 then "-" + Digits(-year, 6)
    else "+" + Digits(year, 6)
  }

  function IsoDate(day: int): string {
    var c := CivilOf(day);
    IsoYear(c.year) + "-" + Digits(c.month, 2) + "-" + Digits(c.date, 2)
  }

  function IsoTime(t: int): string {
    Digits(HourOf(t), 2) + ":" + Digits(MinuteOf(t), 2) + ":" + Digits(SecondOf(t), 2)
    + "." + Digits(MilliOf(t), 3) + "Z"
  }

  /** `toISOString`. */
  function Iso(t: int): (s: string)
    ensures |s| >= 24
  {
    IsoDate(Day(t)) + "T" + IsoTime(t)
  }

  function DayKey(now: int): (key: string)
    ensures |key| == 10
  {
    Iso(now)[..10]
  }

  function HourKey(now: int): (key: string)
    ensures |key| == 13
  {
    Iso(now)[..13]
  }

  function MinuteKey(now: int): (key: string)
    ensures |key| == 16
  {
    Iso(now)[..16]
  }

  /** The instants whose year has four digits; the textual laws below hold exactly on these. */
  predicate FourDigitYear(t: int) {
    0 <= CivilOf(Day(t)).year <= 9999
  }

  lemma IsoPrefixes(t: int)
    requires FourDigitYear(t)
    ensures DayKey(t) == IsoDate(Day(t))
    ensures HourKey(t) == IsoDate(Day(t)) + "T" + Digits(HourOf(t), 2)
    ensures MinuteKey(t) == IsoDate(Day(t)) + "T" + Digits(HourOf(t), 2) + ":" + Digits(MinuteOf(t), 2)
    ensures forall k :: 0 <= k < 10 ==> DayKey(t)[k] != ':'
    ensures IsDigit(DayKey(t)[0])
  {
  }

  /** A key read back as year, month and date, and an hour key and minute key as what they add to it. */
  lemma KeysReadBack(t: int)
    requires FourDigitYear(t)
    ensures var key := DayKey(t);
            && key[4] == '-' && key[7] == '-'
            && var c := Civil(DecValue(key[..4]), DecValue(key[5..7]), DecValue(key[8..]));
            c.Valid() && MakeDay(c.year, c.month, c.date) == Day(t)
    ensures var key := HourKey(t);
            key[..10] == DayKey(t) && key[10] == 'T' && DecValue(key[11..]) == t % 86_400_000 / 3_600_000
    ensures var key := MinuteKey(t);
            key[..13] == HourKey(t) && key[13] == ':' && DecValue(key[14..]) == t % 3_600_000 / 60_000
  {
    hide CivilOf, Digits, MakeDay, DecValue;
    IsoPrefixes(t);
    CivilRoundTrip(Day(t));
    var c := CivilOf(Day(t));
    assert Pow10(2) == 100 && Pow10(4) == 10_000;
    DecValueOfDigits(c.year, 4);
    DecValueOfDigits(c.month, 2);
    DecValueOfDigits(c.date, 2);
    DecValueOfDigits(HourOf(t), 2);
    DecValueOfDigits(MinuteOf(t), 2);
    var day, hour, minute := DayKey(t), HourKey(t), MinuteKey(t);
    assert day[..4] == Digits(c.year, 4) && day[5..7] == Digits(c.month, 2) && day[8..] == Digits(c.date, 2);
    assert hour[..10] == day && hour[11..] == Digits(HourOf(t), 2);
    assert minute[..13] == hour && minute[14..] == Digits(MinuteOf(t), 2);
  }

  /** Text order on day keys is day order, and a day key names one day. */
  lemma DayKeyOrder(t1: int, t2: int)
    requires FourDigitYear(t1) && FourDigitYear(t2)
    ensures LexLess(DayKey(t1), DayKey(t2)) <==> Day(t1) < Day(t2)
    ensures DayKey(t1) == DayKey(t2) <==> Day(t1) == Day(t2)
  {
    IsoPrefixes(t1);
    IsoPrefixes(t2);
    DateTextOrder(Day(t1), Day(t2));
  }

  function CivilText(c: Civil): string
    requires 0 <= c.year <= 9999
  {
    Digits(c.year, 4) + "-" + Digits(c.month, 2) + "-" + Digits(c.date, 2)
  }

  lemma DateTextOrder(d1: int, d2: int)
    requires 0 <= CivilOf(d1).year <= 9999 && 0 <= CivilOf(d2).year <= 9999
    ensures LexLess(IsoDate(d1), IsoDate(d2)) <==> d1 < d2
    ensures IsoDate(d1) == IsoDate(d2) <==> d1 == d2
  {
    CivilTextOrder(CivilOf(d1), CivilOf(d2));
    if d1 < d2 {
      CivilForward(d1, d2);
      LexIrreflexive(IsoDate(d1));
    } else if d2 < d1 {
      CivilForward(d2, d1);
      CivilTextOrder(CivilOf(d2), CivilOf(d1));
      LexIrreflexive(IsoDate(d1));
    }
  }

  lemma TwoPart(a: string, b: string, c: string, d: string)
    requires |a| == |c|
    ensures LexLess(a + "-" + b, c + "-" + d) <==> LexLess(a, c) || (a == c && LexLess(b, d))
  {
    assert a + "-" + b == a + ("-" + b) && c + "-" + d == c + ("-" + d);
    LexConcat(a, "-" + b, c, "-" + d);
    LexConcat("-", b, "-", d);
    LexIrreflexive("-");
  }

  lemma CivilTextOrder(a: Civil, b: Civil)
    requires a.Valid() && b.Valid() && 0 <= a.year <= 9999 && 0 <= b.year <= 9999
    ensures LexLess(CivilText(a), CivilText(b)) <==> CivilLess(a, b)
  {
    assert Pow10(2) == 100 && Pow10(4) == 10000;
    var aMonth, bMonth := Digits(a.month, 2), Digits(b.month, 2);
    DigitsOrder(a.year, b.year, 4);
    DigitsOrder(a.month, b.month, 2);
    DigitsOrder(a.date, b.date, 2);
    TwoPart(Digits(a.year, 4) + "-" + aMonth, Digits(a.date, 2), Digits(b.year, 4) + "-" + bMonth, Digits(b.date, 2));
    TwoPart(Digits(a.year, 4), aMonth, Digits(b.year, 4), bMonth);
    TwoPartEqual(Digits(a.year, 4), aMonth, Digits(b.year, 4), bMonth);
  }

  lemma TwoPartEqual(a: string, b: string, c: string, d: string)
    requires |a| == |c|
    ensures a + "-" + b == c + "-" + d <==> a == c && b == d
  {
    var s, t := a + "-" + b, c + "-" + d;
    if s == t {
      assert a == s[..|a|] && c == t[..|a|];
      assert b == s[|a| + 1..] && d == t[|a| + 1..];
    }
  }
}
