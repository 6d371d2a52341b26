/** Counter requests, the row each one is charged to, and the instant its window ends. */
module CounterStore {
  import opened Text
  import opened Calendar

  datatype CounterRequest = CounterRequest(key: string, limit: int, amount: Option<nat>, window: Option<Window>) {
    function Units(): nat {
      if amount.Some? then amount.value else 1
    }

    function Span(): Window {
      if window.Some? then window.value else Daily
    }
  }

  /** Identity of a stored counter: a key and a UTC day. */
  datatype Row = Row(key: string, day: string)

  function CounterRow(key: string, window: Window, now: int): Row {
    Row(match window
        case Minutely => key + "@" + MinuteKey(now)
        case Hourly => key + "@" + HourKey(now)
        case Daily => key,
        DayKey(now))
  }

  const COUNTER_RETENTION_DAYS := 2

  function RetentionCutoff(now: int): string {
    DayKey(now - COUNTER_RETENTION_DAYS * MS_PER_DAY)
  }

  // ----- Windows ----------------------------------------------------------------------------------

  /** Which window of its kind an instant falls in. */
  function WindowIndex(window: Window, t: int): int {
    t / WindowLength(window)
  }

  /** The start of the window after the one containing `now`. */
  function NextResetAt(now: int, window: Window): int {
    (WindowIndex(window, now) + 1) * WindowLength(window)
  }

  /** Without a window a request belongs to its UTC day. */
  lemma WindowlessIsDaily(request: CounterRequest, now: int)
    requires request.window.None?
    ensures CounterRow(request.key, request.Span(), now) == Row(request.key, DayKey(now))
    ensures NextResetAt(now, request.Span()) == (Day(now) + 1) * MS_PER_DAY
  {
    hide DayKey;
  }

  lemma DivUnique(t: int, m: nat, q: int, r: nat)
    requires t == m * q + r && r < m
    ensures t / m == q && t % m == r
  {
    var d, size: int := t / m - q, m;
    assert size * d == r - t % m;
    assert d >= 1 ==> size * d >= size;
    assert d <= -1 ==> size * d <= -size;
  }

  /** Division in two stages. */
  lemma TwoStage(t: int, inner: nat, outer: nat)
    requires inner > 0 && outer > 0
    ensures inner * outer > 0
    ensures t / (inner * outer) == t / inner / outer
    ensures t % (inner * outer) == t / inner % outer * inner + t % inner
  {
    var q := t / inner;
    var r := q % outer * inner + t % inner;
    assert q % outer * inner <= (outer - 1) * inner;
    assert t == inner * (outer * (q / outer) + q % outer) + t % inner;
    assert t == (inner * outer) * (q / outer) + r;
    DivUnique(t, inner * outer, q / outer, r);
  }

  lemma HourOfDay(t: int)
    ensures t / MS_PER_HOUR == 24 * Day(t) + HourOf(t) && t % MS_PER_DAY == HourOf(t) * MS_PER_HOUR + t % MS_PER_HOUR
    ensures HourOf(t) < 24
  {
    TwoStage(t, MS_PER_HOUR, 24);
    DivUnique(t % MS_PER_DAY, MS_PER_HOUR, t / MS_PER_HOUR % 24, t % MS_PER_HOUR);
  }

  lemma MinuteOfHour(t: int)
    ensures t / MS_PER_MINUTE == 60 * (t / MS_PER_HOUR) + MinuteOf(t)
    ensures t % MS_PER_HOUR == MinuteOf(t) * MS_PER_MINUTE + t % MS_PER_MINUTE
    ensures MinuteOf(t) < 60
  {
    TwoStage(t, MS_PER_MINUTE, 60);
    DivUnique(t % MS_PER_HOUR, MS_PER_MINUTE, t / MS_PER_MINUTE % 60, t % MS_PER_MINUTE);
  }

  lemma HourSplit(t1: int, t2: int)
    ensures Day(t1) == Day(t2) && HourOf(t1) == HourOf(t2) <==> t1 / MS_PER_HOUR == t2 / MS_PER_HOUR
  {
    HourOfDay(t1);
    HourOfDay(t2);
  }

  lemma MinuteSplit(t1: int, t2: int)
    ensures t1 / MS_PER_HOUR == t2 / MS_PER_HOUR && MinuteOf(t1) == MinuteOf(t2)
       <==> t1 / MS_PER_MINUTE == t2 / MS_PER_MINUTE
  {
    MinuteOfHour(t1);
    MinuteOfHour(t2);
  }

  lemma TwoDigits(m: nat, n: nat)
    requires m < 100 && n < 100
    ensures Digits(m, 2) == Digits(n, 2) <==> m == n
  {
    assert Pow10(2) == 100;
    DigitsOrder(m, n, 2);
  }

  lemma HourKeyEqual(t1: int, t2: int)
    requires FourDigitYear(t1) && FourDigitYear(t2)
    ensures HourKey(t1) == HourKey(t2) <==> t1 / MS_PER_HOUR == t2 / MS_PER_HOUR
  {
    IsoPrefixes(t1);
    IsoPrefixes(t2);
    DayKeyOrder(t1, t2);
    TwoDigits(HourOf(t1), HourOf(t2));
    HourSplit(t1, t2);
    var a, b := HourKey(t1), HourKey(t2);
    assert a[..10] == DayKey(t1) && b[..10] == DayKey(t2);
    assert a[11..] == Digits(HourOf(t1), 2) && b[11..] == Digits(HourOf(t2), 2);
    assert a == a[..10] + "T" + a[11..] && b == b[..10] + "T" + b[11..];
  }

  lemma MinuteKeyEqual(t1: int, t2: int)
    requires FourDigitYear(t1) && FourDigitYear(t2)
    ensures MinuteKey(t1) == MinuteKey(t2) <==> t1 / MS_PER_MINUTE == t2 / MS_PER_MINUTE
  {
    IsoPrefixes(t1);
    IsoPrefixes(t2);
    HourKeyEqual(t1, t2);
    TwoDigits(MinuteOf(t1), MinuteOf(t2));
    MinuteSplit(t1, t2);
    var a, b := MinuteKey(t1), MinuteKey(t2);
    assert a[..13] == HourKey(t1) && b[..13] == HourKey(t2);
    assert a[14..] == Digits(MinuteOf(t1), 2) && b[14..] == Digits(MinuteOf(t2), 2);
    assert a == a[..13] + ":" + a[14..] && b == b[..13] + ":" + b[14..];
  }

  lemma FinerWindow(window: Window, t1: int, t2: int)
    requires WindowIndex(window, t1) == WindowIndex(window, t2)
    ensures Day(t1) == Day(t2)
  {
    HourSplit(t1, t2);
    MinuteSplit(t1, t2);
  }

  /** One key's rows partition the instants of years 0 to 9999 exactly into windows. */
  lemma RowsAreWindows(key: string, window: Window, t1: int, t2: int)
    requires FourDigitYear(t1) && FourDigitYear(t2)
    ensures CounterRow(key, window, t1) == CounterRow(key, window, t2)
       <==> WindowIndex(window, t1) == WindowIndex(window, t2)
  {
    var r1, r2 := CounterRow(key, window, t1), CounterRow(key, window, t2);
    DayKeyOrder(t1, t2);
    if WindowIndex(window, t1) == WindowIndex(window, t2) { FinerWindow(window, t1, t2); }
    match window
    case Daily =>
    case Hourly =>
      HourKeyEqual(t1, t2);
      assert r1.key[|key| + 1..] == HourKey(t1) && r2.key[|key| + 1..] == HourKey(t2);
    case Minutely =>
      MinuteKeyEqual(t1, t2);
      assert r1.key[|key| + 1..] == MinuteKey(t1) && r2.key[|key| + 1..] == MinuteKey(t2);
  }

  lemma YearsAdvance(t1: int, t2: int)
    requires t1 <= t2
    ensures CivilOf(Day(t1)).year <= CivilOf(Day(t2)).year
  {
    YearsInOrder(Day(t1), CivilOf(Day(t1)).year, Day(t2), CivilOf(Day(t2)).year);
  }

  lemma LateDayKey(t: int)
    requires CivilOf(Day(t)).year > 9999
    ensures DayKey(t)[0] == '+'
  {
    assert DayKey(t)[0] == IsoDate(Day(t))[0];
  }

  /** A counter keeps its row from `now` until just before its reset and never meets it again. */
  lemma RowLastsUntilReset(key: string, window: Window, now: int, t: int)
    requires FourDigitYear(now) && now <= t
    ensures CounterRow(key, window, t) == CounterRow(key, window, now) <==> t < NextResetAt(now, window)
  {
    var length := WindowLength(window);
    assert t < NextResetAt(now, window) <==> WindowIndex(window, t) == WindowIndex(window, now) by {
      WindowBounds(window, now);
      WindowBounds(window, t);
    }
    YearsAdvance(now, t);
    if FourDigitYear(t) {
      RowsAreWindows(key, window, now, t);
    } else {
      LateDayKey(t);
      IsoPrefixes(now);
      if WindowIndex(window, t) == WindowIndex(window, now) { FinerWindow(window, t, now); }
    }
  }

  lemma WindowBounds(window: Window, t: int)
    ensures WindowIndex(window, t) * WindowLength(window) <= t < NextResetAt(t, window)
    ensures forall u: int :: WindowIndex(window, t) * WindowLength(window) <= u < NextResetAt(t, window)
              ==> WindowIndex(window, u) == WindowIndex(window, t)
    ensures forall u: int :: u >= NextResetAt(t, window) ==> WindowIndex(window, u) > WindowIndex(window, t)
  {
  }

  /** The textual cutoff deletes exactly the days more than two before today. */
  lemma RetentionKeepsTwoDays(t: int, now: int)
    requires FourDigitYear(t) && FourDigitYear(now - COUNTER_RETENTION_DAYS * MS_PER_DAY)
    ensures LexLess(DayKey(t), RetentionCutoff(now)) <==> Day(t) < Day(now) - 2
  {
    DayKeyOrder(t, now - COUNTER_RETENTION_DAYS * MS_PER_DAY);
  }

  // ----- Row identity -----------------------------------------------------------------------------

  /** The text after a key in its stored row key. */
  function Suffix(window: Window, now: int): (s: string)
    ensures |s| == match window case Daily => 0 case Hourly => 14 case Minutely => 17
  {
    match window
    case Daily => ""
    case Hourly => "@" + HourKey(now)
    case Minutely => "@" + MinuteKey(now)
  }

  lemma RowKeySplit(key: string, window: Window, now: int)
    ensures CounterRow(key, window, now).key == key + Suffix(window, now)
    ensures window != Daily ==> Suffix(window, now)[0] == '@'
  {
    hide DayKey, HourKey, MinuteKey;
    match window
    case Daily => assert key + "" == key;
    case Hourly => assert key + "@" + HourKey(now) == key + ("@" + HourKey(now));
    case Minutely => assert key + "@" + MinuteKey(now) == key + ("@" + MinuteKey(now));
  }

  /** A daily key that spells out another key's window of the same UTC day. */
  predicate SpellsWindow(daily: string, at: int, key: string, window: Window, t: int) {
    window != Daily && Day(at) == Day(t) && daily == key + Suffix(window, t)
  }

  /** An hourly row key has `@` where a minutely one has a digit of its year. */
  lemma HourIsNotMinute(k1: string, t1: int, k2: string, t2: int)
    requires FourDigitYear(t2)
    ensures CounterRow(k1, Hourly, t1).key != CounterRow(k2, Minutely, t2).key
  {
    hide DayKey, HourKey, MinuteKey;
    YearDigit(t2);
    var hourly, minutely := CounterRow(k1, Hourly, t1).key, CounterRow(k2, Minutely, t2).key;
    assert hourly[|hourly| - 14] == '@' && minutely[|minutely| - 14] == MinuteKey(t2)[2];
  }

  lemma YearDigit(t: int)
    requires FourDigitYear(t)
    ensures IsDigit(MinuteKey(t)[2])
  {
    hide CivilOf;
    var year := Digits(CivilOf(Day(t)).year, 4);
    assert MinuteKey(t)[2] == IsoDate(Day(t))[2] == year[2];
  }

  lemma SameEnds(a: string, b: string, c: string, d: string)
    requires |b| == |d|
    ensures a + b == c + d <==> a == c && b == d
  {
    if a + b == c + d {
      assert (a + b)[..|a|] == a && (c + d)[..|c|] == c && (a + b)[|a|..] == b && (c + d)[|c|..] == d;
    }
  }

  lemma SameKindRows(k1: string, t1: int, k2: string, t2: int, window: Window)
    requires FourDigitYear(t1) && FourDigitYear(t2)
    ensures CounterRow(k1, window, t1) == CounterRow(k2, window, t2)
       <==> k1 == k2 && WindowIndex(window, t1) == WindowIndex(window, t2)
  {
    hide DayKey, HourKey, MinuteKey, FourDigitYear, WindowIndex, Suffix;
    RowKeySplit(k1, window, t1);
    RowKeySplit(k2, window, t2);
    SameEnds(k1, Suffix(window, t1), k2, Suffix(window, t2));
    RowsAreWindows(k1, window, t1, t2);
  }

  lemma DailyMeets(daily: string, at: int, key: string, window: Window, t: int)
    requires window != Daily && FourDigitYear(at) && FourDigitYear(t)
    ensures CounterRow(daily, Daily, at) == CounterRow(key, window, t) <==> SpellsWindow(daily, at, key, window, t)
  {
    hide DayKey, HourKey, MinuteKey, FourDigitYear, Suffix;
    RowKeySplit(key, window, t);
    DayKeyOrder(at, t);
  }

  /**
   * Row identity for every pair of raw keys: two requests share a row exactly when key, window kind and window agree,
   * or when one is daily and its key spells the other's key with its hour or minute, on the same UTC day.
   */
  lemma RowIdentity(k1: string, w1: Window, t1: int, k2: string, w2: Window, t2: int)
    requires FourDigitYear(t1) && FourDigitYear(t2)
    ensures CounterRow(k1, w1, t1) == CounterRow(k2, w2, t2)
       <==> (k1 == k2 && w1 == w2 && WindowIndex(w1, t1) == WindowIndex(w2, t2))
            || (w1 == Daily && SpellsWindow(k1, t1, k2, w2, t2))
            || (w2 == Daily && SpellsWindow(k2, t2, k1, w1, t1))
  {
    hide CounterRow, FourDigitYear, WindowIndex, Suffix;
    match (w1, w2)
    case (Hourly, Minutely) => HourIsNotMinute(k1, t1, k2, t2);
    case (Minutely, Hourly) => HourIsNotMinute(k2, t2, k1, t1);
    case _ =>
      if w1 == w2 {
        SameKindRows(k1, t1, k2, t2, w1);
      } else if w1 == Daily {
        DailyMeets(k1, t1, k2, w2, t2);
      } else {
        DailyMeets(k2, t2, k1, w1, t1);
      }
  }

  /** Raw keys without `@` share a row only when key, window kind and window all agree. */
  lemma PlainKeysNeverCollide(k1: string, w1: Window, t1: int, k2: string, w2: Window, t2: int)
    requires '@' !in k1 && '@' !in k2 && FourDigitYear(t1) && FourDigitYear(t2)
    ensures CounterRow(k1, w1, t1) == CounterRow(k2, w2, t2)
       <==> k1 == k2 && w1 == w2 && WindowIndex(w1, t1) == WindowIndex(w2, t2)
  {
    hide CounterRow, FourDigitYear, WindowIndex, Suffix;
    RowIdentity(k1, w1, t1, k2, w2, t2);
    if w1 != Daily { RowKeySplit(k1, w1, t1); assert (k1 + Suffix(w1, t1))[|k1|] == '@'; }
    if w2 != Daily { RowKeySplit(k2, w2, t2); assert (k2 + Suffix(w2, t2))[|k2|] == '@'; }
  }

  /** A raw key that spells another key's hour or minute is charged to that key's row all day. */
  lemma AtSignCollides(key: string, window: Window, t: int, at: int)
    requires window != Daily && FourDigitYear(t) && FourDigitYear(at) && Day(at) == Day(t)
    ensures CounterRow(key + Suffix(window, t), Daily, at) == CounterRow(key, window, t)
  {
    hide CounterRow, FourDigitYear, WindowIndex, Suffix;
    RowIdentity(key + Suffix(window, t), Daily, at, key, window, t);
  }

  // ----- Day keys outside four-digit years -----------------------------------------------------------

  /** The years whose ISO form has at most six digits, which every date the platform can hold has. */
  predicate SixDigitYear(t: int) {
    -999_999 <= CivilOf(Day(t)).year <= 999_999
  }

  lemma WideYears(y1: int, y2: int)
    requires -999_999 <= y1 <= 999_999 && !(0 <= y1 <= 9999) && -999_999 <= y2 <= 999_999 && !(0 <= y2 <= 9999)
    ensures |IsoYear(y1)| == |IsoYear(y2)| == 7
    ensures IsoYear(y1) == IsoYear(y2) <==> y1 == y2
    ensures LexLess(IsoYear(y1), IsoYear(y2)) <==> if y1 < 0 then y2 < 0 && y2 < y1 else y2 < 0 || y1 < y2
  {
    var m1, m2 := if y1 < 0 then -y1 else y1, if y2 < 0 then -y2 else y2;
    assert Pow10(3) == 1000 && Pow10(6) == 1_000_000;
    DigitsOrder(m1, m2, 6);
    assert IsoYear(y1)[1..] == Digits(m1, 6) && IsoYear(y2)[1..] == Digits(m2, 6);
  }

  lemma WideDayKey(t: int)
    requires !FourDigitYear(t)
    ensures var c := CivilOf(Day(t)); DayKey(t) == IsoYear(c.year) + "-" + Digits(c.month, 2)
  {
    hide CivilOf;
    assert Iso(t)[..10] == IsoDate(Day(t))[..10];
  }

  lemma DayKeyStart(t: int)
    requires SixDigitYear(t)
    ensures var year := CivilOf(Day(t)).year;
            DayKey(t)[0] == IsoYear(year)[0]
            && (if year < 0 then DayKey(t)[0] == '-'
                else if year > 9999 then DayKey(t)[0] == '+'
                else IsDigit(DayKey(t)[0]))
  {
    hide CivilOf;
    assert DayKey(t)[0] == IsoDate(Day(t))[0];
  }

  lemma MonthAdvances(t1: int, t2: int)
    requires Day(t1) < Day(t2)
    ensures var c1, c2 := CivilOf(Day(t1)), CivilOf(Day(t2));
            c1.year < c2.year || (c1.year == c2.year && c1.month <= c2.month)
  {
    hide CivilOf;
    CivilForward(Day(t1), Day(t2));
  }

  lemma BothWide(t1: int, t2: int)
    requires !FourDigitYear(t1) && !FourDigitYear(t2) && SixDigitYear(t1) && SixDigitYear(t2)
    ensures var c1, c2 := CivilOf(Day(t1)), CivilOf(Day(t2));
            && (DayKey(t1) == DayKey(t2) <==> c1.year == c2.year && c1.month == c2.month)
            && (LexLess(DayKey(t1), DayKey(t2)) <==>
                  LexLess(IsoYear(c1.year), IsoYear(c2.year)) || (c1.year == c2.year && c1.month < c2.month))
  {
    hide DayKey, CivilOf, IsoYear, Digits, LexLess;
    var c1, c2 := CivilOf(Day(t1)), CivilOf(Day(t2));
    WideDayKey(t1);
    WideDayKey(t2);
    WideYears(c1.year, c2.year);
    TwoDigits(c1.month, c2.month);
    assert Pow10(2) == 100;
    DigitsOrder(c1.month, c2.month, 2);
    TwoPartEqual(IsoYear(c1.year), Digits(c1.month, 2), IsoYear(c2.year), Digits(c2.month, 2));
    TwoPart(IsoYear(c1.year), Digits(c1.month, 2), IsoYear(c2.year), Digits(c2.month, 2));
  }

  /**
   * What a day key names, in every year: one day in years 0 to 9999, a whole month outside them, where the days of one
   * month share their rows.
   */
  lemma WideDayKeys(t1: int, t2: int)
    requires SixDigitYear(t1) && SixDigitYear(t2)
    ensures var c1, c2 := CivilOf(Day(t1)), CivilOf(Day(t2));
            DayKey(t1) == DayKey(t2)
            <==> Day(t1) == Day(t2) || (!FourDigitYear(t1) && c1.year == c2.year && c1.month == c2.month)
  {
    hide DayKey, CivilOf, IsoYear;
    if FourDigitYear(t1) && FourDigitYear(t2) {
      DayKeyOrder(t1, t2);
    } else if !FourDigitYear(t1) && !FourDigitYear(t2) {
      BothWide(t1, t2);
    } else {
      DayKeyStart(t1);
      DayKeyStart(t2);
    }
  }

  /**
   * When the text order of day keys is day order, in every year: for an earlier and a later day exactly when the later
   * one has a four-digit year, when both lie past year 9999 in different months, or both before year 0 in one year and
   * different months.
   */
  lemma WideDayOrder(t1: int, t2: int)
    requires SixDigitYear(t1) && SixDigitYear(t2) && Day(t1) < Day(t2)
    ensures var c1, c2 := CivilOf(Day(t1)), CivilOf(Day(t2));
            LexLess(DayKey(t1), DayKey(t2))
            <==> FourDigitYear(t2)
                 || (c1.year > 9999 && (c1.year, c1.month) != (c2.year, c2.month))
                 || (c2.year < 0 && c1.year == c2.year && c1.month != c2.month)
  {
    hide DayKey, CivilOf, IsoYear;
    var c1, c2 := CivilOf(Day(t1)), CivilOf(Day(t2));
    MonthAdvances(t1, t2);
    if FourDigitYear(t1) && FourDigitYear(t2) {
      DayKeyOrder(t1, t2);
    } else if !FourDigitYear(t1) && !FourDigitYear(t2) {
      BothWide(t1, t2);
      WideYears(c1.year, c2.year);
    } else {
      DayKeyStart(t1);
      DayKeyStart(t2);
    }
  }

  // ----- nextReset --------------------------------------------------------------------------------

  function MakeTime(hour: int, minute: int, second: int, ms: int): int {
    hour * MS_PER_HOUR + minute * MS_PER_MINUTE + second * MS_PER_SECOND + ms
  }

  function MakeDate(day: int, time: int): int {
    day * MS_PER_DAY + time
  }

  lemma FieldsBack(day: int, hour: nat, minute: nat)
    requires hour < 24 && minute < 60
    ensures var t := MakeDate(day, MakeTime(hour, minute, 0, 0));
            Day(t) == day && HourOf(t) == hour && MinuteOf(t) == minute && SecondOf(t) == 0 && MilliOf(t) == 0
            && t % MS_PER_DAY == MakeTime(hour, minute, 0, 0)
  {
    var t := MakeDate(day, MakeTime(hour, minute, 0, 0));
    DivUnique(t, MS_PER_DAY, day, MakeTime(hour, minute, 0, 0));
    DivUnique(t % MS_PER_DAY, MS_PER_HOUR, hour, minute * MS_PER_MINUTE);
    DivUnique(t, MS_PER_HOUR, 24 * day + hour, minute * MS_PER_MINUTE);
    DivUnique(t % MS_PER_HOUR, MS_PER_MINUTE, minute, 0);
    DivUnique(t, MS_PER_MINUTE, 60 * (24 * day + hour) + minute, 0);
    DivUnique(t, MS_PER_SECOND, 60 * (60 * (24 * day + hour) + minute), 0);
  }

  lemma ResetFields(now: int)
    ensures NextResetAt(now, Minutely) == MakeDate(Day(now), MakeTime(HourOf(now), MinuteOf(now) + 1, 0, 0))
    ensures NextResetAt(now, Hourly) == MakeDate(Day(now), MakeTime(HourOf(now) + 1, 0, 0, 0))
    ensures NextResetAt(now, Daily) == MakeDate(Day(now) + 1, 0)
    ensures HourOf(now) < 24 && MinuteOf(now) < 60
  {
    HourOfDay(now);
    MinuteOfHour(now);
  }

  /** A `Date`: one time value, rebuilt from its UTC fields by each setter. */
  class UtcDate {
    var time: int

    constructor (t: int)
      ensures time == t
    {
      time := t;
    }

    method SetSeconds(second: int, ms: int)
      modifies this
      ensures time == MakeDate(Day(old(time)), MakeTime(HourOf(old(time)), MinuteOf(old(time)), second, ms))
    {
      time := MakeDate(Day(time), MakeTime(HourOf(time), MinuteOf(time), second, ms));
    }

    method SetMinutes(minute: int, second: int, ms: int)
      modifies this
      ensures time == MakeDate(Day(old(time)), MakeTime(HourOf(old(time)), minute, second, ms))
    {
      time := MakeDate(Day(time), MakeTime(HourOf(time), minute, second, ms));
    }

    method SetHours(hour: int, minute: int, second: int, ms: int)
      modifies this
      ensures time == MakeDate(Day(old(time)), MakeTime(hour, minute, second, ms))
    {
      time := MakeDate(Day(time), MakeTime(hour, minute, second, ms));
    }

    method SetDate(date: int)
      modifies this
      ensures var c := CivilOf(Day(old(time)));
              time == MakeDate(MakeDay(c.year, c.month, date), old(time) % MS_PER_DAY)
    {
      var c := CivilOf(Day(time));
      time := MakeDate(MakeDay(c.year, c.month, date), time % MS_PER_DAY);
    }
  }

  /** Rolling the fields over one by one lands on the start of the next window, across month and year ends. */
  method NextReset(now: int, window: Window) returns (resetAt: int)
    ensures resetAt == NextResetAt(now, window)
  {
    var next := new UtcDate(now);
    ResetFields(now);
    FieldsBack(Day(now), HourOf(now), MinuteOf(now));
    FieldsBack(Day(now), HourOf(now), 0);
    FieldsBack(Day(now), 0, 0);
    if window == Minutely {
      next.SetSeconds(0, 0);
      next.SetMinutes(MinuteOf(next.time) + 1, SecondOf(next.time), MilliOf(next.time));
      return next.time;
    }
    if window == Hourly {
      next.SetMinutes(0, 0, 0);
      next.SetHours(HourOf(next.time) + 1, MinuteOf(next.time), SecondOf(next.time), MilliOf(next.time));
      return next.time;
    }
    next.SetHours(0, 0, 0, 0);
    CivilRoundTrip(Day(next.time));
    next.SetDate(CivilOf(Day(next.time)).date + 1);
    return next.time;
  }
}
