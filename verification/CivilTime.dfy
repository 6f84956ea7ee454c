/** Instants and their RFC 3339 (section 5.6) spelling in UTC with whole seconds.
    An instant is the number of seconds since 0000-01-01T00:00:00Z in the proleptic
    Gregorian calendar, which is where the four-digit years begin. */
module CivilTime {
  import opened Text

  const DAY_SECONDS := 86400
  /** 0001-01-01T00:00:00Z: Go's zero time, used as "not set". */
  const ZERO_TIME := 366 * DAY_SECONDS

  predicate Leap(y: nat) { y % 4 == 0 && (y % 100 != 0 || y % 400 == 0) }

  function YearDays(y: nat): nat { if Leap(y) then 366 else 365 }

  function DaysBeforeYear(y: nat): nat {
    if y == 0 then 0 else DaysBeforeYear(y - 1) + YearDays(y - 1)
  }

  function MonthDays(y: nat, m: nat): nat
    requires 1 <= m <= 12
  {
    if m == 2 then (if Leap(y) then 29 else 28)
    else if m in {4, 6, 9, 11} then 30
    else 31
  }

  function DaysBeforeMonth(y: nat, m: nat): nat
    requires 1 <= m <= 13
  {
    if m == 1 then 0 else DaysBeforeMonth(y, m - 1) + MonthDays(y, m - 1)
  }

  /** The year whose days include `day`, searching upwards. */
  function YearOf(day: nat, from: nat): (y: nat)
    requires DaysBeforeYear(from) <= day
    ensures y >= from && DaysBeforeYear(y) <= day < DaysBeforeYear(y + 1)
    decreases day - DaysBeforeYear(from)
  {
    if day < DaysBeforeYear(from + 1) then from else YearOf(day, from + 1)
  }

  function MonthOf(y: nat, dayOfYear: nat, from: nat): (m: nat)
    requires 1 <= from <= 12 && DaysBeforeMonth(y, from) <= dayOfYear < DaysBeforeMonth(y, 13)
    ensures from <= m <= 12 && DaysBeforeMonth(y, m) <= dayOfYear < DaysBeforeMonth(y, m + 1)
    decreases 12 - from
  {
    if dayOfYear < DaysBeforeMonth(y, from + 1) then from else MonthOf(y, dayOfYear, from + 1)
  }

  lemma MonthsFillTheYear(y: nat)
    ensures DaysBeforeMonth(y, 13) == YearDays(y)
  {
    assert DaysBeforeMonth(y, 2) == 31;
    assert DaysBeforeMonth(y, 3) == 31 + MonthDays(y, 2);
    assert DaysBeforeMonth(y, 5) == DaysBeforeMonth(y, 3) + 61;
    assert DaysBeforeMonth(y, 7) == DaysBeforeMonth(y, 5) + 61;
    assert DaysBeforeMonth(y, 9) == DaysBeforeMonth(y, 7) + 62;
    assert DaysBeforeMonth(y, 11) == DaysBeforeMonth(y, 9) + 61;
    assert DaysBeforeMonth(y, 13) == DaysBeforeMonth(y, 11) + 61;
  }

  lemma {:induction false} YearsIncrease(a: nat, b: nat)
    requires a < b
    ensures DaysBeforeYear(a + 1) <= DaysBeforeYear(b)
  {
    if a + 1 < b { YearsIncrease(a, b - 1); }
  }

  lemma {:induction false} MonthsIncrease(y: nat, a: nat, b: nat)
    requires 1 <= a < b <= 13
    ensures DaysBeforeMonth(y, a + 1) <= DaysBeforeMonth(y, b)
  {
    if a + 1 < b { MonthsIncrease(y, a, b - 1); }
  }

  lemma RoundedUpFourths(x: nat)
    ensures (x + 4) / 4 == (x + 3) / 4 + (if x % 4 == 0 then 1 else 0)
  {
  }

  lemma Hundredth(q: int, r: int)
    requires 0 <= r < 100
    ensures (100 * q + r) / 100 == q
  {
  }

  lemma FourHundredth(q: int, r: int)
    requires 0 <= r < 400
    ensures (400 * q + r) / 400 == q
  {
  }

  lemma RoundedUpHundredths(x: nat)
    ensures (x + 100) / 100 == (x + 99) / 100 + (if x % 100 == 0 then 1 else 0)
    ensures x % 100 == 0 ==> x % 4 == 0
  {
    var q, r := x / 100, x % 100;
    Hundredth(q + 1, r);
    if r == 0 {
      Hundredth(q, 99);
      assert x == 4 * (25 * q);
    } else {
      Hundredth(q + 1, r - 1);
    }
  }

  lemma RoundedUpCycles(x: nat)
    ensures (x + 400) / 400 == (x + 399) / 400 + (if x % 400 == 0 then 1 else 0)
    ensures x % 400 == 0 ==> x % 100 == 0
  {
    var q, r := x / 400, x % 400;
    FourHundredth(q + 1, r);
    if r == 0 {
      FourHundredth(q, 399);
      assert x == 100 * (4 * q);
    } else {
      FourHundredth(q + 1, r - 1);
    }
  }

  lemma LeapStep(x: nat)
    ensures (x + 4) / 4 - (x + 100) / 100 + (x + 400) / 400
      == (x + 3) / 4 - (x + 99) / 100 + (x + 399) / 400 + YearDays(x) - 365
  {
    RoundedUpFourths(x);
    RoundedUpHundredths(x);
    RoundedUpCycles(x);
  }

  /** The counted days agree with the closed Gregorian rule, year by year. */
  lemma {:induction false} GregorianDays(y: nat)
    ensures DaysBeforeYear(y) == 365 * y + (y + 3) / 4 - (y + 99) / 100 + (y + 399) / 400
  {
    if y > 0 {
      GregorianDays(y - 1);
      LeapStep(y - 1);
    }
  }

  datatype Civil = Civil(year: nat, month: nat, day: nat, hour: nat, minute: nat, second: nat)

  predicate ValidCivil(c: Civil) {
    1 <= c.month <= 12 && 1 <= c.day <= MonthDays(c.year, c.month)
    && c.hour < 24 && c.minute < 60 && c.second < 60
  }

  function FromCivil(c: Civil): nat
    requires ValidCivil(c)
  {
    DayNumber(c) * DAY_SECONDS + ClockSeconds(c)
  }

  function ToCivil(t: nat): (c: Civil)
    ensures ValidCivil(c)
  {
    DateAndClock(t / DAY_SECONDS, t % DAY_SECONDS)
  }

  function DateAndClock(days: nat, rest: nat): (c: Civil)
    requires rest < DAY_SECONDS
    ensures ValidCivil(c)
  {
    var (y, m, d) := DateOf(days);
    var (hour, minute, second) := ClockOf(rest);
    Civil(y, m, d, hour, minute, second)
  }

  function DateOf(days: nat): (r: (nat, nat, nat))
    ensures 1 <= r.1 <= 12 && 1 <= r.2 <= MonthDays(r.0, r.1)
    ensures days == DaysBeforeYear(r.0) + DaysBeforeMonth(r.0, r.1) + r.2 - 1
  {
    var y := YearOf(days, 0);
    var dayOfYear := days - DaysBeforeYear(y);
    MonthsFillTheYear(y);
    var m := MonthOf(y, dayOfYear, 1);
    (y, m, dayOfYear - DaysBeforeMonth(y, m) + 1)
  }

  function ClockOf(rest: nat): (r: (nat, nat, nat))
    requires rest < DAY_SECONDS
    ensures r.0 < 24 && r.1 < 60 && r.2 < 60 && rest == r.0 * 3600 + r.1 * 60 + r.2
  {
    (rest / 3600, rest % 3600 / 60, rest % 3600 % 60)
  }

  lemma FromToCivil(t: nat)
    ensures FromCivil(ToCivil(t)) == t
  {
  }

  lemma SplitClock(hour: nat, minute: nat, second: nat)
    requires hour < 24 && minute < 60 && second < 60
    ensures (hour * 3600 + minute * 60 + second) / 3600 == hour
    ensures (hour * 3600 + minute * 60 + second) % 3600 == minute * 60 + second
    ensures (minute * 60 + second) / 60 == minute && (minute * 60 + second) % 60 == second
  {
  }

  predicate ValidDate(y: nat, m: nat, d: nat) { 1 <= m <= 12 && 1 <= d <= MonthDays(y, m) }

  function DayOf(y: nat, m: nat, d: nat): nat
    requires ValidDate(y, m, d)
  {
    DaysBeforeYear(y) + DaysBeforeMonth(y, m) + d - 1
  }

  lemma WithinYear(y: nat, m: nat, d: nat)
    requires ValidDate(y, m, d)
    ensures DaysBeforeMonth(y, m) + d <= YearDays(y)
  {
    MonthsFillTheYear(y);
    MonthsIncrease(y, m, 13);
  }

  lemma LaterDate(y: nat, m: nat, d: nat, y': nat, m': nat, d': nat)
    requires ValidDate(y, m, d) && ValidDate(y', m', d')
    requires y < y' || (y == y' && m < m')
    ensures DayOf(y, m, d) < DayOf(y', m', d')
  {
    hide YearDays;
    if y < y' {
      WithinYear(y, m, d);
      YearsIncrease(y, y');
      assert DaysBeforeYear(y + 1) == DaysBeforeYear(y) + YearDays(y);
    } else {
      MonthsIncrease(y, m, m');
      assert DaysBeforeMonth(y, m + 1) == DaysBeforeMonth(y, m) + MonthDays(y, m);
    }
  }

  function DayNumber(c: Civil): nat
    requires ValidCivil(c)
  {
    DaysBeforeYear(c.year) + DaysBeforeMonth(c.year, c.month) + c.day - 1
  }

  function ClockSeconds(c: Civil): (r: nat)
    requires ValidCivil(c)
    ensures r < DAY_SECONDS
  {
    c.hour * 3600 + c.minute * 60 + c.second
  }

  lemma DateOfDayNumber(c: Civil)
    requires ValidCivil(c)
    ensures DateOf(DayNumber(c)) == (c.year, c.month, c.day)
  {
    hide DateOf, DaysBeforeYear, DaysBeforeMonth, MonthDays;
    var (y, m, d) := DateOf(DayNumber(c));
    if y < c.year || (y == c.year && m < c.month) {
      LaterDate(y, m, d, c.year, c.month, c.day);
    } else if c.year < y || m > c.month {
      LaterDate(c.year, c.month, c.day, y, m, d);
    }
  }

  lemma ClockOfSeconds(c: Civil)
    requires ValidCivil(c)
    ensures ClockOf(ClockSeconds(c)) == (c.hour, c.minute, c.second)
  {
    SplitClock(c.hour, c.minute, c.second);
    hide MonthDays;
  }

  lemma DateAndClockOf(c: Civil)
    requires ValidCivil(c)
    ensures DateAndClock(DayNumber(c), ClockSeconds(c)) == c
  {
    DateOfDayNumber(c);
    ClockOfSeconds(c);
    hide DateOf, ClockOf, DayNumber, ClockSeconds, ValidCivil;
  }

  lemma DivideByDay(days: nat, clock: nat)
    requires clock < DAY_SECONDS
    ensures (days * DAY_SECONDS + clock) / DAY_SECONDS == days && (days * DAY_SECONDS + clock) % DAY_SECONDS == clock
  {
  }

  lemma ToFromCivil(c: Civil)
    requires ValidCivil(c)
    ensures ToCivil(FromCivil(c)) == c
  {
    hide DayNumber, DateAndClock, ClockSeconds, ValidCivil;
    DivideByDay(DayNumber(c), ClockSeconds(c));
    DateAndClockOf(c);
  }

  /** Years 0000 to 9999: exactly the instants the layout can spell. */
  predicate FourDigitYear(t: int) {
    t >= 0 && ToCivil(t).year <= 9999
  }

  /** The years 0000 to 9999 last exactly 3,652,425 days. */
  lemma FourDigitsExactly(t: int)
    ensures FourDigitYear(t) <==> 0 <= t < 3_652_425 * 86_400
  {
    hide YearDays, MonthOf, DaysBeforeMonth, ClockOf;
    if t >= 0 {
      GregorianDays(10_000);
      var y := YearOf(t / DAY_SECONDS, 0);
      assert ToCivil(t).year == y;
      hide DateOf;
      if y >= 10_000 {
        if y > 10_000 { YearsIncrease(10_000, y); YearsGrow(10_000); }
      } else if y + 1 < 10_000 {
        YearsIncrease(y + 1, 10_000);
        YearsGrow(y + 1);
      }
    }
  }

  lemma YearsGrow(y: nat)
    ensures DaysBeforeYear(y) < DaysBeforeYear(y + 1)
  {
  }

  /** time.Format with the layout 2006-01-02T15:04:05Z. */
  function FormatTime(t: int): string
    requires FourDigitYear(t)
  {
    var c := ToCivil(t);
    Padded(c.year, 4) + "-" + Padded(c.month, 2) + "-" + Padded(c.day, 2) + "T"
    + Padded(c.hour, 2) + ":" + Padded(c.minute, 2) + ":" + Padded(c.second, 2) + "Z"
  }

  predicate TimeShape(s: string) {
    |s| == 20 && s[4] == '-' && s[7] == '-' && s[10] == 'T' && s[13] == ':' && s[16] == ':' && s[19] == 'Z'
    && AllDigits(s[0..4]) && AllDigits(s[5..7]) && AllDigits(s[8..10])
    && AllDigits(s[11..13]) && AllDigits(s[14..16]) && AllDigits(s[17..19])
  }

  function CivilOf(s: string): Civil
    requires TimeShape(s)
  {
    Civil(DecimalValue(s[0..4]), DecimalValue(s[5..7]), DecimalValue(s[8..10]),
          DecimalValue(s[11..13]), DecimalValue(s[14..16]), DecimalValue(s[17..19]))
  }

  /** parseTime: the layout read back, refused unless it prints as the same text. */
  function ParseTime(s: string): Option<int> {
    if TimeShape(s) && ValidCivil(CivilOf(s)) then Some(FromCivil(CivilOf(s))) else None
  }

  lemma Powers()
    ensures Pow10(2) == 100 && Pow10(3) == 1000 && Pow10(4) == 10000
  {
    assert Pow10(2) == 10 * Pow10(1) == 100;
    assert Pow10(4) == 10 * Pow10(3) == 100 * Pow10(2);
  }

  lemma Slices(t: int)
    requires FourDigitYear(t)
    ensures var c, s := ToCivil(t), FormatTime(t);
      TimeShape(s) && s[0..4] == Padded(c.year, 4) && s[5..7] == Padded(c.month, 2) && s[8..10] == Padded(c.day, 2)
      && s[11..13] == Padded(c.hour, 2) && s[14..16] == Padded(c.minute, 2) && s[17..19] == Padded(c.second, 2)
  {
    var c, s := ToCivil(t), FormatTime(t);
    assert s[0..4] == Padded(c.year, 4) && s[5..7] == Padded(c.month, 2) && s[8..10] == Padded(c.day, 2);
    assert s[11..13] == Padded(c.hour, 2) && s[14..16] == Padded(c.minute, 2) && s[17..19] == Padded(c.second, 2);
  }

  lemma ParseFormatTime(t: int)
    requires FourDigitYear(t)
    ensures |FormatTime(t)| == 20
    ensures ParseTime(FormatTime(t)) == Some(t)
  {
    SpellingRead(t);
    hide ToCivil, FormatTime, TimeShape, CivilOf, FromCivil;
    FromToCivil(t);
  }

  lemma FieldsSmall(c: Civil)
    requires ValidCivil(c)
    ensures c.month < 100 && c.day < 100 && c.hour < 100 && c.minute < 100 && c.second < 100
  {
  }

  lemma SpellingRead(t: int)
    requires FourDigitYear(t)
    ensures |FormatTime(t)| == 20 && TimeShape(FormatTime(t)) && CivilOf(FormatTime(t)) == ToCivil(t)
  {
    hide ToCivil, FormatTime, Pow10, Padded, DecimalValue, AllDigits, ValidCivil, MonthDays;
    var c := ToCivil(t);
    Powers();
    Slices(t);
    FieldsSmall(c);
    DecimalValueOfPadded(c.year, 4);
    DecimalValueOfPadded(c.month, 2);
    DecimalValueOfPadded(c.day, 2);
    DecimalValueOfPadded(c.hour, 2);
    DecimalValueOfPadded(c.minute, 2);
    DecimalValueOfPadded(c.second, 2);
  }

  lemma JoinedSlices(s: string)
    requires TimeShape(s)
    ensures s == s[0..4] + "-" + s[5..7] + "-" + s[8..10] + "T" + s[11..13] + ":" + s[14..16] + ":" + s[17..19] + "Z"
  {
  }

  lemma FormatParseTime(s: string)
    requires ParseTime(s).Some?
    ensures FourDigitYear(ParseTime(s).value)
    ensures FormatTime(ParseTime(s).value) == s
  {
    var c := CivilOf(s);
    ToFromCivil(c);
    Powers();
    PaddedOfDecimalValue(s[0..4]);
    PaddedOfDecimalValue(s[5..7]);
    PaddedOfDecimalValue(s[8..10]);
    PaddedOfDecimalValue(s[11..13]);
    PaddedOfDecimalValue(s[14..16]);
    PaddedOfDecimalValue(s[17..19]);
    JoinedSlices(s);
    hide Padded, DecimalValue, FromCivil, ToCivil, Pow10, AllDigits;
  }

  function FirstOfYearOne(): (c: Civil)
    ensures ValidCivil(c)
  {
    Civil(1, 1, 1, 0, 0, 0)
  }

  lemma FirstDay()
    ensures DayNumber(FirstOfYearOne()) == 366 && ClockSeconds(FirstOfYearOne()) == 0
  {
    hide ToCivil, FromCivil;
    assert DaysBeforeYear(1) == 366;
  }

  /** The instant that means "unset" is the first of January of year 1. */
  lemma ZeroTimeHasAYear()
    ensures FourDigitYear(ZERO_TIME) && ToCivil(ZERO_TIME) == FirstOfYearOne()
  {
    hide DayNumber, ClockSeconds, ToCivil, ValidCivil;
    FirstDay();
    assert FromCivil(FirstOfYearOne()) == ZERO_TIME;
    ToFromCivil(FirstOfYearOne());
  }
}
