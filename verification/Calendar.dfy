/**
 The civil date of a Unix time, computed without a date library (civil-from-days). It is proved to
 be the inverse of counting days by the rules of the Gregorian calendar.
 */
module Calendar {
  import opened ByteStrings

  const DAY: int := 86_400

  datatype Date = Date(year: int, month: int, day: int)

  datatype DateTime = DateTime(date: Date, hour: int, minute: int)

  // ----- the calendar's own rules -----

  predicate IsLeap(y: int) {
    y % 4 == 0 && (y % 100 != 0 || y % 400 == 0)
  }

  function YearLength(y: int): int {
    if IsLeap(y) then 366 else 365
  }

  function MonthLength(y: int, m: int): int
    requires 1 <= m <= 12
  {
    if m == 2 then if IsLeap(y) then 29 else 28
    else if m == 4 || m == 6 || m == 9 || m == 11 then 30
    else 31
  }

  predicate IsDate(t: Date) {
    1 <= t.month <= 12 && 1 <= t.day <= MonthLength(t.year, t.month)
  }

  /** Days from 1970-01-01 to the first of January of `y`, year by year. */
  function DaysBeforeYear(y: int): int
    decreases if y < 1970 then 1970 - y else y - 1970
  {
    if y == 1970 then 0
    else if y > 1970 then DaysBeforeYear(y - 1) + YearLength(y - 1)
    else DaysBeforeYear(y + 1) - YearLength(y)
  }

  /** Days of `y` before its month `m`, month by month. */
  function DaysBeforeMonth(y: int, m: int): int
    requires 1 <= m <= 13
  {
    if m == 1 then 0 else DaysBeforeMonth(y, m - 1) + MonthLength(y, m - 1)
  }

  /** The day number of a date, with 1970-01-01 as day 0. */
  function DayNumber(t: Date): int
    requires 1 <= t.month <= 12
  {
    DaysBeforeYear(t.year) + DaysBeforeMonth(t.year, t.month) + t.day - 1
  }

  /** The date after. */
  function NextDay(t: Date): Date
    requires IsDate(t)
  {
    if t.day < MonthLength(t.year, t.month) then t.(day := t.day + 1)
    else if t.month < 12 then Date(t.year, t.month + 1, 1)
    else Date(t.year + 1, 1, 1)
  }

  // ----- the conversion -----

  /** Days before the March-based month `mp`, counted from the first of March. */
  function MarchStart(mp: int): int {
    (153 * mp + 2) / 5
  }

  /** The year of its 400-year era a day falls in, in years that start in March. */
  function YearOfEra(doe: int): int {
    (doe - doe / 1460 + doe / 36_524 - doe / 146_096) / 365
  }

  /** The date of day `doy` of the March-based year `yoe` of an era. */
  function DateOf(era: int, yoe: int, doy: int): Date {
    var mp := (5 * doy + 2) / 153;
    var d := doy - MarchStart(mp) + 1;
    var m := if mp < 10 then mp + 3 else mp - 9;
    Date(yoe + era * 400 + (if m <= 2 then 1 else 0), m, d)
  }

  function Civil(days: int): Date {
    var z := days + 719_468;
    var era := z / 146_097;
    var doe := z - era * 146_097;
    var yoe := YearOfEra(doe);
    DateOf(era, yoe, doe - (365 * yoe + yoe / 4 - yoe / 100))
  }

  /** `utc`, before formatting. */
  function Utc(secs: i64): DateTime {
    var rem := secs % DAY;
    DateTime(Civil(secs / DAY), rem / 3600, rem % 3600 / 60)
  }

  // ----- leap days -----

  /** Leap days up to the year `y`, up to a constant. */
  function Leaps(y: int): int {
    y / 4 - y / 100 + y / 400
  }

  lemma FoursStep(y: int)
    ensures y / 4 - (y - 1) / 4 == if y % 4 == 0 then 1 else 0
  {
  }

  lemma CenturiesStep(y: int)
    ensures y / 100 - (y - 1) / 100 == if y % 100 == 0 then 1 else 0
  {
  }

  lemma ErasStep(y: int)
    ensures y / 400 - (y - 1) / 400 == if y % 400 == 0 then 1 else 0
  {
  }

  lemma CenturyIsFours(y: int)
    ensures y % 100 == 0 ==> y % 4 == 0
  {
    var c := y / 100;
    if y % 100 == 0 {
      assert y == 4 * (25 * c);
    }
  }

  lemma EraIsCenturies(y: int)
    ensures y % 400 == 0 ==> y % 100 == 0
  {
    var e := y / 400;
    if y % 400 == 0 {
      assert y == 100 * (4 * e);
    }
  }

  lemma LeapsStep(y: int)
    ensures Leaps(y) - Leaps(y - 1) == if IsLeap(y) then 1 else 0
  {
    FoursStep(y);
    CenturiesStep(y);
    ErasStep(y);
    CenturyIsFours(y);
    EraIsCenturies(y);
  }

  lemma {:induction false} DaysBeforeYearClosed(y: int)
    ensures DaysBeforeYear(y) == 365 * (y - 1970) + Leaps(y - 1) - 477
    decreases if y < 1970 then 1970 - y else y - 1970
  {
    if y == 1970 {
      assert Leaps(1969) == 477;
    } else if y > 1970 {
      DaysBeforeYearClosed(y - 1);
      LeapsStep(y - 1);
    } else {
      DaysBeforeYearClosed(y + 1);
      LeapsStep(y);
    }
  }

  // ----- the year of the era -----

  /** The first day of the March-based year `y` of an era. */
  function YearStart(y: int): int {
    365 * y + y / 4 - y / 100 + y / 400
  }

  /**
   A day of an era by century `c`, four-year cycle `k` and day `t` of the cycle: the corrections of
   the source cancel to the cycle's own day, less one near its end.
   */
  lemma YearOfEraByCycle(c: int, k: int, t: int)
    requires 0 <= c <= 3 && 0 <= k <= 24 && 0 <= t <= 1460 && 1461 * k + t < 36_524
    ensures YearOfEra(36_524 * c + 1461 * k + t) == 100 * c + 4 * k + (if t < 1095 then t / 365 else 3)
  {
    var doe := 36_524 * c + 1461 * k + t;
    var extra := if 24 * c + k + t >= 1460 then 1 else 0;
    assert doe / 36_524 == c;
    assert doe / 146_096 == 0;
    assert doe / 1460 == 25 * c + k + extra;
    assert doe - doe / 1460 + doe / 36_524 - doe / 146_096 == 365 * (100 * c + 4 * k) + (t - extra);
    assert (t - extra) / 365 == if t < 1095 then t / 365 else 3;
  }

  lemma YearHoldsByCycle(c: int, k: int, t: int)
    requires 0 <= c <= 3 && 0 <= k <= 24 && 0 <= t <= 1460 && 1461 * k + t < 36_524
    ensures var y := 100 * c + 4 * k + (if t < 1095 then t / 365 else 3);
            0 <= y <= 399 && YearStart(y) <= 36_524 * c + 1461 * k + t < YearStart(y + 1)
  {
    var u := if t < 1095 then t / 365 else 3;
    var y := 100 * c + 4 * k + u;
    assert y / 4 == 25 * c + k && y / 100 == c && y / 400 == 0;
    if u < 3 {
      assert (y + 1) / 4 == 25 * c + k && (y + 1) / 100 == c && (y + 1) / 400 == 0;
    } else {
      assert (y + 1) / 4 == 25 * c + k + 1;
      assert (y + 1) / 100 == if k == 24 then c + 1 else c;
      assert (y + 1) / 400 == if k == 24 && c == 3 then 1 else 0;
    }
  }

  /** The divisions of the source pick the one year that holds the day. */
  lemma YearOfEraHolds(doe: int)
    requires 0 <= doe <= 146_096
    ensures 0 <= YearOfEra(doe) <= 399
    ensures YearStart(YearOfEra(doe)) <= doe < YearStart(YearOfEra(doe) + 1)
  {
    hide YearOfEra;
    hide YearStart;
    if doe == 146_096 {
      LastDayOfEra();
    } else {
      var c := doe / 36_524;
      var r := doe - 36_524 * c;
      var k := r / 1461;
      YearOfEraByCycle(c, k, r - 1461 * k);
      YearHoldsByCycle(c, k, r - 1461 * k);
    }
  }

  lemma LastDayOfEra()
    ensures YearOfEra(146_096) == 399 && YearStart(399) <= 146_096 < YearStart(400)
  {
  }

  // ----- months -----

  /** The month and day the source takes from the day of a March-based year. */
  lemma MonthOfYear(doy: int)
    requires 0 <= doy <= 365
    ensures var mp := (5 * doy + 2) / 153;
            0 <= mp <= 11 && MarchStart(mp) <= doy && (mp < 11 ==> doy < MarchStart(mp + 1))
  {
  }

  /** Months from March on, counted by the calendar's rules. */
  lemma DaysBeforeMonthFromMarch(y: int, mp: int)
    requires 0 <= mp <= 9
    ensures DaysBeforeMonth(y, mp + 3) == (if IsLeap(y) then 60 else 59) + MarchStart(mp)
    ensures MonthLength(y, mp + 3) == MarchStart(mp + 1) - MarchStart(mp)
  {
    hide IsLeap;
    if mp > 0 {
      DaysBeforeMonthFromMarch(y, mp - 1);
    } else {
      assert DaysBeforeMonth(y, 2) == 31;
      assert DaysBeforeMonth(y, 3) == 31 + MonthLength(y, 2);
    }
  }

  // ----- the whole conversion -----

  lemma LeapsOfEra(era: int, yoe: int)
    requires 0 <= yoe <= 400
    ensures Leaps(400 * era + yoe) == 97 * era + Leaps(yoe)
  {
    assert (400 * era + yoe) / 4 == 100 * era + yoe / 4;
    assert (400 * era + yoe) / 100 == 4 * era + yoe / 100;
    assert (400 * era + yoe) / 400 == era + yoe / 400;
  }

  /** The year of an era is leap, by its end in February, exactly when its March-based year has 366 days. */
  lemma LongYear(era: int, yoe: int)
    requires 0 <= yoe <= 399
    ensures YearStart(yoe + 1) - YearStart(yoe) == if IsLeap(400 * era + yoe + 1) then 366 else 365
  {
    LeapsOfEra(era, yoe);
    LeapsOfEra(era, yoe + 1);
    LeapsStep(400 * era + yoe + 1);
  }

  /** A day of a March-based year, from March to December. */
  lemma SpringDay(era: int, yoe: int, mp: int, d: int)
    requires 0 <= yoe <= 399 && 0 <= mp <= 9 && 1 <= d <= MarchStart(mp + 1) - MarchStart(mp)
    ensures var t := Date(400 * era + yoe, mp + 3, d);
            IsDate(t) && DayNumber(t) == 146_097 * era + YearStart(yoe) + MarchStart(mp) + d - 1 - 719_468
  {
    hide IsLeap;
    hide MonthLength;
    hide MarchStart;
    hide DaysBeforeMonth;
    hide DaysBeforeYear;
    var y := 400 * era + yoe;
    DaysBeforeMonthFromMarch(y, mp);
    DaysBeforeYearClosed(y);
    LeapsStep(y);
    LeapsOfEra(era, yoe);
  }

  /** A January or February day closes the March-based year of the calendar year before. */
  lemma WinterDay(era: int, yoe: int, mp: int, d: int)
    requires 0 <= yoe <= 399 && 10 <= mp <= 11
    requires 1 <= d <= if mp == 10 then 31 else YearStart(yoe + 1) - YearStart(yoe) - 337
    ensures var t := Date(400 * era + yoe + 1, mp - 9, d);
            IsDate(t) && DayNumber(t) == 146_097 * era + YearStart(yoe) + MarchStart(mp) + d - 1 - 719_468
  {
    hide IsLeap;
    hide DaysBeforeYear;
    var y := 400 * era + yoe + 1;
    LongYear(era, yoe);
    DaysBeforeYearClosed(y);
    LeapsOfEra(era, yoe);
    assert DaysBeforeMonth(y, 1) == 0 && DaysBeforeMonth(y, 2) == 31;
    assert MarchStart(10) == 306 && MarchStart(11) == 337;
  }

  lemma DateOfCounts(era: int, yoe: int, doy: int)
    requires 0 <= yoe <= 399 && 0 <= doy < YearStart(yoe + 1) - YearStart(yoe)
    ensures var t := DateOf(era, yoe, doy);
            IsDate(t) && DayNumber(t) == 146_097 * era + YearStart(yoe) + doy - 719_468
  {
    hide IsDate;
    hide DayNumber;
    hide MarchStart;
    hide YearStart;
    LongYear(era, yoe);
    MonthOfYear(doy);
    var mp := (5 * doy + 2) / 153;
    var d := doy - MarchStart(mp) + 1;
    MarchLengths();
    if mp <= 9 {
      SpringDay(era, yoe, mp, d);
    } else {
      WinterDay(era, yoe, mp, d);
    }
  }

  /** Correctness: the result is a date of the calendar, and its day number is the input. */
  lemma CivilIsDate(days: int)
    ensures IsDate(Civil(days)) && DayNumber(Civil(days)) == days
  {
    hide IsDate;
    hide DayNumber;
    hide YearOfEra;
    hide DateOf;
    var z := days + 719_468;
    var era := z / 146_097;
    var doe := z - era * 146_097;
    YearOfEraHolds(doe);
    var yoe := YearOfEra(doe);
    WithinEra(yoe);
    DateOfCounts(era, yoe, doe - YearStart(yoe));
  }

  lemma WithinEra(yoe: int)
    requires 0 <= yoe <= 399
    ensures YearStart(yoe) == 365 * yoe + yoe / 4 - yoe / 100
  {
  }

  lemma MarchLengths()
    ensures MarchStart(10) == 306 && MarchStart(11) == 337
  {
  }

  // ----- the other direction -----

  lemma {:induction false} YearsApart(y: int, w: int)
    requires y < w
    ensures DaysBeforeYear(y) + YearLength(y) <= DaysBeforeYear(w)
    decreases w - y
  {
    DaysBeforeNextYear(w - 1);
    if y < w - 1 {
      YearsApart(y, w - 1);
    }
  }

  lemma DaysBeforeNextYear(y: int)
    ensures DaysBeforeYear(y + 1) == DaysBeforeYear(y) + YearLength(y)
  {
  }

  lemma {:induction false} MonthsApart(y: int, m: int, n: int)
    requires 1 <= m < n <= 13
    ensures DaysBeforeMonth(y, m) + MonthLength(y, m) <= DaysBeforeMonth(y, n)
    decreases n
  {
    if m < n - 1 {
      MonthsApart(y, m, n - 1);
    }
  }

  lemma WholeYear(y: int)
    ensures DaysBeforeMonth(y, 13) == YearLength(y)
  {
    hide IsLeap;
    DaysBeforeMonthFromMarch(y, 9);
    assert MarchStart(9) == 275;
  }

  /** Different dates have different day numbers. */
  lemma DayNumberInjective(t: Date, u: Date)
    requires IsDate(t) && IsDate(u) && DayNumber(t) == DayNumber(u)
    ensures t == u
  {
    hide DaysBeforeYear;
    hide DaysBeforeMonth;
    hide MonthLength;
    hide YearLength;
    YearBounds(t);
    YearBounds(u);
    if t.year < u.year {
      YearsApart(t.year, u.year);
    } else if u.year < t.year {
      YearsApart(u.year, t.year);
    } else if t.month < u.month {
      MonthsApart(t.year, t.month, u.month);
    } else if u.month < t.month {
      MonthsApart(t.year, u.month, t.month);
    }
  }

  lemma YearBounds(t: Date)
    requires IsDate(t)
    ensures DaysBeforeYear(t.year) <= DayNumber(t) < DaysBeforeYear(t.year) + YearLength(t.year)
  {
    hide DaysBeforeYear;
    hide YearLength;
    WholeYear(t.year);
    MonthsApart(t.year, t.month, 13);
    if t.month > 1 {
      MonthsApart(t.year, 1, t.month);
    }
  }

  /** The conversion and the day count are inverse to each other, over all dates and all days. */
  lemma CivilInverts(t: Date)
    requires IsDate(t)
    ensures Civil(DayNumber(t)) == t
  {
    hide Civil;
    hide DayNumber;
    CivilIsDate(DayNumber(t));
    DayNumberInjective(Civil(DayNumber(t)), t);
  }

  lemma NextDayCounts(t: Date)
    requires IsDate(t)
    ensures IsDate(NextDay(t)) && DayNumber(NextDay(t)) == DayNumber(t) + 1
  {
    hide DaysBeforeYear;
    hide IsLeap;
    DaysBeforeNextYear(t.year);
    WholeYear(t.year);
    assert DaysBeforeMonth(t.year, t.month + 1) == DaysBeforeMonth(t.year, t.month) + MonthLength(t.year, t.month);
  }

  /** Consecutive days are consecutive dates. */
  lemma CivilSteps(days: int)
    ensures IsDate(Civil(days)) && Civil(days + 1) == NextDay(Civil(days))
  {
    hide Civil;
    hide DayNumber;
    hide IsDate;
    hide NextDay;
    CivilIsDate(days);
    NextDayCounts(Civil(days));
    CivilInverts(NextDay(Civil(days)));
  }

  /** Every 64-bit second count gives the date of its day and the hour and minute of the second. */
  lemma UtcIsCorrect(secs: i64)
    ensures var t := Utc(secs);
            && IsDate(t.date) && 0 <= t.hour < 24 && 0 <= t.minute < 60
            && DAY * DayNumber(t.date) + 3600 * t.hour + 60 * t.minute
               <= secs < DAY * DayNumber(t.date) + 3600 * t.hour + 60 * t.minute + 60
  {
    hide Civil;
    hide DayNumber;
    hide IsDate;
    CivilIsDate(secs / DAY);
    var rem := secs % DAY;
    assert secs == DAY * (secs / DAY) + rem;
    assert rem == 3600 * (rem / 3600) + rem % 3600;
  }
}
