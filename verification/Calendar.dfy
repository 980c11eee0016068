/** Calendar arithmetic of `utils/time.cpp`: days since 1970-01-01 to and from a
    proleptic Gregorian date, counted in 400-year eras that start on 1 March.

    The reference is the calendar itself: leap years by the 4/100/400 rule, month
    lengths, and the date that follows a given date. `NextDayIsOneMore` together with
    `EpochIsDayZero` leaves only one function `DaysFromCivil` can be. */
module Calendar {

  datatype Date = Date(year: int, month: int, day: int)

  // ----- The Gregorian calendar, stated without any era arithmetic -----

  predicate IsLeap(y: int) {
    y % 4 == 0 && (y % 100 != 0 || y % 400 == 0)
  }

  function DaysInMonth(y: int, m: int): (n: int)
    requires 1 <= m <= 12
  {
    if m == 2 then (if IsLeap(y) then 29 else 28)
    else if m == 4 || m == 6 || m == 9 || m == 11 then 30
    else 31
  }

  predicate ValidDate(c: Date) {
    1 <= c.month <= 12 && 1 <= c.day <= DaysInMonth(c.year, c.month)
  }

  function NextDate(c: Date): (n: Date)
    requires ValidDate(c)
    ensures ValidDate(n)
  {
    if c.day < DaysInMonth(c.year, c.month) then c.(day := c.day + 1)
    else if c.month < 12 then Date(c.year, c.month + 1, 1)
    else Date(c.year + 1, 1, 1)
  }

  predicate Before(a: Date, b: Date) {
    || a.year < b.year
    || (a.year == b.year && a.month < b.month)
    || (a.year == b.year && a.month == b.month && a.day < b.day)
  }

  // ----- C++ integer division -----

  /** Division as C++ does it: the quotient is rounded toward zero. */
  function TruncDiv(a: int, b: int): (q: int)
    requires b != 0
  {
    if a >= 0 then a / b else -((-a) / b)
  }

  function TruncMod(a: int, b: int): (r: int)
    requires b != 0
  {
    a - TruncDiv(a, b) * b
  }

  function FloorDiv(a: int, b: int): (q: int)
    requires b != 0
  {
    var q := TruncDiv(a, b);
    var r := TruncMod(a, b);
    if r != 0 && ((r < 0) != (b < 0)) then q - 1 else q
  }

  /** `floor_div` rounds down for operands of any sign, so pre-epoch instants split into a day and a
      second of it. */
  lemma FloorDivRoundsDown(a: int, b: int)
    requires b != 0
    ensures b > 0 ==> FloorDiv(a, b) * b <= a < (FloorDiv(a, b) + 1) * b
    ensures b < 0 ==> FloorDiv(a, b) * b >= a > (FloorDiv(a, b) + 1) * b
  {
    TruncDivSplits(a, b);
    hide TruncDiv, TruncMod;
    var q := TruncDiv(a, b);
    assert (q - 1) * b == q * b - b && (q + 1) * b == q * b + b;
  }

  /** What C++ promises: quotient and remainder make up the dividend, and the remainder is smaller than
      the divisor and takes the dividend's sign. */
  lemma TruncDivSplits(a: int, b: int)
    requires b != 0
    ensures var q, r := TruncDiv(a, b), TruncMod(a, b);
            && a == q * b + r && (if b > 0 then -b < r < b else b < r < -b)
            && (a >= 0 ==> r >= 0) && (a <= 0 ==> r <= 0)
  {
    var n := if a < 0 then -a else a;
    var k := n / b;
    assert n == k * b + n % b;
    assert (-k) * b == -(k * b);
  }

  // ----- The code -----

  const ERA_DAYS := 146097
  const EPOCH_SHIFT := 719468

  function EraOfYear(y: int): (e: int) { TruncDiv(if y >= 0 then y else y - 399, 400) }

  function EraOfDay(z: int): (e: int) { TruncDiv(if z >= 0 then z else z - 146096, 146097) }

  /** First day, counted from the start of the era, of the year that begins on 1 March. */
  function YearStart(yoe: int): (doe: int) { yoe * 365 + yoe / 4 - yoe / 100 }

  /** First day, counted from 1 March, of month `mp` (0 is March, 11 is February). */
  function MonthStart(mp: int): (doy: int) { (153 * mp + 2) / 5 }

  function DaysFromCivil(year: int, m: int, d: int): (z: int) {
    var y := year - (if m <= 2 then 1 else 0);
    var era := EraOfYear(y);
    var yoe := y - era * 400;
    var doy := MonthStart(if m > 2 then m - 3 else m + 9) + d - 1;
    var doe := YearStart(yoe) + doy;
    era * ERA_DAYS + doe - EPOCH_SHIFT
  }

  function YearOfEra(doe: int): (yoe: int) {
    (doe - doe / 1460 + doe / 36524 - doe / 146096) / 365
  }

  function CivilFromDays(days: int): (c: Date) {
    var z := days + EPOCH_SHIFT;
    var era := EraOfDay(z);
    var doe := z - era * ERA_DAYS;
    var yoe := YearOfEra(doe);
    var y := yoe + era * 400;
    var doy := doe - YearStart(yoe);
    var mp := (5 * doy + 2) / 153;
    var d := doy - MonthStart(mp) + 1;
    var m := if mp < 10 then mp + 3 else mp - 9;
    Date(y + (if m <= 2 then 1 else 0), m, d)
  }

  // ----- Proofs -----

  lemma EraOfYearSplits(y: int)
    ensures EraOfYear(y) == y / 400
    ensures 0 <= y - EraOfYear(y) * 400 <= 399
  {}

  lemma EraOfDaySplits(z: int)
    ensures EraOfDay(z) == z / 146097
    ensures 0 <= z - EraOfDay(z) * 146097 <= 146096
  {}

  /** Length of the March-based year `yoe`, which ends with the February of the year after. */
  function YearLength(yoe: int): (n: int) {
    if (yoe + 1) % 4 == 0 && ((yoe + 1) % 100 != 0 || (yoe + 1) % 400 == 0) then 366 else 365
  }

  /** A day of the era written as centuries, 4-year cycles, years and days. */
  predicate Split(doe: int, c: int, q: int, t: int, doy: int) {
    && 0 <= c <= 3 && 0 <= q <= 24 && 0 <= t <= 3 && 0 <= doy <= 365
    && doe == 36524 * c + 1461 * q + 365 * t + doy
    && (doy == 365 ==> t == 3 && (q < 24 || c == 3))
  }

  lemma SplitDay(doe: int) returns (c: int, q: int, t: int, doy: int)
    requires 0 <= doe <= 146096
    ensures Split(doe, c, q, t, doy)
  {
    c := if doe / 36524 == 4 then 3 else doe / 36524;
    var r := doe - 36524 * c;
    q := r / 1461;
    var s := r - 1461 * q;
    t := if s / 365 == 4 then 3 else s / 365;
    doy := s - 365 * t;
  }

  lemma SplitYear(doe: int, c: int, q: int, t: int, doy: int)
    requires Split(doe, c, q, t, doy)
    ensures YearStart(100 * c + 4 * q + t) == doe - doy
    ensures doy < YearLength(100 * c + 4 * q + t)
  {
    var yoe := 100 * c + 4 * q + t;
    assert yoe / 4 == 25 * c + q;
    assert yoe / 100 == c;
    if doy == 365 {
      assert yoe + 1 == 4 * (25 * c + q + 1);
    }
  }

  /** The three corrections in the code's year formula are exactly the leap days passed. */
  lemma SplitFormula(doe: int, c: int, q: int, t: int, doy: int)
    requires Split(doe, c, q, t, doy)
    ensures YearOfEra(doe) == 100 * c + 4 * q + t
  {
    var yoe := 100 * c + 4 * q + t;
    var rest := 24 * c + q + 365 * t + doy;
    var e := if rest >= 1460 then 1 else 0;
    assert doe == 1460 * (25 * c + q) + rest;
    assert doe / 1460 == 25 * c + q + e;
    assert doe / 36524 - doe / 146096 == c;
    assert doe - doe / 1460 + c == 365 * yoe + doy - e;
    assert 0 <= doy - e <= 364;
  }

  /** `yoe` in [0, 399], `doy` in [0, 365], and no unsigned subtraction goes below zero. */
  lemma YearOfEraIsRight(doe: int)
    requires 0 <= doe <= 146096
    ensures 0 <= YearOfEra(doe) <= 399
    ensures 0 <= doe - YearStart(YearOfEra(doe)) < YearLength(YearOfEra(doe))
    ensures doe / 1460 <= doe && doe / 146096 <= doe - doe / 1460 + doe / 36524
  {
    var c, q, t, doy := SplitDay(doe);
    SplitYear(doe, c, q, t, doy);
    SplitFormula(doe, c, q, t, doy);
  }

  /** A year and a day of it determine the day of the era, and back. */
  lemma YearOfEraInverse(yoe: int, doy: int)
    requires 0 <= yoe <= 399 && 0 <= doy < YearLength(yoe)
    ensures 0 <= YearStart(yoe) + doy <= 146096
    ensures YearOfEra(YearStart(yoe) + doy) == yoe
  {
    var doe := YearStart(yoe) + doy;
    var c, q := yoe / 100, (yoe % 100) / 4;
    var t := yoe - 100 * c - 4 * q;
    assert yoe / 4 == 25 * c + q;
    SplitFormula(doe, c, q, t, doy);
  }

  /** Month `mp` has at most this many days; February takes what the year has left. */
  function MonthLength(mp: int): (n: int) { MonthStart(mp + 1) - MonthStart(mp) }

  lemma MonthOfDayIsRight(doy: int)
    requires 0 <= doy <= 365
    ensures var mp := (5 * doy + 2) / 153; 0 <= mp <= 11 && MonthStart(mp) <= doy < MonthStart(mp + 1)
  {}

  lemma MonthOfDayInverse(mp: int, d: int)
    requires 0 <= mp <= 11 && 1 <= d <= MonthLength(mp)
    ensures (5 * (MonthStart(mp) + d - 1) + 2) / 153 == mp
  {}

  /** Month number to months since March, and back. */
  function MarchMonth(m: int): (mp: int) { if m > 2 then m - 3 else m + 9 }

  /** Year of the March that starts the March-based year holding the date. */
  function MarchYear(c: Date): (y: int) { c.year - (if c.month <= 2 then 1 else 0) }

  /** Every commented range of `civil_from_days` holds for every integer. */
  lemma CivilFromDaysRanges(days: int)
    ensures var z := days + EPOCH_SHIFT;
            var doe := z - EraOfDay(z) * ERA_DAYS;
            var yoe := YearOfEra(doe);
            var doy := doe - YearStart(yoe);
            var mp := (5 * doy + 2) / 153;
            && 0 <= doe <= 146096 && 0 <= yoe <= 399 && 0 <= doy <= 365
            && 0 <= mp <= 11 && 0 <= doy - MonthStart(mp) <= 30
            && doe / 1460 <= doe && doe / 146096 <= doe - doe / 1460 + doe / 36524
  {
    var z := days + EPOCH_SHIFT;
    EraOfDaySplits(z);
    var doe := z - EraOfDay(z) * ERA_DAYS;
    YearOfEraIsRight(doe);
    MonthOfDayIsRight(doe - YearStart(YearOfEra(doe)));
  }

  /** What the two conversions share: era, year of the era, month from March, day of the month. */
  function DayNumber(era: int, yoe: int, mp: int, d: int): (z: int) {
    era * ERA_DAYS + YearStart(yoe) + MonthStart(mp) + d - 1 - EPOCH_SHIFT
  }

  lemma DaysFromCivilParts(c: Date, era: int, yoe: int)
    requires 1 <= c.month <= 12 && MarchYear(c) == era * 400 + yoe && 0 <= yoe <= 399
    ensures DaysFromCivil(c.year, c.month, c.day) == DayNumber(era, yoe, MarchMonth(c.month), c.day)
  {
    EraOfYearSplits(MarchYear(c));
    assert EraOfYear(MarchYear(c)) == era;
  }

  lemma CivilFromDaysParts(era: int, yoe: int, mp: int, d: int)
    requires 0 <= yoe <= 399 && 0 <= mp <= 11 && 1 <= d <= MonthLength(mp)
    requires MonthStart(mp) + d - 1 < YearLength(yoe)
    ensures var c := CivilFromDays(DayNumber(era, yoe, mp, d));
            MarchYear(c) == era * 400 + yoe && MarchMonth(c.month) == mp && c.day == d && 1 <= c.month <= 12
  {
    var doy := MonthStart(mp) + d - 1;
    YearOfEraInverse(yoe, doy);
    EraOfDayFromParts(era, YearStart(yoe) + doy);
    MonthOfDayInverse(mp, d);
  }

  lemma EraOfDayFromParts(era: int, doe: int)
    requires 0 <= doe <= 146096
    ensures EraOfDay(era * ERA_DAYS + doe) == era
  {
    EraOfDaySplits(era * ERA_DAYS + doe);
  }

  lemma EveryDayHasParts(days: int) returns (era: int, yoe: int, mp: int, d: int)
    ensures 0 <= yoe <= 399 && 0 <= mp <= 11 && 1 <= d <= MonthLength(mp)
    ensures MonthStart(mp) + d - 1 < YearLength(yoe)
    ensures days == DayNumber(era, yoe, mp, d)
  {
    var z := days + EPOCH_SHIFT;
    EraOfDaySplits(z);
    era := EraOfDay(z);
    var doe := z - era * ERA_DAYS;
    YearOfEraIsRight(doe);
    yoe := YearOfEra(doe);
    var doy := doe - YearStart(yoe);
    MonthOfDayIsRight(doy);
    mp := (5 * doy + 2) / 153;
    d := doy - MonthStart(mp) + 1;
  }

  /** The March-based parts of a date describe a real date exactly when the date is real. */
  lemma PartsAreValid(c: Date, era: int, yoe: int)
    requires 1 <= c.month <= 12 && MarchYear(c) == era * 400 + yoe && 0 <= yoe <= 399
    ensures var mp := MarchMonth(c.month);
            ValidDate(c) <==> 1 <= c.day <= MonthLength(mp) && MonthStart(mp) + c.day - 1 < YearLength(yoe)
  {
    var mp := MarchMonth(c.month);
    if c.month != 2 {
      assert MonthStart(mp + 1) <= 337;
      assert DaysInMonth(c.year, c.month) == MonthLength(mp);
    } else {
      assert MonthLength(mp) == 30 && MonthStart(mp) == 337;
      LeapFebruary(c.year, era, yoe);
    }
  }

  lemma SameRemainder(a: int, b: int, k: int, n: int)
    requires n == 4 || n == 100 || n == 400
    requires a == b + k * n
    ensures a % n == b % n
  {}

  lemma LeapFebruary(y: int, era: int, yoe: int)
    requires y - 1 == era * 400 + yoe && 0 <= yoe <= 399
    ensures DaysInMonth(y, 2) == YearLength(yoe) - 337
  {
    SameRemainder(y, yoe + 1, 100 * era, 4);
    SameRemainder(y, yoe + 1, 4 * era, 100);
    SameRemainder(y, yoe + 1, era, 400);
  }

  /** Every commented range of `days_from_civil` holds for a real date, so no unsigned value wraps. */
  lemma DaysFromCivilRanges(c: Date)
    requires ValidDate(c)
    ensures var y := MarchYear(c);
            var yoe := y - EraOfYear(y) * 400;
            var doy := MonthStart(MarchMonth(c.month)) + c.day - 1;
            && 0 <= yoe <= 399
            && 0 <= doy < YearLength(yoe)
            && 0 <= YearStart(yoe) + doy <= 146096
  {
    var y := MarchYear(c);
    EraOfYearSplits(y);
    var yoe := y - EraOfYear(y) * 400;
    PartsAreValid(c, EraOfYear(y), yoe);
    YearOfEraInverse(yoe, MonthStart(MarchMonth(c.month)) + c.day - 1);
  }

  /** `civil_from_days` always yields a date of the calendar, and `days_from_civil` undoes it. */
  lemma CivilFromDaysIsInverse(days: int)
    ensures ValidDate(CivilFromDays(days))
    ensures var c := CivilFromDays(days); DaysFromCivil(c.year, c.month, c.day) == days
  {
    var era, yoe, mp, d := EveryDayHasParts(days);
    CivilFromDaysParts(era, yoe, mp, d);
    var c := CivilFromDays(days);
    DaysFromCivilParts(c, era, yoe);
    PartsAreValid(c, era, yoe);
  }

  lemma DateHasParts(c: Date) returns (era: int, yoe: int)
    requires ValidDate(c)
    ensures MarchYear(c) == era * 400 + yoe && 0 <= yoe <= 399
    ensures DaysFromCivil(c.year, c.month, c.day) == DayNumber(era, yoe, MarchMonth(c.month), c.day)
    ensures 1 <= c.day <= MonthLength(MarchMonth(c.month))
    ensures MonthStart(MarchMonth(c.month)) + c.day - 1 < YearLength(yoe)
  {
    era := EraOfYear(MarchYear(c));
    EraOfYearSplits(MarchYear(c));
    yoe := MarchYear(c) - era * 400;
    DaysFromCivilParts(c, era, yoe);
    PartsAreValid(c, era, yoe);
  }

  /** `civil_from_days` undoes `days_from_civil` on every date of the calendar. */
  lemma DaysFromCivilIsInverse(c: Date)
    requires ValidDate(c)
    ensures CivilFromDays(DaysFromCivil(c.year, c.month, c.day)) == c
  {
    var era, yoe := DateHasParts(c);
    CivilFromDaysParts(era, yoe, MarchMonth(c.month), c.day);
  }

  lemma EpochIsDayZero()
    ensures DaysFromCivil(1970, 1, 1) == 0 && CivilFromDays(0) == Date(1970, 1, 1)
  {
    DaysFromCivilParts(Date(1970, 1, 1), 4, 369);
    DaysFromCivilIsInverse(Date(1970, 1, 1));
  }

  lemma YearStep(yoe: int)
    requires 0 <= yoe <= 399
    ensures YearStart(yoe) + YearLength(yoe) == if yoe < 399 then YearStart(yoe + 1) else ERA_DAYS
  {
    var c, q := yoe / 100, (yoe % 100) / 4;
    var t := yoe - 100 * c - 4 * q;
    assert yoe / 4 == 25 * c + q;
    if t == 3 {
      assert yoe + 1 == 100 * c + 4 * (q + 1);
      assert (yoe + 1) / 4 == 25 * c + q + 1;
    } else {
      assert (yoe + 1) / 4 == 25 * c + q;
      assert (yoe + 1) / 100 == c;
    }
  }

  /** Consecutive dates of the calendar are one day apart, across month, year, century and era ends. */
  lemma NextDayIsOneMore(c: Date)
    requires ValidDate(c)
    ensures var n := NextDate(c); DaysFromCivil(n.year, n.month, n.day) == DaysFromCivil(c.year, c.month, c.day) + 1
  {
    var n := NextDate(c);
    var era, yoe := DateHasParts(c);
    if c.day < DaysInMonth(c.year, c.month) || c.month != 2 {
      DaysFromCivilParts(n, era, yoe);
      MonthTurns(c, era, yoe);
    } else {
      LeapFebruary(c.year, era, yoe);
      YearStep(yoe);
      if yoe < 399 {
        DaysFromCivilParts(n, era, yoe + 1);
        FebruaryTurns(era, yoe, era, yoe + 1, c.day);
      } else {
        DaysFromCivilParts(n, era + 1, 0);
        FebruaryTurns(era, yoe, era + 1, 0, c.day);
      }
    }
  }

  lemma MonthTurns(c: Date, era: int, yoe: int)
    requires ValidDate(c) && (c.day < DaysInMonth(c.year, c.month) || c.month != 2)
    ensures var n, mp := NextDate(c), MarchMonth(c.month);
            DayNumber(era, yoe, MarchMonth(n.month), n.day) == DayNumber(era, yoe, mp, c.day) + 1
  {
    if c.day == DaysInMonth(c.year, c.month) {
      assert DaysInMonth(c.year, c.month) == MonthLength(MarchMonth(c.month));
    }
  }

  lemma FebruaryTurns(era: int, yoe: int, era': int, yoe': int, d: int)
    requires era' * ERA_DAYS + YearStart(yoe') == era * ERA_DAYS + YearStart(yoe) + YearLength(yoe)
    requires d == YearLength(yoe) - 337
    ensures DayNumber(era', yoe', 0, 1) == DayNumber(era, yoe, 11, d) + 1
  {}

  lemma YearStartsGrow(yoe: int, yoe': int)
    requires 0 <= yoe < yoe' <= 399
    ensures YearStart(yoe) + YearLength(yoe) <= YearStart(yoe')
    decreases yoe' - yoe
  {
    YearStep(yoe);
    if yoe + 1 < yoe' {
      YearStartsGrow(yoe + 1, yoe');
    }
  }

  lemma LaterYearIsLater(era: int, yoe: int, doy: int, era': int, yoe': int, doy': int)
    requires 0 <= yoe <= 399 && 0 <= yoe' <= 399 && 0 <= doy < YearLength(yoe) && 0 <= doy'
    requires era * 400 + yoe < era' * 400 + yoe'
    ensures era * ERA_DAYS + YearStart(yoe) + doy < era' * ERA_DAYS + YearStart(yoe') + doy'
  {
    if era == era' {
      YearStartsGrow(yoe, yoe');
    } else {
      assert era < era';
      YearOfEraInverse(yoe, doy);
      assert era * ERA_DAYS + ERA_DAYS <= era' * ERA_DAYS;
      assert YearStart(yoe') >= 0;
    }
  }

  lemma MonthStartsGrow(mp: int, mp': int)
    requires 0 <= mp < mp' <= 11
    ensures MonthStart(mp) + MonthLength(mp) <= MonthStart(mp')
  {}

  lemma PartsGrow(era: int, yoe: int, mp: int, d: int, era': int, yoe': int, mp': int, d': int)
    requires 0 <= yoe <= 399 && 0 <= yoe' <= 399 && 0 <= mp <= 11 && 0 <= mp' <= 11
    requires 1 <= d <= MonthLength(mp) && MonthStart(mp) + d - 1 < YearLength(yoe) && 1 <= d'
    requires || era * 400 + yoe < era' * 400 + yoe'
             || (era * 400 + yoe == era' * 400 + yoe' && (mp < mp' || (mp == mp' && d < d')))
    ensures DayNumber(era, yoe, mp, d) < DayNumber(era', yoe', mp', d')
  {
    if era * 400 + yoe < era' * 400 + yoe' {
      LaterYearIsLater(era, yoe, MonthStart(mp) + d - 1, era', yoe', MonthStart(mp') + d' - 1);
    } else {
      assert era == era' && yoe == yoe';
      if mp < mp' {
        MonthStartsGrow(mp, mp');
      }
    }
  }

  lemma EarlierDateIsEarlierDay(a: Date, b: Date)
    requires ValidDate(a) && ValidDate(b) && Before(a, b)
    ensures DaysFromCivil(a.year, a.month, a.day) < DaysFromCivil(b.year, b.month, b.day)
  {
    var ea, ya := DateHasParts(a);
    var eb, yb := DateHasParts(b);
    assert MarchYear(a) < MarchYear(b) || (MarchYear(a) == MarchYear(b) && MarchMonth(a.month) <= MarchMonth(b.month));
    PartsGrow(ea, ya, MarchMonth(a.month), a.day, eb, yb, MarchMonth(b.month), b.day);
  }

  /** `days_from_civil` is strictly increasing in (year, month, day) order. */
  lemma DaysFromCivilIsMonotone(a: Date, b: Date)
    requires ValidDate(a) && ValidDate(b)
    ensures Before(a, b) <==> DaysFromCivil(a.year, a.month, a.day) < DaysFromCivil(b.year, b.month, b.day)
  {
    if Before(a, b) {
      EarlierDateIsEarlierDay(a, b);
    } else if Before(b, a) {
      EarlierDateIsEarlierDay(b, a);
    }
  }
}
