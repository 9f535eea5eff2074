/**
 * Points in time as the controller sees them: `datetime.now()` readings on the
 * naive local clock, counted in whole seconds from 1970-01-01T00:00:00, and the
 * proleptic Gregorian calendar date each one falls on.
 */
module Calendar {

  const SecondsPerDay: int := 86400

  /** Day numbers (days since 1970-01-01) of the first and last day Python's datetime can hold. */
  const MinDay: int := -719162   // 0001-01-01
  const MaxDay: int := 2932896   // 9999-12-31

  const MinTimestamp: int := MinDay * SecondsPerDay
  const MaxTimestamp: int := MaxDay * SecondsPerDay + SecondsPerDay - 1

  /** A reading of the local clock, in the range of Python's datetime. */
  type Timestamp = t: int | MinTimestamp <= t <= MaxTimestamp witness 0

  datatype Date = Date(year: int, month: int, day: int)

  predicate IsLeapYear(y: int) {
    y % 4 == 0 && (y % 100 != 0 || y % 400 == 0)
  }

  function DaysInMonth(y: int, m: int): (n: int)
    requires 1 <= m <= 12
    ensures 28 <= n <= 31
  {
    if m == 2 then (if IsLeapYear(y) then 29 else 28)
    else if m == 4 || m == 6 || m == 9 || m == 11 then 30
    else 31
  }

  /** A calendar date Python's datetime can represent. */
  predicate ValidDate(d: Date) {
    1 <= d.year <= 9999 && 1 <= d.month <= 12 && 1 <= d.day <= DaysInMonth(d.year, d.month)
  }

  /** Number of the day holding `t`: floor division, so times before 1970 fall on earlier days. */
  function DayNumber(t: Timestamp): (n: int)
    ensures MinDay <= n <= MaxDay
    ensures n * SecondsPerDay <= t < n * SecondsPerDay + SecondsPerDay
  {
    t / SecondsPerDay
  }

  /** The year counted from 1 March: January and February belong to the year before. */
  function MarchYear(d: Date): int {
    if d.month <= 2 then d.year - 1 else d.year
  }

  /** Day of the March-based year, 0 for 1 March. */
  function MarchDayOfYear(d: Date): int {
    (153 * (if d.month > 2 then d.month - 3 else d.month + 9) + 2) / 5 + d.day - 1
  }

  /** Day of a 400-year era of day `doy` of its March-based year `yoe`. */
  function DayOfEra(yoe: int, doy: int): int {
    365 * yoe + yoe / 4 - yoe / 100 + doy
  }

  /** Days since 1970-01-01 of a calendar date (the year counted from March, in 400-year eras). */
  function DaysFromCivil(d: Date): int {
    var y := MarchYear(d);
    var era := y / 400;
    era * 146097 + DayOfEra(y - era * 400, MarchDayOfYear(d)) - 719468
  }

  /** A day of a 400-year era (eras start on 1 March of a year divisible by 400), split
      into the year of the era and the day of that March-based year. */
  datatype EraDay = EraDay(yoe: int, doy: int)

  function SplitEra(doe: int): (r: EraDay)
    requires 0 <= doe < 146097
    ensures 0 <= r.yoe <= 399 && 0 <= r.doy <= 365
    ensures doe == DayOfEra(r.yoe, r.doy)
    ensures r.doy == 365 ==> (r.yoe + 1) % 4 == 0 && ((r.yoe + 1) % 100 != 0 || r.yoe == 399)
  {
    var c := if doe / 36524 < 3 then doe / 36524 else 3;
    var r1 := doe - 36524 * c;
    assert 0 <= r1 <= 36524 && (c < 3 ==> r1 < 36524);
    var q := r1 / 1461;
    var r2 := r1 - 1461 * q;
    assert 0 <= q <= 24 && 0 <= r2 <= 1460;
    assert q == 24 && c < 3 ==> r2 <= 1459;
    var a := if r2 / 365 < 3 then r2 / 365 else 3;
    var yoe := 100 * c + 4 * q + a;
    assert yoe / 4 == 25 * c + q;
    assert yoe / 100 == c;
    EraDay(yoe, r2 - 365 * a)
  }

  /** Month (1 = January) and day of month of day `doy` of a year that starts on 1 March;
      a day 365 is the 29 February a leap year adds. */
  function MonthAndDay(doy: int): (r: (int, int))
    requires 0 <= doy <= 365
    ensures 1 <= r.0 <= 12 && 1 <= r.1
    ensures r.1 <= (if r.0 == 2 then (if doy == 365 then 29 else 28) else DaysInMonth(1, r.0))
    ensures forall year :: MarchDayOfYear(Date(year, r.0, r.1)) == doy
    ensures r.0 <= 2 <==> doy >= 306
  {
    var mp := (5 * doy + 2) / 153;
    assert 0 <= mp <= 11;
    var day := doy - (153 * mp + 2) / 5 + 1;
    (if mp < 10 then mp + 3 else mp - 9, day)
  }

  /** Quotient and remainder of a division by 4, 100 or 400, from a witness of them. */
  lemma DivModOfWitness(x: int, m: int, q: int, r: int)
    requires m == 4 || m == 100 || m == 400
    requires x == m * q + r && 0 <= r < m
    ensures x / m == q && x % m == r
  {
    if m == 4 {
      assert x == 4 * q + r;
    } else if m == 100 {
      assert x == 100 * q + r;
    } else {
      assert x == 400 * q + r;
    }
  }

  /** The year of an era whose 29 February falls in the March-based year `yoe` is a leap year. */
  lemma LeapYearOfEra(era: int, yoe: int)
    requires 0 <= yoe <= 399
    requires (yoe + 1) % 4 == 0 && ((yoe + 1) % 100 != 0 || yoe == 399)
    ensures IsLeapYear(era * 400 + yoe + 1)
  {
    var year := era * 400 + yoe + 1;
    DivModOfWitness(year, 4, 100 * era + (yoe + 1) / 4, 0);
    if yoe == 399 {
      DivModOfWitness(year, 400, era + 1, 0);
    } else {
      DivModOfWitness(year, 100, 4 * era + (yoe + 1) / 100, (yoe + 1) % 100);
    }
  }

  /** The date of day `doy` of the March-based year `yoe` of era `era`, within years 1 to 9999. */
  function DateOfEraDay(era: int, e: EraDay): (d: Date)
    requires 0 <= era <= 24 && 0 <= e.yoe <= 399 && 0 <= e.doy <= 365
    requires e.doy == 365 ==> (e.yoe + 1) % 4 == 0 && ((e.yoe + 1) % 100 != 0 || e.yoe == 399)
    requires era == 0 && e.yoe == 0 ==> e.doy >= 306
    requires era == 24 && e.yoe == 399 ==> e.doy <= 305
    ensures ValidDate(d)
    ensures DaysFromCivil(d) == era * 146097 + DayOfEra(e.yoe, e.doy) - 719468
  {
    var md := MonthAndDay(e.doy);
    var y := era * 400 + e.yoe;
    var d := Date(y + (if md.0 <= 2 then 1 else 0), md.0, md.1);
    EraDateIsValid(era, e, d);
    DivModOfWitness(y, 400, era, e.yoe);
    assert MarchYear(d) == y && MarchDayOfYear(d) == e.doy;
    d
  }

  lemma EraDateIsValid(era: int, e: EraDay, d: Date)
    requires 0 <= era <= 24 && 0 <= e.yoe <= 399 && 0 <= e.doy <= 365
    requires e.doy == 365 ==> (e.yoe + 1) % 4 == 0 && ((e.yoe + 1) % 100 != 0 || e.yoe == 399)
    requires era == 0 && e.yoe == 0 ==> e.doy >= 306
    requires era == 24 && e.yoe == 399 ==> e.doy <= 305
    requires (d.month, d.day) == MonthAndDay(e.doy)
    requires d.year == era * 400 + e.yoe + (if d.month <= 2 then 1 else 0)
    ensures ValidDate(d)
  {
    if d.month == 2 && d.day == 29 {
      LeapYearOfEra(era, e.yoe);
    } else if d.month != 2 {
      assert DaysInMonth(d.year, d.month) == DaysInMonth(1, d.month);
    }
  }

  /** The calendar date of day number `n`; `DaysFromCivil` undoes it. */
  function CivilFromDays(n: int): (d: Date)
    requires MinDay <= n <= MaxDay
    ensures ValidDate(d)
    ensures DaysFromCivil(d) == n
  {
    var z := n + 719468;
    var era := z / 146097;
    assert 0 <= era <= 24;
    var e := SplitEra(z - era * 146097);
    DateOfEraDay(era, e)
  }

  /** The calendar date `t` falls on: what `strftime` reads the day, month and year from. */
  function DateOf(t: Timestamp): (d: Date)
    ensures ValidDate(d)
    ensures DaysFromCivil(d) == DayNumber(t)
  {
    CivilFromDays(DayNumber(t))
  }

  /** Calendar dates are told apart by their day numbers: `CivilFromDays` is one-to-one. */
  lemma {:induction false} SameDayNumberSameDate(t: Timestamp, u: Timestamp)
    ensures DateOf(t) == DateOf(u) <==> DayNumber(t) == DayNumber(u)
  {
    if DateOf(t) == DateOf(u) {
      assert DaysFromCivil(DateOf(t)) == DaysFromCivil(DateOf(u));
    }
  }

  /** Day 19723 is 1 January 2024: day 306 of the March-based year 23 of the era starting in 2000. */
  lemma NewYear2024()
    ensures CivilFromDays(19723) == Date(2024, 1, 1)
  {
    assert (19723 + 719468) / 146097 == 5;
    NewYear2024InEra();
    NewYear2024OfEra();
  }

  lemma NewYear2024InEra()
    ensures SplitEra(8706) == EraDay(23, 306)
  {
    assert 8706 / 36524 == 0 && 8706 / 1461 == 5 && (8706 - 1461 * 5) / 365 == 3;
  }

  lemma NewYear2024OfEra()
    ensures DateOfEraDay(5, EraDay(23, 306)) == Date(2024, 1, 1)
  {
    assert MonthAndDay(306) == (1, 1);
  }
}
