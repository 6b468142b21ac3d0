/**
 Day arithmetic and the two-digit-year DateTime of the legacy message crate.

 Text is a sequence of UTF-8 code units. `Leap`, `MonthLength` and `NextDay` are
 the calendar itself; the functions proved about are the closed formulas.
 */
module Calendar {
  import opened Integers

  const MIN_I32: int := -0x8000_0000

  // The calendar.

  datatype Date = Date(year: int, month: int, day: int)

  predicate Leap(year: int) {
    year % 4 == 0 && (year % 100 != 0 || year % 400 == 0)
  }

  function MonthLength(year: int, month: int): int {
    if month == 2 then (if Leap(year) then 29 else 28)
    else if month == 4 || month == 6 || month == 9 || month == 11 then 30
    else 31
  }

  predicate Exists(d: Date) {
    1 <= d.month <= 12 && 1 <= d.day <= MonthLength(d.year, d.month)
  }

  function NextDay(d: Date): (r: Date)
    requires Exists(d)
    ensures Exists(r)
  {
    if d.day < MonthLength(d.year, d.month) then d.(day := d.day + 1)
    else if d.month < 12 then Date(d.year, d.month + 1, 1)
    else Date(d.year + 1, 1, 1)
  }

  // The formulas.

  /** Rust's integer division, for a positive divisor. */
  function Truncate(a: int, b: int): int
    requires b > 0
  {
    if a >= 0 then a / b else -((-a) / b)
  }

  function DaysFromCivil(year: int, month: int, day: int): int {
    var y := year - (if month <= 2 then 1 else 0);
    var era := Truncate(if y >= 0 then y else y - 399, 400);
    var yearOfEra := y - era * 400;
    var dayOfYear := Truncate(153 * (month + (if month > 2 then -3 else 9)) + 2, 5) + day - 1;
    var dayOfEra := yearOfEra * 365 + Truncate(yearOfEra, 4) - Truncate(yearOfEra, 100) + dayOfYear;
    era * 146097 + dayOfEra - 719468
  }

  function CivilFromDays(days: int): Date {
    var shifted := days + 719468;
    var era := Truncate(if shifted >= 0 then shifted else shifted - 146096, 146097);
    CivilFromEra(era, shifted - era * 146097)
  }

  function CivilFromEra(era: int, dayOfEra: int): Date {
    var yearOfEra := YearIndex(dayOfEra);
    var dayOfYear := dayOfEra - (365 * yearOfEra + Truncate(yearOfEra, 4) - Truncate(yearOfEra, 100));
    CivilFromYear(yearOfEra + era * 400, dayOfYear)
  }

  function YearIndex(dayOfEra: int): int {
    Truncate(dayOfEra - Truncate(dayOfEra, 1460) + Truncate(dayOfEra, 36524) - Truncate(dayOfEra, 146096), 365)
  }

  function CivilFromYear(year: int, dayOfYear: int): Date {
    var monthPrime := Truncate(5 * dayOfYear + 2, 153);
    var day := dayOfYear - Truncate(153 * monthPrime + 2, 5) + 1;
    var month := monthPrime + (if monthPrime < 10 then 3 else -9);
    Date(Clamp(year + (if month <= 2 then 1 else 0)), month, day)
  }

  /** A year outside 32 bits, on either side, is replaced by the largest one. */
  function Clamp(year: int): int {
    if MIN_I32 <= year <= MAX_I32 then year else MAX_I32
  }

  // Years are counted from March, so a leap day is the last of its year.

  /** Days before the March-based year `y`. */
  function YearStart(y: int): int {
    365 * y + y / 4 - y / 100 + y / 400
  }

  function YearLength(y: int): int {
    if Leap(y + 1) then 366 else 365
  }

  lemma YearStep(y: int)
    ensures YearStart(y + 1) == YearStart(y) + YearLength(y)
  {
    QuotientStep(y, 4);
    QuotientStep(y, 100);
    QuotientStep(y, 400);
    Divides(y + 1);
  }

  lemma Divides(n: int)
    ensures n % 400 == 0 ==> n % 100 == 0
    ensures n % 100 == 0 ==> n % 4 == 0
  {
    if n % 400 == 0 { Remainder(100, 4 * (n / 400), 0); }
    if n % 100 == 0 { Remainder(4, 25 * (n / 100), 0); }
  }

  lemma QuotientStep(y: int, n: int)
    requires n == 4 || n == 100 || n == 400
    ensures (y + 1) / n == y / n + (if (y + 1) % n == 0 then 1 else 0)
  {
  }

  lemma {:induction false} YearsIncrease(a: int, b: int)
    requires a < b
    ensures YearStart(a) + YearLength(a) <= YearStart(b)
    decreases b - a
  {
    YearStep(a);
    if a + 1 < b { YearsIncrease(a + 1, b); }
  }

  /** Days of a March-based year before its month. */
  function MonthStart(month: int): int
    requires 1 <= month <= 12
  {
    (153 * (month + (if month > 2 then -3 else 9)) + 2) / 5
  }

  function MarchYear(d: Date): int {
    if d.month <= 2 then d.year - 1 else d.year
  }

  /** The number of a day. */
  function Number(d: Date): int
    requires 1 <= d.month <= 12
  {
    YearStart(MarchYear(d)) + MonthStart(d.month) + d.day - 1 - 719468
  }

  /** What the first formula computes. */
  lemma DaysMean(d: Date)
    requires 1 <= d.month <= 12
    ensures DaysFromCivil(d.year, d.month, d.day) == Number(d)
  {
    EraParts(MarchYear(d));
  }

  lemma EraParts(y: int)
    ensures var era := Truncate(if y >= 0 then y else y - 399, 400);
      && era == y / 400 && 0 <= y - era * 400 < 400
      && era * 146097 + (y - era * 400) * 365 + (y - era * 400) / 4 - (y - era * 400) / 100 == YearStart(y)
  {
    var q, r := y / 400, y % 400;
    if y < 0 { assert -(y - 399) == 400 * -q + (399 - r); assert (399 - r) / 400 == 0; }
    assert (400 * q + r) / 4 == 100 * q + r / 4;
    assert (400 * q + r) / 100 == 4 * q + r / 100;
  }

  /** An existing day lies inside its March-based year. */
  lemma InsideYear(d: Date)
    requires Exists(d)
    ensures 0 <= MonthStart(d.month) + d.day - 1 < YearLength(MarchYear(d))
  {
  }

  /** The formula counts days: consecutive days have consecutive numbers, and the epoch is zero. */
  lemma NextDayIsOneMore(d: Date)
    requires Exists(d)
    ensures var n := NextDay(d); DaysFromCivil(n.year, n.month, n.day) == DaysFromCivil(d.year, d.month, d.day) + 1
    ensures DaysFromCivil(1970, 1, 1) == 0
  {
    hide Number;
    var n := NextDay(d);
    assert Number(n) == Number(d) + 1 by { NextNumber(d); }
    assert DaysFromCivil(d.year, d.month, d.day) == Number(d) by { DaysMean(d); }
    assert DaysFromCivil(n.year, n.month, n.day) == Number(n) by { DaysMean(n); }
  }

  lemma NextNumber(d: Date)
    requires Exists(d)
    ensures Number(NextDay(d)) == Number(d) + 1
  {
    if d.day < MonthLength(d.year, d.month) {
      assert MarchYear(NextDay(d)) == MarchYear(d);
    } else if d.month == 2 {
      YearStep(d.year - 1);
    } else {
      MonthStep(d.month);
      assert MarchYear(NextDay(d)) == MarchYear(d);
    }
  }

  lemma MonthStep(m: int)
    requires 1 <= m <= 12 && m != 2
    ensures MonthStart(if m == 12 then 1 else m + 1) == MonthStart(m) + MonthLength(1, m)
  {
  }

  // The second formula inverts it. A day of an era is split by century, four-year cycle and year.

  lemma YearOfEra(c: int, q: int, y: int, day: int)
    requires 0 <= c < 4 && 0 <= q < 25 && 0 <= y < 4
    requires 0 <= day < 365 || (day == 365 && y == 3 && (q < 24 || c == 3))
    ensures var doe := 36524 * c + 1461 * q + 365 * y + day;
      && 0 <= doe <= 146096
      && YearIndex(doe) == 100 * c + 4 * q + y
  {
    var doe := 36524 * c + 1461 * q + 365 * y + day;
    var over := 24 * c + q + 365 * y + day;
    assert doe == 1460 * (25 * c + q) + over;
    var extra := if over >= 1460 then 1 else 0;
    assert doe / 1460 == 25 * c + q + extra;
    if doe == 146096 {
    } else {
      assert doe / 36524 == c && doe / 146096 == 0;
    }
  }

  /** The parts of a day of an era. */
  function Century(doe: int): int { if doe == 146096 then 3 else doe / 36524 }
  function Cycle(doe: int): int { (doe - 36524 * Century(doe)) / 1461 }
  function CycleDay(doe: int): int { doe - 36524 * Century(doe) - 1461 * Cycle(doe) }
  function CycleYear(doe: int): int { if CycleDay(doe) == 1460 then 3 else CycleDay(doe) / 365 }

  lemma Parts(doe: int)
    requires 0 <= doe <= 146096
    ensures var c, q, y := Century(doe), Cycle(doe), CycleYear(doe); var day := CycleDay(doe) - 365 * y;
      && 0 <= c < 4 && 0 <= q < 25 && 0 <= y < 4
      && (0 <= day < 365 || (day == 365 && y == 3 && (q < 24 || c == 3)))
      && doe == 36524 * c + 1461 * q + 365 * y + day
  {
  }

  /** A day of an era is day `day` of that era's March-based year `y`, and the formula finds that year. */
  ghost predicate InEra(doe: int, y: int, day: int) {
    && 0 <= doe <= 146096 && 0 <= y < 400 && 0 <= day < 366
    && YearIndex(doe) == y
    && doe == 365 * y + y / 4 - y / 100 + day
  }

  lemma SplitEra(era: int, doe: int) returns (y: int, day: int)
    requires 0 <= doe <= 146096
    ensures InEra(doe, y, day) && day < YearLength(400 * era + y)
  {
    hide YearIndex, Century, Cycle, CycleDay, CycleYear, Leap;
    Parts(doe);
    var c, q, cy := Century(doe), Cycle(doe), CycleYear(doe);
    day := CycleDay(doe) - 365 * cy;
    y := 100 * c + 4 * q + cy;
    YearOfEra(c, q, cy, day);
    assert y / 4 == 25 * c + q && y / 100 == c;
    if day == 365 { LastOfCycle(era, c, q); }
  }

  lemma EraStart(era: int, y: int)
    requires 0 <= y < 400
    ensures YearStart(400 * era + y) == 146097 * era + 365 * y + y / 4 - y / 100
  {
    assert (400 * era + y) / 400 == era;
    EraParts(400 * era + y);
  }

  lemma LastOfCycle(era: int, c: int, q: int)
    requires 0 <= c < 4 && 0 <= q < 25 && (q < 24 || c == 3)
    ensures Leap(400 * era + 100 * c + 4 * q + 4)
  {
    var y := 400 * era + 100 * c + 4 * q + 4;
    Remainder(4, 100 * era + 25 * c + q + 1, 0);
    if q < 24 {
      Remainder(100, 4 * era + c, 4 * q + 4);
    } else {
      Remainder(400, era + 1, 0);
    }
  }

  lemma Remainder(n: int, k: int, r: int)
    requires n == 4 || n == 100 || n == 400
    requires 0 <= r < n
    ensures (n * k + r) % n == r
  {
  }

  /** The month and day of a day of a March-based year. */
  lemma MonthOf(day: int)
    requires 0 <= day < 366
    ensures var mp := (5 * day + 2) / 153; var m := mp + (if mp < 10 then 3 else -9);
      var d := day - (153 * mp + 2) / 5 + 1;
      && 1 <= m <= 12 && MonthStart(m) == (153 * mp + 2) / 5 && 1 <= d <= (if m == 2 then 29 else MonthLength(1, m))
      && (m == 2 && d == 29 ==> day == 365)
  {
    var mp := (5 * day + 2) / 153;
    assert 0 <= mp <= 11;
  }

  function DateOf(y: int, day: int): Date {
    var mp := (5 * day + 2) / 153;
    var m := mp + (if mp < 10 then 3 else -9);
    Date(if m <= 2 then y + 1 else y, m, day - (153 * mp + 2) / 5 + 1)
  }

  lemma DateOfMeans(y: int, day: int)
    requires 0 <= day < YearLength(y)
    ensures Exists(DateOf(y, day)) && Number(DateOf(y, day)) == YearStart(y) + day - 719468
  {
    MonthOf(day);
  }

  lemma EraOf(shifted: int)
    ensures Truncate(if shifted >= 0 then shifted else shifted - 146096, 146097) == shifted / 146097
  {
  }

  lemma YearFormula(era: int, doe: int, y: int, day: int)
    requires InEra(doe, y, day)
    ensures CivilFromEra(era, doe) == CivilFromYear(y + era * 400, day)
  {
    hide CivilFromYear, YearIndex;
  }

  lemma DateMeans(y: int, day: int) returns (d: Date)
    requires 0 <= day < YearLength(y)
    ensures Exists(d) && Number(d) == YearStart(y) + day - 719468 && CivilFromYear(y, day) == d.(year := Clamp(d.year))
  {
    d := DateOf(y, day);
    DateOfMeans(y, day);
  }

  lemma EraSplit(era: int, doe: int) returns (y: int, day: int)
    requires 0 <= doe <= 146096
    ensures 0 <= day < YearLength(y) && 146097 * era + doe == YearStart(y) + day
    ensures CivilFromEra(era, doe) == CivilFromYear(y, day)
  {
    var inEra;
    inEra, day := SplitEra(era, doe);
    YearFormula(era, doe, inEra, day);
    EraStart(era, inEra);
    y := 400 * era + inEra;
  }

  lemma EraMeans(era: int, doe: int) returns (d: Date)
    requires 0 <= doe <= 146096
    ensures Exists(d) && Number(d) == 146097 * era + doe - 719468 && CivilFromEra(era, doe) == d.(year := Clamp(d.year))
  {
    hide Number, CivilFromEra, CivilFromYear, Exists, Clamp, YearStart, YearLength;
    var y, day := EraSplit(era, doe);
    d := DateMeans(y, day);
  }

  /** The date with a given number. */
  lemma CivilMeans(days: int) returns (d: Date)
    ensures Exists(d) && Number(d) == days && CivilFromDays(days) == d.(year := Clamp(d.year))
  {
    hide Number, CivilFromEra, Exists, Clamp;
    var era, doe := (days + 719468) / 146097, (days + 719468) % 146097;
    d := EraMeans(era, doe);
    assert CivilFromDays(days) == CivilFromEra(era, doe) by { EraOf(days + 719468); }
  }

  /** Dates in order have numbers in order. */
  lemma NumbersIncrease(a: Date, b: Date)
    requires Exists(a) && Exists(b) && MarchYear(a) < MarchYear(b)
    ensures Number(a) < Number(b)
  {
    InsideYear(a);
    InsideYear(b);
    YearsIncrease(MarchYear(a), MarchYear(b));
  }

  /** Different days have different numbers. */
  lemma NumbersDiffer(a: Date, b: Date)
    requires Exists(a) && Exists(b) && Number(a) == Number(b)
    ensures a == b
  {
    if MarchYear(a) < MarchYear(b) {
      NumbersIncrease(a, b);
    } else if MarchYear(b) < MarchYear(a) {
      NumbersIncrease(b, a);
    } else {
      SameYear(a, b);
    }
  }

  lemma SameYear(a: Date, b: Date)
    requires Exists(a) && Exists(b) && MarchYear(a) == MarchYear(b)
    requires MonthStart(a.month) + a.day == MonthStart(b.month) + b.day
    ensures a == b
  {
  }

  /** A date comes back from its day number exactly when it exists, for every 32-bit year. */
  lemma DateRoundTrip(d: Date)
    requires MIN_I32 <= d.year <= MAX_I32 && 1 <= d.month <= 12
    ensures CivilFromDays(DaysFromCivil(d.year, d.month, d.day)) == d <==> Exists(d)
  {
    hide CivilFromDays, DaysFromCivil;
    DaysMean(d);
    var actual := CivilMeans(Number(d));
    if Exists(d) {
      NumbersDiffer(d, actual);
    } else if CivilFromDays(Number(d)) == d {
      if actual.year == d.year { assert false; }
      ClampedIsElsewhere(actual);
    }
  }

  lemma ClampedIsElsewhere(actual: Date)
    requires Exists(actual) && !(MIN_I32 <= actual.year <= MAX_I32)
    ensures Number(actual.(year := MAX_I32)) != Number(actual)
  {
    var d := actual.(year := MAX_I32);
    if actual.year < MAX_I32 {
      YearsIncrease(MarchYear(actual), MarchYear(d));
    } else {
      YearsIncrease(MarchYear(d), MarchYear(actual));
    }
  }

  /** A day number comes back from its date exactly when its year fits 32 bits. */
  lemma DayRoundTrip(days: int)
    ensures var d := CivilFromDays(days);
      DaysFromCivil(d.year, d.month, d.day) == days <==>
      DaysFromCivil(MIN_I32, 1, 1) <= days <= DaysFromCivil(MAX_I32, 12, 31)
  {
    hide Number, CivilFromDays, DaysFromCivil;
    var actual := CivilMeans(days);
    DaysMean(CivilFromDays(days));
    DaysMean(Date(MIN_I32, 1, 1));
    DaysMean(Date(MAX_I32, 12, 31));
    DayFits(actual);
    if !(MIN_I32 <= actual.year <= MAX_I32) { ClampedIsElsewhere(actual); }
  }

  lemma DayFits(d: Date)
    requires Exists(d)
    ensures MIN_I32 <= d.year <= MAX_I32 <==> Number(Date(MIN_I32, 1, 1)) <= Number(d) <= Number(Date(MAX_I32, 12, 31))
  {
    YearOrder(d, Date(MIN_I32, 1, 1));
    YearOrder(d, Date(MAX_I32, 12, 31));
  }

  /** The first day of a year starts it and the last one ends it. */
  lemma YearOrder(d: Date, edge: Date)
    requires Exists(d) && Exists(edge)
    ensures edge.month == 1 && edge.day == 1 ==> (edge.year <= d.year <==> Number(edge) <= Number(d))
    ensures edge.month == 12 && edge.day == 31 ==> (d.year <= edge.year <==> Number(d) <= Number(edge))
  {
    if MarchYear(d) < MarchYear(edge) {
      NumbersIncrease(d, edge);
    } else if MarchYear(edge) < MarchYear(d) {
      NumbersIncrease(edge, d);
    }
  }
}
