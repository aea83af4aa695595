/** The calendar arithmetic of the snapshot listing: days since 1970-01-01 as Gregorian dates. */
module Calendar {

  datatype Date = Date(year: int, month: int, day: int)

  // ------------------------------------------------------------------ the calendar

  /** The Gregorian leap rule (Appendix C of RFC 3339). */
  predicate Leap(y: int) {
    y % 4 == 0 && (y % 100 != 0 || y % 400 == 0)
  }

  function DaysInMonth(y: int, m: int): (n: int) {
    if m == 2 then (if Leap(y) then 29 else 28)
    else if m == 4 || m == 6 || m == 9 || m == 11 then 30
    else 31
  }

  predicate Valid(c: Date) {
    1 <= c.month <= 12 && 1 <= c.day <= DaysInMonth(c.year, c.month)
  }

  /** The next day of the calendar. */
  function Next(c: Date): (r: Date) {
    if c.day < DaysInMonth(c.year, c.month) then Date(c.year, c.month, c.day + 1)
    else if c.month < 12 then Date(c.year, c.month + 1, 1)
    else Date(c.year + 1, 1, 1)
  }

  predicate Before(a: Date, b: Date) {
    a.year < b.year || (a.year == b.year && (a.month < b.month || (a.month == b.month && a.day < b.day)))
  }

  // --------------------------------------------------------------------- the code

  const U32: int := 0x1_0000_0000

  /** `days_to_ymd`, with the year as it is before the cast to 32 bits. */
  function Civil(days: nat): (c: Date) {
    var z := days + 719468;
    var era := z / 146097;
    var doe := z - era * 146097;
    var yoe := YearOfEra(doe);
    var y := yoe + era * 400;
    FromMarch(y, doe - (365 * yoe + yoe / 4 - yoe / 100))
  }

  function YearOfEra(doe: int): (yoe: int) {
    (doe - doe / 1460 + doe / 36524 - doe / 146096) / 365
  }

  /** The date `doy` days into the year that starts on 1 March of `y`. */
  function FromMarch(y: int, doy: int): (c: Date) {
    var mp := (5 * doy + 2) / 153;
    var d := doy - (153 * mp + 2) / 5 + 1;
    var m := if mp < 10 then mp + 3 else mp - 9;
    Date(if m <= 2 then y + 1 else y, m, d)
  }

  function DaysToYmd(days: nat): (c: Date) {
    var c := Civil(days);
    Date(c.year % U32, c.month, c.day)
  }

  // --------------------------------------------------------- years that start in March

  /** Days before 1 March of year `y`, counted from 1 March of year 0. */
  function MarchStart(y: int): (n: int) {
    365 * y + y / 4 - y / 100 + y / 400
  }

  /** The year from March to February holds the leap day of the next year. */
  function MarchLength(y: int): (n: int) {
    if Leap(y + 1) then 366 else 365
  }

  lemma Quotients(y: int)
    ensures (y + 1) / 4 == y / 4 + (if (y + 1) % 4 == 0 then 1 else 0)
    ensures (y + 1) / 100 == y / 100 + (if (y + 1) % 100 == 0 then 1 else 0)
    ensures (y + 1) / 400 == y / 400 + (if (y + 1) % 400 == 0 then 1 else 0)
  {
  }

  /** Adding a multiple does not change a remainder. */
  lemma Shift4(a: int, b: int)
    ensures (4 * a + b) % 4 == b % 4
  {
  }

  lemma Shift100(a: int, b: int)
    ensures (100 * a + b) % 100 == b % 100
  {
  }

  lemma Shift400(a: int, b: int)
    ensures (400 * a + b) % 400 == b % 400
  {
  }

  lemma Multiples(y: int)
    ensures y % 400 == 0 ==> y % 100 == 0
    ensures y % 100 == 0 ==> y % 4 == 0
  {
    Shift100(4 * (y / 400), y % 400);
    Shift4(25 * (y / 100), y % 100);
  }

  lemma MarchStep(y: int)
    ensures MarchStart(y + 1) == MarchStart(y) + MarchLength(y)
  {
    Quotients(y);
    Multiples(y + 1);
  }

  lemma {:induction false} MarchGrows(y: int, n: nat)
    ensures MarchStart(y + n) >= MarchStart(y) + 365 * n
    decreases n
  {
    hide MarchStart, MarchLength;
    if n > 0 {
      MarchGrows(y, n - 1);
      MarchStep(y + n - 1);
      assert MarchLength(y + n - 1) >= 365 by { MarchAtLeast(y + n - 1); }
    }
  }

  lemma MarchAtLeast(y: int)
    ensures 365 <= MarchLength(y) <= 366
  {
  }

  /** Day `z` is day `u` of the March year `y`. */
  ghost predicate At(z: int, y: int, u: int) {
    z == MarchStart(y) + u && 0 <= u < MarchLength(y)
  }

  /** There is only one such year and day. */
  lemma AtUnique(z: int, y: int, u: int, y': int, u': int)
    requires At(z, y, u) && At(z, y', u')
    ensures y == y' && u == u'
  {
    hide MarchStart, MarchLength;
    if y < y' {
      MarchStep(y);
      MarchGrows(y + 1, y' - y - 1);
    } else if y' < y {
      MarchStep(y');
      MarchGrows(y' + 1, y - y' - 1);
    }
  }

  lemma AtNext(z: int, y: int, u: int)
    requires At(z, y, u)
    ensures if u + 1 < MarchLength(y) then At(z + 1, y, u + 1) else At(z + 1, y + 1, 0)
  {
    hide MarchStart, MarchLength;
    MarchStep(y);
    MarchAtLeast(y + 1);
  }

  // ------------------------------------------------------------- the year of the era

  /** A day of the era by centuries, four-year cycles and years. */
  lemma YearOfEraParts(c: int, q: int, k: int, u: int)
    requires 0 <= c <= 3 && 0 <= q <= 24 && 0 <= k <= 3 && 0 <= u <= 365 && (u == 365 ==> k == 3)
    requires 1461 * q + 365 * k + u < 36524
    ensures YearOfEra(36524 * c + 1461 * q + 365 * k + u) == 100 * c + 4 * q + k
  {
    var t := 365 * k + u;
    var doe := 36524 * c + 1461 * q + t;
    var e := if 24 * c + q + t >= 1460 then 1 else 0;
    assert doe == 1460 * (25 * c + q) + (24 * c + q + t);
    assert doe / 1460 == 25 * c + q + e;
    assert doe / 36524 == c;
    assert doe / 146096 == 0;
    assert doe - doe / 1460 + doe / 36524 == 365 * (100 * c + 4 * q) + (t - e);
    assert (t - e) / 365 == k;
  }

  /** Every day of the era but the last splits that way. */
  lemma EraSplit(doe: int) returns (c: int, q: int, k: int, u: int)
    requires 0 <= doe < 146096
    ensures 0 <= c <= 3 && 0 <= q <= 24 && 0 <= k <= 3 && 0 <= u <= 365 && (u == 365 ==> k == 3)
    ensures 1461 * q + 365 * k + u < 36524 && doe == 36524 * c + 1461 * q + 365 * k + u
  {
    c := doe / 36524;
    var r := doe % 36524;
    q := r / 1461;
    var t := r % 1461;
    k := if t == 1460 then 3 else t / 365;
    u := t - 365 * k;
  }

  lemma LeapInEra(era: int, c: int, q: int, k: int)
    requires 0 <= c <= 3 && 0 <= q <= 24 && 0 <= k <= 3
    ensures Leap(400 * era + 100 * c + 4 * q + k + 1) <==> k == 3 && (q < 24 || c == 3)
  {
    var i := 4 * q + k + 1;
    var b := 100 * c + i;
    Shift4(100 * era, b);
    Shift100(4 * era, b);
    Shift400(era, b);
    Shift4(25 * c + q, k + 1);
    Shift100(c, i);
    assert 1 <= i <= 100 && 1 <= b <= 400;
  }

  lemma MarchStartInEra(era: int, yoe: int)
    requires 0 <= yoe < 400
    ensures MarchStart(400 * era + yoe) == 146097 * era + 365 * yoe + yoe / 4 - yoe / 100
  {
    assert (400 * era + yoe) / 4 == 100 * era + yoe / 4;
    assert (400 * era + yoe) / 100 == 4 * era + yoe / 100;
    assert (400 * era + yoe) / 400 == era;
  }

  /** The code's year of the era and day of the year place the day in its March year. */
  lemma EraDay(era: int, doe: int)
    requires 0 <= doe <= 146096
    ensures var yoe := YearOfEra(doe);
            At(146097 * era + doe, 400 * era + yoe, doe - (365 * yoe + yoe / 4 - yoe / 100))
  {
    hide Leap, MarchStart;
    if doe == 146096 {
      assert YearOfEra(doe) == 399;
      LeapInEra(era, 3, 24, 3);
      MarchStartInEra(era, 399);
    } else {
      hide YearOfEra;
      var c, q, k, u := EraSplit(doe);
      YearOfEraParts(c, q, k, u);
      LeapInEra(era, c, q, k);
      MarchStartInEra(era, 100 * c + 4 * q + k);
      CyclesInEra(c, q, k);
    }
  }

  lemma CyclesInEra(c: int, q: int, k: int)
    requires 0 <= c && 0 <= q <= 24 && 0 <= k <= 3
    ensures (100 * c + 4 * q + k) / 4 == 25 * c + q && (100 * c + 4 * q + k) / 100 == c
  {
  }

  /** The March year and day of a day count. */
  lemma CivilAt(days: nat) returns (y: int, u: int)
    ensures At(days + 719468, y, u) && Civil(days) == FromMarch(y, u)
  {
    hide YearOfEra, FromMarch, At;
    var z := days + 719468;
    var era := z / 146097;
    var doe := z - era * 146097;
    var yoe := YearOfEra(doe);
    EraDay(era, doe);
    y, u := 400 * era + yoe, doe - (365 * yoe + yoe / 4 - yoe / 100);
  }

  // ------------------------------------------------------------------------ months

  function MonthStart(mp: int): (n: int) {
    (153 * mp + 2) / 5
  }

  lemma MonthOf(u: int)
    requires 0 <= u <= 365
    ensures var mp := (5 * u + 2) / 153; 0 <= mp <= 11 && MonthStart(mp) <= u < MonthStart(mp + 1)
  {
  }

  /** The length of a month counted from March, but for the last. */
  lemma MonthLengths(y: int, mp: int)
    requires 0 <= mp <= 10
    ensures var m := if mp < 10 then mp + 3 else mp - 9;
            MonthStart(mp + 1) - MonthStart(mp) == DaysInMonth(if m <= 2 then y + 1 else y, m)
  {
    hide Leap;
    if mp == 0 { } else if mp == 1 { } else if mp == 2 { } else if mp == 3 { } else if mp == 4 { } else if mp == 5 { }
    else if mp == 6 { } else if mp == 7 { } else if mp == 8 { } else if mp == 9 { } else { assert mp == 10; }
  }

  lemma MarchValid(y: int, u: int)
    requires 0 <= u < MarchLength(y)
    ensures Valid(FromMarch(y, u))
  {
    hide Leap;
    MonthOf(u);
    var mp := (5 * u + 2) / 153;
    if mp <= 10 { MonthLengths(y, mp); }
  }

  /** The next day of a March year is the next day of the calendar. */
  lemma MarchNext(y: int, u: int)
    requires 0 <= u < MarchLength(y)
    ensures Next(FromMarch(y, u)) == if u + 1 < MarchLength(y) then FromMarch(y, u + 1) else FromMarch(y + 1, 0)
  {
    hide Leap;
    MonthOf(u);
    var mp := (5 * u + 2) / 153;
    if mp <= 10 {
      MonthLengths(y, mp);
      MonthOf(u + 1);
    } else if u + 1 < MarchLength(y) {
      MonthOf(u + 1);
    }
  }

  // ------------------------------------------------------------------ the theorems

  /** Day 0 is 1 January 1970. */
  lemma Epoch()
    ensures Civil(0) == Date(1970, 1, 1)
  {
    assert 719468 / 146097 == 4 && 719468 - 4 * 146097 == 135080;
    assert YearOfEra(135080) == 369;
  }

  lemma CivilValid(days: nat)
    ensures Valid(Civil(days))
  {
    var y, u := CivilAt(days);
    MarchValid(y, u);
  }

  lemma CivilNext(days: nat)
    ensures Civil(days + 1) == Next(Civil(days))
  {
    hide Civil, FromMarch, Next, MarchStart, MarchLength;
    var y, u := CivilAt(days);
    var y', u' := CivilAt(days + 1);
    AtNext(days + 719468, y, u);
    if u + 1 < MarchLength(y) {
      AtUnique(days + 719469, y, u + 1, y', u');
    } else {
      AtUnique(days + 719469, y + 1, 0, y', u');
    }
    assert 0 <= u < MarchLength(y);
    MarchNext(y, u);
  }

  /** As long as the year fits in 32 bits, day n is the n-th calendar day after 1970-01-01: a valid
      date, with day n + 1 its calendar successor. */
  lemma DaysAreCalendarDays(days: nat)
    requires Civil(days + 1).year < U32
    ensures DaysToYmd(0) == Date(1970, 1, 1)
    ensures Valid(DaysToYmd(days)) && DaysToYmd(days + 1) == Next(DaysToYmd(days))
  {
    hide Civil, Next;
    Epoch();
    CivilValid(days);
    CivilNext(days);
    YearsFrom(days);
    YearsFrom(days + 1);
    assert Civil(days).year <= Civil(days + 1).year by { NextLater(Civil(days)); }
  }

  lemma NextLater(c: Date)
    requires Valid(c)
    ensures Before(c, Next(c)) && Next(c).year >= c.year
  {
  }

  lemma {:induction false} YearsFrom(days: nat)
    ensures Civil(days).year >= 1970
  {
    hide Civil;
    if days == 0 {
      Epoch();
    } else {
      YearsFrom(days - 1);
      CivilNext(days - 1);
      CivilValid(days - 1);
      NextLater(Civil(days - 1));
    }
  }

  lemma {:induction false} CivilOrdered(a: nat, b: nat)
    requires a < b
    ensures Before(Civil(a), Civil(b))
    decreases b
  {
    hide Civil;
    CivilNext(b - 1);
    CivilValid(b - 1);
    NextLater(Civil(b - 1));
    if a < b - 1 { CivilOrdered(a, b - 1); }
  }

  /** Later days have later dates, so no two days share one. */
  lemma DatesOrderDays(a: nat, b: nat)
    requires Civil(a).year < U32 && Civil(b).year < U32
    ensures a < b <==> Before(DaysToYmd(a), DaysToYmd(b))
    ensures a == b <==> DaysToYmd(a) == DaysToYmd(b)
  {
    hide Civil;
    YearsFrom(a);
    YearsFrom(b);
    if a < b { CivilOrdered(a, b); }
    if b < a { CivilOrdered(b, a); }
  }

  /** The number of a date, counted the other way round: whole March years, then months, then days. */
  function DayNumber(c: Date): (n: int) {
    var y := if c.month <= 2 then c.year - 1 else c.year;
    var mp := if c.month <= 2 then c.month + 9 else c.month - 3;
    MarchStart(y) + MonthStart(mp) + c.day - 1 - 719468
  }

  lemma MarchOf(c: Date)
    requires Valid(c)
    ensures var y := if c.month <= 2 then c.year - 1 else c.year;
            var u := DayNumber(c) + 719468 - MarchStart(y);
            0 <= u < MarchLength(y) && FromMarch(y, u) == c
  {
    hide Leap, MarchStart;
    var y := if c.month <= 2 then c.year - 1 else c.year;
    var mp := if c.month <= 2 then c.month + 9 else c.month - 3;
    if mp <= 10 { MonthLengths(y, mp); }
    var u := MonthStart(mp) + c.day - 1;
    assert (5 * u + 2) / 153 == mp by { MonthIs(mp, u); }
  }

  lemma MonthIs(mp: int, u: int)
    requires 0 <= mp <= 11 && MonthStart(mp) <= u < MonthStart(mp + 1)
    ensures (5 * u + 2) / 153 == mp
  {
  }

  /** Every valid date from 1970-01-01 on is the date of exactly its day number. */
  lemma EveryDateIsADay(c: Date)
    requires Valid(c) && 1970 <= c.year < U32
    ensures DayNumber(c) >= 0 && DaysToYmd(DayNumber(c)) == c
  {
    hide FromMarch, MarchStart, MarchLength, Civil;
    MarchOf(c);
    var y := if c.month <= 2 then c.year - 1 else c.year;
    var u := DayNumber(c) + 719468 - MarchStart(y);
    EpochMarch(y, u, c);
    var n := DayNumber(c);
    assert At(n + 719468, y, u);
    var y', u' := CivilAt(n);
    AtUnique(n + 719468, y, u, y', u');
  }

  lemma EpochMarch(y: int, u: int, c: Date)
    requires Valid(c) && c.year >= 1970 && y == (if c.month <= 2 then c.year - 1 else c.year)
    requires u == DayNumber(c) + 719468 - MarchStart(y)
    ensures DayNumber(c) >= 0
  {
    hide Leap;
    assert MarchStart(1969) == 719162 && MarchStart(1970) == 719527;
    if y >= 1970 {
      MarchGrows(1970, y - 1970);
    } else {
      assert y == 1969;
    }
  }

  // ------------------------------------------------------------------ time of day

  datatype Stamp = Stamp(date: Date, hour: int, minute: int, second: int)

  /** The fields `format_unix_timestamp` prints for a time other than 0. */
  function Fields(secs: nat): (f: Stamp) {
    Stamp(DaysToYmd(secs / 86400), secs / 3600 % 24, secs / 60 % 60, secs % 60)
  }

  predicate Earlier(a: Stamp, b: Stamp) {
    || Before(a.date, b.date)
    || (a.date == b.date && (a.hour < b.hour
        || (a.hour == b.hour && (a.minute < b.minute || (a.minute == b.minute && a.second < b.second)))))
  }

  lemma ClockOf(secs: nat)
    ensures secs == 86400 * (secs / 86400) + 3600 * (secs / 3600 % 24) + 60 * (secs / 60 % 60) + secs % 60
  {
    var m := secs / 60;
    assert secs == 60 * m + secs % 60;
    var h := m / 60;
    assert m == 60 * h + m % 60;
    assert secs / 3600 == h && secs / 86400 == h / 24;
  }

  /** Printed times are valid clock readings and order the way the times do. */
  lemma FieldsOrderTimes(a: nat, b: nat)
    requires Civil(a / 86400).year < U32 && Civil(b / 86400).year < U32
    ensures Valid(Fields(a).date) && 0 <= Fields(a).hour < 24 && 0 <= Fields(a).minute < 60
            && 0 <= Fields(a).second < 60
    ensures a < b <==> Earlier(Fields(a), Fields(b))
    ensures a == b <==> Fields(a) == Fields(b)
  {
    hide DaysToYmd, Civil;
    ClockOf(a);
    ClockOf(b);
    DatesOrderDays(a / 86400, b / 86400);
    PrintedValid(a / 86400);
  }

  lemma PrintedValid(days: nat)
    requires Civil(days).year < U32
    ensures Valid(DaysToYmd(days))
  {
    hide Civil, Leap;
    CivilValid(days);
    YearsFrom(days);
  }
}
