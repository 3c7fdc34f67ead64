/**
 The date of a Unix time, by the era arithmetic of `civil_time`, against the Gregorian calendar walked
 one day at a time.
 */
module Calendar {

  datatype Date = Date(year: int, month: int, day: int)

  datatype Civil = Civil(date: Date, hour: nat, minute: nat, second: nat)

  // ---- the calendar ----

  predicate Leap(year: int)
  {
    year % 4 == 0 && (year % 100 != 0 || year % 400 == 0)
  }

  function DaysIn(year: int, month: int): int
  {
    if month == 2 then (if Leap(year) then 29 else 28)
    else if month == 4 || month == 6 || month == 9 || month == 11 then 30
    else 31
  }

  predicate ValidDate(date: Date)
  {
    1 <= date.month <= 12 && 1 <= date.day <= DaysIn(date.year, date.month)
  }

  function NextDay(date: Date): Date
  {
    if date.day < DaysIn(date.year, date.month) then date.(day := date.day + 1)
    else if date.month < 12 then Date(date.year, date.month + 1, 1)
    else Date(date.year + 1, 1, 1)
  }

  /** The date a number of whole days after 1970-01-01. */
  function DateAfter(days: nat): Date
  {
    if days == 0 then Date(1970, 1, 1) else NextDay(DateAfter(days - 1))
  }

  // ---- the era arithmetic ----

  const DAYS_PER_ERA: nat := 146_097

  function YearOfEra(doe: nat): int
  {
    (doe - doe / 1_460 + doe / 36_524 - doe / 146_096) / 365
  }

  /** Day `doy` of year `yoe` of an era, years starting on the first of March. */
  function MarchDate(era: int, yoe: int, doy: int): Date
  {
    var mp := (5 * doy + 2) / 153;
    var month := mp + if mp < 10 then 3 else -9;
    Date(yoe + era * 400 + if month <= 2 then 1 else 0, month, doy - (153 * mp + 2) / 5 + 1)
  }

  /** `z` counts days from 0000-03-01. */
  function CivilDate(z: nat): Date
  {
    var era := z / DAYS_PER_ERA;
    var doe := z - era * DAYS_PER_ERA;
    var yoe := YearOfEra(doe);
    MarchDate(era, yoe, doe - (365 * yoe + yoe / 4 - yoe / 100))
  }

  const U64_END: nat := 0x1_0000_0000_0000_0000
  const I64_END: nat := 0x8000_0000_0000_0000

  function CivilTime(seconds: nat): Civil
  {
    var days := if seconds / 86_400 < I64_END then seconds / 86_400 else I64_END - 1;
    var time := seconds % 86_400;
    Civil(CivilDate(days + 719_468), time / 3_600, time / 60 % 60, time % 60)
  }

  // ---- years that start in March ----

  /** Days of an era before its year `yoe`. */
  function YearStart(yoe: int): int
  {
    365 * yoe + yoe / 4 - yoe / 100 + yoe / 400
  }

  predicate InYear(doe: nat, yoe: int)
  {
    0 <= yoe < 400 && YearStart(yoe) <= doe < YearStart(yoe + 1)
  }

  /** The four divisions find the year of the era. */
  lemma {:induction false} YearOfEraExact(doe: nat)
    requires doe < DAYS_PER_ERA
    ensures InYear(doe, YearOfEra(doe))
  {
    hide YearOfEra, InYear;
    if doe < 146_096 {
      var c := doe / 36_524;
      var d := doe - 36_524 * c;
      var q := d / 1_461;
      YearInCycle(doe, c, q, d - 1_461 * q);
    } else {
      LastDayOfEra();
    }
  }

  lemma {:induction false} LastDayOfEra()
    ensures InYear(146_096, YearOfEra(146_096))
  {
  }

  /** Century `c`, four-year cycle `q` and day `e` of the cycle. */
  lemma {:induction false} YearInCycle(doe: nat, c: int, q: int, e: int)
    requires 0 <= c <= 3 && 0 <= q <= 24 && 0 <= e < 1_461 && doe < 146_096
    requires doe == 36_524 * c + 1_461 * q + e && doe / 36_524 == c
    requires 1_461 * q + e < 36_524
    ensures InYear(doe, YearOfEra(doe))
  {
    var k := (24 * c + q + e) / 1_460;
    assert doe == 1_460 * (25 * c + q) + (24 * c + q + e);
    assert doe / 1_460 == 25 * c + q + k;
    assert doe / 146_096 == 0;
    var t := if e / 365 < 4 then e / 365 else 3;
    var yoe := 100 * c + 4 * q + t;
    assert (e - k) / 365 == t;
    assert doe - doe / 1_460 + doe / 36_524 - doe / 146_096 == 365 * (100 * c + 4 * q) + (e - k);
    assert YearOfEra(doe) == yoe;
    StartInCycle(c, q, t);
    StartAfterCycle(c, q, t);
  }

  lemma {:induction false} StartInCycle(c: int, q: int, t: int)
    requires 0 <= c <= 3 && 0 <= q <= 24 && 0 <= t <= 3
    ensures YearStart(100 * c + 4 * q + t) == 36_524 * c + 1_461 * q + 365 * t
  {
    var yoe := 100 * c + 4 * q + t;
    assert yoe / 4 == 25 * c + q;
    assert yoe / 100 == c;
    assert yoe / 400 == 0;
  }

  lemma {:induction false} StartAfterCycle(c: int, q: int, t: int)
    requires 0 <= c <= 3 && 0 <= q <= 24 && 0 <= t <= 3
    ensures YearStart(100 * c + 4 * q + t + 1) ==
            if t < 3 then 36_524 * c + 1_461 * q + 365 * (t + 1)
            else if q < 24 then 36_524 * c + 1_461 * (q + 1)
            else if c < 3 then 36_524 * (c + 1)
            else DAYS_PER_ERA
  {
    if t < 3 {
      StartInCycle(c, q, t + 1);
    } else if q < 24 {
      StartInCycle(c, q + 1, 0);
    } else if c < 3 {
      StartInCycle(c + 1, 0, 0);
    }
  }

  /** The February of a March-based year belongs to the next calendar year. */
  lemma {:induction false} YearLength(yoe: int)
    requires 0 <= yoe < 400
    ensures YearStart(yoe + 1) - YearStart(yoe) == if Leap(yoe + 1) then 366 else 365
  {
    Quotient(yoe, 4);
    Quotient(yoe, 100);
    Quotient(yoe, 400);
  }

  lemma {:induction false} Quotient(n: int, base: int)
    requires n >= 0 && base > 1
    ensures (n + 1) / base - n / base == if (n + 1) % base == 0 then 1 else 0
  {
    var q, r := n / base, n % base;
    assert n == base * q + r;
    if r == base - 1 {
      assert n + 1 == base * (q + 1);
      Divides(base, q + 1, 0, n + 1);
    } else {
      Divides(base, q, r + 1, n + 1);
    }
  }

  lemma {:induction false} Divides(base: int, q: int, r: int, n: int)
    requires base > 0 && 0 <= r < base && n == base * q + r
    ensures n / base == q && n % base == r
  {
    var d := n / base - q;
    assert base * d == r - n % base;
    Multiple(base, d);
  }

  lemma {:induction false} Multiple(base: int, d: int)
    requires base > 0
    ensures d >= 1 ==> base * d >= base
    ensures d <= -1 ==> base * d <= -base
  {
  }

  lemma {:induction false} AddMultiple(n: int, k: int, base: int)
    requires base > 0
    ensures (n + k * base) % base == n % base
  {
    Divides(base, n / base + k, n % base, n + k * base);
  }

  // ---- from the March-based year to the date ----

  predicate Position(z: nat, era: nat, yoe: int, doy: int)
  {
    && 0 <= yoe < 400 && 0 <= doy && YearStart(yoe) + doy < YearStart(yoe + 1)
    && z == era * DAYS_PER_ERA + YearStart(yoe) + doy
  }

  lemma {:induction false} CivilDateAt(z: nat, era: nat, yoe: int, doy: int)
    requires Position(z, era, yoe, doy)
    ensures CivilDate(z) == MarchDate(era, yoe, doy)
  {
    hide CivilDate, MarchDate, YearStart, YearOfEra;
    var doe := YearStart(yoe) + doy;
    EraBounds(yoe);
    Divides(DAYS_PER_ERA, era, doe, z);
    YearOfEraExact(doe);
    SameYear(doe, yoe, YearOfEra(doe));
    Assemble(z, era, doe, yoe);
  }

  lemma {:induction false} Assemble(z: nat, era: nat, doe: nat, yoe: int)
    requires z / DAYS_PER_ERA == era && doe == z - era * DAYS_PER_ERA
    requires YearOfEra(doe) == yoe && 0 <= yoe < 400
    ensures CivilDate(z) == MarchDate(era, yoe, doe - YearStart(yoe))
  {
    hide YearOfEra, MarchDate;
    assert yoe / 400 == 0;
  }

  lemma {:induction false} EraBounds(yoe: int)
    requires 0 <= yoe < 400
    ensures 0 <= YearStart(yoe) && YearStart(yoe + 1) <= DAYS_PER_ERA
  {
  }

  lemma {:induction false} SameYear(doe: nat, a: int, b: int)
    requires InYear(doe, a) && InYear(doe, b)
    ensures a == b
  {
  }

  lemma {:induction false} FindPosition(z: nat) returns (era: nat, yoe: int, doy: int)
    ensures Position(z, era, yoe, doy)
  {
    era := z / DAYS_PER_ERA;
    var doe := z % DAYS_PER_ERA;
    YearOfEraExact(doe);
    yoe := YearOfEra(doe);
    doy := doe - YearStart(yoe);
  }

  lemma {:induction false} LeapInEra(era: int, year: int)
    ensures Leap(year + era * 400) == Leap(year)
  {
    AddMultiple(year, era * 100, 4);
    AddMultiple(year, era * 4, 100);
    AddMultiple(year, era, 400);
  }

  lemma {:induction false} MonthOf(doy: int) returns (mp: int)
    requires 0 <= doy < 366
    ensures mp == (5 * doy + 2) / 153 && 0 <= mp <= 11
    ensures (153 * mp + 2) / 5 <= doy && (mp < 11 ==> doy < (153 * (mp + 1) + 2) / 5)
  {
    mp := (5 * doy + 2) / 153;
  }

  lemma {:induction false} MarchDateValid(era: int, yoe: int, doy: int)
    requires 0 <= yoe < 400 && 0 <= doy < 366 && (doy == 365 ==> Leap(yoe + 1))
    ensures ValidDate(MarchDate(era, yoe, doy))
  {
    LeapInEra(era, yoe + 1);
    var mp := MonthOf(doy);
  }

  /** Inside a March-based year the arithmetic steps as the calendar does. */
  lemma {:induction false} StepInYear(era: int, yoe: int, doy: int)
    requires 0 <= yoe < 400 && 0 <= doy < 365 && (doy == 364 ==> Leap(yoe + 1))
    ensures MarchDate(era, yoe, doy + 1) == NextDay(MarchDate(era, yoe, doy))
  {
    LeapInEra(era, yoe + 1);
    var mp := MonthOf(doy);
    var next := MonthOf(doy + 1);
    assert next == mp || next == mp + 1;
  }

  lemma {:induction false} StepOverYear(era: int, yoe: int, doy: int)
    requires 0 <= yoe < 400 && doy == if Leap(yoe + 1) then 365 else 364
    ensures NextDay(MarchDate(era, yoe, doy)) == Date(yoe + 1 + era * 400, 3, 1)
  {
  }

  lemma {:induction false} FirstOfMarch(era: int, yoe: int)
    ensures MarchDate(era, yoe, 0) == Date(yoe + era * 400, 3, 1)
  {
  }

  /** One more day is the next date. */
  lemma {:induction false} CivilDateSteps(z: nat)
    ensures ValidDate(CivilDate(z)) && CivilDate(z + 1) == NextDay(CivilDate(z))
  {
    hide YearStart, MarchDate, NextDay, CivilDate, Leap;
    var era, yoe, doy := FindPosition(z);
    CivilDateAt(z, era, yoe, doy);
    YearLength(yoe);
    MarchDateValid(era, yoe, doy);
    if YearStart(yoe) + doy + 1 < YearStart(yoe + 1) {
      CivilDateAt(z + 1, era, yoe, doy + 1);
      StepInYear(era, yoe, doy);
    } else {
      StepOverYear(era, yoe, doy);
      if yoe + 1 < 400 {
        YearLength(yoe + 1);
        CivilDateAt(z + 1, era, yoe + 1, 0);
        FirstOfMarch(era, yoe + 1);
      } else {
        YearLength(0);
        EraStarts();
        CivilDateAt(z + 1, era + 1, 0, 0);
        FirstOfMarch(era + 1, 0);
      }
    }
  }

  lemma {:induction false} EraStarts()
    ensures YearStart(0) == 0 && YearStart(400) == DAYS_PER_ERA
  {
  }

  /** The arithmetic is the Gregorian calendar: on every day it gives the date reached by stepping
      that many days from 1970-01-01, with month and day in range for their year. */
  lemma {:induction false} CivilDateIsGregorian(days: nat)
    ensures CivilDate(days + 719_468) == DateAfter(days) && ValidDate(DateAfter(days))
    decreases days
  {
    hide CivilDate, NextDay;
    CivilDateSteps(days + 719_468);
    if days == 0 {
      Epoch();
    } else {
      CivilDateIsGregorian(days - 1);
      CivilDateSteps(days - 1 + 719_468);
    }
  }

  lemma {:induction false} Epoch()
    ensures CivilDate(719_468) == Date(1970, 1, 1)
  {
    assert 719_468 / DAYS_PER_ERA == 4;
    assert YearOfEra(135_080) == 369;
  }

  // ---- the whole time ----

  predicate Earlier(a: Date, b: Date)
  {
    a.year < b.year || (a.year == b.year && (a.month < b.month || (a.month == b.month && a.day < b.day)))
  }

  lemma {:induction false} DatesIncrease(a: nat, b: nat)
    requires a < b
    ensures Earlier(DateAfter(a), DateAfter(b))
    decreases b
  {
    hide DaysIn;
    if a + 1 < b {
      DatesIncrease(a, b - 1);
    }
  }

  /** For every u64 second count: the Gregorian date, and the time of day of section 5.7 of RFC 3339. */
  lemma {:induction false} CivilTimeMeaning(seconds: nat)
    requires seconds < U64_END
    ensures var civil := CivilTime(seconds);
            && civil.date == DateAfter(seconds / 86_400) && ValidDate(civil.date)
            && civil.hour < 24 && civil.minute < 60 && civil.second < 60
            && seconds == seconds / 86_400 * 86_400 + civil.hour * 3_600 + civil.minute * 60 + civil.second
  {
    hide CivilDate, DateAfter, ValidDate;
    CivilDateIsGregorian(seconds / 86_400);
    var time := seconds % 86_400;
    assert time / 60 / 60 == time / 3_600;
    assert time == time / 60 * 60 + time % 60;
    assert time / 60 == time / 60 / 60 * 60 + time / 60 % 60;
  }

  /** Different seconds have different civil times. */
  lemma {:induction false} CivilTimeInjective(a: nat, b: nat)
    requires a < U64_END && b < U64_END && a != b
    ensures CivilTime(a) != CivilTime(b)
  {
    hide CivilTime, DateAfter, ValidDate;
    CivilTimeMeaning(a);
    CivilTimeMeaning(b);
    if a / 86_400 < b / 86_400 {
      DatesIncrease(a / 86_400, b / 86_400);
    } else if b / 86_400 < a / 86_400 {
      DatesIncrease(b / 86_400, a / 86_400);
    }
  }

  /** No signed 64-bit operation overflows: every intermediate value stays far below 2^63. */
  lemma {:induction false} NoOverflow(seconds: nat)
    requires seconds < U64_END
    ensures var days := seconds / 86_400;
            var z := days + 719_468;
            var era := z / DAYS_PER_ERA;
            var doe := z - era * DAYS_PER_ERA;
            var yoe := YearOfEra(doe);
            var doy := doe - (365 * yoe + yoe / 4 - yoe / 100);
            && days < I64_END - 719_468
            && 0 <= era * DAYS_PER_ERA <= z < I64_END
            && 0 <= doe < DAYS_PER_ERA
            && 0 <= yoe < 400 && yoe + era * 400 + 1 < I64_END
            && 0 <= doy < 366 && 5 * doy + 2 < 1_832
  {
    var z := seconds / 86_400 + 719_468;
    var doe := z - z / DAYS_PER_ERA * DAYS_PER_ERA;
    YearOfEraExact(doe);
    YearLength(YearOfEra(doe));
  }
}
