/** The calendar arithmetic of the agent's clock, against a plain count of Gregorian
    days. */
module Civil {
  import opened Decimal

  datatype Date = Date(year: int, month: int, day: int)

  // ------------------------------------------------- the calendar, counted plainly

  predicate Divides(k: int, y: int)
    requires k > 0
  {
    y % k == 0
  }

  predicate Leap(y: int) {
    Divides(4, y) && (!Divides(100, y) || Divides(400, y))
  }

  function YearLength(y: int): int {
    if Leap(y) then 366 else 365
  }

  function MonthLength(y: int, m: int): int {
    if m == 2 then (if Leap(y) then 29 else 28)
    else if m == 4 || m == 6 || m == 9 || m == 11 then 30 else 31
  }

  predicate Valid(date: Date) {
    1 <= date.month <= 12 && 1 <= date.day <= MonthLength(date.year, date.month)
  }

  /** Days from 1970-01-01 to the first day of year `y`, one year at a time. */
  function DaysToYear(y: int): int
    decreases if y >= 1970 then y - 1970 else 1970 - y
  {
    if y == 1970 then 0
    else if y > 1970 then DaysToYear(y - 1) + YearLength(y - 1)
    else DaysToYear(y + 1) - YearLength(y)
  }

  /** Days from the first of January to the first of month `m`, one month at a time. */
  function DaysToMonth(y: int, m: int): int
    requires 1 <= m <= 13
  {
    if m == 1 then 0 else DaysToMonth(y, m - 1) + MonthLength(y, m - 1)
  }

  function DayNumber(date: Date): int
    requires Valid(date)
  {
    DaysToYear(date.year) + DaysToMonth(date.year, date.month) + date.day - 1
  }

  /** The following day of the calendar. */
  function Tomorrow(date: Date): (next: Date)
    requires Valid(date)
    ensures Valid(next)
  {
    if date.day < MonthLength(date.year, date.month) then date.(day := date.day + 1)
    else if date.month < 12 then Date(date.year, date.month + 1, 1)
    else Date(date.year + 1, 1, 1)
  }

  // ------------------------------------------------------------- the fast form

  /** Year of the 400-year era that starts on the first of March. */
  function YearOfEra(doe: nat): nat
    requires doe < 146_097
  {
    (doe - doe / 1460 + doe / 36_524 - doe / 146_096) / 365
  }

  /** Days from the start of an era to the first of March of its year `yoe`. */
  function EraDays(yoe: nat): int {
    365 * yoe + yoe / 4 - yoe / 100
  }

  /** A day of an era as century, group of four years, year and day of the year; a year
      has a day 365 only when it ends in a leap day. */
  predicate EraDay(doe: nat, c: nat, q: nat, r: nat, doy: nat) {
    && c < 4 && q < 25 && r < 4 && doy <= 365
    && doe == 36_524 * c + 1461 * q + 365 * r + doy
    && (doy == 365 ==> r == 3 && (q < 24 || c == 3))
  }

  lemma Decompose(doe: nat) returns (c: nat, q: nat, r: nat, doy: nat)
    requires doe < 146_097
    ensures EraDay(doe, c, q, r, doy)
  {
    c := if doe / 36_524 < 4 then doe / 36_524 else 3;
    var rest := doe - 36_524 * c;
    q := rest / 1461;
    r := if rest % 1461 / 365 < 4 then rest % 1461 / 365 else 3;
    doy := rest % 1461 - 365 * r;
  }

  /** The divisions of the fast form, by decomposition. */
  lemma EraQuotients(doe: nat, c: nat, q: nat, r: nat, doy: nat) returns (late: nat)
    requires doe < 146_096 && EraDay(doe, c, q, r, doy)
    ensures late <= 1 && late <= doy < 365 + late
    ensures doe / 1460 == 25 * c + q + late && doe / 36_524 == c && doe / 146_096 == 0
  {
    var extra := 24 * c + q + 365 * r + doy;
    late := if extra >= 1460 then 1 else 0;
    QuotientUnique(doe, 1460, 25 * c + q + late, extra - 1460 * late);
    QuotientUnique(doe, 36_524, c, doe - 36_524 * c);
  }

  lemma YearOf(doe: nat, c: nat, q: nat, r: nat, doy: nat)
    requires doe < 146_097 && EraDay(doe, c, q, r, doy)
    ensures YearOfEra(doe) == 100 * c + 4 * q + r
    ensures EraDays(100 * c + 4 * q + r) + doy == doe
  {
    var y := 100 * c + 4 * q + r;
    if doe < 146_096 {
      var late := EraQuotients(doe, c, q, r, doy);
      assert doe - doe / 1460 + doe / 36_524 - doe / 146_096 == y * 365 + (doy - late);
      QuotientUnique(y * 365 + (doy - late), 365, y, doy - late);
    }
    EraDaysOf(c, q, r);
    hide EraDays;
  }

  lemma EraDaysOf(c: nat, q: nat, r: nat)
    requires c < 4 && q < 25 && r < 4
    ensures EraDays(100 * c + 4 * q + r) == 36_524 * c + 1461 * q + 365 * r
  {
    QuotientUnique(100 * c + 4 * q + r, 4, 25 * c + q, r);
    QuotientUnique(100 * c + 4 * q + r, 100, c, 4 * q + r);
  }

  lemma GroupEndsInLeapDay(c: nat, q: nat)
    requires c < 4 && q < 25 && (q < 24 || c == 3)
    ensures Leap(100 * c + 4 * q + 4)
  {
    assert 100 * c + 4 * q + 4 == 4 * (25 * c + q + 1);
    if q < 24 {
      assert (100 * c + 4 * q + 4) % 100 == 4 * q + 4;
    }
  }

  /** The fast year: the day of the year it leaves is a day of that year. */
  lemma YearFits(doe: nat)
    requires doe < 146_097
    ensures YearOfEra(doe) < 400
    ensures 0 <= doe - EraDays(YearOfEra(doe)) <= 365
    ensures doe - EraDays(YearOfEra(doe)) == 365 ==> Leap(YearOfEra(doe) + 1)
  {
    var c, q, r, doy := Decompose(doe);
    YearOf(doe, c, q, r, doy);
    assert EraDay(doe, c, q, r, doy);
    if doy == 365 {
      GroupEndsInLeapDay(c, q);
    }
    hide YearOfEra, EraDays, Leap;
  }

  /** Days from the first of March to the start of month `mp`, counting March as 0. */
  function MarchDays(mp: nat): nat {
    (153 * mp + 2) / 5
  }

  /** The month number of `mp`, and whether it belongs to the following January year. */
  function MonthOf(mp: nat): int {
    if mp < 10 then mp + 3 else mp - 9
  }

  function CivilFromDays(days: int): Date {
    var z := days + 719_468;
    var era := z / 146_097;
    var doe: nat := z % 146_097;
    var yoe := YearOfEra(doe);
    var y := yoe + era * 400;
    YearFits(doe);
    var doy: nat := doe - (365 * yoe + yoe / 4 - yoe / 100);
    var mp := (5 * doy + 2) / 153;
    var d := doy - (153 * mp + 2) / 5 + 1;
    var m := if mp < 10 then mp + 3 else mp - 9;
    Date(if m <= 2 then y + 1 else y, m, d)
  }

  // ---------------------------------------------------------- the two agree

  function Quotient(y: int, k: int): int
    requires k > 0
  {
    y / k
  }

  /** Leap days before year `y`. */
  function LeapDays(y: int): int {
    Quotient(y - 1, 4) - Quotient(y - 1, 100) + Quotient(y - 1, 400)
  }

  lemma QuotientStep(y: int, k: int)
    requires k == 4 || k == 100 || k == 400
    ensures Quotient(y, k) == Quotient(y - 1, k) + if Divides(k, y) then 1 else 0
  {
  }

  lemma MultiplesNest(y: int)
    ensures Divides(400, y) ==> Divides(100, y)
    ensures Divides(100, y) ==> Divides(4, y)
  {
  }

  lemma LeapDaysStep(y: int)
    ensures LeapDays(y + 1) == LeapDays(y) + YearLength(y) - 365
  {
    QuotientStep(y, 4);
    QuotientStep(y, 100);
    QuotientStep(y, 400);
    MultiplesNest(y);
    hide Quotient, Divides;
  }

  lemma Shifted(y: int, k: int, n: int)
    requires k > 0
    ensures (y + n * k) % k == y % k && (y + n * k) / k == y / k + n
  {
    var q, r := y / k, y % k;
    assert y + n * k == (q + n) * k + r;
    QuotientUnique(y + n * k, k, q + n, r);
  }

  lemma QuotientUnique(x: int, k: int, q: int, r: int)
    requires k > 0 && x == q * k + r && 0 <= r < k
    ensures x / k == q && x % k == r
  {
    var d := x / k - q;
    assert d * k == r - x % k;
    assert d > 0 ==> d * k >= k;
    assert d < 0 ==> d * k <= -k;
  }

  /** Year `y` of era `era`: quotients shift with the era, and the leap rule repeats. */
  lemma EraShift(y: int, era: int)
    ensures Quotient(y + era * 400, 4) == Quotient(y, 4) + 100 * era
    ensures Quotient(y + era * 400, 100) == Quotient(y, 100) + 4 * era
    ensures Quotient(y + era * 400, 400) == Quotient(y, 400) + era
    ensures Leap(y + era * 400) == Leap(y)
  {
    Shifted(y, 4, 100 * era);
    Shifted(y, 100, 4 * era);
    Shifted(y, 400, era);
  }

  lemma {:induction false} DaysToYearClosed(y: int)
    ensures DaysToYear(y) == 365 * (y - 1970) + LeapDays(y) - 477
    decreases if y >= 1970 then y - 1970 else 1970 - y
  {
    if y > 1970 {
      DaysToYearClosed(y - 1);
      LeapDaysStep(y - 1);
    } else if y < 1970 {
      DaysToYearClosed(y + 1);
      LeapDaysStep(y);
    }
  }

  /** The first of March of year `yoe` of an era. */
  lemma MarchFirst(era: int, yoe: nat)
    requires yoe < 400
    ensures
      var y := yoe + era * 400;
      DaysToYear(y) + DaysToMonth(y, 3) == era * 146_097 + EraDays(yoe) - 719_468
  {
    var y := yoe + era * 400;
    assert EraDays(yoe) == 365 * yoe + Quotient(yoe, 4) - Quotient(yoe, 100) && Quotient(yoe, 400) == 0;
    EraShift(yoe, era);
    DaysToYearClosed(y);
    LeapDaysStep(y);
    FebruaryEnds(y);
    hide *;
    assert LeapDays(y + 1) == Quotient(y, 4) - Quotient(y, 100) + Quotient(y, 400) by {
      LeapDaysOf(y + 1);
    }
  }

  lemma LeapDaysOf(y: int)
    ensures LeapDays(y) == Quotient(y - 1, 4) - Quotient(y - 1, 100) + Quotient(y - 1, 400)
  {
  }

  lemma FebruaryEnds(y: int)
    ensures DaysToMonth(y, 2) == 31 && DaysToMonth(y, 3) == YearLength(y) - 306
  {
    assert DaysToMonth(y, 1) == 0;
    assert DaysToMonth(y, 3) == DaysToMonth(y, 2) + MonthLength(y, 2);
  }

  /** Month and day of a day of a March-based year; the last day exists in long years only. */
  lemma MonthFits(doy: nat)
    requires doy <= 365
    ensures
      var mp := (5 * doy + 2) / 153;
      && mp < 12 && MarchDays(mp) <= doy
      && (mp < 11 ==> doy < MarchDays(mp + 1))
  {
  }

  /** The table behind the month formula. */
  lemma MarchTable()
    ensures MarchDays(0) == 0 && MarchDays(1) == 31 && MarchDays(2) == 61 && MarchDays(3) == 92
    ensures MarchDays(4) == 122 && MarchDays(5) == 153 && MarchDays(6) == 184 && MarchDays(7) == 214
    ensures MarchDays(8) == 245 && MarchDays(9) == 275 && MarchDays(10) == 306 && MarchDays(11) == 337
  {
  }

  lemma {:induction false} MonthsFromMarch(y: int, mp: nat)
    requires mp < 10
    ensures DaysToMonth(y, mp + 3) == DaysToMonth(y, 3) + MarchDays(mp)
    ensures MonthLength(y, mp + 3) == if mp == 9 then 31 else MarchDays(mp + 1) - MarchDays(mp)
  {
    MarchTable();
    if mp > 0 {
      MonthsFromMarch(y, mp - 1);
    }
  }

  /** January and February come 306 days after the first of March of the year before. */
  lemma MonthsAfterDecember(y: int, mp: nat)
    requires 10 <= mp < 12
    ensures DaysToYear(y + 1) + DaysToMonth(y + 1, mp - 9) == DaysToYear(y) + DaysToMonth(y, 3) + MarchDays(mp)
  {
    MarchTable();
    YearAdds(y);
    FebruaryEnds(y);
    FebruaryEnds(y + 1);
    assert DaysToMonth(y + 1, 1) == 0;
    hide *;
    if mp == 10 {
    } else {
      assert mp == 11;
    }
  }

  lemma YearAdds(y: int)
    ensures DaysToYear(y + 1) == DaysToYear(y) + YearLength(y)
  {
    DaysToYearClosed(y);
    DaysToYearClosed(y + 1);
    LeapDaysStep(y);
    hide *;
  }

  /** The result is a date of the calendar, and plain counting leads from it back to the
      input. */
  lemma CivilCounts(days: int)
    ensures Valid(CivilFromDays(days))
    ensures DayNumber(CivilFromDays(days)) == days
  {
    hide *;
    var era, doe := CivilIsFromMarch(days);
    YearFits(doe);
    EraYear(era, YearOfEra(doe), doe - EraDays(YearOfEra(doe)), days);
  }

  lemma CivilIsFromMarch(days: int) returns (era: int, doe: nat)
    ensures days + 719_468 == era * 146_097 + doe
    ensures doe < 146_097 && doe - EraDays(YearOfEra(doe)) >= 0
    ensures CivilFromDays(days) == FromMarch(YearOfEra(doe) + era * 400, doe - EraDays(YearOfEra(doe)))
  {
    hide *;
    era, doe := EraParts(days + 719_468);
    YearFits(doe);
    Unfolded(days, era, doe);
  }

  lemma EraParts(z: int) returns (era: int, doe: nat)
    ensures z == era * 146_097 + doe && doe < 146_097
    ensures era == z / 146_097 && doe == z % 146_097
  {
    era, doe := z / 146_097, z % 146_097;
  }

  lemma Unfolded(days: int, era: int, doe: nat)
    requires era == (days + 719_468) / 146_097 && doe == (days + 719_468) % 146_097
    requires doe < 146_097 && doe - EraDays(YearOfEra(doe)) >= 0
    ensures CivilFromDays(days) == FromMarch(YearOfEra(doe) + era * 400, doe - EraDays(YearOfEra(doe)))
  {
    hide YearOfEra, Leap;
  }

  /** The date of day `doy` of the year from March of year `y`. */
  function FromMarch(y: int, doy: nat): Date {
    var mp := (5 * doy + 2) / 153;
    Date(if MonthOf(mp) <= 2 then y + 1 else y, MonthOf(mp), doy - MarchDays(mp) + 1)
  }

  lemma EraYear(era: int, yoe: nat, doy: nat, days: int)
    requires yoe < 400 && doy <= 365 && (doy == 365 ==> Leap(yoe + 1))
    requires days + 719_468 == era * 146_097 + EraDays(yoe) + doy
    ensures Valid(FromMarch(yoe + era * 400, doy))
    ensures DayNumber(FromMarch(yoe + era * 400, doy)) == days
  {
    var y := yoe + era * 400;
    EraShift(yoe + 1, era);
    hide *;
    MarchFirst(era, yoe);
    FromMarchCounts(y, doy);
  }

  lemma FromMarchCounts(y: int, doy: nat)
    requires doy <= 365 && (doy == 365 ==> Leap(y + 1))
    ensures Valid(FromMarch(y, doy))
    ensures DayNumber(FromMarch(y, doy)) == DaysToYear(y) + DaysToMonth(y, 3) + doy
  {
    var mp := (5 * doy + 2) / 153;
    MonthFits(doy);
    MarchTable();
    hide DaysToYear, DaysToMonth;
    if mp < 10 {
      MonthsFromMarch(y, mp);
    } else {
      MonthsAfterDecember(y, mp);
    }
  }

  /** Earlier in the calendar. */
  predicate Earlier(a: Date, b: Date) {
    a.year < b.year || (a.year == b.year && (a.month < b.month || (a.month == b.month && a.day < b.day)))
  }

  lemma {:induction false} MonthsOrdered(y: int, m: int, n: int)
    requires 1 <= m < n <= 13
    ensures DaysToMonth(y, m) + MonthLength(y, m) <= DaysToMonth(y, n)
    decreases n
  {
    if m < n - 1 {
      MonthsOrdered(y, m, n - 1);
    }
  }

  lemma YearSum(y: int)
    ensures DaysToMonth(y, 13) == DaysToMonth(y, 12) + 31 == YearLength(y)
  {
    MonthsFromMarch(y, 9);
    MarchTable();
    FebruaryEnds(y);
    assert DaysToMonth(y, 13) == DaysToMonth(y, 12) + 31;
  }

  /** Counting preserves the order of dates, so no two dates share a number. */
  lemma CountOrdered(a: Date, b: Date)
    requires Valid(a) && Valid(b) && Earlier(a, b)
    ensures DayNumber(a) < DayNumber(b)
  {
    if a.year < b.year {
      if a.month < 12 {
        MonthsOrdered(a.year, a.month, 13);
      }
      YearSum(a.year);
      if b.month > 1 {
        MonthsOrdered(b.year, 1, b.month);
      }
      YearsOrdered(a.year, b.year);
    } else if a.month < b.month {
      MonthsOrdered(a.year, a.month, b.month);
    }
  }

  lemma {:induction false} YearsOrdered(x: int, y: int)
    requires x < y
    ensures DaysToYear(x) + YearLength(x) <= DaysToYear(y)
    decreases y - x
  {
    YearAdds(x);
    if x + 1 < y {
      YearsOrdered(x + 1, y);
      assert YearLength(x + 1) > 0;
    }
  }

  /** The conversion is a bijection between the integers and the dates of the calendar:
      it is the inverse of plain counting on both sides. */
  lemma CivilInvertsCount(date: Date)
    requires Valid(date)
    ensures CivilFromDays(DayNumber(date)) == date
  {
    var other := CivilFromDays(DayNumber(date));
    CivilCounts(DayNumber(date));
    if Earlier(other, date) {
      CountOrdered(other, date);
    } else if Earlier(date, other) {
      CountOrdered(date, other);
    }
  }

  /** Consecutive inputs are consecutive dates, across month ends, leap days, year ends
      and eras. */
  lemma CivilAdvances(days: int)
    ensures Valid(CivilFromDays(days))
    ensures CivilFromDays(days + 1) == Tomorrow(CivilFromDays(days))
  {
    hide *;
    var today := CivilFromDays(days);
    CivilCounts(days);
    TomorrowCounts(today);
    CivilInvertsCount(Tomorrow(today));
  }

  lemma TomorrowCounts(date: Date)
    requires Valid(date)
    ensures DayNumber(Tomorrow(date)) == DayNumber(date) + 1
  {
    YearSum(date.year);
    YearAdds(date.year);
    hide DaysToYear, Leap;
  }

  predicate I64(n: int) {
    -0x8000_0000_0000_0000 <= n < 0x8000_0000_0000_0000
  }

  predicate U64(n: int) {
    0 <= n < 0x1_0000_0000_0000_0000
  }

  /** The operations within an era stay small, and no unsigned one goes below zero. */
  lemma EraSmall(doe: nat)
    requires doe < 146_097
    ensures
      && 0 <= doe - doe / 1460 <= doe - doe / 1460 + doe / 36_524 < 1_000_000
      && 0 <= doe - doe / 1460 + doe / 36_524 - doe / 146_096
      && var yoe := YearOfEra(doe);
         && yoe < 400 && 0 <= 365 * yoe + yoe / 4 - yoe / 100 <= doe
         && var doy := doe - (365 * yoe + yoe / 4 - yoe / 100);
            && 0 <= doy <= 365
            && var mp := (5 * doy + 2) / 153;
               && 0 <= mp < 12 && 1 <= doy - (153 * mp + 2) / 5 + 1 <= 31
  {
    YearFits(doe);
    hide YearOfEra, Leap;
    MonthFits(doe - EraDays(YearOfEra(doe)));
    MarchTable();
  }

  /** In 64-bit arithmetic no operation overflows, and no unsigned one goes below zero,
      while the shifted input does not overflow: every intermediate value, in the order of
      evaluation, and month and day in 32 bits. */
  lemma NothingOverflows(days: int)
    requires I64(days) && I64(days + 719_468)
    ensures
      var era := (days + 719_468) / 146_097;
      var doe := (days + 719_468) % 146_097;
      && I64(era) && U64(doe)
      && U64(doe - doe / 1460) && U64(doe - doe / 1460 + doe / 36_524)
      && U64(doe - doe / 1460 + doe / 36_524 - doe / 146_096)
      && var yoe := YearOfEra(doe);
         && U64(yoe) && I64(era * 400) && I64(yoe + era * 400) && I64(yoe + era * 400 + 1)
         && U64(365 * yoe) && U64(365 * yoe + yoe / 4) && U64(365 * yoe + yoe / 4 - yoe / 100)
         && var doy := doe - (365 * yoe + yoe / 4 - yoe / 100);
            && U64(doy) && U64(5 * doy) && U64(5 * doy + 2)
            && var mp := (5 * doy + 2) / 153;
               && U64(153 * mp) && U64(153 * mp + 2) && U64(doy - (153 * mp + 2) / 5)
               && 1 <= doy - (153 * mp + 2) / 5 + 1 <= 31
               && (mp < 10 ==> 3 <= mp + 3 <= 12) && (mp >= 10 ==> 1 <= mp - 9 <= 2)
  {
    EraSmall((days + 719_468) % 146_097);
    EraInRange(days);
    hide YearOfEra;
  }

  lemma EraInRange(days: int)
    requires I64(days) && I64(days + 719_468)
    ensures var era := (days + 719_468) / 146_097; -63_200_000_000_000 < era < 63_200_000_000_000
  {
  }
}
