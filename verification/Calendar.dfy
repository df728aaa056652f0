/** Days and civil dates of the proleptic Gregorian calendar. The two closed formulas of the
    timestamp codec are compared with counting days, year by year and month by month. */
module Calendar {

  datatype Date = Date(year: int, month: int, day: int)

  const EPOCH_SHIFT := 719468      // days from 0000-03-01 to 1970-01-01
  const ERA_DAYS := 146097         // days in 400 years
  const EPOCH_FROM_ZERO := 719528  // days from 0000-01-01 to 1970-01-01

  predicate Leap(year: int) {
    year % 4 == 0 && (year % 100 != 0 || year % 400 == 0)
  }

  function DaysInMonth(year: int, month: int): int
    requires 1 <= month <= 12
  {
    if month == 2 then (if Leap(year) then 29 else 28)
    else if month in {4, 6, 9, 11} then 30
    else 31
  }

  predicate Valid(date: Date) {
    1 <= date.month <= 12 && 1 <= date.day <= DaysInMonth(date.year, date.month)
  }

  // ----- counting days -----

  function DaysBeforeYear(year: nat): nat {
    if year == 0 then 0 else DaysBeforeYear(year - 1) + (if Leap(year - 1) then 366 else 365)
  }

  function DaysBeforeMonth(year: int, month: int): int
    requires 1 <= month <= 12
    decreases month
  {
    if month == 1 then 0 else DaysBeforeMonth(year, month - 1) + DaysInMonth(year, month - 1)
  }

  /** Days from 0000-01-01. */
  function CountedDays(date: Date): int
    requires Valid(date) && 0 <= date.year
  {
    DaysBeforeYear(date.year) + DaysBeforeMonth(date.year, date.month) + date.day - 1
  }

  // ----- the two formulas -----

  /** Days since 1970-01-01, computed in 400-year eras of years that begin in March. */
  function DaysFromCivil(date: Date): int {
    var adjusted := date.year - (if date.month <= 2 then 1 else 0);
    var era := adjusted / 400;
    var yoe := adjusted - era * 400;
    var shifted := date.month + (if date.month > 2 then -3 else 9);
    era * ERA_DAYS + yoe * 365 + yoe / 4 - yoe / 100 + (153 * shifted + 2) / 5 + date.day - 1 - EPOCH_SHIFT
  }

  function YearOfEra(doe: int): int {
    (doe - doe / 1460 + doe / 36524 - doe / 146096) / 365
  }

  function CivilOfEra(era: int, doe: int): Date {
    var yoe := YearOfEra(doe);
    var doy := doe - (365 * yoe + yoe / 4 - yoe / 100);
    var mp := (5 * doy + 2) / 153;
    var day := doy - (153 * mp + 2) / 5 + 1;
    var month := mp + (if mp < 10 then 3 else -9);
    Date(yoe + era * 400 + (if month <= 2 then 1 else 0), month, day)
  }

  function CivilFromDays(sinceEpoch: int): Date {
    var days := sinceEpoch + EPOCH_SHIFT;
    var era := days / ERA_DAYS;
    CivilOfEra(era, days - era * ERA_DAYS)
  }

  // ----- the date-to-days formula counts days -----

  lemma {:induction false} YearsInClosedForm(year: nat)
    ensures DaysBeforeYear(year) == 365 * year + (year + 3) / 4 - (year + 99) / 100 + (year + 399) / 400
  {
    if year != 0 {
      YearsInClosedForm(year - 1);
      LeapStep(year - 1);
    }
  }

  /** The leap-year count moves by one exactly after a leap year. */
  lemma LeapStep(year: nat)
    ensures (year + 4) / 4 - (year + 100) / 100 + (year + 400) / 400
         == (year + 3) / 4 - (year + 99) / 100 + (year + 399) / 400 + (if Leap(year) then 1 else 0)
  {
    assert (year + 4) / 4 == (year + 3) / 4 + (if year % 4 == 0 then 1 else 0);
    assert (year + 100) / 100 == (year + 99) / 100 + (if year % 100 == 0 then 1 else 0);
    assert (year + 400) / 400 == (year + 399) / 400 + (if year % 400 == 0 then 1 else 0);
    assert year % 400 == 0 ==> year % 100 == 0;
    assert year % 100 == 0 ==> year % 4 == 0;
  }

  lemma EraIsLinear(adjusted: int)
    ensures var era := adjusted / 400;
            var yoe := adjusted - era * 400;
            era * ERA_DAYS + yoe * 365 + yoe / 4 - yoe / 100 == 365 * adjusted + adjusted / 4 - adjusted / 100 + adjusted / 400
  {
    var era := adjusted / 400;
    var yoe := adjusted - era * 400;
    assert adjusted / 4 == 100 * era + yoe / 4;
    assert adjusted / 100 == 4 * era + yoe / 100;
  }

  lemma MonthsInClosedForm(year: int, month: int)
    requires 1 <= month <= 12
    ensures DaysBeforeMonth(year, month) ==
            if month <= 2 then 31 * (month - 1)
            else (153 * (month - 3) + 2) / 5 + 59 + (if Leap(year) then 1 else 0)
  {
    if month > 1 {
      MonthsInClosedForm(year, month - 1);
    }
  }

  lemma ClosedFormula(date: Date)
    ensures var adjusted := date.year - (if date.month <= 2 then 1 else 0);
            var shifted := date.month + (if date.month > 2 then -3 else 9);
            DaysFromCivil(date) == 365 * adjusted + adjusted / 4 - adjusted / 100 + adjusted / 400
                                   + (153 * shifted + 2) / 5 + date.day - 1 - EPOCH_SHIFT
  {
    EraIsLinear(date.year - (if date.month <= 2 then 1 else 0));
  }

  lemma RoundedUp(year: nat)
    ensures (year + 3) / 4 == (year - 1) / 4 + 1 && (year + 99) / 100 == (year - 1) / 100 + 1
         && (year + 399) / 400 == (year - 1) / 400 + 1
  {
  }

  /** The formula is the number of days counted from the calendar's rules. */
  lemma FormulaCountsDays(date: Date)
    requires Valid(date) && 0 <= date.year
    ensures DaysFromCivil(date) == CountedDays(date) - EPOCH_FROM_ZERO
  {
    hide DaysFromCivil; hide Leap; hide DaysInMonth;
    YearsInClosedForm(date.year);
    MonthsInClosedForm(date.year, date.month);
    ClosedFormula(date);
    if date.month <= 2 {
      RoundedUp(date.year);
      assert (153 * (date.month + 9) + 2) / 5 == 306 + 31 * (date.month - 1);
    } else {
      LeapStep(date.year);
      RoundedUp(date.year + 1);
    }
  }

  // ----- the formulas are inverse -----

  /** A year of an era: `century`, four-year cycle and year within it. The leap day ends the
      March-based year before a leap year. */
  predicate InEra(century: int, cycle: int, rest: int, doy: int) {
    && 0 <= century < 4 && 0 <= cycle < 25 && 0 <= rest < 4
    && 0 <= doy <= 364 + (if rest == 3 && (cycle != 24 || century == 3) then 1 else 0)
  }

  lemma YearOfEraFinds(century: int, cycle: int, rest: int, doy: int)
    requires InEra(century, cycle, rest, doy)
    ensures var doe := 36524 * century + 1461 * cycle + 365 * rest + doy;
            0 <= doe < ERA_DAYS && YearOfEra(doe) == 100 * century + 4 * cycle + rest
  {
    var doe := 36524 * century + 1461 * cycle + 365 * rest + doy;
    var yoe := 100 * century + 4 * cycle + rest;
    assert doe / 36524 - doe / 146096 == century by {
      if doe == 146096 {
        assert doe / 36524 == 4 && doe / 146096 == 1 && century == 3;
      } else {
        assert 36524 * century <= doe < 36524 * (century + 1);
        assert doe / 146096 == 0;
      }
    }
    var spare := 24 * century + cycle + 365 * rest + doy;
    var carry := if spare >= 1460 then 1 else 0;
    assert doe == 1460 * (25 * century + cycle) + spare && 0 <= spare < 2920;
    assert doe / 1460 == 25 * century + cycle + carry;
    assert doe - doe / 1460 + century == 365 * yoe + (doy - carry);
    assert 0 <= doy - carry <= 364;
  }

  lemma EraDecomposes(doe: int) returns (century: int, cycle: int, rest: int, doy: int)
    requires 0 <= doe < ERA_DAYS
    ensures InEra(century, cycle, rest, doy) && doe == 36524 * century + 1461 * cycle + 365 * rest + doy
  {
    century := if doe == 146096 then 3 else doe / 36524;
    var inCentury := doe - 36524 * century;
    cycle := if inCentury == 36524 then 24 else inCentury / 1461;
    var inCycle := inCentury - 1461 * cycle;
    rest := if inCycle == 1460 then 3 else inCycle / 365;
    doy := inCycle - 365 * rest;
  }

  /** March-based months: `mp` months of 153-day quintets begin on day (153 mp + 2) / 5. */
  lemma MonthFinds(mp: int, day: int)
    requires 0 <= mp < 12 && 1 <= day <= (if mp == 11 then 29 else if mp in {1, 3, 6, 8} then 30 else 31)
    ensures var doy := (153 * mp + 2) / 5 + day - 1; (5 * doy + 2) / 153 == mp
  {
    var doy := (153 * mp + 2) / 5 + day - 1;
    assert 153 * mp <= 5 * doy + 2 < 153 * (mp + 1);
  }

  lemma YearOfEraParts(yoe: int)
    requires 0 <= yoe < 400
    ensures var century, cycle, rest := yoe / 100, yoe % 100 / 4, yoe % 4;
            && 0 <= century < 4 && 0 <= cycle < 25 && 0 <= rest < 4
            && yoe == 100 * century + 4 * cycle + rest
            && 365 * yoe + yoe / 4 - yoe / 100 == 36524 * century + 1461 * cycle + 365 * rest
  {
    var century, within := yoe / 100, yoe % 100;
    assert yoe % 4 == within % 4 && yoe / 4 == 25 * century + within / 4;
  }

  /** Day `doy` of March-based year `yoe`, as a day of its era. */
  lemma DayOfEra(yoe: int, doy: int) returns (doe: int)
    requires 0 <= yoe < 400
    requires 0 <= doy <= 364 + (if yoe % 4 == 3 && (yoe % 100 / 4 != 24 || yoe / 100 == 3) then 1 else 0)
    ensures doe == 365 * yoe + yoe / 4 - yoe / 100 + doy && 0 <= doe < ERA_DAYS && YearOfEra(doe) == yoe
  {
    YearOfEraParts(yoe);
    YearOfEraFinds(yoe / 100, yoe % 100 / 4, yoe % 4, doy);
    doe := 365 * yoe + yoe / 4 - yoe / 100 + doy;
  }

  lemma EraOfDay(era: int, doe: int)
    requires 0 <= doe < ERA_DAYS
    ensures (era * ERA_DAYS + doe) / ERA_DAYS == era
  {
  }

  lemma CivilOfEraFinds(era: int, yoe: int, mp: int, doe: int, date: Date)
    requires 0 <= mp < 12 && mp == date.month + (if date.month > 2 then -3 else 9)
    requires 1 <= date.month <= 12 && date.year == yoe + era * 400 + (if date.month <= 2 then 1 else 0)
    requires var doy := (153 * mp + 2) / 5 + date.day - 1;
             doe == 365 * yoe + yoe / 4 - yoe / 100 + doy && (5 * doy + 2) / 153 == mp
    requires YearOfEra(doe) == yoe
    ensures CivilOfEra(era, doe) == date
  {
    hide YearOfEra;
  }

  lemma CivilOfNormalized(era: int, doe: int)
    requires 0 <= doe < ERA_DAYS
    ensures CivilFromDays(era * ERA_DAYS + doe - EPOCH_SHIFT) == CivilOfEra(era, doe)
  {
    hide CivilOfEra;
    EraOfDay(era, doe);
  }

  /** Day numbers turn back into the date they were computed from. */
  lemma CivilOfDays(date: Date)
    requires Valid(date)
    ensures CivilFromDays(DaysFromCivil(date)) == date
  {
    hide YearOfEra; hide CivilOfEra; hide CivilFromDays;
    var adjusted := date.year - (if date.month <= 2 then 1 else 0);
    var era := adjusted / 400;
    var yoe := adjusted - era * 400;
    var mp := date.month + (if date.month > 2 then -3 else 9);
    var doy := (153 * mp + 2) / 5 + date.day - 1;
    LeapDayEndsYear(era, yoe);
    MonthFinds(mp, date.day);
    DayFits(date, mp);
    hide Leap; hide Valid;
    var doe := DayOfEra(yoe, doy);
    CivilOfNormalized(era, doe);
    CivilOfEraFinds(era, yoe, mp, doe, date);
  }

  lemma DayFits(date: Date, mp: int)
    requires Valid(date) && mp == date.month + (if date.month > 2 then -3 else 9)
    ensures var doy := (153 * mp + 2) / 5 + date.day - 1;
            0 <= doy <= 365 && (doy == 365 ==> date.month == 2 && Leap(date.year))
  {
  }

  lemma LeapDayEndsYear(era: int, yoe: int)
    requires 0 <= yoe < 400
    ensures Leap(era * 400 + yoe + 1) <==> yoe % 4 == 3 && (yoe % 100 / 4 != 24 || yoe / 100 == 3)
  {
    LeapIsPeriodic(era, yoe + 1);
    CenturyEnds(yoe);
  }

  lemma LeapIsPeriodic(era: int, year: int)
    ensures Leap(era * 400 + year) == Leap(year)
  {
    assert (era * 400 + year) % 400 == year % 400;
    assert (era * 400 + year) % 100 == year % 100 by { assert era * 400 + year == 100 * (4 * era) + year; }
    assert (era * 400 + year) % 4 == year % 4 by { assert era * 400 + year == 4 * (100 * era) + year; }
  }

  lemma CenturyEnds(yoe: int)
    requires 0 <= yoe < 400
    ensures (yoe + 1) % 4 == 0 <==> yoe % 4 == 3
    ensures yoe % 4 == 3 ==> ((yoe + 1) % 100 == 0 <==> yoe % 100 / 4 == 24)
    ensures yoe % 4 == 3 && yoe % 100 / 4 == 24 ==> ((yoe + 1) % 400 == 0 <==> yoe / 100 == 3)
  {
    YearOfEraParts(yoe);
  }

  /** Every day number is the day number of one valid date. */
  lemma DaysOfCivil(sinceEpoch: int)
    ensures Valid(CivilFromDays(sinceEpoch)) && DaysFromCivil(CivilFromDays(sinceEpoch)) == sinceEpoch
  {
    var days := sinceEpoch + EPOCH_SHIFT;
    var era := days / ERA_DAYS;
    var yoe, doy := YearAndDay(days - era * ERA_DAYS);
    LeapDayEndsYear(era, yoe);
    var date := DateOfYear(era, yoe, doy);
    assert DaysFromCivil(date) == sinceEpoch by {
      assert era * ERA_DAYS + 365 * yoe + yoe / 4 - yoe / 100 + doy == days;
    }
    hide DaysFromCivil; hide CivilFromDays;
    CivilOfDays(date);
  }

  lemma YearAndDay(doe: int) returns (yoe: int, doy: int)
    requires 0 <= doe < ERA_DAYS
    ensures 0 <= yoe < 400 && doe == 365 * yoe + yoe / 4 - yoe / 100 + doy
    ensures 0 <= doy <= 364 + (if yoe % 4 == 3 && (yoe % 100 / 4 != 24 || yoe / 100 == 3) then 1 else 0)
  {
    var century, cycle, rest, within := EraDecomposes(doe);
    yoe, doy := 100 * century + 4 * cycle + rest, within;
    YearOfEraParts(yoe);
  }

  lemma DateOfYear(era: int, yoe: int, doy: int) returns (date: Date)
    requires 0 <= yoe < 400 && 0 <= doy <= 364 + (if Leap(era * 400 + yoe + 1) then 1 else 0)
    ensures Valid(date)
    ensures DaysFromCivil(date) == era * ERA_DAYS + 365 * yoe + yoe / 4 - yoe / 100 + doy - EPOCH_SHIFT
  {
    var mp := (5 * doy + 2) / 153;
    var month := mp + (if mp < 10 then 3 else -9);
    date := Date(yoe + era * 400 + (if month <= 2 then 1 else 0), month, doy - (153 * mp + 2) / 5 + 1);
    var adjusted := date.year - (if month <= 2 then 1 else 0);
    assert adjusted == era * 400 + yoe && adjusted / 400 == era;
  }

  // ----- later dates have larger day numbers -----

  predicate Earlier(a: Date, b: Date) {
    || a.year < b.year
    || (a.year == b.year && a.month < b.month)
    || (a.year == b.year && a.month == b.month && a.day < b.day)
  }

  lemma MonthsFillTheYear(date: Date)
    requires Valid(date)
    ensures 0 <= DaysBeforeMonth(date.year, date.month) + date.day - 1 < (if Leap(date.year) then 366 else 365)
  {
    MonthsInClosedForm(date.year, date.month);
  }

  lemma {:induction false} YearsAddUp(year: nat, later: nat)
    requires year < later
    ensures DaysBeforeYear(year) + (if Leap(year) then 366 else 365) <= DaysBeforeYear(later)
  {
    if year + 1 < later {
      YearsAddUp(year, later - 1);
    }
  }

  lemma {:induction false} MonthsAddUp(year: int, month: int, later: int)
    requires 1 <= month < later <= 12
    ensures DaysBeforeMonth(year, month) + DaysInMonth(year, month) <= DaysBeforeMonth(year, later)
    decreases later
  {
    if month + 1 < later {
      MonthsAddUp(year, month, later - 1);
    }
  }

  lemma EarlierCountsLess(a: Date, b: Date)
    requires Valid(a) && Valid(b) && 0 <= a.year && 0 <= b.year && Earlier(a, b)
    ensures DaysFromCivil(a) < DaysFromCivil(b)
  {
    FormulaCountsDays(a);
    FormulaCountsDays(b);
    MonthsFillTheYear(a);
    MonthsFillTheYear(b);
    if a.year < b.year {
      YearsAddUp(a.year, b.year);
    } else if a.month < b.month {
      MonthsAddUp(a.year, a.month, b.month);
    }
  }
}
