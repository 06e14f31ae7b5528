/** The day-number functions of `src/cdp/cookies.rs` against the Gregorian calendar. */
module Calendar {
  import opened Numbers

  datatype Date = Date(year: int, month: int, day: int)

  // ---- the calendar

  predicate IsLeap(y: int) { y % 4 == 0 && (y % 100 != 0 || y % 400 == 0) }

  function DaysInMonth(y: int, m: int): int {
    if m == 2 then (if IsLeap(y) then 29 else 28)
    else if m == 4 || m == 6 || m == 9 || m == 11 then 30
    else 31
  }

  predicate ValidDate(t: Date) { 1 <= t.month <= 12 && 1 <= t.day <= DaysInMonth(t.year, t.month) }

  function NextDay(t: Date): Date {
    if t.day < DaysInMonth(t.year, t.month) then t.(day := t.day + 1)
    else if t.month < 12 then Date(t.year, t.month + 1, 1)
    else Date(t.year + 1, 1, 1)
  }

  predicate Before(s: Date, t: Date) {
    s.year < t.year || (s.year == t.year && (s.month < t.month || (s.month == t.month && s.day < t.day)))
  }

  // ---- the code

  const I32_MAX := 0x7FFF_FFFF

  /** `as i32`. */
  function AsI32(x: int): int { (x + 0x8000_0000) % 0x1_0000_0000 - 0x8000_0000 }

  /** Division that truncates toward zero. */
  function Div(a: int, b: int): int
    requires b > 0
  {
    if a >= 0 then a / b else -((-a) / b)
  }

  function Era(days: nat): int { (days + 719468) / 146097 }

  function DayOfEra(days: nat): int { days + 719468 - Era(days) * 146097 }

  function YearOfEra(doe: int): int { (doe - doe / 1460 + doe / 36524 - doe / 146096) / 365 }

  function DayOfYear(doe: int): int {
    var yoe := YearOfEra(doe);
    doe - (365 * yoe + yoe / 4 - yoe / 100)
  }

  function MonthPart(doy: int): int { (5 * doy + 2) / 153 }

  /** The date, with the year before it is narrowed. */
  function WideDate(days: nat): Date {
    var y, doy := YearOfEra(DayOfEra(days)) + Era(days) * 400, DayOfYear(DayOfEra(days));
    var mp := MonthPart(doy);
    var d := doy - (153 * mp + 2) / 5 + 1;
    var m := if mp < 10 then mp + 3 else mp - 9;
    Date(if m <= 2 then y + 1 else y, m, d)
  }

  /** `days_to_ymd`. */
  function DaysToYmd(days: nat): Date { WideDate(days).(year := AsI32(WideDate(days).year)) }

  /** The days that `ymd_hms_to_timestamp` counts. */
  function DaysOf(t: Date): int {
    var y := if t.month <= 2 then t.year - 1 else t.year;
    var m := if t.month <= 2 then t.month + 12 else t.month;
    t.day - 32045 + Div(1461 * (y + 4800 + Div(m - 14, 12)), 4) + Div(367 * (m - 2 - 12 * Div(m - 14, 12)), 12)
    - Div(3 * Div(y + 4900 + Div(m - 14, 12), 100), 4) - 2440588
  }

  type Small = n: nat | n <= 0xFFFF_FFFF

  function TimeOfDay(hour: Small, min: Small, sec: Small): nat { hour * 3600 + min * 60 + sec }

  function Seconds(t: Date, hour: Small, min: Small, sec: Small): int {
    DaysOf(t) * 86400 + TimeOfDay(hour, min, sec)
  }

  /** `ymd_hms_to_timestamp`. */
  function Timestamp(t: Date, hour: Small, min: Small, sec: Small): int { AsF64(Seconds(t, hour, min, sec)) }

  // ---- a day number taken apart: eras of 400 years, centuries, four-year cycles, years that begin in March

  datatype Place = Place(era: int, century: int, cycle: int, year: int, day: int)

  predicate Fits(p: Place) {
    && 0 <= p.century <= 3 && 0 <= p.cycle <= 24 && 0 <= p.year <= 3
    && 0 <= p.day <= (if EndsInLeapDay(p) then 365 else 364)
  }

  predicate EndsInLeapDay(p: Place) { p.year == 3 && (p.cycle != 24 || p.century == 3) }

  function InEra(p: Place): int { 36524 * p.century + 1461 * p.cycle + 365 * p.year + p.day }

  function DayNumber(p: Place): int { 146097 * p.era + InEra(p) }

  function MarchYear(p: Place): int { 400 * p.era + 100 * p.century + 4 * p.cycle + p.year }

  lemma TakeApart(era: int, doe: int) returns (p: Place)
    requires 0 <= doe < 146097
    ensures Fits(p) && p.era == era && doe == InEra(p)
  {
    var c := if doe / 36524 > 3 then 3 else doe / 36524;
    var inCentury := doe - 36524 * c;
    var q := if inCentury / 1461 > 24 then 24 else inCentury / 1461;
    var inCycle := inCentury - 1461 * q;
    var r := if inCycle / 365 > 3 then 3 else inCycle / 365;
    p := Place(era, c, q, r, inCycle - 365 * r);
  }

  lemma TimesKeepsOrder(a: int, b: int, d: int)
    requires d > 0
    ensures a <= b ==> a * d <= b * d
  {
  }

  lemma Quotient(x: int, d: int, q: int)
    requires d > 0 && q * d <= x < q * d + d
    ensures x / d == q
  {
    var k := x / d;
    assert k * d <= x < (k + 1) * d;
    TimesKeepsOrder(k + 1, q, d);
    TimesKeepsOrder(q + 1, k, d);
  }

  lemma CenturyQuotients(doe: int, p: Place)
    requires Fits(p) && doe == InEra(p)
    ensures doe / 36524 - doe / 146096 == p.century
  {
    var last := if doe == 146096 then 1 else 0;
    Quotient(doe, 36524, p.century + last);
    Quotient(doe, 146096, last);
  }

  /** Dividing by four years of 365 days is right, or one too many late in a cycle. */
  lemma CycleQuotient(doe: int, p: Place)
    requires Fits(p) && doe == InEra(p)
    ensures var extra := 24 * p.century + p.cycle + 365 * p.year + p.day;
            doe / 1460 == 25 * p.century + p.cycle + if extra < 1460 then 0 else 1
  {
    var extra := 24 * p.century + p.cycle + 365 * p.year + p.day;
    Quotient(doe, 1460, 25 * p.century + p.cycle + if extra < 1460 then 0 else 1);
  }

  /** The formulas for the year and the day of the year find the place again. */
  lemma YearIsFound(p: Place)
    requires Fits(p)
    ensures YearOfEra(InEra(p)) == 100 * p.century + 4 * p.cycle + p.year
    ensures DayOfYear(InEra(p)) == p.day
  {
    var doe, y := InEra(p), 100 * p.century + 4 * p.cycle + p.year;
    CenturyQuotients(doe, p);
    CycleQuotient(doe, p);
    Quotient(doe - doe / 1460 + (doe / 36524 - doe / 146096), 365, y);
    Quotient(y, 4, 25 * p.century + p.cycle);
    Quotient(y, 100, p.century);
  }

  lemma DigitsAreUnique(a: int, x: int, b: int, y: int, d: int)
    requires 0 <= x < d && 0 <= y < d && a * d + x == b * d + y
    ensures a == b && x == y
  {
    TimesKeepsOrder(a + 1, b, d);
    TimesKeepsOrder(b + 1, a, d);
  }

  lemma EraBounds(p: Place)
    requires Fits(p)
    ensures 0 <= InEra(p) < 146097
  {
  }

  lemma PlacesAreUnique(p: Place, o: Place)
    requires Fits(p) && Fits(o) && DayNumber(p) == DayNumber(o)
    ensures p == o
  {
    EraBounds(p);
    EraBounds(o);
    DigitsAreUnique(p.era, InEra(p), o.era, InEra(o), 146097);
    YearIsFound(p);
    YearIsFound(o);
    DigitsAreUnique(p.century, 4 * p.cycle + p.year, o.century, 4 * o.cycle + o.year, 100);
    DigitsAreUnique(p.cycle, p.year, o.cycle, o.year, 4);
  }

  /** Where the months begin, in a year that begins in March. */
  function MonthStart(mp: int): int {
    if mp <= 0 then 0 else if mp == 1 then 31 else if mp == 2 then 61 else if mp == 3 then 92
    else if mp == 4 then 122 else if mp == 5 then 153 else if mp == 6 then 184 else if mp == 7 then 214
    else if mp == 8 then 245 else if mp == 9 then 275 else if mp == 10 then 306 else if mp == 11 then 337 else 366
  }

  lemma MonthFormula(mp: int)
    requires 0 <= mp <= 11
    ensures (153 * mp + 2) / 5 == MonthStart(mp)
    ensures 367 * (mp + 1) / 12 == MonthStart(mp) + 30
  {
  }

  lemma MonthIsFound(doy: int)
    requires 0 <= doy <= 365
    ensures 0 <= MonthPart(doy) <= 11
    ensures MonthStart(MonthPart(doy)) <= doy < MonthStart(MonthPart(doy) + 1)
  {
  }

  /** The date of day `day` of month `mp`, counted from March of year `y`. */
  function DateFrom(y: int, mp: int, day: int): Date {
    Date(if mp < 10 then y else y + 1, if mp < 10 then mp + 3 else mp - 9, day - MonthStart(mp) + 1)
  }

  function DateAt(p: Place): Date { DateFrom(MarchYear(p), MonthPart(p.day), p.day) }

  lemma WideDateAt(days: nat) returns (p: Place)
    ensures p.era >= 0 && Fits(p) && days + 719468 == DayNumber(p)
    ensures WideDate(days) == DateAt(p)
  {
    p := TakeApart(Era(days), DayOfEra(days));
    YearIsFound(p);
    MonthIsFound(p.day);
    MonthFormula(MonthPart(p.day));
  }

  lemma Remainder(x: int, d: int, q: int, r: int)
    requires d > 0 && x == q * d + r && 0 <= r < d
    ensures x % d == r
  {
    Quotient(x, d, q);
  }

  /** The leap day of a March year is the 29th of February of the calendar year after it. */
  lemma LeapYears(p: Place)
    requires Fits(p)
    ensures IsLeap(MarchYear(p) + 1) <==> EndsInLeapDay(p)
  {
    var y := MarchYear(p) + 1;
    var inCentury := 4 * p.cycle + p.year + 1;
    if p.year == 3 {
      Remainder(y, 4, 100 * p.era + 25 * p.century + p.cycle + 1, 0);
      if p.cycle == 24 {
        Remainder(y, 100, 4 * p.era + p.century + 1, 0);
        if p.century == 3 {
          Remainder(y, 400, p.era + 1, 0);
        } else {
          Remainder(y, 400, p.era, 100 * p.century + 100);
        }
      } else {
        Remainder(y, 100, 4 * p.era + p.century, inCentury);
      }
    } else {
      Remainder(y, 4, 100 * p.era + 25 * p.century + p.cycle, p.year + 1);
    }
  }

  /** How long month `mp` of a March year is; February takes what the year leaves it. */
  lemma MonthLengths(y: int, mp: int)
    requires 0 <= mp <= 11
    ensures var t := DateFrom(y, mp, MonthStart(mp));
            DaysInMonth(t.year, t.month)
            == if mp < 11 then MonthStart(mp + 1) - MonthStart(mp) else if IsLeap(y + 1) then 29 else 28
  {
  }

  lemma DateAtIsValid(p: Place)
    requires Fits(p)
    ensures ValidDate(DateAt(p))
  {
    MonthIsFound(p.day);
    LeapYears(p);
    MonthLengths(MarchYear(p), MonthPart(p.day));
  }

  /** The place of the day after. */
  function NextPlace(p: Place): Place {
    if p.day < (if EndsInLeapDay(p) then 365 else 364) then p.(day := p.day + 1)
    else if p.year < 3 then p.(year := p.year + 1, day := 0)
    else if p.cycle < 24 then p.(cycle := p.cycle + 1, year := 0, day := 0)
    else if p.century < 3 then p.(century := p.century + 1, cycle := 0, year := 0, day := 0)
    else Place(p.era + 1, 0, 0, 0, 0)
  }

  lemma NextPlaceFollows(p: Place)
    requires Fits(p)
    ensures Fits(NextPlace(p)) && DayNumber(NextPlace(p)) == DayNumber(p) + 1
    ensures NextPlace(p).day == 0 ==> MarchYear(NextPlace(p)) == MarchYear(p) + 1
    ensures NextPlace(p).day != 0 ==> NextPlace(p).day == p.day + 1 && MarchYear(NextPlace(p)) == MarchYear(p)
  {
  }

  lemma NextInMonths(y: int, mp: int, day: int)
    requires 0 <= mp <= 11 && MonthStart(mp) <= day < MonthStart(mp + 1)
    requires day < (if IsLeap(y + 1) then 366 else 365)
    ensures day + 1 < MonthStart(mp + 1) && day + 1 < (if IsLeap(y + 1) then 366 else 365) ==>
              NextDay(DateFrom(y, mp, day)) == DateFrom(y, mp, day + 1)
    ensures day + 1 == MonthStart(mp + 1) && mp < 11 ==> NextDay(DateFrom(y, mp, day)) == DateFrom(y, mp + 1, day + 1)
    ensures day + 1 == (if IsLeap(y + 1) then 366 else 365) ==> NextDay(DateFrom(y, mp, day)) == DateFrom(y + 1, 0, 0)
  {
    MonthLengths(y, mp);
  }

  lemma MonthsAreApart(doy: int, mp: int)
    requires 0 <= doy <= 365 && 0 <= mp <= 11 && MonthStart(mp) <= doy < MonthStart(mp + 1)
    ensures MonthPart(doy) == mp
  {
    MonthIsFound(doy);
  }

  lemma NextPlaceIsNextDay(p: Place)
    requires Fits(p)
    ensures DateAt(NextPlace(p)) == NextDay(DateAt(p))
  {
    var y, mp := MarchYear(p), MonthPart(p.day);
    MonthIsFound(p.day);
    LeapYears(p);
    NextPlaceFollows(p);
    NextInMonths(y, mp, p.day);
    var next := NextPlace(p).day;
    if next == 0 {
      MonthsAreApart(0, 0);
    } else if next < MonthStart(mp + 1) {
      MonthsAreApart(next, mp);
    } else {
      MonthsAreApart(next, mp + 1);
    }
  }

  /** Every day count names a valid date, and the next count names the next day. */
  lemma DatesFollow(n: nat)
    ensures ValidDate(WideDate(n)) && WideDate(n + 1) == NextDay(WideDate(n))
  {
    hide WideDate, DateAt, NextDay, NextPlace, ValidDate, Fits, DayNumber;
    var p := WideDateAt(n);
    var o := WideDateAt(n + 1);
    DateAtIsValid(p);
    NextPlaceFollows(p);
    NextPlaceIsNextDay(p);
    PlacesAreUnique(o, NextPlace(p));
  }

  lemma FirstDate()
    ensures WideDate(0) == Date(1970, 1, 1)
  {
    hide WideDate;
    var p := Place(4, 3, 17, 1, 306);
    var o := WideDateAt(0);
    PlacesAreUnique(o, p);
    MonthsAreApart(306, 10);
  }

  lemma NextDayIsLater(t: Date)
    requires ValidDate(t)
    ensures Before(t, NextDay(t)) && t.year <= NextDay(t).year
  {
  }

  lemma BeforeTwice(a: Date, b: Date, c: Date)
    requires Before(a, b) && Before(b, c)
    ensures Before(a, c)
  {
  }

  lemma {:induction false} StepwiseOrdered(date: nat -> Date, n: nat, k: nat)
    requires n < k && forall i: nat :: Before(date(i), date(i + 1))
    ensures Before(date(n), date(k))
    decreases k
  {
    assert Before(date(k - 1), date(k - 1 + 1));
    if n < k - 1 {
      StepwiseOrdered(date, n, k - 1);
      BeforeTwice(date(n), date(k - 1), date(k));
    }
  }

  /** Dates come in calendar order, so no date comes twice. */
  lemma DatesAreOrdered(n: nat, k: nat)
    requires n < k
    ensures Before(WideDate(n), WideDate(k))
  {
    forall i: nat
      ensures Before(WideDate(i), WideDate(i + 1))
    {
      DatesFollow(i);
      NextDayIsLater(WideDate(i));
    }
    StepwiseOrdered(WideDate, n, k);
  }

  // ---- the way back

  /** The part of the count that depends on the year. */
  function YearDays(y: int): int { Div(1461 * (y + 4800), 4) - Div(3 * Div(y + 4900, 100), 4) }

  lemma NoYearShift(m: int)
    requires 3 <= m <= 14
    ensures Div(m - 14, 12) == 0
  {
  }

  lemma DaysByYear(t: Date)
    requires 1 <= t.month <= 12
    ensures var y := if t.month <= 2 then t.year - 1 else t.year;
            var m := if t.month <= 2 then t.month + 12 else t.month;
            DaysOf(t) == YearDays(y) + t.day - 32045 + Div(367 * (m - 2), 12) - 2440588
  {
    hide Div;
    NoYearShift(if t.month <= 2 then t.month + 12 else t.month);
  }

  /** The days that are counted for a date of a March year. */
  lemma DaysOfMarch(y: int, mp: int, day: int)
    requires 0 <= mp <= 11
    ensures DaysOf(DateFrom(y, mp, day)) == YearDays(y) + day + 31 - 32045 - 2440588
  {
    DaysByYear(DateFrom(y, mp, day));
    MonthFormula(mp);
  }

  lemma YearTerms(p: Place)
    requires Fits(p) && p.era >= 0
    ensures YearDays(MarchYear(p)) == DayNumber(p) - p.day + 146097 * 12
  {
    var y := MarchYear(p);
    Quotient(1461 * (y + 4800), 4, 146100 * (p.era + 12) + 36525 * p.century + 1461 * p.cycle + 365 * p.year);
    Quotient(y + 4900, 100, 4 * (p.era + 12) + p.century + 1);
    Quotient(3 * (4 * (p.era + 12) + p.century + 1), 4, 3 * (p.era + 12) + p.century);
  }

  lemma PlaceComesBackLate(p: Place)
    requires Fits(p) && p.era >= 0
    ensures DaysOf(DateAt(p)) == DayNumber(p) - 719468 + 30
  {
    MonthIsFound(p.day);
    DaysOfMarch(MarchYear(p), MonthPart(p.day), p.day);
    YearTerms(p);
  }

  /** The way back lands thirty days late, whatever the day. */
  lemma WayBackIsThirtyDaysLate(n: nat)
    ensures DaysOf(WideDate(n)) == n + 30
  {
    var p := WideDateAt(n);
    PlaceComesBackLate(p);
  }

  lemma YearsFrom1970(n: nat)
    ensures WideDate(n).year >= 1970
  {
    FirstDate();
    if n > 0 {
      DatesAreOrdered(0, n);
    }
  }

  lemma NarrowYear(y: int)
    requires 0 <= y <= I32_MAX
    ensures AsI32(y) == y
  {
  }

  /** As long as the year fits 32 bits, the way back is thirty days late. */
  lemma NarrowIsThirtyDaysLate(n: nat)
    requires WideDate(n).year <= I32_MAX
    ensures DaysOf(DaysToYmd(n)) == n + 30
  {
    YearsFrom1970(n);
    NarrowYear(WideDate(n).year);
    assert DaysToYmd(n) == WideDate(n);
    WayBackIsThirtyDaysLate(n);
  }

  // ---- years that do not fit 32 bits

  lemma DivIsClose(a: int, b: int)
    requires b > 0
    ensures b * Div(a, b) - b < a < b * Div(a, b) + b
  {
  }

  lemma YearDaysGrow(y: int, z: int)
    requires y + 1000 <= z
    ensures YearDays(y) < YearDays(z)
  {
    DivIsClose(1461 * (y + 4800), 4);
    DivIsClose(1461 * (z + 4800), 4);
    DivIsClose(3 * Div(y + 4900, 100), 4);
    DivIsClose(3 * Div(z + 4900, 100), 4);
    DivIsClose(y + 4900, 100);
    DivIsClose(z + 4900, 100);
  }

  lemma WrappedYearIsFarOff(y: int)
    requires y > I32_MAX
    ensures AsI32(y) + 1000 <= y - 1
  {
  }

  lemma WrapLosesDays(wide: Date, narrow: Date)
    requires 1 <= wide.month <= 12 && narrow.month == wide.month && narrow.day == wide.day
    requires narrow.year + 1000 <= wide.year - 1
    ensures DaysOf(narrow) < DaysOf(wide)
  {
    hide DaysOf, YearDays;
    DaysByYear(wide);
    DaysByYear(narrow);
    if wide.month <= 2 {
      YearDaysGrow(narrow.year - 1, wide.year - 1);
    } else {
      YearDaysGrow(narrow.year, wide.year);
    }
  }

  lemma NarrowDaysAreFew(t: Date)
    requires 1 <= t.month <= 12 && 1 <= t.day <= 31 && -I32_MAX - 1 <= t.year <= I32_MAX
    ensures -800_000_000_000 <= DaysOf(t) <= 800_000_000_000
  {
    hide DaysOf, Div;
    var y := if t.month <= 2 then t.year - 1 else t.year;
    var m := if t.month <= 2 then t.month + 12 else t.month;
    DaysByYear(t);
    DivIsClose(1461 * (y + 4800), 4);
    DivIsClose(3 * Div(y + 4900, 100), 4);
    DivIsClose(y + 4900, 100);
    DivIsClose(367 * (m - 2), 12);
  }

  // ---- the round trip

  /** The last day of the last year that fits 32 bits. */
  const LAST_DAY := 784_351_576_776

  lemma LastDate()
    ensures WideDate(LAST_DAY) == Date(I32_MAX, 12, 31)
  {
    hide WideDate;
    var p := Place(5_368_709, 0, 11, 3, 305);
    var o := WideDateAt(LAST_DAY);
    PlacesAreUnique(o, p);
    MonthsAreApart(305, 9);
  }

  lemma YearFitsIff(n: nat)
    ensures WideDate(n).year <= I32_MAX <==> n <= LAST_DAY
  {
    hide WideDate;
    LastDate();
    DatesFollow(n);
    if n < LAST_DAY {
      DatesAreOrdered(n, LAST_DAY);
    } else if LAST_DAY < n {
      DatesAreOrdered(LAST_DAY, n);
    }
  }

  /** Past the last day the result is less than it should be by more than rounding can make up for. */
  lemma WrappedIsEarly(n: nat, hour: Small, min: Small, sec: Small)
    requires n > LAST_DAY
    ensures Timestamp(DaysToYmd(n), hour, min, sec) < (n + 30) * 86400 + TimeOfDay(hour, min, sec)
  {
    hide DaysOf, WideDate, AsF64, Gap;
    var wide, narrow := WideDate(n), DaysToYmd(n);
    YearFitsIff(n);
    DatesFollow(n);
    WayBackIsThirtyDaysLate(n);
    WrappedYearIsFarOff(wide.year);
    WrapLosesDays(wide, narrow);
    NarrowDaysAreFew(narrow);
    NearestFloat(Seconds(narrow, hour, min, sec));
    SmallGap(Abs(Seconds(narrow, hour, min, sec)));
  }

  /** The time stamp of a day is off by exactly thirty days and keeps the time if and only if the year fits 32 bits and
    * the seconds fit a float. */
  lemma RoundTripIff(n: nat, hour: Small, min: Small, sec: Small)
    ensures var exact := (n + 30) * 86400 + TimeOfDay(hour, min, sec);
            Timestamp(DaysToYmd(n), hour, min, sec) == exact <==> n <= LAST_DAY && HasDouble(exact)
  {
    hide DaysOf, WideDate, AsF64, Gap;
    YearFitsIff(n);
    if n <= LAST_DAY {
      NarrowIsThirtyDaysLate(n);
      NearestFloat((n + 30) * 86400 + TimeOfDay(hour, min, sec));
    } else {
      WrappedIsEarly(n, hour, min, sec);
    }
  }

  /** An odd second past 2 to the power of 53 is lost, though the year is small enough. */
  lemma OddSecondIsLost()
    ensures 200_000_000_000 <= LAST_DAY
    ensures Timestamp(DaysToYmd(200_000_000_000), 0, 0, 1) != 200_000_000_030 * 86400 + 1
  {
    hide Timestamp, DaysToYmd;
    RoundTripIff(200_000_000_000, 0, 0, 1);
    assert TimeOfDay(0, 0, 1) == 1;
    assert Gap(200_000_000_030 * 86400 + 1) == 2;
  }
}
