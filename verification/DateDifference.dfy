/** Adding a duration to a date and the greedy difference between two dates. */
module DateDifference {
  import opened Wrappers
  import opened IsoDates

  datatype Overflow = Constrain | Reject
  datatype Unit = Year | Month | Week | Day

  function Clamp(x: int, lo: int, hi: int): int {
    if x < lo then lo else if x > hi then hi else x
  }

  predicate InRange(d: IsoDate) {
    MIN_EPOCH_DAYS - 1 <= ToDays(d) <= MAX_EPOCH_DAYS + 1
  }

  /** `regulate_iso_date`. */
  function Regulate(year: int, month: int, day: int, overflow: Overflow): Option<IsoDate> {
    match overflow
    case Constrain =>
      var m := Clamp(month, 1, 12);
      Some(IsoDate(year, m, Clamp(day, 1, DaysInMonth(year, m))))
    case Reject =>
      if !(1 <= month <= 12) || day < 1 || day > DaysInMonth(year, month) then None
      else Some(IsoDate(year, month, day))
  }

  /** `balance_iso_year_month`. */
  function Balance(year: int, month: int): (int, int) {
    (AsI32(year + (month - 1) / 12), (month - 1) % 12 + 1)
  }

  /** `add_iso_date`. */
  function AddDate(date: IsoDate, years: int, months: int, weeks: int, days: int, overflow: Overflow): Option<IsoDate> {
    var (y, m) := Balance(date.year + years, date.month + months);
    match Regulate(y, m, date.day, overflow)
    case None => None
    case Some(mid) =>
      var result := FromDays(ToDays(mid) + days + weeks * 7);
      if InRange(result) then Some(result) else None
  }

  /** `iso_date_surpasses`: the unregulated (year, month, day) lies beyond `to`. */
  predicate Surpasses(sign: int, year: int, month: int, day: int, to: IsoDate) {
    var d := if year != to.year then year - to.year else if month != to.month then month - to.month else day - to.day;
    sign * d > 0
  }

  predicate YearsSurpass(sign: int, from: IsoDate, to: IsoDate, n: int) {
    Surpasses(sign, from.year + n, from.month, from.day, to)
  }

  predicate MonthsSurpass(sign: int, from: IsoDate, to: IsoDate, years: int, n: int) {
    var (y, m) := Balance(from.year + years, from.month + n);
    Surpasses(sign, y, m, from.day, to)
  }

  // ---- The search

  /** `k` steps in the direction of `sign`. */
  function Toward(sign: int, k: int): int { if sign == 1 then k else -k }

  /** The last count, in the direction of `sign`, that does not surpass: found by moving
      from an estimate. It terminates when some count up to `bound` does surpass. */
  method Most(sign: int, estimate: int, surpasses: int -> bool, ghost bound: nat) returns (n: int)
    requires sign == 1 || sign == -1
    requires Toward(sign, estimate) <= bound
    requires !surpasses(0) && surpasses(Toward(sign, bound))
    requires forall k | 0 <= k < bound :: surpasses(Toward(sign, k)) ==> surpasses(Toward(sign, k + 1))
    ensures 0 <= Toward(sign, n) < bound
    ensures !surpasses(n) && surpasses(n + sign)
  {
    n := if Toward(sign, estimate) > 0 then estimate else 0;
    while n != 0 && surpasses(n)
      invariant 0 <= Toward(sign, n) <= bound
      decreases Toward(sign, n)
    {
      n := n - sign;
    }
    assert n == Toward(sign, Toward(sign, n));
    while !surpasses(n + sign)
      invariant 0 <= Toward(sign, n) < bound && !surpasses(n)
      decreases bound - Toward(sign, n)
    {
      n := n + sign;
      assert n == Toward(sign, Toward(sign, n));
    }
  }

  // ---- Month arithmetic

  function MonthIndex(year: int, month: int): int { 12 * year + month - 1 }

  /** Beyond in the direction of `sign`, by whole months first, then by the bare day. */
  lemma SurpassesByIndex(sign: int, year: int, month: int, day: int, to: IsoDate)
    requires (sign == 1 || sign == -1) && 1 <= month <= 12 && 1 <= to.month <= 12
    ensures var gap := MonthIndex(year, month) - MonthIndex(to.year, to.month);
      Surpasses(sign, year, month, day, to) <==> Toward(sign, gap) > 0 || (gap == 0 && Toward(sign, day - to.day) > 0)
  {
  }

  /** In-range dates have small years, so no cast wraps. */
  lemma SmallYear(d: IsoDate)
    requires IsDate(d) && InRange(d)
    ensures -280_000 <= d.year <= 280_000
  {
    NumberIsToDays(d);
    RealIffDate(d);
    var r := March(d);
    assert 0 <= EraYearStart(r.yoe) + MonthStart(r.mp) + r.day - 1 <= 146_097 + 366 + 31;
  }

  lemma BalanceIndex(year: int, month: int)
    requires -1_000_000 <= year <= 1_000_000 && -12_000_000 <= month <= 12_000_000
    ensures var (y, m) := Balance(year, month); 1 <= m <= 12 && MonthIndex(y, m) == MonthIndex(year, month) && IsI32(y)
  {
  }

  // ---- Days within and between months

  lemma SameMonth(year: int, month: int, a: int, b: int)
    ensures ToDays(IsoDate(year, month, b)) - ToDays(IsoDate(year, month, a)) == b - a
  {
  }

  /** The first of the next month comes a month's length after the first of this one. */
  lemma NextMonth(y: int, m: int, y': int, m': int)
    requires 1 <= m <= 12 && 1 <= m' <= 12 && IsI32(y) && MonthIndex(y', m') == MonthIndex(y, m) + 1
    ensures ToDays(IsoDate(y', m', 1)) - ToDays(IsoDate(y, m, 1)) == DaysInMonth(y, m)
  {
    var last := IsoDate(y, m, DaysInMonth(y, m));
    DaysCountCalendar(last);
    SameMonth(y, m, 1, DaysInMonth(y, m));
    assert NextDay(last) == IsoDate(y', m', 1);
  }

  // ---- The leftover days

  /** The date the whole years and months lead to, its day constrained to its month. */
  function Middle(from: IsoDate, y: int, m: int): IsoDate {
    IsoDate(y, m, Clamp(from.day, 1, DaysInMonth(y, m)))
  }

  /** When whole months stop short of `to` and one more would not, what is left is under a
      month's days, in the same direction. */
  lemma LeftoverDays(sign: int, from: IsoDate, to: IsoDate, y: int, m: int, y': int, m': int)
    requires sign == 1 || sign == -1
    requires IsDate(from) && IsDate(to) && 1 <= m <= 12 && 1 <= m' <= 12 && IsI32(y) && IsI32(y')
    requires MonthIndex(y', m') == MonthIndex(y, m) + sign
    requires !Surpasses(sign, y, m, from.day, to) && Surpasses(sign, y', m', from.day, to)
    ensures 0 <= Toward(sign, ToDays(to) - ToDays(Middle(from, y, m))) <= 30
  {
    hide ToDays, IsLeapYear, DaysInMonth, Surpasses;
    SurpassesByIndex(sign, y, m, from.day, to);
    SurpassesByIndex(sign, y', m', from.day, to);
    var mid := Middle(from, y, m);
    MonthLength(y, m);
    MonthLength(to.year, to.month);
    MonthLength(from.year, from.month);
    SameMonth(y, m, 1, mid.day);
    SameMonth(to.year, to.month, 1, to.day);
    if MonthIndex(to.year, to.month) == MonthIndex(y, m) {
      SameIndex(to.year, to.month, y, m);
    } else {
      SameIndex(to.year, to.month, y', m');
      if sign == 1 { NextMonth(y, m, y', m'); } else { NextMonth(y', m', y, m); }
    }
  }

  lemma SameIndex(y: int, m: int, y': int, m': int)
    requires 1 <= m <= 12 && 1 <= m' <= 12
    ensures MonthIndex(y, m) == MonthIndex(y', m') <==> y == y' && m == m'
  {
  }

  lemma MonthLength(y: int, m: int)
    requires 1 <= m <= 12
    ensures 28 <= DaysInMonth(y, m) <= 31
  {
  }

  /** Constraining an in-between date and adding the leftover days reaches `to`. */
  lemma AddReaches(from: IsoDate, to: IsoDate, years: int, months: int, weeks: int, days: int)
    requires IsDate(from) && IsDate(to) && InRange(to)
    requires var (y, m) := Balance(from.year + years, from.month + months);
      1 <= m <= 12 && days + weeks * 7 == ToDays(to) - ToDays(Middle(from, y, m))
    ensures AddDate(from, years, months, weeks, days, Constrain) == Some(to)
  {
    hide ToDays, FromDays, Balance, DaysInMonth, InRange;
    DateRoundTrip(to);
    var (y, m) := Balance(from.year + years, from.month + months);
    MonthLength(y, m);
    assert Regulate(y, m, from.day, Constrain) == Some(Middle(from, y, m));
  }

  // ---- The difference

  function Direction(from: IsoDate, to: IsoDate): int {
    if Before(from, to) then 1 else if Before(to, from) then -1 else 0
  }

  /** The fields share the direction of the two dates, and stay under the next larger unit. */
  predicate Balanced(sign: int, largest: Unit, years: int, months: int, weeks: int, days: int) {
    && (sign == 1 ==> years >= 0 && months >= 0 && weeks >= 0 && days >= 0)
    && (sign == -1 ==> years <= 0 && months <= 0 && weeks <= 0 && days <= 0)
    && (sign == 0 ==> years == months == weeks == days == 0)
    && (largest.Year? || years == 0)
    && (largest.Year? || largest.Month? || months == 0)
    && (largest.Week? || weeks == 0)
    && (largest.Year? ==> -11 <= months <= 11)
    && (largest.Week? ==> -6 <= days <= 6)
    && (largest.Year? || largest.Month? ==> -30 <= days <= 30)
  }

  /** No further whole year, and then no further whole month, fits. */
  predicate Greedy(from: IsoDate, to: IsoDate, largest: Unit, years: int, months: int) {
    var sign := Direction(from, to);
    && (sign != 0 && largest.Year? ==>
          !YearsSurpass(sign, from, to, years) && YearsSurpass(sign, from, to, years + sign))
    && (sign != 0 && (largest.Year? || largest.Month?) ==>
          !MonthsSurpass(sign, from, to, years, months) && MonthsSurpass(sign, from, to, years, months + sign))
  }

  /** `difference_iso_date`: greedy, of one sign, and undone by addition. */
  method Difference(from: IsoDate, to: IsoDate, largest: Unit) returns (years: int, months: int, weeks: int, days: int)
    requires IsDate(from) && IsDate(to) && InRange(from) && InRange(to)
    ensures AddDate(from, years, months, weeks, days, Constrain) == Some(to)
    ensures Balanced(Direction(from, to), largest, years, months, weeks, days)
    ensures Greedy(from, to, largest, years, months)
  {
    hide *;
    if largest == Day || largest == Week {
      days := ToDays(to) - ToDays(from);
      weeks := 0;
      DaysAndWeeks(from, to, largest);
      if largest == Week {
        weeks := TruncDiv(days, 7);
        days := TruncMod(days, 7);
      }
      return 0, 0, weeks, days;
    }
    var sign := Direction(from, to);
    DirectionIsSign(from, to);
    if sign == 0 {
      NothingBetween(from, to, largest);
      return 0, 0, 0, 0;
    }
    years := 0;
    if largest == Year {
      years := MostYears(sign, from, to);
    } else {
      NoYearSurpasses(sign, from, to);
    }
    months := MostMonths(sign, from, to, years);
    var (y, m) := Balance(from.year + years, from.month + months);
    var mid := Middle(from, y, m);
    weeks, days := 0, ToDays(to) - ToDays(mid);
    YearsAndMonths(from, to, largest, years, months);
  }

  lemma DirectionIsSign(from: IsoDate, to: IsoDate)
    ensures Direction(from, to) == 1 || Direction(from, to) == -1 || Direction(from, to) == 0
  {
  }

  lemma DaysAndWeeks(from: IsoDate, to: IsoDate, largest: Unit)
    requires IsDate(from) && IsDate(to) && InRange(from) && InRange(to) && (largest.Day? || largest.Week?)
    ensures var days := ToDays(to) - ToDays(from);
      var (w, d) := if largest.Week? then (TruncDiv(days, 7), TruncMod(days, 7)) else (0, days);
      && AddDate(from, 0, 0, w, d, Constrain) == Some(to)
      && Balanced(Direction(from, to), largest, 0, 0, w, d)
      && Greedy(from, to, largest, 0, 0)
  {
    hide ToDays, IsDate, InRange, DaysInMonth, AddDate, Middle, Balance, YearsSurpass, MonthsSurpass;
    var days := ToDays(to) - ToDays(from);
    var (w, d) := if largest.Week? then (TruncDiv(days, 7), TruncMod(days, 7)) else (0, days);
    DaysKeepOrder(from, to);
    DaysKeepOrder(to, from);
    WeeksBalanced(Direction(from, to), largest, days);
    AddNothing(from, to);
    MonthInRange(from);
    AddReaches(from, to, 0, 0, w, d);
  }

  lemma MonthInRange(d: IsoDate)
    requires IsDate(d)
    ensures 1 <= d.month <= 12
  {
  }

  lemma WeeksBalanced(sign: int, largest: Unit, days: int)
    requires (sign == 1 && days > 0) || (sign == -1 && days < 0) || (sign == 0 && days == 0)
    requires largest.Day? || largest.Week?
    ensures var (w, d) := if largest.Week? then (TruncDiv(days, 7), TruncMod(days, 7)) else (0, days);
      Balanced(sign, largest, 0, 0, w, d) && d + w * 7 == days
  {
    TruncBySeven(days);
    var (w, d) := if largest.Week? then (TruncDiv(days, 7), TruncMod(days, 7)) else (0, days);
  }

  lemma TruncBySeven(days: int)
    ensures var w, d := TruncDiv(days, 7), TruncMod(days, 7);
      d + w * 7 == days && (days >= 0 ==> w >= 0 && 0 <= d <= 6) && (days <= 0 ==> w <= 0 && -6 <= d <= 0)
  {
  }

  lemma NothingBetween(from: IsoDate, to: IsoDate, largest: Unit)
    requires IsDate(from) && IsDate(to) && InRange(from) && InRange(to) && Direction(from, to) == 0
    ensures AddDate(from, 0, 0, 0, 0, Constrain) == Some(to)
    ensures Balanced(0, largest, 0, 0, 0, 0) && Greedy(from, to, largest, 0, 0)
  {
    hide ToDays, InRange, DaysInMonth, AddDate, Middle, Balance, YearsSurpass, MonthsSurpass;
    AddNothing(from, to);
    AddReaches(from, to, 0, 0, 0, 0);
  }

  lemma YearsAndMonths(from: IsoDate, to: IsoDate, largest: Unit, years: int, months: int)
    requires IsDate(from) && IsDate(to) && InRange(from) && InRange(to) && Direction(from, to) != 0
    requires largest.Year? || (largest.Month? && years == 0)
    requires var sign := Direction(from, to);
      && 0 <= Toward(sign, years) <= Toward(sign, to.year - from.year)
      && (largest.Year? ==> !YearsSurpass(sign, from, to, years) && YearsSurpass(sign, from, to, years + sign))
      && 0 <= Toward(sign, months)
           <= Toward(sign, MonthIndex(to.year, to.month) - MonthIndex(from.year + years, from.month))
      && !MonthsSurpass(sign, from, to, years, months) && MonthsSurpass(sign, from, to, years, months + sign)
    ensures var (y, m) := Balance(from.year + years, from.month + months);
      1 <= m <= 12 &&
      var days := ToDays(to) - ToDays(Middle(from, y, m));
      && AddDate(from, years, months, 0, days, Constrain) == Some(to)
      && Balanced(Direction(from, to), largest, years, months, 0, days)
      && Greedy(from, to, largest, years, months)
  {
    hide ToDays, InRange, DaysInMonth, AddDate, Middle, Balance, YearsSurpass, MonthsSurpass;
    var sign := Direction(from, to);
    SmallYear(from);
    SmallYear(to);
    WholeMonths(sign, from, to, years, months);
    if largest.Year? { MonthsUnderYear(sign, from, to, years, months); }
    var (y, m) := Balance(from.year + years, from.month + months);
    AddReaches(from, to, years, months, 0, ToDays(to) - ToDays(Middle(from, y, m)));
  }

  lemma NoYearSurpasses(sign: int, from: IsoDate, to: IsoDate)
    requires sign == Direction(from, to) != 0
    ensures !YearsSurpass(sign, from, to, 0) && 0 == Toward(sign, 0) <= Toward(sign, to.year - from.year)
  {
  }

  lemma AddNothing(from: IsoDate, to: IsoDate)
    requires IsDate(from) && IsDate(to) && InRange(from)
    ensures Balance(from.year, from.month) == (from.year, from.month) && Middle(from, from.year, from.month) == from
    ensures Direction(from, to) == 0 ==> from == to
  {
    hide InRange, DaysInMonth;
    SmallYear(from);
    MonthStays(from.month);
  }

  lemma MonthStays(month: int)
    requires 1 <= month <= 12
    ensures (month - 1) / 12 == 0 && (month - 1) % 12 + 1 == month
  {
  }

  method MostYears(sign: int, from: IsoDate, to: IsoDate) returns (n: int)
    requires IsDate(from) && IsDate(to) && InRange(from) && InRange(to) && sign == Direction(from, to) != 0
    ensures 0 <= Toward(sign, n) <= Toward(sign, to.year - from.year)
    ensures !YearsSurpass(sign, from, to, n) && YearsSurpass(sign, from, to, n + sign)
  {
    ghost var bound: nat := Toward(sign, to.year - from.year) + 1;
    n := Most(sign, to.year - from.year, n => YearsSurpass(sign, from, to, n), bound);
  }

  method MostMonths(sign: int, from: IsoDate, to: IsoDate, years: int) returns (n: int)
    requires IsDate(from) && IsDate(to) && InRange(from) && InRange(to) && sign == Direction(from, to) != 0
    requires 0 <= Toward(sign, years) <= Toward(sign, to.year - from.year) && !YearsSurpass(sign, from, to, years)
    ensures 0 <= Toward(sign, n)
              <= Toward(sign, MonthIndex(to.year, to.month) - MonthIndex(from.year + years, from.month))
    ensures !MonthsSurpass(sign, from, to, years, n) && MonthsSurpass(sign, from, to, years, n + sign)
  {
    hide ToDays, IsLeapYear, DaysInMonth, InRange, Balance, Surpasses, MonthsSurpass;
    SmallYear(from);
    SmallYear(to);
    var estimate := (to.year - from.year - years) * 12 + to.month - from.month;
    YearsByIndex(sign, from, to, years);
    ghost var bound: nat := Toward(sign, estimate) + 1;
    forall k | 0 <= k <= bound
      ensures MonthsSurpass(sign, from, to, years, Toward(sign, k)) <==>
        k > bound - 1 || (k == bound - 1 && Toward(sign, from.day - to.day) > 0)
    {
      MonthsByIndex(sign, from, to, years, Toward(sign, k));
    }
    assert Toward(sign, 0) == 0;
    n := Most(sign, estimate, n => MonthsSurpass(sign, from, to, years, n), bound);
  }

  lemma MonthsByIndex(sign: int, from: IsoDate, to: IsoDate, years: int, n: int)
    requires sign == 1 || sign == -1
    requires IsDate(from) && IsDate(to) && -1_000_000 <= from.year + years <= 1_000_000
      && -11_000_000 <= n <= 11_000_000
    ensures var gap := MonthIndex(from.year + years, from.month) + n - MonthIndex(to.year, to.month);
      MonthsSurpass(sign, from, to, years, n) <==>
      Toward(sign, gap) > 0 || (gap == 0 && Toward(sign, from.day - to.day) > 0)
  {
    hide ToDays, IsLeapYear, DaysInMonth, Balance, Surpasses;
    BalanceIndex(from.year + years, from.month + n);
    var (y, m) := Balance(from.year + years, from.month + n);
    SurpassesByIndex(sign, y, m, from.day, to);
  }

  lemma YearsByIndex(sign: int, from: IsoDate, to: IsoDate, n: int)
    requires sign == 1 || sign == -1
    requires IsDate(from) && IsDate(to)
    ensures var gap := MonthIndex(from.year + n, from.month) - MonthIndex(to.year, to.month);
      YearsSurpass(sign, from, to, n) <==> Toward(sign, gap) > 0 || (gap == 0 && Toward(sign, from.day - to.day) > 0)
  {
    SurpassesByIndex(sign, from.year + n, from.month, from.day, to);
  }

  lemma WholeMonths(sign: int, from: IsoDate, to: IsoDate, years: int, months: int)
    requires sign == 1 || sign == -1
    requires IsDate(from) && IsDate(to) && -900_000 <= from.year + years <= 900_000
      && -10_000_000 <= months <= 10_000_000
    requires !MonthsSurpass(sign, from, to, years, months) && MonthsSurpass(sign, from, to, years, months + sign)
    ensures var (y, m) := Balance(from.year + years, from.month + months);
      1 <= m <= 12 && 0 <= Toward(sign, ToDays(to) - ToDays(Middle(from, y, m))) <= 30
  {
    hide ToDays, IsLeapYear, DaysInMonth, Balance, Surpasses;
    BalanceIndex(from.year + years, from.month + months);
    BalanceIndex(from.year + years, from.month + months + sign);
    var (y, m) := Balance(from.year + years, from.month + months);
    var (y', m') := Balance(from.year + years, from.month + months + sign);
    LeftoverDays(sign, from, to, y, m, y', m');
  }

  /** One more year surpassing means twelve more months do. */
  lemma MonthsUnderYear(sign: int, from: IsoDate, to: IsoDate, years: int, months: int)
    requires sign == 1 || sign == -1
    requires IsDate(from) && IsDate(to) && -900_000 <= from.year + years <= 900_000
      && -10_000_000 <= months <= 10_000_000
    requires YearsSurpass(sign, from, to, years + sign) && !MonthsSurpass(sign, from, to, years, months)
      && 0 <= Toward(sign, months)
    ensures -11 <= months <= 11
  {
    hide ToDays, IsLeapYear, DaysInMonth, Balance, MonthsSurpass, YearsSurpass;
    MonthsByIndex(sign, from, to, years, months);
    YearsByIndex(sign, from, to, years + sign);
  }
}
