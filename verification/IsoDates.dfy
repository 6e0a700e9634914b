/** Proleptic Gregorian dates and day numbers. */
module IsoDates {

  datatype IsoDate = IsoDate(year: int, month: int, day: int)

  const MAX_EPOCH_DAYS: int := 100_000_000
  const MIN_EPOCH_DAYS: int := -100_000_000

  /** Division and remainder truncating toward zero. */
  function TruncDiv(a: int, b: int): int
    requires b > 0
  {
    if a >= 0 then a / b else -((-a) / b)
  }

  function TruncMod(a: int, b: int): int
    requires b > 0
  {
    a - b * TruncDiv(a, b)
  }

  /** `as i32`. */
  function AsI32(x: int): int {
    (x + 0x8000_0000) % 0x1_0000_0000 - 0x8000_0000
  }

  predicate IsI32(x: int) { -0x8000_0000 <= x < 0x8000_0000 }

  predicate IsLeapYear(year: int) {
    (TruncMod(year, 4) == 0 && TruncMod(year, 100) != 0) || TruncMod(year, 400) == 0
  }

  function DaysInMonth(year: int, month: int): int {
    if month in {1, 3, 5, 7, 8, 10, 12} then 31
    else if month in {4, 6, 9, 11} then 30
    else if month == 2 then (if IsLeapYear(year) then 29 else 28)
    else 0
  }

  /** A real calendar date in a 32-bit year. */
  predicate IsDate(d: IsoDate) {
    IsI32(d.year) && 1 <= d.month <= 12 && 1 <= d.day <= DaysInMonth(d.year, d.month)
  }

  /** `iso_to_epoch_days`. */
  function ToDays(date: IsoDate): int {
    var m := date.month;
    var y := if m <= 2 then date.year - 1 else date.year;
    var era := TruncDiv(if y >= 0 then y else y - 399, 400);
    var yoe := y - era * 400;
    var doy := TruncDiv(153 * (if m > 2 then m - 3 else m + 9) + 2, 5) + date.day - 1;
    var doe := yoe * 365 + TruncDiv(yoe, 4) - TruncDiv(yoe, 100) + doy;
    era * 146_097 + doe - 719_468
  }

  /** `epoch_days_to_iso`. */
  function FromDays(days: int): IsoDate {
    var z := days + 719_468;
    var era := TruncDiv(if z >= 0 then z else z - 146_096, 146_097);
    ReadDay(era, z - era * 146_097)
  }

  /** The date of day `doe` of a 400-year era. */
  function ReadDay(era: int, doe: int): IsoDate {
    var yoe := TruncDiv(doe - TruncDiv(doe, 1460) + TruncDiv(doe, 36_524) - TruncDiv(doe, 146_096), 365);
    var y := yoe + era * 400;
    var doy := doe - (365 * yoe + TruncDiv(yoe, 4) - TruncDiv(yoe, 100));
    var mp := TruncDiv(5 * doy + 2, 153);
    var d := doy - TruncDiv(153 * mp + 2, 5) + 1;
    var m := if mp < 10 then mp + 3 else mp - 9;
    IsoDate(AsI32(if m <= 2 then y + 1 else y), m, d)
  }

  /** `compare_iso_date(a, b)` is `Less`. */
  predicate Before(a: IsoDate, b: IsoDate) {
    a.year < b.year || (a.year == b.year && (a.month < b.month || (a.month == b.month && a.day < b.day)))
  }

  // ---- The March-based calendar underneath

  /** The day number, within its 400-year era, of 1 March of year `yoe` of the era. */
  function EraYearStart(yoe: int): int
    requires 0 <= yoe <= 400
  {
    365 * yoe + yoe / 4 - yoe / 100 + (if yoe == 400 then 1 else 0)
  }

  /** The day number, within its March-based year, of the first of its `mp`-th month. */
  function MonthStart(mp: int): int
    requires 0 <= mp <= 12
  {
    if mp == 12 then 366 else (153 * mp + 2) / 5
  }

  /** Whether the March-based year `yoe` of an era ends in a 29 February. */
  predicate EndsLeap(yoe: int)
    requires 0 <= yoe < 400
  {
    ((yoe + 1) % 4 == 0 && (yoe + 1) % 100 != 0) || yoe == 399
  }

  /** A date as era, year of era, month and day counted from March. */
  datatype Marched = Marched(era: int, yoe: int, mp: int, day: int) {
    predicate Real() {
      && 0 <= yoe < 400 && 0 <= mp < 12 && 1 <= day <= MonthStart(mp + 1) - MonthStart(mp)
      && (mp == 11 && !EndsLeap(yoe) ==> day <= 28)
    }

    function Number(): int
      requires 0 <= yoe < 400 && 0 <= mp < 12
    {
      era * 146_097 + EraYearStart(yoe) + MonthStart(mp) + day - 1 - 719_468
    }

    function Date(): IsoDate {
      IsoDate(era * 400 + yoe + (if mp >= 10 then 1 else 0), if mp < 10 then mp + 3 else mp - 9, day)
    }
  }

  function March(d: IsoDate): (r: Marched)
    requires 1 <= d.month <= 12
    ensures r.Date() == d && 0 <= r.yoe < 400 && 0 <= r.mp < 12
  {
    var y := if d.month <= 2 then d.year - 1 else d.year;
    Marched(y / 400, y % 400, if d.month > 2 then d.month - 3 else d.month + 9, d.day)
  }

  lemma LeapIsEuclidean(year: int)
    ensures IsLeapYear(year) <==> (year % 4 == 0 && year % 100 != 0) || year % 400 == 0
  {
    assert TruncMod(year, 4) == 0 <==> year % 4 == 0;
    assert TruncMod(year, 100) == 0 <==> year % 100 == 0;
    assert TruncMod(year, 400) == 0 <==> year % 400 == 0;
  }

  lemma RealIffDate(d: IsoDate)
    requires IsI32(d.year) && 1 <= d.month <= 12
    ensures IsDate(d) <==> March(d).Real()
  {
    var r := March(d);
    LeapIsEuclidean(d.year);
    if d.month == 2 {
      ModOfEra(r.era, r.yoe + 1);
    }
  }

  lemma ModOfEra(era: int, k: int)
    ensures (400 * era + k) % 4 == k % 4 && (400 * era + k) % 100 == k % 100 && (400 * era + k) % 400 == k % 400
  {
    ModOf4(100 * era, k);
    ModOf100(4 * era, k);
    ModOf400(era, k);
  }

  lemma ModOf4(a: int, k: int)
    ensures (4 * a + k) % 4 == k % 4
  {
  }

  lemma ModOf100(a: int, k: int)
    ensures (100 * a + k) % 100 == k % 100
  {
  }

  lemma ModOf400(a: int, k: int)
    ensures (400 * a + k) % 400 == k % 400
  {
  }

  lemma NumberIsToDays(d: IsoDate)
    requires 1 <= d.month <= 12
    ensures ToDays(d) == March(d).Number()
  {
    var y := if d.month <= 2 then d.year - 1 else d.year;
    assert TruncDiv(if y >= 0 then y else y - 399, 400) == y / 400;
  }

  // ---- Reading a day number back

  /** The year formula of `FromDays` finds the March-based year a day of an era falls in. */
  lemma YearOfDay(yoe: int, doy: int)
    requires 0 <= yoe < 400 && 0 <= doy < EraYearStart(yoe + 1) - EraYearStart(yoe)
    ensures var doe := EraYearStart(yoe) + doy;
      0 <= doe <= 146_096 && (doe - doe / 1460 + doe / 36_524 - doe / 146_096) / 365 == yoe
  {
    hide EraYearStart;
    var a, b, c := yoe / 4, yoe % 4, yoe / 100;
    var doe := EraYearStart(yoe) + doy;
    YearParts(yoe);
    YearLength(yoe);
    var e := if a - c + 365 * b + doy >= 1460 then 1 else 0;
    Quotient(doe, 1460, a + e);
    CenturyOfDay(yoe, doy);
    assert doe - doe / 1460 + doe / 36_524 - doe / 146_096 == 365 * yoe + doy - e;
    Quotient(365 * yoe + doy - e, 365, yoe);
  }

  lemma YearParts(yoe: int)
    requires 0 <= yoe < 400
    ensures var a, b, c := yoe / 4, yoe % 4, yoe / 100;
      && yoe == 4 * a + b && 0 <= b <= 3 && 0 <= c <= 3 && 25 * c <= a <= 25 * c + 24
      && EraYearStart(yoe) == 1461 * a + 365 * b - c && (EndsLeap(yoe) ==> b == 3)
  {
  }

  lemma Quotient(n: int, d: int, q: int)
    requires (d == 1460 || d == 365) && d * q <= n < d * q + d
    ensures n / d == q
  {
  }

  lemma YearLength(yoe: int)
    requires 0 <= yoe < 400
    ensures EraYearStart(yoe + 1) - EraYearStart(yoe) == if EndsLeap(yoe) then 366 else 365
  {
    NextQuotient(yoe, 4);
    NextQuotient(yoe, 100);
  }

  lemma NextQuotient(n: int, d: int)
    requires 0 <= n && (d == 4 || d == 100)
    ensures (n + 1) / d == n / d + if (n + 1) % d == 0 then 1 else 0
  {
  }

  /** Day counts of 100 and 400 years match the true century, except that the last day of
      an era counts as a further century and era, which cancel. */
  lemma CenturyOfDay(yoe: int, doy: int)
    requires 0 <= yoe < 400 && 0 <= doy < EraYearStart(yoe + 1) - EraYearStart(yoe)
    ensures var doe := EraYearStart(yoe) + doy; doe / 36_524 - doe / 146_096 == yoe / 100
  {
    var c, k := yoe / 100, yoe % 100;
    var doe := EraYearStart(yoe) + doy;
    YearLength(yoe);
    assert yoe == 100 * c + k && yoe / 4 == 25 * c + k / 4;
    assert c == 0 || c == 1 || c == 2 || c == 3;
    var x := 365 * k + k / 4 + doy;
    assert doe == 36_524 * c + x;
    if k == 99 && c < 3 { assert !EndsLeap(yoe); }
    CenturyCounts(c, x);
  }

  lemma CenturyCounts(c: int, x: int)
    requires 0 <= c <= 3 && 0 <= x && (x < 36_524 || (c == 3 && x == 36_524))
    ensures (36_524 * c + x) / 36_524 - (36_524 * c + x) / 146_096 == c
  {
  }

  /** The month formula of `FromDays` finds the month a day of a year falls in. */
  lemma MonthOfDay(mp: int, day: int)
    requires 0 <= mp < 12 && 1 <= day <= MonthStart(mp + 1) - MonthStart(mp)
    ensures (5 * (MonthStart(mp) + day - 1) + 2) / 153 == mp
  {
    assert mp == 0 || mp == 1 || mp == 2 || mp == 3 || mp == 4 || mp == 5
        || mp == 6 || mp == 7 || mp == 8 || mp == 9 || mp == 10 || mp == 11;
  }

  /** The era, year, month and day `FromDays` computes, on a day of an era. */
  lemma FromDaysInEra(era: int, yoe: int, mp: int, day: int)
    requires Marched(era, yoe, mp, day).Real()
    ensures var doe := EraYearStart(yoe) + MonthStart(mp) + day - 1;
      && 0 <= doe <= 146_096
      && TruncDiv(doe - TruncDiv(doe, 1460) + TruncDiv(doe, 36_524) - TruncDiv(doe, 146_096), 365) == yoe
      && 365 * yoe + TruncDiv(yoe, 4) - TruncDiv(yoe, 100) == EraYearStart(yoe)
      && TruncDiv(5 * (MonthStart(mp) + day - 1) + 2, 153) == mp && TruncDiv(153 * mp + 2, 5) == MonthStart(mp)
  {
    var doy := MonthStart(mp) + day - 1;
    YearLength(yoe);
    MonthsGrow(mp + 1, 12);
    MonthsGrow(0, mp);
    YearOfDay(yoe, doy);
    MonthOfDay(mp, day);
    var doe := EraYearStart(yoe) + doy;
    NonNegative(doe, 1460);
    NonNegative(doe, 36_524);
    NonNegative(doe, 146_096);
    NonNegative(doe - doe / 1460 + doe / 36_524 - doe / 146_096, 365);
    NonNegative(5 * doy + 2, 153);
    hide TruncDiv;
  }

  lemma NonNegative(a: int, b: int)
    requires b > 0
    ensures a >= 0 ==> TruncDiv(a, b) == a / b
    ensures b == 365 && a < 0 ==> a / b < 0
  {
  }

  /** A real March-based date reads back from its number. */
  lemma FromDaysOfNumber(r: Marched)
    requires r.Real() && IsI32(r.Date().year)
    ensures FromDays(r.Number()) == r.Date()
  {
    hide ReadDay, EraYearStart, MonthStart, TruncDiv;
    ReadDayOfEra(r);
    var doe := EraYearStart(r.yoe) + MonthStart(r.mp) + r.day - 1;
    var z := r.era * 146_097 + doe;
    FromDaysInEra(r.era, r.yoe, r.mp, r.day);
    EraOfDay(r.era, doe);
  }

  lemma EraOfDay(era: int, doe: int)
    requires 0 <= doe <= 146_096
    ensures var z := era * 146_097 + doe; TruncDiv(if z >= 0 then z else z - 146_096, 146_097) == era
  {
  }

  lemma ReadDayOfEra(r: Marched)
    requires r.Real() && IsI32(r.Date().year)
    ensures ReadDay(r.era, EraYearStart(r.yoe) + MonthStart(r.mp) + r.day - 1) == r.Date()
  {
    FromDaysInEra(r.era, r.yoe, r.mp, r.day);
    assert AsI32(r.Date().year) == r.Date().year;
    hide EraYearStart, MonthStart, TruncDiv, AsI32, EndsLeap;
  }

  // ---- Every day number is a date's

  /** The March-based year a day of an era falls in. */
  function FindYear(doe: int, n: int): (y: int)
    requires 0 <= n < 400 && 0 <= doe < EraYearStart(n + 1)
    ensures 0 <= y <= n && EraYearStart(y) <= doe < EraYearStart(y + 1)
    decreases n
  {
    if doe >= EraYearStart(n) then n else FindYear(doe, n - 1)
  }

  function FindMonth(doy: int, n: int): (mp: int)
    requires 0 <= n < 12 && 0 <= doy < MonthStart(n + 1)
    ensures 0 <= mp <= n && MonthStart(mp) <= doy < MonthStart(mp + 1)
    decreases n
  {
    if doy >= MonthStart(n) then n else FindMonth(doy, n - 1)
  }

  function DateOfDay(days: int): (r: Marched)
    ensures r.Real() && r.Number() == days
  {
    var z := days + 719_468;
    var era, doe := z / 146_097, z % 146_097;
    var yoe := FindYear(doe, 399);
    var doy := doe - EraYearStart(yoe);
    YearLength(yoe);
    var mp := FindMonth(doy, 11);
    assert mp == 11 && !EndsLeap(yoe) ==> doy < 365;
    Marched(era, yoe, mp, doy - MonthStart(mp) + 1)
  }

  // ---- Results

  /** Dates to day numbers and back. */
  lemma DateRoundTrip(d: IsoDate)
    requires IsDate(d)
    ensures FromDays(ToDays(d)) == d
  {
    RealIffDate(d);
    NumberIsToDays(d);
    FromDaysOfNumber(March(d));
  }

  /** The day numbers whose year fits 32 bits with room to spare. */
  predicate InSpan(days: int) { -700_000_000_000 <= days <= 700_000_000_000 }

  /** Day numbers to dates and back: the date is real and has that number. */
  lemma DayRoundTrip(days: int)
    requires InSpan(days)
    ensures IsDate(FromDays(days)) && ToDays(FromDays(days)) == days
  {
    hide ToDays, FromDays, March, IsDate, Marched.Real, Marched.Number, EraYearStart, MonthStart;
    var r := DateOfDay(days);
    EraInSpan(r, days);
    FromDaysOfNumber(r);
    var d := r.Date();
    MarchOfDate(r);
    NumberIsToDays(d);
    RealIffDate(d);
  }

  lemma EraInSpan(r: Marched, days: int)
    requires InSpan(days) && r.Real() && r.Number() == days
    ensures IsI32(r.Date().year) && 1 <= r.Date().month <= 12
  {
    EraYearsGrow(0, r.yoe);
    EraYearsGrow(r.yoe, 400);
    MonthsGrow(0, r.mp);
    MonthsGrow(r.mp, 12);
    assert 0 <= days + 719_468 - r.era * 146_097 <= 146_097 + 366 + 366;
  }

  lemma MarchOfDate(r: Marched)
    requires r.Real()
    ensures March(r.Date()) == r
  {
  }

  /** The calendar day after `d`, by the month lengths alone. */
  function NextDay(d: IsoDate): IsoDate {
    if d.day < DaysInMonth(d.year, d.month) then d.(day := d.day + 1)
    else if d.month < 12 then IsoDate(d.year, d.month + 1, 1)
    else IsoDate(d.year + 1, 1, 1)
  }

  /** What a day number means: 1 January 1970 is day 0, and each calendar day after a date
      has the next number. */
  lemma DaysCountCalendar(d: IsoDate)
    requires IsDate(d)
    ensures ToDays(IsoDate(1970, 1, 1)) == 0
    ensures ToDays(NextDay(d)) == ToDays(d) + 1
  {
    var n := NextDay(d);
    NumberIsToDays(d);
    NumberIsToDays(n);
    NextDayMarched(d);
    hide March, IsDate, Marched.Number;
    NumberIsToDays(IsoDate(1970, 1, 1));
    EpochIsZero();
  }

  lemma EpochIsZero()
    ensures March(IsoDate(1970, 1, 1)).Number() == 0
  {
    assert March(IsoDate(1970, 1, 1)) == Marched(4, 369, 10, 1);
  }

  lemma NextDayMarched(d: IsoDate)
    requires IsDate(d)
    ensures March(NextDay(d)).Number() == March(d).Number() + 1
  {
    RealIffDate(d);
    var r, n := March(d), March(NextDay(d));
    if d.day < DaysInMonth(d.year, d.month) {
    } else if d.month != 2 {
      NextMonthMarched(d);
    } else {
      LeapYearEnd(d);
      YearLength(r.yoe);
    }
  }

  /** The last day of a month other than February. */
  lemma NextMonthMarched(d: IsoDate)
    requires IsDate(d) && d.month != 2 && d.day == DaysInMonth(d.year, d.month)
    ensures March(NextDay(d)).Number() == March(d).Number() + 1
  {
    var r := March(d);
    assert d.day == MonthStart(r.mp + 1) - MonthStart(r.mp) by {
      assert d.month in {1, 3, 4, 5, 6, 7, 8, 9, 10, 11, 12};
    }
    hide IsLeapYear, EraYearStart;
  }

  /** The last day of February ends the March-based year. */
  lemma LeapYearEnd(d: IsoDate)
    requires IsDate(d) && d.month == 2 && d.day == DaysInMonth(d.year, 2)
    ensures var r, n := March(d), March(NextDay(d));
      && d.day == (if EndsLeap(r.yoe) then 29 else 28) && r.mp == 11 && n.mp == 0 && n.day == 1
      && (if r.yoe == 399 then n.era == r.era + 1 && n.yoe == 0 else n.era == r.era && n.yoe == r.yoe + 1)
  {
    RealIffDate(d.(day := 29));
    hide EraYearStart, MonthStart;
  }

  /** Numbers follow calendar order, both ways. */
  lemma DaysKeepOrder(a: IsoDate, b: IsoDate)
    requires IsDate(a) && IsDate(b)
    ensures Before(a, b) <==> ToDays(a) < ToDays(b)
    ensures a == b <==> ToDays(a) == ToDays(b)
  {
    if Before(a, b) { EarlierIsLess(a, b); }
    if Before(b, a) { EarlierIsLess(b, a); }
  }

  lemma EarlierIsLess(a: IsoDate, b: IsoDate)
    requires IsDate(a) && IsDate(b) && Before(a, b)
    ensures ToDays(a) < ToDays(b)
  {
    RealIffDate(a);
    RealIffDate(b);
    NumberIsToDays(a);
    NumberIsToDays(b);
    MarchedEarlier(March(a), March(b));
  }

  lemma MarchedEarlier(r: Marched, s: Marched)
    requires r.Real() && s.Real()
    requires r.era < s.era
      || (r.era == s.era && (r.yoe < s.yoe || (r.yoe == s.yoe && (r.mp < s.mp || (r.mp == s.mp && r.day < s.day)))))
    ensures r.Number() < s.Number()
  {
    YearLength(r.yoe);
    if r.era == s.era && r.yoe < s.yoe { EraYearsGrow(r.yoe + 1, s.yoe); }
    EraYearsGrow(r.yoe + 1, 400);
    EraYearsGrow(0, s.yoe);
    if r.mp < s.mp { MonthsGrow(r.mp + 1, s.mp); }
    MonthsGrow(r.mp + 1, 12);
    MonthsGrow(0, s.mp);
    assert MonthStart(0) == 0;
    assert MonthStart(r.mp) + r.day <= EraYearStart(r.yoe + 1) - EraYearStart(r.yoe);
    hide EraYearStart, MonthStart;
    assert EraYearStart(400) == 146_097 && EraYearStart(0) == 0 by { EraEnds(); }
  }

  lemma EraEnds()
    ensures EraYearStart(400) == 146_097 && EraYearStart(0) == 0
  {
  }

  lemma EraYearsGrow(a: int, b: int)
    requires 0 <= a <= b <= 400
    ensures EraYearStart(a) <= EraYearStart(b)
  {
  }

  lemma MonthsGrow(a: int, b: int)
    requires 0 <= a <= b <= 12
    ensures MonthStart(a) <= MonthStart(b)
  {
  }
}
