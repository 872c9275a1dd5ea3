/**
 Calendar months the way Go's `time.Date` and `AddDate` compute them. Months are numbered
 12 * year + (month - 1), so consecutive months have consecutive numbers.
 */
module Calendar {

  datatype Date = Date(month: int, day: int) {
    predicate Valid() {
      1 <= day <= MonthLength(month)
    }
  }

  function MonthNumber(year: int, month: int): int {
    12 * year + month - 1
  }

  function YearOf(m: int): int {
    m / 12
  }

  /** 1 for January up to 12 for December */
  function MonthOfYear(m: int): (k: int)
    ensures 1 <= k <= 12 && MonthNumber(YearOf(m), k) == m
  {
    m % 12 + 1
  }

  predicate IsLeap(year: int) {
    year % 4 == 0 && (year % 100 != 0 || year % 400 == 0)
  }

  /** The length of the month `k` months after January of `year`. */
  function LengthOf(year: int, k: int): (days: int)
    requires 0 <= k < 12
    ensures 28 <= days <= 31
  {
    if k == 1 then (if IsLeap(year) then 29 else 28)
    else if k == 3 || k == 5 || k == 8 || k == 10 then 30
    else 31
  }

  function MonthLength(m: int): (days: int)
    ensures 28 <= days <= 31
  {
    LengthOf(m / 12, m % 12)
  }

  /** Days from a fixed origin to the first of January of `year`. */
  function YearStart(year: int): int {
    365 * year + (year - 1) / 4 - (year - 1) / 100 + (year - 1) / 400
  }

  /** Days from 1 January of `year` to the first day of the month `k` months later. */
  function DaysBefore(year: int, k: int): int
    requires 0 <= k < 12
    decreases k
  {
    if k == 0 then 0 else DaysBefore(year, k - 1) + LengthOf(year, k - 1)
  }

  /** Days from the origin to the first day of month `m`. */
  function MonthStart(m: int): int {
    YearStart(m / 12) + DaysBefore(m / 12, m % 12)
  }

  function DayNumber(d: Date): int {
    MonthStart(d.month) + d.day - 1
  }

  lemma FloorStep(n: int, k: int)
    requires k > 1
    ensures n / k - (n - 1) / k == if n % k == 0 then 1 else 0
  {
    var q, r := n / k, n % k;
    assert n == k * q + r;
    if r == 0 {
      assert n - 1 == k * (q - 1) + (k - 1);
      QuotientIs(n - 1, k, q - 1, k - 1);
    } else {
      assert n - 1 == k * q + (r - 1);
      QuotientIs(n - 1, k, q, r - 1);
    }
  }

  lemma MultipleIsLarge(k: int, d: int)
    requires k > 0
    ensures d >= 1 ==> k * d >= k
    ensures d <= -1 ==> k * d <= -k
  {}

  lemma QuotientIs(n: int, k: int, q: int, r: int)
    requires k > 0 && n == k * q + r && 0 <= r < k
    ensures n / k == q
  {
    var d := n / k - q;
    assert k * d == r - n % k;
    MultipleIsLarge(k, d);
  }

  lemma YearLength(year: int)
    ensures YearStart(year + 1) - YearStart(year) == if IsLeap(year) then 366 else 365
  {
    FloorStep(year, 4);
    FloorStep(year, 100);
    FloorStep(year, 400);
  }

  lemma WholeYearSteps(year: int)
    ensures var february := LengthOf(year, 1);
            && DaysBefore(year, 1) == 31 && DaysBefore(year, 2) == 31 + february
            && DaysBefore(year, 3) == 62 + february && DaysBefore(year, 4) == 92 + february
            && DaysBefore(year, 5) == 123 + february && DaysBefore(year, 6) == 153 + february
            && DaysBefore(year, 7) == 184 + february && DaysBefore(year, 8) == 215 + february
            && DaysBefore(year, 9) == 245 + february && DaysBefore(year, 10) == 276 + february
            && DaysBefore(year, 11) == 306 + february
  {}

  lemma WholeYear(year: int)
    ensures DaysBefore(year, 11) + LengthOf(year, 11) == if IsLeap(year) then 366 else 365
  {
    WholeYearSteps(year);
  }

  lemma NextMonth(m: int)
    ensures if m % 12 == 11 then (m + 1) / 12 == m / 12 + 1 && (m + 1) % 12 == 0
            else (m + 1) / 12 == m / 12 && (m + 1) % 12 == m % 12 + 1
  {}

  /** Months tile the days: each starts where the one before ends. */
  lemma MonthsTile(m: int)
    ensures MonthStart(m + 1) == MonthStart(m) + MonthLength(m)
  {
    var year := m / 12;
    NextMonth(m);
    if m % 12 == 11 {
      WholeYear(year);
      YearLength(year);
    }
  }

  lemma {:induction false} MonthStartIncreases(m: int, n: int)
    requires m <= n
    ensures MonthStart(n) >= MonthStart(m) + 28 * (n - m)
    decreases n - m
  {
    if m < n {
      MonthStartIncreases(m, n - 1);
      MonthsTile(n - 1);
    }
  }

  /** A valid date lies in the range of its own month and of no other. */
  lemma DateInOneMonth(d: Date, m: int)
    requires d.Valid()
    ensures MonthStart(m) <= DayNumber(d) < MonthStart(m + 1) <==> m == d.month
  {
    MonthsTile(d.month);
    if m < d.month {
      MonthStartIncreases(m + 1, d.month);
    } else if m > d.month {
      MonthStartIncreases(d.month + 1, m);
    }
  }

  /** Day numbers order valid dates, and two valid dates on the same day are the same date. */
  lemma DayNumberOrders(a: Date, b: Date)
    requires a.Valid() && b.Valid()
    ensures DayNumber(a) == DayNumber(b) ==> a == b
    ensures DayNumber(a) <= DayNumber(b) ==> a.month <= b.month
  {
    DateInOneMonth(a, b.month);
    DateInOneMonth(b, b.month);
    if a.month > b.month {
      MonthsTile(b.month);
      MonthStartIncreases(b.month + 1, a.month);
    }
  }

  /** Day `day` of month `m`, counted in the month after it where `m` is too short. */
  function Spill(m: int, day: int): (r: Date)
    requires 1 <= day <= 31
    ensures r.Valid()
  {
    if day <= MonthLength(m) then Date(m, day) else Date(m + 1, day - MonthLength(m))
  }

  /** `AddDate(0, k, 0)`: the day of the month is kept, and spills over where the target month is too short. */
  function AddMonths(d: Date, k: int): (r: Date)
    requires d.Valid()
    ensures r.Valid()
  {
    Spill(d.month + k, d.day)
  }

  lemma SpilledDay(m: int, day: int)
    requires 1 <= day <= 31
    ensures DayNumber(Spill(m, day)) == MonthStart(m) + day - 1
  {
    MonthsTile(m);
  }

  lemma AddMonthsDayNumber(d: Date, k: int, m: int)
    requires d.Valid() && m == d.month + k
    ensures DayNumber(AddMonths(d, k)) == MonthStart(m) + d.day - 1
  {
    SpilledDay(m, d.day);
  }

  /**
   The result is the one valid date `day - 1` days after the first of the target month, and it
   lands in the target month exactly when that month has such a day, else one month later.
   */
  lemma AddMonthsLands(d: Date, k: int)
    requires d.Valid()
    ensures forall r: Date :: r.Valid() ==>
              (DayNumber(r) == MonthStart(d.month + k) + d.day - 1 <==> r == AddMonths(d, k))
    ensures AddMonths(d, k).month == if d.day <= MonthLength(d.month + k) then d.month + k else d.month + k + 1
  {
    var target := AddMonths(d, k);
    AddMonthsDayNumber(d, k, d.month + k);
    forall r: Date | r.Valid()
      ensures DayNumber(r) == DayNumber(target) <==> r == target
    {
      DayNumberOrders(r, target);
    }
  }

  /** Days 1 to 28 exist everywhere, so adding months to them never spills. */
  lemma EarlyDaysDoNotSpill(d: Date, k: int)
    requires d.Valid() && d.day <= 28
    ensures AddMonths(d, k) == Date(d.month + k, d.day)
  {}

  /** Days since 1 March of year 0, by counting years from March on: the usual closed formula. */
  function CivilDays(year: int, month: int, day: int): int {
    var y := if month <= 2 then year - 1 else year;
    365 * y + y / 4 - y / 100 + y / 400 + (153 * ((month + 9) % 12) + 2) / 5 + day - 1
  }

  lemma DaysBeforeIs(year: int)
    ensures DaysBefore(year, 0) == 0 && DaysBefore(year, 1) == 31
    ensures forall k :: 2 <= k < 12 ==>
              DaysBefore(year, k) == (153 * (k - 2) + 2) / 5 + (if IsLeap(year) then 60 else 59)
  {
    WholeYearSteps(year);
  }

  lemma LeapDays(year: int)
    ensures year / 4 - year / 100 + year / 400
         == (year - 1) / 4 - (year - 1) / 100 + (year - 1) / 400 + (if IsLeap(year) then 1 else 0)
  {
    YearLength(year);
  }

  lemma CivilMonth(year: int, k: int, day: int)
    requires 0 <= k < 12
    ensures YearStart(year) + DaysBefore(year, k) + day - 1 == CivilDays(year, k + 1, day) + 59
  {
    DaysBeforeIs(year);
    if k >= 2 {
      LeapDays(year);
      assert (k + 1 + 9) % 12 == k - 2;
    }
  }

  /** Every date's day number is that of the closed formula, counted from another day. */
  lemma DayNumberIsCivil(d: Date)
    ensures DayNumber(d) == CivilDays(YearOf(d.month), MonthOfYear(d.month), d.day) + 59
  {
    CivilMonth(d.month / 12, d.month % 12, d.day);
  }

  /** From 30 January 2026 one month on is 2 March: February is skipped. */
  lemma JanuaryEndSpills()
    ensures AddMonths(Date(MonthNumber(2026, 1), 30), 1) == Date(MonthNumber(2026, 3), 2)
  {
    assert !IsLeap(2026);
    assert MonthNumber(2026, 2) / 12 == 2026 && MonthNumber(2026, 2) % 12 == 1;
    assert MonthNumber(2026, 1) + 1 == MonthNumber(2026, 2);
  }
}
