/**
 * The proleptic Gregorian calendar as the scraper uses it through Python's
 * `calendar.monthrange` and `datetime.date`: month lengths with the leap
 * rule, calendar order on (year, month, day), the following day, and the
 * day's ordinal number (Python's `date.toordinal`).
 */
module Calendar {

  datatype Date = Date(year: nat, month: nat, day: nat)

  /** Gregorian leap years: every fourth year, except centuries not divisible by 400. */
  predicate IsLeapYear(y: nat) {
    y % 4 == 0 && (y % 100 != 0 || y % 400 == 0)
  }

  /** The number of days of month m of year y: `calendar.monthrange(y, m)[1]`. */
  function DaysInMonth(y: nat, m: nat): (n: nat)
    requires 1 <= m <= 12
    ensures 28 <= n <= 31
  {
    if m == 2 then (if IsLeapYear(y) then 29 else 28)
    else if m == 4 || m == 6 || m == 9 || m == 11 then 30
    else 31
  }

  /** Days of year y that lie in the months before month m. */
  function DaysBeforeMonth(y: nat, m: nat): nat
    requires 1 <= m <= 13
  {
    if m == 1 then 0 else DaysBeforeMonth(y, m - 1) + DaysInMonth(y, m - 1)
  }

  /** The twelve month lengths add up to 366 days in a leap year and to 365 otherwise. */
  lemma YearLength(y: nat)
    ensures DaysBeforeMonth(y, 13) == if IsLeapYear(y) then 366 else 365
  {
    assert DaysBeforeMonth(y, 2) == 31;
    assert DaysBeforeMonth(y, 3) == 31 + DaysInMonth(y, 2);
    assert DaysBeforeMonth(y, 5) == DaysBeforeMonth(y, 3) + 61;
    assert DaysBeforeMonth(y, 7) == DaysBeforeMonth(y, 5) + 61;
    assert DaysBeforeMonth(y, 9) == DaysBeforeMonth(y, 7) + 62;
    assert DaysBeforeMonth(y, 11) == DaysBeforeMonth(y, 9) + 61;
  }

  /** A date that exists: `datetime.date(year, month, day)` accepts it. */
  predicate Valid(d: Date) {
    d.year >= 1 && 1 <= d.month <= 12 && 1 <= d.day <= DaysInMonth(d.year, d.month)
  }

  /** Calendar order, which is the lexicographic order on (year, month, day). */
  predicate Before(a: Date, b: Date) {
    a.year < b.year
    || (a.year == b.year && a.month < b.month)
    || (a.year == b.year && a.month == b.month && a.day < b.day)
  }

  /** The day after d. */
  function Next(d: Date): (e: Date)
    requires Valid(d)
    ensures Valid(e) && Before(d, e)
  {
    if d.day < DaysInMonth(d.year, d.month) then Date(d.year, d.month, d.day + 1)
    else if d.month < 12 then Date(d.year, d.month + 1, 1)
    else Date(d.year + 1, 1, 1)
  }

  /** No valid date lies strictly between a date and the day after it. */
  lemma NextIsLeast(d: Date, e: Date)
    requires Valid(d) && Valid(e) && Before(d, e)
    ensures !Before(e, Next(d))
  {
  }

  /** Days before January 1st of year y, counted from January 1st of year 1. */
  function DaysBeforeYear(y: nat): nat
    requires y >= 1
  {
    var p := y - 1;
    365 * p + p / 4 - p / 100 + p / 400
  }

  /** Python's `date.toordinal()`: January 1st of year 1 is day 1. */
  function Ordinal(d: Date): nat
    requires Valid(d)
  {
    DaysBeforeYear(d.year) + DaysBeforeMonth(d.year, d.month) + d.day
  }

  /** Of the years 1..y, those divisible by 4, 100 and 400 number one more than of the years 1..y-1 exactly when y is. */
  lemma MultiplesStep(y: nat)
    requires y >= 1
    ensures y / 4 - (y - 1) / 4 == if y % 4 == 0 then 1 else 0
    ensures y / 100 - (y - 1) / 100 == if y % 100 == 0 then 1 else 0
    ensures y / 400 - (y - 1) / 400 == if y % 400 == 0 then 1 else 0
  {
  }

  /** The three divisibility tests together add the leap day. */
  lemma LeapCount(y: nat)
    ensures (if y % 4 == 0 then 1 else 0) - (if y % 100 == 0 then 1 else 0) + (if y % 400 == 0 then 1 else 0)
      == if IsLeapYear(y) then 1 else 0
  {
    if y % 400 == 0 {
      assert y % 100 == 0 && y % 4 == 0;
    } else if y % 100 == 0 {
      assert y % 4 == 0;
    }
  }

  /** A whole year goes by between January 1st of y and January 1st of y + 1. */
  lemma DaysBeforeNextYear(y: nat)
    requires y >= 1
    ensures DaysBeforeYear(y + 1) == DaysBeforeYear(y) + DaysBeforeMonth(y, 13)
  {
    MultiplesStep(y);
    LeapCount(y);
    YearLength(y);
  }

  /** The day after d is the next day number: Next leaves no gap and repeats nothing. */
  lemma OrdinalNext(d: Date)
    requires Valid(d)
    ensures Ordinal(Next(d)) == Ordinal(d) + 1
  {
    if d.day < DaysInMonth(d.year, d.month) {
    } else if d.month < 12 {
      assert DaysBeforeMonth(d.year, d.month + 1) == DaysBeforeMonth(d.year, d.month) + d.day;
    } else {
      DaysBeforeNextYear(d.year);
      assert DaysBeforeMonth(d.year, 13) == DaysBeforeMonth(d.year, 12) + d.day;
    }
  }

  predicate AllValid(ds: seq<Date>) {
    forall k :: 0 <= k < |ds| ==> Valid(ds[k])
  }

  /** Each date is followed by the day after it. */
  predicate Consecutive(ds: seq<Date>) {
    AllValid(ds) && forall k :: 0 <= k < |ds| - 1 ==> ds[k + 1] == Next(ds[k])
  }

  /** A run of consecutive days is strictly increasing, so no day occurs twice. */
  lemma {:induction false} ConsecutiveIncreasing(ds: seq<Date>)
    requires Consecutive(ds)
    ensures forall i, j :: 0 <= i < j < |ds| ==> Before(ds[i], ds[j])
  {
    if |ds| > 1 {
      var init := ds[..|ds| - 1];
      assert Consecutive(init);
      ConsecutiveIncreasing(init);
      forall i, j | 0 <= i < j < |ds| ensures Before(ds[i], ds[j]) {
        if j < |ds| - 1 {
          assert Before(init[i], init[j]);
        } else if i < j - 1 {
          assert Before(init[i], init[j - 1]);
          assert Before(ds[j - 1], ds[j]);
        }
      }
    }
  }

  /** A run of consecutive days leaves out no valid date between its first and its last. */
  lemma {:induction false} ConsecutiveCovers(ds: seq<Date>, d: Date)
    requires Consecutive(ds) && ds != []
    requires Valid(d) && !Before(d, ds[0]) && !Before(ds[|ds| - 1], d)
    ensures d in ds
  {
    if d != ds[|ds| - 1] {
      var init := ds[..|ds| - 1];
      assert |ds| > 1;
      var p := init[|init| - 1];
      assert ds[|ds| - 1] == Next(p);
      if Before(p, d) {
        NextIsLeast(p, d);
        assert false;
      }
      assert Consecutive(init);
      ConsecutiveCovers(init, d);
    }
  }

  /** The k-th day of a consecutive run has day number k after the first's. */
  lemma {:induction false} ConsecutiveOrdinals(ds: seq<Date>)
    requires Consecutive(ds)
    ensures forall k :: 0 <= k < |ds| ==> Ordinal(ds[k]) == Ordinal(ds[0]) + k
  {
    if |ds| > 1 {
      var init := ds[..|ds| - 1];
      assert Consecutive(init);
      ConsecutiveOrdinals(init);
      OrdinalNext(ds[|ds| - 2]);
    }
  }
}
