/** Naive Gregorian calendar dates, as Python's `datetime.date` represents
    them: a (year, month, day) triple, the successor day, the day number
    (`toordinal`) and the inclusive range of days between two dates. */
module Dates {

  datatype Date = Date(year: int, month: int, day: int)

  const MinYear := 1
  const MaxYear := 9999

  predicate IsLeapYear(y: int) {
    y % 4 == 0 && (y % 100 != 0 || y % 400 == 0)
  }

  function DaysInMonth(y: int, m: int): (n: int)
    requires 1 <= m <= 12
    ensures 28 <= n <= 31
  {
    if m == 2 then (if IsLeapYear(y) then 29 else 28)
    else if m == 4 || m == 6 || m == 9 || m == 11 then 30
    else 31
  }

  /** Month and day form a day of the Gregorian calendar (the year is unbounded). */
  predicate Wellformed(d: Date) {
    1 <= d.month <= 12 && 1 <= d.day <= DaysInMonth(d.year, d.month)
  }

  /** A value of Python's `date` type: years run from 1 to 9999. */
  predicate Valid(d: Date) {
    MinYear <= d.year <= MaxYear && Wellformed(d)
  }

  /** Chronological order: `a <= b` on Python dates. */
  predicate Le(a: Date, b: Date) {
    a.year < b.year || (a.year == b.year && (a.month < b.month || (a.month == b.month && a.day <= b.day)))
  }

  predicate Lt(a: Date, b: Date) { Le(a, b) && a != b }

  /** `d + timedelta(days=1)`. */
  function NextDay(d: Date): (n: Date)
    requires Wellformed(d)
    ensures Wellformed(n) && Lt(d, n)
  {
    if d.day < DaysInMonth(d.year, d.month) then d.(day := d.day + 1)
    else if d.month < 12 then Date(d.year, d.month + 1, 1)
    else Date(d.year + 1, 1, 1)
  }

  /** No day lies strictly between a day and its successor. */
  lemma NextDayTight(a: Date, b: Date)
    requires Wellformed(a) && Wellformed(b) && Lt(a, b)
    ensures Le(NextDay(a), b)
  {
  }

  // ---------------------------------------------------------------------------
  // Day numbers, as Python's `date.toordinal()` computes them.
  // ---------------------------------------------------------------------------

  function DaysBeforeYear(y: int): int {
    var z := y - 1;
    365 * z + z / 4 - z / 100 + z / 400
  }

  function DaysBeforeMonth(y: int, m: int): int
    requires 1 <= m <= 12
  {
    if m == 1 then 0 else DaysBeforeMonth(y, m - 1) + DaysInMonth(y, m - 1)
  }

  function Ordinal(d: Date): int
    requires Wellformed(d)
  {
    DaysBeforeYear(d.year) + DaysBeforeMonth(d.year, d.month) + d.day
  }

  lemma DaysInYear(y: int)
    ensures DaysBeforeMonth(y, 12) + 31 == if IsLeapYear(y) then 366 else 365
  {
    assert DaysBeforeMonth(y, 2) == 31;
    assert DaysBeforeMonth(y, 3) == 31 + DaysInMonth(y, 2);
    assert DaysBeforeMonth(y, 4) == DaysBeforeMonth(y, 3) + 31;
    assert DaysBeforeMonth(y, 5) == DaysBeforeMonth(y, 4) + 30;
    assert DaysBeforeMonth(y, 6) == DaysBeforeMonth(y, 5) + 31;
    assert DaysBeforeMonth(y, 7) == DaysBeforeMonth(y, 6) + 30;
    assert DaysBeforeMonth(y, 8) == DaysBeforeMonth(y, 7) + 31;
    assert DaysBeforeMonth(y, 9) == DaysBeforeMonth(y, 8) + 31;
    assert DaysBeforeMonth(y, 10) == DaysBeforeMonth(y, 9) + 30;
    assert DaysBeforeMonth(y, 11) == DaysBeforeMonth(y, 10) + 31;
    assert DaysBeforeMonth(y, 12) == DaysBeforeMonth(y, 11) + 30;
  }

  lemma DaysBeforeNextYear(y: int)
    ensures DaysBeforeYear(y + 1) == DaysBeforeYear(y) + (if IsLeapYear(y) then 366 else 365)
  {
    DivStep(y, 4);
    DivStep(y, 100);
    DivStep(y, 400);
  }

  /** Stepping back one from `y` lowers the quotient by `n` exactly when `n` divides `y`. */
  lemma DivStep(y: int, n: int)
    requires n > 0
    ensures y / n - (y - 1) / n == if y % n == 0 then 1 else 0
  {
    var q, r := y / n, y % n;
    if r == 0 {
      DivUnique(y - 1, n, q - 1, n - 1);
    } else {
      DivUnique(y - 1, n, q, r - 1);
    }
  }

  /** Euclidean division has one quotient. */
  lemma DivUnique(x: int, n: int, q: int, r: int)
    requires n > 0 && 0 <= r < n && x == q * n + r
    ensures x / n == q
  {
    var q', r' := x / n, x % n;
    assert (q - q') * n == r' - r by {
      assert x == q' * n + r';
      assert (q - q') * n == q * n - q' * n;
    }
    if q' != q {
      MulAtLeast(q - q', n);
    }
  }

  /** A non-zero multiple of `n` is at least `n` in size. */
  lemma MulAtLeast(a: int, n: int)
    requires n > 0 && a != 0
    ensures a * n >= n || a * n <= -n
  {
    if a > 0 {
      MulGrows(a, n);
    } else {
      MulGrows(-a, n);
      assert a * n == -((-a) * n);
    }
  }

  lemma {:induction false} MulGrows(a: nat, n: nat)
    requires a > 0
    ensures a * n >= n
  {
    if a > 1 {
      MulGrows(a - 1, n);
      assert a * n == (a - 1) * n + n;
    }
  }

  /** The successor day has the next day number. */
  lemma NextDayOrdinal(d: Date)
    requires Wellformed(d)
    ensures Ordinal(NextDay(d)) == Ordinal(d) + 1
  {
    if d.day == DaysInMonth(d.year, d.month) && d.month == 12 {
      DaysInYear(d.year);
      DaysBeforeNextYear(d.year);
    }
  }

  // ---------------------------------------------------------------------------
  // The days of an inclusive range.
  // ---------------------------------------------------------------------------

  /** `first`, its successor, ..., up to and including `last`; empty when `last` is before `first`. */
  function Days(first: Date, last: Date): seq<Date>
    requires Wellformed(first)
    decreases last.year - first.year, 12 - first.month, 31 - first.day
  {
    if !Le(first, last) then [] else [first] + Days(NextDay(first), last)
  }

  /** The range holds `(last - first).days + 1` days, and none when `last` is before
      `first`: exactly the count `range((end - start).days + 1)` iterates over. */
  lemma {:induction false} DaysLength(first: Date, last: Date)
    requires Wellformed(first) && Wellformed(last)
    ensures |Days(first, last)| == if Le(first, last) then Ordinal(last) - Ordinal(first) + 1 else 0
    ensures Le(first, last) <==> Ordinal(first) <= Ordinal(last)
    decreases last.year - first.year, 12 - first.month, 31 - first.day
  {
    if Le(first, last) {
      NextDayOrdinal(first);
      if first == last {
        assert !Le(NextDay(first), last);
      } else {
        NextDayTight(first, last);
        DaysLength(NextDay(first), last);
      }
    } else {
      OrdinalLt(last, first);
    }
  }

  /** Day numbers grow with the date. */
  lemma {:induction false} OrdinalLt(a: Date, b: Date)
    requires Wellformed(a) && Wellformed(b) && Lt(a, b)
    ensures Ordinal(a) < Ordinal(b)
    decreases b.year - a.year, 12 - a.month, 31 - a.day
  {
    NextDayTight(a, b);
    NextDayOrdinal(a);
    if NextDay(a) != b {
      OrdinalLt(NextDay(a), b);
    }
  }

  /** Every day of the range lies between its ends, and the days strictly ascend. */
  lemma {:induction false} DaysInRange(first: Date, last: Date)
    requires Wellformed(first)
    ensures forall i :: 0 <= i < |Days(first, last)| ==>
      Wellformed(Days(first, last)[i]) && Le(first, Days(first, last)[i]) && Le(Days(first, last)[i], last)
    ensures forall i, j :: 0 <= i < j < |Days(first, last)| ==> Lt(Days(first, last)[i], Days(first, last)[j])
    decreases last.year - first.year, 12 - first.month, 31 - first.day
  {
    if Le(first, last) {
      var next := NextDay(first);
      DaysInRange(next, last);
      var s := Days(first, last);
      assert s == [first] + Days(next, last);
      forall i | 0 < i < |s|
        ensures Lt(first, s[i])
      {
        assert s[i] == Days(next, last)[i - 1];
      }
    }
  }

  /** Every well-formed day between the ends belongs to the range. */
  lemma {:induction false} DaysComplete(first: Date, last: Date, d: Date)
    requires Wellformed(first) && Wellformed(d)
    requires Le(first, d) && Le(d, last)
    ensures d in Days(first, last)
    decreases last.year - first.year, 12 - first.month, 31 - first.day
  {
    if d != first {
      NextDayTight(first, d);
      DaysComplete(NextDay(first), last, d);
    }
  }

  /** Between two valid dates every day is valid. */
  lemma DaysValid(first: Date, last: Date)
    requires Valid(first) && Valid(last)
    ensures forall i :: 0 <= i < |Days(first, last)| ==> Valid(Days(first, last)[i])
  {
    DaysInRange(first, last);
  }
}
