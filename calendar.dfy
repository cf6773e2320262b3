/**
  The proleptic Gregorian calendar behind DateTime's Year, Month, Day,
  DaysInMonth and `new DateTime(y, m, d)`, over day numbers: day 0 is
  0001-01-01, the first day DateTime can hold.
*/
module Calendar {

  predicate IsLeap(y: nat)
  {
    y % 4 == 0 && (y % 100 != 0 || y % 400 == 0)
  }

  function YearLength(y: nat): nat
  {
    if IsLeap(y) then 366 else 365
  }

  /** Days from 0001-01-01 to the first of January of year y. */
  function DaysBeforeYear(y: nat): nat
    requires y >= 1
  {
    365 * (y - 1) + (y - 1) / 4 - (y - 1) / 100 + (y - 1) / 400
  }

  lemma NextYearStart(y: nat)
    requires y >= 1
    ensures DaysBeforeYear(y + 1) == DaysBeforeYear(y) + YearLength(y)
  {
    var n := y - 1;
    assert (n + 1) / 4 == n / 4 + (if y % 4 == 0 then 1 else 0);
    assert (n + 1) / 100 == n / 100 + (if y % 100 == 0 then 1 else 0);
    assert (n + 1) / 400 == n / 400 + (if y % 400 == 0 then 1 else 0);
  }

  /** DateTime.DaysInMonth. */
  function DaysInMonth(y: nat, m: nat): (n: nat)
    requires 1 <= m <= 12
    ensures 28 <= n <= 31
    ensures m == 2 ==> (n == 29 <==> IsLeap(y))
  {
    if m == 2 then (if IsLeap(y) then 29 else 28)
    else if m == 4 || m == 6 || m == 9 || m == 11 then 30
    else 31
  }

  /** Days from the first of January to the first of month m (m == 13 gives the whole year). */
  function DaysBeforeMonth(y: nat, m: nat): nat
    requires 1 <= m <= 13
  {
    if m == 1 then 0 else DaysBeforeMonth(y, m - 1) + DaysInMonth(y, m - 1)
  }

  lemma MonthsFillYear(y: nat)
    ensures DaysBeforeMonth(y, 13) == YearLength(y)
  {
    assert DaysBeforeMonth(y, 2) == 31;
    assert DaysBeforeMonth(y, 3) == 31 + DaysInMonth(y, 2);
    assert DaysBeforeMonth(y, 4) == DaysBeforeMonth(y, 3) + 31;
    assert DaysBeforeMonth(y, 5) == DaysBeforeMonth(y, 3) + 61;
    assert DaysBeforeMonth(y, 6) == DaysBeforeMonth(y, 3) + 92;
    assert DaysBeforeMonth(y, 7) == DaysBeforeMonth(y, 3) + 122;
    assert DaysBeforeMonth(y, 8) == DaysBeforeMonth(y, 3) + 153;
    assert DaysBeforeMonth(y, 9) == DaysBeforeMonth(y, 3) + 184;
    assert DaysBeforeMonth(y, 10) == DaysBeforeMonth(y, 3) + 214;
    assert DaysBeforeMonth(y, 11) == DaysBeforeMonth(y, 3) + 245;
    assert DaysBeforeMonth(y, 12) == DaysBeforeMonth(y, 3) + 275;
    assert DaysBeforeMonth(y, 13) == DaysBeforeMonth(y, 3) + 306;
  }

  /** `new DateTime(y, m, d)` as a day number. */
  function DayNumber(y: nat, m: nat, d: nat): nat
    requires y >= 1 && 1 <= m <= 12 && 1 <= d <= DaysInMonth(y, m)
  {
    DaysBeforeYear(y) + DaysBeforeMonth(y, m) + (d - 1)
  }

  function YearSearch(y: nat, dn: nat): (r: nat)
    requires y >= 1 && DaysBeforeYear(y) <= dn
    ensures r >= y && DaysBeforeYear(r) <= dn < DaysBeforeYear(r) + YearLength(r)
    decreases dn - DaysBeforeYear(y)
  {
    NextYearStart(y);
    if dn < DaysBeforeYear(y + 1) then y else YearSearch(y + 1, dn)
  }

  /** DateTime.Year. */
  function YearOf(dn: nat): (y: nat)
    ensures y >= 1 && DaysBeforeYear(y) <= dn < DaysBeforeYear(y) + YearLength(y)
  {
    YearSearch(1, dn)
  }

  function MonthSearch(y: nat, m: nat, off: nat): (r: nat)
    requires 1 <= m <= 12 && DaysBeforeMonth(y, m) <= off < DaysBeforeMonth(y, 13)
    ensures m <= r <= 12 && DaysBeforeMonth(y, r) <= off < DaysBeforeMonth(y, r) + DaysInMonth(y, r)
    decreases 12 - m
  {
    if off < DaysBeforeMonth(y, m + 1) then m else MonthSearch(y, m + 1, off)
  }

  /** DateTime.Month. */
  function MonthOf(dn: nat): (m: nat)
    ensures 1 <= m <= 12
    ensures var y := YearOf(dn);
      DayNumber(y, m, 1) <= dn < DayNumber(y, m, 1) + DaysInMonth(y, m)
  {
    var y := YearOf(dn);
    MonthsFillYear(y);
    MonthSearch(y, 1, dn - DaysBeforeYear(y))
  }
}
