/**
 The proleptic Gregorian calendar on day ordinals (day 1 is Monday, 1 January
 of year 1) and the week numbering of ISO 8601-1.
 */
module IsoCalendar {

  function DaysBeforeYear(y: nat): int
    requires y >= 1
  {
    (y - 1) * 365 + (y - 1) / 4 - (y - 1) / 100 + (y - 1) / 400
  }

  lemma YearLength(y: nat)
    requires y >= 1
    ensures 365 <= DaysBeforeYear(y + 1) - DaysBeforeYear(y) <= 366
  {
    QuotientsOf4(y - 1);
    QuotientsOf100(y - 1);
    QuotientsOf400(y - 1);
    CenturiesAreMultiples(y);
  }

  /** A year has 366 days exactly if it is divisible by 4 and not by 100, or by 400. */
  lemma LeapYears(y: nat)
    requires y >= 1
    ensures DaysBeforeYear(1) == 0
    ensures DaysBeforeYear(y + 1) - DaysBeforeYear(y) ==
              if y % 4 == 0 && (y % 100 != 0 || y % 400 == 0) then 366 else 365
  {
    QuotientsOf4(y - 1);
    QuotientsOf100(y - 1);
    QuotientsOf400(y - 1);
    CenturiesAreMultiples(y);
  }

  lemma QuotientsOf4(a: nat)
    ensures (a + 1) / 4 - a / 4 == if (a + 1) % 4 == 0 then 1 else 0
  {}

  lemma QuotientsOf100(a: nat)
    ensures (a + 1) / 100 - a / 100 == if (a + 1) % 100 == 0 then 1 else 0
  {}

  lemma QuotientsOf400(a: nat)
    ensures (a + 1) / 400 - a / 400 == if (a + 1) % 400 == 0 then 1 else 0
  {}

  lemma CenturiesAreMultiples(y: nat)
    ensures y % 100 == 0 ==> y % 4 == 0
    ensures y % 400 == 0 ==> y % 100 == 0
  {
    if y % 100 == 0 {
      assert y == 4 * (25 * (y / 100));
    }
    if y % 400 == 0 {
      assert y == 100 * (4 * (y / 400));
    }
  }

  lemma {:induction false} YearsAreLong(y: nat)
    requires y >= 1
    ensures DaysBeforeYear(y) >= 365 * (y - 1)
  {
    if y > 1 {
      YearsAreLong(y - 1);
      YearLength(y - 1);
    }
  }

  /** The year of a day, searched downwards from a year that has not begun. */
  function YearFrom(day: int, y: nat): (r: nat)
    requires day >= 1 && y >= 1 && day <= DaysBeforeYear(y + 1)
    ensures r >= 1 && DaysBeforeYear(r) < day <= DaysBeforeYear(r + 1)
  {
    if DaysBeforeYear(y) < day then y else YearFrom(day, y - 1)
  }

  function YearOf(day: int): (r: nat)
    requires day >= 1
    ensures r >= 1 && DaysBeforeYear(r) < day <= DaysBeforeYear(r + 1)
  {
    YearsAreLong(day / 365 + 2);
    YearFrom(day, day / 365 + 1)
  }

  /** Monday is 0. */
  function Weekday(day: int): int { (day + 6) % 7 }

  function MondayOf(day: int): int { day - Weekday(day) }

  /** The numbering of section 5.2.4 of ISO 8601-1:2019: a week belongs to the year that holds its
      Thursday, and weeks are counted from the first such week of the year. */
  function IsoWeek(day: int): (int, int)
    requires day >= 1
  {
    var thursday := MondayOf(day) + 3;
    var year := YearOf(thursday);
    (year, (thursday - DaysBeforeYear(year) - 1) / 7 + 1)
  }

  lemma MondayIsMonday(day: int)
    ensures Weekday(MondayOf(day)) == 0 && MondayOf(day) <= day < MondayOf(day) + 7
    ensures MondayOf(day) % 7 == 1
  {}

  /** The Monday on or up to six days before a day is unique. */
  lemma MondayUnique(monday: int, day: int)
    requires monday % 7 == 1 && monday <= day < monday + 7
    ensures monday == MondayOf(day)
  {}

  lemma SameSeventh(x: int, y: int)
    requires x / 7 == y / 7 && x % 7 == y % 7
    ensures x == y
  {}

  lemma ShiftKeepsRemainder(a: int, b: int, d: int)
    requires a % 7 == b % 7
    ensures (a - d) % 7 == (b - d) % 7
  {
    assert (a - b) % 7 == 0;
    assert (a - d) - (b - d) == a - b;
  }

  /** Week 1 is the week with 4 January in it, and numbers run from 1 to 53. */
  lemma WeekOneHoldsJanuaryFourth(day: int)
    requires day >= 1
    ensures var (year, week) := IsoWeek(day);
            && 1 <= year && 1 <= week <= 53
            && (week == 1 <==> MondayOf(day) == MondayOf(DaysBeforeYear(year) + 4))
  {
    hide YearOf, DaysBeforeYear, MondayOf, Weekday;
    MondayIsMonday(day);
    var year := YearOf(MondayOf(day) + 3);
    YearLength(year);
    var fourth := DaysBeforeYear(year) + 4;
    MondayIsMonday(fourth);
    if MondayOf(day) <= fourth < MondayOf(day) + 7 {
      MondayUnique(MondayOf(day), fourth);
    }
  }

  /** The next week has the next number, or number 1 in the next year. */
  lemma ConsecutiveWeeks(day: int)
    requires day >= 1
    ensures var (year, week) := IsoWeek(day);
            IsoWeek(day + 7) == (year, week + 1) || (IsoWeek(day + 7) == (year + 1, 1) && week >= 52)
  {
    hide YearOf, DaysBeforeYear, MondayOf, Weekday;
    MondayIsMonday(day);
    NextMonday(day);
    var thursday := MondayOf(day) + 3;
    var year, next := YearOf(thursday), YearOf(thursday + 7);
    YearLength(year);
    YearLength(year + 1);
    if next > year + 1 {
      YearsAscend(year + 2, next);
    } else if next < year {
      YearsAscend(next + 1, year);
    }
  }

  lemma NextMonday(day: int)
    ensures MondayOf(day + 7) == MondayOf(day) + 7
  {}

  lemma {:induction false} YearsAscend(a: nat, b: nat)
    requires 1 <= a <= b
    ensures DaysBeforeYear(a) <= DaysBeforeYear(b)
  {
    hide DaysBeforeYear;
    if a < b {
      YearsAscend(a, b - 1);
      YearLength(b - 1);
    }
  }

  /** Equal (year, week) pairs mean the same Monday-started week, and conversely. */
  lemma SameIsoWeekIffSameMonday(a: int, b: int)
    requires a >= 1 && b >= 1
    ensures IsoWeek(a) == IsoWeek(b) <==> MondayOf(a) == MondayOf(b)
  {
    hide YearOf, DaysBeforeYear, MondayOf, Weekday;
    MondayIsMonday(a);
    MondayIsMonday(b);
    if IsoWeek(a) == IsoWeek(b) {
      var shift := DaysBeforeYear(IsoWeek(a).0) - 2;
      ShiftKeepsRemainder(MondayOf(a), MondayOf(b), shift);
      SameSeventh(MondayOf(a) - shift, MondayOf(b) - shift);
    }
  }
}
