/** Days counted one by one, against which the date arithmetic of SEARCH is stated. */
module Calendar {
  import opened Text
  import opened Criteria
  import opened SearchKeys

  /** The days of a year before each month, when it is no leap year. */
  const BEFORE_MONTH: seq<nat> := [0, 31, 59, 90, 120, 151, 181, 212, 243, 273, 304, 334]

  /** The days before a year of the Gregorian calendar, from 1 January of year 1 on. */
  function BeforeYear(y: nat): (n: int) {
    365 * (y - 1) + (y - 1) / 4 - (y - 1) / 100 + (y - 1) / 400
  }

  /** A leap day has passed in the year before the month begins. */
  predicate PastLeapDay(y: nat, m: nat) { m > 2 && (y % 400 == 0 || (y % 4 == 0 && y % 100 != 0)) }

  /** The number of a day: 1 for the zero time, one more for every day after it. */
  function Ordinal(t: Date): (n: int)
    requires 1 <= t.month <= 12
  {
    BeforeYear(t.year) + BEFORE_MONTH[t.month - 1] + (if PastLeapDay(t.year, t.month) then 1 else 0) + t.day
  }

  lemma Multiples(y: nat, k: nat)
    requires k == 4 || k == 100 || k == 400
    ensures y / k - (y - 1) / k == if y % k == 0 then 1 else 0
  {
  }

  lemma YearLength(y: nat)
    ensures BeforeYear(y + 1) == BeforeYear(y) + 365 + if PastLeapDay(y, 12) then 1 else 0
  {
    Multiples(y, 4);
    Multiples(y, 100);
    Multiples(y, 400);
    LeapRule(y);
    hide PastLeapDay;
  }

  lemma LeapRule(y: nat)
    ensures (if y % 4 == 0 then 1 else 0) - (if y % 100 == 0 then 1 else 0) + (if y % 400 == 0 then 1 else 0)
            == if PastLeapDay(y, 12) then 1 else 0
  {
    if y % 100 == 0 { Hundreds(y, y / 100); }
    if y % 400 == 0 { FourHundreds(y, y / 400); }
  }

  lemma Hundreds(y: nat, q: nat)
    requires y == 100 * q
    ensures y % 4 == 0
  {
    var r := 25 * q;
    assert y == 4 * r;
  }

  lemma FourHundreds(y: nat, q: nat)
    requires y == 400 * q
    ensures y % 100 == 0
  {
    var r := 4 * q;
    assert y == 100 * r;
  }

  lemma MonthLength(y: nat, m: nat)
    requires 1 <= m <= 12
    ensures BEFORE_MONTH[m - 1] + DaysIn(y, m) + (if PastLeapDay(y, m) then 1 else 0)
            == if m == 12 then 365 + (if PastLeapDay(y, 12) then 1 else 0)
               else BEFORE_MONTH[m] + if PastLeapDay(y, m + 1) then 1 else 0
  {
    assert y % 400 == 0 ==> y % 4 == 0;
  }

  /** The day after has the next number, across months, years and leap days. */
  lemma NextDayOrdinal(t: Date)
    requires ValidDate(t)
    ensures ValidDate(NextDay(t)) && Ordinal(NextDay(t)) == Ordinal(t) + 1
  {
    MonthLength(t.year, t.month);
    YearLength(t.year);
    hide BeforeYear, PastLeapDay;
  }

  lemma WithinYear(t: Date)
    requires ValidDate(t)
    ensures BeforeYear(t.year) < Ordinal(t) <= BeforeYear(t.year + 1)
  {
    MonthLength(t.year, t.month);
    YearLength(t.year);
    hide BeforeYear;
  }

  lemma {:induction false} YearsGrow(y: nat, z: nat)
    requires y <= z
    ensures BeforeYear(y) <= BeforeYear(z)
    decreases z
  {
    hide BeforeYear;
    if y < z {
      YearsGrow(y, z - 1);
      YearLength(z - 1);
    }
  }

  lemma MonthsGrow(a: Date, b: Date)
    requires ValidDate(a) && ValidDate(b) && a.year == b.year && a.month < b.month
    ensures Ordinal(a) < Ordinal(b)
  {
    MonthLength(a.year, a.month);
    hide BeforeYear;
  }

  /** A day that the model calls earlier has a smaller number. */
  lemma EarlierCounts(a: Date, b: Date)
    requires ValidDate(a) && ValidDate(b) && Earlier(a, b)
    ensures Ordinal(a) < Ordinal(b)
  {
    WithinYear(a);
    WithinYear(b);
    if a.year < b.year {
      YearsGrow(a.year + 1, b.year);
      hide Ordinal, BeforeYear;
    } else if a.month < b.month {
      MonthsGrow(a, b);
    }
  }

  /** The order of days is the order of their numbers, and the number tells the day. */
  lemma EarlierIsOrdinal(a: Date, b: Date)
    requires ValidDate(a) && ValidDate(b)
    ensures Earlier(a, b) <==> Ordinal(a) < Ordinal(b)
    ensures a == b <==> Ordinal(a) == Ordinal(b)
  {
    assert a == b || Earlier(a, b) || Earlier(b, a);
    hide Ordinal;
    if Earlier(a, b) { EarlierCounts(a, b); }
    if Earlier(b, a) { EarlierCounts(b, a); }
  }

  /** What the date keys ask of a day: the day itself, that day or a later one, an earlier one. */
  lemma DayKeyMeans(x: Date, key: DateKey, t: Date)
    requires ValidDate(x) && ValidDate(t)
    ensures InDays(x, key, t) <==>
              match key
              case On => x == t
              case SentOn => x == t
              case Since => Ordinal(x) >= Ordinal(t)
              case SentSince => Ordinal(x) >= Ordinal(t)
              case Before => Ordinal(x) < Ordinal(t)
              case SentBefore => Ordinal(x) < Ordinal(t)
  {
    NextDayOrdinal(t);
    EarlierIsOrdinal(x, t);
    EarlierIsOrdinal(x, NextDay(t));
    hide Ordinal, Earlier, NextDay, ValidDate;
  }

  /** matchDate: a message of day t lies between the limits that are set, the lower one included. */
  lemma MatchDateMeans(t: Date, since: Date, before: Date)
    requires ValidDate(t) && ValidDate(since) && ValidDate(before)
    ensures MatchDate(t, since, before) <==>
              && (since == Date(1, 1, 1) || Ordinal(since) <= Ordinal(t))
              && (before == Date(1, 1, 1) || Ordinal(t) < Ordinal(before))
  {
    EarlierIsOrdinal(t, since);
    EarlierIsOrdinal(t, before);
    hide Ordinal, Earlier, ValidDate;
  }

  /** Intersecting limits takes the later lower one and the earlier upper one. */
  lemma IntersectMeans(a: Date, b: Date)
    requires ValidDate(a) && ValidDate(b) && a != ZERO && b != ZERO
    ensures Ordinal(IntersectSince(a, b)) == if Ordinal(a) > Ordinal(b) then Ordinal(a) else Ordinal(b)
    ensures Ordinal(IntersectBefore(a, b)) == if Ordinal(a) < Ordinal(b) then Ordinal(a) else Ordinal(b)
  {
    EarlierIsOrdinal(a, b);
    EarlierIsOrdinal(b, a);
    hide Ordinal, Earlier, ValidDate;
  }
}
