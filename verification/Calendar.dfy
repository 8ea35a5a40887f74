/** The two pieces of calendar arithmetic the backtests rely on: business-day offsets
    (`BDay`, weekends roll) and year offsets (`DateOffset(years=n)`, 29 February clamps).

    A day is an integer; day 0 is 1 January of year 0 in the proleptic Gregorian calendar,
    which is a Saturday, like 1 January 2000. */
module Calendar {

  type Day = int

  // ----- weekdays and business-day offsets -----

  /** Monday is 0, Sunday is 6. */
  function Weekday(d: Day): (w: int)
    ensures 0 <= w < 7
  {
    (d + 5) % 7
  }

  predicate IsWeekend(d: Day) {
    Weekday(d) > 4
  }

  /** `d + BDay(n)`: whole weeks first, then the rest of the offset within a week. */
  function BDay(d: Day, n: int): Day {
    var w := Weekday(d);
    var weeks := n / 5;
    var rest := (if n <= 0 && w > 4 then n + 1 else n) - 5 * weeks;
    d + 7 * weeks +
    if rest == 0 && w > 4 then 4 - w
    else if w > 4 then 7 - w + (rest - 1)
    else if w + rest <= 4 then rest
    else rest + 2
  }

  /** The reference notion BDay is measured against: the first weekday after `d`. */
  function NextBusinessDay(d: Day): (next: Day)
    ensures d < next && !IsWeekend(next)
    ensures forall e :: d < e < next ==> IsWeekend(e)
  {
    if Weekday(d) == 4 then d + 3
    else if Weekday(d) == 5 then d + 2
    else d + 1
  }

  // Weekdays in a row: week `i / 5`, day `i % 5` of it.

  function BusinessDay(i: int): Day {
    7 * (i / 5) + i % 5 - 5
  }

  /** Where `n` business days from `d` lead; from a weekend, forward offsets start from the Friday
      before and others from the Monday after. */
  function BusinessIndex(d: Day, n: int): int {
    5 * ((d + 5) / 7) + (if Weekday(d) <= 4 then Weekday(d) else if n > 0 then 4 else 5) + n
  }

  lemma Fifths(q: int, r: int)
    requires 0 <= r < 5
    ensures (5 * q + r) / 5 == q && (5 * q + r) % 5 == r
  {
  }

  lemma Sevenths(q: int, r: int)
    requires 0 <= r < 7
    ensures (7 * q + r) / 7 == q && (7 * q + r) % 7 == r
  {
  }

  lemma BDayIsIndexed(d: Day, n: int)
    ensures BDay(d, n) == BusinessDay(BusinessIndex(d, n))
  {
    var week, weeks, rest := (d + 5) / 7, n / 5, n % 5;
    var steps := BusinessIndex(d, n) - 5 * (week + weeks);
    if steps < 5 {
      Fifths(week + weeks, steps);
    } else {
      Fifths(week + weeks + 1, steps - 5);
    }
  }

  lemma BusinessDayOrder(i: int, j: int)
    ensures i < j <==> BusinessDay(i) < BusinessDay(j)
    ensures !IsWeekend(BusinessDay(i))
    ensures BusinessDay(i + 1) == NextBusinessDay(BusinessDay(i))
  {
    Sevenths(i / 5, i % 5);
    if i % 5 == 4 {
      Fifths(i / 5 + 1, 0);
    } else {
      Fifths(i / 5, i % 5 + 1);
    }
  }

  lemma IndexOrder(d: Day, e: Day, n: int)
    ensures d <= e ==> BusinessIndex(d, n) <= BusinessIndex(e, n)
    ensures d < e && n > 0 && BusinessIndex(d, n) == BusinessIndex(e, n) ==> IsWeekend(e)
  {
  }

  lemma NeighboursOf(d: Day)
    ensures BusinessDay(BusinessIndex(d, 0) - 1) < d <= BusinessDay(BusinessIndex(d, 0))
  {
    var week, w := (d + 5) / 7, Weekday(d);
    Fifths(week + 1, 0);
    Fifths(week, 4);
    if w <= 4 {
      Fifths(week, w);
    }
    if 0 < w <= 4 {
      Fifths(week, w - 1);
    }
    Fifths(week - 1, 4);
  }

  lemma BDayStep(d: Day, n: nat)
    requires 1 <= n
    ensures BDay(d, 1) == NextBusinessDay(d)
    ensures BDay(d, n + 1) == NextBusinessDay(BDay(d, n))
  {
    BDayIsIndexed(d, 1);
    BDayIsIndexed(d, n);
    BDayIsIndexed(d, n + 1);
    BusinessDayOrder(BusinessIndex(d, n), 0);
    OneStep(d);
  }

  lemma OneStep(d: Day)
    ensures BusinessDay(BusinessIndex(d, 1)) == NextBusinessDay(d)
  {
    var week, w := (d + 5) / 7, Weekday(d);
    Fifths(week + 1, 0);
    if w < 4 {
      Fifths(week, w + 1);
    }
  }

  lemma BDayOrder(d: Day, e: Day, n: int)
    ensures d <= e ==> BDay(d, n) <= BDay(e, n)
    ensures 0 <= n ==> d <= BDay(d, n)
    ensures 0 < n ==> d < BDay(d, n)
    ensures n < 0 ==> BDay(d, n) < d
    ensures !IsWeekend(BDay(d, n))
  {
    BDayIsIndexed(d, n);
    BDayIsIndexed(e, n);
    BusinessDayOrder(BusinessIndex(e, n), BusinessIndex(d, n));
    IndexOrder(d, e, n);
    NotBefore(d, n);
    BusinessDayOrder(BusinessIndex(d, n), 0);
  }

  lemma NotBefore(d: Day, n: int)
    ensures 0 <= n ==> d <= BusinessDay(BusinessIndex(d, n))
    ensures 0 < n ==> d < BusinessDay(BusinessIndex(d, n))
    ensures n < 0 ==> BusinessDay(BusinessIndex(d, n)) < d
  {
    NeighboursOf(d);
    OneStep(d);
    BusinessDayOrder(BusinessIndex(d, n), BusinessIndex(d, 1));
    BusinessDayOrder(BusinessIndex(d, 0) - 1, BusinessIndex(d, n));
  }

  /** Two different days are carried to the same business day only when every later one of
      them is a weekend day: weekdays keep apart. */
  lemma BDayMergesOnlyWeekends(d: Day, e: Day, n: nat)
    requires d < e && 1 <= n && BDay(d, n) == BDay(e, n)
    ensures IsWeekend(e)
  {
    BDayIsIndexed(d, n);
    BDayIsIndexed(e, n);
    BusinessDayOrder(BusinessIndex(d, n), BusinessIndex(e, n));
    BusinessDayOrder(BusinessIndex(e, n), BusinessIndex(d, n));
    IndexOrder(d, e, n);
  }

  /** Counted from 1 January 2000, which was a Saturday. */
  predicate SaturdayOrSunday(d: Day) {
    (d - DayNumber(Civil(2000, 0))) % 7 < 2
  }

  lemma WeekendsAreSaturdaysAndSundays(d: Day)
    ensures IsWeekend(d) <==> SaturdayOrSunday(d)
  {
    FirstOfJanuary2000();
  }

  /** From any day one business day leads to the first day after it that is neither a Saturday nor a
      Sunday; further ones and backward ones follow step by step, and none leaves a weekday where it is. */
  lemma BDaySkipsSaturdaysAndSundays(d: Day, n: int)
    ensures d < BDay(d, 1) && !SaturdayOrSunday(BDay(d, 1))
    ensures forall e :: d < e < BDay(d, 1) ==> SaturdayOrSunday(e)
    ensures BDay(d, 0) == if SaturdayOrSunday(d) then BDay(d, 1) else d
    ensures 1 <= n ==> BDay(d, n + 1) == BDay(BDay(d, n), 1)
    ensures n <= 0 ==> BDay(BDay(d, n - 1), 1) == BDay(d, n)
  {
    BDayStep(d, 1);
    forall e ensures IsWeekend(e) <==> SaturdayOrSunday(e) {
      WeekendsAreSaturdaysAndSundays(e);
    }
    if 1 <= n {
      BDayStep(d, n);
      BDayStep(BDay(d, n), 1);
    } else {
      BackwardStep(d, n);
    }
  }

  lemma BackwardStep(d: Day, n: int)
    requires n <= 0
    ensures BDay(BDay(d, n - 1), 1) == BDay(d, n)
  {
    BDayIsIndexed(d, n);
    BDayIsIndexed(d, n - 1);
    BusinessDayOrder(BusinessIndex(d, n - 1), 0);
    BDayStep(BDay(d, n - 1), 1);
  }

  // ----- timestamps -----

  /** Nanoseconds since the start of day 0; a pandas Timestamp. */
  type Timestamp = int

  const DAY_NS := 86_400_000_000_000

  function DayOf(t: Timestamp): Day {
    t / DAY_NS
  }

  function ClockOf(t: Timestamp): (c: int)
    ensures 0 <= c < DAY_NS
  {
    t % DAY_NS
  }

  function Midnight(d: Day): Timestamp {
    d * DAY_NS
  }

  lemma DayOfMidnight(d: Day)
    ensures DayOf(Midnight(d)) == d && ClockOf(Midnight(d)) == 0
  {
  }

  /** `t + BDay(n)` moves the day and keeps the time of day. */
  function AddBDay(t: Timestamp, n: int): (r: Timestamp)
    ensures DayOf(r) == BDay(DayOf(t), n) && ClockOf(r) == ClockOf(t)
  {
    Midnight(BDay(DayOf(t), n)) + ClockOf(t)
  }

  lemma TimestampOrder(t: Timestamp, u: Timestamp)
    ensures t <= u <==> DayOf(t) < DayOf(u) || (DayOf(t) == DayOf(u) && ClockOf(t) <= ClockOf(u))
  {
    assert t == Midnight(DayOf(t)) + ClockOf(t);
    assert u == Midnight(DayOf(u)) + ClockOf(u);
  }

  // ----- civil dates and year offsets -----

  predicate IsLeap(y: int) {
    y % 4 == 0 && (y % 100 != 0 || y % 400 == 0)
  }

  /** The month and day of a date, as a position in a 366-day year: 59 is 29 February. */
  const FEB_29 := 59

  datatype Civil = Civil(year: int, slot: int) {
    predicate Valid() {
      0 <= slot < 366 && (slot == FEB_29 ==> IsLeap(year))
    }
  }

  function YearStart(y: int): Day {
    365 * y + (y + 3) / 4 - (y + 99) / 100 + (y + 399) / 400
  }

  function DayNumber(c: Civil): Day {
    YearStart(c.year) + if IsLeap(c.year) || c.slot < FEB_29 then c.slot else c.slot - 1
  }

  function YearLength(y: int): int {
    if IsLeap(y) then 366 else 365
  }

  lemma YearStep(y: int)
    ensures YearStart(y + 1) == YearStart(y) + YearLength(y)
  {
    FourthsGrow(y);
    HundredthsGrow(y);
    FourHundredthsGrow(y);
    Divisors(y);
  }

  lemma Divisors(y: int)
    ensures y % 400 == 0 ==> y % 100 == 0
    ensures y % 100 == 0 ==> y % 4 == 0
  {
    Multiple(y / 100, y / 400, y);
    assert y % 100 == 0 ==> y == 4 * (25 * (y / 100));
  }

  lemma Multiple(hundreds: int, fourHundreds: int, y: int)
    requires hundreds == y / 100 && fourHundreds == y / 400
    ensures y % 400 == 0 ==> y % 100 == 0
  {
    assert y % 400 == 0 ==> y == 100 * (4 * fourHundreds);
  }

  lemma FourthsGrow(y: int)
    ensures (y + 1 + 3) / 4 - (y + 3) / 4 == if y % 4 == 0 then 1 else 0
  {
  }

  lemma HundredthsGrow(y: int)
    ensures (y + 1 + 99) / 100 - (y + 99) / 100 == if y % 100 == 0 then 1 else 0
  {
  }

  lemma FourHundredthsGrow(y: int)
    ensures (y + 1 + 399) / 400 - (y + 399) / 400 == if y % 400 == 0 then 1 else 0
  {
  }

  lemma {:induction false} YearsGrow(y: int, z: int)
    requires y <= z
    ensures YearStart(y) + 365 * (z - y) <= YearStart(z)
    decreases z - y
  {
    if y < z {
      YearStep(y);
      YearsGrow(y + 1, z);
    }
  }

  /** The year of a day: walks up from a year that starts no later. */
  function YearOf(d: Day, from: int): (y: int)
    requires YearStart(from) <= d
    ensures YearStart(y) <= d < YearStart(y + 1)
    decreases d - YearStart(from)
  {
    YearStep(from);
    if d < YearStart(from + 1) then from else YearOf(d, from + 1)
  }

  function CivilOf(d: Day): (c: Civil)
    ensures c.Valid() && DayNumber(c) == d
  {
    var y := YearOf(d, if 0 <= d then d / 366 else d / 365);
    YearStep(y);
    var k := d - YearStart(y);
    Civil(y, if IsLeap(y) || k < FEB_29 then k else k + 1)
  }

  /** Day numbers order civil dates by year, then by position in the year. */
  lemma DayNumberOrder(a: Civil, b: Civil)
    requires a.Valid() && b.Valid()
    ensures DayNumber(a) < DayNumber(b) <==> a.year < b.year || (a.year == b.year && a.slot < b.slot)
  {
    if a.year < b.year {
      YearStep(a.year);
      YearsGrow(a.year + 1, b.year);
    } else if b.year < a.year {
      YearStep(b.year);
      YearsGrow(b.year + 1, a.year);
    }
  }

  /** `+ DateOffset(years=n)`: same month and day, and 29 February becomes 28 February in a
      year that has none. */
  function AddYearsCivil(c: Civil, n: int): (r: Civil)
    requires c.Valid()
    ensures r.Valid()
  {
    var y := c.year + n;
    Civil(y, if c.slot == FEB_29 && !IsLeap(y) then FEB_29 - 1 else c.slot)
  }

  function AddYears(d: Day, n: int): Day {
    DayNumber(AddYearsCivil(CivilOf(d), n))
  }

  /** Day numbers and civil dates are in bijection. */
  lemma CivilRoundTrip(c: Civil)
    requires c.Valid()
    ensures CivilOf(DayNumber(c)) == c
  {
    DayNumberOrder(CivilOf(DayNumber(c)), c);
    DayNumberOrder(c, CivilOf(DayNumber(c)));
  }

  /** The day after a date: after 31 December comes 1 January, and after 28 February comes 29 February in
      years divisible by 4, except those divisible by 100 but not by 400. */
  lemma NextDay(c: Civil)
    requires c.Valid()
    ensures var leap := c.year % 4 == 0 && (c.year % 100 != 0 || c.year % 400 == 0);
            DayNumber(c) + 1 == DayNumber(
              if c.slot == 365 then Civil(c.year + 1, 0)
              else if c.slot == 58 && !leap then Civil(c.year, 60)
              else Civil(c.year, c.slot + 1))
  {
    YearStep(c.year);
  }

  lemma FirstOfJanuary2000()
    ensures DayNumber(Civil(2000, 0)) == 730485
  {
  }

  /** A year offset keeps the place in the year, except that 29 February (59) becomes 28 February (58) in a
      year that has none. */
  lemma YearOffsetClamps(c: Civil, n: int)
    requires c.Valid()
    ensures var y := c.year + n;
            var leap := y % 4 == 0 && (y % 100 != 0 || y % 400 == 0);
            AddYears(DayNumber(c), n) == DayNumber(Civil(y, if c.slot == 59 && !leap then 58 else c.slot))
  {
    CivilRoundTrip(c);
  }

  lemma AddYearsMonotone(d: Day, e: Day, m: int, n: int)
    requires d <= e && m <= n
    ensures AddYears(d, m) <= AddYears(e, n)
    ensures m < n ==> AddYears(d, m) < AddYears(e, n)
  {
    var c, f := CivilOf(d), CivilOf(e);
    DayNumberOrder(f, c);
    DayNumberOrder(AddYearsCivil(f, n), AddYearsCivil(c, m));
    DayNumberOrder(AddYearsCivil(c, m), AddYearsCivil(f, n));
  }

  lemma AddNoYears(d: Day)
    ensures AddYears(d, 0) == d
  {
  }

  /** Adding `n` years and then one equals adding one and then `n`, even from 29 February:
      two years in a row are never both leap years. Adding several years at once does not
      commute like this in general. */
  lemma OneYearCommutes(d: Day, n: int)
    ensures AddYears(AddYears(d, n), 1) == AddYears(AddYears(d, 1), n)
  {
    var c := CivilOf(d);
    CivilRoundTrip(AddYearsCivil(c, n));
    CivilRoundTrip(AddYearsCivil(c, 1));
    CivilYearsCommute(c, n);
  }

  lemma CivilYearsCommute(c: Civil, n: int)
    requires c.Valid()
    ensures AddYearsCivil(AddYearsCivil(c, n), 1) == AddYearsCivil(AddYearsCivil(c, 1), n)
  {
    LeapYearsApart(c.year);
    LeapYearsApart(c.year + n);
    assert (c.year + n) + 1 == (c.year + 1) + n;
  }

  lemma LeapYearsApart(y: int)
    ensures !(IsLeap(y) && IsLeap(y + 1))
  {
    if y % 4 == 0 {
      assert (y + 1) % 4 == 1;
    }
  }
}
