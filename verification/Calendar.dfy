/**
 Civil dates and the epoch (`src/rtc.c`): a closed form against counting day by day.
 */
module Calendar {
  const WORD: nat := 0x1_0000_0000
  const DAY: nat := 86400

  predicate IsLeap(y: int) { (y % 4 == 0 && y % 100 != 0) || y % 400 == 0 }

  function DaysInMonth(y: int, m: int): (n: nat)
    ensures 1 <= m <= 12 ==> 28 <= n <= 31
  {
    if m < 1 || m > 12 then 0
    else if m == 2 then (if IsLeap(y) then 29 else 28)
    else if m == 4 || m == 6 || m == 9 || m == 11 then 30
    else 31
  }

  /** Division that truncates toward zero. */
  function Trunc(a: int, b: int): (q: int)
    requires b > 0
  {
    if a >= 0 then a / b else -(-a / b)
  }

  /** The number of 400-year eras before year `y`. */
  function Era(y: int): (e: int)
    ensures e == y / 400
  {
    var e := Trunc(if y >= 0 then y else y - 399, 400);
    EraFloor(y);
    e
  }

  lemma EraFloor(y: int)
    ensures Trunc(if y >= 0 then y else y - 399, 400) == y / 400
  {
    if y < 0 {
      var e, r := y / 400, y % 400;
      assert 399 - y == 400 * -e + (399 - r);
    }
  }

  /** The first day of the shifted year `y`, which starts in March. */
  function MarchFirst(y: int): (n: int) {
    var yoe := y - Era(y) * 400;
    Era(y) * 146097 + yoe * 365 + yoe / 4 - yoe / 100
  }

  /** The day within the shifted year. */
  function DayOfYear(m: int, d: int): (n: int) { (153 * (m + (if m > 2 then -3 else 9)) + 2) / 5 + d - 1 }

  /** days_from_civil. */
  function DaysFromCivil(y: int, m: int, d: int): (n: int) {
    MarchFirst(if m <= 2 then y - 1 else y) + DayOfYear(m, d) - 719468
  }

  // ---------------------------------------------------------------- counting

  predicate ValidDate(y: int, m: int, d: int) { 1 <= m <= 12 && 1 <= d <= DaysInMonth(y, m) }

  function YearLength(y: int): (n: nat) { if IsLeap(y) then 366 else 365 }

  /** Days from 1970-01-01 to the first of January, year by year. */
  function NewYear(y: int): (n: int)
    decreases if y >= 1970 then y - 1970 else 1970 - y
  {
    if y == 1970 then 0
    else if y > 1970 then NewYear(y - 1) + YearLength(y - 1)
    else NewYear(y + 1) - YearLength(y)
  }

  /** Days of the months before month `m`, month by month. */
  function MonthStart(y: int, m: int): (n: nat)
    requires 1 <= m <= 13
    decreases m
  {
    if m == 1 then 0 else MonthStart(y, m - 1) + DaysInMonth(y, m - 1)
  }

  function Counted(y: int, m: int, d: int): (n: int)
    requires 1 <= m <= 12
  {
    NewYear(y) + MonthStart(y, m) + d - 1
  }

  // ---------------------------------------------------------------- the closed form

  /** A shifted year is as long as the February it ends with says. */
  lemma MarchStep(y: int)
    ensures MarchFirst(y) == MarchFirst(y - 1) + YearLength(y)
  {
    var e, k := y / 400, y % 400;
    if k == 0 {
      assert y - 1 == 400 * (e - 1) + 399;
      assert Era(y - 1) == e - 1;
      assert IsLeap(y);
    } else {
      assert y - 1 == 400 * e + (k - 1);
      assert Era(y - 1) == e;
      QuarterStep(k);
      LeapWithin(e, k);
    }
  }

  lemma QuarterStep(k: int)
    requires 0 < k < 400
    ensures k / 4 - (k - 1) / 4 == (if k % 4 == 0 then 1 else 0)
    ensures k / 100 - (k - 1) / 100 == (if k % 100 == 0 then 1 else 0)
    ensures k % 100 == 0 ==> k % 4 == 0
  {
  }

  lemma LeapWithin(e: int, k: int)
    requires 0 < k < 400
    ensures IsLeap(400 * e + k) <==> k % 4 == 0 && k % 100 != 0
  {
    DropFours(e, k);
    DropHundreds(e, k);
  }

  lemma DropFours(e: int, k: int)
    ensures (400 * e + k) % 4 == k % 4
  {
    assert 400 * e + k == 4 * (100 * e) + k;
  }

  lemma DropHundreds(e: int, k: int)
    ensures (400 * e + k) % 100 == k % 100 && (400 * e + k) % 400 == k % 400
  {
    assert 400 * e + k == 100 * (4 * e) + k;
  }

  /** January and February belong to the shifted year before. */
  lemma {:induction false} JanuaryFirst(y: int)
    ensures MarchFirst(y - 1) + 306 - 719468 == NewYear(y)
    decreases if y >= 1970 then y - 1970 else 1970 - y
  {
    if y > 1970 {
      JanuaryFirst(y - 1);
      MarchStep(y - 1);
    } else if y < 1970 {
      JanuaryFirst(y + 1);
      MarchStep(y);
    }
  }

  lemma MonthTable(y: int, m: int)
    requires 1 <= m <= 12
    ensures if m <= 2 then MonthStart(y, m) == DayOfYear(m, 1) - 306 else MonthStart(y, m) == DayOfYear(m, 1) + YearLength(y) - 306
    decreases m
  {
    if m > 1 {
      MonthTable(y, m - 1);
    }
  }

  /** The closed form counts every day: it is the day-by-day count for every date of every year. */
  lemma ClosedForm(y: int, m: int, d: int)
    requires 1 <= m <= 12
    ensures DaysFromCivil(y, m, d) == Counted(y, m, d)
  {
    MonthTable(y, m);
    JanuaryFirst(y);
    if m > 2 {
      MarchStep(y);
    }
  }

  /** The day after. */
  function NextDay(y: int, m: int, d: int): (r: (int, int, int)) {
    if d < DaysInMonth(y, m) then (y, m, d + 1) else if m < 12 then (y, m + 1, 1) else (y + 1, 1, 1)
  }

  lemma CountedNext(y: int, m: int, d: int)
    requires ValidDate(y, m, d)
    ensures var n := NextDay(y, m, d); ValidDate(n.0, n.1, n.2) && Counted(n.0, n.1, n.2) == Counted(y, m, d) + 1
  {
    YearEnd(y);
    NewYearNext(y);
  }

  lemma NextIsOneMore(y: int, m: int, d: int)
    requires ValidDate(y, m, d)
    ensures var n := NextDay(y, m, d); ValidDate(n.0, n.1, n.2) && DaysFromCivil(n.0, n.1, n.2) == DaysFromCivil(y, m, d) + 1
    ensures DaysFromCivil(1970, 1, 1) == 0
  {
    var n := NextDay(y, m, d);
    CountedNext(y, m, d);
    ClosedForm(y, m, d);
    ClosedForm(n.0, n.1, n.2);
    ClosedForm(1970, 1, 1);
  }

  /** The twelve months fill the year. */
  lemma YearEnd(y: int)
    ensures MonthStart(y, 12) + 31 == YearLength(y)
  {
    MonthTable(y, 12);
  }

  lemma NewYearNext(y: int)
    ensures NewYear(y + 1) == NewYear(y) + YearLength(y)
  {
  }

  // ---------------------------------------------------------------- order

  predicate Earlier(a: (int, int, int), b: (int, int, int)) {
    a.0 < b.0 || (a.0 == b.0 && (a.1 < b.1 || (a.1 == b.1 && a.2 < b.2)))
  }

  lemma {:induction false} MonthOrder(y: int, m: int, k: int)
    requires 1 <= m < k <= 12
    ensures MonthStart(y, m) + DaysInMonth(y, m) <= MonthStart(y, k)
    decreases k
  {
    if m + 1 < k {
      MonthOrder(y, m, k - 1);
    }
  }

  lemma {:induction false} YearOrder(y: int, z: int)
    requires y < z
    ensures NewYear(y) + YearLength(y) <= NewYear(z)
    decreases z - y
  {
    if y + 1 < z {
      YearOrder(y, z - 1);
      NewYearNext(z - 1);
    } else {
      NewYearNext(y);
    }
  }

  lemma WithinYear(y: int, m: int, d: int)
    requires ValidDate(y, m, d)
    ensures NewYear(y) <= Counted(y, m, d) < NewYear(y) + YearLength(y)
  {
    if m < 12 {
      MonthOrder(y, m, 12);
    }
    YearEnd(y);
  }

  /** Later dates have larger day numbers. */
  lemma DaysOrder(a: (int, int, int), b: (int, int, int))
    requires ValidDate(a.0, a.1, a.2) && ValidDate(b.0, b.1, b.2) && Earlier(a, b)
    ensures DaysFromCivil(a.0, a.1, a.2) < DaysFromCivil(b.0, b.1, b.2)
  {
    ClosedForm(a.0, a.1, a.2);
    ClosedForm(b.0, b.1, b.2);
    WithinYear(a.0, a.1, a.2);
    WithinYear(b.0, b.1, b.2);
    if a.0 < b.0 {
      YearOrder(a.0, b.0);
    } else if a.1 < b.1 {
      MonthOrder(a.0, a.1, b.1);
    }
  }

  // ---------------------------------------------------------------- the epoch

  datatype DateTime = DateTime(year: nat, month: nat, day: nat, hour: nat, minute: nat, second: nat)

  predicate Good(t: DateTime) {
    && t.year < 0x1_0000 && ValidDate(t.year, t.month, t.day) && t.hour <= 23 && t.minute <= 59 && t.second <= 59
  }

  /** Seconds since 1970, unbounded. */
  function Seconds(t: DateTime): (s: int) {
    DaysFromCivil(t.year, t.month, t.day) * DAY + t.hour * 3600 + t.minute * 60 + t.second
  }

  /** rtc_datetime_to_epoch. */
  function Epoch(t: DateTime): (s: nat)
    ensures s < WORD
  {
    if t.month < 1 || t.month > 12 || t.day < 1 || t.day > DaysInMonth(t.year, t.month)
       || t.hour > 23 || t.minute > 59 || t.second > 59 then 0
    else
      var days := DaysFromCivil(t.year, t.month, t.day);
      if days < 0 then 0 else (days * DAY + t.hour * 3600 + t.minute * 60 + t.second) % WORD
  }

  function Date(t: DateTime): (d: (int, int, int)) { (t.year, t.month, t.day) }

  function Clock(t: DateTime): (s: nat) { t.hour * 3600 + t.minute * 60 + t.second }

  predicate Before(a: DateTime, b: DateTime) { Earlier(Date(a), Date(b)) || (Date(a) == Date(b) && Clock(a) < Clock(b)) }

  lemma SecondsOrder(a: DateTime, b: DateTime)
    requires Good(a) && Good(b) && Before(a, b)
    ensures Seconds(a) < Seconds(b)
  {
    if Earlier(Date(a), Date(b)) {
      DaysOrder(Date(a), Date(b));
    }
  }

  /** The last second a 32-bit count can hold. */
  const LAST: DateTime := DateTime(2106, 2, 7, 6, 28, 15)
  const FIRST: DateTime := DateTime(1970, 1, 1, 0, 0, 0)

  lemma Ends()
    ensures Good(FIRST) && Good(LAST) && Seconds(FIRST) == 0 && Seconds(LAST) == WORD - 1
  {
    assert DaysFromCivil(1970, 1, 1) == 0;
    assert DaysFromCivil(2106, 2, 7) == 49710;
  }

  /** The conversion is exact from 1970 up to the last second, and only there. */
  lemma EpochExactIff(t: DateTime)
    requires Good(t)
    ensures Epoch(t) == Seconds(t) <==> !Before(t, FIRST) && !Before(LAST, t)
  {
    Ends();
    if Before(t, FIRST) {
      SecondsOrder(t, FIRST);
    } else if Before(LAST, t) {
      SecondsOrder(LAST, t);
    } else {
      InRange(t);
    }
  }

  lemma InRange(t: DateTime)
    requires Good(t) && !Before(t, FIRST) && !Before(LAST, t)
    ensures 0 <= Seconds(t) < WORD && DaysFromCivil(t.year, t.month, t.day) >= 0
  {
    Ends();
    if Before(FIRST, t) {
      SecondsOrder(FIRST, t);
    }
    if Before(t, LAST) {
      SecondsOrder(t, LAST);
    }
    if Earlier(Date(FIRST), Date(t)) {
      DaysOrder(Date(FIRST), Date(t));
    }
  }

  /** So it is strictly increasing there. */
  lemma EpochIncreases(a: DateTime, b: DateTime)
    requires Good(a) && Good(b) && Before(a, b) && !Before(a, FIRST) && !Before(LAST, b)
    ensures Epoch(a) < Epoch(b)
  {
    BeforeChain(a, b);
    EpochExactIff(a);
    EpochExactIff(b);
    SecondsOrder(a, b);
  }

  lemma BeforeChain(a: DateTime, b: DateTime)
    requires Before(a, b) && !Before(a, FIRST) && !Before(LAST, b)
    ensures !Before(b, FIRST) && !Before(LAST, a)
  {
  }
}
