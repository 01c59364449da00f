/** Calendar arithmetic shared by the energy ledger and its store: YYYYMMDD dates, their day
    numbers, and YYYYMM months. */
module Calendar {
  const UINT32: int := 0x1_0000_0000

  /** C's integer division, which truncates toward zero. */
  function TruncDiv(a: int, b: int): (q: int)
    requires b > 0
    ensures a >= 0 ==> q * b <= a < q * b + b
    ensures a < 0 ==> q * b - b < a <= q * b
  {
    if a >= 0 then a / b else -((-a) / b)
  }

  /** Days since 1970-01-01, computed the way the firmware does: years start in March and are
      counted inside 400-year eras. */
  function DaysFromDate(date: nat): int {
    var m := date / 100 % 100;
    var d := date % 100;
    var y := if m <= 2 then date / 10000 - 1 else date / 10000;
    var era := TruncDiv(if y >= 0 then y else y - 399, 400);
    var yoe := y - era * 400;
    var doy := TruncDiv(153 * (m + (if m > 2 then -3 else 9)) + 2, 5) + d - 1;
    var doe := yoe * 365 + yoe / 4 - yoe / 100 + doy;
    era * 146097 + doe - 719468
  }

  predicate LeapYear(y: nat) {
    y % 4 == 0 && (y % 100 != 0 || y % 400 == 0)
  }

  function DaysInMonth(y: nat, m: nat): (n: nat)
    requires 1 <= m <= 12
    ensures 28 <= n <= 31
  {
    if m == 2 then (if LeapYear(y) then 29 else 28)
    else if m == 4 || m == 6 || m == 9 || m == 11 then 30 else 31
  }

  /** A date of the proleptic Gregorian calendar, written YYYYMMDD. */
  predicate ValidDate(date: nat) {
    && 1 <= date / 100 % 100 <= 12
    && 1 <= date % 100 <= DaysInMonth(date / 10000, date / 100 % 100)
  }

  function MakeDate(y: nat, m: nat, d: nat): nat {
    y * 10000 + m * 100 + d
  }

  /** The calendar's own successor: next day, else first of next month, else first of next year. */
  function NextDate(date: nat): (r: nat)
    requires ValidDate(date)
    ensures r > date
  {
    var y, m, d := date / 10000, date / 100 % 100, date % 100;
    if d < DaysInMonth(y, m) then date + 1
    else if m < 12 then MakeDate(y, m + 1, 1)
    else MakeDate(y + 1, 1, 1)
  }

  lemma DateParts(y: nat, m: nat, d: nat)
    requires m < 100 && d < 100
    ensures MakeDate(y, m, d) / 10000 == y
    ensures MakeDate(y, m, d) / 100 % 100 == m
    ensures MakeDate(y, m, d) % 100 == d
  {
    assert MakeDate(y, m, d) / 100 == y * 100 + m;
  }

  lemma NextDateIsValid(date: nat)
    requires ValidDate(date)
    ensures ValidDate(NextDate(date))
  {
    NextDateParts(date);
  }

  /** Days before March 1 of year `y`, without eras. */
  function MarchDays(y: int): int
    requires y >= -1
  {
    365 * y + y / 4 - y / 100 + y / 400 - 719468
  }

  /** Days of the year before month `m`, counted from March. */
  function MonthOffset(m: nat): int
    requires 1 <= m <= 12
  {
    TruncDiv(153 * (m + (if m > 2 then -3 else 9)) + 2, 5)
  }

  /** The era arithmetic is the plain Gregorian count. */
  lemma ErasCancel(date: nat)
    requires ValidDate(date)
    ensures DaysFromDate(date) == PlainDays(date / 10000, date / 100 % 100, date % 100)
  {
    var m := date / 100 % 100;
    var y := if m <= 2 then date / 10000 - 1 else date / 10000;
    var era := TruncDiv(if y >= 0 then y else y - 399, 400);
    assert era == y / 400;
    var yoe := y - era * 400;
    assert y / 4 == 100 * era + yoe / 4;
    assert y / 100 == 4 * era + yoe / 100;
  }

  lemma QuotientSteps(y: int)
    ensures y / 4 - (y - 1) / 4 == if y % 4 == 0 then 1 else 0
    ensures y / 100 - (y - 1) / 100 == if y % 100 == 0 then 1 else 0
    ensures y / 400 - (y - 1) / 400 == if y % 400 == 0 then 1 else 0
  {
  }

  lemma CenturyFactors(y: int)
    ensures y % 100 == 0 ==> y % 4 == 0
    ensures y % 400 == 0 ==> y % 100 == 0
  {
    var c, e := y / 100, y / 400;
    assert y % 100 == 0 ==> y == 4 * (25 * c);
    assert y % 400 == 0 ==> y == 100 * (4 * e);
  }

  lemma MarchDaysStep(y: int)
    requires y >= 0
    ensures MarchDays(y) - MarchDays(y - 1) == if LeapYear(y) then 366 else 365
  {
    QuotientSteps(y);
    CenturyFactors(y);
  }

  lemma MonthOffsetStep(m: nat, y: nat)
    requires 1 <= m < 12 && m != 2
    ensures MonthOffset(m + 1) - MonthOffset(m) == DaysInMonth(y, m)
  {
    assert m == 1 || m == 3 || m == 4 || m == 5 || m == 6 || m == 7 || m == 8 || m == 9 || m == 10 || m == 11;
  }

  /** Day number of a date given by its parts. */
  function PlainDays(y: nat, m: nat, d: nat): int
    requires 1 <= m <= 12
  {
    MarchDays(if m <= 2 then y - 1 else y) + MonthOffset(m) + d - 1
  }

  lemma PlainDaysStep(y: nat, m: nat)
    requires 1 <= m <= 12
    ensures m < 12 ==> PlainDays(y, m + 1, 1) == PlainDays(y, m, DaysInMonth(y, m)) + 1
    ensures m == 12 ==> PlainDays(y + 1, 1, 1) == PlainDays(y, m, DaysInMonth(y, m)) + 1
  {
    if m == 2 {
      MarchDaysStep(y);
    } else if m < 12 {
      MonthOffsetStep(m, y);
    }
  }

  /** Each valid date's successor is exactly one day later, across month, leap and century ends. */
  lemma SuccessorIsOneDayLater(date: nat)
    requires ValidDate(date)
    ensures ValidDate(NextDate(date))
    ensures DaysFromDate(NextDate(date)) == DaysFromDate(date) + 1
  {
    var y, m, d := date / 10000, date / 100 % 100, date % 100;
    NextDateIsValid(date);
    ErasCancel(date);
    ErasCancel(NextDate(date));
    NextDateParts(date);
    PlainDaysStep(y, m);
    hide DaysFromDate, NextDate, DaysInMonth, MonthOffset, MarchDays;
  }

  lemma NextDateParts(date: nat)
    requires ValidDate(date)
    ensures var n, y, m, d := NextDate(date), date / 10000, date / 100 % 100, date % 100;
            if d < DaysInMonth(y, m) then n / 10000 == y && n / 100 % 100 == m && n % 100 == d + 1
            else if m < 12 then n / 10000 == y && n / 100 % 100 == m + 1 && n % 100 == 1
            else n / 10000 == y + 1 && n / 100 % 100 == 1 && n % 100 == 1
  {
    var y, m, d := date / 10000, date / 100 % 100, date % 100;
    WrittenFromParts(date);
    if d < DaysInMonth(y, m) {
      DateParts(y, m, d + 1);
    } else if m < 12 {
      DateParts(y, m + 1, 1);
    } else {
      DateParts(y + 1, 1, 1);
    }
  }

  lemma EpochIsDayZero()
    ensures ValidDate(19700101) && DaysFromDate(19700101) == 0
  {
    DateParts(1970, 1, 1);
    hide DaysFromDate;
    ErasCancel(19700101);
    assert MonthOffset(1) == 306;
    assert MarchDays(1969) == -306;
  }

  lemma WrittenFromParts(date: nat)
    ensures date == MakeDate(date / 10000, date / 100 % 100, date % 100)
  {
    var h := date / 100;
    assert date == h * 100 + date % 100 && h == h / 100 * 100 + h % 100;
    assert h / 100 == date / 10000;
  }

  /** The successor of a date in parts is not after any later date. */
  lemma NextPartsFirst(y: nat, m: nat, d: nat, days: nat, y2: nat, m2: nat, d2: nat)
    requires 1 <= m <= 12 && 1 <= d <= days <= 31 && 1 <= m2 <= 12 && 1 <= d2 <= 31 &&
        (y == y2 && m == m2 ==> d2 <= days)
    requires MakeDate(y, m, d) < MakeDate(y2, m2, d2)
    ensures (if d < days then MakeDate(y, m, d) + 1 else if m < 12 then MakeDate(y, m + 1, 1)
        else MakeDate(y + 1, 1, 1)) <= MakeDate(y2, m2, d2)
  {
    if y == y2 && m < m2 { assert MakeDate(y, m + 1, 1) <= MakeDate(y2, m2, d2); }
  }

  /** No valid date lies strictly between a date and its successor. */
  lemma NextDateIsNext(a: nat, b: nat)
    requires ValidDate(a) && ValidDate(b) && a < b
    ensures NextDate(a) <= b
  {
    WrittenFromParts(a);
    WrittenFromParts(b);
    var y, m, d := a / 10000, a / 100 % 100, a % 100;
    hide MakeDate, DaysInMonth;
    NextPartsFirst(y, m, d, DaysInMonth(y, m), b / 10000, b / 100 % 100, b % 100);
  }

  /** The day number is strictly monotone on valid dates. */
  lemma {:induction false} DaysFromDateMonotone(a: nat, b: nat)
    requires ValidDate(a) && ValidDate(b) && a < b
    ensures DaysFromDate(a) < DaysFromDate(b)
    decreases b - a
  {
    SuccessorIsOneDayLater(a);
    NextDateIsNext(a, b);
    if NextDate(a) < b {
      DaysFromDateMonotone(NextDate(a), b);
    }
  }

  /** ... and therefore order-reflecting and injective: two valid dates compare as their day numbers. */
  lemma DaysFromDateOrder(a: nat, b: nat)
    requires ValidDate(a) && ValidDate(b)
    ensures a < b <==> DaysFromDate(a) < DaysFromDate(b)
    ensures a == b <==> DaysFromDate(a) == DaysFromDate(b)
  {
    if a < b { DaysFromDateMonotone(a, b); }
    if b < a { DaysFromDateMonotone(b, a); }
  }

  // ---- Months ----------------------------------------------------------------------------------

  predicate ValidMonth(ym: nat) {
    1 <= ym % 100 <= 12
  }

  /** Previous calendar month of a YYYYMM value, on 32-bit unsigned arithmetic. */
  function PrevMonth(ym: nat): nat {
    if ym % 100 <= 1 then ((ym / 100 - 1) * 100 + 12) % UINT32 else ym - 1
  }

  function NextMonth(ym: nat): nat {
    if ym % 100 >= 12 then ((ym / 100 + 1) * 100 + 1) % UINT32 else ym + 1
  }

  /** Months numbered consecutively, so that calendar distance is subtraction. */
  function MonthIndex(ym: nat): int
    requires ValidMonth(ym)
  {
    ym / 100 * 12 + ym % 100 - 1
  }

  /** A month whose neighbours stay inside 32 bits and after year zero. */
  predicate PlainMonth(ym: nat) {
    ValidMonth(ym) && 100 <= ym <= UINT32 / 100
  }

  lemma PrevMonthIndex(ym: nat)
    requires PlainMonth(ym)
    ensures ValidMonth(PrevMonth(ym)) && MonthIndex(PrevMonth(ym)) == MonthIndex(ym) - 1
    ensures PrevMonth(ym) < ym
  {
    var y, m := ym / 100, ym % 100;
    assert ym == y * 100 + m;
    if m <= 1 {
      var p := (y - 1) * 100 + 12;
      assert 0 <= p < UINT32;
      assert p / 100 == y - 1 && p % 100 == 12;
    }
  }

  lemma NextMonthIndex(ym: nat)
    requires PlainMonth(ym)
    ensures ValidMonth(NextMonth(ym)) && MonthIndex(NextMonth(ym)) == MonthIndex(ym) + 1
    ensures NextMonth(ym) > ym
  {
    var y, m := ym / 100, ym % 100;
    assert ym == y * 100 + m;
    if m >= 12 {
      var p := (y + 1) * 100 + 1;
      assert p / 100 == y + 1 && p % 100 == 1;
    }
  }

  lemma MonthIndexInjective(a: nat, b: nat)
    requires ValidMonth(a) && ValidMonth(b)
    ensures MonthIndex(a) == MonthIndex(b) <==> a == b
    ensures MonthIndex(a) < MonthIndex(b) <==> a < b
  {
    assert a == a / 100 * 100 + a % 100;
    assert b == b / 100 * 100 + b % 100;
  }

  lemma MonthParts(y: nat, m: nat)
    requires m < 100
    ensures (y * 100 + m) / 100 == y && (y * 100 + m) % 100 == m
  {
  }

  lemma PrevOfNext(ym: nat)
    requires PlainMonth(ym)
    ensures PrevMonth(NextMonth(ym)) == ym
  {
    var y, m := ym / 100, ym % 100;
    if m >= 12 { MonthParts(y + 1, 1); }
  }

  lemma NextOfPrev(ym: nat)
    requires PlainMonth(ym)
    ensures NextMonth(PrevMonth(ym)) == ym
  {
    var y, m := ym / 100, ym % 100;
    if m <= 1 { MonthParts(y - 1, 12); }
  }

  /** Stepping back undoes stepping forward and the other way round. */
  lemma MonthStepsInverse(ym: nat)
    requires PlainMonth(ym)
    ensures PrevMonth(NextMonth(ym)) == ym
    ensures NextMonth(PrevMonth(ym)) == ym
  {
    PrevOfNext(ym);
    NextOfPrev(ym);
    hide PrevMonth, NextMonth;
  }
}
