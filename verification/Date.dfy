/**
  `muduo::Date`: the conversion between Julian day numbers and dates of the Gregorian calendar, in 32-bit
  arithmetic.  All operands are non-negative in the range of the model, where C++ division, which
  truncates, and Dafny's agree.
*/
module Date {

  newtype int32 = x: int | -0x8000_0000 <= x < 0x8000_0000

  datatype YearMonthDay = YearMonthDay(year: int, month: int, day: int)

  const FIRST_DAY := -32044
  const LAST_DAY := 536838867

  // ------------------------------------------------------------- the calendar

  predicate Leap(year: int) {
    year % 4 == 0 && (year % 100 != 0 || year % 400 == 0)
  }

  function DaysInMonth(year: int, month: int): int {
    if month == 2 then if Leap(year) then 29 else 28
    else if month in {4, 6, 9, 11} then 30
    else 31
  }

  predicate ValidDate(d: YearMonthDay) {
    1 <= d.month <= 12 && 1 <= d.day <= DaysInMonth(d.year, d.month)
  }

  function Successor(d: YearMonthDay): YearMonthDay {
    if d.day < DaysInMonth(d.year, d.month) then d.(day := d.day + 1)
    else if d.month < 12 then YearMonthDay(d.year, d.month + 1, 1)
    else YearMonthDay(d.year + 1, 1, 1)
  }

  /** From 1 March of the year 4801 BC on, to keep the operands non-negative; and far enough below 2^31. */
  predicate InRange(d: YearMonthDay) {
    ValidDate(d) && (d.year > -4800 || (d.year == -4800 && d.month >= 3)) && d.year <= 5_000_000
  }

  // ------------------------------------------------------------- the conversions

  /** The result type is 32 bits wide, and so is every intermediate value. */
  function GetJulianDayNumber(year: int32, month: int32, day: int32): int32
    requires InRange(YearMonthDay(year as int, month as int, day as int))
  {
    var a := (14 - month) / 12;
    var y := year + 4800 - a;
    var m := month + 12 * a - 3;
    day + (153 * m + 2) / 5 + y * 365 + y / 4 - y / 100 + y / 400 - 32045
  }

  function GetYearMonthDay(julianDayNumber: int32): YearMonthDay
    requires FIRST_DAY <= julianDayNumber as int <= LAST_DAY
  {
    var a := julianDayNumber + 32044;
    var b := (4 * a + 3) / 146097;
    var c := a - b * 146097 / 4;
    var d := (4 * c + 3) / 1461;
    var e := c - 1461 * d / 4;
    var m := (5 * e + 2) / 153;
    var day := e - (153 * m + 2) / 5 + 1;
    var month := m + 3 - 12 * (m / 10);
    var year := b * 100 + d - 4800 + m / 10;
    YearMonthDay(year as int, month as int, day as int)
  }

  // ------------------------------------------------ years that begin in March

  /** The first day of century `b`, of year `d` of a century, and of month `m` of a year. */
  function Century(b: int): int {
    b * 146097 / 4
  }

  function YearOf(d: int): int {
    1461 * d / 4
  }

  function MonthOf(m: int): int {
    (153 * m + 2) / 5
  }

  /** Whether day `e` of year `d` of century `b` exists: the year has 366 days if a leap day ends it. */
  predicate DayOfYear(b: int, d: int, e: int) {
    0 <= e < 365 || (e == 365 && Leap(100 * b + d + 1))
  }

  /** A date as century, year, month and day, all counted from zero and from March. */
  datatype Parts = Parts(b: int, d: int, m: int, e: int)

  predicate PartsOk(p: Parts) {
    p.b >= 0 && 0 <= p.d < 100 && 0 <= p.m < 12 && MonthOf(p.m) <= p.e < MonthOf(p.m + 1) && DayOfYear(p.b, p.d, p.e)
  }

  function DateOf(p: Parts): YearMonthDay {
    YearMonthDay(100 * p.b + p.d - 4800 + p.m / 10, p.m + 3 - 12 * (p.m / 10), p.e - MonthOf(p.m) + 1)
  }

  function PartsOf(d: YearMonthDay): Parts {
    var a := if d.month < 3 then 1 else 0;
    var y := d.year + 4800 - a;
    var m := d.month + 12 * a - 3;
    Parts(y / 100, y % 100, m, MonthOf(m) + d.day - 1)
  }

  /** The number of a day, from 1 March -4800. */
  function NumberOf(p: Parts): int {
    Century(p.b) + YearOf(p.d) + p.e
  }

  // --------------------------------------------------------------- the divisions

  function CenturyNumber(a: int): int {
    (4 * a + 3) / 146097
  }

  function YearNumber(c: int): int {
    (4 * c + 3) / 1461
  }

  function MonthNumber(e: int): int {
    (5 * e + 2) / 153
  }

  lemma FourthDays(n: int)
    ensures Century(n) == 36524 * n + n / 4 && YearOf(n) == 365 * n + n / 4
  {
  }

  lemma CenturyAt(a: int, b: int)
    requires a >= 0 && b >= 0
    ensures CenturyNumber(a) == b <==> Century(b) <= a < Century(b + 1)
  {
  }

  lemma YearAt(c: int, d: int)
    requires c >= 0 && d >= 0
    ensures YearNumber(c) == d <==> YearOf(d) <= c < YearOf(d + 1)
  {
  }

  lemma MonthAt(e: int, m: int)
    requires e >= 0 && 0 <= m <= 12
    ensures MonthNumber(e) == m <==> MonthOf(m) <= e < MonthOf(m + 1)
  {
  }

  /** The lengths of the months of a year that begins in March, and where the leap day is. */
  lemma MonthLengths(m: int)
    requires 0 <= m < 12
    ensures var month := m + 3 - 12 * (m / 10);
            MonthOf(m + 1) - MonthOf(m) == if month == 2 then 30 else if month in {4, 6, 9, 11} then 30 else 31
    ensures MonthOf(11) == 337 && MonthOf(0) == 0 && MonthOf(m) >= 0 && (m < 11 ==> MonthOf(m + 1) <= 337)
  {
  }

  /** The last day of the last year of a century exists only when the next century starts a leap cycle. */
  lemma YearLength(b: int, d: int, e: int)
    requires b >= 0 && 0 <= d < 100 && e >= 0
    ensures DayOfYear(b, d, e) <==> YearOf(d) + e < YearOf(d + 1) && YearOf(d) + e < Century(b + 1) - Century(b)
  {
    LeapAfter(b, d);
    FourthDays(b);
    FourthDays(b + 1);
    FourthDays(d);
    FourthDays(d + 1);
    hide Leap, Century, YearOf;
    assert (b + 1) / 4 == b / 4 + if b % 4 == 3 then 1 else 0;
    assert (d + 1) / 4 == d / 4 + if d % 4 == 3 then 1 else 0;
  }

  lemma LeapAfter(b: int, d: int)
    requires b >= 0 && 0 <= d < 100
    ensures Leap(100 * b + d + 1) <==> if d == 99 then b % 4 == 3 else d % 4 == 3
  {
    if d == 99 {
      assert 100 * b + d + 1 == 100 * (b + 1);
      LeapCentury(b + 1);
    } else {
      LeapInside(b, d + 1);
    }
    hide Leap;
  }

  lemma LeapCentury(n: int)
    ensures Leap(100 * n) <==> n % 4 == 0
  {
    var q, r := n / 4, n % 4;
    Remainder(400, q, 100 * r);
    Remainder(100, n, 0);
    Remainder(4, 25 * n, 0);
    assert 100 * n == 400 * q + 100 * r;
  }

  lemma LeapInside(b: int, k: int)
    requires 1 <= k <= 99
    ensures Leap(100 * b + k) <==> k % 4 == 0
  {
    Remainder(100, b, k);
    Remainder(4, 25 * b + k / 4, k % 4);
    assert 100 * b + k == 4 * (25 * b + k / 4) + k % 4;
  }

  lemma Remainder(n: int, q: int, r: int)
    requires n in {4, 100, 400} && 0 <= r < n
    ensures (n * q + r) % n == r
  {
    if n == 4 {
      assert (4 * q + r) % 4 == r;
    } else if n == 100 {
      assert (100 * q + r) % 100 == r;
    } else {
      assert (400 * q + r) % 400 == r;
    }
  }

  // --------------------------------------------------------- there and back again

  /** Dates and their parts are the same thing. */
  lemma {:induction false} PartsOfDate(d: YearMonthDay)
    requires InRange(d)
    ensures PartsOk(PartsOf(d)) && DateOf(PartsOf(d)) == d
  {
    var p := PartsOf(d);
    MonthLengths(p.m);
    hide Leap, MonthOf;
    assert p.m / 10 == if d.month < 3 then 1 else 0;
    assert 100 * p.b + p.d == d.year + 4800 - (if d.month < 3 then 1 else 0);
    if d.month == 2 {
      LeapShift(d.year);
    }
  }

  lemma LeapShift(year: int)
    ensures Leap(year + 4800) == Leap(year)
  {
    SameRemainder(4, year, 1200);
    SameRemainder(100, year, 48);
    SameRemainder(400, year, 12);
  }

  lemma SameRemainder(n: int, y: int, k: int)
    requires n in {4, 100, 400}
    ensures (y + n * k) % n == y % n
  {
    var q, r := y / n, y % n;
    Remainder(n, q + k, r);
    assert y + n * k == n * (q + k) + r;
  }

  lemma {:induction false} DateOfParts(p: Parts)
    requires PartsOk(p)
    ensures ValidDate(DateOf(p)) && PartsOf(DateOf(p)) == p
  {
    PartsOfDateOf(p);
    DateIsValid(p);
    hide PartsOk, ValidDate, DateOf, PartsOf;
  }

  lemma PartsOfDateOf(p: Parts)
    requires PartsOk(p)
    ensures PartsOf(DateOf(p)) == p
  {
    hide Leap, MonthOf, DayOfYear;
    assert p.m / 10 == if p.m >= 10 then 1 else 0;
    assert (100 * p.b + p.d) / 100 == p.b && (100 * p.b + p.d) % 100 == p.d;
  }

  lemma DateIsValid(p: Parts)
    requires PartsOk(p)
    ensures ValidDate(DateOf(p))
  {
    MonthLengths(p.m);
    LeapShift(100 * p.b + p.d - 4799);
    hide Leap;
    assert p.m / 10 == if p.m >= 10 then 1 else 0;
    assert 100 * p.b + p.d - 4799 + 4800 == 100 * p.b + p.d + 1;
    hide MonthOf;
  }

  lemma {:induction false} NumberIsDay(d: YearMonthDay)
    requires InRange(d)
    ensures -0x8000_0000 <= d.year < 0x8000_0000
    ensures GetJulianDayNumber(d.year as int32, d.month as int32, d.day as int32) as int
            == NumberOf(PartsOf(d)) + FIRST_DAY
  {
    var p := PartsOf(d);
    var y := 100 * p.b + p.d;
    assert y / 4 == 25 * p.b + p.d / 4 && y / 100 == p.b && y / 400 == p.b / 4;
    FourthDays(p.b);
    FourthDays(p.d);
    hide Century, YearOf;
    assert (14 - d.month) / 12 == if d.month < 3 then 1 else 0;
  }

  /** The parts that `GetYearMonthDay` computes. */
  function Split(a: int): Parts {
    var b := CenturyNumber(a);
    var c := a - Century(b);
    var d := YearNumber(c);
    var e := c - YearOf(d);
    Parts(b, d, MonthNumber(e), e)
  }

  lemma DayIsSplit(j: int32)
    requires FIRST_DAY <= j as int <= LAST_DAY
    ensures GetYearMonthDay(j) == DateOf(Split(j as int - FIRST_DAY))
  {
  }

  lemma Starts(b: int, d: int)
    requires b >= 0 && d >= 0
    ensures Century(b) >= 0 && YearOf(d) >= 0
  {
  }

  /** Splitting a day number gives the parts it is made of. */
  lemma {:induction false} SplitOfNumber(p: Parts)
    requires PartsOk(p)
    ensures NumberOf(p) >= 0 && Split(NumberOf(p)) == p
  {
    hide Century, YearOf, MonthOf, DayOfYear, CenturyNumber, YearNumber, MonthNumber;
    var a := NumberOf(p);
    Starts(p.b, p.d);
    MonthLengths(p.m);
    YearLength(p.b, p.d, p.e);
    CenturyAt(a, p.b);
    var c := YearOf(p.d) + p.e;
    YearAt(c, p.d);
    MonthAt(p.e, p.m);
  }

  /** Every number is made of the parts it splits into. */
  lemma {:induction false} NumberOfSplit(a: int)
    requires a >= 0
    ensures PartsOk(Split(a)) && NumberOf(Split(a)) == a
  {
    var p := Split(a);
    NumbersOk(a);
    CenturyAt(a, p.b);
    var c := a - Century(p.b);
    NumbersOk(c);
    YearAt(c, p.d);
    CenturyLength(p.b, c);
    YearLength(p.b, p.d, p.e);
    MonthsOk(p.e);
    MonthAt(p.e, p.m);
    hide Century, YearOf, MonthOf, Leap, CenturyNumber, YearNumber, MonthNumber;
  }

  lemma NumbersOk(a: int)
    requires a >= 0
    ensures CenturyNumber(a) >= 0 && YearNumber(a) >= 0
  {
  }

  lemma MonthsOk(e: int)
    requires 0 <= e <= 365
    ensures 0 <= MonthNumber(e) < 12
  {
  }

  /** No century has a hundred and first year. */
  lemma CenturyLength(b: int, c: int)
    requires b >= 0 && 0 <= c < Century(b + 1) - Century(b)
    ensures YearNumber(c) < 100
  {
  }

  // --------------------------------------------------------------- the theorems

  /** Every day number in range is the number of its date, which is a date of the calendar. */
  lemma {:induction false} DayToDateAndBack(j: int32)
    requires FIRST_DAY <= j as int <= LAST_DAY
    ensures var d := GetYearMonthDay(j);
            InRange(d) && GetJulianDayNumber(d.year as int32, d.month as int32, d.day as int32) == j
  {
    hide GetYearMonthDay, GetJulianDayNumber, Split, PartsOk, DateOf, PartsOf, NumberOf, ValidDate;
    var a := j as int - FIRST_DAY;
    DayIsSplit(j);
    NumberOfSplit(a);
    DateOfParts(Split(a));
    SplitInRange(a);
    NumberIsDay(DateOf(Split(a)));
  }

  lemma SplitInRange(a: int)
    requires 0 <= a <= LAST_DAY - FIRST_DAY && PartsOk(Split(a)) && ValidDate(DateOf(Split(a)))
    ensures InRange(DateOf(Split(a)))
  {
    var p := Split(a);
    assert p.b < 15000 by {
      hide Century, YearOf, MonthOf, YearNumber, MonthNumber, Leap, PartsOk, DateOf, ValidDate;
    }
    hide Leap, MonthOf, Split, ValidDate;
    assert p.m / 10 == if p.m >= 10 then 1 else 0;
  }

  /** Every date whose number is in range is the date of its number. */
  lemma {:induction false} DateToDayAndBack(d: YearMonthDay)
    requires InRange(d)
    ensures var j := GetJulianDayNumber(d.year as int32, d.month as int32, d.day as int32);
            j as int >= FIRST_DAY && (j as int <= LAST_DAY ==> GetYearMonthDay(j) == d)
  {
    PartsOfDate(d);
    NumberIsDay(d);
    SplitOfNumber(PartsOf(d));
    var j := GetJulianDayNumber(d.year as int32, d.month as int32, d.day as int32);
    if j as int <= LAST_DAY {
      DayIsSplit(j);
    }
  }

  /** The next year begins on the day after the last of this one. */
  lemma NextYear(b: int, d: int, e: int)
    requires b >= 0 && 0 <= d < 100 && e == if Leap(100 * b + d + 1) then 365 else 364
    ensures var y := 100 * b + d + 1; Century(y / 100) + YearOf(y % 100) == Century(b) + YearOf(d) + e + 1
  {
    LeapAfter(b, d);
    FourthDays(b);
    FourthDays(b + 1);
    FourthDays(d);
    FourthDays(d + 1);
    FourthDays(0);
    hide Leap, Century, YearOf;
    var y := 100 * b + d + 1;
    if d == 99 {
      assert y / 100 == b + 1 && y % 100 == 0;
      assert (b + 1) / 4 == b / 4 + if b % 4 == 3 then 1 else 0;
    } else {
      assert y / 100 == b && y % 100 == d + 1;
      assert (d + 1) / 4 == d / 4 + if d % 4 == 3 then 1 else 0;
    }
  }

  lemma {:induction false} SuccessorParts(d: YearMonthDay)
    requires InRange(d)
    ensures NumberOf(PartsOf(Successor(d))) == NumberOf(PartsOf(d)) + 1
  {
    var p := PartsOf(d);
    var q := PartsOf(Successor(d));
    hide Leap, Century, YearOf, MonthOf, DaysInMonth;
    if d.day < DaysInMonth(d.year, d.month) {
      assert q == p.(e := p.e + 1);
    } else if d.month == 2 {
      FebruaryEnds(d);
    } else {
      MonthEnds(d);
    }
  }

  lemma FebruaryEnds(d: YearMonthDay)
    requires InRange(d) && d.month == 2 && d.day == DaysInMonth(d.year, 2)
    ensures NumberOf(PartsOf(Successor(d))) == NumberOf(PartsOf(d)) + 1
  {
    var p := PartsOf(d);
    MonthLengths(11);
    LeapShift(d.year);
    assert 100 * p.b + p.d + 1 == d.year + 4800;
    NextYear(p.b, p.d, p.e);
    hide Leap, Century, YearOf, MonthOf;
  }

  lemma MonthEnds(d: YearMonthDay)
    requires InRange(d) && d.month != 2 && d.day == DaysInMonth(d.year, d.month)
    ensures var p := PartsOf(d); PartsOf(Successor(d)) == p.(m := p.m + 1, e := p.e + 1)
  {
    MonthLengths(PartsOf(d).m);
    hide Leap, MonthOf;
  }

  /** The calendar successor of a date has the next day number. */
  lemma {:induction false} SuccessorIsNextDay(d: YearMonthDay)
    requires InRange(d) && InRange(Successor(d))
    ensures var s := Successor(d);
            GetJulianDayNumber(s.year as int32, s.month as int32, s.day as int32) as int
            == GetJulianDayNumber(d.year as int32, d.month as int32, d.day as int32) as int + 1
  {
    SuccessorParts(d);
    NumberIsDay(d);
    NumberIsDay(Successor(d));
  }

  // --------------------------------------------------------------- days of the week

  /** The `%` of C++, which rounds towards zero. */
  function Modulo(a: int, b: int): int
    requires b > 0
  {
    if a >= 0 then a % b else -(-a % b)
  }

  /** `weekDay`: 0 is Sunday. */
  function WeekDay(julianDayNumber: int32): int
    requires julianDayNumber < 0x7fff_ffff
  {
    Modulo(julianDayNumber as int + 1, 7)
  }

  /** Where the count of days stands: 1900-01-01 is day 2415021, a Monday. */
  lemma Epoch(d: YearMonthDay)
    requires InRange(d) && d == YearMonthDay(1900, 1, 1)
    ensures var j := GetJulianDayNumber(d.year as int32, d.month as int32, d.day as int32);
            j == 2415021 && WeekDay(j) == 1
  {
    hide GetJulianDayNumber, InRange;
    NumberIsDay(d);
    assert PartsOf(d) == Parts(66, 99, 10, 306);
    assert 2415022 == 7 * 345003 + 1;
  }

  /**
    From day -1 on, the day of the week goes on by one from each day to the next, round the week.  Before
    that, it is a day of the week only on Sundays.
  */
  lemma WeekDayIff(j: int32)
    requires j < 0x7fff_fffe
    ensures 0 <= WeekDay(j) < 7 <==> j >= -1 || (j as int + 1) % 7 == 0
    ensures j >= -1 ==> WeekDay(j + 1) == (WeekDay(j) + 1) % 7
  {
    var a := j as int + 1;
    if a >= 0 {
      NextModulo(a);
    } else {
      OppositeModulo(a);
    }
  }

  lemma NextModulo(a: int)
    ensures (a + 1) % 7 == (a % 7 + 1) % 7
  {
    assert a == 7 * (a / 7) + a % 7;
  }

  lemma OppositeModulo(a: int)
    ensures -a % 7 == 0 <==> a % 7 == 0
  {
    assert a == 7 * (a / 7) + a % 7 && -a == 7 * (-a / 7) + -a % 7;
  }
}
