/**
 Julian Day Numbers and Gregorian dates: `getJulianDayNumber`, `getYearMonthDay` and the `Date` class.
 Division is C division, which truncates toward zero; integers are unbounded and the 32-bit range of the
 source is a theorem (`DecodeFits`).
 */
module Calendar {
  import opened Arithmetic

  datatype YearMonthDay = YearMonthDay(year: int, month: int, day: int)

  /** C integer division by a positive divisor. */
  function Quot(a: int, b: int): (q: int)
    requires b > 0
  {
    if a >= 0 then a / b else -((-a) / b)
  }

  /** C integer remainder. */
  function Rem(a: int, b: int): (r: int)
    requires b > 0
  {
    a - b * Quot(a, b)
  }

  function GetJulianDayNumber(year: int, month: int, day: int): (j: int) {
    var a := Quot(14 - month, 12);
    var y := year + 4800 - a;
    var m := month + 12 * a - 3;
    day + Quot(153 * m + 2, 5) + y * 365 + Quot(y, 4) - Quot(y, 100) + Quot(y, 400) - 32045
  }

  function GetYearMonthDay(julianDayNumber: int): (d: YearMonthDay) {
    var a := julianDayNumber + 32044;
    var b := Quot(4 * a + 3, 146097);
    var c := a - Quot(b * 146097, 4);
    var d := Quot(4 * c + 3, 1461);
    var e := c - Quot(1461 * d, 4);
    var m := Quot(5 * e + 2, 153);
    YearMonthDay(b * 100 + d - 4800 + Quot(m, 10), m + 3 - 12 * Quot(m, 10), e - Quot(153 * m + 2, 5) + 1)
  }

  /** `Date::weekDay`: 0 is Sunday. */
  function WeekDay(julianDayNumber: int): (w: int) {
    Rem(julianDayNumber + 1, 7)
  }

  function Jdn(d: YearMonthDay): (j: int) {
    GetJulianDayNumber(d.year, d.month, d.day)
  }

  // ----- the Gregorian calendar -----

  predicate IsLeap(year: int) { year % 4 == 0 && (year % 100 != 0 || year % 400 == 0) }

  function DaysInMonth(year: int, month: int): (n: int)
    requires 1 <= month <= 12
  {
    if month == 2 then (if IsLeap(year) then 29 else 28)
    else if month == 4 || month == 6 || month == 9 || month == 11 then 30
    else 31
  }

  predicate Valid(d: YearMonthDay) { 1 <= d.month <= 12 && 1 <= d.day <= DaysInMonth(d.year, d.month) }

  predicate Before(x: YearMonthDay, y: YearMonthDay) {
    x.year < y.year || (x.year == y.year && (x.month < y.month || (x.month == y.month && x.day < y.day)))
  }

  const EPOCH := YearMonthDay(-4800, 3, 1)
  const EPOCH_JDN := -32044

  predicate SinceEpoch(d: YearMonthDay) { Valid(d) && !Before(d, EPOCH) }

  function NextDay(d: YearMonthDay): (n: YearMonthDay)
    requires Valid(d)
    ensures Valid(n) && Before(d, n)
  {
    if d.day < DaysInMonth(d.year, d.month) then d.(day := d.day + 1)
    else if d.month < 12 then YearMonthDay(d.year, d.month + 1, 1)
    else YearMonthDay(d.year + 1, 1, 1)
  }

  /** The calendar day by day: the date `n` days after the epoch. */
  function NthDay(n: nat): (d: YearMonthDay)
    ensures SinceEpoch(d)
  {
    if n == 0 then EPOCH else NextDay(NthDay(n - 1))
  }

  // ----- years that begin in March -----

  /** Days before century `b`, before year `r` of a century, and before month `m` of a March year. */
  function CenturyStart(b: int): (n: int) { 146097 * b / 4 }

  function YearStart(r: int): (n: int) { 1461 * r / 4 }

  function MonthStart(m: int): (n: int) { (153 * m + 2) / 5 }

  /** A March year ends with the February of the next calendar year. */
  function YearLength(y: int): (n: int) { if IsLeap(y + 1) then 366 else 365 }

  /** Days since the epoch, given the March year, its month and the day counted from 0. */
  function Days(y: int, m: int, d: int): (n: int) {
    CenturyStart(y / 100) + YearStart(y % 100) + MonthStart(m) + d
  }

  /** The length of month `m` of March year `y`. */
  function MonthLength(y: int, m: int): (n: int) {
    if m == 11 then YearLength(y) - 337 else MonthStart(m + 1) - MonthStart(m)
  }

  function MarchYear(d: YearMonthDay): (y: int) { if d.month <= 2 then d.year + 4799 else d.year + 4800 }

  function MarchMonth(d: YearMonthDay): (m: int) { if d.month <= 2 then d.month + 9 else d.month - 3 }

  /** Leap years repeat every 400 years. */
  lemma LeapPeriod(q: int, t: int)
    requires 0 <= t < 400
    ensures IsLeap(400 * q + t) == IsLeap(t)
  {
    ModOf(400, q, t);
    ModOf(100, 4 * q + t / 100, t % 100);
    ModOf(4, 100 * q + t / 4, t % 4);
  }

  lemma LeapShift(year: int, n: int)
    ensures IsLeap(year + 400 * n) == IsLeap(year)
  {
    var q, t := year / 400, year % 400;
    LeapPeriod(q, t);
    LeapPeriod(q + n, t);
  }

  lemma MonthLengthIsDaysInMonth(d: YearMonthDay)
    requires 1 <= d.month <= 12
    ensures MonthLength(MarchYear(d), MarchMonth(d)) == DaysInMonth(d.year, d.month)
  {
    LeapShift(d.year, 12);
  }

  /** Moving a multiple of 100 years out of the leap-day count. */
  lemma CenturySplit(y: int)
    requires y >= 0
    ensures y * 365 + y / 4 - y / 100 + y / 400 == CenturyStart(y / 100) + YearStart(y % 100)
  {
    var b, r := y / 100, y % 100;
    assert y == 100 * b + r;
    assert y / 4 == 25 * b + r / 4;
    assert y / 400 == b / 4;
    assert CenturyStart(b) == 36524 * b + b / 4;
    assert YearStart(r) == 365 * r + r / 4;
  }

  /** `getJulianDayNumber` counts the days since the epoch. */
  lemma JdnIsDays(d: YearMonthDay)
    requires 1 <= d.month <= 12 && MarchYear(d) >= 0
    ensures Jdn(d) == Days(MarchYear(d), MarchMonth(d), d.day - 1) + EPOCH_JDN
  {
    var y, m := MarchYear(d), MarchMonth(d);
    assert Quot(14 - d.month, 12) == if d.month <= 2 then 1 else 0;
    assert Jdn(d) == d.day + (153 * m + 2) / 5 + y * 365 + y / 4 - y / 100 + y / 400 - 32045;
    CenturySplit(y);
  }

  /**
   Rounded multiples and how to undo them: with S(k) = (p * k + t) / q, the k with S(k) <= x < S(k + 1)
   is (q * x + q - 1 - t) / p.
   */
  lemma UndoRounding(p: int, q: int, t: int, x: int, k: int)
    requires p > 0 && q > 0
    ensures (p * k + t) / q <= x <==> p * k <= q * x + q - 1 - t
    ensures k == (q * x + q - 1 - t) / p <==> ((p * k + t) / q <= x < (p * (k + 1) + t) / q)
  {
    FloorBound(p * k + t, q, x);
    FloorBound(p * (k + 1) + t, q, x);
    DivBounds(q * x + q - 1 - t, p, k);
    assert p * (k + 1) == p * k + p;
  }

  /** A March year ends where the next one starts, and the last one of a century where the next century does. */
  lemma YearSpan(b: int, r: int)
    requires b >= 0 && 0 <= r <= 99
    ensures r < 99 ==> YearStart(r) + YearLength(100 * b + r) == YearStart(r + 1)
    ensures r == 99 ==> YearStart(r) + YearLength(100 * b + r) == CenturyStart(b + 1) - CenturyStart(b)
    ensures YearStart(r) + YearLength(100 * b + r) <= CenturyStart(b + 1) - CenturyStart(b)
  {
    LeapInCentury(b, r);
    CenturyLength(b);
    if r < 99 {
      assert YearStart(r + 1) <= YearStart(99) == 36159;
    }
  }

  lemma LeapInCentury(b: int, r: int)
    requires b >= 0 && 0 <= r <= 99
    ensures IsLeap(100 * b + r + 1) <==> if r < 99 then (r + 1) % 4 == 0 else (b + 1) % 4 == 0
  {
    if r < 99 {
      ModOf(100, b, r + 1);
      ModOf(4, 25 * b + (r + 1) / 4, (r + 1) % 4);
    } else {
      var q, t := (b + 1) / 4, (b + 1) % 4;
      ModOf(100, b + 1, 0);
      ModOf(4, 25 * (b + 1), 0);
      ModOf(400, q, 100 * t);
    }
  }

  lemma CenturyLength(b: int)
    requires b >= 0
    ensures CenturyStart(b + 1) - CenturyStart(b) == if (b + 1) % 4 == 0 then 36525 else 36524
  {
  }

  /** A position inside a March year. */
  ghost predicate InMarchYear(y: int, m: int, d: int) {
    y >= 0 && 0 <= m <= 11 && 0 <= d < MonthLength(y, m)
  }

  /** The year, month and day that the divisions of `getYearMonthDay` find. */
  function YearOf(a: nat): (r: (int, int)) {
    var b := (4 * a + 3) / 146097;
    var c := a - CenturyStart(b);
    (b, (4 * c + 3) / 1461)
  }

  function DayOfYear(a: nat): (e: int) {
    var (b, r) := YearOf(a);
    a - CenturyStart(b) - YearStart(r)
  }

  /** The first two divisions find the century and the year that contain day `a`. */
  lemma FindYear(a: nat, b: int, r: int)
    requires b >= 0 && 0 <= r <= 99
    ensures YearOf(a) == (b, r)
       <==> 0 <= a - CenturyStart(b) - YearStart(r) < YearLength(100 * b + r)
  {
    var c := a - CenturyStart(b);
    UndoRounding(146097, 4, 0, a, b);
    UndoRounding(1461, 4, 0, c, r);
    YearSpan(b, r);
  }

  lemma YearOfInRange(a: nat)
    ensures YearOf(a).0 >= 0 && 0 <= YearOf(a).1 <= 99
  {
    var (b, r) := YearOf(a);
    UndoRounding(146097, 4, 0, a, b);
    var c := a - CenturyStart(b);
    assert 0 <= c <= 36524;
  }

  /** The third division finds the month that contains day `e` of the year. */
  lemma FindMonth(y: int, e: int, m: int)
    requires y >= 0 && 0 <= e < YearLength(y) && 0 <= m <= 11
    ensures (5 * e + 2) / 153 == m <==> 0 <= e - MonthStart(m) < MonthLength(y, m)
    ensures 0 <= (5 * e + 2) / 153 <= 11
  {
    UndoRounding(153, 5, 2, e, m);
  }

  function FromMarch(y: int, m: int, d: int): (r: YearMonthDay) {
    YearMonthDay(y - 4800 + (if m >= 10 then 1 else 0), if m >= 10 then m - 9 else m + 3, d + 1)
  }

  lemma FromMarchInverse(d: YearMonthDay)
    requires 1 <= d.month <= 12
    ensures FromMarch(MarchYear(d), MarchMonth(d), d.day - 1) == d
  {
  }

  lemma FromMarchValid(y: int, m: int, d: int)
    requires InMarchYear(y, m, d)
    ensures var r := FromMarch(y, m, d);
            SinceEpoch(r) && MarchYear(r) == y && MarchMonth(r) == m && r.day == d + 1
  {
    MonthLengthIsDaysInMonth(FromMarch(y, m, d));
  }

  lemma ToMarch(d: YearMonthDay)
    requires SinceEpoch(d)
    ensures InMarchYear(MarchYear(d), MarchMonth(d), d.day - 1)
  {
    MonthLengthIsDaysInMonth(d);
  }

  /** `getYearMonthDay` in terms of the year and day found; nothing in it is negative. */
  lemma DecodeIsFind(a: nat)
    ensures var (b, r) := YearOf(a);
            var e := DayOfYear(a);
            var m := (5 * e + 2) / 153;
            GetYearMonthDay(a + EPOCH_JDN) == FromMarch(100 * b + r, m, e - MonthStart(m))
  {
    hide GetYearMonthDay, FromMarch, YearLength;
    var (b, r) := YearOf(a);
    YearOfInRange(a);
    FindYear(a, b, r);
    var e := DayOfYear(a);
    FindMonth(100 * b + r, e, 0);
    DecodeShape(a, b, r, e, (5 * e + 2) / 153);
  }

  ghost predicate Chain(a: int, b: int, c: int, d: int, e: int, m: int) {
    && b == Quot(4 * a + 3, 146097)
    && c == a - Quot(b * 146097, 4)
    && d == Quot(4 * c + 3, 1461)
    && e == c - Quot(1461 * d, 4)
    && m == Quot(5 * e + 2, 153)
  }

  lemma Assemble(a: int, b: int, c: int, d: int, e: int, m: int)
    ensures Chain(a, b, c, d, e, m)
        ==> GetYearMonthDay(a + EPOCH_JDN)
            == YearMonthDay(b * 100 + d - 4800 + Quot(m, 10), m + 3 - 12 * Quot(m, 10), e - Quot(153 * m + 2, 5) + 1)
  {
    hide Quot;
  }

  lemma DecodeShape(a: int, b: int, r: int, e: int, m: int)
    requires a >= 0 && b >= 0 && r >= 0 && e >= 0 && 0 <= m <= 11
    requires b == (4 * a + 3) / 146097
    requires a - CenturyStart(b) >= 0 && r == (4 * (a - CenturyStart(b)) + 3) / 1461
    requires e == a - CenturyStart(b) - YearStart(r) && m == (5 * e + 2) / 153
    ensures GetYearMonthDay(a + EPOCH_JDN) == FromMarch(100 * b + r, m, e - MonthStart(m))
  {
    hide GetYearMonthDay;
    var c := a - CenturyStart(b);
    Assemble(a, b, c, r, e, m);
    assert Quot(4 * a + 3, 146097) == b;
    assert Quot(b * 146097, 4) == CenturyStart(b);
    assert Quot(4 * c + 3, 1461) == r;
    assert Quot(1461 * r, 4) == YearStart(r);
    assert Quot(5 * e + 2, 153) == m;
    assert Quot(153 * m + 2, 5) == MonthStart(m);
    assert Quot(m, 10) == if m >= 10 then 1 else 0;
  }

  /** The decoder finds exactly the position whose day count is `a`. */
  lemma DecodeDays(a: nat, y: int, m: int, d: int)
    requires InMarchYear(y, m, d)
    ensures Days(y, m, d) == a ==> GetYearMonthDay(a + EPOCH_JDN) == FromMarch(y, m, d)
  {
    hide GetYearMonthDay, FromMarch;
    if Days(y, m, d) == a {
      var b, r := y / 100, y % 100;
      MonthInYear(y, m, d);
      FindYear(a, b, r);
      FindMonth(y, DayOfYear(a), m);
      DecodeIsFind(a);
    }
  }

  lemma DaysNotNegative(y: int, m: int, d: int)
    requires InMarchYear(y, m, d)
    ensures Days(y, m, d) >= 0
  {
  }

  lemma MonthInYear(y: int, m: int, d: int)
    requires InMarchYear(y, m, d)
    ensures 0 <= MonthStart(m) + d < YearLength(y)
  {
  }

  // ----- the main results -----

  /** Decoding the number of a date gives the date back. */
  lemma DecodeEncode(d: YearMonthDay)
    requires SinceEpoch(d)
    ensures Jdn(d) >= EPOCH_JDN && GetYearMonthDay(Jdn(d)) == d
  {
    hide GetYearMonthDay, Jdn, FromMarch, Days;
    var y, m := MarchYear(d), MarchMonth(d);
    ToMarch(d);
    JdnIsDays(d);
    DaysNotNegative(y, m, d.day - 1);
    DecodeDays(Days(y, m, d.day - 1), y, m, d.day - 1);
    FromMarchInverse(d);
  }

  /** Decoding any day from the epoch on gives a valid date, whose number is that day. */
  lemma EncodeDecode(j: int)
    requires j >= EPOCH_JDN
    ensures SinceEpoch(GetYearMonthDay(j)) && Jdn(GetYearMonthDay(j)) == j
  {
    hide GetYearMonthDay, Jdn, FromMarch;
    var a := j - EPOCH_JDN;
    var (b, r) := YearOf(a);
    YearOfInRange(a);
    FindYear(a, b, r);
    var y, e := 100 * b + r, DayOfYear(a);
    assert y / 100 == b && y % 100 == r;
    var m := (5 * e + 2) / 153;
    FindMonth(y, e, 0);
    FindMonth(y, e, m);
    DecodeIsFind(a);
    FromMarchValid(y, m, e - MonthStart(m));
    JdnIsDays(GetYearMonthDay(j));
  }

  /** Before the epoch every quotient is rounded toward zero, and the day comes out below 1. */
  lemma DecodeBeforeEpoch(j: int)
    requires j < EPOCH_JDN
    ensures GetYearMonthDay(j).day <= 0
  {
    var a := j + 32044;
    var b := Quot(4 * a + 3, 146097);
    NegativeStep(146097, a, b);
    var c := a - Quot(b * 146097, 4);
    var d := Quot(4 * c + 3, 1461);
    NegativeStep(1461, c, d);
    var e := c - Quot(1461 * d, 4);
    var m := Quot(5 * e + 2, 153);
    NegativeMonth(e, m);
  }

  lemma NegativeStep(p: int, x: int, k: int)
    requires p > 0 && x < 0 && k == Quot(4 * x + 3, p)
    ensures x - Quot(k * p, 4) < 0
  {
    var n := -(4 * x + 3);
    assert k == -(n / p);
    assert n / p * p <= n;
    assert k * p == -(n / p * p);
  }

  lemma NegativeMonth(e: int, m: int)
    requires e < 0 && m == Quot(5 * e + 2, 153)
    ensures e - Quot(153 * m + 2, 5) + 1 <= 0
  {
  }

  /** Exactly the days from the epoch on decode to a date of the calendar. */
  lemma DecodedDateIsValid(j: int)
    ensures Valid(GetYearMonthDay(j)) <==> j >= EPOCH_JDN
  {
    hide GetYearMonthDay;
    if j >= EPOCH_JDN {
      EncodeDecode(j);
    } else {
      DecodeBeforeEpoch(j);
    }
  }

  /** Exactly the dates from the epoch on survive encoding and decoding. */
  lemma RoundTrip(d: YearMonthDay)
    requires Valid(d)
    ensures GetYearMonthDay(Jdn(d)) == d <==> SinceEpoch(d)
  {
    hide GetYearMonthDay, Jdn;
    if SinceEpoch(d) {
      DecodeEncode(d);
    } else if Jdn(d) >= EPOCH_JDN {
      EncodeDecode(Jdn(d));
    } else {
      DecodedDateIsValid(Jdn(d));
    }
  }

  lemma DaysOfNextDay(d: YearMonthDay)
    requires SinceEpoch(d)
    ensures SinceEpoch(NextDay(d)) && Jdn(NextDay(d)) == Jdn(d) + 1
  {
    hide Jdn, CountedStart, IsLeap;
    var n := NextDay(d);
    JdnIsCounted(d);
    JdnIsCounted(n);
    LeapShift(d.year, 12);
    CountedYear(MarchYear(d));
  }

  lemma EpochNumber()
    ensures Jdn(EPOCH) == EPOCH_JDN
  {
  }

  /** `getYearMonthDay` counts through the calendar day by day. */
  lemma {:induction false} DecodeCounts(n: nat)
    ensures GetYearMonthDay(EPOCH_JDN + n) == NthDay(n) && Jdn(NthDay(n)) == EPOCH_JDN + n
  {
    hide GetYearMonthDay, Jdn, NextDay;
    if n == 0 {
      EpochNumber();
    } else {
      DecodeCounts(n - 1);
      DaysOfNextDay(NthDay(n - 1));
    }
    DecodeEncode(NthDay(n));
  }

  // ----- order, also before the epoch -----

  /** The number of days before March year `y`, as the source counts them: truncation makes it odd below 0. */
  function CountedStart(y: int): (n: int) { y * 365 + Quot(y, 4) - Quot(y, 100) + Quot(y, 400) }

  lemma JdnIsCounted(d: YearMonthDay)
    requires 1 <= d.month <= 12
    ensures Jdn(d) == CountedStart(MarchYear(d)) + MonthStart(MarchMonth(d)) + d.day - 32045
  {
    assert Quot(14 - d.month, 12) == if d.month <= 2 then 1 else 0;
    assert 153 * MarchMonth(d) + 2 >= 0;
  }

  lemma DivStep(n: nat, k: nat)
    requires k > 1
    ensures (n + 1) / k - n / k == if (n + 1) % k == 0 then 1 else 0
  {
    var q, t := n / k, n % k;
    assert n == k * q + t;
    if t + 1 < k {
      ModOf(k, q, t + 1);
    } else {
      ModOf(k, q + 1, 0);
      assert k * (q + 1) == k * q + k;
    }
  }

  lemma NegativeMultiple(y: int, k: nat)
    requires k > 1
    ensures (-y) % k == 0 <==> y % k == 0
  {
    var q, t := y / k, y % k;
    assert y == k * q + t;
    if t == 0 {
      ModOf(k, -q, 0);
      assert k * (-q) == -(k * q);
    } else {
      ModOf(k, -q - 1, k - t);
      assert k * (-q - 1) == -(k * q) - k;
    }
  }

  /** How much a truncated quotient grows. */
  lemma QuotStep(y: int, k: nat)
    requires k > 1
    ensures y >= 0 ==> Quot(y + 1, k) - Quot(y, k) == if (y + 1) % k == 0 then 1 else 0
    ensures y < 0 ==> Quot(y + 1, k) - Quot(y, k) == if y % k == 0 then 1 else 0
  {
    if y >= 0 {
      DivStep(y, k);
    } else {
      DivStep(-y - 1, k);
      NegativeMultiple(y, k);
      if y == -1 {
        ModOf(k, 0, 0);
      }
    }
  }

  lemma Residues(y: int)
    ensures y % 400 == 0 ==> y % 100 == 0
    ensures y % 100 == 0 ==> y % 4 == 0
    ensures (y + 1) % 4 == 0 ==> y % 4 == 3
  {
    if y % 400 == 0 {
      ModOf(100, 4 * (y / 400), 0);
    }
    if y % 100 == 0 {
      ModOf(4, 25 * (y / 100), 0);
    }
    if (y + 1) % 4 == 0 {
      ModOf(4, (y + 1) / 4 - 1, 3);
    }
  }

  /** A counted year has at least 365 days, from the epoch on as many as in the calendar, before it no leap day. */
  lemma CountedYear(y: int)
    ensures CountedStart(y + 1) - CountedStart(y) >= 365
    ensures y >= 0 ==> CountedStart(y + 1) - CountedStart(y) == YearLength(y)
    ensures y < 0 && IsLeap(y + 1) ==> CountedStart(y + 1) - CountedStart(y) == 365
  {
    hide Quot;
    QuotStep(y, 4);
    QuotStep(y, 100);
    QuotStep(y, 400);
    Residues(y);
    Residues(y + 1);
  }

  lemma {:induction false} CountedYears(y: int, z: int)
    requires y < z
    ensures CountedStart(z) - CountedStart(y + 1) >= 365 * (z - y - 1)
    decreases z - y
  {
    hide CountedStart;
    if y + 1 < z {
      CountedYear(z - 1);
      CountedYears(y, z - 1);
    }
  }

  /** The day of a March year, counted from 0; the last one is a leap day. */
  function DayInYear(d: YearMonthDay): (n: int) { MonthStart(MarchMonth(d)) + d.day - 1 }

  lemma DayInYearBounds(d: YearMonthDay)
    requires Valid(d)
    ensures 0 <= DayInYear(d) <= 365
    ensures DayInYear(d) == 365 <==> d.month == 2 && d.day == 29
    ensures DayInYear(d) == 0 <==> d.month == 3 && d.day == 1
  {
  }

  lemma DayInYearOrder(x: YearMonthDay, y: YearMonthDay)
    requires Valid(x) && Valid(y) && MarchYear(x) == MarchYear(y) && Before(x, y)
    ensures DayInYear(x) < DayInYear(y)
  {
    if x.month != y.month {
      assert MarchMonth(x) < MarchMonth(y);
    }
  }

  /** 29 February and 1 March of a year in which the source counts no leap day. */
  predicate Collide(x: YearMonthDay, y: YearMonthDay) {
    x.year == y.year <= -4800 && x.month == 2 && x.day == 29 && y.month == 3 && y.day == 1
  }

  lemma LaterIsGreater(x: YearMonthDay, y: YearMonthDay)
    requires Valid(x) && Valid(y) && Before(x, y)
    ensures if Collide(x, y) then Jdn(x) == Jdn(y) else Jdn(x) < Jdn(y)
  {
    hide Jdn, CountedStart, IsLeap, MonthStart;
    JdnIsCounted(x);
    JdnIsCounted(y);
    DayInYearBounds(x);
    DayInYearBounds(y);
    var a, b := MarchYear(x), MarchYear(y);
    if a == b {
      DayInYearOrder(x, y);
    } else {
      CountedYear(a);
      CountedYears(a, b);
      LeapShift(x.year, 12);
    }
  }

  /**
   Comparing Julian Day Numbers, as the operators do, is comparing dates: for all dates of the calendar, except
   that before the epoch a 29 February has the number of the next day.
   */
  lemma OrderIsCalendarOrder(x: YearMonthDay, y: YearMonthDay)
    requires Valid(x) && Valid(y)
    ensures Jdn(x) < Jdn(y) <==> Before(x, y) && !Collide(x, y)
    ensures Jdn(x) == Jdn(y) <==> x == y || Collide(x, y) || Collide(y, x)
  {
    hide Jdn;
    if Before(x, y) {
      LaterIsGreater(x, y);
    } else if Before(y, x) {
      LaterIsGreater(y, x);
    } else {
      assert x == y;
    }
  }

  /** `kJulianDayOf1970_01_01` */
  lemma UnixEpoch()
    ensures Jdn(YearMonthDay(1970, 1, 1)) == 2440588 && GetYearMonthDay(2440588) == YearMonthDay(1970, 1, 1)
    ensures WeekDay(2440588) == 4
  {
    hide GetYearMonthDay;
    DecodeEncode(YearMonthDay(1970, 1, 1));
  }

  lemma DaysShift(y: int, m: int, d: int)
    ensures Days(y + 400, m, d) == Days(y, m, d) + 146097
  {
    var b, r := y / 100, y % 100;
    ModOf(100, b + 4, r);
    assert 146097 * (b + 4) == 146097 * b + 4 * 146097;
  }

  /** The calendar repeats every 400 years. */
  lemma FourHundredYears(d: YearMonthDay)
    requires SinceEpoch(d)
    ensures SinceEpoch(d.(year := d.year + 400)) && Jdn(d.(year := d.year + 400)) == Jdn(d) + 146097
  {
    hide Jdn, Days, IsLeap;
    LeapShift(d.year, 1);
    JdnIsDays(d);
    JdnIsDays(d.(year := d.year + 400));
    DaysShift(MarchYear(d), MarchMonth(d), d.day - 1);
  }

  /** `weekDay` is in its documented range exactly from Julian Day -1 on, and on every seventh day before. */
  lemma WeekDayInRange(j: int)
    ensures 0 <= WeekDay(j) <= 6 <==> j >= -1 || (j + 1) % 7 == 0
  {
  }

  /** 400 years are a whole number of weeks, but a negative remainder stays negative. */
  lemma RemShift(x: int)
    requires x + 146097 > 0
    ensures Rem(x + 146097, 7) == Rem(x, 7) <==> x >= 0 || x % 7 == 0
  {
    var k, t := x / 7, x % 7;
    ModOf(7, k + 20871, t);
    if x < 0 && t != 0 {
      ModOf(7, -k - 1, 7 - t);
    } else if x < 0 {
      ModOf(7, -k, 0);
    }
  }

  /** Weekdays repeat every 400 years exactly for the dates whose weekday is in range. */
  lemma WeekDayRepeats(d: YearMonthDay)
    requires SinceEpoch(d)
    ensures WeekDay(Jdn(d.(year := d.year + 400))) == WeekDay(Jdn(d)) <==> Jdn(d) >= -1 || (Jdn(d) + 1) % 7 == 0
  {
    hide Jdn, GetYearMonthDay, Rem;
    FourHundredYears(d);
    DecodeEncode(d);
    RemShift(Jdn(d) + 1);
  }

  lemma WeekDayStep(j: int)
    ensures WeekDay(j + 1) == (WeekDay(j) + 1) % 7 <==> j >= -1 || (j + 2) % 7 == 0
  {
  }

  /** The next calendar day has the next weekday, exactly from Julian Day -1 on and on every seventh day before. */
  lemma WeekDayAdvances(d: YearMonthDay)
    requires SinceEpoch(d)
    ensures WeekDay(Jdn(NextDay(d))) == (WeekDay(Jdn(d)) + 1) % 7 <==> Jdn(d) >= -1 || (Jdn(d) + 2) % 7 == 0
  {
    hide Jdn, NextDay;
    DaysOfNextDay(d);
    WeekDayStep(Jdn(d));
  }

  // ----- 32-bit range -----

  predicate FitsInt32(n: int) { -0x8000_0000 <= n <= 0x7fff_ffff }

  /** Every value that `getYearMonthDay` computes on the way, given its local variables. */
  function Values(a: int, b: int, c: int, d: int, e: int, m: int): (s: seq<int>) {
    [a, 4 * a, 4 * a + 3, b, b * 146097, Quot(b * 146097, 4), c, 4 * c, 4 * c + 3, d, 1461 * d, Quot(1461 * d, 4),
     e, 5 * e, 5 * e + 2, m, 153 * m, 153 * m + 2, Quot(153 * m + 2, 5), e - Quot(153 * m + 2, 5),
     e - Quot(153 * m + 2, 5) + 1, m + 3, Quot(m, 10), 12 * Quot(m, 10), m + 3 - 12 * Quot(m, 10),
     b * 100, b * 100 + d, b * 100 + d - 4800, b * 100 + d - 4800 + Quot(m, 10)]
  }

  function Intermediates(julianDayNumber: int): (s: seq<int>) {
    var a := julianDayNumber + 32044;
    var b := Quot(4 * a + 3, 146097);
    var c := a - Quot(b * 146097, 4);
    var d := Quot(4 * c + 3, 1461);
    var e := c - Quot(1461 * d, 4);
    Values(a, b, c, d, e, Quot(5 * e + 2, 153))
  }

  predicate AllFit(s: seq<int>) { forall i :: 0 <= i < |s| ==> FitsInt32(s[i]) }

  /** The largest Julian Day that can be decoded without leaving the 32-bit range. */
  lemma DecodeFits(j: int)
    requires j >= EPOCH_JDN
    ensures AllFit(Intermediates(j)) <==> j <= 536838867
  {
    hide Values, AllFit;
    var a := j + 32044;
    var b := Quot(4 * a + 3, 146097);
    var c := a - Quot(b * 146097, 4);
    var d := Quot(4 * c + 3, 1461);
    var e := c - Quot(1461 * d, 4);
    var m := Quot(5 * e + 2, 153);
    if a <= 536870911 {
      IntermediateBounds(a, b, c, d, e, m);
      ValuesFit(a, b, c, d, e, m);
    } else {
      TooLarge(a, b, c, d, e, m);
    }
  }

  lemma TooLarge(a: int, b: int, c: int, d: int, e: int, m: int)
    requires a > 536870911
    ensures !AllFit(Values(a, b, c, d, e, m))
  {
    assert !FitsInt32(Values(a, b, c, d, e, m)[2]);
  }

  lemma ValuesFit(a: int, b: int, c: int, d: int, e: int, m: int)
    requires 0 <= a <= 536870911
    requires 0 <= b <= 14699 && 0 <= b * 146097 <= 4 * a + 3 && 0 <= c <= 36524 && 0 <= d <= 99 && 0 <= e <= 365
    requires 0 <= m <= 11 && 0 <= Quot(m, 10) <= 1 && 0 <= Quot(153 * m + 2, 5) <= 400
    requires 0 <= Quot(b * 146097, 4) <= a && 0 <= Quot(1461 * d, 4) <= c
    ensures AllFit(Values(a, b, c, d, e, m))
  {
    hide Quot;
  }

  lemma IntermediateBounds(a: nat, b: int, c: int, d: int, e: int, m: int)
    requires a <= 536870911 && Chain(a, b, c, d, e, m)
    ensures 0 <= b <= 14699 && 0 <= b * 146097 <= 4 * a + 3 && 0 <= c <= 36524 && 0 <= d <= 99 && 0 <= e <= 365
    ensures 0 <= m <= 11 && 0 <= Quot(m, 10) <= 1 && 0 <= Quot(153 * m + 2, 5) <= 400
    ensures 0 <= Quot(b * 146097, 4) <= a && 0 <= Quot(1461 * d, 4) <= c
  {
    YearOfInRange(a);
    FindYear(a, b, d);
  }
}
