/** Calendar arithmetic on whole days, in exact integers. */
module Dates {
  import opened Arithmetic

  /** Division as in C: toward zero. */
  function Trunc(a: int, b: nat): int
    requires b > 0
  {
    if a >= 0 then a / b else -(-a / b)
  }

  datatype Date = Date(y: int, m: int, d: int)

  predicate Leap(y: int) {
    y % 4 == 0 && (y % 100 != 0 || y % 400 == 0)
  }

  function DaysIn(y: int, m: int): int {
    if m == 2 then (if Leap(y) then 29 else 28)
    else if m == 4 || m == 6 || m == 9 || m == 11 then 30
    else 31
  }

  /** A day of the proleptic Gregorian calendar from year 0 on. */
  predicate IsDate(t: Date) {
    t.y >= 0 && 1 <= t.m <= 12 && 1 <= t.d <= DaysIn(t.y, t.m)
  }

  function Tomorrow(t: Date): Date {
    if t.d < DaysIn(t.y, t.m) then Date(t.y, t.m, t.d + 1)
    else if t.m < 12 then Date(t.y, t.m + 1, 1)
    else Date(t.y + 1, 1, 1)
  }

  // ----- computeJD -----

  /** Days before the month, counted from the end of October of the year before; March is month 3. */
  function MonthStart(m: int): int {
    306001 * (m + 1) / 10000
  }

  function YearStart(y: int): int {
    Trunc(36525 * (y + 4716), 100)
  }

  function Century(y: int): int {
    2 - Trunc(y, 100) + Trunc(Trunc(y, 100), 4)
  }

  /** The Julian day number at noon of a date. */
  function DayNumber(t: Date): int {
    var y, m := if t.m <= 2 then t.y - 1 else t.y, if t.m <= 2 then t.m + 12 else t.m;
    YearStart(y) + MonthStart(m) + t.d + Century(y) - 1524
  }

  // ----- computeYMD -----

  /** Z without the leap days that the Gregorian calendar leaves out. */
  function Uncorrected(z: int): int {
    var a := Trunc(4 * z - 7468865, 146097);
    z + 1 + a - Trunc(a, 4) + 1524
  }

  function FromUncorrected(b: int): Date {
    var c := Trunc(20 * b - 2442, 7305);
    var x := Trunc(36525 * c, 100);
    var e := Trunc(10000 * (b - x), 306001);
    var m := if e < 14 then e - 1 else e - 13;
    Date(if m > 2 then c - 4716 else c - 4715, m, b - x - Trunc(306001 * e, 10000))
  }

  function ToDate(z: int): Date {
    FromUncorrected(Uncorrected(z))
  }

  // ----- the calendar -----

  lemma YearStartIs(y: int)
    requires y >= -1
    ensures YearStart(y) == 1461 * (y + 4716) / 4
  {
  }

  lemma CenturyIs(y: int)
    requires y >= 0
    ensures Century(y) == 2 - y / 100 + y / 400
  {
  }

  /** A year that begins in March has a leap day at its end. */
  lemma YearStep(y: int)
    requires y >= -1
    ensures YearStart(y + 1) + Century(y + 1) == YearStart(y) + Century(y) + 365 + if Leap(y + 1) then 1 else 0
  {
    YearStartIs(y);
    YearStartIs(y + 1);
    CenturyIs(y + 1);
    LeapDays(y);
    if y >= 0 {
      CenturyIs(y);
    }
  }

  lemma LeapDays(y: int)
    requires y >= -1
    ensures 1461 * (y + 1 + 4716) / 4 == 1461 * (y + 4716) / 4 + 365 + if (y + 1) % 4 == 0 then 1 else 0
    ensures y >= 0 ==> (y + 1) / 100 == y / 100 + if (y + 1) % 100 == 0 then 1 else 0
    ensures y >= 0 ==> (y + 1) / 400 == y / 400 + if (y + 1) % 400 == 0 then 1 else 0
  {
  }

  lemma MonthStep(m: int)
    requires 3 <= m <= 13
    ensures MonthStart(m + 1) == MonthStart(m) + DaysIn(1, if m > 12 then m - 12 else m)
  {
    assert MonthStart(3) == 122 && MonthStart(4) == 153 && MonthStart(5) == 183 && MonthStart(6) == 214;
    assert MonthStart(7) == 244 && MonthStart(8) == 275 && MonthStart(9) == 306 && MonthStart(10) == 336;
    assert MonthStart(11) == 367 && MonthStart(12) == 397 && MonthStart(13) == 428 && MonthStart(14) == 459;
  }

  lemma EndOfMonth(y: int, m: int)
    requires y >= 0 && 1 <= m <= 12 && m != 2
    ensures DayNumber(if m < 12 then Date(y, m + 1, 1) else Date(y + 1, 1, 1)) ==
      DayNumber(Date(y, m, DaysIn(y, m))) + 1
  {
    MonthStep(if m <= 2 then m + 12 else m);
  }

  lemma EndOfFebruary(y: int)
    requires y >= 0
    ensures DayNumber(Date(y, 3, 1)) == DayNumber(Date(y, 2, DaysIn(y, 2))) + 1
  {
    YearStep(y - 1);
    assert MonthStart(3) == 122 && MonthStart(14) == 459;
  }

  /** The day number follows the calendar: it grows by one from each day to the next. */
  lemma NextDay(t: Date)
    requires IsDate(t)
    ensures IsDate(Tomorrow(t)) && DayNumber(Tomorrow(t)) == DayNumber(t) + 1
  {
    TomorrowIsDate(t);
    if t.d < DaysIn(t.y, t.m) {
      WithinMonth(t);
    } else if t.m == 2 {
      EndOfFebruary(t.y);
    } else {
      EndOfMonth(t.y, t.m);
    }
  }

  lemma TomorrowIsDate(t: Date)
    requires IsDate(t)
    ensures IsDate(Tomorrow(t))
  {
  }

  lemma WithinMonth(t: Date)
    ensures DayNumber(t.(d := t.d + 1)) == DayNumber(t) + 1
  {
  }

  lemma Epoch()
    ensures DayNumber(Date(2000, 1, 1)) == 2451545 && DayNumber(Date(0, 1, 1)) == 1721060
  {
  }

  // ----- the inverse -----

  /** Year and month counted from March. */
  function MarchYear(t: Date): int {
    if t.m <= 2 then t.y - 1 else t.y
  }

  function Ordinal(t: Date): int {
    MonthStart(if t.m <= 2 then t.m + 12 else t.m) + t.d
  }

  lemma OrdinalRange(t: Date)
    requires IsDate(t)
    ensures 123 <= Ordinal(t) <= 487 + if Leap(MarchYear(t) + 1) then 1 else 0
    ensures Ordinal(t) == 123 <==> t.m == 3 && t.d == 1
  {
    assert MonthStart(3) == 122 && MonthStart(4) == 153 && MonthStart(5) == 183 && MonthStart(6) == 214;
    assert MonthStart(7) == 244 && MonthStart(8) == 275 && MonthStart(9) == 306 && MonthStart(10) == 336;
    assert MonthStart(11) == 367 && MonthStart(12) == 397 && MonthStart(13) == 428 && MonthStart(14) == 459;
  }

  /** Days of day `s` of year `y` since the beginning of its century, in quarters, plus the lag of the rule. */
  function Quarters(y: int, s: int): int {
    3 - (y / 100) % 4 + 4 * (1461 * (y % 100) / 4 + s - 123)
  }

  lemma CenturyStart(y: int)
    requires y >= 0
    ensures YearStart(y) == 36525 * (y / 100) + 1722519 + 1461 * (y % 100) / 4
  {
    YearStartIs(y);
    assert y == 100 * (y / 100) + y % 100;
  }

  /** The quotient of computeYMD names the century. */
  lemma QuartersAre(y: int, s: int)
    requires y >= 0
    ensures 4 * (YearStart(y) + s + Century(y) - 1524) - 7468865 == 146097 * (y / 100 - 4) + Quarters(y, s)
  {
    CenturyStart(y);
    var c := y / 100;
    assert Trunc(c, 4) == c / 4 && c == 4 * (c / 4) + c % 4;
  }

  lemma InFourCenturies(y: int)
    requires y >= 0
    ensures y % 400 == 100 * ((y / 100) % 4) + y % 100
    ensures y % 100 == 99 && Leap(y + 1) ==> (y / 100) % 4 == 3
  {
    var c := y / 100;
    assert y == 400 * (c / 4) + 100 * (c % 4) + y % 100;
    Quotient(y, 400, c / 4, 100 * (c % 4) + y % 100);
    Quotient(y + 1, 400, if y % 400 == 399 then c / 4 + 1 else c / 4, if y % 400 == 399 then 0 else y % 400 + 1);
    Quotient(y + 1, 100, if y % 100 == 99 then c + 1 else c, if y % 100 == 99 then 0 else y % 100 + 1);
  }

  lemma RangeInCentury(c: nat, r: nat, s: int)
    requires c < 4 && r < 100 && 123 <= s <= 488 && (r == 99 && s == 488 ==> c == 3)
    ensures var k := 3 - c + 4 * (1461 * r / 4 + s - 123); 0 <= k < 146097 && (k == 0 <==> s == 123 && r == 0 && c == 3)
  {
  }

  lemma QuartersRange(y: int, s: int)
    requires y >= 0 && 123 <= s <= 487 + if Leap(y + 1) then 1 else 0
    ensures 0 <= Quarters(y, s) < 146097
    ensures Quarters(y, s) == 0 <==> s == 123 && y % 400 == 300
  {
    InFourCenturies(y);
    RangeInCentury((y / 100) % 4, y % 100, s);
  }

  /** What is added to the day number to undo the century rule, from the quotient `a`. */
  function Added(q: int): int {
    var a := Trunc(q, 146097);
    a - Trunc(a, 4)
  }

  /** Rounding toward zero goes wrong only on a negative quotient that is exact and three modulo four. */
  lemma AddedIs(c: nat, k: nat)
    requires k < 146097 && (k == 0 ==> c % 4 == 3)
    ensures Added(146097 * (c - 4) + k) == c - 3 - c / 4 - if c < 4 && k == 0 then 1 else 0
  {
    if c >= 4 {
      Quotient(146097 * (c - 4) + k, 146097, c - 4, k);
    }
  }

  lemma UncorrectedAdded(z: int)
    ensures Uncorrected(z) == z + 1525 + Added(4 * z - 7468865)
  {
  }

  lemma Special(y: int, s: int)
    requires y >= 0 && 123 <= s <= 487 + if Leap(y + 1) then 1 else 0
    ensures Quarters(y, s) == 0 ==> (y / 100) % 4 == 3
    ensures y / 100 < 4 && Quarters(y, s) == 0 <==> y == 300 && s == 123
  {
    QuartersRange(y, s);
    InFourCenturies(y);
  }

  lemma AddedYear(y: int, s: int)
    requires y >= 0 && 123 <= s <= 487 + if Leap(y + 1) then 1 else 0
    ensures Added(146097 * (y / 100 - 4) + Quarters(y, s)) == -1 - Century(y) - if y == 300 && s == 123 then 1 else 0
  {
    QuartersRange(y, s);
    Special(y, s);
    AddedIs(y / 100, Quarters(y, s));
    CenturyIs(y);
    assert y / 100 / 4 == y / 400;
  }

  lemma UncorrectedYear(y: int, s: int)
    requires y >= 0 && 123 <= s <= 487 + if Leap(y + 1) then 1 else 0
    ensures Uncorrected(YearStart(y) + s + Century(y) - 1524)
            == YearStart(y) + s - if y == 300 && s == 123 then 1 else 0
  {
    QuartersAre(y, s);
    AddedYear(y, s);
    UncorrectedAdded(YearStart(y) + s + Century(y) - 1524);
  }

  lemma UncorrectedIs(t: Date)
    requires IsDate(t)
    ensures Uncorrected(DayNumber(t)) == YearStart(MarchYear(t)) + Ordinal(t) - if t == Date(300, 3, 1) then 1 else 0
  {
    OrdinalRange(t);
    if MarchYear(t) >= 0 {
      UncorrectedYear(MarchYear(t), Ordinal(t));
    } else {
      FirstWinter(Ordinal(t));
    }
  }

  lemma FirstWinter(s: int)
    requires 123 <= s <= 488
    ensures Uncorrected(YearStart(-1) + s + Century(-1) - 1524) == YearStart(-1) + s
  {
    assert YearStart(-1) == 1722153 && Century(-1) == 2;
  }

  lemma YearOf(y: int, s: int)
    requires y >= -1 && 123 <= s <= 487 + if Leap(y + 1) then 1 else 0
    ensures Trunc(20 * (YearStart(y) + s) - 2442, 7305) == y + 4716
  {
    FourStarts(y);
    assert s == 488 ==> (y + 1) % 4 == 0;
    assert s == 488 ==> (y + 4716) % 4 == 3;
    YearQuotient(y + 4716, YearStart(y), s);
  }

  lemma FourStarts(y: int)
    requires y >= -1
    ensures 4 * YearStart(y) == 1461 * (y + 4716) - (y + 4716) % 4
  {
    YearStartIs(y);
    InFourYears(y + 4716);
  }

  lemma InFourYears(n: int)
    ensures 4 * (1461 * n / 4) == 1461 * n - n % 4
  {
  }

  lemma YearQuotient(n: nat, start: int, s: int)
    requires 4 * start == 1461 * n - n % 4 && 123 <= s <= 488 && (s == 488 ==> n % 4 == 3)
    ensures Trunc(20 * (start + s) - 2442, 7305) == n
  {
    Quotient(20 * (start + s) - 2442, 7305, n, 20 * s - 2442 - 5 * (n % 4));
  }

  lemma MonthOf(t: Date)
    requires IsDate(t)
    ensures Trunc(10000 * Ordinal(t), 306001) == (if t.m <= 2 then t.m + 12 else t.m) + 1
  {
    assert MonthStart(3) == 122 && MonthStart(4) == 153 && MonthStart(5) == 183 && MonthStart(6) == 214;
    assert MonthStart(7) == 244 && MonthStart(8) == 275 && MonthStart(9) == 306 && MonthStart(10) == 336;
    assert MonthStart(11) == 367 && MonthStart(12) == 397 && MonthStart(13) == 428 && MonthStart(14) == 459;
  }

  lemma Back(t: Date)
    requires IsDate(t)
    ensures FromUncorrected(YearStart(MarchYear(t)) + Ordinal(t)) == t
  {
    OrdinalRange(t);
    YearOf(MarchYear(t), Ordinal(t));
    MonthOf(t);
  }

  /** computeYMD inverts computeJD on every date except the first of March of the year 300. */
  lemma RoundTrip(t: Date)
    requires IsDate(t)
    ensures ToDate(DayNumber(t)) == t <==> t != Date(300, 3, 1)
  {
    UncorrectedIs(t);
    if t == Date(300, 3, 1) {
      Exception();
    } else {
      Back(t);
    }
  }

  lemma Exception()
    ensures DayNumber(Date(300, 3, 1)) == 1830692 && ToDate(1830692) == Date(300, 2, 29) && !IsDate(Date(300, 2, 29))
    ensures DayNumber(Date(300, 2, 29)) == 1830692
  {
    assert Uncorrected(1830692) == 1832216;
  }

  /** Every day number from year 0 on belongs to a date. */
  lemma {:induction false} DateOf(z: int) returns (t: Date)
    requires z >= 1721060
    ensures IsDate(t) && DayNumber(t) == z
    decreases z
  {
    if z == 1721060 {
      Epoch();
      t := Date(0, 1, 1);
    } else {
      t := DateOf(z - 1);
      NextDay(t);
      t := Tomorrow(t);
    }
  }

  /** Different dates have different day numbers. */
  lemma Injective(t: Date, u: Date)
    requires IsDate(t) && IsDate(u) && DayNumber(t) == DayNumber(u)
    ensures t == u
  {
    RoundTrip(t);
    RoundTrip(u);
    Exception();
  }

  /** computeJD inverts computeYMD on every day number, and the result is a date but for one day. */
  lemma DayRoundTrip(z: int)
    requires z >= 1721060
    ensures DayNumber(ToDate(z)) == z && (IsDate(ToDate(z)) <==> z != 1830692)
  {
    var t := DateOf(z);
    RoundTrip(t);
    Exception();
  }

  const DAY_MS := 86400000

  /** 1970-01-01 and 2000-01-01 in milliseconds since noon of day zero. */
  lemma Milliseconds()
    ensures DayNumber(Date(1970, 1, 1)) * DAY_MS - DAY_MS / 2 == 210866760000000
    ensures DayNumber(Date(2000, 1, 1)) * DAY_MS - DAY_MS / 2 == 211813444800000
  {
  }

  /** The fields of a DateTime that whole days use. */
  class DateTime {
    var iJD: int             // Julian day number times DAY_MS
    var y: int
    var m: int
    var d: int
    var validJD: bool
    var validYMD: bool

    /** computeJD without a time of day; a missing date is 2000-01-01. */
    method ComputeJD()
      modifies this`iJD, this`validJD
      ensures validJD
      ensures old(validJD) ==> iJD == old(iJD)
      ensures !old(validJD) ==>
        iJD == DayNumber(if validYMD then Date(y, m, d) else Date(2000, 1, 1)) * DAY_MS - DAY_MS / 2
    {
      if validJD {
        return;
      }
      var yy, mm, dd := 2000, 1, 1;
      if validYMD {
        yy, mm, dd := y, m, d;
      }
      if mm <= 2 {
        yy, mm := yy - 1, mm + 12;
      }
      var a := Trunc(yy, 100);
      var b := 2 - a + Trunc(a, 4);
      var x1 := Trunc(36525 * (yy + 4716), 100);
      var x2 := 306001 * (mm + 1) / 10000;
      iJD := (2 * (x1 + x2 + dd + b) - 3049) * (DAY_MS / 2);
      validJD := true;
    }

    /** computeYMD */
    method ComputeYMD()
      modifies this`y, this`m, this`d, this`validYMD
      ensures validYMD
      ensures old(validYMD) ==> y == old(y) && m == old(m) && d == old(d)
      ensures !old(validYMD) ==>
        Date(y, m, d) == if validJD then ToDate(Trunc(iJD + DAY_MS / 2, DAY_MS)) else Date(2000, 1, 1)
    {
      if validYMD {
        return;
      }
      if !validJD {
        y, m, d := 2000, 1, 1;
      } else {
        var z := Trunc(iJD + DAY_MS / 2, DAY_MS);
        var a := Trunc(4 * z - 7468865, 146097);
        a := z + 1 + a - Trunc(a, 4);
        var b := a + 1524;
        assert b == Uncorrected(z);
        Split(b);
      }
      validYMD := true;
    }

    method Split(b: int)
      modifies this`y, this`m, this`d
      ensures Date(y, m, d) == FromUncorrected(b)
    {
      var c := Trunc(20 * b - 2442, 7305);
      var x := Trunc(36525 * c, 100);
      var e := Trunc(10000 * (b - x), 306001);
      d := b - x - Trunc(306001 * e, 10000);
      m := if e < 14 then e - 1 else e - 13;
      y := if m > 2 then c - 4716 else c - 4715;
    }
  }
}
