/** Civil dates and day numbers over all the integers, and the date a month and a day name. */
module Calendar {
  import opened Bytes

  datatype Date = Date(y: int, m: nat, d: nat)

  /** The machine's division, which rounds toward zero. */
  function TruncDiv(a: int, b: int): int
    requires b > 0
  {
    if a >= 0 then a / b else -(-a / b)
  }

  predicate Leap(y: int) {
    (y % 4 == 0 && y % 100 != 0) || y % 400 == 0
  }

  function DaysInMonth(y: int, m: nat): nat {
    if m in {1, 3, 5, 7, 8, 10, 12} then 31
    else if m in {4, 6, 9, 11} then 30
    else if Leap(y) then 29 else 28
  }

  /** A date of the proleptic Gregorian calendar. */
  predicate Real(c: Date) {
    1 <= c.m <= 12 && 1 <= c.d <= DaysInMonth(c.y, c.m)
  }

  /** A date the calculator accepts. */
  predicate Valid(c: Date) {
    1 <= c.m <= 12 && c.d != 0 && 1 <= c.y <= 9999 && c.d <= DaysInMonth(c.y, c.m)
  }

  predicate Before(a: Date, b: Date) {
    a.y < b.y || (a.y == b.y && (a.m < b.m || (a.m == b.m && a.d < b.d)))
  }

  /** The calendar's own definition of the day after. */
  function NextDay(c: Date): Date {
    if c.d < DaysInMonth(c.y, c.m) then Date(c.y, c.m, c.d + 1)
    else if c.m < 12 then Date(c.y, c.m + 1, 1)
    else Date(c.y + 1, 1, 1)
  }

  // ---- the conversions -----------------------------------------------------------------------

  /** Days since 1970-01-01. */
  function DaysFromCivil(c: Date): int {
    var y := if c.m <= 2 then c.y - 1 else c.y;
    var era := TruncDiv(if y >= 0 then y else y - 399, 400);
    var yoe := y - era * 400;
    var mp := (c.m + 9) % 12;
    var doy := (153 * mp + 2) / 5 + c.d - 1;
    var doe := yoe * 365 + yoe / 4 - yoe / 100 + doy;
    era * 146097 + doe - 719468
  }

  /** The year of the era that holds day `doe` of it. */
  function YearOfEra(doe: int): int {
    (doe - doe / 1460 + doe / 36524 - doe / 146096) / 365
  }

  function CivilFromDays(z0: int): (c: Date)
    ensures Real(c)
  {
    var z := z0 + 719468;
    var era := TruncDiv(if z >= 0 then z else z - 146096, 146097);
    var doe := z - era * 146097;
    var yoe := YearOfEra(doe);
    var doy := doe - (365 * yoe + yoe / 4 - yoe / 100);
    EraOfDay(z);
    YearHoldsDay(doe);
    LeapInEra(yoe, era);
    FromMarch(yoe + era * 400, doy)
  }

  /** The date of day `doy` of the year that starts in March of `y`. */
  function FromMarch(y: int, doy: nat): (c: Date)
    requires doy < YearLength(y)
    ensures Real(c)
  {
    var mp := (5 * doy + 2) / 153;
    var d := doy - (153 * mp + 2) / 5 + 1;
    var m := if mp < 10 then mp + 3 else mp - 9;
    Date(if m <= 2 then y + 1 else y, m, d)
  }

  // ---- years counted from March ----------------------------------------------------------

  /** Days before the March-based year `y`, counted from the one numbered 0. */
  function YearStart(y: int): int {
    365 * y + y / 4 - y / 100 + y / 400
  }

  function YearLength(y: int): int {
    if Leap(y + 1) then 366 else 365
  }

  lemma YearSteps(y: int)
    ensures YearStart(y + 1) == YearStart(y) + YearLength(y)
  {
    NextDiv4(y);
    NextDiv100(y);
    NextDiv400(y);
    Multiples(y + 1);
  }

  lemma NextDiv4(y: int)
    ensures (y + 1) / 4 == y / 4 + if (y + 1) % 4 == 0 then 1 else 0
  {
  }

  lemma NextDiv100(y: int)
    ensures (y + 1) / 100 == y / 100 + if (y + 1) % 100 == 0 then 1 else 0
  {
  }

  lemma NextDiv400(y: int)
    ensures (y + 1) / 400 == y / 400 + if (y + 1) % 400 == 0 then 1 else 0
  {
  }

  lemma Multiples(y: int)
    ensures y % 400 == 0 ==> y % 100 == 0
    ensures y % 100 == 0 ==> y % 4 == 0
  {
    ModShift(y - 400 * (y / 400), 4 * (y / 400), 100);
    ModShift(y - 100 * (y / 100), 25 * (y / 100), 4);
  }

  /** The truncating quotients of the code are floors. */
  lemma EraOfYear(y: int)
    ensures TruncDiv(if y >= 0 then y else y - 399, 400) == y / 400
  {
  }

  lemma EraOfDay(z: int)
    ensures TruncDiv(if z >= 0 then z else z - 146096, 146097) == z / 146097
  {
  }

  /** Quotients are unique. */
  lemma QuotientIs(x: int, n: int, q: int)
    requires n > 0 && q * n <= x < q * n + n
    ensures x / n == q && x % n == x - q * n
  {
    var d := x / n - q;
    assert x == (x / n) * n + x % n;
    assert d * n == x - q * n - x % n;
    MulAway(d, n);
  }

  lemma MulAway(d: int, n: int)
    requires n > 0
    ensures d > 0 ==> d * n >= n
    ensures d < 0 ==> d * n <= -n
  {
  }

  lemma ModShift(x: int, k: int, n: int)
    requires n > 0
    ensures (x + k * n) % n == x % n
  {
    QuotientIs(x + k * n, n, x / n + k);
  }

  /** The leap rule repeats with every era. */
  lemma LeapPeriod(y: int, era: int)
    ensures Leap(y + era * 400) == Leap(y)
  {
    ModShift(y, era, 400);
    ModShift(y, 4 * era, 100);
    ModShift(y, 100 * era, 4);
  }

  lemma LeapInEra(yoe: int, era: int)
    ensures YearLength(yoe + era * 400) == YearLength(yoe)
  {
    LeapPeriod(yoe + 1, era);
  }

  /** The closed form finds the year that holds the day. */
  lemma YearHoldsDay(doe: int)
    requires 0 <= doe < 146097
    ensures 0 <= YearOfEra(doe) < 400
    ensures YearOfEra(doe) / 400 == 0
    ensures YearStart(YearOfEra(doe)) <= doe < YearStart(YearOfEra(doe)) + YearLength(YearOfEra(doe))
  {
    hide YearOfEra, YearStart, YearLength;
    var c := if doe < 146096 then doe / 36524 else 3;
    var r := doe - 36524 * c;
    var q := r / 1461;
    YearInCycles(c, q, r - 1461 * q);
    CyclesStart(c, q, r - 1461 * q);
  }

  ghost predicate InCycles(c: int, q: int, s: int) {
    0 <= c < 4 && 0 <= q < 25 && 0 <= s <= 1460 && (s == 1460 && q == 24 ==> c == 3)
  }

  function YearInFour(s: int): int {
    if s / 365 < 4 then s / 365 else 3
  }

  lemma YearInCycles(c: int, q: int, s: int)
    requires InCycles(c, q, s)
    ensures YearOfEra(36524 * c + 1461 * q + s) == 100 * c + 4 * q + YearInFour(s)
  {
    var doe := 36524 * c + 1461 * q + s;
    var e := (24 * c + q + s) / 1460;
    assert 0 <= 24 * c + q + s < 2 * 1460;
    assert doe / 1460 == 25 * c + q + e;
    assert doe / 36524 - doe / 146096 == c by {
      assert doe < 146097;
    }
    assert doe - doe / 1460 + doe / 36524 - doe / 146096 == 365 * (100 * c + 4 * q) + (s - e);
    assert (s - e) / 365 == YearInFour(s);
  }

  lemma CyclesStart(c: int, q: int, s: int)
    requires InCycles(c, q, s)
    ensures var y := 100 * c + 4 * q + YearInFour(s);
            0 <= y < 400 && YearStart(y) <= 36524 * c + 1461 * q + s < YearStart(y) + YearLength(y)
  {
    var t := YearInFour(s);
    var y := 100 * c + 4 * q + t;
    assert y / 4 == 25 * c + q && y / 100 == c && y / 400 == 0;
    assert YearStart(y) == 36524 * c + 1461 * q + 365 * t;
    if s == 1460 {
      assert y + 1 == 4 * (25 * c + q + 1);
      assert Leap(y + 1);
    }
  }

  /** The year that starts in March and holds the date, and the day's place in it. */
  function MarchYear(c: Date): int {
    if c.m <= 2 then c.y - 1 else c.y
  }

  function DayOfMarchYear(c: Date): int {
    (153 * ((c.m + 9) % 12) + 2) / 5 + c.d - 1
  }

  lemma DaysInMarchYears(c: Date)
    ensures DaysFromCivil(c) == YearStart(MarchYear(c)) + DayOfMarchYear(c) - 719468
  {
    var y := MarchYear(c);
    EraOfYear(y);
    EraStart(y / 400, y % 400);
  }

  lemma EraStart(era: int, yoe: int)
    requires 0 <= yoe < 400
    ensures YearStart(era * 400 + yoe) == era * 146097 + yoe * 365 + yoe / 4 - yoe / 100
  {
    assert (4 * (100 * era) + yoe) / 4 == 100 * era + yoe / 4;
    assert (100 * (4 * era) + yoe) / 100 == 4 * era + yoe / 100;
    assert (400 * era + yoe) / 400 == era;
  }

  lemma CivilInMarchYears(z: int)
    ensures var c := CivilFromDays(z);
            YearStart(MarchYear(c)) + DayOfMarchYear(c) == z + 719468
  {
    hide CivilFromDays, FromMarch, YearOfEra, YearLength, DayOfMarchYear, MarchYear, TruncDiv, Leap;
    var era, doe := (z + 719468) / 146097, (z + 719468) % 146097;
    var yoe := YearOfEra(doe);
    YearHoldsDay(doe);
    LeapInEra(yoe, era);
    EraStart(era, yoe);
    CivilIsFromMarch(z, era, doe);
    FromMarchBack(yoe + era * 400, doe - YearStart(yoe));
  }

  lemma CivilIsFromMarch(z: int, era: int, doe: int)
    requires era == (z + 719468) / 146097 && doe == (z + 719468) % 146097
    ensures 0 <= doe - YearStart(YearOfEra(doe)) < YearLength(YearOfEra(doe) + era * 400)
    ensures CivilFromDays(z) == FromMarch(YearOfEra(doe) + era * 400, doe - YearStart(YearOfEra(doe)))
  {
    hide FromMarch, YearOfEra, YearLength, TruncDiv, Leap;
    EraOfDay(z + 719468);
    YearHoldsDay(doe);
    LeapInEra(YearOfEra(doe), era);
  }

  lemma FromMarchBack(y: int, doy: nat)
    requires doy < YearLength(y)
    ensures MarchYear(FromMarch(y, doy)) == y && DayOfMarchYear(FromMarch(y, doy)) == doy
  {
  }

  lemma DayInMarchYear(c: Date)
    requires Real(c)
    ensures 0 <= DayOfMarchYear(c) < YearLength(MarchYear(c))
  {
  }

  lemma {:induction false} YearsApart(y1: int, y2: int)
    requires y1 < y2
    ensures YearStart(y1) + YearLength(y1) <= YearStart(y2)
    decreases y2 - y1
  {
    YearSteps(y1);
    if y1 + 1 < y2 {
      YearsApart(y1 + 1, y2);
    }
  }

  // ---- the calendar laws ----------------------------------------------------------------

  /** Every day number is the number of the date it converts to. */
  lemma DaysOfCivil(z: int)
    ensures DaysFromCivil(CivilFromDays(z)) == z
  {
    CivilInMarchYears(z);
    DaysInMarchYears(CivilFromDays(z));
  }

  /** Day numbers increase strictly with date order. */
  lemma DaysIncrease(a: Date, b: Date)
    requires Real(a) && Real(b) && Before(a, b)
    ensures DaysFromCivil(a) < DaysFromCivil(b)
  {
    hide YearStart, YearLength, DaysFromCivil, DayOfMarchYear;
    DaysInMarchYears(a);
    DaysInMarchYears(b);
    DayInMarchYear(a);
    DayInMarchYear(b);
    if MarchYear(a) == MarchYear(b) {
      LaterInYear(a, b);
    } else {
      YearsApart(MarchYear(a), MarchYear(b));
    }
  }

  lemma LaterInYear(a: Date, b: Date)
    requires Real(a) && Real(b) && Before(a, b) && MarchYear(a) == MarchYear(b)
    ensures DayOfMarchYear(a) < DayOfMarchYear(b)
  {
    hide Leap;
    var i, j := (a.m + 9) % 12, (b.m + 9) % 12;
    assert i < j || (i == j && a.d < b.d);
    if i < j {
      MonthEnds(a);
      assert (153 * (i + 1) + 2) / 5 <= (153 * j + 2) / 5;
    }
  }

  /** The day falls short of the next month's first, counted from March. */
  lemma MonthEnds(c: Date)
    requires Real(c) && c.m != 2
    ensures (153 * ((c.m + 9) % 12) + 2) / 5 + c.d <= (153 * ((c.m + 9) % 12 + 1) + 2) / 5
  {
  }

  /** Every real date comes back from its day number. */
  lemma CivilOfDays(c: Date)
    requires Real(c)
    ensures CivilFromDays(DaysFromCivil(c)) == c
  {
    hide CivilFromDays, DaysFromCivil;
    var back := CivilFromDays(DaysFromCivil(c));
    DaysOfCivil(DaysFromCivil(c));
    if Before(c, back) {
      DaysIncrease(c, back);
    } else if Before(back, c) {
      DaysIncrease(back, c);
    }
  }

  /** The number of the next day is the next number, which with the epoch fixes the numbering. */
  lemma NextDayIsNext(c: Date)
    requires Real(c)
    ensures Real(NextDay(c)) && DaysFromCivil(NextDay(c)) == DaysFromCivil(c) + 1
    ensures DaysFromCivil(Date(1970, 1, 1)) == 0
  {
    hide YearStart, DaysFromCivil;
    DaysInMarchYears(c);
    DaysInMarchYears(NextDay(c));
    YearSteps(MarchYear(c));
    NextInYear(c);
    Epoch();
  }

  lemma NextInYear(c: Date)
    requires Real(c)
    ensures var n := NextDay(c);
            && Real(n)
            && (if MarchYear(n) == MarchYear(c) then DayOfMarchYear(n) == DayOfMarchYear(c) + 1
                else
                  && MarchYear(n) == MarchYear(c) + 1 && DayOfMarchYear(n) == 0
                  && DayOfMarchYear(c) + 1 == YearLength(MarchYear(c)))
  {
  }

  lemma Epoch()
    ensures DaysFromCivil(Date(1970, 1, 1)) == 0
  {
  }

  // ---- the date a month and a day name ---------------------------------------------

  /** The month-and-day form: this year's date, moved a year in the direction asked when it lies the other way. Only
      this year's date is checked. */
  function Resolve(m: nat, d: nat, today: Date, sign: int): Option<Date> {
    var thisYear := Date(today.y, m, d);
    if !Valid(thisYear) then None
    else
      var passed := m < today.m || (m == today.m && d < today.d);
      var ahead := m > today.m || (m == today.m && d > today.d);
      if sign == 1 && passed then Some(Date(today.y + 1, m, d))
      else if sign == -1 && !passed && ahead then Some(Date(today.y - 1, m, d))
      else Some(thisYear)
  }

  /** This year's date lies against the direction asked. */
  predicate Moves(m: nat, d: nat, today: Date, sign: int) {
    if sign == 1 then Before(Date(today.y, m, d), today) else Before(today, Date(today.y, m, d))
  }

  /** The answer is a date the calculator accepts exactly when it did not move a leap day or leave the years 1 to
      9999: a moved answer is never checked again. */
  lemma ResolveAccepts(m: nat, d: nat, today: Date, sign: int)
    requires Real(today) && (sign == 1 || sign == -1)
    ensures Resolve(m, d, today, sign).Some? <==> Valid(Date(today.y, m, d))
    ensures var r := Resolve(m, d, today, sign);
            r.Some? ==> (Valid(r.value) <==>
              !(Moves(m, d, today, sign) && ((m == 2 && d == 29) || !(1 <= today.y + sign <= 9999))))
  {
    hide Leap;
    LeapYearsApart(today.y);
  }

  lemma LeapYearsApart(y: int)
    ensures Leap(y) ==> !Leap(y + 1) && !Leap(y - 1)
  {
    LeapIsFourth(y);
    LeapIsFourth(y + 1);
    LeapIsFourth(y - 1);
  }

  lemma LeapIsFourth(y: int)
    ensures Leap(y) ==> y % 4 == 0
  {
    Multiples(y);
  }

  /** On 1 March 2024 the next 29 February is answered with a day that does not exist. */
  lemma LeapDayMissing()
    ensures Resolve(2, 29, Date(2024, 3, 1), 1) == Some(Date(2025, 2, 29)) && !Real(Date(2025, 2, 29))
  {
  }

  /** Day numbers tell real dates apart exactly as the date order does. */
  lemma DaysOrder(a: Date, b: Date)
    requires Real(a) && Real(b)
    ensures Before(a, b) <==> DaysFromCivil(a) < DaysFromCivil(b)
  {
    hide DaysFromCivil;
    if Before(a, b) {
      DaysIncrease(a, b);
    } else if Before(b, a) {
      DaysIncrease(b, a);
    }
  }

  lemma OneDayMore(y: int, m: nat, d: nat)
    ensures DaysFromCivil(Date(y, m, d + 1)) == DaysFromCivil(Date(y, m, d)) + 1
  {
  }

  /** The answer never lies against the direction asked, accepted or not. */
  lemma ResolveDirection(m: nat, d: nat, today: Date, sign: int)
    requires Real(today) && (sign == 1 || sign == -1) && Resolve(m, d, today, sign).Some?
    ensures var r := DaysFromCivil(Resolve(m, d, today, sign).value);
            if sign == 1 then r >= DaysFromCivil(today) else r <= DaysFromCivil(today)
  {
    hide DaysFromCivil, Leap;
    var r := Resolve(m, d, today, sign).value;
    if Real(r) {
      DaysOrder(r, today);
      DaysOrder(today, r);
    } else {
      assert m == 2 && d == 29;
      OneDayMore(r.y, 2, 28);
      DaysOrder(Date(r.y, 2, 28), today);
      DaysOrder(today, Date(r.y, 2, 28));
    }
  }

  /** An accepted answer is the nearest date of that month and day in the direction asked: every other in that
      direction lies at least as far off. */
  lemma ResolveNearest(m: nat, d: nat, today: Date, sign: int, y: int)
    requires Real(today) && (sign == 1 || sign == -1) && Resolve(m, d, today, sign).Some?
    requires Valid(Resolve(m, d, today, sign).value) && Real(Date(y, m, d))
    ensures var r, other := DaysFromCivil(Resolve(m, d, today, sign).value), DaysFromCivil(Date(y, m, d));
            var now := DaysFromCivil(today);
            if sign == 1 then other >= now ==> other >= r else other <= now ==> other <= r
  {
    hide DaysFromCivil, Leap;
    var r := Resolve(m, d, today, sign).value;
    DaysOrder(Date(y, m, d), r);
    DaysOrder(r, Date(y, m, d));
    DaysOrder(Date(y, m, d), today);
    DaysOrder(today, Date(y, m, d));
  }

  // ---- the promise: the next such date, this year or next ---------------------------------

  /** `c` lies in the direction asked, today included. */
  predicate Toward(c: Date, today: Date, sign: int) {
    if sign == 1 then !Before(c, today) else !Before(today, c)
  }

  /** A date that answers: valid, of that month and day, this year or the one after in the direction asked. */
  predicate Answers(c: Date, m: nat, d: nat, today: Date, sign: int) {
    Valid(c) && c.m == m && c.d == d && (c.y == today.y || c.y == today.y + sign) && Toward(c, today, sign)
  }

  /** What is promised: the nearest date that answers, if one does. */
  predicate Promised(r: Option<Date>, m: nat, d: nat, today: Date, sign: int) {
    match r
    case None => !Answers(Date(today.y, m, d), m, d, today, sign) && !Answers(Date(today.y + sign, m, d), m, d, today, sign)
    case Some(c) =>
      && Answers(c, m, d, today, sign)
      && (c.y != today.y ==> !Answers(Date(today.y, m, d), m, d, today, sign))
  }

  /** A promised date is nearest among all the dates that answer, and none is promised only if none answers. */
  lemma PromisedIsNearest(r: Option<Date>, m: nat, d: nat, today: Date, sign: int, c: Date)
    requires Real(today) && (sign == 1 || sign == -1) && Promised(r, m, d, today, sign) && Answers(c, m, d, today, sign)
    ensures r.Some?
    ensures if sign == 1 then DaysFromCivil(today) <= DaysFromCivil(r.value) <= DaysFromCivil(c)
            else DaysFromCivil(c) <= DaysFromCivil(r.value) <= DaysFromCivil(today)
  {
    hide DaysFromCivil, Leap;
    assert c == Date(c.y, m, d) && r.value == Date(r.value.y, m, d);
    DaysOrder(r.value, today);
    DaysOrder(today, r.value);
    DaysOrder(c, r.value);
    DaysOrder(r.value, c);
  }

  predicate InRange(y: int) {
    1 <= y <= 9999
  }

  /** What spoils the promise: a leap day moved off this year, or asked for in a common year beside a leap one; and
      any day moved out of the years 1 to 9999, or asked for just outside them. */
  predicate Spoiled(m: nat, d: nat, today: Date, sign: int) {
    if m == 2 && d == 29 then
      || (Leap(today.y) && InRange(today.y) && Moves(m, d, today, sign))
      || (Leap(today.y + sign) && InRange(today.y + sign))
    else
      && 1 <= m <= 12 && 1 <= d <= DaysInMonth(1, m)
      && if InRange(today.y) then Moves(m, d, today, sign) && !InRange(today.y + sign) else InRange(today.y + sign)
  }

  /** The calculator answers as promised exactly when none of that is so. */
  lemma ResolveKeepsPromise(m: nat, d: nat, today: Date, sign: int)
    requires Real(today) && (sign == 1 || sign == -1)
    ensures Promised(Resolve(m, d, today, sign), m, d, today, sign) <==> !Spoiled(m, d, today, sign)
  {
    hide Leap;
    LeapYearsApart(today.y);
    LeapYearsApart(today.y + sign);
    YearOneIsCommon();
    SameDays(m, 1, today.y);
    SameDays(m, 1, today.y + sign);
  }

  lemma YearOneIsCommon()
    ensures !Leap(1)
  {
  }

  /** Only February differs from year to year, and by its 29th alone. */
  lemma SameDays(m: nat, y: int, y': int)
    ensures 1 <= m <= 12 && m != 2 ==> DaysInMonth(y, m) == DaysInMonth(y', m)
    ensures DaysInMonth(y, 2) == if Leap(y) then 29 else 28
  {
  }

  /** In a common year the next year's leap day is refused, though it is there, valid and next. */
  lemma LeapDayRefused()
    ensures Resolve(2, 29, Date(2023, 1, 10), 1) == None && Answers(Date(2024, 2, 29), 2, 29, Date(2023, 1, 10), 1)
    ensures !Promised(Resolve(2, 29, Date(2023, 1, 10), 1), 2, 29, Date(2023, 1, 10), 1)
  {
    var today := Date(2023, 1, 10);
    assert Answers(Date(today.y + 1, 2, 29), 2, 29, today, 1);
  }
}
