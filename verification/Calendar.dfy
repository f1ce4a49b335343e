/** Day-number arithmetic of the RTC driver and the GNSS clock.
    The two source copies (RTC.h and GNSS.h) are the same text, so one model serves both. */
module Calendar {
  import opened Common

  const U32 := 0x1_0000_0000

  /** C's signed division: truncates toward zero. */
  function TDiv(a: int, b: int): int
    requires b > 0
  {
    if a >= 0 then a / b else -((-a) / b)
  }

  /** Conversion of a C integer to uint32_t. */
  function ToU32(v: int): nat { v % U32 }

  datatype Date = Date(y: int, m: int, d: int)

  // ---- The source's closed forms --------------------------------------------------

  function DaysFromCivil(y0: int, m: nat, d: nat): int
  {
    var y := if m <= 2 then y0 - 1 else y0;
    var era := TDiv(if y >= 0 then y else y - 399, 400);
    var yoe := ToU32(y - era * 400);
    var doy := ToU32((153 * ToU32(m + (if m > 2 then ToU32(-3) else 9)) + 2) / 5 + d - 1);
    var doe := ToU32(yoe * 365 + yoe / 4 - yoe / 100 + doy);
    era * 146097 + doe - 719468
  }

  function CivilFromDays(z0: int): Date
  {
    var z := z0 + 719468;
    var era := TDiv(if z >= 0 then z else z - 146096, 146097);
    var doe := ToU32(z - era * 146097);
    var yoe := ToU32(doe - doe / 1460 + doe / 36524 - doe / 146096) / 365;
    var y := yoe + era * 400;
    var doy := ToU32(doe - (365 * yoe + yoe / 4 - yoe / 100));
    var mp := (5 * doy + 2) / 153;
    var d := ToU32(doy - (153 * mp + 2) / 5 + 1);
    var m := ToU32(mp + (if mp < 10 then 3 else ToU32(-9)));
    Date(if m <= 2 then y + 1 else y, m, d)
  }

  // ---- The reference calendar: one day at a time ------------------------------------

  predicate IsLeap(y: int) { y % 4 == 0 && (y % 100 != 0 || y % 400 == 0) }

  function MonthLength(y: int, m: int): int
    requires 1 <= m <= 12
  {
    if m == 2 then (if IsLeap(y) then 29 else 28)
    else if m == 4 || m == 6 || m == 9 || m == 11 then 30
    else 31
  }

  predicate Valid(t: Date) { 1 <= t.m <= 12 && 1 <= t.d <= MonthLength(t.y, t.m) }

  /** The day after t in the proleptic Gregorian calendar. */
  function Next(t: Date): Date
    requires Valid(t)
    ensures Valid(Next(t))
  {
    if t.d < MonthLength(t.y, t.m) then Date(t.y, t.m, t.d + 1)
    else if t.m < 12 then Date(t.y, t.m + 1, 1)
    else Date(t.y + 1, 1, 1)
  }

  const EPOCH := Date(1970, 1, 1)

  // ---- Helper facts --------------------------------------------------------------------

  /** Year of a March-based year count, and day of that year. */
  function MarchYear(t: Date): int { if t.m <= 2 then t.y - 1 else t.y }
  function MarchMonth(m: int): int { if m > 2 then m - 3 else m + 9 }
  function DayOfYear(m: int, d: int): int { (153 * MarchMonth(m) + 2) / 5 + d - 1 }

  /** The source's two truncating quotients are floors. */
  lemma FloorEra(a: int)
    ensures TDiv(if a >= 0 then a else a - 399, 400) == a / 400
    ensures TDiv(if a >= 0 then a else a - 146096, 146097) == a / 146097
  {}

  /** Days of the 400-year era before March year yoe. */
  function EraDays(yoe: int): int { 365 * yoe + yoe / 4 - yoe / 100 }

  /** A year has its 366th day (29 February, last of the March year) only when leap. */
  predicate DayInMarchYear(yoe: int, doy: int) {
    0 <= yoe < 400 && 0 <= doy <= 365 && (doy == 365 ==> IsLeap(yoe + 1))
  }

  lemma LeapByEra(y: int)
    ensures IsLeap(y) == IsLeap(y % 400)
  {
    var q, r := y / 400, y % 400;
    DivMod(100 * q + r / 4, r % 4, 4);
    DivMod(4 * q + r / 100, r % 100, 100);
    DivMod(0, r, 400);
    assert y == (100 * q + r / 4) * 4 + r % 4 && y == (4 * q + r / 100) * 100 + r % 100;
  }

  lemma MarchDay(t: Date)
    requires Valid(t)
    ensures DayInMarchYear(MarchYear(t) % 400, DayOfYear(t.m, t.d))
  {
    LeapByEra(t.y);
    LeapByEra(MarchYear(t) % 400 + 1);
    assert t.m == 2 ==> (MarchYear(t) % 400 + 1) % 400 == t.y % 400;
  }

  lemma Fits(v: int)
    requires 0 <= v < U32
    ensures ToU32(v) == v
  {}

  lemma MarchMonthU32(m: nat)
    requires 1 <= m <= 12
    ensures ToU32(m + (if m > 2 then ToU32(-3) else 9)) == MarchMonth(m)
  {}

  lemma EraDaysBound(yoe: int, doy: int)
    requires DayInMarchYear(yoe, doy)
    ensures 0 <= yoe < 400 && 0 <= doy <= 365 && 0 <= EraDays(yoe) + doy < 146097
  {}

  lemma DaysFromCivilForm(t: Date)
    requires Valid(t)
    ensures DaysFromCivil(t.y, t.m, t.d)
         == (MarchYear(t) / 400) * 146097 + EraDays(MarchYear(t) % 400) + DayOfYear(t.m, t.d) - 719468
  {
    hide ToU32, TDiv, DayInMarchYear, MarchMonth;
    var y := MarchYear(t);
    FloorEra(y);
    MarchDay(t);
    MarchMonthU32(t.m);
    var yoe, doy := y % 400, DayOfYear(t.m, t.d);
    EraDaysBound(yoe, doy);
    assert y - (y / 400) * 400 == yoe;
    Fits(yoe);
    Fits(doy);
    Fits(EraDays(yoe) + doy);
  }

  /** Every day of the era is day doy of year 100c + 4q + r. */
  lemma EraParts(doe: int) returns (c: int, q: int, r: int, doy: int)
    requires 0 <= doe < 146097
    ensures 0 <= c <= 3 && 0 <= q <= 24 && 0 <= r <= 3 && 0 <= doy <= 365
    ensures doe == 36524 * c + 1461 * q + 365 * r + doy
    ensures doy == 365 ==> r == 3 && (q == 24 ==> c == 3)
    ensures c < 3 ==> 1461 * q + 365 * r + doy < 36524
  {
    c := if doe == 146096 then 3 else doe / 36524;
    var doc := doe - 36524 * c;
    q := doc / 1461;
    var doq := doc - 1461 * q;
    r := if doq == 1460 then 3 else doq / 365;
    doy := doq - 365 * r;
  }

  lemma EraDaysOfParts(c: int, q: int, r: int)
    requires 0 <= c <= 3 && 0 <= q <= 24 && 0 <= r <= 3
    ensures EraDays(100 * c + 4 * q + r) == 36524 * c + 1461 * q + 365 * r
  {
    assert (100 * c + 4 * q + r) / 100 == c;
    assert (100 * c + 4 * q + r) / 4 == 25 * c + q;
  }

  lemma LeapOfParts(c: int, q: int)
    requires 0 <= c <= 3 && 0 <= q <= 24 && (q == 24 ==> c == 3)
    ensures IsLeap(100 * c + 4 * q + 4)
  {
    var y := 100 * c + 4 * q + 4;
    assert y == 4 * (25 * c + q + 1);
    if q < 24 {
      assert y == 100 * c + (4 * q + 4);
      assert y % 100 == 4 * q + 4;
    }
  }

  lemma Div1460(c: int, q: int, k: int)
    requires 0 <= c <= 3 && 0 <= q <= 24 && 0 <= k < 1460 + 1460
    ensures (1460 * (25 * c + q) + k) / 1460 == 25 * c + q + (if k >= 1460 then 1 else 0)
  {}

  function YearOfEra(doe: int): int { (doe - doe / 1460 + doe / 36524 - doe / 146096) / 365 }

  lemma CenturyTerm(doe: int, c: int, rest: int)
    requires 0 <= c <= 3 && 0 <= rest <= 36524 && doe == 36524 * c + rest
    requires rest == 36524 ==> c == 3
    ensures doe / 36524 - doe / 146096 == c
  {}
  
  lemma Div365(y: int, k: int)
    requires 0 <= k < 365
    ensures (365 * y + k) / 365 == y
  {}

  lemma YearOfEraParts(c: int, q: int, r: int, doy: int)
    requires 0 <= c <= 3 && 0 <= q <= 24 && 0 <= r <= 3 && 0 <= doy <= 365
    requires doy == 365 ==> r == 3 && (q == 24 ==> c == 3)
    requires 36524 * c + 1461 * q + 365 * r + doy < 146097
    requires c < 3 ==> 1461 * q + 365 * r + doy < 36524
    ensures YearOfEra(36524 * c + 1461 * q + 365 * r + doy) == 100 * c + 4 * q + r
  {
    var doe := 36524 * c + 1461 * q + 365 * r + doy;
    var k := 24 * c + q + 365 * r + doy;
    var carry := if k >= 1460 then 1 else 0;
    CenturyTerm(doe, c, 1461 * q + 365 * r + doy);
    Div1460(c, q, k);
    assert doe == 1460 * (25 * c + q) + k;
    Div365(100 * c + 4 * q + r, doy - carry);
  }

  lemma YearOfEraSound(doe: int)
    requires 0 <= doe < 146097
    ensures DayInMarchYear(YearOfEra(doe), doe - EraDays(YearOfEra(doe)))
  {
    var c, q, r, doy := EraParts(doe);
    EraDaysOfParts(c, q, r);
    YearOfEraParts(c, q, r, doy);
    if doy == 365 { LeapOfParts(c, q); }
  }

  lemma EraStep(y: int)
    requires 0 <= y < 399
    ensures EraDays(y + 1) - EraDays(y) == (if IsLeap(y + 1) then 366 else 365)
  {
    DivStep(y, 4);
    DivStep(y, 100);
    Hundreds(y + 1);
  }

  lemma Hundreds(y: int)
    requires 0 < y < 400
    ensures y % 100 == 0 ==> y % 4 == 0
    ensures y % 400 != 0
  {
    assert y % 100 == 0 ==> y == 25 * (y / 100) * 4;
  }

  lemma DivStep(y: int, k: int)
    requires k > 0 && y >= 0
    ensures (y + 1) / k == y / k + (if (y + 1) % k == 0 then 1 else 0)
  {
    var q, r := y / k, y % k;
    assert y == q * k + r;
    if r + 1 == k {
      DivMod(q + 1, 0, k);
      assert y + 1 == (q + 1) * k + 0;
    } else {
      DivMod(q, r + 1, k);
    }
  }

  lemma EraDaysGrow(y: int, y': int)
    requires 0 <= y < y' < 400
    ensures EraDays(y) + (if IsLeap(y + 1) then 366 else 365) <= EraDays(y')
    decreases y'
  {
    EraStep(y' - 1);
    if y < y' - 1 { EraDaysGrow(y, y' - 1); }
  }

  /** A day of the era belongs to one March year only. */
  lemma EraUnique(y: int, doy: int, y': int, doy': int)
    requires DayInMarchYear(y, doy) && DayInMarchYear(y', doy')
    requires EraDays(y) + doy == EraDays(y') + doy'
    ensures y == y' && doy == doy'
  {
    if y < y' { EraDaysGrow(y, y'); }
    if y' < y { EraDaysGrow(y', y); }
  }

  // ---- Months -----------------------------------------------------------------------------

  function MonthOf(doy: int): int { var mp := (5 * doy + 2) / 153; if mp < 10 then mp + 3 else mp - 9 }
  function DayOf(doy: int): int { doy - (153 * ((5 * doy + 2) / 153) + 2) / 5 + 1 }

  lemma MonthDay(y: int, doy: int)
    requires 0 <= doy <= 365
    requires doy == 365 ==> IsLeap(y)
    ensures Valid(Date(y, MonthOf(doy), DayOf(doy)))
    ensures DayOfYear(MonthOf(doy), DayOf(doy)) == doy
  {}

  lemma MonthDayUnique(t: Date)
    requires Valid(t)
    ensures MonthOf(DayOfYear(t.m, t.d)) == t.m && DayOf(DayOfYear(t.m, t.d)) == t.d
  {}

  lemma MonthU32(doy: int)
    requires 0 <= doy <= 365
    ensures var mp := (5 * doy + 2) / 153;
            && ToU32(mp + (if mp < 10 then 3 else ToU32(-9))) == MonthOf(doy)
            && ToU32(doy - (153 * mp + 2) / 5 + 1) == DayOf(doy)
  {}

  /** The date on day doy of March year yoe of era e. */
  function DateOf(e: int, yoe: int, doy: int): Date {
    var y := yoe + e * 400;
    Date(if MonthOf(doy) <= 2 then y + 1 else y, MonthOf(doy), DayOf(doy))
  }

  /** The source's closed form with the integer conversions removed. */
  lemma CivilFromDaysForm(z: int)
    ensures var doe := (z + 719468) % 146097;
            var yoe := YearOfEra(doe);
            var doy := doe - EraDays(yoe);
            DayInMarchYear(yoe, doy) && CivilFromDays(z) == DateOf((z + 719468) / 146097, yoe, doy)
  {
    hide ToU32, TDiv, DayInMarchYear, MonthOf, DayOf, IsLeap;
    var z' := z + 719468;
    FloorEra(z');
    var doe := z' % 146097;
    assert z' - z' / 146097 * 146097 == doe;
    YearOfEraSound(doe);
    var doy := doe - EraDays(YearOfEra(doe));
    EraDaysBound(YearOfEra(doe), doy);
    Fits(doe);
    NumeratorFits(doe);
    Fits(doy);
    MonthU32(doy);
  }

  lemma NumeratorFits(doe: int)
    requires 0 <= doe < 146097
    ensures ToU32(doe - doe / 1460 + doe / 36524 - doe / 146096) == doe - doe / 1460 + doe / 36524 - doe / 146096
  {}

  lemma LeapNextYear(yoe: int, e: int)
    requires 0 <= yoe < 400
    ensures IsLeap(yoe + e * 400 + 1) == IsLeap(yoe + 1)
  {
    assert (yoe + e * 400 + 1) % 400 == (yoe + 1) % 400;
    LeapByEra(yoe + e * 400 + 1);
    LeapByEra(yoe + 1);
  }

  lemma DateOfDay(e: int, yoe: int, doy: int)
    requires DayInMarchYear(yoe, doy)
    ensures var t := DateOf(e, yoe, doy);
            && Valid(t) && DayOfYear(t.m, t.d) == doy
            && MarchYear(t) / 400 == e && MarchYear(t) % 400 == yoe
  {
    hide IsLeap, MonthOf, DayOf, Valid, DayOfYear;
    var y := yoe + e * 400;
    LeapNextYear(yoe, e);
    EraSplit(yoe, e);
    LastOfFebruary(doy);
    MonthDay(DateOf(e, yoe, doy).y, doy);
    MonthDayIn(DateOf(e, yoe, doy));
  }

  lemma LastOfFebruary(doy: int)
    ensures doy == 365 ==> MonthOf(doy) == 2
  {}

  lemma MonthDayIn(t: Date)
    ensures Valid(t) ==> 1 <= t.m <= 12 && t.d >= 1
  {}

  // ---- Main results -----------------------------------------------------------------------

  /** Every day number names a real date. */
  lemma CivilFromDaysValid(z: int)
    ensures Valid(CivilFromDays(z))
  {
    hide CivilFromDays, DateOf, EraDays, YearOfEra, DayOfYear, Valid, DayInMarchYear, MarchYear;
    CivilFromDaysForm(z);
    var doe := (z + 719468) % 146097;
    var yoe := YearOfEra(doe);
    DateOfDay((z + 719468) / 146097, yoe, doe - EraDays(yoe));
  }

  /** Day number to date and back, over all day numbers. */
  lemma DaysOfCivil(z: int)
    ensures var t := CivilFromDays(z); t.m >= 0 && DaysFromCivil(t.y, t.m, t.d) == z
  {
    hide CivilFromDays, DaysFromCivil, DateOf, EraDays, YearOfEra, DayOfYear, Valid, DayInMarchYear, MarchYear;
    CivilFromDaysForm(z);
    var e, doe := (z + 719468) / 146097, (z + 719468) % 146097;
    var yoe := YearOfEra(doe);
    DateOfDay(e, yoe, doe - EraDays(yoe));
    MonthDayIn(CivilFromDays(z));
    DaysFromCivilForm(CivilFromDays(z));
  }

  lemma EraSplit(yoe: int, e: int)
    requires 0 <= yoe < 400
    ensures (yoe + e * 400) / 400 == e && (yoe + e * 400) % 400 == yoe
  {}

  lemma DaySplit(e: int, doe: int)
    requires 0 <= doe < 146097
    ensures (e * 146097 + doe) / 146097 == e && (e * 146097 + doe) % 146097 == doe
  {}

  /** Date to day number and back, over all valid dates of the proleptic Gregorian calendar. */
  lemma CivilOfDays(t: Date)
    requires Valid(t)
    ensures CivilFromDays(DaysFromCivil(t.y, t.m, t.d)) == t
  {
    hide CivilFromDays, DaysFromCivil, EraDays, YearOfEra, DayOfYear, Valid, DayInMarchYear, MonthOf, DayOf;
    MonthDayIn(t);
    MarchDay(t);
    DaysFromCivilForm(t);
    var e, yoe, doy := MarchYear(t) / 400, MarchYear(t) % 400, DayOfYear(t.m, t.d);
    var doe := EraDays(yoe) + doy;
    EraDaysBound(yoe, doy);
    DaySplit(e, doe);
    CivilFromDaysForm(DaysFromCivil(t.y, t.m, t.d));
    EraUnique(yoe, doy, YearOfEra(doe), doe - EraDays(YearOfEra(doe)));
    MonthDayUnique(t);
  }

  /** The day of the March year grows by one, or the year ends on the last of February. */
  lemma NextInMarchYear(t: Date)
    requires Valid(t)
    ensures t.m == 2 && t.d == MonthLength(t.y, 2) ==>
      && MarchYear(Next(t)) == MarchYear(t) + 1
      && DayOfYear(Next(t).m, Next(t).d) == 0
      && DayOfYear(t.m, t.d) == (if IsLeap(t.y) then 365 else 364)
    ensures !(t.m == 2 && t.d == MonthLength(t.y, 2)) ==>
      && MarchYear(Next(t)) == MarchYear(t)
      && DayOfYear(Next(t).m, Next(t).d) == DayOfYear(t.m, t.d) + 1
  {}

  /** One calendar day later is one day number more. */
  lemma DaysOfNext(t: Date)
    requires Valid(t)
    ensures DaysFromCivil(Next(t).y, Next(t).m, Next(t).d) == DaysFromCivil(t.y, t.m, t.d) + 1
  {
    DaysFromCivilForm(t);
    DaysFromCivilForm(Next(t));
    NextInMarchYear(t);
    YearStep(MarchYear(t));
  }

  lemma EraEnds()
    ensures EraDays(0) == 0 && EraDays(399) == 145731 && IsLeap(0) && 0 % 400 == 0
  {}

  lemma YearStep(y: int)
    ensures (y + 1) / 400 * 146097 + EraDays((y + 1) % 400)
         == y / 400 * 146097 + EraDays(y % 400) + (if IsLeap(y + 1) then 366 else 365)
  {
    hide IsLeap, EraDays;
    EraEnds();
    LeapByEra(y + 1);
    if y % 400 < 399 {
      EraSplit(y % 400 + 1, y / 400);
      EraStep(y % 400);
    } else {
      EraSplit(0, y / 400 + 1);
    }
  }

  /** The closed form walks the calendar: day z + 1 is the day after day z. */
  lemma CivilSuccessor(z: int)
    ensures Valid(CivilFromDays(z))
    ensures CivilFromDays(z + 1) == Next(CivilFromDays(z))
  {
    CivilFromDaysValid(z);
    DaysOfCivil(z);
    DaysOfNext(CivilFromDays(z));
    CivilOfDays(Next(CivilFromDays(z)));
  }

  lemma EpochForm()
    ensures Valid(EPOCH) && MarchYear(EPOCH) == 1969 && DayOfYear(1, 1) == 306
    ensures 1969 / 400 == 4 && 1969 % 400 == 369 && EraDays(369) == 134774
  {}

  lemma EpochIsDayZero()
    ensures CivilFromDays(0) == EPOCH && DaysFromCivil(1970, 1, 1) == 0
  {
    hide CivilFromDays, DaysFromCivil;
    EpochForm();
    DaysFromCivilForm(EPOCH);
    CivilOfDays(EPOCH);
  }

  /** The naive calendar: n days after t. */
  function After(t: Date, n: nat): (r: Date)
    requires Valid(t)
    ensures Valid(r)
  {
    if n == 0 then t else Next(After(t, n - 1))
  }

  /** The closed form agrees with counting days one at a time from any day,
      in particular from 1970-01-01 and to 1970-01-01. */
  lemma {:induction false} CivilRefinesCounting(z: int, n: nat)
    ensures Valid(CivilFromDays(z))
    ensures CivilFromDays(z + n) == After(CivilFromDays(z), n)
    ensures z == 0 ==> CivilFromDays(n) == After(EPOCH, n)
    ensures z + n == 0 ==> After(CivilFromDays(z), n) == EPOCH
  {
    hide CivilFromDays, Next, MonthLength;
    EpochIsDayZero();
    CivilFromDaysValid(z);
    if n > 0 {
      CivilRefinesCounting(z, n - 1);
      CivilSuccessor(z + n - 1);
    }
  }

  predicate FitsInt32(v: int) { -0x8000_0000 <= v < 0x8000_0000 }

  /** The signed intermediates of the source stay within int32_t for every int32_t day number
      except the topmost 719468, where its first addition overflows. */
  lemma NoSignedOverflow(z: int)
    requires FitsInt32(z)
    ensures FitsInt32(z + 719468) <==> z < 0x8000_0000 - 719468
    ensures FitsInt32(z + 719468) ==>
      var era := (z + 719468) / 146097;
      var t := CivilFromDays(z);
      && FitsInt32(if z + 719468 >= 0 then z + 719468 else z + 719468 - 146096)
      && FitsInt32(era * 146097) && FitsInt32(era * 400) && FitsInt32(t.y)
      && FitsInt32(MarchYear(t)) && FitsInt32(MarchYear(t) - 399)
  {
    CivilFromDaysForm(z);
  }
}
