/** The DS3231 clock driver: unix time to seven BCD registers and back. */
module Rtc {
  import opened Common
  import opened Calendar

  const Y2K := 946684800  // 2000-01-01 00:00:00 UTC
  const DAY := 86400

  function Bcd2Bin(v: byte): byte { (v - 6 * (v / 16)) % 256 }
  function Bin2Bcd(v: byte): byte { (v + 6 * (v / 10)) % 256 }

  /** uint8_t conversion. */
  function U8(v: int): byte { v % 256 }

  /** v | bit, for bit one of 0 and 0x80. */
  function OrTop(v: byte, bit: byte): byte
    requires bit == 0 || bit == 128
  {
    if v < 128 then v + bit else v
  }

  // ---- Specification: what the registers hold, and what they mean ------------------

  function Weekday(days: int): byte { (TDiv7(days) + 7 + 3) % 7 + 1 }

  /** days % 7 in C. */
  function TDiv7(days: int): int { days - 7 * TDiv(days, 7) }

  function Encode(epoch: nat): (r: seq<byte>)
    requires epoch < U32
    ensures |r| == 7
  {
    CivilFromDaysValid(epoch / DAY);
    var t := CivilFromDays(epoch / DAY);
    var rem := epoch % DAY;
    var yy := t.y - 2000;
    var century := if yy >= 100 then 128 else 0;
    [Bin2Bcd(rem % 3600 % 60), Bin2Bcd(rem % 3600 / 60), Bin2Bcd(rem / 3600), Weekday(epoch / DAY),
     Bin2Bcd(t.d), OrTop(Bin2Bcd(t.m), century), Bin2Bcd(U8(if yy >= 100 then yy - 100 else yy))]
  }

  function DecodeHours(h: byte): byte {
    if h / 64 % 2 == 1 then U8(Bcd2Bin(h % 32) % 12 + (if h / 32 % 2 == 1 then 12 else 0))
    else Bcd2Bin(h % 64)
  }

  function Decode(r: seq<byte>): nat
    requires |r| == 7
  {
    var year := 2000 + Bcd2Bin(r[6]) + (if r[5] >= 128 then 100 else 0);
    var days := DaysFromCivil(year, Bcd2Bin(r[5] % 32), Bcd2Bin(r[4] % 64));
    ToU32(ToU32(days) * DAY + DecodeHours(r[2]) * 3600 + Bcd2Bin(r[1] % 128) * 60 + Bcd2Bin(r[0] % 128))
  }

  // ---- The driver -----------------------------------------------------------------------

  class Ds3231 {
    var present: bool
    const regs: array<byte>

    ghost predicate Ok() reads this { regs.Length == 7 }

    constructor (probe: bool)
      ensures Ok() && present == probe && fresh(regs)
    {
      present := probe;
      regs := new byte[7];
    }

    /** ack says whether the chip acknowledges the transfer. */
    method SetUnixTime(epoch: nat, ack: bool) returns (ok: bool)
      requires Ok() && epoch < U32
      modifies regs
      ensures ok == (present && ack)
      ensures regs[..] == (if ok then Encode(epoch) else old(regs[..]))
    {
      hide CivilFromDays, Bin2Bcd, OrTop, Weekday;
      if !present { return false; }
      var days := epoch / DAY;
      var rem := epoch % DAY;
      var hours := rem / 3600;
      rem := rem % 3600;
      var minutes := rem / 60;
      var seconds := rem % 60;
      CivilFromDaysValid(days);
      var t := CivilFromDays(days);
      var century := 0;
      var yy := t.y - 2000;
      if yy >= 100 { century := 128; yy := yy - 100; }
      var dow := Weekday(days);
      if !ack { return false; }
      regs[0] := Bin2Bcd(seconds);
      regs[1] := Bin2Bcd(minutes);
      regs[2] := Bin2Bcd(hours);
      regs[3] := dow;
      regs[4] := Bin2Bcd(t.d);
      regs[5] := OrTop(Bin2Bcd(t.m), century);
      regs[6] := Bin2Bcd(U8(yy));
      ok := true;
    }

    /** ack and count: the chip's answers to the address write and to the seven-byte read. */
    method GetUnixTime(ack: bool, count: nat) returns (epoch: nat)
      requires Ok()
      ensures epoch == (if present && ack && count == 7 then Decode(regs[..]) else 0)
    {
      hide Bcd2Bin, DaysFromCivil, ToU32;
      if !present || !ack || count != 7 { return 0; }
      var seconds: int := Bcd2Bin(regs[0] % 128);
      var minutes: int := Bcd2Bin(regs[1] % 128);
      var hours: int;
      if regs[2] / 64 % 2 == 1 {
        hours := Bcd2Bin(regs[2] % 32) % 12;
        if regs[2] / 32 % 2 == 1 { hours := U8(hours + 12); }
      } else {
        hours := Bcd2Bin(regs[2] % 64);
      }
      var date := Bcd2Bin(regs[4] % 64);
      var month := Bcd2Bin(regs[5] % 32);
      var year := 2000 + Bcd2Bin(regs[6]) + (if regs[5] >= 128 then 100 else 0);
      var days := DaysFromCivil(year, month, date);
      epoch := ToU32(ToU32(days) * DAY + hours * 3600 + minutes * 60 + seconds);
    }
  }

  // ---- Codes of single registers ----------------------------------------------------------

  lemma Digits(q: int, d: int)
    requires 0 <= q < 10 && 0 <= d < 10
    ensures Bin2Bcd(10 * q + d) == 16 * q + d && Bcd2Bin(16 * q + d) == 10 * q + d
    ensures (10 * q + d) / 10 == q && (10 * q + d) % 10 == d
  {
    DivMod(q, d, 10);
    DivMod(q, d, 16);
  }

  /** Two decimal digits in two nibbles, and back. */
  lemma BcdRoundTrip(v: byte)
    requires v < 100
    ensures Bin2Bcd(v) == 16 * (v / 10) + v % 10
    ensures Bcd2Bin(Bin2Bcd(v)) == v
  {
    Digits(v / 10, v % 10);
  }

  /** The bit fields a reader masks out leave a small code unchanged. */
  lemma BcdFields(v: byte)
    requires v < 80
    ensures Bin2Bcd(v) < 128
    ensures v < 40 ==> Bin2Bcd(v) < 64
    ensures v < 20 ==> Bin2Bcd(v) < 32
  {
    BcdRoundTrip(v);
  }

  /** The chip's 12-hour encoding of an hour reads back as the 24-hour one:
      12 AM is hour 0 and 12 PM is hour 12. */
  lemma TwelveHourMode(h: byte)
    requires h < 24
    ensures var h12 := if h % 12 == 0 then 12 else h % 12;
            DecodeHours(64 + (if h >= 12 then 32 else 0) + Bin2Bcd(h12)) == h == DecodeHours(Bin2Bcd(h))
  {
    hide Bcd2Bin, Bin2Bcd;
    DivMod(if h >= 12 then 1 else 0, if h >= 12 then h - 12 else h, 12);
    var h12 := if h % 12 == 0 then 12 else h % 12;
    BcdRoundTrip(h12);
    BcdFields(h12);
    hide DecodeHours;
    DecodeTwelve(Bin2Bcd(h12), if h >= 12 then 32 else 0, h12);
    HourBack(h);
  }

  lemma DecodeTwelve(c: byte, pm: byte, h12: byte)
    requires c < 32 && (pm == 0 || pm == 32) && Bcd2Bin(c) == h12 && 1 <= h12 <= 12
    ensures DecodeHours(64 + pm + c) == (if h12 == 12 then 0 else h12) + (if pm == 32 then 12 else 0)
  {
    hide Bcd2Bin;
    TwelveBits(c, pm);
  }

  lemma DecodePlain(c: byte)
    requires c < 64
    ensures DecodeHours(c) == Bcd2Bin(c)
  {
    hide Bcd2Bin;
  }

  lemma TwelveBits(c: byte, pm: byte)
    requires c < 32 && (pm == 0 || pm == 32)
    ensures (64 + pm + c) / 64 % 2 == 1 && (64 + pm + c) / 32 % 2 == pm / 32 && (64 + pm + c) % 32 == c
  {}

  // ---- Years ----------------------------------------------------------------------------------

  lemma YearOrder(t: Date, u: Date)
    requires Valid(t) && Valid(u) && t.y < u.y
    ensures DaysFromCivil(t.y, t.m, t.d) < DaysFromCivil(u.y, u.m, u.d)
  {
    hide DaysFromCivil, EraDays, DayInMarchYear;
    DaysFromCivilForm(t);
    DaysFromCivilForm(u);
    MarchDay(t);
    MarchDay(u);
    if MarchYear(t) < MarchYear(u) {
      MarchOrder(MarchYear(t), DayOfYear(t.m, t.d), MarchYear(u), DayOfYear(u.m, u.d));
    }
  }

  lemma MarchOrder(y: int, doy: int, y': int, doy': int)
    requires y < y' && DayInMarchYear(y % 400, doy) && DayInMarchYear(y' % 400, doy')
    ensures y / 400 * 146097 + EraDays(y % 400) + doy < y' / 400 * 146097 + EraDays(y' % 400) + doy'
  {
    hide EraDays;
    EraDaysBound(y % 400, doy);
    EraDaysBound(y' % 400, doy');
    if y / 400 == y' / 400 { EraDaysGrow(y % 400, y' % 400); }
  }

  lemma YearsOf(days: nat)
    requires days <= 49710
    ensures 1970 <= CivilFromDays(days).y <= 2106
    ensures days >= 10957 <==> CivilFromDays(days).y >= 2000
  {
    var t := CivilFromDays(days);
    CivilFromDaysValid(days);
    DaysOfCivil(days);
    if t.y < 1970 { YearOrder(t, EPOCH); EpochIsDayZero(); }
    if t.y > 2106 { YearOrder(Date(2106, 12, 31), t); DaysAtYearEnd(); }
    if t.y < 2000 { YearOrder(t, Date(2000, 1, 1)); DaysAtYearEnd(); }
    if t.y >= 2000 { YearOrder(Date(1999, 12, 31), t); DaysAtYearEnd(); }
  }

  lemma DaysAtYearEnd()
    ensures DaysFromCivil(2106, 12, 31) == 50037
    ensures DaysFromCivil(1999, 12, 31) == 10956
    ensures DaysFromCivil(2000, 1, 1) == 10957
  {
    hide DaysFromCivil;
    DaysFromCivilForm(Date(2106, 12, 31));
    assert MarchYear(Date(2106, 12, 31)) == 2106 && EraDays(106) == 38715 && DayOfYear(12, 31) == 305;
    DaysFromCivilForm(Date(1999, 12, 31));
    assert MarchYear(Date(1999, 12, 31)) == 1999 && EraDays(399) == 145731;
    DaysFromCivilForm(Date(2000, 1, 1));
    assert MarchYear(Date(2000, 1, 1)) == 1999 && DayOfYear(1, 1) == 306;
  }

  // ---- Main results -----------------------------------------------------------------------------

  /** The time of day survives the registers, whatever the date. */
  lemma TimeOfDay(rem: nat)
    requires rem < DAY
    ensures DecodeHours(Bin2Bcd(rem / 3600)) * 3600 + Bcd2Bin(Bin2Bcd(rem % 3600 / 60) % 128) * 60
          + Bcd2Bin(Bin2Bcd(rem % 3600 % 60) % 128) == rem
  {
    hide Bcd2Bin, Bin2Bcd, DecodeHours;
    var h, mi, sec := rem / 3600, rem % 3600 / 60, rem % 3600 % 60;
    HourBack(h);
    SixtyBack(mi);
    SixtyBack(sec);
  }

  lemma HourBack(h: byte)
    requires h < 24
    ensures DecodeHours(Bin2Bcd(h)) == h
  {
    hide Bcd2Bin, Bin2Bcd, DecodeHours;
    BcdRoundTrip(h);
    BcdFields(h);
    DecodePlain(Bin2Bcd(h));
  }

  lemma SixtyBack(v: byte)
    requires v < 60
    ensures Bcd2Bin(Bin2Bcd(v) % 128) == v
  {
    hide Bcd2Bin, Bin2Bcd;
    BcdRoundTrip(v);
    BcdFields(v);
  }

  /** The month register carries the month and, apart from it, the century bit. */
  lemma MonthRegister(m: byte, century: byte)
    requires 1 <= m <= 12 && (century == 0 || century == 128)
    ensures Bcd2Bin(OrTop(Bin2Bcd(m), century) % 32) == m
    ensures OrTop(Bin2Bcd(m), century) >= 128 <==> century == 128
  {
    hide Bcd2Bin, Bin2Bcd;
    BcdRoundTrip(m);
    BcdFields(m);
  }

  /** The two-digit year a reader gets from the register, for every year the driver can write:
      a year before 2000 comes back 96 years late. */
  lemma YearRegister(yy: int)
    requires -30 <= yy <= 106
    ensures Bcd2Bin(Bin2Bcd(U8(if yy >= 100 then yy - 100 else yy)))
         == (if yy >= 100 then yy - 100 else if yy >= 0 then yy else yy + 96)
  {
    hide Bcd2Bin, Bin2Bcd;
    if yy >= 0 {
      BcdRoundTrip(if yy >= 100 then yy - 100 else yy);
    } else {
      assert U8(yy) == yy + 256;
      EarlyYear(yy);
    }
  }

  lemma EarlyYear(yy: int)
    requires -30 <= yy < 0
    ensures Bcd2Bin(Bin2Bcd(yy + 256)) == yy + 96
  {
    var d := if yy >= -6 then 25 else if yy >= -16 then 24 else if yy >= -26 then 23 else 22;
    assert (yy + 256) / 10 == d;
    assert Bin2Bcd(yy + 256) == yy + 6 * d;
    assert (yy + 6 * d) / 16 == d - 16;
  }

  /** Which register holds what, and how: two decimal digits of the seconds in the first, of the minutes in
      the second, of the hours, the day, the month with the century bit, and the year of the century. */
  lemma Registers(days: nat, h: nat, mi: nat, sec: nat)
    requires h < 24 && mi < 60 && sec < 60 && days * 86400 + h * 3600 + mi * 60 + sec < U32
    ensures var r, t := Encode(days * 86400 + h * 3600 + mi * 60 + sec), CivilFromDays(days);
            && r[0] == 16 * (sec / 10) + sec % 10 && r[1] == 16 * (mi / 10) + mi % 10 && r[2] == 16 * (h / 10) + h % 10
            && Valid(t) && r[4] == 16 * (t.d / 10) + t.d % 10
            && r[5] == 16 * (t.m / 10) + t.m % 10 + (if t.y >= 2100 then 128 else 0)
            && (t.y >= 2000 ==> r[6] == 16 * (t.y % 100 / 10) + t.y % 10)
  {
    var epoch := days * 86400 + h * 3600 + mi * 60 + sec;
    ClockParts(days, h, mi, sec);
    hide CivilFromDays, Bin2Bcd, Weekday, U8, OrTop;
    CivilFromDaysValid(days);
    YearsOf(days);
    var t := CivilFromDays(days);
    BcdRoundTrip(sec);
    BcdRoundTrip(mi);
    BcdRoundTrip(h);
    BcdRoundTrip(t.d);
    BcdRoundTrip(t.m);
    MonthBits(t.m);
    if t.y >= 2000 {
      CenturyYear(t.y);
      BcdRoundTrip(t.y % 100);
    }
  }

  lemma ClockParts(days: nat, h: nat, mi: nat, sec: nat)
    requires h < 24 && mi < 60 && sec < 60 && days * 86400 + h * 3600 + mi * 60 + sec < U32
    ensures var epoch := days * 86400 + h * 3600 + mi * 60 + sec;
            && epoch / DAY == days && epoch % DAY / 3600 == h && epoch % DAY % 3600 / 60 == mi
            && epoch % DAY % 3600 % 60 == sec && days <= 49710
  {
    DivMod(days, h * 3600 + mi * 60 + sec, 86400);
    DivMod(h, mi * 60 + sec, 3600);
    DivMod(mi, sec, 60);
  }

  lemma MonthBits(m: byte)
    requires 1 <= m <= 12
    ensures OrTop(Bin2Bcd(m), 0) == Bin2Bcd(m) && OrTop(Bin2Bcd(m), 128) == Bin2Bcd(m) + 128
  {}

  lemma CenturyYear(y: int)
    requires 2000 <= y <= 2106
    ensures U8(if y - 2000 >= 100 then y - 2000 - 100 else y - 2000) == y % 100
    ensures y % 100 % 10 == y % 10
  {}

  /** Registers that differ only in the weekday and in bits without meaning are read alike: bit 7 of the
      first three, bits 6 and 7 of the day, bits 5 and 6 of the month. */
  lemma UnusedBits(r: seq<byte>, q: seq<byte>)
    requires |r| == |q| == 7 && r[0] % 128 == q[0] % 128 && r[1] % 128 == q[1] % 128 && r[2] % 128 == q[2] % 128
    requires r[4] % 64 == q[4] % 64 && r[5] % 32 == q[5] % 32 && (r[5] >= 128 <==> q[5] >= 128) && r[6] == q[6]
    ensures Decode(r) == Decode(q)
  {
    hide Bcd2Bin, DaysFromCivil, ToU32, DecodeHours;
    HourBits(r[2], q[2]);
  }

  lemma HourBits(h: byte, k: byte)
    requires h % 128 == k % 128
    ensures DecodeHours(h) == DecodeHours(k)
  {
    hide Bcd2Bin;
    HourFields(h);
    HourFields(k);
  }

  lemma HourFields(h: byte)
    ensures h % 64 == h % 128 % 64 && h % 32 == h % 128 % 32
    ensures h / 64 % 2 == h % 128 / 64 && h / 32 % 2 == h % 128 / 32 % 2
  {
    var a, x := h / 128, h % 128;
    var b, y := x / 64, x % 64;
    var c, d := y / 32, y % 32;
    DivMod(2 * a + b, y, 64);
    DivMod(4 * a + 2 * b + c, d, 32);
    DivMod(2 * b + c, d, 32);
    DivMod(a, b, 2);
    DivMod(2 * a + b, c, 2);
    DivMod(b, c, 2);
  }

  /** What a reader gets back: the same instant from 2000 on, 96 years later before that. */
  lemma DecodeOfEncode(epoch: nat)
    requires epoch < U32
    ensures var t := CivilFromDays(epoch / DAY);
            && Valid(t)
            && Decode(Encode(epoch))
              == ToU32(ToU32(DaysFromCivil(if t.y >= 2000 then t.y else t.y + 96, t.m, t.d)) * DAY + epoch % DAY)
  {
    hide Bcd2Bin, Bin2Bcd, CivilFromDays, DaysFromCivil, DecodeHours, Weekday, OrTop, ToU32, U8;
    var t := CivilFromDays(epoch / DAY);
    CivilFromDaysValid(epoch / DAY);
    YearsOf(epoch / DAY);
    TimeOfDay(epoch % DAY);
    var yy := t.y - 2000;
    var century := if yy >= 100 then 128 else 0;
    MonthRegister(t.m, century);
    YearRegister(yy);
    BcdRoundTrip(t.d);
    BcdFields(t.d);
  }

  /** Setting the clock and reading it back is exact precisely from 2000-01-01 on. */
  lemma RoundTrip(epoch: nat)
    requires epoch < U32
    ensures Decode(Encode(epoch)) == epoch <==> epoch >= Y2K
  {
    hide Encode, Decode;
    hide Bcd2Bin, Bin2Bcd, CivilFromDays, DaysFromCivil, DecodeHours, Weekday;
    var t := CivilFromDays(epoch / DAY);
    DecodeOfEncode(epoch);
    YearsOf(epoch / DAY);
    DaysOfCivil(epoch / DAY);
    if t.y >= 2000 {
      assert epoch / DAY * DAY + epoch % DAY == epoch;
    } else {
      var u := Date(t.y + 96, t.m, t.d);
      assert IsLeap(u.y) == IsLeap(t.y);
      YearOrder(t, u);
      YearOrder(u, Date(2106, 12, 31));
      DaysAtYearEnd();
    }
  }

  /** 1970-01-01 is stored as day 4 (Thursday of a Monday-first week), and each midnight moves the
      stored weekday one step round the week. */
  lemma WeekdayCycles(epoch: nat)
    requires epoch + DAY < U32
    ensures Encode(0)[3] == 4
    ensures 1 <= Encode(epoch)[3] <= 7
    ensures Encode(epoch + DAY)[3] == Encode(epoch)[3] % 7 + 1
  {
    hide CivilFromDays, Bin2Bcd, Weekday, U8, OrTop;
    NextDay(epoch);
    WeekdayStep(epoch / DAY);
  }

  lemma NextDay(epoch: nat)
    ensures (epoch + DAY) / DAY == epoch / DAY + 1 && 0 / DAY == 0
  {}

  lemma WeekdayStep(days: nat)
    ensures Weekday(0) == 4 && 1 <= Weekday(days) <= 7 && Weekday(days + 1) == Weekday(days) % 7 + 1
  {
    hide Weekday;
    WeekdayIs(0, 0, 0);
    var q, r := days / 7, days % 7;
    WeekdayIs(days, q, r);
    if r == 6 { WeekdayIs(days + 1, q + 1, 0); } else { WeekdayIs(days + 1, q, r + 1); }
  }

  lemma WeekdayIs(days: nat, q: nat, r: nat)
    requires days == 7 * q + r && r < 7
    ensures Weekday(days) == (if r >= 4 then r - 4 else r + 3) + 1
  {
    DivMod(q, r, 7);
  }
}
