/** The incremental MD5 of MD5.cpp, for both sizes of unsigned long. */
module Md5 {
  import opened Common
  import opened Rfc1321

  // The type MD5_u32plus (unsigned long). On a platform where it has 32 bits every store drops
  // the upper half; where it has 64, the upper half keeps whatever the arithmetic left there.
  type ulong = bv64

  function Low(v: ulong): word { (v & 0xffff_ffff) as word }

  function LowRegs(a: ulong, b: ulong, c: ulong, d: ulong): Regs { Regs(Low(a), Low(b), Low(c), Low(d)) }

  // ---- The macros of the source -------------------------------------------------------------

  function MacroE(x: ulong, y: ulong, z: ulong): ulong { z ^ (x & (y ^ z)) }
  function MacroG(x: ulong, y: ulong, z: ulong): ulong { y ^ (z & (x ^ y)) }
  function MacroH(x: ulong, y: ulong, z: ulong): ulong { x ^ y ^ z }
  function MacroI(x: ulong, y: ulong, z: ulong): ulong { y ^ (x | !z) }

  /** The macro argument f of STEP. */
  datatype Fn = UseE | UseG | UseH | UseI

  function Apply(f: Fn, x: ulong, y: ulong, z: ulong): ulong {
    match f
    case UseE => MacroE(x, y, z)
    case UseG => MacroG(x, y, z)
    case UseH => MacroH(x, y, z)
    case UseI => MacroI(x, y, z)
  }

  function Rotate(a: ulong, s: bv6): ulong
    requires s <= 32
  {
    (a << s) | ((a & 0xffff_ffff) >> (32 - s))
  }

  function Add(x: ulong, y: ulong): ulong { x + y }

  function Widen(t: word): ulong { t as ulong }

  /** A store into an unsigned long of 32 or of 64 bits. */
  function Store(wide: bool, v: ulong): ulong { if wide then v else v & 0xffff_ffff }

  function Pack64(b0: octet, b1: octet, b2: octet, b3: octet): ulong {
    (b0 as ulong) | (b1 as ulong << 8) | (b2 as ulong << 16) | (b3 as ulong << 24)
  }

  /** SET(n): four bytes, low-order byte first. */
  function LittleEndian(s: seq<octet>, n: nat): ulong
    requires 4 * n + 4 <= |s|
  {
    Pack64(s[4 * n], s[4 * n + 1], s[4 * n + 2], s[4 * n + 3])
  }

  /** The round function used for operation i. */
  function FnOf(i: nat): Fn { if i < 16 then UseE else if i < 32 then UseG else if i < 48 then UseH else UseI }

  // ---- What the macros do to the low halves ----------------------------------------------------

  lemma BitsSum(x: ulong, y: ulong, p: word, q: word, r: word)
    requires p == (x & 0xffff_ffff) as word && q == (y & 0xffff_ffff) as word && r == ((x + y) & 0xffff_ffff) as word
    ensures r == p + q
  {}

  lemma LowSum(x: ulong, y: ulong)
    ensures Low(x + y) == Low(x) + Low(y)
  {
    BitsSum(x, y, Low(x), Low(y), Low(x + y));
  }

  lemma LowAdd(x: ulong, y: ulong)
    ensures Low(Add(x, y)) == Plus(Low(x), Low(y))
  {
    hide Low;
    LowSum(x, y);
  }

  lemma LowStore(wide: bool, x: ulong)
    ensures Low(Store(wide, x)) == Low(x)
  {}

  lemma LowWiden(t: word)
    ensures Low(Widen(t)) == t
  {}

  lemma LowRotate(x: ulong, s: bv6)
    requires 4 <= s <= 23
    ensures Low(Rotate(x, s)) == Rotl(Low(x), s)
  {}

  /** E and G are shortened forms of the document's F and G. */
  lemma LowE(x: ulong, y: ulong, z: ulong)
    ensures Low(MacroE(x, y, z)) == F(Low(x), Low(y), Low(z))
  {}

  lemma LowG(x: ulong, y: ulong, z: ulong)
    ensures Low(MacroG(x, y, z)) == G(Low(x), Low(y), Low(z))
  {}

  lemma LowH(x: ulong, y: ulong, z: ulong)
    ensures Low(MacroH(x, y, z)) == H(Low(x), Low(y), Low(z))
  {}

  lemma LowI(x: ulong, y: ulong, z: ulong)
    ensures Low(MacroI(x, y, z)) == I(Low(x), Low(y), Low(z))
  {}

  lemma LowPack(b0: octet, b1: octet, b2: octet, b3: octet)
    ensures Low(Pack64(b0, b1, b2, b3)) == Pack(b0, b1, b2, b3)
  {}

  lemma LowLittleEndian(s: seq<octet>, n: nat)
    requires 4 * n + 4 <= |s|
    ensures Low(LittleEndian(s, n)) == Word(s, n)
  {
    hide Low, Pack, Pack64;
    LowPack(s[4 * n], s[4 * n + 1], s[4 * n + 2], s[4 * n + 3]);
  }

  lemma LowApply(i: nat, x: ulong, y: ulong, z: ulong)
    ensures Low(Apply(FnOf(i), x, y, z)) == Aux(i, Low(x), Low(y), Low(z))
  {
    hide Low, MacroE, MacroG, MacroH, MacroI, F, G, H, I;
    LowE(x, y, z);
    LowG(x, y, z);
    LowH(x, y, z);
    LowI(x, y, z);
  }

  lemma BitsOutput(v: ulong, p: word)
    requires p == (v & 0xffff_ffff) as word
    ensures (v & 0xff) as octet == (p & 0xff) as octet
    ensures ((v >> 8) & 0xff) as octet == ((p >> 8) & 0xff) as octet
    ensures ((v >> 16) & 0xff) as octet == ((p >> 16) & 0xff) as octet
    ensures ((v >> 24) & 0xff) as octet == ((p >> 24) & 0xff) as octet
  {}

  lemma PlusComm(a: word, b: word)
    ensures Plus(a, b) == Plus(b, a)
  {}

  /** The macro STEP on values. */
  function StepValue(wide: bool, f: Fn, a: ulong, b: ulong, c: ulong, d: ulong, x: ulong, t: word, s: bv6): ulong
    requires s <= 32
  {
    var sum := Store(wide, Add(a, Add(Add(Apply(f, b, c, d), x), Widen(t))));
    Store(wide, Add(Store(wide, Rotate(sum, s)), b))
  }

  /** The low half of STEP's result is the document's operation on the low halves. */
  lemma LowStep(wide: bool, i: nat, a: ulong, b: ulong, c: ulong, d: ulong, x: ulong, t: word, s: bv6)
    requires 4 <= s <= 23
    ensures Low(StepValue(wide, FnOf(i), a, b, c, d, x, t, s))
         == Plus(Low(b), Rotl(Plus(Low(a), Plus(Plus(Aux(i, Low(b), Low(c), Low(d)), Low(x)), t)), s))
  {
    hide Low, Widen, Add, Apply, Rotate, Store, Aux, Plus, Rotl, FnOf;
    var fx := Apply(FnOf(i), b, c, d);
    LowApply(i, b, c, d);
    LowAdd(fx, x);
    var tt := Widen(t);
    LowWiden(t);
    LowAdd(Add(fx, x), tt);
    LowAdd(a, Add(Add(fx, x), tt));
    LowStore(wide, Add(a, Add(Add(fx, x), tt)));
    var sum := Store(wide, Add(a, Add(Add(fx, x), tt)));
    LowRotate(sum, s);
    LowStore(wide, Rotate(sum, s));
    var turned := Store(wide, Rotate(sum, s));
    LowAdd(turned, b);
    LowStore(wide, Add(turned, b));
    PlusComm(Low(turned), Low(b));
  }

  /** Adding the saved register after the rounds. */
  lemma LowFeed(wide: bool, v: ulong, saved: ulong)
    ensures Low(Store(wide, Add(v, saved))) == Plus(Low(saved), Low(v))
  {
    hide Low, Add, Plus, Store;
    LowAdd(v, saved);
    LowStore(wide, Add(v, saved));
    PlusComm(Low(v), Low(saved));
  }

  // ---- The 64 rows of the source --------------------------------------------------------------

  /** The arguments the source gives operation i are those of the document. */
  predicate Row(i: nat, f: Fn, k: nat, t: word, s: bv6)
    requires i < 64
  {
    f == FnOf(i) && k == K(i) && t == T(i) && s == Shift(i)
  }

  lemma Rows1()
    ensures Row(0, UseE, 0, 0xd76aa478, 7)
    ensures Row(1, UseE, 1, 0xe8c7b756, 12)
    ensures Row(2, UseE, 2, 0x242070db, 17)
    ensures Row(3, UseE, 3, 0xc1bdceee, 22)
    ensures Row(4, UseE, 4, 0xf57c0faf, 7)
    ensures Row(5, UseE, 5, 0x4787c62a, 12)
    ensures Row(6, UseE, 6, 0xa8304613, 17)
    ensures Row(7, UseE, 7, 0xfd469501, 22)
    ensures Row(8, UseE, 8, 0x698098d8, 7)
    ensures Row(9, UseE, 9, 0x8b44f7af, 12)
    ensures Row(10, UseE, 10, 0xffff5bb1, 17)
    ensures Row(11, UseE, 11, 0x895cd7be, 22)
    ensures Row(12, UseE, 12, 0x6b901122, 7)
    ensures Row(13, UseE, 13, 0xfd987193, 12)
    ensures Row(14, UseE, 14, 0xa679438e, 17)
    ensures Row(15, UseE, 15, 0x49b40821, 22)
  {}

  lemma Rows2()
    ensures Row(16, UseG, 1, 0xf61e2562, 5)
    ensures Row(17, UseG, 6, 0xc040b340, 9)
    ensures Row(18, UseG, 11, 0x265e5a51, 14)
    ensures Row(19, UseG, 0, 0xe9b6c7aa, 20)
    ensures Row(20, UseG, 5, 0xd62f105d, 5)
    ensures Row(21, UseG, 10, 0x02441453, 9)
    ensures Row(22, UseG, 15, 0xd8a1e681, 14)
    ensures Row(23, UseG, 4, 0xe7d3fbc8, 20)
    ensures Row(24, UseG, 9, 0x21e1cde6, 5)
    ensures Row(25, UseG, 14, 0xc33707d6, 9)
    ensures Row(26, UseG, 3, 0xf4d50d87, 14)
    ensures Row(27, UseG, 8, 0x455a14ed, 20)
    ensures Row(28, UseG, 13, 0xa9e3e905, 5)
    ensures Row(29, UseG, 2, 0xfcefa3f8, 9)
    ensures Row(30, UseG, 7, 0x676f02d9, 14)
    ensures Row(31, UseG, 12, 0x8d2a4c8a, 20)
  {}

  lemma Rows3()
    ensures Row(32, UseH, 5, 0xfffa3942, 4)
    ensures Row(33, UseH, 8, 0x8771f681, 11)
    ensures Row(34, UseH, 11, 0x6d9d6122, 16)
    ensures Row(35, UseH, 14, 0xfde5380c, 23)
    ensures Row(36, UseH, 1, 0xa4beea44, 4)
    ensures Row(37, UseH, 4, 0x4bdecfa9, 11)
    ensures Row(38, UseH, 7, 0xf6bb4b60, 16)
    ensures Row(39, UseH, 10, 0xbebfbc70, 23)
    ensures Row(40, UseH, 13, 0x289b7ec6, 4)
    ensures Row(41, UseH, 0, 0xeaa127fa, 11)
    ensures Row(42, UseH, 3, 0xd4ef3085, 16)
    ensures Row(43, UseH, 6, 0x04881d05, 23)
    ensures Row(44, UseH, 9, 0xd9d4d039, 4)
    ensures Row(45, UseH, 12, 0xe6db99e5, 11)
    ensures Row(46, UseH, 15, 0x1fa27cf8, 16)
    ensures Row(47, UseH, 2, 0xc4ac5665, 23)
  {}

  lemma Rows4()
    ensures Row(48, UseI, 0, 0xf4292244, 6)
    ensures Row(49, UseI, 7, 0x432aff97, 10)
    ensures Row(50, UseI, 14, 0xab9423a7, 15)
    ensures Row(51, UseI, 5, 0xfc93a039, 21)
    ensures Row(52, UseI, 12, 0x655b59c3, 6)
    ensures Row(53, UseI, 3, 0x8f0ccc92, 10)
    ensures Row(54, UseI, 10, 0xffeff47d, 15)
    ensures Row(55, UseI, 1, 0x85845dd1, 21)
    ensures Row(56, UseI, 8, 0x6fa87e4f, 6)
    ensures Row(57, UseI, 15, 0xfe2ce6e0, 10)
    ensures Row(58, UseI, 6, 0xa3014314, 15)
    ensures Row(59, UseI, 13, 0x4e0811a1, 21)
    ensures Row(60, UseI, 4, 0xf7537e82, 6)
    ensures Row(61, UseI, 11, 0xbd3af235, 10)
    ensures Row(62, UseI, 2, 0x2ad7d2bb, 15)
    ensures Row(63, UseI, 9, 0xeb86d391, 21)
  {}

  // ---- The context ---------------------------------------------------------------------------------

  const COUNT := 0x2000_0000  // lo counts bytes modulo this
  const LOW32 := 0x1_0000_0000

  /** One byte count in two words: the carry test of MD5Update is right. */
  lemma CountStep(n: nat, size: nat)
    ensures var lo := n % COUNT; var lo' := (lo + size) % COUNT;
            && lo' == (n + size) % COUNT
            && (n + size) / COUNT == n / COUNT + size / COUNT + (if lo' < lo then 1 else 0)
  {}

  /** Wrap-around at either size of unsigned long keeps the low 32 bits and the low 29. */
  lemma WrapKeepsLow(v: nat, modulus: nat)
    requires modulus == LOW32 || modulus == 0x1_0000_0000_0000_0000
    ensures v % modulus % LOW32 == v % LOW32
    ensures v % modulus % COUNT == v % COUNT
  {
    var q := v / modulus;
    if modulus == LOW32 {
      assert v == q * LOW32 + v % modulus;
      WholeMultiple(v % modulus, q * 8, COUNT);
    } else {
      assert v == q * 0x1_0000_0000_0000_0000 + v % modulus;
      WholeMultiple(v % modulus, q * LOW32, LOW32);
      WholeMultiple(v % modulus, q * 0x8_0000_0000, COUNT);
    }
  }

  lemma WholeMultiple(v: nat, q: nat, m: nat)
    requires m > 0
    ensures (v + q * m) % m == v % m
    decreases q
  {
    if q > 0 {
      WholeMultiple(v, q - 1, m);
      assert v + q * m == v + (q - 1) * m + m;
      ModStep(v + (q - 1) * m, m);
    }
  }

  lemma ModStep(v: nat, m: nat)
    requires m > 0
    ensures (v + m) % m == v % m
  {
    var q, r := v / m, v % m;
    assert v == q * m + r && v + m == (q + 1) * m + r;
    DivMod(q + 1, r, m);
  }

  /** The fill of the buffer, read off the byte counter. */
  lemma CountFill(n: nat)
    ensures n % COUNT % 64 == n % 64
  {
    var q, r := n / COUNT, n % COUNT;
    assert n == r + q * 0x80_0000 * 64;
    WholeMultiple(r, q * 0x80_0000, 64);
  }

  lemma ShiftFits(lo: nat, modulus: nat)
    requires modulus == LOW32 || modulus == 0x1_0000_0000_0000_0000
    requires lo < COUNT
    ensures 8 * lo % modulus == 8 * lo
  {}

  lemma SameLow(v: nat, w: nat, add: nat)
    requires v % LOW32 == w % LOW32
    ensures (v + add) % LOW32 == (w + add) % LOW32
  {}

  /** The eight length bytes, from the two counter words. */
  lemma CountBytes(n: nat, lo8: nat, hi: nat)
    requires lo8 == 8 * (n % COUNT) && hi % LOW32 == n / COUNT % LOW32
    ensures [ByteOf(lo8), ByteOf(lo8 / 0x100), ByteOf(lo8 / 0x1_0000), ByteOf(lo8 / 0x100_0000),
             ByteOf(hi), ByteOf(hi / 0x100), ByteOf(hi / 0x1_0000), ByteOf(hi / 0x100_0000)] == LengthBytes(8 * n)
  {
    hide ByteOf;
    LowBytes(8 * n, lo8);
    HighBytes(8 * n, hi);
  }

  /** The low 32 bits of a number give its four low bytes. */
  lemma LowBytes(bits: nat, lo8: nat)
    requires lo8 == bits % LOW32
    ensures ByteOf(lo8) == ByteOf(bits) && ByteOf(lo8 / 0x100) == ByteOf(bits / 0x100)
    ensures ByteOf(lo8 / 0x1_0000) == ByteOf(bits / 0x1_0000) && ByteOf(lo8 / 0x100_0000) == ByteOf(bits / 0x100_0000)
  {
    hide ByteOf;
    var q := bits / LOW32;
    assert bits == q * LOW32 + lo8;
    SameByte(lo8, 0x100_0000 * q);
    assert bits / 0x100 == lo8 / 0x100 + 0x100 * (0x1_0000 * q);
    SameByte(lo8 / 0x100, 0x1_0000 * q);
    assert bits / 0x1_0000 == lo8 / 0x1_0000 + 0x100 * (0x100 * q);
    SameByte(lo8 / 0x1_0000, 0x100 * q);
    assert bits / 0x100_0000 == lo8 / 0x100_0000 + 0x100 * q;
    SameByte(lo8 / 0x100_0000, q);
  }

  lemma SameByte(n: nat, q: nat)
    ensures ByteOf(n + 0x100 * q) == ByteOf(n)
  {
    hide Byte;
    assert (n + 0x100 * q) % 256 == n % 256;
  }

  lemma HighBytes(bits: nat, hi: nat)
    requires hi % LOW32 == bits / LOW32 % LOW32
    ensures ByteOf(hi) == ByteOf(bits / 0x1_0000_0000) && ByteOf(hi / 0x100) == ByteOf(bits / 0x100_0000_0000)
    ensures ByteOf(hi / 0x1_0000) == ByteOf(bits / 0x1_0000_0000_0000)
    ensures ByteOf(hi / 0x100_0000) == ByteOf(bits / 0x100_0000_0000_0000)
  {
    var h := bits / LOW32;
    LowBytes(hi, hi % LOW32);
    LowBytes(h, h % LOW32);
    assert h / 0x100 == bits / 0x100_0000_0000;
    assert h / 0x1_0000 == bits / 0x1_0000_0000_0000;
    assert h / 0x100_0000 == bits / 0x100_0000_0000_0000;
  }

  lemma RestNone(msg: seq<octet>)
    requires |msg| % 64 == 0
    ensures Rest(msg) == []
  {}

  lemma SameRest(msg: seq<octet>, x: seq<octet>)
    requires |msg| % 64 == 0 && |x| < 64
    ensures |msg + x| % 64 == |x|
  {}

  lemma ZerosJoin(i: int, j: int)
    requires i >= 0 && j >= 0
    ensures Zeros(i) + Zeros(j) == Zeros(i + j)
  {}

  lemma RestLength(msg: seq<octet>)
    ensures |Rest(msg)| == |msg| % 64
  {}

  /** How many zeros follow the byte 0x80, by the room left in its block. */
  lemma FinishZeros(n: nat)
    ensures var free := 63 - n % 64; ZeroCount(n) == if free < 8 then free + 56 else free - 8
  {}

  lemma OneBlockLeft(msg: seq<octet>, left: seq<octet>, last: seq<octet>)
    requires left == Rest(msg) + [0x80] && |left| <= 56 && ZeroCount(|msg|) == 56 - |left| && |last| == 64
    requires last == left + Zeros(56 - |left|) + LengthBytes(8 * |msg|)
    ensures Process(INIT, Pad(msg)) == Process(Process(INIT, Whole(msg)), last)
  {
    hide Process, Whole, Rest, LengthBytes, Pad, Zeros;
    PadRest(msg);
    ProcessAppend(INIT, Whole(msg), last);
  }

  lemma TwoBlocks(msg: seq<octet>, left: seq<octet>, free: nat)
    requires left == Rest(msg) + [0x80] && |left| + free == 64 && ZeroCount(|msg|) == free + 56
    ensures Process(INIT, Pad(msg))
         == Process(Process(Process(INIT, Whole(msg)), left + Zeros(free)), [] + Zeros(56) + LengthBytes(8 * |msg|))
  {
    hide Process, Whole, Rest, LengthBytes, Pad;
    PadRest(msg);
    ZerosJoin(free, 56);
    var last := [] + Zeros(56) + LengthBytes(8 * |msg|);
    assert left + Zeros(ZeroCount(|msg|)) + LengthBytes(8 * |msg|) == (left + Zeros(free)) + last;
    ProcessAppend(INIT, Whole(msg), (left + Zeros(free)) + last);
    ProcessAppend(Process(INIT, Whole(msg)), left + Zeros(free), last);
  }

  function ModulusOf(wide: bool): nat { if wide then 0x1_0000_0000_0000_0000 else LOW32 }

  class Context {
    const wide: bool  // unsigned long has 64 bits rather than 32
    var lo: nat
    var hi: nat
    var a: ulong
    var b: ulong
    var c: ulong
    var d: ulong
    const buffer: array<octet>
    const block: array<ulong>

    /** One more than the greatest unsigned long (and the greatest size_t). */
    function Modulus(): nat { ModulusOf(wide) }

    ghost predicate Shaped() { buffer.Length == 64 && block.Length == 16 }

    ghost function Chain(): Regs
      reads this
    {
      LowRegs(a, b, c, d)
    }

    /** The context after msg has been fed to it: nothing is said of the high halves. */
    ghost predicate Holds(msg: seq<octet>)
      reads this, buffer
    {
      && Shaped()
      && lo == |msg| % COUNT
      && hi % LOW32 == |msg| / COUNT % LOW32
      && Fed(msg)
    }

    /** The registers have taken the whole blocks of msg; the buffer holds the rest. */
    ghost predicate Fed(msg: seq<octet>)
      requires Shaped()
      reads this, buffer
    {
      Chain() == Process(INIT, Whole(msg)) && buffer[..|msg| % 64] == Rest(msg)
    }

    /** MD5Init. */
    constructor (wide: bool)
      ensures this.wide == wide && Holds([]) && fresh(buffer) && fresh(block)
    {
      this.wide := wide;
      lo, hi := 0, 0;
      a, b, c, d := 0x67452301, 0xefcdab89, 0x98badcfe, 0x10325476;
      buffer := new octet[64](_ => 0);
      block := new ulong[16](_ => 0);
    }

    /** The macro STEP, as operation i of the document. */
    method Step(ghost i: nat, ghost r: Regs, ghost x: seq<word>, f: Fn,
                a0: ulong, b: ulong, c: ulong, d: ulong, k: nat, t: word, s: bv6)
      returns (a: ulong)
      requires i < 64 && |x| == 16 && Row(i, f, k, t, s)
      requires k < block.Length == 16 && Low(block[k]) == x[k]
      requires LowRegs(a0, b, c, d) == Operations(i, r, x)
      ensures LowRegs(d, a, b, c) == Operations(i + 1, r, x)
    {
      hide Low, Widen, Add, Apply, Rotate, Store, Aux, Plus, Rotl, T, FnOf, K, Shift;
      a := Store(wide, Add(a0, Add(Add(Apply(f, b, c, d), block[k]), Widen(t))));
      a := Store(wide, Rotate(a, s));
      a := Store(wide, Add(a, b));
      LowStep(wide, i, a0, b, c, d, block[k], t, s);
    }

    /** The first n words of the current block are the low halves of ctx->block. */
    ghost predicate Loaded(x: seq<word>, n: nat)
      reads block
    {
      block.Length == 16 && |x| == 16 && n <= 16 && forall k :: 0 <= k < n ==> Low(block[k]) == x[k]
    }

    /** SET(n) stores word n of the block. */
    method Set(chunk: seq<octet>, ghost x: seq<word>, n: nat)
      requires n < 16 && |chunk| == 64 && x == Words(chunk) && Loaded(x, n)
      modifies block
      ensures Loaded(x, n + 1) && block[n] == LittleEndian(chunk, n)
    {
      hide Low, Word, LittleEndian;
      block[n] := LittleEndian(chunk, n);
      LowLittleEndian(chunk, n);
    }

    /** Operations 0 to 7. The block is loaded in round 1, word by word. */
    method Round1First(chunk: seq<octet>, ghost r: Regs, ghost x: seq<word>, a0: ulong, b0: ulong, c0: ulong, d0: ulong)
      returns (a: ulong, b: ulong, c: ulong, d: ulong)
      requires block.Length == 16 && |x| == 16
      requires |chunk| == 64 && x == Words(chunk)
      requires LowRegs(a0, b0, c0, d0) == Operations(0, r, x)
      modifies block
      ensures Loaded(x, 8)
      ensures LowRegs(a, b, c, d) == Operations(8, r, x)
    {
      hide Operation, Operations, Low, Row;
      Rows1();
      a, b, c, d := a0, b0, c0, d0;
      Set(chunk, x, 0); a := Step(0, r, x, UseE, a, b, c, d, 0, 0xd76aa478, 7);
      Set(chunk, x, 1); d := Step(1, r, x, UseE, d, a, b, c, 1, 0xe8c7b756, 12);
      Set(chunk, x, 2); c := Step(2, r, x, UseE, c, d, a, b, 2, 0x242070db, 17);
      Set(chunk, x, 3); b := Step(3, r, x, UseE, b, c, d, a, 3, 0xc1bdceee, 22);
      Set(chunk, x, 4); a := Step(4, r, x, UseE, a, b, c, d, 4, 0xf57c0faf, 7);
      Set(chunk, x, 5); d := Step(5, r, x, UseE, d, a, b, c, 5, 0x4787c62a, 12);
      Set(chunk, x, 6); c := Step(6, r, x, UseE, c, d, a, b, 6, 0xa8304613, 17);
      Set(chunk, x, 7); b := Step(7, r, x, UseE, b, c, d, a, 7, 0xfd469501, 22);
    }

    /** Operations 8 to 15. */
    method Round1Second(chunk: seq<octet>, ghost r: Regs, ghost x: seq<word>,
          a0: ulong, b0: ulong, c0: ulong, d0: ulong)
      returns (a: ulong, b: ulong, c: ulong, d: ulong)
      requires block.Length == 16 && |x| == 16
      requires |chunk| == 64 && x == Words(chunk)
      requires Loaded(x, 8) && LowRegs(a0, b0, c0, d0) == Operations(8, r, x)
      modifies block
      ensures Loaded(x, 16)
      ensures LowRegs(a, b, c, d) == Operations(16, r, x)
    {
      hide Operation, Operations, Low, Row;
      Rows1();
      a, b, c, d := a0, b0, c0, d0;
      Set(chunk, x, 8); a := Step(8, r, x, UseE, a, b, c, d, 8, 0x698098d8, 7);
      Set(chunk, x, 9); d := Step(9, r, x, UseE, d, a, b, c, 9, 0x8b44f7af, 12);
      Set(chunk, x, 10); c := Step(10, r, x, UseE, c, d, a, b, 10, 0xffff5bb1, 17);
      Set(chunk, x, 11); b := Step(11, r, x, UseE, b, c, d, a, 11, 0x895cd7be, 22);
      Set(chunk, x, 12); a := Step(12, r, x, UseE, a, b, c, d, 12, 0x6b901122, 7);
      Set(chunk, x, 13); d := Step(13, r, x, UseE, d, a, b, c, 13, 0xfd987193, 12);
      Set(chunk, x, 14); c := Step(14, r, x, UseE, c, d, a, b, 14, 0xa679438e, 17);
      Set(chunk, x, 15); b := Step(15, r, x, UseE, b, c, d, a, 15, 0x49b40821, 22);
    }

    /** Operations 16 to 31. */
    method Round2(ghost r: Regs, ghost x: seq<word>, a0: ulong, b0: ulong, c0: ulong, d0: ulong)
      returns (a: ulong, b: ulong, c: ulong, d: ulong)
      requires block.Length == 16 && |x| == 16
      requires Loaded(x, 16)
      requires LowRegs(a0, b0, c0, d0) == Operations(16, r, x)
      ensures LowRegs(a, b, c, d) == Operations(32, r, x)
    {
      hide Operation, Operations, Low, Row;
      Rows2();
      a, b, c, d := a0, b0, c0, d0;
      a := Step(16, r, x, UseG, a, b, c, d, 1, 0xf61e2562, 5);
      d := Step(17, r, x, UseG, d, a, b, c, 6, 0xc040b340, 9);
      c := Step(18, r, x, UseG, c, d, a, b, 11, 0x265e5a51, 14);
      b := Step(19, r, x, UseG, b, c, d, a, 0, 0xe9b6c7aa, 20);
      a := Step(20, r, x, UseG, a, b, c, d, 5, 0xd62f105d, 5);
      d := Step(21, r, x, UseG, d, a, b, c, 10, 0x02441453, 9);
      c := Step(22, r, x, UseG, c, d, a, b, 15, 0xd8a1e681, 14);
      b := Step(23, r, x, UseG, b, c, d, a, 4, 0xe7d3fbc8, 20);
      a := Step(24, r, x, UseG, a, b, c, d, 9, 0x21e1cde6, 5);
      d := Step(25, r, x, UseG, d, a, b, c, 14, 0xc33707d6, 9);
      c := Step(26, r, x, UseG, c, d, a, b, 3, 0xf4d50d87, 14);
      b := Step(27, r, x, UseG, b, c, d, a, 8, 0x455a14ed, 20);
      a := Step(28, r, x, UseG, a, b, c, d, 13, 0xa9e3e905, 5);
      d := Step(29, r, x, UseG, d, a, b, c, 2, 0xfcefa3f8, 9);
      c := Step(30, r, x, UseG, c, d, a, b, 7, 0x676f02d9, 14);
      b := Step(31, r, x, UseG, b, c, d, a, 12, 0x8d2a4c8a, 20);
    }

    /** Operations 32 to 47. */
    method Round3(ghost r: Regs, ghost x: seq<word>, a0: ulong, b0: ulong, c0: ulong, d0: ulong)
      returns (a: ulong, b: ulong, c: ulong, d: ulong)
      requires block.Length == 16 && |x| == 16
      requires Loaded(x, 16)
      requires LowRegs(a0, b0, c0, d0) == Operations(32, r, x)
      ensures LowRegs(a, b, c, d) == Operations(48, r, x)
    {
      hide Operation, Operations, Low, Row;
      Rows3();
      a, b, c, d := a0, b0, c0, d0;
      a := Step(32, r, x, UseH, a, b, c, d, 5, 0xfffa3942, 4);
      d := Step(33, r, x, UseH, d, a, b, c, 8, 0x8771f681, 11);
      c := Step(34, r, x, UseH, c, d, a, b, 11, 0x6d9d6122, 16);
      b := Step(35, r, x, UseH, b, c, d, a, 14, 0xfde5380c, 23);
      a := Step(36, r, x, UseH, a, b, c, d, 1, 0xa4beea44, 4);
      d := Step(37, r, x, UseH, d, a, b, c, 4, 0x4bdecfa9, 11);
      c := Step(38, r, x, UseH, c, d, a, b, 7, 0xf6bb4b60, 16);
      b := Step(39, r, x, UseH, b, c, d, a, 10, 0xbebfbc70, 23);
      a := Step(40, r, x, UseH, a, b, c, d, 13, 0x289b7ec6, 4);
      d := Step(41, r, x, UseH, d, a, b, c, 0, 0xeaa127fa, 11);
      c := Step(42, r, x, UseH, c, d, a, b, 3, 0xd4ef3085, 16);
      b := Step(43, r, x, UseH, b, c, d, a, 6, 0x04881d05, 23);
      a := Step(44, r, x, UseH, a, b, c, d, 9, 0xd9d4d039, 4);
      d := Step(45, r, x, UseH, d, a, b, c, 12, 0xe6db99e5, 11);
      c := Step(46, r, x, UseH, c, d, a, b, 15, 0x1fa27cf8, 16);
      b := Step(47, r, x, UseH, b, c, d, a, 2, 0xc4ac5665, 23);
    }

    /** Operations 48 to 63. */
    method Round4(ghost r: Regs, ghost x: seq<word>, a0: ulong, b0: ulong, c0: ulong, d0: ulong)
      returns (a: ulong, b: ulong, c: ulong, d: ulong)
      requires block.Length == 16 && |x| == 16
      requires Loaded(x, 16)
      requires LowRegs(a0, b0, c0, d0) == Operations(48, r, x)
      ensures LowRegs(a, b, c, d) == Operations(64, r, x)
    {
      hide Operation, Operations, Low, Row;
      Rows4();
      a, b, c, d := a0, b0, c0, d0;
      a := Step(48, r, x, UseI, a, b, c, d, 0, 0xf4292244, 6);
      d := Step(49, r, x, UseI, d, a, b, c, 7, 0x432aff97, 10);
      c := Step(50, r, x, UseI, c, d, a, b, 14, 0xab9423a7, 15);
      b := Step(51, r, x, UseI, b, c, d, a, 5, 0xfc93a039, 21);
      a := Step(52, r, x, UseI, a, b, c, d, 12, 0x655b59c3, 6);
      d := Step(53, r, x, UseI, d, a, b, c, 3, 0x8f0ccc92, 10);
      c := Step(54, r, x, UseI, c, d, a, b, 10, 0xffeff47d, 15);
      b := Step(55, r, x, UseI, b, c, d, a, 1, 0x85845dd1, 21);
      a := Step(56, r, x, UseI, a, b, c, d, 8, 0x6fa87e4f, 6);
      d := Step(57, r, x, UseI, d, a, b, c, 15, 0xfe2ce6e0, 10);
      c := Step(58, r, x, UseI, c, d, a, b, 6, 0xa3014314, 15);
      b := Step(59, r, x, UseI, b, c, d, a, 13, 0x4e0811a1, 21);
      a := Step(60, r, x, UseI, a, b, c, d, 4, 0xf7537e82, 6);
      d := Step(61, r, x, UseI, d, a, b, c, 11, 0xbd3af235, 10);
      c := Step(62, r, x, UseI, c, d, a, b, 2, 0x2ad7d2bb, 15);
      b := Step(63, r, x, UseI, b, c, d, a, 9, 0xeb86d391, 21);
    }

    /** MD5::body: one or more whole blocks. */
    method Body(data: seq<octet>)
      requires Shaped() && |data| > 0 && |data| % 64 == 0
      modifies this`a, this`b, this`c, this`d, block
      ensures Chain() == Process(old(Chain()), data)
    {
      hide Low, Compress, Store, Add, Plus;
      var a, b, c, d := this.a, this.b, this.c, this.d;
      var ptr, size := 0, |data|;
      ghost var r0 := LowRegs(a, b, c, d);
      while size != 0
        invariant 0 <= ptr && 0 <= size && ptr + size == |data| && size % 64 == 0 && ptr % 64 == 0
        invariant LowRegs(a, b, c, d) == Process(r0, data[..ptr])
      {
        a, b, c, d := OneBlock(data[ptr..ptr + 64], a, b, c, d);
        ProcessAppend(r0, data[..ptr], data[ptr..ptr + 64]);
        ProcessOne(Process(r0, data[..ptr]), data[ptr..ptr + 64]);
        assert data[..ptr + 64] == data[..ptr] + data[ptr..ptr + 64];
        ptr := ptr + 64;
        size := size - 64;
      }
      assert data[..ptr] == data;
      this.a, this.b, this.c, this.d := a, b, c, d;
    }

    /** One turn of the loop in MD5::body. */
    method OneBlock(chunk: seq<octet>, a0: ulong, b0: ulong, c0: ulong, d0: ulong)
      returns (a: ulong, b: ulong, c: ulong, d: ulong)
      requires Shaped() && |chunk| == 64
      modifies block
      ensures LowRegs(a, b, c, d) == Compress(LowRegs(a0, b0, c0, d0), chunk)
    {
      hide Low, Store, Add, Plus, Words, Operation;
      ghost var r, x := LowRegs(a0, b0, c0, d0), Words(chunk);
      a, b, c, d := Round1First(chunk, r, x, a0, b0, c0, d0);
      a, b, c, d := Round1Second(chunk, r, x, a, b, c, d);
      a, b, c, d := Round2(r, x, a, b, c, d);
      a, b, c, d := Round3(r, x, a, b, c, d);
      a, b, c, d := Round4(r, x, a, b, c, d);
      LowFeed(wide, a, a0);
      LowFeed(wide, b, b0);
      LowFeed(wide, c, c0);
      LowFeed(wide, d, d0);
      a := Store(wide, Add(a, a0));
      b := Store(wide, Add(b, b0));
      c := Store(wide, Add(c, c0));
      d := Store(wide, Add(d, d0));
    }

    /** memcpy(&buffer[at], s, |s|). */
    method CopyIn(at: nat, s: seq<octet>)
      requires at + |s| <= buffer.Length
      modifies buffer
      ensures buffer[..] == old(buffer[..at]) + s + old(buffer[at + |s|..])
    {
      forall i | 0 <= i < |s| { buffer[at + i] := s[i]; }
    }

    /** memset(&buffer[at], 0, n). */
    method ClearIn(at: nat, n: nat)
      requires at + n <= buffer.Length
      modifies buffer
      ensures buffer[..] == old(buffer[..at]) + Zeros(n) + old(buffer[at + n..])
    {
      forall i | 0 <= i < n { buffer[at + i] := 0; }
    }

    /** MD5Update. */
    method Update(data: seq<octet>, ghost msg: seq<octet>)
      requires Holds(msg) && |data| < Modulus()
      modifies this`lo, this`hi, this`a, this`b, this`c, this`d, buffer, block
      ensures Holds(msg + data)
    {
      hide Process, Low, Whole, Rest, Modulus;
      CountFill(|msg|);
      var used := lo % 64;
      AddLength(|data|, |msg|);
      assert Fed(msg);
      Absorb(data, used, msg);
    }

    /** MD5Update's counters. */
    method AddLength(size: nat, ghost n: nat)
      requires size < Modulus() && lo == n % COUNT && hi % LOW32 == n / COUNT % LOW32
      modifies this`lo, this`hi
      ensures lo == (n + size) % COUNT && hi % LOW32 == (n + size) / COUNT % LOW32
    {
      CountStep(n, size);
      var savedLo := lo;
      WrapKeepsLow(savedLo + size, Modulus());
      lo := (savedLo + size) % Modulus() % COUNT;
      if lo < savedLo {
        WrapKeepsLow(hi + 1, Modulus());
        SameLow(hi, n / COUNT, 1);
        hi := (hi + 1) % Modulus();
      }
      ghost var high := n / COUNT + (if lo < savedLo then 1 else 0);
      assert hi % LOW32 == high % LOW32;
      WrapKeepsLow(hi + size / COUNT, Modulus());
      SameLow(hi, high, size / COUNT);
      hi := (hi + size / COUNT) % Modulus();
    }

    /** MD5Update after the counters: fill the buffer, take whole blocks, keep the rest. */
    method Absorb(data: seq<octet>, used: nat, ghost msg: seq<octet>)
      requires Shaped() && Fed(msg) && used == |msg| % 64
      modifies this`a, this`b, this`c, this`d, buffer, block
      ensures Fed(msg + data)
    {
      hide Process, Low, Whole, Rest;
      if used == 0 {
        TakeRest(data, msg);
        return;
      }
      var free := 64 - used;
      if |data| < free {
        CopyIn(used, data);
        SplitShort(msg, data);
        assert buffer[..used + |data|] == Rest(msg) + data;
        return;
      }
      FillBuffer(data[..free], used, msg);
      assert msg + data == msg + data[..free] + data[free..];
      TakeRest(data[free..], msg + data[..free]);
    }

    /** The block that the buffer completes. */
    method FillBuffer(data: seq<octet>, used: nat, ghost msg: seq<octet>)
      requires Shaped() && Fed(msg) && used == |msg| % 64 && used + |data| == 64
      modifies this`a, this`b, this`c, this`d, buffer, block
      ensures |msg + data| % 64 == 0 && Chain() == Process(INIT, Whole(msg + data))
    {
      hide Process, Low, Whole, Rest;
      CopyIn(used, data);
      assert buffer[..] == Rest(msg) + data;
      Body(buffer[..]);
      SplitFill(msg, data);
      ProcessAppend(INIT, Whole(msg), Rest(msg) + data);
    }

    /** Whole blocks straight from the data, and the remainder into the buffer. */
    method TakeRest(data: seq<octet>, ghost msg: seq<octet>)
      requires Shaped() && |msg| % 64 == 0 && Chain() == Process(INIT, Whole(msg))
      modifies this`a, this`b, this`c, this`d, buffer, block
      ensures Fed(msg + data)
    {
      hide Process, Low, Whole, Rest;
      var rest := data;
      ghost var m := msg;
      if |rest| >= 64 {
        var n := |rest| - |rest| % 64;
        Body(rest[..n]);
        SplitBlocks(m, rest[..n]);
        ProcessAppend(INIT, Whole(m), rest[..n]);
        m := m + rest[..n];
        rest := rest[n..];
      }
      assert msg + data == m + rest;
      CopyIn(0, rest);
      SplitShort(m, rest);
      RestNone(m);
      assert Rest(m) + rest == rest && buffer[..|rest|] == rest;
      SameRest(m, rest);
    }

    /** MD5Final's last block: zeros after the first `used` bytes, and the bit count at the end. */
    method LastBlock(used: nat, ghost n: nat)
      requires Shaped() && used <= 56 && lo == n % COUNT && hi % LOW32 == n / COUNT % LOW32
      modifies this`lo, this`a, this`b, this`c, this`d, buffer, block
      ensures Chain() == Process(old(Chain()), old(buffer[..used]) + Zeros(56 - used) + LengthBytes(8 * n))
    {
      hide Process, Low, LengthBytes, ByteOf;
      ghost var left := buffer[..used];
      ClearIn(used, 56 - used);
      assert buffer[..56] == left + Zeros(56 - used);
      PutLength(n);
      assert buffer[..] == left + Zeros(56 - used) + LengthBytes(8 * n);
      Body(buffer[..]);
    }

    method PutLength(ghost n: nat)
      requires Shaped() && lo == n % COUNT && hi % LOW32 == n / COUNT % LOW32
      modifies this`lo, buffer
      ensures buffer[..] == old(buffer[..56]) + LengthBytes(8 * n)
    {
      hide LengthBytes, ByteOf;
      CountBytes(n, 8 * lo, hi);
      ShiftFits(lo, Modulus());
      hide *;
      lo := 8 * lo % Modulus();
      buffer[56] := ByteOf(lo);
      buffer[57] := ByteOf(lo / 0x100);
      buffer[58] := ByteOf(lo / 0x1_0000);
      buffer[59] := ByteOf(lo / 0x100_0000);
      buffer[60] := ByteOf(hi);
      buffer[61] := ByteOf(hi / 0x100);
      buffer[62] := ByteOf(hi / 0x1_0000);
      buffer[63] := ByteOf(hi / 0x100_0000);
      assert buffer[56..] == LengthBytes(8 * n);
    }

    /** MD5Final up to the digest: padding, the length, and the last one or two blocks. */
    method Finish(ghost msg: seq<octet>)
      requires Holds(msg)
      modifies this`lo, this`a, this`b, this`c, this`d, buffer, block
      ensures Chain() == Process(INIT, Pad(msg))
    {
      hide Process, Low, Whole, Rest, LengthBytes, Pad, ZeroCount;
      CountFill(|msg|);
      var used := lo % 64;
      FinishZeros(|msg|);
      RestLength(msg);
      buffer[used] := 0x80;
      used := used + 1;
      ghost var left := Rest(msg) + [0x80];
      assert buffer[..used] == left;
      var free := 64 - used;
      if free < 8 {
        ClearIn(used, free);
        assert buffer[..] == left + Zeros(free);
        Body(buffer[..]);
        LastBlock(0, |msg|);
        TwoBlocks(msg, left, free);
      } else {
        LastBlock(used, |msg|);
        OneBlockLeft(msg, left, left + Zeros(56 - used) + LengthBytes(8 * |msg|));
      }
    }

    /** One register as four bytes of the result. */
    method Put(result: array<octet>, at: nat, v: ulong)
      requires at + 4 <= result.Length
      modifies result
      ensures result[at..at + 4] == WordBytes(Low(v))
      ensures result[..at] == old(result[..at]) && result[at + 4..] == old(result[at + 4..])
    {
      BitsOutput(v, Low(v));
      result[at] := (v & 0xff) as octet;
      result[at + 1] := ((v >> 8) & 0xff) as octet;
      result[at + 2] := ((v >> 16) & 0xff) as octet;
      result[at + 3] := ((v >> 24) & 0xff) as octet;
    }

    method PutAll(result: array<octet>)
      requires result.Length == 16
      modifies result
      ensures result[..] == Output(Chain())
    {
      hide Low, WordBytes;
      Put(result, 0, a);
      assert result[..4] == WordBytes(Low(a));
      Put(result, 4, b);
      assert result[..8] == result[..4] + result[4..8];
      Put(result, 8, c);
      assert result[..12] == result[..8] + result[8..12];
      Put(result, 12, d);
      assert result[..] == result[..12] + result[12..16];
    }

    /** MD5Final. The context is cleared afterwards. */
    method Final(result: array<octet>, ghost msg: seq<octet>)
      requires Holds(msg) && result.Length == 16 && result != buffer
      modifies this, buffer, block, result
      ensures result[..] == Digest(msg)
      ensures lo == 0 && hi == 0 && a == 0 && b == 0 && c == 0 && d == 0
      ensures buffer[..] == Zeros(buffer.Length) && forall i :: 0 <= i < block.Length ==> block[i] == 0
    {
      hide Low, Process, Pad, WordBytes;
      Finish(msg);
      PutAll(result);
      lo, hi, a, b, c, d := 0, 0, 0, 0, 0, 0;
      ClearIn(0, buffer.Length);
      forall i | 0 <= i < block.Length { block[i] := 0; }
    }
  }

  // ---- make_hash ------------------------------------------------------------------------------------

  function Flatten(pieces: seq<seq<octet>>): seq<octet> {
    if pieces == [] then [] else Flatten(pieces[..|pieces| - 1]) + pieces[|pieces| - 1]
  }

  /** However a message is cut into pieces, feeding them one by one and finishing yields the
      RFC 1321 digest of the whole message, on both sizes of unsigned long. */
  method HashPieces(wide: bool, pieces: seq<seq<octet>>) returns (hash: seq<octet>)
    requires forall k :: 0 <= k < |pieces| ==> |pieces[k]| < ModulusOf(wide)
    ensures hash == Digest(Flatten(pieces))
  {
    var context := new Context(wide);
    for k := 0 to |pieces|
      invariant context.Holds(Flatten(pieces[..k]))
      invariant context.wide == wide && fresh(context) && fresh(context.buffer) && fresh(context.block)
    {
      context.Update(pieces[k], Flatten(pieces[..k]));
      assert pieces[..k + 1][..k] == pieces[..k];
    }
    assert pieces[..|pieces|] == pieces;
    var result := new octet[16];
    context.Final(result, Flatten(pieces));
    hash := result[..];
  }

  /** make_hash(arg, size). */
  method MakeHash(wide: bool, arg: seq<octet>) returns (hash: seq<octet>)
    requires |arg| < ModulusOf(wide)
    ensures hash == Digest(arg)
  {
    var context := new Context(wide);
    context.Update(arg, []);
    assert [] + arg == arg;
    var result := new octet[16];
    context.Final(result, arg);
    hash := result[..];
  }
}
