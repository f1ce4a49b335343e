/** RFC 1321, section 3: the MD5 message digest, written from the document. */
module Rfc1321 {
  import opened Common

  type word = bv32

  datatype Regs = Regs(a: word, b: word, c: word, d: word)

  // ---- Section 2: words ---------------------------------------------------------------

  /** Addition of words, modulo 2^32. */
  function Plus(x: word, y: word): word { x + y }

  function Rotl(x: word, s: bv6): word
    requires s <= 32
  {
    (x << s) | (x >> (32 - s))
  }

  /** Four bytes make a word, low-order byte first. */
  function Pack(b0: octet, b1: octet, b2: octet, b3: octet): word {
    (b0 as word) | (b1 as word << 8) | (b2 as word << 16) | (b3 as word << 24)
  }

  function Word(s: seq<octet>, n: nat): word
    requires 4 * n + 4 <= |s|
  {
    Pack(s[4 * n], s[4 * n + 1], s[4 * n + 2], s[4 * n + 3])
  }

  // ---- Section 3.4: one 16-word block --------------------------------------------------

  function F(x: word, y: word, z: word): word { (x & y) | (!x & z) }
  function G(x: word, y: word, z: word): word { (x & z) | (y & !z) }
  function H(x: word, y: word, z: word): word { x ^ y ^ z }
  function I(x: word, y: word, z: word): word { y ^ (x | !z) }

  /** The auxiliary function of operation i (operations counted 0 to 63). */
  function Aux(i: nat, x: word, y: word, z: word): word {
    if i < 16 then F(x, y, z) else if i < 32 then G(x, y, z) else if i < 48 then H(x, y, z) else I(x, y, z)
  }

  /** The message word, shift and table entry of operation i. */
  function K(i: nat): nat {
    if i < 16 then i else if i < 32 then (1 + 5 * i) % 16 else if i < 48 then (5 + 3 * i) % 16 else 7 * i % 16
  }

  function Shift(i: nat): (s: bv6)
    ensures 4 <= s <= 23
  {
    var col := i % 4;
    if i < 16 then (if col == 0 then 7 else if col == 1 then 12 else if col == 2 then 17 else 22)
    else if i < 32 then (if col == 0 then 5 else if col == 1 then 9 else if col == 2 then 14 else 20)
    else if i < 48 then (if col == 0 then 4 else if col == 1 then 11 else if col == 2 then 16 else 23)
    else (if col == 0 then 6 else if col == 1 then 10 else if col == 2 then 15 else 21)
  }

  /** Table T of the document: the integer part of 4294967296 * abs(sin(i + 1)). */
  function T(i: nat): word
    requires i < 64
  {
    if i < 16 then (
      match i
      case 0 => 0xd76aa478 case 1 => 0xe8c7b756 case 2 => 0x242070db case 3 => 0xc1bdceee
      case 4 => 0xf57c0faf case 5 => 0x4787c62a case 6 => 0xa8304613 case 7 => 0xfd469501
      case 8 => 0x698098d8 case 9 => 0x8b44f7af case 10 => 0xffff5bb1 case 11 => 0x895cd7be
      case 12 => 0x6b901122 case 13 => 0xfd987193 case 14 => 0xa679438e case _ => 0x49b40821
    )
    else if i < 32 then (
      match i
      case 16 => 0xf61e2562 case 17 => 0xc040b340 case 18 => 0x265e5a51 case 19 => 0xe9b6c7aa
      case 20 => 0xd62f105d case 21 => 0x02441453 case 22 => 0xd8a1e681 case 23 => 0xe7d3fbc8
      case 24 => 0x21e1cde6 case 25 => 0xc33707d6 case 26 => 0xf4d50d87 case 27 => 0x455a14ed
      case 28 => 0xa9e3e905 case 29 => 0xfcefa3f8 case 30 => 0x676f02d9 case _ => 0x8d2a4c8a
    )
    else if i < 48 then (
      match i
      case 32 => 0xfffa3942 case 33 => 0x8771f681 case 34 => 0x6d9d6122 case 35 => 0xfde5380c
      case 36 => 0xa4beea44 case 37 => 0x4bdecfa9 case 38 => 0xf6bb4b60 case 39 => 0xbebfbc70
      case 40 => 0x289b7ec6 case 41 => 0xeaa127fa case 42 => 0xd4ef3085 case 43 => 0x04881d05
      case 44 => 0xd9d4d039 case 45 => 0xe6db99e5 case 46 => 0x1fa27cf8 case _ => 0xc4ac5665
    )
    else (
      match i
      case 48 => 0xf4292244 case 49 => 0x432aff97 case 50 => 0xab9423a7 case 51 => 0xfc93a039
      case 52 => 0x655b59c3 case 53 => 0x8f0ccc92 case 54 => 0xffeff47d case 55 => 0x85845dd1
      case 56 => 0x6fa87e4f case 57 => 0xfe2ce6e0 case 58 => 0xa3014314 case 59 => 0x4e0811a1
      case 60 => 0xf7537e82 case 61 => 0xbd3af235 case 62 => 0x2ad7d2bb case _ => 0xeb86d391
    )
  }

  /** Operation [abcd k s i]: a = b + ((a + Aux(b,c,d) + X[k] + T[i]) <<< s). The registers are
      renamed after each operation, so that the one to be replaced is always called a. */
  function Operation(i: nat, r: Regs, x: seq<word>): Regs
    requires i < 64 && |x| == 16
  {
    Regs(r.d, Plus(r.b, Rotl(Plus(r.a, Plus(Plus(Aux(i, r.b, r.c, r.d), x[K(i)]), T(i))), Shift(i))), r.b, r.c)
  }

  function Operations(n: nat, r: Regs, x: seq<word>): Regs
    requires n <= 64 && |x| == 16
  {
    if n == 0 then r else Operation(n - 1, Operations(n - 1, r, x), x)
  }

  function Words(block: seq<octet>): (x: seq<word>)
    requires |block| == 64
    ensures |x| == 16 && forall n :: 0 <= n < 16 ==> x[n] == Word(block, n)
  {
    seq(16, n requires 0 <= n < 16 => Word(block, n))
  }

  function Compress(r: Regs, block: seq<octet>): Regs
    requires |block| == 64
  {
    var q := Operations(64, r, Words(block));
    Regs(Plus(r.a, q.a), Plus(r.b, q.b), Plus(r.c, q.c), Plus(r.d, q.d))
  }

  function Process(r: Regs, s: seq<octet>): Regs
    requires |s| % 64 == 0
    decreases |s|
  {
    if s == [] then r else Process(Compress(r, s[..64]), s[64..])
  }

  // ---- Sections 3.1 to 3.3: padding, length, initial registers -------------------------

  const INIT := Regs(0x67452301, 0xefcdab89, 0x98badcfe, 0x10325476)

  /** How many zero bytes follow the 0x80 byte so that the length is 56 modulo 64. */
  function ZeroCount(n: nat): (k: nat)
    ensures (n + 1 + k + 8) % 64 == 0 && k < 64
  {
    (119 - n % 64) % 64
  }

  function Byte(n: nat): octet
    requires n < 256
  {
    n as octet
  }

  function ByteOf(n: nat): octet { Byte(n % 256) }

  function Zeros(n: nat): (z: seq<octet>)
    ensures |z| == n && forall i :: 0 <= i < n ==> z[i] == 0
  {
    seq(n, _ => 0)
  }

  /** The low-order 64 bits of the bit count, low-order byte first. */
  function LengthBytes(bits: nat): (z: seq<octet>)
    ensures |z| == 8
  {
    [ByteOf(bits), ByteOf(bits / 0x100), ByteOf(bits / 0x1_0000), ByteOf(bits / 0x100_0000),
     ByteOf(bits / 0x1_0000_0000), ByteOf(bits / 0x100_0000_0000), ByteOf(bits / 0x1_0000_0000_0000),
     ByteOf(bits / 0x100_0000_0000_0000)]
  }

  /** The number with these digits to the base 256, low-order digit first. */
  function Number(d: seq<nat>): nat {
    if d == [] then 0 else d[0] + 0x100 * Number(d[1..])
  }

  function Pow256(k: nat): nat { if k == 0 then 1 else 0x100 * Pow256(k - 1) }

  /** The k low-order digits of n. */
  function Digits(n: nat, k: nat): (d: seq<nat>)
    ensures |d| == k && forall i :: 0 <= i < k ==> d[i] < 0x100
  {
    if k == 0 then [] else [n % 0x100] + Digits(n / 0x100, k - 1)
  }

  lemma {:induction false} DigitsNumber(n: nat, k: nat)
    ensures Pow256(k) > 0 && Number(Digits(n, k)) == n % Pow256(k)
  {
    if k > 0 {
      var d := Digits(n / 0x100, k - 1);
      DigitsNumber(n / 0x100, k - 1);
      assert ([n % 0x100] + d)[1..] == d;
      hide Number;
      NumberFirst(n % 0x100, d);
      SplitOff(n, Pow256(k - 1));
    }
  }

  lemma NumberFirst(r: nat, d: seq<nat>)
    ensures Number([r] + d) == r + 0x100 * Number(d)
  {
    assert ([r] + d)[1..] == d;
  }

  lemma SplitOff(n: nat, m: nat)
    requires m > 0
    ensures 0x100 * m > 0 && n % (0x100 * m) == n % 0x100 + 0x100 * (n / 0x100 % m)
  {
    var q, r := n / 0x100, n % 0x100;
    var t, u := q / m, q % m;
    assert n == 0x100 * (t * m + u) + r;
    assert 0x100 * (t * m) == t * (0x100 * m);
    DivMod(t, 0x100 * u + r, 0x100 * m);
  }

  /** The eight length bytes are the digits of the bit count modulo 2^64. */
  lemma LengthIsNumber(bits: nat) returns (d: seq<nat>)
    ensures |d| == 8 && Number(d) == bits % 0x1_0000_0000_0000_0000
    ensures forall i :: 0 <= i < 8 ==> d[i] < 0x100 && LengthBytes(bits)[i] == d[i] as octet
  {
    hide Number;
    d := Digits(bits, 8);
    DigitsNumber(bits, 8);
    EightBytes();
    LengthIsDigits(bits);
    hide LengthBytes, Byte;
    forall i | 0 <= i < 8 ensures LengthBytes(bits)[i] == d[i] as octet { ByteIs(d[i]); }
  }

  lemma ByteIs(n: nat)
    requires n < 0x100
    ensures Byte(n) == n as octet
  {}

  lemma EightBytes()
    ensures Pow256(8) == 0x1_0000_0000_0000_0000
  {
    assert Pow256(4) == 0x1_0000_0000;
  }

  lemma LengthIsDigits(bits: nat)
    ensures forall i :: 0 <= i < 8 ==> LengthBytes(bits)[i] == Byte(Digits(bits, 8)[i])
  {
    var top := bits / 0x1_0000_0000;
    FourDigits(bits, 8);
    FourDigits(top, 4);
    Quotients(bits, top);
    hide Byte, Digits;
    assert Digits(bits, 8)[4..] == Digits(top, 4);
    assert Digits(top, 4)[..4] == Digits(top, 4);
  }

  lemma FourDigits(n: nat, k: nat)
    requires k >= 4
    ensures Digits(n, k) == [n % 0x100, n / 0x100 % 0x100, n / 0x1_0000 % 0x100, n / 0x100_0000 % 0x100]
                            + Digits(n / 0x1_0000_0000, k - 4)
  {
    hide Digits;
    DigitsFirst(n, k);
    DigitsFirst(n / 0x100, k - 1);
    DigitsFirst(n / 0x100 / 0x100, k - 2);
    DigitsFirst(n / 0x100 / 0x100 / 0x100, k - 3);
    Nested(n);
  }

  lemma Nested(n: nat)
    ensures n / 0x100 / 0x100 == n / 0x1_0000
    ensures n / 0x100 / 0x100 / 0x100 == n / 0x100_0000
    ensures n / 0x100 / 0x100 / 0x100 / 0x100 == n / 0x1_0000_0000
  {}

  lemma DigitsFirst(n: nat, k: nat)
    requires k > 0
    ensures Digits(n, k) == [n % 0x100] + Digits(n / 0x100, k - 1)
  {}

  lemma Quotients(n: nat, top: nat)
    requires top == n / 0x1_0000_0000
    ensures top / 0x100 == n / 0x100_0000_0000 && top / 0x1_0000 == n / 0x1_0000_0000_0000
    ensures top / 0x100_0000 == n / 0x100_0000_0000_0000
  {}

  function Pad(msg: seq<octet>): (s: seq<octet>)
    ensures |s| % 64 == 0
  {
    hide ZeroCount, LengthBytes;
    msg + [0x80] + Zeros(ZeroCount(|msg|)) + LengthBytes(8 * |msg|)
  }

  // ---- Section 3.5: output ----------------------------------------------------------------

  function WordBytes(w: word): (s: seq<octet>)
    ensures |s| == 4
  {
    [(w & 0xff) as octet, ((w >> 8) & 0xff) as octet, ((w >> 16) & 0xff) as octet, ((w >> 24) & 0xff) as octet]
  }

  function Output(r: Regs): (s: seq<octet>)
    ensures |s| == 16
  {
    WordBytes(r.a) + WordBytes(r.b) + WordBytes(r.c) + WordBytes(r.d)
  }

  function Digest(msg: seq<octet>): seq<octet> { Output(Process(INIT, Pad(msg))) }

  // ---- Facts about processing ---------------------------------------------------------------

  lemma {:induction false} ProcessAppend(r: Regs, s: seq<octet>, t: seq<octet>)
    requires |s| % 64 == 0 && |t| % 64 == 0
    ensures Process(r, s + t) == Process(Process(r, s), t)
    decreases |s|
  {
    hide Compress;
    if s == [] {
      assert s + t == t;
    } else {
      assert (s + t)[..64] == s[..64] && (s + t)[64..] == s[64..] + t;
      ProcessAppend(Compress(r, s[..64]), s[64..], t);
    }
  }

  lemma ProcessOne(r: Regs, block: seq<octet>)
    requires |block| == 64
    ensures Process(r, block) == Compress(r, block)
  {
    hide Compress;
    assert block[..64] == block && block[64..] == [];
  }

  /** The part of a message that fills whole blocks, and the rest. */
  function Whole(msg: seq<octet>): (s: seq<octet>)
    ensures |s| % 64 == 0 && |msg| - 64 < |s| <= |msg|
  {
    msg[..|msg| - |msg| % 64]
  }

  function Rest(msg: seq<octet>): (s: seq<octet>)
    ensures |s| == |msg| % 64
  {
    msg[|msg| - |msg| % 64..]
  }

  lemma SplitShort(msg: seq<octet>, x: seq<octet>)
    requires |msg| % 64 + |x| < 64
    ensures Whole(msg + x) == Whole(msg) && Rest(msg + x) == Rest(msg) + x
  {
    var k := |msg| - |msg| % 64;
    assert |msg + x| - |msg + x| % 64 == k;
    assert (msg + x)[..k] == msg[..k];
    assert (msg + x)[k..] == msg[k..] + x;
  }

  lemma SplitFill(msg: seq<octet>, x: seq<octet>)
    requires |msg| % 64 + |x| == 64
    ensures |msg + x| % 64 == 0
    ensures Whole(msg + x) == Whole(msg) + (Rest(msg) + x) && Rest(msg + x) == []
  {
    assert |msg + x| == |msg| - |msg| % 64 + 64;
    assert (msg + x)[..|msg + x|] == Whole(msg) + (Rest(msg) + x);
  }

  lemma SplitBlocks(msg: seq<octet>, x: seq<octet>)
    requires |msg| % 64 == 0 && |x| % 64 == 0
    ensures |msg + x| % 64 == 0
    ensures Whole(msg + x) == Whole(msg) + x && Rest(msg + x) == []
  {
    assert (msg + x)[..|msg + x|] == Whole(msg) + x;
  }

  /** Padding touches only the rest of a message. */
  lemma PadRest(msg: seq<octet>)
    ensures var tail := Rest(msg) + [0x80] + Zeros(ZeroCount(|msg|)) + LengthBytes(8 * |msg|);
            |tail| % 64 == 0 && Pad(msg) == Whole(msg) + tail
  {
    hide ZeroCount, LengthBytes, Zeros;
    var tail := Rest(msg) + [0x80] + Zeros(ZeroCount(|msg|)) + LengthBytes(8 * |msg|);
    assert msg == Whole(msg) + Rest(msg);
    assert Pad(msg) == Whole(msg) + tail;
  }
}
