/** The base32 form in which an identity key is shown and typed back (RFC 4648, section 6). */
module Base32 {
  import opened Common

  const KEY_BYTES := 64
  const TEXT_CHARS := 104  // VAULT_IDENTITY_KEY_BASE32_LEN

  // ---- The alphabet -----------------------------------------------------------------------------

  type Digit = d: int | 0 <= d < 32

  function CharOf(d: Digit): char { if d < 26 then ('A' as int + d) as char else ('2' as int + (d - 26)) as char }

  /** charval: -1 for a character outside the alphabet. */
  function CharVal(c: char): int {
    if 'A' <= c <= 'Z' then c as int - 'A' as int
    else if '2' <= c <= '7' then c as int - '2' as int + 26
    else -1
  }

  lemma AlphabetRoundTrip(d: Digit, c: char)
    ensures CharVal(CharOf(d)) == d && CharOf(d) != '='
    ensures 0 <= CharVal(c) ==> CharVal(c) < 32 && CharOf(CharVal(c)) == c
  {}

  // ---- One group: 40 bits ---------------------------------------------------------------------------

  /** 32^k. */
  function P32(k: nat): nat
    requires k <= 8
  {
    if k == 0 then 1 else if k == 1 then 0x20 else if k == 2 then 0x400 else if k == 3 then 0x8000
    else if k == 4 then 0x10_0000 else if k == 5 then 0x200_0000 else if k == 6 then 0x4000_0000
    else if k == 7 then 0x8_0000_0000 else 0x100_0000_0000
  }

  /** 256^k. */
  function P256(k: nat): nat
    requires k <= 5
  {
    if k == 0 then 1 else if k == 1 then 0x100 else if k == 2 then 0x1_0000
    else if k == 3 then 0x100_0000 else if k == 4 then 0x1_0000_0000 else 0x100_0000_0000
  }

  /** Digit c (0 is the highest) of a 40-bit value: (buf >> (35 - 5c)) & 0x1F. */
  function DigitAt(v: nat, c: nat): Digit
    requires c < 8
  {
    v / P32(7 - c) % 32
  }

  /** Byte i (0 is the highest) of a 40-bit value: (buf >> (32 - 8i)) & 0xFF. */
  function ByteAt(v: nat, i: nat): byte
    requires i < 5
  {
    v / P256(4 - i) % 256
  }

  function OrZero(b: seq<byte>, i: nat): byte { if i < |b| then b[i] else 0 }

  /** The first n of five bytes as one value, missing bytes being zero. */
  function ValueTo(b: seq<byte>, n: nat): nat { if n == 0 then 0 else ValueTo(b, n - 1) * 256 + OrZero(b, n - 1) }

  function Value(b: seq<byte>): nat { ValueTo(b, 5) }

  lemma {:induction false} ValueTop(b: seq<byte>, n: nat)
    requires n <= 5
    ensures ValueTo(b, n) < P256(n)
    ensures Value(b) / P256(5 - n) == ValueTo(b, n)
    decreases 5 - n
  {
    ValueToBound(b, n);
    if n < 5 {
      ValueTop(b, n + 1);
      DivDiv256(Value(b), 4 - n);
    }
  }

  lemma {:induction false} ValueToBound(b: seq<byte>, n: nat)
    requires n <= 5
    ensures ValueTo(b, n) < P256(n)
  {
    if n > 0 { ValueToBound(b, n - 1); }
  }

  lemma DivDiv256(v: nat, k: nat)
    requires k < 5
    ensures v / P256(k) / 256 == v / P256(k + 1)
  {}

  lemma ValueBound(b: seq<byte>)
    ensures Value(b) < P32(8)
  {
    ValueToBound(b, 5);
  }

  /** The bytes of a group come back from its value. */
  lemma ValueByte(b: seq<byte>, i: nat)
    requires i < 5
    ensures ByteAt(Value(b), i) == OrZero(b, i)
  {
    ValueTop(b, i + 1);
  }

  lemma DivDiv(v: nat, k: nat)
    requires k < 8
    ensures v / P32(k) / 32 == v / P32(k + 1)
  {}

  /** One more digit of a value read from the top. */
  lemma DigitStep(v: nat, c: nat)
    requires c < 8
    ensures v / P32(8 - c) * 32 + DigitAt(v, c) == v / P32(7 - c)
  {
    DivDiv(v, 7 - c);
  }

  /** A 40-bit value is determined by its five bytes. */
  lemma {:induction false} ValueOfBytes(v: nat, b: seq<byte>, n: nat)
    requires v < P32(8) && n <= 5 && forall i :: 0 <= i < n ==> OrZero(b, i) == ByteAt(v, i)
    ensures ValueTo(b, n) == v / P256(5 - n)
  {
    if n > 0 {
      ValueOfBytes(v, b, n - 1);
      DivDiv256(v, 5 - n);
    }
  }

  // ---- Encoding ------------------------------------------------------------------------------------------

  /** The first n characters of a group. */
  function GroupChars(v: nat, n: nat): (s: string)
    requires n <= 8
    ensures |s| == n && forall c :: 0 <= c < n ==> s[c] == CharOf(DigitAt(v, c))
  {
    seq(n, c requires 0 <= c < n => CharOf(DigitAt(v, c)))
  }

  function Padding(n: nat): (s: string)
    ensures |s| == n && forall i :: 0 <= i < n ==> s[i] == '='
  {
    seq(n, _ => '=')
  }

  /** Characters that carry a last group of 1 to 4 bytes. */
  function CharsForRem(rem: nat): (n: nat)
    requires 1 <= rem <= 4
    ensures n < 8
  {
    if rem == 1 then 2 else if rem == 2 then 4 else if rem == 3 then 5 else 7
  }

  function Encode(key: seq<byte>): string
    decreases |key|
  {
    if key == [] then ""
    else if |key| < 5 then GroupChars(Value(key), CharsForRem(|key|)) + Padding(8 - CharsForRem(|key|))
    else GroupChars(Value(key[..5]), 8) + Encode(key[5..])
  }

  // ---- The text, bit by bit (RFC 4648, sections 3 and 6) ----------------------------------------------------

  const ALPHABET := "ABCDEFGHIJKLMNOPQRSTUVWXYZ234567"

  lemma CharIs(d: Digit)
    ensures CharOf(d) == ALPHABET[d]
  {
    if d < 26 { assert ALPHABET[d] == ALPHABET[..26][d]; } else { assert ALPHABET[d] == ALPHABET[26..][d - 26]; }
  }

  /** Five-bit piece k of the 40 bits of five bytes, the first byte and its top bit first. */
  function Piece(a: byte, b: byte, c: byte, d: byte, e: byte, k: nat): Digit
    requires k < 8
  {
    match k
    case 0 => a / 8
    case 1 => a % 8 * 4 + b / 64
    case 2 => b / 2 % 32
    case 3 => b % 2 * 16 + c / 16
    case 4 => c % 16 * 2 + d / 128
    case 5 => d / 4 % 32
    case 6 => d % 4 * 8 + e / 32
    case _ => e % 32
  }

  /** A value cut at one of its bits: the piece from there up is the quotient. */
  lemma Cut(v: nat, k: nat, hi: nat, lo: nat)
    requires k < 8 && v == hi * P32(7 - k) + lo && lo < P32(7 - k)
    ensures DigitAt(v, k) == hi % 32
  {
    DivMod(hi, lo, P32(7 - k));
  }

  lemma Mod32(q: nat, r: nat, hi: nat)
    requires hi == 32 * q + r && r < 32
    ensures hi % 32 == r
  {}

  function FiveBytes(a: byte, b: byte, c: byte, d: byte, e: byte): nat {
    (((a as int * 256 + b) * 256 + c) * 256 + d) * 256 + e
  }

  lemma PieceIs(a: byte, b: byte, c: byte, d: byte, e: byte, k: nat)
    requires k < 8
    ensures DigitAt(FiveBytes(a, b, c, d, e), k) == Piece(a, b, c, d, e, k)
  {
    match k
    case 0 => Piece0(a, b, c, d, e);
    case 1 => Piece1(a, b, c, d, e);
    case 2 => Piece2(a, b, c, d, e);
    case 3 => Piece3(a, b, c, d, e);
    case 4 => Piece4(a, b, c, d, e);
    case 5 => Piece5(a, b, c, d, e);
    case 6 => Piece6(a, b, c, d, e);
    case _ => Piece7(a, b, c, d, e);
  }

  lemma Piece0(a: byte, b: byte, c: byte, d: byte, e: byte)
    ensures DigitAt(FiveBytes(a, b, c, d, e), 0) == a / 8
  {
    hide DigitAt;
    var hi := a as int / 8;
    assert a == a / 8 * 8 + a % 8;
    var lo := a as int % 8 * 0x1_0000_0000 + b as int * 0x100_0000 + c as int * 0x1_0000 + d as int * 256 + e;
    assert FiveBytes(a, b, c, d, e) == hi * 0x8_0000_0000 + lo;
    Cut(FiveBytes(a, b, c, d, e), 0, hi, lo);
    Mod32(0, a / 8, hi);
  }

  lemma Piece1(a: byte, b: byte, c: byte, d: byte, e: byte)
    ensures DigitAt(FiveBytes(a, b, c, d, e), 1) == a % 8 * 4 + b / 64
  {
    hide DigitAt;
    var hi := a as int * 4 + b / 64;
    assert b == b / 64 * 64 + b % 64;
    var lo := b as int % 64 * 0x100_0000 + c as int * 0x1_0000 + d as int * 256 + e;
    assert FiveBytes(a, b, c, d, e) == hi * 0x4000_0000 + lo;
    Cut(FiveBytes(a, b, c, d, e), 1, hi, lo);
    Mod32(a / 8, a % 8 * 4 + b / 64, hi);
  }

  lemma Piece2(a: byte, b: byte, c: byte, d: byte, e: byte)
    ensures DigitAt(FiveBytes(a, b, c, d, e), 2) == b / 2 % 32
  {
    hide DigitAt;
    var t := b / 2;
    var hi := a as int * 128 + t;
    assert b == t * 2 + b % 2;
    var lo := b as int % 2 * 0x100_0000 + c as int * 0x1_0000 + d as int * 256 + e;
    assert FiveBytes(a, b, c, d, e) == hi * 0x200_0000 + lo;
    Cut(FiveBytes(a, b, c, d, e), 2, hi, lo);
    Mod32(a as int * 4 + t / 32, t % 32, hi);
  }

  lemma Piece3(a: byte, b: byte, c: byte, d: byte, e: byte)
    ensures DigitAt(FiveBytes(a, b, c, d, e), 3) == b % 2 * 16 + c / 16
  {
    hide DigitAt;
    var hi := a as int * 4096 + b as int * 16 + c / 16;
    assert c == c / 16 * 16 + c % 16;
    var lo := c as int % 16 * 0x1_0000 + d as int * 256 + e;
    assert FiveBytes(a, b, c, d, e) == hi * 0x10_0000 + lo;
    Cut(FiveBytes(a, b, c, d, e), 3, hi, lo);
    Mod32(a as int * 128 + b / 2, b % 2 * 16 + c / 16, hi);
  }

  lemma Piece4(a: byte, b: byte, c: byte, d: byte, e: byte)
    ensures DigitAt(FiveBytes(a, b, c, d, e), 4) == c % 16 * 2 + d / 128
  {
    hide DigitAt;
    var hi := a as int * 0x2_0000 + b as int * 512 + c as int * 2 + d / 128;
    assert d == d / 128 * 128 + d % 128;
    var lo := d as int % 128 * 256 + e;
    assert FiveBytes(a, b, c, d, e) == hi * 0x8000 + lo;
    Cut(FiveBytes(a, b, c, d, e), 4, hi, lo);
    Mod32(a as int * 4096 + b as int * 16 + c / 16, c % 16 * 2 + d / 128, hi);
  }

  lemma Piece5(a: byte, b: byte, c: byte, d: byte, e: byte)
    ensures DigitAt(FiveBytes(a, b, c, d, e), 5) == d / 4 % 32
  {
    hide DigitAt;
    var hi := a as int * 0x40_0000 + b as int * 0x4000 + c as int * 64 + d / 4;
    assert d == d / 4 * 4 + d % 4;
    var lo := d as int % 4 * 256 + e;
    assert FiveBytes(a, b, c, d, e) == hi * 0x400 + lo;
    Cut(FiveBytes(a, b, c, d, e), 5, hi, lo);
    Mod32(a as int * 0x2_0000 + b as int * 512 + c as int * 2 + d / 128, d / 4 % 32, hi);
  }

  lemma Piece6(a: byte, b: byte, c: byte, d: byte, e: byte)
    ensures DigitAt(FiveBytes(a, b, c, d, e), 6) == d % 4 * 8 + e / 32
  {
    hide DigitAt;
    var hi := a as int * 0x800_0000 + b as int * 0x8_0000 + c as int * 2048 + d as int * 8 + e / 32;
    assert e == e / 32 * 32 + e % 32;
    var lo := e % 32;
    assert FiveBytes(a, b, c, d, e) == hi * 0x20 + lo;
    Cut(FiveBytes(a, b, c, d, e), 6, hi, lo);
    Mod32(a as int * 0x40_0000 + b as int * 0x4000 + c as int * 64 + d / 4, d % 4 * 8 + e / 32, hi);
  }

  lemma Piece7(a: byte, b: byte, c: byte, d: byte, e: byte)
    ensures DigitAt(FiveBytes(a, b, c, d, e), 7) == e % 32
  {
    hide DigitAt;
    var hi := FiveBytes(a, b, c, d, e);
    var lo := 0;
    assert FiveBytes(a, b, c, d, e) == hi * 1 + lo;
    Cut(FiveBytes(a, b, c, d, e), 7, hi, lo);
    Mod32(a as int * 0x800_0000 + b as int * 0x8_0000 + c as int * 2048 + d as int * 8 + e / 32, e % 32, hi);
  }

  lemma ValueIs(b: seq<byte>)
    ensures Value(b) == FiveBytes(OrZero(b, 0), OrZero(b, 1), OrZero(b, 2), OrZero(b, 3), OrZero(b, 4))
  {
    hide OrZero;
    assert ValueTo(b, 1) == OrZero(b, 0);
    assert ValueTo(b, 2) == OrZero(b, 0) as int * 256 + OrZero(b, 1);
    assert ValueTo(b, 4) == (ValueTo(b, 2) * 256 + OrZero(b, 2)) * 256 + OrZero(b, 3);
  }

  lemma GroupText(b: seq<byte>, n: nat, k: nat)
    requires k < n <= 8
    ensures GroupChars(Value(b), n)[k]
         == ALPHABET[Piece(OrZero(b, 0), OrZero(b, 1), OrZero(b, 2), OrZero(b, 3), OrZero(b, 4), k)]
  {
    hide OrZero, Piece, DigitAt, CharOf, Value;
    ValueIs(b);
    PieceIs(OrZero(b, 0), OrZero(b, 1), OrZero(b, 2), OrZero(b, 3), OrZero(b, 4), k);
    CharIs(DigitAt(Value(b), k));
  }

  /** Character k of group g of the text of a key of any length: the letter of the alphabet for five of the
      key's bits if there is any bit left for it, else padding. */
  lemma {:induction false} TextOf(key: seq<byte>, g: nat, k: nat)
    requires 5 * g < |key| && k < 8
    ensures 8 * g + k < |Encode(key)|
    ensures Encode(key)[8 * g + k]
         == if 5 * k >= 8 * (|key| - 5 * g) then '='
            else ALPHABET[Piece(key[5 * g], OrZero(key, 5 * g + 1), OrZero(key, 5 * g + 2),
                                OrZero(key, 5 * g + 3), OrZero(key, 5 * g + 4), k)]
  {
    hide Piece, Value, GroupChars, OrZero, CharsForRem, Padding;
    if |key| < 5 {
      LastText(key, k);
    } else if g == 0 {
      FirstFive(key);
      EncodeSplit(key);
      hide Encode;
      GroupText(key[..5], 8, k);
    } else {
      TextOf(key[5..], g - 1, k);
      assert key[5..][5 * (g - 1)] == key[5 * g];
      EncodeSplit(key);
      hide Encode;
      CharBehind(GroupChars(Value(key[..5]), 8), Encode(key[5..]), 8 * (g - 1) + k);
      OrZeroShift(key, 5 * g - 4);
      OrZeroShift(key, 5 * g - 3);
      OrZeroShift(key, 5 * g - 2);
      OrZeroShift(key, 5 * g - 1);
    }
  }

  lemma EncodeSplit(key: seq<byte>)
    requires |key| >= 5
    ensures Encode(key) == GroupChars(Value(key[..5]), 8) + Encode(key[5..])
  {
    hide GroupChars, Value;
  }

  lemma CharBehind(head: string, tail: string, i: nat)
    requires i < |tail| && |head| == 8
    ensures (head + tail)[i + 8] == tail[i]
  {}

  lemma LastText(key: seq<byte>, k: nat)
    requires 1 <= |key| < 5 && k < 8
    ensures |Encode(key)| == 8
    ensures Encode(key)[k]
         == if 5 * k >= 8 * |key| then '='
            else ALPHABET[Piece(key[0], OrZero(key, 1), OrZero(key, 2), OrZero(key, 3), OrZero(key, 4), k)]
  {
    hide Piece, Value;
    var n := CharsForRem(|key|);
    assert k < n <==> 5 * k < 8 * |key|;
    if k < n { GroupText(key, n, k); }
  }

  lemma OrZeroShift(key: seq<byte>, i: nat)
    requires |key| >= 5
    ensures OrZero(key[5..], i) == OrZero(key, i + 5)
  {}

  lemma FirstFive(key: seq<byte>)
    requires |key| >= 5
    ensures OrZero(key[..5], 0) == key[0] && forall i :: 0 <= i < 5 ==> OrZero(key[..5], i) == OrZero(key, i)
  {}

  lemma {:induction false} TextLength(key: seq<byte>)
    ensures |Encode(key)| == 8 * ((|key| + 4) / 5)
  {
    hide GroupChars, Value;
    if |key| >= 5 { TextLength(key[5..]); }
  }

  // ---- Strict decoding ----------------------------------------------------------------------------------------

  /** The value of n alphabet characters, or None. */
  function ParseDigits(s: string, n: nat): Option<nat>
    requires n <= |s|
  {
    if n == 0 then Some(0)
    else
      var hi := ParseDigits(s, n - 1);
      if hi.Some? && CharVal(s[n - 1]) >= 0 then Some(hi.value * 32 + CharVal(s[n - 1])) else None
  }

  function Bytes(v: nat, n: nat): (b: seq<byte>)
    requires n <= 5
    ensures |b| == n && forall i :: 0 <= i < n ==> b[i] == ByteAt(v, i)
  {
    seq(n, i requires 0 <= i < n => ByteAt(v, i))
  }

  /** Group g of the text: 5 bytes from 8 characters, or in the last group 4 bytes from 7 and one '='. */
  function ParseGroup(group: string, last: bool): (r: Option<seq<byte>>)
    requires |group| == 8
    ensures r.Some? ==> |r.value| == (if last then 4 else 5)
  {
    if last then
      var v := ParseDigits(group, 7);
      if group[7] == '=' && v.Some? then Some(Bytes(v.value * 32, 4)) else None
    else
      var v := ParseDigits(group, 8);
      if v.Some? then Some(Bytes(v.value, 5)) else None
  }

  /** Groups 0 to g-1 of a 104-character text. */
  function ParseGroups(s: string, g: nat): (r: Option<seq<byte>>)
    requires |s| == TEXT_CHARS && g <= 13
    ensures r.Some? ==> |r.value| == (if g == 13 then KEY_BYTES else 5 * g)
  {
    if g == 0 then Some([])
    else
      var init := ParseGroups(s, g - 1);
      var next := ParseGroup(s[8 * (g - 1)..8 * g], g == 13);
      if init.Some? && next.Some? then Some(init.value + next.value) else None
  }

  function Decode(s: string): (r: Option<seq<byte>>)
    ensures r.Some? ==> |r.value| == KEY_BYTES
  {
    if |s| != TEXT_CHARS then None else ParseGroups(s, 13)
  }

  // ---- The program ------------------------------------------------------------------------------------------------

  /** identity_key_to_base32. */
  method KeyToBase32(key: seq<byte>) returns (out: string)
    ensures out == Encode(key)
  {
    hide GroupChars, Value, Padding, Encode, CharsForRem;
    out := "";
    var i := 0;
    assert key[0..] == key;
    while i + 5 <= |key|
      invariant 0 <= i <= |key| && out + Encode(key[i..]) == Encode(key)
    {
      var group := EmitGroup(key[i..i + 5], 8);
      EncodeNext(key, i);
      assert out + (group + Encode(key[i + 5..])) == out + group + Encode(key[i + 5..]);
      out := out + group;
      i := i + 5;
    }
    var rem := |key| - i;
    EncodeEnd(key[i..]);
    if rem > 0 {
      var nchars := CharsForRem(rem);
      var group := EmitGroup(key[i..], nchars);
      assert out + (group + Padding(8 - nchars)) == out + group + Padding(8 - nchars);
      out := out + group + Padding(8 - nchars);
    }
  }

  lemma EncodeNext(key: seq<byte>, i: nat)
    requires i + 5 <= |key|
    ensures Encode(key[i..]) == GroupChars(Value(key[i..i + 5]), 8) + Encode(key[i + 5..])
  {
    hide GroupChars, Value;
    assert key[i..][..5] == key[i..i + 5] && key[i..][5..] == key[i + 5..];
  }

  lemma EncodeEnd(tail: seq<byte>)
    requires |tail| < 5
    ensures tail == [] ==> Encode(tail) == ""
    ensures tail != [] ==>
      Encode(tail) == GroupChars(Value(tail), CharsForRem(|tail|)) + Padding(8 - CharsForRem(|tail|))
  {
    hide GroupChars, Value, Padding, CharsForRem;
  }

  /** The character loop of one group. */
  method EmitGroup(b: seq<byte>, n: nat) returns (s: string)
    requires 1 <= |b| <= 5 && n <= 8
    ensures s == GroupChars(Value(b), n)
  {
    hide DigitAt, CharOf, Value;
    var buf := Value(b);
    s := "";
    for c := 0 to n
      invariant s == GroupChars(buf, c)
    {
      s := s + [CharOf(DigitAt(buf, c))];
    }
  }

  /** identity_key_from_base32: out holds the key when the result is true. */
  method KeyFromBase32(b32: string, out: array<byte>) returns (ok: bool)
    requires out.Length == KEY_BYTES
    modifies out
    ensures ok == Decode(b32).Some?
    ensures ok ==> out[..] == Decode(b32).value
  {
    hide ParseGroup;
    if |b32| != TEXT_CHARS { return false; }
    var outPos := 0;
    for g := 0 to 13
      invariant outPos == (if g == 13 then KEY_BYTES else 5 * g)
      invariant ParseGroups(b32, g).Some? && out[..outPos] == ParseGroups(b32, g).value
    {
      var group := ReadGroup(b32[8 * g..8 * (g + 1)], g == 12);
      if group.None? {
        NoneStays(b32, g + 1);
        return false;
      }
      forall i | 0 <= i < |group.value| { out[outPos + i] := group.value[i]; }
      outPos := outPos + |group.value|;
    }
    ok := outPos == KEY_BYTES;
  }

  lemma {:induction false} NoneStays(s: string, g: nat)
    requires |s| == TEXT_CHARS && g <= 13 && ParseGroups(s, g) == None
    ensures Decode(s) == None
    decreases 13 - g
  {
    if g < 13 { NoneStays(s, g + 1); }
  }

  /** One turn of the decoder's loop over groups. */
  method ReadGroup(group: string, last: bool) returns (r: Option<seq<byte>>)
    requires |group| == 8
    ensures r == ParseGroup(group, last)
    ensures r.Some? ==> |r.value| == (if last then 4 else 5)
  {
    hide CharVal, ByteAt;
    var nchars := if last then 7 else 8;
    var nbytes := if last then 4 else 5;
    for i := nchars to 8
      invariant nchars == 7 && i == 8 ==> group[7] == '='
    {
      if group[i] != '=' { return None; }
    }
    var buf := 0;
    for i := 0 to nchars
      invariant ParseDigits(group, i) == Some(buf)
    {
      var v := CharVal(group[i]);
      if v < 0 {
        DigitsNone(group, i + 1, nchars);
        return None;
      }
      buf := buf * 32 + v;
    }
    if last { buf := buf * 32; }
    r := Some(Bytes(buf, nbytes));
  }

  lemma {:induction false} DigitsNone(s: string, n: nat, m: nat)
    requires n <= m <= |s| && ParseDigits(s, n) == None
    ensures ParseDigits(s, m) == None
  {
    if n < m { DigitsNone(s, n, m - 1); }
  }

  // ---- Round trips ------------------------------------------------------------------------------------------------

  /** Reading the first n characters of a group gives the top 5n bits of its value. */
  lemma {:induction false} ParseChars(v: nat, t: string, n: nat)
    requires v < P32(8) && n <= 8 && n <= |t| && forall c :: 0 <= c < n ==> t[c] == CharOf(DigitAt(v, c))
    ensures ParseDigits(t, n) == Some(v / P32(8 - n))
  {
    hide CharOf, CharVal, DigitAt;
    if n > 0 {
      ParseChars(v, t, n - 1);
      AlphabetRoundTrip(DigitAt(v, n - 1), t[n - 1]);
      DigitStep(v, n - 1);
    }
  }

  lemma {:induction false} ParseBound(t: string, n: nat)
    requires n <= 8 && n <= |t| && ParseDigits(t, n).Some?
    ensures ParseDigits(t, n).value < P32(n)
  {
    hide CharVal;
    if n > 0 {
      AlphabetRoundTrip(0, t[n - 1]);
      ParseBound(t, n - 1);
    }
  }

  /** Digit c of an n-digit value. */
  function NthOf(v: nat, n: nat, c: nat): Digit
    requires c < n <= 8
  {
    v / P32(n - 1 - c) % 32
  }

  /** Reading and writing characters are inverse from the other side too. */
  lemma {:induction false} CharsOfParse(t: string, n: nat)
    requires n <= 8 && n <= |t| && ParseDigits(t, n).Some?
    ensures forall c :: 0 <= c < n ==> t[c] == CharOf(NthOf(ParseDigits(t, n).value, n, c))
  {
    hide CharOf, CharVal, NthOf;
    if n > 0 {
      var d := CharVal(t[n - 1]);
      AlphabetRoundTrip(0, t[n - 1]);
      var hi := ParseDigits(t, n - 1).value;
      CharsOfParse(t, n - 1);
      LastDigit(hi, d, n);
      forall c | 0 <= c < n - 1 ensures t[c] == CharOf(NthOf(hi * 32 + d, n, c)) {
        NthOfMore(hi, d, n, c);
      }
    }
  }

  lemma LastDigit(hi: nat, d: Digit, n: nat)
    requires 1 <= n <= 8
    ensures NthOf(hi * 32 + d, n, n - 1) == d
  {}

  lemma NthOfMore(hi: nat, d: Digit, n: nat, c: nat)
    requires c < n - 1 && n <= 8
    ensures NthOf(hi * 32 + d, n, c) == NthOf(hi, n - 1, c)
  {
    DropDigit(hi, d, n - 2 - c);
  }

  lemma DropDigit(hi: nat, d: Digit, k: nat)
    requires k < 8
    ensures (hi * 32 + d) / P32(k + 1) == hi / P32(k)
  {}

  /** The characters of group g of an encoded key. */
  lemma {:induction false} EncodeGroup(key: seq<byte>, g: nat)
    requires 5 * g + 5 <= |key|
    ensures 8 * g + 8 <= |Encode(key)| && Encode(key)[8 * g..8 * g + 8] == GroupChars(Value(key[5 * g..5 * g + 5]), 8)
  {
    hide Value, GroupChars;
    if g == 0 {
      assert key[0..5] == key[..5];
    } else {
      EncodeGroup(key[5..], g - 1);
      BytesBehind(key, 5 * (g - 1));
      var head := GroupChars(Value(key[..5]), 8);
      assert Encode(key) == head + Encode(key[5..]);
      hide Encode;
      Behind(head, Encode(key[5..]), 8 * (g - 1));
    }
  }

  lemma BytesBehind(key: seq<byte>, i: nat)
    requires i + 10 <= |key|
    ensures key[5..][i..i + 5] == key[i + 5..i + 10]
  {}

  lemma Behind(head: string, tail: string, i: nat)
    requires i + 8 <= |tail| && |head| == 8
    ensures (head + tail)[i + 8..i + 16] == tail[i..i + 8]
  {}

  lemma {:induction false} EncodeTail(key: seq<byte>, g: nat)
    requires 1 <= |key| - 5 * g <= 4
    ensures var n := CharsForRem(|key| - 5 * g);
            |Encode(key)| == 8 * g + 8 && Encode(key)[8 * g..] == GroupChars(Value(key[5 * g..]), n) + Padding(8 - n)
  {
    hide Value, GroupChars, Padding;
    if g == 0 {
      assert key[0..] == key;
    } else {
      EncodeTail(key[5..], g - 1);
      assert key[5..][5 * (g - 1)..] == key[5 * g..];
      var head := GroupChars(Value(key[..5]), 8);
      assert (head + Encode(key[5..]))[8 * g..] == Encode(key[5..])[8 * (g - 1)..];
    }
  }

  lemma ParseFullGroup(b: seq<byte>)
    requires |b| == 5
    ensures ParseGroup(GroupChars(Value(b), 8), false) == Some(b)
  {
    hide CharOf, DigitAt, ByteAt, Value;
    ValueBound(b);
    ParseChars(Value(b), GroupChars(Value(b), 8), 8);
    forall i | 0 <= i < 5 ensures Bytes(Value(b), 5)[i] == b[i] { ValueByte(b, i); }
    assert Bytes(Value(b), 5) == b;
  }

  /** Four bytes leave the low eight bits of the group's value clear. */
  lemma FourBytes(b: seq<byte>)
    requires |b| == 4
    ensures Value(b) / 32 * 32 == Value(b)
  {
    assert Value(b) == ValueTo(b, 4) * 256;
  }

  lemma ParseLastGroup(b: seq<byte>)
    requires |b| == 4
    ensures ParseGroup(GroupChars(Value(b), 7) + Padding(1), true) == Some(b)
  {
    hide CharOf, DigitAt, ByteAt, Value;
    ValueBound(b);
    FourBytes(b);
    ParseChars(Value(b), GroupChars(Value(b), 7) + Padding(1), 7);
    assert P32(1) == 32;
    forall i | 0 <= i < 4 ensures Bytes(Value(b), 4)[i] == b[i] { ValueByte(b, i); }
    assert Bytes(Value(b), 4) == b;
  }

  lemma {:induction false} ParseEncoded(key: seq<byte>, g: nat)
    requires |key| == KEY_BYTES && g <= 12
    ensures |Encode(key)| == TEXT_CHARS && ParseGroups(Encode(key), g) == Some(key[..5 * g])
  {
    hide ParseGroup, GroupChars, Value;
    EncodeTail(key, 12);
    if g > 0 {
      ParseEncoded(key, g - 1);
      EncodeGroup(key, g - 1);
      ParseFullGroup(key[5 * (g - 1)..5 * (g - 1) + 5]);
      assert key[..5 * g] == key[..5 * (g - 1)] + key[5 * (g - 1)..5 * (g - 1) + 5];
    }
  }

  /** Every 64-byte key is shown as 104 characters, which the strict decoder takes back to the key. */
  lemma RoundTrip(key: seq<byte>)
    requires |key| == KEY_BYTES
    ensures |Encode(key)| == TEXT_CHARS && Decode(Encode(key)) == Some(key)
  {
    hide ParseGroup, GroupChars, Value, Padding;
    ParseEncoded(key, 12);
    EncodeTail(key, 12);
    ParseLastGroup(key[60..]);
    assert Encode(key)[96..104] == Encode(key)[96..];
    assert key == key[..60] + key[60..];
  }

  /** A full group that parses is the encoding of its bytes. */
  lemma ReencodeFull(group: string, b: seq<byte>)
    requires |group| == 8 && ParseGroup(group, false) == Some(b)
    ensures |b| == 5 && GroupChars(Value(b), 8) == group
  {
    hide CharOf, Value, ByteAt;
    var v := ParseDigits(group, 8).value;
    ParseBound(group, 8);
    CharsOfParse(group, 8);
    forall c | 0 <= c < 8 ensures NthOf(v, 8, c) == DigitAt(v, c) {}
    ValueFromBytes(v, b, 5);
  }

  lemma ValueFromBytes(v: nat, b: seq<byte>, n: nat)
    requires v < P32(8) && n <= 5 && b == Bytes(v, n)
    ensures Value(b) == v / P256(5 - n) * P256(5 - n)
  {
    hide ByteAt;
    ValueOfBytes(v, b, n);
    ZerosAfter(b, n, 5);
  }

  lemma {:induction false} ZerosAfter(b: seq<byte>, n: nat, m: nat)
    requires |b| == n <= m <= 5
    ensures ValueTo(b, m) == ValueTo(b, n) * P256(m - n)
  {
    if n < m {
      ZerosAfter(b, n, m - 1);
      assert P256(m - n) == P256(m - 1 - n) * 256;
    }
  }

  /** The value of the last group's bytes: the seven characters' with the low three bits cleared. */
  lemma LastValue(group: string, b: seq<byte>) returns (hi: nat, d: Digit)
    requires |group| == 8 && ParseGroup(group, true) == Some(b)
    ensures |b| == 4 && group[7] == '=' && CharVal(group[6]) == d
    ensures ParseDigits(group, 7) == Some(hi * 32 + d)
    ensures Value(b) == 32 * (32 * hi + d / 8 * 8)
  {
    hide CharOf, Value, CharVal, Bytes;
    AlphabetRoundTrip(0, group[6]);
    d := CharVal(group[6]);
    hi := ParseDigits(group, 6).value;
    ParseBound(group, 7);
    hide ParseDigits, P32;
    LastBytes(hi * 32 + d, b);
    LowBitsCleared(hi, d);
  }

  /** Four bytes of the 35 bits that seven characters carry. */
  lemma LastBytes(v: nat, b: seq<byte>)
    requires v < P32(7) && b == Bytes(v * 32, 4)
    ensures Value(b) == v / 8 * 256
  {
    hide Value, Bytes;
    ValueFromBytes(v * 32, b, 4);
    ShiftedTop(v);
  }

  lemma ShiftedTop(v: nat)
    ensures v * 32 / 256 == v / 8
  {
    DivMod(v / 8, v % 8 * 32, 256);
    assert v * 32 == v / 8 * 256 + v % 8 * 32;
  }

  /** The last group that parses is the encoding of its bytes up to the low three bits of its
      seventh character, which the decoder ignores. */
  lemma ReencodeLast(group: string, b: seq<byte>)
    requires |group| == 8 && ParseGroup(group, true) == Some(b)
    ensures |b| == 4 && group[7] == '=' && 0 <= CharVal(group[6]) < 32
    ensures var t := GroupChars(Value(b), 7);
            && (forall c :: 0 <= c < 6 ==> t[c] == group[c])
            && t[6] == CharOf(CharVal(group[6]) / 8 * 8)
  {
    hide CharOf, Value, ParseGroup, CharVal, DigitAt, NthOf, ParseDigits;
    var hi, d := LastValue(group, b);
    CharsOfParse(group, 7);
    LowDigit(hi, d);
    forall c | 0 <= c < 6 ensures DigitAt(Value(b), c) == NthOf(hi * 32 + d, 7, c) {
      UpperDigits(hi, d, c);
      NthOfMore(hi, d, 7, c);
      NthOfSix(hi, c);
    }
  }

  lemma NthOfSix(hi: nat, c: nat)
    requires c < 6
    ensures NthOf(hi, 6, c) == hi / P32(5 - c) % 32
  {}

  lemma LowDigit(hi: nat, d: Digit)
    ensures DigitAt(32 * (32 * hi + d / 8 * 8), 6) == d / 8 * 8
  {
    LowBitsCleared(hi, d);
  }

  lemma LowBitsCleared(hi: nat, d: Digit)
    ensures (hi * 32 + d) / 8 * 256 == 32 * (32 * hi + d / 8 * 8)
    ensures 32 * (32 * hi + d / 8 * 8) / 32 % 32 == d / 8 * 8
  {
    var top := d / 8;
    DivMod(4 * hi + top, d % 8, 8);
    assert hi * 32 + d == (4 * hi + top) * 8 + d % 8;
    DivMod(32 * hi + top * 8, 0, 32);
    DivMod(hi, top * 8, 32);
  }

  lemma UpperDigits(hi: nat, d: Digit, c: nat)
    requires c < 6
    ensures DigitAt(32 * (32 * hi + d / 8 * 8), c) == hi / P32(5 - c) % 32
  {
    DropDigit(32 * hi + d / 8 * 8, 0, 6 - c);
    DropDigit(hi, d / 8 * 8, 5 - c);
  }

  /** Each group of an accepted text gave its bytes of the key. */
  lemma {:induction false} GroupOf(s: string, n: nat, g: nat)
    requires |s| == TEXT_CHARS && g < n <= 13 && ParseGroups(s, n).Some?
    ensures var key := ParseGroups(s, n).value; var last := 5 * g + (if g == 12 then 4 else 5);
            last <= |key| && ParseGroup(s[8 * g..8 * g + 8], g == 12) == Some(key[5 * g..last])
  {
    hide ParseGroup;
    if g < n - 1 {
      GroupOf(s, n - 1, g);
      var init, key := ParseGroups(s, n - 1).value, ParseGroups(s, n).value;
      assert key == init + key[|init|..];
      assert key[5 * g..5 * g + 5] == init[5 * g..5 * g + 5];
    } else {
      var init, key := ParseGroups(s, n - 1).value, ParseGroups(s, n).value;
      var next := ParseGroup(s[8 * g..8 * g + 8], g == 12).value;
      assert key == init + next;
      assert key[5 * g..] == next && key[5 * g..|key|] == next;
    }
  }

  /** Any accepted text is the encoding of the key it gives, except that the low three bits of the
      character at index 102 are ignored. */
  lemma Reencode(s: string, key: seq<byte>)
    requires Decode(s) == Some(key)
    ensures |s| == TEXT_CHARS == |Encode(key)| && CharVal(s[102]) >= 0
    ensures Encode(key) == s[102 := CharOf(CharVal(s[102]) / 8 * 8)]
  {
    hide ParseGroup, GroupChars, Value, CharOf, CharVal, Padding;
    EncodeTail(key, 12);
    GroupOf(s, 13, 12);
    assert key[60..64] == key[60..];
    ReencodeLast(s[96..104], key[60..]);
    AlphabetRoundTrip(0, s[102]);
    var t := s[102 := CharOf(CharVal(s[102]) / 8 * 8)];
    assert s[96..104][6] == s[102] && s[96..104][7] == s[103];
    forall i | 0 <= i < TEXT_CHARS
      ensures Encode(key)[i] == t[i]
    {
      var g := i / 8;
      if g < 12 {
        GroupOf(s, 13, g);
        ReencodeFull(s[8 * g..8 * g + 8], key[5 * g..5 * g + 5]);
        EncodeGroup(key, g);
        assert Encode(key)[i] == Encode(key)[8 * g..8 * g + 8][i - 8 * g] == s[8 * g..8 * g + 8][i - 8 * g] == s[i];
      } else {
        assert Encode(key)[i] == Encode(key)[96..][i - 96];
        PaddingIs(GroupChars(Value(key[60..]), 7), i - 96);
        assert i < 102 ==> s[96..104][i - 96] == s[i];
      }
    }
  }

  lemma PaddingIs(head: string, i: nat)
    requires |head| == 7 && i < 8
    ensures |head + Padding(1)| == 8 && (head + Padding(1))[i] == (if i < 7 then head[i] else '=')
  {}

  /** So the accepted texts that are encodings are those whose unused bits are clear. */
  lemma CanonicalExactly(s: string, key: seq<byte>)
    requires Decode(s) == Some(key)
    ensures |s| == TEXT_CHARS && (Encode(key) == s <==> CharVal(s[102]) % 8 == 0)
  {
    Reencode(s, key);
    var v := CharVal(s[102]);
    AlphabetRoundTrip(0, s[102]);
    AlphabetRoundTrip(v / 8 * 8, s[102]);
    assert Encode(key)[102] == CharOf(v / 8 * 8);
    if v % 8 == 0 { assert s[102 := s[102]] == s; }
  }

  // ---- What the decoder ignores -----------------------------------------------------------------------------

  lemma SameTopBytes(v: nat, w: nat)
    requires v / 8 == w / 8
    ensures Bytes(v * 32, 4) == Bytes(w * 32, 4)
  {
    hide ByteAt;
    forall i | 0 <= i < 4 ensures ByteAt(v * 32, i) == ByteAt(w * 32, i) {
      TopByte(v, i);
      TopByte(w, i);
    }
  }

  lemma TopByte(v: nat, i: nat)
    requires i < 4
    ensures ByteAt(v * 32, i) == v / 8 / P256(3 - i) % 256
  {
    ShiftedTop(v);
    DivOnce(v * 32, 3 - i);
  }

  lemma DivOnce(v: nat, k: nat)
    requires k < 4
    ensures v / P256(k + 1) == v / 256 / P256(k)
  {}

  lemma {:induction false} SameDigits(s: string, t: string, n: nat)
    requires n <= |s| && n <= |t| && s[..n] == t[..n]
    ensures ParseDigits(s, n) == ParseDigits(t, n)
  {
    hide CharVal;
    if n > 0 {
      assert s[..n - 1] == s[..n][..n - 1] && t[..n - 1] == t[..n][..n - 1];
      SameDigits(s, t, n - 1);
      assert s[n - 1] == s[..n][n - 1] && t[n - 1] == t[..n][n - 1];
    }
  }

  /** The last group reads the same for eight values of its seventh character. */
  lemma SameLastGroup(group: string, low: Digit)
    requires |group| == 8 && CharVal(group[6]) >= 0 && low / 8 == CharVal(group[6]) / 8
    ensures ParseGroup(group[6 := CharOf(low)], true) == ParseGroup(group, true)
  {
    hide CharVal, CharOf, Bytes;
    var t := group[6 := CharOf(low)];
    AlphabetRoundTrip(low, group[6]);
    SameDigits(group, t, 6);
    if ParseDigits(group, 6).Some? {
      var hi := ParseDigits(group, 6).value;
      assert (hi * 32 + low) / 8 == 4 * hi + low / 8;
      assert (hi * 32 + CharVal(group[6])) / 8 == 4 * hi + CharVal(group[6]) / 8;
      SameTopBytes(hi * 32 + low, hi * 32 + CharVal(group[6]));
    }
  }

  lemma {:induction false} SameGroups(s: string, t: string, g: nat)
    requires |s| == |t| == TEXT_CHARS && g <= 12 && forall i :: 0 <= i < 96 ==> s[i] == t[i]
    ensures ParseGroups(s, g) == ParseGroups(t, g)
  {
    hide ParseGroup;
    if g > 0 {
      SameGroups(s, t, g - 1);
      assert s[8 * (g - 1)..8 * g] == t[8 * (g - 1)..8 * g];
    }
  }

  /** Each key is accepted from eight texts: the character at index 102 may be any with the same top
      two bits. */
  lemma EightTexts(s: string, key: seq<byte>, low: Digit)
    requires Decode(s) == Some(key) && CharVal(s[102]) >= 0 && low / 8 == CharVal(s[102]) / 8
    ensures Decode(s[102 := CharOf(low)]) == Some(key)
  {
    hide ParseGroup, CharVal, CharOf;
    var t := s[102 := CharOf(low)];
    SameGroups(s, t, 12);
    SameLastGroup(s[96..104], low);
    assert t[96..104] == s[96..104][6 := CharOf(low)];
  }

  /** So every key has accepted texts that are not its encoding. */
  lemma StrayBitsAccepted(key: seq<byte>, stray: nat)
    requires |key| == KEY_BYTES && 0 < stray < 8
    ensures |Encode(key)| == TEXT_CHARS && 0 <= CharVal(Encode(key)[102]) <= 24
    ensures var t := Encode(key)[102 := CharOf(CharVal(Encode(key)[102]) + stray)];
            Decode(t) == Some(key) && t != Encode(key)
  {
    hide CharVal, CharOf, Encode, Decode;
    var s := Encode(key);
    RoundTrip(key);
    CanonicalExactly(s, key);
    Reencode(s, key);
    AlphabetRoundTrip(0, s[102]);
    var v := CharVal(s[102]);
    AlphabetRoundTrip(v + stray, s[102]);
    EightTexts(s, key, v + stray);
    var x := CharOf(v + stray);
    assert CharVal(x) == v + stray && s[102 := x][102] == x;
  }
}
