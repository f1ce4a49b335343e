/** The overwrite-oldest byte ring of the BLE serial port. */
module BleFifo {
  import opened Common

  function Newest(s: seq<byte>, k: nat): (r: seq<byte>)
    ensures |r| == (if |s| < k then |s| else k)
  {
    if |s| <= k then s else s[|s| - k..]
  }

  /** The ring's positions from tail up to head. */
  function Count(n: nat, head: int, tail: int): int { if head >= tail then head - tail else n - tail + head }

  function Wrap(n: nat, i: nat): nat
    requires n > 0 && i < 2 * n
  {
    if i < n then i else i - n
  }

  lemma WrapIsMod(n: nat, i: nat)
    requires n > 0 && i < 2 * n
    ensures i % n == Wrap(n, i)
  {
    if i < n { DivMod(0, i, n); } else { DivMod(1, i - n, n); }
  }

  /** What a ring with this storage holds, oldest first. */
  function Ring(buf: seq<byte>, head: nat, tail: nat): (c: seq<byte>)
    requires head < |buf| && tail < |buf|
    ensures |c| == Count(|buf|, head, tail) < |buf|
  {
    seq(Count(|buf|, head, tail), i requires 0 <= i < Count(|buf|, head, tail) => buf[Wrap(|buf|, tail + i)])
  }

  lemma RingPush(buf: seq<byte>, head: nat, tail: nat, v: byte)
    requires head < |buf| && tail < |buf|
    ensures var h := Wrap(|buf|, head + 1);
            var t := if h == tail then Wrap(|buf|, tail + 1) else tail;
            Ring(buf[head := v], h, t) == Newest(Ring(buf, head, tail) + [v], |buf| - 1)
  {
    var n, c := |buf|, Ring(buf, head, tail);
    var h := Wrap(n, head + 1);
    var t := if h == tail then Wrap(n, tail + 1) else tail;
    var c' := Ring(buf[head := v], h, t);
    var gone := if h == tail then 1 else 0;
    PushCount(n, head, tail);
    hide Wrap, Ring, Count;
    forall i | 0 <= i < |c'| ensures c'[i] == (c + [v])[i + gone] {
      PushSlot(n, head, tail, i + gone);
      if h == tail { WrapNext(n, tail, i); }
      RingAt(buf[head := v], h, t, i);
      if i + gone < |c| { RingAt(buf, head, tail, i + gone); }
    }
  }

  lemma PushCount(n: nat, head: nat, tail: nat)
    requires head < n && tail < n
    ensures var h := Wrap(n, head + 1); var t := if h == tail then Wrap(n, tail + 1) else tail;
            && Count(n, h, t) == Count(n, head, tail) + (if h == tail then 0 else 1)
            && (h == tail <==> Count(n, head, tail) == n - 1)
  {}

  lemma RingAt(buf: seq<byte>, head: nat, tail: nat, i: nat)
    requires head < |buf| && tail < |buf| && i < Count(|buf|, head, tail)
    ensures Wrap(|buf|, tail + i) < |buf| && Ring(buf, head, tail)[i] == buf[Wrap(|buf|, tail + i)]
  {}

  /** The slot written is the one past the last byte held. */
  lemma PushSlot(n: nat, head: nat, tail: nat, i: nat)
    requires head < n && tail < n && i <= Count(n, head, tail)
    ensures Wrap(n, tail + i) == head <==> i == Count(n, head, tail)
  {}

  lemma WrapNext(n: nat, t: nat, i: nat)
    requires t < n && i < n && n > 0
    requires t + i + 1 < 2 * n
    ensures Wrap(n, t + 1) + i < 2 * n
    ensures i + 1 <= n ==> Wrap(n, Wrap(n, t + 1) + i) == Wrap(n, t + (i + 1))
  {}

  lemma RingPop(buf: seq<byte>, head: nat, tail: nat)
    requires head < |buf| && tail < |buf| && head != tail
    ensures Ring(buf, head, tail) == [buf[tail]] + Ring(buf, head, Wrap(|buf|, tail + 1))
  {
    var c' := Ring(buf, head, Wrap(|buf|, tail + 1));
    var c := Ring(buf, head, tail);
    assert |c| == |c'| + 1;
    assert Wrap(|buf|, tail + 0) == tail;
    assert c[0] == buf[Wrap(|buf|, tail + 0)];
    forall i | 0 <= i < |c'| ensures c'[i] == c[i + 1] {
      WrapNext(|buf|, tail, i);
      assert Wrap(|buf|, Wrap(|buf|, tail + 1) + i) == Wrap(|buf|, tail + (i + 1));
    }
    assert c == [buf[tail]] + c';
  }

  class Fifo {
    const buffer: array<byte>
    var head: int
    var tail: int

    ghost predicate Valid()
      reads this
    {
      buffer.Length >= 1 && 0 <= head < buffer.Length && 0 <= tail < buffer.Length
    }

    /** The bytes waiting, oldest first. */
    ghost function Contents(): (c: seq<byte>)
      requires Valid()
      reads this, buffer
      ensures |c| < buffer.Length
    {
      Ring(buffer[..], head, tail)
    }

    constructor (n: nat)
      requires n >= 1
      ensures Valid() && Contents() == [] && buffer.Length == n && fresh(buffer)
    {
      buffer := new byte[n];
      head, tail := 0, 0;
    }

    /** At every wrap position the newest n - 1 bytes are kept. */
    method Push(value: byte)
      requires Valid()
      modifies this, buffer
      ensures Valid() && Contents() == Newest(old(Contents()) + [value], buffer.Length - 1)
    {
      hide Ring, Wrap, Newest;
      RingPush(buffer[..], head, tail, value);
      WrapIsMod(buffer.Length, head + 1);
      WrapIsMod(buffer.Length, tail + 1);
      buffer[head] := value;
      head := (head + 1) % buffer.Length;
      if head == tail { tail := (tail + 1) % buffer.Length; }
    }

    method Pop() returns (value: int)
      requires Valid()
      modifies this`tail
      ensures Valid()
      ensures old(Contents()) == [] ==> value == -1 && Contents() == []
      ensures old(Contents()) != [] ==> value == old(Contents())[0] && Contents() == old(Contents())[1..]
    {
      if head == tail { return -1; }
      value := buffer[tail];
      RingPop(buffer[..], head, tail);
      WrapIsMod(buffer.Length, tail + 1);
      tail := (tail + 1) % buffer.Length;
    }

    method Clear()
      requires Valid()
      modifies this`head, this`tail
      ensures Valid() && Contents() == []
    {
      head, tail := 0, 0;
    }

    method GetLength() returns (n: int)
      requires Valid()
      ensures n == |Contents()|
    {
      if head >= tail { n := head - tail; } else { n := buffer.Length - tail + head; }
    }

    method Get(index: nat) returns (value: int)
      requires Valid()
      ensures value == (if index < |Contents()| then Contents()[index] as int else -1)
    {
      var n := GetLength();
      if index >= n { return -1; }
      WrapIsMod(buffer.Length, tail + index);
      value := buffer[(tail + index) % buffer.Length];
    }
  }

  // ---- Runs of pushes and pops -----------------------------------------------------------------------

  datatype Op = Push(value: byte) | Pop | Clear

  /** What the ring of capacity k holds after some operations. */
  function Held(ops: seq<Op>, k: nat): seq<byte> {
    if ops == [] then []
    else
      var c := Held(ops[..|ops| - 1], k);
      match ops[|ops| - 1]
      case Push(v) => Newest(c + [v], k)
      case Pop => if c == [] then [] else c[1..]
      case Clear => []
  }

  /** All bytes pushed since the last clear, oldest first. */
  function Pushed(ops: seq<Op>): seq<byte> {
    if ops == [] then []
    else match ops[|ops| - 1]
      case Push(v) => Pushed(ops[..|ops| - 1]) + [v]
      case Pop => Pushed(ops[..|ops| - 1])
      case Clear => []
  }

  predicate Suffix(a: seq<byte>, b: seq<byte>) { |a| <= |b| && b[|b| - |a|..] == a }

  lemma PushSuffix(c: seq<byte>, p: seq<byte>, v: byte, k: nat)
    requires Suffix(c, p) && |c| <= k
    ensures Suffix(Newest(c + [v], k), p + [v])
    ensures c == Newest(p, k) ==> Newest(c + [v], k) == Newest(p + [v], k)
  {
    assert (p + [v])[|p| - |c|..] == c + [v];
  }

  /** Only the oldest bytes are ever missing: what is held is the tail end of what was pushed, and
      without pops it is the newest k bytes of it. */
  lemma {:induction false} HeldIsNewest(ops: seq<Op>, k: nat)
    ensures Suffix(Held(ops, k), Pushed(ops)) && |Held(ops, k)| <= k
    ensures (forall i :: 0 <= i < |ops| ==> ops[i] != Pop) ==> Held(ops, k) == Newest(Pushed(ops), k)
  {
    if ops != [] {
      var init := ops[..|ops| - 1];
      HeldIsNewest(init, k);
      var c, p := Held(init, k), Pushed(init);
      if ops[|ops| - 1].Push? {
        hide Suffix, Newest;
        PushSuffix(c, p, ops[|ops| - 1].value, k);
      }
    }
  }
}
