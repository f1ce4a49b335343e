/** The ESP-NOW transport: fragmentation, the paced transmit queue and reassembly. */
module EspNow {
  import opened Common

  const CHUNK := 249       // ESPNOW_CHUNK_SIZE
  const RAW_MTU := 250     // ESPNOW_RAW_MTU
  const MTU := 508
  const QUEUE_SIZE := 12   // ESPNOW_TX_QUEUE_SIZE
  const SEQ_UNSET := 0xFF

  type Frame = seq<byte>

  /** A tag: a byte whose low nibble is clear. */
  type Tag = t: int | 0 <= t < 256 && t % 16 == 0 witness 0

  function TagOf(header: byte): Tag { header / 16 * 16 }
  predicate More(f: Frame) requires |f| > 0 { f[0] % 2 == 1 }

  // ---- Transmit side ---------------------------------------------------------------------

  /** The v1 frames of one logical packet. */
  function Fragments(data: seq<byte>, tag: Tag): (fs: seq<Frame>)
    ensures |fs| > 0 && forall k :: 0 <= k < |fs| ==> |fs[k]| > 0
  {
    if |data| <= CHUNK then [[tag] + data]
    else [[tag + 1] + data[..CHUNK]] + Fragments(data[CHUNK..], tag)
  }

  /** Frame k of a packet carries its bytes from 249 k on, 249 of them but for the last frame, after a header
      byte that is the tag, plus one in all frames but the last. */
  lemma {:induction false} FragmentsAre(data: seq<byte>, tag: Tag, k: nat)
    requires k < |Fragments(data, tag)|
    ensures var last := k + 1 == |Fragments(data, tag)|;
            && 249 * k <= |data| && (last <==> |data| <= 249 * k + 249)
            && Fragments(data, tag)[k] == [if last then tag else tag + 1]
                                          + data[249 * k..if last then |data| else 249 * k + 249]
  {
    FragmentsNext(data, tag);
    hide Fragments;
    if |data| <= CHUNK {
      assert data[0..|data|] == data;
    } else if k == 0 {
      assert data[0..249] == data[..CHUNK];
    } else {
      FragmentsAre(data[CHUNK..], tag, k - 1);
      Later(data, 249 * k, if |data| <= 249 * k + 249 then |data| else 249 * k + 249);
    }
  }

  lemma FragmentsNext(data: seq<byte>, tag: Tag)
    ensures |data| <= CHUNK ==> Fragments(data, tag) == [[tag] + data]
    ensures |data| > CHUNK ==> Fragments(data, tag) == [[tag + 1] + data[..CHUNK]] + Fragments(data[CHUNK..], tag)
  {}

  lemma Later(data: seq<byte>, i: nat, j: nat)
    requires CHUNK <= i <= j <= |data|
    ensures data[CHUNK..][i - CHUNK..j - CHUNK] == data[i..j]
  {}

  /** The header byte: the tag is its high nibble, whatever the low one holds, and bit 0 says that more follow. */
  lemma HeaderBits(tag: Tag, low: byte, f: Frame)
    requires low < 16 && |f| > 0 && f[0] == tag + low
    ensures TagOf(f[0]) == tag
    ensures More(f) <==> (f[0] as bv8) & 0x01 == 0x01
  {
    LowBit(f[0]);
  }

  lemma LowBit(header: byte)
    ensures header % 2 == 1 <==> (header as bv8) & 0x01 == 0x01
  {}

  /** A bounded queue offered some frames in turn: what does not fit is dropped. */
  function Accept(q: seq<Frame>, fs: seq<Frame>): (q': seq<Frame>)
    requires |q| <= QUEUE_SIZE
    ensures |q'| <= QUEUE_SIZE
  {
    if |q| + |fs| <= QUEUE_SIZE then q + fs else q + fs[..QUEUE_SIZE - |q|]
  }

  /** The next frame that espnow_send builds, from offset on. */
  lemma NextFragment(data: seq<byte>, offset: nat, tag: Tag, f: Frame)
    requires offset <= |data|
    requires var n := if |data| - offset > CHUNK then CHUNK else |data| - offset;
             f == [if offset + n < |data| then tag as int + 1 else tag] + data[offset..offset + n]
    ensures var n := if |data| - offset > CHUNK then CHUNK else |data| - offset;
            Fragments(data[offset..], tag) ==
              [f] + if offset + n < |data| then Fragments(data[offset + n..], tag) else []
  {
    var n := if |data| - offset > CHUNK then CHUNK else |data| - offset;
    assert data[offset..offset + n] == data[offset..][..n];
    assert data[offset..][n..] == data[offset + n..];
    assert offset + n == |data| ==> data[offset..][..n] == data[offset..];
  }

  lemma AppendFirst(done: seq<Frame>, f: Frame, data: seq<byte>, next: nat, tag: Tag)
    requires next <= |data|
    ensures done + ([f] + Fragments(data[next..], tag)) == done + [f] + Fragments(data[next..], tag)
    ensures done + ([f] + []) == done + [f]
  {}

  lemma AcceptNone(q: seq<Frame>)
    requires |q| <= QUEUE_SIZE
    ensures Accept(q, []) == q
  {}

  lemma AcceptNext(q: seq<Frame>, fs: seq<Frame>, f: Frame)
    requires |q| <= QUEUE_SIZE
    ensures Accept(Accept(q, fs), [f]) == Accept(q, fs + [f])
    ensures |Accept(q, fs)| < QUEUE_SIZE <==> |q| + |fs| < QUEUE_SIZE
  {
    if |q| + |fs| > QUEUE_SIZE { assert (fs + [f])[..QUEUE_SIZE - |q|] == fs[..QUEUE_SIZE - |q|]; }
  }

  // ---- Receive side ------------------------------------------------------------------------

  /** A partial packet and the tag it is tracked under. */
  datatype Rx = Rx(buf: seq<byte>, tag: int)

  const IDLE := Rx([], SEQ_UNSET)

  /** espnow_recv_cb in v1 mode: the new state and the payload delivered, if any. */
  function Recv(rx: Rx, f: Frame): (Rx, Option<seq<byte>>) {
    if |f| <= 1 then (rx, None)
    else
      var start := if TagOf(f[0]) != rx.tag then [] else rx.buf;
      if |start| + |f| - 1 > MTU then (IDLE, None)
      else if More(f) then (Rx(start + f[1..], TagOf(f[0])), None)
      else (IDLE, Some(start + f[1..]))
  }

  function Append(out: seq<seq<byte>>, last: Option<seq<byte>>): seq<seq<byte>> {
    if last.Some? then out + [last.value] else out
  }

  /** Any number of frames: the state, and the payloads delivered in order. */
  function RecvAll(rx: Rx, fs: seq<Frame>): (Rx, seq<seq<byte>>) {
    if fs == [] then (rx, [])
    else
      var (mid, out) := RecvAll(rx, fs[..|fs| - 1]);
      var (end, last) := Recv(mid, fs[|fs| - 1]);
      (end, Append(out, last))
  }

  // ---- The firmware's state ------------------------------------------------------------------

  class Radio {
    const v2: bool
    var ready: bool
    var txQueue: seq<Frame>
    var txBusy: bool
    const rxBuf: array<byte>
    var rxLen: nat
    var rxSeq: int

    ghost predicate Valid()
      reads this
    {
      |txQueue| <= QUEUE_SIZE && rxBuf.Length == MTU && rxLen <= MTU
    }

    /** The receive state as a value. */
    ghost function RxState(): Rx
      requires Valid()
      reads this, rxBuf
    {
      Rx(rxBuf[..rxLen], rxSeq)
    }

    constructor (v2: bool)
      ensures Valid() && fresh(rxBuf) && this.v2 == v2 && !ready
      ensures txQueue == [] && !txBusy && RxState() == IDLE
    {
      this.v2 := v2;
      ready, txBusy := false, false;
      txQueue := [];
      rxBuf := new byte[MTU];
      rxLen, rxSeq := 0, SEQ_UNSET;
    }

    /** espnow_send_chunk: a full queue drops the chunk. */
    method SendChunk(chunk: Frame) returns (ok: bool)
      requires Valid() && |chunk| <= MTU
      modifies this`txQueue
      ensures Valid()
      ensures ok == (ready && |old(txQueue)| < 12)
      ensures txQueue == (if ready then Accept(old(txQueue), [chunk]) else old(txQueue))
      ensures txQueue == (if ok then old(txQueue) + [chunk] else old(txQueue))
    {
      if !ready { return false; }
      if |txQueue| == QUEUE_SIZE { return false; }
      txQueue := txQueue + [chunk];
      ok := true;
    }

    /** One turn of espnow_send's loop, up to the call that queues the frame. */
    method BuildFrame(chunkBuf: array<byte>, data: seq<byte>, offset: nat, header: Tag)
      returns (frame: Frame, chunkLen: nat)
      requires chunkBuf.Length == RAW_MTU && offset <= |data|
      modifies chunkBuf
      ensures |frame| <= RAW_MTU && offset + chunkLen <= |data| && (chunkLen == 0 ==> offset == |data|)
      ensures Fragments(data[offset..], header)
           == [frame] + if offset + chunkLen < |data| then Fragments(data[offset + chunkLen..], header) else []
    {
      hide Fragments;
      var remaining := |data| - offset;
      chunkLen := if remaining > CHUNK then CHUNK else remaining;
      var more := offset + chunkLen < |data|;
      chunkBuf[0] := if more then header as int + 1 else header;
      forall i | 0 <= i < chunkLen { chunkBuf[1 + i] := data[offset + i]; }
      frame := chunkBuf[..chunkLen + 1];
      assert frame == [chunkBuf[0]] + data[offset..offset + chunkLen];
      NextFragment(data, offset, header, frame);
    }

    /** espnow_send; rnd is the random byte the tag is drawn from. */
    method Send(data: seq<byte>, rnd: byte) returns (allOk: bool)
      requires Valid() && |data| < 0x1_0000 && (v2 ==> |data| <= MTU)
      modifies this`txQueue
      ensures Valid()
      ensures var frames := if v2 then [data] else Fragments(data, TagOf(rnd));
              && txQueue == (if ready then Accept(old(txQueue), frames) else old(txQueue))
              && allOk == (ready && |old(txQueue)| + |frames| <= 12)
    {
      if v2 {
        allOk := SendChunk(data);
        return;
      }
      hide TagOf, Fragments, Accept;
      AcceptNone(txQueue);
      assert data[0..] == data;
      var header := TagOf(rnd);
      var chunkBuf := new byte[RAW_MTU];
      var offset := 0;
      allOk := true;
      ghost var done: seq<Frame> := [];
      ghost var q := txQueue;
      var again := true;
      while again
        invariant Valid() && 0 <= offset <= |data|
        invariant again ==> done + Fragments(data[offset..], header) == Fragments(data, header)
        invariant !again ==> done == Fragments(data, header)
        invariant txQueue == (if ready then Accept(q, done) else q)
        invariant allOk == ((ready || done == []) && |q| + |done| <= QUEUE_SIZE)
        decreases |data| - offset, again
      {
        var frame, chunkLen := BuildFrame(chunkBuf, data, offset, header);
        AcceptNext(q, done, frame);
        AppendFirst(done, frame, data, offset + chunkLen, header);
        var ok := SendChunk(frame);
        allOk := ok && allOk;
        done := done + [frame];
        offset := offset + chunkLen;
        again := offset < |data|;
      }
    }

    /** update_espnow_tx; driverOk says whether esp_now_send takes the frame.
        The result is the frame given to the driver, if one was. */
    method UpdateTx(driverOk: bool) returns (handed: Option<Frame>)
      requires Valid()
      modifies this`txQueue, this`txBusy
      ensures Valid()
      ensures old(txBusy) || old(txQueue) == [] ==>
        handed == None && txQueue == old(txQueue) && txBusy == old(txBusy)
      ensures !old(txBusy) && old(txQueue) != [] ==>
        handed == Some(old(txQueue)[0]) && txQueue == old(txQueue)[1..] && txBusy == driverOk
    {
      if txBusy { return None; }
      if txQueue == [] { return None; }
      var chunk := txQueue[0];
      txQueue := txQueue[1..];
      txBusy := true;
      if !driverOk { txBusy := false; }
      handed := Some(chunk);
    }

    /** espnow_send_cb. */
    method SendDone()
      requires Valid()
      modifies this`txBusy
      ensures Valid() && !txBusy
    {
      txBusy := false;
    }

    /** espnow_recv_cb; the result is the payload passed on, if any. */
    method OnFrame(data: Frame) returns (delivered: Option<seq<byte>>)
      requires Valid()
      modifies rxBuf, this`rxLen, this`rxSeq
      ensures Valid()
      ensures !v2 ==> (RxState(), delivered) == Recv(old(RxState()), data)
      ensures v2 ==> RxState() == old(RxState())
      ensures v2 ==> delivered == (if 0 < |data| <= 508 then Some(data) else None)
    {
      if |data| <= 0 { return None; }
      if v2 {
        if |data| > rxBuf.Length { return None; }
        return Some(data);
      }
      if |data| <= 1 { return None; }
      var header := data[0];
      var tag := TagOf(header);
      var more := header % 2 == 1;
      var chunk := data[1..];
      if tag != rxSeq {
        rxLen := 0;
        rxSeq := tag;
      }
      if rxLen + |chunk| > rxBuf.Length {
        rxLen := 0;
        rxSeq := SEQ_UNSET;
        return None;
      }
      ghost var start := rxBuf[..rxLen];
      forall i | 0 <= i < |chunk| { rxBuf[rxLen + i] := chunk[i]; }
      rxLen := rxLen + |chunk|;
      assert rxBuf[..rxLen] == start + chunk;
      if more { return None; }
      rxSeq := SEQ_UNSET;
      delivered := Some(rxBuf[..rxLen]);
      rxLen := 0;
    }
  }
}
