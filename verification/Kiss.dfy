/** KISS framing: the two encoders, and the host's stream decoder. */
module Kiss {
  import opened Common

  const FEND := 0xC0
  const FESC := 0xDB
  const TFEND := 0xDC
  const TFESC := 0xDD

  const CMD_DATA := 0x00
  const CMD_FREQUENCY := 0x01
  const CMD_BANDWIDTH := 0x02
  const CMD_STAT_RX := 0x21
  const CMD_STAT_TX := 0x22
  const CMD_ERROR := 0x90
  const CMD_UNKNOWN := 0xFE

  const HOST_MTU := 500       // RNodeInterface.MTU
  const MTU := 508            // the firmware's MTU
  const FRAME_BUF := 1024     // 2*MTU+8

  // ---- Byte stuffing ------------------------------------------------------------------------

  /** RFC 1055: END and ESC are sent as two bytes each. */
  function Stuff(b: byte): (s: seq<byte>)
    ensures 1 <= |s| <= 2
  {
    if b == FEND then [FESC, TFEND] else if b == FESC then [FESC, TFESC] else [b]
  }

  function Stuffed(data: seq<byte>): seq<byte> {
    if data == [] then [] else Stuffed(data[..|data| - 1]) + Stuff(data[|data| - 1])
  }

  function DataFrame(data: seq<byte>): seq<byte> { [FEND, CMD_DATA] + Stuffed(data) + [FEND] }

  /** bytes.replace for a one-byte pattern. */
  function Replace(data: seq<byte>, from: byte, to: seq<byte>): seq<byte> {
    if data == [] then []
    else Replace(data[..|data| - 1], from, to) + (if data[|data| - 1] == from then to else [data[|data| - 1]])
  }

  /** KISS.escape of the Python module: two passes over the data. */
  function Escape(data: seq<byte>): seq<byte> {
    Replace(Replace(data, FESC, [FESC, TFESC]), FEND, [FESC, TFEND])
  }

  lemma ReplaceLast(s: seq<byte>, from: byte, to: seq<byte>)
    requires s != []
    ensures Replace(s, from, to) ==
      Replace(s[..|s| - 1], from, to) + if s[|s| - 1] == from then to else [s[|s| - 1]]
  {}

  lemma {:induction false} ReplaceConcat(a: seq<byte>, b: seq<byte>, from: byte, to: seq<byte>)
    ensures Replace(a + b, from, to) == Replace(a, from, to) + Replace(b, from, to)
  {
    if b == [] {
      assert a + b == a;
    } else {
      var init, last := b[..|b| - 1], b[|b| - 1];
      assert (a + b)[..|a + b| - 1] == a + init && (a + b)[|a + b| - 1] == last;
      ReplaceConcat(a, init, from, to);
      hide Replace;
      ReplaceLast(a + b, from, to);
      ReplaceLast(b, from, to);
    }
  }

  lemma ReplaceOne(b: byte, from: byte, to: seq<byte>)
    ensures Replace([b], from, to) == (if b == from then to else [b])
  {
    assert [b][..0] == [];
  }

  lemma ReplaceTwo(a: byte, b: byte, from: byte, to: seq<byte>)
    requires a != from && b != from
    ensures Replace([a, b], from, to) == [a, b]
  {
    assert [a, b] == [a] + [b];
    ReplaceConcat([a], [b], from, to);
    ReplaceOne(a, from, to);
    ReplaceOne(b, from, to);
  }

  /** The host's two-pass escaping is the one-pass stuffing. */
  lemma {:induction false} EscapeIsStuffing(data: seq<byte>)
    ensures Escape(data) == Stuffed(data)
  {
    if data != [] {
      var init, b := data[..|data| - 1], data[|data| - 1];
      EscapeIsStuffing(init);
      var first := if b == FESC then [FESC, TFESC] else [b];
      ReplaceConcat(Replace(init, FESC, [FESC, TFESC]), first, FEND, [FESC, TFEND]);
      if b == FESC {
        ReplaceTwo(FESC, TFESC, FEND, [FESC, TFEND]);
      } else {
        ReplaceOne(b, FEND, [FESC, TFEND]);
      }
    }
  }

  // ---- The firmware's encoder ------------------------------------------------------------------

  lemma {:induction false} StuffedLength(data: seq<byte>)
    ensures |data| <= |Stuffed(data)| <= 2 * |data|
  {
    if data != [] { StuffedLength(data[..|data| - 1]); }
  }

  lemma StuffedNext(data: seq<byte>, i: nat)
    requires i < |data|
    ensures Stuffed(data[..i + 1]) == Stuffed(data[..i]) + Stuff(data[i])
  {
    assert data[..i + 1][..i] == data[..i];
  }

  /** kiss_write_espnow_packet: the frame in the first n bytes of the buffer. It carries the first
      k bytes of the packet; more would be dropped only when the buffer is full, and a packet of
      at most 508 bytes is never cut. */
  method WriteFrame(frameBuf: array<byte>, data: seq<byte>) returns (n: nat, k: nat)
    requires frameBuf.Length == FRAME_BUF
    modifies frameBuf
    ensures k <= |data| && n <= frameBuf.Length && frameBuf[..n] == DataFrame(data[..k])
    ensures k == |data| || |Stuffed(data[..k])| >= 1020
    ensures forall i :: 0 <= i < k ==> |Stuffed(data[..i])| < 1020
    ensures |data| <= 508 ==> k == |data|
  {
    hide Stuff;
    n := 0;
    frameBuf[n] := FEND; n := n + 1;
    frameBuf[n] := CMD_DATA; n := n + 1;
    k := 0;
    while k < |data| && n < FRAME_BUF - 2
      invariant k <= |data| && n == 2 + |Stuffed(data[..k])| <= FRAME_BUF - 1
      invariant frameBuf[..n] == [FEND, CMD_DATA] + Stuffed(data[..k])
      invariant forall i :: 0 <= i < k ==> |Stuffed(data[..i])| < FRAME_BUF - 4
    {
      StuffedNext(data, k);
      n := PutStuffed(frameBuf, n, data[k]);
      k := k + 1;
    }
    StuffedLength(data[..k]);
    frameBuf[n] := FEND; n := n + 1;
  }

  /** The body of the loop: one byte, escaped if it must be. */
  method PutStuffed(frameBuf: array<byte>, n0: nat, b: byte) returns (n: nat)
    requires n0 + 2 <= frameBuf.Length
    modifies frameBuf
    ensures n == n0 + |Stuff(b)| && frameBuf[..n] == old(frameBuf[..n0]) + Stuff(b)
  {
    n := n0;
    var v := b;
    if v == FEND { frameBuf[n] := FESC; n := n + 1; v := TFEND; }
    if v == FESC { frameBuf[n] := FESC; n := n + 1; v := TFESC; }
    frameBuf[n] := v; n := n + 1;
  }

  // ---- The host's decoder -------------------------------------------------------------------------

  /** readLoop's variables, what it has delivered, and whether it still runs. */
  datatype Host = Host(inFrame: bool, escape: bool, command: byte, data: seq<byte>, cmd: seq<byte>,
                       delivered: seq<seq<byte>>, frequency: Option<nat>, bandwidth: Option<nat>, alive: bool)

  const CLEAN := Host(false, false, CMD_UNKNOWN, [], [], [], None, None, true)

  function Unescape(escape: bool, b: byte): byte {
    if escape && b == TFEND then FEND else if escape && b == TFESC then FESC else b
  }

  function Quad(s: seq<byte>): nat
    requires |s| == 4
  {
    s[0] as int * 0x100_0000 + s[1] as int * 0x1_0000 + s[2] as int * 0x100 + s[3]
  }

  /** A byte of a command whose value takes four bytes. */
  function WordByte(s: Host, b: byte): Host {
    if b == FESC then s.(escape := true)
    else
      var t := s.(cmd := s.cmd + [Unescape(s.escape, b)], escape := false);
      if |t.cmd| != 4 then t
      else if s.command == CMD_FREQUENCY then t.(frequency := Some(Quad(t.cmd)))
      else if s.command == CMD_BANDWIDTH then t.(bandwidth := Some(Quad(t.cmd)))
      else t.(alive := false)  // ord() of an int: the exception ends the loop
  }

  /** One byte read from the serial port. Commands with one-byte values change nothing modelled here. */
  function Step(s: Host, b: byte): Host {
    if !s.alive then s
    else if s.inFrame && b == FEND && s.command == CMD_DATA then
      s.(inFrame := false, delivered := s.delivered + [s.data], data := [], cmd := [])
    else if b == FEND then s.(inFrame := true, command := CMD_UNKNOWN, data := [], cmd := [])
    else if s.inFrame && |s.data| < HOST_MTU then
      if s.data == [] && s.command == CMD_UNKNOWN then s.(command := b)
      else if s.command == CMD_DATA then
        if b == FESC then s.(escape := true)
        else s.(data := s.data + [Unescape(s.escape, b)], escape := false)
      else if s.command in {CMD_FREQUENCY, CMD_BANDWIDTH, CMD_STAT_RX, CMD_STAT_TX} then WordByte(s, b)
      else if s.command == CMD_ERROR then s.(alive := false)  // the name RNS is not defined
      else s
    else s
  }

  function Decode(s: Host, bytes: seq<byte>): Host {
    if bytes == [] then s else Step(Decode(s, bytes[..|bytes| - 1]), bytes[|bytes| - 1])
  }

  /** The idle branch of readLoop, once the timeout has passed. */
  function Timeout(s: Host): Host {
    if s.data != [] then s.(data := [], inFrame := false, command := CMD_UNKNOWN, escape := false) else s
  }

  // ---- Decoding frames ------------------------------------------------------------------------------

  lemma {:induction false} DecodeConcat(s: Host, a: seq<byte>, b: seq<byte>)
    ensures Decode(s, a + b) == Decode(Decode(s, a), b)
  {
    hide Step;
    if b == [] {
      assert a + b == a;
    } else {
      assert (a + b)[..|a + b| - 1] == a + b[..|b| - 1];
      DecodeConcat(s, a, b[..|b| - 1]);
    }
  }

  lemma DecodeOne(s: Host, b: byte)
    ensures Decode(s, [b]) == Step(s, b)
  {
    hide Step;
    assert [b][..0] == [];
    assert Decode(s, []) == s;
  }

  lemma DecodeTwo(s: Host, a: byte, b: byte)
    ensures Decode(s, [a, b]) == Step(Step(s, a), b)
  {
    hide Step;
    assert [a, b] == [a] + [b];
    DecodeConcat(s, [a], [b]);
    DecodeOne(s, a);
    DecodeOne(Step(s, a), b);
  }

  function Take(s: seq<byte>, n: nat): seq<byte> { if |s| <= n then s else s[..n] }

  /** Inside a data frame with no escape pending. */
  predicate InData(s: Host) { s.alive && s.inFrame && s.command == CMD_DATA && !s.escape && |s.data| <= HOST_MTU }

  /** The stuffed form of one payload byte adds that byte, or nothing once 500 are held. */
  lemma DecodeStuff(s: Host, b: byte)
    requires InData(s)
    ensures Decode(s, Stuff(b)) == (if |s.data| < HOST_MTU then s.(data := s.data + [b]) else s)
  {
    if b == FEND {
      DecodeTwo(s, FESC, TFEND);
    } else if b == FESC {
      DecodeTwo(s, FESC, TFESC);
    } else {
      DecodeOne(s, b);
    }
  }

  lemma {:induction false} DecodeStuffed(s: Host, payload: seq<byte>)
    requires InData(s)
    ensures Decode(s, Stuffed(payload)) == s.(data := Take(s.data + payload, HOST_MTU))
  {
    hide Step, Stuff;
    if payload == [] {
      assert s.data + payload == s.data;
    } else {
      var init, b := payload[..|payload| - 1], payload[|payload| - 1];
      DecodeStuffed(s, init);
      DecodeConcat(s, Stuffed(init), Stuff(b));
      var mid := s.(data := Take(s.data + init, HOST_MTU));
      DecodeStuff(mid, b);
      assert s.data + init + [b] == s.data + payload;
    }
  }

  /** Between frames: nothing half-read. */
  predicate Ready(s: Host) {
    s.alive && !s.escape && s.data == [] && (s.inFrame ==> s.command == CMD_UNKNOWN)
  }

  lemma DecodeOpening(s: Host, c: byte)
    requires s.alive && (s.inFrame ==> s.command != CMD_DATA) && c != FEND
    ensures Decode(s, [FEND, c]) == s.(inFrame := true, command := c, data := [], cmd := [])
  {
    DecodeTwo(s, FEND, c);
  }

  /** A data frame delivers the first 500 bytes of its payload and leaves the decoder between frames. */
  lemma DecodeDataFrame(s: Host, payload: seq<byte>)
    requires Ready(s)
    ensures var t := Decode(s, DataFrame(payload));
            Ready(t) && t.delivered == s.delivered + [if |payload| <= 500 then payload else payload[..500]]
  {
    hide Stuff, Stuffed;
    DecodeConcat(s, [FEND, CMD_DATA] + Stuffed(payload), [FEND]);
    DecodeConcat(s, [FEND, CMD_DATA], Stuffed(payload));
    DecodeOpening(s, CMD_DATA);
    var open := Decode(s, [FEND, CMD_DATA]);
    DecodeStuffed(open, payload);
    assert [] + payload == payload;
    DecodeOne(Decode(open, Stuffed(payload)), FEND);
  }

  // ---- Command frames in the stream -------------------------------------------------------------------

  /** Bytes that open a frame of their own kind: FEND is no command, CMD_DATA opens a data frame, and
      after CMD_UNKNOWN the host takes the next byte for the command. */
  predicate Opens(c: byte) { c !in {FEND, CMD_DATA, CMD_UNKNOWN} }

  function CommandFrame(c: byte, value: seq<byte>): seq<byte> { [FEND, c] + Stuffed(value) + [FEND] }

  /** Command frames that end the host's loop with an exception: the statistics reports at their fourth
      byte, where ord() gets an int, and an error report at once, where the name RNS is not defined. */
  predicate Kills(c: byte, value: seq<byte>) {
    (c == CMD_ERROR && value != []) || (c in {CMD_STAT_RX, CMD_STAT_TX} && |value| >= 4)
  }

  predicate InCommand(s: Host, c: byte) { s.alive && s.inFrame && s.command == c && s.data == [] && !s.escape }

  lemma {:induction false} DecodeDead(s: Host, bytes: seq<byte>)
    requires !s.alive
    ensures Decode(s, bytes) == s
  {
    if bytes != [] { DecodeDead(s, bytes[..|bytes| - 1]); }
  }

  lemma DecodeCommandByte(s: Host, c: byte, b: byte)
    requires InCommand(s, c) && Opens(c)
    ensures var t := Decode(s, Stuff(b));
            && t.delivered == s.delivered
            && (t.alive <==> c != CMD_ERROR && (c in {CMD_STAT_RX, CMD_STAT_TX} ==> |s.cmd| != 3))
            && (t.alive ==> InCommand(t, c) && (c in {CMD_STAT_RX, CMD_STAT_TX} ==> |t.cmd| == |s.cmd| + 1))
  {
    hide Quad;
    if b == FEND {
      DecodeTwo(s, FESC, TFEND);
    } else if b == FESC {
      DecodeTwo(s, FESC, TFESC);
    } else {
      DecodeOne(s, b);
    }
  }

  lemma {:induction false} DecodeCommandBody(s: Host, c: byte, value: seq<byte>)
    requires InCommand(s, c) && Opens(c) && s.cmd == []
    ensures var t := Decode(s, Stuffed(value));
            && t.delivered == s.delivered
            && (t.alive <==> !Kills(c, value))
            && (t.alive ==> InCommand(t, c) && (c in {CMD_STAT_RX, CMD_STAT_TX} ==> |t.cmd| == |value|))
  {
    hide Step, Stuff, Opens;
    if value != [] {
      var init, b := value[..|value| - 1], value[|value| - 1];
      DecodeCommandBody(s, c, init);
      DecodeConcat(s, Stuffed(init), Stuff(b));
      var mid := Decode(s, Stuffed(init));
      if mid.alive { DecodeCommandByte(mid, c, b); } else { DecodeDead(mid, Stuff(b)); }
    }
  }

  lemma KillsIs(c: byte, value: seq<byte>)
    ensures Kills(c, value) <==> (c == 0x90 && |value| >= 1) || ((c == 0x21 || c == 0x22) && |value| >= 4)
  {}

  /** A command frame delivers nothing; the decoder is between frames after it, unless the frame
      ended the loop. */
  lemma DecodeCommandFrame(s: Host, c: byte, value: seq<byte>)
    requires Ready(s) && Opens(c)
    ensures var t := Decode(s, CommandFrame(c, value));
            && t.delivered == s.delivered
            && (t.alive <==> !Kills(c, value))
            && (t.alive ==> Ready(t))
    ensures Kills(c, value) <==> (c == 0x90 && |value| >= 1) || ((c == 0x21 || c == 0x22) && |value| >= 4)
  {
    KillsIs(c, value);
    hide Stuff, Stuffed, Kills;
    DecodeConcat(s, [FEND, c] + Stuffed(value), [FEND]);
    DecodeConcat(s, [FEND, c], Stuffed(value));
    DecodeOpening(s, c);
    var open := Decode(s, [FEND, c]);
    DecodeCommandBody(open, c, value);
    DecodeOne(Decode(open, Stuffed(value)), FEND);
  }

  /** Command bytes of the two reports kept here. */
  predicate IsReport(c: byte) { c == CMD_FREQUENCY || c == CMD_BANDWIDTH }

  /** s with one of its two reports read. */
  predicate Reported(s: Host, t: Host, c: byte, value: Option<nat>) {
    && (c == CMD_FREQUENCY ==> t.bandwidth == s.bandwidth && t.frequency == value)
    && (c == CMD_BANDWIDTH ==> t.frequency == s.frequency && t.bandwidth == value)
  }

  function ReportIn(s: Host, c: byte): Option<nat> { if c == CMD_FREQUENCY then s.frequency else s.bandwidth }

  /** A stuffed byte of a report adds itself to the value, whatever byte it is. */
  lemma DecodeWordByte(s: Host, c: byte, b: byte)
    requires IsReport(c) && InCommand(s, c)
    ensures InCommand(Decode(s, Stuff(b)), c)
    ensures Decode(s, Stuff(b)).cmd == s.cmd + [b]
    ensures Reported(s, Decode(s, Stuff(b)), c, if |s.cmd| == 3 then Some(Quad(s.cmd + [b])) else ReportIn(s, c))
  {
    hide Quad;
    if b == FEND {
      DecodeTwo(s, FESC, TFEND);
    } else if b == FESC {
      DecodeTwo(s, FESC, TFESC);
    } else {
      DecodeOne(s, b);
    }
  }

  lemma {:induction false} DecodeWord(s: Host, c: byte, value: seq<byte>)
    requires IsReport(c) && InCommand(s, c) && s.cmd == [] && |value| <= 4
    ensures var t := Decode(s, Stuffed(value));
            && InCommand(t, c) && t.cmd == value
            && Reported(s, t, c, if |value| == 4 then Some(Quad(value)) else ReportIn(s, c))
  {
    hide Step, Stuff, Quad;
    if value != [] {
      var init, b := value[..|value| - 1], value[|value| - 1];
      DecodeWord(s, c, init);
      DecodeConcat(s, Stuffed(init), Stuff(b));
      DecodeWordByte(Decode(s, Stuffed(init)), c, b);
      assert init + [b] == value;
    }
  }

  lemma DecodeReport(s: Host, c: byte, value: seq<byte>)
    requires Ready(s) && IsReport(c) && |value| == 4
    ensures var t := Decode(s, CommandFrame(c, value));
            Ready(t) && Reported(s, t, c, Some(Quad(value))) && t.delivered == s.delivered
  {
    hide Stuff, Stuffed, Quad;
    DecodeCommandFrame(s, c, value);
    DecodeConcat(s, [FEND, c] + Stuffed(value), [FEND]);
    DecodeConcat(s, [FEND, c], Stuffed(value));
    DecodeOpening(s, c);
    var open := Decode(s, [FEND, c]);
    DecodeWord(open, c, value);
    DecodeOne(Decode(open, Stuffed(value)), FEND);
  }

  /** A frequency report of four big-endian bytes, any of which may need escaping, is read back. */
  lemma FrequencyReport(s: Host, value: seq<byte>)
    requires Ready(s) && |value| == 4
    ensures var t := Decode(s, CommandFrame(0x01, value));
            && Ready(t) && t.delivered == s.delivered && t.bandwidth == s.bandwidth
            && t.frequency
               == Some(value[0] as int * 16777216 + value[1] as int * 65536 + value[2] as int * 256 + value[3])
  {
    hide Decode;
    DecodeReport(s, 0x01, value);
  }

  /** And so is a bandwidth report. */
  lemma BandwidthReport(s: Host, value: seq<byte>)
    requires Ready(s) && |value| == 4
    ensures var t := Decode(s, CommandFrame(0x02, value));
            && Ready(t) && t.delivered == s.delivered && t.frequency == s.frequency
            && t.bandwidth
               == Some(value[0] as int * 16777216 + value[1] as int * 65536 + value[2] as int * 256 + value[3])
  {
    hide Decode;
    DecodeReport(s, 0x02, value);
  }

  datatype Message = Data(payload: seq<byte>) | Command(c: byte, value: seq<byte>)

  function Wire(ms: seq<Message>): seq<byte> {
    if ms == [] then []
    else
      var m := ms[|ms| - 1];
      Wire(ms[..|ms| - 1]) + FrameOf(m)
  }

  function FrameOf(m: Message): seq<byte> {
    if m.Data? then DataFrame(m.payload) else CommandFrame(m.c, m.value)
  }

  function Sent(m: Message): seq<seq<byte>> {
    if m.Data? then [Take(m.payload, HOST_MTU)] else []
  }

  /** The payloads of the data messages, each cut to 500 bytes. */
  function PayloadsOf(ms: seq<Message>): seq<seq<byte>> {
    if ms == [] then []
    else
      var m := ms[|ms| - 1];
      PayloadsOf(ms[..|ms| - 1]) + Sent(m)
  }

  predicate Legal(ms: seq<Message>) { forall k :: 0 <= k < |ms| && ms[k].Command? ==> Opens(ms[k].c) }

  predicate KillsIt(m: Message) { m.Command? && Kills(m.c, m.value) }

  /** Position of the first message that ends the host's loop, or |ms|. */
  function FirstKill(ms: seq<Message>): (k: nat)
    ensures k <= |ms|
    ensures forall i :: 0 <= i < k ==> !KillsIt(ms[i])
    ensures k < |ms| ==> KillsIt(ms[k])
  {
    if ms == [] then 0
    else
      var k, m := FirstKill(ms[..|ms| - 1]), ms[|ms| - 1];
      if k < |ms| - 1 then k else if KillsIt(m) then k else |ms|
  }

  /** Any concatenation of data and command frames: each payload's first 500 bytes are delivered, once
      each and in order, up to the first frame that ends the host's loop, and nothing after it. */
  lemma {:induction false} StreamRoundTrip(ms: seq<Message>)
    requires Legal(ms)
    ensures var s := Decode(CLEAN, Wire(ms));
            && s.delivered == PayloadsOf(ms[..FirstKill(ms)])
            && (s.alive <==> FirstKill(ms) == |ms|)
            && (s.alive ==> Ready(s))
  {
    hide Decode, FrameOf, Sent, Opens, KillsIt, Ready, FirstKill, PayloadsOf;
    FirstKillNext(ms);
    if ms == [] {
      CleanReady();
    } else {
      var init, m := ms[..|ms| - 1], ms[|ms| - 1];
      StreamRoundTrip(init);
      var s := Decode(CLEAN, Wire(init));
      DecodeConcat(CLEAN, Wire(init), FrameOf(m));
      if s.alive { DecodeMessage(s, m); } else { DecodeDead(s, FrameOf(m)); }
    }
  }

  /** How the first killing message and the payloads before it change with one more message. */
  lemma FirstKillNext(ms: seq<Message>)
    ensures ms == [] ==> FirstKill(ms) == 0 && PayloadsOf(ms[..0]) == []
    ensures ms != [] ==>
      var init, m := ms[..|ms| - 1], ms[|ms| - 1];
      var delivered := PayloadsOf(init[..FirstKill(init)]);
      && (FirstKill(ms) == |ms| <==> FirstKill(init) == |init| && !KillsIt(m))
      && PayloadsOf(ms[..FirstKill(ms)]) == delivered + (if FirstKill(ms) == |ms| then Sent(m) else [])
  {
    hide Kills, Sent, PayloadsOf;
    if ms == [] {
      PayloadsNone();
    } else {
      var init := ms[..|ms| - 1];
      assert init[..FirstKill(init)] == ms[..FirstKill(init)];
      if FirstKill(ms) == |ms| {
        PayloadsNext(ms);
        assert init[..|init|] == init && ms[..|ms|] == ms;
      }
    }
  }

  lemma PayloadsNone()
    ensures PayloadsOf([]) == []
  {}

  lemma PayloadsNext(ms: seq<Message>)
    requires ms != []
    ensures PayloadsOf(ms) == PayloadsOf(ms[..|ms| - 1]) + Sent(ms[|ms| - 1])
  {}

  /** One frame between others. */
  lemma DecodeMessage(s: Host, m: Message)
    requires Ready(s) && (m.Command? ==> Opens(m.c))
    ensures var t := Decode(s, FrameOf(m));
            && t.delivered == s.delivered + (if KillsIt(m) then [] else Sent(m))
            && (t.alive <==> !KillsIt(m)) && (t.alive ==> Ready(t))
  {
    hide Decode, DataFrame, CommandFrame, Opens, Kills;
    if m.Data? { DecodeDataFrame(s, m.payload); } else { DecodeCommandFrame(s, m.c, m.value); }
    ReadyAlive(Decode(s, FrameOf(m)));
  }

  lemma CleanReady()
    ensures Ready(CLEAN) && Decode(CLEAN, []) == CLEAN
  {}

  lemma ReadyAlive(s: Host)
    ensures Ready(s) ==> s.alive
  {}

  /** Every payload arrives exactly when no data frame comes after the first frame that ends the loop. */
  lemma StreamComplete(ms: seq<Message>)
    requires Legal(ms)
    ensures Decode(CLEAN, Wire(ms)).delivered == PayloadsOf(ms)
       <==> forall i :: FirstKill(ms) <= i < |ms| ==> ms[i].Command?
  {
    hide Legal, FirstKill, Wire, PayloadsOf;
    StreamRoundTrip(ms);
    PayloadsOfPrefix(ms, FirstKill(ms));
  }

  lemma {:induction false} PayloadsOfPrefix(ms: seq<Message>, k: nat)
    requires k <= |ms|
    ensures |PayloadsOf(ms[..k])| <= |PayloadsOf(ms)|
    ensures PayloadsOf(ms[..k]) == PayloadsOf(ms) <==> forall i :: k <= i < |ms| ==> ms[i].Command?
  {
    if k == |ms| {
      assert ms[..k] == ms;
    } else {
      var init := ms[..|ms| - 1];
      assert init[..k] == ms[..k];
      PayloadsOfPrefix(init, k);
      assert forall i :: k <= i < |init| ==> init[i] == ms[i];
    }
  }

  /** One statistics report is enough to lose all data after it. */
  lemma ReportSilencesHost(payload: seq<byte>)
    ensures var s := Decode(CLEAN, CommandFrame(CMD_STAT_RX, [0, 0, 0, 1]) + DataFrame(payload));
            !s.alive && s.delivered == []
  {
    hide Stuffed, Step;
    var report := CommandFrame(CMD_STAT_RX, [0, 0, 0, 1]);
    CleanReady();
    DecodeCommandFrame(CLEAN, CMD_STAT_RX, [0, 0, 0, 1]);
    DecodeConcat(CLEAN, report, DataFrame(payload));
    DecodeDead(Decode(CLEAN, report), DataFrame(payload));
  }

  // ---- readLoop -----------------------------------------------------------------------------------------

  /** How readLoop appends a byte to one of its buffers, unescaping it. */
  method CollectByte(commandBuffer: seq<byte>, escape: bool, b0: byte) returns (buffer: seq<byte>, esc: bool)
    ensures b0 == FESC ==> buffer == commandBuffer && esc
    ensures b0 != FESC ==> buffer == commandBuffer + [Unescape(escape, b0)] && !esc
  {
    var b := b0;
    buffer, esc := commandBuffer, escape;
    if b == FESC {
      esc := true;
    } else {
      if esc {
        if b == TFEND { b := FEND; }
        if b == TFESC { b := FESC; }
        esc := false;
      }
      buffer := buffer + [b];
    }
  }

  /** readLoop over the bytes that arrive before the port closes. Of any legal stream it delivers each
      payload's first 500 bytes up to the first frame that ends the loop. */
  method ReadLoop(bytes: seq<byte>) returns (delivered: seq<seq<byte>>, online: bool)
    ensures delivered == Decode(CLEAN, bytes).delivered && online == Decode(CLEAN, bytes).alive
    ensures forall ms :: Legal(ms) && bytes == Wire(ms) ==>
      delivered == PayloadsOf(ms[..FirstKill(ms)]) && (online <==> FirstKill(ms) == |ms|)
  {
    hide Legal, FirstKill, PayloadsOf, Wire, Quad, Unescape;
    var inFrame, escape := false, false;
    var command: byte := CMD_UNKNOWN;
    var dataBuffer, commandBuffer: seq<byte> := [], [];
    var frequency, bandwidth: Option<nat> := None, None;
    delivered, online := [], true;
    var i := 0;
    while i < |bytes| && online
      invariant i <= |bytes|
      invariant Host(inFrame, escape, command, dataBuffer, commandBuffer, delivered, frequency, bandwidth, online)
             == Decode(CLEAN, bytes[..i])
    {
      var b := bytes[i];
      assert bytes[..i + 1][..i] == bytes[..i];
      i := i + 1;
      if inFrame && b == FEND && command == CMD_DATA {
        inFrame := false;
        delivered := delivered + [dataBuffer];
        dataBuffer, commandBuffer := [], [];
      } else if b == FEND {
        inFrame := true;
        command := CMD_UNKNOWN;
        dataBuffer, commandBuffer := [], [];
      } else if inFrame && |dataBuffer| < HOST_MTU {
        if |dataBuffer| == 0 && command == CMD_UNKNOWN {
          command := b;
        } else if command == CMD_DATA {
          dataBuffer, escape := CollectByte(dataBuffer, escape, b);
        } else if command == CMD_FREQUENCY {
          commandBuffer, escape := CollectByte(commandBuffer, escape, b);
          if b != FESC && |commandBuffer| == 4 { frequency := Some(Quad(commandBuffer)); }
        } else if command == CMD_BANDWIDTH {
          commandBuffer, escape := CollectByte(commandBuffer, escape, b);
          if b != FESC && |commandBuffer| == 4 { bandwidth := Some(Quad(commandBuffer)); }
        } else if command == CMD_STAT_RX || command == CMD_STAT_TX {
          commandBuffer, escape := CollectByte(commandBuffer, escape, b);
          if b != FESC && |commandBuffer| == 4 { online := false; }
        } else if command == CMD_ERROR {
          online := false;
        }
      }
    }
    assert bytes == bytes[..i] + bytes[i..];
    DecodeConcat(CLEAN, bytes[..i], bytes[i..]);
    if !online { DecodeDead(Decode(CLEAN, bytes[..i]), bytes[i..]); } else { assert bytes[..i] == bytes; }
    forall ms | Legal(ms) && bytes == Wire(ms)
      ensures delivered == PayloadsOf(ms[..FirstKill(ms)]) && (online <==> FirstKill(ms) == |ms|)
    {
      StreamRoundTrip(ms);
    }
  }

  // ---- The bytes of a frame -------------------------------------------------------------------------------

  /** Where any byte b of a payload stands in its frame, and as what. */
  lemma FrameAround(a: seq<byte>, b: byte, c: seq<byte>)
    ensures DataFrame(a + [b] + c)
         == [0xC0, 0x00] + Stuffed(a) + (if b == 0xC0 then [0xDB, 0xDC] else if b == 0xDB then [0xDB, 0xDD] else [b])
            + Stuffed(c) + [0xC0]
    ensures DataFrame([]) == [0xC0, 0x00, 0xC0] && Stuffed([]) == []
  {
    NoneStuffed();
    hide Stuffed;
    StuffedConcat(a + [b], c);
    StuffedConcat(a, [b]);
    StuffedOne(b);
    Regroup(Stuffed(a), Stuffed([b]), Stuffed(c));
  }

  lemma Regroup(x: seq<byte>, y: seq<byte>, z: seq<byte>)
    ensures [0xC0, 0x00] + (x + y + z) + [0xC0] == [0xC0, 0x00] + x + y + z + [0xC0]
  {}

  lemma NoneStuffed()
    ensures Stuffed([]) == []
  {}

  lemma StuffedOne(b: byte)
    ensures Stuffed([b]) == if b == 0xC0 then [0xDB, 0xDC] else if b == 0xDB then [0xDB, 0xDD] else [b]
  {
    assert [b][..0] == [];
  }

  /** No byte inside a frame reads as its end. */
  lemma FrameEnds(data: seq<byte>)
    ensures var f := DataFrame(data);
            |f| >= 3 && f[0] == 0xC0 && f[|f| - 1] == 0xC0 && 0xC0 !in f[1..|f| - 1]
  {
    hide Stuffed;
    StuffedHasNoEnd(data);
    var f := DataFrame(data);
    assert f[1..|f| - 1] == [0x00] + Stuffed(data);
  }

  // ---- What a malformed frame can do ----------------------------------------------------------------------

  lemma {:induction false} StuffedConcat(a: seq<byte>, b: seq<byte>)
    ensures Stuffed(a + b) == Stuffed(a) + Stuffed(b)
  {
    hide Stuff;
    if b == [] {
      assert a + b == a;
    } else {
      assert (a + b)[..|a + b| - 1] == a + b[..|b| - 1];
      StuffedConcat(a, b[..|b| - 1]);
    }
  }

  lemma StuffedFirst(payload: seq<byte>)
    requires payload != []
    ensures Stuffed(payload) == Stuff(payload[0]) + Stuffed(payload[1..])
  {
    hide Stuff;
    assert payload == [payload[0]] + payload[1..];
    StuffedConcat([payload[0]], payload[1..]);
    assert [payload[0]][..0] == [];
    assert Stuffed([payload[0]]) == [] + Stuff(payload[0]);
  }

  /** The first payload byte of a frame, with the escape flag as it was left. */
  lemma DecodeFirst(s: Host, b: byte)
    requires s.alive && s.inFrame && s.command == CMD_DATA && s.data == []
    ensures Decode(s, Stuff(b))
         == s.(escape := false, data := [if s.escape && b in {TFEND, TFESC} then Unescape(true, b) else b])
  {
    if b == FEND {
      DecodeTwo(s, FESC, TFEND);
    } else if b == FESC {
      DecodeTwo(s, FESC, TFESC);
    } else {
      DecodeOne(s, b);
    }
  }

  /** A data frame is open: the next END closes it, whatever was meant. */
  predicate DataOpen(s: Host) { s.inFrame && s.command == CMD_DATA }

  /** Between data frames a leftover escape flag spoils the next data frame exactly when its payload
      starts with an unescaped TFEND or TFESC byte. The flag is left over by an ESC before END. */
  lemma LeftoverEscape(s: Host, payload: seq<byte>)
    requires s.alive && !DataOpen(s)
    ensures Decode(s, DataFrame(payload)).delivered == s.delivered + [Take(payload, HOST_MTU)]
       <==> !(s.escape && payload != [] && payload[0] in {TFEND, TFESC})
  {
    hide Stuff, Stuffed, Decode, Unescape;
    DecodeConcat(s, [FEND, CMD_DATA] + Stuffed(payload), [FEND]);
    DecodeConcat(s, [FEND, CMD_DATA], Stuffed(payload));
    DecodeOpening(s, CMD_DATA);
    var open := Decode(s, [FEND, CMD_DATA]);
    if payload == [] {
      NothingStuffed(open);
      DecodeOne(open, FEND);
    } else {
      hide Take;
      var b, rest := payload[0], payload[1..];
      StuffedFirst(payload);
      DecodeConcat(open, Stuff(b), Stuffed(rest));
      DecodeFirst(open, b);
      var q := if s.escape && b in {TFEND, TFESC} then Unescape(true, b) else b;
      DecodeStuffed(open.(escape := false, data := [q]), rest);
      DecodeOne(Decode(open, Stuffed(payload)), FEND);
      TakeFirst(q, rest);
      TakeFirst(b, rest);
      assert [b] + rest == payload;
      UnescapeChanges(b);
      SameLast(s.delivered, Take([q] + rest, HOST_MTU), Take(payload, HOST_MTU));
    }
  }

  lemma {:induction false} Ignored(s: Host, bytes: seq<byte>)
    requires s.alive && !s.inFrame && FEND !in bytes
    ensures Decode(s, bytes) == s
  {
    if bytes != [] { Ignored(s, bytes[..|bytes| - 1]); }
  }

  lemma {:induction false} StuffedHasNoEnd(data: seq<byte>)
    ensures FEND !in Stuffed(data)
  {
    if data != [] { StuffedHasNoEnd(data[..|data| - 1]); }
  }

  /** If a data frame is still open, the next one is lost: its first END delivers what was open. */
  lemma OpenFrameSwallows(s: Host, payload: seq<byte>)
    requires s.alive && DataOpen(s)
    ensures Decode(s, DataFrame(payload)).delivered == s.delivered + [s.data]
  {
    hide Stuffed, Decode;
    var body := [CMD_DATA] + Stuffed(payload);
    assert DataFrame(payload) == [FEND] + body + [FEND];
    DecodeConcat(s, [FEND] + body, [FEND]);
    DecodeConcat(s, [FEND], body);
    DecodeOne(s, FEND);
    StuffedHasNoEnd(payload);
    Ignored(Step(s, FEND), body);
    DecodeOne(Step(s, FEND), FEND);
  }

  /** After an idle timeout, in any state, the next data frame is delivered whole exactly when bytes of
      an open frame were discarded, or no data frame was open and no escape flag spoils it. A data
      frame that stalls before its first payload byte stays open through the timeout. */
  lemma Resynchronises(s: Host, payload: seq<byte>)
    requires s.alive
    ensures Decode(Timeout(s), DataFrame(payload)).delivered == s.delivered + [Take(payload, HOST_MTU)]
       <==> || s.data != []
            || (if DataOpen(s) then payload == [] else !(s.escape && payload != [] && payload[0] in {TFEND, TFESC}))
  {
    hide Decode, Step, DataFrame;
    var t := Timeout(s);
    if DataOpen(t) {
      OpenFrameSwallows(t, payload);
      SameLast(s.delivered, t.data, Take(payload, HOST_MTU));
    } else {
      LeftoverEscape(t, payload);
    }
  }

  /** A link that stalls right after a data frame's command byte. */
  lemma StalledOpening(payload: seq<byte>)
    requires payload != []
    ensures var s := Decode(CLEAN, [FEND, CMD_DATA]);
            Timeout(s) == s && Decode(Timeout(s), DataFrame(payload)).delivered == [[]]
  {
    DecodeTwo(CLEAN, FEND, CMD_DATA);
    OpenFrameSwallows(Decode(CLEAN, [FEND, CMD_DATA]), payload);
    var none: seq<seq<byte>> := [];
    assert none + [[]] == [[]];
  }

  lemma TakeFirst(b: byte, rest: seq<byte>)
    ensures Take([b] + rest, HOST_MTU) != [] && Take([b] + rest, HOST_MTU)[0] == b
  {}

  lemma UnescapeChanges(b: byte)
    ensures b in {TFEND, TFESC} ==> Unescape(true, b) != b
  {}

  lemma NothingStuffed(s: Host)
    ensures Decode(s, Stuffed([])) == s
  {}

  lemma SameLast(d: seq<seq<byte>>, a: seq<byte>, b: seq<byte>)
    ensures d + [a] == d + [b] <==> a == b
  {
    assert (d + [a])[|d|] == a && (d + [b])[|d|] == b;
  }

  /** An ESC just before END leaves the flag behind. */
  lemma EscapeSurvives()
    ensures var s := Decode(CLEAN, [FEND, CMD_DATA, FESC, FEND]);
            s.alive && !s.inFrame && s.escape
  {
    assert [FEND, CMD_DATA, FESC, FEND] == [FEND, CMD_DATA] + [FESC, FEND];
    DecodeConcat(CLEAN, [FEND, CMD_DATA], [FESC, FEND]);
    DecodeTwo(CLEAN, FEND, CMD_DATA);
    DecodeTwo(Decode(CLEAN, [FEND, CMD_DATA]), FESC, FEND);
  }

  /** The same in a command frame, after which the decoder is still in a frame. */
  lemma EscapeSurvivesCommand()
    ensures var s := Decode(CLEAN, [FEND, CMD_FREQUENCY, FESC, FEND]);
            s.alive && s.inFrame && !DataOpen(s) && s.escape
  {
    assert [FEND, CMD_FREQUENCY, FESC, FEND] == [FEND, CMD_FREQUENCY] + [FESC, FEND];
    DecodeConcat(CLEAN, [FEND, CMD_FREQUENCY], [FESC, FEND]);
    DecodeTwo(CLEAN, FEND, CMD_FREQUENCY);
    DecodeTwo(Decode(CLEAN, [FEND, CMD_FREQUENCY]), FESC, FEND);
  }
}
