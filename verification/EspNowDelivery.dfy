/** What the ESP-NOW reassembly delivers, for arbitrary frames and end to end. */
module EspNowDelivery {
  import opened Common
  import opened EspNow

  // ---- Sequences of frames ---------------------------------------------------------------

  lemma AppendAssoc(a: seq<seq<byte>>, b: seq<seq<byte>>, last: Option<seq<byte>>)
    ensures Append(a + b, last) == a + Append(b, last)
  {
    if last.Some? { assert a + b + [last.value] == a + (b + [last.value]); }
  }

  lemma {:induction false} RecvAllConcat(rx: Rx, a: seq<Frame>, b: seq<Frame>)
    ensures var (mid, out) := RecvAll(rx, a);
            RecvAll(rx, a + b) == (RecvAll(mid, b).0, out + RecvAll(mid, b).1)
  {
    hide Recv, Append;
    if b == [] {
      assert a + b == a;
      assert RecvAll(rx, a).1 + [] == RecvAll(rx, a).1;
    } else {
      assert (a + b)[..|a + b| - 1] == a + b[..|b| - 1];
      assert (a + b)[|a + b| - 1] == b[|b| - 1];
      RecvAllConcat(rx, a, b[..|b| - 1]);
      var mid := RecvAll(rx, a).0;
      var (mid', out') := RecvAll(mid, b[..|b| - 1]);
      AppendAssoc(RecvAll(rx, a).1, out', Recv(mid', b[|b| - 1]).1);
    }
  }

  lemma RecvOne(rx: Rx, f: Frame)
    ensures RecvAll(rx, [f]) == (Recv(rx, f).0, Append([], Recv(rx, f).1))
  {
    assert [f][..0] == [];
    assert RecvAll(rx, []) == (rx, []);
  }

  lemma RecvFirst(rx: Rx, fs: seq<Frame>)
    requires fs != []
    ensures var (mid, first) := Recv(rx, fs[0]);
            RecvAll(rx, fs) == (RecvAll(mid, fs[1..]).0, Append([], first) + RecvAll(mid, fs[1..]).1)
  {
    hide Recv, Append;
    RecvOne(rx, fs[0]);
    RecvAllConcat(rx, [fs[0]], fs[1..]);
    assert [fs[0]] + fs[1..] == fs;
  }

  /** The frames that carry payload; the receiver ignores the others. */
  function Useful(fs: seq<Frame>): (u: seq<Frame>)
    ensures forall k :: 0 <= k < |u| ==> |u[k]| > 1
  {
    if fs == [] then []
    else Useful(fs[..|fs| - 1]) + (if |fs[|fs| - 1]| > 1 then [fs[|fs| - 1]] else [])
  }

  lemma {:induction false} RecvUseful(rx: Rx, fs: seq<Frame>)
    ensures RecvAll(rx, Useful(fs)) == RecvAll(rx, fs)
  {
    if fs != [] {
      var init, f := fs[..|fs| - 1], fs[|fs| - 1];
      RecvUseful(rx, init);
      if |f| > 1 {
        assert (Useful(init) + [f])[..|Useful(init)|] == Useful(init);
      } else {
        assert Useful(fs) == Useful(init);
      }
    }
  }

  /** The concatenated payload bytes of some frames. */
  function Chunks(fs: seq<Frame>): seq<byte>
    requires forall k :: 0 <= k < |fs| ==> |fs[k]| > 0
  {
    if fs == [] then [] else Chunks(fs[..|fs| - 1]) + fs[|fs| - 1][1..]
  }

  /** Frames of one tag, every one with more to follow. */
  predicate Open(fs: seq<Frame>, tag: int) {
    forall k :: 0 <= k < |fs| ==> |fs[k]| > 1 && TagOf(fs[k][0]) == tag && More(fs[k])
  }

  /** p is carried by exactly these frames: one tag, and only the last without the MORE bit. */
  predicate IsRun(fs: seq<Frame>, p: seq<byte>) {
    && |fs| > 0
    && (var last := fs[|fs| - 1];
        && |last| > 1 && !More(last)
        && Open(fs[..|fs| - 1], TagOf(last[0]))
        && p == Chunks(fs))
  }

  // ---- Arbitrary frames ----------------------------------------------------------------------

  /** The runs of u that were delivered, in order and without overlap: start and end positions. */
  predicate Accounts(u: seq<Frame>, spans: seq<(nat, nat)>, out: seq<seq<byte>>, upTo: nat) {
    && |spans| == |out| && upTo <= |u|
    && (forall k :: 0 <= k < |spans| ==> spans[k].0 < spans[k].1 <= upTo && IsRun(u[spans[k].0..spans[k].1], out[k]))
    && (forall j, k :: 0 <= j < k < |spans| ==> spans[j].1 <= spans[k].0)
    && (forall k :: 0 <= k < |out| ==> 1 <= |out[k]| <= 508)
  }

  /** The state is the chunks received since position start, all of one tag with more to follow. */
  predicate Pending(u: seq<Frame>, start: nat, rx: Rx) {
    && start <= |u| && Open(u[start..], rx.tag) && rx.buf == Chunks(u[start..]) && |rx.buf| <= 508
    && (start == |u| <==> rx == IDLE)
  }

  lemma OpenExtend(fs: seq<Frame>, f: Frame, tag: int)
    requires Open(fs, tag) && |f| > 1
    ensures Chunks(fs + [f]) == Chunks(fs) + f[1..]
    ensures TagOf(f[0]) == tag && More(f) ==> Open(fs + [f], tag)
    ensures TagOf(f[0]) == tag && !More(f) ==> IsRun(fs + [f], Chunks(fs + [f]))
  {
    assert (fs + [f])[..|fs|] == fs;
  }

  lemma AccountsExtend(u: seq<Frame>, f: Frame, spans: seq<(nat, nat)>, out: seq<seq<byte>>, upTo: nat)
    requires Accounts(u, spans, out, upTo)
    ensures Accounts(u + [f], spans, out, upTo)
  {
    forall k | 0 <= k < |spans|
      ensures IsRun((u + [f])[spans[k].0..spans[k].1], out[k])
    {
      assert (u + [f])[spans[k].0..spans[k].1] == u[spans[k].0..spans[k].1];
    }
  }

  lemma AccountMore(u: seq<Frame>, f: Frame, spans: seq<(nat, nat)>, out: seq<seq<byte>>, start: nat)
    requires |f| > 1 && More(f) && Accounts(u, spans, out, start) && Open(u[start..], TagOf(f[0]))
    requires |Chunks(u[start..])| + |f| - 1 <= MTU
    ensures Accounts(u + [f], spans, out, start)
    ensures Pending(u + [f], start, Rx(Chunks(u[start..]) + f[1..], TagOf(f[0])))
  {
    hide IsRun, Open;
    AccountsExtend(u, f, spans, out, start);
    assert (u + [f])[start..] == u[start..] + [f];
    OpenExtend(u[start..], f, TagOf(f[0]));
  }

  lemma AccountLast(u: seq<Frame>, f: Frame, spans: seq<(nat, nat)>, out: seq<seq<byte>>, start: nat)
    requires |f| > 1 && !More(f) && Accounts(u, spans, out, start) && Open(u[start..], TagOf(f[0]))
    requires |Chunks(u[start..])| + |f| - 1 <= MTU
    ensures Accounts(u + [f], spans + [(start, |u| + 1)], out + [Chunks(u[start..]) + f[1..]], |u| + 1)
  {
    hide Open, IsRun;
    AccountsExtend(u, f, spans, out, start);
    assert (u + [f])[start..|u| + 1] == u[start..] + [f];
    OpenExtend(u[start..], f, TagOf(f[0]));
  }

  /** Nothing is pending at the end. */
  lemma PendingNone(u: seq<Frame>)
    ensures Pending(u, |u|, IDLE)
  {
    assert u[|u|..] == [];
  }

  /** One payload-carrying frame moves the account forward. */
  lemma AccountStep(u: seq<Frame>, f: Frame, rx: Rx, out: seq<seq<byte>>, start0: nat, spans0: seq<(nat, nat)>)
    returns (start: nat, spans: seq<(nat, nat)>)
    requires |f| > 1 && Accounts(u, spans0, out, start0) && Pending(u, start0, rx)
    ensures Accounts(u + [f], spans, Append(out, Recv(rx, f).1), start)
    ensures Pending(u + [f], start, Recv(rx, f).0)
  {
    hide IsRun, Open, Pending, Accounts;
    start, spans := start0, spans0;
    PendingMeans(u, start0, rx);
    if TagOf(f[0]) != rx.tag {
      start := |u|;
      AccountsUpTo(u, spans, out, start0);
      assert u[|u|..] == [];
      OpenNone(TagOf(f[0]));
    }
    if |Chunks(u[start..])| + |f| - 1 > MTU {
      AccountsExtend(u, f, spans, out, start);
      AccountsUpTo(u + [f], spans, out, start);
      start := |u + [f]|;
      PendingNone(u + [f]);
    } else if More(f) {
      AccountMore(u, f, spans, out, start);
    } else {
      AccountLast(u, f, spans, out, start);
      spans := spans + [(start, |u| + 1)];
      start := |u| + 1;
      PendingNone(u + [f]);
    }
  }

  lemma PendingMeans(u: seq<Frame>, start: nat, rx: Rx)
    requires Pending(u, start, rx)
    ensures start <= |u| && Open(u[start..], rx.tag) && rx.buf == Chunks(u[start..])
  {}

  lemma AccountsUpTo(u: seq<Frame>, spans: seq<(nat, nat)>, out: seq<seq<byte>>, upTo: nat)
    requires Accounts(u, spans, out, upTo)
    ensures Accounts(u, spans, out, |u|)
  {}

  lemma OpenNone(tag: int)
    ensures Open([], tag)
  {}

  /** Whatever frames arrive (lost, reordered, from several senders), each delivered payload is the
      concatenation of a contiguous run of the payload-carrying frames, all of one tag, all but the
      last marked MORE; the runs are disjoint and in order; and nothing longer than the buffer is held. */
  lemma {:induction false} DeliveredRuns(fs: seq<Frame>) returns (start: nat, spans: seq<(nat, nat)>)
    ensures var (rx, out) := RecvAll(IDLE, fs);
            Accounts(Useful(fs), spans, out, start) && Pending(Useful(fs), start, rx)
  {
    if fs == [] {
      return 0, [];
    }
    hide Recv, Accounts, Pending;
    var init, f := fs[..|fs| - 1], fs[|fs| - 1];
    start, spans := DeliveredRuns(init);
    var (rx, out) := RecvAll(IDLE, init);
    if |f| <= 1 {
      RecvIgnores(rx, f);
      assert Useful(fs) == Useful(init);
    } else {
      start, spans := AccountStep(Useful(init), f, rx, out, start, spans);
    }
  }

  lemma RecvIgnores(rx: Rx, f: Frame)
    requires |f| <= 1
    ensures Recv(rx, f) == (rx, None)
  {}

  // ---- Complete packets --------------------------------------------------------------------------

  /** The receiver holds nothing that a frame of this tag would be appended to. */
  predicate Clear(rx: Rx, tag: int) { rx.tag != tag || rx.buf == [] }

  lemma {:induction false} ChunksLength(fs: seq<Frame>, k: nat)
    requires k <= |fs| && forall i :: 0 <= i < |fs| ==> |fs[i]| > 0
    ensures |Chunks(fs[..k])| <= |Chunks(fs)|
  {
    if k < |fs| {
      assert fs[..|fs| - 1][..k] == fs[..k];
      ChunksLength(fs[..|fs| - 1], k);
    } else {
      assert fs[..k] == fs;
    }
  }

  lemma {:induction false} OpenPrefix(rx: Rx, fs: seq<Frame>, tag: int)
    requires Open(fs, tag) && Clear(rx, tag) && |Chunks(fs)| <= MTU
    ensures fs != [] ==> RecvAll(rx, fs) == (Rx(Chunks(fs), tag), [])
  {
    if |fs| == 1 {
      RecvOne(rx, fs[0]);
      assert fs == [fs[0]] && fs[..0] == [];
    } else if |fs| > 1 {
      ChunksLength(fs, |fs| - 1);
      OpenPrefix(rx, fs[..|fs| - 1], tag);
    }
  }

  /** A complete run that fits is delivered once and whole, whatever was received before it, unless
      a partial packet of the same tag is pending. */
  lemma RunDelivered(rx: Rx, fs: seq<Frame>, p: seq<byte>)
    requires IsRun(fs, p) && |p| <= MTU && Clear(rx, TagOf(fs[|fs| - 1][0]))
    ensures RecvAll(rx, fs) == (IDLE, [p])
  {
    var init, last := fs[..|fs| - 1], fs[|fs| - 1];
    ChunksLength(fs, |fs| - 1);
    OpenPrefix(rx, init, TagOf(last[0]));
    if init == [] {
      RecvOne(rx, last);
      assert fs == [last] && Chunks(fs) == [] + last[1..];
    }
    assert [] + [p] == [p] && [] + last[1..] == last[1..];
  }

  /** A packet's frames are a run that carries the packet; each fits one radio frame. */
  lemma {:induction false} FragmentsRun(data: seq<byte>, tag: Tag)
    requires data != []
    ensures var fs := Fragments(data, tag);
            && IsRun(fs, data) && TagOf(fs[|fs| - 1][0]) == tag
            && forall k :: 0 <= k < |fs| ==> |fs[k]| <= 250
  {
    var fs := Fragments(data, tag);
    if |data| <= CHUNK {
      OneFrameRun([tag] + data, data);
    } else {
      hide IsRun;
      var rest := Fragments(data[CHUNK..], tag);
      FragmentsRun(data[CHUNK..], tag);
      var f := [tag + 1] + data[..CHUNK];
      assert fs == [f] + rest && f[1..] == data[..CHUNK];
      assert TagOf(tag + 1) == tag && (tag + 1) % 2 == 1;
      RunFront(f, rest, data[CHUNK..]);
      assert f[1..] + data[CHUNK..] == data;
    }
  }

  lemma OneFrameRun(f: Frame, p: seq<byte>)
    requires |f| > 1 && !More(f) && p == f[1..]
    ensures IsRun([f], p)
  {
    assert [f][..0] == [];
    assert Chunks([f]) == [] + f[1..];
  }

  /** A frame with more to follow, before a run of the same tag. */
  lemma RunFront(f: Frame, fs: seq<Frame>, p: seq<byte>)
    requires IsRun(fs, p) && |f| > 1 && More(f) && TagOf(f[0]) == TagOf(fs[|fs| - 1][0])
    ensures IsRun([f] + fs, f[1..] + p)
  {
    assert ([f] + fs)[..|[f] + fs| - 1] == [f] + fs[..|fs| - 1];
    ChunksFront(f, fs);
  }

  lemma {:induction false} ChunksFront(f: Frame, fs: seq<Frame>)
    requires |f| > 0 && forall k :: 0 <= k < |fs| ==> |fs[k]| > 0
    ensures Chunks([f] + fs) == f[1..] + Chunks(fs)
  {
    if fs == [] {
      assert [f] + fs == [f] && [f][..0] == [];
      assert Chunks([f]) == [] + f[1..];
    } else {
      assert ([f] + fs)[..|fs|] == [f] + fs[..|fs| - 1];
      ChunksFront(f, fs[..|fs| - 1]);
    }
  }

  function TotalLength(out: seq<seq<byte>>): nat {
    if out == [] then 0 else TotalLength(out[..|out| - 1]) + |out[|out| - 1]|
  }

  /** The receiver invents nothing: delivered and pending bytes come from the frames. */
  lemma {:induction false} Conserved(rx: Rx, fs: seq<Frame>)
    requires forall k :: 0 <= k < |fs| ==> |fs[k]| > 0
    ensures var (end, out) := RecvAll(rx, fs);
            TotalLength(out) + |end.buf| <= |rx.buf| + |Chunks(fs)|
  {
    if fs != [] {
      Conserved(rx, fs[..|fs| - 1]);
    }
  }

  /** With a pending partial packet of the same tag, what comes out is not this packet. */
  lemma {:induction false} StaleSpoils(rx: Rx, data: seq<byte>, tag: Tag, p: seq<byte>)
    requires rx.tag == tag && data != []
    requires RecvAll(rx, Fragments(data, tag)).1 == [p]
    ensures p == rx.buf + data || |p| < |data|
    ensures |rx.buf| > 0 ==> |p| != |data|
    decreases |data|
  {
    hide RecvAll, Recv, Fragments, IsRun, TotalLength;
    if |data| <= CHUNK {
      RecvWhole(rx, data, tag);
    } else {
      var rest := Fragments(data[CHUNK..], tag);
      RecvChunk(rx, data, tag);
      FragmentsRun(data[CHUNK..], tag);
      if |rx.buf| + CHUNK > MTU {
        RunNotEmpty(rest, data[CHUNK..]);
        Conserved(IDLE, rest);
        TotalOfOne(p);
      } else {
        StaleSpoils(Rx(rx.buf + data[..CHUNK], tag), data[CHUNK..], tag, p);
        assert rx.buf + data[..CHUNK] + data[CHUNK..] == rx.buf + data;
      }
    }
  }

  /** A packet of one frame, after a pending part of the same tag. */
  lemma RecvWhole(rx: Rx, data: seq<byte>, tag: Tag)
    requires rx.tag == tag && 0 < |data| <= CHUNK
    ensures RecvAll(rx, Fragments(data, tag)).1 == if |rx.buf| + |data| > MTU then [] else [rx.buf + data]
  {
    hide RecvAll;
    var f: Frame := [tag] + data;
    assert f[1..] == data && TagOf(tag) == tag && tag % 2 == 0;
    RecvOne(rx, f);
  }

  /** The first of several frames, after a pending part of the same tag. */
  lemma RecvChunk(rx: Rx, data: seq<byte>, tag: Tag)
    requires rx.tag == tag && |data| > CHUNK
    ensures var mid := if |rx.buf| + CHUNK > MTU then IDLE else Rx(rx.buf + data[..CHUNK], tag);
            RecvAll(rx, Fragments(data, tag)) == RecvAll(mid, Fragments(data[CHUNK..], tag))
  {
    hide RecvAll;
    var f: Frame := [tag + 1] + data[..CHUNK];
    var fs, rest := Fragments(data, tag), Fragments(data[CHUNK..], tag);
    assert fs == [f] + rest && fs[0] == f && fs[1..] == rest;
    assert f[1..] == data[..CHUNK];
    assert TagOf(tag + 1) == tag && (tag + 1) % 2 == 1;
    RecvFirst(rx, fs);
    assert [] + RecvAll(Recv(rx, f).0, rest).1 == RecvAll(Recv(rx, f).0, rest).1;
  }

  lemma RunNotEmpty(fs: seq<Frame>, p: seq<byte>)
    requires IsRun(fs, p)
    ensures (forall k :: 0 <= k < |fs| ==> |fs[k]| > 0) && p == Chunks(fs)
  {}

  lemma TotalOfOne(p: seq<byte>)
    ensures TotalLength([p]) == |p|
  {
    assert [p][..0] == [];
  }

  /** A packet whose frames all arrive is delivered intact, and alone, exactly when it has 1 to 508
      bytes and no partial packet of the same tag was left behind by an earlier loss. */
  lemma PacketIntact(rx: Rx, data: seq<byte>, tag: Tag)
    ensures RecvAll(rx, Fragments(data, tag)).1 == [data] <==> 1 <= |data| <= 508 && Clear(rx, tag)
  {
    hide Recv, RecvAll, Fragments, IsRun, Clear;
    var fs := Fragments(data, tag);
    if data == [] {
      EmptyPacket(rx, tag);
    } else {
      FragmentsRun(data, tag);
      DeliveriesFit(rx, fs);
      var out := RecvAll(rx, fs).1;
      assert |out| == 1 ==> |out[0]| <= MTU;
      if 1 <= |data| <= MTU && Clear(rx, tag) {
        RunDelivered(rx, fs, data);
      } else if RecvAll(rx, fs).1 == [data] && !Clear(rx, tag) {
        NotClear(rx, tag);
        StaleSpoils(rx, data, tag, data);
      }
    }
  }

  lemma EmptyPacket(rx: Rx, tag: Tag)
    ensures RecvAll(rx, Fragments([], tag)) == (rx, [])
  {
    hide RecvAll;
    assert Fragments([], tag) == [[tag] + []];
    RecvOne(rx, [tag] + []);
    RecvIgnores(rx, [tag] + []);
  }

  lemma NotClear(rx: Rx, tag: int)
    requires !Clear(rx, tag)
    ensures rx.tag == tag && |rx.buf| > 0
  {}

  lemma {:induction false} DeliveriesFit(rx: Rx, fs: seq<Frame>)
    ensures forall k :: 0 <= k < |RecvAll(rx, fs).1| ==> |RecvAll(rx, fs).1[k]| <= MTU
  {
    if fs != [] { DeliveriesFit(rx, fs[..|fs| - 1]); }
  }

  /** Such a partial packet does arise: lose the last frame of one packet, and the next packet sent
      under the same tag is not delivered intact. */
  lemma LostLastSpoils(lost: seq<byte>, data: seq<byte>, tag: Tag)
    requires CHUNK < |lost| <= MTU
    ensures var fs := Fragments(lost, tag); var heard := fs[..|fs| - 1];
            && !Clear(RecvAll(IDLE, heard).0, tag)
            && RecvAll(IDLE, heard + Fragments(data, tag)).1 != [data]
  {
    hide Recv, Fragments;
    var fs := Fragments(lost, tag);
    var heard := fs[..|fs| - 1];
    FragmentsRun(lost, tag);
    SeveralFrames(lost, tag);
    ChunksLength(fs, |fs| - 1);
    OpenPrefix(IDLE, heard, tag);
    assert heard[|heard| - 1] == fs[|heard| - 1];
    RecvAllConcat(IDLE, heard, Fragments(data, tag));
    PacketIntact(RecvAll(IDLE, heard).0, data, tag);
  }

  lemma SeveralFrames(data: seq<byte>, tag: Tag)
    requires |data| > CHUNK
    ensures |Fragments(data, tag)| > 1
  {}

  // ---- Lost frames -----------------------------------------------------------------------------

  /** The frames of fs that are heard. */
  function Kept(fs: seq<Frame>, keep: seq<bool>): (ks: seq<Frame>)
    requires |keep| == |fs|
    ensures forall k :: 0 <= k < |ks| ==> ks[k] in fs
  {
    if fs == [] then []
    else Kept(fs[..|fs| - 1], keep[..|fs| - 1]) + if keep[|fs| - 1] then [fs[|fs| - 1]] else []
  }

  lemma {:induction false} KeptAll(fs: seq<Frame>, keep: seq<bool>)
    requires |keep| == |fs| && forall k :: 0 <= k < |fs| ==> keep[k]
    ensures Kept(fs, keep) == fs
  {
    if fs != [] {
      KeptAll(fs[..|fs| - 1], keep[..|fs| - 1]);
      assert fs == fs[..|fs| - 1] + [fs[|fs| - 1]];
    }
  }

  /** Losing frames that carry payload loses bytes. */
  lemma {:induction false} KeptChunks(fs: seq<Frame>, keep: seq<bool>)
    requires |keep| == |fs| && forall k :: 0 <= k < |fs| ==> |fs[k]| > 1
    ensures |Chunks(Kept(fs, keep))| <= |Chunks(fs)|
    ensures forall m :: 0 <= m < |fs| && !keep[m] ==> |Chunks(Kept(fs, keep))| < |Chunks(fs)|
  {
    if fs != [] {
      var n := |fs| - 1;
      var ks := Kept(fs[..n], keep[..n]);
      KeptChunks(fs[..n], keep[..n]);
      assert fs == fs[..n] + [fs[n]];
      assert forall m :: 0 <= m < n ==> keep[..n][m] == keep[m];
      hide Chunks;
      ChunksNext(fs[..n], fs[n]);
      if keep[n] { ChunksNext(ks, fs[n]); } else { assert ks + [] == ks; }
    }
  }

  lemma ChunksNext(fs: seq<Frame>, f: Frame)
    requires |f| > 0 && forall k :: 0 <= k < |fs| ==> |fs[k]| > 0
    ensures Chunks(fs + [f]) == Chunks(fs) + f[1..]
  {
    assert (fs + [f])[..|fs|] == fs;
  }

  lemma {:induction false} KeptOpen(fs: seq<Frame>, keep: seq<bool>, tag: int)
    requires |keep| == |fs| && Open(fs, tag)
    ensures Open(Kept(fs, keep), tag)
  {
    if fs != [] {
      KeptOpen(fs[..|fs| - 1], keep[..|fs| - 1], tag);
      assert |fs[|fs| - 1]| > 1;
    }
  }

  /** The frames heard of a run: a shorter run if its last frame is among them, else an open part. */
  lemma KeptRun(fs: seq<Frame>, keep: seq<bool>, p: seq<byte>)
    requires |keep| == |fs| && IsRun(fs, p)
    ensures var ks, tag := Kept(fs, keep), TagOf(fs[|fs| - 1][0]);
            if keep[|fs| - 1] then IsRun(ks, Chunks(ks)) && TagOf(ks[|ks| - 1][0]) == tag else Open(ks, tag)
  {
    var n := |fs| - 1;
    var ks := Kept(fs[..n], keep[..n]);
    KeptOpen(fs[..n], keep[..n], TagOf(fs[n][0]));
    if keep[n] { assert (ks + [fs[n]])[..|ks|] == ks; }
  }

  /** What a packet delivers, of which only some frames are heard: nothing if its last frame is lost;
      otherwise one payload, which is the packet exactly when no frame is lost. So a wrong payload is
      delivered exactly when the last frame is heard and an earlier one is not. */
  lemma LossOutcome(rx: Rx, data: seq<byte>, tag: Tag, keep: seq<bool>)
    requires 1 <= |data| <= MTU && Clear(rx, tag) && |keep| == |Fragments(data, tag)|
    ensures var fs := Fragments(data, tag); var out := RecvAll(rx, Kept(fs, keep)).1;
            && (out == [] <==> !keep[|fs| - 1])
            && (out == [data] <==> forall k :: 0 <= k < |fs| ==> keep[k])
            && (keep[|fs| - 1] ==> out == [Chunks(Kept(fs, keep))])
  {
    hide Recv, Fragments, Kept, Clear;
    var fs := Fragments(data, tag);
    FragmentsRun(data, tag);
    RunNotEmpty(fs, data);
    RunPayloads(fs, data);
    KeptRun(fs, keep, data);
    KeptChunks(fs, keep);
    if forall k :: 0 <= k < |fs| ==> keep[k] { KeptAll(fs, keep); }
    hide IsRun, Chunks;
    var ks := Kept(fs, keep);
    if keep[|fs| - 1] {
      RunDelivered(rx, ks, Chunks(ks));
    } else {
      if ks == [] { NothingHeard(rx); } else { OpenPrefix(rx, ks, tag); }
    }
  }

  lemma RunPayloads(fs: seq<Frame>, p: seq<byte>)
    requires IsRun(fs, p)
    ensures forall k :: 0 <= k < |fs| ==> |fs[k]| > 1
  {
    forall k | 0 <= k < |fs| ensures |fs[k]| > 1 {
      if k < |fs| - 1 { assert |fs[..|fs| - 1][k]| > 1; }
    }
  }

  lemma NothingHeard(rx: Rx)
    ensures RecvAll(rx, []) == (rx, [])
  {}
}
