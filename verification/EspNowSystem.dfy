/** Sender, driver, radio and receiver as one system of interleaved steps (v1 mode). */
module EspNowSystem {
  import opened Common
  import opened EspNow
  import opened EspNowDelivery

  datatype Packet = Packet(data: seq<byte>, rnd: byte)

  /** The radio link and both ends. The fields from `sent` on record the past. */
  datatype Link = Link(
    queue: seq<Frame>,         // espnow_tx_queue
    busy: bool,                // espnow_tx_busy
    driver: nat,               // frames the driver holds without having called back
    air: seq<Frame>,           // frames sent and not yet heard
    rx: Rx,
    sent: seq<Packet>,         // packets given to espnow_send
    accepted: seq<Frame>,      // chunks the queue took
    handed: seq<Frame>,        // chunks given to esp_now_send
    heard: seq<Frame>,         // frames the receiver's callback saw
    delivered: seq<seq<byte>>, // payloads the receiver passed on
    ours: seq<Frame>,          // those of the frames heard that this sender sent
    own: seq<seq<byte>>,       // payloads passed on at one of this sender's frames
    others: seq<seq<byte>>)    // payloads passed on at a frame of another sender

  const START := Link([], false, 0, [], IDLE, [], [], [], [], [], [], [], [])

  datatype Event =
    | Send(packet: Packet)       // espnow_send
    | Drain(driverOk: bool)      // update_espnow_tx from loop()
    | Done                       // espnow_send_cb
    | Arrive                     // the oldest frame on the air is heard
    | Lose                       // the oldest frame on the air is lost
    | Foreign(frames: seq<Frame>) // frames of other senders are heard, with none of this one between them

  /** The driver calls back only for a frame it holds; the radio delivers only what was sent. */
  predicate Enabled(s: Link, e: Event) {
    match e
    case Done => s.driver > 0
    case Arrive => s.air != []
    case Lose => s.air != []
    case _ => true
  }

  function Hear(s: Link, f: Frame): Link {
    var (rx, last) := Recv(s.rx, f);
    s.(rx := rx, heard := s.heard + [f], ours := s.ours + [f],
       delivered := Append(s.delivered, last), own := Append(s.own, last))
  }

  function Overhear(s: Link, fs: seq<Frame>): Link {
    var (rx, out) := RecvAll(s.rx, fs);
    s.(rx := rx, heard := s.heard + fs, delivered := s.delivered + out, others := s.others + out)
  }

  function Next(s: Link, e: Event): Link
    requires Enabled(s, e) && |s.queue| <= QUEUE_SIZE
  {
    match e
    case Send(p) =>
      var q := Accept(s.queue, Fragments(p.data, TagOf(p.rnd)));
      s.(queue := q, sent := s.sent + [p], accepted := s.accepted + q[|s.queue|..])
    case Drain(ok) =>
      if s.busy || s.queue == [] then s
      else
        var f := s.queue[0];
        s.(queue := s.queue[1..], busy := ok, handed := s.handed + [f],
           driver := if ok then s.driver + 1 else s.driver,
           air := if ok then s.air + [f] else s.air)
    case Done => s.(busy := false, driver := s.driver - 1)
    case Arrive => Hear(s.(air := s.air[1..]), s.air[0])
    case Lose => s.(air := s.air[1..])
    case Foreign(fs) => Overhear(s, fs)
  }

  /** A history: every event is enabled where it happens. */
  predicate Run(states: seq<Link>, events: seq<Event>) {
    && |states| == |events| + 1 && states[0] == START
    && forall k :: 0 <= k < |events| ==>
         Enabled(states[k], events[k]) && |states[k].queue| <= QUEUE_SIZE && states[k + 1] == Next(states[k], events[k])
  }

  // ---- What every step keeps ------------------------------------------------------------------

  /** Chunks go through the queue in order and none is lost in it; one frame at most is with the
      driver; the receiver's deliveries are those of the frames it heard, and each is completed by a
      frame of this sender or of another. */
  predicate Inv(s: Link) {
    && |s.queue| <= 12
    && s.accepted == s.handed + s.queue
    && s.driver == (if s.busy then 1 else 0)
    && RecvAll(IDLE, s.heard) == (s.rx, s.delivered)
    && multiset(s.delivered) == multiset(s.own) + multiset(s.others)
  }

  lemma InvHear(s: Link, f: Frame)
    requires Inv(s)
    ensures Inv(Hear(s, f))
  {
    hide Recv, Append;
    assert (s.heard + [f])[..|s.heard|] == s.heard;
    hide RecvAll;
    AppendCounts(s.delivered, s.own, s.others, Recv(s.rx, f).1);
  }

  lemma AppendCounts(all: seq<seq<byte>>, own: seq<seq<byte>>, others: seq<seq<byte>>, last: Option<seq<byte>>)
    requires multiset(all) == multiset(own) + multiset(others)
    ensures multiset(Append(all, last)) == multiset(Append(own, last)) + multiset(others)
  {}

  lemma InvOverhear(s: Link, fs: seq<Frame>)
    requires Inv(s)
    ensures Inv(Overhear(s, fs))
  {
    hide RecvAll;
    RecvAllConcat(IDLE, s.heard, fs);
  }

  lemma InvSend(s: Link, p: Packet)
    requires Inv(s)
    ensures Inv(Next(s, Send(p)))
  {
    hide RecvAll, Fragments;
    var q := Accept(s.queue, Fragments(p.data, TagOf(p.rnd)));
    assert q == s.queue + q[|s.queue|..];
  }

  lemma InvDrain(s: Link, ok: bool)
    requires Inv(s)
    ensures Inv(Next(s, Drain(ok)))
  {
    hide RecvAll, Fragments;
    if !(s.busy || s.queue == []) {
      assert s.handed + s.queue == s.handed + [s.queue[0]] + s.queue[1..];
    }
  }

  lemma InvStep(s: Link, e: Event)
    requires Inv(s) && Enabled(s, e)
    ensures Inv(Next(s, e))
  {
    hide RecvAll, Fragments, Hear, Overhear, Accept;
    match e
    case Send(p) => InvSend(s, p);
    case Drain(ok) => InvDrain(s, ok);
    case Arrive => InvHear(s.(air := s.air[1..]), s.air[0]);
    case Foreign(fs) => InvOverhear(s, fs);
    case _ =>
  }

  /** In every history, at every moment. */
  lemma {:induction false} InvAlways(states: seq<Link>, events: seq<Event>, k: nat)
    requires Run(states, events) && k < |states|
    ensures Inv(states[k])
  {
    if k == 0 {
      assert RecvAll(IDLE, []) == (IDLE, []);
    } else {
      InvAlways(states, events, k - 1);
      InvStep(states[k - 1], events[k - 1]);
    }
  }

  // ---- End to end ---------------------------------------------------------------------------------

  /** Frames of other senders that leave the receiver as it was: frames of at most one byte at any time,
      and, while no packet is half received, one whole packet with any such frames in it. */
  predicate Polite(rx: Rx, fs: seq<Frame>) {
    var u := Useful(fs);
    u == [] || (rx == IDLE && IsRun(u, Chunks(u)) && |Chunks(u)| <= MTU)
  }

  lemma PoliteLeaves(rx: Rx, fs: seq<Frame>)
    requires Polite(rx, fs)
    ensures RecvAll(rx, fs) == (rx, if Useful(fs) == [] then [] else [Chunks(Useful(fs))])
  {
    hide Recv, IsRun, Useful, Chunks;
    RecvUseful(rx, fs);
    if Useful(fs) == [] {
      assert RecvAll(rx, []) == (rx, []);
    } else {
      RunDelivered(IDLE, Useful(fs), Chunks(Useful(fs)));
    }
  }

  /** A step on which nothing is refused or lost: the packet has 1 to 508 bytes and fits the queue,
      the driver takes its frame, and other senders do not cut into a packet half received. */
  predicate Smooth(s: Link, e: Event) {
    match e
    case Send(p) => 1 <= |p.data| <= 508 && |s.queue| + |Fragments(p.data, TagOf(p.rnd))| <= 12
    case Drain(ok) => ok
    case Done => true
    case Arrive => true
    case Lose => false
    case Foreign(fs) => Polite(s.rx, fs)
  }

  function AllFragments(ps: seq<Packet>): seq<Frame> {
    if ps == [] then []
    else AllFragments(ps[..|ps| - 1]) + Fragments(ps[|ps| - 1].data, TagOf(ps[|ps| - 1].rnd))
  }

  function Payloads(ps: seq<Packet>): (ds: seq<seq<byte>>)
    ensures |ds| == |ps| && forall k :: 0 <= k < |ps| ==> ds[k] == ps[k].data
  {
    seq(|ps|, k requires 0 <= k < |ps| => ps[k].data)
  }

  predicate Deliverable(ps: seq<Packet>) { forall k :: 0 <= k < |ps| ==> 1 <= |ps[k].data| <= 508 }

  /** The frames of any packets, whatever their tags, reassemble to exactly those packets. */
  lemma {:induction false} AllDelivered(ps: seq<Packet>)
    requires Deliverable(ps)
    ensures RecvAll(IDLE, AllFragments(ps)) == (IDLE, Payloads(ps))
  {
    hide Recv, IsRun;
    if ps != [] {
      var init, p := ps[..|ps| - 1], ps[|ps| - 1];
      AllDelivered(init);
      FragmentsRun(p.data, TagOf(p.rnd));
      RunDelivered(IDLE, Fragments(p.data, TagOf(p.rnd)), p.data);
      RecvAllConcat(IDLE, AllFragments(init), Fragments(p.data, TagOf(p.rnd)));
      assert Payloads(init) + [p.data] == Payloads(ps);
    }
  }

  /** On a smooth history this sender's frames heard, on the air and queued are those of the packets sent,
      and the receiver is as if it had heard no others. */
  predicate InOrder(s: Link) {
    && Inv(s)
    && Deliverable(s.sent)
    && s.handed == s.ours + s.air
    && s.accepted == AllFragments(s.sent)
    && RecvAll(IDLE, s.ours) == (s.rx, s.own)
  }

  lemma InOrderSend(s: Link, p: Packet)
    requires InOrder(s) && Smooth(s, Send(p))
    ensures InOrder(Next(s, Send(p)))
  {
    hide RecvAll, Fragments;
    InvSend(s, p);
    hide Inv;
    var fs := Fragments(p.data, TagOf(p.rnd));
    assert Accept(s.queue, fs)[|s.queue|..] == fs;
    assert (s.sent + [p])[..|s.sent|] == s.sent;
  }

  lemma InOrderDrain(s: Link)
    requires InOrder(s)
    ensures InOrder(Next(s, Drain(true)))
  {
    hide RecvAll, AllFragments;
    InvDrain(s, true);
    hide Inv;
    if !(s.busy || s.queue == []) {
      assert s.ours + s.air + [s.queue[0]] == s.ours + (s.air + [s.queue[0]]);
    }
  }

  lemma InOrderHear(s: Link)
    requires InOrder(s) && s.air != []
    ensures InOrder(Next(s, Arrive))
  {
    hide Recv, Append, AllFragments;
    InvHear(s.(air := s.air[1..]), s.air[0]);
    hide Inv;
    assert s.ours + s.air == s.ours + [s.air[0]] + s.air[1..];
    assert (s.ours + [s.air[0]])[..|s.ours|] == s.ours;
  }

  lemma InOrderForeign(s: Link, fs: seq<Frame>)
    requires InOrder(s) && Polite(s.rx, fs)
    ensures InOrder(Next(s, Foreign(fs)))
  {
    hide RecvAll, AllFragments, Polite, Useful, Chunks, Deliverable;
    InvOverhear(s, fs);
    hide Inv;
    PoliteLeaves(s.rx, fs);
  }

  lemma InOrderStep(s: Link, e: Event)
    requires InOrder(s) && Enabled(s, e) && Smooth(s, e)
    ensures InOrder(Next(s, e))
  {
    hide RecvAll, AllFragments, Accept, Fragments, Polite, Hear, Overhear;
    match e
    case Send(p) => InOrderSend(s, p);
    case Drain(ok) => InOrderDrain(s);
    case Arrive => InOrderHear(s);
    case Foreign(fs) => InOrderForeign(s, fs);
    case _ =>
  }

  lemma {:induction false} InOrderAlways(states: seq<Link>, events: seq<Event>, k: nat)
    requires Run(states, events) && k < |states|
    requires forall i :: 0 <= i < |events| ==> Smooth(states[i], events[i])
    ensures InOrder(states[k])
  {
    if k == 0 {
      assert RecvAll(IDLE, []) == (IDLE, []);
    } else {
      InOrderAlways(states, events, k - 1);
      InOrderStep(states[k - 1], events[k - 1]);
    }
  }

  /** End to end, under any interleaving of sends, drains, callbacks and arrivals, with any tags and with
      other senders between packets: what has been delivered is, at every moment, the packets sent so
      far, whole, once each and in order, up to some point, besides the others' packets; and once queue
      and air are empty it is all of them. Without other senders it is all that is delivered. */
  lemma EndToEnd(states: seq<Link>, events: seq<Event>, k: nat)
    requires Run(states, events) && k < |states|
    requires forall i :: 0 <= i < |events| ==> Smooth(states[i], events[i])
    ensures var s := states[k];
            && s.own <= Payloads(s.sent)
            && (s.queue == [] && s.air == [] ==> s.own == Payloads(s.sent))
            && multiset(s.delivered) == multiset(s.own) + multiset(s.others)
            && ((forall i :: 0 <= i < k ==> !events[i].Foreign?) ==> s.delivered == s.own)
            && s.driver <= 1
  {
    hide Recv, Fragments;
    var s := states[k];
    InOrderAlways(states, events, k);
    AllDelivered(s.sent);
    RecvAllConcat(IDLE, s.ours, s.air + s.queue);
    assert s.accepted == s.ours + (s.air + s.queue);
    if s.queue == [] && s.air == [] { assert s.accepted == s.ours; }
    if forall i :: 0 <= i < k ==> !events[i].Foreign? { AloneAlways(states, events, k); }
  }

  lemma {:induction false} AloneAlways(states: seq<Link>, events: seq<Event>, k: nat)
    requires Run(states, events) && k < |states| && forall i :: 0 <= i < k ==> !events[i].Foreign?
    ensures states[k].delivered == states[k].own
  {
    hide Recv, Accept, Fragments;
    if k > 0 { AloneAlways(states, events, k - 1); }
  }

  // ---- What a loss can do ------------------------------------------------------------------------------

  /** Losing the first frame of a two-frame packet makes the receiver deliver its second part alone. */
  lemma LossTruncates(data: seq<byte>, rnd: byte)
    requires 249 < |data| <= 498
    ensures var fs := Fragments(data, TagOf(rnd));
            RecvAll(IDLE, fs[1..]) == (IDLE, [data[249..]])
  {
    FragmentsRun(data[CHUNK..], TagOf(rnd));
    RunDelivered(IDLE, Fragments(data[CHUNK..], TagOf(rnd)), data[CHUNK..]);
  }
}
