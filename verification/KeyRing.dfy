/** The keyboard's character ring between the event task and the main loop, one shared-variable
    access at a time. The event task writes `head`, the main loop writes `tail`. */
module KeyRing {

  const LEN := 16  // BLEKBD_KEY_QUEUE_LEN

  type Index = i: int | 0 <= i < LEN

  /** Where blekbd_key_queue_push is. */
  datatype Producer =
    | Idle
    | ReadHead(ch: char, next: Index)   // next computed; tail not read yet
    | Room(ch: char, next: Index)       // next differed from tail; slot not written yet
    | Stored(ch: char, next: Index)     // slot written; head not moved yet

  /** Where the drain loop of blekbd_loop is. */
  datatype Consumer =
    | Outside
    | ReadTail(t: Index)                // loop condition: head not read yet
    | NotEmpty                          // loop entered; slot not read yet
    | Loaded(ch: char)                  // slot read; tail not moved yet
    | Moved(ch: char)                   // tail moved; character not dispatched yet

  datatype State = State(ring: seq<char>, head: Index, tail: Index, producer: Producer, consumer: Consumer,
                         accepted: seq<char>,    // published by moving head
                         dispatched: seq<char>,  // given to blekbd_key_event
                         offered: nat, dropped: nat)

  function Succ(i: Index): Index { (i + 1) % LEN }

  datatype Event = Press(ch: char) | ProducerStep | ConsumerStep

  function Next(s: State, e: Event): State
    requires |s.ring| == LEN
  {
    match e
    case Press(ch) =>
      if s.producer == Idle then s.(producer := ReadHead(ch, Succ(s.head)), offered := s.offered + 1) else s
    case ProducerStep => (
      match s.producer
      case Idle => s
      case ReadHead(ch, next) =>
        if next == s.tail then s.(producer := Idle, dropped := s.dropped + 1) else s.(producer := Room(ch, next))
      case Room(ch, next) => s.(ring := s.ring[s.head := ch], producer := Stored(ch, next))
      case Stored(ch, next) => s.(head := next, producer := Idle, accepted := s.accepted + [ch])
    )
    case ConsumerStep => (
      match s.consumer
      case Outside => s.(consumer := ReadTail(s.tail))
      case ReadTail(t) => if t == s.head then s.(consumer := Outside) else s.(consumer := NotEmpty)
      case NotEmpty => s.(consumer := Loaded(s.ring[s.tail]))
      case Loaded(ch) => s.(tail := Succ(s.tail), consumer := Moved(ch))
      case Moved(ch) => s.(consumer := Outside, dispatched := s.dispatched + [ch])
    )
  }

  /** How many slots lie between tail and head. */
  function Used(head: Index, tail: Index): (n: nat)
    ensures n < LEN
  {
    (head - tail) % LEN
  }

  /** The slot i places after tail. */
  function Slot(tail: Index, i: nat): Index { (tail + i) % LEN }

  /** The characters between tail and head, oldest first. */
  function Contents(ring: seq<char>, head: Index, tail: Index): (c: seq<char>)
    requires |ring| == LEN
    ensures |c| == Used(head, tail)
  {
    seq(Used(head, tail), i requires 0 <= i < Used(head, tail) => ring[Slot(tail, i)])
  }

  /** The character the main loop has taken out of the ring and not dispatched. */
  function InHand(c: Consumer): seq<char> { if c.Moved? then [c.ch] else [] }

  predicate Inv(s: State) {
    && |s.ring| == LEN
    && s.accepted == s.dispatched + InHand(s.consumer) + Contents(s.ring, s.head, s.tail)
    && s.offered == |s.accepted| + s.dropped + (if s.producer == Idle then 0 else 1)
    && (match s.producer
        case Idle => true
        case ReadHead(_, next) => next == Succ(s.head)
        case Room(_, next) => next == Succ(s.head) && Used(s.head, s.tail) < LEN - 1
        case Stored(ch, next) => next == Succ(s.head) && Used(s.head, s.tail) < LEN - 1 && s.ring[s.head] == ch)
    && (match s.consumer
        case ReadTail(t) => t == s.tail
        case NotEmpty => Used(s.head, s.tail) > 0
        case Loaded(ch) => Used(s.head, s.tail) > 0 && ch == s.ring[s.tail]
        case _ => true)
  }

  predicate Initial(s: State) {
    |s.ring| == LEN && s.head == s.tail == 0 && s.producer == Idle && s.consumer == Outside
    && s.accepted == [] && s.dispatched == [] && s.offered == s.dropped == 0
  }

  // ---- Index arithmetic ----------------------------------------------------------------------------

  lemma UsedFacts(head: Index, tail: Index)
    ensures Used(head, tail) == 0 <==> head == tail
    ensures Used(head, tail) == LEN - 1 <==> Succ(head) == tail
    ensures Used(head, tail) < LEN - 1 ==> Used(Succ(head), tail) == Used(head, tail) + 1
    ensures Used(head, tail) > 0 ==> Used(head, Succ(tail)) == Used(head, tail) - 1
    ensures Slot(tail, Used(head, tail)) == head
    ensures forall i :: 0 <= i < Used(head, tail) ==> Slot(tail, i) != head
  {}

  lemma StoreOutside(ring: seq<char>, head: Index, tail: Index, ch: char)
    requires |ring| == LEN
    ensures Contents(ring[head := ch], head, tail) == Contents(ring, head, tail)
  {
    UsedFacts(head, tail);
  }

  lemma PublishAppends(ring: seq<char>, head: Index, tail: Index)
    requires |ring| == LEN && Used(head, tail) < LEN - 1
    ensures Contents(ring, Succ(head), tail) == Contents(ring, head, tail) + [ring[head]]
  {
    hide Used, Slot, Succ;
    UsedFacts(head, tail);
  }

  lemma AdvanceTakesFirst(ring: seq<char>, head: Index, tail: Index)
    requires |ring| == LEN && Used(head, tail) > 0
    ensures Contents(ring, head, tail) == [ring[tail]] + Contents(ring, head, Succ(tail))
  {
    hide Used, Slot, Succ;
    UsedFacts(head, tail);
    SlotZero(tail);
    forall i | 0 <= i < Used(head, Succ(tail)) ensures Slot(Succ(tail), i) == Slot(tail, i + 1) {
      SlotSucc(tail, i);
    }
  }

  lemma SlotZero(t: Index)
    ensures Slot(t, 0) == t
  {}

  lemma SlotSucc(t: Index, i: nat)
    ensures Slot(Succ(t), i) == Slot(t, i + 1)
  {}

  // ---- Every interleaving ------------------------------------------------------------------------------

  lemma ProducerKeeps(s: State)
    requires Inv(s)
    ensures Inv(Next(s, ProducerStep))
  {
    hide Contents, Used, Succ;
    UsedFacts(s.head, s.tail);
    match s.producer
    case Room(ch, _) => StoreOutside(s.ring, s.head, s.tail, ch);
    case Stored(ch, next) =>
      PublishAppends(s.ring, s.head, s.tail);
      var c := Contents(s.ring, s.head, s.tail);
      assert s.dispatched + InHand(s.consumer) + c + [ch] == s.dispatched + InHand(s.consumer) + (c + [ch]);
    case _ =>
  }

  lemma ConsumerKeeps(s: State)
    requires Inv(s)
    ensures Inv(Next(s, ConsumerStep))
  {
    hide Contents, Used, Succ;
    UsedFacts(s.head, s.tail);
    match s.consumer
    case Loaded(ch) =>
      AdvanceTakesFirst(s.ring, s.head, s.tail);
      var c := Contents(s.ring, s.head, Succ(s.tail));
      assert s.dispatched + [] + ([ch] + c) == s.dispatched + [ch] + c;
      UsedFacts(s.head, Succ(s.tail));
    case Moved(ch) =>
      assert s.dispatched + [ch] + [] == s.dispatched + [ch];
    case _ =>
  }

  lemma InvStep(s: State, e: Event)
    requires Inv(s)
    ensures Inv(Next(s, e))
  {
    hide Contents;
    match e
    case Press(ch) =>
    case ProducerStep => ProducerKeeps(s);
    case ConsumerStep => ConsumerKeeps(s);
  }

  /** A history of interleaved accesses. */
  predicate Run(states: seq<State>, events: seq<Event>) {
    && |states| == |events| + 1 && Initial(states[0])
    && forall k :: 0 <= k < |events| ==> |states[k].ring| == LEN && states[k + 1] == Next(states[k], events[k])
  }

  lemma {:induction false} InvAlways(states: seq<State>, events: seq<Event>, k: nat)
    requires Run(states, events) && k < |states|
    ensures Inv(states[k])
  {
    hide Next;
    if k > 0 {
      InvAlways(states, events, k - 1);
      InvStep(states[k - 1], events[k - 1]);
    }
  }

  /** At every moment of every interleaving the dispatched characters are a prefix of the accepted
      ones, at most 15 wait, and every press that has ended was accepted or dropped. */
  lemma DispatchedInOrder(states: seq<State>, events: seq<Event>, k: nat)
    requires Run(states, events) && k < |states|
    ensures var s := states[k];
            && s.dispatched <= s.accepted
            && |s.accepted| - |s.dispatched| - |InHand(s.consumer)| == Used(s.head, s.tail) <= 15
            && (s.producer == Idle ==> s.offered == |s.accepted| + s.dropped)
            && (s.head == s.tail && s.consumer == Outside ==> s.dispatched == s.accepted)
  {
    hide Next;
    InvAlways(states, events, k);
    UsedFacts(states[k].head, states[k].tail);
  }

  /** A slot is read only while it holds an accepted, undispatched character, which is the one read;
      and it is written only while it holds none. */
  lemma SlotsSafe(states: seq<State>, events: seq<Event>, k: nat)
    requires Run(states, events) && k < |states|
    ensures var s := states[k];
            && |s.ring| == LEN
            && (s.consumer == NotEmpty
              ==> |s.dispatched| < |s.accepted| && s.ring[s.tail] == s.accepted[|s.dispatched|])
            && (s.producer.Room? ==> forall i :: 0 <= i < Used(s.head, s.tail) ==> Slot(s.tail, i) != s.head)
  {
    hide Next;
    var s := states[k];
    InvAlways(states, events, k);
    UsedFacts(s.head, s.tail);
    SlotZero(s.tail);
    if s.consumer == NotEmpty {
      var c := Contents(s.ring, s.head, s.tail);
      assert s.accepted == s.dispatched + [] + c && c[0] == s.ring[s.tail];
    }
  }

  /** A character is dropped only when fifteen are waiting at the moment the queue is tested. */
  lemma DropOnlyWhenFull(states: seq<State>, events: seq<Event>, k: nat)
    requires Run(states, events) && k < |events|
    ensures states[k + 1].dropped > states[k].dropped ==> Used(states[k].head, states[k].tail) == 15
  {
    InvAlways(states, events, k);
    UsedFacts(states[k].head, states[k].tail);
    assert |states[k].ring| == LEN && states[k + 1] == Next(states[k], events[k]);
  }

  // ---- The two tasks without interference ---------------------------------------------------------------

  /** The state between calls, with nothing recorded yet. */
  function AtRest(ring: seq<char>, head: Index, tail: Index): State {
    State(ring, head, tail, Idle, Outside, [], [], 0, 0)
  }

  /** The producer's accesses for one character, one after the other. */
  function PushSteps(s: State, ch: char): (t: State)
    requires |s.ring| == LEN
  {
    Next(Next(Next(Next(s, Press(ch)), ProducerStep), ProducerStep), ProducerStep)
  }

  class KeyQueue {
    const ring: array<char>
    var head: Index
    var tail: Index

    ghost predicate Valid() { ring.Length == LEN }

    ghost function Waiting(): seq<char>
      requires Valid()
      reads this, ring
    {
      Contents(ring[..], head, tail)
    }

    constructor ()
      ensures Valid() && Waiting() == [] && head == tail == 0 && fresh(ring)
    {
      ring := new char[LEN];
      head, tail := 0, 0;
    }

    /** blekbd_key_queue_push: the producer's accesses in turn; a full queue drops the character. */
    method Push(ch: char)
      requires Valid()
      modifies ring, this`head
      ensures Valid()
      ensures Waiting() == if |old(Waiting())| == 15 then old(Waiting()) else old(Waiting()) + [ch]
      ensures var t := PushSteps(AtRest(old(ring[..]), old(head), tail), ch);
              ring[..] == t.ring && head == t.head
    {
      hide Contents, Used;
      UsedFacts(head, tail);
      var next := (head + 1) % LEN;
      if next == tail { return; }
      StoreOutside(ring[..], head, tail, ch);
      PublishAppends(ring[..][head := ch], head, tail);
      ring[head] := ch;
      assert ring[..] == old(ring[..])[head := ch];
      head := next;
    }

    /** The drain loop of blekbd_loop; the result lists the characters handed on. */
    method Drain() returns (chars: seq<char>)
      requires Valid()
      modifies this`tail
      ensures Valid() && chars == old(Waiting()) && Waiting() == [] && tail == head
    {
      hide Contents, Used, Succ;
      chars := [];
      UsedFacts(head, tail);
      while tail != head
        invariant Valid() && chars + Waiting() == old(Waiting())
        decreases Used(head, tail)
      {
        UsedFacts(head, tail);
        AdvanceTakesFirst(ring[..], head, tail);
        var ch := ring[tail];
        var rest := Contents(ring[..], head, Succ(tail));
        assert chars + ([ch] + rest) == chars + [ch] + rest;
        SuccIs(tail);
        tail := (tail + 1) % LEN;
        chars := chars + [ch];
      }
      UsedFacts(head, tail);
      assert Waiting() == [];
    }
  }

  lemma SuccIs(i: Index)
    ensures Succ(i) == (i + 1) % LEN
  {}
}
