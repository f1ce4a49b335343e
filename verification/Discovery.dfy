/** The list of discovered keyboards: eight entries, the least recently seen one is reused. */
module Discovery {
  import opened Common

  const SLOTS := 8                   // BLEKBD_MAX_DISCOVERED
  const NAME_LEN := 31               // BLEKBD_NAME_MAX_LEN
  const ULONG_MAX := 0xFFFF_FFFF
  const TURN := 0x1_0000_0000        // millis() starts again at 0 after this many milliseconds

  type ulong = v: int | 0 <= v <= ULONG_MAX

  /** Address and address type: what identifies a device. */
  datatype Key = Key(addr: seq<byte>, addrType: byte)

  datatype Entry = Entry(inUse: bool, key: Key, name: string, rssi: int, lastSeen: ulong)

  predicate Holds(e: Entry, k: Key) { e.inUse && e.key == k }

  /** strncpy into a name field. */
  function Cut(name: string): string { if |name| <= NAME_LEN then name else name[..NAME_LEN] }

  // ---- Which entry a sighting goes to --------------------------------------------------------------

  /** Entry i is the one for key k: the one that holds it, else the first free one, else the first
      with the least reading of the clock. */
  ghost predicate Chosen(t: seq<Entry>, k: Key, i: nat) {
    && i < |t|
    && if exists j :: 0 <= j < |t| && Holds(t[j], k) then Holds(t[i], k)
       else if exists j :: 0 <= j < |t| && !t[j].inUse then !t[i].inUse && forall j :: 0 <= j < i ==> t[j].inUse
       else (forall j :: 0 <= j < |t| ==> t[i].lastSeen <= t[j].lastSeen)
            && forall j :: 0 <= j < i ==> t[i].lastSeen < t[j].lastSeen
  }

  function Refreshed(e: Entry, k: Key, name: string, rssi: int, now: ulong): Entry {
    if Holds(e, k)
      then e.(rssi := rssi, lastSeen := now, name := if name != "" && e.name == "" then Cut(name) else e.name)
    else Entry(true, k, Cut(name), rssi, now)
  }

  /** The entry used is in use for the device just heard, with its strength and time. A name once known
      stays; an empty one is filled by the first name that comes, cut to 31 characters. */
  lemma RefreshedIs(k: Key, name: string, rssi: int, now: ulong)
    ensures forall e :: var r := Refreshed(e, k, name, rssi, now);
              && r.inUse && r.key == k && r.rssi == rssi && r.lastSeen == now
              && r.name == if e.inUse && e.key == k && e.name != "" then e.name
                           else if |name| <= 31 then name else name[..31]
  {}

  class Discovered {
    const table: array<Entry>

    ghost predicate Valid() { table.Length == SLOTS }

    constructor ()
      ensures Valid() && fresh(table) && forall i :: 0 <= i < SLOTS ==> !table[i].inUse
    {
      table := new Entry[SLOTS](_ => Entry(false, Key([], 0), "", 0, 0));
    }

    /** blekbd_discovered_clear. */
    method Clear()
      requires Valid()
      modifies table
      ensures forall i :: 0 <= i < SLOTS ==> table[i] == old(table[i]).(inUse := false)
    {
      forall i | 0 <= i < SLOTS { table[i] := table[i].(inUse := false); }
    }

    /** blekbd_discovered_upsert; an absent name is the empty one. The result is the entry used. */
    method Upsert(k: Key, name: string, rssi: int, now: ulong) returns (slot: nat)
      requires Valid()
      modifies table
      ensures Chosen(old(table[..]), k, slot)
      ensures table[..] == old(table[..])[slot := Refreshed(old(table[slot]), k, name, rssi, now)]
      ensures slot < 8 == table.Length
      ensures table[slot].inUse && table[slot].key == k && table[slot].rssi == rssi && table[slot].lastSeen == now
      ensures var was := old(table[slot]);
              table[slot].name == if was.inUse && was.key == k && was.name != "" then was.name
                                  else if |name| <= 31 then name else name[..31]
    {
      RefreshedIs(k, name, rssi, now);
      hide Refreshed;
      var freeSlot := -1;
      var oldestSlot := 0;
      var oldestMs: ulong := ULONG_MAX;
      for i := 0 to SLOTS
        invariant table[..] == old(table[..])
        invariant forall j :: 0 <= j < i ==> !Holds(table[j], k)
        invariant freeSlot == -1 || (0 <= freeSlot < i && !table[freeSlot].inUse)
        invariant forall j :: 0 <= j < (if freeSlot == -1 then i else freeSlot) ==> table[j].inUse
        invariant 0 <= oldestSlot < SLOTS
        invariant forall j :: 0 <= j < i && table[j].inUse ==> oldestMs <= table[j].lastSeen
        invariant oldestMs == ULONG_MAX ==> oldestSlot == 0
        invariant oldestMs < ULONG_MAX ==> oldestSlot < i && table[oldestSlot].lastSeen == oldestMs
        invariant forall j :: 0 <= j < oldestSlot && table[j].inUse ==> oldestMs < table[j].lastSeen
      {
        if Holds(table[i], k) {
          table[i] := Refreshed(table[i], k, name, rssi, now);
          return i;
        }
        if !table[i].inUse && freeSlot == -1 { freeSlot := i; }
        if table[i].inUse && table[i].lastSeen < oldestMs {
          oldestMs := table[i].lastSeen;
          oldestSlot := i;
        }
      }
      slot := if freeSlot != -1 then freeSlot else oldestSlot;
      table[slot] := Refreshed(table[slot], k, name, rssi, now);
    }
  }

  // ---- Whole runs ---------------------------------------------------------------------------------------

  /** A device heard at a true time, in milliseconds since power-on and without wrap-around. */
  datatype Sighting = Sighting(key: Key, name: string, rssi: int, time: nat)

  /** millis() at a true time. */
  function Clock(time: nat): ulong { time % TURN }

  /** How often millis() has started again. */
  function Turn(time: int): int { time / TURN }

  function Sight(t: seq<Entry>, i: nat, s: Sighting): (t': seq<Entry>)
    requires i < |t|
    ensures |t'| == |t|
  {
    t[i := Refreshed(t[i], s.key, s.name, s.rssi, Clock(s.time))]
  }

  /** Position of the last sighting of k, or -1. */
  function Last(h: seq<Sighting>, k: Key): (i: int)
    ensures -1 <= i < |h|
    ensures i >= 0 ==> h[i].key == k
    ensures forall j :: i < j < |h| ==> h[j].key != k
  {
    if h == [] then -1 else if h[|h| - 1].key == k then |h| - 1 else Last(h[..|h| - 1], k)
  }

  /** When k was last seen, or -1. */
  function SeenAt(h: seq<Sighting>, k: Key): (time: int)
    ensures time >= 0 <==> Last(h, k) >= 0
  {
    if Last(h, k) >= 0 then h[Last(h, k)].time else -1
  }

  /** True times never fall. Several sightings may come in one millisecond. */
  predicate Timed(h: seq<Sighting>) { forall i, j :: 0 <= i < j < |h| ==> h[i].time <= h[j].time }

  ghost predicate Has(t: seq<Entry>, k: Key) { exists i :: 0 <= i < |t| && Holds(t[i], k) }

  predicate Full(t: seq<Entry>) { forall i :: 0 <= i < |t| ==> t[i].inUse }

  /** The table holds eight devices seen no earlier than any other, or all of them if there are fewer;
      each once, with the clock reading of its last sighting. */
  ghost predicate MostRecent(t: seq<Entry>, h: seq<Sighting>) {
    && Readings(t, h)
    && (forall i, k :: 0 <= i < |t| && t[i].inUse && Last(h, k) >= 0 && !Has(t, k) ==>
          SeenAt(h, k) <= SeenAt(h, t[i].key))
    && (forall k :: Last(h, k) >= 0 && !Has(t, k) ==> Full(t))
  }

  ghost predicate Readings(t: seq<Entry>, h: seq<Sighting>) {
    && |t| == SLOTS
    && (forall i, j :: 0 <= i < j < |t| && t[i].inUse && t[j].inUse ==> t[i].key != t[j].key)
    && (forall i :: 0 <= i < |t| && t[i].inUse ==>
          Last(h, t[i].key) >= 0 && t[i].lastSeen == Clock(SeenAt(h, t[i].key)))
  }

  /** A sighting of k takes the entry of another device. */
  ghost predicate Evicts(t: seq<Entry>, k: Key) { Full(t) && !Has(t, k) }

  /** The last sightings of the devices held fall in one turn of the clock. */
  ghost predicate OneTurn(t: seq<Entry>, h: seq<Sighting>) {
    forall i, j :: 0 <= i < |t| && 0 <= j < |t| && t[i].inUse && t[j].inUse ==>
      Turn(SeenAt(h, t[i].key)) == Turn(SeenAt(h, t[j].key))
  }

  /** No device held was seen in an earlier turn of the clock than that of entry i. */
  ghost predicate NoneEarlier(t: seq<Entry>, h: seq<Sighting>, i: nat)
    requires i < |t|
  {
    forall j :: 0 <= j < |t| ==> Turn(SeenAt(h, t[i].key)) <= Turn(SeenAt(h, t[j].key))
  }

  lemma LastNext(h: seq<Sighting>, s: Sighting, k: Key)
    ensures Last(h + [s], k) == (if s.key == k then |h| else Last(h, k))
    ensures SeenAt(h + [s], k) == (if s.key == k then s.time else SeenAt(h, k))
  {
    assert (h + [s])[..|h|] == h;
  }

  lemma SeenBefore(h: seq<Sighting>, s: Sighting, k: Key)
    requires Timed(h + [s])
    ensures SeenAt(h, k) <= s.time
  {
    assert (h + [s])[|h|] == s;
    if Last(h, k) >= 0 { assert (h + [s])[Last(h, k)] == h[Last(h, k)]; }
  }

  // ---- The clock ------------------------------------------------------------------------------------------

  lemma ClockOrder(a: nat, b: nat)
    requires Clock(a) <= Clock(b)
    ensures a <= b <==> Turn(a) <= Turn(b)
  {
    assert a == Turn(a) * TURN + Clock(a) && b == Turn(b) * TURN + Clock(b);
  }

  lemma ClockWraps(a: nat, b: nat)
    requires Turn(a) < Turn(b) && b - a < TURN
    ensures Clock(b) < Clock(a)
  {
    assert a == Turn(a) * TURN + Clock(a) && b == Turn(b) * TURN + Clock(b);
  }

  /** The entry taken is one seen longest ago exactly when no device held was seen in an earlier turn of
      the clock; and, if all were seen within one turn's length, exactly when all were seen in one turn. */
  lemma VictimOldest(t: seq<Entry>, h: seq<Sighting>, k: Key, i: nat)
    requires Readings(t, h) && Chosen(t, k, i) && Evicts(t, k)
    ensures (forall j :: 0 <= j < |t| ==> SeenAt(h, t[i].key) <= SeenAt(h, t[j].key))
       <==> NoneEarlier(t, h, i)
    ensures (forall a, b :: 0 <= a < |t| && 0 <= b < |t| ==> SeenAt(h, t[b].key) - SeenAt(h, t[a].key) < TURN) ==>
      ((forall j :: 0 <= j < |t| ==> SeenAt(h, t[i].key) <= SeenAt(h, t[j].key)) <==> OneTurn(t, h))
  {
    hide Last, SeenAt, Clock, Turn;
    NonNegative(t, h);
    ChosenLeast(t, k, i);
    forall j | 0 <= j < |t|
      ensures SeenAt(h, t[i].key) <= SeenAt(h, t[j].key) <==> Turn(SeenAt(h, t[i].key)) <= Turn(SeenAt(h, t[j].key))
    {
      ClockOrder(SeenAt(h, t[i].key), SeenAt(h, t[j].key));
    }
    if (forall a, b :: 0 <= a < |t| && 0 <= b < |t| ==> SeenAt(h, t[b].key) - SeenAt(h, t[a].key) < TURN) {
      forall j | 0 <= j < |t| ensures Turn(SeenAt(h, t[j].key)) <= Turn(SeenAt(h, t[i].key)) {
        if Turn(SeenAt(h, t[i].key)) < Turn(SeenAt(h, t[j].key)) {
          ClockWraps(SeenAt(h, t[i].key), SeenAt(h, t[j].key));
          assert false;
        }
      }
    }
  }

  lemma NonNegative(t: seq<Entry>, h: seq<Sighting>)
    requires Readings(t, h) && Full(t)
    ensures forall j :: 0 <= j < |t| ==> SeenAt(h, t[j].key) >= 0 && t[j].lastSeen == Clock(SeenAt(h, t[j].key))
  {
    hide Last;
  }

  lemma ChosenLeast(t: seq<Entry>, k: Key, i: nat)
    requires Chosen(t, k, i) && Evicts(t, k)
    ensures i < |t| && forall j :: 0 <= j < |t| ==> t[i].lastSeen <= t[j].lastSeen
  {}

  // ---- One sighting ---------------------------------------------------------------------------------------

  /** Which devices the table holds after a sighting. */
  lemma HasAfter(t: seq<Entry>, s: Sighting, i: nat, k: Key)
    requires i < |t|
    requires forall a, b :: 0 <= a < b < |t| && t[a].inUse && t[b].inUse ==> t[a].key != t[b].key
    ensures Has(Sight(t, i, s), k) <==> k == s.key || (Has(t, k) && !Holds(t[i], k))
  {
    hide Clock;
    var t' := Sight(t, i, s);
    assert Holds(t'[i], s.key);
    if Has(t, k) && !Holds(t[i], k) {
      var j :| 0 <= j < |t| && Holds(t[j], k);
      assert Holds(t'[j], k);
    }
    if Has(t', k) && k != s.key {
      var j :| 0 <= j < |t| && Holds(t'[j], k);
      assert Holds(t[j], k);
    }
  }

  /** Entry j after a sighting that went to entry i. */
  lemma EntryAfter(t: seq<Entry>, h: seq<Sighting>, s: Sighting, i: nat, j: nat)
    requires Readings(t, h) && Chosen(t, s.key, i) && j < |t| && Sight(t, i, s)[j].inUse
    ensures var e := Sight(t, i, s)[j];
            && Last(h + [s], e.key) >= 0 && e.lastSeen == Clock(SeenAt(h + [s], e.key))
            && (j == i ==> e.key == s.key && SeenAt(h + [s], e.key) == s.time)
            && (j != i ==> e == t[j] && e.key != s.key && SeenAt(h + [s], e.key) == SeenAt(h, e.key))
  {
    hide Last, SeenAt, Clock;
    LastNext(h, s, Sight(t, i, s)[j].key);
    assert Holds(t[j], s.key) ==> Holds(t[i], s.key);
  }

  lemma ReadingsAfter(t: seq<Entry>, h: seq<Sighting>, s: Sighting, i: nat)
    requires Readings(t, h) && Chosen(t, s.key, i)
    ensures Readings(Sight(t, i, s), h + [s])
  {
    hide Chosen, Last, SeenAt, Clock, Sight;
    ChosenIn(t, s.key, i);
    var t' := Sight(t, i, s);
    forall j | 0 <= j < |t'| && t'[j].inUse
      ensures Last(h + [s], t'[j].key) >= 0 && t'[j].lastSeen == Clock(SeenAt(h + [s], t'[j].key))
      ensures j == i ==> t'[j].key == s.key
      ensures j != i ==> t'[j] == t[j] && t'[j].key != s.key
    {
      EntryAfter(t, h, s, i, j);
    }
  }

  lemma TimedPrefix(h: seq<Sighting>, s: Sighting)
    requires Timed(h + [s])
    ensures Timed(h)
  {
    assert forall i :: 0 <= i < |h| ==> (h + [s])[i] == h[i];
  }

  /** A device seen but not in the table: the table is full, and nothing in it was seen earlier. */
  lemma LeftOut(t: seq<Entry>, h: seq<Sighting>, s: Sighting, i: nat, k: Key, j: nat)
    requires MostRecent(t, h) && Timed(h + [s]) && Chosen(t, s.key, i) && (Evicts(t, s.key) ==> NoneEarlier(t, h, i))
    requires Last(h + [s], k) >= 0 && !Has(Sight(t, i, s), k) && j < |t|
    ensures Sight(t, i, s)[j].inUse && SeenAt(h + [s], k) <= SeenAt(h + [s], Sight(t, i, s)[j].key)
  {
    hide Last, SeenAt, Clock, Turn, NoneEarlier;
    HasAfter(t, s, i, k);
    LastNext(h, s, k);
    TimedPrefix(h, s);
    SeenBefore(h, s, k);
    SightKeeps(t, i, s, j);
    if Holds(t[i], k) {
      HeldElsewhere(t, s.key, i, k);
      VictimOldest(t, h, s.key, i);
    }
    EntryAfter(t, h, s, i, j);
  }

  lemma SightKeeps(t: seq<Entry>, i: nat, s: Sighting, j: nat)
    requires i < |t| && j < |t|
    ensures t[j].inUse || j == i ==> Sight(t, i, s)[j].inUse
  {}

  lemma HeldElsewhere(t: seq<Entry>, k: Key, i: nat, held: Key)
    requires Chosen(t, k, i) && Holds(t[i], held) && held != k
    ensures Evicts(t, k)
  {}

  lemma OneTurnNoneEarlier(t: seq<Entry>, h: seq<Sighting>, i: nat)
    requires OneTurn(t, h) && Full(t) && i < |t|
    ensures NoneEarlier(t, h, i)
  {
    hide Last, SeenAt, Turn;
  }

  /** One sighting keeps the table exact, if an eviction takes an entry of the earliest turn held. */
  lemma SightingStep(t: seq<Entry>, h: seq<Sighting>, s: Sighting, i: nat)
    requires MostRecent(t, h) && Timed(h + [s]) && Chosen(t, s.key, i) && (Evicts(t, s.key) ==> NoneEarlier(t, h, i))
    ensures MostRecent(Sight(t, i, s), h + [s])
  {
    hide Chosen, Has, Last, SeenAt, Clock, Turn, NoneEarlier, Evicts, Sight, Readings, MostRecent;
    ReadingsOf(t, h);
    ReadingsAfter(t, h, s, i);
    ChosenIn(t, s.key, i);
    var t', h' := Sight(t, i, s), h + [s];
    forall k, j | Last(h', k) >= 0 && !Has(t', k) && 0 <= j < |t'|
      ensures t'[j].inUse && SeenAt(h', k) <= SeenAt(h', t'[j].key)
    {
      LeftOut(t, h, s, i, k, j);
    }
    MostRecentIf(t', h');
  }

  lemma ReadingsOf(t: seq<Entry>, h: seq<Sighting>)
    requires MostRecent(t, h)
    ensures Readings(t, h)
  {}

  lemma ChosenIn(t: seq<Entry>, k: Key, i: nat)
    requires Chosen(t, k, i)
    ensures i < |t|
  {}

  lemma MostRecentIf(t: seq<Entry>, h: seq<Sighting>)
    requires Readings(t, h)
    requires forall k, j :: Last(h, k) >= 0 && !Has(t, k) && 0 <= j < |t| ==>
      t[j].inUse && SeenAt(h, k) <= SeenAt(h, t[j].key)
    ensures MostRecent(t, h)
  {
    hide Last, SeenAt, Has, Readings;
  }

  /** And only then: otherwise an eviction drops a device seen later than one it keeps. While the devices
      held were seen within one turn's length, the condition is that they were seen in one turn. */
  lemma SightingExact(t: seq<Entry>, h: seq<Sighting>, s: Sighting, i: nat)
    requires MostRecent(t, h) && Timed(h + [s]) && Chosen(t, s.key, i) && Evicts(t, s.key)
    ensures MostRecent(Sight(t, i, s), h + [s]) <==> NoneEarlier(t, h, i)
    ensures (forall a, b :: 0 <= a < |t| && 0 <= b < |t| ==> SeenAt(h, t[b].key) - SeenAt(h, t[a].key) < TURN) ==>
      (MostRecent(Sight(t, i, s), h + [s]) <==> OneTurn(t, h))
  {
    hide Chosen, Last, SeenAt, Clock, Turn, OneTurn, NoneEarlier, Sight, Readings, MostRecent, Has;
    ReadingsOf(t, h);
    ChosenIn(t, s.key, i);
    VictimOldest(t, h, s.key, i);
    if NoneEarlier(t, h, i) {
      SightingStep(t, h, s, i);
    } else {
      var j :| 0 <= j < |t| && SeenAt(h, t[j].key) < SeenAt(h, t[i].key);
      DroppedLater(t, h, s, i, j);
    }
  }

  lemma DroppedLater(t: seq<Entry>, h: seq<Sighting>, s: Sighting, i: nat, j: nat)
    requires Readings(t, h) && Chosen(t, s.key, i) && Evicts(t, s.key)
    requires i < |t| && j < |t| && SeenAt(h, t[j].key) < SeenAt(h, t[i].key)
    ensures !MostRecent(Sight(t, i, s), h + [s])
  {
    hide Last, SeenAt, Clock, Chosen;
    var k, t' := t[i].key, Sight(t, i, s);
    assert t[i].inUse && t[j].inUse;
    HeldIsHad(t, i);
    HasAfter(t, s, i, k);
    LastNext(h, s, k);
    SightKeeps(t, i, s, j);
    EntryAfter(t, h, s, i, j);
    assert !Has(t', k) && Last(h + [s], k) >= 0;
    assert SeenAt(h + [s], t'[j].key) < SeenAt(h + [s], k);
  }

  lemma HeldIsHad(t: seq<Entry>, i: nat)
    requires i < |t| && t[i].inUse
    ensures Has(t, t[i].key)
  {
    assert Holds(t[i], t[i].key);
  }

  // ---- Runs -----------------------------------------------------------------------------------------------

  // The entries after each of a run of sightings, from a cleared table on.
  ghost predicate Run(tables: seq<seq<Entry>>, h: seq<Sighting>) {
    && |tables| == |h| + 1
    && |tables[0]| == SLOTS && (forall i :: 0 <= i < SLOTS ==> !tables[0][i].inUse)
    && forall n :: 0 <= n < |h| ==> Sighted(tables[n], h[n], tables[n + 1])
  }

  ghost predicate Sighted(t: seq<Entry>, s: Sighting, t': seq<Entry>) {
    exists i: nat :: i < |t| && Chosen(t, s.key, i) && t' == Sight(t, i, s)
  }

  /** After any sightings since the last clear, on whatever turns of the clock, as long as each eviction
      sees the devices held in one turn. */
  lemma {:induction false} RunMostRecent(tables: seq<seq<Entry>>, h: seq<Sighting>, n: nat)
    requires Run(tables, h) && Timed(h) && n <= |h|
    requires forall m :: 0 <= m < n && Evicts(tables[m], h[m].key) ==> OneTurn(tables[m], h[..m])
    ensures MostRecent(tables[n], h[..n])
  {
    hide MostRecent, Chosen, Sight, OneTurn, Evicts;
    if n == 0 {
      NothingSeen(tables[0]);
    } else {
      RunMostRecent(tables, h, n - 1);
      assert Sighted(tables[n - 1], h[n - 1], tables[n]);
      var i: nat :| i < |tables[n - 1]| && Chosen(tables[n - 1], h[n - 1].key, i)
                    && tables[n] == Sight(tables[n - 1], i, h[n - 1]);
      assert h[..n - 1] + [h[n - 1]] == h[..n];
      if Evicts(tables[n - 1], h[n - 1].key) { EvictsFull(tables[n - 1], h[n - 1].key, h[..n - 1], i); }
      SightingStep(tables[n - 1], h[..n - 1], h[n - 1], i);
    }
  }

  lemma EvictsFull(t: seq<Entry>, k: Key, h: seq<Sighting>, i: nat)
    requires Evicts(t, k) && OneTurn(t, h) && i < |t|
    ensures NoneEarlier(t, h, i)
  {
    OneTurnNoneEarlier(t, h, i);
  }

  lemma NothingSeen(t: seq<Entry>)
    requires |t| == SLOTS && forall i :: 0 <= i < SLOTS ==> !t[i].inUse
    ensures MostRecent(t, [])
  {}

  /** Over any run, whatever the clock does, each entry in use has the clock reading and the signal strength
      of the last sighting of its device. */
  lemma {:induction false} RunLatest(tables: seq<seq<Entry>>, h: seq<Sighting>, n: nat)
    requires Run(tables, h) && n <= |h|
    ensures Readings(tables[n], h[..n])
    ensures forall i :: 0 <= i < SLOTS && tables[n][i].inUse ==>
              tables[n][i].rssi == h[Last(h[..n], tables[n][i].key)].rssi
  {
    hide Chosen, Sight, Clock, Last, SeenAt;
    if n == 0 {
      NothingSeen(tables[0]);
    } else {
      RunLatest(tables, h, n - 1);
      var t, before, s := tables[n - 1], h[..n - 1], h[n - 1];
      assert Sighted(t, s, tables[n]);
      var i: nat :| i < |t| && Chosen(t, s.key, i) && tables[n] == Sight(t, i, s);
      assert before + [s] == h[..n];
      ReadingsAfter(t, before, s, i);
      forall j | 0 <= j < SLOTS && tables[n][j].inUse
        ensures tables[n][j].rssi == h[Last(h[..n], tables[n][j].key)].rssi
      {
        SightLatest(t, i, s);
        EntryAfter(t, before, s, i, j);
        LastNext(before, s, tables[n][j].key);
      }
    }
  }

  lemma SightLatest(t: seq<Entry>, i: nat, s: Sighting)
    requires i < |t|
    ensures Sight(t, i, s)[i].rssi == s.rssi
  {}

  /** In particular whenever all sightings fall in one turn of the clock. */
  lemma OneTurnRun(tables: seq<seq<Entry>>, h: seq<Sighting>, n: nat)
    requires Run(tables, h) && Timed(h) && n <= |h|
    requires forall a, b :: 0 <= a < |h| && 0 <= b < |h| ==> Turn(h[a].time) == Turn(h[b].time)
    ensures MostRecent(tables[n], h[..n])
    decreases n
  {
    hide Sighted, Turn, Chosen, Evicts;
    forall m | 0 <= m < n && Evicts(tables[m], h[m].key)
      ensures OneTurn(tables[m], h[..m])
    {
      OneTurnRun(tables, h, m);
      OneTurnHeld(tables[m], h, m);
    }
    RunMostRecent(tables, h, n);
  }

  lemma OneTurnHeld(t: seq<Entry>, h: seq<Sighting>, m: nat)
    requires m <= |h| && Readings(t, h[..m])
    requires forall a, b :: 0 <= a < |h| && 0 <= b < |h| ==> Turn(h[a].time) == Turn(h[b].time)
    ensures OneTurn(t, h[..m])
  {
    hide Last, Turn, Clock;
  }

  /** If moreover no two sightings share a millisecond, the table holds exactly the eight most recently
      seen devices: every other one was last seen before each of them. */
  lemma ExactlyMostRecent(t: seq<Entry>, h: seq<Sighting>, i: nat, k: Key)
    requires MostRecent(t, h) && forall a, b :: 0 <= a < b < |h| ==> h[a].time < h[b].time
    requires i < |t| && t[i].inUse && Last(h, k) >= 0 && !Has(t, k)
    ensures Last(h, k) < Last(h, t[i].key)
  {
    hide Last, MostRecent, Has;
    SeenNoEarlier(t, h, i, k);
    var a, b := Last(h, k), Last(h, t[i].key);
    assert h[a].time <= h[b].time && h[a].key != h[b].key;
  }

  lemma SeenNoEarlier(t: seq<Entry>, h: seq<Sighting>, i: nat, k: Key)
    requires MostRecent(t, h) && i < |t| && t[i].inUse && Last(h, k) >= 0 && !Has(t, k)
    ensures Last(h, t[i].key) >= 0 && SeenAt(h, k) <= SeenAt(h, t[i].key) && t[i].key != k
  {
    hide Last, Has, Clock;
    HeldIsHad(t, i);
  }

  /** The failure occurs: of eight devices seen one after the other, the last of them after the clock
      started again, it is the last one whose entry a ninth device takes. */
  lemma WrapEvictsNewest(keys: seq<Key>, k: Key) returns (t: seq<Entry>)
    requires |keys| == SLOTS && k !in keys
    ensures |t| == SLOTS && forall i :: 0 <= i < SLOTS ==>
              Holds(t[i], keys[i]) && t[i].lastSeen == Clock(TURN - SLOTS + 1 + i)
    ensures forall i :: Chosen(t, k, i) <==> i == SLOTS - 1
  {
    t := seq(SLOTS, i requires 0 <= i < SLOTS => Entry(true, keys[i], "", 0, Clock(TURN - SLOTS + 1 + i)));
    forall i | 0 <= i < SLOTS
      ensures t[i].lastSeen == if i == SLOTS - 1 then 0 else TURN - SLOTS + 1 + i
    {
      ClockNearWrap(i);
    }
    assert forall i :: 0 <= i < SLOTS ==> t[i].inUse && t[i].key == keys[i] && !Holds(t[i], k);
    forall i: nat | Chosen(t, k, i) ensures i == SLOTS - 1 {
      assert t[i].lastSeen <= t[SLOTS - 1].lastSeen;
    }
  }

  lemma ClockNearWrap(i: nat)
    requires i < SLOTS
    ensures Clock(TURN - SLOTS + 1 + i) == if i == SLOTS - 1 then 0 else TURN - SLOTS + 1 + i
  {}
}
