/** Translation of HID boot-keyboard reports into queued characters. */
module HidReport {
  import opened Common

  // ---- Keys -------------------------------------------------------------------------------------------

  const KEYMAP_LEN := 0x39
  const CAPS_LOCK: byte := 0x39

  const MOD_SHIFT: bv8 := 0x22
  const MOD_CTRL: bv8 := 0x11
  const MOD_ALT: bv8 := 0x44
  const MOD_GUI: bv8 := 0x88

  predicate Any(m: byte, mask: bv8) { (m as bv8) & mask != 0 }

  predicate Letter(kc: byte) { 0x04 <= kc <= 0x1D }

  function English(): (t: seq<byte>)
    ensures |t| == KEYMAP_LEN
  {
    [0, 0, 0, 0]
    + [0x61, 0x62, 0x63, 0x64, 0x65, 0x66, 0x67, 0x68, 0x69, 0x6A, 0x6B, 0x6C, 0x6D]
    + [0x6E, 0x6F, 0x70, 0x71, 0x72, 0x73, 0x74, 0x75, 0x76, 0x77, 0x78, 0x79, 0x7A]
    + [0x31, 0x32, 0x33, 0x34, 0x35, 0x36, 0x37, 0x38, 0x39, 0x30]
    + [0x0A, 0, 0x08, 0, 0x20]
    + [0x2D, 0x3D, 0x5B, 0x5D, 0x5C, 0, 0x3B, 0x27, 0x60, 0x2C, 0x2E, 0x2F]
  }

  function EnglishShift(): (t: seq<byte>)
    ensures |t| == KEYMAP_LEN
  {
    [0, 0, 0, 0]
    + [0x41, 0x42, 0x43, 0x44, 0x45, 0x46, 0x47, 0x48, 0x49, 0x4A, 0x4B, 0x4C, 0x4D]
    + [0x4E, 0x4F, 0x50, 0x51, 0x52, 0x53, 0x54, 0x55, 0x56, 0x57, 0x58, 0x59, 0x5A]
    + [0x21, 0x40, 0x23, 0x24, 0x25, 0x5E, 0x26, 0x2A, 0x28, 0x29]
    + [0x0A, 0, 0x08, 0, 0x20]
    + [0x5F, 0x2B, 0x7B, 0x7D, 0x7C, 0, 0x3A, 0x22, 0x7E, 0x3C, 0x3E, 0x3F]
  }

  function Russian(): (t: seq<byte>)
    ensures |t| == KEYMAP_LEN
  {
    [0, 0, 0, 0]
    + [0xB6, 0xAA, 0xB3, 0xA4, 0xB5, 0xA2, 0xB1, 0xB2, 0xBA, 0xB0, 0xAD, 0xA6, 0xBE]
    + [0xB4, 0xBB, 0xA9, 0xAB, 0xAC, 0xBD, 0xA7, 0xA5, 0xAE, 0xB8, 0xB9, 0xAF, 0xC1]
    + [0x31, 0x32, 0x33, 0x34, 0x35, 0x36, 0x37, 0x38, 0x39, 0x30]
    + [0x0A, 0, 0x08, 0, 0x20]
    + [0x2D, 0x3D, 0xB7, 0xBC, 0x5C, 0, 0xA8, 0xBF, 0x80, 0xA3, 0xC0, 0x2E]
  }

  function RussianShift(): (t: seq<byte>)
    ensures |t| == KEYMAP_LEN
  {
    [0, 0, 0, 0]
    + [0x95, 0x89, 0x92, 0x83, 0x94, 0x81, 0x90, 0x91, 0x99, 0x8F, 0x8C, 0x85, 0x9D]
    + [0x93, 0x9A, 0x88, 0x8A, 0x8B, 0x9C, 0x86, 0x84, 0x8D, 0x97, 0x98, 0x8E, 0xA0]
    + [0x21, 0x22, 0x23, 0x3B, 0x25, 0x3A, 0x3F, 0x2A, 0x28, 0x29]
    + [0x0A, 0, 0x08, 0, 0x20]
    + [0x2D, 0x3D, 0x96, 0x9B, 0x5C, 0, 0x87, 0x9E, 0x80, 0x82, 0x9F, 0x2C]
  }

  function KeyChar(kc: byte, shift: bool, ru: bool): byte
    requires kc < KEYMAP_LEN
  {
    if ru then (if shift then RussianShift()[kc] else Russian()[kc])
    else (if shift then EnglishShift()[kc] else English()[kc])
  }

  lemma EnglishLetters(kc: byte)
    requires Letter(kc)
    ensures English()[kc] != 0
  {
    var t := English();
    assert 0 !in t[4..17] && 0 !in t[17..30];
    assert t[kc] == if kc < 17 then t[4..17][kc - 4] else t[17..30][kc - 17];
  }

  lemma EnglishShiftLetters(kc: byte)
    requires Letter(kc)
    ensures EnglishShift()[kc] != 0
  {
    var t := EnglishShift();
    assert 0 !in t[4..17] && 0 !in t[17..30];
    assert t[kc] == if kc < 17 then t[4..17][kc - 4] else t[17..30][kc - 17];
  }

  lemma RussianLetters(kc: byte)
    requires Letter(kc)
    ensures Russian()[kc] != 0
  {
    var t := Russian();
    assert 0 !in t[4..17] && 0 !in t[17..30];
    assert t[kc] == if kc < 17 then t[4..17][kc - 4] else t[17..30][kc - 17];
  }

  lemma RussianShiftLetters(kc: byte)
    requires Letter(kc)
    ensures RussianShift()[kc] != 0
  {
    var t := RussianShift();
    assert 0 !in t[4..17] && 0 !in t[17..30];
    assert t[kc] == if kc < 17 then t[4..17][kc - 4] else t[17..30][kc - 17];
  }

  /** Letters have a character in all four tables, so Caps Lock never decides whether a key is mapped. */
  lemma LettersMapped(kc: byte, shift: bool, ru: bool)
    requires Letter(kc)
    ensures KeyChar(kc, shift, ru) != 0
  {
    hide English, EnglishShift, Russian, RussianShift;
    EnglishLetters(kc);
    EnglishShiftLetters(kc);
    RussianLetters(kc);
    RussianShiftLetters(kc);
  }

  /** What a fresh press does: queue a character (and perhaps start hold-to-repeat), toggle
      Caps Lock, or nothing. */
  datatype Action = Nothing | Push(ch: byte, repeats: bool) | Caps

  function KeyAction(kc: byte, m: byte, caps: bool, ru: bool): Action {
    match kc
    case 0x29 => Push(0x1B, false)
    case 0x2A => Push(0x08, true)
    case 0x52 => Push(0x12, true)
    case 0x51 => Push(0x11, true)
    case 0x50 => Push(0x16, true)
    case 0x4F => Push(0x17, true)
    case 0x4A => Push(0x18, false)
    case 0x4D => Push(0x19, false)
    case 0x4B => Push(0x1A, false)
    case 0x4E => Push(0x1C, false)
    case 0x2B => Push(if Any(m, MOD_ALT) then 0x13 else 0x09, false)
    case 0x39 => Caps
    case 0x3B => Push(0x01, false)
    case _ =>
      if kc == 0x04 && Any(m, MOD_CTRL) then Push(0x01, false)
      else if kc < KEYMAP_LEN && !Any(m, MOD_GUI) then
        var shift := Any(m, MOD_SHIFT);
        var ch := KeyChar(kc, if Letter(kc) then shift != caps else shift, ru);
        if ch != 0 then Push(ch, true) else Nothing
      else Nothing
  }

  predicate Mapped(kc: byte, m: byte, ru: bool) { KeyAction(kc, m, false, ru).Push? }

  lemma CapsKeepsMapped(kc: byte, m: byte, caps: bool, ru: bool)
    ensures KeyAction(kc, m, caps, ru).Push? <==> Mapped(kc, m, ru)
    ensures KeyAction(kc, m, caps, ru).Caps? <==> kc == CAPS_LOCK
  {
    hide Any, KeyChar;
    if Letter(kc) {
      LettersMapped(kc, Any(m, MOD_SHIFT), ru);
      LettersMapped(kc, !Any(m, MOD_SHIFT), ru);
    }
  }

  // ---- Reports ----------------------------------------------------------------------------------------

  /** One call that queues a character, with the keycode that caused it (0 for a modifier combination). */
  datatype Attempt = Attempt(kc: byte, ch: byte)

  datatype Kbd = Kbd(prev: seq<byte>, prevMod: byte, heldActive: bool, heldKey: byte, heldChar: byte,
                     caps: bool, ru: bool, pushes: seq<Attempt>)

  /** Slot values 0 and 1 are no key and rollover error. */
  predicate Fresh(prev: seq<byte>, kc: byte) { kc > 1 && kc !in prev }

  function Press(s: Kbd, kc: byte, act: Action): Kbd {
    match act
    case Nothing => s
    case Caps => s.(caps := !s.caps)
    case Push(ch, repeats) =>
      var t := s.(pushes := s.pushes + [Attempt(kc, ch)]);
      if repeats then t.(heldActive := true, heldKey := kc, heldChar := ch) else t
  }

  /** The first n key slots of a report. */
  function Slots(s: Kbd, m: byte, keys: seq<byte>, n: nat): (t: Kbd)
    requires n <= |keys|
    ensures t.prev == s.prev && t.prevMod == s.prevMod && t.ru == s.ru
  {
    if n == 0 then s
    else
      var t := Slots(s, m, keys, n - 1);
      if Fresh(s.prev, keys[n - 1]) then Press(t, keys[n - 1], KeyAction(keys[n - 1], m, t.caps, s.ru)) else t
  }

  predicate LangCombo(m: byte) {
    (Any(m, MOD_ALT) && Any(m, MOD_SHIFT)) || (Any(m, MOD_CTRL) && Any(m, MOD_SHIFT))
  }

  /** The modifier combinations that have no keycode of their own. */
  function Combos(prevMod: byte, m: byte, keys: seq<byte>): seq<Attempt> {
    (if Any(m, MOD_GUI) && !Any(prevMod, MOD_GUI) && (forall i :: 0 <= i < |keys| ==> keys[i] == 0)
     then [Attempt(0, 0x14)] else [])
    + (if LangCombo(m) && !LangCombo(prevMod) then [Attempt(0, 0x15)] else [])
  }

  function Report(s: Kbd, m: byte, keys: seq<byte>): Kbd {
    var t := Slots(s, m, keys, |keys|);
    t.(heldActive := t.heldActive && t.heldKey in keys, prev := keys, prevMod := m,
       pushes := t.pushes + Combos(s.prevMod, m, keys))
  }

  // ---- Runs -------------------------------------------------------------------------------------------

  /** An input report, a change of layout by the menu, and a connection opening or closing. */
  datatype Event = Input(data: seq<byte>) | Lang(ru: bool) | Open | Close

  predicate Accepted(e: Event) { e.Input? && |e.data| >= 8 }

  function Keys(e: Event): (keys: seq<byte>)
    requires Accepted(e)
    ensures |keys| == 6
  {
    e.data[2..8]
  }

  function Next(s: Kbd, e: Event): Kbd {
    match e
    case Input(data) => if Accepted(e) then Report(s, data[0], Keys(e)) else s
    case Lang(ru) => s.(ru := ru)
    case Open => s.(caps := false)
    case Close => s.(caps := false, heldActive := false)
  }

  function After(s: Kbd, es: seq<Event>): Kbd {
    if es == [] then s else Next(After(s, es[..|es| - 1]), es[|es| - 1])
  }

  const START: Kbd := Kbd([0, 0, 0, 0, 0, 0], 0, false, 0, 0, false, false, [])

  // What a run amounts to, from its reports alone.

  function LastKeys(es: seq<Event>): seq<byte> {
    if es == [] then START.prev
    else if Accepted(es[|es| - 1]) then Keys(es[|es| - 1])
    else LastKeys(es[..|es| - 1])
  }

  function LastLang(es: seq<Event>): bool {
    if es == [] then START.ru
    else if es[|es| - 1].Lang? then es[|es| - 1].ru
    else LastLang(es[..|es| - 1])
  }

  function Occurs(keys: seq<byte>, n: nat, k: byte): nat
    requires n <= |keys|
  {
    if n == 0 then 0 else Occurs(keys, n - 1, k) + if keys[n - 1] == k then 1 else 0
  }

  /** The slots in which keycode k goes down with e, against the last report of es. */
  function Rises(es: seq<Event>, e: Event, k: byte): nat {
    if Accepted(e) && Fresh(LastKeys(es), k) then Occurs(Keys(e), 6, k) else 0
  }

  /** How often k went down while mapped. */
  function Edges(es: seq<Event>, k: byte): nat {
    if es == [] then 0
    else
      var before, e := es[..|es| - 1], es[|es| - 1];
      Edges(before, k) + if Accepted(e) && Mapped(k, e.data[0], LastLang(before)) then Rises(before, e, k) else 0
  }

  /** How often Caps Lock went down since the connection last opened or closed. */
  function CapsPresses(es: seq<Event>): nat {
    if es == [] then 0
    else
      var before, e := es[..|es| - 1], es[|es| - 1];
      if e.Open? || e.Close? then 0 else CapsPresses(before) + Rises(before, e, CAPS_LOCK)
  }

  function Attempts(pushes: seq<Attempt>, k: byte): nat {
    if pushes == [] then 0
    else Attempts(pushes[..|pushes| - 1], k) + if pushes[|pushes| - 1].kc == k then 1 else 0
  }

  // ---- One report -------------------------------------------------------------------------------------

  lemma {:induction false} AttemptsAppend(p: seq<Attempt>, q: seq<Attempt>, k: byte)
    ensures Attempts(p + q, k) == Attempts(p, k) + Attempts(q, k)
  {
    if q == [] {
      assert p + q == p;
    } else {
      AttemptsAppend(p, q[..|q| - 1], k);
      assert (p + q)[..|p + q| - 1] == p + q[..|q| - 1];
    }
  }

  lemma CombosHaveNoKey(prevMod: byte, m: byte, keys: seq<byte>, k: byte)
    requires k > 1
    ensures Attempts(Combos(prevMod, m, keys), k) == 0
  {
    hide LangCombo, Any;
    var c := Combos(prevMod, m, keys);
    assert |c| <= 2 && forall i :: 0 <= i < |c| ==> c[i].kc == 0;
    NoneAttempted(c, k);
  }

  lemma {:induction false} NoneAttempted(p: seq<Attempt>, k: byte)
    requires forall i :: 0 <= i < |p| ==> p[i].kc != k
    ensures Attempts(p, k) == 0
  {
    if p != [] { NoneAttempted(p[..|p| - 1], k); }
  }

  lemma PressCounts(s: Kbd, kc: byte, act: Action, k: byte)
    ensures Attempts(Press(s, kc, act).pushes, k) == Attempts(s.pushes, k) + if act.Push? && kc == k then 1 else 0
  {
    if act.Push? {
      var q := [Attempt(kc, act.ch)];
      assert q[..0] == [];
      AttemptsAppend(s.pushes, q, k);
    }
  }

  /** Each slot that holds a fresh mapped key queues one character for it, whatever Caps Lock does on the way. */
  lemma {:induction false} SlotsCount(s: Kbd, m: byte, keys: seq<byte>, n: nat, k: byte)
    requires n <= |keys| && k > 1
    ensures Attempts(Slots(s, m, keys, n).pushes, k)
         == Attempts(s.pushes, k) + if Fresh(s.prev, k) && Mapped(k, m, s.ru) then Occurs(keys, n, k) else 0
  {
    hide KeyAction, Press, Attempts, Mapped;
    if n > 0 {
      SlotsCount(s, m, keys, n - 1, k);
      var t := Slots(s, m, keys, n - 1);
      CapsKeepsMapped(keys[n - 1], m, t.caps, s.ru);
      PressCounts(t, keys[n - 1], KeyAction(keys[n - 1], m, t.caps, s.ru), k);
    }
  }

  lemma {:induction false} SlotsCaps(s: Kbd, m: byte, keys: seq<byte>, n: nat)
    requires n <= |keys|
    ensures Slots(s, m, keys, n).caps
        <==> (s.caps != (Fresh(s.prev, CAPS_LOCK) && Occurs(keys, n, CAPS_LOCK) % 2 == 1))
  {
    hide KeyAction, Mapped;
    if n > 0 {
      SlotsCaps(s, m, keys, n - 1);
      CapsKeepsMapped(keys[n - 1], m, Slots(s, m, keys, n - 1).caps, s.ru);
    }
  }

  lemma {:induction false} SlotsHeld(s: Kbd, m: byte, keys: seq<byte>, n: nat)
    requires n <= |keys|
    ensures var t := Slots(s, m, keys, n);
            t.heldActive ==> t.heldKey in keys || (t.heldKey == s.heldKey && s.heldActive && t.heldChar == s.heldChar)
  {
    hide KeyAction;
    if n > 0 { SlotsHeld(s, m, keys, n - 1); }
  }

  /** Caps Lock when slot j is looked at: as before the report, unless its key has just gone down in an
      odd number of earlier slots. */
  predicate CapsAt(s: Kbd, keys: seq<byte>, j: nat)
    requires j <= |keys|
  {
    s.caps != (Fresh(s.prev, CAPS_LOCK) && Occurs(keys, j, CAPS_LOCK) % 2 == 1)
  }

  /** Every character queued is the one that the key of its slot stands for, in the case that Shift and
      Caps Lock give it there. */
  lemma {:induction false} SlotsChars(s: Kbd, m: byte, keys: seq<byte>, n: nat, i: nat) returns (j: nat)
    requires n <= |keys| && |s.pushes| <= i < |Slots(s, m, keys, n).pushes|
    ensures j < n && Slots(s, m, keys, n).pushes[i].kc == keys[j] && Fresh(s.prev, keys[j])
    ensures KeyAction(keys[j], m, CapsAt(s, keys, j), s.ru).Push?
    ensures KeyAction(keys[j], m, CapsAt(s, keys, j), s.ru).ch == Slots(s, m, keys, n).pushes[i].ch
  {
    hide KeyAction, Fresh, Occurs;
    var t := Slots(s, m, keys, n - 1);
    if i < |t.pushes| {
      j := SlotsChars(s, m, keys, n - 1, i);
    } else {
      j := n - 1;
      SlotsCaps(s, m, keys, n - 1);
    }
  }

  // ---- Whole runs -------------------------------------------------------------------------------------

  lemma {:induction false} AfterRemembers(es: seq<Event>)
    ensures After(START, es).prev == LastKeys(es) && After(START, es).ru == LastLang(es)
  {
    hide Slots, Combos;
    if es != [] { AfterRemembers(es[..|es| - 1]); }
  }

  /** Over any run a key queues exactly one character for each time it goes down while mapped. */
  lemma {:induction false} OnePushPerPress(es: seq<Event>, k: byte)
    requires k > 1
    ensures Attempts(After(START, es).pushes, k) == Edges(es, k)
  {
    hide Slots, Combos, Mapped, Attempts, Occurs;
    if es == [] {
      NoneAttempted(START.pushes, k);
    } else {
      var before, e := es[..|es| - 1], es[|es| - 1];
      var s := After(START, before);
      OnePushPerPress(before, k);
      AfterRemembers(before);
      if Accepted(e) {
        var m, keys := e.data[0], Keys(e);
        SlotsCount(s, m, keys, 6, k);
        CombosHaveNoKey(s.prevMod, m, keys, k);
        AttemptsAppend(Slots(s, m, keys, 6).pushes, Combos(s.prevMod, m, keys), k);
      }
    }
  }

  // ---- Rollover reports -----------------------------------------------------------------------------------

  /** Too many keys are down: every slot holds the rollover code, and which keys are down is not said. */
  predicate Rollover(keys: seq<byte>) { forall i :: 0 <= i < |keys| ==> keys[i] == 1 }

  /** The keys down in the last report that says which. */
  function LastKnown(es: seq<Event>): seq<byte> {
    if es == [] then START.prev
    else
      var e := es[|es| - 1];
      if Accepted(e) && !Rollover(Keys(e)) then Keys(e) else LastKnown(es[..|es| - 1])
  }

  /** How often k was pressed while mapped, by the reports that say which keys are down. */
  function Presses(es: seq<Event>, k: byte): nat {
    if es == [] then 0
    else
      var before, e := es[..|es| - 1], es[|es| - 1];
      Presses(before, k) + if Accepted(e) && Mapped(k, e.data[0], LastLang(before)) && Fresh(LastKnown(before), k)
                           then Occurs(Keys(e), 6, k) else 0
  }

  /** With e a mapped key k comes back that was down before one or more rollover reports. */
  predicate HeldAcross(es: seq<Event>, e: Event, k: byte) {
    Accepted(e) && k in Keys(e) && Mapped(k, e.data[0], LastLang(es)) && Rollover(LastKeys(es)) && k in LastKnown(es)
  }

  lemma {:induction false} LastKnownIs(es: seq<Event>)
    ensures |LastKeys(es)| == 6 && (!Rollover(LastKeys(es)) ==> LastKnown(es) == LastKeys(es))
  {
    if es != [] { LastKnownIs(es[..|es| - 1]); }
  }

  lemma RolloverHasNone(keys: seq<byte>, k: byte)
    requires Rollover(keys) && k > 1
    ensures k !in keys
  {}

  /** Rises against the last report are presses, but for keys held across a rollover. */
  lemma RisesArePresses(es: seq<Event>, e: Event, k: byte)
    requires k > 1 && Accepted(e) && Mapped(k, e.data[0], LastLang(es))
    ensures var press := if Fresh(LastKnown(es), k) then Occurs(Keys(e), 6, k) else 0;
            Rises(es, e, k) >= press && (Rises(es, e, k) == press <==> !HeldAcross(es, e, k))
  {
    hide LastKeys, LastKnown, Mapped, Occurs;
    LastKnownIs(es);
    OccursNever(Keys(e), 6, k);
    assert Keys(e)[..6] == Keys(e);
    if Rollover(LastKeys(es)) { RolloverHasNone(LastKeys(es), k); }
  }

  /** A key queues one character for each press exactly when it is never held across a rollover report;
      otherwise it queues more. */
  lemma {:induction false} PushesArePresses(es: seq<Event>, k: byte)
    requires k > 1
    ensures Edges(es, k) >= Presses(es, k)
    ensures Attempts(After(START, es).pushes, k) == Presses(es, k)
       <==> forall i :: 0 <= i < |es| ==> !HeldAcross(es[..i], es[i], k)
  {
    hide After, Attempts, Mapped, Rises, HeldAcross, Fresh, Occurs, LastKnown, LastLang;
    OnePushPerPress(es, k);
    if es != [] {
      var n := |es| - 1;
      var before, e := es[..n], es[n];
      PushesArePresses(before, k);
      OnePushPerPress(before, k);
      if Accepted(e) && Mapped(k, e.data[0], LastLang(before)) {
        RisesArePresses(before, e, k);
      } else {
        NotHeldAcross(before, e, k);
      }
      assert forall i :: 0 <= i < n ==> before[..i] == es[..i] && before[i] == es[i];
    }
  }

  lemma NotHeldAcross(es: seq<Event>, e: Event, k: byte)
    requires !(Accepted(e) && Mapped(k, e.data[0], LastLang(es)))
    ensures !HeldAcross(es, e, k)
  {}

  const A_DOWN := Input([0, 0, 0x04, 0, 0, 0, 0, 0])
  const TOO_MANY := Input([0, 0, 1, 1, 1, 1, 1, 1])

  lemma AMapped()
    ensures Mapped(0x04, 0, false)
  {
    hide KeyChar;
    assert !Any(0, MOD_CTRL) && !Any(0, MOD_GUI);
    LettersMapped(0x04, false, false);
    LettersMapped(0x04, true, false);
  }

  lemma ReportKeys()
    ensures Accepted(A_DOWN) && Keys(A_DOWN) == [0x04, 0, 0, 0, 0, 0] && A_DOWN.data[0] == 0
    ensures Accepted(TOO_MANY) && Keys(TOO_MANY) == [1, 1, 1, 1, 1, 1]
    ensures Rollover([1, 1, 1, 1, 1, 1]) && !Rollover([0x04, 0, 0, 0, 0, 0])
  {
    assert [0x04 as byte, 0, 0, 0, 0, 0][0] != 1;
  }

  lemma AOnce()
    ensures Occurs([0x04, 0, 0, 0, 0, 0], 6, 0x04) == 1 && Occurs([1, 1, 1, 1, 1, 1], 6, 0x04) == 0
  {
    var k := [0x04, 0, 0, 0, 0, 0];
    assert Occurs(k, 1, 0x04) == 1 && Occurs(k, 3, 0x04) == 1 && Occurs(k, 5, 0x04) == 1;
    OccursNever([1, 1, 1, 1, 1, 1], 6, 0x04);
  }

  /** The key A goes down, a rollover report comes, and A is still down: it was pressed once and is queued
      twice. */
  lemma HeldKeyQueuedTwice()
    ensures var es := [A_DOWN, TOO_MANY, A_DOWN];
            Presses(es, 0x04) == 1 && Attempts(After(START, es).pushes, 0x04) == 2
  {
    hide Mapped, Occurs, Keys, After, Rollover, Attempts;
    var es := [A_DOWN, TOO_MANY, A_DOWN];
    AMapped();
    ReportKeys();
    AOnce();
    var e1, e2 := [A_DOWN], [A_DOWN, TOO_MANY];
    assert LastKeys([]) == LastKnown([]) == START.prev && 0x04 !in START.prev;
    assert e1[..0] == [] && e2[..1] == e1 && es[..2] == e2;
    assert Edges([], 0x04) == 0 && Presses([], 0x04) == 0 && LastLang([]) == false;
    assert Edges(e1, 0x04) == 1 && Presses(e1, 0x04) == 1 && !LastLang(e1);
    assert LastKnown(e1) == Keys(A_DOWN) && LastKeys(e1) == Keys(A_DOWN);
    assert Edges(e2, 0x04) == 1 && Presses(e2, 0x04) == 1 && !LastLang(e2);
    assert LastKnown(e2) == Keys(A_DOWN) && LastKeys(e2) == Keys(TOO_MANY);
    OnePushPerPress(es, 0x04);
  }

  predicate DistinctKeys(keys: seq<byte>) {
    forall i, j :: 0 <= i < j < |keys| && keys[i] > 1 ==> keys[i] != keys[j]
  }

  lemma {:induction false} OccursNever(keys: seq<byte>, n: nat, k: byte)
    requires n <= |keys|
    ensures Occurs(keys, n, k) == 0 <==> k !in keys[..n]
  {
    if n > 0 {
      OccursNever(keys, n - 1, k);
      assert keys[..n] == keys[..n - 1] + [keys[n - 1]];
    }
  }

  lemma {:induction false} OccursOnce(keys: seq<byte>, n: nat, k: byte)
    requires n <= |keys| && k > 1 && DistinctKeys(keys)
    ensures Occurs(keys, n, k) <= 1
  {
    if n > 0 {
      OccursOnce(keys, n - 1, k);
      OccursNever(keys, n - 1, k);
      assert keys[n - 1] == k ==> k !in keys[..n - 1];
    }
  }

  /** In a report with distinct keycodes a rise is a rising edge: down now and up in the report before. */
  lemma RiseIsEdge(es: seq<Event>, e: Event, k: byte)
    requires k > 1 && (Accepted(e) ==> DistinctKeys(Keys(e)))
    ensures Rises(es, e, k) == if Accepted(e) && k in Keys(e) && k !in LastKeys(es) then 1 else 0
  {
    hide LastKeys;
    if Accepted(e) {
      OccursOnce(Keys(e), 6, k);
      OccursNever(Keys(e), 6, k);
      assert Keys(e)[..6] == Keys(e);
    }
  }

  /** While a key is set to repeat it is down in the last report accepted. */
  lemma {:induction false} HeldIsDown(es: seq<Event>)
    ensures var s := After(START, es);
            s.heldActive ==> s.heldKey in LastKeys(es)
  {
    hide Slots, Combos;
    if es != [] {
      HeldIsDown(es[..|es| - 1]);
      AfterRemembers(es[..|es| - 1]);
    }
  }

  /** Caps Lock is on exactly when its key went down an odd number of times on this connection. */
  lemma {:induction false} CapsIsParity(es: seq<Event>)
    ensures After(START, es).caps <==> CapsPresses(es) % 2 == 1
  {
    hide Slots, Combos, Occurs;
    if es != [] {
      var before, e := es[..|es| - 1], es[|es| - 1];
      CapsIsParity(before);
      AfterRemembers(before);
      if Accepted(e) { SlotsCaps(After(START, before), e.data[0], Keys(e), 6); }
    }
  }

  // ---- The program ------------------------------------------------------------------------------------

  class Keyboard {
    const prevKeys: array<byte>
    var prevModifier: byte
    var heldActive: bool
    var heldKeycode: byte
    var heldChar: byte
    var capsLock: bool
    var langRu: bool
    var pushes: seq<Attempt>

    ghost predicate Valid() { prevKeys.Length == 6 }

    ghost function View(): Kbd
      reads this, prevKeys
    {
      Kbd(prevKeys[..], prevModifier, heldActive, heldKeycode, heldChar, capsLock, langRu, pushes)
    }

    constructor ()
      ensures Valid() && View() == START && fresh(prevKeys)
    {
      prevKeys := new byte[6](_ => 0);
      prevModifier, heldKeycode, heldChar := 0, 0, 0;
      heldActive, capsLock, langRu, pushes := false, false, false, [];
    }

    method QueuePush(kc: byte, ch: byte)
      modifies this`pushes
      ensures pushes == old(pushes) + [Attempt(kc, ch)]
    {
      pushes := pushes + [Attempt(kc, ch)];
    }

    method Hold(kc: byte, ch: byte)
      modifies this`heldActive, this`heldKeycode, this`heldChar
      ensures heldActive && heldKeycode == kc && heldChar == ch
    {
      heldActive, heldKeycode, heldChar := true, kc, ch;
    }

    /** The if-chain for one fresh keycode. */
    method PressKey(kc: byte, m: byte)
      modifies this`heldActive, this`heldKeycode, this`heldChar, this`capsLock, this`pushes
      ensures View() == Press(old(View()), kc, KeyAction(kc, m, old(capsLock), langRu))
    {
      hide Any, KeyChar;
      if kc == 0x29 { QueuePush(kc, 0x1B); }
      else if kc == 0x2A { QueuePush(kc, 0x08); Hold(kc, 0x08); }
      else if kc == 0x52 { QueuePush(kc, 0x12); Hold(kc, 0x12); }
      else if kc == 0x51 { QueuePush(kc, 0x11); Hold(kc, 0x11); }
      else if kc == 0x50 { QueuePush(kc, 0x16); Hold(kc, 0x16); }
      else if kc == 0x4F { QueuePush(kc, 0x17); Hold(kc, 0x17); }
      else if kc == 0x4A { QueuePush(kc, 0x18); }
      else if kc == 0x4D { QueuePush(kc, 0x19); }
      else if kc == 0x4B { QueuePush(kc, 0x1A); }
      else if kc == 0x4E { QueuePush(kc, 0x1C); }
      else if kc == 0x2B && Any(m, MOD_ALT) { QueuePush(kc, 0x13); }
      else if kc == 0x2B { QueuePush(kc, 0x09); }
      else if kc == CAPS_LOCK { capsLock := !capsLock; }
      else if (kc == 0x04 && Any(m, MOD_CTRL)) || kc == 0x3B { QueuePush(kc, 0x01); }
      else if kc < KEYMAP_LEN && !Any(m, MOD_GUI) {
        var shift := Any(m, MOD_SHIFT);
        var effectiveShift := if Letter(kc) then shift != capsLock else shift;
        var ch := KeyChar(kc, effectiveShift, langRu);
        if ch != 0 { QueuePush(kc, ch); Hold(kc, ch); }
      }
    }

    /** The scans for a keycode among six slots. */
    static method Scan(keys: seq<byte>, kc: byte) returns (found: bool)
      ensures found <==> kc in keys
    {
      found := false;
      for j := 0 to |keys|
        invariant kc !in keys[..j]
      {
        if keys[j] == kc { return true; }
        assert keys[..j + 1] == keys[..j] + [keys[j]];
      }
      assert keys[..|keys|] == keys;
    }

    /** The loop over the six slots. */
    method TranslateSlots(m: byte, keys: seq<byte>)
      requires Valid() && |keys| == 6
      modifies this`heldActive, this`heldKeycode, this`heldChar, this`capsLock, this`pushes
      ensures View() == Slots(old(View()), m, keys, 6)
    {
      hide Press, KeyAction;
      ghost var s := View();
      for i := 0 to 6
        invariant View() == Slots(s, m, keys, i)
      {
        var kc := keys[i];
        if kc != 0x00 && kc != 0x01 {
          var wasPressed := Scan(prevKeys[..], kc);
          if !wasPressed { PressKey(kc, m); }
        }
      }
    }

    /** The modifier combinations at the end of the translation. */
    method TranslateCombos(m: byte, keys: seq<byte>)
      requires |keys| == 6
      modifies this`pushes, this`prevModifier
      ensures pushes == old(pushes) + Combos(old(prevModifier), m, keys) && prevModifier == m
    {
      hide Any;
      var guiPressed, guiWasPressed := Any(m, MOD_GUI), Any(prevModifier, MOD_GUI);
      var anyKeyDown := keys[0] != 0 || keys[1] != 0 || keys[2] != 0 || keys[3] != 0 || keys[4] != 0 || keys[5] != 0;
      if guiPressed && !guiWasPressed && !anyKeyDown { QueuePush(0, 0x14); }
      var combo, comboWas := LangCombo(m), LangCombo(prevModifier);
      if combo && !comboWas { QueuePush(0, 0x15); }
      prevModifier := m;
    }

    /** blekbd_translate_report. */
    method TranslateReport(data: seq<byte>)
      requires Valid()
      modifies this, prevKeys
      ensures Valid() && View() == Next(old(View()), Input(data))
    {
      hide Slots, Combos;
      if |data| < 8 { return; }
      var keys := data[2..8];
      TranslateSlots(data[0], keys);
      if heldActive {
        var stillDown := Scan(keys, heldKeycode);
        if !stillDown { heldActive := false; }
      }
      forall i | 0 <= i < 6 { prevKeys[i] := keys[i]; }
      assert prevKeys[..] == keys;
      TranslateCombos(data[0], keys);
    }

    /** A connection opened; the keys of the last report are kept. */
    method Opened()
      requires Valid()
      modifies this`capsLock
      ensures View() == Next(old(View()), Open)
    {
      capsLock := false;
    }

    method Closed()
      requires Valid()
      modifies this`capsLock, this`heldActive
      ensures View() == Next(old(View()), Close)
    {
      heldActive, capsLock := false, false;
    }
  }
}
