/** What each key of a boot keyboard types, written out key by key, against the firmware's tables. */
module HidTyping {
  import opened Common
  import opened HidReport

  // ---- Modifier keys, by their bit numbers ------------------------------------------------------------

  predicate Down(m: byte, n: bv3) { ((m as bv8) >> n) & 1 == 1 }

  predicate Ctrl(m: byte) { Down(m, 0) || Down(m, 4) }
  predicate Shift(m: byte) { Down(m, 1) || Down(m, 5) }
  predicate Alt(m: byte) { Down(m, 2) || Down(m, 6) }
  predicate Gui(m: byte) { Down(m, 3) || Down(m, 7) }

  lemma ModifierBits(v: bv8)
    ensures v & 0x11 != 0 <==> (v >> 0) & 1 == 1 || (v >> 4) & 1 == 1
    ensures v & 0x22 != 0 <==> (v >> 1) & 1 == 1 || (v >> 5) & 1 == 1
    ensures v & 0x44 != 0 <==> (v >> 2) & 1 == 1 || (v >> 6) & 1 == 1
    ensures v & 0x88 != 0 <==> (v >> 3) & 1 == 1 || (v >> 7) & 1 == 1
  {}

  lemma Modifiers(m: byte)
    ensures (Any(m, MOD_CTRL) <==> Ctrl(m)) && (Any(m, MOD_SHIFT) <==> Shift(m))
    ensures (Any(m, MOD_ALT) <==> Alt(m)) && (Any(m, MOD_GUI) <==> Gui(m))
  {
    ModifierBits(m as bv8);
  }

  // ---- Characters ---------------------------------------------------------------------------------------

  const DIGITS := "1234567890"
  const DIGITS_SHIFT := "!@#$%^&*()"
  const DIGITS_SHIFT_RU := "!\"#;%:?*()"
  const SIGNS := "-=[]\\?;'`,./"
  const SIGNS_SHIFT := "_+{}|?:\"~<>?"

  /** Places in the Russian alphabet (32 letters, without the one written with two dots) of the letters
      on the keys A to M and N to Z. */
  const RU_A_TO_M: seq<byte> := [20, 8, 17, 2, 19, 0, 15, 16, 24, 14, 11, 4, 28]
  const RU_N_TO_Z: seq<byte> := [18, 25, 7, 9, 10, 27, 5, 3, 12, 22, 23, 13, 31]

  function Code(c: char): byte { if c as int < 128 then c as int else 0 }

  /** The letters are stored from 0x81 in capitals and from 0xA2 in small letters. */
  function Cyrillic(place: byte, capital: bool): byte
    requires place < 32
  {
    if capital then 0x81 + place else 0xA2 + place
  }

  function LetterChar(kc: byte, capital: bool, ru: bool): byte
    requires Letter(kc)
  {
    if !ru then (if capital then 0x41 else 0x61) + (kc - 4)
    else Cyrillic(if kc < 17 then RU_A_TO_M[kc - 4] else RU_N_TO_Z[kc - 17], capital)
  }

  function DigitChar(kc: byte, shift: bool, ru: bool): byte
    requires 0x1E <= kc <= 0x27
  {
    Code(if !shift then DIGITS[kc - 0x1E] else if ru then DIGITS_SHIFT_RU[kc - 0x1E] else DIGITS_SHIFT[kc - 0x1E])
  }

  /** The keys from - to /; the one after the backslash types nothing. */
  function SignChar(kc: byte, shift: bool, ru: bool): byte
    requires 0x2D <= kc <= 0x38 && kc != 0x32
  {
    if !ru then Code(if shift then SIGNS_SHIFT[kc - 0x2D] else SIGNS[kc - 0x2D])
    else match kc
      case 0x2F => Cyrillic(21, shift)
      case 0x30 => Cyrillic(26, shift)
      case 0x33 => Cyrillic(6, shift)
      case 0x34 => Cyrillic(29, shift)
      case 0x35 => 0x80
      case 0x36 => Cyrillic(1, shift)
      case 0x37 => Cyrillic(30, shift)
      case 0x38 => if shift then Code(',') else Code('.')
      case _ => Code(SIGNS[kc - 0x2D])
  }

  /** What a key types, if anything: letters by Shift and Caps Lock, other signs by Shift alone. */
  function Typed(kc: byte, m: byte, caps: bool, ru: bool): Option<byte> {
    if kc == 0x29 then Some(0x1B)            // Escape
    else if kc == 0x2A then Some(0x08)       // Backspace
    else if kc == 0x2B then Some(if Alt(m) then 0x13 else 0x09)  // Tab
    else if kc == 0x52 then Some(0x12)       // up
    else if kc == 0x51 then Some(0x11)       // down
    else if kc == 0x50 then Some(0x16)       // left
    else if kc == 0x4F then Some(0x17)       // right
    else if kc == 0x4A then Some(0x18)       // Home
    else if kc == 0x4D then Some(0x19)       // End
    else if kc == 0x4B then Some(0x1A)       // Page Up
    else if kc == 0x4E then Some(0x1C)       // Page Down
    else if kc == 0x3B then Some(0x01)       // F2
    else if kc == 0x04 && Ctrl(m) then Some(0x01)
    else if Gui(m) then None
    else if Letter(kc) then Some(LetterChar(kc, Shift(m) != caps, ru))
    else if 0x1E <= kc <= 0x27 then Some(DigitChar(kc, Shift(m), ru))
    else if kc == 0x28 then Some(0x0A)       // Enter
    else if kc == 0x2C then Some(0x20)       // space
    else if 0x2D <= kc <= 0x38 && kc != 0x32 then Some(SignChar(kc, Shift(m), ru))
    else None
  }

  /** The keys that repeat while held: Backspace, the arrows and every key that types a character. */
  predicate Repeats(kc: byte, m: byte) {
    kc in {0x2A, 0x4F, 0x50, 0x51, 0x52} || (0x04 <= kc <= 0x38 && kc !in {0x29, 0x2B} && !(kc == 0x04 && Ctrl(m)))
  }

  // ---- The tables ---------------------------------------------------------------------------------------

  lemma LetterTables(kc: byte, capital: bool, ru: bool)
    requires Letter(kc)
    ensures KeyChar(kc, capital, ru) == LetterChar(kc, capital, ru)
  {
    hide Russian, RussianShift, English, EnglishShift;
    EnglishLetter(kc);
    EnglishCapital(kc);
    RussianLetter(kc);
    RussianCapital(kc);
  }

  lemma EnglishLetter(kc: byte)
    requires Letter(kc)
    ensures English()[kc] == LetterChar(kc, false, false)
  {
    var t, i := English(), kc - 4;
    assert t[kc] == if i < 13 then t[4..17][i] else t[17..30][i - 13];
  }

  lemma EnglishCapital(kc: byte)
    requires Letter(kc)
    ensures EnglishShift()[kc] == LetterChar(kc, true, false)
  {
    var t, i := EnglishShift(), kc - 4;
    assert t[kc] == if i < 13 then t[4..17][i] else t[17..30][i - 13];
  }

  lemma RussianLetter(kc: byte)
    requires Letter(kc)
    ensures Russian()[kc] == LetterChar(kc, false, true)
  {
    var t, i := Russian(), kc - 4;
    assert t[kc] == if i < 13 then t[4..17][i] else t[17..30][i - 13];
  }

  lemma RussianCapital(kc: byte)
    requires Letter(kc)
    ensures RussianShift()[kc] == LetterChar(kc, true, true)
  {
    var t, i := RussianShift(), kc - 4;
    assert t[kc] == if i < 13 then t[4..17][i] else t[17..30][i - 13];
  }

  lemma EnglishDigit(kc: byte)
    requires 0x1E <= kc <= 0x27
    ensures English()[kc] == DigitChar(kc, false, false)
  {
    assert English()[kc] == English()[30..40][kc - 30];
  }

  lemma EnglishSign(kc: byte)
    requires 0x2D <= kc <= 0x38 && kc != 0x32
    ensures English()[kc] == SignChar(kc, false, false)
  {
    assert English()[kc] == English()[45..57][kc - 45];
  }

  lemma EnglishOthers(kc: byte)
    requires kc < KEYMAP_LEN
    ensures kc < 4 || kc == 0x32 ==> English()[kc] == 0
    ensures kc == 0x28 ==> English()[kc] == 0x0A
    ensures kc == 0x2C ==> English()[kc] == 0x20
  {}

  lemma EnglishShiftDigit(kc: byte)
    requires 0x1E <= kc <= 0x27
    ensures EnglishShift()[kc] == DigitChar(kc, true, false)
  {
    assert EnglishShift()[kc] == EnglishShift()[30..40][kc - 30];
  }

  lemma EnglishShiftSign(kc: byte)
    requires 0x2D <= kc <= 0x38 && kc != 0x32
    ensures EnglishShift()[kc] == SignChar(kc, true, false)
  {
    assert EnglishShift()[kc] == EnglishShift()[45..57][kc - 45];
  }

  lemma EnglishShiftOthers(kc: byte)
    requires kc < KEYMAP_LEN
    ensures kc < 4 || kc == 0x32 ==> EnglishShift()[kc] == 0
    ensures kc == 0x28 ==> EnglishShift()[kc] == 0x0A
    ensures kc == 0x2C ==> EnglishShift()[kc] == 0x20
  {}

  lemma RussianDigit(kc: byte)
    requires 0x1E <= kc <= 0x27
    ensures Russian()[kc] == DigitChar(kc, false, true)
  {
    assert Russian()[kc] == Russian()[30..40][kc - 30];
  }

  lemma RussianSign(kc: byte)
    requires 0x2D <= kc <= 0x38 && kc != 0x32
    ensures Russian()[kc] == SignChar(kc, false, true)
  {
    assert Russian()[kc] == Russian()[45..57][kc - 45];
  }

  lemma RussianOthers(kc: byte)
    requires kc < KEYMAP_LEN
    ensures kc < 4 || kc == 0x32 ==> Russian()[kc] == 0
    ensures kc == 0x28 ==> Russian()[kc] == 0x0A
    ensures kc == 0x2C ==> Russian()[kc] == 0x20
  {}

  lemma RussianShiftDigit(kc: byte)
    requires 0x1E <= kc <= 0x27
    ensures RussianShift()[kc] == DigitChar(kc, true, true)
  {
    assert RussianShift()[kc] == RussianShift()[30..40][kc - 30];
  }

  lemma RussianShiftSign(kc: byte)
    requires 0x2D <= kc <= 0x38 && kc != 0x32
    ensures RussianShift()[kc] == SignChar(kc, true, true)
  {
    assert RussianShift()[kc] == RussianShift()[45..57][kc - 45];
  }

  lemma RussianShiftOthers(kc: byte)
    requires kc < KEYMAP_LEN
    ensures kc < 4 || kc == 0x32 ==> RussianShift()[kc] == 0
    ensures kc == 0x28 ==> RussianShift()[kc] == 0x0A
    ensures kc == 0x2C ==> RussianShift()[kc] == 0x20
  {}

  lemma CharacterKey(kc: byte, shift: bool, ru: bool)
    requires kc < KEYMAP_LEN && kc !in {0x29, 0x2A, 0x2B}
    ensures KeyChar(kc, shift, ru) ==
            if Letter(kc) then LetterChar(kc, shift, ru)
            else if 0x1E <= kc <= 0x27 then DigitChar(kc, shift, ru)
            else if kc == 0x28 then 0x0A
            else if kc == 0x2C then 0x20
            else if 0x2D <= kc && kc != 0x32 then SignChar(kc, shift, ru)
            else 0
  {
    hide English, EnglishShift, Russian, RussianShift, LetterChar, DigitChar, SignChar;
    if Letter(kc) { LetterTables(kc, shift, ru); }
    if 0x1E <= kc <= 0x27 { EnglishDigit(kc); EnglishShiftDigit(kc); RussianDigit(kc); RussianShiftDigit(kc); }
    if 0x2D <= kc && kc != 0x32 { EnglishSign(kc); EnglishShiftSign(kc); RussianSign(kc); RussianShiftSign(kc); }
    EnglishOthers(kc);
    EnglishShiftOthers(kc);
    RussianOthers(kc);
    RussianShiftOthers(kc);
  }

  lemma DigitsSeen(kc: byte, shift: bool, ru: bool)
    requires 0x1E <= kc <= 0x27
    ensures DigitChar(kc, shift, ru) != 0
  {}

  lemma SignsSeen(kc: byte, shift: bool, ru: bool)
    requires 0x2D <= kc <= 0x38 && kc != 0x32
    ensures SignChar(kc, shift, ru) != 0
  {}

  // ---- What the firmware does with a key --------------------------------------------------------------

  /** A fresh key queues the character it types, if any, starts to repeat if it is one of those that do, and
      Caps Lock is the one key that toggles. */
  lemma KeyTypes(kc: byte, m: byte, caps: bool, ru: bool)
    ensures KeyAction(kc, m, caps, ru)
         == match Typed(kc, m, caps, ru)
            case Some(c) => Push(c, Repeats(kc, m))
            case None => if kc == 0x39 then Caps else Nothing
    ensures kc == 0x39 ==> Typed(kc, m, caps, ru).None?
  {
    hide KeyChar, LetterChar, DigitChar, SignChar, Any, Down;
    Modifiers(m);
    if kc < KEYMAP_LEN && kc !in {0x29, 0x2A, 0x2B} {
      var shift := if Letter(kc) then Shift(m) != caps else Shift(m);
      CharacterKey(kc, shift, ru);
      if Letter(kc) { LettersMapped(kc, shift, ru); }
      if 0x1E <= kc <= 0x27 { DigitsSeen(kc, shift, ru); }
      if 0x2D <= kc && kc != 0x32 { SignsSeen(kc, shift, ru); }
    }
  }

  /** What the first n slots of a report type: each key that was not down before, in slot order. */
  function TypedBy(s: Kbd, m: byte, keys: seq<byte>, n: nat): seq<Attempt>
    requires n <= |keys|
  {
    if n == 0 then []
    else
      var kc := keys[n - 1];
      TypedBy(s, m, keys, n - 1)
      + if kc == 0 || kc == 1 || kc in s.prev then []
        else match Typed(kc, m, CapsAt(s, keys, n - 1), s.ru)
          case Some(c) => [Attempt(kc, c)]
          case None => []
  }

  lemma {:induction false} SlotsType(s: Kbd, m: byte, keys: seq<byte>, n: nat)
    requires n <= |keys|
    ensures Slots(s, m, keys, n).pushes == s.pushes + TypedBy(s, m, keys, n)
  {
    hide KeyAction, Typed, Occurs, Repeats, CapsAt;
    if n > 0 {
      SlotsType(s, m, keys, n - 1);
      SlotsCaps(s, m, keys, n - 1);
      KeyTypes(keys[n - 1], m, Slots(s, m, keys, n - 1).caps, s.ru);
      CapsNow(s, m, keys, n - 1);
    }
  }

  lemma CapsNow(s: Kbd, m: byte, keys: seq<byte>, n: nat)
    requires n <= |keys|
    ensures Slots(s, m, keys, n).caps == CapsAt(s, keys, n)
  {
    hide KeyAction, Occurs, Slots;
    SlotsCaps(s, m, keys, n);
  }

  predicate Chord(m: byte) { Shift(m) && (Alt(m) || Ctrl(m)) }

  /** GUI pressed with no key in the report, then Alt+Shift or Ctrl+Shift. */
  function Chords(prevMod: byte, m: byte, noKeys: bool): seq<Attempt> {
    (if noKeys && Gui(m) && !Gui(prevMod) then [Attempt(0, 0x14)] else [])
    + (if Chord(m) && !Chord(prevMod) then [Attempt(0, 0x15)] else [])
  }

  lemma CombosAre(prevMod: byte, m: byte, keys: seq<byte>)
    ensures Combos(prevMod, m, keys) == Chords(prevMod, m, forall i :: 0 <= i < |keys| ==> keys[i] == 0)
  {
    hide Any, Down;
    Modifiers(prevMod);
    Modifiers(m);
  }

  /** All that a report queues: the keys of its slots in order, then the chords. */
  lemma ReportTypes(s: Kbd, data: seq<byte>)
    requires |data| >= 8
    ensures Next(s, Input(data)).pushes
         == s.pushes + TypedBy(s, data[0], data[2..8], 6)
            + Chords(s.prevMod, data[0], forall i :: 2 <= i < 8 ==> data[i] == 0)
  {
    hide Slots, TypedBy, Chords, Combos;
    var keys := data[2..8];
    SlotsType(s, data[0], keys, 6);
    CombosAre(s.prevMod, data[0], keys);
    assert (forall i :: 2 <= i < 8 ==> data[i] == 0) <==> forall i :: 0 <= i < |keys| ==> keys[i] == 0 by {
      assert forall i :: 2 <= i < 8 ==> data[i] == keys[i - 2];
    }
  }

  function OneKey(m: byte, kc: byte): Event { Input([m, 0, kc, 0, 0, 0, 0, 0]) }

  /** One key newly down, from any state: its character, if it types one, and the language chord. */
  lemma OneKeyTypes(s: Kbd, m: byte, kc: byte)
    requires kc > 1 && kc !in s.prev
    ensures Next(s, OneKey(m, kc)).pushes
         == s.pushes + (match Typed(kc, m, s.caps, s.ru) case Some(c) => [Attempt(kc, c)] case None => [])
            + (if Chord(m) && !Chord(s.prevMod) then [Attempt(0, 0x15)] else [])
    ensures Next(s, OneKey(m, kc)).caps == (if kc == 0x39 then !s.caps else s.caps)
    ensures Typed(kc, m, s.caps, s.ru).Some? && Repeats(kc, m) ==>
              var t := Next(s, OneKey(m, kc));
              t.heldActive && t.heldKey == kc && t.heldChar == Typed(kc, m, s.caps, s.ru).value
  {
    hide *;
    var keys := [kc, 0, 0, 0, 0, 0];
    OneSlot(s, m, keys, 6);
    OneKeyIs(s, m, kc);
    CombosAre(s.prevMod, m, keys);
    assert keys[0] != 0;
    var act := KeyAction(kc, m, s.caps, s.ru);
    KeyTypes(kc, m, s.caps, s.ru);
    Pressed(s, kc, act);
    NoGui(s.prevMod, m);
  }

  lemma OneKeyIs(s: Kbd, m: byte, kc: byte)
    ensures var keys, t := [kc, 0, 0, 0, 0, 0], Next(s, OneKey(m, kc));
            var u := Slots(s, m, keys, 6);
            t.pushes == u.pushes + Combos(s.prevMod, m, keys) && t.caps == u.caps
            && t.heldActive == (u.heldActive && u.heldKey in keys) && t.heldKey == u.heldKey && t.heldChar == u.heldChar
  {
    hide Slots, Combos;
    var data := [m, 0, kc, 0, 0, 0, 0, 0];
    assert data[2..8] == [kc, 0, 0, 0, 0, 0];
  }

  lemma Pressed(s: Kbd, kc: byte, act: Action)
    ensures var t := Press(s, kc, act);
            t.pushes == s.pushes + (if act.Push? then [Attempt(kc, act.ch)] else [])
            && t.caps == (if act.Caps? then !s.caps else s.caps)
            && (act.Push? && act.repeats ==> t.heldActive && t.heldKey == kc && t.heldChar == act.ch)
  {}

  lemma NoGui(prevMod: byte, m: byte)
    ensures Chords(prevMod, m, false) == if Chord(m) && !Chord(prevMod) then [Attempt(0, 0x15)] else []
  {
    hide Chord, Gui;
  }

  lemma {:induction false} OneSlot(s: Kbd, m: byte, keys: seq<byte>, n: nat)
    requires 0 < n <= |keys| && keys[0] > 1 && keys[0] !in s.prev && forall i :: 0 < i < |keys| ==> keys[i] == 0
    ensures Slots(s, m, keys, n) == Press(s, keys[0], KeyAction(keys[0], m, s.caps, s.ru))
  {
    hide KeyAction, Press;
    if n > 1 {
      OneSlot(s, m, keys, n - 1);
    } else {
      assert Slots(s, m, keys, 0) == s;
    }
  }

  /** An English letter is small when Shift and Caps Lock agree and a capital when they differ. */
  lemma LetterCase(s: Kbd, m: byte, kc: byte)
    requires 0x04 <= kc <= 0x1D && kc !in s.prev && !s.ru && !Gui(m) && !(kc == 0x04 && Ctrl(m))
    ensures var p := Next(s, OneKey(m, kc)).pushes;
            |p| > |s.pushes|
            && p[|s.pushes|] == Attempt(kc, if Shift(m) == s.caps then 0x61 + (kc - 4) else 0x41 + (kc - 4))
  {
    hide Next, Chord, Gui, Ctrl, Shift, Alt, Repeats;
    OneKeyTypes(s, m, kc);
  }

  /** Caps Lock changes no key but the letters. */
  lemma CapsOnlyLetters(s: Kbd, m: byte, kc: byte)
    requires kc > 1 && kc !in s.prev && !(0x04 <= kc <= 0x1D)
    ensures Next(s.(caps := !s.caps), OneKey(m, kc)).pushes == Next(s, OneKey(m, kc)).pushes
  {
    hide Next, Chord, Gui, Ctrl, Shift, Alt, Repeats, DigitChar, SignChar;
    OneKeyTypes(s, m, kc);
    OneKeyTypes(s.(caps := !s.caps), m, kc);
  }

  /** Modifiers that go down with no key in the report: GUI alone, then Alt+Shift or Ctrl+Shift. */
  lemma ModifiersAlone(s: Kbd, m: byte)
    ensures Next(s, OneKey(m, 0)).pushes
         == s.pushes + (if Gui(m) && !Gui(s.prevMod) then [Attempt(0, 0x14)] else [])
            + (if Chord(m) && !Chord(s.prevMod) then [Attempt(0, 0x15)] else [])
  {
    hide Next, Chord, Gui, Typed;
    var data := [m, 0, 0, 0, 0, 0, 0, 0];
    ReportTypes(s, data);
    var keys := data[2..8];
    assert TypedBy(s, m, keys, 6) == [] by { NoKeysType(s, m, keys, 6); }
  }

  lemma {:induction false} NoKeysType(s: Kbd, m: byte, keys: seq<byte>, n: nat)
    requires n <= |keys| && forall i :: 0 <= i < |keys| ==> keys[i] == 0
    ensures TypedBy(s, m, keys, n) == []
  {
    hide Typed;
    if n > 0 { NoKeysType(s, m, keys, n - 1); }
  }

  /** A held key goes on repeating the same character through every report in which it is still down and
      nothing new goes down, and stops with the first report without it. */
  lemma HeldStays(s: Kbd, data: seq<byte>)
    requires |data| >= 8 && s.heldActive
    requires forall i :: 2 <= i < 8 ==> data[i] <= 1 || data[i] in s.prev
    ensures var t := Next(s, Input(data));
            && (t.heldActive <==> exists i :: 2 <= i < 8 && data[i] == s.heldKey)
            && t.heldKey == s.heldKey && t.heldChar == s.heldChar
            && t.prev == data[2..8] && t.prevMod == data[0]
  {
    hide Slots, Combos;
    var keys := data[2..8];
    assert forall i :: 0 <= i < 6 ==> keys[i] == data[i + 2];
    NothingNew(s, data[0], keys, 6);
    if s.heldKey in keys {
      var j :| 0 <= j < 6 && keys[j] == s.heldKey;
      assert data[j + 2] == s.heldKey;
    }
    if i :| 2 <= i < 8 && data[i] == s.heldKey { assert keys[i - 2] == s.heldKey; }
  }

  lemma {:induction false} NothingNew(s: Kbd, m: byte, keys: seq<byte>, n: nat)
    requires n <= |keys| && forall i :: 0 <= i < n ==> keys[i] <= 1 || keys[i] in s.prev
    ensures Slots(s, m, keys, n) == s
  {
    hide KeyAction, Press;
    if n > 0 { NothingNew(s, m, keys, n - 1); }
  }
}
