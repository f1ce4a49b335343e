/** The region cache of the colour displays, as values: what a cached push must leave on the panel. */
module RegionCache {
  import opened Common

  type Colour = c: int | 0 <= c < 0x1_0000

  const SLOTS := 4     // REGION_CACHE_SLOTS
  const CDIRTY := 4    // CDIRTY_SLOTS

  type Point = (int, int)

  datatype Rect = Rect(x: int, y: int, w: int, h: int)

  predicate In(p: Point, r: Rect) { r.x <= p.0 < r.x + r.w && r.y <= p.1 < r.y + r.h }

  /** The overlap test of the source's invalidation loop. */
  predicate Overlap(a: Rect, b: Rect) {
    a.x < b.x + b.w && b.x < a.x + a.w && a.y < b.y + b.h && b.y < a.y + a.h
  }

  function Max(a: int, b: int): int { if a > b then a else b }
  function Min(a: int, b: int): int { if a < b then a else b }

  /** The part of a that lies in r. */
  function Clip(a: Rect, r: Rect): Rect {
    var x0, y0 := Max(a.x, r.x), Max(a.y, r.y);
    Rect(x0, y0, Min(a.x + a.w, r.x + r.w) - x0, Min(a.y + a.h, r.y + r.h) - y0)
  }

  predicate Empty(r: Rect) { r.w <= 0 || r.h <= 0 }

  // ---- Bit-packed pictures ------------------------------------------------------------------

  function Mask(b: nat): octet
    requires b < 8
  {
    if b == 0 then 0x80 else if b == 1 then 0x40 else if b == 2 then 0x20 else if b == 3 then 0x10
    else if b == 4 then 0x08 else if b == 5 then 0x04 else if b == 6 then 0x02 else 0x01
  }

  function ByteWidth(w: int): int { (w + 7) / 8 }

  predicate Lit(v: octet, b: nat)
    requires b < 8
  {
    v & Mask(b) != 0
  }

  /** Bit (row, col) of a picture whose rows take bw bytes. */
  predicate Bit(bits: seq<octet>, bw: int, row: int, col: int) {
    var i := row * bw + col / 8;
    0 <= i < |bits| && Lit(bits[i], col % 8)
  }

  /** Bit b of a byte, counted from the left: shift it to the top and look at the top bit. */
  predicate FromLeft(v: octet, b: nat)
    requires b < 8
    decreases b
  {
    if b == 0 then v >= 0x80 else FromLeft(v << 1, b - 1)
  }

  lemma LitTop(v: octet)
    ensures Lit(v, 0) <==> v >= 0x80
  {}

  lemma LitNext(v: octet, b: nat)
    requires b < 7
    ensures Lit(v, b + 1) <==> Lit(v << 1, b)
  {}

  /** The leftmost of eight pixels is the most significant bit. */
  lemma {:induction false} LitFromLeft(v: octet, b: nat)
    requires b < 8
    ensures Lit(v, b) <==> FromLeft(v, b)
    decreases b
  {
    hide Lit;
    if b == 0 { LitTop(v); } else {
      LitNext(v, b - 1);
      LitFromLeft(v << 1, b - 1);
    }
  }

  /** What a rendering of a bitmap, whose rows take stride bytes, shows at column col of its row row. */
  function Rendered(bits: seq<octet>, stride: int, fg: Colour, bg: Colour, row: int, col: int): Colour
    requires 0 <= row * stride + col / 8 < |bits| && 0 <= col
  {
    if FromLeft(bits[row * stride + col / 8], col % 8) then fg else bg
  }

  lemma ShowsRendered(c: Picture, stride: int, tint: Tint, row: int, col: int)
    requires 0 <= row * stride + col / 8 < |c.bits| && 0 <= col
    ensures var p := (c.rect.x + col, c.rect.y + row);
            ShowsAt(c, stride, tint, p) == Rendered(c.bits, stride, tint(p, c.fg), c.bg, row, col)
  {
    hide Lit;
    LitFromLeft(c.bits[row * stride + col / 8], col % 8);
  }

  /** A mono bitmap placed on the panel. A cache slot is one too: its bits are the back buffer,
      and x == -1 marks it as not in use. */
  datatype Picture = Picture(rect: Rect, fg: Colour, bg: Colour, bits: seq<octet>)

  predicate InUse(c: Picture) { c.rect.x >= 0 }

  predicate SameKey(a: Picture, b: Picture) { a.rect == b.rect && a.fg == b.fg && a.bg == b.bg }

  predicate PixelLit(c: Picture, p: Point) { Bit(c.bits, ByteWidth(c.rect.w), p.1 - c.rect.y, p.0 - c.rect.x) }

  /** The colourizer: what a lit pixel of foreground fg gets at a panel position. */
  type Tint = (Point, Colour) -> Colour

  /** The colour a full push of c would give pixel p. */
  function Shows(c: Picture, tint: Tint, p: Point): Colour {
    if PixelLit(c, p) then tint(p, c.fg) else c.bg
  }

  /** The same when the rows of the source take stride bytes each. */
  function ShowsAt(c: Picture, stride: int, tint: Tint, p: Point): Colour {
    if Bit(c.bits, stride, p.1 - c.rect.y, p.0 - c.rect.x) then tint(p, c.fg) else c.bg
  }

  // ---- State ---------------------------------------------------------------------------------------

  datatype State = State(slots: seq<Picture>, next: nat, dirty: seq<Rect>, panel: map<Point, Colour>)

  predicate Shaped(s: State) { |s.slots| == SLOTS && s.next < SLOTS && |s.dirty| <= CDIRTY }

  /** Pixel p is what a full push of c would show. */
  predicate Right(s: State, c: Picture, tint: Tint, p: Point) { p in s.panel && s.panel[p] == Shows(c, tint, p) }

  predicate Covered(dirty: seq<Rect>, p: Point) { exists k :: 0 <= k < |dirty| && In(p, dirty[k]) }

  predicate Disjoint(slots: seq<Picture>) {
    forall i, j :: 0 <= i < j < |slots| && InUse(slots[i]) && InUse(slots[j]) ==> !Overlap(slots[i].rect, slots[j].rect)
  }

  /** Every pixel of a slot in use shows what the slot says, or is queued as colour-dirty. */
  ghost predicate Consistent(s: State, tint: Tint) {
    && Shaped(s)
    && Disjoint(s.slots)
    && forall k, p: Point :: 0 <= k < SLOTS && InUse(s.slots[k]) && In(p, s.slots[k].rect)
         ==> Right(s, s.slots[k], tint, p) || Covered(s.dirty, p)
  }

  // ---- What one cached push does ----------------------------------------------------------------------

  /** The slot with the caller's rectangle and colours, or |slots|. */
  function Find(slots: seq<Picture>, c: Picture): (k: nat)
    ensures k <= |slots|
    ensures k < |slots| ==> SameKey(slots[k], c)
    ensures forall j :: 0 <= j < k ==> !SameKey(slots[j], c)
    decreases |slots|
  {
    if slots == [] then 0 else if SameKey(slots[0], c) then 0 else 1 + Find(slots[1..], c)
  }

  lemma FindUnique(slots: seq<Picture>, c: Picture, k: nat)
    requires k <= |slots| && (k < |slots| ==> SameKey(slots[k], c))
    requires forall j :: 0 <= j < k ==> !SameKey(slots[j], c)
    ensures Find(slots, c) == k
  {}

  predicate Hit(s: State, c: Picture) { Find(s.slots, c) < |s.slots| }

  function Invalidated(slot: Picture, r: Rect): Picture {
    if InUse(slot) && Overlap(r, slot.rect) then slot.(rect := slot.rect.(x := -1)) else slot
  }

  /** memcpy of the bitmap over the start of the back buffer. */
  function Refill(back: seq<octet>, bits: seq<octet>): seq<octet> {
    bits + (if |bits| <= |back| then back[|bits|..] else [])
  }

  function SlotsAfter(s: State, c: Picture): (slots: seq<Picture>)
    requires Shaped(s)
    ensures |slots| == SLOTS
  {
    var k := Find(s.slots, c);
    if k < SLOTS then s.slots[k := s.slots[k].(bits := Refill(s.slots[k].bits, c.bits))]
    else
      var cleared := seq(SLOTS, i requires 0 <= i < SLOTS => Invalidated(s.slots[i], c.rect));
      cleared[s.next := c.(bits := Refill(s.slots[s.next].bits, c.bits))]
  }

  predicate Touches(a: Rect, r: Rect) { !Empty(Clip(a, r)) }

  /** Pixel p of the region must be sent: no cache entry, a changed bit, or a queued colour change. */
  predicate Needed(s: State, c: Picture, p: Point) {
    var k := Find(s.slots, c);
    || k == |s.slots|
    || PixelLit(s.slots[k], p) != PixelLit(c, p)
    || exists i :: 0 <= i < |s.dirty| && Touches(s.dirty[i], c.rect) && In(p, s.dirty[i])
  }

  /** The rectangles still queued are those that do not meet the pushed region. */
  ghost predicate DirtyAfter(dirty: seq<Rect>, r: Rect, dirty': seq<Rect>) {
    && |dirty'| <= |dirty|
    && forall a: Rect :: a in dirty' <==> a in dirty && !Touches(a, r)
  }

  /** The panel after a window was written with the pixels of c. */
  ghost predicate Pushed(panel: map<Point, Colour>, c: Picture, stride: int, tint: Tint,
        win: Rect, panel': map<Point, Colour>) {
    forall p: Point ::
      && (In(p, win) ==> p in panel' && panel'[p] == ShowsAt(c, stride, tint, p))
      && (!In(p, win) ==> (p in panel' <==> p in panel) && (p in panel ==> panel'[p] == panel[p]))
  }

  /** One cached push of c through the window win. */
  ghost predicate DrawStep(s: State, c: Picture, tint: Tint, win: Rect, s': State)
    requires Shaped(s)
  {
    && Shaped(s')
    && s'.slots == SlotsAfter(s, c)
    && s'.next == (if Hit(s, c) then s.next else (s.next + 1) % SLOTS)
    && DirtyAfter(s.dirty, c.rect, s'.dirty)
    && (forall p: Point :: In(p, win) ==> In(p, c.rect))
    && (forall p: Point :: In(p, c.rect) && Needed(s, c, p) ==> In(p, win))
    && Pushed(s.panel, c, ByteWidth(c.rect.w), tint, win, s'.panel)
  }

  /** A bitmap the cache takes: on the panel, with exactly the bytes its rows need. */
  predicate Drawable(c: Picture) {
    c.rect.x >= 0 && c.rect.y >= 0 && c.rect.w >= 0 && c.rect.h >= 0 && |c.bits| == ByteWidth(c.rect.w) * c.rect.h
  }

  // ---- Consequences ---------------------------------------------------------------------------------------

  lemma SharedPixel(p: Point, a: Rect, b: Rect)
    requires In(p, a) && In(p, b)
    ensures Overlap(a, b) && Overlap(b, a)
    ensures Touches(a, b) && Touches(b, a)
  {}

  lemma ByteIndex(row: int, q: int, bw: int, h: int)
    requires 0 <= row < h && 0 <= q < bw
    ensures 0 <= row * bw + q < bw * h
  {
    assert row * bw + q < row * bw + bw == (row + 1) * bw;
    assert (row + 1) * bw <= h * bw;
  }

  /** The bits of a refilled back buffer are those of the bitmap. */
  lemma RefillBits(c: Picture, back: seq<octet>, p: Point)
    requires Drawable(c) && In(p, c.rect)
    ensures PixelLit(c.(bits := Refill(back, c.bits)), p) == PixelLit(c, p)
  {
    ByteIndex(p.1 - c.rect.y, (p.0 - c.rect.x) / 8, ByteWidth(c.rect.w), c.rect.h);
  }

  /** After the push the whole region is what a full, uncached push would show, and nothing
      outside it has changed. Pad bits of the bitmap do not matter. */
  lemma RegionRight(s: State, c: Picture, tint: Tint, win: Rect, s': State, p: Point)
    requires Consistent(s, tint) && Drawable(c) && DrawStep(s, c, tint, win, s')
    ensures In(p, c.rect) ==> Right(s', c, tint, p)
    ensures !In(p, c.rect) ==> (p in s'.panel <==> p in s.panel) && (p in s.panel ==> s'.panel[p] == s.panel[p])
  {
    if In(p, c.rect) && !In(p, win) {
      var k := Find(s.slots, c);
      assert !Needed(s, c, p);
      assert InUse(s.slots[k]) && In(p, s.slots[k].rect);
      if Covered(s.dirty, p) {
        var i :| 0 <= i < |s.dirty| && In(p, s.dirty[i]);
        SharedPixel(p, s.dirty[i], c.rect);
      }
      assert Right(s, s.slots[k], tint, p);
      assert Shows(s.slots[k], tint, p) == Shows(c, tint, p);
    }
  }

  /** The panel shows at column col of row row what the bitmap's bit there gives. */
  ghost predicate Painted(c: Picture, stride: int, tint: Tint, row: int, col: int, panel: map<Point, Colour>) {
    var p := (c.rect.x + col, c.rect.y + row);
    && p in panel
    && 0 <= row * stride + col / 8 < |c.bits| && 0 <= col
    && panel[p] == Rendered(c.bits, stride, tint(p, c.fg), c.bg, row, col)
  }

  ghost predicate PaintedAll(c: Picture, stride: int, tint: Tint, panel: map<Point, Colour>) {
    forall row, col :: 0 <= row < c.rect.h && 0 <= col < c.rect.w ==> Painted(c, stride, tint, row, col, panel)
  }

  lemma RightPainted(s: State, c: Picture, tint: Tint)
    requires Drawable(c) && forall p: Point :: In(p, c.rect) ==> Right(s, c, tint, p)
    ensures PaintedAll(c, (c.rect.w + 7) / 8, tint, s.panel)
  {
    hide Bit, Rendered;
    forall row, col | 0 <= row < c.rect.h && 0 <= col < c.rect.w
      ensures Painted(c, ByteWidth(c.rect.w), tint, row, col, s.panel)
    {
      ByteIndex(row, col / 8, ByteWidth(c.rect.w), c.rect.h);
      ShowsRendered(c, ByteWidth(c.rect.w), tint, row, col);
      assert Right(s, c, tint, (c.rect.x + col, c.rect.y + row));
    }
  }

  /** Pixel by pixel: after the push each column of each row is the one that its bit in the bitmap gives. */
  lemma DrawPainted(s: State, c: Picture, tint: Tint, win: Rect, s': State)
    requires Consistent(s, tint) && Drawable(c) && DrawStep(s, c, tint, win, s')
    ensures PaintedAll(c, (c.rect.w + 7) / 8, tint, s'.panel)
  {
    hide Consistent, DrawStep, Right, PaintedAll;
    forall p: Point | In(p, c.rect) ensures Right(s', c, tint, p) {
      RegionRight(s, c, tint, win, s', p);
    }
    RightPainted(s', c, tint);
  }

  /** The slot the push leaves holding c. */
  function Target(s: State, c: Picture): (k: nat)
    requires Shaped(s)
    ensures k < SLOTS
  {
    if Hit(s, c) then Find(s.slots, c) else s.next
  }

  /** The other slots in use are untouched ones that do not overlap the region. */
  lemma OtherSlots(s: State, c: Picture, j: nat)
    requires Shaped(s) && Disjoint(s.slots) && Drawable(c) && j < SLOTS && j != Target(s, c)
    requires InUse(SlotsAfter(s, c)[j])
    ensures SlotsAfter(s, c)[j] == s.slots[j] && !Overlap(s.slots[j].rect, c.rect) && !Overlap(c.rect, s.slots[j].rect)
  {}

  lemma TargetSlot(s: State, c: Picture)
    requires Shaped(s)
    ensures var t := SlotsAfter(s, c)[Target(s, c)];
            SameKey(t, c) && exists back :: t.bits == Refill(back, c.bits)
  {
    if Hit(s, c) {
      assert SlotsAfter(s, c)[Target(s, c)].bits == Refill(s.slots[Target(s, c)].bits, c.bits);
    } else {
      assert SlotsAfter(s, c)[Target(s, c)].bits == Refill(s.slots[s.next].bits, c.bits);
    }
  }

  lemma DisjointAfter(s: State, c: Picture)
    requires Shaped(s) && Disjoint(s.slots) && Drawable(c)
    ensures Disjoint(SlotsAfter(s, c))
  {
    var slots, t := SlotsAfter(s, c), Target(s, c);
    TargetSlot(s, c);
    hide SlotsAfter, Find, Overlap;
    forall i, j | 0 <= i < j < SLOTS && InUse(slots[i]) && InUse(slots[j])
      ensures !Overlap(slots[i].rect, slots[j].rect)
    {
      if i != t { OtherSlots(s, c, i); }
      if j != t { OtherSlots(s, c, j); }
    }
  }

  /** Retiring the queued rectangles that meet the pushed region forgets no other slot's pixel:
      such a pixel is also in a rectangle that stays queued. */
  ghost predicate NothingForgotten(s: State, c: Picture)
    requires Shaped(s)
  {
    forall j, p: Point ::
      (0 <= j < SLOTS && j != Target(s, c) && InUse(SlotsAfter(s, c)[j])
       && In(p, s.slots[j].rect) && Covered(s.dirty, p))
      ==> StaysCovered(s.dirty, c.rect, p)
  }

  predicate StaysCovered(dirty: seq<Rect>, r: Rect, p: Point) {
    exists i :: 0 <= i < |dirty| && In(p, dirty[i]) && !Touches(dirty[i], r)
  }

  lemma CoverageAfter(dirty: seq<Rect>, r: Rect, dirty': seq<Rect>, p: Point)
    requires DirtyAfter(dirty, r, dirty')
    ensures Covered(dirty', p) <==> StaysCovered(dirty, r, p)
  {
    if Covered(dirty', p) {
      var i :| 0 <= i < |dirty'| && In(p, dirty'[i]);
      assert dirty'[i] in dirty;
    }
    if StaysCovered(dirty, r, p) {
      var i :| 0 <= i < |dirty| && In(p, dirty[i]) && !Touches(dirty[i], r);
      assert dirty[i] in dirty';
    }
  }

  lemma SlotPixelAfter(s: State, c: Picture, tint: Tint, win: Rect, s': State, j: nat, p: Point)
    requires Consistent(s, tint) && Drawable(c) && DrawStep(s, c, tint, win, s') && NothingForgotten(s, c)
    requires j < SLOTS && InUse(s'.slots[j]) && In(p, s'.slots[j].rect)
    ensures Right(s', s'.slots[j], tint, p) || Covered(s'.dirty, p)
  {
    hide SlotsAfter, Find, Refill, Overlap;
    RegionRight(s, c, tint, win, s', p);
    if j == Target(s, c) {
      TargetSlot(s, c);
      var back :| s'.slots[j].bits == Refill(back, c.bits);
      RefillBits(c, back, p);
    } else {
      OtherSlots(s, c, j);
      if In(p, c.rect) { SharedPixel(p, s.slots[j].rect, c.rect); }
      CoverageAfter(s.dirty, c.rect, s'.dirty, p);
    }
  }

  /** The cache stays true to the panel when no other slot's pending colour change is forgotten. */
  lemma ConsistentAfter(s: State, c: Picture, tint: Tint, win: Rect, s': State)
    requires Consistent(s, tint) && Drawable(c) && DrawStep(s, c, tint, win, s') && NothingForgotten(s, c)
    ensures Consistent(s', tint)
  {
    hide DrawStep, NothingForgotten, Right, Covered, In;
    assert Shaped(s') && s'.slots == SlotsAfter(s, c) by { DrawStepMeans(s, c, tint, win, s'); }
    DisjointAfter(s, c);
    forall j, p: Point | 0 <= j < SLOTS && InUse(s'.slots[j]) && In(p, s'.slots[j].rect)
      ensures Right(s', s'.slots[j], tint, p) || Covered(s'.dirty, p)
    {
      SlotPixelAfter(s, c, tint, win, s', j, p);
    }
  }

  lemma DrawStepMeans(s: State, c: Picture, tint: Tint, win: Rect, s': State)
    requires Shaped(s) && DrawStep(s, c, tint, win, s')
    ensures Shaped(s') && s'.slots == SlotsAfter(s, c)
  {}

  // ---- The condition is exact ------------------------------------------------------------------------------

  /** The same cache and queue over another panel. */
  predicate SameButPanel(s: State, t: State) { t == s.(panel := t.panel) }

  function Points(r: Rect): set<Point> {
    set x, y | r.x <= x < r.x + r.w && r.y <= y < r.y + r.h :: (x, y)
  }

  function StillQueued(dirty: seq<Rect>, r: Rect): (d: seq<Rect>)
    ensures DirtyAfter(dirty, r, d)
  {
    if dirty == [] then []
    else
      var d := StillQueued(dirty[..|dirty| - 1], r);
      var a := dirty[|dirty| - 1];
      assert dirty == dirty[..|dirty| - 1] + [a];
      if Touches(a, r) then d else d + [a]
  }

  /** A push that rewrites the whole region. */
  function FullPush(s: State, c: Picture, tint: Tint): State
    requires Shaped(s)
  {
    State(SlotsAfter(s, c), if Hit(s, c) then s.next else (s.next + 1) % SLOTS, StillQueued(s.dirty, c.rect),
          map p: Point | p in s.panel.Keys + Points(c.rect) :: if In(p, c.rect) then Shows(c, tint, p) else s.panel[p])
  }

  lemma FullPushIsStep(s: State, c: Picture, tint: Tint)
    requires Shaped(s)
    ensures DrawStep(s, c, tint, c.rect, FullPush(s, c, tint))
  {
    hide SlotsAfter, StillQueued, Bit;
    forall p: Point | In(p, c.rect) ensures p in Points(c.rect) {
      assert p == (p.0, p.1);
    }
  }

  /** A forgotten pixel goes wrong: over some panel that is consistent before the push,
      no push of c leaves a consistent one. */
  lemma ForgettingBreaks(s: State, c: Picture, tint: Tint, j: nat, p: Point) returns (t: State)
    requires Consistent(s, tint) && Drawable(c) && j < SLOTS && j != Target(s, c)
    requires InUse(SlotsAfter(s, c)[j]) && In(p, s.slots[j].rect)
    requires Covered(s.dirty, p) && !StaysCovered(s.dirty, c.rect, p)
    ensures SameButPanel(s, t) && Consistent(t, tint)
    ensures forall win, t' :: DrawStep(t, c, tint, win, t') ==> !Consistent(t', tint)
  {
    hide SlotsAfter, Find, Refill;
    var shown := Shows(s.slots[j], tint, p);
    t := s.(panel := s.panel[p := if shown == 0 then 1 else 0]);
    OtherSlots(s, c, j);
    if In(p, c.rect) { SharedPixel(p, s.slots[j].rect, c.rect); }
    forall win, t' | DrawStep(t, c, tint, win, t')
      ensures !Consistent(t', tint)
    {
      CoverageAfter(s.dirty, c.rect, t'.dirty, p);
      assert SlotsAfter(t, c) == SlotsAfter(s, c) by { SlotsIgnorePanel(s, t, c); }
      assert !Right(t', t'.slots[j], tint, p);
    }
  }

  lemma SlotsIgnorePanel(s: State, t: State, c: Picture)
    requires Shaped(s) && SameButPanel(s, t)
    ensures Shaped(t) && SlotsAfter(t, c) == SlotsAfter(s, c) && Target(t, c) == Target(s, c)
  {}

  /** A push keeps the cache true to every panel it was true to exactly when nothing is forgotten.
      The condition speaks of the slots and the queue before the call only. */
  lemma FoldExact(s: State, c: Picture, tint: Tint)
    requires Consistent(s, tint) && Drawable(c)
    ensures NothingForgotten(s, c) <==>
      forall t, win, t' :: SameButPanel(s, t) && Consistent(t, tint) && DrawStep(t, c, tint, win, t')
        ==> Consistent(t', tint)
  {
    hide Consistent, DrawStep, Covered, StaysCovered, In;
    ConsistentShaped(s, tint);
    if NothingForgotten(s, c) {
      forall t, win, t' | SameButPanel(s, t) && Consistent(t, tint) && DrawStep(t, c, tint, win, t')
        ensures Consistent(t', tint)
      {
        SlotsIgnorePanel(s, t, c);
        ConsistentAfter(t, c, tint, win, t');
      }
    } else {
      var j, p: Point :| 0 <= j < SLOTS && j != Target(s, c) && InUse(SlotsAfter(s, c)[j]) && In(p, s.slots[j].rect)
        && Covered(s.dirty, p) && !StaysCovered(s.dirty, c.rect, p);
      var t := ForgettingBreaks(s, c, tint, j, p);
      ConsistentShaped(t, tint);
      FullPushIsStep(t, c, tint);
    }
  }

  lemma ConsistentShaped(s: State, tint: Tint)
    requires Consistent(s, tint)
    ensures Shaped(s)
  {}

  // ---- The colour-dirty queue ---------------------------------------------------------------------------------

  /** The least rectangle holding both corners of a and of b. */
  function Hull(a: Rect, b: Rect): Rect {
    var x, y := Min(a.x, b.x), Min(a.y, b.y);
    Rect(x, y, Max(a.x + a.w, b.x + b.w) - x, Max(a.y + a.h, b.y + b.h) - y)
  }

  /** colour_mark_dirty: queue the rectangle, or widen the last one when the queue is full. */
  function Marked(dirty: seq<Rect>, r: Rect): (d: seq<Rect>)
    requires |dirty| <= CDIRTY
    ensures |d| <= CDIRTY
  {
    if |dirty| < CDIRTY then dirty + [r] else dirty[CDIRTY - 1 := Hull(dirty[CDIRTY - 1], r)]
  }

  /** Marking loses no coverage, and a full queue grows by no more than the hull. */
  lemma MarkCovers(dirty: seq<Rect>, r: Rect, p: Point)
    requires |dirty| <= CDIRTY
    ensures Covered(dirty, p) || In(p, r) ==> Covered(Marked(dirty, r), p)
    ensures Covered(Marked(dirty, r), p) ==>
      Covered(dirty, p) || In(p, r) || (|dirty| == CDIRTY && In(p, Hull(dirty[CDIRTY - 1], r)))
  {
    var d := Marked(dirty, r);
    if Covered(dirty, p) {
      var i :| 0 <= i < |dirty| && In(p, dirty[i]);
      assert In(p, d[i]);
    }
    if In(p, r) { assert In(p, d[|d| - 1]); }
    if Covered(d, p) {
      var i :| 0 <= i < |d| && In(p, d[i]);
      assert i < |dirty| && d[i] == dirty[i] ==> In(p, dirty[i]);
    }
  }

  /** Any rectangle that holds two non-empty ones holds their hull. */
  lemma HullLeast(a: Rect, b: Rect, q: Rect)
    requires !Empty(a) && !Empty(b)
    requires forall p: Point :: In(p, a) || In(p, b) ==> In(p, q)
    ensures forall p: Point :: In(p, Hull(a, b)) ==> In(p, q)
  {
    assert In((a.x, a.y), q) && In((a.x + a.w - 1, a.y + a.h - 1), q);
    assert In((b.x, b.y), q) && In((b.x + b.w - 1, b.y + b.h - 1), q);
  }

  function MarkedAll(dirty: seq<Rect>, marks: seq<Rect>): (d: seq<Rect>)
    requires |dirty| <= CDIRTY
    ensures |d| <= CDIRTY
  {
    if marks == [] then dirty else Marked(MarkedAll(dirty, marks[..|marks| - 1]), marks[|marks| - 1])
  }

  lemma {:induction false} MarkAllCovers(dirty: seq<Rect>, marks: seq<Rect>, p: Point)
    requires |dirty| <= CDIRTY
    ensures Covered(dirty, p) || Covered(marks, p) ==> Covered(MarkedAll(dirty, marks), p)
  {
    hide Marked, In;
    if marks != [] {
      var init := marks[..|marks| - 1];
      MarkAllCovers(dirty, init, p);
      MarkCovers(MarkedAll(dirty, init), marks[|marks| - 1], p);
      if Covered(marks, p) && !In(p, marks[|marks| - 1]) {
        var i :| 0 <= i < |marks| && In(p, marks[i]);
        assert In(p, init[i]);
      }
    }
  }

  // ---- Whole runs ---------------------------------------------------------------------------------------------------

  datatype Op =
    | Draw(c: Picture)                          // a cached push
    | Recolour(tint: Tint, marks: seq<Rect>)    // lamps, bars or banner change; rectangles are marked
    | DropAll                                   // every slot and the queue are dropped (menu transitions)
    | Uncached(c: Picture, stride: int)         // a strided or oversized push

  /** The cache without the slots in `over`: those that an uncached push has painted over. */
  function Masked(s: State, over: set<nat>): (t: State)
    ensures |t.slots| == |s.slots| && t == s.(slots := t.slots)
    ensures forall i: nat :: i < |s.slots| ==>
      t.slots[i] == if i in over then s.slots[i].(rect := s.slots[i].rect.(x := -1)) else s.slots[i]
  {
    s.(slots := seq(|s.slots|, i requires 0 <= i < |s.slots| =>
                      if i in over then s.slots[i].(rect := s.slots[i].rect.(x := -1)) else s.slots[i]))
  }

  /** The slots painted over after one more operation. */
  function Over(s: State, over: set<nat>, op: Op): set<nat>
    requires Shaped(s)
  {
    match op
    case Draw(c) => over - {Target(s, c)}
    case Recolour(_, _) => over
    case DropAll => {}
    case Uncached(c, _) => over + set j: nat | j < SLOTS && Overlap(s.slots[j].rect, c.rect)
  }

  /** The callers' discipline. A cached push does not hit a slot that was painted over, and forgets no
      pending colour change of another slot. A change of colours is marked where it changes what a cached
      region shows; over the rest of the panel it need not be. */
  ghost predicate Allowed(s: State, over: set<nat>, tint: Tint, op: Op)
    requires Shaped(s)
  {
    match op
    case Draw(c) => Drawable(c) && Find(s.slots, c) !in over && NothingForgotten(Masked(s, over), c)
    case Recolour(tint', marks) => MarkedChanges(Masked(s, over), tint, tint', marks)
    case DropAll => true
    case Uncached(_, _) => true
  }

  ghost predicate MarkedChanges(s: State, tint: Tint, tint': Tint, marks: seq<Rect>)
    requires Shaped(s)
  {
    forall j, p: Point ::
      0 <= j < SLOTS && InUse(s.slots[j]) && In(p, s.slots[j].rect)
      && Shows(s.slots[j], tint, p) != Shows(s.slots[j], tint', p)
      ==> Covered(marks, p)
  }

  function Dropped(slots: seq<Picture>): (d: seq<Picture>)
    ensures |d| == |slots| && forall i :: 0 <= i < |d| ==> !InUse(d[i])
  {
    seq(|slots|, i requires 0 <= i < |slots| => slots[i].(rect := slots[i].rect.(x := -1)))
  }

  ghost predicate OpStep(s: State, tint: Tint, op: Op, s': State, tint': Tint)
    requires Shaped(s)
  {
    match op
    case Draw(c) => tint' == tint && exists win :: DrawStep(s, c, tint, win, s')
    case Recolour(t, marks) => tint' == t && s' == s.(dirty := MarkedAll(s.dirty, marks))
    case DropAll => tint' == tint && s' == s.(slots := Dropped(s.slots), dirty := [])
    case Uncached(c, stride) =>
      && tint' == tint
      && s' == s.(panel := s'.panel)
      && Pushed(s.panel, c, stride, tint, c.rect, s'.panel)
  }

  lemma RecolourKeeps(s: State, tint: Tint, t: Tint, marks: seq<Rect>)
    requires Consistent(s, tint) && MarkedChanges(s, tint, t, marks)
    ensures Consistent(s.(dirty := MarkedAll(s.dirty, marks)), t)
  {
    hide MarkedAll, In;
    var s' := s.(dirty := MarkedAll(s.dirty, marks));
    forall j, p: Point | 0 <= j < SLOTS && InUse(s.slots[j]) && In(p, s.slots[j].rect)
      ensures Right(s', s.slots[j], t, p) || Covered(s'.dirty, p)
    {
      MarkAllCovers(s.dirty, marks, p);
    }
  }

  /** Leaving slots out of a consistent cache keeps it consistent. */
  lemma MaskKeeps(s: State, over: set<nat>, more: set<nat>, tint: Tint)
    requires Consistent(Masked(s, over), tint) && over <= more
    ensures Consistent(Masked(s, more), tint)
  {
    var t, u := Masked(s, over), Masked(s, more);
    assert forall j: nat :: j < SLOTS && InUse(u.slots[j]) ==> u.slots[j] == t.slots[j];
  }

  /** An uncached push that meets no slot in use. */
  lemma UncachedKeeps(s: State, tint: Tint, c: Picture, stride: int, panel': map<Point, Colour>)
    requires Consistent(s, tint) && Pushed(s.panel, c, stride, tint, c.rect, panel')
    requires forall j :: 0 <= j < SLOTS && InUse(s.slots[j]) ==> !Overlap(s.slots[j].rect, c.rect)
    ensures Consistent(s.(panel := panel'), tint)
  {
    var s' := s.(panel := panel');
    forall j, p: Point | 0 <= j < SLOTS && InUse(s.slots[j]) && In(p, s.slots[j].rect)
      ensures Right(s', s.slots[j], tint, p) || Covered(s'.dirty, p)
    {
      if In(p, c.rect) { SharedPixel(p, s.slots[j].rect, c.rect); }
    }
  }

  lemma MaskedFind(s: State, over: set<nat>, c: Picture)
    requires Shaped(s) && Drawable(c) && Find(s.slots, c) !in over
    ensures Find(Masked(s, over).slots, c) == Find(s.slots, c)
  {
    hide Masked;
    var t := Masked(s, over);
    assert forall j: nat :: j < |s.slots| ==> t.slots[j] == s.slots[j] || t.slots[j].rect.x == -1;
    FindUnique(t.slots, c, Find(s.slots, c));
  }

  /** A cached push that hits no slot painted over does to the other slots what it does without those. */
  lemma MaskedSlots(s: State, over: set<nat>, c: Picture, j: nat)
    requires Shaped(s) && Drawable(c) && Find(s.slots, c) !in over && j < SLOTS
    ensures var t := s.(slots := SlotsAfter(s, c));
            SlotsAfter(Masked(s, over), c)[j] == Masked(t, over - {Target(s, c)}).slots[j]
  {
    hide Masked, Find, Overlap, Refill;
    MaskedFind(s, over, c);
    var m := Masked(s, over);
    assert m.slots[j] == if j in over then s.slots[j].(rect := s.slots[j].rect.(x := -1)) else s.slots[j];
    assert Target(m, c) == Target(s, c);
  }

  lemma MaskedStep(s: State, over: set<nat>, c: Picture, tint: Tint, win: Rect, s': State)
    requires Shaped(s) && Drawable(c) && Find(s.slots, c) !in over && DrawStep(s, c, tint, win, s')
    ensures Masked(s, over).next == s.next && DrawStep(Masked(s, over), c, tint, win, Masked(s', over - {Target(s, c)}))
  {
    hide Masked, Find, SlotsAfter, Pushed, PixelLit;
    var m, m' := Masked(s, over), Masked(s', over - {Target(s, c)});
    MaskedFind(s, over, c);
    forall j: nat | j < SLOTS ensures SlotsAfter(m, c)[j] == m'.slots[j] {
      MaskedSlots(s, over, c, j);
      assert s' == s'.(slots := SlotsAfter(s, c));
      MaskedOf(s', s.(slots := SlotsAfter(s, c)), over - {Target(s, c)}, j);
    }
    assert m'.slots == SlotsAfter(m, c);
    forall p: Point | Needed(m, c, p) ensures Needed(s, c, p) {
      assert Hit(s, c) ==> m.slots[Find(s.slots, c)] == s.slots[Find(s.slots, c)];
    }
  }

  lemma MaskedOf(s: State, t: State, over: set<nat>, j: nat)
    requires s.slots == t.slots && j < |s.slots|
    ensures Masked(s, over).slots[j] == Masked(t, over).slots[j]
  {}

  lemma OpKeeps(s: State, over: set<nat>, tint: Tint, op: Op, s': State, tint': Tint)
    requires Shaped(s) && Consistent(Masked(s, over), tint)
    requires Allowed(s, over, tint, op) && OpStep(s, tint, op, s', tint')
    ensures Shaped(s') && Consistent(Masked(s', Over(s, over, op)), tint')
  {
    hide Consistent, DrawStep, MarkedAll, Pushed, NothingForgotten, MarkedChanges, Masked, Target;
    match op
    case Draw(c) =>
      var win :| DrawStep(s, c, tint, win, s');
      DrawStepShaped(s, c, tint, win, s');
      MaskedStep(s, over, c, tint, win, s');
      ConsistentAfter(Masked(s, over), c, tint, win, Masked(s', Over(s, over, op)));
    case Recolour(t, marks) =>
      RecolourKeeps(Masked(s, over), tint, t, marks);
      MaskedDirty(s, over, MarkedAll(s.dirty, marks));
    case DropAll =>
      DroppedConsistent(s, tint);
      NothingMasked(s');
    case Uncached(c, stride) =>
      var more := Over(s, over, op);
      MaskKeeps(s, over, more, tint);
      UncachedKeeps(Masked(s, more), tint, c, stride, s'.panel);
      MaskedPanel(s, more, s'.panel);
  }

  lemma DrawStepShaped(s: State, c: Picture, tint: Tint, win: Rect, s': State)
    requires Shaped(s) && DrawStep(s, c, tint, win, s')
    ensures Shaped(s')
  {}

  lemma MaskedDirty(s: State, over: set<nat>, dirty: seq<Rect>)
    ensures Masked(s.(dirty := dirty), over) == Masked(s, over).(dirty := dirty)
  {}

  lemma MaskedPanel(s: State, over: set<nat>, panel: map<Point, Colour>)
    ensures Masked(s.(panel := panel), over) == Masked(s, over).(panel := panel)
  {}

  lemma NothingMasked(s: State)
    ensures Masked(s, {}) == s
  {
    assert Masked(s, {}).slots == s.slots;
  }

  lemma DroppedConsistent(s: State, tint: Tint)
    requires Shaped(s)
    ensures Consistent(s.(slots := Dropped(s.slots), dirty := []), tint)
  {}

  /** A history; over[k] are the slots painted over and not dropped since, at states[k]. */
  ghost predicate Run(states: seq<State>, over: seq<set<nat>>, tints: seq<Tint>, ops: seq<Op>) {
    && |states| == |tints| == |over| == |ops| + 1
    && Consistent(states[0], tints[0]) && over[0] == {}
    && forall k :: 0 <= k < |ops| ==>
         Shaped(states[k]) && Allowed(states[k], over[k], tints[k], ops[k])
         && OpStep(states[k], tints[k], ops[k], states[k + 1], tints[k + 1])
         && over[k + 1] == Over(states[k], over[k], ops[k])
  }

  lemma {:induction false} RunConsistent(states: seq<State>, over: seq<set<nat>>, tints: seq<Tint>, ops: seq<Op>,
        k: nat)
    requires Run(states, over, tints, ops) && k < |states|
    ensures Shaped(states[k]) && Consistent(Masked(states[k], over[k]), tints[k])
  {
    hide Consistent, Allowed, OpStep, Over, Masked;
    if k == 0 {
      NothingMasked(states[0]);
      ConsistentShaped(states[0], tints[0]);
    } else {
      RunConsistent(states, over, tints, ops, k - 1);
      OpKeeps(states[k - 1], over[k - 1], tints[k - 1], ops[k - 1], states[k], tints[k]);
    }
  }

  /** In any run of cached pushes, colour changes, uncached pushes and drops, each cached push leaves
      its whole region as a full re-render in the present colours and the rest of the panel alone. */
  lemma RunRight(states: seq<State>, over: seq<set<nat>>, tints: seq<Tint>, ops: seq<Op>, k: nat, p: Point)
    requires Run(states, over, tints, ops) && k < |ops| && ops[k].Draw?
    ensures In(p, ops[k].c.rect) ==> Right(states[k + 1], ops[k].c, tints[k], p)
    ensures !In(p, ops[k].c.rect) ==>
      && (p in states[k + 1].panel <==> p in states[k].panel)
      && (p in states[k].panel ==> states[k + 1].panel[p] == states[k].panel[p])
  {
    hide Over, Consistent, NothingForgotten, Masked;
    var s, s', c := states[k], states[k + 1], ops[k].c;
    RunConsistent(states, over, tints, ops, k);
    assert Allowed(s, over[k], tints[k], ops[k]) && OpStep(s, tints[k], ops[k], s', tints[k + 1]);
    var win :| DrawStep(s, c, tints[k], win, s');
    hide DrawStep, Run;
    MaskedStep(s, over[k], c, tints[k], win, s');
    RegionRight(Masked(s, over[k]), c, tints[k], win, Masked(s', over[k] - {Target(s, c)}), p);
  }

  /** The same pixel by pixel, without the model's own notions of region and bit. */
  lemma RunRendered(states: seq<State>, over: seq<set<nat>>, tints: seq<Tint>, ops: seq<Op>, k: nat)
    requires Run(states, over, tints, ops) && k < |ops| && ops[k].Draw?
    ensures PaintedAll(ops[k].c, (ops[k].c.rect.w + 7) / 8, tints[k], states[k + 1].panel)
  {
    hide OpStep, NothingForgotten, Right;
    var c, s' := ops[k].c, states[k + 1];
    assert Allowed(states[k], over[k], tints[k], ops[k]);
    forall p: Point | In(p, c.rect) ensures Right(s', c, tints[k], p) {
      RunRight(states, over, tints, ops, k, p);
    }
    hide Run;
    RightPainted(s', c, tints[k]);
  }

  /** With no colour change pending no condition is left: any cached push may follow. */
  lemma NoDirtyNothingForgotten(s: State, c: Picture)
    requires Shaped(s) && s.dirty == []
    ensures NothingForgotten(s, c)
  {}

  // ---- A run that goes wrong --------------------------------------------------------------------------------

  function Lit8(x: int): Picture { Picture(Rect(x, 0, 8, 1), 1, 0, [0xFF]) }

  const UNUSED := Picture(Rect(-1, -1, 0, 0), 0, 0, [0])

  /** The colourizer before and after a lamp is lit. */
  const PLAIN: Tint := (p: Point, fg: Colour) => fg
  const LAMP: Tint := (p: Point, fg: Colour) => 2

  function Boot(): State { State([UNUSED, UNUSED, UNUSED, UNUSED], 0, [], map[]) }

  // The states of the run below: two regions pushed, a colour change over both, and both pushed again.
  // The last push finds nothing to send.
  function FirstPushed(): State { FullPush(Boot(), Lit8(0), PLAIN) }
  function BothPushed(): State { if Shaped(FirstPushed()) then FullPush(FirstPushed(), Lit8(8), PLAIN) else Boot() }
  function Recoloured(): State { BothPushed().(dirty := MarkedAll([], [Rect(0, 0, 16, 1)])) }
  function FirstAgain(): State { if Shaped(Recoloured()) then FullPush(Recoloured(), Lit8(0), LAMP) else Boot() }

  function StaleStates(): seq<State> {
    [Boot(), FirstPushed(), BothPushed(), Recoloured(), FirstAgain(), FirstAgain()]
  }

  function StaleTints(): seq<Tint> { [PLAIN, PLAIN, PLAIN, LAMP, LAMP, LAMP] }

  function StaleOps(): seq<Op> {
    [Draw(Lit8(0)), Draw(Lit8(8)), Recolour(LAMP, [Rect(0, 0, 16, 1)]), Draw(Lit8(0)), Draw(Lit8(8))]
  }

  /** The cache holds both regions. */
  predicate BothCached(s: State) { s.slots == [Lit8(0), Lit8(8), UNUSED, UNUSED] && s.next == 2 }

  lemma FirstPush()
    ensures Shaped(Boot()) && SlotsAfter(Boot(), Lit8(0)) == [Lit8(0), UNUSED, UNUSED, UNUSED] && !Hit(Boot(), Lit8(0))
  {
    var s := Boot();
    assert s.slots[0] == UNUSED && s.slots[1] == UNUSED && s.slots[2] == UNUSED && s.slots[3] == UNUSED;
    FindUnique(s.slots, Lit8(0), 4);
    RefillOne();
    var slots := SlotsAfter(s, Lit8(0));
    assert slots[0] == Lit8(0) && slots[1] == UNUSED && slots[2] == UNUSED && slots[3] == UNUSED;
  }

  lemma RefillOne()
    ensures Refill([0], [0xFF]) == [0xFF] && Refill([0xFF], [0xFF]) == [0xFF]
  {}

  lemma SecondPush(s: State)
    requires Shaped(s) && s.slots == [Lit8(0), UNUSED, UNUSED, UNUSED] && s.next == 1
    ensures SlotsAfter(s, Lit8(8)) == [Lit8(0), Lit8(8), UNUSED, UNUSED] && !Hit(s, Lit8(8))
  {
    assert s.slots[0] == Lit8(0) && s.slots[1] == UNUSED && s.slots[2] == UNUSED && s.slots[3] == UNUSED;
    FindUnique(s.slots, Lit8(8), 4);
    RefillOne();
    var slots := SlotsAfter(s, Lit8(8));
    assert slots[0] == Lit8(0) && slots[1] == Lit8(8) && slots[2] == UNUSED && slots[3] == UNUSED;
  }

  lemma PushAgain(s: State)
    requires Shaped(s) && BothCached(s)
    ensures Find(s.slots, Lit8(0)) == 0 && SlotsAfter(s, Lit8(0)) == s.slots
    ensures Find(s.slots, Lit8(8)) == 1 && SlotsAfter(s, Lit8(8)) == s.slots
  {
    assert s.slots[0] == Lit8(0) && s.slots[1] == Lit8(8);
    FindUnique(s.slots, Lit8(0), 0);
    FindUnique(s.slots, Lit8(8), 1);
    RefillOne();
    assert s.slots[0 := s.slots[0]] == s.slots && s.slots[1 := s.slots[1]] == s.slots;
  }

  lemma LastPush(s: State)
    requires Shaped(s) && BothCached(s) && s.dirty == []
    ensures forall p: Point :: !Needed(s, Lit8(8), p)
    ensures OpStep(s, LAMP, Draw(Lit8(8)), s, LAMP)
  {
    PushAgain(s);
    var win := Rect(0, 0, 0, 0);
    assert s.slots[1] == Lit8(8);
    assert DrawStep(s, Lit8(8), LAMP, win, s);
  }

  /** From the empty cache: push two adjacent regions, change the colours of both and mark one rectangle
      over them, push both again. The first of these pushes retires the mark, so the second finds nothing
      to send and leaves its region in the old colours. Only the push that retires the mark breaks the
      callers' discipline. */
  lemma StaleRegion()
    ensures var ss, ts, ops := StaleStates(), StaleTints(), StaleOps();
            && (forall k :: 0 <= k < 5 ==> Shaped(ss[k]) && OpStep(ss[k], ts[k], ops[k], ss[k + 1], ts[k + 1]))
            && (forall p: Point :: !Needed(ss[4], Lit8(8), p))
            && In((8, 0), Lit8(8).rect) && !Right(ss[5], Lit8(8), LAMP, (8, 0))
            && forall k :: 0 <= k < 5 ==> (Allowed(ss[k], {}, ts[k], ops[k]) <==> k != 3)
  {
    hide FirstPushed, BothPushed, Recoloured, FirstAgain, Boot, Lit8;
    hide Allowed, OpStep, Needed, Shaped, BothCached, Right, In;
    FirstStep();
    SecondStep();
    ThirdStep();
    FourthStep();
    LastPush(FirstAgain());
    StaleEnd();
    NoDirtyAllowed(Boot(), PLAIN, Lit8(0));
    NoDirtyAllowed(FirstPushed(), PLAIN, Lit8(8));
    MarksCover(BothPushed());
    MarkLost(Recoloured());
    NoDirtyAllowed(FirstAgain(), LAMP, Lit8(8));
  }

  lemma FirstStep()
    ensures Shaped(Boot()) && Boot().dirty == [] && Drawable(Lit8(0)) && Drawable(Lit8(8))
    ensures var s := FirstPushed();
            && Shaped(s) && s.slots == [Lit8(0), UNUSED, UNUSED, UNUSED] && s.next == 1 && s.dirty == []
            && OpStep(Boot(), PLAIN, Draw(Lit8(0)), s, PLAIN)
  {
    hide SlotsAfter, Find, DrawStep;
    FirstPush();
    FullPushIsStep(Boot(), Lit8(0), PLAIN);
  }

  lemma SecondStep()
    requires var s := FirstPushed();
             Shaped(s) && s.slots == [Lit8(0), UNUSED, UNUSED, UNUSED] && s.next == 1 && s.dirty == []
    ensures var s := BothPushed();
            Shaped(s) && BothCached(s) && s.dirty == [] && OpStep(FirstPushed(), PLAIN, Draw(Lit8(8)), s, PLAIN)
  {
    hide SlotsAfter, Find, DrawStep, FirstPushed;
    SecondPush(FirstPushed());
    FullPushIsStep(FirstPushed(), Lit8(8), PLAIN);
  }

  lemma ThirdStep()
    requires Shaped(BothPushed()) && BothCached(BothPushed()) && BothPushed().dirty == []
    ensures var s := Recoloured();
            && Shaped(s) && BothCached(s) && s.dirty == [Rect(0, 0, 16, 1)]
            && OpStep(BothPushed(), PLAIN, Recolour(LAMP, [Rect(0, 0, 16, 1)]), s, LAMP)
  {
    hide BothPushed, MarkedAll;
    OneMark(Rect(0, 0, 16, 1));
  }

  lemma OneMark(r: Rect)
    ensures MarkedAll([], [r]) == [r]
  {
    hide Hull;
    assert [r][..0] == [] && MarkedAll([], []) == [];
  }

  lemma FourthStep()
    requires var s := Recoloured(); Shaped(s) && BothCached(s) && s.dirty == [Rect(0, 0, 16, 1)]
    ensures var s := FirstAgain();
            Shaped(s) && BothCached(s) && s.dirty == [] && OpStep(Recoloured(), LAMP, Draw(Lit8(0)), s, LAMP)
  {
    hide SlotsAfter, Find, DrawStep, Recoloured;
    PushAgain(Recoloured());
    FullPushIsStep(Recoloured(), Lit8(0), LAMP);
    assert Touches(Rect(0, 0, 16, 1), Lit8(0).rect);
    assert [Rect(0, 0, 16, 1)][..0] == [];
  }

  lemma NoDirtyAllowed(s: State, tint: Tint, c: Picture)
    requires Shaped(s) && s.dirty == [] && Drawable(c)
    ensures Allowed(s, {}, tint, Draw(c))
  {
    NothingMasked(s);
    NoDirtyNothingForgotten(s, c);
  }

  lemma MarksCover(s: State)
    requires Shaped(s) && BothCached(s)
    ensures Allowed(s, {}, PLAIN, Recolour(LAMP, [Rect(0, 0, 16, 1)]))
  {
    NothingMasked(s);
    BothCovered(s);
    hide Shows, Covered, BothCached;
  }

  /** The rectangle lies over both regions. */
  lemma BothCovered(s: State)
    requires Shaped(s) && BothCached(s)
    ensures forall j, p: Point :: 0 <= j < SLOTS && InUse(s.slots[j]) && In(p, s.slots[j].rect) ==>
      Covered([Rect(0, 0, 16, 1)], p)
  {
    forall j, p: Point | 0 <= j < SLOTS && InUse(s.slots[j]) && In(p, s.slots[j].rect)
      ensures Covered([Rect(0, 0, 16, 1)], p)
    {
      assert In(p, [Rect(0, 0, 16, 1)][0]);
    }
  }

  lemma MarkLost(s: State)
    requires Shaped(s) && BothCached(s) && s.dirty == [Rect(0, 0, 16, 1)]
    ensures !NothingForgotten(s, Lit8(0)) && !Allowed(s, {}, LAMP, Draw(Lit8(0)))
  {
    hide Find, SlotsAfter, InUse;
    NothingMasked(s);
    PushAgain(s);
    var p: Point := (8, 0);
    RectanglesThere(p);
    assert s.dirty[0] == Rect(0, 0, 16, 1);
    assert s.slots[1] == Lit8(8);
    assert Covered(s.dirty, p) && !StaysCovered(s.dirty, Lit8(0).rect, p);
  }

  lemma RectanglesThere(p: Point)
    requires p == (8, 0)
    ensures In(p, Rect(0, 0, 16, 1)) && In(p, Lit8(8).rect) && Touches(Rect(0, 0, 16, 1), Lit8(0).rect)
    ensures InUse(Lit8(8))
  {}

  /** The cache itself may be true to the panel when it happens: two adjacent regions of eight pixels, one
      queued rectangle over both, and a push of the first. */
  lemma ForgettingHappens(tint: Tint) returns (s: State, c: Picture)
    ensures Consistent(s, tint) && Drawable(c) && !NothingForgotten(s, c)
  {
    c := Lit8(0);
    s := State([Lit8(0), Lit8(8), UNUSED, UNUSED], 2, [Rect(0, 0, 16, 1)], map[]);
    BothCovered(s);
    MarkLost(s);
    hide Covered, NothingForgotten, Shows;
    assert s.slots[2] == UNUSED && s.slots[3] == UNUSED;
  }

  lemma StaleEnd()
    requires Shaped(FirstPushed()) && Shaped(Recoloured())
    ensures In((8, 0), Lit8(8).rect) && !Right(FirstAgain(), Lit8(8), LAMP, (8, 0))
  {
    hide FirstPushed, FullPush, In, Right;
    StaleColour(FirstPushed(), Recoloured(), FirstAgain());
  }

  lemma StaleColour(s1: State, s3: State, s4: State)
    requires Shaped(s1) && Shaped(s3)
    requires s3.panel == FullPush(s1, Lit8(8), PLAIN).panel && s4 == FullPush(s3, Lit8(0), LAMP)
    ensures In((8, 0), Lit8(8).rect) && !Right(s4, Lit8(8), LAMP, (8, 0))
  {
    hide SlotsAfter, StillQueued, Bit;
    var p: Point := (8, 0);
    LitThere();
    assert p in Points(Lit8(8).rect) && !In(p, Lit8(0).rect);
    assert s3.panel[p] == Shows(Lit8(8), PLAIN, p) == 1;
    assert s4.panel[p] == s3.panel[p] && Shows(Lit8(8), LAMP, p) == 2;
  }

  lemma LitThere()
    ensures Bit([0xFF], ByteWidth(8), 0, 0)
  {}
}
