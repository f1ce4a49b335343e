/** drawBitmap and colour_mark_dirty over the display's own state. */
module RegionDisplay {
  import opened Common
  import opened RegionCache

  /** __builtin_bswap16. */
  function Swap16(v: Colour): (r: Colour) { v % 256 * 256 + v / 256 }

  lemma SwapTwice(v: Colour)
    ensures Swap16(Swap16(v)) == v
  {
    var hi, lo := v / 256, v % 256;
    assert Swap16(v) == lo * 256 + hi;
    assert (lo * 256 + hi) % 256 == hi && (lo * 256 + hi) / 256 == lo;
  }

  lemma SwapIs(hi: nat, lo: nat)
    requires hi < 256 && lo < 256
    ensures Swap16(256 * hi + lo) == 256 * lo + hi
  {}

  /** Conversion to int16_t. */
  function I16(v: int): int { (v + 0x8000) % 0x1_0000 - 0x8000 }

  /** Rectangles small enough for 16-bit coordinates to hold every corner and difference. */
  predicate Small(r: Rect) {
    -0x2000 <= r.x <= 0x2000 && -0x2000 <= r.y <= 0x2000
    && -0x2000 <= r.x + r.w <= 0x2000 && -0x2000 <= r.y + r.h <= 0x2000
  }

  // ---- Rows and columns of a packed bitmap ----------------------------------------------------------

  lemma MulStep(a: int, b: int, w: int)
    requires w >= 0 && a < b
    ensures a * w + w <= b * w
    decreases b - a
  {
    if a + 1 < b { MulStep(a, b - 1, w); }
    assert b * w == (b - 1) * w + w;
  }

  lemma MulMono(a: int, b: int, w: int)
    requires w >= 0 && a <= b
    ensures a * w <= b * w
  {
    if a < b { MulStep(a, b, w); }
  }

  lemma IndexUnique(w: int, r: int, c: int, r': int, c': int)
    requires 0 <= c < w && 0 <= c' < w && r * w + c == r' * w + c'
    ensures r == r' && c == c'
  {
    if r < r' { MulStep(r, r', w); }
    if r' < r { MulStep(r', r, w); }
  }

  /** The two pictures differ in bit (row, col). */
  predicate Differ(a: seq<octet>, b: seq<octet>, bw: int, row: int, col: int) {
    Bit(a, bw, row, col) != Bit(b, bw, row, col)
  }

  lemma BitsXor(x: octet, y: octet, m: octet)
    requires m == 0x80 || m == 0x40 || m == 0x20 || m == 0x10 || m == 0x08 || m == 0x04 || m == 0x02 || m == 0x01
    ensures (x ^ y) & m != 0 <==> (x & m != 0) != (y & m != 0)
  {}

  lemma XorBit(x: octet, y: octet, b: nat)
    requires b < 8
    ensures Lit(x ^ y, b) <==> Lit(x, b) != Lit(y, b)
  {
    hide Mask;
    MaskValue(b);
    BitsXor(x, y, Mask(b));
  }

  lemma MaskValue(b: nat)
    requires b < 8
    ensures var m := Mask(b);
            m == 0x80 || m == 0x40 || m == 0x20 || m == 0x10 || m == 0x08 || m == 0x04 || m == 0x02 || m == 0x01
  {}

  lemma SomeBitDiffers(x: octet, y: octet) returns (b: nat)
    requires x != y
    ensures b < 8 && Lit(x, b) != Lit(y, b)
  {
    b := if Lit(x, 0) != Lit(y, 0) then 0 else if Lit(x, 1) != Lit(y, 1) then 1 else if Lit(x, 2) != Lit(y, 2) then 2
         else if Lit(x, 3) != Lit(y, 3) then 3 else if Lit(x, 4) != Lit(y, 4) then 4
         else if Lit(x, 5) != Lit(y, 5) then 5
         else if Lit(x, 6) != Lit(y, 6) then 6 else 7;
  }

  // ---- The bounding box of a diff --------------------------------------------------------------------

  /** The eight bits of one changed byte: columns col0 to col0 + 7. */
  method DiffByte(x: octet, y: octet, col0: int, minX0: int, maxX0: int) returns (minX: int, maxX: int)
    ensures minX <= minX0 && maxX0 <= maxX
    ensures forall b :: 0 <= b < 8 && Lit(x, b) != Lit(y, b) ==> minX <= col0 + b <= maxX
    ensures minX == minX0 || (0 <= minX - col0 < 8 && Lit(x, minX - col0) != Lit(y, minX - col0))
    ensures maxX == maxX0 || (0 <= maxX - col0 < 8 && Lit(x, maxX - col0) != Lit(y, maxX - col0))
  {
    hide Lit, Mask;
    var diff := x ^ y;
    minX, maxX := minX0, maxX0;
    for b := 0 to 8
      invariant minX <= minX0 && maxX0 <= maxX
      invariant forall i :: 0 <= i < b && Lit(x, i) != Lit(y, i) ==> minX <= col0 + i <= maxX
      invariant minX == minX0 || (0 <= minX - col0 < 8 && Lit(x, minX - col0) != Lit(y, minX - col0))
      invariant maxX == maxX0 || (0 <= maxX - col0 < 8 && Lit(x, maxX - col0) != Lit(y, maxX - col0))
    {
      XorBit(x, y, b);
      if Lit(diff, b) {
        if col0 + b < minX { minX := col0 + b; }
        if col0 + b > maxX { maxX := col0 + b; }
      }
    }
  }

  datatype Box = Box(minX: int, minY: int, maxX: int, maxY: int)

  predicate InBox(row: int, col: int, b: Box) { b.minX <= col <= b.maxX && b.minY <= row <= b.maxY }

  /** Every differing bit before byte index `upTo` is in the box, and each side of the box that has
      moved is touched by one. */
  ghost predicate Bounds(a: seq<octet>, b: seq<octet>, w: int, h: int, upTo: int, box: Box) {
    var bw := ByteWidth(w);
    && (forall row, col :: 0 <= row < h && 0 <= col < 8 * bw && row * bw + col / 8 < upTo && Differ(a, b, bw, row, col)
          ==> InBox(row, col, box))
    && (box.minX == w || exists row :: 0 <= row < h && 0 <= box.minX < 8 * bw && Differ(a, b, bw, row, box.minX))
    && (box.maxX == -1 || exists row :: 0 <= row < h && 0 <= box.maxX < 8 * bw && Differ(a, b, bw, row, box.maxX))
    && (box.minY == h || (0 <= box.minY < h && exists col :: 0 <= col < 8 * bw && Differ(a, b, bw, box.minY, col)))
    && (box.maxY == -1 || (0 <= box.maxY < h && exists col :: 0 <= col < 8 * bw && Differ(a, b, bw, box.maxY, col)))
  }

  lemma BitAt(bits: seq<octet>, bw: int, row: int, bc: int, b: nat)
    requires b < 8 && 0 <= row * bw + bc < |bits|
    ensures Bit(bits, bw, row, 8 * bc + b) == Lit(bits[row * bw + bc], b)
  {
    assert (8 * bc + b) / 8 == bc && (8 * bc + b) % 8 == b;
  }

  /** Bit (r, col) lies in byte row * bw + bc only if it is one of that byte's eight. */
  lemma OnlyThisByte(bw: int, row: int, bc: int, r: int, col: int)
    requires 0 <= bc < bw && 0 <= col < 8 * bw && r * bw + col / 8 == row * bw + bc
    ensures r == row && 0 <= col - 8 * bc < 8
  {
    IndexUnique(bw, r, col / 8, row, bc);
  }

  lemma BoundsNone(a: seq<octet>, b: seq<octet>, w: int, h: int)
    requires w >= 0 && h >= 0
    ensures Bounds(a, b, w, h, 0, Box(w, h, -1, -1))
  {
    forall row, col | 0 <= row < h && 0 <= col < 8 * ByteWidth(w)
      ensures row * ByteWidth(w) + col / 8 >= 0
    {
      ByteIndex(row, col / 8, ByteWidth(w), h);
    }
  }

  lemma BoundsSame(a: seq<octet>, b: seq<octet>, w: int, h: int, row: int, bc: int, i: int, box: Box)
    requires 0 <= row < h && 0 <= bc < ByteWidth(w) && i == row * ByteWidth(w) + bc
    requires 0 <= i < |a| && i < |b| && a[i] == b[i] && Bounds(a, b, w, h, i, box)
    ensures Bounds(a, b, w, h, i + 1, box)
  {
    hide Lit;
  }

  /** x and y, the bytes of the two pictures at (row, bc), differ in bit k exactly where the pictures do. */
  lemma ByteDiffer(a: seq<octet>, b: seq<octet>, bw: int, row: int, bc: int, i: int, k: nat)
    requires i == row * bw + bc && 0 <= i < |a| && i < |b| && k < 8
    ensures Differ(a, b, bw, row, 8 * bc + k) <==> Lit(a[i], k) != Lit(b[i], k)
  {
    hide Lit;
    BitAt(a, bw, row, bc, k);
    BitAt(b, bw, row, bc, k);
  }

  /** What DiffByte returns, for the byte at column col0. */
  predicate ByteBox(x: octet, y: octet, col0: int, box: Box, minX: int, maxX: int) {
    && minX <= box.minX && box.maxX <= maxX
    && (forall k :: 0 <= k < 8 && Lit(x, k) != Lit(y, k) ==> minX <= col0 + k <= maxX)
    && (minX == box.minX || (0 <= minX - col0 < 8 && Lit(x, minX - col0) != Lit(y, minX - col0)))
    && (maxX == box.maxX || (0 <= maxX - col0 < 8 && Lit(x, maxX - col0) != Lit(y, maxX - col0)))
  }

  lemma BoundsCover(a: seq<octet>, b: seq<octet>, bw: int, row: int, bc: int, i: int,
        box: Box, minX: int, maxX: int, r: int, col: int)
    requires 0 <= bc < bw && i == row * bw + bc && 0 <= i < |a| && i < |b|
    requires ByteBox(a[i], b[i], 8 * bc, box, minX, maxX)
    requires 0 <= col < 8 * bw && Differ(a, b, bw, r, col) && r * bw + col / 8 == i
    ensures InBox(r, col, Box(minX, Min(box.minY, row), maxX, Max(box.maxY, row)))
  {
    hide Lit, Bit;
    OnlyThisByte(bw, row, bc, r, col);
    ByteDiffer(a, b, bw, row, bc, i, col - 8 * bc);
  }

  lemma BoundsGrowInside(a: seq<octet>, b: seq<octet>, w: int, h: int, row: int, bc: int, i: int,
        box: Box, minX: int, maxX: int)
    requires 0 <= row < h && 0 <= bc < ByteWidth(w) && i == row * ByteWidth(w) + bc
    requires 0 <= i < |a| && i < |b| && a[i] != b[i] && Bounds(a, b, w, h, i, box)
    requires ByteBox(a[i], b[i], 8 * bc, box, minX, maxX)
    ensures var bw := ByteWidth(w); var box' := Box(minX, Min(box.minY, row), maxX, Max(box.maxY, row));
            forall r, col :: 0 <= r < h && 0 <= col < 8 * bw && r * bw + col / 8 < i + 1 && Differ(a, b, bw, r, col)
              ==> InBox(r, col, box')
  {
    hide Lit, Bit, Differ, ByteWidth;
    var bw := ByteWidth(w);
    var box' := Box(minX, Min(box.minY, row), maxX, Max(box.maxY, row));
    forall r, col | 0 <= r < h && 0 <= col < 8 * bw && r * bw + col / 8 < i + 1 && Differ(a, b, bw, r, col)
      ensures InBox(r, col, box')
    {
      if r * bw + col / 8 == i {
        BoundsCover(a, b, bw, row, bc, i, box, minX, maxX, r, col);
      }
    }
  }

  lemma BoundsGrow(a: seq<octet>, b: seq<octet>, w: int, h: int, row: int, bc: int, i: int,
        box: Box, minX: int, maxX: int)
    requires 0 <= row < h && 0 <= bc < ByteWidth(w) && i == row * ByteWidth(w) + bc
    requires 0 <= i < |a| && i < |b| && a[i] != b[i] && Bounds(a, b, w, h, i, box)
    requires ByteBox(a[i], b[i], 8 * bc, box, minX, maxX)
    ensures Bounds(a, b, w, h, i + 1, Box(minX, Min(box.minY, row), maxX, Max(box.maxY, row)))
  {
    hide Lit, Bit, Differ, ByteWidth;
    var bw := ByteWidth(w);
    var box' := Box(minX, Min(box.minY, row), maxX, Max(box.maxY, row));
    BoundsGrowInside(a, b, w, h, row, bc, i, box, minX, maxX);
    var col := BoundsGrowSides(a, b, bw, row, bc, i, box, minX, maxX);
    hide ByteBox;
  }

  /** A changed byte has a differing column in its row, and each side it moves is at one. */
  lemma BoundsGrowSides(a: seq<octet>, b: seq<octet>, bw: int, row: int, bc: int, i: int,
        box: Box, minX: int, maxX: int)
    returns (col: int)
    requires 0 <= bc < bw && i == row * bw + bc && 0 <= i < |a| && i < |b| && a[i] != b[i]
    requires ByteBox(a[i], b[i], 8 * bc, box, minX, maxX)
    ensures 0 <= col < 8 * bw && Differ(a, b, bw, row, col)
    ensures minX == box.minX || (0 <= minX < 8 * bw && Differ(a, b, bw, row, minX))
    ensures maxX == box.maxX || (0 <= maxX < 8 * bw && Differ(a, b, bw, row, maxX))
  {
    hide Lit, Bit, Differ;
    var k := SomeBitDiffers(a[i], b[i]);
    col := 8 * bc + k;
    ByteDiffer(a, b, bw, row, bc, i, k);
    if minX != box.minX { ByteDiffer(a, b, bw, row, bc, i, minX - 8 * bc); }
    if maxX != box.maxX { ByteDiffer(a, b, bw, row, bc, i, maxX - 8 * bc); }
  }

  /** A back buffer brought up to date as far as octet i. */
  function Updated(back: seq<octet>, bits: seq<octet>, i: int): (r: seq<octet>)
    requires 0 <= i <= |bits| && |bits| <= |back|
    ensures |r| == |back|
  {
    bits[..i] + back[i..]
  }

  lemma UpdatedStep(back: seq<octet>, bits: seq<octet>, i: int)
    requires 0 <= i < |bits| && |bits| <= |back|
    ensures Updated(back, bits, i)[i] == back[i]
    ensures Updated(back, bits, i)[i := bits[i]] == Updated(back, bits, i + 1)
  {}

  lemma UpdatedEnds(back: seq<octet>, bits: seq<octet>)
    requires |bits| <= |back|
    ensures Updated(back, bits, 0) == back && Updated(back, bits, |bits|) == Refill(back, bits)
  {}

  // ---- Folding colour-dirty rectangles into the box -----------------------------------------------------------

  lemma I16Exact(v: int)
    requires -0x8000 <= v < 0x8000
    ensures I16(v) == v
  {}

  /** The part of a inside the region, in the region's own coordinates, lies in the box. */
  predicate Holds(box: Box, a: Rect, r: Rect) {
    var q := Clip(a, r);
    box.minX <= q.x - r.x && q.x + q.w - r.x <= box.maxX + 1 && box.minY <= q.y - r.y && q.y + q.h - r.y <= box.maxY + 1
  }

  /** The least box holding box and the part of a inside the region. */
  function Folded(box: Box, a: Rect, r: Rect): (b: Box)
    ensures Holds(b, a, r)
  {
    var q := Clip(a, r);
    Box(Min(box.minX, q.x - r.x), Min(box.minY, q.y - r.y),
        Max(box.maxX, q.x + q.w - r.x - 1), Max(box.maxY, q.y + q.h - r.y - 1))
  }

  predicate Within(a: Box, b: Box) { b.minX <= a.minX && a.maxX <= b.maxX && b.minY <= a.minY && a.maxY <= b.maxY }

  /** Folding gives the least such box. */
  lemma FoldedLeast(box: Box, a: Rect, r: Rect, b: Box)
    requires Within(box, b) && Holds(b, a, r)
    ensures Within(Folded(box, a, r), b)
  {}

  /** The box after folding every queued rectangle that meets the region: the least one that
      holds the given box and all of their parts. */
  ghost predicate FoldedAll(dirty: seq<Rect>, r: Rect, box0: Box, box: Box) {
    && Within(box0, box)
    && HoldsAll(box, dirty, r)
    && (forall b: Box :: Within(box0, b) && HoldsAll(b, dirty, r) ==> Within(box, b))
  }

  /** The fold loop before position i of the queue `now`, which was `dirty` at the start. */
  ghost predicate Folding(dirty: seq<Rect>, now: seq<Rect>, i: nat, r: Rect, box0: Box, box: Box) {
    && i <= |now| <= |dirty|
    && (forall a: Rect :: a in now ==> a in dirty)
    && (forall a: Rect :: a in dirty && !Touches(a, r) ==> a in now)
    && (forall a: Rect :: a in now[..i] ==> !Touches(a, r))
    && (forall a: Rect :: a in dirty && Touches(a, r) ==> a in now[i..] || Holds(box, a, r))
    && Within(box0, box)
    && (forall b: Box :: Within(box0, b) && HoldsAll(b, dirty, r) ==> Within(box, b))
  }

  ghost predicate HoldsAll(b: Box, dirty: seq<Rect>, r: Rect) {
    forall a: Rect :: a in dirty && Touches(a, r) ==> Holds(b, a, r)
  }

  lemma FoldSkip(dirty: seq<Rect>, now: seq<Rect>, i: nat, r: Rect, box0: Box, box: Box)
    requires Folding(dirty, now, i, r, box0, box) && i < |now| && !Touches(now[i], r)
    ensures Folding(dirty, now, i + 1, r, box0, box)
  {
    hide Touches, Holds, Within;
    assert now[i..] == [now[i]] + now[i + 1..];
    assert now[..i + 1] == now[..i] + [now[i]];
  }

  /** Removing element i by moving the last one into its place. */
  function SwapRemove<T>(s: seq<T>, i: nat): (t: seq<T>)
    requires i < |s|
    ensures |t| == |s| - 1
  {
    s[i := s[|s| - 1]][..|s| - 1]
  }

  lemma SwapRemoveHas<T>(s: seq<T>, i: nat, a: T)
    requires i < |s|
    ensures a in SwapRemove(s, i) ==> a in s
    ensures a in s ==> a in SwapRemove(s, i) || a == s[i]
    ensures a in s[i..] ==> a in SwapRemove(s, i)[i..] || a == s[i]
    ensures SwapRemove(s, i)[..i] == s[..i]
  {
    var t := SwapRemove(s, i);
    if a in s && a != s[i] {
      var j :| 0 <= j < |s| && s[j] == a;
      assert t[if j == |s| - 1 then i else j] == a;
    }
    if a in s[i..] && a != s[i] {
      var j :| i <= j < |s| && s[j] == a;
      var k := if j == |s| - 1 then i else j;
      assert t[i..][k - i] == a;
    }
  }

  lemma FoldTake(dirty: seq<Rect>, now: seq<Rect>, i: nat, r: Rect, box0: Box, box: Box)
    requires Folding(dirty, now, i, r, box0, box) && i < |now| && Touches(now[i], r)
    ensures Folding(dirty, SwapRemove(now, i), i, r, box0, Folded(box, now[i], r))
  {
    hide Touches, SwapRemove, Clip;
    var now', box' := SwapRemove(now, i), Folded(box, now[i], r);
    forall a: Rect
      ensures a in now' ==> a in now
      ensures a in now ==> a in now' || a == now[i]
      ensures a in now[i..] ==> a in now'[i..] || a == now[i]
    {
      SwapRemoveHas(now, i, a);
    }
    SwapRemoveHas(now, i, now[i]);
    forall b: Box | Within(box0, b) && HoldsAll(b, dirty, r)
      ensures Within(box', b)
    {
      assert now[i] in dirty;
      FoldedLeast(box, now[i], r, b);
    }
  }

  lemma SwapRemoveIs<T>(s: seq<T>, i: nat)
    requires i < |s|
    ensures SwapRemove(s, i) == s[i := s[|s| - 1]][..|s| - 1]
  {}

  lemma FoldStart(dirty: seq<Rect>, r: Rect, box0: Box)
    ensures Folding(dirty, dirty, 0, r, box0, box0)
  {
    assert dirty[0..] == dirty;
  }

  lemma FoldEnd(dirty: seq<Rect>, now: seq<Rect>, r: Rect, box0: Box, box: Box)
    requires Folding(dirty, now, |now|, r, box0, box)
    ensures DirtyAfter(dirty, r, now) && FoldedAll(dirty, r, box0, box)
  {
    assert now[..|now|] == now && now[|now|..] == [];
  }

  lemma TouchesClip(a: Rect, r: Rect)
    ensures var q := Clip(a, r); Touches(a, r) <==> q.x - r.x < q.x + q.w - r.x && q.y - r.y < q.y + q.h - r.y
  {}

  lemma FoldedBox(box: Box, a: Rect, r: Rect)
    ensures var q := Clip(a, r);
            Folded(box, a, r) == Box(Min(box.minX, q.x - r.x), Min(box.minY, q.y - r.y),
                                     Max(box.maxX, q.x + q.w - r.x - 1), Max(box.maxY, q.y + q.h - r.y - 1))
  {}

  /** Coordinates for which the source's 16-bit variables are exact. */
  predicate OnPanel(r: Rect) {
    0 <= r.x && 0 <= r.y && 0 <= r.w && 0 <= r.h && r.x + r.w <= 0x2000 && r.y + r.h <= 0x2000
  }

  /** The window, in panel coordinates, of a box of the region. */
  function WindowOf(r: Rect, b: Box): Rect
    { Rect(r.x + b.minX, r.y + b.minY, b.maxX - b.minX + 1, b.maxY - b.minY + 1) }

  /** Position, in the stream of pixels sent for a window of width w, of pixel (row, col) of the window. */
  function StreamIndex(w: int, row: int, col: int): int { row * w + col }

  /** The first `rows` rows of the box are in the push buffer, as big-endian pixels. */
  ghost predicate Packed(buf: seq<Colour>, c: Picture, stride: int, tint: Tint, box: Box, rows: int) {
    RowsOf(buf, c, stride, tint, box, box.maxX - box.minX + 1, rows)
  }

  ghost predicate RowsOf(buf: seq<Colour>, c: Picture, stride: int, tint: Tint, box: Box, w: int, rows: int) {
    forall r, j :: 0 <= r < rows && 0 <= j < w ==>
      && 0 <= StreamIndex(w, r, j) < |buf|
      && buf[StreamIndex(w, r, j)]
         == Swap16(ShowsAt(c, stride, tint, (c.rect.x + box.minX + j, c.rect.y + box.minY + r)))
  }

  lemma PackedNone(buf: seq<Colour>, c: Picture, stride: int, tint: Tint, box: Box)
    ensures Packed(buf, c, stride, tint, box, 0)
  {}

  lemma PackedRow(buf: seq<Colour>, buf': seq<Colour>,
        c: Picture, stride: int, tint: Tint, box: Box, rows: int, pb: int)
    requires Packed(buf, c, stride, tint, box, rows) && rows >= 0 && |buf| == |buf'|
    requires var w := box.maxX - box.minX + 1; w > 0 && pb == rows * w && 0 <= pb && pb + w <= |buf|
    requires forall i :: 0 <= i < pb ==> buf'[i] == buf[i]
    requires forall i :: pb <= i <= pb + box.maxX - box.minX ==>
      buf'[i] == Swap16(ShowsAt(c, stride, tint, (c.rect.x + box.minX + (i - pb), c.rect.y + (box.minY + rows))))
    ensures Packed(buf', c, stride, tint, box, rows + 1)
  {
    hide Swap16, ShowsAt;
    var w := box.maxX - box.minX + 1;
    hide StreamIndex;
    assert RowsOf(buf, c, stride, tint, box, w, rows);
    forall r, j | 0 <= r < rows + 1 && 0 <= j < w
      ensures 0 <= StreamIndex(w, r, j) < |buf'|
      ensures buf'[StreamIndex(w, r, j)]
         == Swap16(ShowsAt(c, stride, tint, (c.rect.x + box.minX + j, c.rect.y + box.minY + r)))
    {
      if r < rows {
        assert 0 <= StreamIndex(w, r, j) < |buf|;
        RowIndex(w, rows, r, j);
      } else {
        RowIndex(w, rows, rows, j);
      }
    }
  }

  lemma RowIndex(w: int, rows: int, r: int, j: int)
    requires 0 <= j < w && 0 <= r <= rows
    ensures r < rows ==> 0 <= StreamIndex(w, r, j) < rows * w
    ensures r == rows ==> StreamIndex(w, r, j) == rows * w + j
  {
    if r < rows {
      MulStep(r, rows, w);
      MulMono(0, r, w);
    }
  }

  /** The source buffer reaches every byte of every row. */
  ghost predicate Reaches(c: Picture, stride: int) {
    forall row, q :: 0 <= row < c.rect.h && 0 <= q < ByteWidth(c.rect.w) ==> 0 <= StreamIndex(stride, row, q) < |c.bits|
  }

  lemma WindowFits(r: Rect, b: Box)
    requires 0 <= b.minX <= b.maxX < r.w && 0 <= b.minY <= b.maxY < r.h
    ensures (b.maxX - b.minX + 1) * (b.maxY - b.minY + 1) <= r.w * r.h
  {
    MulMono(b.maxX - b.minX + 1, r.w, b.maxY - b.minY + 1);
    MulMono(b.maxY - b.minY + 1, r.h, r.w);
  }

  /** A pixel of a packed window reads back, past both byte swaps, as a full push would show it. */
  lemma PackedShows(buf: seq<Colour>, c: Picture, stride: int, tint: Tint, box: Box, p: Point, v: Colour)
    requires In(p, WindowOf(c.rect, box)) && Packed(buf, c, stride, tint, box, box.maxY - box.minY + 1)
    requires var win := WindowOf(c.rect, box);
             var i := StreamIndex(win.w, p.1 - win.y, p.0 - win.x);
             0 <= i < |buf| && v == Swap16(buf[i])
    ensures v == ShowsAt(c, stride, tint, p)
  {
    hide Swap16, ShowsAt, StreamIndex;
    SwapTwice(ShowsAt(c, stride, tint, p));
    assert p == (p.0, p.1);
    var win := WindowOf(c.rect, box);
    var j, r := p.0 - win.x, p.1 - win.y;
    assert buf[StreamIndex(win.w, r, j)]
        == Swap16(ShowsAt(c, stride, tint, (c.rect.x + box.minX + j, c.rect.y + box.minY + r)));
  }

  /** What a bitmap pushed whole leaves on the panel. */
  lemma PushedPainted(c: Picture, stride: int, tint: Tint)
    requires Reaches(c, stride)
    ensures forall before, panel ::
              Pushed(before, c, stride, tint, c.rect, panel) ==> PaintedAll(c, stride, tint, panel)
  {
    hide ShowsAt, Rendered;
    forall before, panel, row, col |
      Pushed(before, c, stride, tint, c.rect, panel) && 0 <= row < c.rect.h && 0 <= col < c.rect.w
      ensures Painted(c, stride, tint, row, col, panel)
    {
      assert 0 <= StreamIndex(stride, row, col / 8) < |c.bits|;
      ShowsRendered(c, stride, tint, row, col);
      assert In((c.rect.x + col, c.rect.y + row), c.rect);
    }
  }

  /** A bitmap the cache takes fits a push buffer of eight pixels for each cached byte: 960 bytes and
      80 by 96 pixels on the T096. */
  lemma CachedFits(w: int, h: int, cacheBytes: nat)
    requires w >= 0 && h >= 0 && ByteWidth(w) * h <= cacheBytes
    ensures w * h <= 8 * cacheBytes
  {
    var bw := ByteWidth(w);
    MulMono(w, 8 * bw, h);
    assert 8 * bw * h == 8 * (bw * h);
  }

  // ---- From boxes to windows -------------------------------------------------------------------------------

  /** The box before folding: the whole region on a miss, the clamped box of the diff on a hit. */
  ghost predicate StartBox(s: State, c: Picture, box0: Box) {
    var k := Find(s.slots, c);
    if k == |s.slots| then box0 == Box(0, 0, c.rect.w - 1, c.rect.h - 1)
    else exists u: Box :: Bounds(s.slots[k].bits, c.bits, c.rect.w, c.rect.h, |c.bits|, u)
                       && box0 == u.(maxX := Min(u.maxX, c.rect.w - 1))
  }

  lemma StartMiss(s: State, c: Picture)
    ensures !Hit(s, c) ==> StartBox(s, c, Box(0, 0, c.rect.w - 1, c.rect.h - 1))
  {}

  lemma StartHit(s: State, c: Picture, u: Box)
    requires Hit(s, c) && Bounds(s.slots[Find(s.slots, c)].bits, c.bits, c.rect.w, c.rect.h, |c.bits|, u)
    ensures StartBox(s, c, u.(maxX := Min(u.maxX, c.rect.w - 1)))
  {}

  lemma SlotsAfterHit(s: State, c: Picture)
    requires Shaped(s) && Hit(s, c)
    ensures var k := Find(s.slots, c);
            SlotsAfter(s, c) == s.slots[k := s.slots[k].(bits := Refill(s.slots[k].bits, c.bits))]
  {}

  lemma DrawableReaches(c: Picture)
    requires Drawable(c)
    ensures Reaches(c, ByteWidth(c.rect.w))
  {
    forall row, q | 0 <= row < c.rect.h && 0 <= q < ByteWidth(c.rect.w)
      ensures 0 <= StreamIndex(ByteWidth(c.rect.w), row, q) < |c.bits|
    {
      ByteIndex(row, q, ByteWidth(c.rect.w), c.rect.h);
    }
  }

  lemma PushedNothing(panel: map<Point, Colour>, c: Picture, stride: int, tint: Tint, win: Rect)
    requires Empty(win)
    ensures Pushed(panel, c, stride, tint, win, panel)
  {}

  lemma StartBounds(s: State, c: Picture, box0: Box)
    requires Drawable(c) && StartBox(s, c, box0)
    ensures 0 <= box0.minX && 0 <= box0.minY && box0.maxX < c.rect.w && box0.maxY < c.rect.h
  {
    hide Differ, Find;
  }

  /** The first box holds every changed pixel. */
  lemma StartRight(s: State, c: Picture, box0: Box, p: Point)
    requires Drawable(c) && StartBox(s, c, box0) && In(p, c.rect)
    requires !Hit(s, c) || PixelLit(s.slots[Find(s.slots, c)], p) != PixelLit(c, p)
    ensures InBox(p.1 - c.rect.y, p.0 - c.rect.x, box0)
  {
    hide Bit, Find;
    if Hit(s, c) {
      var bw, row, col := ByteWidth(c.rect.w), p.1 - c.rect.y, p.0 - c.rect.x;
      ByteIndex(row, col / 8, bw, c.rect.h);
      assert s.slots[Find(s.slots, c)].rect == c.rect;
      assert Differ(s.slots[Find(s.slots, c)].bits, c.bits, bw, row, col);
    }
  }

  lemma HoldsIn(box: Box, a: Rect, r: Rect, p: Point)
    requires Holds(box, a, r) && In(p, a) && In(p, r)
    ensures InBox(p.1 - r.y, p.0 - r.x, box)
  {}

  lemma InWindow(r: Rect, box: Box, p: Point)
    ensures In(p, WindowOf(r, box)) <==> InBox(p.1 - r.y, p.0 - r.x, box)
  {}

  lemma HoldsRegion(a: Rect, r: Rect)
    requires Touches(a, r)
    ensures Holds(Box(0, 0, r.w - 1, r.h - 1), a, r)
  {}

  /** The window sent lies in the region and holds every pixel that must be sent. */
  lemma WindowRight(s: State, c: Picture, box0: Box, box: Box)
    requires Drawable(c) && StartBox(s, c, box0) && FoldedAll(s.dirty, c.rect, box0, box)
    ensures 0 <= box.minX && 0 <= box.minY && box.maxX < c.rect.w && box.maxY < c.rect.h
    ensures box.maxY < 0 ==> Empty(WindowOf(c.rect, box))
    ensures forall p: Point :: In(p, WindowOf(c.rect, box)) ==> In(p, c.rect)
    ensures forall p: Point :: In(p, c.rect) && Needed(s, c, p) ==> In(p, WindowOf(c.rect, box))
  {
    hide StartBox, Find, PixelLit, Holds, Touches;
    var r := c.rect;
    StartBounds(s, c, box0);
    var all := Box(0, 0, r.w - 1, r.h - 1);
    forall a: Rect | a in s.dirty && Touches(a, r) ensures Holds(BoxJoin(box0, all), a, r) {
      HoldsRegion(a, r);
      HoldsJoin(box0, all, a, r);
    }
    assert Within(box0, BoxJoin(box0, all));
    assert Within(box, BoxJoin(box0, all));
    forall p: Point | In(p, r) && Needed(s, c, p) ensures In(p, WindowOf(r, box)) {
      InWindow(r, box, p);
      if !Hit(s, c) || PixelLit(s.slots[Find(s.slots, c)], p) != PixelLit(c, p) {
        StartRight(s, c, box0, p);
      } else if i :| 0 <= i < |s.dirty| && Touches(s.dirty[i], r) && In(p, s.dirty[i]) {
        assert s.dirty[i] in s.dirty;
        HoldsIn(box, s.dirty[i], r, p);
      }
    }
  }

  function BoxJoin(a: Box, b: Box): Box {
    Box(Min(a.minX, b.minX), Min(a.minY, b.minY), Max(a.maxX, b.maxX), Max(a.maxY, b.maxY))
  }

  lemma HoldsJoin(a: Box, b: Box, q: Rect, r: Rect)
    requires Holds(b, q, r)
    ensures Holds(BoxJoin(a, b), q, r)
  {}

  // ---- The window is no larger than it must be ------------------------------------------------------------------

  /** The pad bits of two pictures agree. */
  ghost predicate PadsAgree(a: seq<octet>, b: seq<octet>, w: int, h: int) {
    forall row, col :: 0 <= row < h && w <= col < 8 * ByteWidth(w) ==> !Differ(a, b, ByteWidth(w), row, col)
  }

  /** Every rectangle that holds all pixels of the region that must be sent holds the whole window. */
  ghost predicate Least(s: State, c: Picture, win: Rect) {
    Hit(s, c) && PadsAgree(s.slots[Find(s.slots, c)].bits, c.bits, c.rect.w, c.rect.h) ==>
      forall q: Rect :: HoldsNeeded(s, c, q) ==> forall p: Point :: In(p, win) ==> In(p, q)
  }

  ghost predicate HoldsNeeded(s: State, c: Picture, q: Rect) {
    forall p: Point :: In(p, c.rect) && Needed(s, c, p) ==> In(p, q)
  }

  /** A rectangle of the panel as a box of the region. */
  function BoxOf(q: Rect, r: Rect): Box {
    var t := Clip(q, r);
    Box(t.x - r.x, t.y - r.y, t.x + t.w - r.x - 1, t.y + t.h - r.y - 1)
  }

  lemma ChangedNeeded(s: State, c: Picture, p: Point)
    requires Hit(s, c) && PixelLit(s.slots[Find(s.slots, c)], p) != PixelLit(c, p)
    ensures Needed(s, c, p)
  {}

  lemma BoxOfHolds(q: Rect, r: Rect, p: Point)
    requires In(p, q) && In(p, r)
    ensures InBox(p.1 - r.y, p.0 - r.x, BoxOf(q, r))
  {}

  /** A changed bit is a pixel that must be sent, if pad bits agree. */
  lemma ChangedInside(s: State, c: Picture, q: Rect, row: int, col: int)
    requires Hit(s, c) && HoldsNeeded(s, c, q)
    requires PadsAgree(s.slots[Find(s.slots, c)].bits, c.bits, c.rect.w, c.rect.h)
    requires 0 <= row < c.rect.h && 0 <= col < 8 * ByteWidth(c.rect.w)
    requires Differ(s.slots[Find(s.slots, c)].bits, c.bits, ByteWidth(c.rect.w), row, col)
    ensures col < c.rect.w && InBox(row, col, BoxOf(q, c.rect))
  {
    hide Find, ByteWidth, BoxOf, Needed, Differ, PixelLit, PadsAgree;
    var o := s.slots[Find(s.slots, c)];
    PadsColumn(o.bits, c.bits, c.rect.w, c.rect.h, row, col);
    var p: Point := (c.rect.x + col, c.rect.y + row);
    DifferPixel(o, c, row, col);
    ChangedNeeded(s, c, p);
    BoxOfHolds(q, c.rect, p);
  }

  lemma PadsColumn(a: seq<octet>, b: seq<octet>, w: int, h: int, row: int, col: int)
    requires PadsAgree(a, b, w, h) && 0 <= row < h && 0 <= col < 8 * ByteWidth(w)
      && Differ(a, b, ByteWidth(w), row, col)
    ensures col < w
  {
    hide ByteWidth, Differ;
  }

  lemma DifferPixel(o: Picture, c: Picture, row: int, col: int)
    requires o.rect == c.rect && Differ(o.bits, c.bits, ByteWidth(c.rect.w), row, col)
    ensures PixelLit(o, (c.rect.x + col, c.rect.y + row)) != PixelLit(c, (c.rect.x + col, c.rect.y + row))
  {
    hide Bit, ByteWidth;
  }

  /** If all changed bits lie in b, so does the box around them. */
  lemma BoundsInside(x: seq<octet>, y: seq<octet>, w: int, h: int, u: Box, b: Box)
    requires Bounds(x, y, w, h, ByteWidth(w) * h, u)
    requires forall row, col :: 0 <= row < h && 0 <= col < 8 * ByteWidth(w) && Differ(x, y, ByteWidth(w), row, col) ==>
      col < w && InBox(row, col, b)
    ensures u == Box(w, h, -1, -1) || (Within(u, b) && u.maxX < w)
  {
    hide Differ;
    var bw := ByteWidth(w);
    forall row, col | 0 <= row < h && 0 <= col < 8 * bw && Differ(x, y, bw, row, col)
      ensures InBox(row, col, u)
    {
      ByteIndex(row, col / 8, bw, h);
    }
  }

  /** Each side of the first box that has moved is at a changed pixel, if pad bits agree. */
  lemma StartLeast(s: State, c: Picture, box0: Box, q: Rect)
    requires Hit(s, c) && Drawable(c) && StartBox(s, c, box0) && HoldsNeeded(s, c, q)
    requires PadsAgree(s.slots[Find(s.slots, c)].bits, c.bits, c.rect.w, c.rect.h)
    ensures box0 == Box(c.rect.w, c.rect.h, -1, -1) || Within(box0, BoxOf(q, c.rect))
  {
    hide Differ, Find, StartBox, PadsAgree, HoldsNeeded, BoxOf, ByteWidth, Bounds;
    var back := s.slots[Find(s.slots, c)].bits;
    var u := StartFrom(s, c, box0);
    forall row, col | 0 <= row < c.rect.h && 0 <= col < 8 * ByteWidth(c.rect.w)
                      && Differ(back, c.bits, ByteWidth(c.rect.w), row, col)
      ensures col < c.rect.w && InBox(row, col, BoxOf(q, c.rect))
    {
      ChangedInside(s, c, q, row, col);
    }
    BoundsInside(back, c.bits, c.rect.w, c.rect.h, u, BoxOf(q, c.rect));
  }

  lemma StartFrom(s: State, c: Picture, box0: Box) returns (u: Box)
    requires Hit(s, c) && StartBox(s, c, box0)
    ensures Bounds(s.slots[Find(s.slots, c)].bits, c.bits, c.rect.w, c.rect.h, |c.bits|, u)
    ensures box0 == u.(maxX := Min(u.maxX, c.rect.w - 1))
  {
    hide Bounds;
    u :| Bounds(s.slots[Find(s.slots, c)].bits, c.bits, c.rect.w, c.rect.h, |c.bits|, u)
         && box0 == u.(maxX := Min(u.maxX, c.rect.w - 1));
  }

  lemma CornersIn(a: Rect, r: Rect, q: Rect)
    requires Touches(a, r) && forall p: Point :: In(p, a) && In(p, r) ==> In(p, q)
    ensures Holds(BoxOf(q, r), a, r)
  {
    var t := Clip(a, r);
    assert In((t.x, t.y), q) && In((t.x + t.w - 1, t.y + t.h - 1), q);
  }

  /** When pad bits agree the window sent is the least one. */
  lemma WindowLeast(s: State, c: Picture, box0: Box, box: Box)
    requires Hit(s, c) && Drawable(c) && StartBox(s, c, box0) && FoldedAll(s.dirty, c.rect, box0, box)
    ensures Least(s, c, WindowOf(c.rect, box))
  {
    hide StartBox, Find, Holds, Touches, PixelLit, PadsAgree, BoxOf;
    var r := c.rect;
    if PadsAgree(s.slots[Find(s.slots, c)].bits, c.bits, r.w, r.h) {
      forall q: Rect, p: Point | HoldsNeeded(s, c, q) && In(p, WindowOf(r, box))
        ensures In(p, q)
      {
        InWindow(r, box, p);
        StartLeast(s, c, box0, q);
        forall a: Rect | a in s.dirty && Touches(a, r)
          ensures Holds(BoxOf(q, r), a, r) && !Empty(Clip(q, r))
        {
          NeededCorners(s, c, a, q);
        }
        FoldedInside(s.dirty, r, box0, box, q);
        BoxOfIn(q, r, p);
      }
    }
  }

  lemma NeededCorners(s: State, c: Picture, a: Rect, q: Rect)
    requires a in s.dirty && Touches(a, c.rect) && HoldsNeeded(s, c, q)
    ensures Holds(BoxOf(q, c.rect), a, c.rect) && !Empty(Clip(q, c.rect))
  {
    hide Find, PixelLit;
    var i :| 0 <= i < |s.dirty| && s.dirty[i] == a;
    forall p: Point | In(p, a) && In(p, c.rect) ensures In(p, q) {
      assert Needed(s, c, p);
    }
    CornersIn(a, c.rect, q);
  }

  /** The folded box stays inside a box that holds the first one, if it had moved, and every part folded. */
  lemma FoldedInside(dirty: seq<Rect>, r: Rect, box0: Box, box: Box, q: Rect)
    requires FoldedAll(dirty, r, box0, box) && r.w >= 0 && r.h >= 0
    requires box0 == Box(r.w, r.h, -1, -1) || Within(box0, BoxOf(q, r))
    requires forall a: Rect :: a in dirty && Touches(a, r) ==> Holds(BoxOf(q, r), a, r) && !Empty(Clip(q, r))
    ensures box == Box(r.w, r.h, -1, -1) || Within(box, BoxOf(q, r))
  {
    hide Holds, Touches;
    if box0 == Box(r.w, r.h, -1, -1) {
      if a :| a in dirty && Touches(a, r) {
        assert Within(box0, BoxOf(q, r));
      } else {
        assert HoldsAll(box0, dirty, r);
      }
    }
  }

  lemma BoxOfIn(q: Rect, r: Rect, p: Point)
    ensures InBox(p.1 - r.y, p.0 - r.x, BoxOf(q, r)) ==> In(p, q)
  {}

  // ---- The display ----------------------------------------------------------------------------------------

  class Display {
    const maxW: nat         // widest bitmap the cache takes
    const cacheBytes: nat   // REGION_CACHE_BYTES
    const cache: array<Picture>
    var next: nat
    const cdirty: array<Rect>
    var cdirtyCount: nat
    const pushbuf: array<Colour>
    var panel: map<Point, Colour>

    ghost predicate Valid()
      reads this, cache, cdirty
    {
      && cache.Length == SLOTS && next < SLOTS && cdirty.Length == CDIRTY && cdirtyCount <= CDIRTY
      && (forall k :: 0 <= k < SLOTS ==> |cache[k].bits| == cacheBytes)
      && (forall k :: 0 <= k < cdirtyCount ==> Small(cdirty[k]))
    }

    ghost function View(): State
      requires Valid()
      reads this, cache, cdirty
    {
      State(cache[..], next, cdirty[..cdirtyCount], panel)
    }

    /** The empty cache and queue that the firmware starts from: true to any panel, in any colours. */
    constructor (maxW: nat, cacheBytes: nat, pushLength: nat)
      ensures Valid() && this.maxW == maxW && this.cacheBytes == cacheBytes && pushbuf.Length == pushLength
      ensures (forall k :: 0 <= k < SLOTS ==> !InUse(cache[k])) && next == 0 && cdirtyCount == 0
      ensures forall tint :: Consistent(View(), tint)
      ensures fresh(cache) && fresh(cdirty) && fresh(pushbuf)
    {
      this.maxW, this.cacheBytes := maxW, cacheBytes;
      cache := new Picture[SLOTS](_ => Picture(Rect(-1, -1, 0, 0), 0, 0, seq(cacheBytes, _ => 0)));
      cdirty := new Rect[CDIRTY](_ => Rect(0, 0, 0, 0));
      pushbuf := new Colour[pushLength](_ => 0);
      next, cdirtyCount, panel := 0, 0, map[];
    }

    /** One byte of the diff. */
    method DiffOne(k: nat, c: Picture, ghost back: seq<octet>,
        row: int, bc: int, idx: int, box0: Box) returns (box: Box)
      requires k < cache.Length && 0 <= row < c.rect.h && 0 <= bc < ByteWidth(c.rect.w)
      requires idx == row * ByteWidth(c.rect.w) + bc && 0 <= idx < |c.bits| && |c.bits| <= |back|
      requires cache[k].bits == Updated(back, c.bits, idx)
      requires Bounds(back, c.bits, c.rect.w, c.rect.h, idx, box0)
      modifies cache
      ensures cache[..] == old(cache[..])[k := old(cache[k]).(bits := Updated(back, c.bits, idx + 1))]
      ensures Bounds(back, c.bits, c.rect.w, c.rect.h, idx + 1, box)
    {
      hide Bounds, Lit, Updated, ByteWidth;
      box := box0;
      UpdatedStep(back, c.bits, idx);
      var v, o := c.bits[idx], cache[k].bits[idx];
      if v != o {
        var minX, maxX := DiffByte(o, v, 8 * bc, box.minX, box.maxX);
        BoundsGrow(back, c.bits, c.rect.w, c.rect.h, row, bc, idx, box, minX, maxX);
        var minY := if row < box.minY then row else box.minY;
        var maxY := if row > box.maxY then row else box.maxY;
        box := Box(minX, minY, maxX, maxY);
        cache[k] := cache[k].(bits := cache[k].bits[idx := v]);
      } else {
        BoundsSame(back, c.bits, c.rect.w, c.rect.h, row, bc, idx, box);
        assert cache[k].bits[idx := v] == cache[k].bits;
      }
    }

    /** One row of the diff; idx0 is the index of its first byte. */
    method DiffRow(k: nat, c: Picture, ghost back: seq<octet>, row: int, idx0: int, box0: Box) returns (box: Box)
      requires k < cache.Length && 0 <= row < c.rect.h && 0 <= ByteWidth(c.rect.w)
      requires idx0 == row * ByteWidth(c.rect.w) && 0 <= idx0 <= idx0 + ByteWidth(c.rect.w) <= |c.bits| <= |back|
      requires cache[k].bits == Updated(back, c.bits, idx0)
      requires Bounds(back, c.bits, c.rect.w, c.rect.h, idx0, box0)
      modifies cache
      ensures cache[..] == old(cache[..])
        [k := old(cache[k]).(bits := Updated(back, c.bits, idx0 + ByteWidth(c.rect.w)))]
      ensures Bounds(back, c.bits, c.rect.w, c.rect.h, idx0 + ByteWidth(c.rect.w), box)
    {
      hide Bounds, Updated, ByteWidth;
      box := box0;
      var byteWidth := ByteWidth(c.rect.w);
      ghost var was := cache[..];
      for bc := 0 to byteWidth
        invariant cache[..] == was[k := was[k].(bits := Updated(back, c.bits, idx0 + bc))]
        invariant Bounds(back, c.bits, c.rect.w, c.rect.h, idx0 + bc, box)
      {
        box := DiffOne(k, c, back, row, bc, idx0 + bc, box);
      }
    }

    /** The diff loops of a cache hit: the box of changed bits, and the back buffer brought up to date. */
    method Diff(k: nat, c: Picture) returns (box: Box)
      requires Valid() && k < SLOTS && Drawable(c) && |c.bits| <= cacheBytes
      modifies cache
      ensures Valid() && cache[..] == old(cache[..])[k := old(cache[k]).(bits := Refill(old(cache[k].bits), c.bits))]
      ensures Bounds(old(cache[k].bits), c.bits, c.rect.w, c.rect.h, |c.bits|, box)
    {
      hide Bounds, Updated, Refill;
      var w, h := c.rect.w, c.rect.h;
      var byteWidth := ByteWidth(w);
      ghost var was := cache[..];
      ghost var back := was[k].bits;
      box := Box(w, h, -1, -1);
      BoundsNone(back, c.bits, w, h);
      UpdatedEnds(back, c.bits);
      var idx := 0;
      for row := 0 to h
        invariant idx == row * byteWidth && 0 <= idx <= |c.bits|
        invariant cache[..] == was[k := was[k].(bits := Updated(back, c.bits, idx))]
        invariant Bounds(back, c.bits, w, h, idx, box)
      {
        MulStep(row, row + 1, byteWidth);
        MulMono(row + 1, h, byteWidth);
        box := DiffRow(k, c, back, row, idx, box);
        idx := idx + byteWidth;
      }
    }

    /** colour_mark_dirty. */
    method MarkDirty(r: Rect)
      requires Valid() && Small(r)
      modifies cdirty, this`cdirtyCount
      ensures Valid() && cdirty[..cdirtyCount] == Marked(old(cdirty[..cdirtyCount]), r)
    {
      hide I16;
      if cdirtyCount < CDIRTY {
        cdirty[cdirtyCount] := r;
        cdirtyCount := cdirtyCount + 1;
      } else {
        var q := cdirty[CDIRTY - 1];
        I16Exact(q.x + q.w);
        I16Exact(r.x + r.w);
        I16Exact(q.y + q.h);
        I16Exact(r.y + r.h);
        var x1 := I16(q.x + q.w);
        if r.x + r.w > x1 { x1 := I16(r.x + r.w); }
        var y1 := I16(q.y + q.h);
        if r.y + r.h > y1 { y1 := I16(r.y + r.h); }
        var x, y := q.x, q.y;
        if r.x < x { x := r.x; }
        if r.y < y { y := r.y; }
        I16Exact(x1 - x);
        I16Exact(y1 - y);
        cdirty[CDIRTY - 1] := Rect(x, y, I16(x1 - x), I16(y1 - y));
      }
    }

    /** One queued rectangle clipped to the region, in the region's coordinates: left, top, right, bottom. */
    method ClipTo(a: Rect, r: Rect) returns (ix0: int, iy0: int, ix1: int, iy1: int)
      requires Small(a) && OnPanel(r)
      ensures var q := Clip(a, r);
              ix0 == q.x - r.x && iy0 == q.y - r.y && ix1 == q.x + q.w - r.x && iy1 == q.y + q.h - r.y
    {
      hide I16;
      I16Exact(a.x - r.x);
      I16Exact(a.y - r.y);
      I16Exact(a.x + a.w - r.x);
      I16Exact(a.y + a.h - r.y);
      ix0 := I16(a.x - r.x);
      if ix0 < 0 { ix0 := 0; }
      iy0 := I16(a.y - r.y);
      if iy0 < 0 { iy0 := 0; }
      ix1 := I16(a.x + a.w - r.x);
      if ix1 > r.w { ix1 := r.w; }
      iy1 := I16(a.y + a.h - r.y);
      if iy1 > r.h { iy1 := r.h; }
    }

    /** The fold loop. A retired rectangle's place is taken by the last one. */
    method FoldDirty(r: Rect, box0: Box) returns (box: Box)
      requires Valid() && OnPanel(r)
      modifies cdirty, this`cdirtyCount
      ensures Valid() && DirtyAfter(old(cdirty[..cdirtyCount]), r, cdirty[..cdirtyCount])
      ensures FoldedAll(old(cdirty[..cdirtyCount]), r, box0, box)
    {
      hide Folding, Folded, Clip, Touches, SwapRemove;
      box := box0;
      ghost var dirty := cdirty[..cdirtyCount];
      FoldStart(dirty, r, box0);
      var i := 0;
      while i < cdirtyCount
        invariant Valid() && i <= cdirtyCount
        invariant Folding(dirty, cdirty[..cdirtyCount], i, r, box0, box)
        decreases cdirtyCount - i
      {
        ghost var now := cdirty[..cdirtyCount];
        var ix0, iy0, ix1, iy1 := ClipTo(cdirty[i], r);
        TouchesClip(cdirty[i], r);
        if ix0 < ix1 && iy0 < iy1 {
          FoldTake(dirty, now, i, r, box0, box);
          FoldedBox(box, cdirty[i], r);
          var minX := if ix0 < box.minX then ix0 else box.minX;
          var minY := if iy0 < box.minY then iy0 else box.minY;
          var maxX := if ix1 - 1 > box.maxX then ix1 - 1 else box.maxX;
          var maxY := if iy1 - 1 > box.maxY then iy1 - 1 else box.maxY;
          box := Box(minX, minY, maxX, maxY);
          cdirtyCount := cdirtyCount - 1;
          cdirty[i] := cdirty[cdirtyCount];
          assert cdirty[..cdirtyCount] == SwapRemove(now, i) by { SwapRemoveIs(now, i); }
        } else {
          FoldSkip(dirty, now, i, r, box0, box);
          i := i + 1;
        }
      }
      FoldEnd(dirty, cdirty[..cdirtyCount], r, box0, box);
    }

    // ---- Sending a window ---------------------------------------------------------------------------

    /** One row of the window, into the push buffer from pb on. */
    method PackRow(c: Picture, stride: int, tint: Tint, row: int, minX: int, maxX: int, pb: nat)
      requires 0 <= minX <= maxX < c.rect.w && 0 <= row < c.rect.h && pb + maxX - minX + 1 <= pushbuf.Length
      requires Reaches(c, stride)
      modifies pushbuf
      ensures forall i :: 0 <= i < pb ==> pushbuf[i] == old(pushbuf[i])
      ensures forall i :: pb <= i <= pb + maxX - minX ==>
        pushbuf[i] == Swap16(ShowsAt(c, stride, tint, (c.rect.x + minX + (i - pb), c.rect.y + row)))
    {
      hide Swap16, Lit;
      var col := minX;
      while col <= maxX
        invariant minX <= col <= maxX + 1
        invariant forall i :: 0 <= i < pb ==> pushbuf[i] == old(pushbuf[i])
        invariant forall i :: pb <= i < pb + col - minX ==>
          pushbuf[i] == Swap16(ShowsAt(c, stride, tint, (c.rect.x + minX + (i - pb), c.rect.y + row)))
      {
        var idx := StreamIndex(stride, row, col / 8);
        var fg := tint((c.rect.x + col, c.rect.y + row), c.fg);
        var pxc := if Lit(c.bits[idx], col % 8) then fg else c.bg;
        pushbuf[pb + (col - minX)] := Swap16(pxc);
        col := col + 1;
      }
    }

    /** setAddrWindow and writePixels: the panel takes big-endian pixels row by row. */
    method WriteWindow(win: Rect)
      requires win.w > 0 && win.h > 0 ==> win.w * win.h <= pushbuf.Length
      modifies this`panel
      ensures forall p: Point :: In(p, win) ==>
        && 0 <= StreamIndex(win.w, p.1 - win.y, p.0 - win.x) < pushbuf.Length
        && p in panel && panel[p] == Swap16(pushbuf[StreamIndex(win.w, p.1 - win.y, p.0 - win.x)])
      ensures forall p: Point :: !In(p, win) ==>
        (p in panel <==> p in old(panel)) && (p in panel ==> panel[p] == old(panel)[p])
    {
      hide Swap16;
      forall p: Point | In(p, win)
        ensures p in Points(win) && 0 <= StreamIndex(win.w, p.1 - win.y, p.0 - win.x) < win.w * win.h
      {
        ByteIndex(p.1 - win.y, p.0 - win.x, win.w, win.h);
        assert p == (p.0, p.1);
      }
      panel := map p: Point | p in panel.Keys + Points(win) ::
        if In(p, win) then Swap16(pushbuf[StreamIndex(win.w, p.1 - win.y, p.0 - win.x)]) else panel[p];
    }

    /** The packing loops at the end of drawBitmap. */
    method Pack(c: Picture, stride: int, tint: Tint, box: Box)
      requires 0 <= box.minX <= box.maxX < c.rect.w && 0 <= box.minY <= box.maxY < c.rect.h
      requires c.rect.w * c.rect.h <= pushbuf.Length && Reaches(c, stride)
      modifies pushbuf
      ensures Packed(pushbuf[..], c, stride, tint, box, box.maxY - box.minY + 1)
    {
      hide Swap16, ShowsAt, ByteWidth, Packed;
      var width := box.maxX - box.minX + 1;
      WindowFits(c.rect, box);
      var row, pb := box.minY, 0;
      PackedNone(pushbuf[..], c, stride, tint, box);
      while row <= box.maxY
        invariant box.minY <= row <= box.maxY + 1 && pb == (row - box.minY) * width && 0 <= pb
        invariant Packed(pushbuf[..], c, stride, tint, box, row - box.minY)
      {
        MulStep(row - box.minY, box.maxY - box.minY + 1, width);
        ghost var buf := pushbuf[..];
        PackRow(c, stride, tint, row, box.minX, box.maxX, pb);
        PackedRow(buf, pushbuf[..], c, stride, tint, box, row - box.minY, pb);
        row, pb := row + 1, pb + width;
      }
    }

    /** The push at the end of drawBitmap. */
    method Push(c: Picture, stride: int, tint: Tint, box: Box) returns (win: Rect)
      requires 0 <= box.minX && 0 <= box.minY && box.maxX < c.rect.w && box.maxY < c.rect.h
      requires c.rect.w * c.rect.h <= pushbuf.Length && Reaches(c, stride)
      modifies pushbuf, this`panel
      ensures win == WindowOf(c.rect, box)
      ensures Pushed(old(panel), c, stride, tint, win, panel)
    {
      hide Swap16, ShowsAt, ByteWidth, Packed, StreamIndex, Reaches;
      win := WindowOf(c.rect, box);
      if box.minX <= box.maxX && box.minY <= box.maxY {
        Pack(c, stride, tint, box);
        WindowFits(c.rect, box);
      }
      WriteWindow(win);
      forall p: Point | In(p, win)
        ensures panel[p] == ShowsAt(c, stride, tint, p)
      {
        PackedShows(pushbuf[..], c, stride, tint, box, p, panel[p]);
      }
    }

    // ---- drawBitmap ---------------------------------------------------------------------------------------

    /** The search for a slot with the same rectangle and colours; SLOTS if there is none. */
    method FindSlot(c: Picture) returns (k: nat)
      requires Valid()
      ensures k == Find(cache[..], c)
      ensures k <= 4 && (k < 4 ==> cache[k].rect == c.rect && cache[k].fg == c.fg && cache[k].bg == c.bg)
      ensures forall j :: 0 <= j < k ==> cache[j].rect != c.rect || cache[j].fg != c.fg || cache[j].bg != c.bg
    {
      k := 0;
      while k < SLOTS && !SameKey(cache[k], c)
        invariant k <= SLOTS
        invariant forall j :: 0 <= j < k ==> !SameKey(cache[j], c)
      {
        k := k + 1;
      }
      FindUnique(cache[..], c, k);
    }

    /** A cache miss: drop what the region overlaps, and take over the next slot. */
    method Install(c: Picture)
      requires Valid() && |c.bits| <= cacheBytes && !Hit(View(), c)
      modifies cache, this`next
      ensures Valid() && cache[..] == SlotsAfter(old(View()), c) && next == (old(next) + 1) % SLOTS
    {
      hide Overlap, Find;
      ghost var s := View();
      for i := 0 to SLOTS
        invariant cache.Length == SLOTS && next == old(next)
        invariant forall j :: 0 <= j < SLOTS ==>
                    cache[j] == (if j < i then Invalidated(s.slots[j], c.rect) else s.slots[j])
      {
        var slot := cache[i];
        if slot.rect.x >= 0 && Overlap(c.rect, slot.rect) {
          cache[i] := slot.(rect := slot.rect.(x := -1));
        }
      }
      cache[next] := c.(bits := Refill(cache[next].bits, c.bits));
      next := (next + 1) % SLOTS;
      assert cache[..] == SlotsAfter(s, c);
    }

    predicate Cacheable(c: Picture, srcRowBytes: int) {
      srcRowBytes == 0 && ByteWidth(c.rect.w) * c.rect.h <= cacheBytes && c.rect.w <= maxW
    }

    function RowStride(c: Picture, srcRowBytes: int): int {
      if srcRowBytes > 0 then srcRowBytes else ByteWidth(c.rect.w)
    }

    /** drawBitmap for a bitmap the cache takes. */
    method DrawCached(c: Picture, tint: Tint) returns (win: Rect)
      requires Valid() && OnPanel(c.rect) && Drawable(c) && |c.bits| <= cacheBytes
      requires c.rect.w * c.rect.h <= pushbuf.Length
      modifies cache, this`next, cdirty, this`cdirtyCount, pushbuf, this`panel
      ensures Valid() && DrawStep(old(View()), c, tint, win, View())
      ensures Hit(old(View()), c) ==> Least(old(View()), c, win)
    {
      hide Bounds, FoldedAll, Pushed, SlotsAfter, ShowsAt, Reaches, Clip, Needed, Least, DirtyAfter, Find, StartBox;
      ghost var s := View();
      var box := Box(0, 0, c.rect.w - 1, c.rect.h - 1);
      var k := FindSlot(c);
      if k == SLOTS {
        Install(c);
      } else {
        box := Diff(k, c);
        StartHit(s, c, box);
        SlotsAfterHit(s, c);
        if box.maxX > c.rect.w - 1 { box := box.(maxX := c.rect.w - 1); }
      }
      StartMiss(s, c);
      ghost var box0 := box;
      box := FoldDirty(c.rect, box);
      WindowRight(s, c, box0, box);
      if k != SLOTS { WindowLeast(s, c, box0, box); }
      DrawableReaches(c);
      if box.maxY < 0 {
        win := WindowOf(c.rect, box);
        PushedNothing(panel, c, ByteWidth(c.rect.w), tint, win);
        return;
      }
      win := Push(c, ByteWidth(c.rect.w), tint, box);
    }

    /** drawBitmap on a colour display. The result is the panel window sent, empty if none is. */
    method DrawBitmap(c: Picture, srcRowBytes: int, tint: Tint) returns (win: Rect)
      requires Valid() && OnPanel(c.rect) && c.rect.w * c.rect.h <= pushbuf.Length
      requires Reaches(c, RowStride(c, srcRowBytes)) && (srcRowBytes == 0 ==> Drawable(c))
      modifies cache, this`next, cdirty, this`cdirtyCount, pushbuf, this`panel
      ensures Valid()
      ensures Cacheable(c, srcRowBytes) ==> DrawStep(old(View()), c, tint, win, View())
      ensures Cacheable(c, srcRowBytes) && Hit(old(View()), c) ==> Least(old(View()), c, win)
      ensures !Cacheable(c, srcRowBytes) ==>
        && win == c.rect && View() == old(View()).(panel := panel)
        && Pushed(old(panel), c, RowStride(c, srcRowBytes), tint, win, panel)
      ensures !Cacheable(c, srcRowBytes) || Consistent(old(View()), tint) ==>
        PaintedAll(c, if srcRowBytes > 0 then srcRowBytes else (c.rect.w + 7) / 8, tint, panel)
    {
      hide Pushed, DrawStep, Least, Find, PaintedAll;
      var rowStride := RowStride(c, srcRowBytes);
      if Cacheable(c, srcRowBytes) {
        ghost var s := View();
        win := DrawCached(c, tint);
        if Consistent(s, tint) { DrawPainted(s, c, tint, win, View()); }
        return;
      }
      PushedPainted(c, rowStride, tint);
      win := c.rect;
      var box := Box(0, 0, c.rect.w - 1, c.rect.h - 1);
      if box.maxY < 0 {
        PushedNothing(panel, c, rowStride, tint, win);
        return;
      }
      win := Push(c, rowStride, tint, box);
    }
  }
}
