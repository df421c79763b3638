/**
  Black drawing in the frame buffer (PostScript/Adobe/framedevice.c): words of sixteen pixels, the leftmost in the most
  significant bit, are combined with masks and shifted words, and every pixel comes out right.
 */
module FrameBuffer {

  const SCAN_UNIT := 16

  /** leftBitArray: the pixels from p on. */
  function LeftBits(p: nat): bv16
    requires p < SCAN_UNIT
  {
    match p
    case 0 => 0xffff case 1 => 0x7fff case 2 => 0x3fff case 3 => 0x1fff
    case 4 => 0x0fff case 5 => 0x07ff case 6 => 0x03ff case 7 => 0x01ff
    case 8 => 0x00ff case 9 => 0x007f case 10 => 0x003f case 11 => 0x001f
    case 12 => 0x000f case 13 => 0x0007 case 14 => 0x0003 case 15 => 0x0001
  }

  /** rightBitArray: the pixels before p. */
  function RightBits(p: nat): bv16
    requires p < SCAN_UNIT
  {
    match p
    case 0 => 0x0000 case 1 => 0x8000 case 2 => 0xc000 case 3 => 0xe000
    case 4 => 0xf000 case 5 => 0xf800 case 6 => 0xfc00 case 7 => 0xfe00
    case 8 => 0xff00 case 9 => 0xff80 case 10 => 0xffc0 case 11 => 0xffe0
    case 12 => 0xfff0 case 13 => 0xfff8 case 14 => 0xfffc case 15 => 0xfffe
  }

  /** onebit: the pixel p. */
  function OneBit(p: nat): bv16
    requires p < SCAN_UNIT
  {
    match p
    case 0 => 0x8000 case 1 => 0x4000 case 2 => 0x2000 case 3 => 0x1000
    case 4 => 0x0800 case 5 => 0x0400 case 6 => 0x0200 case 7 => 0x0100
    case 8 => 0x0080 case 9 => 0x0040 case 10 => 0x0020 case 11 => 0x0010
    case 12 => 0x0008 case 13 => 0x0004 case 14 => 0x0002 case 15 => 0x0001
  }

  predicate Bit(w: bv16, p: nat)
    requires p < SCAN_UNIT
  {
    Meets(w, OneBit(p))
  }

  predicate Meets(w: bv16, m: bv16) {
    And(w, m) != 0
  }

  function Or(v: bv16, w: bv16): bv16 {
    v | w
  }

  function And(v: bv16, w: bv16): bv16 {
    v & w
  }

  function Right1(t: bv16): bv16 {
    t >> 1
  }

  function Left1(t: bv16): bv16 {
    t << 1
  }

  // ---------------------------------------------------------------- words

  lemma LeftBit(b: nat, p: nat)
    requires b < SCAN_UNIT && p < SCAN_UNIT
    ensures Bit(LeftBits(b), p) <==> b <= p
  {
  }

  lemma RightBit(b: nat, p: nat)
    requires b < SCAN_UNIT && p < SCAN_UNIT
    ensures Bit(RightBits(b), p) <==> p < b
  {
  }

  lemma AllBits(p: nat)
    requires p < SCAN_UNIT
    ensures Bit(0xffff, p)
  {
  }

  lemma OrMask(v: bv16, w: bv16, m: bv16)
    ensures Meets(Or(v, w), m) <==> Meets(v, m) || Meets(w, m)
  {
    assert (v | w) & m == (v & m) | (w & m);
  }

  /** A mask with one bit meets a word wholly or not at all. */
  lemma WholeOrNot(v: bv16, p: nat)
    requires p < SCAN_UNIT
    ensures And(v, OneBit(p)) == 0 || And(v, OneBit(p)) == OneBit(p)
  {
  }

  lemma AndTwice(v: bv16, w: bv16, m: bv16)
    ensures And(And(v, w), m) == And(And(v, m), And(w, m))
  {
  }

  lemma AndSame(m: bv16)
    ensures And(m, m) == m && And(0, m) == 0 && And(m, 0) == 0
  {
  }

  lemma AndMask(v: bv16, w: bv16, m: bv16)
    requires And(v, m) == 0 || And(v, m) == m
    requires And(w, m) == 0 || And(w, m) == m
    ensures Meets(And(v, w), m) <==> Meets(v, m) && Meets(w, m)
  {
    hide And;
    AndTwice(v, w, m);
    AndSame(m);
    AndSame(0);
  }

  lemma OrBit(v: bv16, w: bv16, p: nat)
    requires p < SCAN_UNIT
    ensures Bit(Or(v, w), p) <==> Bit(v, p) || Bit(w, p)
  {
    hide OneBit, Or, Meets;
    OrMask(v, w, OneBit(p));
  }

  lemma AndBit(v: bv16, w: bv16, p: nat)
    requires p < SCAN_UNIT
    ensures Bit(And(v, w), p) <==> Bit(v, p) && Bit(w, p)
  {
    hide OneBit, And, Meets;
    WholeOrNot(v, p);
    WholeOrNot(w, p);
    AndMask(v, w, OneBit(p));
  }

  lemma RightMask(t: bv16, m: bv16)
    ensures Meets(Right1(t), m) <==> Meets(t, Left1(m))
  {
  }

  lemma LeftMask(t: bv16, m: bv16)
    ensures Meets(Left1(t), m) <==> Meets(t, Right1(m))
  {
  }

  /** The masks for single pixels follow each other. */
  lemma NeighbourMasks(p: nat)
    requires p < SCAN_UNIT
    ensures Left1(OneBit(p)) == if p == 0 then 0 else OneBit(p - 1)
    ensures Right1(OneBit(p)) == if p == SCAN_UNIT - 1 then 0 else OneBit(p + 1)
  {
  }

  lemma NothingMet(t: bv16)
    ensures !Meets(t, 0)
  {
  }

  lemma StepRight(t: bv16, p: nat)
    requires p < SCAN_UNIT
    ensures Bit(Right1(t), p) <==> p >= 1 && Bit(t, p - 1)
  {
    hide OneBit, Meets, Left1, Right1;
    RightMask(t, OneBit(p));
    NeighbourMasks(p);
    NothingMet(t);
  }

  lemma StepLeft(t: bv16, p: nat)
    requires p < SCAN_UNIT
    ensures Bit(Left1(t), p) <==> p + 1 < SCAN_UNIT && Bit(t, p + 1)
  {
    hide OneBit, Meets, Left1, Right1;
    LeftMask(t, OneBit(p));
    NeighbourMasks(p);
    NothingMet(t);
  }

  /** A word shifted right by s, and cut to its sixteen bits. */
  function ShiftRight(t: bv16, s: nat): bv16
    decreases s
  {
    if s == 0 then t else ShiftRight(Right1(t), s - 1)
  }

  function ShiftLeft(t: bv16, s: nat): bv16
    decreases s
  {
    if s == 0 then t else ShiftLeft(Left1(t), s - 1)
  }

  lemma {:induction false} RightShiftBit(t: bv16, s: nat, p: nat)
    requires p < SCAN_UNIT
    ensures Bit(ShiftRight(t, s), p) <==> p >= s && Bit(t, p - s)
    decreases s
  {
    hide Bit, Right1, Left1;
    if s > 0 {
      RightShiftBit(Right1(t), s - 1, p);
      if p >= s - 1 { StepRight(t, p - (s - 1)); }
    }
  }

  lemma {:induction false} LeftShiftBit(t: bv16, s: nat, p: nat)
    requires p < SCAN_UNIT
    ensures Bit(ShiftLeft(t, s), p) <==> p + s < SCAN_UNIT && Bit(t, p + s)
    decreases s
  {
    hide Bit, Right1, Left1;
    if s > 0 {
      LeftShiftBit(Left1(t), s - 1, p);
      if p + (s - 1) < SCAN_UNIT { StepLeft(t, p + (s - 1)); }
    }
  }

  // ---------------------------------------------------------------- pixels

  /** The pixel at a bit address. */
  predicate Pixel(words: seq<bv16>, a: int) {
    0 <= a < SCAN_UNIT * |words| && Bit(words[a / SCAN_UNIT], a % SCAN_UNIT)
  }

  /** A word changed by or-ing m into it. */
  lemma OrPixels(words: seq<bv16>, k: nat, m: bv16, words': seq<bv16>)
    requires k < |words| && words' == words[k := Or(words[k], m)]
    ensures forall a :: Pixel(words', a) <==> Pixel(words, a) || InUnit(m, SCAN_UNIT * k, a)
  {
    hide Bit, Or;
    forall a ensures Pixel(words', a) <==> Pixel(words, a) || InUnit(m, SCAN_UNIT * k, a) {
      if 0 <= a && a / SCAN_UNIT == k {
        OrBit(words[k], m, a % SCAN_UNIT);
      }
    }
  }

  /** The bits of w, laid out from the bit address base on. */
  predicate InUnit(w: bv16, base: int, a: int) {
    base <= a < base + SCAN_UNIT && Bit(w, a - base)
  }

  // ---------------------------------------------------------------- rectangles

  /** The pixels of rows yb to yt from xl to before xr, in a buffer with rows of w words. */
  predicate InRect(xl: int, xr: int, yb: int, yt: int, w: nat, a: int) {
    exists r :: yb <= r <= yt && InRow(r * w, xl, xr, a)
  }

  predicate InRow(base: int, xl: int, xr: int, a: int) {
    SCAN_UNIT * base + xl <= a < SCAN_UNIT * base + xr
  }

  /** The bits that a row or-s into its word u. */
  function RowMask(xl: int, xr: int, u: int): bv16 {
    var unitl, unitr := xl / SCAN_UNIT, xr / SCAN_UNIT;
    var maskl, maskr := LeftBits(xl % SCAN_UNIT), RightBits(xr % SCAN_UNIT);
    if u < unitl || u > unitr then 0
    else if unitl == unitr then And(maskl, maskr)
    else if u == unitl then maskl
    else if u == unitr then maskr
    else 0xffff
  }

  lemma NoBit(p: nat)
    requires p < SCAN_UNIT
    ensures !Bit(0, p)
  {
  }

  lemma RowMaskBit(xl: int, xr: int, u: int, p: nat)
    requires xl <= xr && p < SCAN_UNIT
    ensures Bit(RowMask(xl, xr, u), p) <==> xl <= SCAN_UNIT * u + p < xr
  {
    hide Bit, LeftBits, RightBits, And;
    var unitl, unitr := xl / SCAN_UNIT, xr / SCAN_UNIT;
    var bitl, bitr := xl % SCAN_UNIT, xr % SCAN_UNIT;
    assert xl <= SCAN_UNIT * u + p <==> unitl < u || (unitl == u && bitl <= p);
    assert SCAN_UNIT * u + p < xr <==> u < unitr || (u == unitr && p < bitr);
    NoBit(p);
    AllBits(p);
    LeftBit(bitl, p);
    RightBit(bitr, p);
    if unitl == unitr { AndBit(LeftBits(bitl), RightBits(bitr), p); }
  }

  lemma OrExtremes(w: bv16)
    ensures Or(w, 0) == w && Or(w, 0xffff) == 0xffff
  {
  }

  /** The words of a row with their masks or-ed in. */
  lemma RowPixels(words: seq<bv16>, words': seq<bv16>, base: int, xl: int, xr: int)
    requires xl <= xr && |words'| == |words| && 0 <= base + xl / SCAN_UNIT && base + xr / SCAN_UNIT < |words|
    requires forall k :: 0 <= k < |words| ==> words'[k] == Or(words[k], RowMask(xl, xr, k - base))
    ensures forall a :: Pixel(words', a) <==> Pixel(words, a) || InRow(base, xl, xr, a)
  {
    hide Bit, Or, RowMask;
    forall a ensures Pixel(words', a) <==> Pixel(words, a) || InRow(base, xl, xr, a) {
      if 0 <= a < SCAN_UNIT * |words| {
        var u, q := a / SCAN_UNIT - base, a % SCAN_UNIT;
        OrBit(words[a / SCAN_UNIT], RowMask(xl, xr, u), q);
        RowMaskBit(xl, xr, u, q);
      }
    }
  }

  /** One row of FrameBlackRect. */
  method FillRow(frame: array<bv16>, base: int, xl: int, xr: int)
    requires xl <= xr && 0 <= base + xl / SCAN_UNIT && base + xr / SCAN_UNIT < frame.Length
    modifies frame
    ensures forall a :: Pixel(frame[..], a) <==> Pixel(old(frame[..]), a) || InRow(base, xl, xr, a)
  {
    hide Or, And, LeftBits, RightBits, Pixel;
    var unitl, unitr := xl / SCAN_UNIT, xr / SCAN_UNIT;
    var maskl, maskr := LeftBits(xl % SCAN_UNIT), RightBits(xr % SCAN_UNIT);
    var units := unitr - unitl;
    if units == 0 { maskl := And(maskl, maskr); }
    var destunit := base + unitl;
    ghost var words := frame[..];
    frame[destunit] := Or(frame[destunit], maskl);
    if units != 0 {
      var x := units - 1;
      while x != 0
        invariant 0 <= x < units && destunit == base + unitr - 1 - x
        invariant forall k :: 0 <= k < frame.Length ==>
                    frame[k] == if base + unitl <= k <= destunit then Or(words[k], RowMask(xl, xr, k - base))
                                else words[k]
      {
        destunit := destunit + 1;
        OrExtremes(words[destunit]);
        frame[destunit] := 0xffff;
        x := x - 1;
      }
      destunit := destunit + 1;
      frame[destunit] := Or(frame[destunit], maskr);
    }
    forall k | 0 <= k < frame.Length
      ensures frame[..][k] == Or(words[k], RowMask(xl, xr, k - base))
    {
      OrExtremes(words[k]);
    }
    RowPixels(words, frame[..], base, xl, xr);
  }

  lemma RowBelow(r: int, r': int, w: nat)
    requires r <= r'
    ensures r * w <= r' * w && (r + 1) * w == r * w + w
  {
  }

  lemma NextRow(xl: int, xr: int, yb: int, r: int, w: nat)
    requires yb <= r
    ensures forall a :: InRect(xl, xr, yb, r, w, a) <==> InRect(xl, xr, yb, r - 1, w, a) || InRow(r * w, xl, xr, a)
  {
    hide InRow;
  }

  /**
    Exactly the pixels of the rectangle are added; the word after the last pixel may be touched, but not changed.
    A rectangle may begin left of its row, in the row before it, as long as all its words are in the buffer.
   */
  method FrameBlackRect(frame: array<bv16>, w: nat, xl: int, xr: int, yb: int, yt: int)
    requires xl <= xr
    requires yb <= yt ==> 0 <= yb * w + xl / SCAN_UNIT && yt * w + xr / SCAN_UNIT < frame.Length
    modifies frame
    ensures forall a :: Pixel(frame[..], a) <==> Pixel(old(frame[..]), a) || InRect(xl, xr, yb, yt, w, a)
  {
    hide Pixel, InRow;
    var y := yt - yb;
    var buffer := yb * w;
    ghost var words := frame[..];
    while y >= 0
      invariant y >= 0 ==> buffer == (yt - y) * w
      invariant y >= -1 || yt < yb
      invariant yt < yb ==> y == yt - yb
      invariant forall a :: Pixel(frame[..], a) <==> Pixel(words, a) || InRect(xl, xr, yb, yt - y - 1, w, a)
    {
      RowBelow(yt - y, yt, w);
      RowBelow(yb, yt - y, w);
      FillRow(frame, buffer, xl, xr);
      NextRow(xl, xr, yb, yt - y, w);
      buffer := buffer + w;
      y := y - 1;
    }
  }

  // ---------------------------------------------------------------- masks

  /** The first x units of a row of a mask, laid out from the bit address base on. */
  predicate InMaskRow(mask: seq<bv16>, start: nat, x: nat, base: int, a: int)
    requires start + x <= |mask|
  {
    base <= a < base + SCAN_UNIT * x && Bit(mask[start + (a - base) / SCAN_UNIT], (a - base) % SCAN_UNIT)
  }

  /** The first rows of a mask, every row one row of the buffer further down. */
  predicate InMask(mask: seq<bv16>, xunits: nat, rows: nat, w: nat, base: int, a: int) {
    exists r :: 0 <= r < rows && InRowOfMask(mask, xunits, r, w, base, a)
  }

  predicate InRowOfMask(mask: seq<bv16>, xunits: nat, r: nat, w: nat, base: int, a: int) {
    r * xunits + xunits <= |mask| && InMaskRow(mask, r * xunits, xunits, base + SCAN_UNIT * (r * w), a)
  }

  lemma NextUnit(mask: seq<bv16>, start: nat, x: nat, base: int)
    requires start + x < |mask|
    ensures forall a :: InMaskRow(mask, start, x + 1, base, a)
              <==> InMaskRow(mask, start, x, base, a) || InUnit(mask[start + x], base + SCAN_UNIT * x, a)
  {
    hide Bit;
    forall a
      ensures InMaskRow(mask, start, x + 1, base, a)
         <==> InMaskRow(mask, start, x, base, a) || InUnit(mask[start + x], base + SCAN_UNIT * x, a)
    {
      if base + SCAN_UNIT * x <= a < base + SCAN_UNIT * x + SCAN_UNIT {
        UnitOf(a - base, x);
      }
    }
  }

  lemma UnitOf(o: int, x: nat)
    requires SCAN_UNIT * x <= o < SCAN_UNIT * x + SCAN_UNIT
    ensures o / SCAN_UNIT == x && o % SCAN_UNIT == o - SCAN_UNIT * x
  {
  }

  lemma NextMaskRow(mask: seq<bv16>, xunits: nat, rows: nat, w: nat, base: int)
    ensures forall a :: InMask(mask, xunits, rows + 1, w, base, a)
              <==> InMask(mask, xunits, rows, w, base, a) || InRowOfMask(mask, xunits, rows, w, base, a)
  {
    hide InRowOfMask;
  }

  /** A word is or-ed in at any bit address, with what does not fit in the word after. */
  method OrUnit(frame: array<bv16>, dest: nat, t: bv16, shiftr: nat)
    requires shiftr < SCAN_UNIT && dest + (if shiftr == 0 then 0 else 1) < frame.Length
    modifies frame
    ensures forall a :: Pixel(frame[..], a) <==> Pixel(old(frame[..]), a) || InUnit(t, SCAN_UNIT * dest + shiftr, a)
  {
    hide Pixel, Or, Bit, ShiftLeft, ShiftRight;
    ghost var words := frame[..];
    if shiftr == 0 {
      frame[dest] := Or(frame[dest], t);
      OrPixels(words, dest, t, frame[..]);
    } else {
      frame[dest] := Or(frame[dest], ShiftRight(t, shiftr));
      OrPixels(words, dest, ShiftRight(t, shiftr), frame[..]);
      ghost var words1 := frame[..];
      frame[dest + 1] := Or(frame[dest + 1], ShiftLeft(t, SCAN_UNIT - shiftr));
      OrPixels(words1, dest + 1, ShiftLeft(t, SCAN_UNIT - shiftr), frame[..]);
      SplitUnit(t, shiftr, SCAN_UNIT * dest + shiftr, SCAN_UNIT * dest, SCAN_UNIT * (dest + 1));
    }
  }

  /** A unit laid at a bit offset is split over two words. */
  lemma SplitUnit(t: bv16, shiftr: nat, start: int, base: int, next: int)
    requires 0 < shiftr < SCAN_UNIT && start == base + shiftr && next == base + SCAN_UNIT
    ensures forall a :: InUnit(t, start, a)
              <==> InUnit(ShiftRight(t, shiftr), base, a) || InUnit(ShiftLeft(t, SCAN_UNIT - shiftr), next, a)
  {
    hide InUnit, ShiftLeft, ShiftRight;
    forall a
      ensures InUnit(t, start, a)
              <==> InUnit(ShiftRight(t, shiftr), base, a) || InUnit(ShiftLeft(t, SCAN_UNIT - shiftr), next, a)
    {
      SplitUnitAt(t, shiftr, base, a);
    }
  }

  lemma SplitUnitAt(t: bv16, shiftr: nat, base: int, a: int)
    requires 0 < shiftr < SCAN_UNIT
    ensures InUnit(t, base + shiftr, a)
            <==> InUnit(ShiftRight(t, shiftr), base, a) || InUnit(ShiftLeft(t, SCAN_UNIT - shiftr), base + SCAN_UNIT, a)
  {
    hide Bit, ShiftLeft, ShiftRight;
    if base <= a < base + SCAN_UNIT {
      RightShiftBit(t, shiftr, a - base);
    } else if base + SCAN_UNIT <= a < base + 2 * SCAN_UNIT {
      LeftShiftBit(t, SCAN_UNIT - shiftr, a - base - SCAN_UNIT);
      assert InUnit(t, base + shiftr, a) ==> a - (base + shiftr) == (a - base - SCAN_UNIT) + (SCAN_UNIT - shiftr);
    }
  }

  /** Quotient and remainder as C has them, truncated towards zero. */
  function CDiv(a: int, b: int): int
    requires b > 0
  {
    if a >= 0 then a / b else -((-a) / b)
  }

  function CMod(a: int, b: int): int
    requires b > 0
  {
    a - CDiv(a, b) * b
  }

  /** The word and the bit in it where a mask starts, to the left of the buffer as well. */
  lemma WordAndBit(x: int)
    ensures var unit := if x >= 0 then x / SCAN_UNIT else CDiv(x - SCAN_UNIT + 1, SCAN_UNIT);
            var rem := if x >= 0 then x % SCAN_UNIT else CMod(x, SCAN_UNIT);
            var shiftr := if rem < 0 then rem + SCAN_UNIT else rem;
            0 <= shiftr < SCAN_UNIT && SCAN_UNIT * unit + shiftr == x && unit == x / SCAN_UNIT
  {
  }

  /** The inner loop of FrameBlackMask: one row of the mask. */
  method OrRow(frame: array<bv16>, dest: nat, shiftr: nat, mask: seq<bv16>, start: nat, xunits: nat)
    requires shiftr < SCAN_UNIT && xunits >= 1 && start + xunits <= |mask|
    requires dest + xunits < frame.Length
    modifies frame
    ensures forall a :: Pixel(frame[..], a)
              <==> Pixel(old(frame[..]), a) || InMaskRow(mask, start, xunits, SCAN_UNIT * dest + shiftr, a)
  {
    hide Pixel, InMaskRow, InUnit;
    ghost var words := frame[..];
    ghost var base := SCAN_UNIT * dest + shiftr;
    NoUnits(mask, start, base);
    var destunit, sourceunit, x := dest, start, xunits;
    while true
      invariant 1 <= x <= xunits && destunit - dest == sourceunit - start == xunits - x
      invariant forall a :: Pixel(frame[..], a) <==> Pixel(words, a) || InMaskRow(mask, start, xunits - x, base, a)
      decreases x
    {
      OrUnit(frame, destunit, mask[sourceunit], shiftr);
      NextUnit(mask, start, xunits - x, base);
      assert SCAN_UNIT * destunit + shiftr == base + SCAN_UNIT * (xunits - x);
      destunit := destunit + 1;
      sourceunit := sourceunit + 1;
      x := x - 1;
      if x == 0 { break; }
    }
  }

  lemma NoUnits(mask: seq<bv16>, start: nat, base: int)
    requires start <= |mask|
    ensures forall a :: !InMaskRow(mask, start, 0, base, a)
  {
  }

  /**
    Every bit of the mask is or-ed into the pixel as far from the start as it is from the first bit of the mask, row
    by row, and nothing else changes; x may be negative as long as no word before the buffer is touched.
   */
  method FrameBlackMask(frame: array<bv16>, w: nat, mask: seq<bv16>, xunits: nat, height: nat, x: int, y: int)
    requires xunits >= 1 && height >= 1 && |mask| == height * xunits
    requires y * w + x / SCAN_UNIT >= 0 && (y + height - 1) * w + x / SCAN_UNIT + xunits < frame.Length
    modifies frame
    ensures forall a :: Pixel(frame[..], a)
              <==> Pixel(old(frame[..]), a) || InMask(mask, xunits, height, w, SCAN_UNIT * (y * w) + x, a)
  {
    hide Pixel, InMaskRow, CDiv, CMod;
    WordAndBit(x);
    var unit := if x >= 0 then x / SCAN_UNIT else CDiv(x - SCAN_UNIT + 1, SCAN_UNIT);
    var buffer := y * w + unit;
    var shiftr := if x >= 0 then x % SCAN_UNIT else CMod(x, SCAN_UNIT);
    if shiftr < 0 { shiftr := shiftr + SCAN_UNIT; }
    ghost var words, base := frame[..], SCAN_UNIT * (y * w) + x;
    ghost var r := 0;
    var sourceunit, left := 0, height;
    while true
      invariant 1 <= left <= height && r == height - left
      invariant buffer == y * w + unit + r * w && sourceunit == r * xunits
      invariant forall a :: Pixel(frame[..], a) <==> Pixel(words, a) || InMask(mask, xunits, r, w, base, a)
      decreases left
    {
      RowBelow(r + 1, height, xunits);
      RowBelow(r, height, xunits);
      RowsDown(y, r, height, w);
      OrRow(frame, buffer, shiftr, mask, sourceunit, xunits);
      NextMaskRow(mask, xunits, r, w, base);
      assert SCAN_UNIT * buffer + shiftr == base + SCAN_UNIT * (r * w);
      buffer := buffer + w;
      sourceunit := sourceunit + xunits;
      r := r + 1;
      left := left - 1;
      if left == 0 { break; }
    }
  }

  lemma RowsDown(y: int, r: nat, height: nat, w: nat)
    requires r < height
    ensures 0 <= r * w && y * w + r * w <= (y + height - 1) * w && (r + 1) * w == r * w + w
  {
    RowBelow(y + r, y + height - 1, w);
    assert (y + r) * w == y * w + r * w;
  }
}
