/** The flat byte-per-pixel panel buffer and its two rectangle primitives
    (`fillBitsInBuffer` and `flipBitsInBuffer`). A buffer of width `bWidth`
    is addressed row-major: cell (x, y) lives at index `y * bWidth + x`. */
module PixelBuffer {
  import opened Common

  const Width: nat := 160
  const Height: nat := 64
  const PixelCount: nat := Width * Height
  /** Intensity of a lit and of an unlit pixel. */
  const Lit: Byte := 255
  const Off: Byte := 0

  /** An axis-aligned rectangle in pixel coordinates. */
  datatype Rect = Rect(x: nat, y: nat, w: nat, h: nat)

  /** The rectangle lies inside a `bWidth`-wide buffer of `len` cells, so no
      write would land in the next row or outside the buffer. */
  predicate Fits(r: Rect, bWidth: nat, len: nat)
  {
    bWidth > 0 && r.x + r.w <= bWidth && (r.y + r.h) * bWidth <= len
  }

  /** Cell `i` of a `bWidth`-wide buffer lies inside `r`. */
  predicate InRect(i: int, bWidth: nat, r: Rect)
    requires bWidth > 0
  {
    0 <= i && r.x <= i % bWidth < r.x + r.w && r.y <= i / bWidth < r.y + r.h
  }

  /** The inversion applied to one cell: any lit (non-zero) cell goes dark,
      a dark cell becomes fully lit. */
  function FlipByte(v: Byte): (r: Byte)
    ensures (r == Off) <==> (v != Off)
    ensures r == Off || r == Lit
  {
    if v != 0 then 0 else 255
  }

  /** `after` is `before` with every cell of `r` set to `bit`. */
  predicate IsFilled(before: seq<Byte>, after: seq<Byte>, bWidth: nat, r: Rect, bit: Byte)
    requires bWidth > 0
  {
    |after| == |before| &&
    forall i :: 0 <= i < |before| ==>
      after[i] == (if InRect(i, bWidth, r) then bit else before[i])
  }

  /** `after` is `before` with every cell of `r` inverted. */
  predicate IsFlipped(before: seq<Byte>, after: seq<Byte>, bWidth: nat, r: Rect)
    requires bWidth > 0
  {
    |after| == |before| &&
    forall i :: 0 <= i < |before| ==>
      after[i] == (if InRect(i, bWidth, r) then FlipByte(before[i]) else before[i])
  }

  /** Every cell of `r` holds one of the two extreme intensities. */
  predicate Binary(buf: seq<Byte>, bWidth: nat, r: Rect)
    requires bWidth > 0
  {
    forall i :: 0 <= i < |buf| && InRect(i, bWidth, r) ==> buf[i] == Off || buf[i] == Lit
  }

  /** `fillBitsInBuffer`: the two nested scan loops over the rectangle. */
  method FillBits(buf: seq<Byte>, bWidth: nat, r: Rect, bit: Byte) returns (out: seq<Byte>)
    requires Fits(r, bWidth, |buf|)
    ensures IsFilled(buf, out, bWidth, r, bit)
  {
    out := buf;
    var pY := r.y;
    while pY < r.y + r.h
      invariant r.y <= pY <= r.y + r.h
      invariant |out| == |buf|
      invariant forall i :: 0 <= i < |buf| ==>
        out[i] == (if InRect(i, bWidth, r) && i / bWidth < pY then bit else buf[i])
    {
      var lineOff := pY * bWidth;
      var pX := r.x;
      while pX < r.x + r.w
        invariant r.x <= pX <= r.x + r.w
        invariant |out| == |buf|
        invariant forall i :: 0 <= i < |buf| ==>
          out[i] == (if InRect(i, bWidth, r) && (i / bWidth < pY || (i / bWidth == pY && i % bWidth < pX))
                     then bit else buf[i])
      {
        RowCol(pY, pX, bWidth);
        RowBound(pY, pX, bWidth, r.y + r.h);
        out := out[lineOff + pX := bit];
        pX := pX + 1;
      }
      pY := pY + 1;
    }
  }

  /** `flipBitsInBuffer`: the same scan, inverting each visited cell. */
  method FlipBits(buf: seq<Byte>, bWidth: nat, r: Rect) returns (out: seq<Byte>)
    requires Fits(r, bWidth, |buf|)
    ensures IsFlipped(buf, out, bWidth, r)
  {
    out := buf;
    var pY := r.y;
    while pY < r.y + r.h
      invariant r.y <= pY <= r.y + r.h
      invariant |out| == |buf|
      invariant forall i :: 0 <= i < |buf| ==>
        out[i] == (if InRect(i, bWidth, r) && i / bWidth < pY then FlipByte(buf[i]) else buf[i])
    {
      var lineOff := pY * bWidth;
      var pX := r.x;
      while pX < r.x + r.w
        invariant r.x <= pX <= r.x + r.w
        invariant |out| == |buf|
        invariant forall i :: 0 <= i < |buf| ==>
          out[i] == (if InRect(i, bWidth, r) && (i / bWidth < pY || (i / bWidth == pY && i % bWidth < pX))
                     then FlipByte(buf[i]) else buf[i])
      {
        RowCol(pY, pX, bWidth);
        RowBound(pY, pX, bWidth, r.y + r.h);
        out := out[lineOff + pX := FlipByte(out[lineOff + pX])];
        pX := pX + 1;
      }
      pY := pY + 1;
    }
  }

  /** Inverting a rectangle twice gives back the original buffer, provided
      the rectangle held only dark and fully lit cells. */
  lemma FlipTwiceRestores(a: seq<Byte>, b: seq<Byte>, c: seq<Byte>, bWidth: nat, r: Rect)
    requires bWidth > 0
    requires Binary(a, bWidth, r)
    requires IsFlipped(a, b, bWidth, r) && IsFlipped(b, c, bWidth, r)
    ensures c == a
  {
  }

  /** The precondition above is needed: an intermediate intensity does not
      survive a double inversion, it comes back fully lit. */
  lemma FlipTwiceSaturates(v: Byte)
    requires v != Off
    ensures FlipByte(FlipByte(v)) == Lit
  {
  }

  /** Filling is idempotent and a later fill of the same rectangle overrides
      an earlier one. */
  lemma FillOverrides(a: seq<Byte>, b: seq<Byte>, c: seq<Byte>, bWidth: nat, r: Rect, bit1: Byte, bit2: Byte)
    requires bWidth > 0
    requires IsFilled(a, b, bWidth, r, bit1) && IsFilled(b, c, bWidth, r, bit2)
    ensures IsFilled(a, c, bWidth, r, bit2)
  {
  }
}
