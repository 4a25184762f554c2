/** The glyph compositor: font glyphs and small bitmaps are drawn into the
    composited buffer of the 160x64 panel. A glyph is the flat bit vector a
    font returns for one character, `gw` bits per row (5 for the narrow fonts,
    11 for the wide one); a bitmap is a sequence of rows. Assets themselves
    are inputs of the model. */
module Glyph {
  import opened Common
  import opened PixelBuffer

  /** The panel index bit `k` of a glyph drawn at (offX, offY) is written to:
      `(k / gw + offY) * 160 + k % gw + offX`, as on lines 178-180. A glyph
      that overhangs the right edge carries on into the next row. */
  function GlyphCell(k: nat, gw: nat, offX: nat, offY: nat): nat
    requires gw > 0
  {
    (k / gw + offY) * Width + k % gw + offX
  }

  /** Panel cell `j` is hit by a set bit of the glyph. */
  predicate GlyphHits(g: seq<bool>, gw: nat, offX: nat, offY: nat, j: int)
    requires gw > 0
  {
    exists k :: 0 <= k < |g| && g[k] && GlyphCell(k, gw, offX, offY) == j
  }

  /** Every bit of the glyph lands inside the buffer. */
  predicate GlyphInBuffer(g: seq<bool>, gw: nat, offX: nat, offY: nat, len: nat)
  {
    gw > 0 && forall k :: 0 <= k < |g| ==> GlyphCell(k, gw, offX, offY) < len
  }

  /** Panel cell `j` lies in the glyph's box, under a set bit. */
  predicate GlyphCovers(g: seq<bool>, gw: nat, offX: nat, offY: nat, j: int)
    requires gw > 0
  {
    var x, y := j % Width - offX, j / Width - offY;
    0 <= j && 0 <= x < gw && 0 <= y && y * gw + x < |g| && g[y * gw + x]
  }

  /** For a glyph whose rows fit on the panel's rows, the cells it hits are
      exactly the set bits of its box. */
  lemma HitsAreBox(g: seq<bool>, gw: nat, offX: nat, offY: nat, j: int)
    requires gw > 0 && offX + gw <= Width
    ensures GlyphHits(g, gw, offX, offY, j) <==> GlyphCovers(g, gw, offX, offY, j)
  {
    if GlyphHits(g, gw, offX, offY, j) {
      var k :| 0 <= k < |g| && g[k] && GlyphCell(k, gw, offX, offY) == j;
      RowCol(k / gw + offY, k % gw + offX, Width);
      DivMod(k, gw);
    }
    if GlyphCovers(g, gw, offX, offY, j) {
      var k := (j / Width - offY) * gw + (j % Width - offX);
      RowCol(j / Width - offY, j % Width - offX, gw);
      DivMod(j, Width);
      assert GlyphCell(k, gw, offX, offY) == j;
    }
  }

  /** The last character of the 12-character name field (line 205) starts at
      x = 152 with 11-bit rows: its column 8 falls past the right edge and,
      by the index arithmetic, onto column 0 of the following row. */
  lemma NameFieldOverhang()
    ensures GlyphCell(8, 11, 11 * 8 + 64, 1) == 2 * Width + 0
  {
  }

  /** One glyph OR-ed into the buffer: every set bit lights its cell, every
      other cell keeps its value. */
  method BlitGlyph(buf: seq<Byte>, g: seq<bool>, gw: nat, offX: nat, offY: nat) returns (out: seq<Byte>)
    requires GlyphInBuffer(g, gw, offX, offY, |buf|)
    ensures |out| == |buf|
    ensures forall j :: 0 <= j < |buf| ==>
      out[j] == (if GlyphHits(g, gw, offX, offY, j) then Lit else buf[j])
  {
    out := buf;
    var i1 := 0;
    while i1 < |g|
      invariant 0 <= i1 <= |g|
      invariant |out| == |buf|
      invariant forall j :: 0 <= j < |buf| ==>
        out[j] == (if exists k :: 0 <= k < i1 && g[k] && GlyphCell(k, gw, offX, offY) == j
                   then Lit else buf[j])
    {
      var p := GlyphCell(i1, gw, offX, offY);
      if g[i1] {
        out := out[p := Lit];
      }
      i1 := i1 + 1;
    }
  }

  /** Glyph `i0` of a string drawn with a per-character pitch. */
  predicate GlyphAt(glyphs: seq<seq<bool>>, i0: int, gw: nat, pitch: nat, baseX: nat, offY: nat, j: int)
    requires gw > 0
  {
    0 <= i0 < |glyphs| && GlyphHits(glyphs[i0], gw, i0 * pitch + baseX, offY, j)
  }

  predicate GlyphAtFits(glyphs: seq<seq<bool>>, i0: int, gw: nat, pitch: nat, baseX: nat, offY: nat, len: nat)
  {
    0 <= i0 < |glyphs| ==> GlyphInBuffer(glyphs[i0], gw, i0 * pitch + baseX, offY, len)
  }

  /** A string: glyph `i0` is drawn at x = `i0 * pitch + baseX` (pitch 6 for
      the narrow fonts, 8 for the wide one). A cell ends up lit exactly when
      some glyph covers it; nothing else changes. */
  method BlitText(buf: seq<Byte>, glyphs: seq<seq<bool>>, gw: nat, pitch: nat, baseX: nat, offY: nat)
    returns (out: seq<Byte>)
    requires gw > 0
    requires forall i0 :: GlyphAtFits(glyphs, i0, gw, pitch, baseX, offY, |buf|)
    ensures |out| == |buf|
    ensures forall j :: 0 <= j < |buf| ==>
      out[j] == (if exists i0 :: GlyphAt(glyphs, i0, gw, pitch, baseX, offY, j) then Lit else buf[j])
  {
    out := buf;
    var i0 := 0;
    while i0 < |glyphs|
      invariant 0 <= i0 <= |glyphs|
      invariant |out| == |buf|
      invariant forall j :: 0 <= j < |buf| ==>
        out[j] == (if exists k :: k < i0 && GlyphAt(glyphs, k, gw, pitch, baseX, offY, j) then Lit else buf[j])
    {
      assert GlyphAtFits(glyphs, i0, gw, pitch, baseX, offY, |buf|);
      ghost var prev := out;
      out := BlitGlyph(out, glyphs[i0], gw, i0 * pitch + baseX, offY);
      forall j | 0 <= j < |buf|
        ensures out[j] == (if exists k :: k < i0 + 1 && GlyphAt(glyphs, k, gw, pitch, baseX, offY, j)
                           then Lit else buf[j])
      {
        if GlyphAt(glyphs, i0, gw, pitch, baseX, offY, j) {
          assert out[j] == Lit;
        } else {
          assert out[j] == prev[j];
          assert (exists k :: k < i0 + 1 && GlyphAt(glyphs, k, gw, pitch, baseX, offY, j))
             <==> (exists k :: k < i0 && GlyphAt(glyphs, k, gw, pitch, baseX, offY, j));
        }
      }
      i0 := i0 + 1;
    }
  }

  /** How a bitmap's bits combine with the buffer: tabs are XOR-ed in, the
      effect and bank pictograms are OR-ed in, and the voice pictogram
      overwrites its whole box. */
  datatype BlitOp = Or | Xor | Copy

  function Apply(op: BlitOp, bit: bool, v: Byte): (r: Byte)
    ensures !bit && op != Copy ==> r == v
    ensures bit && op == Or ==> r == Lit
    ensures bit && op == Xor ==> r == FlipByte(v)
    ensures op == Copy ==> (r == Lit <==> bit) && (r == Off <==> !bit)
  {
    match op
    case Or => if bit then Lit else v
    case Xor => if bit then FlipByte(v) else v
    case Copy => if bit then Lit else Off
  }

  /** Bitmap rows are `bm[y]`, and bit `bm[y][x]` is drawn at (x + ox, y + oy). */
  predicate BitmapCovers(bm: seq<seq<bool>>, ox: nat, oy: nat, j: int)
  {
    var x, y := j % Width - ox, j / Width - oy;
    0 <= j && 0 <= y < |bm| && 0 <= x < |bm[y]|
  }

  predicate BitmapFits(bm: seq<seq<bool>>, ox: nat, oy: nat, len: nat)
  {
    (forall y :: 0 <= y < |bm| ==> ox + |bm[y]| <= Width) && (oy + |bm|) * Width <= len
  }

  /** A bitmap from the asset store drawn with `op`; a missing bitmap (the
      `?.render` on an absent entry) draws nothing. */
  method DrawBitmap(buf: seq<Byte>, bm: Option<seq<seq<bool>>>, ox: nat, oy: nat, op: BlitOp)
    returns (out: seq<Byte>)
    requires bm.Some? ==> BitmapFits(bm.value, ox, oy, |buf|)
    ensures |out| == |buf|
    ensures bm.None? ==> out == buf
    ensures bm.Some? ==> forall j :: 0 <= j < |buf| ==>
      out[j] == (if BitmapCovers(bm.value, ox, oy, j)
                 then Apply(op, bm.value[j / Width - oy][j % Width - ox], buf[j])
                 else buf[j])
  {
    out := buf;
    if bm.None? {
      return;
    }
    var rows := bm.value;
    var y := 0;
    while y < |rows|
      invariant 0 <= y <= |rows|
      invariant |out| == |buf|
      invariant forall j :: 0 <= j < |buf| ==>
        out[j] == (if BitmapCovers(rows, ox, oy, j) && j / Width - oy < y
                   then Apply(op, rows[j / Width - oy][j % Width - ox], buf[j])
                   else buf[j])
    {
      var x := 0;
      while x < |rows[y]|
        invariant 0 <= x <= |rows[y]|
        invariant |out| == |buf|
        invariant forall j :: 0 <= j < |buf| ==>
          out[j] == (if BitmapCovers(rows, ox, oy, j)
                        && (j / Width - oy < y || (j / Width - oy == y && j % Width - ox < x))
                     then Apply(op, rows[j / Width - oy][j % Width - ox], buf[j])
                     else buf[j])
      {
        var p := (y + oy) * Width + x + ox;
        RowCol(y + oy, x + ox, Width);
        RowBound(y + oy, x + ox, Width, oy + |rows|);
        out := out[p := Apply(op, rows[y][x], out[p])];
        x := x + 1;
      }
      y := y + 1;
    }
  }
}
