/** Shared vocabulary of the display model: bytes of the pixel and meter
    buffers, the optional-value wrapper used for missing assets, and the
    row-major index arithmetic every buffer operation relies on. */
module Common {

  /** One cell of a `Uint8Array`. */
  type Byte = x: int | 0 <= x < 256

  datatype Option<+T> = None | Some(value: T)

  function Min(a: int, b: int): int { if a <= b then a else b }
  function Max(a: int, b: int): int { if a <= b then b else a }
  function Abs(a: int): nat { if a < 0 then -a else a }
  /** Distance between two intensities. */
  function Dist(a: int, b: int): nat { Abs(a - b) }

  function Pow2(m: nat): (p: nat)
    ensures p >= 1
  {
    if m == 0 then 1 else 2 * Pow2(m - 1)
  }

  /** `a * w` grows with `a` when `w` is non-negative. */
  lemma MulAtLeast(a: int, w: int)
    requires a >= 1 && w >= 0
    ensures a * w >= w
  {
  }

  /** Multiplication by a non-negative factor is monotone. */
  lemma MulMono(a: int, b: int, w: int)
    requires a >= b && w >= 0
    ensures a * w >= b * w
  {
  }

  /** Row-major decomposition: the cell at column `x` of row `y` has index
      `y * w + x`, and that index maps back to (`x`, `y`). */
  lemma RowCol(y: int, x: int, w: int)
    requires 0 <= y && 0 <= x < w
    ensures (y * w + x) / w == y
    ensures (y * w + x) % w == x
  {
    var i := y * w + x;
    var q, m := i / w, i % w;
    assert q * w + m == i;
    if q < y {
      assert y * w - q * w == (y - q) * w;
      MulAtLeast(y - q, w);
      assert false;
    } else if q > y {
      assert q * w - y * w == (q - y) * w;
      MulAtLeast(q - y, w);
      assert false;
    }
  }

  /** An index inside the first `rows` rows of a `w`-wide buffer. */
  lemma RowBound(y: int, x: int, w: int, rows: int)
    requires 0 <= y < rows && 0 <= x < w
    ensures y * w + x < rows * w
  {
    assert rows * w - y * w == (rows - y) * w;
    MulAtLeast(rows - y, w);
  }

  /** Every index is recovered from its row and column. */
  lemma DivMod(i: int, w: int)
    requires 0 <= i && 0 < w
    ensures i == (i / w) * w + i % w
    ensures 0 <= i / w && 0 <= i % w < w
  {
  }
}
