/** The channel-window selector of a frame: which 16-channel ports are on
    screen, where the selected channel wraps to, and which tab layout
    (`rendMode`) is drawn. A port is a group of 16 channels. */
module ChannelWindow {
  import opened Common

  /** The sentinel of `#start` meaning "no explicit start port". */
  const StartUnset: nat := 255

  /** An inclusive channel range [minCh, maxCh]. */
  datatype Window = Window(minCh: nat, maxCh: nat)

  /** Both ends lie on port boundaries and the range is not empty. */
  predicate Aligned(w: Window)
  {
    w.minCh % 16 == 0 && w.maxCh % 16 == 15 && w.minCh <= w.maxCh
  }

  /** Number of ports the window spans. */
  function PortCount(w: Window): (n: nat)
    requires Aligned(w)
    ensures n >= 1 && n * 16 == w.maxCh - w.minCh + 1
  {
    (w.maxCh - w.minCh + 1) / 16
  }

  predicate AnyInUse(inUse: seq<bool>)
  {
    exists i :: 0 <= i < |inUse| && inUse[i]
  }

  /** Index of the first in-use channel, `|inUse|` when there is none. */
  function FirstInUse(inUse: seq<bool>): (r: nat)
    ensures r <= |inUse|
    ensures r < |inUse| ==> inUse[r]
    ensures forall i :: 0 <= i < r ==> !inUse[i]
  {
    if |inUse| == 0 then 0
    else if inUse[0] then 0
    else 1 + FirstInUse(inUse[1..])
  }

  /** Index of the last in-use channel, -1 when there is none. */
  function LastInUse(inUse: seq<bool>): (r: int)
    ensures -1 <= r < |inUse|
    ensures r >= 0 ==> inUse[r]
    ensures forall i :: r < i < |inUse| ==> !inUse[i]
  {
    if |inUse| == 0 then -1
    else if inUse[|inUse| - 1] then |inUse| - 1
    else LastInUse(inUse[..|inUse| - 1])
  }

  /** Lines 143-156: the first and last in-use channel, each widened to its
      port boundary; 0 and 0 (so [0,15]) when no channel is in use. */
  function AutoWindow(inUse: seq<bool>): (w: Window)
    ensures Aligned(w)
    ensures forall i :: 0 <= i < |inUse| && inUse[i] ==> w.minCh <= i <= w.maxCh
    ensures AnyInUse(inUse) ==>
      (exists i :: 0 <= i < |inUse| && inUse[i] && i / 16 == w.minCh / 16) &&
      (exists i :: 0 <= i < |inUse| && inUse[i] && i / 16 == w.maxCh / 16)
    ensures !AnyInUse(inUse) ==> w == Window(0, 15)
  {
    var first := FirstInUse(inUse);
    var last := LastInUse(inUse);
    var minCh := if last < 0 then 0 else first;
    var maxCh := if last < 0 then 0 else last;
    Window((minCh / 16) * 16, (maxCh / 16) * 16 + 15)
  }

  /** Lines 157-162 as written. Line 158 is `minCh + ch & 15`, which groups
      as `(minCh + ch) & 15`; `& 15` of a non-negative value is `% 16`. */
  function WrapChannel(ch: nat, w: Window): (r: nat)
    requires Aligned(w)
    ensures w.minCh <= r <= w.maxCh
    ensures r % 16 == ch % 16
    ensures w.minCh <= ch <= w.maxCh ==> r == ch
  {
    var c1 := if ch > w.maxCh then (w.minCh + ch) % 16 else ch;
    WrapArith(ch, w);
    if c1 < w.minCh then w.maxCh - 15 + c1 % 16 else c1
  }

  lemma WrapArith(ch: nat, w: Window)
    requires Aligned(w)
    ensures (w.minCh + ch) % 16 == ch % 16
    ensures forall c: nat :: (w.maxCh - 15 + c % 16) % 16 == c % 16
  {
    RowCol(w.minCh / 16 + ch / 16, ch % 16, 16);
    forall c: nat ensures (w.maxCh - 15 + c % 16) % 16 == c % 16 {
      RowCol((w.maxCh - 15) / 16, c % 16, 16);
    }
  }

  /** Where a channel past the window lands. Because of the grouping on
      line 158 it drops into port 0 first; unless the window starts at
      port 0 the second test then moves it into the window's LAST port. */
  lemma WrapFromAboveLandsInLastPort(ch: nat, w: Window)
    requires Aligned(w) && ch > w.maxCh && w.minCh > 0
    ensures WrapChannel(ch, w) == w.maxCh - 15 + ch % 16
  {
  }

  /** A channel below the window keeps its sub-channel in the last port. */
  lemma WrapFromBelowLandsInLastPort(ch: nat, w: Window)
    requires Aligned(w) && ch < w.minCh
    ensures WrapChannel(ch, w) == w.maxCh - 15 + ch % 16
  {
  }

  /** Lines 163-170: a non-zero port range replaces the window by `range`
      ports, either the range-aligned port group holding the channel or,
      with an explicit start port, the ports from `start` on. */
  function OverrideWindow(ch: nat, range: nat, start: nat): (w: Window)
    requires range > 0
    ensures Aligned(w)
    ensures PortCount(w) == range
    ensures start == StartUnset ==>
      w.minCh <= ch <= w.maxCh && (w.minCh / 16) % range == 0
    ensures start != StartUnset ==> w.minCh == 16 * start
  {
    var minCh := if start == StartUnset then ((ch / 16) / range * range) * 16 else start * 16;
    var w := Window(minCh, minCh + range * 16 - 1);
    if start == StartUnset then
      OverrideContains(ch, range);
      w
    else
      w
  }

  lemma OverrideContains(ch: nat, range: nat)
    requires range > 0
    ensures ((ch / 16) / range * range) * 16 <= ch < ((ch / 16) / range * range) * 16 + range * 16
    ensures ((((ch / 16) / range * range) * 16) / 16) % range == 0
  {
    var p := ch / 16;
    var q := p / range;
    var base := q * range;
    DivMod(p, range);
    DivMod(ch, 16);
    assert base <= p < base + range;
    MulMono(p, base, 16);
    MulMono(base + range, p + 1, 16);
    assert (base + range) * 16 == base * 16 + range * 16;
    assert (p + 1) * 16 == p * 16 + 16;
    RowCol(base, 0, 16);
    RowCol(q, 0, range);
  }

  /** The smallest `m` with 2^m >= n. */
  function CeilLog2(n: nat): (m: nat)
    requires n >= 1
    ensures Pow2(m) >= n
    ensures m > 0 ==> Pow2(m - 1) < n
    decreases n
  {
    if n == 1 then 0 else 1 + CeilLog2((n + 1) / 2)
  }

  /** Line 172: `ceil(log2(maxCh - minCh + 1) - 4)`, the ceiling of log2 of the
      port count (the floating-point logarithm is computed exactly here). */
  function RenderMode(w: Window): (m: nat)
    requires Aligned(w)
    ensures Pow2(m) >= PortCount(w)
    ensures m > 0 ==> Pow2(m - 1) < PortCount(w)
  {
    CeilLog2(PortCount(w))
  }

  /** For a power-of-two port count the render mode is its exact logarithm. */
  lemma {:induction false} CeilLog2OfPow2(k: nat)
    ensures CeilLog2(Pow2(k)) == k
  {
    var m := CeilLog2(Pow2(k));
    if m < k {
      Pow2Mono(m, k - 1);
      assert false;
    } else if m > k {
      Pow2Mono(k, m - 1);
      assert false;
    }
  }

  lemma {:induction false} Pow2Mono(a: nat, b: nat)
    requires a <= b
    ensures Pow2(a) <= Pow2(b)
    decreases b
  {
    if a < b {
      Pow2Mono(a, b - 1);
    }
  }

  /** Result of the selector: the visible window, the (possibly wrapped)
      selected channel, and the tab layout. */
  datatype Selection = Selection(window: Window, ch: nat, rendMode: nat)

  /** Lines 143-172 as a whole. */
  function Select(inUse: seq<bool>, ch: nat, range: nat, start: nat): (s: Selection)
    ensures Aligned(s.window)
    ensures s.ch % 16 == ch % 16
    ensures AutoWindow(inUse).minCh <= s.ch <= AutoWindow(inUse).maxCh
    ensures range == 0 ==> s.window == AutoWindow(inUse)
    ensures range != 0 ==> PortCount(s.window) == range
    ensures AutoWindow(inUse).minCh <= ch <= AutoWindow(inUse).maxCh ==> s.ch == ch
    ensures range != 0 && start == StartUnset ==> s.window.minCh <= s.ch <= s.window.maxCh
    ensures range != 0 && start == StartUnset ==> (s.window.minCh / 16) % range == 0
    ensures range != 0 && start != StartUnset ==> s.window == Window(16 * start, 16 * start + 16 * range - 1)
    ensures s.rendMode == RenderMode(s.window)
  {
    var auto := AutoWindow(inUse);
    var c := WrapChannel(ch, auto);
    var w := if range != 0 then OverrideWindow(c, range, start) else auto;
    Selection(w, c, RenderMode(w))
  }

  /** With the port range unset, the selected channel is always on screen. */
  lemma AutoSelectionShowsChannel(inUse: seq<bool>, ch: nat, start: nat)
    ensures var s := Select(inUse, ch, 0, start);
      s.window.minCh <= s.ch <= s.window.maxCh
  {
  }

  /** A single active channel 0 with channel 0 selected and no override:
      the first port alone, as four individual port tabs. */
  lemma SinglePortExample(inUse: seq<bool>)
    requires |inUse| >= 1 && inUse[0]
    requires forall i :: 1 <= i < |inUse| ==> !inUse[i]
    ensures Select(inUse, 0, 0, StartUnset) == Selection(Window(0, 15), 0, 0)
  {
  }

  /** A port range of 2 with channel 20 (port B) selected and in use: ports
      A and B, the 32-channel layout. */
  lemma TwoPortOverrideExample(inUse: seq<bool>)
    requires |inUse| > 20 && inUse[20]
    requires forall i :: 0 <= i < |inUse| && i != 20 ==> !inUse[i]
    ensures Select(inUse, 20, 2, StartUnset) == Selection(Window(0, 31), 20, 1)
  {
  }
}
