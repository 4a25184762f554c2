/** The diff/blur compositor at the end of a frame. The composited buffer
    `nmdb` is reconciled into the transitional buffer `dmdb` (lines 399-413),
    then every cell of `dmdb` that differs from the last-drawn buffer `omdb`
    is painted, all cells on a full refresh, and `omdb` is brought up to
    date (lines 415-438). */
module Compositor {
  import opened Common
  import opened PixelBuffer

  /** Largest per-frame change of a cell while blurring. */
  const BlurCap: nat := 48
  /** A full repaint of the backlight every hour (line 125). */
  const RefreshInterval: int := 3600000

  /** Lines 400-411 for one cell: `target` from `nmdb`, `cur` from `dmdb`. */
  function BlurCell(target: Byte, cur: Byte, useBlur: bool): (r: Byte)
    ensures !useBlur ==> r == target
    ensures cur == target ==> r == cur
    ensures Dist(r, cur) == (if useBlur then Min(BlurCap, Dist(target, cur)) else Dist(target, cur))
    ensures Dist(target, r) + Dist(r, cur) == Dist(target, cur)
  {
    if cur != target then
      if useBlur then
        var diff := target - cur;
        if Abs(diff) > BlurCap then cur + (if diff > 0 then 1 else -1) * BlurCap
        else target
      else target
    else cur
  }

  /** Reconciles the whole transitional buffer, one cell at a time. */
  method Reconcile(nmdb: seq<Byte>, dmdb: seq<Byte>, useBlur: bool) returns (out: seq<Byte>)
    requires |nmdb| == |dmdb|
    ensures |out| == |dmdb|
    ensures !useBlur ==> out == nmdb
    ensures forall i :: 0 <= i < |out| && nmdb[i] == dmdb[i] ==> out[i] == dmdb[i]
    ensures forall i :: 0 <= i < |out| ==>
      Dist(nmdb[i], out[i]) == Max(0, Dist(nmdb[i], dmdb[i]) - (if useBlur then BlurCap else 255))
    ensures forall i :: 0 <= i < |out| ==> Dist(out[i], dmdb[i]) <= Dist(nmdb[i], dmdb[i])
  {
    out := dmdb;
    var i := 0;
    while i < |nmdb|
      invariant 0 <= i <= |nmdb|
      invariant |out| == |dmdb|
      invariant forall k :: 0 <= k < i ==> out[k] == BlurCell(nmdb[k], dmdb[k], useBlur)
      invariant forall k :: i <= k < |out| ==> out[k] == dmdb[k]
    {
      if out[i] != nmdb[i] {
        out := out[i := BlurCell(nmdb[i], out[i], useBlur)];
      }
      i := i + 1;
    }
  }

  /** Distance of the transitional buffer from its target after `n` blurred
      frames that all composited the same `target`: at most 255 - 48n. */
  function BlurFrames(target: seq<Byte>, cur: seq<Byte>, n: nat): (r: seq<Byte>)
    requires |target| == |cur|
    ensures |r| == |cur|
    ensures forall i :: 0 <= i < |r| ==> Dist(target[i], r[i]) <= Max(0, Dist(target[i], cur[i]) - BlurCap * n)
    decreases n
  {
    if n == 0 then cur
    else
      var next := seq(|cur|, i requires 0 <= i < |cur| => BlurCell(target[i], cur[i], true));
      BlurFrames(target, next, n - 1)
  }

  /** Six blurred frames always reach the target: no cell is further than
      255 from it and each frame closes 48 of the gap. */
  lemma BlurConverges(target: seq<Byte>, cur: seq<Byte>)
    requires |target| == |cur|
    ensures BlurFrames(target, cur, 6) == target
  {
  }

  /** Lines 125-130: whether this frame repaints everything, and the new
      time of the last background repaint. */
  datatype Refresh = Refresh(full: bool, lastBg: int)

  function CheckRefresh(time: int, lastBg: int): (r: Refresh)
    ensures r.full <==> time - lastBg >= RefreshInterval
    ensures r.lastBg == (if r.full then time else lastBg)
  {
    if time - lastBg >= RefreshInterval then Refresh(true, time) else Refresh(false, lastBg)
  }

  /** Full refreshes are at least an hour apart. */
  lemma RefreshAtMostHourly(t0: int, lastBg: int, t1: int)
    requires CheckRefresh(t0, lastBg).full && t0 <= t1 < t0 + RefreshInterval
    ensures !CheckRefresh(t1, CheckRefresh(t0, lastBg).lastBg).full
  {
  }

  /** The three colours a cell is painted with (lines 422-428): unlit, fully
      lit, or an intermediate shade proportional to the intensity. */
  datatype Shade = Unlit | Full | Partial(level: Byte)

  function Classify(e: Byte): (s: Shade)
    ensures s == Unlit <==> e == Off
    ensures s == Full <==> e == Lit
    ensures s.Partial? ==> s.level == e && Off < e < Lit
  {
    if e <= Off then Unlit else if e >= Lit then Full else Partial(e)
  }

  /** One surface paint call: cell index and colour. */
  datatype Paint = Paint(index: nat, shade: Shade)

  /** Indices of a paint list. */
  function Painted(paints: seq<Paint>): set<nat>
  {
    set k | 0 <= k < |paints| :: paints[k].index
  }

  lemma PaintedAppend(paints: seq<Paint>, p: Paint)
    ensures Painted(paints + [p]) == Painted(paints) + {p.index}
  {
    var q := paints + [p];
    assert q[|paints|] == p;
    forall x | x in Painted(q) ensures x in Painted(paints) + {p.index} {
      var k :| 0 <= k < |q| && q[k].index == x;
      if k < |paints| { assert paints[k] == q[k]; }
    }
    forall x | x in Painted(paints) ensures x in Painted(q) {
      var k :| 0 <= k < |paints| && paints[k].index == x;
      assert q[k] == paints[k];
    }
  }

  /** The cells a frame must paint: every cell on a full refresh, otherwise
      exactly those whose new value differs from the drawn one. */
  function MustPaint(omdb: seq<Byte>, dmdb: seq<Byte>, fullRefresh: bool, upTo: nat): set<nat>
    requires |omdb| == |dmdb|
  {
    set i: nat | i < upTo && i < |dmdb| && (fullRefresh || omdb[i] != dmdb[i])
  }

  /** Lines 415-438: paints, in index order, every cell that differs from the
      last drawn frame (every cell on a full refresh), then records the
      drawn frame. */
  method PaintDiff(omdb: seq<Byte>, dmdb: seq<Byte>, fullRefresh: bool) returns (paints: seq<Paint>, drawn: seq<Byte>)
    requires |omdb| == |dmdb|
    ensures drawn == dmdb
    ensures forall k :: 0 <= k < |paints| ==>
      paints[k].index < |dmdb| && paints[k].shade == Classify(dmdb[paints[k].index])
    ensures forall k, l :: 0 <= k < l < |paints| ==> paints[k].index < paints[l].index
    ensures forall i: nat :: i < |dmdb| ==> (i in Painted(paints) <==> fullRefresh || omdb[i] != dmdb[i])
  {
    paints := [];
    var i := 0;
    while i < |dmdb|
      invariant 0 <= i <= |dmdb|
      invariant forall k :: 0 <= k < |paints| ==>
        paints[k].index < i && paints[k].shade == Classify(dmdb[paints[k].index])
      invariant forall k, l :: 0 <= k < l < |paints| ==> paints[k].index < paints[l].index
      invariant Painted(paints) == MustPaint(omdb, dmdb, fullRefresh, i)
    {
      if fullRefresh || omdb[i] != dmdb[i] {
        PaintedAppend(paints, Paint(i, Classify(dmdb[i])));
        paints := paints + [Paint(i, Classify(dmdb[i]))];
      }
      assert MustPaint(omdb, dmdb, fullRefresh, i + 1)
          == MustPaint(omdb, dmdb, fullRefresh, i) + (if fullRefresh || omdb[i] != dmdb[i] then {i} else {});
      i := i + 1;
    }
    assert forall j: nat :: j < |dmdb| ==> (j in MustPaint(omdb, dmdb, fullRefresh, |dmdb|) <==> fullRefresh || omdb[j] != dmdb[j]);
    drawn := omdb;
    i := 0;
    while i < |dmdb|
      invariant 0 <= i <= |dmdb|
      invariant |drawn| == |dmdb|
      invariant forall k :: 0 <= k < i ==> drawn[k] == dmdb[k]
      invariant forall k :: i <= k < |drawn| ==> drawn[k] == omdb[k]
    {
      if drawn[i] != dmdb[i] {
        drawn := drawn[i := dmdb[i]];
      }
      i := i + 1;
    }
  }
}
