/** The `Sc8850Display` state and its per-frame pipeline. The wall clock is
    the explicit `time` argument; the composited buffer a frame builds from
    fonts and bitmaps (lines 174-397, drawn with the `Glyph` members) is an
    input of `RenderFrame`. */
module Sc8850 {
  import opened Common
  import opened PixelBuffer
  import opened ChannelWindow
  import opened Linger
  import opened SysExPrompt
  import opened Compositor

  datatype Display = Display(
    lastBg: int,            // time of the last full repaint
    dmdb: seq<Byte>,        // transitional buffer
    omdb: seq<Byte>,        // what the surface currently shows
    meters: seq<Meter>,     // `#linger` and `#lingerExtra`, one per channel
    ch: nat,                // selected channel
    range: nat,             // port range override, 0 for automatic
    start: nat,             // explicit start port, 255 when unset
    mode: string,           // device mode
    useBlur: bool,
    ex: SysExState)

  /** Buffers share the panel's size. */
  predicate Valid(d: Display)
  {
    |d.dmdb| == PixelCount && |d.omdb| == PixelCount
  }

  /** The field initialisers and constructor (lines 57-82). */
  function Init(useBlur: bool, channels: nat): (d: Display)
    ensures Valid(d) && |d.meters| == channels
    ensures d.range == 0 && d.start == StartUnset && d.ch == 0 && d.mode == "?"
    ensures forall i :: 0 <= i < PixelCount ==> d.dmdb[i] == Off && d.omdb[i] == Off
    ensures d.lastBg == 0 && d.useBlur == useBlur && d.ex == Initial
    ensures forall i :: 0 <= i < channels ==> d.meters[i] == Meter(0, 0)
  {
    Display(0, seq(PixelCount, _ => 0), seq(PixelCount, _ => 0),
            seq(channels, _ => Meter(0, 0)), 0, 0, StartUnset, "?", useBlur, Initial)
  }

  /** The notifications the display listens to (lines 83-104). */
  datatype Event =
    | ChannelActive(ch: nat)
    | PortRange(range: nat)
    | PortStart(start: nat)
    | ModeChange(mode: string)
    | PromptEx

  /** A port range is meant to be a power of two; the listener only logs
      other values. */
  predicate PowerOfTwo(n: nat)
  {
    exists k: nat :: k < n && Pow2(k) == n
  }

  /** Applies one notification. The port range and start listeners store
      every value, valid or not. */
  function ApplyEvent(d: Display, e: Event): (r: Display)
    ensures e.ChannelActive? ==> r == d.(ch := e.ch)
    ensures e.PortRange? ==> r == d.(range := e.range)
    ensures e.PortStart? ==> r == d.(start := e.start)
    ensures e.ModeChange? ==> r == d.(mode := e.mode)
    ensures e.PromptEx? ==> r == d.(ex := Request(d.ex)) && r.ex.scheduled
  {
    match e
    case ChannelActive(c) => d.(ch := c)
    case PortRange(n) => d.(range := n)
    case PortStart(s) => d.(start := s)
    case ModeChange(m) => d.(mode := m)
    case PromptEx => d.(ex := Request(d.ex))
  }

  /** A port range of three is not a power of two, and it is stored anyway. */
  lemma PortRangeNotRejected(d: Display)
    ensures !PowerOfTwo(3)
    ensures ApplyEvent(d, PortRange(3)).range == 3
  {
  }

  function SetCh(d: Display, ch: nat): (r: Display)
    ensures GetCh(r) == ch
    ensures r.(ch := d.ch) == d
  {
    d.(ch := ch)
  }

  function GetCh(d: Display): nat
  {
    d.ch
  }

  /** Lines 112-117: clears the port override and the hold counters; the held
      meter values, the buffers and the selected channel survive. */
  function Reset(d: Display): (r: Display)
    ensures r.range == 0 && r.start == StartUnset
    ensures |r.meters| == |d.meters|
    ensures forall i :: 0 <= i < |r.meters| ==> r.meters[i] == Meter(d.meters[i].held, 0)
    ensures r.(range := d.range, start := d.start, meters := d.meters) == d
  {
    d.(range := 0, start := StartUnset,
       meters := seq(|d.meters|, i requires 0 <= i < |d.meters| => d.meters[i].(extra := 0)))
  }

  /** Resetting twice is the same as resetting once. */
  lemma ResetIdempotent(d: Display)
    ensures Reset(Reset(d)) == Reset(d)
  {
  }

  /** Because reset zeroes the hold counters but keeps the held values, the
      first quiet frame after a reset decays the meter at once, with no
      hold phase. */
  lemma ResetSkipsHold(d: Display, i: nat, sample: Byte, renderRange: nat)
    requires i < |d.meters| && sample < d.meters[i].held
    ensures Step(sample, Reset(d).meters[i], renderRange)
         == Meter(Max(0, d.meters[i].held - DecayStep(renderRange)), 0)
  {
  }

  /** What a frame reports beside the new state: the selection, whether the
      "Ex" indicator is drawn, and the paint calls in order. */
  datatype FrameOut = FrameOut(sel: Selection, exOn: bool, paints: seq<Paint>)

  /** One call of `render(time, ctx)` on an input snapshot: in-use channel
      flags and per-channel meter samples, and the buffer composited from
      them (line 398). */
  method RenderFrame(d: Display, time: int, inUse: seq<bool>, velo: seq<Byte>, composed: seq<Byte>)
    returns (r: Display, out: FrameOut)
    requires Valid(d) && |composed| == PixelCount
    requires |velo| == |d.meters|
    ensures Valid(r) && r.omdb == r.dmdb
    ensures r.range == d.range && r.start == d.start && r.mode == d.mode && r.useBlur == d.useBlur
    // refresh timing
    ensures r.lastBg == (if time - d.lastBg >= RefreshInterval then time else d.lastBg)
    // the selection
    ensures out.sel == Select(inUse, d.ch, d.range, d.start) && r.ch == out.sel.ch
    ensures AutoWindow(inUse).minCh <= r.ch <= AutoWindow(inUse).maxCh && r.ch % 16 == d.ch % 16
    // the SysEx prompt
    ensures r.ex == Frame(d.ex, d.mode, time)
    ensures !r.ex.scheduled
    ensures !DefaultMode(d.mode) ==> !r.ex.unresolved
    ensures out.exOn <==> !DefaultMode(d.mode) && BlinkOn(time - r.ex.promptEx)
    // the meters
    ensures |r.meters| == |d.meters|
    ensures forall i :: 0 <= i < |r.meters| ==>
      r.meters[i] == Step(velo[i], d.meters[i], Pow2(out.sel.rendMode))
    // reconcile and paint
    ensures !d.useBlur ==> r.dmdb == composed
    ensures forall i :: 0 <= i < PixelCount ==> Dist(r.dmdb[i], d.dmdb[i]) <= Dist(composed[i], d.dmdb[i])
    ensures forall i :: 0 <= i < PixelCount ==>
      Dist(composed[i], r.dmdb[i]) == Max(0, Dist(composed[i], d.dmdb[i]) - (if d.useBlur then BlurCap else 255))
    ensures forall i :: 0 <= i < PixelCount && composed[i] == d.dmdb[i] ==> r.dmdb[i] == d.dmdb[i]
    ensures forall k :: 0 <= k < |out.paints| ==>
      out.paints[k].index < PixelCount && out.paints[k].shade == Classify(r.dmdb[out.paints[k].index])
    ensures forall k, l :: 0 <= k < l < |out.paints| ==> out.paints[k].index < out.paints[l].index
    ensures forall i: nat :: i < PixelCount ==>
      (i in Painted(out.paints) <==> time - d.lastBg >= RefreshInterval || d.omdb[i] != r.dmdb[i])
    ensures time - d.lastBg < RefreshInterval && d.omdb == d.dmdb && composed == d.dmdb ==> out.paints == []
  {
    var refresh := CheckRefresh(time, d.lastBg);
    var ex := Submit(d.ex, time);
    var sel := Select(inUse, d.ch, d.range, d.start);
    ex := Resolve(ex, d.mode, time);
    var exOn := ExVisible(ex, d.mode, time);
    var meters := StepAll(velo, d.meters, Pow2(sel.rendMode));
    var dmdb := Reconcile(composed, d.dmdb, d.useBlur);
    var paints, omdb := PaintDiff(d.omdb, dmdb, refresh.full);
    if !refresh.full && d.omdb == d.dmdb && composed == d.dmdb {
      assert dmdb == d.dmdb;
      assert |paints| > 0 ==> paints[0].index in Painted(paints);
    }
    r := d.(lastBg := refresh.lastBg, dmdb := dmdb, omdb := omdb, meters := meters, ch := sel.ch, ex := ex);
    out := FrameOut(sel, exOn, paints);
  }
}
