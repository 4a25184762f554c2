/** The meter linger tracker (lines 331-346): a per-channel peak-hold value
    `held` (`#linger[i]`) with a hold counter `extra` (`#lingerExtra[i]`).
    A sample at or above the held value latches it and reloads the counter;
    otherwise the counter runs down in steps of 16 while it is at least 16,
    and once it is below 16 the held value decays by `4 * renderRange`,
    floored at zero. */
module Linger {
  import opened Common

  const HoldReload: Byte := 127
  const HoldStep: nat := 16
  /** Frames a freshly latched value is held before it starts to decay. */
  const HoldFrames: nat := 7

  datatype Meter = Meter(held: Byte, extra: Byte)

  /** Amount the held value loses per decaying frame (line 339). */
  function DecayStep(renderRange: nat): nat { 4 * renderRange }

  /** One frame for one channel. */
  function Step(sample: Byte, m: Meter, renderRange: nat): (r: Meter)
    ensures sample >= m.held ==> r == Meter(sample, HoldReload)
    ensures sample < m.held ==> r.held <= m.held && r.extra <= m.extra
    ensures sample < m.held && m.extra >= HoldStep ==> r == Meter(m.held, m.extra - HoldStep)
    ensures sample < m.held && m.extra < HoldStep ==>
      r.extra == m.extra && r.held == Max(0, m.held - DecayStep(renderRange))
  {
    if sample >= m.held then Meter(sample, HoldReload)
    else if m.extra / 16 != 0 then Meter(m.held, m.extra - 16)
    else
      var v := m.held - 4 * renderRange;
      Meter(held := if v < 0 then 0 else v, extra := m.extra)
  }

  /** The frame over every channel; `velo` holds one sample per channel. */
  function StepAll(velo: seq<Byte>, meters: seq<Meter>, renderRange: nat): (r: seq<Meter>)
    requires |velo| == |meters|
    ensures |r| == |meters|
    ensures forall i :: 0 <= i < |r| ==> r[i] == Step(velo[i], meters[i], renderRange)
  {
    if |velo| == 0 then []
    else [Step(velo[0], meters[0], renderRange)] + StepAll(velo[1..], meters[1..], renderRange)
  }

  /** The frames of one channel, first sample first. */
  function Run(samples: seq<Byte>, m: Meter, renderRange: nat): Meter
    decreases |samples|
  {
    if |samples| == 0 then m else Run(samples[1..], Step(samples[0], m, renderRange), renderRange)
  }

  predicate AllBelow(samples: seq<Byte>, level: int)
  {
    forall k :: 0 <= k < |samples| ==> samples[k] < level
  }

  /** During the hold phase the held value stays put while the counter
      counts down: after `n <= 7` frames without a new peak it reads
      `127 - 16 * n`. */
  lemma {:induction false} HoldPhase(samples: seq<Byte>, held: Byte, renderRange: nat)
    requires |samples| <= HoldFrames && AllBelow(samples, held)
    ensures Run(samples, Meter(held, HoldReload), renderRange) == Meter(held, HoldReload - HoldStep * |samples|)
  {
    HoldFrom(samples, held, 0, renderRange);
  }

  lemma {:induction false} HoldFrom(samples: seq<Byte>, held: Byte, done: nat, renderRange: nat)
    requires done + |samples| <= HoldFrames && AllBelow(samples, held)
    ensures Run(samples, Meter(held, HoldReload - HoldStep * done), renderRange)
         == Meter(held, HoldReload - HoldStep * (done + |samples|))
    decreases |samples|
  {
    if |samples| > 0 {
      assert Step(samples[0], Meter(held, HoldReload - HoldStep * done), renderRange)
          == Meter(held, HoldReload - HoldStep * (done + 1));
      assert AllBelow(samples[1..], held);
      HoldFrom(samples[1..], held, done + 1, renderRange);
    }
  }

  /** Exactly seven quiet frames hold the peak; the eighth starts the decay. */
  lemma HoldThenDecay(samples: seq<Byte>, held: Byte, renderRange: nat)
    requires |samples| == HoldFrames + 1 && AllBelow(samples, held)
    ensures Run(samples[..HoldFrames], Meter(held, HoldReload), renderRange).held == held
    ensures Run(samples, Meter(held, HoldReload), renderRange)
         == Meter(Max(0, held - DecayStep(renderRange)), HoldReload - HoldStep * HoldFrames)
  {
    assert AllBelow(samples[..HoldFrames], held);
    HoldPhase(samples[..HoldFrames], held, renderRange);
    RunSplit(samples, HoldFrames, Meter(held, HoldReload), renderRange);
    var mid := Meter(held, HoldReload - HoldStep * HoldFrames);
    assert samples[HoldFrames..] == [samples[HoldFrames]];
    assert Run(samples[HoldFrames..], mid, renderRange) == Step(samples[HoldFrames], mid, renderRange);
  }

  lemma {:induction false} RunSplit(samples: seq<Byte>, n: nat, m: Meter, renderRange: nat)
    requires n <= |samples|
    ensures Run(samples, m, renderRange) == Run(samples[n..], Run(samples[..n], m, renderRange), renderRange)
    decreases n
  {
    if n > 0 {
      assert samples[..n][1..] == samples[1..][..n - 1];
      assert samples[n..] == samples[1..][n - 1..];
      RunSplit(samples[1..], n - 1, Step(samples[0], m, renderRange), renderRange);
    }
  }

  /** The held value never exceeds the largest of its start value and the
      samples seen since. */
  lemma {:induction false} RunBoundedByPeak(samples: seq<Byte>, m: Meter, renderRange: nat, peak: int)
    requires m.held <= peak && forall k :: 0 <= k < |samples| ==> samples[k] <= peak
    ensures Run(samples, m, renderRange).held <= peak
    decreases |samples|
  {
    if |samples| > 0 {
      RunBoundedByPeak(samples[1..], Step(samples[0], m, renderRange), renderRange, peak);
    }
  }

  /** Every sample stays below the value held when it arrives. */
  predicate Quiet(samples: seq<Byte>, m: Meter, renderRange: nat)
  {
    forall k :: 0 <= k < |samples| ==> samples[k] < Run(samples[..k], m, renderRange).held
  }

  /** Once the samples stop reaching the held value, the held value is
      non-increasing from frame to frame. */
  lemma {:induction false} QuietRunNonIncreasing(samples: seq<Byte>, m: Meter, renderRange: nat, a: nat, b: nat)
    requires Quiet(samples, m, renderRange) && a <= b <= |samples|
    ensures Run(samples[..b], m, renderRange).held <= Run(samples[..a], m, renderRange).held
    decreases b - a
  {
    if a < b {
      var pre := samples[..b];
      RunSplit(pre, b - 1, m, renderRange);
      assert pre[..b - 1] == samples[..b - 1];
      assert pre[b - 1..] == [samples[b - 1]];
      var before := Run(samples[..b - 1], m, renderRange);
      assert samples[b - 1] < before.held;
      assert Run(pre, m, renderRange) == Run([samples[b - 1]], before, renderRange);
      QuietRunNonIncreasing(samples, m, renderRange, a, b - 1);
    }
  }
}
