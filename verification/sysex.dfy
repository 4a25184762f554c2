/** The SysEx prompt indicator: a prompt request is scheduled by an event,
    submitted on the next frame unless the previous prompt is less than
    `Exhaust` ms old, latched once by a frame in a mode that shows the
    indicator, and then blinks for `Duration` ms. Times are milliseconds. */
module SysExPrompt {

  const Exhaust: int := 400
  const Duration: int := 1000
  /** Length of one blink phase: five phases fill the blink window. */
  const Phase: int := 200

  datatype SysExState = SysExState(scheduled: bool, unresolved: bool, awaitEx: int, promptEx: int)

  const Initial := SysExState(false, false, 0, 0)

  /** The display modes whose layout has no indicator (line 278-283). */
  predicate DefaultMode(mode: string)
  {
    mode == "?" || mode == "gs" || mode == "sc" || mode == "gm"
  }

  /** The `mupromptex` event handler (lines 101-104). */
  function Request(s: SysExState): (r: SysExState)
    ensures r.scheduled
    ensures r.unresolved == s.unresolved && r.awaitEx == s.awaitEx && r.promptEx == s.promptEx
  {
    s.(scheduled := true)
  }

  /** Lines 132-141, early in every frame. */
  function Submit(s: SysExState, time: int): (r: SysExState)
    ensures !r.scheduled
    ensures r.promptEx == s.promptEx
    ensures r.unresolved <==> s.unresolved || (s.scheduled && time - s.promptEx > Exhaust)
    ensures r.awaitEx == (if s.scheduled then time else s.awaitEx)
  {
    if s.scheduled then
      SysExState(false, s.unresolved || time - s.promptEx > Exhaust, time, s.promptEx)
    else s
  }

  /** Lines 307-311: in a mode with an indicator, a pending prompt is taken
      once and the blink starts now; other modes leave it pending. */
  function Resolve(s: SysExState, mode: string, time: int): (r: SysExState)
    ensures DefaultMode(mode) ==> r == s
    ensures !DefaultMode(mode) ==> !r.unresolved
    ensures !DefaultMode(mode) && s.unresolved ==> r.promptEx == time
    ensures !s.unresolved ==> r == s
    ensures r.scheduled == s.scheduled && r.awaitEx == s.awaitEx
  {
    if !DefaultMode(mode) && s.unresolved then s.(unresolved := false, promptEx := time) else s
  }

  /** Line 313 with the elapsed time `d` in whole milliseconds:
      `floor(d / 1000 * 5)` is `d / 200`, and `& 1` tests its parity. The
      indicator shows in the first, third and fifth fifth of the blink
      window and is dark in the second and fourth and from 1000 ms on. */
  predicate BlinkOn(d: int)
    ensures 0 <= d ==> (BlinkOn(d) <==> (0 <= d < 200 || 400 <= d < 600 || 800 <= d < 1000))
  {
    d <= Duration && (d / Phase) % 2 == 0
  }

  /** The pattern repeats every two phases inside the window. */
  lemma BlinkPeriodic(d: int)
    requires 0 <= d && d + 2 * Phase < Duration
    ensures BlinkOn(d + 2 * Phase) == BlinkOn(d)
  {
  }

  /** The indicator drawn by a frame at `time`: only outside the default
      modes, and only while the blink is on. */
  predicate ExVisible(s: SysExState, mode: string, time: int)
    ensures ExVisible(s, mode, time) ==> !DefaultMode(mode) && time - s.promptEx <= Duration
    ensures !DefaultMode(mode) && 0 <= time - s.promptEx < Phase ==> ExVisible(s, mode, time)
  {
    !DefaultMode(mode) && BlinkOn(time - s.promptEx)
  }

  /** The SysEx part of one frame: submission, then the one-shot resolve. */
  function Frame(s: SysExState, mode: string, time: int): (r: SysExState)
    ensures !r.scheduled
    ensures !DefaultMode(mode) ==> !r.unresolved
    ensures s.scheduled ==> r.awaitEx == time
  {
    Resolve(Submit(s, time), mode, time)
  }

  /** A request submitted in a mode with an indicator starts a blink now. */
  lemma RequestStartsBlink(s: SysExState, mode: string, time: int)
    requires !DefaultMode(mode) && time - s.promptEx > Exhaust
    ensures Frame(Request(s), mode, time).promptEx == time
    ensures ExVisible(Frame(Request(s), mode, time), mode, time)
  {
  }

  /** Two requests whose frames are at most `Exhaust` ms apart give one
      prompt: the second is dropped and the blink keeps its start. */
  lemma RequestsCoalesce(s: SysExState, mode: string, t1: int, t2: int)
    requires !DefaultMode(mode) && t1 - s.promptEx > Exhaust
    requires t1 <= t2 <= t1 + Exhaust
    ensures var s1 := Frame(Request(s), mode, t1);
      var s2 := Frame(Request(s1), mode, t2);
      s1.promptEx == t1 && s2.promptEx == t1 && !Submit(Request(s1), t2).unresolved
  {
  }

  /** A request further than `Exhaust` ms after the previous prompt does
      start a new one. */
  lemma LateRequestRestarts(s: SysExState, mode: string, t1: int, t2: int)
    requires !DefaultMode(mode) && t1 - s.promptEx > Exhaust
    requires t2 > t1 + Exhaust
    ensures var s1 := Frame(Request(s), mode, t1);
      Frame(Request(s1), mode, t2).promptEx == t2
  {
  }

  /** In a default mode a submitted prompt stays pending across frames, and
      it is shown by the first frame after a switch to another mode. */
  lemma PendingSurvivesDefaultMode(s: SysExState, mode: string, other: string, t1: int, t2: int)
    requires DefaultMode(mode) && !DefaultMode(other)
    requires t1 - s.promptEx > Exhaust
    ensures var s1 := Frame(Request(s), mode, t1);
      s1.unresolved && Frame(s1, other, t2).promptEx == t2
  {
  }
}
