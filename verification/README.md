# SC-8850 panel display, modelled in Dafny

This project models the per-frame core of `Sc8850Display`
(`src/disp/disp_sc8850.mjs`), the emulation of the 160x64 dot-matrix
status panel of a Roland SC-8850 style MIDI module. Every frame the
display:

- chooses which 16-channel ports are visible and wraps the selected
  channel into that window (`ChannelWindow`);
- updates the peak-hold "linger" value of every channel meter (`Linger`);
- runs the SysEx prompt indicator: submission, exhaustion window, one-shot
  latch and blink (`SysExPrompt`);
- composes text glyphs, pictograms and tabs into a byte-per-pixel buffer
  (`PixelBuffer`, `Glyph`, `Labels`);
- reconciles the composited buffer into a transitional buffer, with an
  optional 48-step blur, and paints only the cells that differ from what
  was last drawn (`Compositor`).

`Sc8850` holds the display state, the event handlers, `reset()` and
`RenderFrame`, which runs those steps in the source's order. The wall
clock (`Date.now()`) is the explicit `time` argument. All buffers are
`seq<Byte>`, where `Byte` is `0..255` like a `Uint8Array` cell.

Four behaviours of the code that are easy to misread:

- With no channel in use, the automatic window is ports A only, `[0,15]`.
  It is not the selected channel's port (`AutoWindow`).
- The `portrange` listener only logs a value that is not a power of two,
  and stores it anyway (`PortRangeNotRejected`). The `portstart` listener
  (line 93) compares the event object itself, not `ev.data`, with 255
  and the port count. That comparison is always false, so it never logs,
  and it always stores the value (`ApplyEvent`).
- Line 158 reads `minCh + ch & 15`. JavaScript groups this as
  `(minCh + ch) & 15`, which equals `ch & 15`. A channel past the window
  therefore first drops into port A. When the window does not start at
  port A, line 161 then moves it into the window's last port, not its
  first. `WrapChannel` models this as written, and
  `WrapFromAboveLandsInLastPort` states where the channel lands.
- `reset()` clears the port override and the hold counters only. Held
  meter values, pixel buffers, the selected channel and the SysEx state
  survive.

## Model

| member | source | states |
|---|---|---|
| `PixelBuffer.FlipByte` | src/disp/disp_sc8850.mjs:26 | a cell goes dark exactly when it was lit (non-zero); the result is always 0 or 255 |
| `PixelBuffer.FlipBits` | src/disp/disp_sc8850.mjs:21-29 | every cell inside the rectangle is inverted, every cell outside keeps its value |
| `PixelBuffer.FillBits` | src/disp/disp_sc8850.mjs:30-38 | every cell inside the rectangle holds `bit`, every cell outside keeps its value |
| `PixelBuffer.FlipTwiceRestores` | src/disp/disp_sc8850.mjs:21-29 | inverting a rectangle twice restores the buffer when the rectangle held only 0 and 255 |
| `PixelBuffer.FlipTwiceSaturates` | src/disp/disp_sc8850.mjs:26 | an intermediate intensity comes back as 255 after two inversions, so the restore needs that precondition |
| `PixelBuffer.FillOverrides` | src/disp/disp_sc8850.mjs:30-38 | a second fill of the same rectangle replaces the first |
| `Glyph.BlitGlyph` | src/disp/disp_sc8850.mjs:177-182 | a cell becomes 255 exactly when a set glyph bit maps to it; all other cells are unchanged |
| `Glyph.HitsAreBox` | src/disp/disp_sc8850.mjs:175-183 | for a glyph that fits within a panel row, the cells hit are exactly the set bits of its box at (offX, offY) |
| `Glyph.NameFieldOverhang` | src/disp/disp_sc8850.mjs:205-213 | the 12th character of the name field overhangs x = 159, and its column 8 lands on column 0 of the next row |
| `Glyph.BlitText` | src/disp/disp_sc8850.mjs:175-183 | a string is drawn glyph by glyph at a fixed pitch; a cell is lit exactly when some glyph covers it, otherwise it is unchanged |
| `Glyph.Apply` | src/disp/disp_sc8850.mjs:234-238 | bitmap bits are OR-ed, XOR-ed (tabs) or copied; a clear bit leaves the cell alone except under copy |
| `Glyph.DrawBitmap` | src/disp/disp_sc8850.mjs:214-216 | a missing bitmap draws nothing; otherwise each cell of its box is combined with its bit and every other cell is unchanged |
| `ChannelWindow.FirstInUse` | src/disp/disp_sc8850.mjs:145-153 | returns the first in-use channel: it is in use and no earlier channel is |
| `ChannelWindow.LastInUse` | src/disp/disp_sc8850.mjs:145-153 | returns the last in-use channel: it is in use and no later channel is |
| `ChannelWindow.AutoWindow` | src/disp/disp_sc8850.mjs:143-156 | both ends lie on port boundaries; every in-use channel is inside; the first and last ports each hold an in-use channel; with none in use the window is [0,15] |
| `ChannelWindow.WrapChannel` | src/disp/disp_sc8850.mjs:157-162 | the wrapped channel is inside the window and keeps its sub-channel (`ch & 15`); a channel already inside is untouched |
| `ChannelWindow.WrapFromAboveLandsInLastPort` | src/disp/disp_sc8850.mjs:157-162 | a channel past a window that does not start at port A lands in the window's last port |
| `ChannelWindow.WrapFromBelowLandsInLastPort` | src/disp/disp_sc8850.mjs:160-162 | a channel below the window lands in its last port |
| `ChannelWindow.PortCount` | src/disp/disp_sc8850.mjs:172 | an aligned window spans a whole, positive number of 16-channel ports |
| `ChannelWindow.OverrideWindow` | src/disp/disp_sc8850.mjs:163-170 | the window is exactly `range` ports and aligned; with the start unset it is the range-aligned group that holds the channel; otherwise it starts at port `start` |
| `ChannelWindow.CeilLog2` | src/disp/disp_sc8850.mjs:172 | the result is the least m with 2^m >= n |
| `ChannelWindow.RenderMode` | src/disp/disp_sc8850.mjs:172 | the render mode is the ceiling of log2 of the visible port count |
| `ChannelWindow.CeilLog2OfPow2` | src/disp/disp_sc8850.mjs:172 | for 2^k ports the render mode is exactly k |
| `ChannelWindow.Select` | src/disp/disp_sc8850.mjs:143-172 | combines the steps: aligned window, wrapped channel in the automatic window with its sub-channel kept, override window of `range` ports pinned at `start` or holding the channel, and the matching render mode |
| `ChannelWindow.AutoSelectionShowsChannel` | src/disp/disp_sc8850.mjs:143-162 | without a port override the selected channel is always on screen |
| `ChannelWindow.SinglePortExample` | src/disp/disp_sc8850.mjs:143-172 | only channel 0 in use and selected gives window [0,15] and render mode 0 |
| `ChannelWindow.TwoPortOverrideExample` | src/disp/disp_sc8850.mjs:163-172 | port range 2 with channel 20 selected gives window [0,31] and render mode 1 |
| `Linger.Step` | src/disp/disp_sc8850.mjs:331-346 | a sample at or above the held value latches it and reloads the counter to 127; otherwise the value never rises, the counter drops by 16 while it is at least 16, then the value decays by 4 x renderRange, floored at 0 |
| `Linger.StepAll` | src/disp/disp_sc8850.mjs:331 | every channel's meter takes one step with its own sample |
| `Linger.HoldPhase` | src/disp/disp_sc8850.mjs:334-338 | after n <= 7 quiet frames from a fresh peak, the value is held and the counter reads 127 - 16n |
| `Linger.HoldThenDecay` | src/disp/disp_sc8850.mjs:332-345 | exactly seven quiet frames hold the peak; the eighth lowers it by 4 x renderRange, floored at 0 |
| `Linger.RunBoundedByPeak` | src/disp/disp_sc8850.mjs:332-345 | the held value never exceeds the largest of its start value and the samples seen |
| `Linger.QuietRunNonIncreasing` | src/disp/disp_sc8850.mjs:335-345 | while no sample reaches the held value, the held value does not increase from frame to frame |
| `SysExPrompt.Request` | src/disp/disp_sc8850.mjs:101-104 | a prompt request only marks the prompt as scheduled |
| `SysExPrompt.Submit` | src/disp/disp_sc8850.mjs:132-141 | after a frame nothing is scheduled; a scheduled prompt becomes pending only if the last prompt is more than 400 ms old; the await time becomes `time` only when a prompt was scheduled |
| `SysExPrompt.Resolve` | src/disp/disp_sc8850.mjs:307-311 | outside the ?/gs/sc/gm modes a pending prompt is consumed once and restarts the blink at `time`; in those modes the state is untouched |
| `SysExPrompt.BlinkOn` | src/disp/disp_sc8850.mjs:312-313 | for a non-negative elapsed time the blink is on exactly on [0,200), [400,600) and [800,1000) ms, so it is off on [200,400), [600,800) and from 1000 ms on |
| `SysExPrompt.BlinkPeriodic` | src/disp/disp_sc8850.mjs:312-313 | inside the window the blink repeats every 400 ms |
| `SysExPrompt.ExVisible` | src/disp/disp_sc8850.mjs:307-313 | the indicator shows only outside the ?/gs/sc/gm modes and at most 1000 ms after the prompt started; outside those modes it always shows for the first 200 ms |
| `SysExPrompt.Frame` | src/disp/disp_sc8850.mjs:132-141 | a frame leaves nothing scheduled, nothing pending outside the default modes, and records the await time of a scheduled prompt |
| `SysExPrompt.RequestStartsBlink` | src/disp/disp_sc8850.mjs:307-313 | a request made long enough after the previous prompt is shown by the same frame, with the blink starting at that frame |
| `SysExPrompt.RequestsCoalesce` | src/disp/disp_sc8850.mjs:132-141 | a second request at most 400 ms after the first is dropped, and the blink keeps its start |
| `SysExPrompt.LateRequestRestarts` | src/disp/disp_sc8850.mjs:132-141 | a request more than 400 ms after the last prompt restarts the blink |
| `SysExPrompt.PendingSurvivesDefaultMode` | src/disp/disp_sc8850.mjs:278-311 | in a default mode a submitted prompt stays pending; the first frame in another mode shows it |
| `Compositor.BlurCell` | src/disp/disp_sc8850.mjs:400-411 | without blur a cell snaps to its target; with blur it moves toward the target by min(48, distance) without overshooting; equal cells are untouched |
| `Compositor.Reconcile` | src/disp/disp_sc8850.mjs:399-413 | without blur the transitional buffer equals the composited one; with blur each cell's distance to its target shrinks by 48 or to 0; equal cells are untouched |
| `Compositor.BlurFrames` | src/disp/disp_sc8850.mjs:399-413 | after n blurred frames on a fixed target each cell is within max(0, d - 48n) of it |
| `Compositor.BlurConverges` | src/disp/disp_sc8850.mjs:402-408 | six blurred frames on a fixed target always reach it |
| `Compositor.CheckRefresh` | src/disp/disp_sc8850.mjs:125-130 | a full refresh happens exactly when an hour has passed since the last one, and it restarts the hour |
| `Compositor.RefreshAtMostHourly` | src/disp/disp_sc8850.mjs:125-130 | two full refreshes are at least an hour apart |
| `Compositor.Classify` | src/disp/disp_sc8850.mjs:422-428 | 0 paints unlit, 255 paints lit, any other value an intermediate shade of that value |
| `Compositor.PaintDiff` | src/disp/disp_sc8850.mjs:415-438 | cells are painted in index order, each with its shade; the painted cells are exactly those that differ from the last drawn frame, or all cells on a full refresh; afterwards the drawn buffer equals the transitional one |
| `Labels.NatToDecimal` | src/disp/disp_sc8850.mjs:195 | a number is written as a non-empty digit string with no leading zero |
| `Labels.DecimalRoundTrip` | src/disp/disp_sc8850.mjs:195 | reading back a written number gives the number |
| `Labels.PadStart` | src/disp/disp_sc8850.mjs:175 | the padded string has the requested length, ends with the original and is filled in front |
| `Labels.PadEnd` | src/disp/disp_sc8850.mjs:205 | the padded string has the requested length, starts with the original and is filled behind |
| `Labels.ZeroPadValue` | src/disp/disp_sc8850.mjs:195 | leading zeros do not change a number's value |
| `Labels.PortLetter` | src/disp/disp_sc8850.mjs:175 | ports 0-7 are the letters A-H |
| `Labels.ChannelLabel` | src/disp/disp_sc8850.mjs:175 | for each of the 128 channels the label is the port letter followed by two digits reading the 1-based channel within the port |
| `Labels.ChannelLabelRoundTrip` | src/disp/disp_sc8850.mjs:175 | for each of the 128 channels the label (e.g. "A01") has three characters and reads back as that channel |
| `Labels.ProgramLabel` | src/disp/disp_sc8850.mjs:195 | the label is at least three digits and reads as the program number plus one; programs 0-998 take exactly three |
| `Labels.FitName` | src/disp/disp_sc8850.mjs:205 | the name field has 12 characters: the first 12 of the name, then spaces |
| `Labels.FitNameIdempotent` | src/disp/disp_sc8850.mjs:205 | fitting an already fitted name changes nothing |
| `Labels.TabText` | src/disp/disp_sc8850.mjs:249 | views 0-2 read as two digits giving 16, 32 or 64 channels, then "CH-" and the window's first port letter; view 3 reads "128CH" |
| `Labels.TabTextExamples` | src/disp/disp_sc8850.mjs:249 | the view captions read 16CH-x, 32CH-x, 64CH-x and 128CH |
| `Labels.PartTabs` | src/disp/disp_sc8850.mjs:219-242 | mode 0 shows the four ports of the channel's group as PART-x; only the channel's own port is selected, drawn one row lower |
| `Labels.ViewTabs` | src/disp/disp_sc8850.mjs:243-267 | modes 1-3 show the four channel-count views at 40-pixel spacing, captioned by `TabText`; only the current mode's tab is selected |
| `Labels.TabLayout` | src/disp/disp_sc8850.mjs:218-268 | modes 0-3 draw four tabs with exactly one selected; any other mode draws none |
| `Labels.ToUpper` | src/disp/disp_sc8850.mjs:286 | upper-casing keeps the length, leaves no lower-case letter, turns each lower-case letter into its capital and keeps every other character |
| `Labels.ToUpperIdempotent` | src/disp/disp_sc8850.mjs:286 | upper-casing an upper-cased string changes nothing |
| `Labels.ModeTag` | src/disp/disp_sc8850.mjs:286 | a mode in the table shows its two-letter tag, upper-cased; any other mode shows its own name, upper-cased |
| `Labels.ModeTagExamples` | src/disp/disp_sc8850.mjs:40-54 | mt32 shows MT, motif shows ES, ? shows two spaces, and an unlisted mode such as xg shows XG |
| `Sc8850.Init` | src/disp/disp_sc8850.mjs:57-73 | a new display has panel-sized dark buffers, no port override, channel 0, mode "?", refresh time 0, zeroed meters, the initial SysEx state and the requested blur setting |
| `Sc8850.ApplyEvent` | src/disp/disp_sc8850.mjs:83-104 | each notification sets exactly its own field; a prompt request schedules the prompt |
| `Sc8850.PortRangeNotRejected` | src/disp/disp_sc8850.mjs:86-91 | a port range that is not a power of two is stored anyway |
| `Sc8850.SetCh` | src/disp/disp_sc8850.mjs:106-111 | after setting a channel, `getCh` returns it and nothing else has changed |
| `Sc8850.Reset` | src/disp/disp_sc8850.mjs:112-117 | reset clears the port range, start and hold counters; held values and every other field survive |
| `Sc8850.ResetSkipsHold` | src/disp/disp_sc8850.mjs:112-117 | after a reset a meter below its held value decays on the very next frame, with no seven-frame hold |
| `Sc8850.ResetIdempotent` | src/disp/disp_sc8850.mjs:112-117 | resetting twice equals resetting once |
| `Sc8850.RenderFrame` | src/disp/disp_sc8850.mjs:118-438 | one frame keeps the override fields; updates refresh time, selection, SysEx state (one `Frame` step), meters and buffers as the steps above state: each cell's distance to the composited value shrinks by the blur cap, equal cells stay, paints come in index order with each cell's shade; a frame that changes nothing paints nothing |

## Left out

- Drawing-surface calls: `fillRect`, `clearRect`, colours, `backlight`,
  `lcdCache` and `lcdPixel` (lines 125-129, 418-429). Their colour module
  is not part of this model. Paint calls are modelled as a cell index plus
  a three-way shade.
- Font and bitmap asset loading (`MxFont40`, `MxFont176`, `MxBmDef`, lines
  74-78) is not modelled. Glyphs are `seq<bool>` inputs, bitmaps are
  rows of bits, and a missing bitmap is `None`.
- The frame layout of lines 174-397 is not assembled into one function.
  That layout decides which string or bitmap goes at which offset.
  `RenderFrame` takes the composited buffer as an input. The drawing
  primitives, the label strings and the tab layout are modelled
  separately.
- Meter bar geometry (lines 328-330, 362-371) is not modelled. It uses
  floating-point heights and dividers. Only `renderRange = 2^rendMode`
  enters the model, as the linger decay step.
- The override bitmap path (lines 349-360) is not modelled. It depends on
  an external payload and its expiry time.
- The effect and bank pictograms (lines 374-397) use external device
  queries. Only their drawing primitive (`Glyph.DrawBitmap` with OR) is
  modelled.
- External collaborators (`RootDisplay.render`, `getChVoice`,
  `getMapped`, `getChBm`, `getChMode`, `getEffectSink`, `ccToPos`) become
  inputs or are not modelled.
- Event wiring, `console.debug`, `getDebugState` and the
  `self.pixelUpdates` counter are side channels and are left out.
- `Glyph.DrawBitmap`, `PixelBuffer.FillBits`, `PixelBuffer.FlipBits`:
  these require the rectangle or bitmap to lie inside the buffer's rows.
  JavaScript silently drops out-of-range typed-array writes, and a row
  overhang would carry into the next row. Glyph blits do model the
  carry-over.
- `ChannelWindow.Select`: JavaScript's `>>` and `<<` work on 32-bit
  integers. The model uses unbounded naturals, which agree for the
  channel and port values the display uses.
- `ChannelWindow.RenderMode`: `Math.ceil(Math.log2(...) - 4)` is computed
  with an exact integer ceiling logarithm rather than floating point.
- `SysExPrompt.BlinkOn` uses whole-millisecond elapsed time.
  `floor(d / 1000 * 5)` becomes `d / 200`, with no floating-point rounding.
- `Labels.ModeTag`: `toUpperCase` is modelled for ASCII letters only. A
  mode name that hits an inherited object property such as `toString` is
  not modelled.
- `Labels.FitName`: `slice(0, 12)` and `padEnd` count UTF-16 code units,
  while the model counts code points. The two differ for names with
  characters outside the Basic Multilingual Plane.
- `Glyph.BlitGlyph`, `Glyph.BlitText`: these require every glyph bit, set
  or clear, to land inside the buffer. JavaScript drops out-of-range
  writes instead.
- `reset()` first calls `super.reset()` (line 113). The base display
  class is not part of this model.
- The standard label of line 296 (shown beside the mode tag unless it is
  GM or equals the tag) belongs to the frame layout and is not modelled.
