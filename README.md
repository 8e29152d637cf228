# CreateJS SVGA player — a verified model

This project models the CreateJS `Player` of SVGAPlayer-Web (`src/CreateJS/player.js`). The player is a
display container. It plays a parsed frame-based animation (a "video item") one frame per due host tick.
It fits the animation's canvas into a target frame (Fill, AspectFit, AspectFill). It can clip to that frame.
It also holds per-layer image and text overrides and rebuilds its layers when they change.

Modules:

- `Optional` (`Optional.dfy`): the `Option` type, standing for JavaScript's `undefined`.
- `Geometry` (`Geometry.dfy`): `_resize` as the pure function `Resize`, and `_updateMask` as `MaskFor`.
  Sizes are exact reals. The target frame's aspect ratio is a JavaScript quotient (`JsNumber`: finite,
  ±Infinity or NaN). So a 0x0 or zero-height frame (the default is 0x0) follows JavaScript's comparison rules.
  It is not excluded.
- `Timeline` (`Timeline.dfy`): the counter rules of `_next` (`Advance`, `Run`, `Finishes`), the reported
  percentage, the truncate-then-clamp of `stepToPercentage`, and the deadline `_onTick` re-arms.
- `Overrides` (`Overrides.dfy`): the transform validation of `setImage` and the text normalisation of `setText`.
- `CreateJS` (`Player.dfy`): the class `Player` with the source's fields. Its methods update them in place.
  The tick-listener subscription is a count (`tickListeners`). Adding a listener increments it and removing
  the current one decrements it; `Valid()` keeps it at most 1. Renderer `drawFrame(i)` calls and user
  callbacks go to a ghost `trace` of `Event`s. Every method's `modifies` clause names (with ``this`field``) exactly
  the fields it may change.

Behaviour of the code worth knowing:

- 100x100 content in a 200x100 frame under AspectFit gets scale 1 and `tx` 50 (`Geometry.AspectFitExample`).
- Zero-sized frames are not rejected; the code divides anyway. The model keeps JavaScript's quotients:
  with a 0x0 frame, neither aspect branch runs and the scale stays 1 (`Geometry.EmptyFrameKeepsIdentity`).
- `_updateMask`'s size cache never takes effect, and the mask is rebuilt on every update, so `MaskFor`
  has no cache.
- `stepToFrame(f, true)` does not resume playback. Its `andPlay` branch calls `this.render.AddTimer`, and
  the class has no `render`, so it throws after the seek. The model returns that failure as `threw`.

## Model

| member | source | states |
|---|---|---|
| `Geometry.Resize` | src/CreateJS/player.js:217-238 | Fill stretches each axis exactly onto the target and keeps the frame origin. Any other mode string gives scale 1 at the frame origin. Every mode except Fill scales uniformly. |
| `Geometry.Divide` | src/CreateJS/player.js:227 | the view ratio is the exact quotient for a non-zero height. For a zero height it is NaN exactly when the width is also 0, and an infinity otherwise |
| `Geometry.WidthFit` | src/CreateJS/player.js:229-230 | the width branch scales uniformly so the content's width is the target's, at the target's left edge, with equal margins above and below |
| `Geometry.HeightFit` | src/CreateJS/player.js:233-234 | the height branch scales uniformly so the content's height is the target's, at the target's top edge, with equal margins left and right |
| `Geometry.AspectFitContains` | src/CreateJS/player.js:225-235 | for positive sizes, AspectFit content lies inside the target, has equal margins on opposite sides, and fills the target along one axis |
| `Geometry.AspectFillCovers` | src/CreateJS/player.js:225-235 | for positive sizes, AspectFill content covers the whole target, is centred, and matches the target along one axis |
| `Geometry.TieTakesWidthBranch` | src/CreateJS/player.js:228-231 | equal image and view ratios send both aspect modes down the width branch, and the height branch would give the same transform |
| `Geometry.EmptyFrameKeepsIdentity` | src/CreateJS/player.js:225-237 | a 0x0 target gives a NaN view ratio, so both aspect modes leave scale 1 at the frame origin |
| `Geometry.AspectFitExample` | src/CreateJS/player.js:225-237 | 100x100 into 200x100 under AspectFit gives scale 1, tx 50, ty 0 |
| `Geometry.MaskFor` | src/CreateJS/player.js:240-253 | a mask exists exactly when clipping is on, and it is the rectangle (0, 0, frame width, frame height) |
| `Timeline.Advance` | src/CreateJS/player.js:185-188 | one advance keeps an in-range frame in range, and a wrap lands on frame 0 |
| `Timeline.AdvanceElapsed` | src/CreateJS/player.js:185-188 | from an in-range frame, one advance moves the elapsed frame count (loops × frames + frame) up by exactly one |
| `Timeline.Run` | src/CreateJS/player.js:184-188 | after N advances from frame 0 of loop 0 the frame is in range and exactly N frames have elapsed (loops × frames + frame) |
| `Timeline.RunClosedForm` | src/CreateJS/player.js:184-188 | N advances from frame 0 of loop 0 give frame N mod frames and loop count N div frames |
| `Timeline.Finishes` | src/CreateJS/player.js:186-189 | an advance ends playback exactly when it wraps and the loop count it reaches is at least a positive loop limit |
| `Timeline.FinishesExactlyAtLimit` | src/CreateJS/player.js:186-198 | with a loop limit L > 0, the advance from Run(n) ends playback exactly when it is advance number L × frames, so the finished callback fires once |
| `Timeline.Percentage` | src/CreateJS/player.js:204-206 | the percentage reported for an in-range frame lies in (0, 1] and equals 1 only at the last frame |
| `Timeline.Trunc` | src/CreateJS/player.js:94 | `parseInt` of a number truncates toward zero: within one below a non-negative input, within one above a negative one |
| `Timeline.FrameForPercentage` | src/CreateJS/player.js:94-97 | the seek target never passes the last frame, and every non-negative fraction gives an in-range frame |
| `Timeline.SeekInRange` | src/CreateJS/player.js:93-98 | seeking by fraction reaches an in-range frame exactly when fraction × frames > -1. Every fraction from the count upward is clamped to the last frame. |
| `Timeline.SeekToFrameFraction` | src/CreateJS/player.js:93-98 | in exact arithmetic, seeking by k / frames lands on frame k for every in-range k |
| `Timeline.SeekToReportedPercentage` | src/CreateJS/player.js:93-98 | in exact arithmetic, seeking by the percentage reported for frame k lands on frame k + 1, or on the last frame |
| `Timeline.SeekExamples` | src/CreateJS/player.js:93-98 | with 10 frames, 0.55 seeks to frame 5 and 1.0 to frame 9 |
| `Timeline.NextDeadline` | src/CreateJS/player.js:178 | the re-armed deadline is at most one nominal frame interval after now. At 880 fps or less it is strictly after now, so a second tick at the same instant does not advance. |
| `Overrides.AcceptedTransform` | src/CreateJS/player.js:103-105 | a transform is kept exactly when it is an array of six components, and then unchanged |
| `Overrides.NormalizeText` | src/CreateJS/player.js:115-120 | every stored record has a non-empty size and colour. A bare string gets size "14px", family "", colour "#000000" and offset (0,0). |
| `Overrides.StyledFields` | src/CreateJS/player.js:116-120 | the defaulting table, field by field: a style record keeps each non-empty field it gives and defaults each absent or empty one; the text is never defaulted |
| `Overrides.NormalizeIsFixedPoint` | src/CreateJS/player.js:116-120 | a normalised record passed back as a style record normalises to itself |
| `Overrides.PlainIsTextOnlyStyle` | src/CreateJS/player.js:116-120 | a bare string is treated like a style record that gives only the text |
| `CreateJS.Player.constructor` | src/CreateJS/player.js:159-173 | a new player has the source's defaults: no item, AspectFit, no loop limit, clearing after stop, Forward fill, a 0x0 frame, empty override maps, no listener |
| `CreateJS.Player.LoadSucceeded` | src/CreateJS/player.js:14-18 | a parsed item is installed and frame 0 drawn. Unless autoplay is exactly `false`, the player also starts (visible, one listener, loop 0). |
| `CreateJS.Player.LoadFailed` | src/CreateJS/player.js:19-21 | a load failure reaches the error callback only if one is registered |
| `CreateJS.Player.SetVideoItem` | src/CreateJS/player.js:25-30 | the new item is installed at frame 0. The children become one layer per sprite, in order. The layout is refitted and frame 0 drawn. |
| `CreateJS.Player.SetContentMode` | src/CreateJS/player.js:32-35 | stores the mode, then refits and redraws if an item is loaded |
| `CreateJS.Player.SetClipsToBounds` | src/CreateJS/player.js:37-40 | stores the flag, then re-masks and redraws if an item is loaded |
| `CreateJS.Player.SetFrame` | src/CreateJS/player.js:42-45 | stores the target frame, then refits and redraws if an item is loaded |
| `CreateJS.Player.StartAnimation` | src/CreateJS/player.js:47-57 | afterwards the player is visible at frame 0 of loop 0 with exactly one tick listener, because the old listener is removed first |
| `CreateJS.Player.PauseAnimation` | src/CreateJS/player.js:59-61 | removes the listener and changes neither visibility, frame nor loop count |
| `CreateJS.Player.StopAnimation` | src/CreateJS/player.js:63-71 | removes the listener and hides the player when `clear` holds (by default `clearsAfterStop`) |
| `CreateJS.Player.Clear` | src/CreateJS/player.js:73-78 | hides the player |
| `CreateJS.Player.StepToFrame` | src/CreateJS/player.js:80-91 | an out-of-range frame changes nothing. An in-range frame makes the player visible, paused, at that frame, refitted and drawn. The call then fails exactly when `andPlay` is set. |
| `CreateJS.Player.StepToPercentage` | src/CreateJS/player.js:93-99 | steps to `FrameForPercentage(percentage, frames)` with the same effect as StepToFrame |
| `CreateJS.Player.SetImage` | src/CreateJS/player.js:101-113 | the image is always stored, and a transform only when it has six components. A loaded player rebuilds its layers (drawing frame 0) and returns to the frame shown before. |
| `CreateJS.Player.SetText` | src/CreateJS/player.js:115-131 | the normalised text record is stored. A loaded player rebuilds its layers and returns to the frame shown before. |
| `CreateJS.Player.ClearDynamicObjects` | src/CreateJS/player.js:133-137 | all three override maps become empty; nothing is redrawn |
| `CreateJS.Player.OnError` | src/CreateJS/player.js:139-141 | registers (or clears) the single error callback; the load-failure path calls it whenever the stored value is truthy, not only when it is a function |
| `CreateJS.Player.OnFinished` | src/CreateJS/player.js:143-145 | registers (or clears) the single finished callback |
| `CreateJS.Player.OnFrame` | src/CreateJS/player.js:147-149 | registers (or clears) the single frame callback |
| `CreateJS.Player.OnPercentage` | src/CreateJS/player.js:151-153 | registers (or clears) the single percentage callback |
| `CreateJS.Player.OnTick` | src/CreateJS/player.js:175-182 | called only while its tick listener is subscribed. The tick advances exactly when an item is loaded and the deadline is reached. If not, nothing changes. If so, the deadline is re-armed from now and exactly one advance happens, however late the tick is, with `Next`'s effect on position, listener, visibility, layout and trace. |
| `CreateJS.DueTickAdvancesOneFrame` | src/CreateJS/player.js:175-206 | a freshly loaded, autoplaying two-frame animation at frame 0 goes to frame 1 of loop 0 on a due tick, still playing, having drawn frame 0 and then frame 1 |
| `CreateJS.DueTickDrawsNextFrame` | src/CreateJS/player.js:175-206 | for any valid playing two-frame player at frame 0 without frame or percentage callbacks, a due tick reaches frame 1 of loop 0, keeps the listener and appends exactly `DrawFrame(1)` to the trace |
| `CreateJS.DueTickFinishesSingleLoop` | src/CreateJS/player.js:175-198 | for any valid playing one-frame player at frame 0 with one allowed loop, clearing after stop and a finished callback, a due tick ends playback: frame 0, loop count 1, no listener, hidden, and the trace gains only `FinishedCallback` |
| `CreateJS.Player.Next` | src/CreateJS/player.js:184-207 | the position becomes Advance(old position). On reaching the loop limit: no listener, shown or hidden per the fill policy, and the trace gains `FinishEvents`. Otherwise the frame is refitted and the trace gains `FrameEvents`: the draw, then the frame callback, then the percentage callback, each callback only if registered. |
| `CreateJS.FrameEvents` | src/CreateJS/player.js:200-206 | an advance that does not finish emits the draw of the frame first, then the frame callback if registered, then the percentage callback with (frame + 1) / frames if registered, and nothing else |
| `CreateJS.FinishEvents` | src/CreateJS/player.js:189-198 | the end of a finite run emits the draw of frame 0 first when the first frame is held, then the finished callback if registered, and nothing else |
| `CreateJS.Player.FinishPlayback` | src/CreateJS/player.js:189-198 | stops playback. With `clearsAfterStop` the player is hidden. With no clearing and Backward fill it stays visible with frame 0 drawn. Then the finished callback fires if registered. |
| `CreateJS.Player.ShowFrame` | src/CreateJS/player.js:200-206 | refits and draws the current frame, then fires the frame callback, then the percentage callback with (frame + 1) / frames |
| `CreateJS.Layers` | src/CreateJS/player.js:210-212 | one layer per sprite, the i-th layer built from the i-th sprite |
| `CreateJS.Player.AddLayers` | src/CreateJS/player.js:209-215 | appends one layer per sprite in the sprites' order, resets to frame 0, refits and draws it |
| `CreateJS.Player.RebuildKeepingFrame` | src/CreateJS/player.js:106-112 | replaces the children with one layer per sprite. Frame 0 is drawn during the rebuild, then the frame shown before is restored and drawn. |
| `CreateJS.Player.Update` | src/CreateJS/player.js:255-263 | with an item loaded, the transform is `Resize` of the current frame and mode, the mask is `MaskFor`, and the current frame is drawn. Without an item nothing changes. |

## Left out

- Loading: the asynchronous parser call in the constructor is not modelled. Its two callbacks are
  `LoadSucceeded` and `LoadFailed`, called with an already-parsed item or a reason. A superseded load's
  late callback is not guarded against, as in the source.
- The parser and the renderer (`src/parser`, `src/CreateJS/renderer.js`) are not part of this model.
  `requestContentLayer(sprite)` is a `ContentLayer(sprite)` value, and `drawFrame(i)` is a `DrawFrame(i)`
  trace event. How the renderer applies the stored overrides to its layers is not modelled.
- Host objects: `stage.update()` repaint requests (in `clear` and `_update`) and the global
  `createjs.Ticker.framerate = 60` setting are not modelled. The ticker's calls to `_onTick` are the
  host's calls to `OnTick`.
- Time: `performance.now()` is the `now` parameter of `OnTick`. The source reads the clock twice within
  one tick; the model uses one reading for both.
- Timeline.SeekToFrameFraction, Timeline.SeekToReportedPercentage: these round trips hold only in exact
  arithmetic. The program multiplies IEEE doubles before truncating, so it can land one frame lower:
  with 22 frames, `(15/22) * 22` is 14.999999999999998, and seeking by 15/22 gives frame 14, not 15.
  Seeking by the percentage reported for frame 14 (also 15/22) stays on 14 instead of moving to 15.
- Timeline.FrameForPercentage, Timeline.SeekInRange, CreateJS.Player.StepToPercentage: the percentage is a
  real number, so two kinds of argument the program accepts cannot be expressed, and both change the seek.
  (1) `stepToPercentage()` with no argument, or with `Infinity`, makes `parseInt` return NaN at line 94.
  Both range tests (lines 95 and 81) are false for NaN, so the program sets the current frame to NaN instead
  of rejecting the seek.
  (2) A product below 1e-6 or at least 1e21 in magnitude is printed in exponent form, and `parseInt` reads
  only its leading digits. With 10 frames, 5e-8 seeks to frame 5 (`"5e-7"`), -5e-8 is rejected (-5), and
  2e20 seeks to frame 2 (`"2e+21"`) instead of being clamped to the last frame.
- Next, ShowFrame, FinishPlayback: user callbacks are assumed not to call back into the player. The program
  reads the current frame again after `onFrame` returns (line 205), so an `onFrame` that calls
  `stepToFrame(3)` on a 10-frame item makes `onPercentage` report 0.4. `FrameEvents` cannot show that.
- OnTick: ticks while no listener is subscribed are not modelled; `OnTick` requires one subscribed
  listener. In the program `_onTick` is reached only through the listener that `startAnimation` adds and
  `stopAnimation` removes (lines 52-56 and 67), so a finished run gets no further ticks.
- Floating point: all arithmetic is exact (reals and integers). IEEE rounding, negative zero and
  `parseInt` of numbers printed in exponent form (very small or very large products) are not modelled.
- `stepToFrame` with no item loaded throws in the source; the model requires an item. Frame arguments
  are integers, so NaN and fractional frames are not modelled.
- `setText`: the font string `"<size> family"` handed to `createjs.Text` is not modelled. Only the
  normalised record is stored. Arguments that are neither a string nor an object (or `null`) are not modelled.
- SetText: the model stores the `family` value in `TextRecord.family`, but the program never keeps it:
  `src/CreateJS/player.js` line 121 builds the font from `size` and the literal word `family`, so the family a caller gives is discarded.
- SetImage, OverridesValid: the program stores the caller's transform array (`player.js` line 104), and `setText`
  the caller's offset object (line 122), by reference. A caller can change them afterwards (for example
  `push` onto the array), so the program does not keep "every stored transform has six components".
  The model stores values and does not capture this aliasing.
- `setImage`'s transform components are numbers; arrays of other values are not modelled.
- `fillMode` strings other than "Backward" all act as `Forward`. Content-mode strings other than the
  three named ones are `Other`.
- Mask caching in `_updateMask` never takes effect in the source (it compares a fresh shape against an
  undefined field), so only the resulting mask is modelled.
- The video item's canvas size, frame count and frame rate must be positive (`WellFormed`). These are
  facts about the parser's output.
