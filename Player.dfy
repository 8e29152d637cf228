/**
 * The CreateJS player: a display container that owns one loaded animation
 * ("video item"), advances it one frame per due tick, fits it into its target
 * frame, and rebuilds its layers when dynamic overrides change.
 *
 * The renderer, the host ticker and the stage are outside the model: the
 * player's tick-listener subscription is a count, the renderer's
 * `drawFrame(i)` and the user callbacks are recorded in the ghost `trace`,
 * and the time of a tick is a parameter.
 */
module CreateJS {
  import opened Optional
  import opened Geometry
  import opened Timeline
  import opened Overrides

  /** What the player shows once a finite number of loops has ended; any mode other than "Backward" acts as `Forward`. */
  datatype FillMode = Forward | Backward

  /** A sprite descriptor of the parsed animation; the renderer turns it into a layer. */
  datatype Sprite = Sprite(imageKey: string)

  /** The parser's output: frame count, frame rate, canvas size and sprites in drawing order. */
  datatype VideoItem = VideoItem(frames: nat, fps: real, videoSize: Size, sprites: seq<Sprite>)

  predicate WellFormed(item: VideoItem) {
    item.frames >= 1 && item.fps > 0.0 && Positive(item.videoSize)
  }

  /** The display object the renderer returns for a sprite. */
  datatype Layer = ContentLayer(sprite: Sprite)

  /** One layer per sprite, in the sprites' order. */
  function Layers(sprites: seq<Sprite>): (layers: seq<Layer>)
    ensures |layers| == |sprites|
    ensures forall i :: 0 <= i < |layers| ==> layers[i].sprite == sprites[i]
  {
    seq(|sprites|, i requires 0 <= i < |sprites| => ContentLayer(sprites[i]))
  }

  /** What the player does that is observable outside it: renderer draws and user callbacks. */
  datatype Event =
    | DrawFrame(frame: int)
    | FrameCallback(frame: int)
    | PercentageCallback(percentage: real)
    | FinishedCallback
    | ErrorCallback(reason: string)

  /**
   * What an advance that does not end playback emits, in order: the draw of
   * frame `f`, then the frame callback and the percentage callback, each only
   * when registered.
   */
  function FrameEvents(f: int, frames: nat, onFrame: bool, onPercentage: bool): (events: seq<Event>)
    requires frames >= 1
    ensures |events| == 1 + (if onFrame then 1 else 0) + (if onPercentage then 1 else 0)
    ensures events[0] == DrawFrame(f)
    ensures onFrame ==> events[1] == FrameCallback(f)
    ensures onPercentage ==> events[|events| - 1] == PercentageCallback(Percentage(f, frames))
  {
    if onFrame && onPercentage then [DrawFrame(f), FrameCallback(f), PercentageCallback(Percentage(f, frames))]
    else if onFrame then [DrawFrame(f), FrameCallback(f)]
    else if onPercentage then [DrawFrame(f), PercentageCallback(Percentage(f, frames))]
    else [DrawFrame(f)]
  }

  /**
   * What the end of a finite run emits, in order: the draw of frame 0 when the
   * player holds its first frame, then the finished callback when registered.
   */
  function FinishEvents(holdsFirstFrame: bool, onFinished: bool): (events: seq<Event>)
    ensures |events| == (if holdsFirstFrame then 1 else 0) + (if onFinished then 1 else 0)
    ensures holdsFirstFrame ==> events[0] == DrawFrame(0)
    ensures onFinished ==> events[|events| - 1] == FinishedCallback
  {
    if holdsFirstFrame && onFinished then [DrawFrame(0), FinishedCallback]
    else if holdsFirstFrame then [DrawFrame(0)]
    else if onFinished then [FinishedCallback]
    else []
  }

  class Player {
    // Public settings that callers assign directly.
    var loops: int
    var clearsAfterStop: bool
    var fillMode: FillMode

    // State of the display object itself.
    var visible: bool
    var transformMatrix: Option<Transform>
    var mask: Option<Rect>
    var children: seq<Layer>

    // The player's own state.
    var contentMode: ContentMode
    var videoItem: Option<VideoItem>
    var loopCount: nat
    var currentFrame: int
    var tickListeners: nat
    var dynamicImage: map<string, string>
    var dynamicImageTransform: map<string, seq<real>>
    var dynamicText: map<string, TextRecord>
    var hasOnError: bool
    var hasOnFinished: bool
    var hasOnFrame: bool
    var hasOnPercentage: bool
    var nextTickTime: real
    var clipsToBounds: bool
    var frame: Rect

    /** Renderer draws and callbacks, oldest first. */
    ghost var trace: seq<Event>

    ghost predicate Valid()
      reads this
    {
      PlaybackValid() && OverridesValid()
    }

    /** At most one tick listener, and the current frame lies within the loaded item. */
    ghost predicate PlaybackValid()
      reads this`tickListeners, this`videoItem, this`currentFrame
    {
      tickListeners <= 1 &&
      match videoItem
      case None => currentFrame == 0
      case Some(item) => WellFormed(item) && InRange(currentFrame, item.frames)
    }

    /** Every stored transform has six components and every stored text record is normalised. */
    ghost predicate OverridesValid()
      reads this`dynamicImageTransform, this`dynamicText
    {
      (forall key :: key in dynamicImageTransform ==> |dynamicImageTransform[key]| == 6) &&
      (forall key :: key in dynamicText ==> Normalized(dynamicText[key]))
    }

    function Frames(): nat
      reads this`videoItem
      requires videoItem.Some?
    {
      videoItem.value.frames
    }

    function At(): Position
      reads this`currentFrame, this`loopCount
    {
      Position(currentFrame, loopCount)
    }

    /** The transform and mask on display are those of the current target frame, mode and clipping. */
    ghost predicate ShowsLayout()
      reads this`transformMatrix, this`mask, this`videoItem, this`frame, this`contentMode, this`clipsToBounds
      requires videoItem.Some? && WellFormed(videoItem.value)
    {
      transformMatrix == Some(Resize(videoItem.value.videoSize, frame, contentMode)) &&
      mask == MaskFor(clipsToBounds, frame)
    }

    /** On a finite-loop end, the player stays visible at frame 0. */
    predicate HoldsFirstFrame()
      reads this`clearsAfterStop, this`fillMode
    {
      !clearsAfterStop && fillMode == Backward
    }

    /** The effect of `stepToFrame(f, andPlay)`; `threw` is the error its `andPlay` branch raises. */
    twostate predicate Stepped(f: int, andPlay: bool, threw: bool)
      reads this
      requires videoItem.Some? && WellFormed(videoItem.value)
    {
      if InRange(f, Frames()) then
        visible && tickListeners == 0 && currentFrame == f && ShowsLayout() &&
        trace == old(trace) + [DrawFrame(f)] && threw == andPlay
      else
        visible == old(visible) && tickListeners == old(tickListeners) && currentFrame == old(currentFrame) &&
        transformMatrix == old(transformMatrix) && mask == old(mask) && trace == old(trace) && !threw
    }

    /** The player before its animation has loaded, with the source's field defaults. */
    constructor ()
      ensures Valid()
      ensures loops == 0 && clearsAfterStop && fillMode == Forward
      ensures visible && transformMatrix == None && mask == None && children == []
      ensures contentMode == AspectFit && videoItem == None && loopCount == 0 && currentFrame == 0
      ensures tickListeners == 0 && nextTickTime == 0.0 && !clipsToBounds && frame == Rect(0.0, 0.0, 0.0, 0.0)
      ensures dynamicImage == map[] && dynamicImageTransform == map[] && dynamicText == map[]
      ensures !hasOnError && !hasOnFinished && !hasOnFrame && !hasOnPercentage && trace == []
    {
      loops := 0;
      clearsAfterStop := true;
      fillMode := Forward;
      visible := true;
      transformMatrix := None;
      mask := None;
      children := [];
      contentMode := AspectFit;
      videoItem := None;
      loopCount := 0;
      currentFrame := 0;
      tickListeners := 0;
      dynamicImage := map[];
      dynamicImageTransform := map[];
      dynamicText := map[];
      hasOnError := false;
      hasOnFinished := false;
      hasOnFrame := false;
      hasOnPercentage := false;
      nextTickTime := 0.0;
      clipsToBounds := false;
      frame := Rect(0.0, 0.0, 0.0, 0.0);
      trace := [];
    }

    /** The parser's success callback: install the item, then play unless autoplay is exactly `false`. */
    method LoadSucceeded(item: VideoItem, autoplay: Option<bool>)
      requires Valid() && WellFormed(item)
      modifies this`videoItem, this`currentFrame, this`children, this`transformMatrix, this`mask, this`trace
      modifies this`visible, this`tickListeners, this`loopCount
      ensures Valid() && videoItem == Some(item) && children == Layers(item.sprites) && ShowsLayout()
      ensures currentFrame == 0 && trace == old(trace) + [DrawFrame(0)]
      ensures autoplay != Some(false) ==> visible && tickListeners == 1 && loopCount == 0
      ensures autoplay == Some(false) ==> visible == old(visible) && tickListeners == old(tickListeners) && loopCount == old(loopCount)
    {
      SetVideoItem(item);
      if autoplay != Some(false) {
        StartAnimation();
      }
    }

    /** The parser's error callback: report the reason if an error callback is registered. */
    method LoadFailed(reason: string)
      modifies this`trace
      ensures trace == old(trace) + (if hasOnError then [ErrorCallback(reason)] else [])
    {
      if hasOnError {
        trace := trace + [ErrorCallback(reason)];
      }
    }

    /** `setVideoItem`: install an item, rebuild one layer per sprite in order, and draw frame 0. */
    method SetVideoItem(item: VideoItem)
      requires Valid() && WellFormed(item)
      modifies this`videoItem, this`currentFrame, this`children, this`transformMatrix, this`mask, this`trace
      ensures Valid() && videoItem == Some(item)
      ensures currentFrame == 0 && children == Layers(item.sprites)
      ensures ShowsLayout() && trace == old(trace) + [DrawFrame(0)]
    {
      currentFrame := 0;
      videoItem := Some(item);
      children := [];
      AddLayers();
    }

    method SetContentMode(mode: ContentMode)
      requires Valid()
      modifies this`contentMode, this`transformMatrix, this`mask, this`trace
      ensures Valid() && contentMode == mode
      ensures videoItem.Some? ==> ShowsLayout() && trace == old(trace) + [DrawFrame(currentFrame)]
      ensures videoItem.None? ==> transformMatrix == old(transformMatrix) && mask == old(mask) && trace == old(trace)
    {
      contentMode := mode;
      Update();
    }

    method SetClipsToBounds(clips: bool)
      requires Valid()
      modifies this`clipsToBounds, this`transformMatrix, this`mask, this`trace
      ensures Valid() && clipsToBounds == clips
      ensures videoItem.Some? ==> ShowsLayout() && trace == old(trace) + [DrawFrame(currentFrame)]
      ensures videoItem.None? ==> transformMatrix == old(transformMatrix) && mask == old(mask) && trace == old(trace)
    {
      clipsToBounds := clips;
      Update();
    }

    method SetFrame(x: real, y: real, width: real, height: real)
      requires Valid()
      modifies this`frame, this`transformMatrix, this`mask, this`trace
      ensures Valid() && frame == Rect(x, y, width, height)
      ensures videoItem.Some? ==> ShowsLayout() && trace == old(trace) + [DrawFrame(currentFrame)]
      ensures videoItem.None? ==> transformMatrix == old(transformMatrix) && mask == old(mask) && trace == old(trace)
    {
      frame := Rect(x, y, width, height);
      Update();
    }

    /** `startAnimation`: show, drop any listener, restart at frame 0 of loop 0, and subscribe exactly once. */
    method StartAnimation()
      requires Valid()
      modifies this`visible, this`tickListeners, this`currentFrame, this`loopCount
      ensures Valid() && visible && tickListeners == 1 && currentFrame == 0 && loopCount == 0
    {
      visible := true;
      StopAnimation(Some(false));
      currentFrame := 0;
      loopCount := 0;
      tickListeners := tickListeners + 1;
    }

    /** `pauseAnimation`: unsubscribe, keeping visibility and position. */
    method PauseAnimation()
      requires Valid()
      modifies this`tickListeners, this`visible
      ensures Valid() && tickListeners == 0 && visible == old(visible)
    {
      StopAnimation(Some(false));
    }

    /** `stopAnimation(clear)`: unsubscribe, and hide when `clear` (by default `clearsAfterStop`) holds. */
    method StopAnimation(clear: Option<bool>)
      requires Valid()
      modifies this`tickListeners, this`visible
      ensures Valid() && tickListeners == 0
      ensures visible == if (if clear.None? then clearsAfterStop else clear.value) then false else old(visible)
    {
      var clearing := if clear.None? then clearsAfterStop else clear.value;
      if tickListeners > 0 {
        tickListeners := tickListeners - 1;
      }
      if clearing {
        Clear();
      }
    }

    /** `clear`: hide the player. */
    method Clear()
      modifies this`visible
      ensures !visible
    {
      visible := false;
    }

    /**
     * `stepToFrame`: an out-of-range frame changes nothing; an in-range one shows
     * the player, pauses it and draws that frame. Asking to play afterwards
     * fails, after those changes, because the player has no `render` member.
     */
    method StepToFrame(f: int, andPlay: bool) returns (threw: bool)
      requires Valid() && videoItem.Some?
      modifies this`visible, this`tickListeners, this`currentFrame, this`transformMatrix, this`mask, this`trace
      ensures Valid() && Stepped(f, andPlay, threw)
    {
      if f >= videoItem.value.frames || f < 0 {
        return false;
      }
      visible := true;
      PauseAnimation();
      currentFrame := f;
      Update();
      threw := andPlay;
    }

    /** `stepToPercentage`: step to the truncated, clamped frame for `percentage`. */
    method StepToPercentage(percentage: real, andPlay: bool) returns (threw: bool)
      requires Valid() && videoItem.Some?
      modifies this`visible, this`tickListeners, this`currentFrame, this`transformMatrix, this`mask, this`trace
      ensures Valid() && Stepped(FrameForPercentage(percentage, Frames()), andPlay, threw)
    {
      threw := StepToFrame(FrameForPercentage(percentage, videoItem.value.frames), andPlay);
    }

    /** `setImage`: store the image, keep a six-component transform, and rebuild layers if loaded. */
    method SetImage(image: string, key: string, transform: Option<TransformArg>)
      requires Valid()
      modifies this`dynamicImage, this`dynamicImageTransform
      modifies this`children, this`currentFrame, this`transformMatrix, this`mask, this`trace
      ensures Valid()
      ensures dynamicImage == old(dynamicImage)[key := image]
      ensures dynamicImageTransform ==
        match AcceptedTransform(transform)
        case Some(t) => old(dynamicImageTransform)[key := t]
        case None => old(dynamicImageTransform)
      ensures currentFrame == old(currentFrame)
      ensures videoItem.None? ==>
        children == old(children) && transformMatrix == old(transformMatrix) && mask == old(mask) && trace == old(trace)
      ensures videoItem.Some? ==>
        children == Layers(videoItem.value.sprites) && ShowsLayout() &&
        trace == old(trace) + [DrawFrame(0), DrawFrame(currentFrame)]
    {
      dynamicImage := dynamicImage[key := image];
      var kept := AcceptedTransform(transform);
      if kept.Some? {
        dynamicImageTransform := dynamicImageTransform[key := kept.value];
      }
      if videoItem.Some? {
        RebuildKeepingFrame();
      }
    }

    /** `setText`: store the normalised text record, and rebuild layers if loaded. */
    method SetText(text: TextArg, key: string)
      requires Valid()
      modifies this`dynamicText
      modifies this`children, this`currentFrame, this`transformMatrix, this`mask, this`trace
      ensures Valid()
      ensures dynamicText == old(dynamicText)[key := NormalizeText(text)]
      ensures currentFrame == old(currentFrame)
      ensures videoItem.None? ==>
        children == old(children) && transformMatrix == old(transformMatrix) && mask == old(mask) && trace == old(trace)
      ensures videoItem.Some? ==>
        children == Layers(videoItem.value.sprites) && ShowsLayout() &&
        trace == old(trace) + [DrawFrame(0), DrawFrame(currentFrame)]
    {
      dynamicText := dynamicText[key := NormalizeText(text)];
      if videoItem.Some? {
        RebuildKeepingFrame();
      }
    }

    /** `clearDynamicObjects`: forget every override; the layers are not rebuilt. */
    method ClearDynamicObjects()
      requires Valid()
      modifies this`dynamicImage, this`dynamicImageTransform, this`dynamicText
      ensures Valid() && dynamicImage == map[] && dynamicImageTransform == map[] && dynamicText == map[]
    {
      dynamicImage := map[];
      dynamicImageTransform := map[];
      dynamicText := map[];
    }

    /**
     * `onError`: store the error callback. Unlike the other three callbacks, the
     * load-failure path calls it whenever the stored value is truthy, without
     * checking that it is a function; `truthy` stands for that test.
     */
    method OnError(truthy: bool)
      modifies this`hasOnError
      ensures hasOnError == truthy
    {
      hasOnError := truthy;
    }

    method OnFinished(isFunction: bool)
      modifies this`hasOnFinished
      ensures hasOnFinished == isFunction
    {
      hasOnFinished := isFunction;
    }

    method OnFrame(isFunction: bool)
      modifies this`hasOnFrame
      ensures hasOnFrame == isFunction
    {
      hasOnFrame := isFunction;
    }

    method OnPercentage(isFunction: bool)
      modifies this`hasOnPercentage
      ensures hasOnPercentage == isFunction
    {
      hasOnPercentage := isFunction;
    }

    /**
     * `_onTick` at time `now`, reached only through the subscribed tick listener:
     * with an item loaded and the deadline reached, re-arm the deadline from `now`
     * and advance exactly one frame, however late the tick is; otherwise change
     * nothing. The effect of the advance is stated through the state before the
     * tick, whose callback flags and settings the advance does not change.
     */
    method OnTick(now: real) returns (advanced: bool)
      requires Valid() && tickListeners == 1
      modifies this`nextTickTime
      modifies this`currentFrame, this`loopCount, this`tickListeners, this`visible, this`transformMatrix, this`mask, this`trace
      ensures Valid()
      ensures advanced <==> videoItem.Some? && now >= old(nextTickTime)
      ensures !advanced ==> unchanged(this)
      ensures advanced ==> nextTickTime == NextDeadline(videoItem.value.fps, now)
      ensures advanced ==> At() == old(Advance(At(), Frames()))
      ensures advanced && old(Finishes(At(), Frames(), loops)) ==>
        tickListeners == 0 &&
        visible == old(if HoldsFirstFrame() then true else if clearsAfterStop then false else visible) &&
        trace == old(trace) + old(FinishEvents(HoldsFirstFrame(), hasOnFinished))
      ensures advanced && old(Finishes(At(), Frames(), loops)) && old(HoldsFirstFrame()) ==> ShowsLayout()
      ensures advanced && old(Finishes(At(), Frames(), loops)) && !old(HoldsFirstFrame()) ==>
        transformMatrix == old(transformMatrix) && mask == old(mask)
      ensures advanced && !old(Finishes(At(), Frames(), loops)) ==>
        tickListeners == 1 && visible == old(visible) &&
        trace == old(trace) + FrameEvents(currentFrame, old(Frames()), old(hasOnFrame), old(hasOnPercentage))
      ensures advanced && !old(Finishes(At(), Frames(), loops)) ==> ShowsLayout()
    {
      advanced := false;
      if videoItem.Some? {
        if now >= nextTickTime {
          nextTickTime := NextDeadline(videoItem.value.fps, now);
          Next();
          advanced := true;
        }
      }
    }

    /**
     * `_next`: advance one frame, wrapping to 0 and counting a loop. When the
     * loop limit is reached, stop (hiding per `clearsAfterStop`), hold frame 0
     * for the backward fill mode, and report completion instead of the frame.
     */
    method Next()
      requires Valid() && videoItem.Some?
      modifies this`currentFrame, this`loopCount, this`tickListeners, this`visible, this`transformMatrix, this`mask, this`trace
      ensures Valid()
      ensures At() == old(Advance(At(), Frames()))
      ensures old(Finishes(At(), Frames(), loops)) ==>
        tickListeners == 0 &&
        visible == old(if HoldsFirstFrame() then true else if clearsAfterStop then false else visible) &&
        trace == old(trace) + old(FinishEvents(HoldsFirstFrame(), hasOnFinished))
      ensures old(Finishes(At(), Frames(), loops)) && old(HoldsFirstFrame()) ==> ShowsLayout()
      ensures old(Finishes(At(), Frames(), loops)) && !old(HoldsFirstFrame()) ==>
        transformMatrix == old(transformMatrix) && mask == old(mask)
      ensures !old(Finishes(At(), Frames(), loops)) ==>
        tickListeners == old(tickListeners) && visible == old(visible) &&
        trace == old(trace) + FrameEvents(currentFrame, old(Frames()), old(hasOnFrame), old(hasOnPercentage))
      ensures !old(Finishes(At(), Frames(), loops)) ==> ShowsLayout()
    {
      currentFrame := currentFrame + 1;
      if currentFrame >= videoItem.value.frames {
        currentFrame := 0;
        loopCount := loopCount + 1;
        if loops > 0 && loopCount >= loops {
          FinishPlayback();
          return;
        }
      }
      ShowFrame();
    }

    /**
     * The end of a finite run: stop (hiding per `clearsAfterStop`), hold frame 0
     * for the backward fill mode, then report completion.
     */
    method FinishPlayback()
      requires Valid() && videoItem.Some? && currentFrame == 0
      modifies this`tickListeners, this`visible, this`currentFrame, this`transformMatrix, this`mask, this`trace
      ensures Valid() && tickListeners == 0 && currentFrame == 0
      ensures visible == if HoldsFirstFrame() then true else if clearsAfterStop then false else old(visible)
      ensures trace == old(trace) + FinishEvents(HoldsFirstFrame(), hasOnFinished)
      ensures if HoldsFirstFrame() then ShowsLayout() else transformMatrix == old(transformMatrix) && mask == old(mask)
    {
      StopAnimation(None);
      if !clearsAfterStop && fillMode == Backward {
        var threw := StepToFrame(0, false);
      }
      if hasOnFinished {
        trace := trace + [FinishedCallback];
      }
    }

    /** Draw the frame just reached, then report it and its percentage. */
    method ShowFrame()
      requires Valid() && videoItem.Some?
      modifies this`transformMatrix, this`mask, this`trace
      ensures Valid() && ShowsLayout() && trace == old(trace) + FrameEvents(currentFrame, Frames(), hasOnFrame, hasOnPercentage)
    {
      Update();
      if hasOnFrame {
        trace := trace + [FrameCallback(currentFrame)];
      }
      if hasOnPercentage {
        trace := trace + [PercentageCallback(Percentage(currentFrame, videoItem.value.frames))];
      }
    }

    /** `_addLayers`: append one renderer layer per sprite, in order, then draw frame 0. */
    method AddLayers()
      requires Valid() && videoItem.Some?
      modifies this`children, this`currentFrame, this`transformMatrix, this`mask, this`trace
      ensures Valid() && currentFrame == 0
      ensures children == old(children) + Layers(videoItem.value.sprites)
      ensures ShowsLayout() && trace == old(trace) + [DrawFrame(0)]
    {
      var sprites := videoItem.value.sprites;
      var i := 0;
      while i < |sprites|
        modifies this`children
        invariant 0 <= i <= |sprites|
        invariant children == old(children) + Layers(sprites[..i])
      {
        assert Layers(sprites[..i + 1]) == Layers(sprites[..i]) + [ContentLayer(sprites[i])];
        children := children + [ContentLayer(sprites[i])];
        i := i + 1;
      }
      assert sprites[..i] == sprites;
      currentFrame := 0;
      Update();
    }

    /** Rebuild every layer after an override change, then return to the frame shown before. */
    method RebuildKeepingFrame()
      requires Valid() && videoItem.Some?
      modifies this`children, this`currentFrame, this`transformMatrix, this`mask, this`trace
      ensures Valid() && currentFrame == old(currentFrame)
      ensures children == Layers(videoItem.value.sprites) && ShowsLayout()
      ensures trace == old(trace) + [DrawFrame(0), DrawFrame(currentFrame)]
    {
      var shown := currentFrame;
      children := [];
      AddLayers();
      currentFrame := shown;
      Update();
    }

    /** `_update`: with an item loaded, refit (`_resize`), re-mask (`_updateMask`) and draw the current frame. */
    method Update()
      requires Valid()
      modifies this`transformMatrix, this`mask, this`trace
      ensures Valid()
      ensures videoItem.Some? ==> ShowsLayout() && trace == old(trace) + [DrawFrame(currentFrame)]
      ensures videoItem.None? ==> transformMatrix == old(transformMatrix) && mask == old(mask) && trace == old(trace)
    {
      if videoItem.None? {
        return;
      }
      transformMatrix := Some(Resize(videoItem.value.videoSize, frame, contentMode));
      mask := MaskFor(clipsToBounds, frame);
      trace := trace + [DrawFrame(currentFrame)];
    }
  }

  /**
   * A client of `_onTick`: a freshly loaded two-frame animation that autoplays
   * is at frame 0, so a due tick draws and shows frame 1 of the first loop.
   */
  method DueTickAdvancesOneFrame(now: real) returns (p: Player, advanced: bool)
    requires now >= 0.0
    ensures advanced && p.currentFrame == 1 && p.loopCount == 0 && p.tickListeners == 1 && p.visible
    ensures p.trace == [DrawFrame(0), DrawFrame(1)]
  {
    p := new Player();
    p.LoadSucceeded(VideoItem(2, 30.0, Size(100.0, 100.0), []), None);
    assert p.At() == Position(0, 0) && p.loops == 0 && !p.hasOnFrame && !p.hasOnPercentage;
    advanced := p.OnTick(now);
    assert p.At() == Position(1, 0);
  }

  /**
   * A client of `_onTick` on a playing two-frame animation at frame 0 with no
   * frame or percentage callback: a due tick draws frame 1 and nothing else.
   */
  method DueTickDrawsNextFrame(p: Player, now: real) returns (advanced: bool)
    requires p.Valid() && p.videoItem.Some? && p.videoItem.value.frames == 2
    requires p.At() == Position(0, 0) && p.tickListeners == 1 && now >= p.nextTickTime
    requires !p.hasOnFrame && !p.hasOnPercentage
    modifies p
    ensures advanced && p.At() == Position(1, 0) && p.tickListeners == 1
    ensures p.trace == old(p.trace) + [DrawFrame(1)]
  {
    advanced := p.OnTick(now);
  }

  /**
   * A client of `_onTick` on a one-frame animation limited to one loop that
   * clears after stopping: a due tick ends playback, hides the player and fires
   * only the finished callback.
   */
  method DueTickFinishesSingleLoop(p: Player, now: real) returns (advanced: bool)
    requires p.Valid() && p.videoItem.Some? && p.videoItem.value.frames == 1
    requires p.At() == Position(0, 0) && p.loops == 1 && p.clearsAfterStop && p.hasOnFinished
    requires p.tickListeners == 1 && now >= p.nextTickTime
    modifies p
    ensures advanced && p.currentFrame == 0 && p.loopCount == 1 && p.tickListeners == 0 && !p.visible
    ensures p.trace == old(p.trace) + [FinishedCallback]
  {
    advanced := p.OnTick(now);
  }
}
