/**
 * The discrete rules of the player's playback clock, as pure functions:
 * the frame/loop counters that `_next` advances, the finite-loop stop rule,
 * the percentage reported to `onPercentage`, the frame `stepToPercentage`
 * seeks to, and the deadline `_onTick` re-arms after each due tick.
 */
module Timeline {

  /** Where playback stands: the current frame index and the number of completed loops. */
  datatype Position = Position(frame: int, loopCount: nat)

  predicate InRange(frame: int, frames: nat) {
    0 <= frame < frames
  }

  /** Frames played since the start of playback, counting whole loops. */
  function Elapsed(p: Position, frames: nat): int {
    p.loopCount * frames + p.frame
  }

  /** `_next` wraps: the incremented frame reached the frame count. */
  predicate Wraps(p: Position, frames: nat) {
    p.frame + 1 >= frames
  }

  /** The counter update of `_next`: one frame forward, wrapping to 0 and counting a loop. */
  function Advance(p: Position, frames: nat): (q: Position)
    requires frames >= 1
    ensures InRange(p.frame, frames) ==> InRange(q.frame, frames)
    ensures Wraps(p, frames) ==> q.frame == 0
  {
    if Wraps(p, frames) then Position(0, p.loopCount + 1) else Position(p.frame + 1, p.loopCount)
  }

  /** From an in-range frame, one advance counts exactly one more elapsed frame. */
  lemma AdvanceElapsed(p: Position, frames: nat)
    requires frames >= 1 && InRange(p.frame, frames)
    ensures Elapsed(Advance(p, frames), frames) == Elapsed(p, frames) + 1
  {
  }

  /** `_next` ends playback: it wrapped and the loop limit is positive and now reached. */
  predicate Finishes(p: Position, frames: nat, loops: int)
    requires frames >= 1
    ensures Finishes(p, frames, loops) <==> Wraps(p, frames) && 0 < loops <= Advance(p, frames).loopCount
  {
    Wraps(p, frames) && loops > 0 && p.loopCount + 1 >= loops
  }

  /** The position after `n` advances from the start position that `startAnimation` sets. */
  function Run(frames: nat, n: nat): (p: Position)
    requires frames >= 1
    ensures InRange(p.frame, frames) && Elapsed(p, frames) == n
  {
    if n == 0 then Position(0, 0)
    else
      var p := Run(frames, n - 1);
      AdvanceElapsed(p, frames);
      Advance(p, frames)
  }

  /** The quotient and remainder of a division are the only such pair. */
  lemma DivModUnique(n: int, d: int, q: int, r: int)
    requires d >= 1 && 0 <= r < d && q * d + r == n
    ensures q == n / d && r == n % d
  {
    var q', r' := n / d, n % d;
    assert q' * d + r' == n;
    if q > q' {
      assert (q - q') * d >= d by { MulAtLeast(q - q', d); }
      assert false;
    } else if q < q' {
      assert (q' - q) * d >= d by { MulAtLeast(q' - q, d); }
      assert false;
    }
  }

  lemma MulAtLeast(k: int, d: int)
    requires k >= 1 && d >= 1
    ensures k * d >= d
  {
  }

  /** N advances from a fresh start land on frame N mod frames after N div frames loops. */
  lemma RunClosedForm(frames: nat, n: nat)
    requires frames >= 1
    ensures Run(frames, n) == Position(n % frames, n / frames)
  {
    var p := Run(frames, n);
    DivModUnique(n, frames, p.loopCount, p.frame);
  }

  lemma DivModSplit(m: nat, d: nat)
    requires d >= 1
    ensures (m / d) * d + m % d == m && 0 <= m % d < d
  {
  }

  /**
   * With a loop limit `loops > 0`, the advance from position Run(n) stops
   * playback exactly when it is advance number `loops * frames`; no earlier
   * advance stops it, so the finished callback fires once.
   */
  lemma FinishesExactlyAtLimit(frames: nat, loops: nat, n: nat)
    requires frames >= 1 && loops >= 1 && n < loops * frames
    ensures Finishes(Run(frames, n), frames, loops) <==> n + 1 == loops * frames
  {
    RunClosedForm(frames, n);
    var q, r := n / frames, n % frames;
    DivModSplit(n, frames);
    assert (loops - 1) * frames + frames == loops * frames by { MulPred(loops, frames); }
    if q >= loops {
      MulMonotone(loops, q, frames);
    }
    assert q <= loops - 1;
    if n + 1 == loops * frames {
      DivModUnique(n, frames, loops - 1, frames - 1);
    }
    if Finishes(Run(frames, n), frames, loops) {
      assert q == loops - 1 && r == frames - 1;
    }
  }

  lemma MulPred(a: int, d: int)
    ensures (a - 1) * d + d == a * d
  {
  }

  lemma MulMonotone(a: int, b: int, d: int)
    requires a <= b && d >= 0
    ensures a * d <= b * d
  {
    assert b * d - a * d == (b - a) * d;
  }

  /** The fraction passed to `onPercentage` after frame `frame` is drawn (one frame ahead). */
  function Percentage(frame: int, frames: nat): (r: real)
    requires frames >= 1
    ensures InRange(frame, frames) ==> 0.0 < r <= 1.0 && (r == 1.0 <==> frame == frames - 1)
  {
    (frame + 1) as real / frames as real
  }

  /** JavaScript `parseInt` of a number's decimal form: truncation toward zero. */
  function Trunc(x: real): (n: int)
    ensures x >= 0.0 ==> n as real <= x < n as real + 1.0
    ensures x < 0.0 ==> n as real - 1.0 < x <= n as real
  {
    if x >= 0.0 then x.Floor else -((-x).Floor)
  }

  /** `stepToPercentage`: the truncated frame, clamped to the last frame when it reaches the count. */
  function FrameForPercentage(percentage: real, frames: nat): (f: int)
    requires frames >= 1
    ensures f <= frames - 1
    ensures percentage >= 0.0 ==> InRange(f, frames)
  {
    var frame := Trunc(percentage * frames as real);
    if frame >= frames && frame > 0 then frames - 1 else frame
  }

  /**
   * Seeking by fraction reaches an in-range frame exactly when
   * `percentage * frames > -1`: every fraction in [0, 1] and above is accepted,
   * fractions just below 0 truncate to frame 0, and the rest are rejected
   * (for products that JavaScript prints in decimal form).
   */
  lemma SeekInRange(percentage: real, frames: nat)
    requires frames >= 1
    ensures InRange(FrameForPercentage(percentage, frames), frames) <==> percentage * frames as real > -1.0
    ensures percentage * frames as real >= frames as real ==> FrameForPercentage(percentage, frames) == frames - 1
  {
    var x := percentage * frames as real;
    if x >= frames as real {
      assert Trunc(x) as real + 1.0 > frames as real;
      assert Trunc(x) >= frames;
    }
  }

  /** Seeking by `k / frames` lands on frame `k`. */
  lemma SeekToFrameFraction(k: int, frames: nat)
    requires frames >= 1 && InRange(k, frames)
    ensures FrameForPercentage(k as real / frames as real, frames) == k
  {
  }

  /** Seeking by the percentage reported for frame `k` lands one frame ahead, or on the last frame. */
  lemma SeekToReportedPercentage(k: int, frames: nat)
    requires frames >= 1 && InRange(k, frames)
    ensures FrameForPercentage(Percentage(k, frames), frames) == if k + 1 < frames then k + 1 else frames - 1
  {
  }

  /** Ten frames: 0.55 seeks to frame 5 and 1.0 to frame 9. */
  lemma SeekExamples()
    ensures FrameForPercentage(0.55, 10) == 5
    ensures FrameForPercentage(1.0, 10) == 9
  {
  }

  /**
   * `_onTick`'s re-armed deadline: whole milliseconds per frame, plus now, less
   * two host ticks' worth. It is never more than one nominal frame interval
   * away, and at frame rates up to 880 it lies strictly after `now`, so a second
   * tick at the same instant does not advance again.
   */
  function NextDeadline(fps: real, now: real): (deadline: real)
    requires fps > 0.0
    ensures deadline <= now + 1000.0 / fps
    ensures fps <= 880.0 ==> deadline > now
  {
    var interval := 1000.0 / fps;
    assert fps <= 880.0 ==> interval - 1.0 >= 120.0 / fps by {
      if fps <= 880.0 {
        assert 880.0 / fps >= 1.0;
      }
    }
    Trunc(interval) as real + now - (60.0 / fps) * 2.0
  }
}
