/**
 * The opacity envelope of a notification (DisplayManager.cs, Draw and the two
 * easing helpers), stated over the reals: a quadratic ramp in over the first
 * fifth of the three-second display, full opacity, and a quadratic ramp out
 * over the last fifth.
 */
module Fade {

  /** The envelope's time scale, in seconds. */
  const FadeSeconds: real := 3.0
  /** Fraction of the time scale at which the ramp in ends. */
  const RampInEnd: real := 0.2
  /** Fraction of the time scale at which the ramp out starts. */
  const RampOutStart: real := 0.8
  /** Fraction of the time scale the ramp out lasts. */
  const RampOutWidth: real := 1.0 - RampOutStart

  function EaseOutQuad(t: real): (r: real)
    ensures 0.0 <= t <= 1.0 ==> 0.0 <= r <= 1.0 && 1.0 - r <= 1.0 - t
  {
    var u := 1.0 - t;
    SquareBounds(u);
    1.0 - u * u
  }

  function EaseInQuad(t: real): (r: real)
    ensures 0.0 <= t <= 1.0 ==> 0.0 <= r <= t
  {
    SquareBounds(t);
    t * t
  }

  /** `Math.Clamp(x, lo, hi)` */
  function Clamp(x: real, lo: real, hi: real): (r: real)
    requires lo <= hi
    ensures lo <= r <= hi
    ensures lo <= x <= hi ==> r == x
    ensures x < lo ==> r == lo
    ensures hi < x ==> r == hi
  {
    if x < lo then lo else if x > hi then hi else x
  }

  /** The clamped position within the display time, from the seconds since creation. */
  function FadeProgress(elapsedSeconds: real): (p: real)
    ensures 0.0 <= p <= 1.0
    ensures 0.0 <= elapsedSeconds <= FadeSeconds ==> p == elapsedSeconds / FadeSeconds
  {
    Clamp(elapsedSeconds / FadeSeconds, 0.0, 1.0)
  }

  /** The opacity for a clamped fade progress `p`. */
  function Envelope(p: real): (r: real)
    ensures 0.0 <= p <= 1.0 ==> 0.0 <= r <= 1.0
    ensures RampInEnd <= p <= RampOutStart ==> r == 1.0
  {
    if p < RampInEnd then EaseOutQuad(p / RampInEnd)
    else if p > RampOutStart then EaseInQuad(1.0 - (p - RampOutStart) / RampOutWidth)
    else 1.0
  }

  /** The opacity of a notification drawn `elapsedSeconds` after its creation. */
  function Alpha(elapsedSeconds: real): (a: real)
    ensures 0.0 <= a <= 1.0
  {
    Envelope(FadeProgress(elapsedSeconds))
  }

  lemma SquareBounds(x: real)
    ensures 0.0 <= x <= 1.0 ==> 0.0 <= x * x <= x
  {
    if 0.0 <= x <= 1.0 {
      assert x * x <= x * 1.0;
    }
  }

  lemma SquareMonotone(x: real, y: real)
    requires 0.0 <= x <= y
    ensures x * x <= y * y
  {
    assert x * x <= x * y;
    assert x * y <= y * y;
  }

  /** The easing curves meet the plateau exactly: no jump at either boundary. */
  lemma EaseEndpoints()
    ensures EaseOutQuad(0.0) == 0.0 && EaseOutQuad(1.0) == 1.0
    ensures EaseInQuad(0.0) == 0.0 && EaseInQuad(1.0) == 1.0
  {
  }

  /** Zero at creation (and for any non-positive elapsed time), full opacity from
      0.6 s to 2.4 s, zero again from 3 s on. */
  lemma AlphaShape(elapsedSeconds: real)
    ensures elapsedSeconds <= 0.0 ==> Alpha(elapsedSeconds) == 0.0
    ensures 0.6 <= elapsedSeconds <= 2.4 ==> Alpha(elapsedSeconds) == 1.0
    ensures elapsedSeconds >= FadeSeconds ==> Alpha(elapsedSeconds) == 0.0
  {
    var p := FadeProgress(elapsedSeconds);
    if elapsedSeconds <= 0.0 {
      assert p == 0.0;
    } else if elapsedSeconds >= FadeSeconds {
      assert p == 1.0;
    } else if 0.6 <= elapsedSeconds <= 2.4 {
      assert RampInEnd <= p <= RampOutStart;
    }
  }

  /** The ramp in never decreases. */
  lemma {:induction false} RampInMonotone(p: real, q: real)
    requires 0.0 <= p <= q <= RampInEnd
    ensures Envelope(p) <= Envelope(q)
  {
    if q < RampInEnd {
      SquareMonotone(1.0 - q / RampInEnd, 1.0 - p / RampInEnd);
    }
  }

  /** The ramp out never increases. */
  lemma {:induction false} RampOutMonotone(p: real, q: real)
    requires RampOutStart <= p <= q <= 1.0
    ensures Envelope(q) <= Envelope(p)
  {
    if p > RampOutStart {
      SquareMonotone(1.0 - (q - RampOutStart) / RampOutWidth, 1.0 - (p - RampOutStart) / RampOutWidth);
    }
  }

  /** Continuity at both ends of the plateau: the distance from full opacity is
      bounded by a multiple of the distance from the boundary. */
  lemma PlateauContinuity(p: real)
    ensures 0.0 <= p < RampInEnd ==> 0.0 <= 1.0 - Envelope(p) <= 5.0 * (RampInEnd - p)
    ensures RampOutStart < p <= 1.0 ==> 0.0 <= 1.0 - Envelope(p) <= 10.0 * (p - RampOutStart)
  {
    if RampOutStart < p <= 1.0 {
      var v := 1.0 - (p - RampOutStart) / RampOutWidth;
      assert 0.0 <= v <= 1.0;
      assert 1.0 - v * v == (1.0 - v) * (1.0 + v);
      assert (1.0 - v) * (1.0 + v) <= (1.0 - v) * 2.0;
    }
  }
}
