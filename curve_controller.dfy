/**
 * The progress driver of the curve bender: a progress value that runs
 * between 0 and 1 at 1/Duration per second, reverses its direction at either
 * end, and is handed to the curve's material floored at a small safety
 * value so that the shader never sees 0.
 */
module Curve {

  /** The floor of the value handed to the material. */
  const MinProgressSafety: real := 0.0001

  /** The default duration of one sweep, in seconds. */
  const DefaultDuration: real := 5.0

  predicate IsDirection(d: real) {
    d == 1.0 || d == -1.0
  }

  /** The reversal rule: progress at or beyond 1 is pinned to 1 heading back,
      progress at or below 0 is pinned to 0 heading forward, and anything in
      between is left alone. The result is (progress, direction). */
  function Bounce(p: real, d: real): (r: (real, real))
    ensures 0.0 <= r.0 <= 1.0
    ensures IsDirection(d) ==> IsDirection(r.1)
  {
    if p >= 1.0 then (1.0, -1.0)
    else if p <= 0.0 then (0.0, 1.0)
    else (p, d)
  }

  /** The value sent to the material for progress p. */
  function Emitted(p: real): (v: real)
    ensures v >= MinProgressSafety && v >= p
    ensures v == p || v == MinProgressSafety
  {
    if p > MinProgressSafety then p else MinProgressSafety
  }

  /** The progress reached after dt seconds, before the reversal rule. */
  function Advanced(p: real, d: real, dt: real, duration: real): (q: real)
    requires duration != 0.0
    ensures dt >= 0.0 && duration > 0.0 && d == 1.0 ==> q >= p
    ensures dt >= 0.0 && duration > 0.0 && d == -1.0 ==> q <= p
    ensures dt == 0.0 ==> q == p
  {
    p + dt / duration * d
  }

  /** The three cases of the reversal rule: past the end the progress is
      pinned to 1 heading back, before the start it is pinned to 0 heading
      forward, and in between neither progress nor direction changes. */
  lemma BounceCases(p: real, d: real)
    ensures p >= 1.0 ==> Bounce(p, d) == (1.0, -1.0)
    ensures p <= 0.0 ==> Bounce(p, d) == (0.0, 1.0)
    ensures 0.0 < p < 1.0 ==> Bounce(p, d) == (p, d)
  {
  }

  /** Applying the reversal rule to its own result changes nothing. */
  lemma BounceIdempotent(p: real, d: real)
    ensures Bounce(Bounce(p, d).0, Bounce(p, d).1) == Bounce(p, d)
  {
  }

  /** After the reversal rule, a progress at either end heads back inside. */
  lemma BounceFacesInward(p: real, d: real)
    ensures Bounce(p, d).0 == 1.0 ==> Bounce(p, d).1 == -1.0
    ensures Bounce(p, d).0 == 0.0 ==> Bounce(p, d).1 == 1.0
  {
  }

  /** The value handed to the material lies in [0.0001, 1]. */
  lemma EmittedRange(p: real, d: real)
    ensures MinProgressSafety <= Emitted(Bounce(p, d).0) <= 1.0
  {
  }

  /** A step that stays strictly inside (0, 1) moves the progress by exactly
      dt / Duration in the current direction. */
  lemma InsideStepIsExact(p: real, d: real, dt: real, duration: real)
    requires duration != 0.0
    requires 0.0 < Advanced(p, d, dt, duration) < 1.0
    ensures Bounce(Advanced(p, d, dt, duration), d) == (p + dt / duration * d, d)
  {
  }

  class CurveController {
    /** Whether a curve is assigned. */
    var hasCurve: bool
    var duration: real
    var moveProgress: real
    var currentDirection: real
    /** The values handed to the material, oldest first. */
    var emitted: seq<real>

    ghost predicate Valid()
      reads this
    {
      IsDirection(currentDirection) && 0.0 <= moveProgress <= 1.0
    }

    /** A freshly loaded controller: progress 0 heading forward. */
    constructor (hasCurve: bool)
      ensures Valid() && this.hasCurve == hasCurve && duration == DefaultDuration
      ensures moveProgress == 0.0 && currentDirection == 1.0 && emitted == []
    {
      this.hasCurve := hasCurve;
      duration := DefaultDuration;
      moveProgress := 0.0;
      currentDirection := 1.0;
      emitted := [];
    }

    /** UpdateCurveMaterialBlock: the reversal rule, then the floored
        progress is handed to the material. The material's property block
        belongs to the curve, so a curve must be assigned. */
    method UpdateCurveMaterialBlock()
      requires hasCurve && IsDirection(currentDirection)
      modifies this
      ensures Valid()
      ensures (moveProgress, currentDirection) == Bounce(old(moveProgress), old(currentDirection))
      ensures emitted == old(emitted) + [Emitted(moveProgress)]
      ensures hasCurve == old(hasCurve) && duration == old(duration)
    {
      if moveProgress >= 1.0 {
        moveProgress := 1.0;
        currentDirection := -1.0;
      } else if moveProgress <= 0.0 {
        moveProgress := 0.0;
        currentDirection := 1.0;
      }
      var clampedProgress := if moveProgress > MinProgressSafety then moveProgress else MinProgressSafety;
      emitted := emitted + [clampedProgress];
    }

    /** Start: without a curve the controller fails (the exception is the
        false result) and changes nothing; with one the material receives
        its first value. */
    method Start() returns (ok: bool)
      requires Valid()
      modifies this
      ensures Valid() && ok == hasCurve && hasCurve == old(hasCurve) && duration == old(duration)
      ensures !ok ==> moveProgress == old(moveProgress) && currentDirection == old(currentDirection)
                      && emitted == old(emitted)
      ensures ok ==> (moveProgress, currentDirection) == Bounce(old(moveProgress), old(currentDirection))
                     && emitted == old(emitted) + [Emitted(moveProgress)]
    {
      if !hasCurve {
        return false;
      }
      UpdateCurveMaterialBlock();
      return true;
    }

    /** ResetProgress: back to the start heading forward. With a curve the
        material receives the safety floor; without one the property block
        is missing and the method fails (the false result) after the reset,
        handing nothing to the material. */
    method ResetProgress() returns (ok: bool)
      modifies this
      ensures Valid() && moveProgress == 0.0 && currentDirection == 1.0
      ensures ok == hasCurve && hasCurve == old(hasCurve) && duration == old(duration)
      ensures ok ==> emitted == old(emitted) + [MinProgressSafety]
      ensures !ok ==> emitted == old(emitted)
    {
      moveProgress := 0.0;
      currentDirection := 1.0;
      if !hasCurve {
        return false;
      }
      UpdateCurveMaterialBlock();
      return true;
    }

    /** Update: with a curve, progress moves by dt / Duration in the current
        direction and the reversal rule is applied; without one nothing
        happens. */
    method Update(dt: real)
      requires Valid() && duration != 0.0
      modifies this
      ensures Valid() && hasCurve == old(hasCurve) && duration == old(duration)
      ensures !hasCurve ==> moveProgress == old(moveProgress) && currentDirection == old(currentDirection)
                            && emitted == old(emitted)
      ensures hasCurve ==>
        && (moveProgress, currentDirection)
           == Bounce(Advanced(old(moveProgress), old(currentDirection), dt, duration), old(currentDirection))
        && emitted == old(emitted) + [Emitted(moveProgress)]
    {
      if !hasCurve {
        return;
      }
      moveProgress := moveProgress + dt / duration * currentDirection;
      UpdateCurveMaterialBlock();
    }
  }
}
