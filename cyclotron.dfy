/**
 * The cyclotron tuning widget. Two sliders, from 0 to 100, set the electric
 * field (the size of the particle's spiral) and the magnetic field (its
 * rotation). Resonance is reached with both fields high and close to each
 * other; pushing either field past 90 without resonance is a wall collision.
 */
module Cyclotron {
  /** A slider value: `min="0"`, `max="100"`, whole steps. */
  predicate OnSlider(v: int)
  {
    0 <= v <= 100
  }

  function Abs(x: int): (a: nat)
    ensures a == x || a == -x
  {
    if x < 0 then -x else x
  }

  /** `isSuccess`: both fields above 85 and less than 10 apart. */
  predicate IsSuccess(electric: int, magnetic: int)
  {
    electric > 85 && magnetic > 85 && Abs(electric - magnetic) < 10
  }

  /** `errorState`: no resonance, and either field above 90. */
  predicate ErrorState(electric: int, magnetic: int)
  {
    !IsSuccess(electric, magnetic) && (electric > 90 || magnetic > 90)
  }

  /** Resonance is the band of both fields in 86..100 differing by at most 9, and never a collision. */
  lemma SuccessBand(electric: int, magnetic: int)
    ensures IsSuccess(electric, magnetic) <==>
      electric > 85 && magnetic > 85 && electric - magnetic < 10 && magnetic - electric < 10
    ensures !(IsSuccess(electric, magnetic) && ErrorState(electric, magnetic))
  {
  }

  /** A collision is a field above 90 outside the band, on either side of the diagonal. */
  lemma ErrorIff(electric: int, magnetic: int)
    requires OnSlider(electric) && OnSlider(magnetic)
    ensures ErrorState(electric, magnetic) <==>
      (electric > 90 || magnetic > 90) && (electric <= 85 || magnetic <= 85 || electric - magnetic >= 10 || magnetic - electric >= 10)
  {
  }

  /** Three settings, one of each kind: resonance, collision, and neither. */
  lemma Settings()
    ensures IsSuccess(90, 95) && !ErrorState(90, 95)
    ensures ErrorState(100, 86) && !IsSuccess(100, 86)
    ensures !IsSuccess(86, 86 + 10) && ErrorState(86, 96)
    ensures !IsSuccess(50, 50) && !ErrorState(50, 50)
  {
  }

  // ---------------------------------------------------------------------
  // the spiral

  /** `Math.min(Math.max(x, lo), hi)`. */
  function Clamp(x: real, lo: real, hi: real): (c: real)
    requires lo <= hi
    ensures lo <= c <= hi
    ensures lo <= x <= hi ==> c == x
    ensures x < lo ==> c == lo
    ensures x > hi ==> c == hi
  {
    var atLeast := if x > lo then x else lo;
    if atLeast < hi then atLeast else hi
  }

  /** `1 + (electricField / 100) * 1.5`. */
  function Scale(electric: int): real
  {
    1.0 + (electric as real / 100.0) * 1.5
  }

  /** `(magneticField / 100) * 1080`. */
  function Rotation(magnetic: int): real
  {
    (magnetic as real / 100.0) * 1080.0
  }

  function ClampedScale(electric: int): (s: real)
    ensures 1.0 <= s <= 2.5
    ensures OnSlider(electric) ==> s == Scale(electric)
  {
    Clamp(Scale(electric), 1.0, 2.5)
  }

  function ClampedRotation(magnetic: int): (r: real)
    ensures 0.0 <= r <= 1080.0
    ensures OnSlider(magnetic) ==> r == Rotation(magnetic)
  {
    Clamp(Rotation(magnetic), 0.0, 1080.0)
  }

  /** On the sliders' range the clamps never bite: the spiral follows the fields, and grows with them. */
  lemma SpiralFollowsFields(e1: int, e2: int, m1: int, m2: int)
    requires OnSlider(e1) && OnSlider(e2) && OnSlider(m1) && OnSlider(m2)
    requires e1 <= e2 && m1 <= m2
    ensures ClampedScale(e1) <= ClampedScale(e2) && ClampedRotation(m1) <= ClampedRotation(m2)
    ensures ClampedScale(0) == 1.0 && ClampedScale(100) == 2.5
    ensures ClampedRotation(0) == 0.0 && ClampedRotation(100) == 1080.0
  {
  }

  /** The spiral is drawn once either field is above 10. */
  predicate SpiralVisible(electric: int, magnetic: int)
  {
    electric > 10 || magnetic > 10
  }

  /** Resonance always shows the spiral. */
  lemma ResonanceIsVisible(electric: int, magnetic: int)
    requires IsSuccess(electric, magnetic)
    ensures SpiralVisible(electric, magnetic)
  {
  }

  // ---------------------------------------------------------------------
  // the trail and the status card

  datatype Trail = Orange | Violet

  /** `electricField > magneticField + 20 ? orange : violet`. */
  function TrailColour(electric: int, magnetic: int): (c: Trail)
    ensures c == Orange <==> electric > magnetic + 20
  {
    if electric > magnetic + 20 then Orange else Violet
  }

  /** At resonance the trail is never orange: the fields are too close. */
  lemma ResonanceIsViolet(electric: int, magnetic: int)
    requires IsSuccess(electric, magnetic)
    ensures TrailColour(electric, magnetic) == Violet
  {
  }

  /** What the status card says: the resonance message, the collision message, or nothing. */
  datatype Status = Resonance | Collision | Blank

  /** `isSuccess ? t.success : (errorState ? t.fail : '')`. */
  function StatusOf(electric: int, magnetic: int): (s: Status)
    ensures s == Resonance <==> IsSuccess(electric, magnetic)
    ensures s == Collision <==> ErrorState(electric, magnetic)
    ensures s == Blank <==> !IsSuccess(electric, magnetic) && !(electric > 90 || magnetic > 90)
  {
    if IsSuccess(electric, magnetic) then Resonance
    else if ErrorState(electric, magnetic) then Collision
    else Blank
  }

  /** The card is shown (opacity 1) exactly when it has something to say. */
  predicate CardShown(electric: int, magnetic: int)
  {
    IsSuccess(electric, magnetic) || ErrorState(electric, magnetic)
  }

  lemma CardShownIffText(electric: int, magnetic: int)
    ensures CardShown(electric, magnetic) <==> StatusOf(electric, magnetic) != Blank
    ensures CardShown(electric, magnetic) <==> electric > 90 || magnetic > 90 || IsSuccess(electric, magnetic)
  {
  }
}
