/** The helpers of util/utils_math over the reals. */
module Reals {
  function Abs(x: real): (m: real)
    ensures 0.0 <= m && (m == x || m == -x)
  {
    if x < 0.0 then -x else x
  }

  // A product, by name, so that proofs need not look inside it.
  function Times(a: real, b: real): real { a * b }

  // utils_map; its callers must show that they do not divide by zero.
  function Map(x: real, inMin: real, inMax: real, outMin: real, outMax: real): real
    requires inMin != inMax
  {
    (x - inMin) * (outMax - outMin) / (inMax - inMin) + outMin
  }

  // Rounded towards zero, as fmodf does with the quotient.
  function Trunc(x: real): int { if x < 0.0 then -(-x).Floor else x.Floor }

  // utils_norm_angle
  function NormAngle(angle: real): (r: real)
    ensures 0.0 <= r < 360.0
  {
    var m := angle - 360.0 * Trunc(angle / 360.0) as real;
    if m < 0.0 then m + 360.0 else m
  }

  // utils_step_towards
  function StepTowards(value: real, goal: real, step: real): real {
    if value < goal then (if value + step < goal then value + step else goal)
    else if goal < value then (if goal < value - step then value - step else goal)
    else value
  }
}
