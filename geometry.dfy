/** The scenario the planner works on, and the three angular tests that gate a
    beam.  The angle itself (an arccosine of normalised dot products in the
    program) is a parameter: every test below compares that angle with one of
    the program's thresholds exactly as the program does. */
module Geometry {

  /** A point in space, in kilometres. */
  datatype Vector3 = Vector3(x: real, y: real, z: real)

  /** The centre of the earth. */
  const Origin: Vector3 := Vector3(0.0, 0.0, 0.0)

  /** Two same-coloured beams of one satellite must be at least this far apart, in degrees. */
  const SelfInterferenceMax: real := 10.0
  /** A beam must keep at least this angle, in degrees, from every foreign emitter. */
  const NonStarlinkInterferenceMax: real := 20.0
  /** A user terminal cannot point further than this from its local vertical, in degrees. */
  const MaxUserVisibleAngle: real := 45.0

  /** The angle, in degrees, at `vertex` between the rays towards `a` and `b`. */
  type AngleFn = (Vector3, Vector3, Vector3) -> real

  /** Satellite, user and interferer positions; the object with id `k` sits at index `k - 1`. */
  datatype Scenario = Scenario(sats: seq<Vector3>, users: seq<Vector3>, interferers: seq<Vector3>)

  /** User `u` (0-based) can point at satellite `satId` (1-based): the angle at the
      user between the earth's centre and the satellite is above 135 degrees. */
  predicate Visible(angle: AngleFn, sc: Scenario, u: nat, satId: nat)
    requires u < |sc.users| && 1 <= satId <= |sc.sats|
  {
    angle(sc.users[u], Origin, sc.sats[satId - 1]) > 180.0 - MaxUserVisibleAngle
  }

  /** Interferer `i` (0-based) lies within 20 degrees of the line from user `u` to satellite `satId`. */
  predicate Interferes(angle: AngleFn, sc: Scenario, u: nat, satId: nat, i: nat)
    requires u < |sc.users| && 1 <= satId <= |sc.sats| && i < |sc.interferers|
  {
    angle(sc.users[u], sc.interferers[i], sc.sats[satId - 1]) < NonStarlinkInterferenceMax
  }

  /** Seen from satellite `satId`, users `target` and `u` are less than 10 degrees apart. */
  predicate SelfInterferes(angle: AngleFn, sc: Scenario, satId: nat, target: nat, u: nat)
    requires 1 <= satId <= |sc.sats| && target < |sc.users| && u < |sc.users|
  {
    angle(sc.sats[satId - 1], sc.users[target], sc.users[u]) < SelfInterferenceMax
  }

  /** The pair (user, satellite) may carry a beam: the satellite is visible and no interferer is too close. */
  predicate Permitted(angle: AngleFn, sc: Scenario, u: nat, satId: nat)
    requires u < |sc.users| && 1 <= satId <= |sc.sats|
  {
    Visible(angle, sc, u, satId) &&
    forall i | 0 <= i < |sc.interferers| :: !Interferes(angle, sc, u, satId, i)
  }

  /** At exactly the threshold angles the tests come out as the program's
      comparisons say: 135 degrees is not visible, while an interferer at
      exactly 20 degrees and a neighbour at exactly 10 degrees do no harm. */
  lemma AtThresholds(sc: Scenario, u: nat, satId: nat, i: nat, target: nat)
    requires u < |sc.users| && target < |sc.users| && 1 <= satId <= |sc.sats| && i < |sc.interferers|
    ensures !Visible((_, _, _) => 135.0, sc, u, satId)
    ensures !Interferes((_, _, _) => 20.0, sc, u, satId, i)
    ensures !SelfInterferes((_, _, _) => 10.0, sc, satId, target, u)
    ensures Permitted((_, _, _) => 160.0, sc, u, satId)
  {
  }
}
