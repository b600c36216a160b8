/** The constraint-propagation step run after every beam assignment: the chosen
    cell goes into use, and the cells the new beam rules out become unavailable. */
module Propagation {
  import opened Geometry
  import opened VisibilityMatrix

  /** The new state of cell (`w`, `c`) after user `target` was given the slot
      (`satId`, `color`) as beam number `beamI` (counted from 0) of that satellite. */
  function PropagateCell(angle: AngleFn, sc: Scenario, cell: BeamState, w: nat, c: nat,
                         target: nat, satId: nat, color: nat, beamI: nat): (r: BeamState)
    requires w < |sc.users| && target < |sc.users| && 1 <= satId <= |sc.sats| && color < ColorsPerSatellite
    // the chosen cell goes into use
    ensures w == target && c == Column(satId, color) ==> r == InUse
    // every other cell either keeps its state or goes from available to unavailable
    ensures !(w == target && c == Column(satId, color)) ==>
      r == cell || (cell == Available && r == Unavailable)
    // nothing ever becomes available again
    ensures cell != Available ==> r != Available
    // the last beam of a satellite closes all its slots, for every user and colour,
    // and leaves the other satellites alone
    ensures beamI == BeamsPerSatellite - 1 && SatOf(c) == satId ==> r != Available
    ensures beamI == BeamsPerSatellite - 1 && SatOf(c) != satId ==> r == cell
    // otherwise only the chosen column changes, and a cell of it is closed exactly
    // when it was open and its user is too close to the target
    ensures beamI != BeamsPerSatellite - 1 && c != Column(satId, color) ==> r == cell
    ensures beamI != BeamsPerSatellite - 1 && c == Column(satId, color) && w != target ==>
      (r != cell <==> cell == Available && SelfInterferes(angle, sc, satId, target, w))
  {
    if w == target && c == Column(satId, color) then InUse
    else if cell != Available then cell
    else if beamI == BeamsPerSatellite - 1 then
      (if SatOf(c) == satId then Unavailable else Available)
    else if c == Column(satId, color) && SelfInterferes(angle, sc, satId, target, w) then Unavailable
    else Available
  }

  /** The whole matrix after the propagation step. */
  ghost function Propagate(angle: AngleFn, sc: Scenario, g: Grid,
                           target: nat, satId: nat, color: nat, beamI: nat): (r: Grid)
    requires Shaped(g, |sc.users|, |sc.sats|)
    requires target < |sc.users| && 1 <= satId <= |sc.sats| && color < ColorsPerSatellite
    ensures Shaped(r, |sc.users|, |sc.sats|)
  {
    seq(|g|, w requires 0 <= w < |g| =>
      seq(|g[w]|, c requires 0 <= c < |g[w]| =>
        PropagateCell(angle, sc, g[w][c], w, c, target, satId, color, beamI)))
  }

  /** Closes, in row `w`, every still-available cell of satellite `satId`. */
  method CloseSatellite(v: array2<BeamState>, w: nat, satId: nat)
    requires w < v.Length0 && 1 <= satId && satId * ColorsPerSatellite <= v.Length1
    modifies v
    ensures forall x, c | 0 <= x < v.Length0 && 0 <= c < v.Length1 ::
      v[x, c] == (if x == w && SatOf(c) == satId && old(v[x, c]) == Available then Unavailable else old(v[x, c]))
  {
    var satI := (satId - 1) * ColorsPerSatellite;
    for i := satI to satI + ColorsPerSatellite
      invariant forall x, c | 0 <= x < v.Length0 && 0 <= c < v.Length1 ::
        v[x, c] == (if x == w && satI <= c < i && old(v[x, c]) == Available then Unavailable else old(v[x, c]))
    {
      if v[w, i] == Available {
        v[w, i] := Unavailable;
      }
    }
  }

  /** Activates the beam of slot (`satId`, `color`) for user `target` and
      propagates its constraints; `beamI` is the index of this beam in the satellite's list. */
  method UpdateVisibility(v: array2<BeamState>, angle: AngleFn, sc: Scenario,
                          target: nat, satId: nat, color: nat, beamI: nat)
    requires v.Length0 == |sc.users| && v.Length1 == |sc.sats| * ColorsPerSatellite
    requires target < |sc.users| && 1 <= satId <= |sc.sats| && color < ColorsPerSatellite
    modifies v
    ensures forall w, c | 0 <= w < v.Length0 && 0 <= c < v.Length1 ::
      v[w, c] == PropagateCell(angle, sc, old(v[w, c]), w, c, target, satId, color, beamI)
    ensures Snapshot(v) == Propagate(angle, sc, old(Snapshot(v)), target, satId, color, beamI)
  {
    ColumnsInRange(|sc.sats|);
    SetUserBeam(v, target, color, satId, InUse);
    var markSatFull := beamI == BeamsPerSatellite - 1;
    var satI := (satId - 1) * ColorsPerSatellite;
    var satIColorI := satI + color;
    var numUsers := v.Length0;
    for w := 0 to numUsers
      invariant forall x, c | 0 <= x < v.Length0 && 0 <= c < v.Length1 ::
        v[x, c] == if x < w then PropagateCell(angle, sc, old(v[x, c]), x, c, target, satId, color, beamI)
                   else if x == target && c == satIColorI then InUse
                   else old(v[x, c])
    {
      if markSatFull {
        CloseSatellite(v, w, satId);
        continue;
      }
      if v[w, satIColorI] != Available {
        continue;
      }
      var userPos := sc.users[w];
      var satPos := sc.sats[satId - 1];
      var a := angle(satPos, sc.users[target], userPos);
      if a < SelfInterferenceMax {
        v[w, satIColorI] := Unavailable;
      }
    }
    GridExtensionality(Snapshot(v), Propagate(angle, sc, old(Snapshot(v)), target, satId, color, beamI));
  }
}
