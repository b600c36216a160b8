/** The visibility matrix: one row per user, one column per (satellite, colour)
    beam slot, each cell a BeamState.  Built once from the scenario. */
module VisibilityMatrix {
  import opened Geometry

  datatype BeamState = Available | InUse | Unavailable

  /** Hardware cap on simultaneously active beams of one satellite, all colours together. */
  const BeamsPerSatellite: nat := 32
  /** Colours (frequency channels) each satellite offers. */
  const ColorsPerSatellite: nat := 4

  /** A value view of the matrix: `g[u][c]` is the cell of user `u + 1` and column `c`. */
  type Grid = seq<seq<BeamState>>

  /** Column of the slot (`satId`, `color`); satellites are numbered from 1, colours from 0. */
  function Column(satId: nat, color: nat): (c: nat)
    requires 1 <= satId && color < ColorsPerSatellite
    ensures SatOf(c) == satId && ColorOf(c) == color
  {
    (satId - 1) * ColorsPerSatellite + color
  }

  /** The satellite a column belongs to, as the scheduler decodes it. */
  function SatOf(c: nat): (satId: nat)
    ensures 1 <= satId
  {
    c / ColorsPerSatellite + 1
  }

  /** The colour a column stands for, as the scheduler decodes it. */
  function ColorOf(c: nat): (color: nat)
    ensures color < ColorsPerSatellite
  {
    c % ColorsPerSatellite
  }

  /** Decoding a column and encoding it again gives the column back, and the
      columns of `numSats` satellites are exactly those whose satellite is at most `numSats`. */
  lemma ColumnDecode(c: nat, numSats: nat)
    ensures Column(SatOf(c), ColorOf(c)) == c
    ensures c < numSats * ColorsPerSatellite <==> SatOf(c) <= numSats
  {
  }

  /** Every column below `numSats * ColorsPerSatellite` belongs to one of the first `numSats` satellites. */
  lemma ColumnsInRange(numSats: nat)
    ensures forall c: nat | c < numSats * ColorsPerSatellite :: SatOf(c) <= numSats
  {
    forall c: nat | c < numSats * ColorsPerSatellite
      ensures SatOf(c) <= numSats
    {
      ColumnDecode(c, numSats);
    }
  }

  /** A grid with one row per user and `numSats * ColorsPerSatellite` columns. */
  ghost predicate Shaped(g: Grid, numUsers: nat, numSats: nat)
  {
    |g| == numUsers && forall u | 0 <= u < |g| :: |g[u]| == numSats * ColorsPerSatellite
  }

  /** The contents of the matrix `v` as a grid. */
  ghost function Snapshot(v: array2<BeamState>): (g: Grid)
    reads v
    ensures |g| == v.Length0
    ensures forall u | 0 <= u < v.Length0 :: |g[u]| == v.Length1
    ensures forall u, c | 0 <= u < v.Length0 && 0 <= c < v.Length1 :: g[u][c] == v[u, c]
  {
    seq(v.Length0, u requires 0 <= u < v.Length0 reads v =>
      seq(v.Length1, c requires 0 <= c < v.Length1 reads v => v[u, c]))
  }

  /** Two grids of the same shape that agree cell by cell are equal. */
  lemma GridExtensionality(a: Grid, b: Grid)
    requires |a| == |b|
    requires forall u | 0 <= u < |a| :: |a[u]| == |b[u]|
    requires forall u, c | 0 <= u < |a| && 0 <= c < |a[u]| :: a[u][c] == b[u][c]
    ensures a == b
  {
    forall u | 0 <= u < |a|
      ensures a[u] == b[u]
    {
    }
  }

  /** Writes `state` into the cell of user row `u` and slot (`satId`, `color`). */
  method SetUserBeam(v: array2<BeamState>, u: nat, color: nat, satId: nat, state: BeamState)
    requires u < v.Length0 && 1 <= satId && color < ColorsPerSatellite
    requires Column(satId, color) < v.Length1
    modifies v
    ensures forall w, c | 0 <= w < v.Length0 && 0 <= c < v.Length1 ::
      v[w, c] == (if w == u && c == Column(satId, color) then state else old(v[w, c]))
  {
    v[u, (satId - 1) * ColorsPerSatellite + color] := state;
  }

  /** The state a cell of user `u` and satellite `satId` starts in. */
  function InitialCell(angle: AngleFn, sc: Scenario, u: nat, satId: nat): (s: BeamState)
    requires u < |sc.users| && 1 <= satId <= |sc.sats|
    ensures s != InUse
    ensures s == Available <==>
      Visible(angle, sc, u, satId) &&
      !exists i | 0 <= i < |sc.interferers| :: Interferes(angle, sc, u, satId, i)
  {
    if Permitted(angle, sc, u, satId) then Available else Unavailable
  }

  /** The matrix as it is built from the scenario. */
  ghost function InitialGrid(angle: AngleFn, sc: Scenario): (g: Grid)
    ensures Shaped(g, |sc.users|, |sc.sats|)
    ensures forall u, c | 0 <= u < |g| && 0 <= c < |g[u]| :: g[u][c] != InUse
    ensures forall u, c | 0 <= u < |g| && 0 <= c < |g[u]| ::
      SatOf(c) <= |sc.sats| && (g[u][c] == Available <==> Permitted(angle, sc, u, SatOf(c)))
    ensures forall u, c, d | 0 <= u < |g| && 0 <= c < |g[u]| && 0 <= d < |g[u]| && SatOf(c) == SatOf(d) ::
      g[u][c] == g[u][d]
  {
    seq(|sc.users|, u requires 0 <= u < |sc.users| =>
      seq(|sc.sats| * ColorsPerSatellite, c requires 0 <= c < |sc.sats| * ColorsPerSatellite =>
        ColumnDecode(c, |sc.sats|);
        InitialCell(angle, sc, u, SatOf(c))))
  }

  /** Whether some interferer spoils the beam from satellite `satId` to user `u`;
      the scan stops at the first one found. */
  method FindInterferer(angle: AngleFn, sc: Scenario, u: nat, satId: nat) returns (violation: bool)
    requires u < |sc.users| && 1 <= satId <= |sc.sats|
    ensures violation <==> exists i | 0 <= i < |sc.interferers| :: Interferes(angle, sc, u, satId, i)
  {
    violation := false;
    var i := 0;
    while i < |sc.interferers|
      invariant 0 <= i <= |sc.interferers|
      invariant forall j | 0 <= j < i :: !Interferes(angle, sc, u, satId, j)
    {
      if angle(sc.users[u], sc.interferers[i], sc.sats[satId - 1]) < NonStarlinkInterferenceMax {
        assert Interferes(angle, sc, u, satId, i);
        violation := true;
        break;
      }
      i := i + 1;
    }
  }

  /** Marks every colour of satellite `satId` available for user `u`, and nothing else. */
  method MarkAvailable(v: array2<BeamState>, u: nat, satId: nat)
    requires u < v.Length0 && 1 <= satId && satId * ColorsPerSatellite <= v.Length1
    modifies v
    ensures forall w, c | 0 <= w < v.Length0 && 0 <= c < v.Length1 ::
      v[w, c] == (if w == u && SatOf(c) == satId then Available else old(v[w, c]))
  {
    for i := 0 to ColorsPerSatellite
      invariant forall w, c | 0 <= w < v.Length0 && 0 <= c < v.Length1 ::
        v[w, c] == (if w == u && SatOf(c) == satId && ColorOf(c) < i then Available else old(v[w, c]))
    {
      v[u, (satId - 1) * ColorsPerSatellite + i] := Available;
    }
  }

  /** Builds the matrix: every cell starts unavailable, and all colours of a
      (user, satellite) pair become available when the pair is permitted. */
  method GenerateVisibilityMatrix(angle: AngleFn, sc: Scenario) returns (v: array2<BeamState>)
    ensures fresh(v)
    ensures v.Length0 == |sc.users| && v.Length1 == |sc.sats| * ColorsPerSatellite
    ensures Snapshot(v) == InitialGrid(angle, sc)
  {
    var satDim := |sc.sats| * ColorsPerSatellite;
    var userDim := |sc.users|;
    v := new BeamState[userDim, satDim]((_, _) => Unavailable);
    ColumnsInRange(|sc.sats|);
    for u := 0 to userDim
      invariant forall w, c | 0 <= w < userDim && 0 <= c < satDim ::
        SatOf(c) <= |sc.sats| &&
        v[w, c] == (if w < u then InitialCell(angle, sc, w, SatOf(c)) else Unavailable)
    {
      for s := 1 to |sc.sats| + 1
        invariant forall w, c | 0 <= w < userDim && 0 <= c < satDim ::
          SatOf(c) <= |sc.sats| &&
          v[w, c] == (if w < u || (w == u && SatOf(c) < s) then InitialCell(angle, sc, w, SatOf(c)) else Unavailable)
      {
        if angle(sc.users[u], Origin, sc.sats[s - 1]) <= 180.0 - MaxUserVisibleAngle {
          continue;
        }
        var interfererViolation := FindInterferer(angle, sc, u, s);
        if interfererViolation {
          continue;
        }
        MarkAvailable(v, u, s);
      }
    }
    GridExtensionality(Snapshot(v), InitialGrid(angle, sc));
  }
}
