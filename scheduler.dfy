/** The greedy first-fit beam scheduler: users in ascending order each take the
    first available slot of their row, and every assignment is followed by the
    propagation step. */
module Scheduler {
  import opened Geometry
  import opened VisibilityMatrix
  import opened Propagation
  import opened Optional

  /** One entry of a satellite's list: the user (numbered from 1) and the colour. */
  datatype Beam = Beam(user: nat, color: nat)

  /** The assignment: `beams[satId - 1]` is the list of satellite `satId`, in
      assignment order; `order` lists the satellites in the order they received
      their first beam (the key order of the program's dictionary). */
  datatype Solution = Solution(order: seq<nat>, beams: seq<seq<Beam>>)

  /** No satellite has a beam yet. */
  function EmptySolution(numSats: nat): (sol: Solution)
    ensures |sol.beams| == numSats && sol.order == []
    ensures forall s | 0 <= s < numSats :: sol.beams[s] == []
  {
    Solution([], seq(numSats, _ => []))
  }

  /** Appends `b` to the list of satellite `satId`, creating the list on its first beam. */
  function AppendBeam(sol: Solution, satId: nat, b: Beam): (r: Solution)
    requires 1 <= satId <= |sol.beams|
    ensures |r.beams| == |sol.beams|
    ensures r.beams[satId - 1] == sol.beams[satId - 1] + [b]
    ensures forall s | 0 <= s < |sol.beams| && s != satId - 1 :: r.beams[s] == sol.beams[s]
    ensures sol.beams[satId - 1] == [] ==> r.order == sol.order + [satId]
    ensures sol.beams[satId - 1] != [] ==> r.order == sol.order
  {
    var list := sol.beams[satId - 1];
    Solution(if list == [] then sol.order + [satId] else sol.order, sol.beams[satId - 1 := list + [b]])
  }

  /** Index of the first available cell of `row`, or `|row|` when there is none. */
  function FirstAvailable(row: seq<BeamState>): (c: nat)
    ensures c <= |row|
    ensures c < |row| ==> row[c] == Available
    ensures forall j | 0 <= j < c :: row[j] != Available
  {
    if row == [] then 0
    else if row[0] == Available then 0
    else 1 + FirstAvailable(row[1..])
  }

  /** The position found by a first-fit scan is the one `FirstAvailable` names. */
  lemma FirstAvailableUnique(row: seq<BeamState>, c: nat)
    requires c <= |row|
    requires c < |row| ==> row[c] == Available
    requires forall j | 0 <= j < c :: row[j] != Available
    ensures c == FirstAvailable(row)
  {
  }

  /** User `u` (0-based) takes column `c`: the beam is appended to the
      satellite's list and the propagation step runs. */
  ghost function Assign(angle: AngleFn, sc: Scenario, g: Grid, sol: Solution, u: nat, c: nat): (r: (Grid, Solution))
    requires Shaped(g, |sc.users|, |sc.sats|) && |sol.beams| == |sc.sats|
    requires u < |sc.users| && c < |sc.sats| * ColorsPerSatellite
    ensures Shaped(r.0, |sc.users|, |sc.sats|) && |r.1.beams| == |sc.sats|
    // the user's beam joins the list of the column's satellite, and only that list changes
    ensures SatOf(c) <= |sc.sats| &&
      r.1.beams[SatOf(c) - 1] == sol.beams[SatOf(c) - 1] + [Beam(u + 1, ColorOf(c))]
    ensures forall s | 0 <= s < |sol.beams| && s != SatOf(c) - 1 :: r.1.beams[s] == sol.beams[s]
    ensures sol.order <= r.1.order
    // the chosen cell is now in use
    ensures r.0[u][c] == InUse
  {
    ColumnDecode(c, |sc.sats|);
    var satId := SatOf(c);
    var color := ColorOf(c);
    var sol' := AppendBeam(sol, satId, Beam(u + 1, color));
    var beamI := |sol'.beams[satId - 1]| - 1;
    (Propagate(angle, sc, g, u, satId, color, beamI), sol')
  }

  /** The scheduler from user `u` on, as a function of the matrix and the assignment so far. */
  ghost function Greedy(angle: AngleFn, sc: Scenario, g: Grid, sol: Solution, u: nat): (r: (Grid, Solution))
    requires Shaped(g, |sc.users|, |sc.sats|) && |sol.beams| == |sc.sats|
    ensures Shaped(r.0, |sc.users|, |sc.sats|) && |r.1.beams| == |sc.sats|
    decreases |sc.users| - u
  {
    if u >= |sc.users| then (g, sol)
    else
      var c := FirstAvailable(g[u]);
      if c == |g[u]| then Greedy(angle, sc, g, sol, u + 1)
      else
        var next := Assign(angle, sc, g, sol, u, c);
        Greedy(angle, sc, next.0, next.1, u + 1)
  }

  /** Beams are only ever appended: from any point on, every satellite's list
      and the key order grow by extension. */
  lemma {:induction false} GreedyExtends(angle: AngleFn, sc: Scenario, g: Grid, sol: Solution, u: nat)
    requires Shaped(g, |sc.users|, |sc.sats|) && |sol.beams| == |sc.sats|
    ensures var r := Greedy(angle, sc, g, sol, u);
      sol.order <= r.1.order && forall s | 0 <= s < |sol.beams| :: sol.beams[s] <= r.1.beams[s]
    decreases |sc.users| - u
  {
    if u < |sc.users| {
      var c := FirstAvailable(g[u]);
      if c == |g[u]| {
        GreedyExtends(angle, sc, g, sol, u + 1);
      } else {
        var next := Assign(angle, sc, g, sol, u, c);
        assert next.1 == AppendBeam(sol, SatOf(c), Beam(u + 1, ColorOf(c)));
        assert Greedy(angle, sc, g, sol, u) == Greedy(angle, sc, next.0, next.1, u + 1);
        GreedyExtends(angle, sc, next.0, next.1, u + 1);
      }
    }
  }

  // ---------------------------------------------------------------------------
  // What the scheduler keeps true

  /** The matrix row of the user of an entry. */
  function Row(b: Beam): int
  {
    b.user - 1
  }

  /** The matrix column of an entry of the list at index `s` (satellite `s + 1`). */
  function Slot(s: nat, b: Beam): nat
    requires b.color < ColorsPerSatellite
  {
    Column(s + 1, b.color)
  }

  /** Every entry names a user of the scenario and a valid colour. */
  ghost predicate Ranged(sc: Scenario, sol: Solution)
  {
    |sol.beams| == |sc.sats| &&
    forall s, i | 0 <= s < |sol.beams| && 0 <= i < |sol.beams[s]| ::
      1 <= sol.beams[s][i].user <= |sc.users| && sol.beams[s][i].color < ColorsPerSatellite
  }

  /** Only users `1..u` have been served. */
  ghost predicate ServedUpTo(sol: Solution, u: nat)
  {
    forall s, i | 0 <= s < |sol.beams| && 0 <= i < |sol.beams[s]| :: sol.beams[s][i].user <= u
  }

  /** `order` holds, without repetition, exactly the satellites whose list is non-empty. */
  ghost predicate KeyOrder(sol: Solution)
  {
    (forall k, l | 0 <= k < l < |sol.order| :: sol.order[k] != sol.order[l]) &&
    (forall k | 0 <= k < |sol.order| :: 1 <= sol.order[k] <= |sol.beams|) &&
    (forall s | 0 <= s < |sol.beams| :: (s + 1 in sol.order <==> sol.beams[s] != []))
  }

  /** Satellites are keyed in the order of their first beams' users: a satellite
      enters `order` when it receives its first beam, and users are served in
      ascending order. */
  ghost predicate FirstBeamOrder(sol: Solution)
  {
    forall k, l | 0 <= k < l < |sol.order| :: FirstUser(sol, sol.order[k]) < FirstUser(sol, sol.order[l])
  }

  /** The user of the first beam of satellite `satId`, or 0 when it has none. */
  function FirstUser(sol: Solution, satId: nat): nat
  {
    if 1 <= satId <= |sol.beams| && sol.beams[satId - 1] != [] then sol.beams[satId - 1][0].user else 0
  }

  /** Under `KeyOrder` every keyed list is non-empty, so `FirstUser` is the
      user of its first beam. */
  lemma KeyedFirstUser(sol: Solution)
    requires KeyOrder(sol)
    ensures forall k | 0 <= k < |sol.order| ::
      1 <= sol.order[k] <= |sol.beams| && sol.beams[sol.order[k] - 1] != [] &&
      FirstUser(sol, sol.order[k]) == sol.beams[sol.order[k] - 1][0].user
  {
    forall k | 0 <= k < |sol.order|
      ensures sol.beams[sol.order[k] - 1] != []
    {
      assert sol.order[k] in sol.order;
    }
  }

  /** No user appears twice in the assignment. */
  ghost predicate OneBeamPerUser(sol: Solution)
  {
    forall s1, i1, s2, i2 |
      0 <= s1 < |sol.beams| && 0 <= i1 < |sol.beams[s1]| &&
      0 <= s2 < |sol.beams| && 0 <= i2 < |sol.beams[s2]| &&
      sol.beams[s1][i1].user == sol.beams[s2][i2].user ::
      s1 == s2 && i1 == i2
  }

  /** No satellite carries more than `BeamsPerSatellite` beams. */
  ghost predicate WithinCapacity(sol: Solution)
  {
    forall s | 0 <= s < |sol.beams| :: |sol.beams[s]| <= BeamsPerSatellite
  }

  /** A satellite at full capacity has no available slot left, for any user or colour. */
  ghost predicate SaturatedClosed(sc: Scenario, g: Grid, sol: Solution)
    requires Shaped(g, |sc.users|, |sc.sats|) && |sol.beams| == |sc.sats|
  {
    forall w, c | 0 <= w < |g| && 0 <= c < |g[w]| && SatOf(c) <= |sol.beams| &&
                  |sol.beams[SatOf(c) - 1]| == BeamsPerSatellite ::
      g[w][c] != Available
  }

  /** Each assigned slot was available in `g0` and is in use in `g`. */
  ghost predicate Held(sc: Scenario, g0: Grid, g: Grid, sol: Solution)
    requires Shaped(g0, |sc.users|, |sc.sats|) && Shaped(g, |sc.users|, |sc.sats|) && Ranged(sc, sol)
  {
    forall s, i | 0 <= s < |sol.beams| && 0 <= i < |sol.beams[s]| ::
      g0[Row(sol.beams[s][i])][Slot(s, sol.beams[s][i])] == Available &&
      g[Row(sol.beams[s][i])][Slot(s, sol.beams[s][i])] == InUse
  }

  /** Every cell of `g` is as in `g0`, or was available there and no longer is. */
  ghost predicate Monotone(g0: Grid, g: Grid)
    requires |g0| == |g| && forall w | 0 <= w < |g| :: |g0[w]| == |g[w]|
  {
    forall w, c | 0 <= w < |g| && 0 <= c < |g[w]| ::
      g[w][c] == g0[w][c] || (g0[w][c] == Available && g[w][c] != Available)
  }

  /** User `user` (numbered from 1) has a beam. */
  ghost predicate HasBeam(sol: Solution, user: nat)
  {
    exists s, i | 0 <= s < |sol.beams| && 0 <= i < |sol.beams[s]| :: sol.beams[s][i].user == user
  }

  /** Every user before `u` who still sees an available slot already has a beam. */
  ghost predicate Exhausted(g: Grid, sol: Solution, u: nat)
    requires u <= |g|
  {
    forall w, c | 0 <= w < u && 0 <= c < |g[w]| && g[w][c] == Available :: HasBeam(sol, w + 1)
  }

  /** No slot before a user's assigned slot is available in that user's row. */
  ghost predicate FirstFit(sc: Scenario, g: Grid, sol: Solution)
    requires Shaped(g, |sc.users|, |sc.sats|) && Ranged(sc, sol)
  {
    forall s, i, c | 0 <= s < |sol.beams| && 0 <= i < |sol.beams[s]| && 0 <= c < Slot(s, sol.beams[s][i]) ::
      g[Row(sol.beams[s][i])][c] != Available
  }

  /** Two beams of one satellite in one colour are at least 10 degrees apart,
      seen from the satellite, measured from the earlier user. */
  ghost predicate Separated(angle: AngleFn, sc: Scenario, sol: Solution)
    requires Ranged(sc, sol)
  {
    forall s, i, j | 0 <= s < |sol.beams| && 0 <= i < j < |sol.beams[s]| &&
                     sol.beams[s][i].color == sol.beams[s][j].color ::
      !SelfInterferes(angle, sc, s + 1, Row(sol.beams[s][i]), Row(sol.beams[s][j]))
  }

  /** A slot still open to user `w` does not self-interfere with any beam already on it. */
  ghost predicate Shielded(angle: AngleFn, sc: Scenario, g: Grid, sol: Solution)
    requires Shaped(g, |sc.users|, |sc.sats|) && Ranged(sc, sol)
  {
    forall s, i, w | 0 <= s < |sol.beams| && 0 <= i < |sol.beams[s]| && 0 <= w < |g| &&
                     g[w][Slot(s, sol.beams[s][i])] == Available ::
      !SelfInterferes(angle, sc, s + 1, Row(sol.beams[s][i]), w)
  }

  /** Everything the scheduler keeps true after serving users `0..u-1`, starting from matrix `g0`. */
  ghost predicate Inv(angle: AngleFn, sc: Scenario, g0: Grid, g: Grid, sol: Solution, u: nat)
  {
    Shaped(g0, |sc.users|, |sc.sats|) && Shaped(g, |sc.users|, |sc.sats|) &&
    u <= |sc.users| && Ranged(sc, sol) && ServedUpTo(sol, u) &&
    KeyOrder(sol) && FirstBeamOrder(sol) && OneBeamPerUser(sol) && WithinCapacity(sol) &&
    SaturatedClosed(sc, g, sol) && Held(sc, g0, g, sol) && Monotone(g0, g) &&
    Exhausted(g, sol, u) && FirstFit(sc, g, sol) &&
    Separated(angle, sc, sol) && Shielded(angle, sc, g, sol)
  }

  // ---------------------------------------------------------------------------
  // Proof that the scheduler keeps it

  lemma InvInitially(angle: AngleFn, sc: Scenario, g0: Grid)
    requires Shaped(g0, |sc.users|, |sc.sats|)
    ensures Inv(angle, sc, g0, g0, EmptySolution(|sc.sats|), 0)
  {
  }

  /** A user who sees no available slot gets nothing, and the invariant moves past them. */
  lemma SkipKeepsInv(angle: AngleFn, sc: Scenario, g0: Grid, g: Grid, sol: Solution, u: nat)
    requires Inv(angle, sc, g0, g, sol, u) && u < |sc.users|
    requires FirstAvailable(g[u]) == |g[u]|
    ensures Inv(angle, sc, g0, g, sol, u + 1)
  {
  }

  /** `g'` is `g` after the propagation step for user `target` and slot (`satId`, `color`). */
  ghost predicate StepCells(angle: AngleFn, sc: Scenario, g: Grid, g': Grid,
                            target: nat, satId: nat, color: nat, beamI: nat)
    requires Shaped(g, |sc.users|, |sc.sats|) && Shaped(g', |sc.users|, |sc.sats|)
    requires target < |sc.users| && 1 <= satId <= |sc.sats| && color < ColorsPerSatellite
  {
    forall w, x | 0 <= w < |g| && 0 <= x < |g[w]| ::
      g'[w][x] == PropagateCell(angle, sc, g[w][x], w, x, target, satId, color, beamI)
  }

  /** Appending a new user's beam to a satellite that is not full keeps every
      entry in range and every list within capacity. */
  lemma AppendKeepsRanges(sc: Scenario, sol: Solution, u: nat, satId: nat, color: nat)
    requires Ranged(sc, sol) && ServedUpTo(sol, u) && WithinCapacity(sol)
    requires u < |sc.users| && 1 <= satId <= |sc.sats| && color < ColorsPerSatellite
    requires |sol.beams[satId - 1]| < BeamsPerSatellite
    ensures var sol' := AppendBeam(sol, satId, Beam(u + 1, color));
      Ranged(sc, sol') && ServedUpTo(sol', u + 1) && WithinCapacity(sol')
  {
  }

  /** A satellite joins the key order exactly when it receives its first beam. */
  lemma AppendKeepsKeyOrder(sol: Solution, satId: nat, b: Beam)
    requires KeyOrder(sol) && 1 <= satId <= |sol.beams|
    ensures KeyOrder(AppendBeam(sol, satId, b))
  {
    if sol.beams[satId - 1] == [] {
      assert satId !in sol.order;
    }
  }

  /** Appending changes no first user, except that a satellite's first beam
      makes its user the satellite's first user. */
  lemma AppendFirstUser(sol: Solution, satId: nat, b: Beam)
    requires 1 <= satId <= |sol.beams|
    ensures forall x ::
              FirstUser(AppendBeam(sol, satId, b), x) ==
              if x == satId && sol.beams[satId - 1] == [] then b.user else FirstUser(sol, x)
  {
    var sol' := AppendBeam(sol, satId, b);
    forall x
      ensures FirstUser(sol', x) == if x == satId && sol.beams[satId - 1] == [] then b.user else FirstUser(sol, x)
    {
      if x == satId {
        assert sol'.beams[satId - 1][0] == (sol.beams[satId - 1] + [b])[0];
      }
    }
  }

  /** Appending the beam of a user later than all served ones keeps the key
      order sorted by first users: a new key's first user is the newest, and
      the first entries of existing lists do not change. */
  lemma AppendKeepsFirstBeamOrder(sol: Solution, u: nat, satId: nat, color: nat)
    requires KeyOrder(sol) && FirstBeamOrder(sol) && ServedUpTo(sol, u) && 1 <= satId <= |sol.beams|
    ensures FirstBeamOrder(AppendBeam(sol, satId, Beam(u + 1, color)))
  {
    var sol' := AppendBeam(sol, satId, Beam(u + 1, color));
    AppendFirstUser(sol, satId, Beam(u + 1, color));
    if sol.beams[satId - 1] == [] {
      assert satId !in sol.order;
      assert forall k | 0 <= k < |sol.order| :: FirstUser(sol, sol.order[k]) <= u;
      assert forall k | 0 <= k < |sol.order| :: FirstUser(sol', sol.order[k]) == FirstUser(sol, sol.order[k]);
      assert sol'.order == sol.order + [satId];
    } else {
      assert sol'.order == sol.order;
    }
  }

  /** A user not yet served appears once after being appended. */
  lemma AppendKeepsOneBeamPerUser(sol: Solution, u: nat, satId: nat, color: nat)
    requires OneBeamPerUser(sol) && ServedUpTo(sol, u) && 1 <= satId <= |sol.beams|
    ensures OneBeamPerUser(AppendBeam(sol, satId, Beam(u + 1, color)))
  {
    var sol' := AppendBeam(sol, satId, Beam(u + 1, color));
    var n := |sol.beams[satId - 1]|;
    forall s1, i1, s2, i2 |
      0 <= s1 < |sol'.beams| && 0 <= i1 < |sol'.beams[s1]| &&
      0 <= s2 < |sol'.beams| && 0 <= i2 < |sol'.beams[s2]| &&
      sol'.beams[s1][i1].user == sol'.beams[s2][i2].user
      ensures s1 == s2 && i1 == i2
    {
      var new1 := s1 == satId - 1 && i1 == n;
      var new2 := s2 == satId - 1 && i2 == n;
      if !new1 {
        assert sol'.beams[s1][i1] == sol.beams[s1][i1];
      }
      if !new2 {
        assert sol'.beams[s2][i2] == sol.beams[s2][i2];
      }
    }
  }

  /** Saturated satellites stay closed, and the one that just filled up closes. */
  lemma StepKeepsSaturation(angle: AngleFn, sc: Scenario, g: Grid, g': Grid, sol: Solution,
                            u: nat, satId: nat, color: nat)
    requires Shaped(g, |sc.users|, |sc.sats|) && Shaped(g', |sc.users|, |sc.sats|)
    requires Ranged(sc, sol) && SaturatedClosed(sc, g, sol)
    requires u < |sc.users| && 1 <= satId <= |sc.sats| && color < ColorsPerSatellite
    requires StepCells(angle, sc, g, g', u, satId, color, |sol.beams[satId - 1]|)
    ensures SaturatedClosed(sc, g', AppendBeam(sol, satId, Beam(u + 1, color)))
  {
  }

  /** The new beam's cell was available and is now in use; the old ones stay in use. */
  lemma StepKeepsHeld(angle: AngleFn, sc: Scenario, g0: Grid, g: Grid, g': Grid, sol: Solution,
                      u: nat, satId: nat, color: nat)
    requires Shaped(g0, |sc.users|, |sc.sats|) && Shaped(g, |sc.users|, |sc.sats|) && Shaped(g', |sc.users|, |sc.sats|)
    requires Ranged(sc, sol) && ServedUpTo(sol, u) && Held(sc, g0, g, sol) && Monotone(g0, g)
    requires u < |sc.users| && 1 <= satId <= |sc.sats| && color < ColorsPerSatellite
    requires g[u][Column(satId, color)] == Available
    requires StepCells(angle, sc, g, g', u, satId, color, |sol.beams[satId - 1]|)
    ensures Ranged(sc, AppendBeam(sol, satId, Beam(u + 1, color)))
    ensures Held(sc, g0, g', AppendBeam(sol, satId, Beam(u + 1, color))) && Monotone(g0, g')
  {
  }

  /** Users served so far keep their beams, and the new user is served. */
  lemma StepKeepsExhausted(angle: AngleFn, sc: Scenario, g: Grid, g': Grid, sol: Solution,
                           u: nat, satId: nat, color: nat)
    requires Shaped(g, |sc.users|, |sc.sats|) && Shaped(g', |sc.users|, |sc.sats|)
    requires u < |sc.users| && 1 <= satId <= |sc.sats| && color < ColorsPerSatellite
    requires |sol.beams| == |sc.sats| && Exhausted(g, sol, u)
    requires StepCells(angle, sc, g, g', u, satId, color, |sol.beams[satId - 1]|)
    ensures Exhausted(g', AppendBeam(sol, satId, Beam(u + 1, color)), u + 1)
  {
    var sol' := AppendBeam(sol, satId, Beam(u + 1, color));
    forall w, x | 0 <= w < u + 1 && 0 <= x < |g'[w]| && g'[w][x] == Available
      ensures HasBeam(sol', w + 1)
    {
      if w == u {
        assert sol'.beams[satId - 1][|sol.beams[satId - 1]|].user == u + 1;
      } else {
        assert g[w][x] == Available;
        var s, i :| 0 <= s < |sol.beams| && 0 <= i < |sol.beams[s]| && sol.beams[s][i].user == w + 1;
        assert sol'.beams[s][i].user == w + 1;
      }
    }
  }

  /** Nothing before an assigned slot becomes available again, and the new slot is the first open one. */
  lemma StepKeepsFirstFit(angle: AngleFn, sc: Scenario, g: Grid, g': Grid, sol: Solution,
                          u: nat, satId: nat, color: nat)
    requires Shaped(g, |sc.users|, |sc.sats|) && Shaped(g', |sc.users|, |sc.sats|)
    requires Ranged(sc, sol) && FirstFit(sc, g, sol)
    requires u < |sc.users| && 1 <= satId <= |sc.sats| && color < ColorsPerSatellite
    requires forall j | 0 <= j < Column(satId, color) :: g[u][j] != Available
    requires StepCells(angle, sc, g, g', u, satId, color, |sol.beams[satId - 1]|)
    ensures Ranged(sc, AppendBeam(sol, satId, Beam(u + 1, color)))
    ensures FirstFit(sc, g', AppendBeam(sol, satId, Beam(u + 1, color)))
  {
  }

  /** The new beam is far enough from every earlier beam of its slot, and the
      slot is closed to every user too close to it. */
  lemma StepKeepsSeparation(angle: AngleFn, sc: Scenario, g: Grid, g': Grid, sol: Solution,
                            u: nat, satId: nat, color: nat)
    requires Shaped(g, |sc.users|, |sc.sats|) && Shaped(g', |sc.users|, |sc.sats|)
    requires Ranged(sc, sol) && Separated(angle, sc, sol) && Shielded(angle, sc, g, sol)
    requires u < |sc.users| && 1 <= satId <= |sc.sats| && color < ColorsPerSatellite
    requires g[u][Column(satId, color)] == Available
    requires StepCells(angle, sc, g, g', u, satId, color, |sol.beams[satId - 1]|)
    ensures Ranged(sc, AppendBeam(sol, satId, Beam(u + 1, color)))
    ensures Separated(angle, sc, AppendBeam(sol, satId, Beam(u + 1, color)))
    ensures Shielded(angle, sc, g', AppendBeam(sol, satId, Beam(u + 1, color)))
  {
  }

  /** One assignment keeps the invariant and moves it past user `u`. */
  lemma AssignKeepsInv(angle: AngleFn, sc: Scenario, g0: Grid, g: Grid, sol: Solution, u: nat)
    requires Inv(angle, sc, g0, g, sol, u) && u < |sc.users|
    requires FirstAvailable(g[u]) < |g[u]|
    ensures var r := Assign(angle, sc, g, sol, u, FirstAvailable(g[u]));
      Inv(angle, sc, g0, r.0, r.1, u + 1)
  {
    var c := FirstAvailable(g[u]);
    ColumnDecode(c, |sc.sats|);
    var satId, color := SatOf(c), ColorOf(c);
    var r := Assign(angle, sc, g, sol, u, c);
    assert |sol.beams[satId - 1]| < BeamsPerSatellite by {
      assert g[u][c] == Available;
    }
    assert r.1 == AppendBeam(sol, satId, Beam(u + 1, color));
    assert StepCells(angle, sc, g, r.0, u, satId, color, |sol.beams[satId - 1]|);
    AppendKeepsRanges(sc, sol, u, satId, color);
    AppendKeepsKeyOrder(sol, satId, Beam(u + 1, color));
    AppendKeepsFirstBeamOrder(sol, u, satId, color);
    AppendKeepsOneBeamPerUser(sol, u, satId, color);
    StepKeepsSaturation(angle, sc, g, r.0, sol, u, satId, color);
    StepKeepsHeld(angle, sc, g0, g, r.0, sol, u, satId, color);
    StepKeepsExhausted(angle, sc, g, r.0, sol, u, satId, color);
    StepKeepsFirstFit(angle, sc, g, r.0, sol, u, satId, color);
    StepKeepsSeparation(angle, sc, g, r.0, sol, u, satId, color);
  }

  /** The scheduler keeps the invariant to the last user. */
  lemma {:induction false} GreedyKeepsInv(angle: AngleFn, sc: Scenario, g0: Grid, g: Grid, sol: Solution, u: nat)
    requires Inv(angle, sc, g0, g, sol, u)
    ensures var r := Greedy(angle, sc, g, sol, u);
      Inv(angle, sc, g0, r.0, r.1, |sc.users|)
    decreases |sc.users| - u
  {
    if u < |sc.users| {
      var c := FirstAvailable(g[u]);
      if c == |g[u]| {
        SkipKeepsInv(angle, sc, g0, g, sol, u);
        GreedyKeepsInv(angle, sc, g0, g, sol, u + 1);
      } else {
        AssignKeepsInv(angle, sc, g0, g, sol, u);
        var next := Assign(angle, sc, g, sol, u, c);
        assert Greedy(angle, sc, g, sol, u) == Greedy(angle, sc, next.0, next.1, u + 1);
        GreedyKeepsInv(angle, sc, g0, next.0, next.1, u + 1);
      }
    }
  }

  // ---------------------------------------------------------------------------
  // The scheduler's properties, and the scheduler itself

  /** What the plan built from the scenario guarantees: the lists are well formed,
      no user has two beams, no satellite exceeds its capacity, same-coloured beams
      of a satellite are far enough apart, every beam serves a permitted
      (user, satellite) pair, and a user left without a beam has no slot open. */
  lemma PlanProperties(angle: AngleFn, sc: Scenario)
    ensures var g0 := InitialGrid(angle, sc);
      var r := Greedy(angle, sc, g0, EmptySolution(|sc.sats|), 0);
      Ranged(sc, r.1) && KeyOrder(r.1) && FirstBeamOrder(r.1) && OneBeamPerUser(r.1) && WithinCapacity(r.1) &&
      Separated(angle, sc, r.1) &&
      (forall s, i | 0 <= s < |r.1.beams| && 0 <= i < |r.1.beams[s]| ::
        Permitted(angle, sc, Row(r.1.beams[s][i]), s + 1)) &&
      (forall w, c | 0 <= w < |r.0| && 0 <= c < |r.0[w]| && r.0[w][c] == Available :: HasBeam(r.1, w + 1)) &&
      (|sc.users| == 0 ==> r.1.order == [] && forall s | 0 <= s < |r.1.beams| :: r.1.beams[s] == [])
  {
    var g0 := InitialGrid(angle, sc);
    var empty := EmptySolution(|sc.sats|);
    InvInitially(angle, sc, g0);
    GreedyKeepsInv(angle, sc, g0, g0, empty, 0);
    var r := Greedy(angle, sc, g0, empty, 0);
    forall s, i | 0 <= s < |r.1.beams| && 0 <= i < |r.1.beams[s]|
      ensures Permitted(angle, sc, Row(r.1.beams[s][i]), s + 1)
    {
      assert g0[Row(r.1.beams[s][i])][Slot(s, r.1.beams[s][i])] == Available;
    }
    if |sc.users| == 0 {
      assert r.1 == empty;
    }
  }

  /** One satellite in view of one user, and nothing interfering: the user gets
      beam 1 of satellite 1 in colour 0 (the letter A). */
  lemma SingleUserPlan(angle: AngleFn, sc: Scenario)
    requires |sc.sats| == 1 && |sc.users| == 1 && |sc.interferers| == 0
    requires Visible(angle, sc, 0, 1)
    ensures Greedy(angle, sc, InitialGrid(angle, sc), EmptySolution(1), 0).1 == Solution([1], [[Beam(1, 0)]])
  {
    var g0 := InitialGrid(angle, sc);
    assert Permitted(angle, sc, 0, SatOf(0));
    assert g0[0][0] == Available;
    assert FirstAvailable(g0[0]) == 0;
    var next := Assign(angle, sc, g0, EmptySolution(1), 0, 0);
    assert next.1 == AppendBeam(EmptySolution(1), 1, Beam(1, 0));
    assert EmptySolution(1).beams[0] == [];
    assert next.1.beams[0] == [Beam(1, 0)];
    assert next.1.beams == [[Beam(1, 0)]];
  }

  /** The first available column of row `u`, or the row length when there is none. */
  method FindFirstAvailable(v: array2<BeamState>, u: nat) returns (c: nat)
    requires u < v.Length0
    ensures c <= v.Length1
    ensures c < v.Length1 ==> v[u, c] == Available
    ensures forall j | 0 <= j < c :: v[u, j] != Available
  {
    c := 0;
    while c < v.Length1
      invariant c <= v.Length1
      invariant forall j | 0 <= j < c :: v[u, j] != Available
    {
      if v[u, c] == Available {
        return;
      }
      c := c + 1;
    }
  }

  /** One step of the scheduler: user `u` takes the first available column `c`. */
  lemma GreedyAssignStep(angle: AngleFn, sc: Scenario, g: Grid, g': Grid, sol: Solution, u: nat, c: nat)
    requires Shaped(g, |sc.users|, |sc.sats|) && |sol.beams| == |sc.sats|
    requires u < |sc.users| && c == FirstAvailable(g[u]) && c < |g[u]|
    requires SatOf(c) <= |sc.sats|
    requires g' == Propagate(angle, sc, g, u, SatOf(c), ColorOf(c), |sol.beams[SatOf(c) - 1]|)
    ensures Greedy(angle, sc, g, sol, u) ==
      Greedy(angle, sc, g', AppendBeam(sol, SatOf(c), Beam(u + 1, ColorOf(c))), u + 1)
  {
    var next := Assign(angle, sc, g, sol, u, c);
    assert next == (g', AppendBeam(sol, SatOf(c), Beam(u + 1, ColorOf(c))));
  }

  /** One turn of the greedy pass: user `u` takes the first available column of
      their row, if any, and the propagation step runs. */
  method ServeUser(v: array2<BeamState>, angle: AngleFn, sc: Scenario, sol: Solution, u: nat)
    returns (sol': Solution)
    requires v.Length0 == |sc.users| && v.Length1 == |sc.sats| * ColorsPerSatellite
    requires |sol.beams| == |sc.sats| && u < |sc.users|
    modifies v
    ensures |sol'.beams| == |sc.sats|
    // the user takes the first available column, if any, and the matrix is propagated from it
    ensures var c := FirstAvailable(old(Snapshot(v))[u]);
      if c < v.Length1 then
        SatOf(c) <= |sc.sats| &&
        sol' == AppendBeam(sol, SatOf(c), Beam(u + 1, ColorOf(c))) &&
        Snapshot(v) == Propagate(angle, sc, old(Snapshot(v)), u, SatOf(c), ColorOf(c), |sol.beams[SatOf(c) - 1]|)
      else
        sol' == sol && Snapshot(v) == old(Snapshot(v))
    ensures Greedy(angle, sc, old(Snapshot(v)), sol, u) == Greedy(angle, sc, Snapshot(v), sol', u + 1)
  {
    ghost var before := Snapshot(v);
    ColumnsInRange(|sc.sats|);
    var c := FindFirstAvailable(v, u);
    FirstAvailableUnique(before[u], c);
    sol' := sol;
    if c < v.Length1 {
      var satId := c / ColorsPerSatellite + 1;
      var color := c % ColorsPerSatellite;
      assert satId == SatOf(c) && color == ColorOf(c);
      sol' := AppendBeam(sol, satId, Beam(u + 1, color));
      var currentBeamI := |sol'.beams[satId - 1]| - 1;
      UpdateVisibility(v, angle, sc, u, satId, color, currentBeamI);
      GreedyAssignStep(angle, sc, before, Snapshot(v), sol, u, c);
    }
  }

  /** The greedy pass over the matrix `v`: each user in ascending order takes the
      first available column of their row, if any, and the propagation step runs. */
  method Schedule(v: array2<BeamState>, angle: AngleFn, sc: Scenario) returns (sol: Solution)
    requires v.Length0 == |sc.users| && v.Length1 == |sc.sats| * ColorsPerSatellite
    modifies v
    ensures (Snapshot(v), sol) == Greedy(angle, sc, old(Snapshot(v)), EmptySolution(|sc.sats|), 0)
  {
    ghost var g0 := Snapshot(v);
    ghost var g := g0;
    sol := EmptySolution(|sc.sats|);
    var numUsers := v.Length0;
    for u := 0 to numUsers
      invariant g == Snapshot(v) && Shaped(g, |sc.users|, |sc.sats|) && |sol.beams| == |sc.sats|
      invariant Greedy(angle, sc, g0, EmptySolution(|sc.sats|), 0) == Greedy(angle, sc, g, sol, u)
    {
      sol := ServeUser(v, angle, sc, sol, u);
      g := Snapshot(v);
    }
  }

  /** Builds the matrix from the scenario and runs the scheduler on it. */
  method PlanBeams(angle: AngleFn, sc: Scenario) returns (sol: Solution)
    ensures sol == Greedy(angle, sc, InitialGrid(angle, sc), EmptySolution(|sc.sats|), 0).1
    ensures Ranged(sc, sol) && KeyOrder(sol) && FirstBeamOrder(sol) && OneBeamPerUser(sol) && WithinCapacity(sol)
    ensures Separated(angle, sc, sol)
    ensures forall s, i | 0 <= s < |sol.beams| && 0 <= i < |sol.beams[s]| ::
      Permitted(angle, sc, Row(sol.beams[s][i]), s + 1)
    ensures forall w, c |
      0 <= w < |sc.users| && 0 <= c < |sc.sats| * ColorsPerSatellite &&
      Greedy(angle, sc, InitialGrid(angle, sc), EmptySolution(|sc.sats|), 0).0[w][c] == Available ::
      HasBeam(sol, w + 1)
    ensures |sc.users| == 0 ==> sol.order == [] && forall s | 0 <= s < |sol.beams| :: sol.beams[s] == []
  {
    var v := GenerateVisibilityMatrix(angle, sc);
    sol := Schedule(v, angle, sc);
    PlanProperties(angle, sc);
  }

  /** The column count as the program reads it, from the first row of the
      matrix; `None` stands for the IndexError raised when there is no row. */
  function ColumnCountAsWritten(g: Grid): (r: Option<nat>)
    ensures r.None? <==> g == []
    ensures g != [] ==> r == Some(|g[0]|)
  {
    if g == [] then None else Some(|g[0]|)
  }

  /** With no users, the program as written fails before scheduling, where an
      empty assignment is meant. */
  lemma NoUsersFailsAsWritten(angle: AngleFn, sc: Scenario)
    requires |sc.users| == 0
    ensures ColumnCountAsWritten(InitialGrid(angle, sc)) == None
  {
  }
}
