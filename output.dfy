/** The report of an assignment: one line per beam, satellites in the order
    they received their first beam, each satellite's beams numbered from 1. */
module Output {
  import opened Geometry
  import opened VisibilityMatrix
  import opened Scheduler

  /** One report line: `sat <sat> beam <beam> user <user> color <color>`. */
  datatype OutputLine = OutputLine(sat: nat, beam: nat, user: nat, color: char)

  /** The letter naming colour `color`: 'A' for 0, 'B' for 1, and so on. */
  function ColorLetter(color: nat): (ch: char)
    requires color < ColorsPerSatellite
    ensures 'A' <= ch < ('A' as int + ColorsPerSatellite) as char
    ensures ColorIndex(ch) == color
  {
    ('A' as int + color) as char
  }

  /** The colour a letter names. */
  function ColorIndex(ch: char): int
  {
    ch as int - 'A' as int
  }

  /** Every entry of every list has a colour that has a letter. */
  ghost predicate Lettered(beams: seq<seq<Beam>>)
  {
    forall s, i | 0 <= s < |beams| && 0 <= i < |beams[s]| :: beams[s][i].color < ColorsPerSatellite
  }

  /** Every satellite of `order` has a list. */
  ghost predicate Listed(order: seq<nat>, beams: seq<seq<Beam>>)
  {
    forall k | 0 <= k < |order| :: 1 <= order[k] <= |beams|
  }

  /** The lines of the first `n` beams of `list`, the list of satellite `satId`. */
  function SatLines(satId: nat, list: seq<Beam>, n: nat): (lines: seq<OutputLine>)
    requires n <= |list|
    requires forall i | 0 <= i < |list| :: list[i].color < ColorsPerSatellite
    ensures |lines| == n
    ensures forall i | 0 <= i < n ::
      lines[i] == OutputLine(satId, i + 1, list[i].user, ColorLetter(list[i].color))
  {
    if n == 0 then []
    else SatLines(satId, list, n - 1) + [OutputLine(satId, n, list[n - 1].user, ColorLetter(list[n - 1].color))]
  }

  /** The report of the satellites in `order`. */
  function Report(order: seq<nat>, beams: seq<seq<Beam>>): (lines: seq<OutputLine>)
    requires Listed(order, beams) && Lettered(beams)
    ensures forall i | 0 <= i < |lines| :: lines[i].sat in order && 1 <= lines[i].beam <= |beams[lines[i].sat - 1]|
  {
    if order == [] then []
    else
      var satId := order[|order| - 1];
      Report(order[..|order| - 1], beams) + SatLines(satId, beams[satId - 1], |beams[satId - 1]|)
  }

  /** A line is among the first `n` lines of a satellite exactly when it
      describes one of its first `n` beams. */
  lemma {:induction false} SatLinesMembership(satId: nat, list: seq<Beam>, n: nat, line: OutputLine)
    requires n <= |list|
    requires forall i | 0 <= i < |list| :: list[i].color < ColorsPerSatellite
    ensures line in SatLines(satId, list, n) <==>
      line.sat == satId && 1 <= line.beam <= n &&
      line.user == list[line.beam - 1].user && line.color == ColorLetter(list[line.beam - 1].color)
  {
    if n > 0 {
      SatLinesMembership(satId, list, n - 1, line);
    }
  }

  /** A line is in the report exactly when its satellite is reported and the
      line names that satellite's beam with its number, user and colour letter. */
  lemma {:induction false} ReportMembership(order: seq<nat>, beams: seq<seq<Beam>>, line: OutputLine)
    requires Listed(order, beams) && Lettered(beams)
    ensures line in Report(order, beams) <==>
      line.sat in order && 1 <= line.beam <= |beams[line.sat - 1]| &&
      line.user == beams[line.sat - 1][line.beam - 1].user &&
      line.color == ColorLetter(beams[line.sat - 1][line.beam - 1].color)
  {
    if order != [] {
      var satId := order[|order| - 1];
      var front := order[..|order| - 1];
      assert order == front + [satId];
      ReportMembership(front, beams, line);
      SatLinesMembership(satId, beams[satId - 1], |beams[satId - 1]|, line);
    }
  }

  /** When no satellite is listed twice, no line of the report repeats. */
  lemma {:induction false} ReportDistinct(order: seq<nat>, beams: seq<seq<Beam>>)
    requires Listed(order, beams) && Lettered(beams)
    requires forall k, l | 0 <= k < l < |order| :: order[k] != order[l]
    ensures forall i, j | 0 <= i < j < |Report(order, beams)| :: Report(order, beams)[i] != Report(order, beams)[j]
  {
    if order != [] {
      var satId := order[|order| - 1];
      var front := order[..|order| - 1];
      ReportDistinct(front, beams);
      var earlier: seq<OutputLine> := Report(front, beams);
      var last: seq<OutputLine> := SatLines(satId, beams[satId - 1], |beams[satId - 1]|);
      assert Report(order, beams) == earlier + last;
      assert satId !in front;
      forall i, j | 0 <= i < j < |earlier + last|
        ensures (earlier + last)[i] != (earlier + last)[j]
      {
        if j >= |earlier| && i < |earlier| {
          assert earlier[i].sat in front;
          assert (earlier + last)[j] == last[j - |earlier|];
        }
      }
    }
  }

  /** Every beam of a well-formed assignment has exactly one line in the report,
      and the report has no other line. */
  lemma ReportOfSolution(sol: Solution, line: OutputLine)
    requires KeyOrder(sol) && Lettered(sol.beams)
    ensures Listed(sol.order, sol.beams)
    ensures line in Report(sol.order, sol.beams) <==>
      1 <= line.sat <= |sol.beams| && 1 <= line.beam <= |sol.beams[line.sat - 1]| &&
      line.user == sol.beams[line.sat - 1][line.beam - 1].user &&
      line.color == ColorLetter(sol.beams[line.sat - 1][line.beam - 1].color)
    ensures forall i, j | 0 <= i < j < |Report(sol.order, sol.beams)| ::
      Report(sol.order, sol.beams)[i] != Report(sol.order, sol.beams)[j]
  {
    ReportMembership(sol.order, sol.beams, line);
    ReportDistinct(sol.order, sol.beams);
    if 1 <= line.sat <= |sol.beams| && 1 <= line.beam <= |sol.beams[line.sat - 1]| {
      assert line.sat - 1 + 1 in sol.order;
    }
  }

  /** The report of the one-satellite, one-user scenario is the single line
      `sat 1 beam 1 user 1 color A`. */
  lemma SingleUserReport(angle: AngleFn, sc: Scenario)
    requires |sc.sats| == 1 && |sc.users| == 1 && |sc.interferers| == 0
    requires Visible(angle, sc, 0, 1)
    ensures var sol := Greedy(angle, sc, InitialGrid(angle, sc), EmptySolution(1), 0).1;
      Listed(sol.order, sol.beams) && Lettered(sol.beams) &&
      Report(sol.order, sol.beams) == [OutputLine(1, 1, 1, 'A')]
  {
    SingleUserPlan(angle, sc);
    var sol := Solution([1], [[Beam(1, 0)]]);
    assert SatLines(1, sol.beams[0], 1) == [OutputLine(1, 1, 1, 'A')];
    assert Report(sol.order[..0], sol.beams) == [];
  }

  /** Produces the report lines of `sol`, satellite by satellite and beam by beam. */
  method FormatSolution(sol: Solution) returns (lines: seq<OutputLine>)
    requires Listed(sol.order, sol.beams) && Lettered(sol.beams)
    ensures lines == Report(sol.order, sol.beams)
  {
    lines := [];
    for k := 0 to |sol.order|
      invariant lines == Report(sol.order[..k], sol.beams)
    {
      var satId := sol.order[k];
      var sat := sol.beams[satId - 1];
      var numBeams := |sat|;
      for beamI := 0 to numBeams
        invariant lines == Report(sol.order[..k], sol.beams) + SatLines(satId, sat, beamI)
      {
        var newLine := OutputLine(satId, beamI + 1, sat[beamI].user, ColorLetter(sat[beamI].color));
        assert SatLines(satId, sat, beamI + 1) == SatLines(satId, sat, beamI) + [newLine];
        lines := lines + [newLine];
      }
      assert sol.order[..k + 1][..k] == sol.order[..k];
      assert Report(sol.order[..k + 1], sol.beams) == Report(sol.order[..k], sol.beams) + SatLines(satId, sat, numBeams);
    }
    assert sol.order[..|sol.order|] == sol.order;
  }
}
