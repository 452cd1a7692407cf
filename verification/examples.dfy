/** The unit tests of both solvers, as lemmas about their inputs. */
module Examples {
  import opened Outcomes
  import opened Rotations
  import opened Input
  import opened Dial
  import opened Text
  import Solver
  import Legacy

  /** `TEST_INPUT` of the first solver; the same text is `TEST_INPUT_2` of the current one. */
  const TestLines: seq<string> := ["R50", "L25", "R75", "L100", "R1", "L51", "R49", "R50", "L1"]

  const TestRotations: seq<Rotation> := [
    Rotation(Right, 50), Rotation(Left, 25), Rotation(Right, 75), Rotation(Left, 100),
    Rotation(Right, 1), Rotation(Left, 51), Rotation(Right, 49), Rotation(Right, 50),
    Rotation(Left, 1)]

  /** `EDGE_CASE_INPUT` of the current solver. */
  const EdgeLines: seq<string> := ["R25", "L10", "R85", "L200", "R310", "L1", "R99"]

  const EdgeRotations: seq<Rotation> := [
    Rotation(Right, 25), Rotation(Left, 10), Rotation(Right, 85), Rotation(Left, 200),
    Rotation(Right, 310), Rotation(Left, 1), Rotation(Right, 99)]

  /** Lines that render `rots` one by one are exactly their rendering. */
  lemma RendersAs(rots: seq<Rotation>, lines: seq<string>)
    requires |rots| == |lines|
    requires forall i :: 0 <= i < |rots| ==> 0 <= rots[i].steps && Render(rots[i]) == lines[i]
    ensures RenderAll(rots) == lines
  {
  }

  /** Lines that render `rots` parse back to `rots`. */
  lemma ParsesAs(lines: seq<string>, rots: seq<Rotation>)
    requires forall i :: 0 <= i < |rots| ==> 0 <= rots[i].steps <= I32_MAX
    requires RenderAll(rots) == lines
    ensures AllSplitSafe(lines) && ParseAll(Instructions(lines)) == Ok(rots)
  {
    ParseRendered(rots);
  }

  // The concrete facts below are stated one index at a time, with one empty
  // branch per index, so that each literal is evaluated on its own; a single
  // statement about a whole list makes the verifier unfold every literal at once.
  lemma TestLineRenders(i: nat)
    requires i < |TestLines|
    ensures Render(TestRotations[i]) == TestLines[i]
  {
    if i < 4 {
      if i == 0 {} else if i == 1 {} else if i == 2 {} else {}
    } else {
      TestLineRendersTail(i);
    }
  }

  lemma TestLineRendersTail(i: nat)
    requires 4 <= i < |TestLines|
    ensures Render(TestRotations[i]) == TestLines[i]
  {
    if i == 4 {} else if i == 5 {} else if i == 6 {} else if i == 7 {} else {}
  }

  lemma TestLinesRender()
    ensures RenderAll(TestRotations) == TestLines
  {
    forall i | 0 <= i < |TestLines|
      ensures 0 <= TestRotations[i].steps && Render(TestRotations[i]) == TestLines[i]
    {
      TestLineRenders(i);
    }
    RendersAs(TestRotations, TestLines);
  }

  lemma EdgeLineRenders(i: nat)
    requires i < |EdgeLines|
    ensures Render(EdgeRotations[i]) == EdgeLines[i]
  {
    if i < 4 {
      if i == 0 {} else if i == 1 {} else if i == 2 {} else {}
    } else {
      EdgeLineRendersTail(i);
    }
  }

  lemma EdgeLineRendersTail(i: nat)
    requires 4 <= i < |EdgeLines|
    ensures Render(EdgeRotations[i]) == EdgeLines[i]
  {
    if i == 4 {} else if i == 5 {} else {}
  }

  lemma EdgeLinesRender()
    ensures RenderAll(EdgeRotations) == EdgeLines
  {
    forall i | 0 <= i < |EdgeLines|
      ensures 0 <= EdgeRotations[i].steps && Render(EdgeRotations[i]) == EdgeLines[i]
    {
      EdgeLineRenders(i);
    }
    RendersAs(EdgeRotations, EdgeLines);
  }

  /** The unit-test lines parse to the expected rotations. */
  lemma TestLinesParse()
    ensures AllSplitSafe(TestLines) && ParseAll(Instructions(TestLines)) == Ok(TestRotations)
  {
    TestLinesRender();
    ParsesAs(TestLines, TestRotations);
  }

  lemma EdgeLinesParse()
    ensures AllSplitSafe(EdgeLines) && ParseAll(Instructions(EdgeLines)) == Ok(EdgeRotations)
  {
    EdgeLinesRender();
    ParsesAs(EdgeLines, EdgeRotations);
  }

  /** The dial after each rotation of `TEST_INPUT_2` under the current rule. */
  const TestTrace: seq<State> := [
    State(50, 0), State(0, 1), State(75, 1), State(50, 2), State(50, 3),
    State(51, 3), State(0, 4), State(49, 4), State(99, 4), State(98, 4)]

  lemma TestTraceStep(i: nat)
    requires i < |TestRotations|
    ensures TestTrace[i + 1] == Step(TestTrace[i], TestRotations[i])
  {
    if i == 0 {} else if i == 1 {} else if i == 2 {} else if i == 3 {} else if i == 4 {}
    else if i == 5 {} else if i == 6 {} else if i == 7 {} else {}
  }

  lemma SimulateTestInput()
    ensures Solver.Simulate(Initial, TestRotations).password == 4
  {
    forall i | 0 <= i < |TestRotations|
      ensures TestTrace[i + 1] == Step(TestTrace[i], TestRotations[i])
    {
      TestTraceStep(i);
    }
    Solver.SimulateTrace(Initial, TestRotations, TestTrace);
  }

  /** The current solver gives password 4 on `TEST_INPUT_2`. */
  lemma SolveTestInput()
    ensures AllSplitSafe(TestLines) && Solver.Solve(TestLines) == Ok(4)
  {
    TestLinesParse();
    Solver.SolveParsed(TestLines, TestRotations);
    SimulateTestInput();
  }

  /** The dial after each rotation of `EDGE_CASE_INPUT` under the current rule. */
  const EdgeTrace: seq<State> := [
    State(50, 0), State(75, 0), State(65, 0), State(50, 1), State(50, 3),
    State(60, 6), State(59, 6), State(58, 7)]

  lemma EdgeTraceStep(i: nat)
    requires i < |EdgeRotations|
    ensures EdgeTrace[i + 1] == Step(EdgeTrace[i], EdgeRotations[i])
  {
    if i == 0 {} else if i == 1 {} else if i == 2 {} else if i == 3 {} else if i == 4 {}
    else if i == 5 {} else {}
  }

  lemma SimulateEdgeCase()
    ensures Solver.Simulate(Initial, EdgeRotations).password == 7
  {
    forall i | 0 <= i < |EdgeRotations|
      ensures EdgeTrace[i + 1] == Step(EdgeTrace[i], EdgeRotations[i])
    {
      EdgeTraceStep(i);
    }
    Solver.SimulateTrace(Initial, EdgeRotations, EdgeTrace);
  }

  /** The current solver gives password 7 on `EDGE_CASE_INPUT`. */
  lemma SolveEdgeCase()
    ensures AllSplitSafe(EdgeLines) && Solver.Solve(EdgeLines) == Ok(7)
  {
    EdgeLinesParse();
    Solver.SolveParsed(EdgeLines, EdgeRotations);
    SimulateEdgeCase();
  }

  const R1000Lines: seq<string> := ["R1000"]

  const R1000Rotations: seq<Rotation> := [Rotation(Right, 1000)]

  lemma R1000Render()
    ensures RenderAll(R1000Rotations) == R1000Lines
  {
    assert NatToDecimal(1000) == "1000";
    assert Render(R1000Rotations[0]) == R1000Lines[0];
  }

  lemma R1000Parse()
    ensures AllSplitSafe(R1000Lines) && ParseAll(Instructions(R1000Lines)) == Ok(R1000Rotations)
  {
    R1000Render();
    ParsesAs(R1000Lines, R1000Rotations);
  }

  /** Ten whole turns right from 50 pass 0 ten times and end on 50. */
  lemma SimulateR1000()
    ensures Solver.Simulate(Initial, R1000Rotations) == State(50, 10)
  {
    Solver.SimulateTrace(Initial, R1000Rotations, [Initial, State(50, 10)]);
  }

  /** The current solver gives password 10 on the single line `R1000`. */
  lemma SolveR1000()
    ensures AllSplitSafe(R1000Lines) && Solver.Solve(R1000Lines) == Ok(10)
  {
    R1000Parse();
    Solver.SolveParsed(R1000Lines, R1000Rotations);
    SimulateR1000();
  }

  /** The dial after each rotation of `TEST_INPUT` under the first solver's rule. */
  const LegacyTrace: seq<State> := [
    State(50, 0), State(0, 1), State(75, 1), State(50, 1), State(50, 1),
    State(51, 1), State(0, 2), State(49, 2), State(99, 2), State(98, 2)]

  lemma LegacyTraceStep(i: nat)
    requires i < |TestRotations|
    ensures LegacyTrace[i + 1] == Legacy.Step(LegacyTrace[i], TestRotations[i])
  {
    if i == 0 {} else if i == 1 {} else if i == 2 {} else if i == 3 {} else if i == 4 {}
    else if i == 5 {} else if i == 6 {} else if i == 7 {} else {}
  }

  lemma LegacySimulateTestInput()
    ensures Legacy.Simulate(Initial, TestRotations).password == 2
  {
    forall i | 0 <= i < |TestRotations|
      ensures LegacyTrace[i + 1] == Legacy.Step(LegacyTrace[i], TestRotations[i])
    {
      LegacyTraceStep(i);
    }
    Legacy.SimulateTrace(Initial, TestRotations, LegacyTrace);
  }

  /** The first solver gives password 2 on `TEST_INPUT`: it lands on 0 twice. */
  lemma LegacySolveTestInput()
    ensures AllSplitSafe(TestLines) && Legacy.Solve(TestLines) == Ok(2)
  {
    TestLinesParse();
    Legacy.SolveParsed(TestLines, TestRotations);
    LegacySimulateTestInput();
  }
}
