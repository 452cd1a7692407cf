/** The first solver: the same parser and dial, but the password counts only
    the rotations that leave the pointer on 0. */
module Legacy {
  import opened Outcomes
  import opened Text
  import opened Rotations
  import opened Input
  import opened Dial
  import Solver

  /** `apply_rotation(current, rot)`: the dial position `steps` clicks away. */
  function ApplyRotation(current: int, rot: Rotation): (p: int)
    ensures OnDial(p)
    ensures rot.dir == Left ==> (current - rot.steps - p) % COUNTER_SIZE == 0
    ensures rot.dir == Right ==> (current + rot.steps - p) % COUNTER_SIZE == 0
  {
    (current + Delta(rot)) % COUNTER_SIZE
  }

  /** Both solvers move the pointer to the same position. */
  lemma ApplyRotationAgrees(current: int, rot: Rotation)
    ensures ApplyRotation(current, rot) == Dial.ApplyRotation(ComputeUnboundedPos(current, rot))
  {
  }

  /** One iteration of the first solver's loop: move, then add one on landing on 0. */
  function Step(d: State, rot: Rotation): (d': State)
    ensures d'.password == d.password + (if d'.position == 0 then 1 else 0)
    ensures d'.position == Dial.Step(d, rot).position
  {
    var p := ApplyRotation(d.position, rot);
    State(p, d.password + if p == 0 then 1 else 0)
  }

  /** The loop of the first `solve` over the remaining lines, from dial state `d`. */
  function Run(lines: seq<string>, d: State): (r: Result<State, ParseError>)
    requires AllSplitSafe(lines)
    ensures r.Ok? ==> d.password <= r.value.password <= d.password + |lines|
    ensures r.Err? ==> r.error != EmptyLine
    decreases |lines|
  {
    if |lines| == 0 then Ok(d)
    else
      var t := Trim(lines[0]);
      if |t| == 0 then Run(lines[1..], d)
      else
        assert SplitSafe(lines[0]);
        TrimIdempotent(lines[0]);
        match FromStr(t)
        case Err(e) => Err(e)
        case Ok(rot) => Run(lines[1..], Step(d, rot))
  }

  /** The first `solve`: the number of landings on 0, starting at 50. */
  function Solve(lines: seq<string>): (r: Result<nat, ParseError>)
    requires AllSplitSafe(lines)
    ensures r.Ok? ==> r.value <= |lines|
  {
    match Run(lines, Initial)
    case Err(e) => Err(e)
    case Ok(d) => Ok(d.password)
  }

  /** The dial after the parsed rotations under the first solver's rule. */
  function Simulate(d: State, rots: seq<Rotation>): State
    decreases |rots|
  {
    if |rots| == 0 then d else Simulate(Step(d, rots[0]), rots[1..])
  }

  /** The first `solve` is parsing followed by simulation. */
  lemma {:induction false} RunDecomposes(lines: seq<string>, d: State)
    requires AllSplitSafe(lines)
    ensures Run(lines, d) ==
      match ParseAll(Instructions(lines))
      case Err(e) => Err(e)
      case Ok(rots) => Ok(Simulate(d, rots))
    decreases |lines|
  {
    if |lines| > 0 {
      var t := Trim(lines[0]);
      if |t| > 0 {
        var rest := Instructions(lines[1..]);
        assert Instructions(lines) == [t] + rest;
        assert ([t] + rest)[1..] == rest;
        match FromStr(t)
        case Err(e) =>
        case Ok(rot) =>
          RunDecomposes(lines[1..], Step(d, rot));
      } else {
        RunDecomposes(lines[1..], d);
      }
    }
  }

  /** The first solver's password is exactly the number of rotations after
      which the pointer rests on 0. */
  lemma {:induction false} SimulateCountsLandings(d: State, rots: seq<Rotation>)
    ensures Simulate(d, rots).password == d.password + multiset(Positions(d.position, rots))[0]
    decreases |rots|
  {
    if |rots| > 0 {
      var d' := Step(d, rots[0]);
      SimulateCountsLandings(d', rots[1..]);
      assert Positions(d.position, rots) == [d'.position] + Positions(d'.position, rots[1..]);
    }
  }

  /** On success the first `solve` returns the number of instructions after
      which the pointer rests on 0, at most the number of non-blank lines. */
  lemma SolveCountsLandings(lines: seq<string>)
    requires AllSplitSafe(lines)
    ensures var parsed := ParseAll(Instructions(lines));
      && (Solve(lines).Ok? <==> parsed.Ok?)
      && (Solve(lines).Ok? ==>
            Solve(lines).value == multiset(Positions(START_POSITION, parsed.value))[0] &&
            Solve(lines).value <= |Instructions(lines)|)
  {
    RunDecomposes(lines, Initial);
    var parsed := ParseAll(Instructions(lines));
    if parsed.Ok? {
      SimulateCountsLandings(Initial, parsed.value);
      var ps := Positions(START_POSITION, parsed.value);
      assert multiset(ps)[0] <= |multiset(ps)|;
    }
  }

  /** On the same input both solvers fail alike, or both succeed and the
      current solver's password is at least the first one's: a landing adds
      one in both, and the current rule never subtracts. */
  lemma CurrentSolverCountsAtLeastAsMany(lines: seq<string>)
    requires AllSplitSafe(lines)
    ensures Solver.Solve(lines).Err? <==> Solve(lines).Err?
    ensures Solve(lines).Err? ==> Solver.Solve(lines).error == Solve(lines).error
    ensures Solve(lines).Ok? ==> Solver.Solve(lines).value >= Solve(lines).value
  {
    RunDecomposes(lines, Initial);
    Solver.RunDecomposes(lines, Initial);
    var parsed := ParseAll(Instructions(lines));
    if parsed.Ok? {
      SimulateCountsLandings(Initial, parsed.value);
      Solver.PasswordCountsLandings(Initial, parsed.value);
    }
  }

  /** When the instructions parse to `rots`, `solve` returns the password
      after simulating `rots` from the initial state. */
  lemma SolveParsed(lines: seq<string>, rots: seq<Rotation>)
    requires AllSplitSafe(lines) && ParseAll(Instructions(lines)) == Ok(rots)
    ensures Solve(lines) == Ok(Simulate(Initial, rots).password)
  {
    RunDecomposes(lines, Initial);
  }

  /** Rotations written out one per line are solved as if simulated directly. */
  lemma SolveRendered(rots: seq<Rotation>)
    requires forall i :: 0 <= i < |rots| ==> 0 <= rots[i].steps <= I32_MAX
    ensures AllSplitSafe(RenderAll(rots))
    ensures Solve(RenderAll(rots)) == Ok(Simulate(Initial, rots).password)
  {
    ParseRendered(rots);
    RunDecomposes(RenderAll(rots), Initial);
  }

  /** A run whose every step is written out ends at the last state written. */
  lemma {:induction false} SimulateTrace(d: State, rots: seq<Rotation>, trace: seq<State>)
    requires |trace| == |rots| + 1 && trace[0] == d
    requires forall i :: 0 <= i < |rots| ==> trace[i + 1] == Step(trace[i], rots[i])
    ensures Simulate(d, rots) == trace[|rots|]
    decreases |rots|
  {
    if |rots| > 0 {
      SimulateTrace(Step(d, rots[0]), rots[1..], trace[1..]);
    }
  }

  /** The unit test's scenario: from 50, `L68`, `L30`, `R48` rest on 82, 52, 0. */
  lemma ApplyRotationExample()
    ensures ApplyRotation(50, Rotation(Left, 68)) == 82
    ensures ApplyRotation(82, Rotation(Left, 30)) == 52
    ensures ApplyRotation(52, Rotation(Right, 48)) == 0
  {
  }
}
