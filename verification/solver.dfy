/** `solve` of the current solver: fold the dial over the input lines, adding
    each rotation's password increment, stopping at the first bad line. */
module Solver {
  import opened Outcomes
  import opened Text
  import opened Rotations
  import opened Input
  import opened Dial

  /** The loop of `solve` over the remaining lines, from dial state `d`. */
  function Run(lines: seq<string>, d: State): (r: Result<State, ParseError>)
    requires AllSplitSafe(lines)
    ensures r.Ok? ==> r.value.password >= d.password
    ensures r.Ok? && OnDial(d.position) ==> OnDial(r.value.position)
    ensures r.Err? ==> r.error != EmptyLine
    decreases |lines|
  {
    if |lines| == 0 then Ok(d)
    else
      var t := Trim(lines[0]);
      if |t| == 0 then Run(lines[1..], d)
      else
        assert SplitSafe(lines[0]);
        TrimIdempotent(lines[0]);
        match FromStr(t)
        case Err(e) => Err(e)
        case Ok(rot) => Run(lines[1..], Step(d, rot))
  }

  /** `solve`: the password for the whole input, starting at 50 with password 0. */
  function Solve(lines: seq<string>): Result<nat, ParseError>
    requires AllSplitSafe(lines)
  {
    match Run(lines, Initial)
    case Err(e) => Err(e)
    case Ok(d) => Ok(d.password)
  }

  /** The dial after the parsed rotations, one `Step` each. */
  function Simulate(d: State, rots: seq<Rotation>): State
    decreases |rots|
  {
    if |rots| == 0 then d else Simulate(Step(d, rots[0]), rots[1..])
  }

  /** `solve` is parsing followed by simulation: it fails with the first parse
      error, and otherwise returns the dial after all rotations. */
  lemma {:induction false} RunDecomposes(lines: seq<string>, d: State)
    requires AllSplitSafe(lines)
    ensures Run(lines, d) ==
      match ParseAll(Instructions(lines))
      case Err(e) => Err(e)
      case Ok(rots) => Ok(Simulate(d, rots))
    decreases |lines|
  {
    if |lines| > 0 {
      var t := Trim(lines[0]);
      if |t| > 0 {
        var rest := Instructions(lines[1..]);
        assert Instructions(lines) == [t] + rest;
        assert ([t] + rest)[1..] == rest;
        match FromStr(t)
        case Err(e) =>
        case Ok(rot) =>
          RunDecomposes(lines[1..], Step(d, rot));
      } else {
        RunDecomposes(lines[1..], d);
      }
    }
  }

  /** `solve` fails exactly when some instruction does not parse, and then
      reports the error of the first one. */
  lemma SolveFailsOnFirstBadLine(lines: seq<string>)
    requires AllSplitSafe(lines)
    ensures var ins := Instructions(lines);
      && (Solve(lines).Err? <==> FirstRejected(ins) < |ins|)
      && (Solve(lines).Err? ==> ParseLine(ins[FirstRejected(ins)]) == Err(Solve(lines).error))
  {
    RunDecomposes(lines, Initial);
    ParseAllFirstError(Instructions(lines));
  }

  /** Removing a blank line never changes what `solve` returns. */
  lemma SolveSkipsBlankLines(a: seq<string>, blank: string, b: seq<string>)
    requires AllSplitSafe(a + [blank] + b) && IsBlank(blank)
    ensures AllSplitSafe(a + b)
    ensures Solve(a + [blank] + b) == Solve(a + b)
  {
    InstructionsSkipBlank(a, blank, b);
    RunDecomposes(a + [blank] + b, Initial);
    RunDecomposes(a + b, Initial);
  }

  /** The total signed displacement of a list of rotations. */
  function NetDelta(rots: seq<Rotation>): int
    decreases |rots|
  {
    if |rots| == 0 then 0 else Delta(rots[0]) + NetDelta(rots[1..])
  }

  /** The pointer ends where the net displacement puts it on the dial. */
  lemma {:induction false} SimulatePosition(d: State, rots: seq<Rotation>)
    requires OnDial(d.position)
    ensures Simulate(d, rots).position == (d.position + NetDelta(rots)) % COUNTER_SIZE
    decreases |rots|
  {
    if |rots| > 0 {
      var d' := Step(d, rots[0]);
      SimulatePosition(d', rots[1..]);
      var a := d.position + Delta(rots[0]);
      var b := NetDelta(rots[1..]);
      assert d'.position == a % COUNTER_SIZE;
      WrapThenAdd(a, b);
    }
  }

  /** Every rotation that leaves the pointer on 0 adds one, and no rotation
      subtracts: the password is at least the number of landings on 0. */
  lemma {:induction false} PasswordCountsLandings(d: State, rots: seq<Rotation>)
    ensures Simulate(d, rots).password >= d.password + multiset(Positions(d.position, rots))[0]
    decreases |rots|
  {
    if |rots| > 0 {
      var d' := Step(d, rots[0]);
      PasswordCountsLandings(d', rots[1..]);
      assert Positions(d.position, rots) == [d'.position] + Positions(d'.position, rots[1..]);
    }
  }

  /** The click-by-click reference: each rotation walks one click at a time,
      and every click that lands on 0 counts. */
  function BruteForce(d: State, rots: seq<Rotation>): State
    requires forall i :: 0 <= i < |rots| ==> rots[i].steps >= 0
    decreases |rots|
  {
    if |rots| == 0 then d
    else
      var r := rots[0];
      var d' := State(Clicks(d.position, r.dir, r.steps), d.password + WalkZeros(d.position, r.dir, r.steps));
      BruteForce(d', rots[1..])
  }

  /** The position after `n` single clicks. */
  function Clicks(p: int, dir: Direction, n: nat): int
    decreases n
  {
    if n == 0 then p else Clicks(Tick(p, dir), dir, n - 1)
  }

  /** Clicking `n` times ends where `apply_rotation` puts the pointer. */
  lemma {:induction false} ClicksEndAtRotation(p: int, dir: Direction, n: nat)
    requires OnDial(p)
    ensures Clicks(p, dir, n) == ApplyRotation(ComputeUnboundedPos(p, Rotation(dir, n)))
    decreases n
  {
    if n > 0 {
      var q := Tick(p, dir);
      ClicksEndAtRotation(q, dir, n - 1);
      var u := ComputeUnboundedPos(p, Rotation(dir, n));
      var v := ComputeUnboundedPos(q, Rotation(dir, n - 1));
      match dir
      case Right =>
        assert v == q + (n - 1) && u == (p + 1) + (n - 1);
        WrapThenAdd(p + 1, n - 1);
      case Left =>
        assert v == q - (n - 1) && u == (p - 1) - (n - 1);
        WrapThenAdd(p - 1, -(n - 1));
    }
  }

  /** When every rotation turns between 1 and 99 clicks, the closed-form
      password equals the click-by-click count, and both end at the same position. */
  lemma {:induction false} SimulateMatchesBruteForce(d: State, rots: seq<Rotation>)
    requires OnDial(d.position)
    requires forall i :: 0 <= i < |rots| ==> 1 <= rots[i].steps <= 99
    ensures Simulate(d, rots) == BruteForce(d, rots)
    decreases |rots|
  {
    if |rots| > 0 {
      var r := rots[0];
      IncrementMatchesWalk(d.position, r);
      ClicksEndAtRotation(d.position, r.dir, r.steps);
      assert Rotation(r.dir, r.steps) == r;
      SimulateMatchesBruteForce(Step(d, r), rots[1..]);
    }
  }

  /** When the instructions parse to `rots`, `solve` returns the password
      after simulating `rots` from the initial state. */
  lemma SolveParsed(lines: seq<string>, rots: seq<Rotation>)
    requires AllSplitSafe(lines) && ParseAll(Instructions(lines)) == Ok(rots)
    ensures Solve(lines) == Ok(Simulate(Initial, rots).password)
  {
    RunDecomposes(lines, Initial);
  }

  /** Rotations written out one per line are solved as if simulated directly. */
  lemma SolveRendered(rots: seq<Rotation>)
    requires forall i :: 0 <= i < |rots| ==> 0 <= rots[i].steps <= I32_MAX
    ensures AllSplitSafe(RenderAll(rots))
    ensures Solve(RenderAll(rots)) == Ok(Simulate(Initial, rots).password)
  {
    ParseRendered(rots);
    RunDecomposes(RenderAll(rots), Initial);
  }

  /** A run whose every step is written out ends at the last state written. */
  lemma {:induction false} SimulateTrace(d: State, rots: seq<Rotation>, trace: seq<State>)
    requires |trace| == |rots| + 1 && trace[0] == d
    requires forall i :: 0 <= i < |rots| ==> trace[i + 1] == Step(trace[i], rots[i])
    ensures Simulate(d, rots) == trace[|rots|]
    decreases |rots|
  {
    if |rots| > 0 {
      SimulateTrace(Step(d, rots[0]), rots[1..], trace[1..]);
    }
  }
}
