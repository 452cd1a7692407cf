/** The input as both solvers see it: a sequence of lines, blank ones skipped,
    every other one parsed as a rotation, the first failure ending the run. */
module Input {
  import opened Outcomes
  import opened Text
  import opened Rotations

  /** No line makes `split_at(1)` panic. */
  predicate AllSplitSafe(lines: seq<string>) {
    forall i :: 0 <= i < |lines| ==> SplitSafe(lines[i])
  }

  predicate IsBlank(line: string) {
    |Trim(line)| == 0
  }

  /** An instruction as the loops hand it to `parse`: trimmed, non-empty, and
      safe to split after its first byte. */
  predicate IsInstruction(t: string) {
    |t| > 0 && Trimmed(t) && AsciiFirst(t)
  }

  predicate AllInstructions(ins: seq<string>) {
    forall i :: 0 <= i < |ins| ==> IsInstruction(ins[i])
  }

  /** The trimmed non-blank lines, in order. */
  function Instructions(lines: seq<string>): (ins: seq<string>)
    requires AllSplitSafe(lines)
    ensures |ins| <= |lines|
    ensures AllInstructions(ins)
  {
    if |lines| == 0 then []
    else
      var t := Trim(lines[0]);
      var rest := Instructions(lines[1..]);
      if |t| == 0 then rest
      else
        assert SplitSafe(lines[0]);
        [t] + rest
  }

  /** An instruction parses as itself: re-trimming inside `from_str` changes nothing. */
  lemma InstructionSplitSafe(t: string)
    requires IsInstruction(t)
    ensures SplitSafe(t) && Trim(t) == t
  {
    TrimOfTrimmed(t);
  }

  lemma AllSplitSafeConcat(a: seq<string>, b: seq<string>)
    requires AllSplitSafe(a) && AllSplitSafe(b)
    ensures AllSplitSafe(a + b)
  {
  }

  /** The instructions of two blocks of lines are those of each block, in order. */
  lemma {:induction false} InstructionsAppend(a: seq<string>, b: seq<string>)
    requires AllSplitSafe(a) && AllSplitSafe(b)
    ensures AllSplitSafe(a + b)
    ensures Instructions(a + b) == Instructions(a) + Instructions(b)
    decreases |a|
  {
    AllSplitSafeConcat(a, b);
    if |a| == 0 {
      assert a + b == b;
    } else {
      var tail := a[1..];
      InstructionsAppend(tail, b);
      assert (a + b)[0] == a[0];
      assert (a + b)[1..] == tail + b;
    }
  }

  /** A single line yields nothing when blank, and its trimmed text otherwise. */
  lemma InstructionsSingle(line: string)
    requires SplitSafe(line)
    ensures Instructions([line]) == if IsBlank(line) then [] else [Trim(line)]
  {
    assert [line][1..] == [];
  }

  /** Blank lines contribute nothing to the instruction list. */
  lemma InstructionsSkipBlank(a: seq<string>, blank: string, b: seq<string>)
    requires AllSplitSafe(a + [blank] + b) && IsBlank(blank)
    ensures AllSplitSafe(a + b)
    ensures Instructions(a + [blank] + b) == Instructions(a + b)
  {
    var x := a + [blank] + b;
    assert AllSplitSafe(a) by {
      assert forall i :: 0 <= i < |a| ==> x[i] == a[i];
    }
    assert AllSplitSafe(b) by {
      assert forall i :: 0 <= i < |b| ==> x[|a| + 1 + i] == b[i];
    }
    assert AllSplitSafe([blank]) by {
      assert x[|a|] == blank;
    }
    assert Instructions([blank]) == [] by {
      assert [blank][1..] == [];
    }
    InstructionsAppend(a, [blank]);
    InstructionsAppend(a + [blank], b);
    InstructionsAppend(a, b);
  }

  /** `trimmed.parse()` on one instruction. */
  function ParseLine(t: string): Result<Rotation, ParseError>
    requires IsInstruction(t)
  {
    InstructionSplitSafe(t);
    FromStr(t)
  }

  /** Parses every instruction, stopping at the first one `from_str` rejects. */
  function ParseAll(ins: seq<string>): (r: Result<seq<Rotation>, ParseError>)
    requires AllInstructions(ins)
    ensures r.Ok? <==> forall i :: 0 <= i < |ins| ==> ParseLine(ins[i]).Ok?
    ensures r.Ok? ==> |r.value| == |ins| && forall i :: 0 <= i < |ins| ==> ParseLine(ins[i]) == Ok(r.value[i])
  {
    if |ins| == 0 then Ok([])
    else
      match ParseLine(ins[0])
      case Err(e) => Err(e)
      case Ok(rot) =>
        assert forall i :: 1 <= i < |ins| ==> ins[i] == ins[1..][i - 1];
        match ParseAll(ins[1..])
        case Err(e) => Err(e)
        case Ok(rots) => Ok([rot] + rots)
  }

  /** Index of the first instruction `from_str` rejects, or the length when there is none. */
  function FirstRejected(ins: seq<string>): (k: nat)
    requires AllInstructions(ins)
    ensures k <= |ins|
    ensures forall j :: 0 <= j < k ==> ParseLine(ins[j]).Ok?
    ensures k < |ins| ==> ParseLine(ins[k]).Err?
  {
    if |ins| == 0 || ParseLine(ins[0]).Err? then 0
    else
      assert forall j :: 1 <= j < |ins| ==> ins[j] == ins[1..][j - 1];
      1 + FirstRejected(ins[1..])
  }

  /** A failed parse reports the error of the first instruction `from_str` rejects. */
  lemma {:induction false} ParseAllFirstError(ins: seq<string>)
    requires AllInstructions(ins)
    ensures ParseAll(ins).Err? <==> FirstRejected(ins) < |ins|
    ensures ParseAll(ins).Err? ==> ParseLine(ins[FirstRejected(ins)]) == Err(ParseAll(ins).error)
  {
    if |ins| > 0 && ParseLine(ins[0]).Ok? {
      ParseAllFirstError(ins[1..]);
      assert ins[1..][FirstRejected(ins[1..])..] == ins[1 + FirstRejected(ins[1..])..];
    }
  }

  /** The text of a rotation as an input file writes it. */
  function Render(rot: Rotation): string
    requires 0 <= rot.steps
  {
    [DirChar(rot.dir)] + NatToDecimal(rot.steps)
  }

  /** The rendered rotations, one per line. */
  function RenderAll(rots: seq<Rotation>): (lines: seq<string>)
    requires forall i :: 0 <= i < |rots| ==> 0 <= rots[i].steps
    ensures |lines| == |rots|
    ensures forall i :: 0 <= i < |rots| ==> lines[i] == Render(rots[i])
    decreases |rots|
  {
    if |rots| == 0 then [] else [Render(rots[0])] + RenderAll(rots[1..])
  }

  /** Rotations written one per line parse back to exactly those rotations. */
  lemma {:induction false} ParseRendered(rots: seq<Rotation>)
    requires forall i :: 0 <= i < |rots| ==> 0 <= rots[i].steps <= I32_MAX
    ensures AllSplitSafe(RenderAll(rots))
    ensures ParseAll(Instructions(RenderAll(rots))) == Ok(rots)
    decreases |rots|
  {
    if |rots| > 0 {
      var r := rots[0];
      var line := Render(r);
      FromStrFormatted(r.dir, r.steps);
      TrimOfTrimmed(line);
      assert Rotation(r.dir, r.steps) == r;
      ParseRendered(rots[1..]);
      var rest := RenderAll(rots[1..]);
      var ins := [line] + Instructions(rest);
      assert AllSplitSafe(RenderAll(rots)) && Instructions(RenderAll(rots)) == ins by {
        assert RenderAll(rots) == [line] + rest;
        InstructionsSingle(line);
        InstructionsAppend([line], rest);
      }
      assert ins[1..] == Instructions(rest);
      assert ParseLine(ins[0]) == Ok(r);
      assert rots == [r] + rots[1..];
    }
  }

}
