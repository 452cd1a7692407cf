/** The rotation instruction and its parser: `Rotation::from_str` and `parse_steps`.
    Both source files carry the same parser text, so it is modelled once here. */
module Rotations {
  import opened Outcomes
  import opened Text

  const I32_MIN: int := -0x8000_0000
  const I32_MAX: int := 0x7FFF_FFFF

  predicate InI32(x: int) {
    I32_MIN <= x <= I32_MAX
  }

  /** Rust's `i32::checked_mul`. */
  function CheckedMul(a: int, b: int): Option<int> {
    if InI32(a * b) then Some(a * b) else None
  }

  /** Rust's `i32::checked_add`. */
  function CheckedAdd(a: int, b: int): Option<int> {
    if InI32(a + b) then Some(a + b) else None
  }

  datatype Direction = Left | Right

  /** One instruction: turn the dial `steps` clicks in direction `dir`. */
  datatype Rotation = Rotation(dir: Direction, steps: int)

  /** The three ways `parse_steps` can fail. */
  datatype StepsError = EmptyStep | NonDigit | Overflow

  /** The ways `from_str` can fail; each carries the trimmed line as the message does. */
  datatype ParseError =
    | EmptyLine
    | InvalidDirection(token: string, line: string)
    | InvalidSteps(line: string, reason: StepsError)

  /** The letter that selects a direction. */
  function DirChar(d: Direction): char {
    match d
    case Left => 'L'
    case Right => 'R'
  }

  /** The loop of `parse_steps` from index `i` with accumulator `acc`:
      reject a non-digit, otherwise `acc * 10 + digit` with both operations checked. */
  function AccumulateDigits(s: string, i: nat, acc: int): (r: Result<int, StepsError>)
    requires i <= |s|
    requires 0 <= acc <= I32_MAX
    ensures r.Ok? ==> 0 <= r.value <= I32_MAX
    ensures r != Err(EmptyStep)
    decreases |s| - i
  {
    if i == |s| then Ok(acc)
    else if !IsDigit(s[i]) then Err(NonDigit)
    else
      match CheckedMul(acc, 10)
      case None => Err(Overflow)
      case Some(v) =>
        match CheckedAdd(v, DigitValue(s[i]))
        case None => Err(Overflow)
        case Some(next) => AccumulateDigits(s, i + 1, next)
  }

  /** `parse_steps`: the value of a non-empty all-digit text that fits in an `i32`. */
  function ParseSteps(s: string): (r: Result<int, StepsError>)
    ensures r.Ok? ==> 0 <= r.value <= I32_MAX
    ensures r == Err(EmptyStep) <==> |s| == 0
  {
    if |s| == 0 then Err(EmptyStep) else AccumulateDigits(s, 0, 0)
  }

  /** What `parse_steps` computes, stated without the loop: the empty text is
      rejected first, then an oversized digit prefix, then a non-digit. */
  function StepsReference(s: string): Result<int, StepsError> {
    var k := DigitPrefixLen(s);
    if |s| == 0 then Err(EmptyStep)
    else if DecimalValue(s[..k]) > I32_MAX then Err(Overflow)
    else if k < |s| then Err(NonDigit)
    else Ok(DecimalValue(s[..k]))
  }

  /** The loop, started after an all-digit prefix whose value it holds, ends as the reference says. */
  lemma {:induction false} AccumulateMatchesReference(s: string, i: nat)
    requires |s| > 0 && i <= DigitPrefixLen(s)
    requires DecimalValue(s[..i]) <= I32_MAX
    ensures AccumulateDigits(s, i, DecimalValue(s[..i])) == StepsReference(s)
    decreases |s| - i
  {
    var k := DigitPrefixLen(s);
    var acc := DecimalValue(s[..i]);
    if i == |s| {
      assert s[..k] == s[..i];
    } else if !IsDigit(s[i]) {
      assert i == k;
    } else {
      var next := acc * 10 + DigitValue(s[i]);
      assert s[..i + 1][..i] == s[..i];
      assert DecimalValue(s[..i + 1]) == next;
      if next > I32_MAX {
        assert s[..k][..i + 1] == s[..i + 1];
        DecimalPrefixMonotone(s[..k], i + 1);
        assert CheckedMul(acc, 10).None? || CheckedAdd(acc * 10, DigitValue(s[i])).None?;
      } else {
        assert CheckedMul(acc, 10) == Some(acc * 10);
        assert CheckedAdd(acc * 10, DigitValue(s[i])) == Some(next);
        AccumulateMatchesReference(s, i + 1);
      }
    }
  }

  /** `parse_steps` agrees with the loop-free reference on every input. */
  lemma ParseStepsMatchesReference(s: string)
    ensures ParseSteps(s) == StepsReference(s)
  {
    if |s| > 0 {
      assert s[..0] == [];
      AccumulateMatchesReference(s, 0);
    }
  }

  /** `parse_steps` succeeds exactly on non-empty digit strings whose value fits
      in an `i32`, and then returns that value (leading zeros included). */
  lemma ParseStepsOk(s: string)
    ensures ParseSteps(s).Ok? <==> |s| > 0 && AllDigits(s) && DecimalValue(s) <= I32_MAX
    ensures ParseSteps(s).Ok? ==> AllDigits(s) && ParseSteps(s).value == DecimalValue(s)
  {
    ParseStepsMatchesReference(s);
    var k := DigitPrefixLen(s);
    if AllDigits(s) {
      assert s[..k] == s;
    }
  }

  /** `parse_steps` rejects exactly: the empty text, a text with a non-digit
      (when no overflow happens first), and a digit run whose value exceeds `i32::MAX`. */
  lemma ParseStepsErrors(s: string)
    ensures ParseSteps(s) == Err(EmptyStep) <==> |s| == 0
    ensures ParseSteps(s) == Err(Overflow) <==>
      |s| > 0 && DecimalValue(s[..DigitPrefixLen(s)]) > I32_MAX
    ensures ParseSteps(s) == Err(NonDigit) <==>
      !AllDigits(s) && DecimalValue(s[..DigitPrefixLen(s)]) <= I32_MAX
  {
    ParseStepsMatchesReference(s);
    var k := DigitPrefixLen(s);
    if k == |s| {
      assert s[..k] == s;
    }
    if !AllDigits(s) {
      assert k < |s|;
    }
  }

  /** A leading zero never changes what `parse_steps` returns on a non-empty text. */
  lemma ParseStepsLeadingZero(s: string)
    requires |s| > 0
    ensures ParseSteps(['0'] + s) == ParseSteps(s)
  {
    var z := ['0'] + s;
    ParseStepsMatchesReference(s);
    ParseStepsMatchesReference(z);
    var k := DigitPrefixLen(s);
    assert z[1..] == s;
    assert DigitPrefixLen(z) == k + 1;
    assert z[..k + 1] == ['0'] + s[..k];
    DecimalLeadingZero(s[..k]);
  }

  /** `parse_steps` on the unit test's inputs. */
  lemma ParseStepsExamples()
    ensures ParseSteps("0") == Ok(0)
    ensures ParseSteps("5") == Ok(5)
    ensures ParseSteps("99") == Ok(99)
    ensures ParseSteps("").Err?
    ensures ParseSteps("1a").Err?
  {
    ParseStepsOk("0");
    ParseStepsOk("5");
    ParseStepsOk("99");
    ParseStepsErrors("1a");
    assert !IsDigit("1a"[1]);
  }

  /** `split_at(1)` panics unless the first character is one byte long (ASCII). */
  predicate SplitSafe(line: string) {
    AsciiFirst(Trim(line))
  }

  predicate AsciiFirst(t: string) {
    |t| == 0 || t[0] as int < 0x80
  }

  /** `Rotation::from_str`: trim, reject an empty line, take the direction
      letter, parse the rest as the step count. */
  function FromStr(line: string): (r: Result<Rotation, ParseError>)
    requires SplitSafe(line)
    ensures r.Ok? ==> 0 <= r.value.steps <= I32_MAX
    ensures r.Err? && r.error != EmptyLine ==> r.error.line == Trim(line)
  {
    var t := Trim(line);
    if |t| == 0 then Err(EmptyLine)
    else
      var token := t[..1];
      var rest := t[1..];
      if token == "L" || token == "R" then
        var dir := if token == "L" then Left else Right;
        match ParseSteps(rest)
        case Err(e) => Err(InvalidSteps(t, e))
        case Ok(n) => Ok(Rotation(dir, n))
      else
        Err(InvalidDirection(token, t))
  }

  /** `from_str` accepts exactly a trimmed line made of `L` or `R` and a
      non-empty digit string whose value fits in an `i32`, and it returns that
      direction and value. A blank line is the `EmptyLine` error, any other
      first character the `InvalidDirection` error carrying that character, and
      a bad step count the `InvalidSteps` error carrying `parse_steps`' reason. */
  lemma FromStrCases(line: string)
    requires SplitSafe(line)
    ensures var t := Trim(line);
      && (FromStr(line) == Err(EmptyLine) <==> AllWhitespace(line))
      && (FromStr(line).Ok? <==>
            |t| >= 2 && (t[0] == 'L' || t[0] == 'R') && AllDigits(t[1..]) && DecimalValue(t[1..]) <= I32_MAX)
      && (FromStr(line).Ok? ==>
            |t| >= 2 && AllDigits(t[1..]) &&
            t[0] == DirChar(FromStr(line).value.dir) && FromStr(line).value.steps == DecimalValue(t[1..]))
      && (FromStr(line).Err? && FromStr(line).error.InvalidDirection? <==>
            |t| > 0 && t[0] != 'L' && t[0] != 'R')
      && (FromStr(line).Err? && FromStr(line).error.InvalidDirection? ==>
            FromStr(line).error == InvalidDirection(t[..1], t))
      && (FromStr(line).Err? && FromStr(line).error.InvalidSteps? ==>
            |t| > 0 && ParseSteps(t[1..]).Err? &&
            FromStr(line).error == InvalidSteps(t, ParseSteps(t[1..]).error))
  {
    var t := Trim(line);
    if |t| > 0 {
      ParseStepsOk(t[1..]);
      assert t[..1] == [t[0]];
    }
  }

  /** A padded `L`/`R` followed by any digit string that fits in an `i32`
      parses back to that direction and value. */
  lemma FromStrRoundTrip(pre: string, dir: Direction, digits: string, post: string)
    requires AllWhitespace(pre) && AllWhitespace(post)
    requires |digits| > 0 && AllDigits(digits) && DecimalValue(digits) <= I32_MAX
    ensures var line := pre + [DirChar(dir)] + digits + post;
      && Trim(line) == [DirChar(dir)] + digits
      && FromStr(line) == Ok(Rotation(dir, DecimalValue(digits)))
  {
    var t := [DirChar(dir)] + digits;
    assert pre + [DirChar(dir)] + digits + post == pre + t + post;
    TrimPadded(pre, t, post);
    assert t[1..] == digits;
    assert t[..1] == [DirChar(dir)];
    ParseStepsOk(digits);
  }

  /** The line `L<m>` or `R<m>` for any `0 <= m <= i32::MAX` parses back to `m`. */
  lemma FromStrFormatted(dir: Direction, m: nat)
    requires m <= I32_MAX
    ensures var line := [DirChar(dir)] + NatToDecimal(m);
      && SplitSafe(line)
      && FromStr(line) == Ok(Rotation(dir, m))
  {
    var digits := NatToDecimal(m);
    FromStrRoundTrip([], dir, digits, []);
    assert [] + [DirChar(dir)] + digits + [] == [DirChar(dir)] + digits;
  }

  /** `from_str` on the unit test's accepted inputs. */
  lemma FromStrAccepts()
    ensures SplitSafe("L68") && FromStr("L68") == Ok(Rotation(Left, 68))
    ensures SplitSafe("R5") && FromStr("R5") == Ok(Rotation(Right, 5))
  {
    assert "68"[..1] == "6";
    assert DecimalValue("68") == 68;
    assert [DirChar(Left)] + "68" == "L68";
    FromStrRoundTrip([], Left, "68", []);
    assert [DirChar(Right)] + "5" == "R5";
    FromStrRoundTrip([], Right, "5", []);
  }

  /** `from_str` on the unit test's rejected inputs. */
  lemma FromStrRejects()
    ensures SplitSafe("X10") && FromStr("X10") == Err(InvalidDirection("X", "X10"))
    ensures SplitSafe("L") && FromStr("L") == Err(InvalidSteps("L", EmptyStep))
  {
    assert [] + "X10" + [] == "X10";
    TrimPadded([], "X10", []);
    assert "X10"[..1] == "X";
    assert [] + "L" + [] == "L";
    TrimPadded([], "L", []);
    assert "L"[1..] == [];
  }
}
