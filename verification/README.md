# Dial password solver (Advent of Code 2025, day 1), modelled in Dafny

The program reads a list of rotation instructions such as `L68` or `R5`. Each
one turns a dial with positions 0..99 left (down) or right (up) by a number
of clicks. The dial starts at 50, and the program derives a "password" from
the positions the pointer reaches. The repository holds two solvers:

- the first solver (`01/src/main.rs`) counts how many instructions leave the
  pointer resting on 0;
- the current solver (`2025/01/src/lib.rs`) also counts passages through 0
  in closed form. It computes the unbounded position `current ± steps`,
  wraps it with `rem_euclid`, and adds per instruction:
  - 1 if the new position is 0;
  - otherwise 0 if the previous position was 0;
  - otherwise `|div_euclid(unbounded - wrapped, 100)|`.

Both solvers share the same instruction parser, `Rotation::from_str` with
`parse_steps`. It trims the line, rejects a blank one, takes the first
character as the direction and parses the rest as a checked `i32` decimal.

The Dafny modules follow that structure:

| module | file | contents |
|---|---|---|
| `Outcomes` | `outcomes.dfy` | `Option` and `Result` |
| `Text` | `text.dfy` | Rust's `str::trim` (Unicode `White_Space`), decimal digits and values |
| `Rotations` | `rotation.dfy` | `Direction`, `Rotation`, the error values, `parse_steps`, `from_str` |
| `Input` | `input.dfy` | the line list: blank lines skipped, instructions parsed until the first failure |
| `Dial` | `dial.dfy` | `compute_unbounded_pos`, `apply_rotation`, `count_zero_crossings`, the password increment, and a click-by-click reference walk |
| `Solver` | `solver.dfy` | the current `solve` as a fold over `seq<string>` |
| `Legacy` | `legacy.dfy` | the first solver's `apply_rotation(current, rot)` and landing-only `solve` |
| `Examples` | `examples.dfy` | the repository's unit-test scenarios as lemmas |

Each `solve` is modelled as a recursive `Run` over the lines with an
early `Err` exit. It is proved equal to parsing all instructions (`ParseAll`)
followed by a pure simulation (`Simulate`). The properties are stated against
that decomposition.

The increment rule of the current solver is modelled exactly as written.

- It agrees with the click-by-click count (`WalkZeros`) in two cases, and
  `Dial.IncrementMatchesWalk` proves both:
  - when neither end of the rotation is 0;
  - when the rotation turns 1 to 99 clicks.
- Outside those cases the two differ:
  - `L250` from 50 adds 1, but the walk meets 0 three times;
  - `R250` from 0 adds 0, but the walk meets 0 twice;
  - `R0` from 0 adds 1, but the walk never meets 0.
- For every rotation of at least one click the code never counts more than
  the walk (`Dial.IncrementAtMostWalk`). The only overcount is a rotation of
  zero clicks that ends on 0.

A click-by-click count differs from the code in these three cases; the model
follows the code.

## Model

| member | source | states |
|---|---|---|
| Text.Trim | 2025/01/src/lib.rs:22 | the trimmed line starts and ends with a non-whitespace character, is no longer than the input, and is empty exactly when the whole line is whitespace |
| Text.TrimPadded | 2025/01/src/lib.rs:22 | trimming text that is padded with whitespace on both sides gives back exactly the text |
| Text.TrimIdempotent | 2025/01/src/lib.rs:83 | trimming the already-trimmed line again inside `from_str` changes nothing |
| Rotations.AccumulateDigits | 2025/01/src/lib.rs:47-57 | starting from an `i32` accumulator in `[0, i32::MAX]`, the checked multiply-and-add loop never reports an empty input, and every success is a value in `[0, i32::MAX]` |
| Rotations.ParseSteps | 2025/01/src/lib.rs:42-58 | a success is a value in `[0, i32::MAX]`, and the empty-input error occurs exactly on empty input |
| Rotations.ParseStepsMatchesReference | 2025/01/src/lib.rs:42-58 | `parse_steps` equals a reference definition: empty input is an error; otherwise overflow of the leading digit run is an error; otherwise a non-digit is an error; otherwise the result is the decimal value |
| Rotations.ParseStepsOk | 2025/01/src/lib.rs:42-58 | `parse_steps` succeeds exactly on a non-empty all-digit string whose value is at most `i32::MAX`, and then returns that value |
| Rotations.ParseStepsErrors | 2025/01/src/lib.rs:43-55 | each error exit is taken exactly when its condition holds: empty input; a leading digit run whose value exceeds `i32::MAX`; a non-digit after a leading digit run that fits |
| Rotations.ParseStepsLeadingZero | 2025/01/src/lib.rs:52-54 | a leading zero does not change the parsed value |
| Rotations.ParseStepsExamples | 2025/01/src/lib.rs:128-134 | `"0"`, `"5"`, `"99"` parse to 0, 5, 99, while `""` and `"1a"` are rejected; the first solver's test at 01/src/main.rs:121-127 is identical |
| Rotations.FromStr | 2025/01/src/lib.rs:21-39 | a parsed rotation has steps in `[0, i32::MAX]`, and every error other than the empty-line one carries the trimmed line |
| Rotations.FromStrCases | 2025/01/src/lib.rs:21-39 | a blank line is the empty-line error; the parse succeeds exactly on a trimmed `L`/`R` followed by digits that fit an `i32`, returning that direction and value; any other first character is the invalid-direction error carrying that character and the trimmed line; a bad step count is the invalid-steps error carrying the trimmed line and `parse_steps`' own reason |
| Rotations.FromStrRoundTrip | 2025/01/src/lib.rs:22-38 | whitespace, then `L`/`R`, then digits that fit, then whitespace, parses back to that direction and value |
| Rotations.FromStrFormatted | 2025/01/src/lib.rs:27-38 | `L<m>` or `R<m>`, written in decimal, parses back to `m` for every `0 <= m <= i32::MAX` |
| Rotations.FromStrAccepts | 2025/01/src/lib.rs:137-144 | `"L68"` parses to (Left, 68) and `"R5"` to (Right, 5) |
| Rotations.FromStrRejects | 2025/01/src/lib.rs:146-147 | `"X10"` is an invalid direction and `"L"` has an empty step count |
| Input.Instructions | 2025/01/src/lib.rs:81-87 | at most one instruction per line, each trimmed, non-empty and safe to split |
| Input.InstructionsSingle | 2025/01/src/lib.rs:83-87 | one line yields nothing when blank and its trimmed text otherwise; with `Input.InstructionsAppend` this fixes the instructions as the trimmed non-blank lines in order |
| Input.InstructionsAppend | 2025/01/src/lib.rs:81-87 | the instructions of two blocks of lines are the first block's followed by the second's |
| Input.InstructionSplitSafe | 2025/01/src/lib.rs:83-90 | an instruction is unchanged by the second trim and safe to split after its first character |
| Input.InstructionsSkipBlank | 2025/01/src/lib.rs:85-87 | removing a blank line leaves the instruction list unchanged |
| Input.ParseAll | 2025/01/src/lib.rs:90 | parsing the instructions succeeds exactly when each one parses, and then yields one rotation per instruction, in order |
| Input.FirstRejected | 2025/01/src/lib.rs:90 | the index it returns is of the first instruction that fails to parse, with every earlier one parsing |
| Input.ParseAllFirstError | 2025/01/src/lib.rs:90 | parsing fails exactly when some instruction is rejected, and it reports the first rejected instruction's error |
| Input.ParseRendered | 2025/01/src/lib.rs:21-58 | any rotations with steps in `[0, i32::MAX]`, written one per line, parse back to exactly those rotations |
| Dial.ComputeUnboundedPos | 2025/01/src/lib.rs:60-67 | the unbounded position is `steps` away from the current one, above it for Right and below it for Left |
| Dial.ApplyRotation | 2025/01/src/lib.rs:73-75 | the wrapped position is on the dial `[0, 100)` and congruent to the unbounded position modulo 100 |
| Dial.CountZeroCrossings | 2025/01/src/lib.rs:69-71 | for a congruent final position, the result times 100 is exactly the distance between the two positions |
| Dial.CrossingsAreFloor | 2025/01/src/lib.rs:69-75 | with the wrapped position, the crossing count is `floor(unbounded / 100)`, which is negative below zero |
| Dial.Positions | 2025/01/src/lib.rs:91-92 | one resting position per rotation, each on the dial; the first is reached from the start by the first rotation's displacement modulo 100, and each later one from the previous one by its rotation's displacement |
| Dial.Step | 2025/01/src/lib.rs:89-98 | one instruction (moving the pointer and adding `Dial.PasswordIncrement`, the rule at lines 94-98) keeps the position on the dial, moves it by the rotation modulo 100, never lowers the password, and adds exactly one when it ends on 0 |
| Dial.IncrementMatchesWalk | 2025/01/src/lib.rs:89-98 | the increment `Dial.PasswordIncrement` equals the number of single clicks that land on 0 when neither end is 0, and when the rotation turns 1 to 99 clicks |
| Dial.IncrementMatchesWalkRight | 2025/01/src/lib.rs:91-98 | for a right turn, the increment equals the number of clicks landing on 0 (one per multiple of 100 passed) under the same two conditions |
| Dial.IncrementMatchesWalkLeft | 2025/01/src/lib.rs:91-98 | for a left turn, the increment equals the number of clicks landing on 0 under the same two conditions |
| Dial.LandingWalkMeetsZero | 2025/01/src/lib.rs:94-95 | a rotation of at least one click that ends on 0 meets 0 at least once in the click walk, so the +1 of the landing branch is never an overcount |
| Dial.IncrementAtMostWalk | 2025/01/src/lib.rs:89-98 | for every start on the dial and every rotation of at least one click, the increment is at most the number of clicks that land on 0 |
| Dial.LandingAfterTurnsUndercounts | 2025/01/src/lib.rs:94-95 | `L250` from 50 adds 1 while the click walk meets 0 three times |
| Dial.StartOnZeroUndercounts | 2025/01/src/lib.rs:96-97 | `R250` from 0 adds 0 while the click walk meets 0 twice |
| Dial.NullTurnOnZeroOvercounts | 2025/01/src/lib.rs:94-95 | `R0` from 0 adds 1 although the dial does not move |
| Dial.LandingAddsOne | 2025/01/src/lib.rs:94-95 | a rotation that ends on 0 adds exactly one, whatever the start and the number of turns |
| Dial.ApplyRotationExample | 2025/01/src/lib.rs:151-168 | from 10, `R15`, `L5`, `R90` rest on 25, 20, 10 |
| Solver.Run | 2025/01/src/lib.rs:81-99 | the loop never lowers the password, keeps the pointer on the dial, and never fails with the empty-line error because blank lines are skipped |
| Solver.RunDecomposes | 2025/01/src/lib.rs:81-99 | the loop equals parsing all instructions, returning the first error or else the simulated dial |
| Solver.SolveFailsOnFirstBadLine | 2025/01/src/lib.rs:90 | `solve` fails exactly when some instruction is rejected, and returns the first rejected instruction's error |
| Solver.SolveSkipsBlankLines | 2025/01/src/lib.rs:85-87 | inserting or removing a blank line never changes the result of `solve` |
| Solver.SimulatePosition | 2025/01/src/lib.rs:91-92 | the final position is the start plus the net signed displacement, modulo 100 |
| Solver.PasswordCountsLandings | 2025/01/src/lib.rs:94-98 | the password is at least the number of instructions after which the pointer rests on 0 |
| Solver.SimulateMatchesBruteForce | 2025/01/src/lib.rs:89-98 | when every rotation turns 1 to 99 clicks, the closed form gives the same position and password as walking click by click |
| Solver.SolveParsed | 2025/01/src/lib.rs:77-102 | when the instructions parse to a list of rotations, `solve` (modelled as `Solver.Solve`) returns the password after simulating them from 50 with password 0 |
| Solver.SolveRendered | 2025/01/src/lib.rs:77-102 | rotations written one per line are solved exactly as simulating them directly |
| Legacy.ApplyRotation | 01/src/main.rs:61-68 | the new position is on the dial and congruent modulo 100 to `current - steps` for Left or `current + steps` for Right |
| Legacy.ApplyRotationAgrees | 01/src/main.rs:61-68 | the first solver moves the pointer exactly where the current solver's unbounded-then-wrap computation does |
| Legacy.Step | 01/src/main.rs:82-87 | one instruction adds one to the password when it ends on 0 and nothing otherwise, and moves the pointer as the current solver does |
| Legacy.Run | 01/src/main.rs:74-88 | the password grows by at most one per line, and the loop never fails with the empty-line error |
| Legacy.Solve | 01/src/main.rs:70-91 | the password is at most the number of input lines |
| Legacy.RunDecomposes | 01/src/main.rs:74-88 | the loop equals parsing all instructions, returning the first error or else the simulated dial |
| Legacy.SimulateCountsLandings | 01/src/main.rs:83-87 | the password is exactly the number of instructions after which the pointer rests on 0 |
| Legacy.SolveCountsLandings | 01/src/main.rs:70-91 | `solve` succeeds exactly when every instruction parses, and then returns the number of landings on 0, at most the number of non-blank lines |
| Legacy.CurrentSolverCountsAtLeastAsMany | 01/src/main.rs:85-87 | on the same input both solvers fail with the same error, or both succeed and the current password is at least the first solver's |
| Legacy.SolveParsed | 01/src/main.rs:70-91 | when the instructions parse to a list of rotations, `solve` returns the number of landings on 0 in simulating them |
| Legacy.SolveRendered | 01/src/main.rs:70-91 | rotations written one per line are solved exactly as simulating them directly |
| Legacy.ApplyRotationExample | 01/src/main.rs:144-158 | from 50, `L68`, `L30`, `R48` rest on 82, 52, 0 |
| Examples.TestLinesParse | 2025/01/src/lib.rs:116-125 | the nine test lines parse to the expected rotations |
| Examples.EdgeLinesParse | 2025/01/src/lib.rs:108-115 | the seven edge-case lines parse to the expected rotations |
| Examples.SimulateTestInput | 2025/01/src/lib.rs:177-182 | simulating the test rotations from the initial state gives password 4 |
| Examples.SolveTestInput | 2025/01/src/lib.rs:177-182 | `solve` on the test input returns 4 |
| Examples.SimulateEdgeCase | 2025/01/src/lib.rs:170-175 | simulating the edge-case rotations gives password 7 |
| Examples.SolveEdgeCase | 2025/01/src/lib.rs:170-175 | `solve` on the edge-case input returns 7 |
| Examples.R1000Parse | 2025/01/src/lib.rs:186 | the line `R1000` parses to one right turn of 1000 clicks |
| Examples.SimulateR1000 | 2025/01/src/lib.rs:184-190 | ten whole right turns from 50 end on 50 with password 10 |
| Examples.SolveR1000 | 2025/01/src/lib.rs:184-190 | `solve` on the single line `R1000` returns 10 |
| Examples.LegacySimulateTestInput | 01/src/main.rs:160-165 | the first solver's simulation of the test rotations gives password 2 |
| Examples.LegacySolveTestInput | 01/src/main.rs:160-165 | the first solver's `solve` on its test input returns 2 |

## Left out

- Reading lines: `reader.lines()` and its I/O errors (2025/01/src/lib.rs:82, 01/src/main.rs:75) are not modelled. The input is a `seq<string>` of lines that has already been read.
- Both `main` functions (01/src/main.rs:93-101 and `2025/01/src/main.rs`) are left out: they only open a file and print.
- The benchmark `2025/01/benches/solve_bench.rs` is left out because it has no logic.
- Rotations.FromStr: requires that the trimmed line does not start with a multi-byte character. On such a line `split_at(1)` panics instead of returning an error, and a panic is outside the model.
- Rotations.ParseError: the error messages are modelled by their structure, not their text. Each carries the kind of error, the trimmed line and, for steps, the `parse_steps` reason.
- Rotations.ParseSteps: works on characters, while the source reads the bytes of the rest of the line. The results agree: digits are single bytes, and a multi-byte character begins with a non-digit byte, so it stops the loop at the same place with the same error.
- Solver.Run: requires every line, not only those before the first rejected instruction, to be free of a multi-byte first character after trimming; the source never reaches the later lines, so on such inputs the model says nothing. The same holds for `Solver.Solve`, `Legacy.Run` and `Legacy.Solve`.
- Dial.ComputeUnboundedPos: integers are unbounded. The `i32` sum `current + delta` could overflow when the step count is within 99 of `i32::MAX`, and that overflow is not modelled.
- Dial.CountZeroCrossings: the `i32` subtraction `unbounded_pos - final_pos` (2025/01/src/lib.rs:70) is unbounded here. For example `["L4", "L2147483647"]` reaches it with `-2147483601 - 99`, below `i32::MIN`: the source panics (debug build) or wraps (release build), while the model computes the exact difference.
- Legacy.ApplyRotation: the `i32` sum `current + delta` (01/src/main.rs:67) is unbounded here; its overflow for step counts near `i32::MAX` is not modelled.
- Dial.Step: the `u32` password is an unbounded `nat`. An overflow after more than 2^32 - 1 counted zeros is not modelled.
- Dial.CountZeroCrossings: its contract covers only a final position congruent to the unbounded one, because the solver calls it only that way. `Dial.CrossingsAreFloor` states the wrapped case.
