# Advent of Code 2019, days 1–4, in Dafny

This project models the core of four Rust puzzle solvers and proves
properties about them:

- **Fuel** (`src/day1.rs`, module `Fuel`). A module's fuel is `mass / 3 - 2`.
  The recursive version adds fuel for the fuel until an increment goes
  negative. Rust's `/` truncates toward zero, and `TruncDiv` models that
  explicitly, so negative masses are accepted as well.
- **Intcode** (`src/day2.rs`, module `IntCode`). A program template with an
  overwritable noun (cell 1) and verb (cell 2). The interpreter runs a copy
  of the template, four cells per instruction: opcode 1 adds, opcode 2
  multiplies, and anything else stops the loop. The result is cell 0. The
  brute-force search looks for a noun and verb that produce a target. The
  text loader (`trim`, `split(',')`, `parse::<usize>`) is modelled too.
  In the interpreter and the search, every index that would panic in Rust
  becomes `Err(IndexOutOfRange(i))`. That includes a template too short to
  hold the noun and the verb, which `Solve` reports before any run.
- **Wires** (`src/day3.rs`, module `Wires`). Lattice vectors with Manhattan
  cost. A wire expands into the list of points it visits. The model covers
  the intersections of two wires and the intersection with the smallest
  non-zero cost or the smallest combined step count. A Rust `unwrap` on an
  empty `min` becomes `None`.
- **Passwords** (`src/day4.rs`, module `Passwords`). Each validator is a
  loop written as in Rust. It is proved equivalent to a declarative rule:
  six characters, all digits, non-decreasing, with an adjacent equal pair.
  In the part-2 rule, that pair must be a run of exactly two.

Two modules are shared by the others. `Results` holds `Option` and
`Result`. `Text` holds Unicode white space, `trim`, `split`/join on one
character, and `usize` parsing and rendering.

Details of the code that the model keeps:

- Opcode 99, any other unknown opcode and the end of memory all stop the
  interpreter loop the same way: it `break`s (or runs out) and returns
  cell 0. `Run` does the same. `Exec` also records why the loop stopped
  (`Halted`, `UnknownOpcode` or `EndOfMemory`), but that record does not
  change the result.
- The search ranges are `0..99`, that is 0 through 98 (`GridSize`).
- A trial that hits an addressing fault stops the search with
  `Crash(fault)`. This is where the Rust code panics.
- The search writes each trial's inputs into the caller's template.
  `Solve` therefore also returns that template as the search leaves it,
  holding the last pair tried.
- An exhausted grid gives `NoSolution`. This is where the Rust code panics
  with "no results found".

## Model

| member | source | states |
|---|---|---|
| Fuel.TruncDiv | src/day1.rs:14 | Rust's `/` by a positive divisor: the remainder lies in `[0, b)` for a non-negative dividend and in `(-b, 0]` for a negative one, so the quotient rounds toward zero |
| Fuel.FuelRequiredSimple | src/day1.rs:13-15 | `f + 2` is the mass divided by 3, rounded toward zero: `3(f+2) <= mass < 3(f+3)` for a non-negative mass and `3(f+2) - 2 <= mass <= 3(f+2)` for a negative one |
| Fuel.CalcFuel | src/day1.rs:21-28 | the total is never negative; it is zero exactly when the mass is below 9 (the first increment is at most 0); for a non-negative mass it is at most half the mass, so the recursion terminates and cannot overflow |
| Fuel.CalcFuelUnfolds | src/day1.rs:21-28 | a negative increment gives 0; otherwise the total is the increment `f` plus the fuel for `f`, and `f` is smaller than the mass |
| Fuel.FuelRequired | src/day1.rs:17-19 | a module's fuel is 0 when the simple estimate is negative, and otherwise at least the simple estimate |
| Fuel.TotalFuel | src/day1.rs:21-28 | a loop that follows the chain of increments computes the same total as the recursion |
| Fuel.SimpleFuelExamples | src/day1.rs:49-65 | masses 12, 14 and 1969 need 2, 2 and 654; mass -4 gives -3, because -4 / 3 rounds to -1 |
| Fuel.TotalFuelExamples | src/day1.rs:21-28 | with fuel for fuel, masses 12, 14 and 1969 need 2, 2 and 966 |
| Text.Trim | src/day2.rs:31 | the result is one contiguous slice of the input, and everything cut off on either side is white space; it starts and ends with non-white-space, and it is the input itself when neither end is white space |
| Text.Split | src/day2.rs:31 | `split(',')` gives at least one piece, no piece contains the separator, and joining the pieces with the separator gives back the input |
| Text.SplitJoin | src/day2.rs:31 | splitting the join of separator-free pieces gives back exactly those pieces |
| Text.ParseNat | src/day2.rs:31 | `parse::<usize>` succeeds exactly on an optional `+` followed by at least one digit; the error is `Empty` exactly for the empty token; the value is the decimal value of the digits after the optional `+` |
| Text.LeadingZero | src/day2.rs:31 | a leading zero does not change a numeral's value |
| Text.ParseNatExamples | src/day2.rs:31 | `+007`, `007` and `7` all parse to 7; `+` and `-7` are invalid digits; the empty token is `Empty` |
| Text.ParseShow | src/day2.rs:31 | every number's decimal rendering parses back to the number |
| IntCode.WithNoun | src/day2.rs:36-39 | cell 1 becomes the noun; the length and every other cell are unchanged |
| IntCode.WithVerb | src/day2.rs:41-44 | cell 2 becomes the verb; the length and every other cell are unchanged |
| IntCode.WithInputs | src/day2.rs:36-44 | `noun(n).verb(v)` sets cells 1 and 2 and leaves all other cells as they were |
| IntCode.NounVerbCommute | src/day2.rs:36-44 | setting the noun and setting the verb can be done in either order |
| IntCode.InputsOverwrite | src/day2.rs:84-86 | templates that differ only in cells 1 and 2 become identical once both inputs are set, so earlier trials do not leak into later ones |
| IntCode.Decode | src/day2.rs:72-76 | opcode 1 is addition, opcode 2 is multiplication, and every other value stops the loop |
| IntCode.EvalInstruction | src/day2.rs:62-67 | succeeds exactly when the operand and destination addresses are in range; then the destination cell holds the sum or product of the two addressed cells, and every other cell and the length are unchanged; otherwise the fault names an out-of-range index |
| IntCode.Exec | src/day2.rs:69-80 | the loop visits positions `pc, pc+4, ...`; it stops at the first position holding neither 1 nor 2 (Halted exactly on 99) or past the end of memory; memory length is preserved; every fault names an index beyond memory |
| IntCode.Run | src/day2.rs:46-60 | a run works on a copy of the template and yields a value only when execution from position 0 finishes without a fault on non-empty memory |
| IntCode.RunExecutesAtMostQuarter | src/day2.rs:70 | the loop stops at a multiple of 4 and executes at most one instruction per four cells (⌈len/4⌉ at most) |
| IntCode.ExecStep | src/day2.rs:70-77 | an add or multiply whose operands are in range is executed and the loop continues four cells on; with an operand out of range the run faults |
| IntCode.Interpret | src/day2.rs:69-80 | the in-place loop, stepping by four over a private copy of memory, computes exactly `Run` |
| IntCode.RunExample | src/day2.rs:122-127 | `1,0,0,0,99` runs to 2 |
| IntCode.SelfModifyingExample | src/day2.rs:70-74 | the opcode is re-read from current memory: an instruction that rewrites the next opcode changes what runs next |
| IntCode.TwoInstructionExample | src/day2.rs:62-80 | `1,9,10,3,2,3,11,0,99,30,40,50` runs to 3500 |
| IntCode.UnknownOpcodeExample | src/day2.rs:72-79 | an unknown opcode stops the loop like 99 does, and cell 0 is reported unchanged (`5,0,0,0,99` gives 5, `99` gives 99) |
| IntCode.OutOfRangeExample | src/day2.rs:63 | an operand address past the end of memory is a fault naming that address |
| IntCode.Solve | src/day2.rs:83-93 | a template shorter than three cells crashes at the first setter that indexes past its end (cell 1, or cell 2 after cell 1 became 0); otherwise a returned pair lies in `0..99` and produces the target, and every earlier pair in noun-major order produces another value; `NoSolution` is returned exactly when every pair misses; a crash is reported for a pair whose run faults after all earlier pairs missed; the template left behind differs from the original only in cells 1 and 2, which hold the last pair tried |
| IntCode.SearchGrid | src/day2.rs:84-92 | the two loops over a template with both input cells: the same outcomes as `Solve`, with the template left holding the returned, crashing or final (98, 98) pair |
| IntCode.Trial | src/day2.rs:86 | one trial, on a template that already agrees with the original outside cells 1 and 2: its output is exactly the run of the original template with this pair written in, and the template is left holding that pair and nothing else changed |
| IntCode.ParseTokens | src/day2.rs:31 | succeeds exactly when every token is a numeral, and then cell `i` is the value of token `i` |
| IntCode.ParseProgram | src/day2.rs:31 | loading succeeds exactly when every comma-separated token of the trimmed text is a numeral, and gives one cell per token |
| IntCode.LoadRenderRoundTrip | src/day2.rs:31 | loading the comma-separated rendering of a non-empty memory gives that memory back |
| Wires.Cost | src/day3.rs:9-11 | the cost is non-negative, zero exactly at the origin, and at least each coordinate's absolute value |
| Wires.Add | src/day3.rs:13-15 | the sum differs from the first operand by exactly the second, component by component |
| Wires.CostTriangle | src/day3.rs:9-15 | the cost of a sum is at most the sum of the costs |
| Wires.NewWire | src/day3.rs:24-29 | a new wire keeps its path and its point list is exactly the origin |
| Wires.Direction | src/day3.rs:71-76 | a direction is accepted exactly for U, D, R and L, and each is a unit move |
| Wires.FollowPath | src/day3.rs:52-59 | exactly `size` points are appended, the earlier points are kept, and the k-th new point is k moves of `dir` beyond the last old one |
| Wires.FollowPathSteps | src/day3.rs:52-59 | each appended point is the previous point plus `dir` |
| Wires.Trace | src/day3.rs:61-79 | succeeds exactly when every step's direction is valid, otherwise names a step's invalid direction; on success it appends the total of the step sizes, keeps the earlier points, and consecutive new points are one unit apart |
| Wires.ConstructPoints | src/day3.rs:61-79 | building the points succeeds exactly for valid directions, keeps the path, and yields the old points plus one point per unit move |
| Wires.MovesBeforeAll | src/day3.rs:61-79 | all the steps together make the total number of moves, so the steps' segments cover the whole point list |
| Wires.TraceSegment | src/day3.rs:52-79 | with valid directions, the k-th point of step i sits k places after the moves of the earlier steps, and it is k unit moves of step i's own direction beyond the point the earlier steps lead to (each step moving its direction times its size) |
| Wires.ConstructedFollowsSteps | src/day3.rs:52-79 | in a wire built from the origin, point `MovesBefore(path, i) + k` is where the first i steps lead plus k moves of step i's direction |
| Wires.ConstructedIsLaid | src/day3.rs:61-79 | building a new wire whose directions are all valid succeeds, and the wire starts at the origin and moves one unit at a time |
| Wires.LaidCostBound | src/day3.rs:52-59 | the k-th point of such a wire is at most k from the origin |
| Wires.ExtendKeepsUnitSteps | src/day3.rs:52-59 | points laid after `follow_path` keep the earlier points, and every point from the old end on is one unit move from the one before |
| Wires.Intersections | src/day3.rs:31-35 | a point is an intersection exactly when both wires visit it |
| Wires.OriginIntersects | src/day3.rs:31-35 | two wires laid from the origin always meet at the origin |
| Wires.LengthTo | src/day3.rs:48-50 | the result is the index of the first occurrence of the point |
| Wires.MinNonZero | src/day3.rs:39 | `filter(!= 0).min()`: absent exactly when every entry is zero; otherwise a non-zero entry no larger than any other non-zero entry |
| Wires.LowestCostIntersection | src/day3.rs:37-40 | absent exactly when the wires meet only at the origin (where `unwrap` panics); otherwise the smallest non-zero cost among the intersections, attained by one of them |
| Wires.LowestLengthIntersection | src/day3.rs:42-46 | absent exactly when every intersection has combined length zero; otherwise the smallest non-zero combined first-reach length, attained by an intersection |
| Wires.CombinedLengthAtLeastTwiceCost | src/day3.rs:42-50 | wires laid from the origin need together at least twice a point's cost to reach it |
| Wires.CrossingHasLowestCost | src/day3.rs:37-40 | a crossing away from the origin means `unwrap` on the lowest cost does not panic |
| Wires.LengthAtLeastTwiceCost | src/day3.rs:37-46 | for wires laid from the origin that cross away from it, both minima exist and the lowest combined length is at least twice the lowest cost |
| Wires.ParsePath | src/day3.rs:82-86 | one step per comma-separated piece of the trimmed line; no step contains a comma or starts or ends with white space; step i is piece i with its surrounding white space trimmed |
| Wires.ParsePathJoin | src/day3.rs:82-86 | on a line without white space, the steps joined with commas give the line back |
| Passwords.LengthValidator | src/day4.rs:29-31 | holds exactly for six characters, counting characters rather than bytes; a password of any other length fails both rule sets |
| Passwords.DigitValidator | src/day4.rs:33-35 | holds exactly when every character is a decimal digit |
| Passwords.IncreaseValidator | src/day4.rs:37-48 | on all-digit input it holds exactly when the digits never decrease; it panics (`None`) exactly when a non-digit is reached before any descent |
| Passwords.NonDecreasingFromNeighbours | src/day4.rs:40-45 | checking each digit only against the one before it, as the loop does, is enough: then no digit is smaller than any digit to its left |
| Passwords.DoubleValidator | src/day4.rs:50-63 | holds exactly when some two neighbouring characters are equal |
| Passwords.Part2DoubleValidator | src/day4.rs:65-84 | holds exactly when some maximal run of equal characters has length exactly two |
| Passwords.Valid | src/day4.rs:15-20 | holds exactly for six characters, all digits, never decreasing, with an equal neighbouring pair (the length check is `LengthValidator`) |
| Passwords.Part2Valid | src/day4.rs:22-27 | holds exactly for six non-decreasing digits with a run of exactly two |
| Passwords.ExactPairIsAdjacentPair | src/day4.rs:50-84 | a run of exactly two is in particular an equal neighbouring pair |
| Passwords.Part2ValidIsValid | src/day4.rs:15-27 | every password accepted by `part2_valid` is accepted by `valid` |
| Passwords.ValidExamples | src/day4.rs:91-112 | `11111`, `11111b`, `223450` and `123789` are invalid; `111111` is valid |
| Passwords.Part2ValidExamples | src/day4.rs:127-140 | under part 2, `123444` is rejected while `112233` and `111122` are accepted |

## Left out

- File reading, command-line arguments and printing are not modelled. This covers `parse_config`, `main`, and the `fs::read_to_string` part of `IntCodeProgram::from_file` in `src/day2.rs`, `modules_from_csv` in `src/day1.rs`, and `load_paths_from_file` in `src/day3.rs`. Only the pure text handling is kept.
- `day1/src/main.rs` is not part of this model. It is a separate command-line program that computes in floating point.
- The regular expression that cuts a step like `R75` into direction and size (`src/day3.rs:63-70`) is not modelled. Steps are given directly as `Step(dir, size)` pairs with a natural size. Because the regular expression only accepts `U`, `D`, `L` or `R`, the `Invalid Point` panic cannot fire in the Rust code. The model still keeps that branch as `InvalidDirection`.
- `HashSet` iteration order (`src/day3.rs:32-34`) is not modelled. Intersections form a Dafny `set`, and only the minimum over it is observable.
- Machine-integer overflow is not modelled: `usize` addition and multiplication in the interpreter, and `i32` coordinates, masses and sizes. Cells, coordinates and masses are unbounded integers.
- Tests that read puzzle input files are not modelled: `first_task`, `second_task` and `load_from_file`.
- The counting loops over the range 402328..864247 (`src/day4.rs:114-153`) are not modelled. Each one evaluates 460,000 passwords, far too many to evaluate inside a proof.
- The unit tests `test_one` and `test_two` of `src/day3.rs`, with answers 6 and 610, are not proved. Expanding even one step of those paths symbolically is too costly for the verifier. The general properties of `LowestCostIntersection` and `LowestLengthIntersection` are proved instead.
- `Password::parse` and `Password::new` have no member of their own. A Dafny `string` already is its sequence of characters, so the constructor `Password(s)` stands for both.
- `IntCodeProgram::new` and `IntCodeComputer::new` have no member of their own. Copying the state is implicit, because Dafny sequences are values: `Program(state)` stands for both.
- IntCode.WithNoun: requires cell 1 to exist. Rust's `noun` panics on a shorter template; `Solve` reports that panic as `Crash(IndexOutOfRange(1))`.
- IntCode.WithVerb: requires cell 2 to exist. Rust's `verb` panics on a shorter template; `Solve` reports that panic as `Crash(IndexOutOfRange(2))`.
- IntCode.WithInputs: requires cells 1 and 2 to exist, for the same reason as the two setters it composes.
- IntCode.Trial: requires cells 1 and 2 to exist and the template to differ from the original only there. `Solve` checks the length before its first trial, and every earlier trial keeps the rest of the template as it was.
- Text.ParseNat: accepts numerals of any size. Rust's `parse::<usize>` fails with `PosOverflow` above `usize::MAX`; cells are unbounded here, as the overflow line above says.
- Text.Trim follows Unicode White_Space, the class Rust's `char::is_whitespace` uses. No further Unicode handling is modelled.
