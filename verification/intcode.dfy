/** The Intcode machine of `src/day2.rs`: a program template whose cells 1
    and 2 (the noun and the verb) can be overwritten, an interpreter that
    runs a private copy of the template four cells at a time, and the
    brute-force search for the noun and verb that produce a target.

    Rust's `usize` cells are modelled as unbounded naturals. Every indexing
    by the interpreter and the search that would panic in Rust becomes an
    `Err(IndexOutOfRange(i))` naming the first index Rust would evaluate out
    of range; the setters themselves ask for the cell to exist. */
module IntCode {
  import opened Results
  import Text

  /** A program template (`IntCodeProgram`): the memory every run starts from. */
  datatype Program = Program(state: seq<nat>)

  datatype Fault = IndexOutOfRange(index: nat)

  datatype Op = Add | Multiply

  /** Why the instruction loop stopped. The Rust loop leaves on a 99 and on
      any other unknown opcode alike, so only the reader tells them apart. */
  datatype Stop = Halted | UnknownOpcode | EndOfMemory

  /** The memory when the loop stopped and the position it stopped at. */
  datatype Halt = Halt(memory: seq<nat>, pc: nat, stop: Stop)

  const HaltOpcode: nat := 99

  /** Both search loops run over `0..99`, the numbers 0 through 98. */
  const GridSize: nat := 99

  // ---------------------------------------------------------------------------
  // The program template

  /** `IntCodeProgram::noun`: cell 1 becomes `noun`, every other cell stays. */
  function WithNoun(p: Program, noun: nat): (q: Program)
    requires |p.state| > 1
    ensures |q.state| == |p.state| && q.state[1] == noun
    ensures forall j :: 0 <= j < |p.state| && j != 1 ==> q.state[j] == p.state[j]
  {
    Program(p.state[1 := noun])
  }

  /** `IntCodeProgram::verb`: cell 2 becomes `verb`, every other cell stays. */
  function WithVerb(p: Program, verb: nat): (q: Program)
    requires |p.state| > 2
    ensures |q.state| == |p.state| && q.state[2] == verb
    ensures forall j :: 0 <= j < |p.state| && j != 2 ==> q.state[j] == p.state[j]
  {
    Program(p.state[2 := verb])
  }

  /** The template with both inputs set, as `program.noun(n).verb(v)` leaves it. */
  function WithInputs(p: Program, noun: nat, verb: nat): (q: Program)
    requires |p.state| > 2
    ensures |q.state| == |p.state| && q.state[1] == noun && q.state[2] == verb
    ensures forall j :: 0 <= j < |p.state| && j != 1 && j != 2 ==> q.state[j] == p.state[j]
  {
    WithVerb(WithNoun(p, noun), verb)
  }

  /** Setting the noun and the verb commute: they touch different cells. */
  lemma NounVerbCommute(p: Program, noun: nat, verb: nat)
    requires |p.state| > 2
    ensures WithNoun(WithVerb(p, verb), noun) == WithVerb(WithNoun(p, noun), verb)
  {
  }

  /** Two templates that differ at most in cells 1 and 2. */
  predicate AgreeOutsideInputs(p: Program, q: Program) {
    && |p.state| == |q.state|
    && forall j :: 0 <= j < |p.state| && j != 1 && j != 2 ==> p.state[j] == q.state[j]
  }

  /** Setting both inputs erases whatever earlier trials left in cells 1 and 2. */
  lemma InputsOverwrite(p: Program, q: Program, noun: nat, verb: nat)
    requires |p.state| > 2 && AgreeOutsideInputs(p, q)
    ensures WithInputs(p, noun, verb) == WithInputs(q, noun, verb)
  {
    assert WithInputs(p, noun, verb).state == WithInputs(q, noun, verb).state;
  }

  // ---------------------------------------------------------------------------
  // The interpreter

  /** The opcode table: 1 adds, 2 multiplies, anything else ends the run. */
  function Decode(v: nat): (op: Option<Op>)
    ensures op == Some(Add) <==> v == 1
    ensures op == Some(Multiply) <==> v == 2
  {
    if v == 1 then Some(Add) else if v == 2 then Some(Multiply) else None
  }

  function Apply(op: Op, a: nat, b: nat): nat {
    match op
    case Add => a + b
    case Multiply => a * b
  }

  /** The instruction at `i` only touches memory it may index. */
  predicate OperandsInRange(mem: seq<nat>, i: nat) {
    && i + 3 < |mem|
    && mem[i + 1] < |mem| && mem[i + 2] < |mem| && mem[i + 3] < |mem|
  }

  /** `IntCodeComputer::eval_instruction`: combine the cells addressed by
      `i + 1` and `i + 2` and store the result in the cell addressed by `i + 3`. */
  function EvalInstruction(mem: seq<nat>, i: nat, op: Op): (r: Result<seq<nat>, Fault>)
    ensures r.Ok? <==> OperandsInRange(mem, i)
    ensures r.Err? ==> r.error.index >= |mem|
    ensures r.Ok? ==>
      && |r.value| == |mem|
      && r.value[mem[i + 3]] == Apply(op, mem[mem[i + 1]], mem[mem[i + 2]])
      && forall j :: 0 <= j < |mem| && j != mem[i + 3] ==> r.value[j] == mem[j]
  {
    if i + 1 >= |mem| then Err(IndexOutOfRange(i + 1))
    else if mem[i + 1] >= |mem| then Err(IndexOutOfRange(mem[i + 1]))
    else if i + 2 >= |mem| then Err(IndexOutOfRange(i + 2))
    else if mem[i + 2] >= |mem| then Err(IndexOutOfRange(mem[i + 2]))
    else if i + 3 >= |mem| then Err(IndexOutOfRange(i + 3))
    else if mem[i + 3] >= |mem| then Err(IndexOutOfRange(mem[i + 3]))
    else Ok(mem[mem[i + 3] := Apply(op, mem[mem[i + 1]], mem[mem[i + 2]])])
  }

  /** The instruction loop from position `pc` on. The opcode is read from the
      current memory, so a program may rewrite its own later instructions. */
  function Exec(mem: seq<nat>, pc: nat): (r: Result<Halt, Fault>)
    ensures r.Ok? ==>
      && |r.value.memory| == |mem|
      && pc <= r.value.pc && (r.value.pc - pc) % 4 == 0
      && (r.value.pc > pc ==> r.value.pc - 4 < |mem|)
      && (r.value.stop == EndOfMemory <==> r.value.pc >= |mem|)
      && (r.value.pc < |mem| ==> Decode(r.value.memory[r.value.pc]).None?)
      && (r.value.stop == Halted <==> r.value.pc < |mem| && r.value.memory[r.value.pc] == HaltOpcode)
    ensures r.Err? ==> r.error.index >= |mem|
    decreases |mem| - pc
  {
    if pc >= |mem| then Ok(Halt(mem, pc, EndOfMemory))
    else
      match Decode(mem[pc])
      case None => Ok(Halt(mem, pc, if mem[pc] == HaltOpcode then Halted else UnknownOpcode))
      case Some(op) =>
        match EvalInstruction(mem, pc, op)
        case Err(e) => Err(e)
        case Ok(next) => Exec(next, pc + 4)
  }

  /** `IntCodeProgram::run`: run a copy of the template from position 0 and
      report cell 0 of the final memory. */
  function Run(p: Program): (r: Result<nat, Fault>)
    ensures r.Ok? ==> |p.state| > 0 && Exec(p.state, 0).Ok?
    ensures r.Err? && Exec(p.state, 0).Ok? ==> |p.state| == 0
  {
    match Exec(p.state, 0)
    case Err(e) => Err(e)
    case Ok(h) => if |h.memory| == 0 then Err(IndexOutOfRange(0)) else Ok(h.memory[0])
  }

  /** A run executes at most one instruction per four cells: the loop's
      positions are 0, 4, 8, ... and the last one executed is in range. */
  lemma RunExecutesAtMostQuarter(p: Program)
    requires Exec(p.state, 0).Ok?
    ensures Exec(p.state, 0).value.pc % 4 == 0
    ensures Exec(p.state, 0).value.pc / 4 <= (|p.state| + 3) / 4
  {
  }

  /** One step of the loop: an add or multiply at `pc` whose operands are in
      range is executed and the loop continues four cells on. */
  lemma ExecStep(mem: seq<nat>, pc: nat)
    requires pc < |mem| && Decode(mem[pc]).Some?
    ensures OperandsInRange(mem, pc) ==>
      Exec(mem, pc) == Exec(EvalInstruction(mem, pc, Decode(mem[pc]).value).value, pc + 4)
    ensures !OperandsInRange(mem, pc) ==> Exec(mem, pc).Err?
  {
  }

  /** `IntCodeComputer::run` as the Rust loop writes it: a private copy of the
      memory, updated in place, with the position stepping by four. */
  method Interpret(p: Program) returns (r: Result<nat, Fault>)
    ensures r == Run(p)
  {
    var state := p.state;
    var i := 0;
    while i < |state|
      invariant |state| == |p.state|
      invariant Exec(state, i) == Exec(p.state, 0)
      decreases |state| - i
    {
      var op := Decode(state[i]);
      if op.None? {
        break;
      }
      var next := EvalInstruction(state, i, op.value);
      if next.Err? {
        return Err(next.error);
      }
      state := next.value;
      i := i + 4;
    }
    if |state| == 0 {
      return Err(IndexOutOfRange(0));
    }
    return Ok(state[0]);
  }

  /** The unit test: `1,0,0,0,99` doubles cell 0 and halts with 2. */
  lemma RunExample()
    ensures Run(Program([1, 0, 0, 0, 99])) == Ok(2)
  {
  }

  /** Self-modification: the first instruction overwrites the halt at
      position 4 with a multiply, which then stores 5 * 6 in cell 0. */
  lemma SelfModifyingExample()
    ensures Exec([1, 1, 1, 4, 99, 5, 6, 0, 99], 0)
         == Ok(Halt([30, 1, 1, 4, 2, 5, 6, 0, 99], 8, Halted))
  {
    assert [1, 1, 1, 4, 99, 5, 6, 0, 99][4 := 2] == [1, 1, 1, 4, 2, 5, 6, 0, 99];
    assert [1, 1, 1, 4, 2, 5, 6, 0, 99][0 := 30] == [30, 1, 1, 4, 2, 5, 6, 0, 99];
    assert Exec([1, 1, 1, 4, 99, 5, 6, 0, 99], 0) == Exec([1, 1, 1, 4, 2, 5, 6, 0, 99], 4);
    assert Exec([1, 1, 1, 4, 2, 5, 6, 0, 99], 4) == Exec([30, 1, 1, 4, 2, 5, 6, 0, 99], 8);
  }

  /** A two-instruction program: cell 3 becomes 70, then cell 0 becomes 70 * 50. */
  lemma TwoInstructionExample()
    ensures Run(Program([1, 9, 10, 3, 2, 3, 11, 0, 99, 30, 40, 50])) == Ok(3500)
  {
    assert [1, 9, 10, 3, 2, 3, 11, 0, 99, 30, 40, 50][3 := 70] == [1, 9, 10, 70, 2, 3, 11, 0, 99, 30, 40, 50];
    assert [1, 9, 10, 70, 2, 3, 11, 0, 99, 30, 40, 50][0 := 3500]
        == [3500, 9, 10, 70, 2, 3, 11, 0, 99, 30, 40, 50];
    assert Exec([1, 9, 10, 3, 2, 3, 11, 0, 99, 30, 40, 50], 0)
        == Exec([1, 9, 10, 70, 2, 3, 11, 0, 99, 30, 40, 50], 4);
    assert Exec([1, 9, 10, 70, 2, 3, 11, 0, 99, 30, 40, 50], 4)
        == Exec([3500, 9, 10, 70, 2, 3, 11, 0, 99, 30, 40, 50], 8);
  }

  /** An unknown opcode ends the run like a 99 does: cell 0 is reported as
      it stands. */
  lemma UnknownOpcodeExample()
    ensures Exec([5, 0, 0, 0, 99], 0) == Ok(Halt([5, 0, 0, 0, 99], 0, UnknownOpcode))
    ensures Run(Program([5, 0, 0, 0, 99])) == Ok(5)
    ensures Run(Program([99])) == Ok(99)
  {
  }

  /** An operand address past the end of memory is a fault, not a result. */
  lemma OutOfRangeExample()
    ensures Run(Program([1, 7, 0, 0, 99])) == Err(IndexOutOfRange(7))
  {
  }

  // ---------------------------------------------------------------------------
  // The parameter search

  datatype SearchError = NoSolution | Crash(fault: Fault)

  /** The trial for `(noun, verb)` runs and produces something other than the target. */
  predicate Misses(t: Program, target: nat, noun: nat, verb: nat)
    requires |t.state| > 2
  {
    var out := Run(WithInputs(t, noun, verb));
    out.Ok? && out.value != target
  }

  /** `(n', v')` comes before `(n, v)` in the search's noun-major order. */
  predicate Before(n': nat, v': nat, n: nat, v: nat) {
    n' < n || (n' == n && v' < v)
  }

  /** Every pair of the grid that the search tries before `(n, v)` misses. */
  predicate MissesBefore(t: Program, target: nat, n: nat, v: nat)
    requires |t.state| > 2
  {
    forall n': nat, v': nat :: n' < GridSize && v' < GridSize && Before(n', v', n, v) ==>
      Misses(t, target, n', v')
  }

  /** A miss at `(n, v)` extends the misses to the next verb. */
  lemma MissesBeforeNextVerb(t: Program, target: nat, n: nat, v: nat)
    requires |t.state| > 2 && MissesBefore(t, target, n, v) && Misses(t, target, n, v)
    ensures MissesBefore(t, target, n, v + 1)
  {
  }

  /** Missing on a whole row moves on to the next noun. */
  lemma MissesBeforeNextNoun(t: Program, target: nat, n: nat)
    requires |t.state| > 2 && MissesBefore(t, target, n, GridSize)
    ensures MissesBefore(t, target, n + 1, 0)
  {
  }

  /** `solve`: try every noun and verb in `0..99`, noun-major, and return the
      first pair whose run yields `target`. A trial that crashes ends the
      search; an exhausted grid is `NoSolution`. The trials write the inputs
      into the caller's template, so `left` is the template as the search
      leaves it: holding the last pair tried. Each trial overwrites both
      cells, so it runs exactly the template with its own inputs. A template
      without cells 1 and 2 crashes at the first setter, before any run. */
  method Solve(template: Program, target: nat) returns (r: Result<(nat, nat), SearchError>, left: Program)
    ensures |template.state| <= 1 ==> r == Err(Crash(IndexOutOfRange(1))) && left == template
    ensures |template.state| == 2 ==>
      r == Err(Crash(IndexOutOfRange(2))) && left.state == template.state[1 := 0]
    ensures AgreeOutsideInputs(left, template)
    ensures r.Ok? ==>
      && r.value.0 < GridSize && r.value.1 < GridSize
      && Run(WithInputs(template, r.value.0, r.value.1)) == Ok(target)
      && left == WithInputs(template, r.value.0, r.value.1)
      && MissesBefore(template, target, r.value.0, r.value.1)
    ensures r == Err(NoSolution) <==>
      && |template.state| > 2
      && forall n: nat, v: nat :: n < GridSize && v < GridSize ==> Misses(template, target, n, v)
    ensures r == Err(NoSolution) ==> left == WithInputs(template, GridSize - 1, GridSize - 1)
    ensures r.Err? && r.error.Crash? && |template.state| > 2 ==>
      exists n: nat, v: nat :: && n < GridSize && v < GridSize
                     && Run(WithInputs(template, n, v)) == Err(r.error.fault)
                     && left == WithInputs(template, n, v)
                     && MissesBefore(template, target, n, v)
  {
    if |template.state| <= 1 {
      return Err(Crash(IndexOutOfRange(1))), template;
    }
    if |template.state| == 2 {
      return Err(Crash(IndexOutOfRange(2))), Program(template.state[1 := 0]);
    }
    r, left := SearchGrid(template, target);
  }

  /** The two loops of `solve` over a template that has both input cells. */
  method SearchGrid(template: Program, target: nat) returns (r: Result<(nat, nat), SearchError>, left: Program)
    requires |template.state| > 2
    ensures AgreeOutsideInputs(left, template)
    ensures r.Ok? ==>
      && r.value.0 < GridSize && r.value.1 < GridSize
      && Run(WithInputs(template, r.value.0, r.value.1)) == Ok(target)
      && left == WithInputs(template, r.value.0, r.value.1)
      && MissesBefore(template, target, r.value.0, r.value.1)
    ensures r == Err(NoSolution) <==>
      forall n: nat, v: nat :: n < GridSize && v < GridSize ==> Misses(template, target, n, v)
    ensures r == Err(NoSolution) ==> left == WithInputs(template, GridSize - 1, GridSize - 1)
    ensures r.Err? && r.error.Crash? ==>
      exists n: nat, v: nat :: && n < GridSize && v < GridSize
                     && Run(WithInputs(template, n, v)) == Err(r.error.fault)
                     && left == WithInputs(template, n, v)
                     && MissesBefore(template, target, n, v)
  {
    var program := template;
    var noun := 0;
    while noun < GridSize
      invariant noun <= GridSize
      invariant AgreeOutsideInputs(program, template)
      invariant noun > 0 ==> program == WithInputs(template, noun - 1, GridSize - 1)
      invariant MissesBefore(template, target, noun, 0)
    {
      var verb := 0;
      while verb < GridSize
        invariant verb <= GridSize
        invariant AgreeOutsideInputs(program, template)
        invariant verb > 0 ==> program == WithInputs(template, noun, verb - 1)
        invariant MissesBefore(template, target, noun, verb)
      {
        var output;
        program, output := Trial(program, template, noun, verb);
        if output.Err? {
          assert !Misses(template, target, noun, verb);
          assert Run(WithInputs(template, noun, verb)) == Err(output.error);
          return Err(Crash(output.error)), program;
        }
        if output.value == target {
          assert !Misses(template, target, noun, verb);
          return Ok((noun, verb)), program;
        }
        MissesBeforeNextVerb(template, target, noun, verb);
        verb := verb + 1;
      }
      MissesBeforeNextNoun(template, target, noun);
      noun := noun + 1;
    }
    return Err(NoSolution), program;
  }

  /** One trial of `solve`: `program.noun(noun).verb(verb).run()`, which
      writes the inputs into the template it is given and runs a copy. */
  method Trial(program: Program, template: Program, noun: nat, verb: nat)
    returns (next: Program, output: Result<nat, Fault>)
    requires |template.state| > 2 && AgreeOutsideInputs(program, template)
    ensures next == WithInputs(template, noun, verb)
    ensures AgreeOutsideInputs(next, template)
    ensures output == Run(WithInputs(template, noun, verb))
  {
    InputsOverwrite(program, template, noun, verb);
    next := WithVerb(WithNoun(program, noun), verb);
    output := Interpret(next);
  }

  // ---------------------------------------------------------------------------
  // Loading a template from text

  predicate AllNumerals(tokens: seq<string>) {
    forall i :: 0 <= i < |tokens| ==> Text.IsNumeral(tokens[i])
  }

  /** `trim().split(',').map(|s| s.parse::<usize>().unwrap())`: every token
      must be a numeral, the first one that is not stops the load. */
  function ParseTokens(tokens: seq<string>): (r: Result<seq<nat>, Text.ParseError>)
    ensures r.Ok? <==> AllNumerals(tokens)
    ensures r.Ok? ==>
      && |r.value| == |tokens|
      && forall i :: 0 <= i < |tokens| ==> Text.ParseNat(tokens[i]) == Ok(r.value[i])
  {
    if |tokens| == 0 then Ok([])
    else
      match Text.ParseNat(tokens[0])
      case Err(e) => Err(e)
      case Ok(n) =>
        match ParseTokens(tokens[1..])
        case Err(e) => Err(e)
        case Ok(rest) => Ok([n] + rest)
  }

  /** The loader: the file's text, trimmed and split on commas, as a template. */
  function ParseProgram(text: string): (r: Result<Program, Text.ParseError>)
    ensures r.Ok? ==> |r.value.state| == |Text.Split(Text.Trim(text), ',')|
    ensures r.Ok? <==> AllNumerals(Text.Split(Text.Trim(text), ','))
  {
    var tokens := Text.Split(Text.Trim(text), ',');
    var cells := ParseTokens(tokens);
    if cells.Err? then Err(cells.error) else Ok(Program(cells.value))
  }

  /** A memory image written out as comma-separated decimals. */
  function Render(mem: seq<nat>): string {
    Text.Join(RenderCells(mem), ',')
  }

  function RenderCells(mem: seq<nat>): (tokens: seq<string>)
    ensures |tokens| == |mem|
    ensures forall i :: 0 <= i < |mem| ==> tokens[i] == Text.ShowNat(mem[i])
  {
    if |mem| == 0 then [] else [Text.ShowNat(mem[0])] + RenderCells(mem[1..])
  }

  lemma {:induction false} JoinedDigitsEnds(tokens: seq<string>)
    requires |tokens| > 0
    requires forall i :: 0 <= i < |tokens| ==> |tokens[i]| > 0 && Text.AllDigits(tokens[i])
    ensures |Text.Join(tokens, ',')| > 0
    ensures Text.IsDigit(Text.Join(tokens, ',')[0])
    ensures Text.IsDigit(Text.Join(tokens, ',')[|Text.Join(tokens, ',')| - 1])
    decreases |tokens|
  {
    if |tokens| > 1 {
      JoinedDigitsEnds(tokens[1..]);
    }
  }

  /** Each rendered cell is a separator-free run of digits. */
  lemma RenderedCellsAreNumerals(mem: seq<nat>)
    ensures forall i :: 0 <= i < |mem| ==>
      && |RenderCells(mem)[i]| > 0 && Text.AllDigits(RenderCells(mem)[i])
      && ',' !in RenderCells(mem)[i]
  {
  }

  lemma {:induction false} ParseRenderedCells(mem: seq<nat>)
    ensures ParseTokens(RenderCells(mem)) == Ok(mem)
    decreases |mem|
  {
    if |mem| > 0 {
      var tokens := RenderCells(mem);
      assert tokens[0] == Text.ShowNat(mem[0]) && tokens[1..] == RenderCells(mem[1..]);
      Text.ParseShow(mem[0]);
      ParseRenderedCells(mem[1..]);
      assert ParseTokens(tokens) == Ok([mem[0]] + mem[1..]);
      assert [mem[0]] + mem[1..] == mem;
    }
  }

  /** Loading the rendering of a non-empty memory image gives the image back. */
  lemma {:induction false} LoadRenderRoundTrip(mem: seq<nat>)
    requires |mem| > 0
    ensures ParseProgram(Render(mem)) == Ok(Program(mem))
  {
    var tokens := RenderCells(mem);
    var text := Render(mem);
    RenderedCellsAreNumerals(mem);
    JoinedDigitsEnds(tokens);
    assert !Text.IsWhitespace(text[0]) && !Text.IsWhitespace(text[|text| - 1]);
    assert Text.Trim(text) == text;
    Text.SplitJoin(tokens, ',');
    assert Text.Split(Text.Trim(text), ',') == tokens;
    ParseRenderedCells(mem);
  }
}
