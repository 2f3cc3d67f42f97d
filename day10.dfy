/**
 * Day 10, "Cathode-Ray Tube": a CPU with one register X runs `noop` (one
 * cycle) and `addx v` (two cycles, then X += v). A 40-pixel-wide CRT draws
 * one pixel per cycle, lit when the 3-pixel sprite centred on X covers the
 * column being drawn; every 20th cycle records a signal strength.
 *
 * The objects of the source (`Sprite`, `Output`) are classes whose methods
 * update their fields. Their behaviour is specified by the pure machine
 * `Tick`/`Perform`, which is in turn proved equal to a reference description
 * built from the register value during each cycle (`Trace`).
 */
module Day10Crt {
  import opened GoStd

  // ---------------------------------------------------------------------------
  // Sprite and Output

  class Sprite {
    var start: int
    var end: int

    constructor ()
      ensures start == 0 && end == 2
    {
      start := 0;
      end := 2;
    }

    /** `Move`: the sprite covers the three columns centred on the register. */
    method Move(registerCount: int)
      modifies this
      ensures start == registerCount - 1 && end == registerCount + 1
    {
      start := registerCount - 1;
      end := registerCount + 1;
    }
  }

  /** The pixel drawn at `column` by a sprite covering `start..end`. */
  function Pixel(start: int, end: int, column: int): (p: string)
    ensures p == "#" <==> start <= column <= end
    ensures p == "#" || p == "."
  {
    if start <= column <= end then "#" else "."
  }

  /** The line break that follows cycle `cycle`'s pixel. */
  function Wrap(cycle: int): (w: string)
    ensures |w| <= 1
  {
    if cycle % 40 == 0 then "\n" else ""
  }

  class Output {
    var value: string
    var row: int
    var column: int

    constructor ()
      ensures value == "" && row == 0 && column == 0
    {
      value := "";
      row := 0;
      column := 0;
    }

    /** `Draw`: one pixel for the current column, then the cursor advances;
        after every 40th cycle the screen wraps to a new row. */
    method Draw(sprite: Sprite, currentCycle: int, registerCount: int)
      modifies this
      ensures value == old(value) + Pixel(sprite.start, sprite.end, old(column)) + Wrap(currentCycle)
      ensures currentCycle % 40 == 0 ==> row == old(row) + 1 && column == 0
      ensures currentCycle % 40 != 0 ==> row == old(row) && column == old(column) + 1
    {
      var pixel := ".";
      var i := sprite.start;
      while i <= sprite.end
        invariant sprite.start <= i && (i <= sprite.end + 1 || i == sprite.start)
        invariant pixel == (if sprite.start <= column < i then "#" else ".")
        decreases sprite.end - i
      {
        if i == column {
          pixel := "#";
        }
        i := i + 1;
      }
      value := value + pixel;
      column := column + 1;
      if currentCycle % 40 == 0 {
        value := value + "\n";
        row := row + 1;
        column := 0;
      }
    }
  }

  // ---------------------------------------------------------------------------
  // The machine, one cycle at a time

  /** Everything `main` updates: the cycle counter, the register, the signal
      strengths, the screen and its cursor, and the sprite window. */
  datatype Cpu = Cpu(cycle: int, register: int, signals: map<int, int>,
                     screen: string, row: int, column: int, spriteStart: int, spriteEnd: int)

  const Initial := Cpu(0, 1, map[], "", 0, 0, 0, 2)

  /** One cycle: advance the counter, draw, and record the signal strength on every 20th cycle. */
  function Tick(c: Cpu): Cpu
  {
    var cycle := c.cycle + 1;
    var wraps := cycle % 40 == 0;
    c.(cycle := cycle,
       signals := if cycle % 20 == 0 then c.signals[cycle := cycle * c.register] else c.signals,
       screen := c.screen + Pixel(c.spriteStart, c.spriteEnd, c.column) + Wrap(cycle),
       row := if wraps then c.row + 1 else c.row,
       column := if wraps then 0 else c.column + 1)
  }

  datatype Instruction = Noop | Addx(argument: int)

  /** `noop` takes one cycle; `addx` takes two and then moves the register and the sprite. */
  function Perform(c: Cpu, ins: Instruction): Cpu
  {
    match ins
    case Noop => Tick(c)
    case Addx(v) =>
      var after := Tick(Tick(c));
      var x := after.register + v;
      after.(register := x, spriteStart := x - 1, spriteEnd := x + 1)
  }

  /** A line: "addx <n>" or "noop" (anything after the first word is ignored);
      a missing or non-numeric argument and an unknown instruction are fatal. */
  function Decode(line: string): (r: Option<Instruction>)
    ensures r == Some(Noop) <==> Split(line, ' ')[0] == "noop"
    ensures r.Some? && r.value.Addx? <==>
              Split(line, ' ')[0] == "addx" && |Split(line, ' ')| >= 2 && AtoiAccepts(Split(line, ' ')[1])
  {
    var parts := Split(line, ' ');
    var instruction := parts[0];
    if instruction == "addx" then
      if |parts| < 2 then None
      else
        match Atoi(parts[1])
        case None => None
        case Some(argument) => Some(Addx(argument))
    else if instruction == "noop" then Some(Noop)
    else None
  }

  /** `noop` is read back as written. */
  lemma DecodeNoop()
    ensures Decode("noop") == Some(Noop)
  {
    SplitNoSep("noop", ' ');
  }

  /** "addx <v>" is read back as written. */
  lemma DecodeAddx(v: int)
    ensures Decode("addx " + Itoa(v)) == Some(Addx(v))
  {
    var digits := Itoa(v);
    assert ' ' !in digits by {
      if v < 0 {
        assert digits == "-" + NatDigits(-v);
      }
    }
    SplitJoin(["addx", digits], ' ');
    assert Join(["addx", digits], [' ']) == "addx" + [' '] + Join([digits], [' ']);
    assert "addx " + digits == "addx" + [' '] + digits;
    var parts := Split("addx " + digits, ' ');
    assert parts == ["addx", digits];
    AtoiItoa(v);
    assert Atoi(parts[1]) == Some(v);
  }

  /** The program's lines run in order; the first bad line stops the run. */
  function RunLines(lines: seq<string>): Option<Cpu>
  {
    if lines == [] then Some(Initial)
    else
      match RunLines(lines[..|lines| - 1])
      case None => None
      case Some(c) =>
        match Decode(lines[|lines| - 1])
        case None => None
        case Some(ins) => Some(Perform(c, ins))
  }

  // ---------------------------------------------------------------------------
  // Reference description: the register value during every cycle

  /** The register value during each cycle of the program. */
  function Trace(program: seq<Instruction>): seq<int>
  {
    if program == [] then []
    else
      var x := FinalRegister(program[..|program| - 1]);
      Trace(program[..|program| - 1]) + match program[|program| - 1]
                                        case Noop => [x]
                                        case Addx(_) => [x, x]
  }

  /** The register value once the program has finished. */
  function FinalRegister(program: seq<Instruction>): int
  {
    if program == [] then 1
    else
      FinalRegister(program[..|program| - 1]) + match program[|program| - 1]
                                                case Noop => 0
                                                case Addx(v) => v
  }

  /** The screen drawn for a trace: pixel k lights when the register during
      cycle k+1 is within one of column k mod 40; a row ends every 40 pixels. */
  function Render(trace: seq<int>): string
  {
    if trace == [] then ""
    else
      var k := |trace| - 1;
      Render(trace[..k]) + Pixel(trace[k] - 1, trace[k] + 1, k % 40) + Wrap(k + 1)
  }

  /** The signal strengths for a trace: cycle × register on every 20th cycle. */
  function Signals(trace: seq<int>): map<int, int>
  {
    if trace == [] then map[]
    else
      var cycle := |trace|;
      var earlier := Signals(trace[..cycle - 1]);
      if cycle % 20 == 0 then earlier[cycle := cycle * trace[cycle - 1]] else earlier
  }

  /** The machine state reached after the cycles of `trace`, with register `x`. */
  function Snapshot(trace: seq<int>, x: int): Cpu
  {
    Cpu(|trace|, x, Signals(trace), Render(trace), |trace| / 40, |trace| % 40, x - 1, x + 1)
  }

  lemma CursorStep(n: nat)
    ensures (n + 1) % 40 == 0 ==> (n + 1) / 40 == n / 40 + 1 && n % 40 == 39
    ensures (n + 1) % 40 != 0 ==> (n + 1) / 40 == n / 40 && (n + 1) % 40 == n % 40 + 1
  {
  }

  /** A cycle extends the trace by the current register value. */
  lemma TickSnapshot(trace: seq<int>, x: int)
    ensures Tick(Snapshot(trace, x)) == Snapshot(trace + [x], x)
  {
    var t := trace + [x];
    assert t[..|trace|] == trace;
    CursorStep(|trace|);
  }

  /** Running a program reaches the snapshot of its trace: the register keeps
      its old value through both cycles of an `addx`, and the sprite always
      sits on the register. */
  lemma {:induction false} PerformSnapshot(program: seq<Instruction>)
    ensures PerformAll(program) == Snapshot(Trace(program), FinalRegister(program))
  {
    if program != [] {
      var n := |program| - 1;
      var before := program[..n];
      PerformSnapshot(before);
      var t := Trace(before);
      var x := FinalRegister(before);
      TickSnapshot(t, x);
      match program[n]
      case Noop =>
      case Addx(v) =>
        TickSnapshot(t + [x], x);
        assert t + [x] + [x] == t + [x, x];
    }
  }

  function PerformAll(program: seq<Instruction>): Cpu
  {
    if program == [] then Initial else Perform(PerformAll(program[..|program| - 1]), program[|program| - 1])
  }

  /** All lines decode, or the first one that does not. */
  function DecodeAll(lines: seq<string>): Option<seq<Instruction>>
  {
    if lines == [] then Some([])
    else
      match DecodeAll(lines[..|lines| - 1])
      case None => None
      case Some(program) =>
        match Decode(lines[|lines| - 1])
        case None => None
        case Some(ins) => Some(program + [ins])
  }

  /** Running the lines fails exactly when some line does not decode, and
      otherwise reaches the snapshot of the decoded program's trace. */
  lemma {:induction false} RunLinesMeaning(lines: seq<string>)
    ensures RunLines(lines).Some? <==> DecodeAll(lines).Some?
    ensures DecodeAll(lines).Some? ==>
              |DecodeAll(lines).value| == |lines| &&
              RunLines(lines).value == PerformAll(DecodeAll(lines).value) &&
              RunLines(lines).value == Snapshot(Trace(DecodeAll(lines).value), FinalRegister(DecodeAll(lines).value))
  {
    if lines != [] {
      RunLinesMeaning(lines[..|lines| - 1]);
      if DecodeAll(lines).Some? {
        var program := DecodeAll(lines).value;
        assert program[..|program| - 1] == DecodeAll(lines[..|lines| - 1]).value;
        PerformSnapshot(program);
      }
    }
  }

  /** `noop` lasts one cycle and `addx` two. */
  function Cycles(program: seq<Instruction>): nat
  {
    if program == [] then 0
    else Cycles(program[..|program| - 1]) + if program[|program| - 1].Noop? then 1 else 2
  }

  lemma {:induction false} TraceLength(program: seq<Instruction>)
    ensures |Trace(program)| == Cycles(program)
  {
    if program != [] {
      TraceLength(program[..|program| - 1]);
    }
  }

  /** A signal is recorded for exactly the cycles divisible by 20 run so far,
      as the cycle number times the register during that cycle. */
  lemma {:induction false} SignalsRecorded(trace: seq<int>, cycle: int)
    ensures cycle in Signals(trace) <==> 1 <= cycle <= |trace| && cycle % 20 == 0
    ensures cycle in Signals(trace) ==> Signals(trace)[cycle] == cycle * trace[cycle - 1]
  {
    if trace != [] {
      var n := |trace| - 1;
      SignalsRecorded(trace[..n], cycle);
    }
  }

  /** The screen holds one character per cycle plus a line break after every 40. */
  lemma {:induction false} RenderLength(trace: seq<int>)
    ensures |Render(trace)| == |trace| + |trace| / 40
  {
    if trace != [] {
      var k := |trace| - 1;
      RenderLength(trace[..k]);
      CursorStep(k);
    }
  }

  // ---------------------------------------------------------------------------
  // The answer

  /** A signal strength looked up in the map, where a missing cycle reads as 0. */
  function Strength(signals: map<int, int>, cycle: int): int
  {
    if cycle in signals then signals[cycle] else 0
  }

  function SignalSum(signals: map<int, int>): int
  {
    Strength(signals, 20) + Strength(signals, 60) + Strength(signals, 100)
    + Strength(signals, 140) + Strength(signals, 180) + Strength(signals, 220)
  }

  /** The strength of `cycle` read off the trace: zero if the program was shorter. */
  function TraceStrength(trace: seq<int>, cycle: nat): int
  {
    if 1 <= cycle <= |trace| then cycle * trace[cycle - 1] else 0
  }

  /** The reported sum is the sum of cycle × register over cycles 20, 60, …, 220 that ran. */
  lemma SignalSumOfTrace(trace: seq<int>)
    ensures SignalSum(Signals(trace)) ==
              TraceStrength(trace, 20) + TraceStrength(trace, 60) + TraceStrength(trace, 100)
              + TraceStrength(trace, 140) + TraceStrength(trace, 180) + TraceStrength(trace, 220)
  {
    SignalsRecorded(trace, 20);
    SignalsRecorded(trace, 60);
    SignalsRecorded(trace, 100);
    SignalsRecorded(trace, 140);
    SignalsRecorded(trace, 180);
    SignalsRecorded(trace, 220);
  }

  // ---------------------------------------------------------------------------
  // The loop of `main`

  /** One cycle on the objects: count it, draw it, record its signal strength. */
  method RunCycle(output: Output, sprite: Sprite, currentCycle: int, registerCount: int,
                  signalStrengths: map<int, int>) returns (cycle: int, signals: map<int, int>)
    modifies output
    ensures Cpu(cycle, registerCount, signals, output.value, output.row, output.column, sprite.start, sprite.end)
            == Tick(Cpu(currentCycle, registerCount, signalStrengths, old(output.value), old(output.row),
                        old(output.column), sprite.start, sprite.end))
  {
    cycle := currentCycle + 1;
    output.Draw(sprite, cycle, registerCount);
    signals := signalStrengths;
    var isRelevantCycle := cycle % 20 == 0;
    if isRelevantCycle {
      signals := signals[cycle := cycle * registerCount];
    }
  }

  /** One line of the loop of `main`: decode it and run its cycles on the objects;
      `ok` is false exactly when the line stops the program. */
  method RunLine(output: Output, sprite: Sprite, currentCycle: int, registerCount: int,
                 signalStrengths: map<int, int>, line: string)
    returns (ok: bool, cycle: int, register: int, signals: map<int, int>)
    modifies output, sprite
    ensures ok <==> Decode(line).Some?
    ensures ok ==> Cpu(cycle, register, signals, output.value, output.row, output.column, sprite.start, sprite.end)
                   == Perform(Cpu(currentCycle, registerCount, signalStrengths, old(output.value), old(output.row),
                                  old(output.column), old(sprite.start), old(sprite.end)), Decode(line).value)
  {
    cycle, register, signals := currentCycle, registerCount, signalStrengths;
    var parts := Split(line, ' ');
    var instruction := parts[0];
    if instruction == "addx" {
      if |parts| < 2 {
        return false, cycle, register, signals;
      }
      var parsed := Atoi(parts[1]);
      if parsed.None? {
        return false, cycle, register, signals;
      }
      var argument := parsed.value;
      cycle, signals := RunCycle(output, sprite, cycle, register, signals);
      cycle, signals := RunCycle(output, sprite, cycle, register, signals);
      register := register + argument;
      sprite.Move(register);
      ok := true;
    } else if instruction == "noop" {
      cycle, signals := RunCycle(output, sprite, cycle, register, signals);
      ok := true;
    } else {
      ok := false;
    }
  }

  /** `main`: run every line, then report the signal sum and the screen. */
  method Run(lines: seq<string>) returns (outcome: Option<(int, string)>)
    ensures outcome.None? <==> RunLines(lines).None?
    ensures outcome.Some? ==>
              outcome.value == (SignalSum(RunLines(lines).value.signals), RunLines(lines).value.screen)
  {
    var currentCycle := 0;
    var registerCount := 1;
    var signalStrengths: map<int, int> := map[];
    var output := new Output();
    var sprite := new Sprite();
    for i := 0 to |lines|
      invariant RunLines(lines[..i]) ==
                Some(Cpu(currentCycle, registerCount, signalStrengths, output.value, output.row, output.column,
                         sprite.start, sprite.end))
    {
      assert lines[..i + 1][..i] == lines[..i];
      var ok;
      ok, currentCycle, registerCount, signalStrengths :=
        RunLine(output, sprite, currentCycle, registerCount, signalStrengths, lines[i]);
      if !ok {
        NoRunAfter(lines, i + 1);
        return None;
      }
    }
    assert lines[..|lines|] == lines;
    outcome := Some((SignalSum(signalStrengths), output.value));
  }

  lemma {:induction false} NoRunAfter(lines: seq<string>, n: nat)
    requires n <= |lines| && RunLines(lines[..n]).None?
    ensures RunLines(lines).None?
    decreases |lines| - n
  {
    if n < |lines| {
      assert lines[..n + 1][..n] == lines[..n];
      NoRunAfter(lines, n + 1);
    } else {
      assert lines[..n] == lines;
    }
  }
}
