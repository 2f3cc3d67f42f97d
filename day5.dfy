/**
 * Day 5, "Supply Stacks": numbered stacks of lettered crates, listed top
 * first, are rearranged by instructions "move N from S to D". The crane of
 * part one moves crates one at a time, so the lifted block lands reversed;
 * the crane of part two keeps their order. The answer is the top crate of
 * every stack in ascending stack number.
 */
module Day5Crates {
  import opened GoStd

  datatype Instruction = Instruction(count: int, source: int, destination: int)

  /** Stack number to its crates, top first. */
  type Stacks = map<int, seq<char>>

  /** A Go map read with a missing key gives the empty slice. */
  function Lookup(stacks: Stacks, k: int): seq<char>
  {
    if k in stacks then stacks[k] else []
  }

  // ---------------------------------------------------------------------------
  // reverse

  function Reversed(s: seq<char>): (r: seq<char>)
    ensures |r| == |s|
    ensures forall k :: 0 <= k < |s| ==> r[k] == s[|s| - 1 - k]
  {
    if s == [] then [] else Reversed(s[1..]) + [s[0]]
  }

  /** Reversing twice gives the original sequence back. */
  lemma ReversedInvolution(s: seq<char>)
    ensures Reversed(Reversed(s)) == s
  {
  }

  lemma {:induction false} ReversedSameCrates(s: seq<char>)
    ensures multiset(Reversed(s)) == multiset(s)
  {
    if s != [] {
      ReversedSameCrates(s[1..]);
      assert s == [s[0]] + s[1..];
    }
  }

  /** `reverse`: swaps from both ends towards the middle. */
  method Reverse(a: array<char>)
    modifies a
    ensures a[..] == Reversed(old(a[..]))
  {
    var i, j := 0, a.Length - 1;
    while i < j
      invariant 0 <= i && j == a.Length - 1 - i && i <= j + 1
      invariant forall k :: 0 <= k < i ==> a[k] == old(a[a.Length - 1 - k]) && a[a.Length - 1 - k] == old(a[k])
      invariant forall k :: i <= k <= j ==> a[k] == old(a[k])
    {
      a[i], a[j] := a[j], a[i];
      i, j := i + 1, j - 1;
    }
  }

  /** A fresh slice holding `s`, as `append([]string{}, s...)`. */
  method Copy(s: seq<char>) returns (a: array<char>)
    ensures fresh(a) && a[..] == s
  {
    a := new char[|s|];
    for i := 0 to |s|
      invariant a[..i] == s[..i]
    {
      a[i] := s[i];
    }
  }

  // ---------------------------------------------------------------------------
  // One move

  /** Slicing `source[count:]` panics unless `0 <= count <= len(source)`. */
  predicate CanMove(stacks: Stacks, ins: Instruction)
  {
    0 <= ins.count <= |Lookup(stacks, ins.source)|
  }

  /** The lifted block as it lands: reversed by the part-one crane. */
  function Lift(block: seq<char>, isPart1: bool): seq<char>
  {
    if isPart1 then Reversed(block) else block
  }

  /** The move loop body as written: the destination is read before the
      source is shortened, and the destination is written last. */
  function MoveAsWritten(stacks: Stacks, ins: Instruction, isPart1: bool): Stacks
    requires CanMove(stacks, ins)
  {
    var source := Lookup(stacks, ins.source);
    var destination := Lookup(stacks, ins.destination);
    stacks[ins.source := source[ins.count..]][ins.destination := Lift(source[..ins.count], isPart1) + destination]
  }

  /** One move: the top `count` crates leave the source and land on top of
      the destination. A move onto the same stack leaves it as it was, for
      either crane: the block crane puts the block back where it was, and the
      part-one crane puts each crate back before it lifts the next. */
  function MoveCrates(stacks: Stacks, ins: Instruction, isPart1: bool): (r: Stacks)
    requires CanMove(stacks, ins)
    ensures r.Keys == stacks.Keys + {ins.source, ins.destination}
    ensures forall k :: k in stacks && k != ins.source && k != ins.destination ==> r[k] == stacks[k]
  {
    var source := Lookup(stacks, ins.source);
    if ins.source == ins.destination then stacks[ins.source := source]
    else stacks[ins.source := source[ins.count..]][ins.destination := Lift(source[..ins.count], isPart1) + Lookup(stacks, ins.destination)]
  }

  /** Between two different stacks, the source keeps everything below the top
      `count` crates, in order, and the destination gets them on top. */
  lemma MoveBetweenStacks(stacks: Stacks, ins: Instruction, isPart1: bool)
    requires CanMove(stacks, ins) && ins.source != ins.destination
    ensures var r := MoveCrates(stacks, ins, isPart1);
            var source := Lookup(stacks, ins.source);
            && r[ins.source] == source[ins.count..]
            && r[ins.destination][ins.count..] == Lookup(stacks, ins.destination)
            && r[ins.destination][..ins.count] == (if isPart1 then Reversed(source[..ins.count]) else source[..ins.count])
  {
  }

  /** A move between two stacks neither creates nor loses a crate. */
  lemma MoveConservesCrates(stacks: Stacks, ins: Instruction, isPart1: bool)
    requires CanMove(stacks, ins) && ins.source != ins.destination
    ensures var r := MoveCrates(stacks, ins, isPart1);
            multiset(r[ins.source]) + multiset(r[ins.destination])
            == multiset(Lookup(stacks, ins.source)) + multiset(Lookup(stacks, ins.destination))
  {
    var source := Lookup(stacks, ins.source);
    ReversedSameCrates(source[..ins.count]);
    assert source == source[..ins.count] + source[ins.count..];
  }

  /** A move onto the stack it came from leaves every stack as it was, for
      both cranes; only a missing stack is created, empty. */
  lemma MoveOntoItself(stacks: Stacks, ins: Instruction, isPart1: bool)
    requires CanMove(stacks, ins) && ins.source == ins.destination
    ensures var r := MoveCrates(stacks, ins, isPart1);
            && r[ins.source] == Lookup(stacks, ins.source)
            && forall k :: k in r ==> Lookup(r, k) == Lookup(stacks, k)
  {
  }

  /** The code as written agrees with the corrected move whenever the source
      and destination differ. */
  lemma AsWrittenBetweenStacks(stacks: Stacks, ins: Instruction, isPart1: bool)
    requires CanMove(stacks, ins) && ins.source != ins.destination
    ensures MoveAsWritten(stacks, ins, isPart1) == MoveCrates(stacks, ins, isPart1)
  {
  }

  /** As written, a move onto the same stack writes the lifted block on top of
      the stack as it was before the move: `count` crates are duplicated. */
  lemma AsWrittenDuplicatesOnSelfMove(stacks: Stacks, ins: Instruction, isPart1: bool)
    requires CanMove(stacks, ins) && ins.source == ins.destination
    ensures |MoveAsWritten(stacks, ins, isPart1)[ins.source]| == |Lookup(stacks, ins.source)| + ins.count
  {
  }

  /** "move 1 from 1 to 1" on a stack A over B leaves A, A, B as written, and
      "move 2 from 1 to 1" on A, B, C with the part-one crane leaves B, A, A, B, C;
      the corrected move leaves both stacks as they were. */
  lemma SelfMoveExample()
    ensures MoveAsWritten(map[1 := "AB"], Instruction(1, 1, 1), false)[1] == "AAB"
    ensures MoveCrates(map[1 := "AB"], Instruction(1, 1, 1), false)[1] == "AB"
    ensures MoveAsWritten(map[1 := "ABC"], Instruction(2, 1, 1), true)[1] == "BAABC"
    ensures MoveCrates(map[1 := "ABC"], Instruction(2, 1, 1), true)[1] == "ABC"
  {
    var stacks: Stacks := map[1 := "AB"];
    assert Lookup(stacks, 1) == "AB";
    assert "AB"[..1] == "A" && "AB"[1..] == "B";
    assert "A" + "AB" == "AAB";
    var three: Stacks := map[1 := "ABC"];
    assert Lookup(three, 1) == "ABC";
    assert "ABC"[..2] == "AB";
    assert Reversed("AB") == "BA";
    assert "BA" + "ABC" == "BAABC";
  }

  /** `count` single-crate moves from `source` to `destination`. */
  function SingleMoves(stacks: Stacks, source: int, destination: int, n: nat): (r: Stacks)
    requires source != destination && n <= |Lookup(stacks, source)|
    ensures |Lookup(r, source)| == |Lookup(stacks, source)| - n
  {
    if n == 0 then stacks
    else MoveCrates(SingleMoves(stacks, source, destination, n - 1), Instruction(1, source, destination), true)
  }

  /** Single-crate moves touch only the two stacks involved. */
  lemma {:induction false} SingleMovesOthers(stacks: Stacks, source: int, destination: int, n: nat)
    requires source != destination && n <= |Lookup(stacks, source)|
    ensures var r := SingleMoves(stacks, source, destination, n);
            && stacks.Keys <= r.Keys
            && (n > 0 ==> r.Keys == stacks.Keys + {source, destination})
            && forall k :: k in stacks && k != source && k != destination ==> r[k] == stacks[k]
  {
    if n > 0 {
      SingleMovesOthers(stacks, source, destination, n - 1);
    }
  }

  /** Moving one crate between two stacks puts the source's top crate on the destination. */
  lemma MoveOne(stacks: Stacks, source: int, destination: int)
    requires source != destination && |Lookup(stacks, source)| >= 1
    ensures var r := MoveCrates(stacks, Instruction(1, source, destination), true);
            && Lookup(r, source) == Lookup(stacks, source)[1..]
            && Lookup(r, destination) == [Lookup(stacks, source)[0]] + Lookup(stacks, destination)
  {
    var top := Lookup(stacks, source)[..1];
    assert Reversed(top) == top;
  }

  /** Reversing one more element of a prefix puts it in front. */
  lemma ReversedPrefixStep(s: seq<char>, n: nat)
    requires 1 <= n <= |s|
    ensures Reversed(s[..n]) == [s[n - 1]] + Reversed(s[..n - 1])
  {
  }

  /** `n` single-crate moves take the top `n` crates off the source. */
  lemma {:induction false} SingleMovesSource(stacks: Stacks, source: int, destination: int, n: nat)
    requires source != destination && n <= |Lookup(stacks, source)|
    ensures Lookup(SingleMoves(stacks, source, destination, n), source) == Lookup(stacks, source)[n..]
  {
    if n > 0 {
      SingleMovesSource(stacks, source, destination, n - 1);
      MoveOne(SingleMoves(stacks, source, destination, n - 1), source, destination);
    }
  }

  /** `n` single-crate moves stack the top `n` crates of the source, reversed, on the destination. */
  lemma {:induction false} SingleMovesDestination(stacks: Stacks, source: int, destination: int, n: nat)
    requires source != destination && n <= |Lookup(stacks, source)|
    ensures Lookup(SingleMoves(stacks, source, destination, n), destination)
            == Reversed(Lookup(stacks, source)[..n]) + Lookup(stacks, destination)
  {
    if n > 0 {
      SingleMovesDestination(stacks, source, destination, n - 1);
      SingleMovesSource(stacks, source, destination, n - 1);
      MoveOne(SingleMoves(stacks, source, destination, n - 1), source, destination);
      ReversedPrefixStep(Lookup(stacks, source), n);
    }
  }

  /** The part-one crane moving a block of `n` crates is the same as moving
      them one at a time. */
  lemma PartOneMovesOneAtATime(stacks: Stacks, ins: Instruction)
    requires CanMove(stacks, ins) && ins.source != ins.destination && ins.count > 0
    ensures MoveCrates(stacks, ins, true) == SingleMoves(stacks, ins.source, ins.destination, ins.count)
  {
    var r := MoveCrates(stacks, ins, true);
    var q := SingleMoves(stacks, ins.source, ins.destination, ins.count);
    SingleMovesOthers(stacks, ins.source, ins.destination, ins.count);
    SingleMovesSource(stacks, ins.source, ins.destination, ins.count);
    SingleMovesDestination(stacks, ins.source, ins.destination, ins.count);
    assert r.Keys == q.Keys;
    assert r[ins.source] == Lookup(q, ins.source);
    assert r[ins.destination] == Lookup(q, ins.destination);
    assert forall k :: k in r ==> r[k] == q[k];
  }

  // ---------------------------------------------------------------------------
  // The move loop

  /** All instructions in order; a count the source stack cannot supply stops the program. */
  function MoveAll(stacks: Stacks, instructions: seq<Instruction>, isPart1: bool): Option<Stacks>
  {
    if instructions == [] then Some(stacks)
    else
      match MoveAll(stacks, instructions[..|instructions| - 1], isPart1)
      case None => None
      case Some(before) =>
        var ins := instructions[|instructions| - 1];
        if CanMove(before, ins) then Some(MoveCrates(before, ins, isPart1)) else None
  }

  /** The first `i + 1` instructions are the first `i`, then instruction `i`. */
  lemma MoveAllStep(stacks: Stacks, instructions: seq<Instruction>, i: nat, isPart1: bool)
    requires i < |instructions|
    ensures MoveAll(stacks, instructions[..i + 1], isPart1) ==
              match MoveAll(stacks, instructions[..i], isPart1)
              case None => None
              case Some(before) =>
                if CanMove(before, instructions[i]) then Some(MoveCrates(before, instructions[i], isPart1)) else None
  {
    assert instructions[..i + 1][..i] == instructions[..i];
  }

  lemma {:induction false} MoveAllStopped(stacks: Stacks, instructions: seq<Instruction>, n: nat, isPart1: bool)
    requires n <= |instructions| && MoveAll(stacks, instructions[..n], isPart1).None?
    ensures MoveAll(stacks, instructions, isPart1).None?
    decreases |instructions| - n
  {
    if n < |instructions| {
      assert instructions[..n + 1][..n] == instructions[..n];
      MoveAllStopped(stacks, instructions, n + 1, isPart1);
    } else {
      assert instructions[..n] == instructions;
    }
  }

  /** The move loop of `main`, corrected for moves onto the same stack: it
      slices the top block off the source, copies it into a fresh slice,
      reverses that in place for part one, and puts it on the destination. A
      move onto the stack it came from leaves that stack as it was, where the
      loop as written (`MoveAsWritten`) puts the block on top of the unshortened
      stack. */
  method ApplyInstructions(stacks: Stacks, instructions: seq<Instruction>, isPart1: bool)
    returns (result: Option<Stacks>)
    ensures result == MoveAll(stacks, instructions, isPart1)
  {
    var crates := stacks;
    for i := 0 to |instructions|
      invariant MoveAll(stacks, instructions[..i], isPart1) == Some(crates)
    {
      MoveAllStep(stacks, instructions, i, isPart1);
      var instruction := instructions[i];
      var source := Lookup(crates, instruction.source);
      if !(0 <= instruction.count <= |source|) {
        MoveAllStopped(stacks, instructions, i + 1, isPart1);
        return None;
      }
      if instruction.source == instruction.destination {
        crates := crates[instruction.source := source];
        continue;
      }
      var destination := Lookup(crates, instruction.destination);
      var updatedSource := source[instruction.count..];
      var updatedDestination := Copy(source[..instruction.count]);
      if isPart1 {
        Reverse(updatedDestination);
      }
      crates := crates[instruction.source := updatedSource];
      crates := crates[instruction.destination := updatedDestination[..] + destination];
    }
    assert instructions[..|instructions|] == instructions;
    result := Some(crates);
  }

  // ---------------------------------------------------------------------------
  // The answer

  predicate Ascending(keys: seq<int>)
  {
    forall i, k :: 0 <= i < k < |keys| ==> keys[i] < keys[k]
  }

  lemma NoMemberMeansEmpty(s: set<int>)
    ensures (forall y :: y !in s) ==> s == {}
  {
    if forall y :: y !in s {
      assert forall y :: y in s <==> y in {};
    }
  }

  lemma {:induction false} LeastExists(s: set<int>)
    requires s != {}
    ensures exists m :: m in s && forall x :: x in s ==> m <= x
    decreases |s|
  {
    NoMemberMeansEmpty(s);
    var y :| y in s;
    var rest := s - {y};
    var m := y;
    if rest != {} {
      assert |rest| < |s|;
      LeastExists(rest);
      m :| m in rest && forall x :: x in rest ==> m <= x;
    }
    var least := LeastOfAdded(s, rest, y, m);
  }

  /** Adding `y` back to `rest` leaves the smaller of `y` and the least of `rest` least. */
  lemma LeastOfAdded(s: set<int>, rest: set<int>, y: int, m: int) returns (least: int)
    requires y in s && rest == s - {y}
    requires rest == {} ==> m == y
    requires rest != {} ==> m in rest && forall x :: x in rest ==> m <= x
    ensures least in s && forall x :: x in s ==> least <= x
  {
    least := if y < m then y else m;
    forall x | x in s
      ensures least <= x
    {
      if x != y {
        assert x in rest;
      }
    }
  }

  /** The map's keys in ascending order, as collected and then sorted with `sort.Ints`. */
  method SortedKeys(stacks: Stacks) returns (keys: seq<int>)
    ensures Ascending(keys)
    ensures forall k :: k in keys <==> k in stacks
    ensures forall i :: 0 <= i < |keys| ==> keys[i] in stacks
  {
    keys := [];
    var remaining := stacks.Keys;
    while remaining != {}
      invariant Ascending(keys)
      invariant forall k :: k in stacks <==> k in keys || k in remaining
      invariant forall i, x :: 0 <= i < |keys| && x in remaining ==> keys[i] < x
      invariant forall k :: k in keys ==> k !in remaining
      decreases |remaining|
    {
      LeastExists(remaining);
      var least :| least in remaining && forall x :: x in remaining ==> least <= x;
      assert forall i :: 0 <= i < |keys| ==> keys[i] < least;
      keys := keys + [least];
      remaining := remaining - {least};
    }
  }

  /** The top crate of every stack in ascending stack number; an empty stack
      makes `crates[key][0]` panic. */
  method TopCrates(stacks: Stacks) returns (keys: seq<int>, message: Option<seq<char>>)
    ensures Ascending(keys) && forall k :: k in keys <==> k in stacks
    ensures forall i :: 0 <= i < |keys| ==> keys[i] in stacks
    ensures message.Some? <==> forall k :: k in stacks ==> |stacks[k]| > 0
    ensures message.Some? ==>
              && |message.value| == |keys|
              && forall i :: 0 <= i < |keys| ==> |stacks[keys[i]]| > 0 && message.value[i] == stacks[keys[i]][0]
  {
    keys := SortedKeys(stacks);
    var result := [];
    for i := 0 to |keys|
      invariant |result| == i
      invariant forall j :: 0 <= j < i ==> |stacks[keys[j]]| > 0 && result[j] == stacks[keys[j]][0]
    {
      var stack := stacks[keys[i]];
      if |stack| == 0 {
        return keys, None;
      }
      result := result + [stack[0]];
    }
    message := Some(result);
  }

  // ---------------------------------------------------------------------------
  // parseInstructions

  /** The three fields the instruction pattern captures, as text. */
  datatype Captures = Captures(count: string, source: string, destination: string)

  function ParseInstruction(fields: Captures): (r: Option<Instruction>)
    ensures r.Some? <==> AtoiAccepts(fields.count) && AtoiAccepts(fields.source) && AtoiAccepts(fields.destination)
  {
    match Atoi(fields.count)
    case None => None
    case Some(count) =>
      match Atoi(fields.source)
      case None => None
      case Some(source) =>
        match Atoi(fields.destination)
        case None => None
        case Some(destination) => Some(Instruction(count, source, destination))
  }

  /** The fields of an instruction written in decimal are read back in field order. */
  lemma ParseInstructionWritten(ins: Instruction)
    ensures ParseInstruction(Captures(Itoa(ins.count), Itoa(ins.source), Itoa(ins.destination))) == Some(ins)
  {
    AtoiItoa(ins.count);
    AtoiItoa(ins.source);
    AtoiItoa(ins.destination);
  }

  /** `parseInstructions`: one instruction per line, in order; the first
      non-numeric field is an error. */
  method ParseInstructions(lines: seq<Captures>) returns (instructions: Option<seq<Instruction>>)
    ensures instructions.Some? <==> forall i :: 0 <= i < |lines| ==> ParseInstruction(lines[i]).Some?
    ensures instructions.Some? ==>
              && |instructions.value| == |lines|
              && forall i :: 0 <= i < |lines| ==> Some(instructions.value[i]) == ParseInstruction(lines[i])
  {
    var parsed := [];
    for i := 0 to |lines|
      invariant |parsed| == i
      invariant forall k :: 0 <= k < i ==> Some(parsed[k]) == ParseInstruction(lines[k])
    {
      var instruction := ParseInstruction(lines[i]);
      if instruction.None? {
        return None;
      }
      parsed := parsed + [instruction.value];
    }
    instructions := Some(parsed);
  }

  // ---------------------------------------------------------------------------
  // parseCrates

  predicate IsCrateLetter(c: char) { 'A' <= c <= 'Z' }

  /** The stack a character position belongs to: position 1 + 4i is stack i + 1
      for the first `maxColumns` stacks, and no other position has one. */
  function ColumnAt(idx: int, maxColumns: int): (r: Option<int>)
    ensures r.Some? ==> 1 <= r.value <= maxColumns && idx == 1 + 4 * (r.value - 1)
  {
    if idx >= 1 && (idx - 1) % 4 == 0 && (idx - 1) / 4 < maxColumns then Some((idx - 1) / 4 + 1) else None
  }

  lemma ColumnOfStack(n: int, maxColumns: int)
    requires 1 <= n <= maxColumns
    ensures ColumnAt(1 + 4 * (n - 1), maxColumns) == Some(n)
  {
  }

  /** The first loop of `parseCrates`: the table from character position to stack number. */
  method ColumnIndex(maxColumns: int) returns (index: map<int, int>)
    ensures forall idx :: idx in index <==> ColumnAt(idx, maxColumns).Some?
    ensures forall idx :: idx in index ==> Some(index[idx]) == ColumnAt(idx, maxColumns)
  {
    index := map[];
    var currentCharacterIndex := 1;
    var i := 0;
    while i < maxColumns
      invariant 0 <= i <= (if maxColumns > 0 then maxColumns else 0)
      invariant currentCharacterIndex == 1 + 4 * i
      invariant forall idx :: idx in index <==> ColumnAt(idx, i).Some?
      invariant forall idx :: idx in index ==> Some(index[idx]) == ColumnAt(idx, i)
    {
      index := index[currentCharacterIndex := i + 1];
      currentCharacterIndex := currentCharacterIndex + 4;
      i := i + 1;
    }
    if maxColumns >= 0 {
      assert i == maxColumns;
    } else {
      forall idx ensures ColumnAt(idx, i) == ColumnAt(idx, maxColumns) {
        if idx >= 1 {
          assert (idx - 1) / 4 >= 0;
        }
      }
    }
  }

  /** The crates found in the first `k` characters of a line, appended below
      what is already on each stack; a letter at a position without a stack
      panics. */
  function ScanLine(stacks: Stacks, line: string, maxColumns: int, k: nat): Option<Stacks>
    requires k <= |line|
  {
    if k == 0 then Some(stacks)
    else
      match ScanLine(stacks, line, maxColumns, k - 1)
      case None => None
      case Some(before) =>
        if !IsCrateLetter(line[k - 1]) then Some(before)
        else
          match ColumnAt(k - 1, maxColumns)
          case None => None
          case Some(n) => Some(before[n := Lookup(before, n) + [line[k - 1]]])
  }

  /** The crate lines top to bottom, starting from no stacks. */
  function ScanLines(lines: seq<string>, maxColumns: int): Option<Stacks>
  {
    if lines == [] then Some(map[])
    else
      match ScanLines(lines[..|lines| - 1], maxColumns)
      case None => None
      case Some(before) => ScanLine(before, lines[|lines| - 1], maxColumns, |lines[|lines| - 1]|)
  }

  lemma {:induction false} ScanLineStopped(stacks: Stacks, line: string, maxColumns: int, k: nat)
    requires k <= |line| && ScanLine(stacks, line, maxColumns, k).None?
    ensures ScanLine(stacks, line, maxColumns, |line|).None?
    decreases |line| - k
  {
    if k < |line| {
      ScanLineStopped(stacks, line, maxColumns, k + 1);
    }
  }

  lemma {:induction false} ScanLinesStopped(lines: seq<string>, maxColumns: int, n: nat)
    requires n <= |lines| && ScanLines(lines[..n], maxColumns).None?
    ensures ScanLines(lines, maxColumns).None?
    decreases |lines| - n
  {
    if n < |lines| {
      assert lines[..n + 1][..n] == lines[..n];
      ScanLinesStopped(lines, maxColumns, n + 1);
    } else {
      assert lines[..n] == lines;
    }
  }

  /** `parseCrates`: a column count `Atoi` rejects is an error, and so is a crate
      letter at a position that belongs to no stack. */
  method ParseCrates(crateLines: seq<string>, maxColumnsStr: string) returns (crates: Option<Stacks>)
    ensures Atoi(maxColumnsStr).None? ==> crates.None?
    ensures Atoi(maxColumnsStr).Some? ==> crates == ScanLines(crateLines, Atoi(maxColumnsStr).value)
  {
    var parsedColumns := Atoi(maxColumnsStr);
    if parsedColumns.None? {
      return None;
    }
    var maxColumns := parsedColumns.value;
    var index := ColumnIndex(maxColumns);
    var stacks: Stacks := map[];
    for i := 0 to |crateLines|
      invariant ScanLines(crateLines[..i], maxColumns) == Some(stacks)
    {
      assert crateLines[..i + 1][..i] == crateLines[..i];
      var line := crateLines[i];
      ghost var before := stacks;
      for idx := 0 to |line|
        invariant ScanLine(before, line, maxColumns, idx) == Some(stacks)
      {
        var character := line[idx];
        if IsCrateLetter(character) {
          if idx !in index {
            ScanLineStopped(before, line, maxColumns, idx + 1);
            ScanLinesStopped(crateLines, maxColumns, i + 1);
            return None;
          }
          var crateNumber := index[idx];
          stacks := stacks[crateNumber := Lookup(stacks, crateNumber) + [character]];
        }
      }
    }
    assert crateLines[..|crateLines|] == crateLines;
    crates := Some(stacks);
  }

  /** The letters standing at one character position of the crate lines, top to bottom. */
  function ColumnLetters(lines: seq<string>, idx: nat): seq<char>
  {
    if lines == [] then []
    else
      var line := lines[|lines| - 1];
      ColumnLetters(lines[..|lines| - 1], idx) + (if idx < |line| && IsCrateLetter(line[idx]) then [line[idx]] else [])
  }

  /** Every crate letter stands at a position that belongs to a stack. */
  predicate LettersInColumns(lines: seq<string>, maxColumns: int)
  {
    forall i, j :: 0 <= i < |lines| && 0 <= j < |lines[i]| && IsCrateLetter(lines[i][j]) ==> ColumnAt(j, maxColumns).Some?
  }

  lemma {:induction false} ScanLineColumn(stacks: Stacks, line: string, maxColumns: int, k: nat, n: int)
    requires k <= |line| && ScanLine(stacks, line, maxColumns, k).Some? && 1 <= n <= maxColumns
    ensures var p := 1 + 4 * (n - 1);
            Lookup(ScanLine(stacks, line, maxColumns, k).value, n)
            == Lookup(stacks, n) + (if p < k && IsCrateLetter(line[p]) then [line[p]] else [])
  {
    if k > 0 {
      ScanLineColumn(stacks, line, maxColumns, k - 1, n);
      ColumnOfStack(n, maxColumns);
    }
  }

  lemma {:induction false} ScanLineSucceeds(stacks: Stacks, line: string, maxColumns: int, k: nat)
    requires k <= |line|
    ensures ScanLine(stacks, line, maxColumns, k).Some?
            <==> forall j :: 0 <= j < k && IsCrateLetter(line[j]) ==> ColumnAt(j, maxColumns).Some?
  {
    if k > 0 {
      ScanLineSucceeds(stacks, line, maxColumns, k - 1);
    }
  }

  /** Parsing succeeds exactly when every letter is in a stack's column, and
      then stack `n` holds, top first, the letters at position 1 + 4(n - 1) of
      the crate lines in line order. */
  lemma {:induction false} StacksAreColumns(lines: seq<string>, maxColumns: int)
    ensures ScanLines(lines, maxColumns).Some? <==> LettersInColumns(lines, maxColumns)
    ensures ScanLines(lines, maxColumns).Some? ==>
              forall n :: 1 <= n <= maxColumns ==>
                Lookup(ScanLines(lines, maxColumns).value, n) == ColumnLetters(lines, 1 + 4 * (n - 1))
  {
    if lines != [] {
      var front := lines[..|lines| - 1];
      var line := lines[|lines| - 1];
      StacksAreColumns(front, maxColumns);
      assert LettersInColumns(lines, maxColumns) <==>
             LettersInColumns(front, maxColumns)
             && forall j :: 0 <= j < |line| && IsCrateLetter(line[j]) ==> ColumnAt(j, maxColumns).Some? by {
        assert forall i :: 0 <= i < |front| ==> front[i] == lines[i];
      }
      if ScanLines(front, maxColumns).Some? {
        var before := ScanLines(front, maxColumns).value;
        ScanLineSucceeds(before, line, maxColumns, |line|);
        if ScanLines(lines, maxColumns).Some? {
          forall n | 1 <= n <= maxColumns
            ensures Lookup(ScanLines(lines, maxColumns).value, n) == ColumnLetters(lines, 1 + 4 * (n - 1))
          {
            ScanLineColumn(before, line, maxColumns, |line|, n);
          }
        }
      }
    }
  }
}
