/**
 * Day 9, "Rope Bridge": a rope's head moves step by step on a grid, the tail
 * (and, in part two, a chain of nine knots) follows by the rule of
 * `computeKnotPosition`, and the solution counts the distinct cells the tail
 * and the last of the nine knots visit.
 *
 * Rows grow downwards: "U" decreases the row, "D" increases it. Visited cells
 * are kept as a set of positions; the source keys a map by a string rendering
 * of the same pair.
 */
module Day9Rope {
  import opened GoStd

  datatype Position = Position(row: int, column: int)

  datatype Move = Move(direction: string, count: int)

  function Sign(x: int): int { if x > 0 then 1 else if x < 0 then -1 else 0 }

  function Max(a: nat, b: nat): nat { if a >= b then a else b }

  /** The number of king moves between two cells. */
  function Distance(a: Position, b: Position): nat
  {
    Max(Abs(a.row - b.row), Abs(a.column - b.column))
  }

  /** Overlapping or adjacent, horizontally, vertically or diagonally. */
  predicate Touching(a: Position, b: Position)
  {
    Distance(a, b) <= 1
  }

  /** The rule of the puzzle, stated once: a knot that no longer touches the
      knot ahead of it takes one step towards it along each axis on which they differ. */
  function Follow(head: Position, tail: Position): Position
  {
    if Touching(head, tail) then tail
    else Position(tail.row + Sign(head.row - tail.row), tail.column + Sign(head.column - tail.column))
  }

  // ---------------------------------------------------------------------------
  // computeKnotPosition

  /** The diagonal catch-up at the end of `computeKnotPosition`. */
  function CatchUp(head: Position, tail: Position): Position
  {
    var row := if head.row > tail.row then tail.row + 1 else if head.row < tail.row then tail.row - 1 else tail.row;
    var column := if tail.column < head.column then tail.column + 1
                  else if tail.column > head.column then tail.column - 1
                  else tail.column;
    Position(row, column)
  }

  /** `computeKnotPosition`, branch by branch: the four touching cases, the
      straight two-step cases of the same row, then of the same column, and
      otherwise the diagonal catch-up. It is exactly the rule `Follow`. */
  function KnotPosition(head: Position, tail: Position): (r: Position)
    ensures r == Follow(head, tail)
  {
    var sameRow := head.row == tail.row;
    var sameColumn := head.column == tail.column;
    var columnGap := Abs(head.column - tail.column);
    var rowGap := Abs(head.row - tail.row);
    var touching := (sameRow && sameColumn) || (sameRow && columnGap == 1) || (sameColumn && rowGap == 1)
                    || (columnGap == 1 && rowGap == 1);
    if touching then tail
    else if sameRow then
      if head.column - tail.column == 2 then tail.(column := tail.column + 1)
      else if tail.column - head.column == 2 then tail.(column := tail.column - 1)
      else CatchUp(head, tail)
    else if sameColumn then
      if head.row - tail.row == 2 then tail.(row := tail.row + 1)
      else if tail.row - head.row == 2 then tail.(row := tail.row - 1)
      else CatchUp(head, tail)
    else CatchUp(head, tail)
  }

  /** A knot never moves more than one step, and one that falls behind closes
      the gap by exactly one. */
  lemma FollowCloses(head: Position, tail: Position)
    ensures Distance(tail, Follow(head, tail)) <= 1
    ensures Touching(head, tail) ==> Follow(head, tail) == tail
    ensures !Touching(head, tail) ==> Distance(head, Follow(head, tail)) + 1 == Distance(head, tail)
  {
  }

  /** A knot at most two steps away touches the knot ahead once it has followed. */
  lemma FollowRestoresTouch(head: Position, tail: Position)
    requires Distance(head, tail) <= 2
    ensures Touching(head, Follow(head, tail))
  {
    FollowCloses(head, tail);
  }

  lemma DistanceTriangle(a: Position, b: Position, c: Position)
    ensures Distance(a, c) <= Distance(a, b) + Distance(b, c)
  {
  }

  // ---------------------------------------------------------------------------
  // computeMultipleKnotPositions

  /** Every knot follows the new position of the knot ahead of it, the first one the head. */
  function FollowChain(head: Position, knots: seq<Position>): (r: seq<Position>)
    ensures |r| == |knots|
    decreases |knots|
  {
    if knots == [] then []
    else
      var first := KnotPosition(head, knots[0]);
      [first] + FollowChain(first, knots[1..])
  }

  /** The knot ahead of knot `i` in the moved chain: the head for the first one. */
  function Leader(head: Position, moved: seq<Position>, i: nat): Position
    requires i <= |moved|
  {
    if i == 0 then head else moved[i - 1]
  }

  /** Each knot of the moved chain is where it goes when following the one ahead. */
  lemma {:induction false} FollowChainLinks(head: Position, knots: seq<Position>, i: nat)
    requires i < |knots|
    ensures FollowChain(head, knots)[i] == KnotPosition(Leader(head, FollowChain(head, knots), i), knots[i])
    decreases i
  {
    if i > 0 {
      var first := KnotPosition(head, knots[0]);
      FollowChainLinks(first, knots[1..], i - 1);
    }
  }

  /** `computeMultipleKnotPositions`: fills a fresh slice front to back. */
  method MoveKnots(head: Position, knots: seq<Position>) returns (result: seq<Position>)
    ensures result == FollowChain(head, knots)
  {
    ghost var chain := FollowChain(head, knots);
    var moved := new Position[|knots|](_ => head);
    for idx := 0 to |knots|
      invariant moved[..idx] == chain[..idx]
    {
      FollowChainLinks(head, knots, idx);
      if idx == 0 {
        moved[idx] := KnotPosition(head, knots[idx]);
      } else {
        moved[idx] := KnotPosition(moved[idx - 1], knots[idx]);
      }
      assert moved[..idx + 1] == moved[..idx] + [chain[idx]];
      assert chain[..idx + 1] == chain[..idx] + [chain[idx]];
    }
    assert chain[..|knots|] == chain;
    result := moved[..];
  }

  /** Consecutive knots touch, and the first touches the head. */
  predicate Connected(head: Position, knots: seq<Position>)
  {
    && (|knots| > 0 ==> Touching(head, knots[0]))
    && forall i :: 0 < i < |knots| ==> Touching(knots[i - 1], knots[i])
  }

  /** A connected chain whose head has moved one step is connected again once
      every knot has followed. */
  lemma {:induction false} FollowChainConnects(head: Position, knots: seq<Position>)
    requires |knots| > 0 ==> Distance(head, knots[0]) <= 2
    requires forall i :: 0 < i < |knots| ==> Touching(knots[i - 1], knots[i])
    ensures Connected(head, FollowChain(head, knots))
    decreases |knots|
  {
    if knots != [] {
      var first := KnotPosition(head, knots[0]);
      FollowRestoresTouch(head, knots[0]);
      var rest := knots[1..];
      if rest != [] {
        FollowCloses(head, knots[0]);
        DistanceTriangle(first, knots[0], rest[0]);
      }
      assert forall i :: 0 < i < |rest| ==> Touching(rest[i - 1], rest[i]) by {
        forall i | 0 < i < |rest| ensures Touching(rest[i - 1], rest[i]) {
          assert rest[i - 1] == knots[i] && rest[i] == knots[i + 1];
        }
      }
      FollowChainConnects(first, rest);
      var r := FollowChain(head, knots);
      assert r == [first] + FollowChain(first, rest);
      forall i | 0 < i < |r| ensures Touching(r[i - 1], r[i]) {
        if i > 1 {
          assert r[i - 1] == FollowChain(first, rest)[i - 2] && r[i] == FollowChain(first, rest)[i - 1];
        }
      }
    }
  }

  // ---------------------------------------------------------------------------
  // The simulation

  /** The head, the part-one tail, the nine knots of part two and the cells marked so far. */
  datatype Rope = Rope(head: Position, tail: Position, knots: seq<Position>,
                       tailVisited: set<Position>, lastVisited: set<Position>)

  const KnotCount: nat := 9

  /** Every knot on the start cell, nothing marked yet: cells are marked after each step. */
  function Initial(start: Position): (r: Rope)
    ensures |r.knots| == KnotCount
  {
    Rope(start, start, seq(KnotCount, _ => start), {}, {})
  }

  /** `direction` is the one-letter string `letter`; stated on the letter so that
      the simulation does not compare string literals. */
  predicate IsLetter(direction: string, letter: char)
  {
    |direction| == 1 && direction[0] == letter
  }

  predicate IsDirection(direction: string)
  {
    IsLetter(direction, 'R') || IsLetter(direction, 'L') || IsLetter(direction, 'U') || IsLetter(direction, 'D')
  }

  /** The directions are exactly the strings "R", "L", "U" and "D". */
  lemma IsDirectionMeans(direction: string)
    ensures IsDirection(direction) <==> direction in {"R", "L", "U", "D"}
  {
    if |direction| == 1 {
      assert direction == [direction[0]];
    }
  }

  /** One step of the head in a direction. */
  function StepHead(head: Position, direction: string): (r: Position)
    requires IsDirection(direction)
    ensures Distance(head, r) == 1
  {
    if IsLetter(direction, 'R') then head.(column := head.column + 1)
    else if IsLetter(direction, 'L') then head.(column := head.column - 1)
    else if IsLetter(direction, 'U') then head.(row := head.row - 1)
    else head.(row := head.row + 1)
  }

  /** One step of the head; the tail and the knots follow, and their cells are marked. */
  function Step(r: Rope, direction: string): (next: Rope)
    requires IsDirection(direction) && |r.knots| > 0
    ensures |next.knots| == |r.knots|
  {
    var head := StepHead(r.head, direction);
    var tail := KnotPosition(head, r.tail);
    var knots := FollowChain(head, r.knots);
    Rope(head, tail, knots, r.tailVisited + {tail}, r.lastVisited + {knots[|knots| - 1]})
  }

  /** `count` steps in one direction; a count below one takes none. */
  function Steps(r: Rope, direction: string, count: int): (next: Rope)
    requires IsDirection(direction) && |r.knots| > 0
    ensures |next.knots| == |r.knots|
    decreases count
  {
    if count <= 0 then r else Step(Steps(r, direction, count - 1), direction)
  }

  /** A move in an unknown direction is skipped. */
  function ApplyMove(r: Rope, move: Move): (next: Rope)
    requires |r.knots| > 0
    ensures |next.knots| == |r.knots|
  {
    if IsDirection(move.direction) then Steps(r, move.direction, move.count) else r
  }

  function ApplyMoves(r: Rope, moves: seq<Move>): (next: Rope)
    requires |r.knots| > 0
    ensures |next.knots| == |r.knots|
  {
    if moves == [] then r else ApplyMove(ApplyMoves(r, moves[..|moves| - 1]), moves[|moves| - 1])
  }

  /** The steps the head takes for a list of moves. */
  function StepCount(moves: seq<Move>): nat
  {
    if moves == [] then 0
    else
      var m := moves[|moves| - 1];
      StepCount(moves[..|moves| - 1]) + if IsDirection(m.direction) && m.count > 0 then m.count else 0
  }

  /** One step of the head: the tail follows and its cell is marked, then the
      knots follow and the last knot's cell is marked. */
  method StepOnce(r: Rope, direction: string) returns (next: Rope)
    requires IsDirection(direction) && |r.knots| > 0
    ensures next == Step(r, direction)
  {
    var head := StepHead(r.head, direction);
    var tail := KnotPosition(head, r.tail);
    var tailVisited := r.tailVisited + {tail};
    var knots := MoveKnots(head, r.knots);
    var lastKnot := knots[|knots| - 1];
    var lastVisited := r.lastVisited + {lastKnot};
    next := Rope(head, tail, knots, tailVisited, lastVisited);
  }

  /** The `count` steps of one move. */
  method StepRope(r: Rope, direction: string, count: int) returns (next: Rope)
    requires IsDirection(direction) && |r.knots| > 0
    ensures next == Steps(r, direction, count)
  {
    next := r;
    StepsNone(r, direction, 0);
    if count <= 0 {
      StepsNone(r, direction, count);
      return;
    }
    var i := 0;
    while i < count
      invariant 0 <= i <= count
      invariant next == Steps(r, direction, i)
    {
      var after := StepOnce(next, direction);
      StepsSucc(r, direction, i, after);
      next, i := after, i + 1;
    }
  }

  lemma StepsSucc(r: Rope, direction: string, i: int, after: Rope)
    requires IsDirection(direction) && |r.knots| > 0 && i >= 0
    requires after == Step(Steps(r, direction, i), direction)
    ensures after == Steps(r, direction, i + 1)
  {
  }

  lemma StepsNone(r: Rope, direction: string, count: int)
    requires IsDirection(direction) && |r.knots| > 0 && count <= 0
    ensures Steps(r, direction, count) == r
  {
  }

  /** The main loop over the moves; a move in an unknown direction does nothing. */
  method Simulate(moves: seq<Move>, start: Position) returns (tailVisited: set<Position>, lastVisited: set<Position>)
    ensures tailVisited == ApplyMoves(Initial(start), moves).tailVisited
    ensures lastVisited == ApplyMoves(Initial(start), moves).lastVisited
  {
    var rope := Rope(start, start, seq(KnotCount, _ => start), {}, {});
    for m := 0 to |moves|
      invariant rope == ApplyMoves(Initial(start), moves[..m])
    {
      assert moves[..m + 1][..m] == moves[..m];
      var move := moves[m];
      if IsDirection(move.direction) {
        rope := StepRope(rope, move.direction, move.count);
      }
    }
    assert moves[..|moves|] == moves;
    tailVisited, lastVisited := rope.tailVisited, rope.lastVisited;
  }

  // ---------------------------------------------------------------------------
  // What the simulation keeps

  /** The tail touches the head, and the knots form a connected rope behind it. */
  predicate Taut(r: Rope)
  {
    Touching(r.head, r.tail) && Connected(r.head, r.knots)
  }

  lemma StepKeepsTaut(r: Rope, direction: string)
    requires IsDirection(direction) && |r.knots| > 0 && Taut(r)
    ensures Taut(Step(r, direction))
  {
    var head := StepHead(r.head, direction);
    DistanceTriangle(head, r.head, r.tail);
    FollowRestoresTouch(head, r.tail);
    DistanceTriangle(head, r.head, r.knots[0]);
    FollowChainConnects(head, r.knots);
  }

  lemma {:induction false} StepsKeepTaut(r: Rope, direction: string, count: int)
    requires IsDirection(direction) && |r.knots| > 0 && Taut(r)
    ensures Taut(Steps(r, direction, count))
    decreases count
  {
    if count > 0 {
      StepsKeepTaut(r, direction, count - 1);
      StepKeepsTaut(Steps(r, direction, count - 1), direction);
    }
  }

  /** However the head moves, the rope never comes apart. */
  lemma {:induction false} MovesKeepTaut(start: Position, moves: seq<Move>)
    ensures Taut(ApplyMoves(Initial(start), moves))
  {
    if moves == [] {
      var r := Initial(start);
      assert forall i :: 0 < i < |r.knots| ==> r.knots[i] == start;
    } else {
      MovesKeepTaut(start, moves[..|moves| - 1]);
      var m := moves[|moves| - 1];
      if IsDirection(m.direction) {
        StepsKeepTaut(ApplyMoves(Initial(start), moves[..|moves| - 1]), m.direction, m.count);
      }
    }
  }

  /** Part one's tail and part two's first knot follow the same head from the
      same cell, so they are always in the same place. */
  lemma {:induction false} FirstKnotIsTail(start: Position, moves: seq<Move>)
    ensures ApplyMoves(Initial(start), moves).knots[0] == ApplyMoves(Initial(start), moves).tail
  {
    if moves != [] {
      FirstKnotIsTail(start, moves[..|moves| - 1]);
      var m := moves[|moves| - 1];
      if IsDirection(m.direction) {
        StepsKeepFirstKnot(ApplyMoves(Initial(start), moves[..|moves| - 1]), m.direction, m.count);
      }
    }
  }

  lemma {:induction false} StepsKeepFirstKnot(r: Rope, direction: string, count: int)
    requires IsDirection(direction) && |r.knots| > 0 && r.knots[0] == r.tail
    ensures Steps(r, direction, count).knots[0] == Steps(r, direction, count).tail
    decreases count
  {
    if count > 0 {
      StepsKeepFirstKnot(r, direction, count - 1);
    }
  }

  /** Each step marks at most one new cell for each of the two knots, and the
      marks are never removed. */
  lemma {:induction false} StepsMarkAtMostOnePerStep(r: Rope, direction: string, count: int)
    requires IsDirection(direction) && |r.knots| > 0
    ensures var next := Steps(r, direction, count);
            && r.tailVisited <= next.tailVisited && r.lastVisited <= next.lastVisited
            && |next.tailVisited| <= |r.tailVisited| + (if count > 0 then count else 0)
            && |next.lastVisited| <= |r.lastVisited| + (if count > 0 then count else 0)
    decreases count
  {
    if count > 0 {
      StepsMarkAtMostOnePerStep(r, direction, count - 1);
    }
  }

  /** Neither answer exceeds the number of steps the head takes. */
  lemma {:induction false} VisitedAtMostSteps(start: Position, moves: seq<Move>)
    ensures |ApplyMoves(Initial(start), moves).tailVisited| <= StepCount(moves)
    ensures |ApplyMoves(Initial(start), moves).lastVisited| <= StepCount(moves)
  {
    if moves != [] {
      VisitedAtMostSteps(start, moves[..|moves| - 1]);
      var m := moves[|moves| - 1];
      if IsDirection(m.direction) {
        StepsMarkAtMostOnePerStep(ApplyMoves(Initial(start), moves[..|moves| - 1]), m.direction, m.count);
      }
    }
  }

  /** After a step, the cells the tail and the last knot stand on are marked. */
  lemma StepMarksCurrent(r: Rope, direction: string)
    requires IsDirection(direction) && |r.knots| > 0
    ensures Step(r, direction).tail in Step(r, direction).tailVisited
    ensures Step(r, direction).knots[|r.knots| - 1] in Step(r, direction).lastVisited
    ensures r.tailVisited <= Step(r, direction).tailVisited
  {
  }

  // ---------------------------------------------------------------------------
  // Reading the moves

  /** One line "<direction> <count>"; a line without a space makes the source
      index out of range, and a count `Atoi` rejects stops it. */
  function ParseMove(line: string): (r: Option<Move>)
    ensures r.Some? <==> |Split(line, ' ')| >= 2 && AtoiAccepts(Split(line, ' ')[1])
    ensures r.Some? ==> r.value.direction == Split(line, ' ')[0] && ' ' !in r.value.direction
  {
    SplitSeparatorFree(line, ' ');
    var parts := Split(line, ' ');
    if |parts| < 2 then None
    else
      match Atoi(parts[1])
      case None => None
      case Some(count) => Some(Move(parts[0], count))
  }

  /** A move written out as the puzzle input writes it is read back. */
  lemma ParseMoveWritten(direction: string, count: int)
    requires ' ' !in direction
    ensures ParseMove(direction + " " + Itoa(count)) == Some(Move(direction, count))
  {
    var digits := Itoa(count);
    assert ' ' !in digits by {
      if count < 0 {
        assert digits == "-" + NatDigits(-count);
      }
    }
    SplitJoin([direction, digits], ' ');
    assert Join([direction, digits], [' ']) == direction + [' '] + Join([digits], [' ']);
    assert direction + " " + digits == direction + [' '] + digits;
    AtoiItoa(count);
  }

  /** The reading loop of `main`: every line must parse. */
  method ParseMoves(lines: seq<string>) returns (moves: Option<seq<Move>>)
    ensures moves.Some? <==> forall i :: 0 <= i < |lines| ==> ParseMove(lines[i]).Some?
    ensures moves.Some? ==> |moves.value| == |lines|
                            && forall i :: 0 <= i < |lines| ==> Some(moves.value[i]) == ParseMove(lines[i])
  {
    var parsed: seq<Move> := [];
    for i := 0 to |lines|
      invariant |parsed| == i
      invariant forall k :: 0 <= k < i ==> Some(parsed[k]) == ParseMove(lines[k])
    {
      var move := ParseMove(lines[i]);
      if move.None? {
        return None;
      }
      parsed := parsed + [move.value];
    }
    moves := Some(parsed);
  }

  /** The whole program once the grid is laid out: read the moves, start every
      knot on the `start` cell, and count the cells the tail and the last knot visit. */
  method Solve(lines: seq<string>, start: Position) returns (answer: Option<(nat, nat)>)
    ensures answer.Some? <==> forall i :: 0 <= i < |lines| ==> ParseMove(lines[i]).Some?
    ensures answer.Some? ==> exists moves: seq<Move> ::
              && |moves| == |lines|
              && (forall i :: 0 <= i < |lines| ==> Some(moves[i]) == ParseMove(lines[i]))
              && var final := ApplyMoves(Initial(start), moves);
                 answer.value == (|final.tailVisited|, |final.lastVisited|)
  {
    var parsed := ParseMoves(lines);
    if parsed.None? {
      return None;
    }
    var moves := parsed.value;
    var tailVisited, lastVisited := Simulate(moves, start);
    answer := Some((|tailVisited|, |lastVisited|));
  }
}
