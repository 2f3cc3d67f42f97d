/**
 * Day 11: monkeys pass items around.
 *
 * Every monkey holds a list of worry levels. On its turn it inspects each
 * item in order: the operation changes the worry level, relief bounds it
 * (floor division by 3 in part one, reduction modulo the product of all test
 * divisors in part two), the divisibility test picks the monkey the item is
 * thrown to, and the monkey's inspection counter goes up. Monkeys take their
 * turns in index order; a number of rounds is played; the answer is the
 * product of the two largest inspection counters.
 *
 * The pure functions below (Turn, Round, Rounds) specify the game on values;
 * the class Monkey and the method PlayRounds are the source's in-place loop,
 * proved to compute exactly Rounds.
 */
module Day11Monkeys {
  import opened GoStd

  /** `new = old <operator> delta`, where the operand is `old` itself when `isRecursive`. */
  datatype Operation = Operation(operator: string, delta: int, isRecursive: bool)

  /** Throw to `onPass` when the worry level is divisible by `delta`, else to `onFail`. */
  datatype Test = Test(delta: int, onPass: int, onFail: int)

  /** What a monkey does with an item; it never changes during the game. */
  datatype Rule = Rule(operation: Operation, test: Test)

  /** How worry levels are kept bounded after an operation: floor division by 3
      (part one) or Go's `%` by the product of all divisors (part two).
      `Unrelieved` has no counterpart in the source: it is part two as the puzzle
      states it, with unbounded worry, and serves as the reference the modular
      reduction is proved against. */
  datatype Relief = DivideByThree | ReduceModulo | Unrelieved

  function ReliefOf(partOne: bool): Relief
  {
    if partOne then DivideByThree else ReduceModulo
  }

  /** The rules of every monkey, in index order, and which relief applies. */
  datatype Game = Game(rules: seq<Rule>, relief: Relief)
  {
    /** Every operator is one the source accepts, no divisor is zero and every
        throw goes to an existing monkey. */
    predicate Valid()
    {
      forall i :: 0 <= i < |rules| ==> ValidRule(rules[i], |rules|)
    }
  }

  predicate ValidRule(rule: Rule, monkeyCount: int)
  {
    && (rule.operation.operator == "+" || rule.operation.operator == "*")
    && rule.test.delta != 0
    && 0 <= rule.test.onPass < monkeyCount
    && 0 <= rule.test.onFail < monkeyCount
  }

  /** What changes during the game: every monkey's items and inspection counter. */
  datatype State = State(items: seq<seq<int>>, counts: seq<nat>)

  predicate Shaped(g: Game, s: State)
  {
    |s.items| == |g.rules| && |s.counts| == |g.rules|
  }

  // ---------------------------------------------------------------------------
  // Arithmetic of one inspection

  /** Adding a multiple of `m` does not change the remainder modulo `m`. */
  lemma ModOfSum(q: int, m: int, r: int)
    requires m > 0
    ensures (q * m + r) % m == r % m
  {
    var x := q * m + r;
    assert x == (x / m) * m + x % m;
    assert r == (r / m) * m + r % m;
    assert (q + r / m) * m == q * m + (r / m) * m;
    UniqueRemainder(x / m, q + r / m, x % m, r % m, m);
  }

  /** Two Euclidean decompositions by the same `m` have the same remainder. */
  lemma UniqueRemainder(a: int, b: int, s: int, t: int, m: int)
    requires m > 0 && 0 <= s < m && 0 <= t < m
    requires a * m + s == b * m + t
    ensures s == t
  {
    var k := a - b;
    assert k * m == t - s;
    if k != 0 {
      MultipleAtLeast(k, m);
      assert false;
    }
  }

  /** A non-zero multiple of a positive `m` is at least `m` away from zero. */
  lemma MultipleAtLeast(k: int, m: int)
    requires m > 0 && k != 0
    ensures k * m >= m || k * m <= -m
  {
    if k > 0 {
      PositiveMultipleAtLeast(k, m);
    } else {
      PositiveMultipleAtLeast(-k, m);
      assert k * m == -((-k) * m);
    }
  }

  lemma {:induction false} PositiveMultipleAtLeast(k: nat, m: int)
    requires m > 0 && k >= 1
    ensures k * m >= m
  {
    if k > 1 {
      PositiveMultipleAtLeast(k - 1, m);
      assert k * m == (k - 1) * m + m;
    }
  }

  /** Go's `%`: the remainder of truncating division, with the sign of `a`. */
  function GoRem(a: int, b: int): (r: int)
    requires b != 0
    ensures a >= 0 ==> 0 <= r < Abs(b)
    ensures a < 0 ==> 0 <= -r < Abs(b)
  {
    if a >= 0 then a % Abs(b) else -((-a) % Abs(b))
  }

  /** `a` and `GoRem(a, b)` differ by a multiple of `b`. */
  lemma GoRemCongruent(a: int, b: int)
    requires b != 0
    ensures (a - GoRem(a, b)) % Abs(b) == 0
  {
    var m := Abs(b);
    if a >= 0 {
      ModOfSum(a / m, m, 0);
      assert a - a % m == (a / m) * m;
    } else {
      ModOfSum(-((-a) / m), m, 0);
      assert (-a) - (-a) % m == ((-a) / m) * m;
      assert a - GoRem(a, b) == -((-a) / m) * m;
    }
  }

  /** The operation applied to a worry level; `None` for any operator other than `+` and `*`,
      which the source treats as fatal. */
  function Inspect(op: Operation, worry: int): Option<int>
  {
    var delta := if op.isRecursive then worry else op.delta;
    if op.operator == "+" then Some(worry + delta)
    else if op.operator == "*" then Some(worry * delta)
    else None
  }

  /** `old + c`, `old * c`, `old + old` or `old * old`; no result for any other operator. */
  lemma InspectMeans(op: Operation, worry: int)
    ensures Inspect(op, worry).Some? <==> op.operator == "+" || op.operator == "*"
    ensures op.operator == "+" && !op.isRecursive ==> Inspect(op, worry) == Some(worry + op.delta)
    ensures op.operator == "*" && !op.isRecursive ==> Inspect(op, worry) == Some(worry * op.delta)
    ensures op.operator == "+" && op.isRecursive ==> Inspect(op, worry) == Some(2 * worry)
    ensures op.operator == "*" && op.isRecursive ==> Inspect(op, worry) == Some(worry * worry)
  {
  }

  /** Relief: floor division by 3 in part one, Go's `%` by the dividend in part two. */
  function Relieve(worry: int, relief: Relief, dividend: int): (r: int)
    requires dividend != 0
    ensures relief == DivideByThree ==> 3 * r <= worry < 3 * r + 3
    ensures relief == ReduceModulo ==> (worry - r) % Abs(dividend) == 0
    ensures relief == ReduceModulo && worry >= 0 ==> 0 <= r < Abs(dividend)
    ensures relief == Unrelieved ==> r == worry
  {
    match relief
    case DivideByThree => worry / 3
    case ReduceModulo =>
      GoRemCongruent(worry, dividend);
      GoRem(worry, dividend)
    case Unrelieved => worry
  }

  /** The product of every monkey's test divisor, multiplied up in index order. */
  function Dividend(rules: seq<Rule>): (product: int)
    ensures (forall i :: 0 <= i < |rules| ==> rules[i].test.delta != 0) ==> product != 0
  {
    if rules == [] then 1 else Dividend(rules[..|rules| - 1]) * rules[|rules| - 1].test.delta
  }

  /** The worry level an item leaves monkey `j` with: operation, then relief. */
  function NewWorry(g: Game, j: nat, worry: int): int
    requires g.Valid() && j < |g.rules|
  {
    Relieve(Inspect(g.rules[j].operation, worry).value, g.relief, Dividend(g.rules))
  }

  /** The monkey the test sends a worry level to. */
  function Target(test: Test, worry: int): int
    requires test.delta != 0
  {
    if GoRem(worry, test.delta) == 0 then test.onPass else test.onFail
  }

  // ---------------------------------------------------------------------------
  // The game on values

  /** Monkey `j` inspects one item and appends it to the back of its target's list. */
  function Throw(g: Game, j: nat, worry: int, items: seq<seq<int>>): (r: seq<seq<int>>)
    requires g.Valid() && j < |g.rules| && |items| == |g.rules|
    ensures |r| == |items|
  {
    var v := NewWorry(g, j, worry);
    var t := Target(g.rules[j].test, v);
    items[t := items[t] + [v]]
  }

  /** Monkey `j` inspects the items `ws` in order. */
  function ThrowAll(g: Game, j: nat, ws: seq<int>, items: seq<seq<int>>): (r: seq<seq<int>>)
    requires g.Valid() && j < |g.rules| && |items| == |g.rules|
    ensures |r| == |items|
    decreases |ws|
  {
    if ws == [] then items
    else ThrowAll(g, j, ws[1..], Throw(g, j, ws[0], items))
  }

  /** Monkey `j`'s turn: it inspects the list it holds when the turn starts, then
      its list is reset, which drops anything it threw to itself meanwhile. */
  function Turn(g: Game, j: nat, s: State): (r: State)
    requires g.Valid() && j < |g.rules| && Shaped(g, s)
    ensures Shaped(g, r)
  {
    var snapshot := s.items[j];
    var thrown := ThrowAll(g, j, snapshot, s.items);
    State(thrown[j := []], s.counts[j := s.counts[j] + |snapshot|])
  }

  /** The turns of monkeys `0 .. k-1` of one round. */
  function RoundUpTo(g: Game, s: State, k: nat): (r: State)
    requires g.Valid() && Shaped(g, s) && k <= |g.rules|
    ensures Shaped(g, r)
  {
    if k == 0 then s else Turn(g, k - 1, RoundUpTo(g, s, k - 1))
  }

  /** The first `k` turns are the first `k - 1` turns, then monkey `k - 1`'s. */
  lemma RoundUpToStep(g: Game, s: State, k: nat)
    requires g.Valid() && Shaped(g, s) && 0 < k <= |g.rules|
    ensures RoundUpTo(g, s, k) == Turn(g, k - 1, RoundUpTo(g, s, k - 1))
  {
  }

  function Round(g: Game, s: State): (r: State)
    requires g.Valid() && Shaped(g, s)
    ensures Shaped(g, r)
  {
    RoundUpTo(g, s, |g.rules|)
  }

  function Rounds(g: Game, s: State, n: nat): (r: State)
    requires g.Valid() && Shaped(g, s)
    ensures Shaped(g, r)
  {
    if n == 0 then s else Round(g, Rounds(g, s, n - 1))
  }

  // ---------------------------------------------------------------------------
  // The answer: the product of the two largest counters

  /** The two largest counters, as a descending sort puts them at the front. */
  function TopTwo(counts: seq<nat>): (top: (nat, nat))
    requires |counts| >= 2
    ensures top.0 >= top.1
    ensures exists i, k :: 0 <= i < |counts| && 0 <= k < |counts| && i != k
                           && counts[i] == top.0 && counts[k] == top.1
    ensures forall i :: 0 <= i < |counts| ==> counts[i] <= top.0
    ensures forall i, k :: 0 <= i < k < |counts| ==> counts[i] <= top.1 || counts[k] <= top.1
  {
    if |counts| == 2 then
      if counts[0] >= counts[1] then (counts[0], counts[1]) else (counts[1], counts[0])
    else
      var rest := TopTwo(counts[..|counts| - 1]);
      var c := counts[|counts| - 1];
      if c >= rest.0 then (c, rest.0)
      else if c >= rest.1 then (rest.0, c)
      else rest
  }

  /** The monkey business: the product of the two largest inspection counters. */
  function MonkeyBusiness(counts: seq<nat>): nat
    requires |counts| >= 2
  {
    var top := TopTwo(counts);
    top.0 * top.1
  }

  // ---------------------------------------------------------------------------
  // The source's in-place simulation

  class Monkey {
    const index: int
    var items: seq<int>
    const operation: Operation
    const test: Test
    var inspectedItems: nat

    constructor (index: int, items: seq<int>, operation: Operation, test: Test)
      ensures this.index == index && this.items == items
      ensures this.operation == operation && this.test == test
      ensures inspectedItems == 0
    {
      this.index := index;
      this.items := items;
      this.operation := operation;
      this.test := test;
      this.inspectedItems := 0;
    }
  }

  /** Every monkey is stored at the position of its own index, so that the
      source's lookup by index is a lookup by position; it also makes the
      monkeys distinct objects, since two positions hold different indices. */
  predicate Troop(monkeys: seq<Monkey>)
  {
    forall i :: 0 <= i < |monkeys| ==> monkeys[i].index == i
  }

  function RulesOf(monkeys: seq<Monkey>): (rules: seq<Rule>)
    ensures |rules| == |monkeys|
  {
    seq(|monkeys|, i requires 0 <= i < |monkeys| => Rule(monkeys[i].operation, monkeys[i].test))
  }

  function StateOf(monkeys: seq<Monkey>): (s: State)
    reads monkeys
    ensures |s.items| == |monkeys| && |s.counts| == |monkeys|
  {
    State(seq(|monkeys|, i reads monkeys requires 0 <= i < |monkeys| => monkeys[i].items),
          seq(|monkeys|, i reads monkeys requires 0 <= i < |monkeys| => monkeys[i].inspectedItems))
  }

  /** The product of all test divisors, accumulated in the order the monkeys are listed. */
  method ComputeDividend(monkeys: seq<Monkey>) returns (dividend: int)
    ensures dividend == Dividend(RulesOf(monkeys))
  {
    dividend := 1;
    for i := 0 to |monkeys|
      invariant dividend == Dividend(RulesOf(monkeys)[..i])
    {
      assert RulesOf(monkeys)[..i + 1][..i] == RulesOf(monkeys)[..i];
      dividend := dividend * monkeys[i].test.delta;
    }
    assert RulesOf(monkeys)[..|monkeys|] == RulesOf(monkeys);
  }

  /** The worry level after the monkey's operation and relief, computed as the
      source does: the operand is the worry level itself for `old`. */
  method ApplyOperation(operation: Operation, worry: int, partOne: bool, dividend: int) returns (worryLevel: int)
    requires operation.operator == "+" || operation.operator == "*"
    requires dividend != 0
    ensures worryLevel == Relieve(Inspect(operation, worry).value, ReliefOf(partOne), dividend)
  {
    worryLevel := worry;
    var delta := operation.delta;
    if operation.isRecursive {
      delta := worryLevel;
    }
    if operation.operator == "+" {
      worryLevel := worryLevel + delta;
    } else {
      worryLevel := worryLevel * delta;
    }
    if partOne {
      worryLevel := worryLevel / 3;
    } else {
      worryLevel := GoRem(worryLevel, dividend);
    }
  }

  /** Monkey `j` inspects one item: operation, relief, test, then the item is
      appended to the target monkey's list and `j`'s counter goes up. */
  method InspectItem(monkeys: seq<Monkey>, j: nat, worry: int, partOne: bool, dividend: int)
    requires Troop(monkeys) && Game(RulesOf(monkeys), ReliefOf(partOne)).Valid() && j < |monkeys|
    requires dividend == Dividend(RulesOf(monkeys))
    modifies monkeys
    ensures StateOf(monkeys).items == Throw(Game(RulesOf(monkeys), ReliefOf(partOne)), j, worry, old(StateOf(monkeys)).items)
    ensures StateOf(monkeys).counts == old(StateOf(monkeys)).counts[j := old(StateOf(monkeys)).counts[j] + 1]
  {
    ghost var g := Game(RulesOf(monkeys), ReliefOf(partOne));
    var monkey := monkeys[j];
    assert g.rules[j] == Rule(monkey.operation, monkey.test);
    var worryLevel := ApplyOperation(monkey.operation, worry, partOne, dividend);
    var next := if GoRem(worryLevel, monkey.test.delta) == 0 then monkey.test.onPass else monkey.test.onFail;
    assert next == Target(g.rules[j].test, NewWorry(g, j, worry));
    ghost var before := StateOf(monkeys);
    var nextMonkey := monkeys[next];
    nextMonkey.items := nextMonkey.items + [worryLevel];
    monkey.inspectedItems := monkey.inspectedItems + 1;
    assert StateOf(monkeys).items == before.items[next := before.items[next] + [worryLevel]];
  }

  /** Monkey `j` inspects the items of `snapshot` in order. */
  method InspectAll(monkeys: seq<Monkey>, j: nat, snapshot: seq<int>, partOne: bool, dividend: int)
    requires Troop(monkeys) && Game(RulesOf(monkeys), ReliefOf(partOne)).Valid() && j < |monkeys|
    requires dividend == Dividend(RulesOf(monkeys))
    modifies monkeys
    ensures StateOf(monkeys).items == ThrowAll(Game(RulesOf(monkeys), ReliefOf(partOne)), j, snapshot, old(StateOf(monkeys)).items)
    ensures StateOf(monkeys).counts == old(StateOf(monkeys)).counts[j := old(StateOf(monkeys)).counts[j] + |snapshot|]
  {
    ghost var g := Game(RulesOf(monkeys), ReliefOf(partOne));
    ghost var start := StateOf(monkeys);
    for k := 0 to |snapshot|
      invariant |StateOf(monkeys).items| == |g.rules|
      invariant ThrowAll(g, j, snapshot[k..], StateOf(monkeys).items) == ThrowAll(g, j, snapshot, start.items)
      invariant StateOf(monkeys).counts == start.counts[j := start.counts[j] + k]
    {
      ThrowAllStep(g, j, snapshot, k, StateOf(monkeys).items);
      InspectItem(monkeys, j, snapshot[k], partOne, dividend);
    }
  }

  /** Throwing the items of `ws` from `k` on is throwing `ws[k]`, then the rest. */
  lemma ThrowAllStep(g: Game, j: nat, ws: seq<int>, k: nat, items: seq<seq<int>>)
    requires g.Valid() && j < |g.rules| && |items| == |g.rules| && k < |ws|
    ensures ThrowAll(g, j, ws[k..], items) == ThrowAll(g, j, ws[k + 1..], Throw(g, j, ws[k], items))
  {
    assert ws[k..][1..] == ws[k + 1..];
  }

  /** Monkey `j`'s turn: the items it holds now are inspected in order, then its
      list is reset. Items it throws to itself meanwhile are not in the snapshot
      the source ranges over, and the reset drops them. */
  method TakeTurn(monkeys: seq<Monkey>, j: nat, partOne: bool, dividend: int)
    requires Troop(monkeys) && Game(RulesOf(monkeys), ReliefOf(partOne)).Valid() && j < |monkeys|
    requires dividend == Dividend(RulesOf(monkeys))
    modifies monkeys
    ensures StateOf(monkeys) == Turn(Game(RulesOf(monkeys), ReliefOf(partOne)), j, old(StateOf(monkeys)))
  {
    ghost var g := Game(RulesOf(monkeys), ReliefOf(partOne));
    ghost var start := StateOf(monkeys);
    var monkey := monkeys[j];
    assert monkey.items == start.items[j];
    InspectAll(monkeys, j, monkey.items, partOne, dividend);
    ghost var before := StateOf(monkeys);
    monkey.items := [];
    assert StateOf(monkeys).items == before.items[j := []];
    assert StateOf(monkeys).counts == before.counts;
    assert Turn(g, j, start) == State(before.items[j := []], before.counts);
  }

  /** One round: every monkey takes its turn, in index order. */
  method PlayRound(monkeys: seq<Monkey>, partOne: bool, dividend: int)
    requires Troop(monkeys) && Game(RulesOf(monkeys), ReliefOf(partOne)).Valid()
    requires dividend == Dividend(RulesOf(monkeys))
    modifies monkeys
    ensures StateOf(monkeys) == Round(Game(RulesOf(monkeys), ReliefOf(partOne)), old(StateOf(monkeys)))
  {
    ghost var g := Game(RulesOf(monkeys), ReliefOf(partOne));
    ghost var start := StateOf(monkeys);
    ghost var state := start;
    for j := 0 to |monkeys|
      invariant Shaped(g, state) && StateOf(monkeys) == state
      invariant state == RoundUpTo(g, start, j)
    {
      TakeTurn(monkeys, j, partOne, dividend);
      RoundUpToStep(g, start, j + 1);
      state := Turn(g, j, state);
    }
  }

  /** Plays `rounds` rounds in place, after computing the dividend once. */
  method PlayRounds(monkeys: seq<Monkey>, rounds: nat, partOne: bool)
    requires Troop(monkeys) && Game(RulesOf(monkeys), ReliefOf(partOne)).Valid()
    modifies monkeys
    ensures StateOf(monkeys) == Rounds(Game(RulesOf(monkeys), ReliefOf(partOne)), old(StateOf(monkeys)), rounds)
  {
    ghost var g := Game(RulesOf(monkeys), ReliefOf(partOne));
    var dividend := ComputeDividend(monkeys);
    for round := 0 to rounds
      invariant StateOf(monkeys) == Rounds(g, old(StateOf(monkeys)), round)
    {
      PlayRound(monkeys, partOne, dividend);
    }
  }

  /** The whole kernel: play the rounds, then multiply the two largest counters.
      The source panics with fewer than two monkeys. */
  method Simulate(monkeys: seq<Monkey>, rounds: nat, partOne: bool) returns (business: nat)
    requires Troop(monkeys) && Game(RulesOf(monkeys), ReliefOf(partOne)).Valid()
    requires |monkeys| >= 2
    modifies monkeys
    ensures StateOf(monkeys) == Rounds(Game(RulesOf(monkeys), ReliefOf(partOne)), old(StateOf(monkeys)), rounds)
    ensures business == MonkeyBusiness(StateOf(monkeys).counts)
  {
    PlayRounds(monkeys, rounds, partOne);
    business := MonkeyBusiness(StateOf(monkeys).counts);
  }
}
