/**
 * Properties of the day 11 game: routing is unchanged by the modular
 * reduction, every inspected item lands exactly once at the back of one list,
 * counters only grow, items are conserved unless a monkey throws to itself,
 * and the visiting order decides whether a thrown item is inspected in the
 * same round or the next.
 */
module Day11Properties {
  import opened GoStd
  import opened Day11Monkeys

  // ---------------------------------------------------------------------------
  // Divisibility under reduction

  lemma ModOfMod(n: nat, m: nat, d: nat)
    requires d > 0 && m > 0 && m % d == 0
    ensures (n % m) % d == n % d
  {
    var q := n / m;
    var k := m / d;
    assert m == k * d;
    assert q * m == (q * k) * d;
    ModOfSum(q * k, d, n % m);
  }

  lemma GoRemOfGoRem(w: int, m: int, d: int)
    requires m != 0 && d != 0 && Abs(m) % Abs(d) == 0
    ensures GoRem(GoRem(w, m), d) == GoRem(w, d)
  {
    if w >= 0 {
      GoRemOfGoRemNonNegative(w, m, d);
    } else {
      GoRemOfGoRemNegative(w, m, d);
    }
  }

  lemma GoRemOfGoRemNonNegative(w: int, m: int, d: int)
    requires w >= 0 && m != 0 && d != 0 && Abs(m) % Abs(d) == 0
    ensures GoRem(GoRem(w, m), d) == GoRem(w, d)
  {
    var x := w % Abs(m);
    assert GoRem(w, m) == x;
    ModOfMod(w, Abs(m), Abs(d));
  }

  lemma GoRemOfGoRemNegative(w: int, m: int, d: int)
    requires w < 0 && m != 0 && d != 0 && Abs(m) % Abs(d) == 0
    ensures GoRem(GoRem(w, m), d) == GoRem(w, d)
  {
    var x := (-w) % Abs(m);
    assert GoRem(w, m) == -x;
    ModOfMod(-w, Abs(m), Abs(d));
    if x == 0 {
      assert GoRem(-x, d) == 0;
    } else {
      assert GoRem(-x, d) == -(x % Abs(d));
    }
  }

  lemma AbsMul(x: int, y: int)
    ensures Abs(x * y) == Abs(x) * Abs(y)
  {
    if x < 0 && y >= 0 {
      assert x * y == -((-x) * y);
    } else if x >= 0 && y < 0 {
      assert x * y == -(x * (-y));
    } else if x < 0 && y < 0 {
      assert x * y == (-x) * (-y);
    }
  }

  /** A multiple of `d` times anything is a multiple of `d`. */
  lemma MultipleTimes(x: int, y: int, d: nat)
    requires d > 0 && x % d == 0
    ensures (x * y) % d == 0
  {
    var q := x / d;
    assert x == q * d;
    assert x * y == (q * y) * d;
    ModOfSum(q * y, d, 0);
  }

  /** Every test divisor divides the dividend. */
  lemma {:induction false} DivisorDividesDividend(rules: seq<Rule>, i: nat)
    requires forall k :: 0 <= k < |rules| ==> rules[k].test.delta != 0
    requires i < |rules|
    ensures Abs(Dividend(rules)) % Abs(rules[i].test.delta) == 0
  {
    var prefix := rules[..|rules| - 1];
    var last := rules[|rules| - 1].test.delta;
    assert Dividend(rules) == Dividend(prefix) * last;
    AbsMul(Dividend(prefix), last);
    if i == |rules| - 1 {
      ModOfSum(Abs(Dividend(prefix)), Abs(last), 0);
    } else {
      DivisorDividesDividend(prefix, i);
      MultipleTimes(Abs(Dividend(prefix)), Abs(last), Abs(rules[i].test.delta));
    }
  }

  /** Reducing a worry level by the dividend leaves every monkey's test, and so
      every routing decision, unchanged. */
  lemma ReductionKeepsEveryTest(g: Game, w: int, i: nat)
    requires g.Valid() && i < |g.rules|
    ensures GoRem(GoRem(w, Dividend(g.rules)), g.rules[i].test.delta) == GoRem(w, g.rules[i].test.delta)
    ensures Target(g.rules[i].test, GoRem(w, Dividend(g.rules))) == Target(g.rules[i].test, w)
  {
    DivisorDividesDividend(g.rules, i);
    GoRemOfGoRem(w, Dividend(g.rules), g.rules[i].test.delta);
  }

  // ---------------------------------------------------------------------------
  // Congruence: the reduced game and the unrelieved game route alike

  predicate Congruent(a: int, b: int, m: nat)
  {
    m > 0 && (a - b) % m == 0
  }

  lemma CongruentTrans(a: int, b: int, c: int, m: nat)
    requires Congruent(a, b, m) && Congruent(b, c, m)
    ensures Congruent(a, c, m)
  {
    var q1 := (a - b) / m;
    var q2 := (b - c) / m;
    assert a - c == (q1 + q2) * m;
    ModOfSum(q1 + q2, m, 0);
  }

  lemma CongruentScale(a: int, b: int, c: int, m: nat)
    requires Congruent(a, b, m)
    ensures Congruent(a * c, b * c, m)
  {
    var q := (a - b) / m;
    assert a * c - b * c == (a - b) * c == (q * c) * m;
    ModOfSum(q * c, m, 0);
  }

  lemma CongruentSquare(a: int, b: int, m: nat)
    requires Congruent(a, b, m)
    ensures Congruent(a * a, b * b, m)
  {
    var q := (a - b) / m;
    assert a * a - b * b == (a - b) * (a + b) == (q * (a + b)) * m;
    ModOfSum(q * (a + b), m, 0);
  }

  /** The operation maps congruent worry levels to congruent worry levels. */
  lemma InspectCongruent(op: Operation, a: int, b: int, m: nat)
    requires op.operator == "+" || op.operator == "*"
    requires Congruent(a, b, m)
    ensures Congruent(Inspect(op, a).value, Inspect(op, b).value, m)
  {
    if op.operator == "*" {
      if op.isRecursive {
        CongruentSquare(a, b, m);
      } else {
        CongruentScale(a, b, op.delta, m);
      }
    } else if op.isRecursive {
      CongruentScale(a, b, 2, m);
    } else {
      assert Inspect(op, a).value - Inspect(op, b).value == a - b;
    }
  }

  /** Worry levels congruent modulo the dividend pass or fail every test alike. */
  lemma CongruentSameTarget(g: Game, i: nat, a: int, b: int)
    requires g.Valid() && i < |g.rules|
    requires Congruent(a, b, Abs(Dividend(g.rules)))
    ensures Target(g.rules[i].test, a) == Target(g.rules[i].test, b)
  {
    DivisorDividesDividend(g.rules, i);
    CongruentDivisor(a, b, Abs(Dividend(g.rules)), Abs(g.rules[i].test.delta));
    GoRemZero(a, g.rules[i].test.delta);
    GoRemZero(b, g.rules[i].test.delta);
  }

  /** Congruence modulo `m` implies congruence modulo any divisor of `m`. */
  lemma CongruentDivisor(a: int, b: int, m: nat, d: nat)
    requires d > 0 && Congruent(a, b, m) && m % d == 0
    ensures a % d == b % d
  {
    var q := (a - b) / m;
    var k := m / d;
    assert a == (q * k) * d + b by {
      assert a - b == q * m;
      assert m == k * d;
      assert q * m == (q * k) * d;
    }
    ModOfSum(q * k, d, b);
  }

  lemma NegatedMultiple(x: int, m: nat)
    requires m > 0 && x % m == 0
    ensures (-x) % m == 0
  {
    var q := x / m;
    assert -x == (-q) * m;
    ModOfSum(-q, m, 0);
  }

  /** Go's remainder is zero exactly when Dafny's is. */
  lemma GoRemZero(a: int, d: int)
    requires d != 0
    ensures (GoRem(a, d) == 0) == (a % Abs(d) == 0)
  {
    if a < 0 {
      if a % Abs(d) == 0 {
        NegatedMultiple(a, Abs(d));
      }
      if (-a) % Abs(d) == 0 {
        NegatedMultiple(-a, Abs(d));
      }
    }
  }

  predicate CongruentLists(xs: seq<int>, ys: seq<int>, m: nat)
  {
    |xs| == |ys| && forall k :: 0 <= k < |xs| ==> Congruent(xs[k], ys[k], m)
  }

  predicate CongruentItems(xs: seq<seq<int>>, ys: seq<seq<int>>, m: nat)
  {
    |xs| == |ys| && forall i :: 0 <= i < |xs| ==> CongruentLists(xs[i], ys[i], m)
  }

  predicate CongruentStates(s: State, t: State, m: nat)
  {
    CongruentItems(s.items, t.items, m) && s.counts == t.counts
  }

  /** After one inspection, the reduced worry level is congruent to the unrelieved one. */
  lemma NewWorryCongruent(rules: seq<Rule>, j: nat, a: int, b: int)
    requires Game(rules, ReduceModulo).Valid() && j < |rules|
    requires Congruent(a, b, Abs(Dividend(rules)))
    ensures Congruent(NewWorry(Game(rules, ReduceModulo), j, a), NewWorry(Game(rules, Unrelieved), j, b),
                      Abs(Dividend(rules)))
  {
    var m := Abs(Dividend(rules));
    var op := rules[j].operation;
    InspectCongruent(op, a, b, m);
    var x := Inspect(op, a).value;
    GoRemCongruent(x, Dividend(rules));
    NegatedMultiple(x - GoRem(x, Dividend(rules)), m);
    assert Congruent(GoRem(x, Dividend(rules)), x, m);
    CongruentTrans(GoRem(x, Dividend(rules)), x, Inspect(op, b).value, m);
  }

  lemma ThrowCongruent(rules: seq<Rule>, j: nat, a: int, b: int, xs: seq<seq<int>>, ys: seq<seq<int>>)
    requires Game(rules, ReduceModulo).Valid() && j < |rules| && |xs| == |rules|
    requires Congruent(a, b, Abs(Dividend(rules))) && CongruentItems(xs, ys, Abs(Dividend(rules)))
    ensures CongruentItems(Throw(Game(rules, ReduceModulo), j, a, xs), Throw(Game(rules, Unrelieved), j, b, ys),
                           Abs(Dividend(rules)))
  {
    var gm, gu := Game(rules, ReduceModulo), Game(rules, Unrelieved);
    NewWorryCongruent(rules, j, a, b);
    CongruentSameTarget(gm, j, NewWorry(gm, j, a), NewWorry(gu, j, b));
  }

  lemma {:induction false} ThrowAllCongruent(rules: seq<Rule>, j: nat, ws: seq<int>, vs: seq<int>,
                                             xs: seq<seq<int>>, ys: seq<seq<int>>)
    requires Game(rules, ReduceModulo).Valid() && j < |rules| && |xs| == |rules|
    requires CongruentLists(ws, vs, Abs(Dividend(rules))) && CongruentItems(xs, ys, Abs(Dividend(rules)))
    ensures CongruentItems(ThrowAll(Game(rules, ReduceModulo), j, ws, xs), ThrowAll(Game(rules, Unrelieved), j, vs, ys),
                           Abs(Dividend(rules)))
    decreases |ws|
  {
    if ws != [] {
      var m := Abs(Dividend(rules));
      assert CongruentLists(ws[1..], vs[1..], m) by {
        forall k | 0 <= k < |ws| - 1 ensures Congruent(ws[1..][k], vs[1..][k], m) {
          assert ws[1..][k] == ws[k + 1] && vs[1..][k] == vs[k + 1];
        }
      }
      assert Congruent(ws[0], vs[0], m);
      ThrowCongruent(rules, j, ws[0], vs[0], xs, ys);
      ThrowAllCongruent(rules, j, ws[1..], vs[1..],
                        Throw(Game(rules, ReduceModulo), j, ws[0], xs),
                        Throw(Game(rules, Unrelieved), j, vs[0], ys));
    }
  }

  lemma TurnCongruent(rules: seq<Rule>, j: nat, s: State, t: State)
    requires Game(rules, ReduceModulo).Valid() && j < |rules|
    requires Shaped(Game(rules, ReduceModulo), s)
    requires CongruentStates(s, t, Abs(Dividend(rules)))
    ensures Shaped(Game(rules, Unrelieved), t)
    ensures CongruentItems(Turn(Game(rules, ReduceModulo), j, s).items, Turn(Game(rules, Unrelieved), j, t).items,
                           Abs(Dividend(rules)))
    ensures Turn(Game(rules, ReduceModulo), j, s).counts == Turn(Game(rules, Unrelieved), j, t).counts
  {
    var m := Abs(Dividend(rules));
    var xs := ThrowAll(Game(rules, ReduceModulo), j, s.items[j], s.items);
    var ys := ThrowAll(Game(rules, Unrelieved), j, t.items[j], t.items);
    assert CongruentItems(xs[j := []], ys[j := []], m) by {
      ThrowAllCongruent(rules, j, s.items[j], t.items[j], s.items, t.items);
      EmptyingKeepsCongruence(xs, ys, j, m);
    }
    assert |s.items[j]| == |t.items[j]|;
    TurnSameCounts(Game(rules, ReduceModulo), Game(rules, Unrelieved), j, s, t);
  }

  /** Turns of the same monkey over lists of equal length raise the counters alike, whatever the relief. */
  lemma TurnSameCounts(g: Game, h: Game, j: nat, s: State, t: State)
    requires g.Valid() && h.Valid() && g.rules == h.rules && j < |g.rules| && Shaped(g, s) && Shaped(h, t)
    requires s.counts == t.counts && |s.items[j]| == |t.items[j]|
    ensures Turn(g, j, s).counts == Turn(h, j, t).counts
  {
  }

  lemma EmptyingKeepsCongruence(xs: seq<seq<int>>, ys: seq<seq<int>>, j: nat, m: nat)
    requires CongruentItems(xs, ys, m) && j < |xs|
    ensures CongruentItems(xs[j := []], ys[j := []], m)
  {
  }

  lemma {:induction false} RoundUpToCongruent(rules: seq<Rule>, s: State, t: State, k: nat)
    requires Game(rules, ReduceModulo).Valid() && k <= |rules|
    requires Shaped(Game(rules, ReduceModulo), s)
    requires CongruentStates(s, t, Abs(Dividend(rules)))
    ensures Shaped(Game(rules, Unrelieved), t)
    ensures CongruentStates(RoundUpTo(Game(rules, ReduceModulo), s, k), RoundUpTo(Game(rules, Unrelieved), t, k),
                            Abs(Dividend(rules)))
  {
    if k > 0 {
      RoundUpToCongruent(rules, s, t, k - 1);
      TurnCongruent(rules, k - 1, RoundUpTo(Game(rules, ReduceModulo), s, k - 1),
                    RoundUpTo(Game(rules, Unrelieved), t, k - 1));
    }
  }

  lemma {:induction false} RoundsCongruent(rules: seq<Rule>, s: State, t: State, n: nat)
    requires Game(rules, ReduceModulo).Valid()
    requires Shaped(Game(rules, ReduceModulo), s)
    requires CongruentStates(s, t, Abs(Dividend(rules)))
    ensures Shaped(Game(rules, Unrelieved), t)
    ensures CongruentStates(Rounds(Game(rules, ReduceModulo), s, n), Rounds(Game(rules, Unrelieved), t, n),
                            Abs(Dividend(rules)))
  {
    if n > 0 {
      RoundsCongruent(rules, s, t, n - 1);
      RoundUpToCongruent(rules, Rounds(Game(rules, ReduceModulo), s, n - 1),
                         Rounds(Game(rules, Unrelieved), t, n - 1), |rules|);
    }
  }

  /** Part two is sound: playing with worry levels reduced modulo the dividend
      gives every monkey exactly the inspection count it would have with
      unbounded worry levels, and the reduced levels stay congruent to the
      unbounded ones. */
  lemma ReductionKeepsCounts(rules: seq<Rule>, s: State, n: nat)
    requires Game(rules, ReduceModulo).Valid() && Shaped(Game(rules, ReduceModulo), s)
    ensures Rounds(Game(rules, ReduceModulo), s, n).counts == Rounds(Game(rules, Unrelieved), s, n).counts
    ensures CongruentStates(Rounds(Game(rules, ReduceModulo), s, n), Rounds(Game(rules, Unrelieved), s, n),
                            Abs(Dividend(rules)))
  {
    var m := Abs(Dividend(rules));
    forall i | 0 <= i < |s.items| ensures CongruentLists(s.items[i], s.items[i], m) {
      forall k | 0 <= k < |s.items[i]| ensures Congruent(s.items[i][k], s.items[i][k], m) {
      }
    }
    RoundsCongruent(rules, s, s, n);
  }

  // ---------------------------------------------------------------------------
  // Where inspected items go

  function TotalItems(items: seq<seq<int>>): nat
  {
    if items == [] then 0 else |items[0]| + TotalItems(items[1..])
  }

  lemma {:induction false} TotalItemsUpdate(items: seq<seq<int>>, i: nat, x: seq<int>)
    requires i < |items|
    ensures TotalItems(items[i := x]) + |items[i]| == TotalItems(items) + |x|
  {
    if i > 0 {
      TotalItemsUpdate(items[1..], i - 1, x);
      assert items[i := x][1..] == items[1..][i - 1 := x];
    } else {
      assert items[i := x][1..] == items[1..];
    }
  }

  /** The worry levels monkey `j` sends to monkey `i` while inspecting `ws`, in order. */
  function Sent(g: Game, j: nat, ws: seq<int>, i: int): seq<int>
    requires g.Valid() && j < |g.rules|
    decreases |ws|
  {
    if ws == [] then []
    else
      var v := NewWorry(g, j, ws[0]);
      (if Target(g.rules[j].test, v) == i then [v] else []) + Sent(g, j, ws[1..], i)
  }

  /** Inspecting a list only appends to the back of other lists: each list ends
      up as it was followed by what was sent to it. */
  lemma {:induction false} ThrowAllAppends(g: Game, j: nat, ws: seq<int>, items: seq<seq<int>>, i: nat)
    requires g.Valid() && j < |g.rules| && |items| == |g.rules| && i < |items|
    ensures ThrowAll(g, j, ws, items)[i] == items[i] + Sent(g, j, ws, i)
    decreases |ws|
  {
    if ws != [] {
      ThrowAllAppends(g, j, ws[1..], Throw(g, j, ws[0], items), i);
    }
  }

  /** Every item sent to monkey `i` is one whose test result routes it to `i`:
      to `onPass` if divisible, to `onFail` otherwise. */
  lemma {:induction false} SentIsRouted(g: Game, j: nat, ws: seq<int>, i: int, k: nat)
    requires g.Valid() && j < |g.rules| && k < |Sent(g, j, ws, i)|
    ensures var v := Sent(g, j, ws, i)[k];
            if GoRem(v, g.rules[j].test.delta) == 0 then i == g.rules[j].test.onPass else i == g.rules[j].test.onFail
    decreases |ws|
  {
    var v := NewWorry(g, j, ws[0]);
    var first := if Target(g.rules[j].test, v) == i then [v] else [];
    if k >= |first| {
      SentIsRouted(g, j, ws[1..], i, k - |first|);
    }
  }

  /** Each inspected item is appended exactly once: the lists together grow by
      the number of items inspected. */
  lemma {:induction false} ThrowAllTotal(g: Game, j: nat, ws: seq<int>, items: seq<seq<int>>)
    requires g.Valid() && j < |g.rules| && |items| == |g.rules|
    ensures TotalItems(ThrowAll(g, j, ws, items)) == TotalItems(items) + |ws|
    decreases |ws|
  {
    if ws != [] {
      var v := NewWorry(g, j, ws[0]);
      var t := Target(g.rules[j].test, v);
      TotalItemsUpdate(items, t, items[t] + [v]);
      ThrowAllTotal(g, j, ws[1..], Throw(g, j, ws[0], items));
    }
  }

  /** A turn empties the monkey's list, raises its counter by the number of
      items it held, and only appends to the other monkeys' lists. */
  lemma TurnEffect(g: Game, j: nat, s: State)
    requires g.Valid() && j < |g.rules| && Shaped(g, s)
    ensures Turn(g, j, s).items[j] == []
    ensures Turn(g, j, s).counts[j] == s.counts[j] + |s.items[j]|
    ensures forall i :: 0 <= i < |g.rules| && i != j ==>
              && Turn(g, j, s).items[i] == s.items[i] + Sent(g, j, s.items[j], i)
              && Turn(g, j, s).counts[i] == s.counts[i]
  {
    forall i | 0 <= i < |g.rules| && i != j
      ensures Turn(g, j, s).items[i] == s.items[i] + Sent(g, j, s.items[j], i)
    {
      ThrowAllAppends(g, j, s.items[j], s.items, i);
    }
  }

  /** The only items a turn loses are those the monkey threw to itself. */
  lemma TurnTotal(g: Game, j: nat, s: State)
    requires g.Valid() && j < |g.rules| && Shaped(g, s)
    ensures TotalItems(Turn(g, j, s).items) + |Sent(g, j, s.items[j], j)| == TotalItems(s.items)
  {
    var thrown := ThrowAll(g, j, s.items[j], s.items);
    ThrowAllTotal(g, j, s.items[j], s.items);
    ThrowAllAppends(g, j, s.items[j], s.items, j);
    TotalItemsUpdate(thrown, j, []);
  }

  predicate NoSelfThrows(g: Game)
  {
    forall j :: 0 <= j < |g.rules| ==> g.rules[j].test.onPass != j && g.rules[j].test.onFail != j
  }

  lemma SentToNonTargetIsEmpty(g: Game, j: nat, ws: seq<int>, i: int)
    requires g.Valid() && j < |g.rules|
    requires i != g.rules[j].test.onPass && i != g.rules[j].test.onFail
    ensures Sent(g, j, ws, i) == []
  {
    if |Sent(g, j, ws, i)| > 0 {
      SentIsRouted(g, j, ws, i, 0);
    }
  }

  /** A turn never creates items, and keeps them all when no monkey throws to itself. */
  lemma TurnKeepsItems(g: Game, j: nat, s: State)
    requires g.Valid() && j < |g.rules| && Shaped(g, s)
    ensures TotalItems(Turn(g, j, s).items) <= TotalItems(s.items)
    ensures NoSelfThrows(g) ==> TotalItems(Turn(g, j, s).items) == TotalItems(s.items)
  {
    TurnTotal(g, j, s);
    if NoSelfThrows(g) {
      SentToNonTargetIsEmpty(g, j, s.items[j], j);
    }
  }

  /** Partial rounds never create items. */
  lemma {:induction false} RoundUpToTotal(g: Game, s: State, k: nat)
    requires g.Valid() && Shaped(g, s) && k <= |g.rules|
    ensures TotalItems(RoundUpTo(g, s, k).items) <= TotalItems(s.items)
    ensures NoSelfThrows(g) ==> TotalItems(RoundUpTo(g, s, k).items) == TotalItems(s.items)
  {
    if k > 0 {
      RoundUpToTotal(g, s, k - 1);
      RoundUpToStep(g, s, k);
      TurnKeepsItems(g, k - 1, RoundUpTo(g, s, k - 1));
    }
  }

  /** A round never creates items, and conserves them when no monkey throws to itself. */
  lemma RoundConservesItems(g: Game, s: State)
    requires g.Valid() && Shaped(g, s)
    ensures TotalItems(Round(g, s).items) <= TotalItems(s.items)
    ensures NoSelfThrows(g) ==> TotalItems(Round(g, s).items) == TotalItems(s.items)
  {
    RoundUpToTotal(g, s, |g.rules|);
  }

  // ---------------------------------------------------------------------------
  // Counters

  lemma {:induction false} RoundUpToCountsGrow(g: Game, s: State, k: nat, i: nat)
    requires g.Valid() && Shaped(g, s) && k <= |g.rules| && i < |g.rules|
    ensures RoundUpTo(g, s, k).counts[i] >= s.counts[i]
  {
    if k > 0 {
      RoundUpToCountsGrow(g, s, k - 1, i);
    }
  }

  /** Inspection counters never decrease from one round to a later one. */
  lemma {:induction false} CountersNeverDecrease(g: Game, s: State, n: nat, m: nat, i: nat)
    requires g.Valid() && Shaped(g, s) && n <= m && i < |g.rules|
    ensures Rounds(g, s, n).counts[i] <= Rounds(g, s, m).counts[i]
    decreases m
  {
    if n < m {
      CountersNeverDecrease(g, s, n, m - 1, i);
      RoundUpToCountsGrow(g, Rounds(g, s, m - 1), |g.rules|, i);
    }
  }

  // ---------------------------------------------------------------------------
  // Visiting order within a round

  /** Turns of monkeys other than `i` only append to `i`'s list and leave its counter alone. */
  lemma {:induction false} OtherTurnsOnlyAppend(g: Game, s: State, k1: nat, k2: nat, i: nat)
    requires g.Valid() && Shaped(g, s) && k1 <= k2 <= |g.rules| && i < |g.rules|
    requires !(k1 <= i < k2)
    ensures RoundUpTo(g, s, k1).items[i] <= RoundUpTo(g, s, k2).items[i]
    ensures RoundUpTo(g, s, k1).counts[i] == RoundUpTo(g, s, k2).counts[i]
    decreases k2
  {
    if k1 < k2 {
      OtherTurnsOnlyAppend(g, s, k1, k2 - 1, i);
      OtherTurnStep(g, s, k2, i, RoundUpTo(g, s, k1).items[i], RoundUpTo(g, s, k1).counts[i]);
    }
  }

  lemma OtherTurnStep(g: Game, s: State, k: nat, i: nat, prefix: seq<int>, count: nat)
    requires g.Valid() && Shaped(g, s) && 0 < k <= |g.rules| && i < |g.rules| && i != k - 1
    requires prefix <= RoundUpTo(g, s, k - 1).items[i] && count == RoundUpTo(g, s, k - 1).counts[i]
    ensures prefix <= RoundUpTo(g, s, k).items[i] && count == RoundUpTo(g, s, k).counts[i]
  {
    RoundUpToStep(g, s, k);
    OtherTurnAppends(g, k - 1, RoundUpTo(g, s, k - 1), i);
    PrefixTrans(prefix, RoundUpTo(g, s, k - 1).items[i], RoundUpTo(g, s, k).items[i]);
  }

  /** The turn of monkey `j` only appends to monkey `i`'s list and leaves its counter alone. */
  lemma OtherTurnAppends(g: Game, j: nat, s: State, i: nat)
    requires g.Valid() && j < |g.rules| && Shaped(g, s) && i < |g.rules| && i != j
    ensures s.items[i] <= Turn(g, j, s).items[i]
    ensures s.counts[i] == Turn(g, j, s).counts[i]
  {
    TurnEffect(g, j, s);
  }

  lemma PrefixTrans(a: seq<int>, b: seq<int>, c: seq<int>)
    requires a <= b && b <= c
    ensures a <= c
  {
  }

  /** An item thrown to a monkey not yet visited in this round is inspected in
      this round: whatever monkey `i` holds before its turn is a prefix of what
      it inspects at its turn, and its counter grows by all of it. */
  lemma ThrownAheadInspectedSameRound(g: Game, s: State, k: nat, i: nat)
    requires g.Valid() && Shaped(g, s) && k <= i < |g.rules|
    ensures RoundUpTo(g, s, k).items[i] <= RoundUpTo(g, s, i).items[i]
    ensures RoundUpTo(g, s, i + 1).counts[i] == RoundUpTo(g, s, i).counts[i] + |RoundUpTo(g, s, i).items[i]|
    ensures RoundUpTo(g, s, i + 1).items[i] == []
  {
    OtherTurnsOnlyAppend(g, s, k, i, i);
    TurnEffect(g, i, RoundUpTo(g, s, i));
  }

  /** An item thrown to a monkey already visited in this round waits for the
      next round: it is still in that monkey's list when the round ends, and
      the monkey inspects nothing more in this round. */
  lemma ThrownBehindWaits(g: Game, s: State, i: nat, k: nat)
    requires g.Valid() && Shaped(g, s) && i < k <= |g.rules|
    ensures RoundUpTo(g, s, k).items[i] <= Round(g, s).items[i]
    ensures Round(g, s).counts[i] == RoundUpTo(g, s, k).counts[i] == RoundUpTo(g, s, i + 1).counts[i]
  {
    OtherTurnsOnlyAppend(g, s, k, |g.rules|, i);
    OtherTurnsOnlyAppend(g, s, i + 1, k, i);
  }
}
