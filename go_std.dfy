/**
 * The few pieces of Go's standard library that the solutions lean on:
 * `strings.Split` and `strings.Join` with a separator, `strings.HasPrefix`,
 * and `strconv.Atoi` for decimal integers, with `strconv.Itoa` as its inverse.
 * Machine-integer overflow in `Atoi` is not modelled: values are unbounded.
 */
module GoStd {

  datatype Option<T> = None | Some(value: T)

  /** The magnitude of an integer, which both the rope and the monkeys' remainders use. */
  function Abs(x: int): nat { if x < 0 then -x else x }

  predicate HasPrefix(s: string, prefix: string)
  {
    |prefix| <= |s| && s[..|prefix|] == prefix
  }

  // ---------------------------------------------------------------------------
  // strings.Split with a one-character separator, and strings.Join

  /** The pieces of `s` between occurrences of `sep`, as `strings.Split(s, string(sep))`. */
  function Split(s: string, sep: char): (pieces: seq<string>)
    ensures |pieces| >= 1
  {
    if s == [] then [[]]
    else
      var rest := Split(s[1..], sep);
      if s[0] == sep then [[]] + rest
      else [[s[0]] + rest[0]] + rest[1..]
  }

  /** No piece contains the separator. */
  lemma {:induction false} SplitSeparatorFree(s: string, sep: char)
    ensures forall i, k :: 0 <= i < |Split(s, sep)| && 0 <= k < |Split(s, sep)[i]| ==> Split(s, sep)[i][k] != sep
  {
    if s != [] {
      SplitSeparatorFree(s[1..], sep);
      var rest := Split(s[1..], sep);
      if s[0] != sep {
        var first := [s[0]] + rest[0];
        assert forall k :: 0 <= k < |first| ==> first[k] != sep by {
          forall k | 0 <= k < |first| ensures first[k] != sep {
            if k > 0 { assert first[k] == rest[0][k - 1]; }
          }
        }
      }
    }
  }

  /** There is one more piece than there are separators. */
  lemma {:induction false} SplitCount(s: string, sep: char)
    ensures |Split(s, sep)| == 1 + |s| - |RemoveAll(s, sep)|
  {
    if s != [] {
      SplitCount(s[1..], sep);
    }
  }

  /** `s` with every occurrence of `c` removed: counts the separators `Split` cuts at. */
  function RemoveAll(s: string, c: char): (r: string)
    ensures |r| <= |s|
    ensures c !in r
  {
    if s == [] then [] else (if s[0] == c then [] else [s[0]]) + RemoveAll(s[1..], c)
  }

  /** `strings.Join(parts, sep)`. */
  function Join(parts: seq<string>, sep: string): (s: string)
    ensures |parts| == 0 ==> s == []
    ensures |parts| == 1 ==> s == parts[0]
  {
    if |parts| == 0 then []
    else if |parts| == 1 then parts[0]
    else parts[0] + sep + Join(parts[1..], sep)
  }

  /** Splitting and joining back with the same separator gives the original string. */
  lemma {:induction false} JoinSplit(s: string, sep: char)
    ensures Join(Split(s, sep), [sep]) == s
  {
    if s != [] {
      var rest := Split(s[1..], sep);
      JoinSplit(s[1..], sep);
      if s[0] == sep {
        assert Split(s, sep) == [[]] + rest;
        assert Join(Split(s, sep), [sep]) == [] + [sep] + Join(rest, [sep]);
      } else {
        var pieces := Split(s, sep);
        assert pieces == [[s[0]] + rest[0]] + rest[1..];
        if |rest| == 1 {
          assert pieces == [[s[0]] + rest[0]];
        } else {
          assert pieces[1..] == rest[1..];
          assert Join(rest, [sep]) == rest[0] + [sep] + Join(rest[1..], [sep]);
        }
      }
    }
  }

  /** A separator-free piece joined onto the rest is split back off. */
  lemma {:induction false} SplitJoin(parts: seq<string>, sep: char)
    requires |parts| >= 1
    requires forall i, k :: 0 <= i < |parts| && 0 <= k < |parts[i]| ==> parts[i][k] != sep
    ensures Split(Join(parts, [sep]), sep) == parts
  {
    if |parts| == 1 {
      SplitNoSep(parts[0], sep);
    } else {
      SplitJoin(parts[1..], sep);
      SplitPrepend(parts[0], sep, Join(parts[1..], [sep]));
      assert Join(parts, [sep]) == parts[0] + ([sep] + Join(parts[1..], [sep]));
    }
  }

  lemma {:induction false} SplitNoSep(s: string, sep: char)
    requires forall k :: 0 <= k < |s| ==> s[k] != sep
    ensures Split(s, sep) == [s]
  {
    if s != [] {
      SplitNoSep(s[1..], sep);
      assert [s[0]] + s[1..] == s;
    }
  }

  lemma {:induction false} SplitPrepend(piece: string, sep: char, tail: string)
    requires forall k :: 0 <= k < |piece| ==> piece[k] != sep
    ensures Split(piece + ([sep] + tail), sep) == [piece] + Split(tail, sep)
  {
    if piece == [] {
      assert piece + ([sep] + tail) == [sep] + tail;
      assert ([sep] + tail)[1..] == tail;
    } else {
      SplitPrepend(piece[1..], sep, tail);
      var s := piece + ([sep] + tail);
      assert s[1..] == piece[1..] + ([sep] + tail);
      assert [piece[0]] + piece[1..] == piece;
    }
  }

  // ---------------------------------------------------------------------------
  // strconv.Atoi and strconv.Itoa

  predicate IsDigit(c: char) { '0' <= c <= '9' }

  predicate AllDigits(s: string) { forall k :: 0 <= k < |s| ==> IsDigit(s[k]) }

  /** The value of a string of decimal digits, most significant first. */
  function DigitsValue(s: string): (n: nat)
    requires AllDigits(s)
  {
    if s == [] then 0 else DigitsValue(s[..|s| - 1]) * 10 + (s[|s| - 1] - '0') as int
  }

  /** `strconv.Atoi`: an optional sign followed by at least one decimal digit. */
  function Atoi(s: string): (r: Option<int>)
    ensures r.Some? <==> AtoiAccepts(s)
    ensures r.Some? && AllDigits(s) ==> r.value == DigitsValue(s)
    ensures r.Some? && s[0] == '-' ==> r.value <= 0
  {
    if |s| > 0 && (s[0] == '-' || s[0] == '+') then
      var digits := s[1..];
      if |digits| > 0 && AllDigits(digits) then
        var magnitude: int := DigitsValue(digits);
        Some(if s[0] == '-' then - magnitude else magnitude)
      else None
    else if |s| > 0 && AllDigits(s) then Some(DigitsValue(s))
    else None
  }

  /** The strings `Atoi` accepts, stated without reference to the value computed. */
  predicate AtoiAccepts(s: string)
  {
    || (|s| >= 1 && AllDigits(s))
    || (|s| >= 2 && (s[0] == '-' || s[0] == '+') && AllDigits(s[1..]))
  }

  /** The decimal digits of `n` without leading zeros. */
  function NatDigits(n: nat): (s: string)
    ensures |s| >= 1 && AllDigits(s)
  {
    if n < 10 then ['0' + n as char] else NatDigits(n / 10) + ['0' + (n % 10) as char]
  }

  /** `strconv.Itoa`. */
  function Itoa(n: int): (s: string)
  {
    if n < 0 then "-" + NatDigits(-n) else NatDigits(n)
  }

  lemma {:induction false} NatDigitsValue(n: nat)
    ensures DigitsValue(NatDigits(n)) == n
  {
    if n >= 10 {
      NatDigitsValue(n / 10);
      var s := NatDigits(n);
      assert s[..|s| - 1] == NatDigits(n / 10);
    }
  }

  /** `Atoi` reads back every integer `Itoa` writes. */
  lemma AtoiItoa(n: int)
    ensures Atoi(Itoa(n)) == Some(n)
  {
    if n < 0 {
      NatDigitsValue(-n);
      assert Itoa(n)[1..] == NatDigits(-n);
    } else {
      NatDigitsValue(n);
    }
  }
}
