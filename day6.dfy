/**
 * Day 6, "Tuning Trouble": the start-of-message marker is the first place
 * where the last fourteen characters of the data stream are all different.
 */
module Day6Marker {

  /** No character occurs twice. */
  predicate Distinct(s: seq<char>)
  {
    forall a, b :: 0 <= a < b < |s| ==> s[a] != s[b]
  }

  /** `hasUniqueCharacters`: scan with a set of the characters seen so far,
      stopping at the first repeat. */
  method HasUniqueCharacters(input: seq<char>) returns (unique: bool)
    ensures unique <==> Distinct(input)
  {
    var seen: set<char> := {};
    for i := 0 to |input|
      invariant seen == set k | 0 <= k < i :: input[k]
      invariant forall a, b :: 0 <= a < b < i ==> input[a] != input[b]
    {
      var character := input[i];
      if character in seen {
        ghost var k :| 0 <= k < i && input[k] == character;
        return false;
      }
      seen := seen + {character};
    }
    return true;
  }

  const SequenceLength := 14

  /** The fourteen characters ending at `index` are all different. */
  predicate MarkerAt(s: seq<char>, index: int)
  {
    SequenceLength - 1 <= index < |s| && Distinct(s[index - (SequenceLength - 1)..index + 1])
  }

  /** The sliding-window search of `main`: characters are pushed one at a
      time; once fourteen are in, the window ending at the newest is checked
      and the window start moves on. The answer is the marker's index plus
      one, which is 1 when no marker exists. */
  method FindMarker(dataStream: seq<char>) returns (processed: int)
    ensures processed >= 1
    ensures processed == 1 <==> forall j :: 0 <= j < |dataStream| ==> !MarkerAt(dataStream, j)
    ensures processed > 1 ==> MarkerAt(dataStream, processed - 1)
    ensures forall j :: 0 <= j < processed - 1 ==> !MarkerAt(dataStream, j)
  {
    var stack: seq<char> := [];
    var resultIndex := 0;
    var start := 0;
    var sequenceLength := SequenceLength;
    var found := false;
    for index := 0 to |dataStream|
      invariant stack == dataStream[..index]
      invariant start == if index >= SequenceLength - 1 then index - (SequenceLength - 1) else 0
      invariant forall j :: 0 <= j < index ==> !MarkerAt(dataStream, j)
      invariant !found && resultIndex == 0
    {
      stack := stack + [dataStream[index]];
      if |stack| >= sequenceLength {
        var mostRecentCharactersInSequence := stack[start..index + 1];
        assert mostRecentCharactersInSequence == dataStream[index - (SequenceLength - 1)..index + 1];
        var unique := HasUniqueCharacters(mostRecentCharactersInSequence);
        if unique {
          assert MarkerAt(dataStream, index);
          resultIndex := index;
          found := true;
          break;
        }
        start := start + 1;
      }
    }
    processed := resultIndex + 1;
  }

  /** The different characters of `s`. */
  function Characters(s: seq<char>): set<char>
  {
    set c | c in s
  }

  /** A marker window holds fourteen different characters. */
  lemma MarkerHasFourteenCharacters(s: seq<char>, index: int)
    requires MarkerAt(s, index)
    ensures |Characters(s[index - (SequenceLength - 1)..index + 1])| == SequenceLength
  {
    DistinctCardinality(s[index - (SequenceLength - 1)..index + 1]);
  }

  /** A sequence without repeats has as many different characters as elements. */
  lemma {:induction false} DistinctCardinality(s: seq<char>)
    requires Distinct(s)
    ensures |Characters(s)| == |s|
  {
    if s != [] {
      var n := |s| - 1;
      var prefix := s[..n];
      assert s == prefix + [s[n]];
      DistinctCardinality(prefix);
      assert Characters(s) == Characters(prefix) + {s[n]};
      assert s[n] !in Characters(prefix);
    }
  }
}
