/**
 * Day 4, "Camp Cleanup": each line gives the section ranges of two elves,
 * "a-b,c-d". Part one counts pairs where one range contains the other, part
 * two pairs whose ranges overlap.
 */
module Day4Sections {
  import opened GoStd

  datatype SectionAssignment = SectionAssignment(start: int, end: int)

  /** A range that lists its first section before its last. */
  predicate WellFormed(a: SectionAssignment)
  {
    a.start <= a.end
  }

  /** Section `x` belongs to the range. */
  predicate Covers(a: SectionAssignment, x: int)
  {
    a.start <= x <= a.end
  }

  /** `getSectionAssignment`: "<start>-<end>"; a bound `Atoi` rejects is an
      error, and a string without a '-' leaves no end to read. */
  function GetSectionAssignment(assignment: string): (r: Option<SectionAssignment>)
    ensures r.Some? <==>
              AtoiAccepts(Split(assignment, '-')[0]) && |Split(assignment, '-')| >= 2
              && AtoiAccepts(Split(assignment, '-')[1])
  {
    var assignmentValues := Split(assignment, '-');
    match Atoi(assignmentValues[0])
    case None => None
    case Some(start) =>
      if |assignmentValues| < 2 then None
      else
        match Atoi(assignmentValues[1])
        case None => None
        case Some(end) => Some(SectionAssignment(start, end))
  }

  /** A range written with non-negative bounds is read back. */
  lemma GetSectionAssignmentWritten(start: nat, end: nat)
    ensures GetSectionAssignment(Itoa(start) + "-" + Itoa(end)) == Some(SectionAssignment(start, end))
  {
    var first := Itoa(start);
    var second := Itoa(end);
    assert '-' !in first && '-' !in second;
    SplitJoin([first, second], '-');
    assert Join([first, second], ['-']) == first + ['-'] + Join([second], ['-']);
    assert first + "-" + second == first + ['-'] + second;
    var parts := Split(first + "-" + second, '-');
    assert parts == [first, second];
    AtoiItoa(start);
    AtoiItoa(end);
  }

  /** `isFullyContainedPair`: the second range inside the first, or the first inside the second. */
  function IsFullyContainedPair(first: SectionAssignment, second: SectionAssignment): bool
  {
    if first.start <= second.start && first.end >= second.end then true
    else if second.start <= first.start && second.end >= first.end then true
    else false
  }

  /** `isOverlappingPair`: one range starts inside the other. */
  function IsOverlappingPair(first: SectionAssignment, second: SectionAssignment): bool
  {
    if first.start <= second.start && first.end >= second.start then true
    else if second.start <= first.start && second.end >= first.start then true
    else false
  }

  lemma ContainedSymmetric(first: SectionAssignment, second: SectionAssignment)
    ensures IsFullyContainedPair(first, second) == IsFullyContainedPair(second, first)
  {
  }

  lemma OverlappingSymmetric(first: SectionAssignment, second: SectionAssignment)
    ensures IsOverlappingPair(first, second) == IsOverlappingPair(second, first)
  {
  }

  /** For well-formed ranges, containment is containment of the sections they cover. */
  lemma ContainedMeansSubset(first: SectionAssignment, second: SectionAssignment)
    requires WellFormed(first) && WellFormed(second)
    ensures IsFullyContainedPair(first, second) <==>
              (forall x :: Covers(second, x) ==> Covers(first, x))
              || (forall x :: Covers(first, x) ==> Covers(second, x))
  {
    if forall x :: Covers(second, x) ==> Covers(first, x) {
      assert Covers(second, second.start) && Covers(second, second.end);
    }
    if forall x :: Covers(first, x) ==> Covers(second, x) {
      assert Covers(first, first.start) && Covers(first, first.end);
    }
  }

  /** For well-formed ranges, overlap means a shared section, which is the
      latest start lying before the earliest end. */
  lemma OverlapMeansSharedSection(first: SectionAssignment, second: SectionAssignment)
    requires WellFormed(first) && WellFormed(second)
    ensures IsOverlappingPair(first, second) <==> exists x :: Covers(first, x) && Covers(second, x)
    ensures IsOverlappingPair(first, second) <==>
              Max(first.start, second.start) <= Min(first.end, second.end)
  {
    if IsOverlappingPair(first, second) {
      var x := Max(first.start, second.start);
      assert Covers(first, x) && Covers(second, x);
    }
  }

  function Max(a: int, b: int): int
  {
    if a >= b then a else b
  }

  function Min(a: int, b: int): int
  {
    if a <= b then a else b
  }

  /** For well-formed ranges, a contained pair overlaps. */
  lemma ContainedOverlaps(first: SectionAssignment, second: SectionAssignment)
    requires WellFormed(first) && WellFormed(second) && IsFullyContainedPair(first, second)
    ensures IsOverlappingPair(first, second)
  {
  }

  /** A line "<range>,<range>"; a missing comma or a bad range is fatal. */
  function ParsePair(line: string): (r: Option<(SectionAssignment, SectionAssignment)>)
    ensures r.Some? <==>
              |Split(line, ',')| >= 2
              && GetSectionAssignment(Split(line, ',')[0]).Some?
              && GetSectionAssignment(Split(line, ',')[1]).Some?
  {
    var elfPair := Split(line, ',');
    match GetSectionAssignment(elfPair[0])
    case None => None
    case Some(first) =>
      if |elfPair| < 2 then None
      else
        match GetSectionAssignment(elfPair[1])
        case None => None
        case Some(second) => Some((first, second))
  }

  /** The counting loop of `main`: contained pairs and overlapping pairs. */
  function Tally(lines: seq<string>): Option<(nat, nat)>
  {
    if lines == [] then Some((0, 0))
    else
      match Tally(lines[..|lines| - 1])
      case None => None
      case Some(counts) =>
        match ParsePair(lines[|lines| - 1])
        case None => None
        case Some(pair) =>
          Some((counts.0 + (if IsFullyContainedPair(pair.0, pair.1) then 1 else 0),
                counts.1 + (if IsOverlappingPair(pair.0, pair.1) then 1 else 0)))
  }

  /** Every parsed range is well formed on this line. */
  predicate WellFormedLines(lines: seq<string>)
  {
    forall i :: 0 <= i < |lines| && ParsePair(lines[i]).Some? ==>
      WellFormed(ParsePair(lines[i]).value.0) && WellFormed(ParsePair(lines[i]).value.1)
  }

  /** With well-formed ranges, no more pairs are contained than overlap, and
      neither count exceeds the number of lines. */
  lemma {:induction false} ContainedAtMostOverlapping(lines: seq<string>)
    requires WellFormedLines(lines) && Tally(lines).Some?
    ensures Tally(lines).value.0 <= Tally(lines).value.1 <= |lines|
  {
    if lines != [] {
      var n := |lines| - 1;
      assert WellFormedLines(lines[..n]) by {
        forall i | 0 <= i < n ensures lines[..n][i] == lines[i] {
        }
      }
      ContainedAtMostOverlapping(lines[..n]);
      var pair := ParsePair(lines[n]).value;
      if IsFullyContainedPair(pair.0, pair.1) {
        ContainedOverlaps(pair.0, pair.1);
      }
    }
  }
}
