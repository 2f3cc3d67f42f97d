/**
 * Day 3, "Rucksack Reorganization": every item type is a letter with a
 * priority. Part one looks for the item type present in both compartments
 * of a rucksack; part two groups the rucksacks three by three and looks for
 * the badge, the item type carried by all three elves of a group.
 */
module Day3Rucksacks {
  import opened GoStd

  const NoItem: char := 0 as char

  predicate IsLower(item: char)
  {
    'a' <= item <= 'z'
  }

  predicate IsUpper(item: char)
  {
    'A' <= item <= 'Z'
  }

  /** `getItemPriority`: 'a'..'z' are 1..26 and 'A'..'Z' are 27..52, via
      the code point modulo that of 'a' or 'A'; anything else is 0. */
  function ItemPriority(item: char): (priority: int)
    ensures IsLower(item) ==> priority == item as int - 'a' as int + 1
    ensures IsUpper(item) ==> priority == item as int - 'A' as int + 27
    ensures IsLower(item) ==> 1 <= priority <= 26
    ensures IsUpper(item) ==> 27 <= priority <= 52
    ensures !IsLower(item) && !IsUpper(item) ==> priority == 0
  {
    if IsLower(item) then (item as int % 97) + 1
    else if IsUpper(item) then (item as int % 65) + 27
    else 0
  }

  /** The letter of a priority in 1..52. */
  function ItemOfPriority(priority: int): (item: char)
    requires 1 <= priority <= 52
    ensures IsLower(item) || IsUpper(item)
  {
    if priority <= 26 then ('a' as int + priority - 1) as char else ('A' as int + priority - 27) as char
  }

  /** Priorities name letters one to one. */
  lemma PriorityRoundTrip(item: char, priority: int)
    requires IsLower(item) || IsUpper(item)
    requires 1 <= priority <= 52
    ensures ItemOfPriority(ItemPriority(item)) == item
    ensures ItemPriority(ItemOfPriority(priority)) == priority
  {
  }

  lemma PriorityInjective(a: char, b: char)
    requires IsLower(a) || IsUpper(a)
    requires IsLower(b) || IsUpper(b)
    requires ItemPriority(a) == ItemPriority(b)
    ensures a == b
  {
    PriorityRoundTrip(a, 1);
    PriorityRoundTrip(b, 1);
  }

  // ---------------------------------------------------------------------------
  // getDuplicateItemInCompartments

  /** `getDuplicateItemInCompartments`: the first item of the second half
      that also occurs in the first half, or 0. */
  method DuplicateItemInCompartments(value: string) returns (duplicate: char)
    ensures var first, second := value[..|value| / 2], value[|value| / 2..];
            && ((exists k :: 0 <= k < |second| && second[k] in first) ==>
                  exists k :: && 0 <= k < |second| && second[k] in first && duplicate == second[k]
                              && forall j :: 0 <= j < k ==> second[j] !in first)
            && ((forall k :: 0 <= k < |second| ==> second[k] !in first) ==> duplicate == NoItem)
  {
    var half := |value| / 2;
    var firstCompartment, secondCompartment := value[..half], value[half..];
    var existingItems: set<char> := {};
    for i := 0 to |firstCompartment|
      invariant existingItems == set k | 0 <= k < i :: firstCompartment[k]
    {
      existingItems := existingItems + {firstCompartment[i]};
    }
    assert forall c :: c in existingItems <==> c in firstCompartment by {
      forall c | c in firstCompartment ensures c in existingItems {
        var k :| 0 <= k < |firstCompartment| && firstCompartment[k] == c;
      }
    }
    for j := 0 to |secondCompartment|
      invariant forall k :: 0 <= k < j ==> secondCompartment[k] !in firstCompartment
    {
      var item := secondCompartment[j];
      if item in existingItems {
        return item;
      }
    }
    return NoItem;
  }

  // ---------------------------------------------------------------------------
  // findDuplicateItemInElfGroup

  /** How many of the given rucksacks contain `item`. */
  function Containing(elves: seq<string>, item: char): (n: nat)
    ensures n <= |elves|
  {
    if elves == [] then 0
    else Containing(elves[..|elves| - 1], item) + if item in elves[|elves| - 1] then 1 else 0
  }

  /** The count the lookup table holds for an item of the first rucksack:
      one for the first elf plus one per later elf carrying it. */
  function GroupCount(elfGroup: seq<string>, item: char): nat
    requires |elfGroup| >= 1
  {
    1 + Containing(elfGroup[1..], item)
  }

  /** An item of the first rucksack that every later rucksack of the group carries too. */
  predicate Badge(elfGroup: seq<string>, item: char)
    requires |elfGroup| >= 1
  {
    item in elfGroup[0] && GroupCount(elfGroup, item) == 3
  }

  lemma {:induction false} ContainingAll(elves: seq<string>, item: char)
    ensures Containing(elves, item) == |elves| <==> forall j :: 0 <= j < |elves| ==> item in elves[j]
  {
    if elves != [] {
      var n := |elves| - 1;
      ContainingAll(elves[..n], item);
      assert forall j :: 0 <= j < n ==> elves[..n][j] == elves[j];
    }
  }

  /** In a group of three, the badge is exactly an item carried by all three elves;
      a smaller group has none. */
  lemma BadgeOfThree(elfGroup: seq<string>, item: char)
    requires 1 <= |elfGroup| <= 3
    ensures Badge(elfGroup, item) <==>
              |elfGroup| == 3 && item in elfGroup[0] && item in elfGroup[1] && item in elfGroup[2]
  {
    ContainingAll(elfGroup[1..], item);
    if |elfGroup| == 3 {
      assert elfGroup[1..][0] == elfGroup[1] && elfGroup[1..][1] == elfGroup[2];
    }
  }

  /** The table after `k` later rucksacks, plus one for the items of the next one already `seen`. */
  function PartialCounts(elfGroup: seq<string>, k: nat, seen: set<char>): map<char, int>
    requires 1 <= |elfGroup| && 1 + k <= |elfGroup|
  {
    map item | item in elfGroup[0] :: 1 + Containing(elfGroup[1..1 + k], item) + if item in seen then 1 else 0
  }

  /** `findDuplicateItemInElfGroup`: count, for each item of the first
      rucksack, the rucksacks that carry it (each rucksack at most once), and
      report an item counted three times, if any; the map is iterated in no
      fixed order, so any such item may come out. An empty group panics. */
  method FindDuplicateItemInElfGroup(elfGroup: seq<string>) returns (badge: Option<char>)
    ensures badge.None? <==> elfGroup == []
    ensures badge.Some? ==> (exists c :: Badge(elfGroup, c)) ==> Badge(elfGroup, badge.value)
    ensures badge.Some? ==> (forall c :: !Badge(elfGroup, c)) ==> badge.value == NoItem
  {
    if |elfGroup| == 0 {
      return None;
    }
    var firstElf := elfGroup[0];
    var rest := elfGroup[1..];
    var lookup: map<char, int> := map[];
    for i := 0 to |firstElf|
      invariant lookup == map item | item in firstElf[..i] :: 1
    {
      assert firstElf[..i + 1] == firstElf[..i] + [firstElf[i]];
      var item := firstElf[i];
      if item in lookup {
        continue;
      }
      lookup := lookup[item := 1];
    }
    assert firstElf[..|firstElf|] == firstElf;
    assert lookup == PartialCounts(elfGroup, 0, {});
    for k := 0 to |rest|
      invariant lookup == PartialCounts(elfGroup, k, {})
    {
      lookup := CountRucksack(elfGroup, k, lookup);
    }
    assert elfGroup[1..1 + |rest|] == rest;
    assert forall c :: (c in lookup && lookup[c] == 3) <==> Badge(elfGroup, c);
    if exists item :: item in lookup && lookup[item] == 3 {
      var item :| item in lookup && lookup[item] == 3;
      return Some(item);
    }
    return Some(NoItem);
  }

  /** One pass of the inner loop: every different item of rucksack `k + 1`
      that the table holds is counted once more. */
  method CountRucksack(elfGroup: seq<string>, k: nat, lookup: map<char, int>) returns (counted: map<char, int>)
    requires 1 + k < |elfGroup| && lookup == PartialCounts(elfGroup, k, {})
    ensures counted == PartialCounts(elfGroup, k + 1, {})
  {
    var elf := elfGroup[1 + k];
    counted := lookup;
    var seenItemsInLookup: set<char> := {};
    for j := 0 to |elf|
      invariant seenItemsInLookup == set item | item in elf[..j] && item in elfGroup[0]
      invariant counted == PartialCounts(elfGroup, k, seenItemsInLookup)
    {
      assert elf[..j + 1] == elf[..j] + [elf[j]];
      var item := elf[j];
      if item in seenItemsInLookup {
        continue;
      }
      if item in counted {
        counted := counted[item := counted[item] + 1];
        seenItemsInLookup := seenItemsInLookup + {item};
      }
    }
    assert elf[..|elf|] == elf;
    var before := elfGroup[1..1 + k];
    var after := elfGroup[1..1 + k + 1];
    assert after[..k] == before && after[k] == elf;
  }

  // ---------------------------------------------------------------------------
  // main

  /** The `g`-th group of three lines; the last one may be shorter. */
  function Group(lines: seq<string>, g: nat): seq<string>
    requires 3 * g <= |lines|
  {
    lines[3 * g..Min(3 * g + 3, |lines|)]
  }

  /** The groups `main` forms: consecutive runs of three lines, the last one
      possibly shorter; with no lines there is one empty group. */
  method GroupLines(lines: seq<string>) returns (elfGroups: seq<seq<string>>)
    ensures |elfGroups| == if |lines| == 0 then 1 else (|lines| + 2) / 3
    ensures forall g :: 0 <= g < |elfGroups| ==> 3 * g <= |lines| && elfGroups[g] == Group(lines, g)
  {
    var currentIndex := 0;
    elfGroups := [[]];
    for i := 0 to |lines|
      invariant |elfGroups| == (if i == 0 then 1 else (i + 2) / 3) && currentIndex == |elfGroups| - 1
      invariant forall g :: 0 <= g < |elfGroups| ==> elfGroups[g] == lines[3 * g..Min(3 * g + 3, i)]
    {
      if |elfGroups[currentIndex]| == 3 {
        currentIndex := currentIndex + 1;
        elfGroups := elfGroups + [[]];
      }
      elfGroups := elfGroups[currentIndex := elfGroups[currentIndex] + [lines[i]]];
    }
  }

  function Min(a: int, b: int): int
  {
    if a <= b then a else b
  }

  function SumPriorities(items: seq<char>): int
  {
    if items == [] then 0 else SumPriorities(items[..|items| - 1]) + ItemPriority(items[|items| - 1])
  }

  /** What `findDuplicateItemInElfGroup` may return for a group. */
  predicate BadgeResult(elfGroup: seq<string>, item: char)
    requires |elfGroup| >= 1
  {
    if exists c :: Badge(elfGroup, c) then Badge(elfGroup, item) else item == NoItem
  }

  /** Each badge is a result `findDuplicateItemInElfGroup` may give for its
      group of lines, taken in order. */
  predicate Admissible(lines: seq<string>, badges: seq<char>)
  {
    forall g :: 0 <= g < |badges| ==> 3 * g < |lines| && BadgeResult(Group(lines, g), badges[g])
  }

  /** `main`: the sum of the priorities of the groups' badges; an empty input panics. */
  method SumOfBadges(lines: seq<string>) returns (sum: Option<int>)
    ensures sum.None? <==> lines == []
    ensures sum.Some? ==>
              exists badges: seq<char> :: && |badges| == (|lines| + 2) / 3 && Admissible(lines, badges)
                                         && sum.value == SumPriorities(badges)
  {
    var elfGroups := GroupLines(lines);
    var total := 0;
    ghost var badges: seq<char> := [];
    for g := 0 to |elfGroups|
      invariant |badges| == g && total == SumPriorities(badges)
      invariant lines == [] ==> g == 0
      invariant lines != [] ==> Admissible(lines, badges)
    {
      var duplicateItem := FindDuplicateItemInElfGroup(elfGroups[g]);
      if duplicateItem.None? {
        return None;
      }
      var priority := ItemPriority(duplicateItem.value);
      total := total + priority;
      SumPrioritiesSnoc(badges, duplicateItem.value);
      if lines != [] {
        AdmissibleSnoc(lines, badges, duplicateItem.value);
      }
      badges := badges + [duplicateItem.value];
    }
    return Some(total);
  }

  /** A badge for the next group extends an admissible sequence of badges. */
  lemma AdmissibleSnoc(lines: seq<string>, badges: seq<char>, item: char)
    requires Admissible(lines, badges)
    requires 3 * |badges| < |lines| && BadgeResult(Group(lines, |badges|), item)
    ensures Admissible(lines, badges + [item])
  {
    var extended := badges + [item];
    forall g | 0 <= g < |extended|
      ensures 3 * g < |lines| && BadgeResult(Group(lines, g), extended[g])
    {
      if g < |badges| {
        assert extended[g] == badges[g];
      }
    }
  }

  lemma SumPrioritiesSnoc(badges: seq<char>, item: char)
    ensures SumPriorities(badges + [item]) == SumPriorities(badges) + ItemPriority(item)
  {
    assert (badges + [item])[..|badges|] == badges;
  }

}
