/** Day 1: calorie counting. The input lists, elf by elf, the calories of the
    food each elf carries, one item per line, with a blank line between elves;
    the answer is the total carried by the elves who carry the most. */
module CalorieCounting {
  import opened Wrappers
  import opened Text
  import opened Seqs

  datatype Elf = Elf(calories: nat)

  /** What one line adds: a blank line (after trimming) adds nothing, any
      other line must parse as a number (`expect` panics otherwise). */
  function ItemCalories(line: string): Option<nat> {
    var item := Trim(line);
    if item == [] then Some(0) else ParseNat(item)
  }

  /** `Elf::calories`: the sum of what every line adds; a line that does not
      parse fails the whole block. */
  function Calories(lines: seq<string>): Option<nat> {
    match MapAll(lines, ItemCalories)
    case None => None
    case Some(items) => SumNonNegative(items); Some(Sum(items))
  }

  /** A rendered number is its own trimmed form and adds its value. */
  lemma ItemCaloriesOfNumber(n: nat)
    ensures ItemCalories(NatToString(n)) == Some(n)
  {
    var s := NatToString(n);
    assert !IsWhitespace(s[0]) && !IsWhitespace(s[|s| - 1]);
    assert TrimStart(s) == s;
    ParseNatToString(n);
  }

  /** A blank line adds nothing. */
  lemma ItemCaloriesOfBlank()
    ensures ItemCalories("") == Some(0)
  {
    assert Trim("") == "";
  }

  /** Each number rendered on a line of its own. */
  function RenderNumbers(ns: seq<nat>): (lines: seq<string>)
    ensures |lines| == |ns|
    ensures forall i :: 0 <= i < |ns| ==> lines[i] == NatToString(ns[i])
  {
    seq(|ns|, i requires 0 <= i < |ns| => NatToString(ns[i]))
  }

  /** Lines holding rendered numbers add up to the sum of those numbers. */
  lemma CaloriesOfNumbers(ns: seq<nat>)
    ensures Calories(RenderNumbers(ns)) == Some(Sum(ns))
  {
    var lines := RenderNumbers(ns);
    forall i | 0 <= i < |ns| ensures ItemCalories(lines[i]) == Some(ns[i]) {
      ItemCaloriesOfNumber(ns[i]);
    }
    MapAllSome(lines, ItemCalories, ns);
  }

  /** A blank line after them changes nothing. */
  lemma CaloriesOfNumbersThenBlank(ns: seq<nat>)
    ensures Calories(RenderNumbers(ns) + [""]) == Some(Sum(ns))
  {
    var blank := RenderNumbers(ns) + [""];
    var items := ns + [0];
    forall i | 0 <= i < |blank| ensures ItemCalories(blank[i]) == Some(items[i]) {
      if i < |ns| {
        assert blank[i] == NatToString(ns[i]) && items[i] == ns[i];
        ItemCaloriesOfNumber(ns[i]);
      } else {
        assert blank[i] == "" && items[i] == 0;
        ItemCaloriesOfBlank();
      }
    }
    MapAllSome(blank, ItemCalories, items);
    assert items[..|items| - 1] == ns;
    assert Sum(items) == Sum(ns) + 0;
  }

  /** `Elf::new`. */
  function NewElf(lines: seq<string>): Option<Elf> {
    match Calories(lines)
    case None => None
    case Some(c) => Some(Elf(c))
  }

  /** One block of lines becomes one elf. */
  function ElfOfBlock(block: string): Option<Elf> {
    NewElf(Lines(block))
  }

  /** `extract_elves_from_input`: one elf per blank-line-separated block; a
      block with a line that does not parse fails the lot. */
  function ExtractElves(input: string): (r: Option<seq<Elf>>)
    ensures r.Some? ==> |r.value| == |SplitOn(input, "\n\n")|
    ensures r.Some? ==> forall i :: 0 <= i < |r.value| ==>
      NewElf(Lines(SplitOn(input, "\n\n")[i])) == Some(r.value[i])
    ensures r.None? ==>
      exists i :: 0 <= i < |SplitOn(input, "\n\n")| && NewElf(Lines(SplitOn(input, "\n\n")[i])).None?
    ensures (exists i :: 0 <= i < |SplitOn(input, "\n\n")| &&
               NewElf(Lines(SplitOn(input, "\n\n")[i])).None?) ==> r.None?
  {
    var blocks := SplitOn(input, "\n\n");
    var elf: string -> Option<Elf> := ElfOfBlock;
    assert forall i :: 0 <= i < |blocks| ==> elf(blocks[i]) == NewElf(Lines(blocks[i]));
    MapAll(blocks, elf)
  }

  /** Heaviest first. */
  ghost predicate Descending(s: seq<Elf>) {
    forall j, k :: 0 <= j < k < |s| ==> s[j].calories >= s[k].calories
  }

  /** The calories carried by the first `n` elves (all of them when there are
      fewer than `n`). */
  function TopCalories(elves: seq<Elf>, n: nat): nat {
    if n == 0 || elves == [] then 0
    else elves[0].calories + TopCalories(elves[1..], n - 1)
  }

  /** In a heaviest-first line-up the top one carries at least as much as any
      elf. */
  lemma TopOfDescending(elves: seq<Elf>)
    requires Descending(elves) && |elves| > 0
    ensures forall i :: 0 <= i < |elves| ==> elves[i].calories <= TopCalories(elves, 1)
  {
    assert TopCalories(elves, 1) == elves[0].calories + TopCalories(elves[1..], 0);
  }

  /** No arrangement of the same elves puts more calories in its first `n`
      places than the heaviest-first one: sorting and taking `n` finds the
      most that any `n` elves carry together. */
  lemma {:induction false} TopOfDescendingIsMost(elves: seq<Elf>, other: seq<Elf>, n: nat)
    requires Descending(elves) && multiset(other) == multiset(elves)
    ensures TopCalories(other, n) <= TopCalories(elves, n)
    decreases |other|
  {
    if n > 0 && other != [] {
      assert other[0] in multiset(elves) by {
        assert other[0] in multiset(other);
      }
      var m :| 0 <= m < |elves| && elves[m] == other[0];
      var rest := elves[..m] + elves[m + 1..];
      WithoutOne(elves, other, m);
      DescendingWithout(elves, m);
      TopOfDescendingIsMost(rest, other[1..], n - 1);
      RemoveFromDescending(elves, m, n - 1);
    }
  }

  /** Taking out the elf that heads `other` leaves the elves in the rest of
      `other`. */
  lemma WithoutOne(elves: seq<Elf>, other: seq<Elf>, m: nat)
    requires multiset(other) == multiset(elves)
    requires m < |elves| && other != [] && elves[m] == other[0]
    ensures multiset(other[1..]) == multiset(elves[..m] + elves[m + 1..])
  {
    var rest := elves[..m] + elves[m + 1..];
    assert elves == elves[..m] + [elves[m]] + elves[m + 1..];
    assert multiset(elves) == multiset(rest) + multiset{elves[m]};
    assert other == [other[0]] + other[1..];
    assert multiset(other) == multiset{other[0]} + multiset(other[1..]);
    forall e ensures multiset(other[1..])[e] == multiset(rest)[e] {
      assert multiset(elves)[e] == multiset(rest)[e] + multiset{elves[m]}[e];
      assert multiset(other)[e] == multiset{other[0]}[e] + multiset(other[1..])[e];
    }
  }

  /** Taking one elf out of a heaviest-first line-up leaves one. */
  lemma DescendingWithout(elves: seq<Elf>, m: nat)
    requires Descending(elves) && m < |elves|
    ensures Descending(elves[..m] + elves[m + 1..])
  {
    var rest := elves[..m] + elves[m + 1..];
    forall j, k | 0 <= j < k < |rest| ensures rest[j].calories >= rest[k].calories {
      var j', k' := if j < m then j else j + 1, if k < m then k else k + 1;
      assert rest[j] == elves[j'] && rest[k] == elves[k'];
    }
  }

  /** Taking one elf out of a heaviest-first line-up and counting it
      separately never beats counting one more place of the line-up. */
  lemma {:induction false} RemoveFromDescending(elves: seq<Elf>, m: nat, k: nat)
    requires Descending(elves) && m < |elves|
    ensures elves[m].calories + TopCalories(elves[..m] + elves[m + 1..], k) <= TopCalories(elves, k + 1)
    decreases m
  {
    var rest := elves[..m] + elves[m + 1..];
    if m == 0 {
      assert rest == elves[1..];
    } else if k > 0 {
      var tail := elves[1..];
      assert rest == [elves[0]] + (tail[..m - 1] + tail[m..]);
      assert Descending(tail);
      RemoveFromDescending(tail, m - 1, k - 1);
      assert tail[m - 1] == elves[m];
    }
  }

  /** The first `n` elves' total is the sum of their calories. */
  lemma {:induction false} TopCaloriesIsSum(elves: seq<Elf>, n: nat)
    ensures TopCalories(elves, n) ==
      Sum(seq(if n < |elves| then n else |elves|, i requires 0 <= i < |elves| && i < n => elves[i].calories))
  {
    var m := if n < |elves| then n else |elves|;
    var top := seq(m, i requires 0 <= i < |elves| && i < n => elves[i].calories);
    if n > 0 && elves != [] {
      TopCaloriesIsSum(elves[1..], n - 1);
      var rest := seq(m - 1, i requires 0 <= i < |elves[1..]| && i < n - 1 => elves[1..][i].calories);
      assert top == [elves[0].calories] + rest;
      SumConcat([elves[0].calories], rest);
      assert Sum([elves[0].calories]) == elves[0].calories by {
        assert [elves[0].calories][..0] == [];
      }
    }
  }

  /** The index of the heaviest elf in `a[from..]`. */
  method IndexOfMax(a: array<Elf>, from: nat) returns (m: nat)
    requires from < a.Length
    ensures from <= m < a.Length
    ensures forall k :: from <= k < a.Length ==> a[k].calories <= a[m].calories
  {
    m := from;
    var i := from + 1;
    while i < a.Length
      invariant from <= m < i <= a.Length
      invariant forall k :: from <= k < i ==> a[k].calories <= a[m].calories
    {
      if a[i].calories > a[m].calories {
        m := i;
      }
      i := i + 1;
    }
  }

  /** Sorts the elves heaviest first, in place (`sort_by` with the reversed
      comparison). */
  method SortDescending(a: array<Elf>)
    modifies a
    ensures Descending(a[..])
    ensures multiset(a[..]) == old(multiset(a[..]))
  {
    var i := 0;
    while i < a.Length
      invariant 0 <= i <= a.Length
      invariant forall j, k :: 0 <= j < k < i ==> a[j].calories >= a[k].calories
      invariant forall j, k :: 0 <= j < i <= k < a.Length ==> a[j].calories >= a[k].calories
      invariant multiset(a[..]) == old(multiset(a[..]))
    {
      PlaceMax(a, i);
      i := i + 1;
    }
  }

  /** One pass of the selection sort: the heaviest elf of `a[i..]` is
      swapped into place `i`. */
  method PlaceMax(a: array<Elf>, i: nat)
    requires i < a.Length
    requires forall j, k :: 0 <= j < k < i ==> a[j].calories >= a[k].calories
    requires forall j, k :: 0 <= j < i <= k < a.Length ==> a[j].calories >= a[k].calories
    modifies a
    ensures forall j, k :: 0 <= j < k < i + 1 ==> a[j].calories >= a[k].calories
    ensures forall j, k :: 0 <= j < i + 1 <= k < a.Length ==> a[j].calories >= a[k].calories
    ensures multiset(a[..]) == old(multiset(a[..]))
  {
    var m := IndexOfMax(a, i);
    a[i], a[m] := a[m], a[i];
  }

  /** `find_calories_of_top_elves`: sorts the elves heaviest first, in place,
      and returns what the first `n` of them carry together. */
  method FindCaloriesOfTopElves(elves: array<Elf>, n: nat) returns (total: nat)
    modifies elves
    ensures Descending(elves[..])
    ensures multiset(elves[..]) == old(multiset(elves[..]))
    ensures total == TopCalories(elves[..], n)
  {
    SortDescending(elves);
    total := TopCalories(elves[..], n);
  }
}
