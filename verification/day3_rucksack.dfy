/** Day 3: rucksacks. Each line lists the items of one rucksack, whose two
    compartments are its two halves; an item type found in both compartments
    is misplaced, and the priorities of the misplaced items are summed. */
module Rucksack {
  import opened Wrappers
  import opened Text
  import opened Seqs
  import opened LinePipeline

  /** The two compartments of a rucksack. */
  datatype Compartments = Compartments(first: string, second: string)

  /** `get_compartments`: the line cut at half its length (rounded down), so
      nothing is lost and the first half is never the longer one. */
  function GetCompartments(line: string): (halves: Compartments)
    ensures halves.first + halves.second == line
    ensures |halves.first| == |line| / 2 && |halves.second| == |line| - |line| / 2
  {
    Compartments(line[..|line| / 2], line[|line| / 2..])
  }

  /** The items of `a` that also occur in `b`, in order and with their
      multiplicity in `a`, as `filter` keeps them. */
  function CommonItems(a: string, b: string): (r: string)
    ensures forall c :: c in r <==> c in a && c in b
    ensures forall c :: multiset(r)[c] == if c in b then multiset(a)[c] else 0
  {
    if a == [] then []
    else
      assert a == [a[0]] + a[1..];
      (if a[0] in b then [a[0]] else []) + CommonItems(a[1..], b)
  }

  /** Position `i` holds the first item of `a` that `b` also holds. */
  predicate FirstShared(a: string, b: string, i: int) {
    0 <= i < |a| && a[i] in b && forall j :: 0 <= j < i ==> a[j] !in b
  }

  /** `CommonItems` keeps the order of `a`: it is empty exactly when no item
      of `a` occurs in `b`, and otherwise it starts with the first one that
      does. */
  lemma CommonItemsHead(a: string, b: string)
    ensures CommonItems(a, b) == [] <==> forall i :: 0 <= i < |a| ==> a[i] !in b
    ensures forall i :: FirstShared(a, b, i) ==> CommonItems(a, b) != [] && CommonItems(a, b)[0] == a[i]
  {
    var r := CommonItems(a, b);
    if r == [] {
      forall i | 0 <= i < |a| ensures a[i] !in b {
        assert a[i] in a;
      }
    } else {
      assert r[0] in r;
    }
    forall i | FirstShared(a, b, i) ensures r != [] && r[0] == a[i] {
      CommonItemsFirst(a, b, i);
    }
  }

  /** The first shared item heads the common items. */
  lemma {:induction false} CommonItemsFirst(a: string, b: string, i: int)
    requires FirstShared(a, b, i)
    ensures CommonItems(a, b) != [] && CommonItems(a, b)[0] == a[i]
    decreases i
  {
    if i > 0 {
      assert a[0] !in b;
      assert CommonItems(a, b) == CommonItems(a[1..], b);
      assert FirstShared(a[1..], b, i - 1) by {
        forall j | 0 <= j < i - 1 ensures a[1..][j] !in b {
          assert a[1..][j] == a[j + 1];
        }
      }
      CommonItemsFirst(a[1..], b, i - 1);
    }
  }

  /** `find_errornous_item`: the first-half items that also occur in the
      second half. */
  function FindErroneousItem(line: string): string {
    var halves := GetCompartments(line);
    CommonItems(halves.first, halves.second)
  }

  /** `ITEM_LIST`: item types in priority order, `a` through `z` and then
      `A` through `Z`. */
  function ItemList(): (items: string)
    ensures |items| == 52
  {
    seq(52, i requires 0 <= i < 52 =>
      if i < 26 then ('a' as int + i) as char else ('A' as int + i - 26) as char)
  }

  /** The index of the first occurrence of `c` in `s`. */
  function Position(s: string, c: char): (r: Option<nat>)
    ensures r.Some? ==> r.value < |s| && s[r.value] == c && c !in s[..r.value]
    ensures r.None? <==> c !in s
  {
    if s == [] then None
    else if s[0] == c then Some(0)
    else
      match Position(s[1..], c)
      case None => None
      case Some(k) =>
        assert s[..k + 1] == [s[0]] + s[1..][..k];
        Some(k + 1)
  }

  /** `calculate_value`: the 1-based position of the item in `ITEM_LIST`;
      an item type not in the list fails on `unwrap`. */
  function CalculateValue(c: char): Option<int> {
    match Position(ItemList(), c)
    case None => None
    case Some(k) => Some(k + 1)
  }

  /** Lower-case items are worth 1 through 26, upper-case ones 27 through 52,
      and nothing else has a priority. */
  lemma CalculateValueRanges(c: char)
    ensures 'a' <= c <= 'z' ==> CalculateValue(c) == Some(c as int - 'a' as int + 1)
    ensures 'A' <= c <= 'Z' ==> CalculateValue(c) == Some(c as int - 'A' as int + 27)
    ensures CalculateValue(c).Some? <==> 'a' <= c <= 'z' || 'A' <= c <= 'Z'
  {
    var p := Position(ItemList(), c);
    if 'a' <= c <= 'z' {
      assert ItemList()[c as int - 'a' as int] == c;
    } else if 'A' <= c <= 'Z' {
      assert ItemList()[c as int - 'A' as int + 26] == c;
    }
    if p.Some? {
      assert ItemList()[p.value] == c;
    }
  }

  /** Different item types have different priorities. */
  lemma CalculateValueInjective(c: char, d: char)
    requires CalculateValue(c).Some? && CalculateValue(c) == CalculateValue(d)
    ensures c == d
  {
    CalculateValueRanges(c);
    CalculateValueRanges(d);
  }

  /** The priority of one trimmed rucksack line: the first misplaced item
      counts; a rucksack without one fails on `unwrap`, and so does a first
      misplaced item that is not a letter. */
  function LinePriority(line: string): (r: Option<int>)
    ensures r.Some? ==> 1 <= r.value <= 52
  {
    var items := FindErroneousItem(line);
    if items == [] then None
    else
      var v := CalculateValue(items[0]);
      CalculateValueRanges(items[0]);
      v
  }

  /** The priority is that of the first item of the first compartment that
      the second compartment also holds (`.chars().next()` of the filtered
      items); without such an item there is no priority. */
  lemma LinePriorityIsFirstCommonItem(line: string)
    ensures var halves := GetCompartments(line);
      forall i :: FirstShared(halves.first, halves.second, i) ==>
        LinePriority(line) == CalculateValue(halves.first[i])
    ensures var halves := GetCompartments(line);
      (forall c :: c in halves.first ==> c !in halves.second) ==> LinePriority(line).None?
  {
    var halves := GetCompartments(line);
    CommonItemsHead(halves.first, halves.second);
  }

  /** `calculate_sum_of_errornous_items`: the sum of every line's priority;
      any line that fails makes the whole sum fail. */
  function CalculateSumOfErroneousItems(input: string): Option<int> {
    SumAll(Map(Lines(input), Trim), LinePriority)
  }

  /** Each line adds between 1 and 52. */
  lemma CalculateSumBounds(input: string)
    requires CalculateSumOfErroneousItems(input).Some?
    ensures |Lines(input)| <= CalculateSumOfErroneousItems(input).value <= 52 * |Lines(input)|
  {
    var lines := Map(Lines(input), Trim);
    var priorities := MapAll(lines, LinePriority).value;
    forall i | 0 <= i < |priorities| ensures 1 <= priorities[i] <= 52 {
      assert LinePriority(lines[i]) == Some(priorities[i]);
    }
    SumBounds(priorities, 1, 52);
  }

  /** The sum goes line by line: a first line adds the priority of its
      trimmed form to the sum of the rest, failing when either fails. */
  lemma CalculateSumCons(first: string, rest: string)
    requires '\n' !in first
    ensures CalculateSumOfErroneousItems(first + "\n" + rest) ==
      var (p, sum) := (LinePriority(Trim(StripCarriageReturn(first))), CalculateSumOfErroneousItems(rest));
      if p.Some? && sum.Some? then Some(p.value + sum.value) else None
  {
    SumOfTrimmedLinesCons(first, rest, LinePriority);
  }

  /** A text without lines sums to 0. */
  lemma CalculateSumEmpty()
    ensures CalculateSumOfErroneousItems("") == Some(0)
  {
    LinesEmpty();
    assert MapAll([], LinePriority) == Some([]);
  }
}
