/** Day 4: pairs of section assignments, one pair `a-b,c-d` per line, and the
    count of pairs in which one assignment fully contains the other. */
module CampCleanup {
  import opened Wrappers
  import opened Text
  import opened Seqs
  import opened LinePipeline

  /** A Rust `Range<usize>` built as `start..end` from `start-end`. */
  datatype Range = Range(start: nat, end: nat)

  /** One assignment `a-b`: every `-`-separated piece must parse as a number,
      and the range is made of the first two; fewer than two numbers fail on
      `numbers[1]`. */
  function ParseRange(s: string): Option<Range> {
    match MapAll(Split(s, '-'), ParseNat)
    case None => None
    case Some(numbers) => if |numbers| < 2 then None else Some(Range(numbers[0], numbers[1]))
  }

  /** `get_pair_of_sections`: one range per `,`-separated piece of the line. */
  function GetPairOfSections(line: string): (r: Option<seq<Range>>)
    ensures r.Some? ==> |r.value| == multiset(line)[','] + 1
  {
    MapAll(Split(line, ','), ParseRange)
  }

  /** `fully_contained_in_ranges`: one range's endpoints both lie within the
      other's. */
  predicate FullyContained(a: Range, b: Range) {
    (a.end <= b.end && a.start >= b.start) || (b.end <= a.end && b.start >= a.start)
  }

  /** Containment does not depend on the order of the pair, and every range
      contains itself. */
  lemma FullyContainedSymmetricReflexive(a: Range, b: Range)
    ensures FullyContained(a, b) <==> FullyContained(b, a)
    ensures FullyContained(a, a)
  {
  }

  /** Whether a well-formed assignment `a-b` covers section `x`. */
  predicate Covers(r: Range, x: nat) {
    r.start <= x <= r.end
  }

  /** Every section `a` covers, `b` covers too. */
  ghost predicate Within(a: Range, b: Range) {
    forall x: nat :: Covers(a, x) ==> Covers(b, x)
  }

  /** For well-formed assignments, comparing endpoints decides exactly whether
      one covers every section of the other. */
  lemma FullyContainedMeansWithin(a: Range, b: Range)
    requires a.start <= a.end && b.start <= b.end
    ensures FullyContained(a, b) <==> Within(a, b) || Within(b, a)
  {
    if Within(a, b) {
      assert Covers(a, a.start) && Covers(a, a.end);
    }
    if Within(b, a) {
      assert Covers(b, b.start) && Covers(b, b.end);
    }
  }

  /** Whether the pair on one (already trimmed) line nests; a line with fewer
      than two ranges fails on `it[1]`. */
  function LineNests(line: string): Option<bool> {
    match GetPairOfSections(line)
    case None => None
    case Some(ranges) =>
      if |ranges| < 2 then None else Some(FullyContained(ranges[0], ranges[1]))
  }

  /** The number of `true` entries, which `filter(..).count()` computes. */
  function CountTrue(bs: seq<bool>): (n: nat)
    ensures n == multiset(bs)[true]
    ensures n <= |bs|
  {
    if bs == [] then 0
    else
      assert bs == bs[..|bs| - 1] + [bs[|bs| - 1]];
      CountTrue(bs[..|bs| - 1]) + (if bs[|bs| - 1] then 1 else 0)
  }

  /** Counting goes entry by entry. */
  lemma CountTrueCons(b: bool, bs: seq<bool>)
    ensures CountTrue([b] + bs) == (if b then 1 else 0) + CountTrue(bs)
  {
    assert multiset([b] + bs)[true] == multiset([b])[true] + multiset(bs)[true];
  }

  /** How many entries `f` accepts; an entry `f` fails on fails the lot.
      This is `map(..).filter(..).count()` with a panicking `map`. */
  function CountWhere<A>(xs: seq<A>, f: A -> Option<bool>): Option<int>
  {
    match MapAll(xs, f)
    case None => None
    case Some(bs) => Some(CountTrue(bs))
  }

  /** Counting goes entry by entry: one for the first entry when `f` accepts
      it, then the count over the rest. */
  lemma CountWhereCons<A>(x: A, xs: seq<A>, f: A -> Option<bool>)
    ensures CountWhere([x] + xs, f) ==
      if f(x).Some? && CountWhere(xs, f).Some?
      then Some((if f(x).value then 1 else 0) + CountWhere(xs, f).value)
      else None
  {
    MapAllCons(x, xs, f);
    if f(x).Some? && MapAll(xs, f).Some? {
      CountTrueCons(f(x).value, MapAll(xs, f).value);
    }
  }

  /** A count over the trimmed lines of a text goes line by line: the first
      line trimmed, then the count over the rest. */
  lemma CountOfTrimmedLinesCons(first: string, rest: string, f: string -> Option<bool>)
    requires '\n' !in first
    ensures CountWhere(Map(Lines(first + "\n" + rest), Trim), f) ==
      var (v, count) := (f(Trim(StripCarriageReturn(first))), CountWhere(Map(Lines(rest), Trim), f));
      if v.Some? && count.Some? then Some((if v.value then 1 else 0) + count.value) else None
  {
    var line, lines := Trim(StripCarriageReturn(first)), Map(Lines(rest), Trim);
    calc {
      CountWhere(Map(Lines(first + "\n" + rest), Trim), f);
    == { TrimmedLinesCons(first, rest); }
      CountWhere([line] + lines, f);
    == { CountWhereCons(line, lines, f); }
      if f(line).Some? && CountWhere(lines, f).Some?
      then Some((if f(line).value then 1 else 0) + CountWhere(lines, f).value)
      else None;
    }
  }

  /** `get_total_number_of_fully_contained_ranges`: the number of lines whose
      pair nests, each line trimmed first; any malformed line fails the lot. */
  function TotalFullyContained(input: string): Option<int> {
    CountWhere(Map(Lines(input), Trim), LineNests)
  }

  /** The count never exceeds the number of lines. */
  lemma TotalFullyContainedBound(input: string)
    requires TotalFullyContained(input).Some?
    ensures TotalFullyContained(input).value <= |Lines(input)|
  {
    var nests := MapAll(Map(Lines(input), Trim), LineNests).value;
    assert CountTrue(nests) <= |nests|;
  }

  /** A text without lines counts zero. */
  lemma TotalFullyContainedEmpty()
    ensures TotalFullyContained("") == Some(0)
  {
    LinesEmpty();
  }

  /** The count goes line by line: one for the first line when its pair
      nests, then the count over the rest; a malformed line anywhere fails
      the count. */
  lemma TotalFullyContainedCons(first: string, rest: string)
    requires '\n' !in first
    ensures TotalFullyContained(first + "\n" + rest) ==
      var (v, count) := (LineNests(Trim(StripCarriageReturn(first))), TotalFullyContained(rest));
      if v.Some? && count.Some? then Some((if v.value then 1 else 0) + count.value) else None
  {
    var line := Trim(StripCarriageReturn(first));
    var nests: string -> Option<bool> := LineNests;
    CountOfTrimmedLinesCons(first, rest, nests);
    assert nests(line) == LineNests(line);
  }

  /** The rendering `a-b` of a range. */
  function ShowRange(r: Range): string {
    NatToString(r.start) + "-" + NatToString(r.end)
  }

  /** Parsing a rendered range gives the range back. */
  lemma ParseShowRange(r: Range)
    ensures ParseRange(ShowRange(r)) == Some(r)
  {
    var a, b := NatToString(r.start), NatToString(r.end);
    NatToStringHasNo(r.start, '-');
    NatToStringHasNo(r.end, '-');
    SplitTwo(a, b, '-');
    ParseNatToString(r.start);
    ParseNatToString(r.end);
    MapAllTwo(a, b, ParseNat);
  }

  /** A rendered range holds digits and one `-` only. */
  lemma ShowRangeHasNo(r: Range, c: char)
    requires c != '-' && !IsDigit(c)
    ensures c !in ShowRange(r)
  {
    NatToStringHasNo(r.start, c);
    NatToStringHasNo(r.end, c);
  }

  /** `get_pair_of_sections` inverts the rendering `a-b,c-d` of a pair. */
  lemma GetPairOfSectionsShow(x: Range, y: Range)
    ensures GetPairOfSections(ShowRange(x) + "," + ShowRange(y)) == Some([x, y])
  {
    var a, b := ShowRange(x), ShowRange(y);
    ShowRangeHasNo(x, ',');
    ShowRangeHasNo(y, ',');
    SplitTwo(a, b, ',');
    ParseShowRange(x);
    ParseShowRange(y);
    MapAllTwo(a, b, ParseRange);
  }

  /** Text of one line counts one when that line's pair nests. */
  lemma TotalFullyContainedOne(line: string)
    requires line != "" && '\n' !in line
    ensures TotalFullyContained(line) ==
      match LineNests(Trim(line))
      case None => None
      case Some(nests) => Some(if nests then 1 else 0)
  {
    LinesOne(line);
    MapCons(line, [], Trim);
    MapAllCons(Trim(line), [], LineNests);
    assert [line] + [] == [line];
    assert [Trim(line)] + [] == [Trim(line)];
  }

  /** `n` spaces. */
  function Spaces(n: nat): (s: string)
    ensures |s| == n && forall i :: 0 <= i < n ==> s[i] == ' '
  {
    if n == 0 then "" else [' '] + Spaces(n - 1)
  }

  /** A pair of single-digit ranges is rendered as its seven characters. */
  lemma DigitPairShown(a: nat, b: nat, c: nat, d: nat)
    requires a < 10 && b < 10 && c < 10 && d < 10
    ensures [DigitChar(a), '-', DigitChar(b), ',', DigitChar(c), '-', DigitChar(d)] ==
      ShowRange(Range(a, b)) + "," + ShowRange(Range(c, d))
  {
  }

  /** A pair `a-b,c-d` of single digits nests exactly when the ranges
      `a..b` and `c..d` do. */
  lemma DigitPairNests(a: nat, b: nat, c: nat, d: nat)
    requires a < 10 && b < 10 && c < 10 && d < 10
    ensures LineNests([DigitChar(a), '-', DigitChar(b), ',', DigitChar(c), '-', DigitChar(d)]) ==
      Some(FullyContained(Range(a, b), Range(c, d)))
  {
    var pair := ShowRange(Range(a, b)) + "," + ShowRange(Range(c, d));
    calc {
      LineNests([DigitChar(a), '-', DigitChar(b), ',', DigitChar(c), '-', DigitChar(d)]);
    == { DigitPairShown(a, b, c, d); }
      LineNests(pair);
    == { GetPairOfSectionsShow(Range(a, b), Range(c, d)); }
      Some(FullyContained(Range(a, b), Range(c, d)));
    }
  }

  /** A line `a-b,c-d` of single digits after `indent` spaces is one line,
      and it nests exactly when the ranges `a..b` and `c..d` do. */
  lemma DigitLineNests(indent: nat, a: nat, b: nat, c: nat, d: nat)
    requires a < 10 && b < 10 && c < 10 && d < 10
    ensures var line := Spaces(indent) + [DigitChar(a), '-', DigitChar(b), ',', DigitChar(c), '-', DigitChar(d)];
      line != "" && '\n' !in line &&
      LineNests(Trim(StripCarriageReturn(line))) == Some(FullyContained(Range(a, b), Range(c, d)))
  {
    var pair := [DigitChar(a), '-', DigitChar(b), ',', DigitChar(c), '-', DigitChar(d)];
    var line := Spaces(indent) + pair;
    forall i | 0 <= i < |line| ensures line[i] != '\n' {
      if i >= indent {
        assert line[i] == pair[i - indent];
      }
    }
    assert StripCarriageReturn(line) == line;
    TrimIndented(Spaces(indent), pair);
    DigitPairNests(a, b, c, d);
  }

  /** A line indented by sixteen spaces, as in the puzzle example below. */
  function Indented(line: string): string {
    Spaces(16) + line
  }

  /** The puzzle example of the test at main.rs:62-67: every line after the
      first is indented by sixteen spaces, which `trim` removes. */
  function ExampleText(): string {
    "2-4,6-8" + "\n" + (Indented("2-3,4-5") + "\n" + (Indented("5-7,7-9") + "\n" +
    (Indented("2-8,3-7") + "\n" + (Indented("6-6,4-6") + "\n" + Indented("2-6,4-8")))))
  }

  /** The lines of the example hold no newline, and which of them nest. */
  lemma ExampleLines()
    ensures '\n' !in "2-4,6-8" && LineNests(Trim(StripCarriageReturn("2-4,6-8"))) == Some(false)
    ensures var line := Indented("2-3,4-5");
      '\n' !in line && LineNests(Trim(StripCarriageReturn(line))) == Some(false)
    ensures var line := Indented("5-7,7-9");
      '\n' !in line && LineNests(Trim(StripCarriageReturn(line))) == Some(false)
    ensures var line := Indented("2-8,3-7");
      '\n' !in line && LineNests(Trim(StripCarriageReturn(line))) == Some(true)
    ensures var line := Indented("6-6,4-6");
      '\n' !in line && LineNests(Trim(StripCarriageReturn(line))) == Some(true)
    ensures var line := Indented("2-6,4-8");
      line != "" && '\n' !in line && LineNests(Trim(line)) == Some(false)
  {
    assert "2-4,6-8" == Spaces(0) + [DigitChar(2), '-', DigitChar(4), ',', DigitChar(6), '-', DigitChar(8)];
    DigitLineNests(0, 2, 4, 6, 8);
    assert "2-3,4-5" == [DigitChar(2), '-', DigitChar(3), ',', DigitChar(4), '-', DigitChar(5)];
    DigitLineNests(16, 2, 3, 4, 5);
    assert "5-7,7-9" == [DigitChar(5), '-', DigitChar(7), ',', DigitChar(7), '-', DigitChar(9)];
    DigitLineNests(16, 5, 7, 7, 9);
    assert "2-8,3-7" == [DigitChar(2), '-', DigitChar(8), ',', DigitChar(3), '-', DigitChar(7)];
    DigitLineNests(16, 2, 8, 3, 7);
    assert "6-6,4-6" == [DigitChar(6), '-', DigitChar(6), ',', DigitChar(4), '-', DigitChar(6)];
    DigitLineNests(16, 6, 6, 4, 6);
    assert "2-6,4-8" == [DigitChar(2), '-', DigitChar(6), ',', DigitChar(4), '-', DigitChar(8)];
    DigitLineNests(16, 2, 6, 4, 8);
    var last := Indented("2-6,4-8");
    assert StripCarriageReturn(last) == last;
  }

  /** In the example, two pairs nest: `2-8` holds `3-7` and `4-6` holds
      `6-6`. */
  lemma ExampleTotal()
    ensures TotalFullyContained(ExampleText()) == Some(2)
  {
    var last := Indented("2-6,4-8");
    var r4 := Indented("6-6,4-6") + "\n" + last;
    var r3 := Indented("2-8,3-7") + "\n" + r4;
    var r2 := Indented("5-7,7-9") + "\n" + r3;
    var r1 := Indented("2-3,4-5") + "\n" + r2;
    ExampleLines();
    TotalFullyContainedOne(last);
    TotalFullyContainedCons(Indented("6-6,4-6"), last);
    TotalFullyContainedCons(Indented("2-8,3-7"), r4);
    TotalFullyContainedCons(Indented("5-7,7-9"), r3);
    TotalFullyContainedCons(Indented("2-3,4-5"), r2);
    TotalFullyContainedCons("2-4,6-8", r1);
  }
}
