/** Day 5: supply stacks. The input draws crate stacks as ASCII art, then a
    blank line, then `move N from A to B` instructions; a crane executes them
    and the answer is the top crate of every stack. The crane either moves
    crates one at a time (the CrateMover 9000) or a whole block at once (the
    CrateMover 9001). A stack is a string listing its crates bottom to top. */
module SupplyStacks {
  import opened Wrappers
  import opened Text
  import opened Seqs

  type Stack = seq<char>

  // ---------------------------------------------------------------------------
  // `get_stacks_and_instructions`

  /** `pat` occurs in `s` starting at position `p`. */
  predicate MatchAt(s: string, pat: string, p: nat) {
    p + |pat| <= |s| && s[p..p + |pat|] == pat
  }

  /** Rust's `str::contains` with a string pattern. */
  predicate Contains(s: string, pat: string) {
    exists p: nat | p <= |s| :: MatchAt(s, pat, p)
  }

  /** The strings glued together, as collecting `&str` pieces into a `String`
      does. */
  function Concat(ss: seq<string>): (r: string)
    ensures |ss| == 1 ==> r == ss[0]
  {
    if ss == [] then "" else Concat(ss[..|ss| - 1]) + ss[|ss| - 1]
  }

  /** The blocks that mention (or do not mention) a move. */
  function FilterMoves(blocks: seq<string>, moves: bool): (r: seq<string>)
    ensures forall i :: 0 <= i < |r| ==> Contains(r[i], "move") == moves
    ensures forall x :: x in r <==> x in blocks && Contains(x, "move") == moves
    ensures |r| <= |blocks|
  {
    if blocks == [] then []
    else
      var rest := FilterMoves(blocks[1..], moves);
      if Contains(blocks[0], "move") == moves then [blocks[0]] + rest else rest
  }

  /** `partition` puts every block in exactly one of the two halves. */
  lemma {:induction false} FilterMovesPartition(blocks: seq<string>)
    ensures |FilterMoves(blocks, false)| + |FilterMoves(blocks, true)| == |blocks|
  {
    if blocks != [] {
      FilterMovesPartition(blocks[1..]);
    }
  }

  /** The two halves of the input: the blank-line-separated blocks without a
      `move` glued together, and those with one. */
  datatype Sections = Sections(stacks: string, instructions: string)

  /** `get_stacks_and_instructions`: `split("\n\n")` then `partition`. */
  function GetStacksAndInstructions(input: string): Sections {
    var blocks := SplitOn(input, "\n\n");
    Sections(Concat(FilterMoves(blocks, false)), Concat(FilterMoves(blocks, true)))
  }

  /** Splitting on a pattern that occurs nowhere gives the whole string. */
  lemma {:induction false} SplitOnNoMatch(s: string, pat: string)
    requires |pat| > 0
    requires forall p: nat :: !MatchAt(s, pat, p)
    ensures SplitOn(s, pat) == [s]
    decreases |s|
  {
    if |s| >= |pat| {
      assert !MatchAt(s, pat, 0);
      assert s[0..|pat|] == s[..|pat|];
      forall p: nat ensures !MatchAt(s[1..], pat, p) {
        assert !MatchAt(s, pat, p + 1);
        if p + |pat| <= |s[1..]| {
          assert s[1..][p..p + |pat|] == s[p + 1..p + 1 + |pat|];
        }
      }
      SplitOnNoMatch(s[1..], pat);
      assert [s[0]] + s[1..] == s;
    }
  }

  /** When no occurrence of `pat` starts inside `a`, the first piece of
      `a + pat + b` is `a` and the rest is the split of `b`. */
  lemma {:induction false} SplitOnPrefix(a: string, pat: string, b: string)
    requires |pat| > 0
    requires forall p: nat :: p < |a| ==> !MatchAt(a + pat + b, pat, p)
    ensures SplitOn(a + pat + b, pat) == [a] + SplitOn(b, pat)
    decreases |a|
  {
    var s := a + pat + b;
    if a == [] {
      assert s == pat + b;
      assert s[..|pat|] == pat && s[|pat|..] == b;
    } else {
      assert !MatchAt(s, pat, 0);
      assert s[0..|pat|] == s[..|pat|];
      assert s[1..] == a[1..] + pat + b;
      forall p: nat | p < |a[1..]| ensures !MatchAt(a[1..] + pat + b, pat, p) {
        assert !MatchAt(s, pat, p + 1);
        assert s[1..][p..p + |pat|] == s[p + 1..p + 1 + |pat|];
      }
      SplitOnPrefix(a[1..], pat, b);
      assert [a[0]] + a[1..] == a;
    }
  }

  /** A `\n\n`-free string that does not end in a newline, then a blank line,
      then a `\n\n`-free string: no occurrence of `\n\n` starts in the first
      part. */
  lemma NoSeparatorInFirst(a: string, b: string)
    requires !Contains(a, "\n\n") && (a == [] || a[|a| - 1] != '\n')
    ensures forall p: nat :: p < |a| ==> !MatchAt(a + "\n\n" + b, "\n\n", p)
  {
    var s := a + "\n\n" + b;
    forall p: nat | p < |a| ensures !MatchAt(s, "\n\n", p) {
      if p + 2 <= |a| {
        assert !MatchAt(a, "\n\n", p);
        assert s[p..p + 2] == a[p..p + 2];
      } else {
        assert s[p] == a[|a| - 1];
      }
    }
  }

  /** The drawing and the instructions separated by one blank line come apart
      into exactly those two strings. */
  lemma GetStacksAndInstructionsSplits(drawing: string, moves: string)
    requires !Contains(drawing, "\n\n") && (drawing == [] || drawing[|drawing| - 1] != '\n')
    requires !Contains(moves, "\n\n")
    requires !Contains(drawing, "move") && Contains(moves, "move")
    ensures GetStacksAndInstructions(drawing + "\n\n" + moves) == Sections(drawing, moves)
  {
    NoSeparatorInFirst(drawing, moves);
    SplitOnPrefix(drawing, "\n\n", moves);
    forall p: nat ensures !MatchAt(moves, "\n\n", p) {
      if p <= |moves| {
        assert !MatchAt(moves, "\n\n", p);
      }
    }
    SplitOnNoMatch(moves, "\n\n");
    var blocks := [drawing, moves];
    assert SplitOn(drawing + "\n\n" + moves, "\n\n") == blocks;
    assert blocks[1..] == [moves];
    assert FilterMoves(blocks, false) == [drawing];
    assert FilterMoves(blocks, true) == [moves];
  }

  // ---------------------------------------------------------------------------
  // `parse_stacks`

  /** The crate drawn for stack `k` in a drawing row: byte `4k + 1` of the row
      (the letter inside `[X]`), unless that byte is missing or blank. */
  function Crate(row: string, k: nat): Option<char> {
    if 4 * k + 1 < |row| && row[4 * k + 1] != ' ' then Some(row[4 * k + 1]) else None
  }

  function CrateList(row: string, k: nat): Stack {
    match Crate(row, k)
    case None => []
    case Some(c) => [c]
  }

  /** Stack `k` as drawn by `rows` (listed top row first): the crates from the
      bottom row up, blanks skipped. */
  function Column(rows: seq<string>, k: nat): (col: Stack)
    ensures |col| <= |rows|
  {
    if rows == [] then [] else Column(rows[1..], k) + CrateList(rows[0], k)
  }

  /** The number of stacks that the label row announces: the last character
      of the trimmed row, read as a number. */
  function LabelCount(legend: string): Option<nat> {
    var t := Trim(legend);
    if t == [] then None else ParseNat([t[|t| - 1]])
  }

  /** A drawing row can be read into `n` stacks: it does not end in a lone
      byte of a 4-byte chunk (whose index 1 is missing), and every crate it
      draws belongs to one of the `n` stacks. */
  predicate RowFits(row: string, n: nat) {
    |row| % 4 != 1 && forall k: nat | k < |row| :: Crate(row, k).Some? ==> k < n
  }

  /** What `parse_stacks` computes: nothing for no lines; otherwise the last
      line announces `n` stacks, and stack `k` holds column `k` of the
      drawing above it, provided every row fits. */
  function StacksOf(input: string): Option<seq<Stack>> {
    var lines := Lines(input);
    if lines == [] then Some([])
    else
      match LabelCount(lines[|lines| - 1])
      case None => None
      case Some(n) =>
        Drawing(lines[..|lines| - 1], n)
  }

  /** `n` stacks read from the drawing `rows`: stack `k` holds column `k`,
      provided every row fits. */
  function Drawing(rows: seq<string>, n: nat): Option<seq<Stack>> {
    if forall i :: 0 <= i < |rows| ==> RowFits(rows[i], n)
    then Some(seq(n, k requires 0 <= k < n => Column(rows, k)))
    else None
  }

  /** One drawing row placed on top of `stacks`: every stack `k` gains the
      crate drawn for it, provided the row fits. */
  function PlaceRow(stacks: seq<Stack>, row: string): Option<seq<Stack>> {
    if RowFits(row, |stacks|)
    then Some(seq(|stacks|, k requires 0 <= k < |stacks| => stacks[k] + CrateList(row, k)))
    else None
  }

  /** The inner loop of `parse_stacks`: the row cut into 4-byte chunks, the
      byte at index 1 of chunk `k` pushed onto stack `k` unless it is blank. A
      chunk without an index 1, or a crate for a stack that does not exist,
      fails. */
  method PushRow(stacks0: seq<Stack>, row: string) returns (r: Option<seq<Stack>>)
    ensures r == PlaceRow(stacks0, row)
  {
    var n := |stacks0|;
    var stacks := stacks0;
    var k := 0;
    while 4 * k < |row|
      invariant |stacks| == n
      invariant forall c :: 0 <= c < k ==> 4 * c + 1 < |row|
      invariant forall c :: 0 <= c < k ==> Crate(row, c).Some? ==> c < n
      invariant forall c :: 0 <= c < n ==>
        stacks[c] == if c < k then stacks0[c] + CrateList(row, c) else stacks0[c]
      decreases |row| - 4 * k
    {
      if 4 * k + 1 >= |row| {
        assert |row| == 4 * k + 1 && (4 * k + 1) % 4 == 1;
        assert !RowFits(row, n);
        return None;
      }
      var letter := row[4 * k + 1];
      if letter != ' ' {
        if k >= n {
          assert Crate(row, k).Some? && k < |row|;
          assert !RowFits(row, n);
          return None;
        }
        stacks := stacks[k := stacks[k] + [letter]];
      }
      k := k + 1;
    }
    assert RowFits(row, n) by {
      forall c: nat | c < |row| && Crate(row, c).Some? ensures c < n {
        assert c < k;
      }
      if k > 0 {
        assert 4 * (k - 1) + 1 < |row|;
      }
    }
    forall c | 0 <= c < n ensures stacks[c] == stacks0[c] + CrateList(row, c) {
      if c >= k {
        assert 4 * c + 1 > |row|;
        assert stacks0[c] + [] == stacks0[c];
      }
    }
    r := Some(stacks);
    assert stacks == seq(n, c requires 0 <= c < n => stacks0[c] + CrateList(row, c));
  }

  /** Adding a row above the drawing adds its crates on top of every column. */
  lemma ColumnAbove(rows: seq<string>, a: nat, k: nat)
    requires 0 < a <= |rows|
    ensures Column(rows[a - 1..], k) == Column(rows[a..], k) + CrateList(rows[a - 1], k)
  {
    assert rows[a - 1..][1..] == rows[a..];
  }

  /** `parse_stacks`: the label row (the last line) creates the stacks, then
      the rows above it are read bottom up. */
  method ParseStacks(input: string) returns (r: Option<seq<Stack>>)
    ensures r == StacksOf(input)
  {
    var lines := Lines(input);
    if lines == [] {
      return Some([]);
    }
    var count := LabelCount(lines[|lines| - 1]);
    if count.None? {
      return None;
    }
    r := ReadDrawing(lines[..|lines| - 1], count.value);
  }

  /** The loop of `parse_stacks` once the label row is read: `n` empty stacks,
      then every row from the bottom up pushes its crates. */
  method ReadDrawing(rows: seq<string>, n: nat) returns (r: Option<seq<Stack>>)
    ensures r == Drawing(rows, n)
  {
    var stacks: seq<Stack> := [];
    while |stacks| < n
      invariant |stacks| <= n
      invariant forall k :: 0 <= k < |stacks| ==> stacks[k] == []
    {
      stacks := stacks + [[]];
    }
    var j := 0;
    while j < |rows|
      invariant 0 <= j <= |rows| && |stacks| == n
      invariant forall k :: 0 <= k < n ==> stacks[k] == Column(rows[|rows| - j..], k)
      invariant forall i :: |rows| - j <= i < |rows| ==> RowFits(rows[i], n)
    {
      var next := PushRow(stacks, rows[|rows| - 1 - j]);
      if next.None? {
        return None;
      }
      forall k | 0 <= k < n ensures next.value[k] == Column(rows[|rows| - 1 - j..], k) {
        ColumnAbove(rows, |rows| - j, k);
      }
      stacks := next.value;
      j := j + 1;
    }
    assert rows[|rows| - j..] == rows;
    r := Some(stacks);
    assert r.value == seq(n, k requires 0 <= k < n => Column(rows, k));
  }

  /** The number of stacks is the digit that ends the label row, and every
      stack is as long as the crates drawn in its column. */
  lemma StacksOfShape(input: string)
    requires StacksOf(input).Some? && Lines(input) != []
    ensures var lines := Lines(input);
      LabelCount(lines[|lines| - 1]) == Some(|StacksOf(input).value|)
    ensures var lines := Lines(input);
      var rows := lines[..|lines| - 1];
      forall k :: 0 <= k < |StacksOf(input).value| ==>
        StacksOf(input).value[k] == Column(rows, k)
  {
  }

  /** A crate drawn in the top row lands at the top of its stack, one drawn
      in any lower row sits below the crates drawn above it. */
  lemma {:induction false} ColumnTop(rows: seq<string>, k: nat)
    requires rows != [] && Crate(rows[0], k).Some?
    ensures Column(rows, k) == Column(rows[1..], k) + [Crate(rows[0], k).value]
    ensures Column(rows, k)[|Column(rows, k)| - 1] == Crate(rows[0], k).value
  {
  }

  /** The drawing of the example: `Z N`, `M C D` and `P` from the bottom. */
  lemma ExampleDrawing()
    ensures var rows := ["    [D]", "[N] [C]", "[Z] [M] [P]"];
      Column(rows, 0) == "ZN" && Column(rows, 1) == "MCD" && Column(rows, 2) == "P"
  {
    var rows := ["    [D]", "[N] [C]", "[Z] [M] [P]"];
    assert rows[1..] == ["[N] [C]", "[Z] [M] [P]"];
    assert rows[1..][1..] == ["[Z] [M] [P]"];
    assert rows[1..][1..][1..] == [];
  }

  // ---------------------------------------------------------------------------
  // `Instruction::from`, `parse_instructions`

  /** A move as written: `iterations` crates from stack `from` to stack `to`,
      both counted from 1. */
  datatype Instruction = Instruction(iterations: nat, from: nat, to: nat)

  /** `Instruction::from`: the tokens at positions 1, 3 and 5 of the
      space-separated line are the three numbers; the others are skipped
      unread. A missing token or a token that is not a number fails. */
  function ParseInstruction(line: string): Option<Instruction> {
    var parts := Split(line, ' ');
    if |parts| < 6 then None
    else
      match MapAll([parts[1], parts[3], parts[5]], ParseNat)
      case None => None
      case Some(ns) => Some(Instruction(ns[0], ns[1], ns[2]))
  }

  /** The line `move N from A to B`. */
  function ShowInstruction(ins: Instruction): string {
    Join(InstructionWords(ins), ' ')
  }

  /** The six words of an instruction's line. */
  function InstructionWords(ins: Instruction): (words: seq<string>)
    ensures |words| == 6 && forall i :: 0 <= i < 6 ==> ' ' !in words[i]
  {
    NatToStringHasNo(ins.iterations, ' ');
    NatToStringHasNo(ins.from, ' ');
    NatToStringHasNo(ins.to, ' ');
    ["move", NatToString(ins.iterations), "from", NatToString(ins.from), "to", NatToString(ins.to)]
  }

  /** An instruction's line reads `move N from A to B`. */
  lemma ShowInstructionReads(ins: Instruction)
    ensures ShowInstruction(ins) == "move " + NatToString(ins.iterations) + " from " +
      NatToString(ins.from) + " to " + NatToString(ins.to)
  {
    var n, a, b := NatToString(ins.iterations), NatToString(ins.from), NatToString(ins.to);
    var parts := InstructionWords(ins);
    assert parts[1..] == [n, "from", a, "to", b];
    assert parts[1..][1..] == ["from", a, "to", b];
    assert parts[1..][1..][1..] == [a, "to", b];
    assert parts[1..][1..][1..][1..] == ["to", b];
    assert parts[1..][1..][1..][1..][1..] == [b];
    assert Join(parts[1..][1..][1..][1..], ' ') == "to" + " " + b;
    assert Join(parts[1..][1..][1..], ' ') == a + " " + ("to" + " " + b);
    assert Join(parts[1..][1..], ' ') == "from" + " " + (a + " " + ("to" + " " + b));
    assert Join(parts[1..], ' ') == n + " " + ("from" + " " + (a + " " + ("to" + " " + b)));
  }

  /** Three rendered numbers parse back to themselves. */
  lemma ParseNumbers(x: nat, y: nat, z: nat)
    ensures MapAll([NatToString(x), NatToString(y), NatToString(z)], ParseNat) == Some([x, y, z])
  {
    var words, values := [NatToString(x), NatToString(y), NatToString(z)], [x, y, z];
    ParseNatToString(x);
    ParseNatToString(y);
    ParseNatToString(z);
    assert forall i :: 0 <= i < 3 ==> ParseNat(words[i]) == Some(values[i]);
    MapAllSome(words, ParseNat, values);
  }

  /** Parsing an instruction's own line gives it back. */
  lemma ParseShowInstruction(ins: Instruction)
    ensures ParseInstruction(ShowInstruction(ins)) == Some(ins)
  {
    var words := InstructionWords(ins);
    SplitJoin(words, ' ');
    ParseNumbers(ins.iterations, ins.from, ins.to);
    assert [words[1], words[3], words[5]] ==
      [NatToString(ins.iterations), NatToString(ins.from), NatToString(ins.to)];
  }

  /** `parse_instructions`: one instruction per line, failing as a whole. */
  function ParseInstructions(input: string): (r: Option<seq<Instruction>>)
    ensures r.Some? ==> |r.value| == |Lines(input)|
    ensures r.Some? ==> forall i :: 0 <= i < |r.value| ==>
      ParseInstruction(Lines(input)[i]) == Some(r.value[i])
    ensures r.None? <==> exists i :: 0 <= i < |Lines(input)| && ParseInstruction(Lines(input)[i]).None?
  {
    MapAll(Lines(input), ParseInstruction)
  }

  // ---------------------------------------------------------------------------
  // `execute_instructions`: the reference definitions

  /** One crate from the top of stack `from` onto stack `to` (0-based): a
      missing or empty source stack, or a missing destination, fails. */
  function MoveOne(stacks: seq<Stack>, from: nat, to: nat): Option<seq<Stack>> {
    if from >= |stacks| || stacks[from] == [] || to >= |stacks| then None
    else
      var s := stacks[from];
      var popped := stacks[from := s[..|s| - 1]];
      Some(popped[to := popped[to] + [s[|s| - 1]]])
  }

  /** The CrateMover 9000: `n` single-crate moves one after another. */
  function Move9000(stacks: seq<Stack>, from: nat, to: nat, n: nat): Option<seq<Stack>> {
    if n == 0 then Some(stacks)
    else
      match Move9000(stacks, from, to, n - 1)
      case None => None
      case Some(s) => MoveOne(s, from, to)
  }

  /** The CrateMover 9001: the top `n` crates of stack `from` are popped into
      a block (so `from` must exist and hold them when `n > 0`), and the block
      is then appended to stack `to` (which must exist even when `n == 0`). */
  function Move9001(stacks: seq<Stack>, from: nat, to: nat, n: nat): Option<seq<Stack>> {
    if n > 0 && (from >= |stacks| || |stacks[from]| < n) then None
    else if to >= |stacks| then None
    else if n == 0 then Some(stacks[to := stacks[to]])
    else
      var s := stacks[from];
      var popped := stacks[from := s[..|s| - n]];
      Some(popped[to := popped[to] + s[|s| - n..]])
  }

  /** One instruction. Its 1-based stack numbers are lowered first, so a stack
      number 0 fails before anything moves. */
  function Apply(stacks: seq<Stack>, ins: Instruction, mover9001: bool): Option<seq<Stack>> {
    if ins.from == 0 || ins.to == 0 then None
    else if mover9001 then Move9001(stacks, ins.from - 1, ins.to - 1, ins.iterations)
    else Move9000(stacks, ins.from - 1, ins.to - 1, ins.iterations)
  }

  /** The instructions in order; the first one that fails fails the lot. */
  function Execute(stacks: seq<Stack>, instrs: seq<Instruction>, mover9001: bool): Option<seq<Stack>> {
    if instrs == [] then Some(stacks)
    else
      match Execute(stacks, instrs[..|instrs| - 1], mover9001)
      case None => None
      case Some(s) => Apply(s, instrs[|instrs| - 1], mover9001)
  }

  // ---------------------------------------------------------------------------
  // `execute_instructions`: the loops

  /** The body of the `for_each` in `execute_instructions`: the inner loop pops
      `iterations` crates, pushing each onto the destination (9000) or onto
      the front of a block that is appended afterwards (9001). */
  method ExecuteInstruction(stacks0: seq<Stack>, ins: Instruction, mover9001: bool)
    returns (r: Option<seq<Stack>>)
    ensures r == Apply(stacks0, ins, mover9001)
  {
    if ins.from == 0 || ins.to == 0 {
      return None;
    }
    var from, to := ins.from - 1, ins.to - 1;
    var stacks := stacks0;
    var block: Stack := [];
    var i := 0;
    while i < ins.iterations
      invariant i <= ins.iterations
      invariant !mover9001 ==> Move9000(stacks0, from, to, i) == Some(stacks)
      invariant mover9001 ==> |stacks| == |stacks0|
      invariant mover9001 && i == 0 ==> stacks == stacks0 && block == []
      invariant mover9001 && i > 0 ==> from < |stacks0| && i <= |stacks0[from]|
      invariant mover9001 && i > 0 ==>
        var s := stacks0[from];
        stacks == stacks0[from := s[..|s| - i]] && block == s[|s| - i..]
    {
      if from >= |stacks| || stacks[from] == [] {
        if !mover9001 {
          Move9000Fails(stacks0, from, to, i + 1, ins.iterations);
        }
        return None;
      }
      var s := stacks[from];
      var letter := s[|s| - 1];
      stacks := stacks[from := s[..|s| - 1]];
      if mover9001 {
        ghost var s0 := stacks0[from];
        assert s0[..|s0| - 0] == s0;
        assert s == s0[..|s0| - i];
        block := [letter] + block;
        assert s0[..|s0| - i][..|s0| - i - 1] == s0[..|s0| - (i + 1)];
        assert s0[|s0| - (i + 1)..] == [s0[|s0| - (i + 1)]] + s0[|s0| - i..];
      } else {
        if to >= |stacks| {
          Move9000Fails(stacks0, from, to, i + 1, ins.iterations);
          return None;
        }
        stacks := stacks[to := stacks[to] + [letter]];
      }
      i := i + 1;
    }
    if mover9001 {
      if to >= |stacks| {
        return None;
      }
      assert stacks0[to] + [] == stacks0[to];
      stacks := stacks[to := stacks[to] + block];
    }
    r := Some(stacks);
  }

  /** `execute_instructions`: every instruction in turn, on the same stacks. */
  method ExecuteInstructions(stacks0: seq<Stack>, instrs: seq<Instruction>, mover9001: bool)
    returns (r: Option<seq<Stack>>)
    ensures r == Execute(stacks0, instrs, mover9001)
  {
    var stacks := stacks0;
    var j := 0;
    while j < |instrs|
      invariant 0 <= j <= |instrs|
      invariant Execute(stacks0, instrs[..j], mover9001) == Some(stacks)
    {
      assert instrs[..j + 1][..j] == instrs[..j];
      var next := ExecuteInstruction(stacks, instrs[j], mover9001);
      if next.None? {
        ExecuteFails(stacks0, instrs, j + 1, mover9001);
        return None;
      }
      stacks := next.value;
      j := j + 1;
    }
    assert instrs[..j] == instrs;
    r := Some(stacks);
  }

  /** Once a 9000 move fails, more iterations fail too. */
  lemma {:induction false} Move9000Fails(stacks: seq<Stack>, from: nat, to: nat, k: nat, n: nat)
    requires k <= n && Move9000(stacks, from, to, k).None?
    ensures Move9000(stacks, from, to, n).None?
    decreases n
  {
    if n > k {
      Move9000Fails(stacks, from, to, k, n - 1);
    }
  }

  /** Once an instruction fails, the instructions after it change nothing. */
  lemma {:induction false} ExecuteFails(stacks: seq<Stack>, instrs: seq<Instruction>, k: nat, mover9001: bool)
    requires k <= |instrs| && Execute(stacks, instrs[..k], mover9001).None?
    ensures Execute(stacks, instrs, mover9001).None?
    decreases |instrs| - k
  {
    if k < |instrs| {
      assert instrs[..k + 1][..k] == instrs[..k];
      ExecuteFails(stacks, instrs, k + 1, mover9001);
    } else {
      assert instrs[..k] == instrs;
    }
  }

  // ---------------------------------------------------------------------------
  // Properties of the moves

  /** The CrateMover 9000 between two different stacks: the source loses its
      top `n` crates, the destination gains them in reverse order, and no
      other stack changes. */
  lemma {:induction false} Move9000Reverses(stacks: seq<Stack>, from: nat, to: nat, n: nat)
    requires from != to && from < |stacks| && to < |stacks| && n <= |stacks[from]|
    ensures var s := stacks[from];
      Move9000(stacks, from, to, n) ==
        Some(stacks[from := s[..|s| - n]][to := stacks[to] + Reverse(s[|s| - n..])])
  {
    var s := stacks[from];
    if n == 0 {
      assert s[..|s| - 0] == s && s[|s| - 0..] == [];
      assert Reverse(s[|s| - 0..]) == [];
      assert stacks[to] + Reverse(s[|s| - 0..]) == stacks[to];
      assert stacks[from := s[..|s| - 0]][to := stacks[to] + Reverse(s[|s| - 0..])] == stacks;
    } else {
      Move9000Reverses(stacks, from, to, n - 1);
      MoveOneAfterReversed(stacks, from, to, n);
    }
  }

  /** The inductive step: one more single-crate move takes the next crate
      down the source and puts it on top of the reversed block. */
  lemma MoveOneAfterReversed(stacks: seq<Stack>, from: nat, to: nat, n: nat)
    requires from != to && from < |stacks| && to < |stacks| && 0 < n <= |stacks[from]|
    ensures var s := stacks[from];
      var before := stacks[from := s[..|s| - (n - 1)]][to := stacks[to] + Reverse(s[|s| - (n - 1)..])];
      MoveOne(before, from, to) ==
        Some(stacks[from := s[..|s| - n]][to := stacks[to] + Reverse(s[|s| - n..])])
  {
    var s := stacks[from];
    var before := stacks[from := s[..|s| - (n - 1)]][to := stacks[to] + Reverse(s[|s| - (n - 1)..])];
    var src := before[from];
    assert src == s[..|s| - (n - 1)];
    var top := src[|src| - 1];
    assert top == s[|s| - n] && src[..|src| - 1] == s[..|s| - n];
    var moved := s[|s| - n..];
    assert moved[0] == top && moved[1..] == s[|s| - (n - 1)..];
    assert Reverse(moved) == Reverse(moved[1..]) + [moved[0]];
    var popped := before[from := s[..|s| - n]];
    assert popped == stacks[from := s[..|s| - n]][to := stacks[to] + Reverse(s[|s| - (n - 1)..])];
    assert popped[to] + [top] == stacks[to] + Reverse(moved);
    assert MoveOne(before, from, to) == Some(popped[to := popped[to] + [top]]);
    assert popped[to := popped[to] + [top]] ==
      stacks[from := s[..|s| - n]][to := stacks[to] + Reverse(moved)];
  }

  /** The CrateMover 9000 between two different stacks fails exactly when
      `n > 0` and a stack is missing or the source holds fewer than `n`
      crates. */
  lemma {:induction false} Move9000FailsWhen(stacks: seq<Stack>, from: nat, to: nat, n: nat)
    requires from != to
    ensures Move9000(stacks, from, to, n).None? <==>
      n > 0 && (from >= |stacks| || to >= |stacks| || |stacks[from]| < n)
  {
    if n > 0 {
      Move9000FailsWhen(stacks, from, to, n - 1);
      if from < |stacks| && to < |stacks| && |stacks[from]| >= n - 1 {
        Move9000Reverses(stacks, from, to, n - 1);
        var s := stacks[from];
        var before := Move9000(stacks, from, to, n - 1).value;
        assert |before| == |stacks| && |before[from]| == |s| - (n - 1);
      }
    }
  }

  /** The CrateMover 9000 with the same source and destination puts every
      crate back where it was, and fails only when asked to move from a
      missing or empty stack. */
  lemma {:induction false} Move9000SameStack(stacks: seq<Stack>, from: nat, n: nat)
    ensures Move9000(stacks, from, from, n) ==
      if n > 0 && (from >= |stacks| || stacks[from] == []) then None else Some(stacks)
  {
    if n > 0 {
      Move9000SameStack(stacks, from, n - 1);
      if from < |stacks| && stacks[from] != [] {
        var s := stacks[from];
        var popped := stacks[from := s[..|s| - 1]];
        assert popped[from] + [s[|s| - 1]] == s;
        assert popped[from := s] == stacks;
      }
    }
  }

  /** The CrateMover 9001 between two different stacks: the block keeps its
      order on the destination and no other stack changes; it needs the
      destination to exist and, when it moves anything, the source to hold
      enough crates. */
  lemma Move9001KeepsOrder(stacks: seq<Stack>, from: nat, to: nat, n: nat)
    requires from != to && Move9001(stacks, from, to, n).Some?
    ensures to < |stacks|
    ensures n == 0 ==> Move9001(stacks, from, to, n).value == stacks
    ensures n > 0 ==> from < |stacks| && n <= |stacks[from]|
    ensures n > 0 ==>
      var s := stacks[from];
      var r := Move9001(stacks, from, to, n).value;
      |r| == |stacks| &&
      r[from] == s[..|s| - n] && r[to] == stacks[to] + s[|s| - n..] &&
      forall k :: 0 <= k < |stacks| && k != from && k != to ==> r[k] == stacks[k]
  {
    if n == 0 {
      assert stacks[to := stacks[to]] == stacks;
    }
  }

  /** Every crate in the warehouse. */
  function AllCrates(stacks: seq<Stack>): multiset<char> {
    if stacks == [] then multiset{}
    else AllCrates(stacks[..|stacks| - 1]) + multiset(stacks[|stacks| - 1])
  }

  /** Replacing one stack swaps its crates for the new ones. */
  lemma {:induction false} AllCratesUpdate(stacks: seq<Stack>, k: nat, x: Stack)
    requires k < |stacks|
    ensures AllCrates(stacks[k := x]) + multiset(stacks[k]) == AllCrates(stacks) + multiset(x)
  {
    var last := |stacks| - 1;
    var t := stacks[k := x];
    assert AllCrates(t) == AllCrates(t[..last]) + multiset(t[last]);
    assert AllCrates(stacks) == AllCrates(stacks[..last]) + multiset(stacks[last]);
    if k < last {
      var init := stacks[..last];
      assert t[..last] == init[k := x];
      assert t[last] == stacks[last] && init[k] == stacks[k];
      AllCratesUpdate(init, k, x);
      calc {
        AllCrates(t) + multiset(stacks[k]);
        AllCrates(init[k := x]) + multiset(stacks[last]) + multiset(init[k]);
        AllCrates(init[k := x]) + multiset(init[k]) + multiset(stacks[last]);
        AllCrates(init) + multiset(x) + multiset(stacks[last]);
        AllCrates(stacks) + multiset(x);
      }
    } else {
      assert t[..last] == stacks[..last];
    }
  }

  /** Moving a crate neither creates nor destroys crates or stacks. */
  lemma MoveOneConserves(stacks: seq<Stack>, from: nat, to: nat)
    requires MoveOne(stacks, from, to).Some?
    ensures |MoveOne(stacks, from, to).value| == |stacks|
    ensures AllCrates(MoveOne(stacks, from, to).value) == AllCrates(stacks)
  {
    var s := stacks[from];
    assert s == s[..|s| - 1] + [s[|s| - 1]];
    AllCratesMove(stacks, from, to, s[..|s| - 1], [s[|s| - 1]]);
  }

  /** Taking a block off the top of one stack and putting it on another
      keeps every crate. */
  lemma AllCratesMove(stacks: seq<Stack>, from: nat, to: nat, keep: Stack, block: Stack)
    requires from < |stacks| && to < |stacks| && stacks[from] == keep + block
    ensures var popped := stacks[from := keep];
      AllCrates(popped[to := popped[to] + block]) == AllCrates(stacks)
  {
    var popped := stacks[from := keep];
    var moved := popped[to := popped[to] + block];
    AllCratesUpdate(stacks, from, keep);
    assert multiset(keep + block) == multiset(keep) + multiset(block);
    forall c ensures (AllCrates(popped) + multiset(block))[c] == AllCrates(stacks)[c] {
      assert (AllCrates(popped) + multiset(keep + block))[c] == (AllCrates(stacks) + multiset(keep))[c];
    }
    assert AllCrates(popped) + multiset(block) == AllCrates(stacks);
    AllCratesUpdate(popped, to, popped[to] + block);
    assert multiset(popped[to] + block) == multiset(popped[to]) + multiset(block);
    forall c ensures AllCrates(moved)[c] == AllCrates(stacks)[c] {
      assert (AllCrates(moved) + multiset(popped[to]))[c] == (AllCrates(popped) + multiset(popped[to] + block))[c];
    }
    assert AllCrates(moved) == AllCrates(stacks);
  }

  lemma {:induction false} Move9000Conserves(stacks: seq<Stack>, from: nat, to: nat, n: nat)
    requires Move9000(stacks, from, to, n).Some?
    ensures |Move9000(stacks, from, to, n).value| == |stacks|
    ensures AllCrates(Move9000(stacks, from, to, n).value) == AllCrates(stacks)
  {
    if n > 0 {
      Move9000Conserves(stacks, from, to, n - 1);
      MoveOneConserves(Move9000(stacks, from, to, n - 1).value, from, to);
    }
  }

  lemma Move9001Conserves(stacks: seq<Stack>, from: nat, to: nat, n: nat)
    requires Move9001(stacks, from, to, n).Some?
    ensures |Move9001(stacks, from, to, n).value| == |stacks|
    ensures AllCrates(Move9001(stacks, from, to, n).value) == AllCrates(stacks)
  {
    if n > 0 {
      var s := stacks[from];
      var block := s[|s| - n..];
      assert s == s[..|s| - n] + block;
      AllCratesMove(stacks, from, to, s[..|s| - n], block);
    } else {
      assert stacks[to := stacks[to]] == stacks;
    }
  }

  /** Executing instructions keeps the number of stacks and the crates in
      the warehouse, whichever crane runs them. */
  lemma {:induction false} ExecuteConserves(stacks: seq<Stack>, instrs: seq<Instruction>, mover9001: bool)
    requires Execute(stacks, instrs, mover9001).Some?
    ensures |Execute(stacks, instrs, mover9001).value| == |stacks|
    ensures AllCrates(Execute(stacks, instrs, mover9001).value) == AllCrates(stacks)
  {
    if instrs != [] {
      var init := instrs[..|instrs| - 1];
      ExecuteConserves(stacks, init, mover9001);
      var mid := Execute(stacks, init, mover9001).value;
      var ins := instrs[|instrs| - 1];
      if mover9001 {
        Move9001Conserves(mid, ins.from - 1, ins.to - 1, ins.iterations);
      } else {
        Move9000Conserves(mid, ins.from - 1, ins.to - 1, ins.iterations);
      }
    }
  }

  // ---------------------------------------------------------------------------
  // `restack_crates_and_return_top_crate`

  function Top(s: Stack): Option<char> {
    if s == [] then None else Some(s[|s| - 1])
  }

  /** The top crate of every stack; an empty stack fails on `unwrap`. */
  function TopCrates(stacks: seq<Stack>): (r: Option<string>)
    ensures r.Some? ==> |r.value| == |stacks|
    ensures r.Some? ==> forall k :: 0 <= k < |stacks| ==>
      stacks[k] != [] && r.value[k] == stacks[k][|stacks[k]| - 1]
    ensures r.None? <==> exists k :: 0 <= k < |stacks| && stacks[k] == []
  {
    var tops := MapAll(stacks, Top);
    assert forall k :: 0 <= k < |stacks| ==> (Top(stacks[k]).None? <==> stacks[k] == []);
    tops
  }

  /** The whole puzzle: split the input, read the stacks and the
      instructions, run the crane and read off the top crates. */
  function Restack(input: string, mover9001: bool): Option<string> {
    var sections := GetStacksAndInstructions(input);
    match StacksOf(sections.stacks)
    case None => None
    case Some(stacks) =>
      match ParseInstructions(sections.instructions)
      case None => None
      case Some(instrs) =>
        match Execute(stacks, instrs, mover9001)
        case None => None
        case Some(done) => TopCrates(done)
  }

  /** `restack_crates_and_return_top_crate`. */
  method RestackCratesAndReturnTopCrate(input: string, mover9001: bool) returns (r: Option<string>)
    ensures r == Restack(input, mover9001)
  {
    var sections := GetStacksAndInstructions(input);
    var stacks := ParseStacks(sections.stacks);
    var instrs := ParseInstructions(sections.instructions);
    if stacks.None? || instrs.None? {
      return None;
    }
    var done := ExecuteInstructions(stacks.value, instrs.value, mover9001);
    if done.None? {
      return None;
    }
    r := TopCrates(done.value);
  }

  /** The answer has one crate per stack of the drawing. */
  lemma RestackOnePerStack(input: string, mover9001: bool)
    requires Restack(input, mover9001).Some?
    ensures |Restack(input, mover9001).value| == |StacksOf(GetStacksAndInstructions(input).stacks).value|
  {
    var sections := GetStacksAndInstructions(input);
    var stacks := StacksOf(sections.stacks).value;
    var instrs := ParseInstructions(sections.instructions).value;
    ExecuteConserves(stacks, instrs, mover9001);
  }

  /** The first move of the example, `move 1 from 2 to 1`, is the same for
      both cranes. */
  lemma ExampleFirstMove(mover9001: bool)
    ensures Execute(["ZN", "MCD", "P"], [Instruction(1, 2, 1)], mover9001) == Some(["ZND", "MC", "P"])
  {
    var stacks := ["ZN", "MCD", "P"];
    var first := ["ZND", "MC", "P"];
    var one := [Instruction(1, 2, 1)];
    assert one[..0] == [];
    assert "MCD"[..2] == "MC" && "MCD"[2..] == "D" && "ZN" + "D" == "ZND";
    UpdateOfThree("ZN", "MCD", "P", 1, "MC");
    UpdateOfThree("ZN", "MC", "P", 0, "ZND");
    if mover9001 {
      assert Move9001(stacks, 1, 0, 1) == Some(first);
    } else {
      Move9000Reverses(stacks, 1, 0, 1);
      ReverseOne('D');
      assert Move9000(stacks, 1, 0, 1) == Some(first);
    }
  }

  /** The example of the unit tests: after `move 3 from 1 to 3` the 9000 has
      reversed the three crates it moved. */
  lemma ExampleMoves9000()
    ensures Execute(["ZN", "MCD", "P"], [Instruction(1, 2, 1), Instruction(3, 1, 3)], false) ==
      Some(["", "MC", "PDNZ"])
  {
    ExampleFirstMove(false);
    ExampleSecondMove9000();
    ExecuteSnoc(["ZN", "MCD", "P"], [Instruction(1, 2, 1)], Instruction(3, 1, 3), false);
    assert [Instruction(1, 2, 1)] + [Instruction(3, 1, 3)] == [Instruction(1, 2, 1), Instruction(3, 1, 3)];
  }

  /** `move 3 from 1 to 3` on the 9000, second move of the example. */
  lemma ExampleSecondMove9000()
    ensures Apply(["ZND", "MC", "P"], Instruction(3, 1, 3), false) == Some(["", "MC", "PDNZ"])
  {
    var first := ["ZND", "MC", "P"];
    Move9000Reverses(first, 0, 2, 3);
    SecondMoveReversed();
  }

  lemma SecondMoveReversed()
    ensures ["ZND", "MC", "P"][0 := "ZND"[..0]][2 := "P" + Reverse("ZND"[0..])] == ["", "MC", "PDNZ"]
  {
    MoveThreeReversed('Z', 'N', 'D', "MC", 'P');
  }

  /** Three crates moved from the first stack onto a one-crate third stack. */
  lemma MoveThreeReversed(a: char, b: char, c: char, middle: Stack, p: char)
    ensures [[a, b, c], middle, [p]][0 := [a, b, c][..0]][2 := [p] + Reverse([a, b, c][0..])] ==
      [[], middle, [p, c, b, a]]
  {
    var moved := [a, b, c];
    assert moved[..0] == [] && moved[0..] == moved;
    ReverseThree(a, b, c);
    PrependOne(p, c, b, a);
    UpdateOfThree(moved, middle, [p], 0, []);
    UpdateOfThree([], middle, [p], 2, [p, c, b, a]);
  }

  /** Replacing one of three stacks. */
  lemma UpdateOfThree(x: Stack, y: Stack, z: Stack, k: nat, w: Stack)
    requires k < 3
    ensures [x, y, z][k := w] == if k == 0 then [w, y, z] else if k == 1 then [x, w, z] else [x, y, w]
  {
  }

  lemma PrependOne(p: char, x: char, y: char, z: char)
    ensures [p] + [x, y, z] == [p, x, y, z]
  {
  }

  lemma ReverseThree(a: char, b: char, c: char)
    ensures Reverse([a, b, c]) == [c, b, a]
  {
    ReverseTwo(b, c);
    assert [a, b, c][1..] == [b, c];
    assert Reverse([a, b, c]) == Reverse([b, c]) + [a];
  }

  lemma ReverseTwo(a: char, b: char)
    ensures Reverse([a, b]) == [b, a]
  {
    ReverseOne(b);
    assert [a, b][1..] == [b];
    assert Reverse([a, b]) == Reverse([b]) + [a];
  }

  lemma ReverseOne(a: char)
    ensures Reverse([a]) == [a]
  {
    assert [a][1..] == [];
  }

  /** One more instruction applies to the stacks the earlier ones left. */
  lemma ExecuteSnoc(stacks: seq<Stack>, instrs: seq<Instruction>, last: Instruction, mover9001: bool)
    requires Execute(stacks, instrs, mover9001).Some?
    ensures Execute(stacks, instrs + [last], mover9001) ==
      Apply(Execute(stacks, instrs, mover9001).value, last, mover9001)
  {
    assert (instrs + [last])[..|instrs + [last]| - 1] == instrs;
  }

  /** The same two moves on the 9001 keep the order of the block. */
  lemma ExampleMoves9001()
    ensures Execute(["ZN", "MCD", "P"], [Instruction(1, 2, 1), Instruction(3, 1, 3)], true) ==
      Some(["", "MC", "PZND"])
  {
    ExampleFirstMove(true);
    ExampleSecondMove9001();
    ExecuteSnoc(["ZN", "MCD", "P"], [Instruction(1, 2, 1)], Instruction(3, 1, 3), true);
    assert [Instruction(1, 2, 1)] + [Instruction(3, 1, 3)] == [Instruction(1, 2, 1), Instruction(3, 1, 3)];
  }

  /** `move 3 from 1 to 3` on the 9001 moves `ZND` as a block. */
  lemma ExampleSecondMove9001()
    ensures Apply(["ZND", "MC", "P"], Instruction(3, 1, 3), true) == Some(["", "MC", "PZND"])
  {
    var first := ["ZND", "MC", "P"];
    assert "ZND"[..0] == "" && "ZND"[0..] == "ZND";
    assert "P" + "ZND" == "PZND";
    UpdateOfThree("ZND", "MC", "P", 0, "");
    UpdateOfThree("", "MC", "P", 2, "PZND");
  }

  /** `move 2 from 2 to 1` on the 9000, third move of the example. */
  lemma ExampleThirdMove9000()
    ensures Apply(["", "MC", "PDNZ"], Instruction(2, 2, 1), false) == Some(["CM", "", "PDNZ"])
  {
    var second := ["", "MC", "PDNZ"];
    Move9000Reverses(second, 1, 0, 2);
    ThirdMoveReversed();
  }

  lemma ThirdMoveReversed()
    ensures ["", "MC", "PDNZ"][1 := "MC"[..0]][0 := "" + Reverse("MC"[0..])] == ["CM", "", "PDNZ"]
  {
    assert "MC"[..0] == "" && "MC"[0..] == "MC";
    ReverseTwo('M', 'C');
    assert "" + "CM" == "CM";
    UpdateOfThree("", "MC", "PDNZ", 1, "");
    UpdateOfThree("", "", "PDNZ", 0, "CM");
  }

  /** `move 1 from 1 to 2` on the 9000, last move of the example. */
  lemma ExampleFourthMove9000()
    ensures Apply(["CM", "", "PDNZ"], Instruction(1, 1, 2), false) == Some(["C", "M", "PDNZ"])
  {
    var third := ["CM", "", "PDNZ"];
    Move9000Reverses(third, 0, 1, 1);
    FourthMoveReversed();
  }

  lemma FourthMoveReversed()
    ensures ["CM", "", "PDNZ"][0 := "CM"[..1]][1 := "" + Reverse("CM"[1..])] == ["C", "M", "PDNZ"]
  {
    assert "CM"[..1] == "C" && "CM"[1..] == "M";
    ReverseOne('M');
    assert "" + "M" == "M";
    UpdateOfThree("CM", "", "PDNZ", 0, "C");
    UpdateOfThree("C", "", "PDNZ", 1, "M");
  }

  /** The whole example of the unit tests on the 9000: the four moves leave
      `C` on stack 1, `M` on stack 2 and `Z` on stack 3. */
  lemma ExampleTopCrates9000()
    ensures Execute(["ZN", "MCD", "P"],
      [Instruction(1, 2, 1), Instruction(3, 1, 3), Instruction(2, 2, 1), Instruction(1, 1, 2)], false) ==
      Some(["C", "M", "PDNZ"])
    ensures TopCrates(["C", "M", "PDNZ"]) == Some("CMZ")
  {
    var two := [Instruction(1, 2, 1), Instruction(3, 1, 3)];
    var start := ["ZN", "MCD", "P"];
    ExampleMoves9000();
    ExampleThirdMove9000();
    ExecuteSnoc(start, two, Instruction(2, 2, 1), false);
    ExampleFourthMove9000();
    ExecuteSnoc(start, two + [Instruction(2, 2, 1)], Instruction(1, 1, 2), false);
    assert two + [Instruction(2, 2, 1)] + [Instruction(1, 1, 2)] ==
      [Instruction(1, 2, 1), Instruction(3, 1, 3), Instruction(2, 2, 1), Instruction(1, 1, 2)];
    assert TopCrates(["C", "M", "PDNZ"]) == Some("CMZ") by {
      var tops := TopCrates(["C", "M", "PDNZ"]);
      assert tops.Some? && |tops.value| == 3;
      assert ["C", "M", "PDNZ"][2] == "PDNZ";
      assert tops.value[0] == 'C' && tops.value[1] == 'M' && tops.value[2] == 'Z';
      assert tops.value == "CMZ";
    }
  }
}
