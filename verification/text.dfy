/** The pieces of Rust's `str` API that the puzzles lean on: `split` with a
    character or a string pattern, `lines`, `trim`, and `parse::<usize>()`.
    Strings are sequences of Unicode scalar values; the puzzles' inputs are
    ASCII, so a byte index and a character index coincide on them. */
module Text {
  import opened Wrappers

  // ---------------------------------------------------------------------------
  // `str::split` with a one-character pattern

  /** The pieces of `s` between occurrences of `sep`: n separators give
      n + 1 pieces (an empty string gives one empty piece), none of which
      contains `sep`. */
  function Split(s: string, sep: char): (parts: seq<string>)
    ensures |parts| == multiset(s)[sep] + 1
    ensures forall i :: 0 <= i < |parts| ==> sep !in parts[i]
  {
    if s == [] then [""]
    else
      var rest := Split(s[1..], sep);
      assert s == [s[0]] + s[1..];
      if s[0] == sep then [""] + rest
      else [[s[0]] + rest[0]] + rest[1..]
  }

  /** The inverse of `Split`: the pieces glued back with `sep` between them. */
  function Join(parts: seq<string>, sep: char): string
    requires |parts| > 0
  {
    if |parts| == 1 then parts[0] else parts[0] + [sep] + Join(parts[1..], sep)
  }

  /** Splitting loses nothing: gluing the pieces gives the input back. */
  lemma {:induction false} JoinSplit(s: string, sep: char)
    ensures Join(Split(s, sep), sep) == s
  {
    if s != [] {
      JoinSplit(s[1..], sep);
      var rest := Split(s[1..], sep);
      assert s == [s[0]] + Join(rest, sep);
      if s[0] == sep {
        assert Split(s, sep) == [""] + rest;
        JoinAfterEmpty(rest, sep);
      } else {
        assert Split(s, sep) == [[s[0]] + rest[0]] + rest[1..];
        JoinAfterCons(s[0], rest, sep);
      }
    }
  }

  /** An empty first piece contributes only its separator. */
  lemma JoinAfterEmpty(parts: seq<string>, sep: char)
    requires |parts| > 0
    ensures Join([""] + parts, sep) == [sep] + Join(parts, sep)
  {
    assert ([""] + parts)[1..] == parts;
  }

  /** A character prefixed to the first piece prefixes the whole join. */
  lemma JoinAfterCons(c: char, parts: seq<string>, sep: char)
    requires |parts| > 0
    ensures Join([[c] + parts[0]] + parts[1..], sep) == [c] + Join(parts, sep)
  {
    var glued := [[c] + parts[0]] + parts[1..];
    if |parts| > 1 {
      assert glued[1..] == parts[1..];
      ConsJoin(c, parts[0], sep, Join(parts[1..], sep));
    }
  }

  /** Regrouping a concatenation that starts with one character. */
  lemma ConsJoin(c: char, a: string, sep: char, b: string)
    ensures ([c] + a) + [sep] + b == [c] + (a + [sep] + b)
  {
  }

  /** Splitting `a + b` where `a` holds no separator glues `a` to the first
      piece of `b`. */
  lemma {:induction false} SplitPrefix(a: string, b: string, sep: char)
    requires sep !in a
    ensures Split(a + b, sep) == [a + Split(b, sep)[0]] + Split(b, sep)[1..]
  {
    if a != [] {
      assert (a + b)[1..] == a[1..] + b;
      SplitPrefix(a[1..], b, sep);
      var parts := Split(b, sep);
      var rest := Split(a[1..] + b, sep);
      assert rest[0] == a[1..] + parts[0] && rest[1..] == parts[1..];
      assert (a + b)[0] == a[0] != sep;
      assert [a[0]] + rest[0] == a + parts[0] by {
        assert a == [a[0]] + a[1..];
      }
    } else {
      var parts := Split(b, sep);
      assert a + b == b && a + parts[0] == parts[0];
      assert parts == [parts[0]] + parts[1..];
    }
  }

  /** The other round trip: pieces free of the separator are recovered by
      splitting their join. */
  lemma {:induction false} SplitJoin(parts: seq<string>, sep: char)
    requires |parts| > 0
    requires forall i :: 0 <= i < |parts| ==> sep !in parts[i]
    ensures Split(Join(parts, sep), sep) == parts
  {
    if |parts| == 1 {
      SplitPrefix(parts[0], "", sep);
      assert parts[0] + "" == parts[0];
    } else {
      var rest := Join(parts[1..], sep);
      SplitJoin(parts[1..], sep);
      assert Join(parts, sep) == parts[0] + ([sep] + rest);
      SplitPrefix(parts[0], [sep] + rest, sep);
      SplitAfterSeparator(rest, sep);
      assert parts[0] + "" == parts[0];
      assert parts == [parts[0]] + parts[1..];
    }
  }

  /** A leading separator splits off an empty first piece. */
  lemma SplitAfterSeparator(s: string, sep: char)
    ensures Split([sep] + s, sep) == [""] + Split(s, sep)
  {
    assert ([sep] + s)[1..] == s;
  }

  /** Two separator-free pieces glued with the separator split back apart. */
  lemma SplitTwo(a: string, b: string, sep: char)
    requires sep !in a && sep !in b
    ensures Split(a + [sep] + b, sep) == [a, b]
  {
    assert Join([a, b], sep) == a + [sep] + b by {
      assert [a, b][1..] == [b];
    }
    SplitJoin([a, b], sep);
  }

  // ---------------------------------------------------------------------------
  // `str::split` with a string pattern (used with "\n\n")

  /** The pieces of `s` between the non-overlapping occurrences of `pat`,
      found from left to right. */
  function SplitOn(s: string, pat: string): (parts: seq<string>)
    requires |pat| > 0
    ensures |parts| > 0
    decreases |s|
  {
    if |s| < |pat| then [s]
    else if s[..|pat|] == pat then [""] + SplitOn(s[|pat|..], pat)
    else
      var rest := SplitOn(s[1..], pat);
      [[s[0]] + rest[0]] + rest[1..]
  }

  /** Glues pieces back together with `pat` between them. */
  function JoinOn(parts: seq<string>, pat: string): string
    requires |parts| > 0
  {
    if |parts| == 1 then parts[0] else parts[0] + pat + JoinOn(parts[1..], pat)
  }

  /** Splitting on a string pattern loses nothing either. */
  lemma {:induction false} JoinSplitOn(s: string, pat: string)
    requires |pat| > 0
    ensures JoinOn(SplitOn(s, pat), pat) == s
    decreases |s|
  {
    if |s| >= |pat| {
      if s[..|pat|] == pat {
        var rest := SplitOn(s[|pat|..], pat);
        JoinSplitOn(s[|pat|..], pat);
        assert SplitOn(s, pat) == [""] + rest;
        JoinOnAfterEmpty(rest, pat);
        assert s == pat + s[|pat|..];
      } else {
        var rest := SplitOn(s[1..], pat);
        JoinSplitOn(s[1..], pat);
        assert SplitOn(s, pat) == [[s[0]] + rest[0]] + rest[1..];
        JoinOnAfterCons(s[0], rest, pat);
        assert s == [s[0]] + s[1..];
      }
    }
  }

  /** An empty first piece contributes only its pattern. */
  lemma JoinOnAfterEmpty(parts: seq<string>, pat: string)
    requires |parts| > 0
    ensures JoinOn([""] + parts, pat) == pat + JoinOn(parts, pat)
  {
    assert ([""] + parts)[1..] == parts;
  }

  /** A character prefixed to the first piece prefixes the whole join. */
  lemma JoinOnAfterCons(c: char, parts: seq<string>, pat: string)
    requires |parts| > 0
    ensures JoinOn([[c] + parts[0]] + parts[1..], pat) == [c] + JoinOn(parts, pat)
  {
    var glued := [[c] + parts[0]] + parts[1..];
    if |parts| > 1 {
      var tail := JoinOn(parts[1..], pat);
      assert glued[1..] == parts[1..];
      assert ([c] + parts[0]) + pat + tail == [c] + (parts[0] + pat + tail);
    }
  }

  // ---------------------------------------------------------------------------
  // `str::lines`

  function StripCarriageReturn(line: string): string {
    if |line| > 0 && line[|line| - 1] == '\r' then line[..|line| - 1] else line
  }

  /** What `Lines` keeps of the pieces between newlines: all but an empty
      last piece, each but the last without its carriage return. */
  function KeepLines(parts: seq<string>): (lines: seq<string>)
    requires |parts| > 0
  {
    var kept := if parts[|parts| - 1] == "" then parts[..|parts| - 1] else parts;
    seq(|kept|, i requires 0 <= i < |kept| =>
      if i < |parts| - 1 then StripCarriageReturn(kept[i]) else kept[i])
  }

  /** Rust's `str::lines`: the pieces between newlines, where a final newline
      does not start an empty last line, and a carriage return just before a
      newline belongs to the line ending. The empty string has no lines. */
  function Lines(s: string): (lines: seq<string>)
    ensures |lines| == multiset(s)['\n'] + (if s == [] || s[|s| - 1] == '\n' then 0 else 1)
    ensures forall i :: 0 <= i < |lines| ==> '\n' !in lines[i]
  {
    LastPieceEmpty(s, '\n');
    KeepLinesFree(Split(s, '\n'), '\n');
    KeepLines(Split(s, '\n'))
  }

  /** A character that no piece holds, no kept line holds. */
  lemma KeepLinesFree(parts: seq<string>, c: char)
    requires |parts| > 0 && forall i :: 0 <= i < |parts| ==> c !in parts[i]
    ensures forall i :: 0 <= i < |KeepLines(parts)| ==> c !in KeepLines(parts)[i]
  {
    var lines := KeepLines(parts);
    forall i | 0 <= i < |lines| ensures c !in lines[i] {
      var kept := if parts[|parts| - 1] == "" then parts[..|parts| - 1] else parts;
      assert kept[i] == parts[i];
      assert lines[i] == if i < |parts| - 1 then StripCarriageReturn(kept[i]) else kept[i];
      assert lines[i] == parts[i] || (|parts[i]| > 0 && lines[i] == parts[i][..|parts[i]| - 1]);
    }
  }

  /** The last piece of a split is empty exactly when the string is empty or
      ends with the separator. */
  lemma {:induction false} LastPieceEmpty(s: string, sep: char)
    ensures var parts := Split(s, sep);
      parts[|parts| - 1] == "" <==> (s == [] || s[|s| - 1] == sep)
  {
    if s != [] {
      LastPieceEmpty(s[1..], sep);
      var rest := Split(s[1..], sep);
      if s[0] != sep && |rest| == 1 {
        assert Split(s, sep) == [[s[0]] + rest[0]];
      }
    }
  }

  /** Lines free of line breaks, the last one non-empty, come back from
      `Lines` when glued with newlines. */
  lemma LinesJoin(lines: seq<string>)
    requires |lines| > 0 && lines[|lines| - 1] != ""
    requires forall i :: 0 <= i < |lines| ==> '\n' !in lines[i] && '\r' !in lines[i]
    ensures Lines(Join(lines, '\n')) == lines
  {
    SplitJoin(lines, '\n');
    forall i | 0 <= i < |lines| ensures StripCarriageReturn(lines[i]) == lines[i] {
      if |lines[i]| > 0 {
        assert lines[i][|lines[i]| - 1] in lines[i];
      }
    }
    LinesOfPieces(Join(lines, '\n'), lines);
  }

  /** When the pieces between newlines end in a non-empty one and none ends
      in a carriage return, they are the lines. */
  lemma LinesOfPieces(s: string, pieces: seq<string>)
    requires Split(s, '\n') == pieces && pieces[|pieces| - 1] != ""
    requires forall i :: 0 <= i < |pieces| ==> StripCarriageReturn(pieces[i]) == pieces[i]
    ensures Lines(s) == pieces
  {
    var r := Lines(s);
    assert |r| == |pieces|;
    forall i | 0 <= i < |pieces| ensures r[i] == pieces[i] {
    }
  }

  /** A non-empty text without a newline is one line, kept as it is. */
  lemma LinesOne(s: string)
    requires s != "" && '\n' !in s
    ensures Lines(s) == [s]
  {
    SplitPrefix(s, "", '\n');
    assert s + "" == s;
  }

  /** The empty string has no lines. */
  lemma LinesEmpty()
    ensures Lines("") == []
  {
    assert Split("", '\n') == [""];
  }

  /** A first line without a line break, then a newline, then the rest: the
      lines are that first line (its carriage return dropped) followed by
      the lines of the rest. */
  lemma LinesCons(a: string, b: string)
    requires '\n' !in a
    ensures Lines(a + "\n" + b) == [StripCarriageReturn(a)] + Lines(b)
  {
    SplitCons(a, b, '\n');
    LinesAfterPiece(a + "\n" + b, a, b);
  }

  /** `Lines` of a string whose pieces are `a` followed by the pieces of
      `b`. */
  lemma LinesAfterPiece(s: string, a: string, b: string)
    requires Split(s, '\n') == [a] + Split(b, '\n')
    ensures Lines(s) == [StripCarriageReturn(a)] + Lines(b)
  {
    KeepLinesCons(a, Split(b, '\n'));
  }

  /** A piece in front keeps its line in front. */
  lemma KeepLinesCons(a: string, pieces: seq<string>)
    requires |pieces| > 0
    ensures KeepLines([a] + pieces) == [StripCarriageReturn(a)] + KeepLines(pieces)
  {
    var parts := [a] + pieces;
    var r, rest := KeepLines(parts), KeepLines(pieces);
    assert |r| == |rest| + 1;
    forall i | 0 <= i < |rest| ensures r[i + 1] == rest[i] {
      assert parts[i + 1] == pieces[i];
    }
    assert r == [StripCarriageReturn(a)] + rest;
  }

  /** A separator-free first piece, then the separator: the pieces are that
      piece followed by the pieces of the rest. */
  lemma SplitCons(a: string, b: string, sep: char)
    requires sep !in a
    ensures Split(a + [sep] + b, sep) == [a] + Split(b, sep)
  {
    assert a + [sep] + b == a + ([sep] + b);
    SplitPrefix(a, [sep] + b, sep);
    SplitAfterSeparator(b, sep);
    assert a + "" == a;
  }

  // ---------------------------------------------------------------------------
  // `str::trim`

  /** Unicode's White_Space property, which Rust's `char::is_whitespace`
      follows. */
  predicate IsWhitespace(c: char) {
    var n := c as int;
    (9 <= n <= 13) || n == 32 || n == 0x85 || n == 0xA0 || n == 0x1680 ||
    (0x2000 <= n <= 0x200A) || n == 0x2028 || n == 0x2029 || n == 0x202F ||
    n == 0x205F || n == 0x3000
  }

  function TrimStart(s: string): (r: string)
  {
    if s != [] && IsWhitespace(s[0]) then TrimStart(s[1..]) else s
  }

  function TrimEnd(s: string): (r: string)
  {
    if s != [] && IsWhitespace(s[|s| - 1]) then TrimEnd(s[..|s| - 1]) else s
  }

  /** Rust's `str::trim`: leading and trailing whitespace removed. */
  function Trim(s: string): string {
    TrimEnd(TrimStart(s))
  }

  /** `TrimStart` removes a prefix made only of whitespace and stops at the
      first character that is not. */
  lemma {:induction false} TrimStartRemovesWhitespace(s: string)
    ensures var r := TrimStart(s); |r| <= |s| && r == s[|s| - |r|..]
    ensures var r := TrimStart(s); r != [] ==> !IsWhitespace(r[0])
    ensures var r := TrimStart(s); forall i :: 0 <= i < |s| - |r| ==> IsWhitespace(s[i])
  {
    if s != [] && IsWhitespace(s[0]) {
      var t := TrimStart(s[1..]);
      TrimStartRemovesWhitespace(s[1..]);
      assert TrimStart(s) == t;
      assert s[1..][|s| - 1 - |t|..] == s[|s| - |t|..];
      forall i | 0 <= i < |s| - |t| ensures IsWhitespace(s[i]) {
        if i > 0 {
          assert s[i] == s[1..][i - 1];
        }
      }
    }
  }

  /** `TrimEnd` removes a suffix made only of whitespace and stops at the
      last character that is not. */
  lemma {:induction false} TrimEndRemovesWhitespace(s: string)
    ensures var r := TrimEnd(s); |r| <= |s| && r == s[..|r|]
    ensures var r := TrimEnd(s); r != [] ==> !IsWhitespace(r[|r| - 1])
    ensures var r := TrimEnd(s); forall i :: |r| <= i < |s| ==> IsWhitespace(s[i])
  {
    if s != [] && IsWhitespace(s[|s| - 1]) {
      TrimEndRemovesWhitespace(s[..|s| - 1]);
    }
  }

  /** `Trim` keeps a stretch of the string that neither starts nor ends with
      whitespace, and drops only whitespace around it. */
  lemma TrimRemovesWhitespace(s: string)
    ensures var (r, k) := (Trim(s), |s| - |TrimStart(s)|);
      0 <= k <= |s| - |r| && r == s[k..k + |r|] &&
      (forall i :: 0 <= i < k ==> IsWhitespace(s[i])) &&
      (forall i :: k + |r| <= i < |s| ==> IsWhitespace(s[i]))
    ensures var r := Trim(s); r != [] ==> !IsWhitespace(r[0]) && !IsWhitespace(r[|r| - 1])
  {
    var t := TrimStart(s);
    var r := Trim(s);
    TrimStartRemovesWhitespace(s);
    TrimEndRemovesWhitespace(t);
    var k := |s| - |t|;
    assert r == s[k..k + |r|];
    forall i | k + |r| <= i < |s| ensures IsWhitespace(s[i]) {
      assert s[i] == t[i - k];
    }
    if r != [] {
      assert r[0] == t[0];
    }
  }

  /** `Trim` removes an indentation made of whitespace from a string that
      neither starts nor ends with whitespace. */
  lemma {:induction false} TrimIndented(indent: string, s: string)
    requires forall i :: 0 <= i < |indent| ==> IsWhitespace(indent[i])
    requires s != [] && !IsWhitespace(s[0]) && !IsWhitespace(s[|s| - 1])
    ensures Trim(indent + s) == s
    decreases |indent|
  {
    if indent == [] {
      assert indent + s == s;
    } else {
      assert (indent + s)[1..] == indent[1..] + s;
      TrimIndented(indent[1..], s);
    }
  }

  // ---------------------------------------------------------------------------
  // `str::parse::<usize>()` and its inverse, the decimal rendering

  predicate IsDigit(c: char) {
    '0' <= c <= '9'
  }

  predicate AllDigits(s: string) {
    forall i :: 0 <= i < |s| ==> IsDigit(s[i])
  }

  function DigitValue(c: char): nat
    requires IsDigit(c)
  {
    (c as int) - ('0' as int)
  }

  function DigitChar(d: nat): (c: char)
    requires d < 10
    ensures IsDigit(c) && DigitValue(c) == d
  {
    ('0' as int + d) as char
  }

  /** The value of a string of decimal digits, most significant first. */
  function DigitsValue(s: string): nat
    requires AllDigits(s)
  {
    if s == [] then 0 else DigitsValue(s[..|s| - 1]) * 10 + DigitValue(s[|s| - 1])
  }

  /** Rust's `str::parse::<usize>()`: an optional `+` sign followed by at least
      one ASCII digit; anything else is an error. */
  function ParseNat(s: string): Option<nat> {
    var digits := if |s| > 0 && s[0] == '+' then s[1..] else s;
    if |digits| > 0 && AllDigits(digits) then Some(DigitsValue(digits)) else None
  }

  /** The decimal rendering of `n` without leading zeros. */
  function NatToString(n: nat): (s: string)
    ensures |s| > 0 && AllDigits(s)
    ensures |s| > 1 ==> s[0] != '0'
  {
    if n < 10 then [DigitChar(n)] else NatToString(n / 10) + [DigitChar(n % 10)]
  }

  /** Parsing the rendering of a number gives that number back. */
  lemma {:induction false} ParseNatToString(n: nat)
    ensures ParseNat(NatToString(n)) == Some(n)
  {
    DigitsOfNatToString(n);
  }

  lemma {:induction false} DigitsOfNatToString(n: nat)
    ensures DigitsValue(NatToString(n)) == n
  {
    var s := NatToString(n);
    if n >= 10 {
      DigitsOfNatToString(n / 10);
      assert s[..|s| - 1] == NatToString(n / 10);
    }
  }

  /** A rendered number is free of any non-digit character. */
  lemma NatToStringHasNo(n: nat, c: char)
    requires !IsDigit(c)
    ensures c !in NatToString(n)
  {
  }
}
