/** Day 7, first half: reading the terminal transcript. Every line is either a
    command typed after a `$` prompt (a name and its arguments) or a line that
    `ls` printed (a directory or a file with its size). The records keep the
    shape of the program's structs: a line holds an optional command and an
    optional output, an output an optional directory and an optional file. */
module Transcript {
  import opened Wrappers
  import opened Text
  import opened Seqs

  datatype Command = Command(name: string, arguments: seq<string>)

  datatype Directory = Directory(name: string)

  datatype File = File(name: string, size: nat)

  datatype Output = Output(directory: Option<Directory>, file: Option<File>)

  datatype InputType = InputType(command: Option<Command>, output: Option<Output>)

  /** Rust's `str::starts_with`. */
  predicate StartsWith(s: string, prefix: string) {
    |prefix| <= |s| && s[..|prefix|] == prefix
  }

  /** `Command::from`: the first space-separated token (the prompt) is
      skipped, the second is the name and every further token an argument;
      a line with no second token fails on `unwrap`. */
  function CommandFrom(line: string): (r: Option<Command>)
    ensures r.Some? <==> |Split(line, ' ')| >= 2
    ensures r.Some? ==> [Split(line, ' ')[0], r.value.name] + r.value.arguments == Split(line, ' ')
  {
    var parts := Split(line, ' ');
    if |parts| < 2 then None else Some(Command(parts[1], parts[2..]))
  }

  /** `Directory::from`: the name is the second token (the first is `dir`). */
  function DirectoryFrom(line: string): (r: Option<Directory>)
    ensures r.Some? <==> |Split(line, ' ')| >= 2
    ensures r.Some? ==> r.value.name == Split(line, ' ')[1]
  {
    var parts := Split(line, ' ');
    if |parts| < 2 then None else Some(Directory(parts[1]))
  }

  /** `File::from`: the size is the first token, which must parse as an
      unsigned number, and the name the second. */
  function FileFrom(line: string): (r: Option<File>)
    ensures r.Some? <==> ParseNat(Split(line, ' ')[0]).Some? && |Split(line, ' ')| >= 2
    ensures r.Some? ==>
      r.value.name == Split(line, ' ')[1] && Some(r.value.size) == ParseNat(Split(line, ' ')[0])
  {
    var parts := Split(line, ' ');
    match ParseNat(parts[0])
    case None => None
    case Some(size) => if |parts| < 2 then None else Some(File(parts[1], size))
  }

  /** `Output::from`: a line starting with `dir` lists a directory, any other
      a file. */
  function OutputFrom(line: string): Option<Output> {
    if StartsWith(line, "dir") then
      match DirectoryFrom(line)
      case None => None
      case Some(directory) => Some(Output(Some(directory), None))
    else
      match FileFrom(line)
      case None => None
      case Some(file) => Some(Output(None, Some(file)))
  }

  /** `InputType::from`: a line starting with `$` is a command, any other is
      output. */
  function InputTypeFrom(line: string): Option<InputType> {
    if StartsWith(line, "$") then
      match CommandFrom(line)
      case None => None
      case Some(command) => Some(InputType(Some(command), None))
    else
      match OutputFrom(line)
      case None => None
      case Some(output) => Some(InputType(None, Some(output)))
  }

  /** A parsed line holds exactly one of a command and an output, a command
      exactly when it starts with `$`; an output holds exactly one of a
      directory and a file, a directory exactly when it starts with `dir`. */
  lemma ParsedLineHasOneKind(line: string)
    requires InputTypeFrom(line).Some?
    ensures var parsed := InputTypeFrom(line).value;
      (parsed.command.Some? <==> StartsWith(line, "$")) &&
      (parsed.command.Some? <==> parsed.output.None?) &&
      (parsed.output.Some? ==>
        (parsed.output.value.directory.Some? <==> StartsWith(line, "dir")) &&
        (parsed.output.value.directory.Some? <==> parsed.output.value.file.None?))
  {
  }

  /** `parse_input`: one parsed line per line of the input, in order; one
      line that does not parse fails the whole transcript. */
  function ParseInput(input: string): (r: Option<seq<InputType>>)
    ensures r.Some? ==> |r.value| == |Lines(input)|
    ensures r.Some? ==> forall i :: 0 <= i < |r.value| ==> InputTypeFrom(Lines(input)[i]) == Some(r.value[i])
    ensures r.None? <==> exists i :: 0 <= i < |Lines(input)| && InputTypeFrom(Lines(input)[i]).None?
  {
    MapAll(Lines(input), InputTypeFrom)
  }

  // ---------------------------------------------------------------------------
  // Writing a transcript back out

  /** A token that survives a round trip through a line of the transcript. */
  predicate Token(s: string) {
    ' ' !in s && '\n' !in s && '\r' !in s
  }

  /** The lines a terminal session can print: a command whose name and
      arguments are tokens, or an output that is exactly a directory or a
      file with a token for its name. */
  predicate WellFormed(line: InputType) {
    match line
    case InputType(Some(command), None) =>
      Token(command.name) && forall k :: 0 <= k < |command.arguments| ==> Token(command.arguments[k])
    case InputType(None, Some(Output(Some(directory), None))) => Token(directory.name)
    case InputType(None, Some(Output(None, Some(file)))) => Token(file.name)
    case _ => false
  }

  /** The space-separated tokens a line is printed as. */
  function Words(line: InputType): (words: seq<string>)
    requires WellFormed(line)
    ensures |words| >= 2
    ensures forall k :: 0 <= k < |words| ==> Token(words[k])
  {
    match line
    case InputType(Some(command), None) => ["$", command.name] + command.arguments
    case InputType(None, Some(Output(Some(directory), None))) => ["dir", directory.name]
    case InputType(None, Some(Output(None, Some(file)))) =>
      NatToStringHasNo(file.size, ' ');
      NatToStringHasNo(file.size, '\n');
      NatToStringHasNo(file.size, '\r');
      [NatToString(file.size), file.name]
  }

  /** A line as the terminal prints it. */
  function Show(line: InputType): (text: string)
    requires WellFormed(line)
  {
    Join(Words(line), ' ')
  }

  /** A glued line begins with its first word. */
  lemma JoinStartsWith(words: seq<string>)
    requires |words| >= 2
    ensures Join(words, ' ') == words[0] + [' '] + Join(words[1..], ' ')
  {
  }

  /** Printing is free of line breaks and never ends the line with a
      carriage return or leaves it empty. */
  lemma ShowIsOneLine(line: InputType)
    requires WellFormed(line)
    ensures Show(line) != "" && '\n' !in Show(line) && '\r' !in Show(line)
  {
    var words := Words(line);
    JoinSplit(Show(line), ' ');
    SplitJoin(words, ' ');
    JoinHasNo(words, '\n');
    JoinHasNo(words, '\r');
    JoinStartsWith(words);
  }

  /** Gluing with spaces adds no character other than the space. */
  lemma {:induction false} JoinHasNo(words: seq<string>, c: char)
    requires |words| > 0 && c != ' '
    requires forall k :: 0 <= k < |words| ==> c !in words[k]
    ensures c !in Join(words, ' ')
  {
    if |words| > 1 {
      JoinHasNo(words[1..], c);
    }
  }

  /** Parsing a printed line gives the line back. */
  lemma ParseShow(line: InputType)
    requires WellFormed(line)
    ensures InputTypeFrom(Show(line)) == Some(line)
  {
    var words := Words(line);
    SplitJoin(words, ' ');
    JoinStartsWith(words);
    match line
    case InputType(Some(command), None) =>
      ParseShowCommand(command, words);
    case InputType(None, Some(Output(Some(directory), None))) =>
      ParseShowDirectory(directory, words);
    case InputType(None, Some(Output(None, Some(file)))) =>
      ParseShowFile(file, words);
  }

  lemma ParseShowCommand(command: Command, words: seq<string>)
    requires words == ["$", command.name] + command.arguments
    requires Split(Join(words, ' '), ' ') == words
    requires Join(words, ' ') == words[0] + [' '] + Join(words[1..], ' ')
    ensures InputTypeFrom(Join(words, ' ')) == Some(InputType(Some(command), None))
  {
    var text := Join(words, ' ');
    assert text[..1] == "$";
    assert words[2..] == command.arguments;
    assert CommandFrom(text) == Some(command);
  }

  lemma ParseShowDirectory(directory: Directory, words: seq<string>)
    requires words == ["dir", directory.name]
    requires Split(Join(words, ' '), ' ') == words
    requires Join(words, ' ') == words[0] + [' '] + Join(words[1..], ' ')
    ensures InputTypeFrom(Join(words, ' ')) == Some(InputType(None, Some(Output(Some(directory), None))))
  {
    var text := Join(words, ' ');
    assert text[..3] == "dir";
    assert !StartsWith(text, "$");
    assert DirectoryFrom(text) == Some(directory);
  }

  lemma ParseShowFile(file: File, words: seq<string>)
    requires words == [NatToString(file.size), file.name]
    requires Split(Join(words, ' '), ' ') == words
    requires Join(words, ' ') == words[0] + [' '] + Join(words[1..], ' ')
    ensures InputTypeFrom(Join(words, ' ')) == Some(InputType(None, Some(Output(None, Some(file)))))
  {
    var text := Join(words, ' ');
    ParseNatToString(file.size);
    assert text[0] == words[0][0];
    assert IsDigit(text[0]);
    assert !StartsWith(text, "$") && !StartsWith(text, "dir");
    assert FileFrom(text) == Some(file);
  }

  /** A transcript as the terminal prints it: the lines glued with newlines. */
  function ShowAll(lines: seq<InputType>): (text: string)
    requires forall i :: 0 <= i < |lines| ==> WellFormed(lines[i])
  {
    if lines == [] then ""
    else Join(seq(|lines|, i requires 0 <= i < |lines| => Show(lines[i])), '\n')
  }

  /** `parse_input` reads a printed transcript back line for line. */
  lemma ParseShowAll(lines: seq<InputType>)
    requires forall i :: 0 <= i < |lines| ==> WellFormed(lines[i])
    ensures ParseInput(ShowAll(lines)) == Some(lines)
  {
    if lines != [] {
      var shown := seq(|lines|, i requires 0 <= i < |lines| => Show(lines[i]));
      forall i | 0 <= i < |lines|
        ensures shown[i] != "" && '\n' !in shown[i] && '\r' !in shown[i]
        ensures InputTypeFrom(shown[i]) == Some(lines[i])
      {
        ShowIsOneLine(lines[i]);
        ParseShow(lines[i]);
      }
      LinesJoin(shown);
      MapAllSome(shown, InputTypeFrom, lines);
    } else {
      assert Lines("") == [];
    }
  }

  lemma JoinFour(a: string, b: string, c: string, d: string, sep: char)
    ensures Join([a, b, c, d], sep) == a + [sep] + b + [sep] + c + [sep] + d
  {
    assert [a, b, c, d][1..] == [b, c, d];
    assert [b, c, d][1..] == [c, d];
    assert [c, d][1..] == [d];
    assert Join([c, d], sep) == c + [sep] + d;
    assert Join([b, c, d], sep) == b + [sep] + (c + [sep] + d);
    assert Join([a, b, c, d], sep) == a + [sep] + (b + [sep] + (c + [sep] + d));
  }

  /** The transcript of the unit tests. */
  function ExampleLines(): seq<InputType> {
    [ InputType(Some(Command("cd", ["/"])), None),
      InputType(Some(Command("ls", [])), None),
      InputType(None, Some(Output(Some(Directory("a")), None))),
      InputType(None, Some(Output(None, Some(File("b.txt", 14848514))))) ]
  }

  /** The size of the test's file, printed digit by digit. */
  lemma ExampleSize()
    ensures NatToString(14848514) == "14848514"
  {
    assert NatToString(1) == "1";
    assert NatToString(14) == "14";
    assert NatToString(148) == "148";
    assert NatToString(1484) == "1484";
    assert NatToString(14848) == "14848";
    assert NatToString(148485) == "148485";
    assert NatToString(1484851) == "1484851";
  }

  /** Each line of the unit test's transcript prints as in the test. */
  lemma ExampleShowLines()
    ensures forall i :: 0 <= i < |ExampleLines()| ==> WellFormed(ExampleLines()[i])
    ensures Show(ExampleLines()[0]) == "$ cd /" && Show(ExampleLines()[1]) == "$ ls"
    ensures Show(ExampleLines()[2]) == "dir a" && Show(ExampleLines()[3]) == "14848514 b.txt"
  {
    ExampleShowCd();
    ExampleShowLs();
    ExampleShowDir();
    ExampleShowFile();
  }

  lemma ExampleShowCd()
    ensures WellFormed(ExampleLines()[0]) && Show(ExampleLines()[0]) == "$ cd /"
  {
    var words := Words(ExampleLines()[0]);
    assert words == ["$", "cd", "/"];
    assert words[1..] == ["cd", "/"] && words[1..][1..] == ["/"];
    assert Join(words[1..], ' ') == "cd" + " " + "/";
    assert Join(words, ' ') == "$" + " " + ("cd" + " " + "/");
  }

  lemma ExampleShowLs()
    ensures WellFormed(ExampleLines()[1]) && Show(ExampleLines()[1]) == "$ ls"
  {
    var words := Words(ExampleLines()[1]);
    assert words == ["$", "ls"];
    assert words[1..] == ["ls"];
    assert Join(words, ' ') == "$" + " " + "ls";
  }

  lemma ExampleShowDir()
    ensures WellFormed(ExampleLines()[2]) && Show(ExampleLines()[2]) == "dir a"
  {
    var words := Words(ExampleLines()[2]);
    assert words == ["dir", "a"];
    assert words[1..] == ["a"];
    assert Join(words, ' ') == "dir" + " " + "a";
  }

  lemma ExampleShowFile()
    ensures WellFormed(ExampleLines()[3]) && Show(ExampleLines()[3]) == "14848514 b.txt"
  {
    ExampleSize();
    var words := Words(ExampleLines()[3]);
    assert words == ["14848514", "b.txt"];
    assert words[1..] == ["b.txt"];
    assert Show(ExampleLines()[3]) == "14848514" + " " + "b.txt";
    ExampleFileText();
  }

  lemma ExampleFileText()
    ensures "14848514" + " " + "b.txt" == "14848514 b.txt"
  {
  }

  /** A four-line transcript prints as its four lines glued with newlines. */
  lemma ShowAllFour(lines: seq<InputType>)
    requires |lines| == 4 && forall i :: 0 <= i < |lines| ==> WellFormed(lines[i])
    ensures ShowAll(lines) ==
      Show(lines[0]) + "\n" + Show(lines[1]) + "\n" + Show(lines[2]) + "\n" + Show(lines[3])
  {
    var shown := seq(|lines|, i requires 0 <= i < |lines| => Show(lines[i]));
    assert shown == [Show(lines[0]), Show(lines[1]), Show(lines[2]), Show(lines[3])];
    JoinFour(Show(lines[0]), Show(lines[1]), Show(lines[2]), Show(lines[3]), '\n');
  }

  /** The unit test's transcript prints as the test's input. */
  lemma ExampleShow()
    ensures forall i :: 0 <= i < |ExampleLines()| ==> WellFormed(ExampleLines()[i])
    ensures ShowAll(ExampleLines()) == "$ cd /\n$ ls\ndir a\n14848514 b.txt"
  {
    ExampleShowLines();
    ShowAllFour(ExampleLines());
    ExampleText();
  }

  lemma ExampleText()
    ensures "$ cd /" + "\n" + "$ ls" + "\n" + "dir a" + "\n" + "14848514 b.txt" ==
      "$ cd /\n$ ls\ndir a\n14848514 b.txt"
  {
  }

  /** The unit test's transcript parses into a `cd /` and an `ls` command
      followed by the directory `a` and the file `b.txt` of size 14848514. */
  lemma ExampleParse()
    ensures ParseInput("$ cd /\n$ ls\ndir a\n14848514 b.txt") == Some(ExampleLines())
  {
    ExampleShow();
    ParseShowAll(ExampleLines());
  }
}
