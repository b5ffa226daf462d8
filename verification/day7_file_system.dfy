/** Day 7, second half: replaying the transcript to grow the directory tree.
    The tree lives in an arena: node `k` is `nodes[k]`, the root is node 0,
    and a directory lists its children by id in the order `ls` printed them.
    The builder keeps a stack of open directories (the path `cd` has walked
    down) and a flag saying whether the last command was `ls`. */
module DirectoryTree {
  import opened Wrappers
  import opened Transcript

  /** `Node`: a file or a directory, and the ids of its children. */
  datatype Node = Node(file: Option<File>, directory: Option<Directory>, children: seq<nat>)

  /** The ways the builder stops: each is an `unwrap` that fails. */
  datatype BuildError =
    | FirstLineNotCommand         // the first line is output, not a command
    | RootWithoutName             // the first command has no argument
    | CdWithoutArgument           // `cd` with nothing after it
    | NoOpenDirectory             // `cd` or output with the directory stack empty
    | NoSuchDirectory(name: string) // `cd x` where the current directory lists no `x`

  /** The builder between two lines: the arena, the stack of open
      directories (innermost last) and the listing flag. */
  datatype State = State(nodes: seq<Node>, dirs: seq<nat>, listing: bool)

  /** Every id the state mentions names a node. */
  predicate InRange(st: State) {
    |st.nodes| > 0
    && (forall k | 0 <= k < |st.dirs| :: st.dirs[k] < |st.nodes|)
    && (forall p, i | 0 <= p < |st.nodes| && 0 <= i < |st.nodes[p].children| ::
          st.nodes[p].children[i] < |st.nodes|)
  }

  /** The root of an empty transcript (`FileSystem::new`): neither a file nor
      a directory. */
  function EmptyRoot(): Node {
    Node(None, None, [])
  }

  /** `add_child` in the arena: the child becomes node `|nodes|` and is
      listed last under `parent`; no other node changes. */
  function AddChildTo(nodes: seq<Node>, parent: nat, child: Node): (r: seq<Node>)
    requires parent < |nodes|
    ensures |r| == |nodes| + 1 && r[|nodes|] == child
    ensures r[parent].file == nodes[parent].file && r[parent].directory == nodes[parent].directory
    ensures r[parent].children == nodes[parent].children + [|nodes|]
    ensures forall k :: 0 <= k < |nodes| && k != parent ==> r[k] == nodes[k]
  {
    nodes[parent := nodes[parent].(children := nodes[parent].children + [|nodes|])] + [child]
  }

  /** A directory node with the given name. */
  predicate IsDirNamed(node: Node, name: string) {
    node.directory.Some? && node.directory.value.name == name
  }

  /** None of `ids` is a directory named `name`. */
  predicate NoDirNamed(nodes: seq<Node>, ids: seq<nat>, name: string)
    requires forall i :: 0 <= i < |ids| ==> ids[i] < |nodes|
  {
    forall i :: 0 <= i < |ids| ==> !IsDirNamed(nodes[ids[i]], name)
  }

  /** The first of `ids` that is a directory named `name`. */
  function FindDir(nodes: seq<Node>, ids: seq<nat>, name: string): (r: Option<nat>)
    requires forall i :: 0 <= i < |ids| ==> ids[i] < |nodes|
    ensures r.None? <==> NoDirNamed(nodes, ids, name)
    ensures r.Some? ==> exists i :: (0 <= i < |ids| && ids[i] == r.value &&
      IsDirNamed(nodes[r.value], name) &&
      forall j :: 0 <= j < i ==> !IsDirNamed(nodes[ids[j]], name))
  {
    if ids == [] then None
    else if IsDirNamed(nodes[ids[0]], name) then Some(ids[0])
    else
      match FindDir(nodes, ids[1..], name)
      case None => None
      case Some(c) => assert ids[1..][0] == ids[1]; Some(c)
  }

  /** `change_dir`: the first child of `parent` that is a directory named
      `name` (the `find` that `unwrap` then insists on). */
  function ChangeDir(nodes: seq<Node>, parent: nat, name: string): (r: Option<nat>)
    requires parent < |nodes|
    requires forall i :: 0 <= i < |nodes[parent].children| ==> nodes[parent].children[i] < |nodes|
    ensures r.None? <==> NoDirNamed(nodes, nodes[parent].children, name)
    ensures r.Some? ==> r.value in nodes[parent].children && IsDirNamed(nodes[r.value], name)
  {
    FindDir(nodes, nodes[parent].children, name)
  }

  /** The first line: its command's first argument names the root, which
      becomes the only open directory. */
  function Start(first: InputType): (r: Result<State, BuildError>)
    ensures r.Success? <==> first.command.Some? && first.command.value.arguments != []
  {
    if first.command.None? then Failure(FirstLineNotCommand)
    else if first.command.value.arguments == [] then Failure(RootWithoutName)
    else Success(State([Node(None, Some(Directory(first.command.value.arguments[0])), [])], [0], false))
  }

  /** One later line of `FileSystem::from`. Every command clears the listing
      flag and `ls` sets it again; `cd ..` pops the stack and `cd x` pushes
      the directory child `x` of the innermost open directory. Output adds a
      child to the innermost open directory, whatever the listing flag says
      (the program only reports output it did not expect). */
  function Step(st: State, line: InputType): (r: Result<State, BuildError>)
    requires InRange(st)
    ensures r.Success? ==> InRange(r.value)
  {
    if line.command.Some? then
      var command := line.command.value;
      if command.name == "ls" then Success(st.(listing := true))
      else if command.name == "cd" then
        if command.arguments == [] then Failure(CdWithoutArgument)
        else if command.arguments[0] != ".." then
          if st.dirs == [] then Failure(NoOpenDirectory)
          else
            match ChangeDir(st.nodes, st.dirs[|st.dirs| - 1], command.arguments[0])
            case None => Failure(NoSuchDirectory(command.arguments[0]))
            case Some(child) => Success(st.(dirs := st.dirs + [child], listing := false))
        else if st.dirs == [] then Failure(NoOpenDirectory)
        else Success(st.(dirs := st.dirs[..|st.dirs| - 1], listing := false))
      else Success(st.(listing := false))
    else if line.output.Some? then
      var output := line.output.value;
      if output.file.Some? then Append(st, Node(output.file, None, []))
      else if output.directory.Some? then Append(st, Node(None, output.directory, []))
      else Success(st)
    else Success(st)
  }

  /** Adds a new node under the innermost open directory. */
  function Append(st: State, child: Node): (r: Result<State, BuildError>)
    requires InRange(st) && child.children == []
    ensures r.Success? ==> InRange(r.value)
  {
    if st.dirs == [] then Failure(NoOpenDirectory)
    else
      var nodes := AddChildTo(st.nodes, st.dirs[|st.dirs| - 1], child);
      assert forall p, i | 0 <= p < |nodes| && 0 <= i < |nodes[p].children| ::
        nodes[p].children[i] < |nodes| by {
        forall p, i | 0 <= p < |nodes| && 0 <= i < |nodes[p].children|
          ensures nodes[p].children[i] < |nodes|
        {
          if p < |st.nodes| && p != st.dirs[|st.dirs| - 1] {
            assert nodes[p] == st.nodes[p];
          }
        }
      }
      Success(st.(nodes := nodes))
  }

  /** The lines after the first, one at a time; the first failure stops the
      replay. */
  function Run(st: State, lines: seq<InputType>): (r: Result<State, BuildError>)
    requires InRange(st)
    ensures r.Success? ==> InRange(r.value)
  {
    if lines == [] then Success(st)
    else
      match Run(st, lines[..|lines| - 1])
      case Failure(e) => Failure(e)
      case Success(before) => Step(before, lines[|lines| - 1])
  }

  /** `FileSystem::from` as a function of the parsed lines. */
  function Replay(input: seq<InputType>): (r: Result<State, BuildError>)
    ensures r.Success? ==> InRange(r.value)
  {
    if input == [] then Success(State([EmptyRoot()], [], false))
    else
      match Start(input[0])
      case Failure(e) => Failure(e)
      case Success(root) => Run(root, input[1..])
  }

  /** Replaying one more line continues from where the shorter replay
      stopped. */
  lemma RunNext(st: State, lines: seq<InputType>, k: nat)
    requires InRange(st) && k < |lines| && Run(st, lines[..k]).Success?
    ensures Run(st, lines[..k + 1]) == Step(Run(st, lines[..k]).value, lines[k])
  {
    assert lines[..k + 1][..k] == lines[..k];
  }

  /** A failure part way through is the failure of the whole replay. */
  lemma {:induction false} RunStops(st: State, lines: seq<InputType>, k: nat)
    requires InRange(st) && k <= |lines| && Run(st, lines[..k]).Failure?
    ensures Run(st, lines) == Run(st, lines[..k])
    decreases |lines| - k
  {
    if k < |lines| {
      assert lines[..|lines| - 1][..k] == lines[..k];
      RunStops(st, lines[..|lines| - 1], k);
    } else {
      assert lines[..k] == lines;
    }
  }

  /** The file system itself: the arena of nodes, grown in place. */
  class FileSystem {
    var nodes: seq<Node>

    /** A file system holding only its root. */
    constructor (root: Node)
      ensures nodes == [root]
    {
      nodes := [root];
    }

    /** `Node::add_child` on node `parent`. */
    method AddChild(parent: nat, child: Node)
      requires parent < |nodes|
      modifies this
      ensures nodes == AddChildTo(old(nodes), parent, child)
    {
      nodes := AddChildTo(nodes, parent, child);
    }
  }

  /** One pass of the loop of `FileSystem::from` over a line after the
      first: the arena grows in place, the stack and the flag are returned. */
  method StepInPlace(fileSystem: FileSystem, dirs: seq<nat>, listing: bool, line: InputType)
    returns (r: Result<(seq<nat>, bool), BuildError>)
    requires InRange(State(fileSystem.nodes, dirs, listing))
    modifies fileSystem
    ensures r.Failure? ==> Step(old(State(fileSystem.nodes, dirs, listing)), line) == Failure(r.error)
    ensures r.Success? ==>
      Step(old(State(fileSystem.nodes, dirs, listing)), line) == Success(State(fileSystem.nodes, r.value.0, r.value.1))
  {
    if line.command.Some? {
      var command := line.command.value;
      var listingDirectory := false;
      if command.name == "ls" {
        listingDirectory := true;
      } else if command.name == "cd" {
        if command.arguments == [] {
          return Failure(CdWithoutArgument);
        }
        if dirs == [] {
          return Failure(NoOpenDirectory);
        }
        if command.arguments[0] != ".." {
          var child := ChangeDir(fileSystem.nodes, dirs[|dirs| - 1], command.arguments[0]);
          if child.None? {
            return Failure(NoSuchDirectory(command.arguments[0]));
          }
          return Success((dirs + [child.value], false));
        }
        return Success((dirs[..|dirs| - 1], false));
      }
      return Success((dirs, listingDirectory));
    } else if line.output.Some? {
      var output := line.output.value;
      if output.file.Some? || output.directory.Some? {
        if dirs == [] {
          return Failure(NoOpenDirectory);
        }
        if output.file.Some? {
          fileSystem.AddChild(dirs[|dirs| - 1], Node(output.file, None, []));
        } else {
          fileSystem.AddChild(dirs[|dirs| - 1], Node(None, output.directory, []));
        }
      }
    }
    return Success((dirs, listing));
  }

  /** `build_file_system` after parsing: `FileSystem::from`, walking the
      lines with the directory stack and the listing flag. */
  method Build(input: seq<InputType>) returns (r: Result<FileSystem, BuildError>)
    ensures r.Success? <==> Replay(input).Success?
    ensures r.Failure? ==> r.error == Replay(input).error
    ensures r.Success? ==> fresh(r.value) && r.value.nodes == Replay(input).value.nodes
  {
    var fileSystem := new FileSystem(EmptyRoot());
    if |input| == 0 {
      return Success(fileSystem);
    }
    var first := input[0];
    if first.command.None? {
      return Failure(FirstLineNotCommand);
    }
    if first.command.value.arguments == [] {
      return Failure(RootWithoutName);
    }
    fileSystem := new FileSystem(Node(None, Some(Directory(first.command.value.arguments[0])), []));
    var root := Start(first).value;
    var dirs: seq<nat> := [0];
    var listing := false;
    var rest := input[1..];
    var index := 0;
    assert rest[..0] == [];
    while index < |rest|
      invariant 0 <= index <= |rest|
      invariant fresh(fileSystem)
      invariant Run(root, rest[..index]) == Success(State(fileSystem.nodes, dirs, listing))
    {
      RunNext(root, rest, index);
      var step := StepInPlace(fileSystem, dirs, listing, rest[index]);
      if step.Failure? {
        RunStops(root, rest, index + 1);
        return Failure(step.error);
      }
      dirs, listing := step.value.0, step.value.1;
      index := index + 1;
    }
    assert rest[..index] == rest;
    return Success(fileSystem);
  }

  // ---------------------------------------------------------------------------
  // What one line does

  /** A command never touches the arena; afterwards the listing flag says
      whether it was `ls`; only `cd` moves the directory stack, and only `cd`
      can fail. */
  lemma StepCommand(st: State, line: InputType)
    requires InRange(st) && line.command.Some?
    ensures line.command.value.name != "cd" ==> Step(st, line).Success?
    ensures Step(st, line).Success? ==>
      Step(st, line).value.nodes == st.nodes &&
      Step(st, line).value.listing == (line.command.value.name == "ls") &&
      (line.command.value.name != "cd" ==> Step(st, line).value.dirs == st.dirs)
  {
  }

  /** `cd x` (for `x` other than `..`) fails exactly when no directory is
      open or the innermost one has no directory child `x`; otherwise it
      pushes the first such child. */
  lemma StepChangeDir(st: State, line: InputType, name: string)
    requires InRange(st) && line.command.Some? && name != ".."
    requires line.command.value.name == "cd"
    requires |line.command.value.arguments| > 0 && line.command.value.arguments[0] == name
    ensures Step(st, line).Failure? <==>
      st.dirs == [] || NoDirNamed(st.nodes, st.nodes[st.dirs[|st.dirs| - 1]].children, name)
    ensures Step(st, line).Success? ==>
      var top := st.nodes[st.dirs[|st.dirs| - 1]];
      var child := Step(st, line).value.dirs[|st.dirs|];
      Step(st, line).value.dirs == st.dirs + [child] &&
      exists i :: (0 <= i < |top.children| && top.children[i] == child &&
        IsDirNamed(st.nodes[child], name) &&
        forall j :: 0 <= j < i ==> !IsDirNamed(st.nodes[top.children[j]], name))
  {
  }

  /** `cd ..` fails exactly when no directory is open, and otherwise pops
      the innermost one. */
  lemma StepChangeDirUp(st: State, line: InputType)
    requires InRange(st) && line.command.Some?
    requires line.command.value.name == "cd"
    requires |line.command.value.arguments| > 0 && line.command.value.arguments[0] == ".."
    ensures Step(st, line).Failure? <==> st.dirs == []
    ensures Step(st, line).Success? ==> Step(st, line).value.dirs == st.dirs[..|st.dirs| - 1]
  {
  }

  /** A listed file or directory becomes exactly one new node, listed last
      under the innermost open directory; nothing else changes, and the
      listing flag plays no part: output that no `ls` announced is added
      just the same. It fails only when no directory is open. */
  lemma StepOutput(st: State, line: InputType)
    requires InRange(st) && line.command.None? && line.output.Some?
    requires line.output.value.file.Some? || line.output.value.directory.Some?
    ensures Step(st, line).Failure? <==> st.dirs == []
    ensures Step(st, line).Success? ==>
      var child := if line.output.value.file.Some? then Node(line.output.value.file, None, [])
        else Node(None, line.output.value.directory, []);
      Step(st, line).value ==
        st.(nodes := AddChildTo(st.nodes, st.dirs[|st.dirs| - 1], child))
  {
  }

  /** The same output line twice adds two nodes that are equal but
      distinct: names are never merged. */
  lemma OutputTwice(st: State, line: InputType)
    requires InRange(st) && st.dirs != [] && line.command.None? && line.output.Some?
    requires line.output.value.file.Some? || line.output.value.directory.Some?
    ensures Run(st, [line, line]).Success?
    ensures var after := Run(st, [line, line]).value;
      var n := |st.nodes|;
      |after.nodes| == n + 2 && after.nodes[n] == after.nodes[n + 1] &&
      after.nodes[st.dirs[|st.dirs| - 1]].children ==
        st.nodes[st.dirs[|st.dirs| - 1]].children + [n, n + 1]
  {
    var top := st.dirs[|st.dirs| - 1];
    var child := if line.output.value.file.Some? then Node(line.output.value.file, None, [])
      else Node(None, line.output.value.directory, []);
    OutputTwiceNodes(st, line, child);
    AddChildTwice(st.nodes, top, child);
  }

  /** The arena after the same output line twice. */
  lemma OutputTwiceNodes(st: State, line: InputType, child: Node)
    requires InRange(st) && st.dirs != [] && line.command.None? && line.output.Some?
    requires line.output.value.file.Some? || line.output.value.directory.Some?
    requires child == if line.output.value.file.Some? then Node(line.output.value.file, None, [])
      else Node(None, line.output.value.directory, [])
    ensures Run(st, [line, line]).Success?
    ensures var top := st.dirs[|st.dirs| - 1];
      Run(st, [line, line]).value.nodes == AddChildTo(AddChildTo(st.nodes, top, child), top, child)
  {
    StepOutput(st, line);
    var once := Step(st, line).value;
    StepOutput(once, line);
    RunTwo(st, line, line);
  }

  /** Two lines replay one after the other. */
  lemma RunTwo(st: State, a: InputType, b: InputType)
    requires InRange(st) && Step(st, a).Success?
    ensures Run(st, [a, b]) == Step(Step(st, a).value, b)
  {
    assert [a][..0] == [] && [a, b][..1] == [a];
    assert Run(st, [a]) == Step(st, a);
  }

  /** The same child added twice under one parent. */
  lemma AddChildTwice(nodes: seq<Node>, parent: nat, child: Node)
    requires parent < |nodes|
    ensures var twice := AddChildTo(AddChildTo(nodes, parent, child), parent, child);
      var n := |nodes|;
      |twice| == n + 2 && twice[n] == child && twice[n + 1] == child &&
      twice[parent].children == nodes[parent].children + [n, n + 1]
  {
    var once := AddChildTo(nodes, parent, child);
    assert once[parent].children + [|once|] == nodes[parent].children + [|nodes|, |nodes| + 1];
  }

  // ---------------------------------------------------------------------------
  // The shape the replay keeps

  /** Node `c` is listed as a child of some node. */
  ghost predicate Listed(nodes: seq<Node>, c: nat) {
    exists p, i :: 0 <= p < |nodes| && 0 <= i < |nodes[p].children| && nodes[p].children[i] == c
  }

  /** The arena holds a tree: a child is always created after its parent, no
      id is listed twice, every node but the root is listed under some node,
      files have no children, and every node is exactly one of a file and a
      directory. */
  ghost predicate TreeShape(nodes: seq<Node>) {
    (forall p, i | 0 <= p < |nodes| && 0 <= i < |nodes[p].children| :: p < nodes[p].children[i])
    && (forall p, i, q, j |
          0 <= p < |nodes| && 0 <= i < |nodes[p].children| &&
          0 <= q < |nodes| && 0 <= j < |nodes[q].children| &&
          nodes[p].children[i] == nodes[q].children[j] :: p == q && i == j)
    && (forall c | 0 < c < |nodes| :: Listed(nodes, c))
    && (forall p | 0 <= p < |nodes| :: nodes[p].file.Some? ==> nodes[p].children == [])
    && (forall p | 0 <= p < |nodes| :: nodes[p].file.Some? != nodes[p].directory.Some?)
  }

  /** The open directories are a path down the tree from the root: each is
      a directory listed under the one before it. */
  ghost predicate OpenPath(nodes: seq<Node>, dirs: seq<nat>)
    requires forall k :: 0 <= k < |dirs| ==> dirs[k] < |nodes|
  {
    (forall k | 0 <= k < |dirs| :: nodes[dirs[k]].directory.Some?)
    && (|dirs| > 0 ==> dirs[0] == 0)
    && (forall k | 0 <= k < |dirs| - 1 :: dirs[k + 1] in nodes[dirs[k]].children)
  }

  /** The shape every state of a replay has. */
  ghost predicate Tree(st: State) {
    InRange(st) && TreeShape(st.nodes) && OpenPath(st.nodes, st.dirs)
  }

  /** The first line leaves a tree of one directory, open. */
  lemma StartTree(first: InputType)
    requires Start(first).Success?
    ensures Tree(Start(first).value)
    ensures Start(first).value.dirs == [0] && !Start(first).value.listing
    ensures Start(first).value.nodes ==
      [Node(None, Some(Directory(first.command.value.arguments[0])), [])]
  {
  }

  /** Adding a child under the innermost open directory keeps the tree. */
  lemma AppendKeepsTree(st: State, child: Node)
    requires Tree(st) && st.dirs != [] && child.children == []
    requires child.file.Some? != child.directory.Some?
    ensures Tree(Append(st, child).value)
  {
    var top := st.dirs[|st.dirs| - 1];
    var nodes := AddChildTo(st.nodes, top, child);
    assert Append(st, child).value == st.(nodes := nodes);
    assert st.nodes[top].file.None?;
    AddChildEntries(st.nodes, top, child);
    AddChildKeepsShape(st.nodes, top, child);
    AddChildKeepsPath(st.nodes, st.dirs, top, child);
  }

  /** After `AddChildTo`, the new id is listed once, as the parent's last
      child, and every other entry is an old one in its old place. */
  lemma AddChildEntries(nodes: seq<Node>, top: nat, child: Node)
    requires top < |nodes| && child.children == []
    requires forall p, i | 0 <= p < |nodes| && 0 <= i < |nodes[p].children| :: nodes[p].children[i] < |nodes|
    ensures var after := AddChildTo(nodes, top, child);
      forall p, i | 0 <= p < |after| && 0 <= i < |after[p].children| ::
        (after[p].children[i] == |nodes| <==> p == top && i == |nodes[top].children|)
        && (after[p].children[i] != |nodes| ==>
              p < |nodes| && i < |nodes[p].children| && after[p].children[i] == nodes[p].children[i])
  {
    var after := AddChildTo(nodes, top, child);
    forall p, i | 0 <= p < |after| && 0 <= i < |after[p].children|
      ensures after[p].children[i] == |nodes| <==> p == top && i == |nodes[top].children|
      ensures after[p].children[i] != |nodes| ==>
        p < |nodes| && i < |nodes[p].children| && after[p].children[i] == nodes[p].children[i]
    {
      if p == top {
        if i < |nodes[top].children| {
          assert after[p].children[i] == nodes[top].children[i];
        }
      } else if p < |nodes| {
        assert after[p] == nodes[p];
      }
    }
  }

  /** `AddChildTo` keeps the tree shape when the parent is not a file and
      the child is a leaf of exactly one kind. */
  lemma AddChildKeepsShape(nodes: seq<Node>, top: nat, child: Node)
    requires top < |nodes| && TreeShape(nodes) && nodes[top].file.None?
    requires child.children == [] && child.file.Some? != child.directory.Some?
    requires forall p, i | 0 <= p < |nodes| && 0 <= i < |nodes[p].children| :: nodes[p].children[i] < |nodes|
    ensures TreeShape(AddChildTo(nodes, top, child))
  {
    var after := AddChildTo(nodes, top, child);
    var n := |nodes|;
    AddChildEntries(nodes, top, child);
    forall p, i | 0 <= p < |after| && 0 <= i < |after[p].children|
      ensures p < after[p].children[i]
    {
      if after[p].children[i] != n {
        assert p < nodes[p].children[i];
      }
    }
    forall c | 0 < c < |after| ensures Listed(after, c) {
      if c == n {
        assert after[top].children[|nodes[top].children|] == c;
      } else {
        assert Listed(nodes, c);
        var p, i :| 0 <= p < n && 0 <= i < |nodes[p].children| && nodes[p].children[i] == c;
        assert after[p].children[i] == c;
      }
    }
    forall p | 0 <= p < |after|
      ensures after[p].file.Some? ==> after[p].children == []
      ensures after[p].file.Some? != after[p].directory.Some?
    {
      if p < n && p != top {
        assert after[p] == nodes[p];
      }
    }
  }

  /** `AddChildTo` keeps every open directory a directory listed under the
      one before it. */
  lemma AddChildKeepsPath(nodes: seq<Node>, dirs: seq<nat>, top: nat, child: Node)
    requires top < |nodes| && forall k :: 0 <= k < |dirs| ==> dirs[k] < |nodes|
    requires OpenPath(nodes, dirs)
    ensures OpenPath(AddChildTo(nodes, top, child), dirs)
  {
    var after := AddChildTo(nodes, top, child);
    forall k | 0 <= k < |dirs| - 1 ensures dirs[k + 1] in after[dirs[k]].children {
      var i :| 0 <= i < |nodes[dirs[k]].children| && nodes[dirs[k]].children[i] == dirs[k + 1];
      assert after[dirs[k]].children[i] == dirs[k + 1];
    }
    forall k | 0 <= k < |dirs| ensures after[dirs[k]].directory.Some? {
      assert after[dirs[k]].directory == nodes[dirs[k]].directory;
    }
  }

  /** Every line after the first keeps the tree. */
  lemma StepKeepsTree(st: State, line: InputType)
    requires Tree(st) && Step(st, line).Success?
    ensures Tree(Step(st, line).value)
  {
    if line.command.Some? {
      var command := line.command.value;
      if command.name == "cd" && command.arguments[0] != ".." {
        var top := st.dirs[|st.dirs| - 1];
        var child := ChangeDir(st.nodes, top, command.arguments[0]).value;
        var after := Step(st, line).value;
        assert after.dirs == st.dirs + [child];
        assert child in st.nodes[top].children && st.nodes[child].directory.Some?;
        forall k | 0 <= k < |after.dirs| - 1
          ensures after.dirs[k + 1] in after.nodes[after.dirs[k]].children
        {
          if k < |st.dirs| - 1 {
            assert after.dirs[k] == st.dirs[k] && after.dirs[k + 1] == st.dirs[k + 1];
          }
        }
      }
    } else if line.output.Some? {
      var output := line.output.value;
      if output.file.Some? {
        AppendKeepsTree(st, Node(output.file, None, []));
      } else if output.directory.Some? {
        AppendKeepsTree(st, Node(None, output.directory, []));
      }
    }
  }

  /** The lines after the first keep the tree. */
  lemma {:induction false} RunKeepsTree(st: State, lines: seq<InputType>)
    requires Tree(st) && Run(st, lines).Success?
    ensures Tree(Run(st, lines).value)
  {
    if lines != [] {
      RunKeepsTree(st, lines[..|lines| - 1]);
      StepKeepsTree(Run(st, lines[..|lines| - 1]).value, lines[|lines| - 1]);
    }
  }

  /** Whatever a non-empty transcript builds is a tree under the root its
      first line names. */
  lemma ReplayTree(input: seq<InputType>)
    requires input != [] && Replay(input).Success?
    ensures Tree(Replay(input).value)
  {
    StartTree(input[0]);
    RunKeepsTree(Start(input[0]).value, input[1..]);
  }

  // ---------------------------------------------------------------------------
  // What a whole replay builds

  /** The number of lines that list a file or a directory. */
  function CountOutputs(lines: seq<InputType>): nat {
    if lines == [] then 0
    else
      var line := lines[|lines| - 1];
      CountOutputs(lines[..|lines| - 1]) +
        (if line.command.None? && line.output.Some? &&
            (line.output.value.file.Some? || line.output.value.directory.Some?) then 1 else 0)
  }

  /** Every listed file or directory becomes one node, and nothing else
      does. */
  lemma {:induction false} RunCountsOutputs(st: State, lines: seq<InputType>)
    requires InRange(st) && Run(st, lines).Success?
    ensures |Run(st, lines).value.nodes| == |st.nodes| + CountOutputs(lines)
  {
    if lines != [] {
      RunCountsOutputs(st, lines[..|lines| - 1]);
    }
  }

  /** A successful replay of a non-empty transcript holds the root and one
      node per listed file or directory after the first line. */
  lemma ReplayCountsOutputs(input: seq<InputType>)
    requires input != [] && Replay(input).Success?
    ensures |Replay(input).value.nodes| == 1 + CountOutputs(input[1..])
  {
    RunCountsOutputs(Start(input[0]).value, input[1..]);
  }

  /** `cd x` for a name other than `..`: a move down into `x`. */
  predicate IsCdDown(line: InputType) {
    line.command.Some? && line.command.value.name == "cd" &&
    line.command.value.arguments != [] && line.command.value.arguments[0] != ".."
  }

  /** `cd ..`: a move up to the parent. */
  predicate IsCdUp(line: InputType) {
    line.command.Some? && line.command.value.name == "cd" &&
    line.command.value.arguments != [] && line.command.value.arguments[0] == ".."
  }

  /** The number of lines that satisfy `p`. */
  function CountLines(lines: seq<InputType>, p: InputType -> bool): nat {
    if lines == [] then 0
    else CountLines(lines[..|lines| - 1], p) + (if p(lines[|lines| - 1]) then 1 else 0)
  }

  /** Every successful `cd x` opens one more directory and every successful
      `cd ..` closes one, and nothing else moves the stack: the open
      directories at the end, plus the moves up, equal those at the start
      plus the moves down. */
  lemma {:induction false} RunBalancesNavigation(st: State, lines: seq<InputType>)
    requires InRange(st) && Run(st, lines).Success?
    ensures |Run(st, lines).value.dirs| + CountLines(lines, IsCdUp) ==
      |st.dirs| + CountLines(lines, IsCdDown)
  {
    if lines != [] {
      RunBalancesNavigation(st, lines[..|lines| - 1]);
    }
  }

  /** After a successful replay of a non-empty transcript, the open
      directories are the root plus the moves down, less the moves up, after
      the first line. */
  lemma ReplayBalancesNavigation(input: seq<InputType>)
    requires input != [] && Replay(input).Success?
    ensures |Replay(input).value.dirs| + CountLines(input[1..], IsCdUp) ==
      1 + CountLines(input[1..], IsCdDown)
  {
    RunBalancesNavigation(Start(input[0]).value, input[1..]);
  }

  /** Node `k` of `before` is still there in `after`, as the same file or
      directory, with its children so far still listed first. */
  ghost predicate Keeps(before: seq<Node>, after: seq<Node>) {
    |before| <= |after| &&
    forall k | 0 <= k < |before| ::
      after[k].file == before[k].file && after[k].directory == before[k].directory &&
      before[k].children <= after[k].children
  }

  /** Nothing a replay has built is ever removed, renamed or reordered. */
  lemma {:induction false} RunKeeps(st: State, lines: seq<InputType>)
    requires InRange(st) && Run(st, lines).Success?
    ensures Keeps(st.nodes, Run(st, lines).value.nodes)
  {
    if lines != [] {
      var mid := Run(st, lines[..|lines| - 1]).value;
      RunKeeps(st, lines[..|lines| - 1]);
      StepKeeps(mid, lines[|lines| - 1]);
      KeepsTransitive(st.nodes, mid.nodes, Run(st, lines).value.nodes);
    }
  }

  /** One line removes, renames or reorders nothing. */
  lemma StepKeeps(st: State, line: InputType)
    requires InRange(st) && Step(st, line).Success?
    ensures Keeps(st.nodes, Step(st, line).value.nodes)
  {
    var after := Step(st, line).value.nodes;
    if line.command.None? && line.output.Some? &&
       (line.output.value.file.Some? || line.output.value.directory.Some?) {
      StepOutput(st, line);
      var top := st.dirs[|st.dirs| - 1];
      forall k | 0 <= k < |st.nodes| ensures st.nodes[k].children <= after[k].children {
        if k == top {
          assert after[k].children == st.nodes[k].children + [|st.nodes|];
        }
      }
    } else if line.command.Some? {
      StepCommand(st, line);
    }
  }

  lemma KeepsTransitive(a: seq<Node>, b: seq<Node>, c: seq<Node>)
    requires Keeps(a, b) && Keeps(b, c)
    ensures Keeps(a, c)
  {
    forall k | 0 <= k < |a| ensures a[k].children <= c[k].children {
      assert a[k].children <= b[k].children;
    }
  }

  /** The root of a successful replay is the directory the first line's
      argument names, and it is never replaced. */
  lemma ReplayRoot(input: seq<InputType>)
    requires input != [] && Replay(input).Success?
    ensures input[0].command.Some? && input[0].command.value.arguments != []
    ensures Replay(input).value.nodes[0].file.None?
    ensures Replay(input).value.nodes[0].directory == Some(Directory(input[0].command.value.arguments[0]))
  {
    RunKeeps(Start(input[0]).value, input[1..]);
  }

  /** The empty transcript leaves `FileSystem::new`'s bare root. */
  lemma ReplayEmpty()
    ensures Replay([]) == Success(State([EmptyRoot()], [], false))
  {
  }

  /** The tree the unit test's transcript describes: `/` holding the
      directory `a` (node 1) and then the file `b.txt` (node 2). */
  function ExampleTree(): seq<Node> {
    [ Node(None, Some(Directory("/")), [1, 2]),
      Node(None, Some(Directory("a")), []),
      Node(Some(File("b.txt", 14848514)), None, []) ]
  }

  /** Replaying the unit test's transcript builds that tree, with `/` open
      and the listing flag still set. */
  lemma ExampleReplay()
    ensures Replay(ExampleLines()) == Success(State(ExampleTree(), [0], true))
  {
    var lines := ExampleLines();
    var rest := lines[1..];
    var root := State([Node(None, Some(Directory("/")), [])], [0], false);
    var listed := root.(listing := true);
    var withDir := State([Node(None, Some(Directory("/")), [1]), Node(None, Some(Directory("a")), [])], [0], true);
    assert Start(lines[0]) == Success(root);
    assert rest == [lines[1], lines[2], lines[3]];
    assert rest[..0] == [];
    RunNext(root, rest, 0);
    ExampleList(root);
    RunNext(root, rest, 1);
    ExampleAddDirectory(listed);
    RunNext(root, rest, 2);
    ExampleAddFile(withDir);
    assert rest[..3] == rest;
  }

  /** `$ ls` sets the listing flag and changes nothing else. */
  lemma ExampleList(st: State)
    requires InRange(st)
    ensures Step(st, ExampleLines()[1]) == Success(st.(listing := true))
  {
  }

  /** `dir a` adds the directory `a` under the open root. */
  lemma ExampleAddDirectory(st: State)
    requires st == State([Node(None, Some(Directory("/")), [])], [0], true)
    ensures Step(st, ExampleLines()[2]) ==
      Success(State([Node(None, Some(Directory("/")), [1]), Node(None, Some(Directory("a")), [])], [0], true))
  {
    var a := Node(None, Some(Directory("a")), []);
    assert Step(st, ExampleLines()[2]) == Append(st, a);
    var nodes := AddChildTo(st.nodes, 0, a);
    assert nodes[0].children == [1];
    assert nodes == [Node(None, Some(Directory("/")), [1]), a];
  }

  /** `14848514 b.txt` adds the file `b.txt` under the open root. */
  lemma ExampleAddFile(st: State)
    requires st == State([Node(None, Some(Directory("/")), [1]), Node(None, Some(Directory("a")), [])], [0], true)
    ensures Step(st, ExampleLines()[3]) == Success(State(ExampleTree(), [0], true))
  {
    var b := Node(Some(File("b.txt", 14848514)), None, []);
    assert Step(st, ExampleLines()[3]) == Append(st, b);
    var nodes := AddChildTo(st.nodes, 0, b);
    assert nodes[0].children == [1, 2];
    assert nodes == ExampleTree();
  }

  /** `build_file_system` on the unit test's input: parsing and replaying
      give the example tree. */
  lemma ExampleBuild()
    ensures ParseInput("$ cd /\n$ ls\ndir a\n14848514 b.txt") == Some(ExampleLines())
    ensures Replay(ExampleLines()).Success? && Replay(ExampleLines()).value.nodes == ExampleTree()
  {
    ExampleParse();
    ExampleReplay();
  }
  /** `cd ..` at the root closes the root: no directory is open afterwards,
      and the next listed entry finds nowhere to go. */
  lemma ExampleLeaveRoot()
    ensures var cdRoot := InputType(Some(Command("cd", ["/"])), None);
      var cdUp := InputType(Some(Command("cd", [".."])), None);
      Replay([cdRoot, cdUp]) == Success(State([Node(None, Some(Directory("/")), [])], [], false))
    ensures var cdRoot := InputType(Some(Command("cd", ["/"])), None);
      var cdUp := InputType(Some(Command("cd", [".."])), None);
      var dirA := InputType(None, Some(Output(Some(Directory("a")), None)));
      Replay([cdRoot, cdUp, dirA]) == Failure(NoOpenDirectory)
  {
    var cdRoot := InputType(Some(Command("cd", ["/"])), None);
    var cdUp := InputType(Some(Command("cd", [".."])), None);
    var dirA := InputType(None, Some(Output(Some(Directory("a")), None)));
    var root := State([Node(None, Some(Directory("/")), [])], [0], false);
    assert Start(cdRoot) == Success(root);
    assert [cdRoot, cdUp][1..] == [cdUp];
    assert [cdRoot, cdUp, dirA][1..] == [cdUp, dirA];
    assert [cdUp, dirA][..1] == [cdUp];
    assert [cdUp][..0] == [];
  }
}
