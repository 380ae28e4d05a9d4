/** Lines that show each way in which a run can differ from the shell, and lines that run alike. */
module ShellExamples {
  import opened Basics
  import opened ShellSyntax
  import opened ShellGrammar
  import opened ShellPipeline
  import opened ShellReading

  function Command(name: string, items: seq<Item>): Segment {
    Cmd([], name, items)
  }

  lemma NoAssignment(word: string)
    requires '=' !in word
    ensures MatchEnvVar(word).None?
  {
    hide WordLength;
  }

  lemma CommandMeans(name: string, items: seq<Item>)
    requires '=' !in name && name != "cd" && forall i :: 0 <= i < |items| ==> !items[i].Arg?
    ensures var seg := Command(name, items);
            && ValidSegment(seg)
            && SegmentNode(seg) == RedirectAll(NewCommand(name, map[]), items)
            && SegmentTokens(seg) == [name] + ItemsTokens(items)
  {
    NoAssignment(name);
    hide MatchEnvVar;
    assert [] + [name] == [name];
  }

  lemma NoItems(c: Node)
    requires c.Command?
    ensures RedirectAll(c, []) == Some(c) && ItemsTokens([]) == []
  {
  }

  lemma OneItem(c: Node, item: Item)
    requires c.Command?
    ensures RedirectAll(c, [item]) == Redirect(c, item) && ItemsTokens([item]) == ItemTokens(item)
  {
    hide Redirect;
    assert [item][1..] == [];
    assert ItemTokens(item) + [] == ItemTokens(item);
  }

  lemma TwoItems(c: Node, first: Item, second: Item)
    requires c.Command? && Redirect(c, first).Some?
    ensures RedirectAll(c, [first, second]) == Redirect(Redirect(c, first).value, second)
    ensures ItemsTokens([first, second]) == ItemTokens(first) + ItemTokens(second)
  {
    hide Redirect;
    hide ItemTokens;
    assert [first, second][1..] == [second];
    OneItem(Redirect(c, first).value, second);
  }

  lemma LastMeans(seg: Segment, node: Node)
    requires ValidSegment(seg) && SegmentNode(seg) == Some(node)
    ensures var line := Last(seg, []);
            Meaningful(line) && NodeOf(line) == node && Tokens(line) == SegmentTokens(seg) && !Dangles(line)
  {
  }

  lemma JoinedMeans(seg: Segment, node: Node, op: Node, rest: Line)
    requires ValidSegment(seg) && SegmentNode(seg) == Some(node) && Meaningful(rest) && !Dangles(rest)
    requires op == And || (node.Command? && (op == Or || (op == Pipe && node.stdout == Inherited)))
    ensures var line := Joined(seg, op, rest);
            && Meaningful(line) && NodeOf(line) == Connect(node, op).value && !Dangles(line)
            && Tokens(line) == SegmentTokens(seg) + [OpToken(op)] + Tokens(rest)
  {
    hide SegmentNode;
    hide ValidSegment;
  }

  lemma CdMeans(dir: string)
    requires dir != "&&"
    ensures ValidSegment(Cd([dir])) && SegmentNode(Cd([dir])) == Some(Chdir(Some(dir)))
    ensures SegmentTokens(Cd([dir])) == ["cd", dir]
  {
  }

  lemma LastUnfolds(line: Line, sh: Shell, group: seq<Event>, n: nat, status: nat -> int, s: int)
    requires Meaningful(line) && line.Last? && line.seg.Cmd?
    ensures NodeOf(line).Command?
    ensures LeftEval(line, sh, group, n, status, true, s)
            == Result(Exit(status(n + |group|)), WithStart(line, sh.at, group))
    ensures Eval(LineAst(line, sh.at, group), n, status)
            == Result(Exit(status(n + |group|)), group + [CodeStart(line, sh.at, group != [])])
  {
    hide Denote;
    hide ShellStart;
    hide CodeStart;
    Unfolded(line);
    assert WithStart(line, sh.at, group) + [] == WithStart(line, sh.at, group);
  }

  lemma WholeLine(line: Line, sh: Shell, status: nat -> int)
    requires Meaningful(line) && !Dangles(line) && sh.at == HERE
    ensures WellShaped(Denote(line).value)
    ensures RunResult(Denote(line).value, status) == Eval(LineAst(line, HERE, []), 0, status)
    ensures ShellResult(line, sh, status) == LeftEval(line, sh, [], 0, status, true, 0)
  {
    AstOfLine(line, HERE, []);
  }

  /** A command without redirections. */
  lemma BareCommand(name: string)
    requires '=' !in name && name != "cd"
    ensures var seg := Command(name, []);
            ValidSegment(seg) && SegmentNode(seg) == Some(NewCommand(name, map[])) && SegmentTokens(seg) == [name]
  {
    CommandMeans(name, []);
    NoItems(NewCommand(name, map[]));
  }

  /** A command that reads from a file. */
  lemma ReadingCommand(name: string, file: string)
    requires '=' !in name && name != "cd"
    ensures var seg := Command(name, [InFrom(file)]);
            && ValidSegment(seg) && SegmentNode(seg) == Some(NewCommand(name, map[]).(stdin := File(file)))
            && SegmentTokens(seg) == [name, "<", file]
  {
    CommandMeans(name, [InFrom(file)]);
    OneItem(NewCommand(name, map[]), InFrom(file));
  }

  ghost function OrThenCdLine(): Line {
    Joined(Command("a", []), Or, Joined(Cd(["x"]), And, Last(Command("b", []), [])))
  }

  lemma OrThenCdMeans()
    ensures var line := OrThenCdLine();
            && Tokens(line) == ["a", "||", "cd", "x", "&&", "b"] && !Dangles(line)
            && Meaningful(line) && Meaningful(line.rest) && Meaningful(line.rest.rest)
  {
    hide Denote;
    hide SegmentNode;
    hide ValidSegment;
    hide Tokens;
    hide SegmentTokens;
    var last := OrThenCdLine().rest.rest;
    BareCommand("a");
    BareCommand("b");
    CdMeans("x");
    LastMeans(last.seg, NewCommand("b", map[]));
    JoinedMeans(Cd(["x"]), Chdir(Some("x")), And, last);
    JoinedMeans(Command("a", []), NewCommand("a", map[]), Or, OrThenCdLine().rest);
  }

  /** `a || cd x && b`: when a succeeds the run ends, but the shell, which reads `(a || cd x) && b`, starts b. */
  lemma OrThenCd(sh: Shell)
    requires sh.at == HERE
    ensures var line := OrThenCdLine();
            && Tokens(line) == ["a", "||", "cd", "x", "&&", "b"] && Meaningful(line) && !Uniform(line)
            && WellShaped(Denote(line).value)
            && |RunResult(Denote(line).value, _ => 0).events| == 1
            && |ShellResult(line, sh, _ => 0).events| == 2
  {
    hide LeftEval;
    hide LineAst;
    hide Denote;
    hide Tokens;
    hide ShellStart;
    hide CodeStart;
    hide Plain;
    hide ToAst;
    var line := OrThenCdLine();
    var status: nat -> int := _ => 0;
    OrThenCdMeans();
    WholeLine(line, sh, status);
    OpUnfolds(line, sh, [], 0, status, 0);
    CdSkipped(line.rest, sh, 1, status);
    LastUnfolds(line.rest.rest, sh, [], 1, status, 0);
  }

  /** A cd that is not reached leaves the status as it is. */
  lemma CdSkipped(line: Line, sh: Shell, n: nat, status: nat -> int)
    requires Meaningful(line) && line.Joined? && line.seg.Cd?
    ensures Meaningful(line.rest)
    ensures LeftEval(line, sh, [], n, status, false, 0) == LeftEval(line.rest, sh, [], n, status, true, 0)
  {
    hide Denote;
    Unfolded(line);
    AfterNothing(LeftEval(line.rest, sh, [], n, status, true, 0));
  }

  /** `a | b < f`: the code leaves the file unread, the shell reads it instead of the pipe. */
  lemma InputBehindPipe(sh: Shell, status: nat -> int)
    requires sh.at == HERE
    ensures var line := Joined(Command("a", []), Pipe, Last(Command("b", [InFrom("f")]), []));
            && Tokens(line) == ["a", "|", "b", "<", "f"] && Meaningful(line) && !Uniform(line)
            && WellShaped(Denote(line).value)
            && var code, shell := RunResult(Denote(line).value, status).events, ShellResult(line, sh, status).events;
            && |code| == |shell| == 2 && code[0] == shell[0]
            && code[1].Launch? && code[1].stdin == FromPrevious
            && shell[1] == code[1].(stdin := FromFile(GoTo(HERE, "f")))
  {
    var last := Last(Command("b", [InFrom("f")]), []);
    var line := Joined(Command("a", []), Pipe, last);
    BareCommand("a");
    ReadingCommand("b", "f");
    LastMeans(last.seg, NewCommand("b", map[]).(stdin := File("f")));
    JoinedMeans(line.seg, NewCommand("a", map[]), Pipe, last);
    WholeLine(line, sh, status);
    ReadsFile(last, HERE, true, "f");
    assert PlainCommand(line, HERE, false);
    StartAgrees(line, HERE, false);
    hide *;
    PipeUnfolds(line, sh, [], 0, status, true, 0);
    LastUnfolds(last, sh, WithStart(line, HERE, []), 0, status, 0);
  }

  lemma OneRedirected(e: Event, item: Item, at: Place)
    requires e.Launch?
    ensures RedirectedAll(e, [item], at) == Redirected(e, item, at)
  {
    hide Redirected;
    assert [item][1..] == [];
  }

  /** The shell reads the file whatever stands before. */
  lemma ReadsFile(line: Line, at: Place, piped: bool, file: string)
    requires Meaningful(line) && line.Last? && line.seg.Cmd? && line.seg.items == [InFrom(file)] && line.seg.env == []
    requires NodeOf(line) == NewCommand(line.seg.name, map[]).(stdin := File(file))
    ensures CodeStart(line, at, piped).Launch?
    ensures CodeStart(line, at, piped).stdin == if piped then FromPrevious else FromFile(GoTo(HERE, file))
    ensures ShellStart(line, at, piped) == CodeStart(line, at, piped).(stdin := FromFile(GoTo(at, file)))
  {
    hide Denote;
    hide GoTo;
    hide MatchEnvVar;
    Unfolded(line);
    var e := Launch([line.seg.name], map[], at, if piped then FromPrevious else OwnStdin, OwnStdout, OwnStderr);
    OneRedirected(e, InFrom(file), at);
    hide RedirectedAll;
  }

  ghost function InputBehindCdLine(): Line {
    Joined(Cd(["x"]), And, Last(Command("cat", [InFrom("f")]), []))
  }

  lemma InputBehindCdMeans()
    ensures var line := InputBehindCdLine();
            && Tokens(line) == ["cd", "x", "&&", "cat", "<", "f"] && !Dangles(line)
            && Meaningful(line) && Meaningful(line.rest)
            && NodeOf(line.rest) == NewCommand("cat", map[]).(stdin := File("f"))
  {
    hide Denote;
    hide SegmentNode;
    hide ValidSegment;
    hide Tokens;
    hide SegmentTokens;
    var last := InputBehindCdLine().rest;
    ReadingCommand("cat", "f");
    CdMeans("x");
    LastMeans(last.seg, NewCommand("cat", map[]).(stdin := File("f")));
    JoinedMeans(Cd(["x"]), Chdir(Some("x")), And, last);
  }

  /** `cd x && cat < f`: the code opens f where it is itself, the shell opens x/f. */
  lemma InputBehindCd(sh: Shell, status: nat -> int)
    requires sh.at == HERE
    ensures var line := InputBehindCdLine();
            && Tokens(line) == ["cd", "x", "&&", "cat", "<", "f"] && Meaningful(line) && !Uniform(line)
            && WellShaped(Denote(line).value)
            && var code, shell := RunResult(Denote(line).value, status).events, ShellResult(line, sh, status).events;
            && |code| == |shell| == 1
            && code[0].Launch? && code[0].stdin == FromFile(Place(false, ["f"]))
            && shell[0] == code[0].(stdin := FromFile(Place(false, ["x", "f"])))
  {
    hide LeftEval;
    hide LineAst;
    hide Denote;
    hide NodeOf;
    hide Tokens;
    hide ShellStart;
    hide CodeStart;
    hide PlainCommand;
    hide ToAst;
    hide GoTo;
    var line, there := InputBehindCdLine(), GoTo(HERE, "x");
    InputBehindCdMeans();
    InTwoSteps();
    WholeLine(line, sh, status);
    ReadsFile(line.rest, there, false, "f");
    StartAgrees(line.rest, there, false);
    CdUnfolds(line, sh, 0, status, 0);
    LastUnfolds(line.rest, Moved(sh, ["x"]), [], 0, status, 0);
  }

  lemma InTwoSteps()
    ensures GoTo(HERE, "x") == Place(false, ["x"]) && GoTo(HERE, "f") == Place(false, ["f"])
    ensures GoTo(GoTo(HERE, "x"), "f") == Place(false, ["x", "f"])
  {
    PartsOfWord("", "x");
    PartsOfWord("", "f");
    hide Parts;
    assert "" + "x" == "x" && "" + "f" == "f";
    assert [] + ["x"] == ["x"] && [] + ["f"] == ["f"] && ["x"] + ["f"] == ["x", "f"];
  }

  /** `a 2>&1 > f`: the code sends the errors to f, the shell to where the output went before. */
  lemma ErrorsBeforeOutput(sh: Shell, status: nat -> int)
    requires sh.at == HERE
    ensures var line := Last(Command("a", [ErrToOut, OutTo("f")]), []);
            && Tokens(line) == ["a", "2>&1", ">", "f"] && Meaningful(line) && !Uniform(line)
            && WellShaped(Denote(line).value)
            && var code, shell := RunResult(Denote(line).value, status).events, ShellResult(line, sh, status).events;
            && |code| == |shell| == 1
            && code[0].Launch? && code[0].stderr == code[0].stdout == ToFile(GoTo(HERE, "f"))
            && shell[0] == code[0].(stderr := OwnStdout)
  {
    var items := [ErrToOut, OutTo("f")];
    var line := Last(Command("a", items), []);
    CommandMeans("a", items);
    TwoItems(NewCommand("a", map[]), ErrToOut, OutTo("f"));
    LastMeans(line.seg, NewCommand("a", map[]).(stderr := SameAsStdout, stdout := File("f")));
    WholeLine(line, sh, status);
    LastUnfolds(line, sh, [], 0, status, 0);
    hide LeftEval;
    hide LineAst;
    hide Denote;
    hide GoTo;
    hide RedirectAll;
    assert items[0].ErrToOut? && items[1].OutTo? && SplitsLater(items);
    assert items[1..] == [OutTo("f")] && items[1..][1..] == [];
  }

  /** `cd x && a || b`: a leading cd does not count as mixing. */
  lemma LeadingCdIsUniform()
    ensures var line := Joined(Cd(["x"]), And, Joined(Command("a", []), Or, Last(Command("b", []), [])));
            Tokens(line) == ["cd", "x", "&&", "a", "||", "b"] && Meaningful(line) && Uniform(line)
  {
    var last := Last(Command("b", []), []);
    var rest := Joined(Command("a", []), Or, last);
    BareCommand("a");
    BareCommand("b");
    CdMeans("x");
    LastMeans(last.seg, NewCommand("b", map[]));
    JoinedMeans(rest.seg, NewCommand("a", map[]), Or, last);
    JoinedMeans(Cd(["x"]), Chdir(Some("x")), And, rest);
    hide Denote;
    hide Tokens;
  }

  ghost function OwnExample(): Line {
    Joined(Command("./foo.py", [ErrToOut, InFrom("xxx")]), Pipe,
           Joined(Command("cat", []), And, Last(Command("ls", []), [])))
  }

  lemma OwnExampleMeans()
    ensures var line, first := OwnExample(), NewCommand("./foo.py", map[]);
            && Tokens(line) == ["./foo.py", "2>&1", "<", "xxx", "|", "cat", "&&", "ls"] && !Dangles(line)
            && Meaningful(line) && Meaningful(line.rest) && Meaningful(line.rest.rest)
            && NodeOf(line) == first.(stdin := File("xxx"), stdout := PIPE, stderr := SameAsStdout)
            && NodeOf(line.rest) == NewCommand("cat", map[]) && NodeOf(line.rest.rest) == NewCommand("ls", map[])
  {
    hide Denote;
    hide SegmentNode;
    hide ValidSegment;
    hide Tokens;
    hide SegmentTokens;
    hide ItemsTokens;
    hide RedirectAll;
    var first := NewCommand("./foo.py", map[]);
    var items := [ErrToOut, InFrom("xxx")];
    var rest := OwnExample().rest;
    CommandMeans("./foo.py", items);
    TwoItems(first, ErrToOut, InFrom("xxx"));
    BareCommand("cat");
    BareCommand("ls");
    LastMeans(rest.rest.seg, NewCommand("ls", map[]));
    JoinedMeans(rest.seg, NewCommand("cat", map[]), And, rest.rest);
    JoinedMeans(Command("./foo.py", items), first.(stderr := SameAsStdout, stdin := File("xxx")), Pipe, rest);
  }

  /** `./foo.py 2>&1 < xxx | cat && ls`, the line that the program itself runs. */
  lemma OwnExampleIsUniform()
    ensures var line := OwnExample();
            && Tokens(line) == ["./foo.py", "2>&1", "<", "xxx", "|", "cat", "&&", "ls"]
            && Meaningful(line) && Uniform(line)
  {
    hide Denote;
    hide NodeOf;
    hide Tokens;
    hide Dangles;
    OwnExampleMeans();
    var line := OwnExample();
    assert !SplitsLater(line.seg.items);
    assert OnlyOp(line, And);
  }

  /** One argument or redirection after the other. */
  lemma NextItem(c: Node, item: Item, more: seq<Item>, c': Node)
    requires c.Command? && Redirect(c, item) == Some(c')
    ensures c'.Command? && RedirectAll(c, [item] + more) == RedirectAll(c', more)
    ensures ItemsTokens([item] + more) == ItemTokens(item) + ItemsTokens(more)
  {
    OneRedirect(c, [item], more, c');
    ConsItem(item, more);
  }

  ghost function EveryPartLine(): Line {
    Last(Cmd(["A=1"], "a", [Arg("x"), InFrom("i"), OutTo("o"), ErrTo("e")]), [])
  }

  /** The parts of a command: the parser keeps each in its place. */
  lemma EveryPart()
    ensures Meaningful(EveryPartLine())
    ensures ParseTokens(["A=1", "a", "x", "<", "i", ">", "o", "2>", "e"]) == Denote(EveryPartLine()) ==
            Some([ShellSyntax.Command("a", ["a", "x"], File("i"), File("o"), File("e"), map["A" := "1"])])
  {
    hide MatchEnvVar;
    var c0 := NewCommand("a", map["A" := "1"]);
    var c1 := c0.(argv := ["a", "x"]);
    var c2 := c1.(stdin := File("i"));
    var c3 := c2.(stdout := File("o"));
    var i4 := [ErrTo("e")];
    var i3 := [OutTo("o")] + i4;
    var i2 := [InFrom("i")] + i3;
    var i1 := [Arg("x")] + i2;
    assert c0.argv + ["x"] == ["a", "x"];
    NextItem(c0, Arg("x"), i2, c1);
    NextItem(c1, InFrom("i"), i3, c2);
    NextItem(c2, OutTo("o"), i4, c3);
    OneItem(c3, ErrTo("e"));
    hide RedirectAll;
    hide ItemsTokens;
    var line := Last(Cmd(["A=1"], "a", i1), []);
    assert i1 == [Arg("x"), InFrom("i"), OutTo("o"), ErrTo("e")];
    assert line == EveryPartLine();
    NoAssignment("a");
    assert "A" + "=" + "1" == "A=1";
    AssignmentsAre("A=1", "A", "1");
    OneAssignment("A=1", "A", "1");
    assert Valid(line) && Denote(line) == Some([c3.(stderr := File("e"))]);
    assert Tokens(line) == ["A=1", "a", "x", "<", "i", ">", "o", "2>", "e"];
    ParseIsDenote(line);
  }

  /** And the process that the run starts has them all. */
  lemma EveryPartRuns(status: nat -> int)
    ensures Meaningful(EveryPartLine()) && WellShaped(Denote(EveryPartLine()).value)
    ensures RunResult(Denote(EveryPartLine()).value, status) == Result(Exit(status(0)), [
              Launch(["a", "x"], map["A" := "1"], HERE, FromFile(GoTo(HERE, "i")), ToFile(GoTo(HERE, "o")),
                     ToFile(GoTo(HERE, "e")))])
  {
    EveryPart();
    hide Denote;
    hide ParseTokens;
    hide GoTo;
    AstOfLine(EveryPartLine(), HERE, []);
  }

  lemma OneAssignment(token: string, key: string, value: string)
    requires MatchEnvVar(token) == Some((key, value))
    ensures Assignments([token]) && Bindings([token], map[]) == map[key := value]
  {
    hide MatchEnvVar;
    assert [token][1..] == [];
  }

  lemma NoSpaceInBinding(key: string, value: string, i: nat)
    requires PlainBinding(key, value) && i < |key| + 1 + |value|
    ensures (key + "=" + value)[i] != ' ' && (key + "=" + value + "\n")[i] != ' '
  {
    var token := key + "=" + value;
    assert !IsWordChar(' ') && IsSpace(' ');
    assert token[i] == if i < |key| then key[i] else if i == |key| then '=' else value[i - |key| - 1];
  }

  lemma SpacedWord(word: string, i: nat)
    requires i + 1 < |word| && word[i] == ' '
    ensures MatchEnvVar(word).None?
  {
    if MatchEnvVar(word).Some? {
      MatchIsBinding(word);
      NoSpaceInBinding(MatchEnvVar(word).value.0, MatchEnvVar(word).value.1, i);
    }
  }

  /** `A="b c" cmd`: a value with white space makes no assignment, so the whole word is the command name. */
  lemma SpaceMakesNoAssignment()
    ensures ParseTokens(["A=b c", "cmd"]) ==
            Some([ShellSyntax.Command("A=b c", ["A=b c", "cmd"], Inherited, Inherited, Inherited, map[])])
  {
    var word := "A=b c";
    SpacedWord(word, 3);
    hide MatchEnvVar;
    var line := Last(Command(word, [Arg("cmd")]), []);
    OneItem(NewCommand(word, map[]), Arg("cmd"));
    assert ItemsTokens([Arg("cmd")]) == ["cmd"];
    var node := NewCommand(word, map[]).(argv := [word, "cmd"]);
    assert [word] + ["cmd"] == [word, "cmd"];
    assert Redirect(NewCommand(word, map[]), Arg("cmd")) == Some(node);
    hide RedirectAll;
    assert Bindings([], map[]) == map[];
    assert SegmentNode(line.seg) == Some(node);
    assert Valid(line) && Denote(line) == Some([node]);
    assert Tokens(line) == [word, "cmd"];
    ParseIsDenote(line);
  }
}
