/** A parsed line as a POSIX shell reads it, compared with what Pipeline.Run does. */
module ShellReading {
  import opened Basics
  import opened ShellSyntax
  import opened ShellGrammar
  import opened ShellPipeline

  // ---- One command ----

  /** The shell applies redirections from left to right, and opens files from the current directory. */
  function Redirected(e: Event, item: Item, at: Place): Event
    requires e.Launch?
  {
    match item
    case Arg(text) => e.(argv := e.argv + [text])
    case InFrom(file) => e.(stdin := FromFile(GoTo(at, file)))
    case OutTo(file) => e.(stdout := ToFile(GoTo(at, file)))
    case ErrTo(file) => e.(stderr := ToFile(GoTo(at, file)))
    case ErrToOut => e.(stderr := e.stdout)
  }

  function RedirectedAll(e: Event, items: seq<Item>, at: Place): Event
    requires e.Launch?
    decreases |items|
  {
    if items == [] then e else RedirectedAll(Redirected(e, items[0], at), items[1..], at)
  }

  /** Pipes are connected before the redirections are applied. */
  ghost function ShellStarts(seg: Segment, at: Place, piped: bool, connected: bool): Event
    requires seg.Cmd? && ValidSegment(seg)
  {
    RedirectedAll(
      Launch([seg.name], Bindings(seg.env, map[]), at, if piped then FromPrevious else OwnStdin,
             if connected then ToNext else OwnStdout, OwnStderr),
      seg.items, at)
  }

  /** The path leads to the same place from the directory at as from the interpreter's own. */
  predicate Fixed(at: Place, path: string) {
    at == HERE || IsAbsolute(path)
  }

  /** Behind a pipe the input is not redirected, no output goes to the special name, and behind a change of
      directory all files are named from the root. */
  predicate PlainStreams(c: Node, at: Place, piped: bool)
    requires c.Command?
  {
    && (c.stdin.File? ==> !piped && Fixed(at, c.stdin.name))
    && (c.stdout.File? ==> c.stdout.name != "NUL:" && Fixed(at, c.stdout.name))
    && (c.stderr.File? ==> c.stderr.name != "NUL:" && Fixed(at, c.stderr.name))
  }

  /** Errors are sent where the output goes, and the output is then sent elsewhere. */
  ghost predicate SplitsLater(items: seq<Item>) {
    exists i, j :: 0 <= i < j < |items| && items[i].ErrToOut? && items[j].OutTo?
  }

  lemma PlaceAgrees(at: Place, path: string)
    ensures GoTo(at, path) == GoTo(HERE, path) <==> Fixed(at, path)
  {
    assert HERE.parts + Parts("", path) == Parts("", path);
    if !Fixed(at, path) && at.parts == [] {
      assert at.absolute;
    }
  }

  lemma OutPlaceAgrees(at: Place, name: string)
    ensures GoTo(at, name) == OutPlace(name) <==> name != "NUL:" && Fixed(at, name)
  {
    if name == "NUL:" {
      SpecialName();
      assert GoTo(at, name).parts == at.parts + ["NUL:"];
      assert GoTo(at, name).parts[|at.parts|] == "NUL:";
    } else {
      PlaceAgrees(at, name);
    }
  }

  lemma {:induction false} PartsOfWord(part: string, word: string)
    requires '/' !in word
    ensures Parts(part, word) == Component(part + word)
    decreases |word|
  {
    if word == "" {
      assert part + word == part;
    } else {
      PartsOfWord(part + [word[0]], word[1..]);
      assert part + [word[0]] + word[1..] == part + word;
    }
  }

  lemma SpecialName()
    ensures Parts("", "NUL:") == ["NUL:"] && GoTo(HERE, "/dev/null") == Place(true, ["dev", "null"])
  {
    assert "/dev/null" == "" + "/" + ("dev" + "/" + "null");
    PartsJoin("", "", "dev" + "/" + "null");
    PartsJoin("", "dev", "null");
    PartsOfWord("", "NUL:");
    PartsOfWord("", "dev");
    PartsOfWord("", "null");
    hide Parts;
    assert "" + "NUL:" == "NUL:" && "" + "dev" == "dev" && "" + "null" == "null";
    assert Component("") == [] && Component("dev") == ["dev"] && Component("null") == ["null"];
  }

  /** Output to the special name and to the null device go to the same place. */
  lemma NullDevice()
    ensures OutPlace("NUL:") == OutPlace("/dev/null") == Place(true, ["dev", "null"])
  {
    SpecialName();
  }

  lemma SplitsLaterCons(items: seq<Item>)
    requires items != []
    ensures SplitsLater(items) <==>
            SplitsLater(items[1..]) || (items[0].ErrToOut? && exists j :: 1 <= j < |items| && items[j].OutTo?)
  {
    var rest := items[1..];
    if i, j :| 0 <= i < j < |rest| && rest[i].ErrToOut? && rest[j].OutTo? {
      assert items[i + 1].ErrToOut? && items[j + 1].OutTo?;
    }
    if i, j :| 0 <= i < j < |items| && items[i].ErrToOut? && items[j].OutTo? {
      if i > 0 {
        assert rest[i - 1].ErrToOut? && rest[j - 1].OutTo?;
      }
    }
  }

  /** A stream that is redirected is not redirected again, and the last state of the parser's command tells
      where it went. */
  lemma {:induction false} OnceRedirected(c: Node, items: seq<Item>)
    requires c.Command? && RedirectAll(c, items).Some?
    ensures var c' := RedirectAll(c, items).value;
            && c'.name == c.name && c'.envVars == c.envVars
            && (c'.stdin != c.stdin ==> c.stdin == Inherited && c'.stdin.File?)
            && (c'.stdout != c.stdout ==> c.stdout == Inherited && c'.stdout.File?)
            && (c'.stderr != c.stderr ==> c.stderr == Inherited && (c'.stderr.File? || c'.stderr.SameAsStdout?))
            && (c'.stdout != c.stdout <==> exists j :: 0 <= j < |items| && items[j].OutTo?)
    decreases |items|
  {
    if items != [] {
      OnceRedirected(Redirect(c, items[0]).value, items[1..]);
      assert forall j :: 1 <= j < |items| ==> items[j] == items[1..][j - 1];
    }
  }

  function FileName(stream: Stream): string {
    if stream.File? then stream.name else ""
  }

  /** The shell's streams in terms of the streams that the parser keeps. */
  lemma {:induction false} StreamsOf(e: Event, c: Node, items: seq<Item>, at: Place)
    requires e.Launch? && c.Command? && e.argv == c.argv && RedirectAll(c, items).Some?
    ensures var c', r := RedirectAll(c, items).value, RedirectedAll(e, items, at);
            && r.Launch? && r.argv == c'.argv && r.envVars == e.envVars && r.cwd == e.cwd
            && r.stdin == (if c'.stdin != c.stdin then FromFile(GoTo(at, FileName(c'.stdin))) else e.stdin)
            && r.stdout == (if c'.stdout != c.stdout then ToFile(GoTo(at, FileName(c'.stdout))) else e.stdout)
            && r.stderr == (if c'.stderr == c.stderr then e.stderr
                            else if c'.stderr.File? then ToFile(GoTo(at, FileName(c'.stderr)))
                            else if SplitsLater(items) then e.stdout else r.stdout)
    decreases |items|
  {
    hide GoTo;
    OnceRedirected(c, items);
    if items != [] {
      var e1, c1 := Redirected(e, items[0], at), Redirect(c, items[0]).value;
      OnceRedirected(c1, items[1..]);
      StreamsOf(e1, c1, items[1..], at);
      SplitsLaterCons(items);
    }
  }

  /** Both sides start a command alike exactly when its streams are plain and its errors do not split. */
  lemma CommandAgrees(seg: Segment, node: Node, at: Place, piped: bool, connected: bool)
    requires seg.Cmd? && ValidSegment(seg) && SegmentNode(seg) == Some(node)
    requires connected ==> node.stdout == Inherited
    ensures var c := if connected then node.(stdout := PIPE) else node;
            ShellStarts(seg, at, piped, connected) == Started(c, at, piped) <==>
            PlainStreams(c, at, piped) && !SplitsLater(seg.items)
  {
    var c0 := NewCommand(seg.name, Bindings(seg.env, map[]));
    var e0 := Launch([seg.name], Bindings(seg.env, map[]), at, if piped then FromPrevious else OwnStdin,
                     if connected then ToNext else OwnStdout, OwnStderr);
    StreamsOf(e0, c0, seg.items, at);
    OnceRedirected(c0, seg.items);
    hide RedirectedAll;
    hide RedirectAll;
    PlaceAgrees(at, FileName(node.stdin));
    OutPlaceAgrees(at, FileName(node.stdout));
    OutPlaceAgrees(at, FileName(node.stderr));
    hide GoTo;
    hide OutPlace;
    hide Fixed;
    if SplitsLater(seg.items) {
      SplitMeans(c0, seg.items);
    }
  }

  /** Errors that split are kept as sent where the output goes, and the output as sent to a file. */
  lemma {:induction false} SplitMeans(c: Node, items: seq<Item>)
    requires c.Command? && RedirectAll(c, items).Some? && SplitsLater(items)
    ensures var c' := RedirectAll(c, items).value;
            c'.stderr == SameAsStdout && c.stderr == Inherited && c'.stdout.File? && c.stdout == Inherited
    decreases |items|
  {
    var c1 := Redirect(c, items[0]).value;
    OnceRedirected(c, items);
    OnceRedirected(c1, items[1..]);
    SplitsLaterCons(items);
    if SplitsLater(items[1..]) {
      SplitMeans(c1, items[1..]);
    }
  }

  // ---- A whole line ----

  /** Lines that the parser accepts. */
  ghost predicate Meaningful(line: Line) {
    Valid(line) && Denote(line).Some?
  }

  predicate Piping(line: Line) {
    line.Joined? && line.op.Pipe?
  }

  ghost function NodeOf(line: Line): Node
    requires Meaningful(line)
  {
    Denote(line).value[0]
  }

  lemma Unfolded(line: Line)
    requires Meaningful(line)
    ensures ValidSegment(line.seg) && (line.seg.Cmd? <==> NodeOf(line).Command?) && !IsOp(NodeOf(line))
    ensures line.seg.Cd? ==> NodeOf(line) == Chdir(if line.seg.args == [] then None else Some(line.seg.args[0]))
    ensures line.Last? ==> Denote(line).value == [NodeOf(line)]
    ensures line.Joined? ==>
              && Meaningful(line.rest) && IsOp(line.op) && (line.seg.Cd? ==> line.op == And)
              && Denote(line).value == [NodeOf(line), line.op] + Denote(line.rest).value
  {
    hide RedirectAll;
  }

  ghost function CodeStart(line: Line, at: Place, piped: bool): Event
    requires Meaningful(line) && NodeOf(line).Command?
  {
    Started(NodeOf(line), at, piped)
  }

  ghost function ShellStart(line: Line, at: Place, piped: bool): Event
    requires Meaningful(line) && line.seg.Cmd?
  {
    ShellStarts(line.seg, at, piped, Piping(line))
  }

  /** Both sides start the first command of the line alike exactly under this condition. */
  ghost predicate PlainCommand(line: Line, at: Place, piped: bool)
    requires Meaningful(line) && line.seg.Cmd?
  {
    Unfolded(line);
    PlainStreams(NodeOf(line), at, piped) && !SplitsLater(line.seg.items)
  }

  lemma StartAgrees(line: Line, at: Place, piped: bool)
    requires Meaningful(line) && line.seg.Cmd?
    ensures NodeOf(line).Command?
    ensures ShellStart(line, at, piped) == CodeStart(line, at, piped) <==> PlainCommand(line, at, piped)
  {
    Unfolded(line);
    CommandAgrees(line.seg, SegmentNode(line.seg).value, at, piped, Piping(line));
  }

  /** The pipe groups of the pipeline that the line means. */
  ghost function LineAst(line: Line, at: Place, group: seq<Event>): (r: Ast)
    requires Meaningful(line)
    ensures NoEmptyGroup(r)
    decreases line
  {
    Unfolded(line);
    match line.seg
    case Cd(args) =>
      if line.Last? then Broken(group, IndexError)
      else if args == [] then Broken(group, PathError)
      else LineAst(line.rest, GoTo(at, args[0]), group)
    case Cmd(_, _, _) =>
      var more := group + [CodeStart(line, at, group != [])];
      if line.Last? then Leaf(more)
      else if line.op.Pipe? then LineAst(line.rest, at, more)
      else if line.op.And? then AndThen(more, LineAst(line.rest, at, []))
      else OrElse(more, LineAst(line.rest, at, []))
  }

  lemma {:induction false} AstOfLine(line: Line, at: Place, group: seq<Event>)
    requires Meaningful(line)
    ensures WellShaped(Denote(line).value) && ToAst(Denote(line).value, at, group) == LineAst(line, at, group)
    decreases line
  {
    hide Denote;
    hide Started;
    hide GoTo;
    DenoteShape(line);
    Unfolded(line);
    if line.Joined? {
      var p := Denote(line).value;
      assert p[0] == NodeOf(line) && p[1] == line.op && p[2..] == Denote(line.rest).value;
      if line.seg.Cd? {
        if line.seg.args != [] {
          AstOfLine(line.rest, GoTo(at, line.seg.args[0]), group);
        }
      } else {
        AstOfLine(line.rest, at, if line.op.Pipe? then group + [CodeStart(line, at, group != [])] else []);
      }
    }
  }

  /** The current directory, the one before it, and the home directory. */
  datatype Shell = Shell(at: Place, previous: Place, home: Place)

  function Moved(sh: Shell, args: seq<string>): Shell {
    Shell(if args == [] then sh.home else if args[0] == "-" then sh.previous else GoTo(sh.at, args[0]), sh.at, sh.home)
  }

  /** Going back to the previous directory prints its name. */
  function Printed(seg: Segment): seq<Event> {
    if seg == Cd(["-"]) then [DirectoryPrinted] else []
  }

  /** The group with the command that the line starts with. */
  ghost function WithStart(line: Line, at: Place, group: seq<Event>): seq<Event>
    requires Meaningful(line)
  {
    if line.seg.Cd? then group else group + [ShellStart(line, at, group != [])]
  }

  predicate Met(op: Node, s: int) {
    if op.And? then s == 0 else s != 0
  }

  /** The left-associative reading: each && and || looks at the status s of everything before it, and only
      starts the next pipe group, or changes the directory, when run holds. A cd succeeds; behind a pipe it
      leaves the directory alone. group holds the commands already read of the current pipe group. */
  ghost function LeftEval(line: Line, sh: Shell, group: seq<Event>, n: nat,
                          status: nat -> int, run: bool, s: int): Result
    requires Meaningful(line)
    decreases line
  {
    Unfolded(line);
    var more := WithStart(line, sh.at, group);
    if Piping(line) then LeftEval(line.rest, sh, more, n, status, run, s)
    else
      var events := if run then more + Printed(line.seg) else [];
      var s' := if !run then s else if line.seg.Cd? then 0 else status(n + |group|);
      if line.Last? then Result(Exit(s'), events)
      else
        var sh' := if run && line.seg.Cd? && group == [] then Moved(sh, line.seg.args) else sh;
        var n' := if run then n + |more| else n;
        After(events, LeftEval(line.rest, sh', [], n', status, Met(line.op, s'), s'))
  }

  /** The line ends in a redirection without a file. */
  predicate Dangles(line: Line) {
    match line
    case Last(_, dangling) => dangling != []
    case Joined(_, _, rest) => Dangles(rest)
  }

  ghost function ShellResult(line: Line, sh: Shell, status: nat -> int): Result
    requires Meaningful(line)
  {
    if Dangles(line) then Result(SyntaxError, []) else LeftEval(line, sh, [], 0, status, true, 0)
  }

  // ---- When they agree ----

  /** Every cd names a directory, is followed by something and does not stand behind a pipe, and every command
      is plain in the directory that the cds before it lead to. */
  ghost predicate Plain(line: Line, at: Place, piped: bool)
    requires Meaningful(line)
    decreases line
  {
    Unfolded(line);
    match line.seg
    case Cd(args) =>
      !piped && line.Joined? && args != [] && args[0] != "-" && Plain(line.rest, GoTo(at, args[0]), false)
    case Cmd(_, _, _) =>
      PlainCommand(line, at, piped) && (line.Joined? ==> Plain(line.rest, at, line.op.Pipe?))
  }

  /** Every operator other than a pipe is op. */
  predicate OnlyOp(line: Line, op: Node) {
    line.Joined? ==> (line.op.Pipe? || line.op == op) && OnlyOp(line.rest, op)
  }

  predicate AfterCds(line: Line) {
    if line.seg.Cd? && line.Joined? then AfterCds(line.rest) else OnlyOp(line, And) || OnlyOp(line, Or)
  }

  /** A plain line without a dangling redirection in which, behind the leading cds, && and || are not mixed. */
  ghost predicate Uniform(line: Line)
    requires Meaningful(line)
  {
    !Dangles(line) && Plain(line, HERE, false) && AfterCds(line)
  }

  lemma AfterNothing(r: Result)
    ensures After([], r) == r
  {
    assert [] + r.events == r.events;
  }

  lemma AfterInjective(events: seq<Event>, a: Result, b: Result)
    ensures After(events, a) == After(events, b) ==> a == b
  {
    assert (events + a.events)[|events|..] == a.events;
    assert (events + b.events)[|events|..] == b.events;
  }

  /** Once an operator is unmet, a chain of that operator starts nothing more. */
  lemma {:induction false} SkipRest(line: Line, sh: Shell, group: seq<Event>, n: nat,
                                    status: nat -> int, s: int, op: Node)
    requires Meaningful(line) && OnlyOp(line, op) && IsOp(op) && !op.Pipe? && !Met(op, s)
    ensures LeftEval(line, sh, group, n, status, false, s) == Result(Exit(s), [])
    decreases line
  {
    hide Denote;
    hide ShellStart;
    Unfolded(line);
    if line.Joined? {
      SkipRest(line.rest, sh, if line.op.Pipe? then WithStart(line, sh.at, group) else [], n, status, s, op);
    }
  }

  /** Both sides step over a cd to a directory. */
  lemma CdUnfolds(line: Line, sh: Shell, n: nat, status: nat -> int, s: int)
    requires Meaningful(line) && line.Joined? && line.seg.Cd? && line.seg.args != [] && line.seg.args[0] != "-"
    ensures Meaningful(line.rest)
    ensures var sh' := Moved(sh, line.seg.args);
            && LineAst(line, sh.at, []) == LineAst(line.rest, sh'.at, [])
            && LeftEval(line, sh, [], n, status, true, s) == LeftEval(line.rest, sh', [], n, status, true, 0)
  {
    hide Denote;
    hide GoTo;
    Unfolded(line);
    assert Printed(line.seg) == [];
    AfterNothing(LeftEval(line.rest, Moved(sh, line.seg.args), [], n, status, true, 0));
  }

  /** Both sides read on in the pipe group. */
  lemma PipeUnfolds(line: Line, sh: Shell, group: seq<Event>, n: nat, status: nat -> int, run: bool, s: int)
    requires Meaningful(line) && line.seg.Cmd? && Piping(line)
    ensures Meaningful(line.rest) && NodeOf(line).Command?
    ensures LineAst(line, sh.at, group)
            == LineAst(line.rest, sh.at, group + [CodeStart(line, sh.at, group != [])])
    ensures LeftEval(line, sh, group, n, status, run, s)
            == LeftEval(line.rest, sh, WithStart(line, sh.at, group), n, status, run, s)
  {
    hide Denote;
    Unfolded(line);
  }

  /** What both sides do at the operator behind a pipe group. */
  lemma OpUnfolds(line: Line, sh: Shell, group: seq<Event>, n: nat, status: nat -> int, s: int)
    requires Meaningful(line) && line.seg.Cmd? && line.Joined? && !line.op.Pipe?
    ensures Meaningful(line.rest) && NodeOf(line).Command?
    ensures var s', m := status(n + |group|), n + |group| + 1;
            var code := group + [CodeStart(line, sh.at, group != [])];
            && LeftEval(line, sh, group, n, status, true, s)
               == After(WithStart(line, sh.at, group), LeftEval(line.rest, sh, [], m, status, Met(line.op, s'), s'))
            && Eval(LineAst(line, sh.at, group), n, status)
               == if Met(line.op, s') then After(code, Eval(LineAst(line.rest, sh.at, []), m, status))
                  else Result(Exit(s'), code)
  {
    hide Denote;
    hide ShellStart;
    hide CodeStart;
    Unfolded(line);
    assert WithStart(line, sh.at, group) + [] == WithStart(line, sh.at, group);
  }

  lemma {:induction false} ChainAgrees(line: Line, sh: Shell, group: seq<Event>, n: nat,
                                       status: nat -> int, s: int, op: Node)
    requires Meaningful(line) && Plain(line, sh.at, group != []) && OnlyOp(line, op) && (op == And || op == Or)
    ensures LeftEval(line, sh, group, n, status, true, s) == Eval(LineAst(line, sh.at, group), n, status)
    decreases line
  {
    hide Denote;
    hide ShellStart;
    hide CodeStart;
    hide PlainCommand;
    hide GoTo;
    Unfolded(line);
    if line.seg.Cd? {
      hide LeftEval;
      hide LineAst;
      CdUnfolds(line, sh, n, status, s);
      ChainAgrees(line.rest, Moved(sh, line.seg.args), [], n, status, 0, op);
    } else {
      StartAgrees(line, sh.at, group != []);
      if line.Last? {
        assert WithStart(line, sh.at, group) + [] == WithStart(line, sh.at, group);
      } else if line.op.Pipe? {
        hide LeftEval;
        hide LineAst;
        PipeUnfolds(line, sh, group, n, status, true, s);
        ChainAgrees(line.rest, sh, WithStart(line, sh.at, group), n, status, s, op);
      } else {
        hide LeftEval;
        hide LineAst;
        OpUnfolds(line, sh, group, n, status, s);
        var s', m := status(n + |group|), n + |group| + 1;
        if Met(op, s') {
          ChainAgrees(line.rest, sh, [], m, status, s', op);
        } else {
          SkipRest(line.rest, sh, [], m, status, s', op);
          assert WithStart(line, sh.at, group) + [] == WithStart(line, sh.at, group);
        }
      }
    }
  }

  lemma {:induction false} UniformAgrees(line: Line, sh: Shell, n: nat, status: nat -> int, s: int)
    requires Meaningful(line) && Plain(line, sh.at, false) && AfterCds(line)
    ensures LeftEval(line, sh, [], n, status, true, s) == Eval(LineAst(line, sh.at, []), n, status)
    decreases line
  {
    hide LeftEval;
    hide LineAst;
    hide Denote;
    hide PlainCommand;
    hide GoTo;
    if line.seg.Cd? {
      CdUnfolds(line, sh, n, status, s);
      UniformAgrees(line.rest, Moved(sh, line.seg.args), n, status, 0);
    } else {
      ChainAgrees(line, sh, [], n, status, s, if OnlyOp(line, And) then And else Or);
    }
  }

  // ---- Where they differ: mixed operators ----

  predicate EndsInCommand(line: Line) {
    match line
    case Last(seg, _) => seg.Cmd?
    case Joined(_, _, rest) => EndsInCommand(rest)
  }

  lemma {:induction false} PlainEnds(line: Line, at: Place, piped: bool)
    requires Meaningful(line) && Plain(line, at, piped)
    ensures EndsInCommand(line)
    decreases line
  {
    hide Denote;
    hide PlainCommand;
    Unfolded(line);
    if line.Joined? {
      PlainEnds(line.rest, if line.seg.Cd? then GoTo(at, line.seg.args[0]) else at, line.op.Pipe?);
    }
  }

  lemma {:induction false} SomethingRuns(line: Line, sh: Shell, group: seq<Event>, n: nat, status: nat -> int, s: int)
    requires Meaningful(line) && EndsInCommand(line)
    ensures LeftEval(line, sh, group, n, status, true, s).events != []
    decreases line
  {
    hide Denote;
    hide ShellStart;
    hide Moved;
    Unfolded(line);
    if Piping(line) {
      SomethingRuns(line.rest, sh, WithStart(line, sh.at, group), n, status, s);
    } else if line.seg.Cd? {
      var sh' := if group == [] then Moved(sh, line.seg.args) else sh;
      SomethingRuns(line.rest, sh', [], n + |group|, status, 0);
    }
  }

  /** An unmet op does not keep the shell from starting what stands behind the other operator. */
  lemma {:induction false} OtherOpRuns(line: Line, sh: Shell, group: seq<Event>, n: nat,
                                       status: nat -> int, s: int, op: Node)
    requires Meaningful(line) && EndsInCommand(line) && !OnlyOp(line, op) && (op == And || op == Or) && !Met(op, s)
    ensures LeftEval(line, sh, group, n, status, false, s).events != []
    decreases line
  {
    hide Denote;
    hide ShellStart;
    Unfolded(line);
    if line.op.Pipe? {
      OtherOpRuns(line.rest, sh, WithStart(line, sh.at, group), n, status, s, op);
    } else if line.op == op {
      OtherOpRuns(line.rest, sh, [], n, status, s, op);
    } else {
      SomethingRuns(line.rest, sh, [], n, status, s);
    }
  }

  /** Mixed operators: when every command returns s, the run ends at the first operator, the shell goes on. */
  lemma {:induction false} MixedDiffers(line: Line, sh: Shell, group: seq<Event>, n: nat, s0: int)
    returns (status: nat -> int)
    requires Meaningful(line) && Plain(line, sh.at, group != [])
    requires line.seg.Cmd? && !OnlyOp(line, And) && !OnlyOp(line, Or)
    ensures LeftEval(line, sh, group, n, status, true, s0) != Eval(LineAst(line, sh.at, group), n, status)
    decreases line
  {
    hide Denote;
    hide ShellStart;
    hide CodeStart;
    hide PlainCommand;
    hide LeftEval;
    hide LineAst;
    Unfolded(line);
    StartAgrees(line, sh.at, group != []);
    if line.op.Pipe? {
      status := MixedDiffers(line.rest, sh, WithStart(line, sh.at, group), n, s0);
      PipeUnfolds(line, sh, group, n, status, true, s0);
    } else {
      var s := if line.op.And? then 1 else 0;
      status := (_: nat) => s;
      PlainEnds(line.rest, sh.at, false);
      OtherOpRuns(line.rest, sh, [], n + |group| + 1, status, s, line.op);
      OpUnfolds(line, sh, group, n, status, s0);
    }
  }

  // ---- Where they differ: lines that are not plain ----

  ghost predicate NotPiped(events: seq<Event>) {
    events != [] && events[0].Launch? ==> events[0].stdin != FromPrevious
  }

  lemma FirstNotPiped(line: Line, at: Place)
    requires Meaningful(line) && line.seg.Cmd?
    ensures ShellStart(line, at, false).Launch? && ShellStart(line, at, false).stdin != FromPrevious
  {
    Unfolded(line);
    StreamsOf(Launch([line.seg.name], Bindings(line.seg.env, map[]), at, OwnStdin,
                     if Piping(line) then ToNext else OwnStdout, OwnStderr),
              NewCommand(line.seg.name, Bindings(line.seg.env, map[])), line.seg.items, at);
  }

  /** The shell ends with an exit code, and what it does first does not read from a pipe. */
  lemma {:induction false} ShellExits(line: Line, sh: Shell, group: seq<Event>, n: nat,
                                      status: nat -> int, run: bool, s: int)
    requires Meaningful(line) && NotPiped(group)
    ensures var r := LeftEval(line, sh, group, n, status, run, s); r.outcome.Exit? && NotPiped(r.events)
    decreases line
  {
    hide Denote;
    hide ShellStart;
    hide Moved;
    Unfolded(line);
    if line.seg.Cmd? {
      FirstNotPiped(line, sh.at);
    }
    var more := WithStart(line, sh.at, group);
    assert NotPiped(more) && NotPiped(more + Printed(line.seg));
    if line.Joined? {
      if line.op.Pipe? {
        ShellExits(line.rest, sh, more, n, status, run, s);
      } else {
        var s' := if !run then s else if line.seg.Cd? then 0 else status(n + |group|);
        var sh' := if run && line.seg.Cd? && group == [] then Moved(sh, line.seg.args) else sh;
        ShellExits(line.rest, sh', [], if run then n + |more| else n, status, Met(line.op, s'), s');
      }
    }
  }

  /** The first pipe group is started first. */
  lemma {:induction false} ShellStartsGroup(line: Line, sh: Shell, group: seq<Event>, n: nat,
                                            status: nat -> int, s: int)
    requires Meaningful(line)
    ensures WithStart(line, sh.at, group) <= LeftEval(line, sh, group, n, status, true, s).events
    decreases line
  {
    hide Denote;
    hide ShellStart;
    hide Moved;
    Unfolded(line);
    if Piping(line) {
      ShellStartsGroup(line.rest, sh, WithStart(line, sh.at, group), n, status, s);
    }
  }

  /** So it is in the code, where a command that joins the group reads from a pipe, whatever is between. */
  lemma {:induction false} CodeStartsGroup(line: Line, at: Place, group: seq<Event>, n: nat, status: nat -> int)
    requires Meaningful(line)
    ensures var r := Eval(LineAst(line, at, group), n, status);
            && group <= r.events && r.outcome != SyntaxError
            && (line.seg.Cmd? ==> NodeOf(line).Command? && group + [CodeStart(line, at, group != [])] <= r.events)
            && (r.outcome.Exit? && group != [] ==>
                 && |r.events| > |group| && r.events[|group|].Launch?
                 && r.events[|group|].stdin == FromPrevious)
            && ((forall e :: e in group ==> e.Launch?) ==> forall e :: e in r.events ==> e.Launch?)
    decreases line
  {
    hide Denote;
    hide GoTo;
    Unfolded(line);
    if line.seg.Cd? {
      if line.Joined? && line.seg.args != [] {
        CodeStartsGroup(line.rest, GoTo(at, line.seg.args[0]), group, n, status);
      }
    } else {
      var start := CodeStart(line, at, group != []);
      assert start.Launch? && (group != [] ==> start.stdin == FromPrevious);
      hide CodeStart;
      if line.Joined? {
        var more := group + [start];
        if line.op.Pipe? {
          CodeStartsGroup(line.rest, at, more, n, status);
        } else {
          CodeStartsGroup(line.rest, at, [], n + |more|, status);
        }
      }
    }
  }

  /** Only the statuses from n on matter. */
  lemma {:induction false} EvalLocal(ast: Ast, n: nat, a: nat -> int, b: nat -> int)
    requires NoEmptyGroup(ast) && forall i: nat :: i >= n ==> a(i) == b(i)
    ensures Eval(ast, n, a) == Eval(ast, n, b)
    decreases ast
  {
    if ast.AndThen? || ast.OrElse? {
      EvalLocal(ast.rest, n + |ast.group|, a, b);
    }
  }

  lemma {:induction false} LeftEvalLocal(line: Line, sh: Shell, group: seq<Event>, n: nat,
                                         a: nat -> int, b: nat -> int, run: bool, s: int)
    requires Meaningful(line) && forall i: nat :: i >= n ==> a(i) == b(i)
    ensures LeftEval(line, sh, group, n, a, run, s) == LeftEval(line, sh, group, n, b, run, s)
    decreases line
  {
    hide Denote;
    hide ShellStart;
    hide Moved;
    Unfolded(line);
    var more := WithStart(line, sh.at, group);
    if line.Joined? {
      if line.op.Pipe? {
        LeftEvalLocal(line.rest, sh, more, n, a, b, run, s);
      } else {
        var s' := if !run then s else if line.seg.Cd? then 0 else a(n + |group|);
        var sh' := if run && line.seg.Cd? && group == [] then Moved(sh, line.seg.args) else sh;
        LeftEvalLocal(line.rest, sh', [], if run then n + |more| else n, a, b, Met(line.op, s'), s');
      }
    }
  }

  ghost predicate Launches(group: seq<Event>) {
    NotPiped(group) && forall e :: e in group ==> e.Launch?
  }

  /** A line that is not plain makes a difference: statuses under which both sides get there. */
  lemma {:induction false} NotPlainDiffers(line: Line, sh: Shell, group: seq<Event>, n: nat, s: int)
    returns (status: nat -> int)
    requires Meaningful(line) && !Plain(line, sh.at, group != []) && Launches(group)
    ensures LeftEval(line, sh, group, n, status, true, s) != Eval(LineAst(line, sh.at, group), n, status)
    decreases line, 1
  {
    status := (_: nat) => 0;
    if line.seg.Cd? {
      if line.Last? || line.seg.args == [] || group != [] || line.seg.args[0] == "-" {
        CdDiffers(line, sh, group, n, status, s);
      } else {
        var sh' := Moved(sh, line.seg.args);
        CdUnfolds(line, sh, n, status, s);
        status := NotPlainDiffers(line.rest, sh', [], n, 0);
        CdUnfolds(line, sh, n, status, s);
      }
    } else if !PlainCommand(line, sh.at, group != []) {
      CommandDiffers(line, sh, group, n, status, s);
    } else if line.op.Pipe? {
      PipeUnfolds(line, sh, group, n, status, true, s);
      StartAgrees(line, sh.at, group != []);
      status := NotPlainDiffers(line.rest, sh, WithStart(line, sh.at, group), n, s);
      PipeUnfolds(line, sh, group, n, status, true, s);
    } else {
      status := PassOperator(line, sh, group, n, s);
    }
  }

  lemma CommandDiffers(line: Line, sh: Shell, group: seq<Event>, n: nat, status: nat -> int, s: int)
    requires Meaningful(line) && line.seg.Cmd? && !PlainCommand(line, sh.at, group != [])
    ensures LeftEval(line, sh, group, n, status, true, s) != Eval(LineAst(line, sh.at, group), n, status)
  {
    StartAgrees(line, sh.at, group != []);
    ShellStartsGroup(line, sh, group, n, status, s);
    CodeStartsGroup(line, sh.at, group, n, status);
    assert WithStart(line, sh.at, group)[|group|] == ShellStart(line, sh.at, group != []);
    hide *;
    assert (group + [CodeStart(line, sh.at, group != [])])[|group|] == CodeStart(line, sh.at, group != []);
  }

  /** What the shell does at a cd before an operator. */
  lemma CdReached(line: Line, sh: Shell, group: seq<Event>, n: nat, status: nat -> int, s: int)
    requires Meaningful(line) && line.seg.Cd? && line.Joined?
    ensures Meaningful(line.rest)
    ensures var sh' := if group == [] then Moved(sh, line.seg.args) else sh;
            LeftEval(line, sh, group, n, status, true, s)
            == After(group + Printed(line.seg), LeftEval(line.rest, sh', [], n + |group|, status, true, 0))
  {
    hide Denote;
    hide Moved;
    Unfolded(line);
  }

  /** A cd that is last, has no directory, stands behind a pipe, or goes back. */
  lemma CdDiffers(line: Line, sh: Shell, group: seq<Event>, n: nat, status: nat -> int, s: int)
    requires Meaningful(line) && line.seg.Cd? && Launches(group)
    requires line.Last? || line.seg.args == [] || group != [] || line.seg.args[0] == "-"
    ensures LeftEval(line, sh, group, n, status, true, s) != Eval(LineAst(line, sh.at, group), n, status)
  {
    ShellExits(line, sh, group, n, status, true, s);
    CodeStartsGroup(line, sh.at, group, n, status);
    if line.Joined? && line.seg.args != [] {
      hide LeftEval;
      hide LineAst;
      hide Moved;
      CdReached(line, sh, group, n, status, s);
      assert |line.seg.args| == 1 by {
        Unfolded(line);
      }
      var sh' := if group == [] then Moved(sh, line.seg.args) else sh;
      ShellExits(line.rest, sh', [], n + |group|, status, true, 0);
      var r := LeftEval(line.rest, sh', [], n + |group|, status, true, 0);
      var events := group + Printed(line.seg);
      assert |events + r.events| > |group| ==>
               (events + r.events)[|group|] == if Printed(line.seg) != [] then DirectoryPrinted else r.events[0];
    }
  }

  /** The group's last command returns what lets both sides go on behind the operator. */
  lemma {:induction false} PassOperator(line: Line, sh: Shell, group: seq<Event>, n: nat, s: int)
    returns (status: nat -> int)
    requires Meaningful(line) && line.seg.Cmd? && PlainCommand(line, sh.at, group != [])
    requires line.Joined? && !line.op.Pipe? && Meaningful(line.rest) && !Plain(line.rest, sh.at, false)
    ensures LeftEval(line, sh, group, n, status, true, s) != Eval(LineAst(line, sh.at, group), n, status)
    decreases line, 0
  {
    hide LeftEval;
    hide LineAst;
    hide Denote;
    hide ShellStart;
    hide CodeStart;
    hide PlainCommand;
    hide Plain;
    var s', m := if line.op.And? then 0 else 1, n + |group| + 1;
    var later := NotPlainDiffers(line.rest, sh, [], m, s');
    status := (i: nat) => if i == m - 1 then s' else later(i);
    EvalLocal(LineAst(line.rest, sh.at, []), m, status, later);
    LeftEvalLocal(line.rest, sh, [], m, status, later, true, s');
    StartAgrees(line, sh.at, group != []);
    OpUnfolds(line, sh, group, n, status, s);
    AfterInjective(WithStart(line, sh.at, group), LeftEval(line.rest, sh, [], m, status, true, s'),
                   Eval(LineAst(line.rest, sh.at, []), m, status));
  }

  lemma {:induction false} NotUniformDiffers(line: Line, sh: Shell, n: nat, s: int)
    returns (status: nat -> int)
    requires Meaningful(line) && !(Plain(line, sh.at, false) && AfterCds(line))
    ensures LeftEval(line, sh, [], n, status, true, s) != Eval(LineAst(line, sh.at, []), n, status)
    decreases line
  {
    if !Plain(line, sh.at, false) {
      status := NotPlainDiffers(line, sh, [], n, s);
    } else if line.seg.Cd? {
      status := (_: nat) => 0;
      CdUnfolds(line, sh, n, status, s);
      status := NotUniformDiffers(line.rest, Moved(sh, line.seg.args), n, 0);
      CdUnfolds(line, sh, n, status, s);
    } else {
      status := MixedDiffers(line, sh, [], n, s);
    }
  }

  /** Whatever the commands return, the run of the parsed line does what the shell does, exactly when the line
      is uniform. */
  lemma AgreesExactlyWhenUniform(line: Line, sh: Shell)
    requires Meaningful(line) && sh.at == HERE
    ensures WellShaped(Denote(line).value)
    ensures (forall status: nat -> int :: ShellResult(line, sh, status) == RunResult(Denote(line).value, status)) <==>
            Uniform(line)
  {
    hide LeftEval;
    hide LineAst;
    hide Plain;
    hide Denote;
    hide AfterCds;
    hide Eval;
    hide ToAst;
    var p := Denote(line).value;
    AstOfLine(line, HERE, []);
    if Dangles(line) {
      var status: nat -> int := (_: nat) => 0;
      CodeStartsGroup(line, HERE, [], 0, status);
      assert ShellResult(line, sh, status) != RunResult(p, status);
    } else if Uniform(line) {
      forall status: nat -> int ensures ShellResult(line, sh, status) == RunResult(p, status) {
        UniformAgrees(line, sh, 0, status, 0);
      }
    } else {
      var status := NotUniformDiffers(line, sh, 0, 0);
      assert ShellResult(line, sh, status) != RunResult(p, status);
    }
  }

  /** Every token list that the parser accepts is such a line. */
  lemma AcceptedTokensAgree(tokens: seq<string>, sh: Shell)
    requires ParseTokens(tokens).Some? && sh.at == HERE
    ensures WellShaped(ParseTokens(tokens).value)
    ensures exists line :: Meaningful(line) && Tokens(line) == tokens && Denote(line) == ParseTokens(tokens) &&
              (Uniform(line) <==>
               forall status: nat -> int :: ShellResult(line, sh, status) == RunResult(Denote(line).value, status))
  {
    AcceptedLanguage(tokens, ParseTokens(tokens).value);
    var line :| Valid(line) && Tokens(line) == tokens && Denote(line) == Some(ParseTokens(tokens).value);
    hide *;
    AgreesExactlyWhenUniform(line, sh);
  }
}
