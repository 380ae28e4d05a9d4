/** The language that the parser accepts, and what it means. */
module ShellGrammar {
  import opened Basics
  import opened ShellSyntax

  datatype Item = Arg(text: string) | OutTo(file: string) | ErrTo(file: string) | ErrToOut | InFrom(file: string)

  datatype Segment =
    | Cmd(env: seq<string>, name: string, items: seq<Item>)
    | Cd(args: seq<string>)

  /** A command line: segments joined by operators; the last may end in a redirection without a file. */
  datatype Line =
    | Last(seg: Segment, dangling: seq<string>)
    | Joined(seg: Segment, op: Node, rest: Line)

  // ---- As tokens ----

  function ItemTokens(item: Item): seq<string> {
    match item
    case Arg(text) => [text]
    case OutTo(file) => [">", file]
    case ErrTo(file) => ["2>", file]
    case ErrToOut => ["2>&1"]
    case InFrom(file) => ["<", file]
  }

  function ItemsTokens(items: seq<Item>): seq<string> {
    if items == [] then [] else ItemTokens(items[0]) + ItemsTokens(items[1..])
  }

  function SegmentTokens(seg: Segment): seq<string> {
    match seg
    case Cmd(env, name, items) => env + [name] + ItemsTokens(items)
    case Cd(args) => ["cd"] + args
  }

  function OpToken(op: Node): string {
    if op.Pipe? then "|" else if op.And? then "&&" else "||"
  }

  function Tokens(line: Line): seq<string> {
    match line
    case Last(seg, dangling) => SegmentTokens(seg) + dangling
    case Joined(seg, op, rest) => SegmentTokens(seg) + [OpToken(op)] + Tokens(rest)
  }

  // ---- What may be written ----

  predicate IsOperatorToken(token: string) {
    token == ">" || token == "2>" || token == "2>&1" || token == "<" || token == "|" || token == "&&" || token == "||"
  }

  ghost predicate Assignments(env: seq<string>) {
    forall i :: 0 <= i < |env| ==> MatchEnvVar(env[i]).Some?
  }

  ghost predicate ValidSegment(seg: Segment) {
    match seg
    case Cmd(env, name, items) =>
      && Assignments(env)
      && name != "cd" && MatchEnvVar(name).None?
      && (forall i :: 0 <= i < |items| && items[i].Arg? ==> !IsOperatorToken(items[i].text))
    case Cd(args) => |args| <= 1 && (args != [] ==> args[0] != "&&")
  }

  ghost predicate Valid(line: Line) {
    && ValidSegment(line.seg)
    && match line
       case Last(seg, dangling) => dangling == [] || (seg.Cmd? && dangling in {[">"], ["2>"], ["<"]})
       case Joined(seg, op, rest) => IsOp(op) && (seg.Cd? ==> op == And) && Valid(rest)
  }

  // ---- What it means ----

  ghost function Bindings(env: seq<string>, base: map<string, string>): map<string, string>
    requires Assignments(env)
  {
    if env == [] then base else
      var (key, value) := MatchEnvVar(env[0]).value;
      Bindings(env[1..], base[key := value])
  }

  /** Each stream can be redirected once. */
  function Redirect(c: Node, item: Item): (r: Option<Node>)
    requires c.Command?
    ensures r.Some? ==> r.value.Command?
  {
    match item
    case Arg(text) => Some(c.(argv := c.argv + [text]))
    case OutTo(file) => if c.stdout == Inherited then Some(c.(stdout := File(file))) else None
    case ErrTo(file) => if c.stderr == Inherited then Some(c.(stderr := File(file))) else None
    case ErrToOut => if c.stderr == Inherited then Some(c.(stderr := SameAsStdout)) else None
    case InFrom(file) => if c.stdin == Inherited then Some(c.(stdin := File(file))) else None
  }

  function RedirectAll(c: Node, items: seq<Item>): (r: Option<Node>)
    requires c.Command?
    ensures r.Some? ==> r.value.Command?
    decreases |items|
  {
    if items == [] then Some(c) else
      var next := Redirect(c, items[0]);
      if next.None? then None else RedirectAll(next.value, items[1..])
  }

  ghost function SegmentNode(seg: Segment): (r: Option<Node>)
    requires ValidSegment(seg)
    ensures r.Some? ==> (seg.Cmd? <==> r.value.Command?) && (seg.Cd? <==> r.value.Chdir?)
  {
    match seg
    case Cmd(env, name, items) => RedirectAll(NewCommand(name, Bindings(env, map[])), items)
    case Cd(args) => Some(Chdir(if args == [] then None else Some(args[0])))
  }

  /** A command before a pipe has its output connected, which it must not have redirected. */
  function Connect(node: Node, op: Node): Option<Node> {
    if !op.Pipe? || !node.Command? then Some(node)
    else if node.stdout == Inherited then Some(node.(stdout := PIPE)) else None
  }

  ghost function Denote(line: Line): Option<seq<Node>>
    requires Valid(line)
  {
    var node := SegmentNode(line.seg);
    if node.None? then None else
      match line
      case Last(_, _) => Some([node.value])
      case Joined(_, op, rest) =>
        var first := Connect(node.value, op);
        var others := Denote(rest);
        if first.None? || others.None? then None else Some([first.value, op] + others.value)
  }

  // ---- The parser reads lines as they are meant ----

  lemma {:induction false} StepsAppend(st: ParserState, a: seq<string>, b: seq<string>)
    ensures Steps(st, a + b) == if Steps(st, a).None? then None else Steps(Steps(st, a).value, b)
    decreases |a|
  {
    if a == [] {
      assert a + b == b;
    } else {
      assert (a + b)[0] == a[0] && (a + b)[1..] == a[1..] + b;
      var next := Step(st, a[0]);
      if next.Some? {
        StepsAppend(next.value, a[1..], b);
      }
    }
  }

  lemma {:induction false} StepsEnv(st: ParserState, env: seq<string>)
    requires st.mode == BEGIN && Assignments(env)
    ensures Steps(st, env) == Some(st.(envVars := Bindings(env, st.envVars)))
    decreases |env|
  {
    hide MatchEnvVar;
    if env != [] {
      StepsEnv(Step(st, env[0]).value, env[1..]);
    }
  }

  lemma StepsItem(st: ParserState, item: Item)
    requires st.mode == COMMAND && st.current.Some? && st.current.value.Command?
    requires item.Arg? ==> !IsOperatorToken(item.text)
    ensures var c := Redirect(st.current.value, item);
            Steps(st, ItemTokens(item)) == if c.None? then None else Some(st.(current := c))
  {
    var tokens := ItemTokens(item);
    var next := Step(st, tokens[0]);
    if |tokens| == 2 {
      assert tokens[1..] == [tokens[1]] && tokens[1..][1..] == [];
      assert Steps(next.value, tokens[1..]) == Step(next.value, tokens[1]);
    } else {
      assert tokens[1..] == [];
    }
  }

  lemma {:induction false} StepsItems(st: ParserState, items: seq<Item>)
    requires st.mode == COMMAND && st.current.Some? && st.current.value.Command?
    requires forall i :: 0 <= i < |items| && items[i].Arg? ==> !IsOperatorToken(items[i].text)
    ensures var c := RedirectAll(st.current.value, items);
            Steps(st, ItemsTokens(items)) == if c.None? then None else Some(st.(current := c))
    decreases |items|
  {
    hide Step;
    if items != [] {
      StepsItem(st, items[0]);
      StepsAppend(st, ItemTokens(items[0]), ItemsTokens(items[1..]));
      var c := Redirect(st.current.value, items[0]);
      if c.Some? {
        StepsItems(st.(current := c), items[1..]);
      }
    }
  }

  /** At the beginning of a segment. */
  predicate Fresh(st: ParserState) {
    st.mode == BEGIN && st.current.None? && st.envVars == map[]
  }

  lemma StepsCommand(st: ParserState, seg: Segment)
    requires Fresh(st) && seg.Cmd? && ValidSegment(seg)
    ensures var node := SegmentNode(seg);
            Steps(st, SegmentTokens(seg)) == if node.None? then None else Some(st.(mode := COMMAND, current := node))
  {
    hide MatchEnvVar;
    hide ItemsTokens;
    hide RedirectAll;
    hide Bindings;
    var Cmd(env, name, items) := seg;
    StepsEnv(st, env);
    StepsAppend(st, env, [name] + ItemsTokens(items));
    assert env + [name] + ItemsTokens(items) == env + ([name] + ItemsTokens(items));
    var st1 := st.(envVars := Bindings(env, map[]));
    StepsAppend(st1, [name], ItemsTokens(items));
    assert [name][1..] == [];
    var st2 := Step(st1, name).value;
    assert Steps(st1, [name]) == Some(st2);
    StepsItems(st2, items);
  }

  lemma StepsCd(st: ParserState, args: seq<string>)
    requires Fresh(st) && ValidSegment(Cd(args))
    ensures Steps(st, ["cd"] + args) == Some(st.(mode := CHDIR, current := SegmentNode(Cd(args))))
  {
    var tokens := ["cd"] + args;
    assert MatchEnvVar("cd").None?;
    hide MatchEnvVar;
    var st1 := Step(st, "cd").value;
    assert tokens[1..] == args;
    assert Steps(st, tokens) == Steps(st1, args);
    if args != [] {
      assert args[1..] == [];
      assert Steps(st1, args) == Step(st1, args[0]);
    }
  }

  lemma StepsSegment(st: ParserState, seg: Segment)
    requires Fresh(st) && ValidSegment(seg)
    ensures var node := SegmentNode(seg);
            Steps(st, SegmentTokens(seg)) ==
            if node.None? then None
            else Some(st.(mode := if seg.Cmd? then COMMAND else CHDIR, current := node))
  {
    if seg.Cmd? {
      StepsCommand(st, seg);
    } else {
      StepsCd(st, seg.args);
    }
  }

  lemma {:induction false} StepsLine(st: ParserState, line: Line)
    requires Fresh(st) && Valid(line)
    ensures Finish(Steps(st, Tokens(line))) ==
            if Denote(line).None? then None else Some(st.pipeline + Denote(line).value)
    decreases line
  {
    hide SegmentTokens;
    hide SegmentNode;
    hide ValidSegment;
    StepsSegment(st, line.seg);
    var node := SegmentNode(line.seg);
    match line
    case Last(seg, dangling) =>
      StepsAppend(st, SegmentTokens(seg), dangling);
      if dangling != [] {
        assert dangling[1..] == [];
      }
    case Joined(seg, op, rest) =>
      var tail := [OpToken(op)] + Tokens(rest);
      assert Tokens(line) == SegmentTokens(seg) + tail;
      StepsAppend(st, SegmentTokens(seg), tail);
      assert tail[1..] == Tokens(rest);
      if node.Some? {
        var st1 := st.(mode := if seg.Cmd? then COMMAND else CHDIR, current := node);
        var first := Connect(node.value, op);
        assert Step(st1, tail[0]) == if first.None? then None else Some(Commit(st, first.value, op));
        if first.Some? {
          StepsLine(Commit(st, first.value, op), rest);
          if Denote(rest).Some? {
            assert st.pipeline + [first.value, op] + Denote(rest).value == st.pipeline + Denote(line).value;
          }
        }
      }
  }

  /** Parsing the tokens of a valid line gives what the line means, or fails exactly when it means nothing. */
  lemma ParseIsDenote(line: Line)
    requires Valid(line)
    ensures ParseTokens(Tokens(line)) == Denote(line)
  {
    StepsLine(START, line);
    if Denote(line).Some? {
      assert [] + Denote(line).value == Denote(line).value;
    }
  }

  // ---- Every token list that the parser accepts is a valid line ----

  /** What follows the items of a segment. */
  datatype Tail = End(dangling: seq<string>) | More(op: Node, rest: Line)

  function TailTokens(tail: Tail): seq<string> {
    match tail
    case End(dangling) => dangling
    case More(op, rest) => [OpToken(op)] + Tokens(rest)
  }

  function WithTail(seg: Segment, tail: Tail): Line {
    match tail
    case End(dangling) => Last(seg, dangling)
    case More(op, rest) => Joined(seg, op, rest)
  }

  ghost predicate ValidTail(tail: Tail) {
    match tail
    case End(dangling) => dangling == [] || dangling in {[">"], ["2>"], ["<"]}
    case More(op, rest) => IsOp(op) && Valid(rest)
  }

  lemma TailIsLine(seg: Segment, tail: Tail)
    requires ValidSegment(seg) && ValidTail(tail)
    requires seg.Cd? ==> (tail.More? ==> tail.op == And) && (tail.End? ==> tail.dangling == [])
    ensures Valid(WithTail(seg, tail)) && WithTail(seg, tail).seg == seg
    ensures Tokens(WithTail(seg, tail)) == SegmentTokens(seg) + TailTokens(tail)
  {
  }

  /** One more assignment in front of a line that starts with a command. */
  lemma AssignFirst(token: string, later: Line) returns (line: Line)
    requires Valid(later) && later.seg.Cmd? && MatchEnvVar(token).Some?
    ensures Valid(line) && line.seg.Cmd? && Tokens(line) == [token] + Tokens(later)
  {
    hide MatchEnvVar;
    hide ItemsTokens;
    var Cmd(env, name, items) := later.seg;
    var seg := Cmd([token] + env, name, items);
    line := if later.Last? then Last(seg, later.dangling) else Joined(seg, later.op, later.rest);
    assert SegmentTokens(seg) == [token] + SegmentTokens(later.seg);
  }

  lemma CommandFirst(token: string, items: seq<Item>, tail: Tail) returns (line: Line)
    requires token != "cd" && MatchEnvVar(token).None? && ValidTail(tail)
    requires forall i :: 0 <= i < |items| && items[i].Arg? ==> !IsOperatorToken(items[i].text)
    ensures Valid(line) && line.seg.Cmd? && Tokens(line) == [token] + (ItemsTokens(items) + TailTokens(tail))
  {
    hide Valid;
    hide ValidTail;
    hide ItemsTokens;
    hide MatchEnvVar;
    hide IsOperatorToken;
    hide Tokens;
    hide TailTokens;
    var seg := Cmd([], token, items);
    TailIsLine(seg, tail);
    line := WithTail(seg, tail);
    assert SegmentTokens(seg) == [token] + ItemsTokens(items);
  }

  lemma {:induction false} ReadLine(st: ParserState, tokens: seq<string>) returns (line: Line)
    requires st.mode == BEGIN && st.current.None? && Finish(Steps(st, tokens)).Some?
    ensures Valid(line) && Tokens(line) == tokens
    ensures st.envVars != map[] ==> line.seg.Cmd?
    decreases |tokens|
  {
    hide MatchEnvVar;
    hide Valid;
    hide ValidTail;
    hide Tokens;
    hide ItemsTokens;
    hide TailTokens;
    hide WithTail;
    var token, others := tokens[0], tokens[1..];
    assert tokens == [token] + others;
    var next := Step(st, token).value;
    if MatchEnvVar(token).Some? {
      var (key, value) := MatchEnvVar(token).value;
      assert key in next.envVars;
      var later := ReadLine(next, others);
      line := AssignFirst(token, later);
    } else if token == "cd" {
      var args, tail := ReadCd(next, others);
      TailIsLine(Cd(args), tail);
      line := WithTail(Cd(args), tail);
      assert ["cd"] + args + TailTokens(tail) == ["cd"] + others;
    } else {
      var items, tail := ReadItems(next, others);
      line := CommandFirst(token, items, tail);
    }
  }

  lemma OpTail(token: string, rest: Line) returns (tail: Tail)
    requires Valid(rest) && (token == "|" || token == "&&" || token == "||")
    ensures ValidTail(tail) && TailTokens(tail) == [token] + Tokens(rest)
    ensures tail.More? && (token == "&&" ==> tail.op == And)
  {
    tail := More(if token == "|" then Pipe else if token == "&&" then And else Or, rest);
  }

  /** The token opens an item: its tokens, the item and the state after it. */
  lemma ReadItem(st: ParserState, tokens: seq<string>) returns (item: Item, next: ParserState, others: seq<string>)
    requires st.mode == COMMAND && st.current.Some? && st.current.value.Command? && tokens != []
    requires tokens[0] !in {"|", "&&", "||"} && (tokens[0] in {">", "2>", "<"} ==> |tokens| > 1)
    requires Steps(st, tokens).Some?
    ensures next.mode == COMMAND && next.current.Some? && next.current.value.Command?
    ensures tokens == ItemTokens(item) + others && |others| < |tokens| && Steps(next, others) == Steps(st, tokens)
    ensures item.Arg? ==> !IsOperatorToken(item.text)
  {
    hide MatchEnvVar;
    var token := tokens[0];
    if token == ">" || token == "2>" || token == "<" {
      var file := tokens[1];
      item := if token == ">" then OutTo(file) else if token == "2>" then ErrTo(file) else InFrom(file);
      next, others := Step(Step(st, token).value, file).value, tokens[1..][1..];
    } else {
      item := if token == "2>&1" then ErrToOut else Arg(token);
      next, others := Step(st, token).value, tokens[1..];
    }
  }

  /** An operator ends the command. */
  lemma StepOp(st: ParserState, token: string)
    requires st.mode == COMMAND && st.current.Some? && st.current.value.Command? && token in {"|", "&&", "||"}
    ensures Step(st, token).Some? ==>
              Step(st, token).value.mode == BEGIN && Step(st, token).value.current.None? &&
              Step(st, token).value.envVars == st.envVars
  {
  }

  lemma {:induction false} ReadItems(st: ParserState, tokens: seq<string>) returns (items: seq<Item>, tail: Tail)
    requires st.mode == COMMAND && st.current.Some? && st.current.value.Command? && Finish(Steps(st, tokens)).Some?
    ensures forall i :: 0 <= i < |items| && items[i].Arg? ==> !IsOperatorToken(items[i].text)
    ensures ValidTail(tail) && tokens == ItemsTokens(items) + TailTokens(tail)
    decreases |tokens|
  {
    hide MatchEnvVar;
    hide Valid;
    hide Tokens;
    hide IsOperatorToken;
    hide Step;
    if tokens == [] {
      items, tail := [], End([]);
    } else if tokens[0] in {"|", "&&", "||"} {
      StepOp(st, tokens[0]);
      var rest := ReadLine(Step(st, tokens[0]).value, tokens[1..]);
      tail := OpTail(tokens[0], rest);
      items := [];
    } else if |tokens| == 1 && tokens[0] in {">", "2>", "<"} {
      assert tokens == [tokens[0]];
      items, tail := [], End(tokens);
    } else {
      hide ValidTail;
      hide TailTokens;
      var item, next, others := ReadItem(st, tokens);
      items, tail := ReadItems(next, others);
      ConsItem(item, items);
      items := [item] + items;
    }
  }

  lemma ConsItem(item: Item, items: seq<Item>)
    ensures ItemsTokens([item] + items) == ItemTokens(item) + ItemsTokens(items)
  {
  }

  lemma {:induction false} ReadCd(st: ParserState, tokens: seq<string>) returns (args: seq<string>, tail: Tail)
    requires st.mode == CHDIR && st.current.Some? && st.current.value.Chdir? && Finish(Steps(st, tokens)).Some?
    ensures ValidSegment(Cd(args)) && (st.current.value.dir.Some? ==> args == [])
    ensures ValidTail(tail) && (tail.More? ==> tail.op == And) && (tail.End? ==> tail.dangling == [])
    ensures tokens == args + TailTokens(tail)
    decreases |tokens|
  {
    hide MatchEnvVar;
    hide Valid;
    hide Tokens;
    if tokens == [] {
      args, tail := [], End([]);
    } else {
      var token, others := tokens[0], tokens[1..];
      var next := Step(st, token).value;
      if token == "&&" {
        var rest := ReadLine(next, others);
        tail := OpTail(token, rest);
        args := [];
      } else {
        hide ValidTail;
        hide TailTokens;
        args, tail := ReadCd(next, others);
        args := [token] + args;
      }
    }
  }

  /** The parser accepts exactly the token lists of valid lines that mean something, and returns that meaning. */
  lemma AcceptedLanguage(tokens: seq<string>, p: seq<Node>)
    ensures ParseTokens(tokens) == Some(p) <==>
            exists line :: Valid(line) && Tokens(line) == tokens && Denote(line) == Some(p)
  {
    if ParseTokens(tokens) == Some(p) {
      var line := ReadLine(START, tokens);
      ParseIsDenote(line);
    }
    forall line | Valid(line) && Tokens(line) == tokens ensures ParseTokens(tokens) == Denote(line) {
      ParseIsDenote(line);
    }
  }

  // ---- The shape of what the parser returns ----

  /** The streams that redirections give: input from a file, output to a file or a pipe, errors to a file
      or where the output goes. */
  predicate ParsedStreams(c: Node)
    requires c.Command?
  {
    && (c.stdin.Inherited? || c.stdin.File?)
    && !c.stdout.SameAsStdout?
    && !c.stderr.PIPE?
  }

  /** Commands and operators alternate; output goes to a pipe exactly before a Pipe; a directory change is
      last or before And. */
  ghost predicate WellShaped(p: seq<Node>) {
    && p != [] && !IsOp(p[0])
    && (p[0].Command? ==> ParsedStreams(p[0]))
    && (|p| == 1 ==> p[0].Command? ==> p[0].stdout != PIPE)
    && (|p| > 1 ==>
          && |p| > 2 && IsOp(p[1])
          && (p[0].Command? ==> (p[0].stdout == PIPE <==> p[1] == Pipe))
          && (p[0].Chdir? ==> p[1] == And)
          && WellShaped(p[2..]))
  }

  lemma {:induction false} RedirectNeverPipes(c: Node, items: seq<Item>)
    requires c.Command? && c.stdout != PIPE && ParsedStreams(c) && RedirectAll(c, items).Some?
    ensures RedirectAll(c, items).value.stdout != PIPE && ParsedStreams(RedirectAll(c, items).value)
    decreases |items|
  {
    if items != [] {
      RedirectNeverPipes(Redirect(c, items[0]).value, items[1..]);
    }
  }

  lemma {:induction false} DenoteShape(line: Line)
    requires Valid(line) && Denote(line).Some?
    ensures WellShaped(Denote(line).value)
    decreases line
  {
    hide RedirectAll;
    if line.seg.Cmd? {
      RedirectNeverPipes(NewCommand(line.seg.name, Bindings(line.seg.env, map[])), line.seg.items);
    }
    if line.Joined? {
      DenoteShape(line.rest);
      assert Denote(line).value[2..] == Denote(line.rest).value;
    }
  }

  lemma ParsedShape(tokens: seq<string>)
    requires ParseTokens(tokens).Some?
    ensures WellShaped(ParseTokens(tokens).value)
  {
    var line := ReadLine(START, tokens);
    ParseIsDenote(line);
    DenoteShape(line);
  }

  // ---- Rendering a pipeline ----

  predicate PlainStream(s: Stream) {
    s.Inherited? || s.File?
  }

  ghost predicate PlainBinding(key: string, value: string) {
    key != [] && (forall i :: 0 <= i < |key| ==> IsWordChar(key[i])) && value != [] && NoSpace(value)
  }

  /** A node whose texts the parser does not take for operators, assignments or the change of directory. */
  ghost predicate Renderable(node: Node) {
    match node
    case Command(name, argv, stdin, stdout, stderr, envVars) =>
      && argv != [] && argv[0] == name && name != "cd" && MatchEnvVar(name).None?
      && (forall i :: 1 <= i < |argv| ==> !IsOperatorToken(argv[i]))
      && PlainStream(stdin) && (PlainStream(stdout) || stdout == PIPE)
      && (PlainStream(stderr) || stderr == SameAsStdout)
      && (forall key :: key in envVars ==> PlainBinding(key, envVars[key]))
    case Chdir(dir) => dir.Some? ==> dir.value != "&&"
    case _ => true
  }

  ghost function AnyKey(env: map<string, string>): (key: string)
    requires env != map[]
    ensures key in env && |env - {key}| < |env|
  {
    var key :| key in env;
    key
  }

  ghost function RenderEnv(env: map<string, string>): seq<string>
    decreases |env|
  {
    if env == map[] then [] else
      var key := AnyKey(env);
      [key + "=" + env[key]] + RenderEnv(env - {key})
  }

  function RenderArgs(argv: seq<string>): seq<Item> {
    if argv == [] then [] else [Arg(argv[0])] + RenderArgs(argv[1..])
  }

  function RenderStreams(c: Node): seq<Item>
    requires c.Command?
  {
    (if c.stdin.File? then [InFrom(c.stdin.name)] else []) +
    (if c.stdout.File? then [OutTo(c.stdout.name)] else []) +
    (if c.stderr.File? then [ErrTo(c.stderr.name)] else if c.stderr == SameAsStdout then [ErrToOut] else [])
  }

  ghost function RenderSegment(node: Node): Segment
    requires !IsOp(node) && Renderable(node)
  {
    match node
    case Command(name, argv, _, _, _, envVars) =>
      Cmd(RenderEnv(envVars), name, RenderArgs(argv[1..]) + RenderStreams(node))
    case Chdir(dir) => Cd(if dir.Some? then [dir.value] else [])
  }

  ghost function Render(p: seq<Node>): Line
    requires WellShaped(p) && forall i :: 0 <= i < |p| ==> Renderable(p[i])
  {
    if |p| == 1 then Last(RenderSegment(p[0]), []) else Joined(RenderSegment(p[0]), p[1], Render(p[2..]))
  }

  lemma {:induction false} WordLengthIs(s: string, n: nat)
    requires n <= |s| && (forall i :: 0 <= i < n ==> IsWordChar(s[i])) && (n < |s| ==> !IsWordChar(s[n]))
    ensures WordLength(s) == n
  {
    if n > 0 {
      WordLengthIs(s[1..], n - 1);
    }
  }

  lemma PlainBindingMatches(key: string, value: string)
    requires PlainBinding(key, value)
    ensures MatchEnvVar(key + "=" + value) == Some((key, value))
  {
    var token := key + "=" + value;
    WordLengthIs(token, |key|);
    assert token[..|key|] == key && token[|key| + 1..] == value;
  }

  lemma BrokenBindingMatches(key: string, value: string)
    requires PlainBinding(key, value)
    ensures MatchEnvVar(key + "=" + value + "\n") == Some((key, value))
  {
    var token, rest := key + "=" + value + "\n", value + "\n";
    WordLengthIs(token, |key|);
    hide WordLength;
    assert token[..|key|] == key && token[|key| + 1..] == rest;
    assert IsSpace(rest[|value|]) && rest[..|value|] == value;
  }

  lemma MatchIsBinding(token: string)
    requires MatchEnvVar(token).Some?
    ensures var (key, value) := MatchEnvVar(token).value;
            PlainBinding(key, value) && (token == key + "=" + value || token == key + "=" + value + "\n")
  {
    var n := WordLength(token);
    hide WordLength;
    hide IsSpace;
    var rest := token[n + 1..];
    assert token == token[..n] + "=" + rest;
    if !NoSpace(rest) {
      assert rest == rest[..|rest| - 1] + "\n";
      assert token[..n] + "=" + rest == token[..n] + "=" + rest[..|rest| - 1] + "\n";
    }
  }

  /** A token is an assignment exactly when it is a plain binding, or one followed by a line break, which the
      end anchor of the pattern lets pass and the value leaves out. */
  lemma AssignmentsAre(token: string, key: string, value: string)
    ensures MatchEnvVar(token) == Some((key, value)) <==>
            PlainBinding(key, value) && (token == key + "=" + value || token == key + "=" + value + "\n")
  {
    hide *;
    if MatchEnvVar(token).Some? {
      MatchIsBinding(token);
    }
    if PlainBinding(key, value) {
      PlainBindingMatches(key, value);
      BrokenBindingMatches(key, value);
    }
  }

  lemma {:induction false} RenderEnvBinds(env: map<string, string>, base: map<string, string>)
    requires forall key :: key in env ==> PlainBinding(key, env[key])
    ensures Assignments(RenderEnv(env))
    ensures Bindings(RenderEnv(env), base) == base + env
    decreases |env|
  {
    hide MatchEnvVar;
    hide PlainBinding;
    hide AnyKey;
    hide Assignments;
    hide Bindings;
    if env == map[] {
      NoBindings(base);
      assert base + env == base;
    } else {
      var key := AnyKey(env);
      var rest, first := RenderEnv(env - {key}), key + "=" + env[key];
      PlainBindingMatches(key, env[key]);
      RenderEnvBinds(env - {key}, base[key := env[key]]);
      assert RenderEnv(env) == [first] + rest;
      BindingsCons(first, rest, base);
      MoveBinding(env, base, key);
    }
  }

  lemma MoveBinding(env: map<string, string>, base: map<string, string>, key: string)
    requires key in env
    ensures base[key := env[key]] + (env - {key}) == base + env
  {
  }

  lemma NoBindings(base: map<string, string>)
    ensures Assignments([]) && Bindings([], base) == base
  {
  }

  lemma BindingsCons(first: string, rest: seq<string>, base: map<string, string>)
    requires MatchEnvVar(first).Some? && Assignments(rest)
    ensures Assignments([first] + rest)
    ensures var (key, value) := MatchEnvVar(first).value;
            Bindings([first] + rest, base) == Bindings(rest, base[key := value])
  {
  }

  lemma ConsArg(argv: seq<string>, more: seq<Item>)
    requires argv != []
    ensures RenderArgs(argv) + more == [Arg(argv[0])] + (RenderArgs(argv[1..]) + more)
  {
  }

  /** Arguments are collected one by one; c' is the command with all of them. */
  lemma {:induction false} RedirectArgs(c: Node, argv: seq<string>, more: seq<Item>, c': Node)
    requires c.Command? && c' == c.(argv := c.argv + argv)
    ensures RedirectAll(c, RenderArgs(argv) + more) == RedirectAll(c', more)
    decreases |argv|
  {
    if argv == [] {
      assert c.argv + argv == c.argv;
      assert RenderArgs(argv) + more == more;
    } else {
      var c1 := c.(argv := c.argv + [argv[0]]);
      var items := RenderArgs(argv[1..]) + more;
      OneRedirect(c, [Arg(argv[0])], items, c1);
      MoreArgs(c, argv, c1, c');
      hide RedirectAll;
      ConsArg(argv, more);
      RedirectArgs(c1, argv[1..], more, c');
    }
  }

  lemma MoreArgs(c: Node, argv: seq<string>, c1: Node, c': Node)
    requires c.Command? && argv != []
    requires c1 == c.(argv := c.argv + [argv[0]]) && c' == c.(argv := c.argv + argv)
    ensures c' == c1.(argv := c1.argv + argv[1..])
  {
  }

  lemma {:induction false} RenderArgsPlain(argv: seq<string>)
    requires forall i :: 0 <= i < |argv| ==> !IsOperatorToken(argv[i])
    ensures forall i :: 0 <= i < |RenderArgs(argv)| && RenderArgs(argv)[i].Arg? ==>
              !IsOperatorToken(RenderArgs(argv)[i].text)
    decreases |argv|
  {
    if argv != [] {
      RenderArgsPlain(argv[1..]);
    }
  }

  lemma RedirectStreams(c: Node, bare: Node)
    requires c.Command? && PlainStream(c.stdin) && PlainStream(c.stdout)
    requires PlainStream(c.stderr) || c.stderr == SameAsStdout
    requires bare == c.(stdin := Inherited, stdout := Inherited, stderr := Inherited)
    ensures RedirectAll(bare, RenderStreams(c)) == Some(c)
  {
    var items := RenderStreams(c);
    var a := if c.stdin.File? then [InFrom(c.stdin.name)] else [];
    var b := if c.stdout.File? then [OutTo(c.stdout.name)] else [];
    var d := if c.stderr.File? then [ErrTo(c.stderr.name)] else if c.stderr == SameAsStdout then [ErrToOut] else [];
    var c1 := bare.(stdin := c.stdin);
    var c2 := c1.(stdout := c.stdout);
    OneRedirect(bare, a, b + d, c1);
    OneRedirect(c1, b, d, c2);
    OneRedirect(c2, d, [], c);
    assert items == a + (b + d) && d + [] == d;
  }

  lemma OneRedirect(c: Node, first: seq<Item>, more: seq<Item>, c': Node)
    requires c.Command? && |first| <= 1
    requires if first == [] then c' == c else Redirect(c, first[0]) == Some(c')
    ensures c'.Command? && RedirectAll(c, first + more) == RedirectAll(c', more)
  {
    if first == [] {
      assert first + more == more;
    } else {
      assert (first + more)[1..] == more;
    }
  }

  lemma RenderSegmentMeans(node: Node)
    requires !IsOp(node) && Renderable(node)
    ensures ValidSegment(RenderSegment(node))
    ensures SegmentNode(RenderSegment(node)) ==
            Some(if node.Command? && node.stdout == PIPE then node.(stdout := Inherited) else node)
  {
    hide MatchEnvVar;
    hide IsOperatorToken;
    hide RenderStreams;
    hide RenderEnv;
    hide Bindings;
    hide Assignments;
    hide RedirectAll;
    hide PlainBinding;
    if node.Command? {
      var c := if node.stdout == PIPE then node.(stdout := Inherited) else node;
      var Command(name, argv, _, _, _, envVars) := node;
      RenderEnvBinds(envVars, map[]);
      assert map[] + envVars == envVars;
      RenderArgsPlain(argv[1..]);
      StreamsAreNotArgs(node, c);
      var start := NewCommand(name, envVars);
      assert [name] + argv[1..] == argv;
      RedirectArgs(start, argv[1..], RenderStreams(node), start.(argv := argv));
      RedirectStreams(c, start.(argv := argv));
    }
  }

  lemma StreamsAreNotArgs(node: Node, c: Node)
    requires node.Command? && c == (if node.stdout == PIPE then node.(stdout := Inherited) else node)
    ensures forall i :: 0 <= i < |RenderStreams(node)| ==> !RenderStreams(node)[i].Arg?
    ensures RenderStreams(c) == RenderStreams(node)
  {
  }

  lemma {:induction false} RenderMeans(p: seq<Node>)
    requires WellShaped(p) && forall i :: 0 <= i < |p| ==> Renderable(p[i])
    ensures Valid(Render(p)) && Denote(Render(p)) == Some(p)
    decreases |p|
  {
    hide Renderable;
    hide RenderSegment;
    hide SegmentNode;
    hide ValidSegment;
    RenderSegmentMeans(p[0]);
    RenderKind(p[0]);
    if |p| == 1 {
      assert p == [p[0]];
    } else {
      RenderMeans(p[2..]);
      assert p == [p[0], p[1]] + p[2..];
    }
  }

  lemma RenderKind(node: Node)
    requires !IsOp(node) && Renderable(node)
    ensures RenderSegment(node).Cmd? <==> node.Command?
  {
  }

  /** Parsing a rendered pipeline gives that pipeline back. */
  lemma ParseOfRender(p: seq<Node>)
    requires WellShaped(p) && forall i :: 0 <= i < |p| ==> Renderable(p[i])
    ensures ParseTokens(Tokens(Render(p))) == Some(p)
  {
    RenderMeans(p);
    ParseIsDenote(Render(p));
  }
}
