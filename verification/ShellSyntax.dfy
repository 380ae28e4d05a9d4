/** Nodes of a shell pipeline, the parser's step function, and the class that parses and runs. */
module ShellSyntax {
  import opened Basics

  /** What a standard stream is attached to. */
  datatype Stream = Inherited | PIPE | SameAsStdout | File(name: string)

  datatype Node =
    | Pipe | And | Or
    | Command(name: string, argv: seq<string>, stdin: Stream, stdout: Stream, stderr: Stream,
              envVars: map<string, string>)
    | Chdir(dir: Option<string>)

  predicate IsOp(node: Node) {
    node.Pipe? || node.And? || node.Or?
  }

  function NewCommand(name: string, envVars: map<string, string>): Node {
    Command(name, [name], Inherited, Inherited, Inherited, envVars)
  }

  // ---- Environment assignments: a word, an equals sign and text without white space ----

  predicate IsWordChar(c: char) {
    'a' <= c <= 'z' || 'A' <= c <= 'Z' || '0' <= c <= '9' || c == '_'
  }

  predicate IsSpace(c: char) {
    var n := c as int;
    || 0x09 <= n <= 0x0D || 0x1C <= n <= 0x20 || n == 0x85 || n == 0xA0 || n == 0x1680
    || 0x2000 <= n <= 0x200A || n == 0x2028 || n == 0x2029 || n == 0x202F || n == 0x205F || n == 0x3000
  }

  function WordLength(s: string): (n: nat)
    ensures n <= |s| && (forall i :: 0 <= i < n ==> IsWordChar(s[i])) && (n < |s| ==> !IsWordChar(s[n]))
  {
    if s == [] || !IsWordChar(s[0]) then 0 else 1 + WordLength(s[1..])
  }

  predicate NoSpace(s: string) {
    forall i :: 0 <= i < |s| ==> !IsSpace(s[i])
  }

  /** The end anchor of the pattern also matches just before a final line break. */
  function MatchEnvVar(token: string): Option<(string, string)> {
    var n := WordLength(token);
    if n == 0 || n == |token| || token[n] != '=' then None else
      var value := token[n + 1..];
      if value == [] then None
      else if NoSpace(value) then Some((token[..n], value))
      else
        var m := |value| - 1;
        if value[m] == '\n' && m > 0 && NoSpace(value[..m]) then Some((token[..n], value[..m])) else None
  }

  // ---- The parser ----

  datatype Mode = BEGIN | COMMAND | CHDIR | STDERR | STDOUT | STDIN

  datatype ParserState = ParserState(
    mode: Mode,
    current: Option<Node>,
    pipeline: seq<Node>,
    envVars: map<string, string>)

  const START := ParserState(BEGIN, None, [], map[])

  /** The command is appended, with op after it, and a new command begins. */
  function Commit(st: ParserState, command: Node, op: Node): ParserState {
    st.(mode := BEGIN, current := None, pipeline := st.pipeline + [command, op])
  }

  /** One token; None when an assertion of the parser fails. */
  function Step(st: ParserState, token: string): Option<ParserState> {
    if st.mode == BEGIN then
      var env := MatchEnvVar(token);
      if env.Some? then Some(st.(envVars := st.envVars[env.value.0 := env.value.1]))
      else if st.current.Some? then None
      else if token == "cd" then
        if st.envVars != map[] then None else Some(st.(mode := CHDIR, current := Some(Chdir(None))))
      else Some(st.(mode := COMMAND, current := Some(NewCommand(token, st.envVars)), envVars := map[]))
    else if st.current.None? then None
    else
      var c := st.current.value;
      match st.mode
      case COMMAND =>
        if !c.Command? then None
        else if token == ">" then Some(st.(mode := STDOUT))
        else if token == "2>" then Some(st.(mode := STDERR))
        else if token == "2>&1" then
          if c.stderr != Inherited then None else Some(st.(current := Some(c.(stderr := SameAsStdout))))
        else if token == "<" then Some(st.(mode := STDIN))
        else if token == "|" then
          if c.stdout != Inherited then None else Some(Commit(st, c.(stdout := PIPE), Pipe))
        else if token == "&&" then Some(Commit(st, c, And))
        else if token == "||" then Some(Commit(st, c, Or))
        else Some(st.(current := Some(c.(argv := c.argv + [token]))))
      case CHDIR =>
        if !c.Chdir? then None
        else if token == "&&" then Some(Commit(st, c, And))
        else if c.dir.Some? then None
        else Some(st.(current := Some(Chdir(Some(token)))))
      case STDOUT =>
        if !c.Command? || c.stdout != Inherited then None
        else Some(st.(mode := COMMAND, current := Some(c.(stdout := File(token)))))
      case STDERR =>
        if !c.Command? || c.stderr != Inherited then None
        else Some(st.(mode := COMMAND, current := Some(c.(stderr := File(token)))))
      case STDIN =>
        if !c.Command? || c.stdin != Inherited then None
        else Some(st.(mode := COMMAND, current := Some(c.(stdin := File(token)))))
      case BEGIN => None
  }

  function Steps(st: ParserState, tokens: seq<string>): Option<ParserState>
    decreases |tokens|
  {
    if tokens == [] then Some(st) else
      var next := Step(st, tokens[0]);
      if next.None? then None else Steps(next.value, tokens[1..])
  }

  /** The final commit fails when no command is open. */
  function Finish(st: Option<ParserState>): Option<seq<Node>> {
    if st.None? || st.value.current.None? then None else Some(st.value.pipeline + [st.value.current.value])
  }

  function ParseTokens(tokens: seq<string>): Option<seq<Node>> {
    Finish(Steps(START, tokens))
  }
}
