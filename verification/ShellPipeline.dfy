/** The Pipeline class, and running a pipeline as short-circuit evaluation of pipe groups. */
module ShellPipeline {
  import opened Basics
  import opened ShellSyntax
  import opened ShellGrammar

  // ---- Places in the file system ----

  /** A path from the root or from the interpreter's own directory, as its components; those that are
      empty or a single dot lead nowhere and are left out. */
  datatype Place = Place(absolute: bool, parts: seq<string>)

  const HERE := Place(false, [])

  predicate IsAbsolute(path: string) {
    path != "" && path[0] == '/'
  }

  function Component(part: string): seq<string> {
    if part == "" || part == "." then [] else [part]
  }

  /** The components of a path whose first component begins with part. */
  function Parts(part: string, path: string): seq<string>
    decreases |path|
  {
    if path == "" then Component(part)
    else if path[0] == '/' then Component(part) + Parts("", path[1..])
    else Parts(part + [path[0]], path[1..])
  }

  function GoTo(from: Place, path: string): Place {
    if IsAbsolute(path) then Place(true, Parts("", path)) else Place(from.absolute, from.parts + Parts("", path))
  }

  /** os.path.join of a directory and a path. */
  function JoinPath(cwd: string, dir: string): string {
    if IsAbsolute(dir) then dir
    else if cwd == "" || cwd[|cwd| - 1] == '/' then cwd + dir
    else cwd + "/" + dir
  }

  lemma {:induction false} PartsJoin(part: string, a: string, b: string)
    ensures Parts(part, a + "/" + b) == Parts(part, a) + Parts("", b)
    decreases |a|
  {
    var whole := a + "/" + b;
    if a == "" {
      assert whole[1..] == b;
    } else {
      assert whole[1..] == a[1..] + "/" + b;
      PartsJoin(if a[0] == '/' then "" else part + [a[0]], a[1..], b);
    }
  }

  /** Joining paths is going from one to the next. */
  lemma JoinIsGoTo(cwd: string, dir: string)
    ensures GoTo(HERE, JoinPath(cwd, dir)) == GoTo(GoTo(HERE, cwd), dir)
  {
    if !IsAbsolute(dir) {
      if cwd != "" && cwd[|cwd| - 1] == '/' {
        var init := cwd[..|cwd| - 1];
        assert cwd == init + "/" + "" && cwd + dir == init + "/" + dir;
        PartsJoin("", init, "");
        PartsJoin("", init, dir);
      } else if cwd == "" {
        assert cwd + dir == dir;
      } else {
        PartsJoin("", cwd, dir);
        assert JoinPath(cwd, dir)[0] == cwd[0];
      }
    }
  }

  // ---- Meaning of a run ----

  datatype Input = OwnStdin | FromPrevious | FromFile(file: Place)

  datatype Output = OwnStdout | OwnStderr | ToNext | ToFile(file: Place)

  /** What can be observed: a process is started, with the variables added to its environment; or a
      directory name is printed, which only a shell does. */
  datatype Event =
    | Launch(argv: seq<string>, envVars: map<string, string>, cwd: Place, stdin: Input, stdout: Output, stderr: Output)
    | DirectoryPrinted

  /** How a run ends: an exit code; an exception of the interpreter, which is PathError when a path is joined
      with no directory; or, only in a shell, a line that is not understood. */
  datatype Outcome = Exit(code: int) | IndexError | PathError | SyntaxError

  /** Pipe groups nested to the right; Broken starts its commands and then fails. */
  datatype Ast =
    | Leaf(group: seq<Event>)
    | AndThen(group: seq<Event>, rest: Ast)
    | OrElse(group: seq<Event>, rest: Ast)
    | Broken(group: seq<Event>, error: Outcome)

  /** Files are opened from the interpreter's own directory, and one output file name is special. */
  function OutPlace(name: string): Place {
    GoTo(HERE, if name == "NUL:" then "/dev/null" else name)
  }

  function OutputOf(stream: Stream, inherited: Output, same: Output): Output {
    match stream
    case Inherited => inherited
    case PIPE => ToNext
    case SameAsStdout => same
    case File(name) => ToFile(OutPlace(name))
  }

  /** The process start of a command; behind a pipe its own input redirection is ignored. */
  function Started(c: Node, at: Place, piped: bool): Event
    requires c.Command?
  {
    var stdin := if piped then FromPrevious else if c.stdin.File? then FromFile(GoTo(HERE, c.stdin.name)) else OwnStdin;
    var stdout := OutputOf(c.stdout, OwnStdout, OwnStdout);
    Launch(c.argv, c.envVars, at, stdin, stdout, OutputOf(c.stderr, OwnStderr, stdout))
  }

  /** The groups of a well-shaped pipeline; group holds the commands already in the current group. */
  ghost function ToAst(p: seq<Node>, at: Place, group: seq<Event>): (r: Ast)
    requires WellShaped(p)
    ensures NoEmptyGroup(r)
    decreases |p|
  {
    if p[0].Chdir? then
      if |p| == 1 then Broken(group, IndexError)
      else if p[0].dir.None? then Broken(group, PathError)
      else ToAst(p[2..], GoTo(at, p[0].dir.value), group)
    else
      var more := group + [Started(p[0], at, group != [])];
      if |p| == 1 then Leaf(more)
      else if p[1].Pipe? then ToAst(p[2..], at, more)
      else if p[1].And? then AndThen(more, ToAst(p[2..], at, []))
      else OrElse(more, ToAst(p[2..], at, []))
  }

  datatype Result = Result(outcome: Outcome, events: seq<Event>)

  function After(events: seq<Event>, r: Result): Result {
    Result(r.outcome, events + r.events)
  }

  /** Short-circuit evaluation; n processes have been started before, and status says how the k-th one exits.
      A group's status is that of its last command. */
  function Eval(ast: Ast, n: nat, status: nat -> int): Result
    requires NoEmptyGroup(ast)
  {
    match ast
    case Leaf(group) => Result(Exit(status(n + |group| - 1)), group)
    case Broken(group, error) => Result(error, group)
    case AndThen(group, rest) =>
      var s := status(n + |group| - 1);
      if s != 0 then Result(Exit(s), group) else After(group, Eval(rest, n + |group|, status))
    case OrElse(group, rest) =>
      var s := status(n + |group| - 1);
      if s == 0 then Result(Exit(s), group) else After(group, Eval(rest, n + |group|, status))
  }

  predicate NoEmptyGroup(ast: Ast) {
    match ast
    case Broken(_, _) => true
    case Leaf(group) => group != []
    case AndThen(group, rest) => group != [] && NoEmptyGroup(rest)
    case OrElse(group, rest) => group != [] && NoEmptyGroup(rest)
  }

  /** What Run returns, as a function of the statuses. */
  ghost function RunResult(p: seq<Node>, status: nat -> int): Result
    requires WellShaped(p)
  {
    Eval(ToAst(p, HERE, []), 0, status)
  }

  // ---- The class ----

  /** What is left to do equals the whole run. */
  ghost predicate Remaining(p: seq<Node>, at: Place, group: seq<Event>, n: nat, status: nat -> int, before: seq<Event>,
                            whole: Result)
    requires WellShaped(p)
  {
    After(before, Eval(ToAst(p, at, group), n, status)) == whole
  }

  lemma StartRemaining(p: seq<Node>, status: nat -> int)
    requires WellShaped(p)
    ensures GoTo(HERE, ".") == HERE && Remaining(p, HERE, [], 0, status, [], RunResult(p, status))
  {
    var r := Eval(ToAst(p, HERE, []), 0, status);
    assert [] + r.events == r.events;
    assert Parts("", ".") == Parts(".", "") == [];
  }

  /** A change of directory only affects the commands after it. */
  lemma RemainingChdir(p: seq<Node>, at: Place, group: seq<Event>, n: nat, status: nat -> int, before: seq<Event>,
                       whole: Result)
    requires WellShaped(p) && p[0].Chdir? && Remaining(p, at, group, n, status, before, whole)
    ensures if |p| == 1 then whole == Result(IndexError, before + group)
            else if p[0].dir.None? then whole == Result(PathError, before + group)
            else WellShaped(p[2..]) && Remaining(p[2..], GoTo(at, p[0].dir.value), group, n, status, before, whole)
  {
  }

  /** A command joins the group; the operator after it decides how the run goes on. */
  lemma RemainingCommand(p: seq<Node>, at: Place, group: seq<Event>, n: nat, status: nat -> int, before: seq<Event>,
                         whole: Result)
    requires WellShaped(p) && !p[0].Chdir? && Remaining(p, at, group, n, status, before, whole)
    ensures var more := group + [Started(p[0], at, group != [])];
            var events, s := before + more, status(n + |group|);
            if |p| == 1 then whole == Result(Exit(s), events)
            else if p[1].Pipe? then WellShaped(p[2..]) && Remaining(p[2..], at, more, n, status, before, whole)
            else if (p[1].Or? && s == 0) || (p[1].And? && s != 0) then whole == Result(Exit(s), events)
            else WellShaped(p[2..]) && Remaining(p[2..], at, [], n + |more|, status, events, whole)
  {
    var more := group + [Started(p[0], at, group != [])];
    hide Started;
    hide NoEmptyGroup;
    if |p| > 1 && !p[1].Pipe? {
      AfterAfter(before, more, Eval(ToAst(p[2..], at, []), n + |more|, status));
      hide After;
    }
  }

  lemma AfterAfter(a: seq<Event>, b: seq<Event>, r: Result)
    ensures After(a, After(b, r)) == After(a + b, r)
    ensures forall outcome :: After(a, Result(outcome, b)) == Result(outcome, a + b)
  {
    assert a + (b + r.events) == a + b + r.events;
  }

  class Pipeline {
    var currentCommand: Option<Node>
    var pipeline: seq<Node>

    constructor ()
      ensures currentCommand == None && pipeline == []
    {
      currentCommand, pipeline := None, [];
    }

    method CommitCommand() returns (ok: bool)
      modifies this
      ensures ok <==> old(currentCommand).Some?
      ensures ok ==> currentCommand == None && pipeline == old(pipeline) + [old(currentCommand).value]
    {
      if currentCommand.None? {
        return false;
      }
      pipeline := pipeline + [currentCommand.value];
      currentCommand := None;
      return true;
    }

    /** False when an assertion fails. */
    method Parse(command: seq<string>) returns (ok: bool)
      modifies this
      ensures ok <==> ParseTokens(command).Some?
      ensures ok ==> pipeline == ParseTokens(command).value && currentCommand == None && WellShaped(pipeline)
    {
      hide MatchEnvVar;
      currentCommand := None;
      pipeline := [];
      var tokens := command;
      var state := BEGIN;
      var envVars: map<string, string> := map[];
      ghost var whole := Steps(START, command);
      while tokens != []
        invariant whole == Steps(ParserState(state, currentCommand, pipeline, envVars), tokens)
        invariant state == BEGIN <==> currentCommand.None?
        invariant state == CHDIR ==> currentCommand.value.Chdir?
        invariant state != BEGIN && state != CHDIR ==> currentCommand.value.Command?
        decreases |tokens|
      {
        ghost var before, left := ParserState(state, currentCommand, pipeline, envVars), tokens;
        var token := tokens[0];
        tokens := tokens[1..];
        match state {
        case BEGIN =>
          var envVarMatch := MatchEnvVar(token);
          if envVarMatch.Some? {
            envVars := envVars[envVarMatch.value.0 := envVarMatch.value.1];
          } else if token == "cd" {
            currentCommand := Some(Chdir(None));
            if envVars != map[] {
              return false;
            }
            state := CHDIR;
          } else {
            currentCommand := Some(NewCommand(token, map[]));
            if envVars != map[] {
              currentCommand := Some(currentCommand.value.(envVars := envVars));
              envVars := map[];
            }
            state := COMMAND;
          }
        case COMMAND =>
          if token == ">" {
            state := STDOUT;
          } else if token == "2>" {
            state := STDERR;
          } else if token == "2>&1" {
            if currentCommand.value.stderr != Inherited {
              return false;
            }
            currentCommand := Some(currentCommand.value.(stderr := SameAsStdout));
          } else if token == "<" {
            state := STDIN;
          } else if token == "|" {
            if currentCommand.value.stdout != Inherited {
              return false;
            }
            currentCommand := Some(currentCommand.value.(stdout := PIPE));
            var _ := CommitCommand();
            pipeline := pipeline + [Pipe];
            assert pipeline == before.pipeline + [pipeline[|before.pipeline|], Pipe];
            state := BEGIN;
          } else if token == "&&" {
            var _ := CommitCommand();
            pipeline := pipeline + [And];
            assert pipeline == before.pipeline + [pipeline[|before.pipeline|], And];
            state := BEGIN;
          } else if token == "||" {
            var _ := CommitCommand();
            pipeline := pipeline + [Or];
            assert pipeline == before.pipeline + [pipeline[|before.pipeline|], Or];
            state := BEGIN;
          } else {
            currentCommand := Some(currentCommand.value.(argv := currentCommand.value.argv + [token]));
          }
        case CHDIR =>
          if token == "&&" {
            var _ := CommitCommand();
            pipeline := pipeline + [And];
            assert pipeline == before.pipeline + [pipeline[|before.pipeline|], And];
            state := BEGIN;
          } else {
            if currentCommand.value.dir.Some? {
              return false;
            }
            currentCommand := Some(Chdir(Some(token)));
          }
        case STDOUT =>
          if currentCommand.value.stdout != Inherited {
            return false;
          }
          currentCommand := Some(currentCommand.value.(stdout := File(token)));
          state := COMMAND;
        case STDERR =>
          if currentCommand.value.stderr != Inherited {
            return false;
          }
          currentCommand := Some(currentCommand.value.(stderr := File(token)));
          state := COMMAND;
        case STDIN =>
          if currentCommand.value.stdin != Inherited {
            return false;
          }
          currentCommand := Some(currentCommand.value.(stdin := File(token)));
          state := COMMAND;
        }
        ghost var after := ParserState(state, currentCommand, pipeline, envVars);
        assert Step(before, token) == Some(after);
        assert Steps(before, left) == Steps(after, tokens);
      }
      ok := CommitCommand();
      if ok {
        ParsedShape(command);
      }
    }

    /** The status of a group: its last command's if any command failed, else zero. */
    method ExecPipedCommands(first: nat, count: nat, status: nat -> int) returns (retval: int)
      requires count > 0
      ensures retval == status(first + count - 1)
    {
      var retvals: seq<int> := [];
      for i := 0 to count
        invariant |retvals| == i && forall k :: 0 <= k < i ==> retvals[k] == status(first + k)
      {
        retvals := retvals + [status(first + i)];
      }
      retval := 0;
      for k := 0 to |retvals|
        invariant retval == 0 && forall m :: 0 <= m < k ==> retvals[m] == 0
      {
        if retvals[k] != 0 {
          retval := retvals[|retvals| - 1];
          break;
        }
      }
      assert retvals[|retvals| - 1] == status(first + count - 1);
    }

    /** status(k) is the exit status of the k-th process started. */
    method Run(status: nat -> int) returns (r: Result)
      requires WellShaped(pipeline)
      ensures r == RunResult(pipeline, status)
    {
      hide Remaining;
      hide ToAst;
      hide Eval;
      hide GoTo;
      hide JoinPath;
      ghost var whole := RunResult(pipeline, status);
      var nodes := pipeline;
      var launches: seq<Event> := [];
      ghost var before: seq<Event>, group: seq<Event> := [], [];
      var pipedCommands: nat := 0;
      var first: nat := 0;
      var piping := false;
      var cwd := ".";
      StartRemaining(nodes, status);
      while true
        invariant WellShaped(nodes)
        invariant pipedCommands == |group| && (piping <==> group != []) && first + |group| == |launches|
        invariant launches == before + group
        invariant Remaining(nodes, GoTo(HERE, cwd), group, first, status, before, whole)
        decreases |nodes|
      {
        var cmd := nodes[0];
        ghost var all, at := nodes, GoTo(HERE, cwd);
        nodes := nodes[1..];
        assert all == [cmd] + nodes;
        if cmd.Chdir? {
          RemainingChdir(all, at, group, first, status, before, whole);
          if nodes == [] {
            return Result(IndexError, launches);
          }
          nodes := nodes[1..];
          if cmd.dir.None? {
            return Result(PathError, launches);
          }
          assert nodes == all[2..];
          JoinIsGoTo(cwd, cmd.dir.value);
          cwd := JoinPath(cwd, cmd.dir.value);
          continue;
        }
        var stdin := OwnStdin;
        if piping {
          stdin := FromPrevious;
        } else if cmd.stdin.File? {
          stdin := FromFile(GoTo(HERE, cmd.stdin.name));
        }
        var stdout := OwnStdout;
        if cmd.stdout.PIPE? {
          stdout := ToNext;
        } else if cmd.stdout.File? {
          stdout := ToFile(OutPlace(cmd.stdout.name));
        }
        var stderr := OwnStderr;
        if cmd.stderr.SameAsStdout? {
          stderr := stdout;
        } else if cmd.stderr.File? {
          stderr := ToFile(OutPlace(cmd.stderr.name));
        }
        var proc := Launch(cmd.argv, cmd.envVars, GoTo(HERE, cwd), stdin, stdout, stderr);
        assert proc == Started(cmd, at, group != []);
        launches := launches + [proc];
        RemainingCommand(all, at, group, first, status, before, whole);
        group := group + [proc];
        pipedCommands := pipedCommands + 1;
        assert launches == before + group;
        if nodes == [] {
          var retval := ExecPipedCommands(first, pipedCommands, status);
          return Result(Exit(retval), launches);
        }
        var nextNode := nodes[0];
        nodes := nodes[1..];
        assert nodes == all[2..];
        if nextNode.Pipe? {
          piping := true;
        } else {
          var thisRetval := ExecPipedCommands(first, pipedCommands, status);
          if if nextNode.Or? then thisRetval == 0 else thisRetval != 0 {
            return Result(Exit(thisRetval), launches);
          }
          piping := false;
          first := first + pipedCommands;
          pipedCommands := 0;
          before, group := launches, [];
        }
      }
    }
  }
}
