/** The command-pipeline parser: a token machine with six states that builds a list of nodes. */
module ShellParse {
  import opened Options
  import Python

  datatype Output = NoOutput | PIPE | ToFile(file: string)

  datatype ErrorOutput = NoError | STDOUT | ErrorToFile(file: string)

  datatype Node =
    | PipeOp
    | AndOp
    | OrOp
    | Command(argv: seq<string>, stdin: Option<string>, stdout: Output, stderr: ErrorOutput, env: map<string, string>)
    | Chdir(dir: Option<string>)

  datatype Mode = BEGIN | COMMAND | CHDIR | STDERR_FILE | STDOUT_FILE | STDIN_FILE

  /** AssertionError is the program's only way to refuse a token list. */
  datatype ParseResult = Parsed(nodes: seq<Node>) | AssertionError

  // ---------------------------------------------------------------- variable assignments

  predicate IsWordChar(c: char) {
    'a' <= c <= 'z' || 'A' <= c <= 'Z' || '0' <= c <= '9' || c == '_'
  }

  predicate IsSpace(c: char) {
    c == ' ' || '\t' <= c <= '\r'
  }

  predicate IsVariable(name: string) {
    name != [] && forall i :: 0 <= i < |name| ==> IsWordChar(name[i])
  }

  predicate IsValue(value: string) {
    value != [] && forall i :: 0 <= i < |value| ==> !IsSpace(value[i])
  }

  function IndexOfEquals(s: string): (i: nat)
    ensures i <= |s| && (i < |s| ==> s[i] == '=')
  {
    if s == [] || s[0] == '=' then 0 else 1 + IndexOfEquals(s[1..])
  }

  /** The match of ^([a-zA-Z0-9_]+)=(\S+)$ : the two groups. */
  function EnvMatch(token: string): Option<(string, string)> {
    var i := IndexOfEquals(token);
    if i < |token| && IsVariable(token[..i]) && IsValue(Python.DropLineFeed(token[i + 1..])) then
      Some((token[..i], Python.DropLineFeed(token[i + 1..])))
    else None
  }

  lemma {:induction false} EqualsAfterVariable(name: string, value: string)
    requires IsVariable(name)
    ensures IndexOfEquals(name + "=" + value) == |name|
  {
    var s := name + "=" + value;
    assert s[0] == name[0] && IsWordChar(name[0]);
    if |name| > 1 {
      assert s[1..] == name[1..] + "=" + value;
      EqualsAfterVariable(name[1..], value);
    } else {
      assert s[1..] == "=" + value;
    }
  }

  lemma EnvRoundTrip(name: string, value: string)
    requires IsVariable(name) && IsValue(value)
    ensures EnvMatch(name + "=" + value) == Some((name, value))
  {
    var s := name + "=" + value;
    EqualsAfterVariable(name, value);
    assert s[..|name|] == name && s[|name| + 1..] == value;
  }

  // ---------------------------------------------------------------- the token machine

  /** The variables of the parsing loop. */
  datatype State = State(mode: Mode, current: Option<Node>, env: map<string, string>, pipeline: seq<Node>)

  const START := State(BEGIN, None, map[], [])

  function Commit(s: State, op: Node): State
    requires s.current.Some?
  {
    State(BEGIN, None, s.env, s.pipeline + [s.current.value] + [op])
  }

  /** Which kind of node is being built in which mode. */
  predicate Shaped(s: State) {
    match s.mode
    case BEGIN => s.current == None
    case CHDIR => s.current.Some? && s.current.value.Chdir? && s.env == map[]
    case _ => s.current.Some? && s.current.value.Command? && s.env == map[]
  }

  /** One round of the loop; None where the program's assertion fails. */
  function Step(s: State, token: string): (r: Option<State>)
    requires Shaped(s)
    ensures r.Some? ==> Shaped(r.value)
  {
    match s.mode
    case BEGIN =>
      var m := EnvMatch(token);
      if m.Some? then Some(s.(env := s.env[m.value.0 := m.value.1]))
      else if token == "cd" then
        if s.env == map[] then Some(s.(mode := CHDIR, current := Some(Chdir(None)))) else None
      else
        Some(State(COMMAND, Some(Command([token], None, NoOutput, NoError, s.env)), map[], s.pipeline))
    case COMMAND =>
      var c := s.current.value;
      if token == ">" then Some(s.(mode := STDOUT_FILE))
      else if token == "2>" then Some(s.(mode := STDERR_FILE))
      else if token == "2>&1" then
        if c.stderr == NoError then Some(s.(current := Some(c.(stderr := STDOUT)))) else None
      else if token == "<" then Some(s.(mode := STDIN_FILE))
      else if token == "|" then
        if c.stdout == NoOutput then Some(Commit(s.(current := Some(c.(stdout := PIPE))), PipeOp)) else None
      else if token == "&&" then Some(Commit(s, AndOp))
      else if token == "||" then Some(Commit(s, OrOp))
      else Some(s.(current := Some(c.(argv := c.argv + [token]))))
    case CHDIR =>
      if token == "&&" then Some(Commit(s, AndOp))
      else if s.current.value.dir == None then Some(s.(current := Some(Chdir(Some(token))))) else None
    case STDOUT_FILE =>
      var c := s.current.value;
      if c.stdout == NoOutput then Some(s.(mode := COMMAND, current := Some(c.(stdout := ToFile(token))))) else None
    case STDERR_FILE =>
      var c := s.current.value;
      if c.stderr == NoError then Some(s.(mode := COMMAND, current := Some(c.(stderr := ErrorToFile(token))))) else None
    case STDIN_FILE =>
      var c := s.current.value;
      if c.stdin == None then Some(s.(mode := COMMAND, current := Some(c.(stdin := Some(token))))) else None
  }

  function Scan(s: State, tokens: seq<string>): (r: Option<State>)
    requires Shaped(s)
    ensures r.Some? ==> Shaped(r.value)
    decreases |tokens|
  {
    if tokens == [] then Some(s)
    else
      var next := Step(s, tokens[0]);
      if next == None then None else Scan(next.value, tokens[1..])
  }

  /** What parse returns for a list of tokens. */
  function Parse(tokens: seq<string>): ParseResult {
    var end := Scan(START, tokens);
    if end == None || end.value.current == None then AssertionError
    else Parsed(end.value.pipeline + [end.value.current.value])
  }

  lemma {:induction false} ScanAppend(s: State, a: seq<string>, b: seq<string>)
    requires Shaped(s)
    ensures Scan(s, a + b) == if Scan(s, a) == None then None else Scan(Scan(s, a).value, b)
    decreases |a|
  {
    if a == [] {
      assert a + b == b;
    } else {
      assert (a + b)[1..] == a[1..] + b;
      if Step(s, a[0]).Some? {
        ScanAppend(Step(s, a[0]).value, a[1..], b);
      }
    }
  }

  /** The parser with the two fields its loop updates. */
  class Pipeline {
    var currentCommand: Option<Node>
    var pipeline: seq<Node>

    constructor ()
      ensures currentCommand == None && pipeline == []
    {
      currentCommand, pipeline := None, [];
    }

    method CommitCommand() returns (ok: bool)
      modifies this
      ensures ok <==> old(currentCommand).Some?
      ensures ok ==> currentCommand == None && pipeline == old(pipeline) + [old(currentCommand).value]
    {
      if currentCommand == None {
        return false;
      }
      pipeline := pipeline + [currentCommand.value];
      currentCommand := None;
      return true;
    }

    method ParseTokens(tokens: seq<string>) returns (r: ParseResult)
      modifies this
      ensures r == Parse(tokens)
      ensures r.Parsed? ==> pipeline == r.nodes && currentCommand == None
    {
      currentCommand, pipeline := None, [];
      var mode, env := BEGIN, map[];
      for i := 0 to |tokens|
        invariant Shaped(State(mode, currentCommand, env, pipeline))
        invariant Scan(START, tokens) == Scan(State(mode, currentCommand, env, pipeline), tokens[i..])
      {
        assert tokens[i..][1..] == tokens[i + 1..];
        var next, ok := TokenStep(mode, env, tokens[i]);
        if !ok {
          return AssertionError;
        }
        mode, env := next.mode, next.env;
      }
      var committed := CommitCommand();
      if !committed {
        return AssertionError;
      }
      return Parsed(pipeline);
    }

    /** The body of the loop; ok is false where an assertion fails. */
    method TokenStep(mode: Mode, env: map<string, string>, token: string) returns (next: State, ok: bool)
      requires Shaped(State(mode, currentCommand, env, pipeline))
      modifies this
      ensures Step(State(mode, old(currentCommand), env, old(pipeline)), token) == if ok then Some(next) else None
      ensures ok ==> next.current == currentCommand && next.pipeline == pipeline
    {
      var state, vars := mode, env;
      ok := true;
      match mode {
        case BEGIN =>
          var m := EnvMatch(token);
          if m.Some? {
            vars := vars[m.value.0 := m.value.1];
          } else if token == "cd" {
            currentCommand := Some(Chdir(None));
            ok := vars == map[];
            state := CHDIR;
          } else {
            currentCommand := Some(Command([token], None, NoOutput, NoError, vars));
            vars := map[];
            state := COMMAND;
          }
        case COMMAND =>
          var c := currentCommand.value;
          match token {
            case ">" => state := STDOUT_FILE;
            case "2>" => state := STDERR_FILE;
            case "2>&1" =>
              ok := c.stderr == NoError;
              currentCommand := Some(c.(stderr := STDOUT));
            case "<" => state := STDIN_FILE;
            case "|" =>
              ok := c.stdout == NoOutput;
              currentCommand := Some(c.(stdout := PIPE));
              var _ := CommitCommand();
              pipeline := pipeline + [PipeOp];
              state := BEGIN;
            case "&&" =>
              var _ := CommitCommand();
              pipeline := pipeline + [AndOp];
              state := BEGIN;
            case "||" =>
              var _ := CommitCommand();
              pipeline := pipeline + [OrOp];
              state := BEGIN;
            case _ => currentCommand := Some(c.(argv := c.argv + [token]));
          }
        case CHDIR =>
          if token == "&&" {
            var _ := CommitCommand();
            pipeline := pipeline + [AndOp];
            state := BEGIN;
          } else {
            ok := currentCommand.value.dir == None;
            currentCommand := Some(Chdir(Some(token)));
          }
        case STDOUT_FILE =>
          ok := currentCommand.value.stdout == NoOutput;
          currentCommand := Some(currentCommand.value.(stdout := ToFile(token)));
          state := COMMAND;
        case STDERR_FILE =>
          ok := currentCommand.value.stderr == NoError;
          currentCommand := Some(currentCommand.value.(stderr := ErrorToFile(token)));
          state := COMMAND;
        case STDIN_FILE =>
          ok := currentCommand.value.stdin == None;
          currentCommand := Some(currentCommand.value.(stdin := Some(token)));
          state := COMMAND;
      }
      next := State(state, currentCommand, vars, pipeline);
    }
  }
}
