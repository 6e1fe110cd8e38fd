/** Running a parsed pipeline: the loop over the nodes against a recursive evaluator, and against POSIX and-or lists. */
module ShellRun {
  import opened Options
  import opened ShellParse
  import opened ShellPrint

  // ---------------------------------------------------------------- scripts

  /** A command, after the directory changes that come before it. */
  datatype Stage = Stage(cds: seq<Option<string>>, command: Node)

  /** A pipe group, and what && or || makes of the rest. Stray ends in directory changes with no command after them. */
  datatype Script =
    | End(group: seq<Stage>)
    | AndThen(group: seq<Stage>, rest: Script)
    | OrElse(group: seq<Stage>, rest: Script)
    | Stray(group: seq<Stage>, cds: seq<Option<string>>, dir: Option<string>)

  predicate Commands(g: seq<Stage>) {
    forall i :: 0 <= i < |g| ==> g[i].command.Command?
  }

  predicate Proper(s: Script) {
    match s
    case End(g) => Commands(g) && g != []
    case AndThen(g, rest) => Commands(g) && g != [] && Proper(rest)
    case OrElse(g, rest) => Commands(g) && g != [] && Proper(rest)
    case Stray(g, _, _) => Commands(g)
  }

  /** A script of which the first commands of the first group may have been launched already. */
  predicate UnderWay(s: Script) {
    match s
    case End(g) => Commands(g)
    case AndThen(g, rest) => Commands(g) && Proper(rest)
    case OrElse(g, rest) => Commands(g) && Proper(rest)
    case Stray(g, _, _) => Commands(g)
  }

  function WithGroup(s: Script, g: seq<Stage>): Script {
    match s
    case End(_) => End(g)
    case AndThen(_, rest) => AndThen(g, rest)
    case OrElse(_, rest) => OrElse(g, rest)
    case Stray(_, cds, dir) => Stray(g, cds, dir)
  }

  function CdNodes(cds: seq<Option<string>>, tail: seq<Node>): seq<Node> {
    if cds == [] then tail else [Chdir(cds[0])] + ([AndOp] + CdNodes(cds[1..], tail))
  }

  function GroupNodes(g: seq<Stage>, tail: seq<Node>): seq<Node>
    requires g != []
  {
    CdNodes(g[0].cds, [g[0].command] + if |g| == 1 then tail else [PipeOp] + GroupNodes(g[1..], tail))
  }

  /** The nodes after the first pipe group. */
  function AfterGroup(s: Script): seq<Node>
    requires UnderWay(s)
    decreases s, 0
  {
    match s
    case End(_) => []
    case AndThen(_, rest) => [AndOp] + Nodes(rest)
    case OrElse(_, rest) => [OrOp] + Nodes(rest)
    case Stray(g, cds, dir) => (if g == [] then [] else [PipeOp]) + CdNodes(cds, [Chdir(dir)])
  }

  /** The node list of a script. */
  function Nodes(s: Script): seq<Node>
    requires Proper(s)
    decreases s, 1
  {
    if s.group == [] then AfterGroup(s) else GroupNodes(s.group, AfterGroup(s))
  }

  // ---------------------------------------------------------------- the evaluator

  datatype Source = Inherited | PreviousOutput | FromFile(file: string)

  /** What Popen is called with. */
  datatype Launch = Launch(argv: seq<string>, stdin: Source, stdout: Output, stderr: ErrorOutput,
                           env: map<string, string>, cwd: Option<string>)

  datatype Outcome = Exit(status: int) | IndexError | TypeError

  datatype Result = Result(outcome: Outcome, launches: seq<Launch>)

  /** os.path.join on POSIX. */
  function Join(a: string, b: string): string {
    if b != [] && b[0] == '/' then b
    else if a == [] || a[|a| - 1] == '/' then a + b
    else a + "/" + b
  }

  function LaunchOf(c: Node, piped: bool, cwd: string): Launch
    requires c.Command?
  {
    Launch(c.argv,
           if piped then PreviousOutput else if c.stdin.Some? then FromFile(c.stdin.value) else Inherited,
           c.stdout, c.stderr, c.env, if cwd == "." then None else Some(cwd))
  }

  /** The directory after the changes; None where a change names no directory. */
  function Enter(cds: seq<Option<string>>, cwd: string): Option<string>
    decreases |cds|
  {
    if cds == [] then Some(cwd)
    else if cds[0] == None then None
    else Enter(cds[1..], Join(cwd, cds[0].value))
  }

  datatype Progress = Progress(ok: bool, cwd: string, launches: seq<Launch>)

  /** Launches the stages of a pipe group, each reading from the one before. */
  function EvalGroup(g: seq<Stage>, piped: bool, cwd: string, launches: seq<Launch>): (p: Progress)
    requires Commands(g)
    ensures p.ok ==> |p.launches| == |launches| + |g|
    decreases |g|
  {
    if g == [] then Progress(true, cwd, launches)
    else
      var dir := Enter(g[0].cds, cwd);
      if dir == None then Progress(false, cwd, launches)
      else EvalGroup(g[1..], true, dir.value, launches + [LaunchOf(g[0].command, piped, dir.value)])
  }

  /** status(i) is the exit status of the i-th process launched. A group's status is that of its last command; && and
      || decide on it whether the whole rest is run. */
  function Eval(s: Script, piped: bool, cwd: string, launches: seq<Launch>, status: nat -> int): Result
    requires UnderWay(s) && (s.group == [] && !s.Stray? ==> launches != [])
    decreases s
  {
    var p := EvalGroup(s.group, piped, cwd, launches);
    if !p.ok then Result(TypeError, p.launches)
    else
      match s
      case End(_) => Result(Exit(status(|p.launches| - 1)), p.launches)
      case AndThen(_, rest) =>
        var r := status(|p.launches| - 1);
        if r != 0 then Result(Exit(r), p.launches) else Eval(rest, false, p.cwd, p.launches, status)
      case OrElse(_, rest) =>
        var r := status(|p.launches| - 1);
        if r == 0 then Result(Exit(r), p.launches) else Eval(rest, false, p.cwd, p.launches, status)
      case Stray(_, cds, dir) =>
        Result(if Enter(cds, p.cwd) == None then TypeError else IndexError, p.launches)
  }

  // ---------------------------------------------------------------- the loop

  /** The nodes x, y and the rest, as the loop pops them. */
  ghost predicate Pops(nodes: seq<Node>, x: Node, y: Node, rest: seq<Node>) {
    |nodes| >= 2 && nodes[0] == x && nodes[1..][0] == y && nodes[1..][1..] == rest
  }

  lemma PopsTwo(x: Node, y: Node, rest: seq<Node>)
    ensures Pops([x] + ([y] + rest), x, y, rest)
  {
    var nodes := [x] + ([y] + rest);
    assert nodes[1..] == [y] + rest;
  }

  lemma PopStage(s: Script, piped: bool, cwd: string, launches: seq<Launch>, status: nat -> int)
    requires Proper(s) && s.group != [] && s.group[0].cds == []
    ensures UnderWay(WithGroup(s, s.group[1..]))
    ensures var t, c := WithGroup(s, s.group[1..]), s.group[0].command;
            && Eval(s, piped, cwd, launches, status) == Eval(t, true, cwd, launches + [LaunchOf(c, piped, cwd)], status)
            && if t.group != [] || s.Stray? then Pops(Nodes(s), c, PipeOp, Nodes(t))
               else if s.End? then Nodes(s) == [c]
               else Pops(Nodes(s), c, if s.AndThen? then AndOp else OrOp, Nodes(s.rest))
  {
    var t, c := WithGroup(s, s.group[1..]), s.group[0].command;
    TailUnderWay(s);
    PopStageNodes(s);
    PopStageEval(s, piped, cwd, launches, status);
    if t.group != [] || s.Stray? {
      PopsTwo(c, PipeOp, Nodes(t));
    } else if !s.End? {
      PopsTwo(c, if s.AndThen? then AndOp else OrOp, Nodes(s.rest));
    }
  }

  lemma TailUnderWay(s: Script)
    requires Proper(s) && s.group != []
    ensures UnderWay(WithGroup(s, s.group[1..]))
  {}

  lemma PopStageNodes(s: Script)
    requires Proper(s) && s.group != [] && s.group[0].cds == [] && UnderWay(WithGroup(s, s.group[1..]))
    ensures var g := s.group[1..];
            Nodes(s) == [s.group[0].command]
                        + (if g != [] || s.Stray? then [PipeOp] + Nodes(WithGroup(s, g)) else AfterGroup(s))
  {
    GroupHead(s.group, AfterGroup(s));
    var g := s.group[1..];
    if g != [] {
      assert AfterGroup(WithGroup(s, g)) == AfterGroup(s);
    }
  }

  lemma GroupHead(g: seq<Stage>, tail: seq<Node>)
    requires g != [] && g[0].cds == []
    ensures GroupNodes(g, tail) == [g[0].command] + if |g| == 1 then tail else [PipeOp] + GroupNodes(g[1..], tail)
  {}

  lemma PopStageEval(s: Script, piped: bool, cwd: string, launches: seq<Launch>, status: nat -> int)
    requires Proper(s) && s.group != [] && s.group[0].cds == [] && UnderWay(WithGroup(s, s.group[1..]))
    ensures Eval(s, piped, cwd, launches, status)
         == Eval(WithGroup(s, s.group[1..]), true, cwd, launches + [LaunchOf(s.group[0].command, piped, cwd)], status)
  {}

  ghost predicate StartsWithCd(s: Script)
    requires Proper(s)
  {
    if s.group == [] then s.cds != [] else s.group[0].cds != []
  }

  ghost function FirstCd(s: Script): Option<string>
    requires Proper(s) && StartsWithCd(s)
  {
    if s.group == [] then s.cds[0] else s.group[0].cds[0]
  }

  ghost function DropCd(s: Script): Script
    requires Proper(s) && StartsWithCd(s)
  {
    if s.group == [] then Stray([], s.cds[1..], s.dir)
    else WithGroup(s, [Stage(s.group[0].cds[1..], s.group[0].command)] + s.group[1..])
  }

  lemma PopCd(s: Script, piped: bool, cwd: string, launches: seq<Launch>, status: nat -> int)
    requires Proper(s) && StartsWithCd(s)
    ensures Proper(DropCd(s)) && Pops(Nodes(s), Chdir(FirstCd(s)), AndOp, Nodes(DropCd(s)))
    ensures Eval(s, piped, cwd, launches, status) ==
            if FirstCd(s) == None then Result(TypeError, launches)
            else Eval(DropCd(s), piped, Join(cwd, FirstCd(s).value), launches, status)
  {
    PopCdNodes(s);
    PopsTwo(Chdir(FirstCd(s)), AndOp, Nodes(DropCd(s)));
    if s.group != [] {
      assert DropCd(s).group[1..] == s.group[1..];
    }
  }

  lemma PopCdNodes(s: Script)
    requires Proper(s) && StartsWithCd(s)
    ensures Proper(DropCd(s)) && Nodes(s) == [Chdir(FirstCd(s))] + ([AndOp] + Nodes(DropCd(s)))
  {
    if s.group != [] {
      var t := DropCd(s);
      assert t.group[1..] == s.group[1..];
      assert AfterGroup(t) == AfterGroup(s);
    }
  }

  lemma StrayEnd(s: Script, piped: bool, cwd: string, launches: seq<Launch>, status: nat -> int)
    requires Proper(s) && s.group == [] && !StartsWithCd(s)
    ensures Nodes(s) == [Chdir(s.dir)]
    ensures Eval(s, piped, cwd, launches, status) == Result(IndexError, launches)
  {}

  // ---------------------------------------------------------------- what a run does, in terms of the nodes alone

  /** Where the commands among the first c nodes are. */
  ghost function Positions(nodes: seq<Node>, c: nat): (pos: seq<nat>)
    requires c <= |nodes|
    ensures AreCommands(nodes, pos)
  {
    if c == 0 then []
    else Positions(nodes, c - 1) + if nodes[c - 1].Command? then [c - 1] else []
  }

  ghost predicate AreCommands(nodes: seq<Node>, pos: seq<nat>) {
    forall j :: 0 <= j < |pos| ==> pos[j] < |nodes| && nodes[pos[j]].Command?
  }

  /** The directory that the changes among the first c nodes lead to. */
  ghost function DirAt(nodes: seq<Node>, c: nat): string
    requires c <= |nodes|
  {
    if c == 0 then "."
    else if nodes[c - 1].Chdir? && nodes[c - 1].dir.Some? then Join(DirAt(nodes, c - 1), nodes[c - 1].dir.value)
    else DirAt(nodes, c - 1)
  }

  /** The n-th command is there, and a pipe follows it. */
  ghost predicate PipeFollows(nodes: seq<Node>, pos: seq<nat>, n: int) {
    0 <= n < |pos| && pos[n] + 1 < |nodes| && nodes[pos[n] + 1].PipeOp?
  }

  /** The launch is of the command node at c, with its words, variables and outputs. It reads from the process before it
      if it is reached through a pipe, and else from the node's file, if it has one. */
  ghost predicate IsLaunchOf(nodes: seq<Node>, c: nat, piped: bool, l: Launch)
    requires c < |nodes| && nodes[c].Command?
  {
    && l.argv == nodes[c].argv && l.env == nodes[c].env
    && l.stdout == nodes[c].stdout && l.stderr == nodes[c].stderr
    && (l.stdin == PreviousOutput <==> piped)
    && (l.stdin.FromFile? <==> !piped && nodes[c].stdin.Some?)
    && (l.stdin.FromFile? ==> nodes[c].stdin == Some(l.stdin.file))
    && (if DirAt(nodes, c) == "." then l.cwd == None else l.cwd == Some(DirAt(nodes, c)))
  }

  /** What the j-th of the commands was launched as. */
  ghost predicate LaunchedAt(nodes: seq<Node>, pos: seq<nat>, j: nat, l: Launch)
    requires AreCommands(nodes, pos) && j < |pos|
  {
    IsLaunchOf(nodes, pos[j], PipeFollows(nodes, pos, j - 1), l)
  }

  /** One launch for each of the commands, in order. */
  ghost predicate Launched(nodes: seq<Node>, pos: seq<nat>, launches: seq<Launch>)
    requires AreCommands(nodes, pos)
  {
    && |launches| == |pos|
    && forall j {:trigger launches[j]} :: 0 <= j < |pos| ==> LaunchedAt(nodes, pos, j, launches[j])
  }

  /** After a command that returned this status, the operator lets the run go on. */
  ghost predicate LetsGoOn(op: Node, status: int) {
    op.PipeOp? || (op.AndOp? && status == 0) || (op.OrOp? && status != 0)
  }

  ghost predicate AllLetGoOn(nodes: seq<Node>, pos: seq<nat>, status: nat -> int) {
    forall j :: 0 <= j < |pos| ==> pos[j] + 1 < |nodes| && LetsGoOn(nodes[pos[j] + 1], status(j))
  }

  ghost predicate AllNamed(nodes: seq<Node>, c: nat)
    requires c <= |nodes|
  {
    forall k :: 0 <= k < c && nodes[k].Chdir? ==> nodes[k].dir.Some?
  }

  /** The run has gone past the first c nodes. */
  ghost predicate Past(nodes: seq<Node>, c: nat, launches: seq<Launch>, status: nat -> int) {
    && c <= |nodes| && AllNamed(nodes, c) && AllLetGoOn(nodes, Positions(nodes, c), status)
    && Launched(nodes, Positions(nodes, c), launches)
  }

  /** The run ends at node e: at a directory change that is last or names no directory, or at a command that is last or
      whose status does not let the run go on. */
  ghost predicate EndsAt(nodes: seq<Node>, e: nat, r: Result, status: nat -> int) {
    && e < |nodes| && AllNamed(nodes, e) && AllLetGoOn(nodes, Positions(nodes, e), status)
    && Launched(nodes, Positions(nodes, e + 1), r.launches)
    && if nodes[e].Chdir? then
         if e + 1 == |nodes| then r.outcome == IndexError else nodes[e].dir == None && r.outcome == TypeError
       else
         && nodes[e].Command? && r.launches != [] && r.outcome == Exit(status(|r.launches| - 1))
         && (e + 1 == |nodes| || !LetsGoOn(nodes[e + 1], status(|r.launches| - 1)))
  }

  /** The nodes from c on are those of the script, and the run has gone past those before. */
  ghost predicate UpTo(nodes: seq<Node>, c: nat, s: Script, piped: bool, launches: seq<Launch>, status: nat -> int) {
    && Proper(s) && Past(nodes, c, launches, status) && nodes[c..] == Nodes(s)
    && piped == PipeFollows(nodes, Positions(nodes, c), |launches| - 1)
  }

  lemma PopsAt(nodes: seq<Node>, c: nat, x: Node, y: Node, rest: seq<Node>)
    requires c <= |nodes| && Pops(nodes[c..], x, y, rest)
    ensures c + 1 < |nodes| && nodes[c] == x && nodes[c + 1] == y && nodes[c + 2..] == rest
  {
    assert nodes[c..][1..] == nodes[c + 1..] && nodes[c + 1..][1..] == nodes[c + 2..];
  }

  lemma PassCd(nodes: seq<Node>, c: nat, launches: seq<Launch>, status: nat -> int)
    requires c + 1 < |nodes| && nodes[c].Chdir? && nodes[c].dir.Some? && nodes[c + 1].AndOp?
    requires Past(nodes, c, launches, status)
    ensures Past(nodes, c + 2, launches, status) && Positions(nodes, c + 2) == Positions(nodes, c)
    ensures DirAt(nodes, c + 2) == Join(DirAt(nodes, c), nodes[c].dir.value)
  {
    PositionsAfterPair(nodes, c);
    DirAfterPair(nodes, c);
  }

  lemma PositionsAfterPair(nodes: seq<Node>, c: nat)
    requires c + 1 < |nodes| && !nodes[c + 1].Command?
    ensures Positions(nodes, c + 2) == Positions(nodes, c + 1)
    ensures Positions(nodes, c + 1) == Positions(nodes, c) + if nodes[c].Command? then [c] else []
  {}

  lemma DirAfterPair(nodes: seq<Node>, c: nat)
    requires c + 1 < |nodes| && !nodes[c + 1].Chdir?
    ensures DirAt(nodes, c + 2) == DirAt(nodes, c + 1)
    ensures DirAt(nodes, c + 1)
         == if nodes[c].Chdir? && nodes[c].dir.Some? then Join(DirAt(nodes, c), nodes[c].dir.value)
            else DirAt(nodes, c)
  {}

  lemma LaunchedStill(nodes: seq<Node>, pos: seq<nat>, c: nat, j: nat, l: Launch)
    requires AreCommands(nodes, pos) && j < |pos| && c < |nodes| && nodes[c].Command? && LaunchedAt(nodes, pos, j, l)
    ensures AreCommands(nodes, pos + [c]) && LaunchedAt(nodes, pos + [c], j, l)
  {}

  lemma LaunchedLast(nodes: seq<Node>, pos: seq<nat>, c: nat)
    requires AreCommands(nodes, pos) && c < |nodes| && nodes[c].Command?
    ensures AreCommands(nodes, pos + [c])
    ensures LaunchedAt(nodes, pos + [c], |pos|, LaunchOf(nodes[c], PipeFollows(nodes, pos, |pos| - 1), DirAt(nodes, c)))
  {}

  lemma LaunchOne(nodes: seq<Node>, pos: seq<nat>, c: nat, piped: bool, launches: seq<Launch>)
    requires c < |nodes| && nodes[c].Command? && AreCommands(nodes, pos) && Launched(nodes, pos, launches)
    requires piped == PipeFollows(nodes, pos, |launches| - 1)
    ensures AreCommands(nodes, pos + [c])
    ensures Launched(nodes, pos + [c], launches + [LaunchOf(nodes[c], piped, DirAt(nodes, c))])
  {
    var all := launches + [LaunchOf(nodes[c], piped, DirAt(nodes, c))];
    LaunchedLast(nodes, pos, c);
    forall j: nat {:trigger all[j]} | j < |pos|
      ensures LaunchedAt(nodes, pos + [c], j, all[j])
    {
      LaunchedStill(nodes, pos, c, j, launches[j]);
    }
  }

  lemma LetOneGoOn(nodes: seq<Node>, pos: seq<nat>, c: nat, status: nat -> int)
    requires AllLetGoOn(nodes, pos, status) && c + 1 < |nodes| && LetsGoOn(nodes[c + 1], status(|pos|))
    ensures AllLetGoOn(nodes, pos + [c], status)
  {}

  lemma PassCommand(nodes: seq<Node>, c: nat, piped: bool, launches: seq<Launch>, status: nat -> int)
    requires c + 1 < |nodes| && nodes[c].Command? && !nodes[c + 1].Command? && !nodes[c + 1].Chdir?
    requires Past(nodes, c, launches, status) && piped == PipeFollows(nodes, Positions(nodes, c), |launches| - 1)
    requires LetsGoOn(nodes[c + 1], status(|launches|))
    ensures Past(nodes, c + 2, launches + [LaunchOf(nodes[c], piped, DirAt(nodes, c))], status)
    ensures Positions(nodes, c + 2) == Positions(nodes, c) + [c] && DirAt(nodes, c + 2) == DirAt(nodes, c)
  {
    PositionsAfterPair(nodes, c);
    LaunchOne(nodes, Positions(nodes, c), c, piped, launches);
    LetOneGoOn(nodes, Positions(nodes, c), c, status);
  }

  /** The run goes on after the command at c. */
  lemma UpToNext(nodes: seq<Node>, c: nat, s: Script, piped: bool, launches: seq<Launch>, status: nat -> int)
    requires c + 1 < |nodes| && nodes[c].Command? && !nodes[c + 1].Command? && !nodes[c + 1].Chdir?
    requires Past(nodes, c, launches, status) && piped == PipeFollows(nodes, Positions(nodes, c), |launches| - 1)
    requires LetsGoOn(nodes[c + 1], status(|launches|)) && Proper(s) && nodes[c + 2..] == Nodes(s)
    ensures UpTo(nodes, c + 2, s, nodes[c + 1].PipeOp?, launches + [LaunchOf(nodes[c], piped, DirAt(nodes, c))], status)
    ensures DirAt(nodes, c + 2) == DirAt(nodes, c)
  {
    PassCommand(nodes, c, piped, launches, status);
  }

  /** The run ends at the command at c. */
  lemma EndsHere(nodes: seq<Node>, c: nat, piped: bool, launches: seq<Launch>, status: nat -> int)
    requires c < |nodes| && nodes[c].Command?
    requires Past(nodes, c, launches, status) && piped == PipeFollows(nodes, Positions(nodes, c), |launches| - 1)
    requires c + 1 == |nodes| || !LetsGoOn(nodes[c + 1], status(|launches|))
    ensures var l := launches + [LaunchOf(nodes[c], piped, DirAt(nodes, c))];
            EndsAt(nodes, c, Result(Exit(status(|launches|)), l), status)
  {
    LaunchOne(nodes, Positions(nodes, c), c, piped, launches);
  }

  lemma EndsStray(nodes: seq<Node>, c: nat, s: Script, piped: bool, launches: seq<Launch>, status: nat -> int)
    requires UpTo(nodes, c, s, piped, launches, status) && s.group == [] && !StartsWithCd(s)
    ensures EndsAt(nodes, c, Eval(s, piped, DirAt(nodes, c), launches, status), status)
  {
    StrayEnd(s, piped, DirAt(nodes, c), launches, status);
    assert nodes[c..][0] == nodes[c] && c + 1 == |nodes|;
    assert Positions(nodes, c + 1) == Positions(nodes, c);
  }

  /** What the evaluator does when it has launched the last command of a group. */
  lemma LastOfGroup(s: Script, piped: bool, cwd: string, launches: seq<Launch>, status: nat -> int)
    requires Proper(s) && |s.group| == 1 && s.group[0].cds == [] && !s.Stray?
    ensures Eval(s, piped, cwd, launches, status)
         == var l := launches + [LaunchOf(s.group[0].command, piped, cwd)];
            if !s.End? && LetsGoOn(if s.AndThen? then AndOp else OrOp, status(|launches|)) then
              Eval(s.rest, false, cwd, l, status)
            else Result(Exit(status(|launches|)), l)
  {
    PopStageEval(s, piped, cwd, launches, status);
  }

  lemma EndsBadly(nodes: seq<Node>, c: nat, launches: seq<Launch>, status: nat -> int)
    requires Past(nodes, c, launches, status) && c + 1 < |nodes| && nodes[c] == Chdir(None)
    ensures EndsAt(nodes, c, Result(TypeError, launches), status)
  {
    assert Positions(nodes, c + 1) == Positions(nodes, c);
  }

  /** What the evaluator does with the nodes that are left. */
  lemma {:induction false} Ends(nodes: seq<Node>, c: nat, s: Script, piped: bool, launches: seq<Launch>,
                                status: nat -> int) returns (e: nat)
    requires UpTo(nodes, c, s, piped, launches, status)
    ensures EndsAt(nodes, e, Eval(s, piped, DirAt(nodes, c), launches, status), status)
    decreases |nodes| - c, 1
  {
    if s.group == [] && !StartsWithCd(s) {
      EndsStray(nodes, c, s, piped, launches, status);
      e := c;
    } else if StartsWithCd(s) {
      e := EndsFromCd(nodes, c, s, piped, launches, status);
    } else if |s.group| > 1 || s.Stray? {
      e := EndsFromPipe(nodes, c, s, piped, launches, status);
    } else {
      e := EndsFromLast(nodes, c, s, piped, launches, status);
    }
  }

  /** The first node of a script that starts with a directory change, and the script after it. */
  lemma CdAt(nodes: seq<Node>, c: nat, s: Script)
    requires Proper(s) && StartsWithCd(s) && c <= |nodes| && nodes[c..] == Nodes(s)
    ensures Proper(DropCd(s)) && c + 1 < |nodes| && nodes[c] == Chdir(FirstCd(s)) && nodes[c + 1] == AndOp
    ensures nodes[c + 2..] == Nodes(DropCd(s))
  {
    PopCdNodes(s);
    PopsTwo(Chdir(FirstCd(s)), AndOp, Nodes(DropCd(s)));
    PopsAt(nodes, c, Chdir(FirstCd(s)), AndOp, Nodes(DropCd(s)));
  }

  lemma UpToAfterCd(nodes: seq<Node>, c: nat, s: Script, piped: bool, launches: seq<Launch>, status: nat -> int)
    requires UpTo(nodes, c, s, piped, launches, status) && StartsWithCd(s) && FirstCd(s).Some?
    ensures Proper(DropCd(s)) && UpTo(nodes, c + 2, DropCd(s), piped, launches, status)
    ensures DirAt(nodes, c + 2) == Join(DirAt(nodes, c), FirstCd(s).value)
  {
    CdAt(nodes, c, s);
    PassCd(nodes, c, launches, status);
  }

  lemma {:induction false} EndsFromCd(nodes: seq<Node>, c: nat, s: Script, piped: bool, launches: seq<Launch>,
                                      status: nat -> int) returns (e: nat)
    requires UpTo(nodes, c, s, piped, launches, status) && StartsWithCd(s)
    ensures EndsAt(nodes, e, Eval(s, piped, DirAt(nodes, c), launches, status), status)
    decreases |nodes| - c, 0
  {
    PopCd(s, piped, DirAt(nodes, c), launches, status);
    if FirstCd(s) == None {
      CdAt(nodes, c, s);
      EndsBadly(nodes, c, launches, status);
      e := c;
    } else {
      UpToAfterCd(nodes, c, s, piped, launches, status);
      e := Ends(nodes, c + 2, DropCd(s), piped, launches, status);
    }
  }

  lemma {:induction false} EndsFromPipe(nodes: seq<Node>, c: nat, s: Script, piped: bool, launches: seq<Launch>,
                                        status: nat -> int) returns (e: nat)
    requires UpTo(nodes, c, s, piped, launches, status)
    requires s.group != [] && s.group[0].cds == [] && (|s.group| > 1 || s.Stray?)
    ensures EndsAt(nodes, e, Eval(s, piped, DirAt(nodes, c), launches, status), status)
    decreases |nodes| - c, 0
  {
    var command, t := s.group[0].command, WithGroup(s, s.group[1..]);
    PopStage(s, piped, DirAt(nodes, c), launches, status);
    PopsAt(nodes, c, command, PipeOp, Nodes(t));
    UpToNext(nodes, c, t, piped, launches, status);
    e := Ends(nodes, c + 2, t, true, launches + [LaunchOf(command, piped, DirAt(nodes, c))], status);
  }

  lemma {:induction false} EndsFromLast(nodes: seq<Node>, c: nat, s: Script, piped: bool, launches: seq<Launch>,
                                        status: nat -> int) returns (e: nat)
    requires UpTo(nodes, c, s, piped, launches, status) && |s.group| == 1 && s.group[0].cds == [] && !s.Stray?
    ensures EndsAt(nodes, e, Eval(s, piped, DirAt(nodes, c), launches, status), status)
    decreases |nodes| - c, 0
  {
    var command := s.group[0].command;
    LastNodes(nodes, c, s);
    LastOfGroup(s, piped, DirAt(nodes, c), launches, status);
    if s.End? || !LetsGoOn(nodes[c + 1], status(|launches|)) {
      EndsHere(nodes, c, piped, launches, status);
      e := c;
    } else {
      UpToNext(nodes, c, s.rest, piped, launches, status);
      e := Ends(nodes, c + 2, s.rest, false, launches + [LaunchOf(command, piped, DirAt(nodes, c))], status);
    }
  }

  lemma LastNodes(nodes: seq<Node>, c: nat, s: Script)
    requires Proper(s) && |s.group| == 1 && s.group[0].cds == [] && !s.Stray? && c < |nodes| && nodes[c..] == Nodes(s)
    ensures nodes[c] == s.group[0].command && (s.End? ==> c + 1 == |nodes|)
    ensures !s.End? ==> c + 1 < |nodes| && nodes[c + 1] == (if s.AndThen? then AndOp else OrOp)
                        && nodes[c + 2..] == Nodes(s.rest)
  {
    PopStage(s, false, ".", [], i => 0);
    if s.End? {
      assert nodes[c..][0] == nodes[c];
    } else {
      PopsAt(nodes, c, s.group[0].command, if s.AndThen? then AndOp else OrOp, Nodes(s.rest));
    }
  }

  /** The evaluator's run of a script, in terms of its nodes. */
  lemma RunEnds(nodes: seq<Node>, script: Script, status: nat -> int)
    requires Proper(script) && nodes == Nodes(script)
    ensures exists e :: EndsAt(nodes, e, Eval(script, false, ".", [], status), status)
  {
    NotEmpty(script);
    assert nodes[0..] == nodes;
    var e := Ends(nodes, 0, script, false, [], status);
  }

  lemma NotEmpty(s: Script)
    requires Proper(s)
    ensures Nodes(s) != []
  {
    if StartsWithCd(s) {
      PopCdNodes(s);
    } else if s.group != [] {
      PopStageNodes(s);
    }
  }

  lemma {:induction false} PositionsPrefix(nodes: seq<Node>, c: nat, e: nat)
    requires c < e <= |nodes| && nodes[c].Command?
    ensures |Positions(nodes, c)| < |Positions(nodes, e)| && Positions(nodes, e)[|Positions(nodes, c)|] == c
    decreases e
  {
    if c < e - 1 {
      PositionsPrefix(nodes, c, e - 1);
    }
  }

  /** The nodes and the statuses determine where a run ends and what it does. */
  lemma EndsOnce(nodes: seq<Node>, e: nat, r: Result, f: nat, q: Result, status: nat -> int)
    requires EndsAt(nodes, e, r, status) && EndsAt(nodes, f, q, status)
    ensures e == f && r == q
  {
    EndsNoLater(nodes, e, r, f, q, status);
    EndsNoLater(nodes, f, q, e, r, status);
    forall j | 0 <= j < |r.launches|
      ensures r.launches[j] == q.launches[j]
    {
      SameLaunch(nodes, Positions(nodes, e + 1), j, r.launches[j], q.launches[j]);
    }
  }

  lemma SameLaunch(nodes: seq<Node>, pos: seq<nat>, j: nat, l: Launch, m: Launch)
    requires AreCommands(nodes, pos) && j < |pos| && LaunchedAt(nodes, pos, j, l) && LaunchedAt(nodes, pos, j, m)
    ensures l == m
  {}

  lemma EndsNoLater(nodes: seq<Node>, e: nat, r: Result, f: nat, q: Result, status: nat -> int)
    requires EndsAt(nodes, e, r, status) && EndsAt(nodes, f, q, status)
    ensures f <= e
  {
    if e < f && nodes[e].Command? {
      PositionsPrefix(nodes, e, f);
    }
  }

  /** In what the parser returns, a process reads from the one before it exactly when that one writes to a pipe. */
  lemma PipesConnect(nodes: seq<Node>, e: nat, r: Result, status: nat -> int, j: nat)
    requires Canonical(nodes) && EndsAt(nodes, e, r, status) && j < |r.launches|
    ensures r.launches[j].stdin == PreviousOutput <==> j > 0 && r.launches[j - 1].stdout == PIPE
  {
    var pos := Positions(nodes, e + 1);
    assert LaunchedAt(nodes, pos, j, r.launches[j]);
    if j > 0 {
      assert LaunchedAt(nodes, pos, j - 1, r.launches[j - 1]);
      PipeIffPiped(nodes, pos[j - 1]);
    }
  }

  /** A command writes to a pipe exactly when a pipe follows it. */
  lemma PipeIffPiped(nodes: seq<Node>, c: nat)
    requires Canonical(nodes) && c < |nodes| && nodes[c].Command?
    ensures nodes[c].stdout == PIPE <==> c + 1 < |nodes| && nodes[c + 1].PipeOp?
  {
    CanonicalAlternates(nodes, c);
    if c < |nodes| - 1 {
      OpenListPairs(nodes[..|nodes| - 1], c / 2);
    }
  }

  /** Joining paths: an absolute one stands by itself, and else exactly one slash is added where one is missing. */
  lemma JoinedPaths(a: string, b: string)
    ensures b != "" && b[0] == '/' ==> Join(a, b) == b
    ensures !(b != "" && b[0] == '/') ==>
              && a <= Join(a, b) && |Join(a, b)| >= |b| && Join(a, b)[|Join(a, b)| - |b|..] == b
              && |Join(a, b)| == |a| + |b| + (if a != "" && a[|a| - 1] != '/' then 1 else 0)
              && (a != "" ==> |Join(a, b)| > |b| && Join(a, b)[|Join(a, b)| - |b| - 1] == '/')
  {}

  /** _exec_piped_commands: waits for every process of the group. Its result is the status of the last one. */
  method ExecPipedCommands(processes: seq<nat>, status: nat -> int) returns (retval: int)
    requires processes != []
    ensures retval == status(processes[|processes| - 1])
  {
    var retvals := [];
    for i := 0 to |processes|
      invariant |retvals| == i && forall j :: 0 <= j < i ==> retvals[j] == status(processes[j])
    {
      retvals := retvals + [status(processes[i])];
    }
    retval := 0;
    for i := 0 to |retvals|
      invariant retval == 0 && forall j :: 0 <= j < i ==> retvals[j] == 0
    {
      if retvals[i] != 0 {
        return retvals[|retvals| - 1];
      }
    }
  }

  /** run: the loop that pops nodes, on the node list of any script, does what the evaluator does. A node list that
      parse returns is never empty, so the loop is left by a return or an exception. */
  method Run(nodes: seq<Node>, status: nat -> int, ghost script: Script) returns (r: Result)
    requires Proper(script) && nodes == Nodes(script)
    ensures r == Eval(script, false, ".", [], status)
    ensures exists e :: EndsAt(nodes, e, r, status)
  {
    RunEnds(nodes, script, status);
    var pipeline, pipedCommands: seq<nat>, inPipe, cwd, launches: seq<Launch> := nodes, [], false, ".", [];
    ghost var rest, target := script, Eval(script, false, ".", [], status);
    while true
      invariant Proper(rest) && pipeline == Nodes(rest)
      invariant Eval(rest, inPipe, cwd, launches, status) == target
      invariant inPipe ==> pipedCommands != []
      decreases |pipeline|
    {
      if rest.group == [] && !StartsWithCd(rest) {
        StrayEnd(rest, inPipe, cwd, launches, status);
      } else if StartsWithCd(rest) {
        PopCd(rest, inPipe, cwd, launches, status);
      } else {
        PopStage(rest, inPipe, cwd, launches, status);
      }
      var node := pipeline[0];
      pipeline := pipeline[1..];
      if node.Chdir? {
        if pipeline == [] {
          return Result(IndexError, launches);
        }
        assert pipeline[0] == AndOp;
        pipeline := pipeline[1..];
        if node.dir == None {
          return Result(TypeError, launches);
        }
        cwd := Join(cwd, node.dir.value);
        rest := DropCd(rest);
        continue;
      }
      ghost var after := WithGroup(rest, rest.group[1..]);
      pipedCommands := pipedCommands + [|launches|];
      launches := launches + [LaunchOf(node, inPipe, cwd)];
      if pipeline == [] {
        var retval := ExecPipedCommands(pipedCommands, status);
        return Result(Exit(retval), launches);
      }
      var next := pipeline[0];
      pipeline := pipeline[1..];
      if next.PipeOp? {
        inPipe := true;
        rest := after;
      } else if next.OrOp? {
        var thisRetval := ExecPipedCommands(pipedCommands, status);
        if thisRetval == 0 {
          return Result(Exit(thisRetval), launches);
        }
        inPipe, pipedCommands := false, [];
        rest := after.rest;
      } else {
        var thisRetval := ExecPipedCommands(pipedCommands, status);
        if thisRetval != 0 {
          return Result(Exit(thisRetval), launches);
        }
        inPipe, pipedCommands := false, [];
        rest := after.rest;
      }
    }
  }

  // ---------------------------------------------------------------- every parsed list is the node list of a script

  ghost predicate Alternating(nodes: seq<Node>) {
    && |nodes| % 2 == 1
    && (forall i :: 0 <= i < |nodes| ==> (nodes[i].Command? || nodes[i].Chdir? <==> i % 2 == 0))
    && (forall i :: 0 <= i < |nodes| - 1 && nodes[i].Chdir? ==> nodes[i + 1] == AndOp)
  }

  /** The script that starts with one more directory change. */
  ghost function AddCd(dir: Option<string>, s: Script): Script
    requires Proper(s)
  {
    if s.group == [] then Stray([], [dir] + s.cds, s.dir)
    else WithGroup(s, [Stage([dir] + s.group[0].cds, s.group[0].command)] + s.group[1..])
  }

  lemma AddCdNodes(dir: Option<string>, s: Script)
    requires Proper(s)
    ensures Proper(AddCd(dir, s)) && Nodes(AddCd(dir, s)) == [Chdir(dir)] + ([AndOp] + Nodes(s))
  {
    var t := AddCd(dir, s);
    assert s.group != [] ==> t.group[1..] == s.group[1..] && t.group[0].cds[1..] == s.group[0].cds;
    assert s.group == [] ==> t.cds[1..] == s.cds;
    DropAdded(dir, s);
    PopCdNodes(t);
  }

  lemma DropAdded(dir: Option<string>, s: Script)
    requires Proper(s)
    ensures Proper(AddCd(dir, s)) && StartsWithCd(AddCd(dir, s)) && FirstCd(AddCd(dir, s)) == dir
    ensures DropCd(AddCd(dir, s)) == s
  {
    if s.group != [] {
      assert [Stage(s.group[0].cds, s.group[0].command)] + s.group[1..] == s.group;
    }
  }

  lemma AddStageNodes(c: Node, s: Script)
    requires Proper(s) && c.Command?
    ensures Proper(WithGroup(s, [Stage([], c)] + s.group))
    ensures Nodes(WithGroup(s, [Stage([], c)] + s.group)) == [c] + ([PipeOp] + Nodes(s))
  {
    var t := WithGroup(s, [Stage([], c)] + s.group);
    assert t.group[1..] == s.group;
    TailUnderWay(t);
    assert WithGroup(t, t.group[1..]) == s;
    PopStageNodes(t);
  }

  lemma AlternatingTail(nodes: seq<Node>)
    requires Alternating(nodes) && |nodes| > 1
    ensures Alternating(nodes[2..]) && nodes == [nodes[0]] + ([nodes[1]] + nodes[2..])
    ensures nodes[1].PipeOp? || nodes[1].AndOp? || nodes[1].OrOp?
  {}

  lemma {:induction false} Structured(nodes: seq<Node>) returns (s: Script)
    requires Alternating(nodes)
    ensures Proper(s) && nodes == Nodes(s)
    decreases |nodes|
  {
    var n := nodes[0];
    if |nodes| == 1 {
      s := if n.Chdir? then Stray([], [], n.dir) else End([Stage([], n)]);
    } else {
      AlternatingTail(nodes);
      var rest := Structured(nodes[2..]);
      if n.Chdir? {
        AddCdNodes(n.dir, rest);
        s := AddCd(n.dir, rest);
      } else if nodes[1].PipeOp? {
        AddStageNodes(n, rest);
        s := WithGroup(rest, [Stage([], n)] + rest.group);
      } else if nodes[1].AndOp? {
        s := AndThen([Stage([], n)], rest);
      } else {
        s := OrElse([Stage([], n)], rest);
      }
    }
  }

  /** What the parser returns is the node list of a script, so Run applies to it. */
  lemma ParsedIsScript(tokens: seq<string>) returns (s: Script)
    requires Parse(tokens).Parsed?
    ensures Proper(s) && Parse(tokens).nodes == Nodes(s)
  {
    var nodes := Parse(tokens).nodes;
    ParseIsCanonical(tokens);
    forall i | 0 <= i < |nodes|
      ensures nodes[i].Command? || nodes[i].Chdir? <==> i % 2 == 0
      ensures nodes[i].Chdir? && i < |nodes| - 1 ==> nodes[i + 1] == AndOp
    {
      CanonicalAlternates(nodes, i);
    }
    CanonicalAlternates(nodes, 0);
    s := Structured(nodes);
  }

  // ---------------------------------------------------------------- AND-OR lists of the POSIX shell

  /** Every directory change names a directory and is the head of a pipe group, not a stage after a pipe. */
  ghost predicate HeadChanges(g: seq<Stage>) {
    && Commands(g) && g != []
    && (forall i :: 0 <= i < |g[0].cds| ==> g[0].cds[i].Some?)
    && (forall i :: 1 <= i < |g| ==> g[i].cds == [])
  }

  /** A list that a shell can run in the same way: its directory changes are commands of their own, none of them
      last. */
  ghost predicate IsList(s: Script) {
    HeadChanges(s.group)
    && match s
       case End(_) => true
       case AndThen(_, rest) => IsList(rest)
       case OrElse(_, rest) => IsList(rest)
       case Stray(_, _, _) => false
  }

  /** Whether the next command is run, the status so far, and the directory. */
  datatype Shell = Shell(go: bool, last: int, cwd: string)

  /** Directory changes, each a command that returns 0 and is followed by &&. */
  ghost function Change(cds: seq<Option<string>>, shell: Shell): Shell
    requires forall i :: 0 <= i < |cds| ==> cds[i].Some?
    decreases |cds|
  {
    if cds == [] then shell
    else if shell.go then Change(cds[1..], Shell(true, 0, Join(shell.cwd, cds[0].value)))
    else Change(cds[1..], shell.(go := shell.last == 0))
  }

  /** The pipe group without the directory changes at its head. */
  ghost function Bare(g: seq<Stage>): seq<Stage>
    requires HeadChanges(g)
  {
    [Stage([], g[0].command)] + g[1..]
  }

  /** && and || with equal precedence and left associativity (section 2.9.3 of the POSIX.1-2017 Shell Command
      Language): a command is skipped according to the status so far, and what comes after it is looked at again. */
  ghost function Posix(s: Script, start: Shell, launches: seq<Launch>, status: nat -> int): Result
    requires IsList(s)
    decreases s
  {
    var shell := Change(s.group[0].cds, start);
    var p := if shell.go then EvalGroup(Bare(s.group), false, shell.cwd, launches)
             else Progress(true, shell.cwd, launches);
    var r := if shell.go && p.launches != [] then status(|p.launches| - 1) else shell.last;
    match s
    case AndThen(_, rest) => Posix(rest, Shell(r == 0, r, shell.cwd), p.launches, status)
    case OrElse(_, rest) => Posix(rest, Shell(r != 0, r, shell.cwd), p.launches, status)
    case _ => Result(Exit(r), p.launches)
  }

  ghost predicate OnlyAnd(s: Script) {
    match s
    case AndThen(_, rest) => OnlyAnd(rest)
    case OrElse(_, _) => false
    case _ => true
  }

  ghost predicate OnlyOr(s: Script) {
    match s
    case OrElse(_, rest) => OnlyOr(rest)
    case AndThen(_, _) => false
    case _ => true
  }

  ghost predicate NoChange(s: Script)
    requires IsList(s)
  {
    s.group[0].cds == []
    && match s
       case AndThen(_, rest) => NoChange(rest)
       case OrElse(_, rest) => NoChange(rest)
       case _ => true
  }

  /** Groups joined by && only, with directory changes anywhere; or by || only, with none after the first group. */
  ghost predicate Uniform(s: Script)
    requires IsList(s)
  {
    OnlyAnd(s) || (OnlyOr(s) && (s.OrElse? ==> NoChange(s.rest)))
  }

  // ---------------------------------------------------------------- one pipe group

  lemma {:induction false} ChangesEnter(cds: seq<Option<string>>, shell: Shell)
    requires shell.go && forall i :: 0 <= i < |cds| ==> cds[i].Some?
    ensures Enter(cds, shell.cwd).Some?
    ensures Change(cds, shell).go && Change(cds, shell).cwd == Enter(cds, shell.cwd).value
    decreases |cds|
  {
    if cds != [] {
      ChangesEnter(cds[1..], Shell(true, 0, Join(shell.cwd, cds[0].value)));
    }
  }

  /** After a failure no directory is changed and nothing is run. */
  lemma {:induction false} StaysOff(cds: seq<Option<string>>, shell: Shell)
    requires !shell.go && (cds == [] || shell.last != 0) && forall i :: 0 <= i < |cds| ==> cds[i].Some?
    ensures Change(cds, shell) == shell
    decreases |cds|
  {
    if cds != [] {
      StaysOff(cds[1..], shell.(go := false));
    }
  }

  /** After a success a skipped directory change switches the list on again: the && after it sees the success. */
  lemma SwitchesOn(cds: seq<Option<string>>, shell: Shell)
    requires (shell.go || (shell.last == 0 && cds != [])) && forall i :: 0 <= i < |cds| ==> cds[i].Some?
    ensures Change(cds, shell).go
  {
    if shell.go {
      ChangesEnter(cds, shell);
    } else {
      ChangesEnter(cds[1..], shell.(go := true));
    }
  }

  lemma {:induction false} StagesRun(g: seq<Stage>, piped: bool, cwd: string, launches: seq<Launch>)
    requires Commands(g) && forall i :: 0 <= i < |g| ==> g[i].cds == []
    ensures var p := EvalGroup(g, piped, cwd, launches);
            p.ok && p.cwd == cwd && |p.launches| == |launches| + |g|
    decreases |g|
  {
    if g != [] {
      StagesRun(g[1..], true, cwd, launches + [LaunchOf(g[0].command, piped, cwd)]);
    }
  }

  lemma BareRuns(g: seq<Stage>, cwd: string, launches: seq<Launch>)
    requires HeadChanges(g)
    ensures var p := EvalGroup(Bare(g), false, cwd, launches);
            p.ok && p.cwd == cwd && |p.launches| == |launches| + |g|
  {
    StagesRun(Bare(g), false, cwd, launches);
  }

  /** Running a group is changing the directories at its head and running the rest of it. */
  lemma GroupRuns(g: seq<Stage>, shell: Shell, launches: seq<Launch>)
    requires HeadChanges(g) && shell.go
    ensures var after := Change(g[0].cds, shell);
            && after.go
            && EvalGroup(g, false, shell.cwd, launches) == EvalGroup(Bare(g), false, after.cwd, launches)
  {
    ChangesEnter(g[0].cds, shell);
    assert Bare(g)[1..] == g[1..];
  }

  // ---------------------------------------------------------------- whole lists

  /** Nothing of the list is run after this status. */
  ghost predicate SkippedAfter(s: Script, last: int)
    requires IsList(s)
  {
    if last == 0 then OnlyOr(s) && NoChange(s) else OnlyAnd(s)
  }

  lemma {:induction false} SkipsTheRest(s: Script, shell: Shell, launches: seq<Launch>, status: nat -> int)
    requires IsList(s) && !shell.go && SkippedAfter(s, shell.last)
    ensures Posix(s, shell, launches, status) == Result(Exit(shell.last), launches)
    decreases s
  {
    StaysOff(s.group[0].cds, shell);
    match s
    case AndThen(_, rest) => SkipsTheRest(rest, shell, launches, status);
    case OrElse(_, rest) => SkipsTheRest(rest, shell, launches, status);
    case _ =>
  }

  lemma {:induction false} UniformAgrees(s: Script, shell: Shell, launches: seq<Launch>, status: nat -> int)
    requires Proper(s) && IsList(s) && Uniform(s) && shell.go
    ensures Posix(s, shell, launches, status) == Eval(s, false, shell.cwd, launches, status)
    decreases s
  {
    var after := Change(s.group[0].cds, shell);
    GroupRuns(s.group, shell, launches);
    BareRuns(s.group, after.cwd, launches);
    var p := EvalGroup(s.group, false, shell.cwd, launches);
    var r := status(|p.launches| - 1);
    match s
    case AndThen(_, rest) =>
      if r == 0 {
        UniformAgrees(rest, Shell(true, r, after.cwd), p.launches, status);
      } else {
        SkipsTheRest(rest, Shell(false, r, after.cwd), p.launches, status);
      }
    case OrElse(_, rest) =>
      if r != 0 {
        UniformAgrees(rest, Shell(true, r, after.cwd), p.launches, status);
      } else {
        SkipsTheRest(rest, Shell(false, r, after.cwd), p.launches, status);
      }
    case _ =>
  }

  /** What has been launched stays launched, and a list that is switched on launches something. */
  lemma {:induction false} PosixLaunches(s: Script, shell: Shell, launches: seq<Launch>, status: nat -> int)
    requires IsList(s)
    ensures |Posix(s, shell, launches, status).launches| >= |launches|
    ensures Change(s.group[0].cds, shell).go ==> |Posix(s, shell, launches, status).launches| > |launches|
    decreases s
  {
    var after := Change(s.group[0].cds, shell);
    BareRuns(s.group, after.cwd, launches);
    var p := if after.go then EvalGroup(Bare(s.group), false, after.cwd, launches)
             else Progress(true, after.cwd, launches);
    var r := if after.go && p.launches != [] then status(|p.launches| - 1) else after.last;
    match s
    case AndThen(_, rest) => PosixLaunches(rest, Shell(r == 0, r, after.cwd), p.launches, status);
    case OrElse(_, rest) => PosixLaunches(rest, Shell(r != 0, r, after.cwd), p.launches, status);
    case _ =>
  }

  /** A shell goes on after a status where the list changes its operator, or changes the directory after a success. */
  lemma {:induction false} PosixResumes(s: Script, shell: Shell, launches: seq<Launch>, status: nat -> int)
    requires IsList(s) && !shell.go && !SkippedAfter(s, shell.last)
    ensures |Posix(s, shell, launches, status).launches| > |launches|
    decreases s, 0
  {
    if shell.last == 0 && s.group[0].cds != [] {
      SwitchesOn(s.group[0].cds, shell);
      PosixLaunches(s, shell, launches, status);
    } else {
      StaysOff(s.group[0].cds, shell);
      match s
      case AndThen(_, rest) => ResumesAt(rest, shell.(go := shell.last == 0), launches, status);
      case OrElse(_, rest) => ResumesAt(rest, shell.(go := shell.last != 0), launches, status);
      case _ =>
    }
  }

  lemma {:induction false} ResumesAt(s: Script, shell: Shell, launches: seq<Launch>, status: nat -> int)
    requires IsList(s) && (!shell.go ==> !SkippedAfter(s, shell.last))
    ensures |Posix(s, shell, launches, status).launches| > |launches|
    decreases s, 1
  {
    if shell.go {
      SwitchesOn(s.group[0].cds, shell);
      PosixLaunches(s, shell, launches, status);
    } else {
      PosixResumes(s, shell, launches, status);
    }
  }

  const HERE := Shell(true, 0, ".")

  /** For every other list some statuses make a shell run more of it. */
  lemma MixedDiffers(s: Script)
    requires Proper(s) && IsList(s) && !Uniform(s)
    ensures exists status: nat -> int :: Posix(s, HERE, [], status) != Eval(s, false, ".", [], status)
  {
    var r := if s.AndThen? then 1 else 0;
    var status: nat -> int := (i: nat) => r;
    var after := Change(s.group[0].cds, HERE);
    GroupRuns(s.group, HERE, []);
    BareRuns(s.group, after.cwd, []);
    var p := EvalGroup(s.group, false, ".", []);
    PosixResumes(s.rest, Shell(false, r, after.cwd), p.launches, status);
    assert Posix(s, HERE, [], status) != Eval(s, false, ".", [], status);
  }

  /** For a list whose directory changes name a directory, stand at the head of a pipe group and are not last, run does
      what the POSIX shell does, whatever the commands return, exactly when the groups are joined by && only, or by ||
      only with no directory change after the first group. */
  lemma PosixIffUniform(s: Script)
    requires Proper(s) && IsList(s)
    ensures (forall status: nat -> int :: Posix(s, HERE, [], status) == Eval(s, false, ".", [], status)) <==> Uniform(s)
  {
    if Uniform(s) {
      forall status: nat -> int
        ensures Posix(s, HERE, [], status) == Eval(s, false, ".", [], status)
      {
        UniformAgrees(s, HERE, [], status);
      }
    } else {
      MixedDiffers(s);
    }
  }
}
