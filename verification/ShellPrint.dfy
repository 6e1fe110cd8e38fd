/** What the parser can return, and the printer that is its inverse. */
module ShellPrint {
  import opened Options
  import opened Sequences
  import opened ShellParse

  // ---------------------------------------------------------------- the shape of what parse returns

  predicate IsSpecial(token: string) {
    token == ">" || token == "2>" || token == "2>&1" || token == "<" || token == "|" || token == "&&" || token == "||"
  }

  ghost predicate GoodEnv(env: map<string, string>) {
    forall k :: k in env ==> IsVariable(k) && IsValue(env[k])
  }

  /** The first word is neither an assignment nor cd, and no further word is an operator or a redirection. */
  ghost predicate GoodCommand(c: Node) {
    && c.Command? && c.argv != [] && EnvMatch(c.argv[0]) == None && c.argv[0] != "cd"
    && (forall i :: 1 <= i < |c.argv| ==> !IsSpecial(c.argv[i]))
    && GoodEnv(c.env)
  }

  ghost predicate GoodChdir(c: Node) {
    c.Chdir? && c.dir != Some("&&")
  }

  ghost predicate Unpiped(c: Node) {
    GoodCommand(c) && c.stdout != PIPE
  }

  /** A command writes to a pipe exactly when a pipe follows it; only && can follow a change of directory. */
  ghost predicate FollowedBy(n: Node, op: Node) {
    match op
    case PipeOp => GoodCommand(n) && n.stdout == PIPE
    case AndOp => Unpiped(n) || GoodChdir(n)
    case OrOp => Unpiped(n)
    case _ => false
  }

  /** Pairs of a command or directory change and the operator after it. */
  ghost predicate OpenList(p: seq<Node>) {
    p == [] || (|p| >= 2 && OpenList(p[..|p| - 2]) && FollowedBy(p[|p| - 2], p[|p| - 1]))
  }

  ghost predicate Canonical(nodes: seq<Node>) {
    && nodes != [] && OpenList(nodes[..|nodes| - 1])
    && (Unpiped(nodes[|nodes| - 1]) || GoodChdir(nodes[|nodes| - 1]))
  }

  ghost predicate StateInv(s: State) {
    && Shaped(s) && OpenList(s.pipeline) && GoodEnv(s.env)
    && (s.current.Some? ==> Unpiped(s.current.value) || GoodChdir(s.current.value))
  }

  lemma OpenAppend(p: seq<Node>, n: Node, op: Node)
    requires OpenList(p) && FollowedBy(n, op)
    ensures OpenList(p + [n] + [op])
  {
    var q := p + [n] + [op];
    assert q[..|q| - 2] == p;
  }

  lemma StepInCommand(s: State, token: string)
    requires StateInv(s) && s.mode == COMMAND && Step(s, token).Some?
    ensures StateInv(Step(s, token).value)
  {
    var c := s.current.value;
    if token == "|" {
      OpenAppend(s.pipeline, c.(stdout := PIPE), PipeOp);
    } else if token == "&&" {
      OpenAppend(s.pipeline, c, AndOp);
    } else if token == "||" {
      OpenAppend(s.pipeline, c, OrOp);
    }
  }

  lemma StepElsewhere(s: State, token: string)
    requires StateInv(s) && s.mode != COMMAND && Step(s, token).Some?
    ensures StateInv(Step(s, token).value)
  {
    if s.mode == CHDIR && token == "&&" {
      OpenAppend(s.pipeline, s.current.value, AndOp);
    }
  }

  lemma StepKeepsInv(s: State, token: string)
    requires StateInv(s) && Step(s, token).Some?
    ensures StateInv(Step(s, token).value)
  {
    if s.mode == COMMAND {
      StepInCommand(s, token);
    } else {
      StepElsewhere(s, token);
    }
  }

  lemma {:induction false} ScanKeepsInv(s: State, tokens: seq<string>)
    requires StateInv(s) && Scan(s, tokens).Some?
    ensures StateInv(Scan(s, tokens).value)
    decreases |tokens|
  {
    if tokens != [] {
      StepKeepsInv(s, tokens[0]);
      ScanKeepsInv(Step(s, tokens[0]).value, tokens[1..]);
    }
  }

  /** Whatever the parser accepts, it returns a canonical list. */
  lemma ParseIsCanonical(tokens: seq<string>)
    requires Parse(tokens).Parsed?
    ensures Canonical(Parse(tokens).nodes)
  {
    ScanKeepsInv(START, tokens);
    var end := Scan(START, tokens).value;
    assert (end.pipeline + [end.current.value])[..|end.pipeline|] == end.pipeline;
  }

  lemma {:induction false} OpenListPairs(p: seq<Node>, j: nat)
    requires OpenList(p) && 2 * j < |p|
    ensures 2 * j + 1 < |p| && FollowedBy(p[2 * j], p[2 * j + 1])
    decreases |p|
  {
    OpenListEven(p);
    if 2 * j < |p| - 2 {
      OpenListPairs(p[..|p| - 2], j);
    }
  }

  lemma {:induction false} OpenListEven(p: seq<Node>)
    requires OpenList(p)
    ensures |p| % 2 == 0
    decreases |p|
  {
    if p != [] {
      OpenListEven(p[..|p| - 2]);
    }
  }

  /** Commands and operators alternate strictly, and a directory change is last or followed by &&: this is what the
      assertions of run rely on. */
  lemma CanonicalAlternates(nodes: seq<Node>, i: nat)
    requires Canonical(nodes) && i < |nodes|
    ensures |nodes| % 2 == 1
    ensures nodes[i].Command? || nodes[i].Chdir? <==> i % 2 == 0
    ensures nodes[i].Chdir? && i < |nodes| - 1 ==> nodes[i + 1] == AndOp
  {
    var p, j := nodes[..|nodes| - 1], i / 2;
    OpenListEven(p);
    HalfOf(i, j);
    if i < |p| {
      OpenListPairs(p, j);
      PairKinds(nodes[2 * j], nodes[2 * j + 1]);
    }
  }

  lemma HalfOf(i: nat, j: nat)
    requires j == i / 2
    ensures (i % 2 == 0 && i == 2 * j) || (i % 2 == 1 && i == 2 * j + 1)
  {}

  lemma PairKinds(n: Node, op: Node)
    requires FollowedBy(n, op)
    ensures (n.Command? || n.Chdir?) && !op.Command? && !op.Chdir?
    ensures n.Chdir? ==> op == AndOp
  {}

  // ---------------------------------------------------------------- printing

  function PrintEnv(env: map<string, string>, order: seq<string>): seq<string>
    requires forall k :: k in order ==> k in env
  {
    if order == [] then [] else [order[0] + "=" + env[order[0]]] + PrintEnv(env, order[1..])
  }

  function PrintRedirections(c: Node): seq<string>
    requires c.Command?
  {
    (match c.stdout case ToFile(f) => [">", f] case _ => [])
    + (match c.stderr case ErrorToFile(f) => ["2>", f] case STDOUT => ["2>&1"] case NoError => [])
    + (match c.stdin case Some(f) => ["<", f] case None => [])
  }

  /** The order in which a command's variables are printed: each once. */
  ghost predicate OrderFor(n: Node, order: seq<string>) {
    n.Command? ==> Distinct(order) && forall k :: k in order <==> k in n.env
  }

  function PrintNode(n: Node, order: seq<string>): seq<string>
    requires n.Command? || n.Chdir?
    requires OrderFor(n, order)
  {
    match n
    case Command(argv, _, _, _, env) => PrintEnv(env, order) + argv + PrintRedirections(n)
    case Chdir(dir) => ["cd"] + if dir == None then [] else [dir.value]
  }

  function OpToken(op: Node): string {
    match op
    case PipeOp => "|"
    case AndOp => "&&"
    case _ => "||"
  }

  ghost predicate Orders(nodes: seq<Node>, orders: seq<seq<string>>) {
    |orders| == |nodes| && forall i :: 0 <= i < |nodes| ==> OrderFor(nodes[i], orders[i])
  }

  ghost function PrintOpen(p: seq<Node>, orders: seq<seq<string>>): seq<string>
    requires OpenList(p) && Orders(p, orders)
  {
    if p == [] then []
    else
      var k := |p| - 2;
      PrintOpen(p[..k], orders[..k]) + PrintNode(p[k], orders[k]) + [OpToken(p[k + 1])]
  }

  ghost function Print(nodes: seq<Node>, orders: seq<seq<string>>): seq<string>
    requires Canonical(nodes) && Orders(nodes, orders)
  {
    var k := |nodes| - 1;
    PrintOpen(nodes[..k], orders[..k]) + PrintNode(nodes[k], orders[k])
  }

  // ---------------------------------------------------------------- parsing what was printed

  ghost function Overlay(base: map<string, string>, env: map<string, string>, order: seq<string>): map<string, string>
    requires forall k :: k in order ==> k in env
    decreases |order|
  {
    if order == [] then base else Overlay(base[order[0] := env[order[0]]], env, order[1..])
  }

  lemma {:induction false} OverlayAll(base: map<string, string>, env: map<string, string>, order: seq<string>)
    requires forall k :: k in order ==> k in env
    requires forall k :: k in base ==> k in env && base[k] == env[k]
    requires forall k :: k in env ==> k in base || k in order
    ensures Overlay(base, env, order) == env
    decreases |order|
  {
    if order != [] {
      var next := base[order[0] := env[order[0]]];
      forall k | k in env
        ensures k in next || k in order[1..]
      {
        assert k in order ==> k == order[0] || k in order[1..];
      }
      OverlayAll(next, env, order[1..]);
    }
  }

  lemma {:induction false} ScanEnv(base: map<string, string>, p: seq<Node>, env: map<string, string>,
                                   order: seq<string>)
    requires GoodEnv(env) && forall k :: k in order ==> k in env
    ensures Scan(State(BEGIN, None, base, p), PrintEnv(env, order))
         == Some(State(BEGIN, None, Overlay(base, env, order), p))
    decreases |order|
  {
    if order != [] {
      var k := order[0];
      EnvRoundTrip(k, env[k]);
      ScanEnv(base[k := env[k]], p, env, order[1..]);
      assert PrintEnv(env, order)[1..] == PrintEnv(env, order[1..]);
    }
  }

  lemma {:induction false} ScanArgs(c: Node, p: seq<Node>, args: seq<string>)
    requires c.Command? && forall i :: 0 <= i < |args| ==> !IsSpecial(args[i])
    ensures Scan(State(COMMAND, Some(c), map[], p), args)
         == Some(State(COMMAND, Some(c.(argv := c.argv + args)), map[], p))
    decreases |args|
  {
    if args == [] {
      assert c.argv + args == c.argv;
    } else {
      var d := c.(argv := c.argv + [args[0]]);
      ScanArgs(d, p, args[1..]);
      assert c.argv + [args[0]] + args[1..] == c.argv + args;
    }
  }

  lemma ScanOne(s: State, a: string)
    requires Shaped(s)
    ensures Scan(s, [a]) == Step(s, a)
  {
    assert [a][1..] == [];
  }

  lemma ScanCons(s: State, a: string, rest: seq<string>)
    requires Shaped(s) && Step(s, a).Some?
    ensures Scan(s, [a] + rest) == Scan(Step(s, a).value, rest)
  {
    assert ([a] + rest)[1..] == rest;
  }

  lemma ScanTwo(s: State, a: string, b: string)
    requires Shaped(s) && Step(s, a).Some?
    ensures Scan(s, [a, b]) == Step(Step(s, a).value, b)
  {
    assert [a] + [b] == [a, b];
    ScanCons(s, a, [b]);
    ScanOne(Step(s, a).value, b);
  }

  /** The redirections, scanned from a command that has none yet. */
  lemma ScanRedirections(c: Node, p: seq<Node>)
    requires c.Command?
    ensures Scan(State(COMMAND, Some(Command(c.argv, None, NoOutput, NoError, c.env)), map[], p), PrintRedirections(c))
         == Some(State(COMMAND, Some(if c.stdout == PIPE then c.(stdout := NoOutput) else c), map[], p))
  {
    var out := match c.stdout case ToFile(f) => [">", f] case _ => [];
    var err := match c.stderr case ErrorToFile(f) => ["2>", f] case STDOUT => ["2>&1"] case NoError => [];
    var inp := match c.stdin case Some(f) => ["<", f] case None => [];
    var s0 := State(COMMAND, Some(Command(c.argv, None, NoOutput, NoError, c.env)), map[], p);
    var stdout := if c.stdout == PIPE then NoOutput else c.stdout;
    var s1 := State(COMMAND, Some(Command(c.argv, None, stdout, NoError, c.env)), map[], p);
    var s2 := State(COMMAND, Some(Command(c.argv, None, stdout, c.stderr, c.env)), map[], p);
    var s3 := State(COMMAND, Some(Command(c.argv, c.stdin, stdout, c.stderr, c.env)), map[], p);
    assert Scan(s0, out) == Some(s1) by {
      if c.stdout.ToFile? { ScanTwo(s0, ">", c.stdout.file); }
    }
    assert Scan(s1, err) == Some(s2) by {
      if c.stderr.ErrorToFile? { ScanTwo(s1, "2>", c.stderr.file); } else if c.stderr.STDOUT? { ScanOne(s1, "2>&1"); }
    }
    assert Scan(s2, inp) == Some(s3) by {
      if c.stdin.Some? { ScanTwo(s2, "<", c.stdin.value); }
    }
    ScanAppend(s0, out, err);
    ScanAppend(s0, out + err, inp);
  }

  lemma ScanCommand(c: Node, order: seq<string>, p: seq<Node>)
    requires GoodCommand(c) && OrderFor(c, order)
    ensures Scan(State(BEGIN, None, map[], p), PrintNode(c, order))
         == Some(State(COMMAND, Some(if c.stdout == PIPE then c.(stdout := NoOutput) else c), map[], p))
  {
    var s0, s1 := State(BEGIN, None, map[], p), State(BEGIN, None, c.env, p);
    var s2 := State(COMMAND, Some(Command([c.argv[0]], None, NoOutput, NoError, c.env)), map[], p);
    var s3 := State(COMMAND, Some(Command(c.argv, None, NoOutput, NoError, c.env)), map[], p);
    ScanEnv(map[], p, c.env, order);
    OverlayAll(map[], c.env, order);
    ScanOne(s1, c.argv[0]);
    ScanArgs(s2.current.value, p, c.argv[1..]);
    assert c.argv == [c.argv[0]] + c.argv[1..];
    ScanAppend(s1, [c.argv[0]], c.argv[1..]);
    assert Scan(s1, c.argv) == Some(s3);
    ScanRedirections(c, p);
    ScanAppend(s0, PrintEnv(c.env, order), c.argv);
    ScanAppend(s0, PrintEnv(c.env, order) + c.argv, PrintRedirections(c));
  }

  lemma ScanChdir(c: Node, p: seq<Node>)
    requires GoodChdir(c)
    ensures Scan(State(BEGIN, None, map[], p), PrintNode(c, [])) == Some(State(CHDIR, Some(c), map[], p))
  {
    var s0 := State(BEGIN, None, map[], p);
    assert IndexOfEquals("cd") == 2;
    if c.dir == None {
      assert PrintNode(c, []) == ["cd"];
      ScanOne(s0, "cd");
    } else {
      assert PrintNode(c, []) == ["cd", c.dir.value];
      ScanTwo(s0, "cd", c.dir.value);
    }
  }

  /** The state after a printed node, before its operator. */
  function Building(n: Node, p: seq<Node>): State
    requires n.Command? || n.Chdir?
  {
    match n
    case Command(_, _, stdout, _, _) =>
      State(COMMAND, Some(if stdout == PIPE then n.(stdout := NoOutput) else n), map[], p)
    case Chdir(_) => State(CHDIR, Some(n), map[], p)
  }

  lemma ScanNode(n: Node, order: seq<string>, p: seq<Node>)
    requires (GoodCommand(n) || GoodChdir(n)) && OrderFor(n, order)
    ensures Scan(State(BEGIN, None, map[], p), PrintNode(n, order)) == Some(Building(n, p))
  {
    if n.Command? {
      ScanCommand(n, order, p);
    } else {
      ScanChdir(n, p);
      assert PrintNode(n, order) == PrintNode(n, []);
    }
  }

  lemma ScanOperator(n: Node, op: Node, p: seq<Node>)
    requires FollowedBy(n, op)
    ensures Scan(Building(n, p), [OpToken(op)]) == Some(State(BEGIN, None, map[], p + [n] + [op]))
  {
    ScanOne(Building(n, p), OpToken(op));
  }

  lemma ScanThree(s: State, a: seq<string>, b: seq<string>, c: seq<string>, s1: State, s2: State, s3: State)
    requires Shaped(s) && Scan(s, a) == Some(s1) && Scan(s1, b) == Some(s2) && Scan(s2, c) == Some(s3)
    ensures Scan(s, a + b + c) == Some(s3)
  {
    ScanAppend(s, a, b);
    ScanAppend(s, a + b, c);
  }

  lemma {:induction false} ScanOpen(p: seq<Node>, orders: seq<seq<string>>)
    requires OpenList(p) && Orders(p, orders)
    ensures Scan(START, PrintOpen(p, orders)) == Some(State(BEGIN, None, map[], p))
    decreases |p|
  {
    if p != [] {
      var k := |p| - 2;
      ScanOpen(p[..k], orders[..k]);
      ScanNode(p[k], orders[k], p[..k]);
      ScanOperator(p[k], p[k + 1], p[..k]);
      ScanThree(START, PrintOpen(p[..k], orders[..k]), PrintNode(p[k], orders[k]), [OpToken(p[k + 1])],
                State(BEGIN, None, map[], p[..k]), Building(p[k], p[..k]),
                State(BEGIN, None, map[], p[..k] + [p[k]] + [p[k + 1]]));
      SplitLastTwo(p);
    }
  }

  /** Printing a canonical list, with the variables of each command in any order, and parsing it gives it back. */
  lemma PrintThenParse(nodes: seq<Node>, orders: seq<seq<string>>)
    requires Canonical(nodes) && Orders(nodes, orders)
    ensures Parse(Print(nodes, orders)) == Parsed(nodes)
  {
    var k := |nodes| - 1;
    ScanOpen(nodes[..k], orders[..k]);
    ScanAppend(START, PrintOpen(nodes[..k], orders[..k]), PrintNode(nodes[k], orders[k]));
    ScanNode(nodes[k], orders[k], nodes[..k]);
    SplitLast(nodes);
  }

  lemma SomeOrder(keys: set<string>) returns (order: seq<string>)
    ensures Distinct(order) && forall k :: k in order <==> k in keys
  {
    order := [];
    var rest := keys;
    while rest != {}
      invariant rest <= keys && Distinct(order) && forall k :: k in order <==> k in keys && k !in rest
    {
      var k :| k in rest;
      rest := rest - {k};
      order := order + [k];
    }
  }

  lemma {:induction false} SomeOrders(nodes: seq<Node>) returns (orders: seq<seq<string>>)
    ensures Orders(nodes, orders)
  {
    if nodes == [] {
      orders := [];
    } else {
      var front := SomeOrders(nodes[..|nodes| - 1]);
      var n := nodes[|nodes| - 1];
      var last := SomeOrder(if n.Command? then n.env.Keys else {});
      orders := front + [last];
    }
  }

  /** The node lists that parse can return are exactly the canonical ones. */
  lemma ParsableIffCanonical(nodes: seq<Node>)
    ensures (exists tokens :: Parse(tokens) == Parsed(nodes)) <==> Canonical(nodes)
  {
    if Canonical(nodes) {
      var orders := SomeOrders(nodes);
      PrintThenParse(nodes, orders);
    } else if tokens :| Parse(tokens) == Parsed(nodes) {
      ParseIsCanonical(tokens);
    }
  }
}
