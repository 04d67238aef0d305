/** Every pipeline of the right shape is what waf-tools/shellcmd.py parses from some line: here is the line. */
module ShellPrinter {
  import opened ShellSyntax
  import opened ShellParser
  import opened Wrappers

  ghost function EnvTokens(env: map<string, string>): seq<string> {
    if env == map[] then []
    else
      var k :| k in env;
      EnvTokens(env - {k}) + [k + "=" + env[k]]
  }

  function InputTokens(stdin: Option<string>): seq<string> {
    match stdin case None => [] case Some(name) => ["<", name]
  }

  function OutputTokens(stdout: Stream): seq<string> {
    match stdout case Unset => [] case File(name) => [">", name] case PIPE => [] case STDOUT => []
  }

  function ErrorTokens(stderr: Stream): seq<string> {
    match stderr case Unset => [] case File(name) => ["2>", name] case PIPE => [] case STDOUT => ["2>&1"]
  }

  ghost function ItemTokens(item: Node): seq<string> {
    match item
    case Command(argv, stdin, stdout, stderr, env) =>
      EnvTokens(env) + argv + InputTokens(stdin) + OutputTokens(stdout) + ErrorTokens(stderr)
    case Chdir(dir) => ["cd"] + (match dir case None => [] case Some(d) => [d])
    case _ => []
  }

  function OpToken(op: Node): string {
    match op case Pipe => "|" case And => "&&" case _ => "||"
  }

  /** The line that spells a pipeline. */
  ghost function Show(p: seq<Node>): seq<string> {
    if p == [] then []
    else if |p| == 1 then ItemTokens(p[0])
    else ItemTokens(p[0]) + [OpToken(p[1])] + Show(p[2..])
  }

  // ----- bindings

  lemma {:induction false} EqualsAfterName(name: string, rest: string)
    requires '=' !in name
    ensures EqualsAt(name + "=" + rest) == |name|
  {
    var s := name + "=" + rest;
    if name != "" {
      assert s[1..] == name[1..] + "=" + rest;
      EqualsAfterName(name[1..], rest);
    }
  }

  lemma BindingOf(name: string, value: string)
    requires IsName(name) && IsValue(value)
    ensures Binding(name + "=" + value) == Some((name, value))
  {
    var token := name + "=" + value;
    assert value[|value| - 1] in value;
    assert token[|token| - 1] == value[|value| - 1];
    assert !IsNameChar('=');
    EqualsAfterName(name, value);
    assert token[..|name|] == name && token[|name| + 1..] == value;
  }

  lemma PutBack(had: map<string, string>, env: map<string, string>, k: string)
    requires k in env
    ensures (had + (env - {k}))[k := env[k]] == had + env
    ensures |env - {k}| < |env|
  {
    assert (env - {k}).Keys == env.Keys - {k};
    assert |(env - {k}).Keys| < |env.Keys|;
  }

  lemma FirstBinding(env: map<string, string>) returns (k: string)
    requires env != map[]
    ensures k in env && EnvTokens(env) == EnvTokens(env - {k}) + [k + "=" + env[k]]
  {
    k :| k in env && EnvTokens(env) == EnvTokens(env - {k}) + [k + "=" + env[k]];
  }

  lemma {:induction false} EnvIsRead(env: map<string, string>, had: map<string, string>, pipeline: seq<Node>)
    requires BindingsOk(env)
    ensures Steps(ParseState(BEGIN, None, had, pipeline), EnvTokens(env))
         == Some(ParseState(BEGIN, None, had + env, pipeline))
    decreases |env|
  {
    if env == map[] {
      assert had + env == had;
    } else {
      hide Step, Steps, EnvTokens, Binding, IsName, IsValue;
      var k := FirstBinding(env);
      PutBack(had, env, k);
      EnvIsRead(env - {k}, had, pipeline);
      StepsInParts(ParseState(BEGIN, None, had, pipeline), EnvTokens(env - {k}), [k + "=" + env[k]]);
      BindingOf(k, env[k]);
    }
  }

  lemma OneStep(st: ParseState, token: string)
    requires Coherent(st)
    ensures Steps(st, [token]) == Step(st, token)
  {
    hide Step;
  }

  // ----- one item

  /** In the middle of a command. */
  function In(cmd: Node): ParseState {
    ParseState(COMMAND, Some(cmd), map[], [])
  }

  lemma {:induction false} ArgumentsAreRead(cmd: Node, args: seq<string>)
    requires cmd.Command? && forall k :: 0 <= k < |args| ==> IsPlain(args[k])
    ensures Steps(In(cmd), args) == Some(In(cmd.(argv := cmd.argv + args)))
    decreases |args|
  {
    if args == [] {
      assert cmd.argv + args == cmd.argv;
    } else {
      var next := cmd.(argv := cmd.argv + [args[0]]);
      assert Step(In(cmd), args[0]) == Some(In(next));
      ArgumentsAreRead(next, args[1..]);
      assert next.argv + args[1..] == cmd.argv + args;
    }
  }

  lemma TwoSteps(st: ParseState, a: string, b: string)
    requires Coherent(st) && Step(st, a).Some?
    ensures Steps(st, [a, b]) == Step(Step(st, a).value, b)
  {
    hide Step;
    assert [a, b][1..] == [b];
    OneStep(Step(st, a).value, b);
  }

  lemma InputIsRead(cmd: Node, stdin: Option<string>)
    requires cmd.Command? && cmd.stdin == None
    ensures Steps(In(cmd), InputTokens(stdin)) == Some(In(cmd.(stdin := stdin)))
  {
    if stdin.Some? {
      TwoSteps(In(cmd), "<", stdin.value);
    }
  }

  lemma OutputIsRead(cmd: Node, stdout: Stream)
    requires cmd.Command? && cmd.stdout == Unset && stdout != STDOUT
    ensures Steps(In(cmd), OutputTokens(stdout)) == Some(In(cmd.(stdout := if stdout == PIPE then Unset else stdout)))
  {
    if stdout.File? {
      TwoSteps(In(cmd), ">", stdout.name);
    }
  }

  lemma ErrorIsRead(cmd: Node, stderr: Stream)
    requires cmd.Command? && cmd.stderr == Unset && stderr != PIPE
    ensures Steps(In(cmd), ErrorTokens(stderr)) == Some(In(cmd.(stderr := stderr)))
  {
    if stderr.File? {
      TwoSteps(In(cmd), "2>", stderr.name);
    } else if stderr == STDOUT {
      OneStep(In(cmd), "2>&1");
    }
  }

  lemma NameIsRead(name: string, env: map<string, string>)
    requires Binding(name) == None && name != "cd"
    ensures Steps(ParseState(BEGIN, None, env, []), [name]) == Some(In(Command([name], None, Unset, Unset, env)))
  {
    OneStep(ParseState(BEGIN, None, env, []), name);
  }

  /** The tokens of a command are read back as that command, with the pipe still to come if it has one. */
  lemma CommandIsRead(cmd: Node, next: Option<Node>)
    requires CommandOk(cmd, next)
    ensures Steps(START, ItemTokens(cmd)) == Some(In(if cmd.stdout == PIPE then cmd.(stdout := Unset) else cmd))
  {
    var bare := Command(cmd.argv, None, Unset, Unset, cmd.env);
    var withIn := bare.(stdin := cmd.stdin);
    var withOut := withIn.(stdout := if cmd.stdout == PIPE then Unset else cmd.stdout);
    var words := EnvTokens(cmd.env) + cmd.argv;
    var i, o, x := InputTokens(cmd.stdin), OutputTokens(cmd.stdout), ErrorTokens(cmd.stderr);
    WordsAreRead(cmd, next);
    InputIsRead(bare, cmd.stdin);
    OutputIsRead(withIn, cmd.stdout);
    ErrorIsRead(withOut, cmd.stderr);
    hide Step, Steps, CommandOk, InputTokens, OutputTokens, ErrorTokens, EnvTokens;
    StepsInParts(START, words, i);
    StepsInParts(START, words + i, o);
    StepsInParts(START, words + i + o, x);
  }

  lemma WordsAreRead(cmd: Node, next: Option<Node>)
    requires CommandOk(cmd, next)
    ensures Steps(START, EnvTokens(cmd.env) + cmd.argv) == Some(In(Command(cmd.argv, None, Unset, Unset, cmd.env)))
  {
    hide Step, Steps, Binding, EnvTokens, IsPlain;
    var bare := Command([cmd.argv[0]], None, Unset, Unset, cmd.env);
    var e := EnvTokens(cmd.env);
    EnvIsRead(cmd.env, map[], []);
    assert map[] + cmd.env == cmd.env;
    NameIsRead(cmd.argv[0], cmd.env);
    ArgumentsAreRead(bare, cmd.argv[1..]);
    assert bare.argv + cmd.argv[1..] == cmd.argv;
    StepsInParts(START, e, [cmd.argv[0]]);
    StepsInParts(START, e + [cmd.argv[0]], cmd.argv[1..]);
    assert e + [cmd.argv[0]] + cmd.argv[1..] == e + cmd.argv by {
      assert cmd.argv == [cmd.argv[0]] + cmd.argv[1..];
    }
  }

  lemma ChdirIsRead(item: Node, next: Option<Node>)
    requires ChdirOk(item, next)
    ensures Steps(START, ItemTokens(item)) == Some(ParseState(CHDIR, Some(item), map[], []))
  {
    assert Binding("cd") == None by {
      assert EqualsAt("cd") == 2;
    }
    if item.dir.Some? {
      TwoSteps(START, "cd", item.dir.value);
    } else {
      OneStep(START, "cd");
    }
  }

  // ----- whole pipelines

  lemma TailIsPipeline(p: seq<Node>)
    requires IsPipeline(p) && |p| > 1
    ensures |p| >= 3 && p[1].IsOp() && ItemOk(p[0], Some(p[1])) && IsPipeline(p[2..])
  {
    hide ItemOk;
    var q := p[2..];
    forall i: nat | i < |q| && i % 2 == 0 ensures ItemAt(q, i) {
      assert ItemAt(p, i + 2);
    }
    forall i: nat | i < |q| && i % 2 == 1 ensures q[i].IsOp() {
      assert p[i + 2].IsOp();
    }
    assert ItemAt(p, 0);
  }

  /** Parsing the line that spells a pipeline gives that pipeline. */
  lemma {:induction false} ShowIsParsed(p: seq<Node>)
    requires IsPipeline(p)
    ensures Parse(Show(p)) == Some(p)
  {
    hide CommandOk, ChdirOk, Alternates;
    if |p| == 1 {
      FirstIsItem(p);
      if CommandOk(p[0], None) {
        CommandIsRead(p[0], None);
        NoPipeAtTheEnd(p[0]);
      } else {
        ChdirIsRead(p[0], None);
      }
      assert [] + [p[0]] == p;
    } else {
      TailIsPipeline(p);
      ShowIsParsed(p[2..]);
      ItemIsJoined(p[0], p[1]);
      ParseJoined(ItemTokens(p[0]), OpToken(p[1]), Show(p[2..]));
      assert p == [p[0], p[1]] + p[2..];
    }
  }

  lemma FirstIsItem(p: seq<Node>)
    requires IsPipeline(p) && |p| == 1
    ensures ItemOk(p[0], None)
  {
    assert ItemAt(p, 0);
  }

  lemma NoPipeAtTheEnd(cmd: Node)
    requires CommandOk(cmd, None)
    ensures cmd.Command? && cmd.stdout != PIPE
  {
  }

  lemma ItemIsJoined(item: Node, op: Node)
    requires op.IsOp() && ItemOk(item, Some(op))
    ensures Joined(ItemTokens(item), OpToken(op)) == Some([item, op])
  {
    hide Steps, ItemTokens;
    if CommandOk(item, Some(op)) {
      CommandIsRead(item, Some(op));
    } else {
      ChdirIsRead(item, Some(op));
    }
    assert [] + [item, op] == [item, op];
  }

  /** The parser returns exactly the pipelines of the right shape. */
  lemma ParserRange(p: seq<Node>)
    ensures IsPipeline(p) <==> exists tokens :: Parse(tokens) == Some(p)
  {
    hide IsPipeline, Steps;
    if IsPipeline(p) {
      ShowIsParsed(p);
    }
    if tokens :| Parse(tokens) == Some(p) {
      ParsedIsPipeline(tokens);
    }
  }
}
