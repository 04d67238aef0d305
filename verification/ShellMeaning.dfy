/** What running a pipeline of waf-tools/shellcmd.py means: which commands start, with which files and pipes, and what
    is returned; and how that compares with the usual reading of && and ||. */
module ShellMeaning {
  import opened ShellSyntax
  import opened ShellParser
  import opened Wrappers

  /** Exit codes, by the position of the command in the pipeline. */
  type Codes = nat -> int

  /** How run ends: with a status, with None (nothing was parsed), or with an exception from a trailing cd or from a
      cd without a directory. */
  datatype Ending = Returned(status: int) | NoStatus | PopFromEmpty | BadDirectory

  datatype Outcome = Outcome(started: seq<nat>, ending: Ending)

  ghost predicate Runnable(p: seq<Node>) {
    p == [] || IsPipeline(p)
  }

  lemma ItemHere(p: seq<Node>, i: nat)
    requires Runnable(p) && i < |p| && i % 2 == 0
    ensures ItemOk(p[i], if i + 1 < |p| then Some(p[i + 1]) else None)
    ensures i + 1 < |p| ==> p[i + 1].IsOp() && i + 2 < |p|
    ensures p[i].Command? || p[i].Chdir?
  {
    assert ItemAt(p, i);
  }

  /** The rest of the run, once everything before position i has been passed. */
  ghost function RunFrom(p: seq<Node>, i: nat, code: Codes): Outcome
    requires Runnable(p) && i <= |p| && i % 2 == 0
    decreases |p| - i
  {
    if i == |p| then Outcome([], NoStatus)
    else
      ItemHere(p, i);
      if p[i].Chdir? then
        if i + 1 == |p| then Outcome([], PopFromEmpty)
        else if p[i].dir == None then Outcome([], BadDirectory)
        else RunFrom(p, i + 2, code)
      else if i + 1 == |p| then Outcome([i], Returned(code(i)))
      else if p[i + 1] == Or && code(i) == 0 then Outcome([i], Returned(0))
      else if p[i + 1] == And && code(i) != 0 then Outcome([i], Returned(code(i)))
      else
        var rest := RunFrom(p, i + 2, code);
        Outcome([i] + rest.started, rest.ending)
  }

  // ----- when run cannot fail

  ghost predicate GoodChdirs(p: seq<Node>) {
    forall i: nat :: i < |p| && p[i].Chdir? ==> i + 1 < |p| && p[i].dir.Some?
  }

  lemma {:induction false} GoodChdirsReturn(p: seq<Node>, i: nat, code: Codes)
    requires IsPipeline(p) && GoodChdirs(p) && i < |p| && i % 2 == 0
    ensures RunFrom(p, i, code).ending.Returned?
    decreases |p| - i
  {
    ItemHere(p, i);
    if i + 1 < |p| {
      GoodChdirsReturn(p, i + 2, code);
    }
  }

  /** Exit codes that let every operator proceed. */
  ghost function Proceed(p: seq<Node>): Codes {
    (i: nat) => if i + 1 < |p| && p[i + 1] == Or then 1 else 0
  }

  lemma {:induction false} BadChdirIsMet(p: seq<Node>, i: nat, j: nat)
    requires IsPipeline(p) && i % 2 == 0 && i <= j < |p| && p[j].Chdir? && (j + 1 == |p| || p[j].dir.None?)
    ensures !RunFrom(p, i, Proceed(p)).ending.Returned?
    decreases |p| - i
  {
    ItemHere(p, i);
    hide Alternates, ItemOk;
    if i < j {
      BadChdirIsMet(p, i + 2, j);
    }
  }

  /** run ends with a status for all exit codes exactly when every cd names a directory and is followed by &&. */
  lemma ReturnsIffGoodChdirs(p: seq<Node>)
    requires IsPipeline(p)
    ensures (forall code: Codes :: RunFrom(p, 0, code).ending.Returned?) <==> GoodChdirs(p)
  {
    hide RunFrom, Alternates;
    if GoodChdirs(p) {
      forall code: Codes ensures RunFrom(p, 0, code).ending.Returned? {
        GoodChdirsReturn(p, 0, code);
      }
    } else {
      var j: nat :| j < |p| && p[j].Chdir? && !(j + 1 < |p| && p[j].dir.Some?);
      BadChdirIsMet(p, 0, j);
    }
  }

  /** Which cd a run fails on: one at the end of the line, or one before it that names no directory. */
  lemma {:induction false} FailsOnChdir(p: seq<Node>, i: nat, code: Codes)
    requires IsPipeline(p) && i < |p| && i % 2 == 0
    ensures RunFrom(p, i, code).ending == PopFromEmpty ==> p[|p| - 1].Chdir?
    ensures RunFrom(p, i, code).ending == BadDirectory ==> exists j :: i <= j < |p| - 1 && p[j] == Chdir(None)
    ensures RunFrom(p, i, code).ending != NoStatus
    decreases |p| - i
  {
    ItemHere(p, i);
    hide Alternates, ItemOk;
    if i + 1 < |p| {
      FailsOnChdir(p, i + 2, code);
    }
  }

  // ----- and-or lists

  /** The groups of piped commands, by position, and the operators between them; a cd only changes the directory. */
  datatype Chain = Chain(groups: seq<seq<nat>>, ops: seq<Node>)

  ghost predicate ChainOk(c: Chain) {
    && |c.groups| == |c.ops| + 1
    && (forall k :: 0 <= k < |c.groups| ==> c.groups[k] != [])
    && (forall k :: 0 <= k < |c.ops| ==> c.ops[k] == And || c.ops[k] == Or)
  }

  ghost function ChainFrom(p: seq<Node>, i: nat): (c: Chain)
    requires IsPipeline(p) && GoodChdirs(p) && i < |p| && i % 2 == 0
    ensures ChainOk(c)
    decreases |p| - i
  {
    ItemHere(p, i);
    if i + 1 == |p| then Chain([[i]], [])
    else
      var rest := ChainFrom(p, i + 2);
      if p[i].Chdir? then rest
      else if p[i + 1] == Pipe then Chain([[i] + rest.groups[0]] + rest.groups[1..], rest.ops)
      else Chain([[i]] + rest.groups, [p[i + 1]] + rest.ops)
  }

  /** An and-or list as an expression; each operator decides by the status of what is on its left. */
  datatype Tree = Group(commands: seq<nat>) | Both(left: Tree, right: Tree) | Either(left: Tree, right: Tree)

  /** The commands that run, and the status: that of a group is its last command's. */
  ghost function Eval(t: Tree, code: Codes): (seq<nat>, int) {
    match t
    case Group(commands) => (commands, if commands == [] then 0 else code(commands[|commands| - 1]))
    case Both(left, right) =>
      var (ran, status) := Eval(left, code);
      if status != 0 then (ran, status) else var (more, last) := Eval(right, code); (ran + more, last)
    case Either(left, right) =>
      var (ran, status) := Eval(left, code);
      if status == 0 then (ran, status) else var (more, last) := Eval(right, code); (ran + more, last)
  }

  ghost function Connected(op: Node, left: Tree, right: Tree): Tree {
    if op == And then Both(left, right) else Either(left, right)
  }

  /** g0 op0 (g1 op1 (g2 ...)) */
  ghost function RightTree(c: Chain): Tree
    requires ChainOk(c)
    decreases |c.ops|
  {
    if c.ops == [] then Group(c.groups[0])
    else Connected(c.ops[0], Group(c.groups[0]), RightTree(Chain(c.groups[1..], c.ops[1..])))
  }

  /** ((g0 op0 g1) op1 g2) ..., as the Shell Command Language has it */
  ghost function LeftTree(c: Chain): Tree
    requires ChainOk(c)
    decreases |c.ops|
  {
    if c.ops == [] then Group(c.groups[0])
    else
      var n := |c.ops|;
      Connected(c.ops[n - 1], LeftTree(Chain(c.groups[..n], c.ops[..n - 1])), Group(c.groups[n]))
  }

  ghost function TailOf(c: Chain): Chain
    requires c.ops != [] && ChainOk(c)
  {
    Chain(c.groups[1..], c.ops[1..])
  }

  /** run starts exactly the commands, and returns exactly the status, of the right-associative reading. */
  lemma {:induction false} RunIsRightAssociative(p: seq<Node>, i: nat, code: Codes)
    requires IsPipeline(p) && GoodChdirs(p) && i < |p| && i % 2 == 0
    ensures var (ran, status) := Eval(RightTree(ChainFrom(p, i)), code);
            RunFrom(p, i, code) == Outcome(ran, Returned(status))
    decreases |p| - i
  {
    ItemHere(p, i);
    if i + 1 < |p| {
      RunIsRightAssociative(p, i + 2, code);
      var rest := ChainFrom(p, i + 2);
      if p[i].Command? && p[i + 1] == Pipe {
        LongerFirstGroup(rest, i, code);
      } else if p[i].Command? {
        assert ([[i]] + rest.groups)[1..] == rest.groups && ([p[i + 1]] + rest.ops)[1..] == rest.ops;
      }
    }
  }

  lemma LongerFirstGroup(c: Chain, i: nat, code: Codes)
    requires ChainOk(c)
    ensures var longer := Chain([[i] + c.groups[0]] + c.groups[1..], c.ops);
            && ChainOk(longer)
            && Eval(RightTree(longer), code).0 == [i] + Eval(RightTree(c), code).0
            && Eval(RightTree(longer), code).1 == Eval(RightTree(c), code).1
  {
    var first, longer := c.groups[0], Chain([[i] + c.groups[0]] + c.groups[1..], c.ops);
    if c.ops != [] {
      var tail := RightTree(TailOf(c));
      assert longer.groups[1..] == c.groups[1..];
      assert RightTree(c) == Connected(c.ops[0], Group(first), tail);
      assert RightTree(longer) == Connected(c.ops[0], Group([i] + first), tail);
      hide RightTree, ChainOk, Connected, Eval;
      LongerGroup(c.ops[0], i, first, tail, code);
    }
  }

  lemma LongerGroup(op: Node, i: nat, first: seq<nat>, tail: Tree, code: Codes)
    requires first != []
    ensures var longer, plain := Eval(Connected(op, Group([i] + first), tail), code), Eval(Connected(op, Group(first), tail), code);
            longer.0 == [i] + plain.0 && longer.1 == plain.1
  {
    assert ([i] + first)[|first|] == first[|first| - 1];
    assert [i] + first + Eval(tail, code).0 == [i] + (first + Eval(tail, code).0);
  }

  // ----- where the two readings agree

  ghost predicate OneKind(ops: seq<Node>) {
    forall k :: 0 <= k < |ops| ==> ops[k] == ops[0]
  }

  ghost function Init(c: Chain): Chain
    requires c.ops != [] && ChainOk(c)
  {
    Chain(c.groups[..|c.ops|], c.ops[..|c.ops| - 1])
  }

  /** One more group at the right end of a chain of one kind, in the right-associative reading. */
  lemma {:induction false} RightTreeSnoc(c: Chain, code: Codes)
    requires ChainOk(c) && c.ops != [] && OneKind(c.ops)
    ensures Eval(RightTree(c), code) ==
            Eval(Connected(c.ops[0], RightTree(Init(c)), Group(c.groups[|c.ops|])), code)
    decreases |c.ops|
  {
    var n, op := |c.ops|, c.ops[0];
    var tail := TailOf(c);
    if n > 1 {
      assert OneKind(tail.ops) && tail.ops[0] == op;
      RightTreeSnoc(tail, code);
      assert TailOf(Init(c)) == Init(tail);
      assert RightTree(c) == Connected(op, Group(c.groups[0]), RightTree(tail));
      assert RightTree(Init(c)) == Connected(op, Group(c.groups[0]), RightTree(Init(tail)));
      hide RightTree, ChainOk, OneKind;
      Reassociate(op, Group(c.groups[0]), RightTree(Init(tail)), Group(c.groups[n]), RightTree(tail), code);
    }
  }

  ghost predicate StopsAt(op: Node, status: int) {
    if op == And then status != 0 else status == 0
  }

  lemma EvalJoined(op: Node, left: Tree, right: Tree, code: Codes)
    ensures Eval(Connected(op, left, right), code) ==
            if StopsAt(op, Eval(left, code).1) then Eval(left, code)
            else (Eval(left, code).0 + Eval(right, code).0, Eval(right, code).1)
  {
  }

  /** With one operator throughout, evaluation does not depend on the grouping. */
  lemma Reassociate(op: Node, a: Tree, b: Tree, c: Tree, bc: Tree, code: Codes)
    requires Eval(bc, code) == Eval(Connected(op, b, c), code)
    ensures Eval(Connected(op, a, bc), code) == Eval(Connected(op, Connected(op, a, b), c), code)
  {
    hide Eval, Connected, StopsAt;
    EvalJoined(op, b, c, code);
    EvalJoined(op, a, bc, code);
    EvalJoined(op, a, b, code);
    EvalJoined(op, Connected(op, a, b), c, code);
    var x, y, z := Eval(a, code).0, Eval(b, code).0, Eval(c, code).0;
    assert x + y + z == x + (y + z);
  }

  lemma {:induction false} OneKindAgrees(c: Chain, code: Codes)
    requires ChainOk(c) && OneKind(c.ops)
    ensures Eval(LeftTree(c), code) == Eval(RightTree(c), code)
    decreases |c.ops|
  {
    if c.ops != [] {
      assert OneKind(Init(c).ops);
      OneKindAgrees(Init(c), code);
      RightTreeSnoc(c, code);
    }
  }

  lemma {:induction false} ConstantStatus(t: Tree, v: int)
    requires NonEmpty(t)
    ensures Eval(t, _ => v).1 == v
  {
    match t
    case Group(_) =>
    case Both(left, right) => ConstantStatus(left, v); ConstantStatus(right, v);
    case Either(left, right) => ConstantStatus(left, v); ConstantStatus(right, v);
  }

  ghost predicate NonEmpty(t: Tree) {
    match t
    case Group(commands) => commands != []
    case Both(left, right) => NonEmpty(left) && NonEmpty(right)
    case Either(left, right) => NonEmpty(left) && NonEmpty(right)
  }

  lemma {:induction false} LeftTreeNonEmpty(c: Chain)
    requires ChainOk(c)
    ensures NonEmpty(LeftTree(c))
    decreases |c.ops|
  {
    if c.ops != [] {
      LeftTreeNonEmpty(Init(c));
    }
  }

  /** If every command returns v and v stops at the first operator but not at some other, the left-associative
      reading goes on to run more than the first group. */
  lemma {:induction false} LeftRunsMore(c: Chain, v: int)
    requires ChainOk(c) && c.ops != []
    ensures |Eval(LeftTree(c), _ => v).0| >= |c.groups[0]|
    ensures (exists k :: 0 <= k < |c.ops| && !(c.ops[k] == And <==> v != 0)) ==>
              |Eval(LeftTree(c), _ => v).0| > |c.groups[0]|
    decreases |c.ops|
  {
    var n := |c.ops|;
    var init := Init(c);
    LeftTreeNonEmpty(init);
    ConstantStatus(LeftTree(init), v);
    assert init.groups[0] == c.groups[0];
    if init.ops != [] {
      LeftRunsMore(init, v);
      assert forall k :: 0 <= k < n - 1 ==> init.ops[k] == c.ops[k];
    }
  }

  /** For a mixed chain there are exit codes for which the two readings run different commands. */
  lemma MixedDisagrees(c: Chain) returns (code: Codes)
    requires ChainOk(c) && !OneKind(c.ops)
    ensures Eval(LeftTree(c), code) != Eval(RightTree(c), code)
  {
    var v := if c.ops[0] == And then 1 else 0;
    code := _ => v;
    var k :| 0 <= k < |c.ops| && c.ops[k] != c.ops[0];
    LeftRunsMore(c, v);
    assert Eval(RightTree(c), code).0 == c.groups[0];
  }

  /** The right-associative reading and that of the Shell Command Language agree for all exit codes exactly on chains
      of only && or only ||. */
  lemma ReadingsAgreeIffOneKind(c: Chain)
    requires ChainOk(c)
    ensures (forall code: Codes :: Eval(LeftTree(c), code) == Eval(RightTree(c), code)) <==> OneKind(c.ops)
  {
    hide LeftTree, RightTree, Eval;
    if OneKind(c.ops) {
      forall code: Codes ensures Eval(LeftTree(c), code) == Eval(RightTree(c), code) {
        OneKindAgrees(c, code);
      }
    } else {
      var code := MixedDisagrees(c);
    }
  }

  // ----- files, pipes and directories

  /** Whether the command at i reads from a pipe; a cd in between does not break the pipe. */
  ghost predicate ReadsPipe(p: seq<Node>, i: nat)
    requires i <= |p|
  {
    i >= 2 && (p[i - 1] == Pipe || (p[i - 2].Chdir? && ReadsPipe(p, i - 2)))
  }

  /** The directories changed into before i, in order. */
  ghost function DirsBefore(p: seq<Node>, i: nat): seq<string>
    requires i <= |p|
  {
    if i < 2 then []
    else DirsBefore(p, i - 2) + (if p[i - 2].Chdir? && p[i - 2].dir.Some? then [p[i - 2].dir.value] else [])
  }

  datatype OpenFile = OpenFile(name: string, forWriting: bool)

  predicate IsDevNull(name: string) {
    name == "NUL:" || name == "/dev/null"
  }

  datatype Source = OwnInput | FromFile(handle: nat) | FromPipe(at: nat)

  datatype Sink = OwnOutput | IntoFile(handle: nat) | DevNull | IntoPipe | WithStdout

  datatype Process = Process(at: nat, argv: seq<string>, stdin: Source, stdout: Sink, stderr: Sink,
                             env: map<string, string>, cwd: seq<string>)

  function StreamFiles(stream: Stream): seq<OpenFile> {
    if stream.File? && !IsDevNull(stream.name) then [OpenFile(stream.name, true)] else []
  }

  function SinkOf(stream: Stream, handle: nat): Sink {
    match stream
    case Unset => OwnOutput
    case File(name) => if IsDevNull(name) then DevNull else IntoFile(handle)
    case PIPE => IntoPipe
    case STDOUT => WithStdout
  }

  ghost function InputFiles(p: seq<Node>, i: nat): seq<OpenFile>
    requires i < |p| && p[i].Command?
  {
    if !ReadsPipe(p, i) && p[i].stdin.Some? then [OpenFile(p[i].stdin.value, false)] else []
  }

  /** What starting the command at i opens: its input unless it reads a pipe, its output and error files. */
  ghost function FilesOf(p: seq<Node>, i: nat): seq<OpenFile>
    requires i < |p| && p[i].Command?
  {
    InputFiles(p, i) + StreamFiles(p[i].stdout) + StreamFiles(p[i].stderr)
  }

  /** The process at i, when prev is the command started before it and handles are numbered from base. */
  ghost function ProcessAt(p: seq<Node>, i: nat, prev: nat, base: nat): Process
    requires i < |p| && p[i].Command?
  {
    var outHandle := base + |InputFiles(p, i)|;
    Process(i, p[i].argv,
            if ReadsPipe(p, i) then FromPipe(prev) else if p[i].stdin.Some? then FromFile(base) else OwnInput,
            SinkOf(p[i].stdout, outHandle),
            SinkOf(p[i].stderr, outHandle + |StreamFiles(p[i].stdout)|),
            p[i].env, DirsBefore(p, i))
  }

  ghost predicate CommandsAt(p: seq<Node>, at: seq<nat>) {
    forall k :: 0 <= k < |at| ==> at[k] < |p| && p[at[k]].Command?
  }

  ghost function FilesOpened(p: seq<Node>, at: seq<nat>): seq<OpenFile>
    requires CommandsAt(p, at)
  {
    if at == [] then [] else FilesOpened(p, at[..|at| - 1]) + FilesOf(p, at[|at| - 1])
  }

  ghost function Processes(p: seq<Node>, at: seq<nat>): (ps: seq<Process>)
    requires CommandsAt(p, at)
    ensures |ps| == |at|
  {
    if at == [] then []
    else
      var n := |at| - 1;
      Processes(p, at[..n])
      + [ProcessAt(p, at[n], if n == 0 then 0 else at[n - 1], |FilesOpened(p, at[..n])|)]
  }

  /** Around the k-th command started from position i on: the first one reads what i reads, every later one reads a
      pipe exactly if the one before it writes to one, and the last one writes to none. */
  ghost predicate PipesMatch(p: seq<Node>, i: nat, run: Outcome, k: nat)
    requires i <= |p|
  {
    && CommandsAt(p, run.started)
    && (run.started != [] ==> ReadsPipe(p, run.started[0]) == ReadsPipe(p, i))
    && (k + 1 < |run.started| ==> (ReadsPipe(p, run.started[k + 1]) <==> p[run.started[k]].stdout == PIPE))
    && (k + 1 == |run.started| && run.ending.Returned? ==> p[run.started[k]].stdout != PIPE)
    && (run.ending.Returned? ==> run.started != [])
  }

  lemma PipeBehind(p: seq<Node>, i: nat)
    requires IsPipeline(p) && i + 1 < |p| && i % 2 == 0
    ensures i + 2 < |p| && p[i + 1].IsOp()
    ensures p[i].Chdir? ==> ReadsPipe(p, i + 2) == ReadsPipe(p, i)
    ensures p[i].Command? ==> (ReadsPipe(p, i + 2) <==> p[i + 1] == Pipe) && (p[i].stdout == PIPE <==> p[i + 1] == Pipe)
    ensures p[i].Command? || p[i].Chdir?
  {
    ItemHere(p, i);
    hide Alternates, IsPlain, BindingsOk;
  }

  lemma LastWritesNoPipe(p: seq<Node>, i: nat)
    requires IsPipeline(p) && i + 1 == |p| && i % 2 == 0
    ensures p[i].Command? ==> p[i].stdout != PIPE
    ensures p[i].Command? || p[i].Chdir?
  {
    ItemHere(p, i);
    hide Alternates, IsPlain, BindingsOk;
  }

  lemma {:induction false} PipesFrom(p: seq<Node>, i: nat, code: Codes, k: nat)
    requires IsPipeline(p) && i < |p| && i % 2 == 0
    ensures PipesMatch(p, i, RunFrom(p, i, code), k)
    decreases |p| - i
  {
    hide IsPipeline, ReadsPipe;
    if i + 1 < |p| {
      PipeBehind(p, i);
      PipesFrom(p, i + 2, code, if k == 0 || p[i].Chdir? then k else k - 1);
    } else {
      LastWritesNoPipe(p, i);
    }
  }

  ghost predicate PipeOk(ps: seq<Process>, k: nat)
    requires k < |ps|
  {
    && (ps[k].stdin.FromPipe? ==> k > 0 && ps[k].stdin == FromPipe(ps[k - 1].at))
    && (k > 0 ==> (ps[k].stdin.FromPipe? <==> ps[k - 1].stdout == IntoPipe))
    && (k == |ps| - 1 ==> ps[k].stdout != IntoPipe)
  }

  /** A process reads a pipe exactly if the one started before it writes to one, the first reads none, and the last
      writes to none. */
  ghost predicate PipesHaveBothEnds(ps: seq<Process>) {
    forall k: nat :: k < |ps| ==> PipeOk(ps, k)
  }

  lemma PipeAt(p: seq<Node>, run: Outcome, k: nat)
    requires p != [] && run.ending.Returned? && CommandsAt(p, run.started) && k < |run.started| && !ReadsPipe(p, 0)
    requires PipesMatch(p, 0, run, k) && (k > 0 ==> PipesMatch(p, 0, run, k - 1))
    ensures PipeOk(Processes(p, run.started), k)
  {
    hide ReadsPipe, Processes;
    ProcessesAt(p, run.started, k);
    if k > 0 {
      ProcessesAt(p, run.started, k - 1);
    }
  }

  /** In every run that returns, every pipe has both its ends. */
  lemma PipesMeet(p: seq<Node>, code: Codes)
    requires IsPipeline(p) && RunFrom(p, 0, code).ending.Returned?
    ensures var at := RunFrom(p, 0, code).started;
            CommandsAt(p, at) && PipesHaveBothEnds(Processes(p, at))
  {
    assert p != [];
    hide RunFrom, IsPipeline, ReadsPipe, Processes, CommandsAt, PipeOk;
    var run := RunFrom(p, 0, code);
    PipesFrom(p, 0, code, 0);
    hide PipesMatch;
    forall k: nat | k < |run.started| ensures PipeOk(Processes(p, run.started), k) {
      PipesFrom(p, 0, code, k);
      if k > 0 {
        PipesFrom(p, 0, code, k - 1);
      }
      PipeAt(p, run, k);
    }
  }

  lemma {:induction false} ProcessesAt(p: seq<Node>, at: seq<nat>, k: nat)
    requires CommandsAt(p, at) && k < |at|
    ensures Processes(p, at)[k].at == at[k]
    ensures ReadsPipe(p, at[k]) && k > 0 ==> Processes(p, at)[k].stdin == FromPipe(at[k - 1])
    ensures Processes(p, at)[k].stdin.FromPipe? <==> ReadsPipe(p, at[k])
    ensures Processes(p, at)[k].stdout == IntoPipe <==> p[at[k]].stdout == PIPE
  {
    hide ReadsPipe, FilesOf, InputFiles, DirsBefore, FilesOpened;
    var n := |at| - 1;
    if k < n {
      ProcessesAt(p, at[..n], k);
    }
  }
}
