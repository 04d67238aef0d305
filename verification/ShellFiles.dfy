/** What the processes of waf-tools/shellcmd.py are given: which opened file each handle is, and that no handle is given
    twice. */
module ShellFiles {
  import opened Wrappers
  import opened ShellSyntax
  import opened ShellParser
  import opened ShellMeaning

  ghost predicate IsOpened(files: seq<OpenFile>, handle: nat, name: string, forWriting: bool) {
    handle < |files| && files[handle].name == name && files[handle].forWriting == forWriting
  }

  /** The named file, unless the input comes from a pipe or is inherited. */
  ghost predicate RightInput(source: Source, piped: bool, stdin: Option<string>, files: seq<OpenFile>) {
    if piped then source.FromPipe?
    else if stdin.Some? then source.FromFile? && IsOpened(files, source.handle, stdin.value, false)
    else source == OwnInput
  }

  /** The named file, unless it is the null device under one of its two names. */
  ghost predicate RightOutput(sink: Sink, stream: Stream, files: seq<OpenFile>) {
    match stream
    case Unset => sink == OwnOutput
    case PIPE => sink == IntoPipe
    case STDOUT => sink == WithStdout
    case File(name) =>
      if name == "NUL:" || name == "/dev/null" then sink == DevNull
      else sink.IntoFile? && IsOpened(files, sink.handle, name, true)
  }

  /** The directories of the nodes that change into one, in order. */
  ghost function ChdirsIn(nodes: seq<Node>): seq<string> {
    if nodes == [] then []
    else
      var last := nodes[|nodes| - 1];
      ChdirsIn(nodes[..|nodes| - 1]) + (if last.Chdir? && last.dir.Some? then [last.dir.value] else [])
  }

  ghost predicate RightProcess(p: seq<Node>, proc: Process, files: seq<OpenFile>) {
    && proc.at < |p| && p[proc.at].Command?
    && proc.argv == p[proc.at].argv && proc.env == p[proc.at].env && proc.cwd == ChdirsIn(p[..proc.at])
    && RightInput(proc.stdin, ReadsPipe(p, proc.at), p[proc.at].stdin, files)
    && RightOutput(proc.stdout, p[proc.at].stdout, files)
    && RightOutput(proc.stderr, p[proc.at].stderr, files)
  }

  ghost function HandlesOf(proc: Process): seq<nat> {
    (if proc.stdin.FromFile? then [proc.stdin.handle] else [])
    + (if proc.stdout.IntoFile? then [proc.stdout.handle] else [])
    + (if proc.stderr.IntoFile? then [proc.stderr.handle] else [])
  }

  ghost function AllHandles(ps: seq<Process>): seq<nat> {
    if ps == [] then [] else AllHandles(ps[..|ps| - 1]) + HandlesOf(ps[|ps| - 1])
  }

  ghost function FirstNumbers(n: nat): (s: seq<nat>)
    ensures |s| == n
  {
    seq(n, i => i)
  }

  /** Every process has the right files, and every file that was opened is given to one process, as one of its streams. */
  ghost predicate RightFiles(p: seq<Node>, ps: seq<Process>, files: seq<OpenFile>) {
    && (forall k :: 0 <= k < |ps| ==> RightProcess(p, ps[k], files))
    && AllHandles(ps) == FirstNumbers(|files|)
  }

  // ----- the files of one command

  lemma {:induction false} FilesSoFar(p: seq<Node>, at: seq<nat>, k: nat)
    requires CommandsAt(p, at) && k < |at|
    ensures FilesOpened(p, at[..k]) + FilesOf(p, at[k]) <= FilesOpened(p, at)
    decreases |at|
  {
    hide FilesOf;
    var last := |at| - 1;
    if k < last {
      FilesSoFar(p, at[..last], k);
      assert at[..last][..k] == at[..k];
    }
  }

  lemma StreamIsRight(stream: Stream, before: seq<OpenFile>, files: seq<OpenFile>)
    requires before + StreamFiles(stream) <= files
    ensures RightOutput(SinkOf(stream, |before|), stream, files)
  {
    if StreamFiles(stream) != [] {
      assert (before + StreamFiles(stream))[|before|] == StreamFiles(stream)[0];
    }
  }

  lemma InputIsRight(p: seq<Node>, i: nat, prev: nat, before: seq<OpenFile>, files: seq<OpenFile>)
    requires i < |p| && p[i].Command? && before + InputFiles(p, i) <= files
    ensures RightInput(ProcessAt(p, i, prev, |before|).stdin, ReadsPipe(p, i), p[i].stdin, files)
  {
    hide ReadsPipe;
    if InputFiles(p, i) != [] {
      assert (before + InputFiles(p, i))[|before|] == InputFiles(p, i)[0];
    }
  }

  lemma {:induction false} DirsAreChdirs(p: seq<Node>, i: nat)
    requires Runnable(p) && i <= |p| && i % 2 == 0
    ensures DirsBefore(p, i) == ChdirsIn(p[..i])
  {
    if i >= 2 {
      ItemHere(p, i - 2);
      DirsAreChdirs(p, i - 2);
      assert p[..i][..i - 1] == p[..i - 1] && p[..i - 1][..i - 2] == p[..i - 2];
    }
  }

  lemma OpHere(p: seq<Node>, i: nat)
    requires Runnable(p) && i < |p|
    ensures i % 2 == 1 ==> p[i].IsOp()
  {
  }

  lemma CommandIsItem(p: seq<Node>, i: nat)
    requires Runnable(p) && i < |p| && p[i].Command?
    ensures i % 2 == 0
  {
    OpHere(p, i);
  }

  lemma ProcessIsRight(p: seq<Node>, i: nat, prev: nat, before: seq<OpenFile>, files: seq<OpenFile>)
    requires Runnable(p) && i < |p| && p[i].Command? && before + FilesOf(p, i) <= files
    ensures RightProcess(p, ProcessAt(p, i, prev, |before|), files)
  {
    hide ReadsPipe, InputFiles, StreamFiles, SinkOf, RightInput, RightOutput, Runnable, DirsBefore, ChdirsIn;
    CommandIsItem(p, i);
    DirsAreChdirs(p, i);
    var input, out, err := InputFiles(p, i), StreamFiles(p[i].stdout), StreamFiles(p[i].stderr);
    assert before + FilesOf(p, i) == before + input + out + err;
    InputIsRight(p, i, prev, before, files);
    StreamIsRight(p[i].stdout, before + input, files);
    StreamIsRight(p[i].stderr, before + input + out, files);
  }

  lemma NewHandles(p: seq<Node>, i: nat, prev: nat, base: nat)
    requires i < |p| && p[i].Command?
    ensures FirstNumbers(base) + HandlesOf(ProcessAt(p, i, prev, base)) == FirstNumbers(base + |FilesOf(p, i)|)
  {
    hide ReadsPipe;
  }

  // ----- all processes

  lemma {:induction false} HandlesInOrder(p: seq<Node>, at: seq<nat>)
    requires CommandsAt(p, at)
    ensures AllHandles(Processes(p, at)) == FirstNumbers(|FilesOpened(p, at)|)
    decreases |at|
  {
    hide ProcessAt, FilesOf, HandlesOf, FirstNumbers;
    if at == [] {
      NoNumbers();
    } else {
      var n := |at| - 1;
      HandlesInOrder(p, at[..n]);
      var ps := Processes(p, at);
      assert ps[..n] == Processes(p, at[..n]);
      NewHandles(p, at[n], if n == 0 then 0 else at[n - 1], |FilesOpened(p, at[..n])|);
    }
  }

  lemma NoNumbers()
    ensures FirstNumbers(0) == []
  {
  }

  lemma {:induction false} ProcessThere(p: seq<Node>, at: seq<nat>, k: nat)
    requires CommandsAt(p, at) && k < |at|
    ensures Processes(p, at)[k] == ProcessAt(p, at[k], if k == 0 then 0 else at[k - 1], |FilesOpened(p, at[..k])|)
    decreases |at|
  {
    hide ProcessAt, FilesOpened;
    var last := |at| - 1;
    if k < last {
      ProcessThere(p, at[..last], k);
      assert at[..last][..k] == at[..k];
    }
  }

  /** Whatever a run starts has the right files. */
  lemma StartedHaveRightFiles(p: seq<Node>, at: seq<nat>)
    requires Runnable(p) && CommandsAt(p, at)
    ensures RightFiles(p, Processes(p, at), FilesOpened(p, at))
  {
    hide Runnable, RightProcess, ProcessAt, FilesOpened, Processes, AllHandles, FirstNumbers, FilesOf;
    HandlesInOrder(p, at);
    forall k | 0 <= k < |at| ensures RightProcess(p, Processes(p, at)[k], FilesOpened(p, at)) {
      ProcessThere(p, at, k);
      FilesSoFar(p, at, k);
      ProcessIsRight(p, at[k], if k == 0 then 0 else at[k - 1], FilesOpened(p, at[..k]), FilesOpened(p, at));
    }
  }

  /** cat < xxx > out: the file that is read is the first one opened, the one that is written the second. */
  lemma CatExample()
    ensures var p := [Command(["cat"], Some("xxx"), File("out"), Unset, map[])];
            && Runnable(p)
            && FilesOpened(p, [0]) == [OpenFile("xxx", false), OpenFile("out", true)]
            && Processes(p, [0]) == [Process(0, ["cat"], FromFile(0), IntoFile(1), OwnOutput, map[], [])]
  {
    var p := [Command(["cat"], Some("xxx"), File("out"), Unset, map[])];
    assert EqualsAt("cat") == 3 by { assert "cat"[1..] == "at" && "at"[1..] == "t" && "t"[1..] == ""; }
    assert ItemAt(p, 0);
    assert FilesOpened(p, [0][..0]) == [] && [0][..0] == [];
  }
}
