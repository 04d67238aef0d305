/** Pipeline.run of waf-tools/shellcmd.py: the loop that starts processes, wires their files and pipes, waits for a
    group and closes its files, against the meaning of the pipeline. */
module ShellRunner {
  import opened ShellSyntax
  import opened ShellParser
  import opened ShellMeaning
  import opened ShellFiles
  import opened Wrappers

  /** The handles among the files to close; None is the shared null device, which stays open. */
  ghost function Handles(files: seq<Option<nat>>): seq<nat> {
    if files == [] then []
    else Handles(files[..|files| - 1]) + (if files[|files| - 1].Some? then [files[|files| - 1].value] else [])
  }

  ghost function Positions(ps: seq<Process>): seq<nat> {
    seq(|ps|, i requires 0 <= i < |ps| => ps[i].at)
  }

  /** Waits for every command of a group; the status is 0 if all of them return 0, else the last one's. */
  method ExecPipedCommands(commands: seq<Process>, code: Codes) returns (retval: int, waited: seq<nat>)
    ensures waited == Positions(commands)
    ensures retval == if commands == [] then 0 else code(commands[|commands| - 1].at)
  {
    var retvals: seq<int> := [];
    waited := [];
    for i := 0 to |commands|
      invariant waited == Positions(commands[..i])
      invariant |retvals| == i && forall k :: 0 <= k < i ==> retvals[k] == code(commands[k].at)
    {
      waited := waited + [commands[i].at];
      retvals := retvals + [code(commands[i].at)];
    }
    assert commands[..|commands|] == commands;
    retval := 0;
    for i := 0 to |retvals|
      invariant retval == 0 && forall k :: 0 <= k < i ==> retvals[k] == 0
    {
      if retvals[i] != 0 {
        retval := retvals[|retvals| - 1];
        break;
      }
    }
  }

  method CloseFiles(files: seq<Option<nat>>) returns (closed: seq<nat>)
    ensures closed == Handles(files)
  {
    closed := [];
    for i := 0 to |files|
      invariant closed == Handles(files[..i])
    {
      assert files[..i + 1][..i] == files[..i];
      if files[i].Some? {
        closed := closed + [files[i].value];
      }
    }
    assert files[..|files|] == files;
  }

  /** The files are closed in the order they were opened, except those of the group that is still running. */
  ghost predicate FilesKept(openFiles: seq<OpenFile>, closed: seq<nat>, files: seq<Option<nat>>) {
    closed + Handles(files) == FirstNumbers(|openFiles|)
  }

  lemma OneMoreFile(openFiles: seq<OpenFile>, closed: seq<nat>, files: seq<Option<nat>>, f: OpenFile)
    requires FilesKept(openFiles, closed, files)
    ensures FilesKept(openFiles + [f], closed, files + [Some(|openFiles|)])
    ensures FilesKept(openFiles, closed, files + [None])
  {
    assert (files + [Some(|openFiles|)])[..|files|] == files && (files + [None])[..|files|] == files;
    assert FirstNumbers(|openFiles|) + [|openFiles|] == FirstNumbers(|openFiles| + 1);
  }

  lemma AllClosed(openFiles: seq<OpenFile>, closed: seq<nat>, files: seq<Option<nat>>)
    requires FilesKept(openFiles, closed, files)
    ensures closed + Handles(files) == FirstNumbers(|openFiles|)
    ensures FilesKept(openFiles, closed + Handles(files), [])
  {
    assert FirstNumbers(|openFiles|) + [] == FirstNumbers(|openFiles|);
  }

  method OpenIn(name: string, openFiles: seq<OpenFile>, ghost closed: seq<nat>, files: seq<Option<nat>>)
    returns (openFiles': seq<OpenFile>, files': seq<Option<nat>>)
    requires FilesKept(openFiles, closed, files)
    ensures openFiles' == openFiles + [OpenFile(name, false)] && FilesKept(openFiles', closed, files')
  {
    OneMoreFile(openFiles, closed, files, OpenFile(name, false));
    openFiles', files' := openFiles + [OpenFile(name, false)], files + [Some(|openFiles|)];
  }

  /** What Popen gets for stdout or stderr. */
  method OpenStream(stream: Stream, openFiles: seq<OpenFile>, ghost closed: seq<nat>, files: seq<Option<nat>>)
    returns (openFiles': seq<OpenFile>, files': seq<Option<nat>>, sink: Sink)
    requires FilesKept(openFiles, closed, files)
    ensures openFiles' == openFiles + StreamFiles(stream) && sink == SinkOf(stream, |openFiles|)
    ensures FilesKept(openFiles', closed, files')
  {
    openFiles', files' := openFiles, files;
    match stream {
      case Unset => sink := OwnOutput;
      case PIPE => sink := IntoPipe;
      case STDOUT => sink := WithStdout;
      case File(name) =>
        OneMoreFile(openFiles, closed, files, OpenFile(name, true));
        if IsDevNull(name) {
          files', sink := files + [None], DevNull;
        } else {
          openFiles', files', sink := openFiles + [OpenFile(name, true)], files + [Some(|openFiles|)], IntoFile(|openFiles|);
        }
    }
  }

  /** Everything before position pos has been handled: at are the commands started. */
  ghost predicate Running(p: seq<Node>, code: Codes, pos: nat, at: seq<nat>, started: seq<Process>, openFiles: seq<OpenFile>) {
    && Runnable(p) && pos <= |p| && pos % 2 == 0
    && CommandsAt(p, at) && started == Processes(p, at) && openFiles == FilesOpened(p, at)
    && RunFrom(p, 0, code) == Outcome(at + RunFrom(p, pos, code).started, RunFrom(p, pos, code).ending)
  }

  /** The run ends like this: the ending, the processes and the files are those of the meaning. */
  ghost predicate EndsAs(p: seq<Node>, code: Codes, r: Ending, started: seq<Process>, openFiles: seq<OpenFile>)
    requires Runnable(p)
  {
    var meaning := RunFrom(p, 0, code);
    && r == meaning.ending && CommandsAt(p, meaning.started)
    && started == Processes(p, meaning.started) && openFiles == FilesOpened(p, meaning.started)
  }

  lemma EndsWithRightFiles(p: seq<Node>, code: Codes, r: Ending, started: seq<Process>, openFiles: seq<OpenFile>)
    requires Runnable(p) && EndsAs(p, code, r, started, openFiles)
    ensures RightFiles(p, started, openFiles)
  {
    hide RunFrom, RightFiles, Runnable, Processes, FilesOpened;
    StartedHaveRightFiles(p, RunFrom(p, 0, code).started);
  }

  lemma RunBegins(p: seq<Node>, code: Codes)
    requires Runnable(p)
    ensures Running(p, code, 0, [], [], [])
    ensures !ReadsPipe(p, 0) && DirsBefore(p, 0) == []
    ensures FilesKept([], [], []) && [] + Positions([]) == []
  {
    assert [] + RunFrom(p, 0, code).started == RunFrom(p, 0, code).started;
  }

  /** What the meaning says about the next node, if it is a cd or missing. */
  lemma RunningHere(p: seq<Node>, code: Codes, pos: nat, at: seq<nat>, started: seq<Process>, openFiles: seq<OpenFile>)
    requires Running(p, code, pos, at, started, openFiles)
    ensures Runnable(p) && pos % 2 == 0
    ensures pos == |p| ==> EndsAs(p, code, NoStatus, started, openFiles)
    ensures pos < |p| ==> p[pos].Command? || p[pos].Chdir?
    ensures pos + 1 < |p| ==> p[pos + 1].IsOp() && pos + 2 < |p|
    ensures pos + 1 < |p| && p[pos].Chdir? ==> p[pos + 1] == And
    ensures pos < |p| && p[pos].Chdir? ==>
              if pos + 1 == |p| then EndsAs(p, code, PopFromEmpty, started, openFiles)
              else if p[pos].dir == None then EndsAs(p, code, BadDirectory, started, openFiles)
              else && Running(p, code, pos + 2, at, started, openFiles)
                   && ReadsPipe(p, pos + 2) == ReadsPipe(p, pos)
                   && DirsBefore(p, pos + 2) == DirsBefore(p, pos) + [p[pos].dir.value]
  {
    hide Processes, FilesOpened, Alternates;
    assert at + [] == at;
    if pos < |p| {
      ItemHere(p, pos);
      if p[pos].Chdir? && pos + 1 < |p| {
        assert ChdirOk(p[pos], Some(p[pos + 1]));
      }
    }
  }

  /** Whether run returns after the command at pos. */
  ghost predicate Stops(p: seq<Node>, code: Codes, pos: nat)
    requires pos < |p|
  {
    pos + 1 == |p| || (p[pos + 1] == Or && code(pos) == 0) || (p[pos + 1] == And && code(pos) != 0)
  }

  ghost predicate StoppedAfter(p: seq<Node>, code: Codes, pos: nat, at: seq<nat>, started: seq<Process>, openFiles: seq<OpenFile>) {
    Runnable(p) && EndsAs(p, code, Returned(code(pos)), started, openFiles) && RunFrom(p, 0, code).started == at
  }

  ghost predicate GoesOnAfter(p: seq<Node>, code: Codes, pos: nat, at: seq<nat>, started: seq<Process>, openFiles: seq<OpenFile>) {
    && pos + 2 <= |p| && Running(p, code, pos + 2, at, started, openFiles)
    && ReadsPipe(p, pos + 2) == (p[pos + 1] == Pipe) && DirsBefore(p, pos + 2) == DirsBefore(p, pos)
  }

  ghost function ProcessNow(p: seq<Node>, pos: nat, at: seq<nat>, before: seq<OpenFile>): Process
    requires pos < |p| && p[pos].Command?
  {
    ProcessAt(p, pos, if at == [] then 0 else at[|at| - 1], |before|)
  }

  /** The command at pos has been started as the meaning prescribes; the operator after it decides how to go on. */
  lemma CommandStarted(p: seq<Node>, code: Codes, pos: nat, at: seq<nat>, started: seq<Process>,
                       before: seq<OpenFile>, openFiles: seq<OpenFile>, proc: Process)
    requires pos < |p| && p[pos].Command?
    requires Running(p, code, pos, at, started, before)
    requires openFiles == before + FilesOf(p, pos)
    requires proc == ProcessNow(p, pos, at, before)
    ensures Stops(p, code, pos) ==> StoppedAfter(p, code, pos, at + [pos], started + [proc], openFiles)
    ensures !Stops(p, code, pos) ==> GoesOnAfter(p, code, pos, at + [pos], started + [proc], openFiles)
  {
    hide ProcessAt, FilesOf, Runnable, Processes, FilesOpened, CommandsAt, RunFrom, ReadsPipe, DirsBefore, Stops;
    CommandRuns(p, code, pos);
    OneMoreStarted(p, pos, at, before);
    assert at + [pos] + [] == at + [pos];
    if !Stops(p, code, pos) {
      assert at + ([pos] + RunFrom(p, pos + 2, code).started) == at + [pos] + RunFrom(p, pos + 2, code).started;
    }
  }

  lemma CommandRuns(p: seq<Node>, code: Codes, pos: nat)
    requires Runnable(p) && pos < |p| && pos % 2 == 0 && p[pos].Command?
    ensures !Stops(p, code, pos) ==> pos + 2 < |p|
    ensures RunFrom(p, pos, code) ==
            if Stops(p, code, pos)
            then Outcome([pos], Returned(code(pos)))
            else Outcome([pos] + RunFrom(p, pos + 2, code).started, RunFrom(p, pos + 2, code).ending)
    ensures !Stops(p, code, pos) ==>
              ReadsPipe(p, pos + 2) == (p[pos + 1] == Pipe) && DirsBefore(p, pos + 2) == DirsBefore(p, pos)
  {
    ItemHere(p, pos);
    hide IsPipeline;
  }

  lemma OneMoreStarted(p: seq<Node>, pos: nat, at: seq<nat>, before: seq<OpenFile>)
    requires CommandsAt(p, at) && before == FilesOpened(p, at) && pos < |p| && p[pos].Command?
    ensures CommandsAt(p, at + [pos])
    ensures FilesOpened(p, at + [pos]) == before + FilesOf(p, pos)
    ensures Processes(p, at + [pos]) ==
            Processes(p, at) + [ProcessAt(p, pos, if at == [] then 0 else at[|at| - 1], |before|)]
  {
    hide ProcessAt, FilesOf;
    var longer := at + [pos];
    assert longer[..|at|] == at && longer[|at|] == pos;
  }

  /** Opens the files of the command at pos and starts it. */
  method Start(pipeline: seq<Node>, pos: nat, ghost at: seq<nat>, piped: bool, pipedCommands: seq<Process>, cwd: seq<string>,
               openFiles: seq<OpenFile>, ghost closed: seq<nat>, filesToClose: seq<Option<nat>>)
    returns (openFiles': seq<OpenFile>, filesToClose': seq<Option<nat>>, proc: Process)
    requires pos < |pipeline| && pipeline[pos].Command? && FilesKept(openFiles, closed, filesToClose)
    requires piped == ReadsPipe(pipeline, pos) && cwd == DirsBefore(pipeline, pos)
    requires piped ==> pipedCommands != [] && at != [] && pipedCommands[|pipedCommands| - 1].at == at[|at| - 1]
    ensures openFiles' == openFiles + FilesOf(pipeline, pos) && FilesKept(openFiles', closed, filesToClose')
    ensures proc == ProcessNow(pipeline, pos, at, openFiles)
  {
    hide ReadsPipe, DirsBefore, FilesKept, StreamFiles, SinkOf, IsDevNull;
    openFiles', filesToClose' := openFiles, filesToClose;
    var node := pipeline[pos];
    var stdin := OwnInput;
    if piped {
      stdin := FromPipe(pipedCommands[|pipedCommands| - 1].at);
    } else if node.stdin.Some? {
      stdin := FromFile(|openFiles'|);
      openFiles', filesToClose' := OpenIn(node.stdin.value, openFiles', closed, filesToClose');
    }
    assert openFiles' == openFiles + InputFiles(pipeline, pos);
    var stdout, stderr;
    openFiles', filesToClose', stdout := OpenStream(node.stdout, openFiles', closed, filesToClose');
    openFiles', filesToClose', stderr := OpenStream(node.stderr, openFiles', closed, filesToClose');
    proc := Process(pos, node.argv, stdin, stdout, stderr, node.env, cwd);
  }

  lemma LastWaited(waited: seq<nat>, piped: seq<Process>, at: seq<nat>)
    requires waited + Positions(piped) == at
    ensures piped != [] ==> at != [] && piped[|piped| - 1].at == at[|at| - 1]
  {
    if piped != [] {
      assert at[|at| - 1] == Positions(piped)[|piped| - 1];
    }
  }

  lemma LastPiped(waited: seq<nat>, piped: seq<Process>, at: seq<nat>, proc: Process)
    requires waited + Positions(piped) == at
    ensures waited + Positions(piped + [proc]) == at + [proc.at]
    ensures Positions([]) == [] && at + [proc.at] + [] == at + [proc.at]
  {
    assert Positions(piped + [proc]) == Positions(piped) + [proc.at];
  }

  /** run, for every pipeline that parse can return (or none at all) and all exit codes: it starts exactly the
      commands the meaning prescribes, each with the right files, pipe, bindings and directory, and ends as prescribed;
      whenever it returns a status, every started process has been waited for, in order, and every file it opened has
      been closed exactly once. */
  method Run(pipeline: seq<Node>, code: Codes)
    returns (r: Ending, started: seq<Process>, openFiles: seq<OpenFile>, closed: seq<nat>, waited: seq<nat>)
    requires Runnable(pipeline)
    ensures EndsAs(pipeline, code, r, started, openFiles)
    ensures RightFiles(pipeline, started, openFiles)
    ensures r.Returned? ==> closed == FirstNumbers(|openFiles|) && waited == RunFrom(pipeline, 0, code).started
  {
    hide RunFrom, Runnable, Processes, FilesOpened, CommandsAt, Handles, FirstNumbers, ReadsPipe, DirsBefore;
    hide Running, FilesKept, Positions, EndsAs, StreamFiles, SinkOf, IsDevNull, RightFiles;
    started, openFiles, closed, waited := [], [], [], [];
    var nodes, pos := pipeline, 0;
    var filesToClose: seq<Option<nat>> := [];
    var pipedCommands: seq<Process> := [];
    var piped := false;
    var cwd: seq<string> := [];
    ghost var at: seq<nat> := [];
    RunBegins(pipeline, code);
    while nodes != []
      invariant pos <= |pipeline| && nodes == pipeline[pos..]
      invariant Running(pipeline, code, pos, at, started, openFiles)
      invariant piped == ReadsPipe(pipeline, pos) && cwd == DirsBefore(pipeline, pos)
      invariant piped ==> pipedCommands != []
      invariant FilesKept(openFiles, closed, filesToClose)
      invariant waited + Positions(pipedCommands) == at
      decreases |nodes|
    {
      var node := nodes[0];
      nodes := nodes[1..];
      RunningHere(pipeline, code, pos, at, started, openFiles);
      if node.Chdir? {
        if nodes == [] {
          EndsWithRightFiles(pipeline, code, PopFromEmpty, started, openFiles);
          return PopFromEmpty, started, openFiles, closed, waited;
        }
        assert nodes[0] == And;
        nodes := nodes[1..];
        if node.dir == None {
          EndsWithRightFiles(pipeline, code, BadDirectory, started, openFiles);
          return BadDirectory, started, openFiles, closed, waited;
        }
        cwd := cwd + [node.dir.value];
        pos := pos + 2;
        continue;
      }

      assert node.Command?;
      ghost var before := openFiles;
      LastWaited(waited, pipedCommands, at);
      var proc;
      openFiles, filesToClose, proc := Start(pipeline, pos, at, piped, pipedCommands, cwd, openFiles, closed, filesToClose);
      LastPiped(waited, pipedCommands, at, proc);
      CommandStarted(pipeline, code, pos, at, started, before, openFiles, proc);
      started, pipedCommands, at := started + [proc], pipedCommands + [proc], at + [pos];

      if nodes == [] {
        var retval, done := ExecPipedCommands(pipedCommands, code);
        var more := CloseFiles(filesToClose);
        AllClosed(openFiles, closed, filesToClose);
        EndsWithRightFiles(pipeline, code, Returned(retval), started, openFiles);
        return Returned(retval), started, openFiles, closed + more, waited + done;
      }
      var nextNode := nodes[0];
      nodes := nodes[1..];
      if nextNode == Pipe {
        piped := true;
      } else {
        var thisRetval, done := ExecPipedCommands(pipedCommands, code);
        var more := CloseFiles(filesToClose);
        AllClosed(openFiles, closed, filesToClose);
        waited, closed, filesToClose := waited + done, closed + more, [];
        if (nextNode == Or && thisRetval == 0) || (nextNode == And && thisRetval != 0) {
          EndsWithRightFiles(pipeline, code, Returned(thisRetval), started, openFiles);
          return Returned(thisRetval), started, openFiles, closed, waited;
        }
        piped, pipedCommands := false, [];
      }
      pos := pos + 2;
    }
    RunningHere(pipeline, code, pos, at, started, openFiles);
    EndsWithRightFiles(pipeline, code, NoStatus, started, openFiles);
    r := NoStatus;
  }
}
