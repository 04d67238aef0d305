/** The parallel test runner of test.py as a state machine: one main thread, any number of worker threads, an input
    queue, an output queue, and a signal handler that may set thread_exit at any moment. */
module Dispatcher {

  /** The flags of class Job that the protocol reads. */
  datatype Job = Job(id: nat, isBreak: bool, isSkip: bool, returncode: int)

  /** Which jobs there are (and which of them are to be skipped), and how many worker threads. */
  datatype Config = Config(skips: seq<bool>, workers: nat)
  {
    function Jobs(): nat { |skips| }

    /** The special job that tells a worker to stop; its id is that of no real job. */
    function Pill(): Job { Job(Jobs(), true, false, 0) }
  }

  datatype MainPc =
    | Dispatching(sent: nat)
    | Stopping(pills: nat)
    | Collecting(received: nat)
    | Joining(joined: nat)
    | Finished

  datatype WorkerPc = Getting | Got(job: Job) | Running(job: Job) | Putting(job: Job) | Exited

  datatype Tally = Tally(passed: nat, failed: nat, valgrind: nat, crashed: nat, skipped: nat)

  /** The last three fields only record history: the jobs collected so far, the return code of every job that was
      really executed, and how many pills each worker took. */
  datatype State = State(
    main: MainPc,
    input: seq<Job>,
    output: seq<Job>,
    workers: seq<WorkerPc>,
    threadExit: bool,
    tally: Tally,
    total: nat,
    collected: seq<Job>,
    executed: map<nat, int>,
    pillsTaken: seq<nat>)

  datatype Event = MainMoves | WorkerMoves(w: nat, code: int) | Interrupt

  function Init(c: Config): State {
    State(Dispatching(0), [], [], seq(c.workers, _ => Getting), false, Tally(0, 0, 0, 0, 0), 0,
          [], map[], seq(c.workers, _ => 0))
  }

  /** How the collector counts one result; a job that came back as a break is not counted at all. */
  function Counted(t: Tally, job: Job): Tally {
    if job.isBreak then t
    else if job.isSkip then t.(skipped := t.skipped + 1)
    else if job.returncode == 0 then t.(passed := t.passed + 1)
    else if job.returncode == 1 then t.(failed := t.failed + 1)
    else if job.returncode == 2 then t.(valgrind := t.valgrind + 1)
    else t.(crashed := t.crashed + 1)
  }

  // ----- the main thread

  predicate MainEnabled(c: Config, s: State) {
    match s.main
    case Dispatching(_) => true
    case Stopping(_) => true
    case Collecting(received) => received < s.total ==> s.output != []
    case Joining(joined) => joined < |s.workers| ==> s.workers[joined].Exited?
    case Finished => false
  }

  function MainNext(c: Config, s: State): State
    requires MainEnabled(c, s)
  {
    match s.main
    case Dispatching(sent) =>
      if sent < c.Jobs() then
        s.(input := s.input + [Job(sent, false, c.skips[sent], 0)], total := s.total + 1, main := Dispatching(sent + 1))
      else s.(main := Stopping(0))
    case Stopping(pills) =>
      if pills < c.workers then s.(input := s.input + [c.Pill()], main := Stopping(pills + 1))
      else s.(main := Collecting(0))
    case Collecting(received) =>
      if received < s.total then
        s.(output := s.output[1..], tally := Counted(s.tally, s.output[0]), collected := s.collected + [s.output[0]],
           main := Collecting(received + 1))
      else s.(main := Joining(0))
    case Joining(joined) =>
      if joined < |s.workers| then s.(main := Joining(joined + 1)) else s.(main := Finished)
  }

  // ----- a worker thread

  predicate WorkerEnabled(s: State, w: nat) {
    w < |s.workers| && !s.workers[w].Exited? && (s.workers[w].Getting? ==> s.input != [])
  }

  /** code is what the job's process returns, if this move is the end of one. */
  function WorkerNext(c: Config, s: State, w: nat, code: int): State
    requires WorkerEnabled(s, w) && |s.pillsTaken| == |s.workers|
  {
    match s.workers[w]
    case Getting =>
      s.(input := s.input[1..], workers := s.workers[w := Got(s.input[0])],
         pillsTaken := if s.input[0].isBreak then s.pillsTaken[w := s.pillsTaken[w] + 1] else s.pillsTaken)
    case Got(job) =>
      if job.isBreak then s.(workers := s.workers[w := Exited])
      else if s.threadExit then s.(workers := s.workers[w := Putting(job.(isBreak := true))])
      else if job.isSkip then s.(workers := s.workers[w := Putting(job)])
      else s.(workers := s.workers[w := Running(job)])
    case Running(job) =>
      s.(workers := s.workers[w := Putting(job.(returncode := code))], executed := s.executed[job.id := code])
    case Putting(job) =>
      s.(output := s.output + [job], workers := s.workers[w := Getting])
  }

  // ----- runs

  ghost predicate Step(c: Config, s: State, e: Event, s': State) {
    match e
    case MainMoves => MainEnabled(c, s) && s' == MainNext(c, s)
    case WorkerMoves(w, code) =>
      WorkerEnabled(s, w) && |s.pillsTaken| == |s.workers| && s' == WorkerNext(c, s, w, code)
    case Interrupt => s' == s.(threadExit := true)
  }

  /** Any interleaving at all. */
  ghost predicate IsRun(c: Config, states: seq<State>, events: seq<Event>) {
    && |states| == |events| + 1 && states[0] == Init(c)
    && forall i :: 0 <= i < |events| ==> Step(c, states[i], events[i], states[i + 1])
  }

  ghost predicate Reachable(c: Config, s: State) {
    exists states, events :: IsRun(c, states, events) && states[|states| - 1] == s
  }

  /** The exit status that run_tests computes. */
  function ExitStatus(s: State): int {
    if s.tally.passed + s.tally.skipped == s.total then 0 else 1
  }
}
