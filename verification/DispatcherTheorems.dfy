/** What the invariant gives for whole runs of the parallel test runner: no deadlock, termination, and a correct
    summary, for every number of jobs and workers and every interleaving. */
module DispatcherTheorems {
  import opened Dispatcher
  import opened DispatcherInvariant

  ghost predicate Enabled(c: Config, s: State, e: Event) {
    match e
    case MainMoves => MainEnabled(c, s)
    case WorkerMoves(w, _) => WorkerEnabled(s, w)
    case Interrupt => false
  }

  /** No thread can move; only a signal could still arrive. */
  ghost predicate Stuck(c: Config, s: State) {
    forall e :: !Enabled(c, s, e)
  }

  // ----- no deadlock

  lemma CollectorIsFed(c: Config, s: State) returns (e: Event)
    requires Inv(c, s) && s.main.Collecting? && !MainEnabled(c, s) && c.workers > 0
    ensures Enabled(c, s, e)
  {
    hide PillsLast, Contents, Held, CountIn, ExitedCount, Busy;
    if w: nat :| w < |s.workers| && WorkerEnabled(s, w) {
      e := WorkerMoves(w, 0);
    } else {
      WorkersSplit(s.workers);
      forall w: nat | w < |s.workers| ensures s.workers[w].Getting? || s.workers[w].Exited? {
        assert !WorkerEnabled(s, w);
      }
      assert |s.input| + ExitedCount(s.workers) > c.workers;
      assert s.input != [];
      forall w: nat | w < |s.workers| ensures s.workers[w].Exited? {
        assert !WorkerEnabled(s, w);
      }
      assert Stopped(c, s.workers[0]);
      OnlyPillsQueued(c, s, 0);
      PillsQueued(c, s.input);
      assert false;
    }
  }

  lemma OnlyPillsQueued(c: Config, s: State, w: nat)
    requires PillsLast(c, s) && w < |s.workers| && Stopped(c, s.workers[w])
    ensures forall i :: 0 <= i < |s.input| ==> s.input[i] == c.Pill()
  {
  }

  lemma {:induction false} PillsQueued(c: Config, js: seq<Job>)
    requires forall i :: 0 <= i < |js| ==> js[i] == c.Pill()
    ensures CountIn(js, c.Jobs()) == |js|
  {
    if js != [] {
      PillsQueued(c, js[..|js| - 1]);
    }
  }

  lemma {:induction false} CountBound(js: seq<Job>, id: nat)
    ensures CountIn(js, id) <= |js|
  {
    if js != [] {
      CountBound(js[..|js| - 1], id);
    }
  }

  lemma {:induction false} NoPillInResults(c: Config, s: State, js: seq<Job>)
    requires forall i :: 0 <= i < |js| ==> Result(c, s, js[i])
    ensures CountIn(js, c.Jobs()) == 0
  {
    if js != [] {
      NoPillInResults(c, s, js[..|js| - 1]);
    }
  }

  /** Once all results are in, only pills and their takers are left. */
  lemma OnlyPillsLeft(c: Config, s: State)
    requires Inv(c, s) && (s.main.Joining? || s.main.Finished?)
    ensures s.output == [] && |s.input| + Busy(s.workers) + ExitedCount(s.workers) == c.workers
  {
    hide Held, CountIn, ExitedCount, Busy, PillsLast, Result;
    NoPillInResults(c, s, s.output);
    NoPillInResults(c, s, s.collected);
    CountBound(s.input, c.Jobs());
    WorkersSplit(s.workers);
  }

  lemma JoinIsReached(c: Config, s: State) returns (e: Event)
    requires Inv(c, s) && s.main.Joining? && !MainEnabled(c, s)
    ensures Enabled(c, s, e)
  {
    hide Held, CountIn, ExitedCount, Busy, PillsLast, Contents;
    var w := s.main.joined;
    OnlyPillsLeft(c, s);
    WorkersSplit(s.workers);
    e := WorkerMoves(w, 0);
  }

  /** Unless the run is finished, the main thread or some worker can move. */
  lemma NoDeadlock(c: Config, s: State)
    requires Inv(c, s) && !s.main.Finished? && (c.workers > 0 || c.Jobs() == 0)
    ensures !Stuck(c, s)
  {
    hide PillsLast, Contents, Accounted;
    if MainEnabled(c, s) {
      assert Enabled(c, s, MainMoves);
    } else if s.main.Collecting? {
      var e := CollectorIsFed(c, s);
    } else {
      var e := JoinIsReached(c, s);
    }
  }

  // ----- termination

  ghost function QueueWork(c: Config, js: seq<Job>): nat {
    if js == [] then 0 else QueueWork(c, js[..|js| - 1]) + (if js[|js| - 1] == c.Pill() then 2 else 4)
  }

  ghost function WorkOf(c: Config, pc: WorkerPc): nat {
    match pc
    case Getting => 0
    case Got(job) => if job == c.Pill() then 1 else 3
    case Running(_) => 2
    case Putting(_) => 1
    case Exited => 0
  }

  ghost function WorkersWork(c: Config, ws: seq<WorkerPc>): nat {
    if ws == [] then 0 else WorkersWork(c, ws[..|ws| - 1]) + WorkOf(c, ws[|ws| - 1])
  }

  ghost function MainWork(c: Config, s: State): int {
    var n, m := c.Jobs(), c.workers;
    match s.main
    case Dispatching(sent) => 5 * (n - sent) + 3 * m + n + m + 4
    case Stopping(pills) => 3 * (m - pills) + n + m + 3
    case Collecting(received) => n - received + m + 2
    case Joining(joined) => m - joined + 1
    case Finished => 0
  }

  /** A bound on the moves still to come. */
  ghost function Remaining(c: Config, s: State): int {
    MainWork(c, s) + QueueWork(c, s.input) + WorkersWork(c, s.workers)
  }

  lemma {:induction false} QueueWorkTail(c: Config, js: seq<Job>)
    requires js != []
    ensures QueueWork(c, js) == QueueWork(c, js[1..]) + (if js[0] == c.Pill() then 2 else 4)
  {
    if |js| > 1 {
      QueueWorkTail(c, js[..|js| - 1]);
      assert js[1..][..|js| - 2] == js[..|js| - 1][1..];
    }
  }

  lemma QueueWorkSnoc(c: Config, js: seq<Job>, j: Job)
    ensures QueueWork(c, js + [j]) == QueueWork(c, js) + (if j == c.Pill() then 2 else 4)
  {
    assert (js + [j])[..|js|] == js;
  }

  lemma {:induction false} WorkersWorkUpdate(c: Config, ws: seq<WorkerPc>, w: nat, pc: WorkerPc)
    requires w < |ws|
    ensures WorkersWork(c, ws[w := pc]) + WorkOf(c, ws[w]) == WorkersWork(c, ws) + WorkOf(c, pc)
  {
    hide WorkOf;
    var last := |ws| - 1;
    if w < last {
      WorkersWorkUpdate(c, ws[..last], w, pc);
      assert ws[w := pc][..last] == ws[..last][w := pc];
    } else {
      assert ws[w := pc][..last] == ws[..last];
    }
  }

  lemma MainProgress(c: Config, s: State)
    requires Inv(c, s) && MainEnabled(c, s)
    ensures Remaining(c, MainNext(c, s)) < Remaining(c, s)
  {
    hide Accounted, PillsLast, Contents, QueueWork, WorkersWork, TallyOf, Counted;
    match s.main
    case Dispatching(sent) =>
      if sent < c.Jobs() {
        QueueWorkSnoc(c, s.input, Job(sent, false, c.skips[sent], 0));
      }
    case Stopping(pills) =>
      if pills < c.workers {
        QueueWorkSnoc(c, s.input, c.Pill());
      }
    case Collecting(_) =>
    case Joining(_) =>
      WorkersAreWorkers(c, s);
  }

  lemma WorkersAreWorkers(c: Config, s: State)
    requires Accounted(c, s)
    ensures |s.workers| == c.workers
  {
  }

  lemma WorkerProgress(c: Config, s: State, w: nat, code: int)
    requires Inv(c, s) && WorkerEnabled(s, w)
    ensures Remaining(c, WorkerNext(c, s, w, code)) < Remaining(c, s)
  {
    PillsCounted(c, s);
    WorkerOwnWork(c, s, w, code);
    WorkerShape(c, s, w, code);
    hide Inv, QueueWork, WorkersWork, WorkOf, WorkerNext;
    var s' := WorkerNext(c, s, w, code);
    WorkersWorkUpdate(c, s.workers, w, s'.workers[w]);
    if s.workers[w].Getting? {
      QueueWorkTail(c, s.input);
    }
  }

  /** A worker's move lowers what is left of its own job, or takes a job over from the queue. */
  lemma WorkerOwnWork(c: Config, s: State, w: nat, code: int)
    requires Inv(c, s) && WorkerEnabled(s, w) && |s.pillsTaken| == |s.workers|
    ensures var pc := WorkerNext(c, s, w, code).workers[w];
            WorkOf(c, pc) + 1 == WorkOf(c, s.workers[w])
              + (if s.workers[w].Getting? then (if s.input[0] == c.Pill() then 2 else 4) else 0)
            || WorkOf(c, pc) + 2 == WorkOf(c, s.workers[w])
  {
    GotIsPillOrFresh(c, s, w);
    hide Accounted, PillsLast, Contents, Phase;
  }

  lemma RemainingIsNat(c: Config, s: State)
    requires Inv(c, s)
    ensures Remaining(c, s) >= 0
  {
    hide PillsLast, Contents, QueueWork, WorkersWork;
  }

  ghost function Moves(events: seq<Event>): nat {
    if events == [] then 0 else Moves(events[..|events| - 1]) + (if events[|events| - 1].Interrupt? then 0 else 1)
  }

  lemma StepProgress(c: Config, s: State, e: Event, s': State)
    requires Inv(c, s) && Step(c, s, e, s')
    ensures Remaining(c, s') + (if e.Interrupt? then 0 else 1) <= Remaining(c, s)
  {
    hide Inv, MainNext, WorkerNext, QueueWork, WorkersWork;
    match e
    case MainMoves => MainProgress(c, s);
    case WorkerMoves(w, code) => WorkerProgress(c, s, w, code);
    case Interrupt =>
  }

  /** Every run makes a bounded number of moves, however the threads interleave and whenever the signal comes. */
  lemma {:induction false} MovesAreBounded(c: Config, states: seq<State>, events: seq<Event>)
    requires IsRun(c, states, events)
    ensures Moves(events) + Remaining(c, states[|events|]) <= 6 * c.Jobs() + 4 * c.workers + 4
    decreases |events|
  {
    hide Step, Remaining, Inv;
    if events == [] {
      InitRemaining(c);
    } else {
      MovesAreBounded(c, states[..|events|], events[..|events| - 1]);
      RunInv(c, states, events);
      var last := |events| - 1;
      assert Step(c, states[last], events[last], states[last + 1]);
      StepProgress(c, states[last], events[last], states[last + 1]);
    }
  }

  lemma {:induction false} IdleWork(c: Config, ws: seq<WorkerPc>)
    requires forall w :: 0 <= w < |ws| ==> ws[w].Getting?
    ensures WorkersWork(c, ws) == 0
  {
    if ws != [] {
      IdleWork(c, ws[..|ws| - 1]);
    }
  }

  lemma InitRemaining(c: Config)
    ensures Remaining(c, Init(c)) == 6 * c.Jobs() + 4 * c.workers + 4
  {
    IdleWork(c, Init(c).workers);
  }

  // ----- the summary

  ghost predicate PassOrSkip(job: Job) {
    HasStatus(job, PASS) || HasStatus(job, SKIP)
  }

  lemma {:induction false} TallyAddsUp(js: seq<Job>)
    ensures var t := TallyOf(js);
            t.passed + t.failed + t.valgrind + t.crashed + t.skipped + CountOf(js, BREAK) == |js|
  {
    if js != [] {
      TallyAddsUp(js[..|js| - 1]);
    }
  }

  lemma {:induction false} TallyAllGood(js: seq<Job>)
    ensures var t := TallyOf(js);
            && t.passed + t.skipped <= |js|
            && (t.passed + t.skipped == |js| <==> forall i :: 0 <= i < |js| ==> PassOrSkip(js[i]))
  {
    if js != [] {
      var last := |js| - 1;
      TallyAllGood(js[..last]);
      assert forall i :: 0 <= i < last ==> js[..last][i] == js[i];
    }
  }

  datatype Status = PASS | FAIL | VALGR | CRASH | SKIP | BREAK

  /** What the return code of a job means. */
  ghost predicate HasStatus(job: Job, status: Status) {
    match status
    case BREAK => job.isBreak
    case SKIP => !job.isBreak && job.isSkip
    case PASS => !job.isBreak && !job.isSkip && job.returncode == 0
    case FAIL => !job.isBreak && !job.isSkip && job.returncode == 1
    case VALGR => !job.isBreak && !job.isSkip && job.returncode == 2
    case CRASH => !job.isBreak && !job.isSkip && job.returncode !in {0, 1, 2}
  }

  ghost function CountOf(js: seq<Job>, status: Status): nat {
    if js == [] then 0 else CountOf(js[..|js| - 1], status) + (if HasStatus(js[|js| - 1], status) then 1 else 0)
  }

  ghost predicate TallyIsRight(t: Tally, js: seq<Job>) {
    && t.passed == CountOf(js, PASS) && t.failed == CountOf(js, FAIL) && t.valgrind == CountOf(js, VALGR)
    && t.crashed == CountOf(js, CRASH) && t.skipped == CountOf(js, SKIP)
  }

  lemma {:induction false} TallyCounts(js: seq<Job>)
    ensures TallyIsRight(TallyOf(js), js)
  {
    if js != [] {
      TallyCounts(js[..|js| - 1]);
    }
  }

  /** What is true whenever run_tests returns. */
  ghost predicate GoodSummary(c: Config, s: State) {
    && s.input == [] && s.output == []
    && |s.workers| == c.workers && (forall w :: 0 <= w < c.workers ==> s.workers[w].Exited?)
    && |s.pillsTaken| == c.workers && (forall w :: 0 <= w < c.workers ==> s.pillsTaken[w] == 1)
    && |s.collected| == s.total == c.Jobs()
    && (forall id :: 0 <= id < c.Jobs() ==> CountIn(s.collected, id) == 1)
    && (forall i :: 0 <= i < |s.collected| ==> Result(c, s, s.collected[i]))
    && TallyIsRight(s.tally, s.collected)
    && s.tally.passed + s.tally.failed + s.tally.valgrind + s.tally.crashed + s.tally.skipped + CountOf(s.collected, BREAK) == s.total
    && (ExitStatus(s) == 0 <==> forall i :: 0 <= i < |s.collected| ==> PassOrSkip(s.collected[i]))
  }

  lemma FinishedIsGood(c: Config, s: State)
    requires Inv(c, s) && s.main.Finished?
    ensures GoodSummary(c, s)
  {
    OnlyPillsLeft(c, s);
    WorkersSplit(s.workers);
    TallyAddsUp(s.collected);
    TallyAllGood(s.collected);
    TallyCounts(s.collected);
    EachCollectedOnce(c, s);
    hide Held, CountIn, ExitedCount, Busy, Result, TallyOf, TallyIsRight, CountOf, HasStatus, WorkerOk;
  }

  lemma EachCollectedOnce(c: Config, s: State)
    requires Inv(c, s) && s.main.Finished?
    ensures forall id :: 0 <= id < c.Jobs() ==> CountIn(s.collected, id) == 1
  {
    hide CountIn, ExitedCount, PillsLast, Contents;
    OnlyPillsLeft(c, s);
    WorkersSplit(s.workers);
    forall id | 0 <= id < c.Jobs() ensures CountIn(s.collected, id) == 1 {
      CountBound(s.input, id);
      assert Places(s, id) == 1;
    }
  }

  lemma {:induction false} NoSignalNoExit(c: Config, states: seq<State>, events: seq<Event>)
    requires IsRun(c, states, events) && forall i :: 0 <= i < |events| ==> !events[i].Interrupt?
    ensures !states[|events|].threadExit
  {
    for i := 0 to |events|
      invariant !states[i].threadExit
    {
      assert Step(c, states[i], events[i], states[i + 1]);
    }
  }

  /** Every run that ends: each job is collected exactly once with a result that is really its own, each worker took
      exactly one pill and exited, the counters add up, the exit status is 0 exactly when everything passed or was
      skipped; and if no signal came, nothing came back as a break. */
  lemma FinishedRunIsGood(c: Config, states: seq<State>, events: seq<Event>)
    requires IsRun(c, states, events) && states[|events|].main.Finished?
    ensures GoodSummary(c, states[|events|])
    ensures (forall i :: 0 <= i < |events| ==> !events[i].Interrupt?) ==>
              forall i :: 0 <= i < |states[|events|].collected| ==> !states[|events|].collected[i].isBreak
  {
    hide Inv, Step;
    RunInv(c, states, events);
    FinishedIsGood(c, states[|events|]);
    if forall i :: 0 <= i < |events| ==> !events[i].Interrupt? {
      NoSignalNoExit(c, states, events);
    }
  }

  // ----- every run ends, exactly when there is a worker or nothing to do

  /** Any run can be continued until no thread can move. */
  lemma {:induction false} RunToTheEnd(c: Config, states: seq<State>, events: seq<Event>)
    returns (states': seq<State>, events': seq<Event>)
    requires IsRun(c, states, events)
    ensures IsRun(c, states', events') && states <= states' && Stuck(c, states'[|events'|])
    decreases Remaining(c, states[|events|])
  {
    hide Inv, Remaining, Step, Enabled;
    var s := states[|events|];
    RunInv(c, states, events);
    RemainingIsNat(c, s);
    if Stuck(c, s) {
      states', events' := states, events;
    } else {
      var e :| Enabled(c, s, e);
      var s' := EnabledSteps(c, s, e);
      StepProgress(c, s, e, s');
      states', events' := RunToTheEnd(c, states + [s'], events + [e]);
    }
  }

  lemma EnabledSteps(c: Config, s: State, e: Event) returns (s': State)
    requires Inv(c, s) && Enabled(c, s, e)
    ensures Step(c, s, e, s') && !e.Interrupt?
  {
    PillsCounted(c, s);
    s' := match e
      case MainMoves => MainNext(c, s)
      case WorkerMoves(w, code) => WorkerNext(c, s, w, code)
      case Interrupt => s;
  }

  /** Without workers nothing ever comes back, so the collector waits for ever. */
  ghost predicate Starved(s: State) {
    && s.workers == [] && s.output == [] && s.collected == []
    && !s.main.Joining? && !s.main.Finished?
    && (s.main.Collecting? ==> s.main.received == 0)
  }

  lemma {:induction false} StarvedForEver(c: Config, states: seq<State>, events: seq<Event>)
    requires IsRun(c, states, events) && c.workers == 0 && c.Jobs() > 0
    ensures Starved(states[|events|])
  {
    hide Inv;
    RunInv(c, states, events);
    for i := 0 to |events|
      invariant Starved(states[i])
    {
      assert Inv(c, states[i]) && Step(c, states[i], events[i], states[i + 1]);
      if states[i].main.Collecting? {
        TotalIsAll(c, states[i]);
      }
    }
  }

  lemma TotalIsAll(c: Config, s: State)
    requires Inv(c, s) && s.main.Collecting?
    ensures s.total == c.Jobs()
  {
  }

  /** run_tests always returns exactly when there is at least one worker thread or no job at all. */
  lemma ReturnsIffStaffed(c: Config)
    ensures (forall s :: Reachable(c, s) && Stuck(c, s) ==> s.main.Finished?) <==> c.workers > 0 || c.Jobs() == 0
  {
    hide Inv, Stuck, Step, Init;
    if c.workers > 0 || c.Jobs() == 0 {
      forall s | Reachable(c, s) && Stuck(c, s) ensures s.main.Finished? {
        var states, events :| IsRun(c, states, events) && states[|states| - 1] == s;
        RunInv(c, states, events);
        if !s.main.Finished? {
          NoDeadlock(c, s);
        }
      }
    } else {
      assert IsRun(c, [Init(c)], []);
      var states, events := RunToTheEnd(c, [Init(c)], []);
      StarvedForEver(c, states, events);
    }
  }

  // ----- the collecting loop by itself

  /** The counting loop of run_tests over the results, in the order they arrive, and the status it returns. */
  method Summarize(results: seq<Job>, totalTests: nat) returns (t: Tally, status: int)
    requires totalTests == |results|
    ensures TallyIsRight(t, results)
    ensures status == 0 <==> forall i :: 0 <= i < |results| ==> PassOrSkip(results[i])
    ensures status == 0 || status == 1
  {
    var passed, failed, crashed, valgrind, skipped := 0, 0, 0, 0, 0;
    for i := 0 to |results|
      invariant Tally(passed, failed, valgrind, crashed, skipped) == TallyOf(results[..i])
    {
      hide TallyOf;
      var job := results[i];
      TallySnoc(results[..i], job);
      assert results[..i + 1] == results[..i] + [job];
      if job.isBreak {
        continue;
      }
      if job.isSkip {
        skipped := skipped + 1;
      } else if job.returncode == 0 {
        passed := passed + 1;
      } else if job.returncode == 1 {
        failed := failed + 1;
      } else if job.returncode == 2 {
        valgrind := valgrind + 1;
      } else {
        crashed := crashed + 1;
      }
    }
    assert results[..|results|] == results;
    t := Tally(passed, failed, valgrind, crashed, skipped);
    TallyCounts(results);
    TallyAllGood(results);
    status := if passed + skipped == totalTests then 0 else 1;
  }
}
