/** What every step of every thread keeps, in every interleaving. */
module DispatcherInvariant {
  import opened Dispatcher

  // ----- bookkeeping of who holds what

  /** How often the job is in the list. */
  ghost function CountIn(js: seq<Job>, id: nat): nat {
    if js == [] then 0 else CountIn(js[..|js| - 1], id) + (if js[|js| - 1].id == id then 1 else 0)
  }

  ghost predicate Holds(pc: WorkerPc, id: nat) {
    (pc.Got? || pc.Running? || pc.Putting?) && pc.job.id == id
  }

  ghost function HeldBy(pc: WorkerPc, id: nat): nat {
    if Holds(pc, id) then 1 else 0
  }

  ghost function BusyBy(pc: WorkerPc): nat {
    if pc.Getting? || pc.Exited? then 0 else 1
  }

  ghost function ExitedBy(pc: WorkerPc): nat {
    if pc.Exited? then 1 else 0
  }

  /** How many workers hold the job; how many hold any job; how many are gone. */
  ghost function Held(ws: seq<WorkerPc>, id: nat): nat {
    if ws == [] then 0 else Held(ws[..|ws| - 1], id) + HeldBy(ws[|ws| - 1], id)
  }

  ghost function Busy(ws: seq<WorkerPc>): nat {
    if ws == [] then 0 else Busy(ws[..|ws| - 1]) + BusyBy(ws[|ws| - 1])
  }

  ghost function ExitedCount(ws: seq<WorkerPc>): nat {
    if ws == [] then 0 else ExitedCount(ws[..|ws| - 1]) + ExitedBy(ws[|ws| - 1])
  }

  /** In how many places the job is. */
  ghost function Places(s: State, id: nat): nat {
    CountIn(s.input, id) + Held(s.workers, id) + CountIn(s.output, id) + CountIn(s.collected, id)
  }

  ghost function Sent(c: Config, s: State): nat {
    if s.main.Dispatching? then s.main.sent else c.Jobs()
  }

  ghost function PillsSent(c: Config, s: State): nat {
    if s.main.Dispatching? then 0 else if s.main.Stopping? then s.main.pills else c.workers
  }

  lemma {:induction false} CountTail(js: seq<Job>, id: nat)
    requires js != []
    ensures CountIn(js, id) == CountIn(js[1..], id) + (if js[0].id == id then 1 else 0)
  {
    if |js| > 1 {
      CountTail(js[..|js| - 1], id);
      assert js[1..][..|js| - 2] == js[..|js| - 1][1..];
    }
  }

  lemma CountSnoc(js: seq<Job>, j: Job)
    ensures forall id :: CountIn(js + [j], id) == CountIn(js, id) + (if j.id == id then 1 else 0)
  {
    assert (js + [j])[..|js|] == js;
  }

  lemma {:induction false} CountMembers(js: seq<Job>, i: nat)
    requires i < |js|
    ensures CountIn(js, js[i].id) >= 1
  {
    if i < |js| - 1 {
      CountMembers(js[..|js| - 1], i);
    }
  }

  lemma LastWorker(ws: seq<WorkerPc>)
    requires ws != []
    ensures forall id :: Held(ws, id) == Held(ws[..|ws| - 1], id) + HeldBy(ws[|ws| - 1], id)
    ensures Busy(ws) == Busy(ws[..|ws| - 1]) + BusyBy(ws[|ws| - 1])
    ensures ExitedCount(ws) == ExitedCount(ws[..|ws| - 1]) + ExitedBy(ws[|ws| - 1])
  {
  }

  lemma {:induction false} WorkerUpdate(ws: seq<WorkerPc>, w: nat, pc: WorkerPc)
    requires w < |ws|
    ensures forall id :: Held(ws[w := pc], id) + HeldBy(ws[w], id) == Held(ws, id) + HeldBy(pc, id)
    ensures Busy(ws[w := pc]) + BusyBy(ws[w]) == Busy(ws) + BusyBy(pc)
    ensures ExitedCount(ws[w := pc]) + ExitedBy(ws[w]) == ExitedCount(ws) + ExitedBy(pc)
  {
    hide Held, HeldBy, Busy, BusyBy, ExitedCount, ExitedBy;
    var last := |ws| - 1;
    LastWorker(ws);
    LastWorker(ws[w := pc]);
    if w < last {
      WorkerUpdate(ws[..last], w, pc);
      assert ws[w := pc][..last] == ws[..last][w := pc];
    } else {
      assert ws[w := pc][..last] == ws[..last];
    }
  }

  lemma {:induction false} HeldMembers(ws: seq<WorkerPc>, w: nat, id: nat)
    requires w < |ws|
    ensures HeldBy(ws[w], id) <= Held(ws, id)
    ensures ExitedBy(ws[w]) <= ExitedCount(ws)
  {
    if w < |ws| - 1 {
      HeldMembers(ws[..|ws| - 1], w, id);
    }
  }

  /** Two workers never hold the same job if it is held only once. */
  lemma {:induction false} HeldOnce(ws: seq<WorkerPc>, v: nat, w: nat, id: nat)
    requires v < w < |ws| && Holds(ws[v], id) && Holds(ws[w], id)
    ensures Held(ws, id) >= 2
  {
    var last := |ws| - 1;
    if w < last {
      HeldOnce(ws[..last], v, w, id);
    } else {
      HeldMembers(ws[..last], v, id);
    }
  }

  /** Workers that hold something, workers that are gone, and the rest. */
  lemma {:induction false} WorkersSplit(ws: seq<WorkerPc>)
    ensures Busy(ws) + ExitedCount(ws) <= |ws|
    ensures forall w :: 0 <= w < |ws| && ws[w].Getting? ==> Busy(ws) + ExitedCount(ws) < |ws|
    ensures forall w :: 0 <= w < |ws| && !ws[w].Exited? ==> ExitedCount(ws) < |ws|
    ensures (forall w :: 0 <= w < |ws| ==> ws[w].Exited?) ==> ExitedCount(ws) == |ws|
    ensures (forall w :: 0 <= w < |ws| ==> ws[w].Getting? || ws[w].Exited?) ==> Busy(ws) == 0
    ensures forall id :: Held(ws, id) <= Busy(ws)
  {
    if ws != [] {
      hide Held, Busy, ExitedCount;
      var last := |ws| - 1;
      LastWorker(ws);
      WorkersSplit(ws[..last]);
      assert forall w :: 0 <= w < last ==> ws[..last][w] == ws[w];
    }
  }

  // ----- the invariant

  /** Every dispatched job is in exactly one place; so is every pill, until a worker exits on it. */
  ghost predicate Accounted(c: Config, s: State) {
    && |s.workers| == c.workers
    && (forall id :: 0 <= id < c.Jobs() ==> Places(s, id) == if id < Sent(c, s) then 1 else 0)
    && Places(s, c.Jobs()) + ExitedCount(s.workers) == PillsSent(c, s)
    && |s.input| + Busy(s.workers) + |s.output| + |s.collected| + ExitedCount(s.workers) == Sent(c, s) + PillsSent(c, s)
  }

  ghost predicate Stopped(c: Config, pc: WorkerPc) {
    pc.Exited? || pc == Got(c.Pill())
  }

  /** Pills are behind all jobs: once a worker has one, no job is left in the queue. */
  ghost predicate PillsLast(c: Config, s: State) {
    && (forall i, j :: 0 <= i < j < |s.input| && s.input[i] == c.Pill() ==> s.input[j] == c.Pill())
    && (forall w, i :: 0 <= w < |s.workers| && Stopped(c, s.workers[w]) && 0 <= i < |s.input| ==> s.input[i] == c.Pill())
    && |s.pillsTaken| == |s.workers|
    && (forall w :: 0 <= w < |s.workers| ==> s.pillsTaken[w] == if Stopped(c, s.workers[w]) then 1 else 0)
  }

  /** A job as it was dispatched and not yet run. */
  ghost predicate Fresh(c: Config, s: State, job: Job) {
    job.id < c.Jobs() && job == Job(job.id, false, c.skips[job.id], 0) && job.id !in s.executed
  }

  /** A result: what became of a job. Only an interrupt makes a break; a skipped or broken job was not executed;
      any other was, and carries the code its execution returned. */
  ghost predicate Result(c: Config, s: State, job: Job) {
    && job.id < c.Jobs() && job.isSkip == c.skips[job.id]
    && (job.isBreak ==> s.threadExit)
    && (job.isBreak || job.isSkip ==> job.id !in s.executed)
    && (!job.isBreak && !job.isSkip ==> job.id in s.executed && s.executed[job.id] == job.returncode)
  }

  ghost predicate WorkerOk(c: Config, s: State, pc: WorkerPc) {
    match pc
    case Getting => true
    case Got(job) => job == c.Pill() || Fresh(c, s, job)
    case Running(job) => Fresh(c, s, job) && !job.isSkip
    case Putting(job) => Result(c, s, job)
    case Exited => true
  }

  ghost predicate Contents(c: Config, s: State) {
    && (forall i :: 0 <= i < |s.input| ==> s.input[i] == c.Pill() || Fresh(c, s, s.input[i]))
    && (forall w :: 0 <= w < |s.workers| ==> WorkerOk(c, s, s.workers[w]))
    && (forall i :: 0 <= i < |s.output| ==> Result(c, s, s.output[i]))
    && (forall i :: 0 <= i < |s.collected| ==> Result(c, s, s.collected[i]))
    && (forall id :: id in s.executed ==> id < Sent(c, s))
  }

  ghost function TallyOf(js: seq<Job>): Tally {
    if js == [] then Tally(0, 0, 0, 0, 0) else Counted(TallyOf(js[..|js| - 1]), js[|js| - 1])
  }

  /** Where the main thread is, against what it has done. */
  ghost predicate Phase(c: Config, s: State) {
    && s.total == Sent(c, s) <= c.Jobs() && PillsSent(c, s) <= c.workers
    && s.tally == TallyOf(s.collected)
    && match s.main
       case Dispatching(_) => s.collected == []
       case Stopping(_) => s.collected == []
       case Collecting(received) => |s.collected| == received <= c.Jobs()
       case Joining(joined) =>
         && |s.collected| == c.Jobs() && joined <= |s.workers|
         && forall w :: 0 <= w < joined ==> s.workers[w].Exited?
       case Finished =>
         && |s.collected| == c.Jobs()
         && forall w :: 0 <= w < |s.workers| ==> s.workers[w].Exited?
  }

  ghost predicate Inv(c: Config, s: State) {
    Accounted(c, s) && PillsLast(c, s) && Contents(c, s) && Phase(c, s)
  }

  lemma {:induction false} IdleWorkers(ws: seq<WorkerPc>)
    requires forall w :: 0 <= w < |ws| ==> ws[w].Getting?
    ensures forall id :: Held(ws, id) == 0
    ensures Busy(ws) == 0 && ExitedCount(ws) == 0
  {
    if ws != [] {
      IdleWorkers(ws[..|ws| - 1]);
    }
  }

  lemma InitInv(c: Config)
    ensures Inv(c, Init(c))
  {
    IdleWorkers(Init(c).workers);
  }

  lemma InterruptInv(c: Config, s: State)
    requires Inv(c, s)
    ensures Inv(c, s.(threadExit := true))
  {
    hide Contents, Places, TallyOf;
    SamePlaces(s, s.(threadExit := true));
    InterruptContents(c, s);
  }

  lemma InterruptContents(c: Config, s: State)
    requires Contents(c, s)
    ensures Contents(c, s.(threadExit := true))
  {
    assert forall pc :: WorkerOk(c, s, pc) ==> WorkerOk(c, s.(threadExit := true), pc);
  }

  // ----- steps of the main thread

  /** A job or a pill more in the input queue. */
  lemma OneMoreQueued(s: State, s': State, job: Job)
    requires s'.input == s.input + [job]
    requires s'.workers == s.workers && s'.output == s.output && s'.collected == s.collected
    ensures forall id :: Places(s', id) == Places(s, id) + (if job.id == id then 1 else 0)
  {
    hide CountIn, Held;
    CountSnoc(s.input, job);
  }

  lemma OneMoreCollected(s: State, s': State)
    requires s.output != [] && s'.output == s.output[1..] && s'.collected == s.collected + [s.output[0]]
    requires s'.workers == s.workers && s'.input == s.input
    ensures forall id :: Places(s', id) == Places(s, id)
  {
    hide CountIn, Held;
    forall id { CountTail(s.output, id); }
    CountSnoc(s.collected, s.output[0]);
  }

  lemma MainAccounted(c: Config, s: State)
    requires Accounted(c, s) && Phase(c, s) && MainEnabled(c, s)
    ensures Accounted(c, MainNext(c, s))
  {
    hide Held, Busy, CountIn, ExitedCount, TallyOf, Counted, Places;
    var s' := MainNext(c, s);
    match s.main
    case Dispatching(sent) =>
      if sent < c.Jobs() {
        OneMoreQueued(s, s', Job(sent, false, c.skips[sent], 0));
      } else {
        SamePlaces(s, s');
      }
    case Stopping(pills) =>
      if pills < c.workers {
        OneMoreQueued(s, s', c.Pill());
      } else {
        SamePlaces(s, s');
      }
    case Collecting(received) =>
      if received < s.total {
        OneMoreCollected(s, s');
      } else {
        SamePlaces(s, s');
      }
    case Joining(_) =>
      SamePlaces(s, s');
  }

  lemma SamePlaces(s: State, s': State)
    requires s'.input == s.input && s'.workers == s.workers && s'.output == s.output && s'.collected == s.collected
    ensures forall id :: Places(s', id) == Places(s, id)
  {
  }

  lemma NoPillYet(c: Config, s: State)
    requires Accounted(c, s) && s.main.Dispatching?
    ensures forall i :: 0 <= i < |s.input| ==> s.input[i] != c.Pill()
    ensures forall w :: 0 <= w < |s.workers| ==> !Stopped(c, s.workers[w])
  {
    forall i | 0 <= i < |s.input| ensures s.input[i] != c.Pill() {
      CountMembers(s.input, i);
    }
    forall w | 0 <= w < |s.workers| ensures !Stopped(c, s.workers[w]) {
      HeldMembers(s.workers, w, c.Jobs());
    }
  }

  lemma MainPillsLast(c: Config, s: State)
    requires Inv(c, s) && MainEnabled(c, s)
    ensures PillsLast(c, MainNext(c, s))
  {
    hide Held, Busy, CountIn, ExitedCount, Contents, Accounted;
    if s.main.Dispatching? {
      NoPillYet(c, s);
    }
  }

  /** What is said of a job depends only on what was executed and on the exit flag. */
  lemma SameJobs(c: Config, s: State, s': State)
    requires s'.executed == s.executed && s'.threadExit == s.threadExit
    ensures forall job :: Fresh(c, s', job) == Fresh(c, s, job)
    ensures forall job :: Result(c, s', job) == Result(c, s, job)
    ensures forall pc :: WorkerOk(c, s', pc) == WorkerOk(c, s, pc)
  {
  }

  lemma MainContents(c: Config, s: State)
    requires Inv(c, s) && MainEnabled(c, s)
    ensures Contents(c, MainNext(c, s))
  {
    hide Held, Busy, CountIn, ExitedCount, PillsLast, Accounted, TallyOf, Counted;
    var s' := MainNext(c, s);
    SameJobs(c, s, s');
    hide Fresh, Result, WorkerOk;
  }

  lemma MainPhase(c: Config, s: State)
    requires Inv(c, s) && MainEnabled(c, s)
    ensures Phase(c, MainNext(c, s))
  {
    hide Held, Busy, CountIn, ExitedCount, PillsLast, Contents, Accounted, Counted;
    hide TallyOf;
    if s.main.Collecting? && s.main.received < s.total {
      TallySnoc(s.collected, s.output[0]);
    }
  }

  lemma TallySnoc(js: seq<Job>, j: Job)
    ensures TallyOf(js + [j]) == Counted(TallyOf(js), j)
  {
    hide Counted;
    assert (js + [j])[..|js|] == js;
  }

  lemma MainInv(c: Config, s: State)
    requires Inv(c, s) && MainEnabled(c, s)
    ensures Inv(c, MainNext(c, s))
  {
    hide Accounted, PillsLast, Contents, Phase, MainNext, MainEnabled;
    MainAccounted(c, s);
    MainPillsLast(c, s);
    MainContents(c, s);
    MainPhase(c, s);
  }

  // ----- steps of a worker

  /** What a worker's move can touch. */
  lemma WorkerShape(c: Config, s: State, w: nat, code: int)
    requires WorkerEnabled(s, w) && |s.pillsTaken| == |s.workers|
    ensures var s' := WorkerNext(c, s, w, code);
            && s'.main == s.main && s'.total == s.total && s'.tally == s.tally && s'.collected == s.collected
            && s'.threadExit == s.threadExit && |s'.workers| == |s.workers| && |s'.pillsTaken| == |s.pillsTaken|
            && s'.workers == s.workers[w := s'.workers[w]]
            && s'.input == (if s.workers[w].Getting? then s.input[1..] else s.input)
            && s'.output == (if s.workers[w].Putting? then s.output + [s.workers[w].job] else s.output)
            && s'.executed == (if s.workers[w].Running? then s.executed[s.workers[w].job.id := code] else s.executed)
  {
  }

  /** What a worker's move does to the places: only an exit takes something out of the game. */
  lemma WorkerPlaces(c: Config, s: State, w: nat, code: int)
    requires WorkerEnabled(s, w) && |s.pillsTaken| == |s.workers|
    ensures var s' := WorkerNext(c, s, w, code);
            forall id :: Places(s', id) == Places(s, id) - (if s'.workers[w].Exited? then HeldBy(s.workers[w], id) else 0)
  {
    hide Held, CountIn;
    var s' := WorkerNext(c, s, w, code);
    WorkerUpdate(s.workers, w, s'.workers[w]);
    match s.workers[w]
    case Getting => forall id { CountTail(s.input, id); }
    case Got(job) =>
    case Running(job) =>
    case Putting(job) => CountSnoc(s.output, job);
  }

  lemma WorkerAccounted(c: Config, s: State, w: nat, code: int)
    requires Inv(c, s) && WorkerEnabled(s, w)
    ensures Accounted(c, WorkerNext(c, s, w, code))
  {
    hide Held, Busy, CountIn, ExitedCount, Contents, Phase, WorkerOk, Places, PillsLast;
    PillsCounted(c, s);
    var s' := WorkerNext(c, s, w, code);
    WorkerPlaces(c, s, w, code);
    WorkerUpdate(s.workers, w, s'.workers[w]);
    assert Sent(c, s') == Sent(c, s) && PillsSent(c, s') == PillsSent(c, s);
    if s'.workers[w].Exited? {
      BreakIsPill(c, s, w);
    }
  }

  lemma PillsCounted(c: Config, s: State)
    requires PillsLast(c, s)
    ensures |s.pillsTaken| == |s.workers|
  {
  }

  lemma BreakIsPill(c: Config, s: State, w: nat)
    requires Contents(c, s) && w < |s.workers| && s.workers[w].Got? && s.workers[w].job.isBreak
    ensures s.workers[w].job == c.Pill()
  {
    GotIsPillOrFresh(c, s, w);
  }

  lemma GotIsPillOrFresh(c: Config, s: State, w: nat)
    requires Contents(c, s) && w < |s.workers|
    ensures WorkerOk(c, s, s.workers[w])
  {
  }

  lemma WorkerPillsLast(c: Config, s: State, w: nat, code: int)
    requires Inv(c, s) && WorkerEnabled(s, w)
    ensures PillsLast(c, WorkerNext(c, s, w, code))
  {
    hide Held, Busy, CountIn, ExitedCount, Accounted, Phase, Contents;
    GotIsPillOrFresh(c, s, w);
    if s.workers[w].Getting? {
      HeadIsPillOrFresh(c, s);
    }
  }

  lemma HeadIsPillOrFresh(c: Config, s: State)
    requires Contents(c, s) && s.input != []
    ensures s.input[0] == c.Pill() || Fresh(c, s, s.input[0])
  {
  }

  /** A job that a worker holds is nowhere else. */
  lemma NowhereElse(c: Config, s: State, w: nat, id: nat)
    requires Accounted(c, s) && w < |s.workers| && Holds(s.workers[w], id) && id < c.Jobs()
    ensures id < Sent(c, s)
    ensures forall i :: 0 <= i < |s.input| ==> s.input[i].id != id
    ensures forall i :: 0 <= i < |s.output| ==> s.output[i].id != id
    ensures forall i :: 0 <= i < |s.collected| ==> s.collected[i].id != id
    ensures forall v :: 0 <= v < |s.workers| && v != w ==> !Holds(s.workers[v], id)
  {
    hide Held, Busy, CountIn, ExitedCount, Sent, PillsSent;
    HeldMembers(s.workers, w, id);
    assert Places(s, id) == 1;
    forall i | 0 <= i < |s.input| ensures s.input[i].id != id { CountMembers(s.input, i); }
    forall i | 0 <= i < |s.output| ensures s.output[i].id != id { CountMembers(s.output, i); }
    forall i | 0 <= i < |s.collected| ensures s.collected[i].id != id { CountMembers(s.collected, i); }
    forall v | 0 <= v < |s.workers| && v != w ensures !Holds(s.workers[v], id) {
      if Holds(s.workers[v], id) {
        if v < w { HeldOnce(s.workers, v, w, id); } else { HeldOnce(s.workers, w, v, id); }
      }
    }
  }

  lemma ExecutedContents(c: Config, s: State, w: nat, code: int)
    requires Inv(c, s) && WorkerEnabled(s, w) && s.workers[w].Running?
    ensures Contents(c, WorkerNext(c, s, w, code))
  {
    var s' := WorkerNext(c, s, w, code);
    var job := s.workers[w].job;
    GotIsPillOrFresh(c, s, w);
    assert Result(c, s', job.(returncode := code));
    hide Accounted, Phase, PillsLast, Fresh, Result, WorkerOk;
    NowhereElse(c, s, w, job.id);
    forall v | 0 <= v < |s'.workers| ensures WorkerOk(c, s', s'.workers[v]) {
      if v == w {
      } else {
        assert WorkerOk(c, s, s.workers[v]);
      }
    }
  }

  /** What the moving worker ends up with is in order, and so is what it puts in the output queue. */
  lemma OwnJobOk(c: Config, s: State, w: nat, code: int)
    requires Contents(c, s) && WorkerEnabled(s, w) && |s.pillsTaken| == |s.workers| && !s.workers[w].Running?
    ensures WorkerOk(c, s, WorkerNext(c, s, w, code).workers[w])
    ensures s.workers[w].Putting? ==> Result(c, s, s.workers[w].job)
  {
    GotIsPillOrFresh(c, s, w);
    if s.workers[w].Getting? {
      HeadIsPillOrFresh(c, s);
    }
    hide Contents;
  }

  lemma WorkerContents(c: Config, s: State, w: nat, code: int)
    requires Inv(c, s) && WorkerEnabled(s, w)
    ensures Contents(c, WorkerNext(c, s, w, code))
  {
    PillsCounted(c, s);
    GotIsPillOrFresh(c, s, w);
    if s.workers[w].Running? {
      ExecutedContents(c, s, w, code);
    } else {
      OwnJobOk(c, s, w, code);
      SameJobs(c, s, WorkerNext(c, s, w, code));
      WorkerShape(c, s, w, code);
      hide Accounted, Phase, PillsLast, Fresh, Result, WorkerOk, WorkerNext;
    }
  }

  lemma WorkerPhase(c: Config, s: State, w: nat, code: int)
    requires Inv(c, s) && WorkerEnabled(s, w)
    ensures Phase(c, WorkerNext(c, s, w, code))
  {
    PillsCounted(c, s);
    WorkerShape(c, s, w, code);
    hide Accounted, Contents, PillsLast, TallyOf, WorkerNext;
  }

  lemma WorkerInv(c: Config, s: State, w: nat, code: int)
    requires Inv(c, s) && WorkerEnabled(s, w)
    ensures Inv(c, WorkerNext(c, s, w, code))
  {
    hide Accounted, Contents, Phase, WorkerNext, WorkerEnabled;
    WorkerAccounted(c, s, w, code);
    WorkerPillsLast(c, s, w, code);
    WorkerContents(c, s, w, code);
    WorkerPhase(c, s, w, code);
  }

  // ----- runs

  lemma StepInv(c: Config, s: State, e: Event, s': State)
    requires Inv(c, s) && Step(c, s, e, s')
    ensures Inv(c, s')
  {
    hide Inv, MainNext, WorkerNext;
    match e
    case MainMoves => MainInv(c, s);
    case WorkerMoves(w, code) => WorkerInv(c, s, w, code);
    case Interrupt => InterruptInv(c, s);
  }

  lemma {:induction false} RunInv(c: Config, states: seq<State>, events: seq<Event>)
    requires IsRun(c, states, events)
    ensures forall i :: 0 <= i < |states| ==> Inv(c, states[i])
  {
    hide Inv, Step;
    InitInv(c);
    for i := 0 to |events|
      invariant forall k :: 0 <= k <= i ==> Inv(c, states[k])
    {
      StepInv(c, states[i], events[i], states[i + 1]);
    }
  }
}
