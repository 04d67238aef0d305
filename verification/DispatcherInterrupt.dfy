/** What an interrupt does to the parallel test runner: a job that no worker has begun comes back as a break and is never
    executed, every other job comes back with its own result, and the exit status tells. */
module DispatcherInterrupt {
  import opened Dispatcher
  import opened DispatcherInvariant
  import opened DispatcherTheorems

  ghost predicate IsRunning(s: State, id: nat) {
    exists w :: 0 <= w < |s.workers| && s.workers[w].Running? && s.workers[w].job.id == id
  }

  ghost predicate IsResult(s: State, job: Job) {
    || (exists w :: 0 <= w < |s.workers| && s.workers[w] == Putting(job))
    || job in s.output || job in s.collected
  }

  ghost predicate HasResult(s: State, id: nat) {
    exists job :: IsResult(s, job) && job.id == id
  }

  /** A worker has looked at the exit flag for this job. */
  ghost predicate Begun(s: State, id: nat) {
    IsRunning(s, id) || HasResult(s, id)
  }

  // ----- nothing is begun any more

  /** What state t owes to the earlier state s in which the flag was up. */
  ghost predicate Stopping(s: State, t: State) {
    && t.threadExit
    && (forall w :: 0 <= w < |t.workers| && t.workers[w].Running? ==> IsRunning(s, t.workers[w].job.id))
    && (forall id :: id in t.executed ==> id in s.executed || IsRunning(s, id))
    && (forall job :: IsResult(t, job) && !Begun(s, job.id) ==> job.isBreak)
  }

  lemma StoppingStarts(s: State)
    requires s.threadExit
    ensures Stopping(s, s)
  {
    hide IsResult;
  }

  /** Where a result of the next state comes from. */
  lemma NewResults(c: Config, t: State, e: Event, t': State, job: Job)
    requires Inv(c, t) && Step(c, t, e, t') && IsResult(t', job)
    ensures || IsResult(t, job)
            || (e.WorkerMoves? && e.w < |t.workers| && (t.workers[e.w].Running? || t.workers[e.w].Got?)
                && t'.workers[e.w] == Putting(job))
  {
    hide Inv;
    if e.WorkerMoves? {
      WorkerShape(c, t, e.w, e.code);
    }
  }

  /** With the flag up no worker begins to run a job, and only running jobs end. */
  lemma NothingStarts(c: Config, t: State, e: Event, t': State)
    requires Inv(c, t) && Step(c, t, e, t') && t.threadExit
    ensures t'.threadExit
    ensures forall w :: 0 <= w < |t'.workers| && t'.workers[w].Running? ==> w < |t.workers| && t.workers[w] == t'.workers[w]
    ensures forall id :: id in t'.executed ==> id in t.executed || IsRunning(t, id)
  {
    hide Inv;
    if e.WorkerMoves? {
      WorkerShape(c, t, e.w, e.code);
    }
  }

  lemma StoppingStep(c: Config, s: State, t: State, e: Event, t': State)
    requires Inv(c, t) && Stopping(s, t) && Step(c, t, e, t')
    ensures Stopping(s, t')
  {
    forall job | IsResult(t', job) && !Begun(s, job.id) ensures job.isBreak {
      NewResults(c, t, e, t', job);
      if !IsResult(t, job) {
        NewResultIsBreak(c, s, t, e.w, e.code, job);
      }
    }
    NothingStarts(c, t, e, t');
    hide IsResult, Inv, Begun, Step;
  }

  lemma NewResultIsBreak(c: Config, s: State, t: State, w: nat, code: int, job: Job)
    requires Stopping(s, t) && WorkerEnabled(t, w) && |t.pillsTaken| == |t.workers|
    requires t.workers[w].Running? || t.workers[w].Got?
    requires WorkerNext(c, t, w, code).workers[w] == Putting(job) && !Begun(s, job.id)
    ensures job.isBreak
  {
    hide IsResult, IsRunning;
  }

  /** From the moment the flag is up, only jobs that a worker was running then are still executed, and every job that no
      worker had begun comes back as a break. */
  lemma {:induction false} NothingIsBegun(c: Config, states: seq<State>, events: seq<Event>, i: nat, k: nat)
    requires IsRun(c, states, events) && i <= k < |states| && states[i].threadExit
    ensures Stopping(states[i], states[k])
    decreases k
  {
    hide Stopping, Inv, Step;
    if i == k {
      StoppingStarts(states[i]);
    } else {
      NothingIsBegun(c, states, events, i, k - 1);
      RunInv(c, states, events);
      assert Step(c, states[k - 1], events[k - 1], states[k - 1 + 1]);
      StoppingStep(c, states[i], states[k - 1], events[k - 1], states[k]);
    }
  }

  /** A job in the input queue, or just taken from it, has not been begun. */
  lemma WaitingIsNotBegun(c: Config, s: State, job: Job)
    requires Inv(c, s) && job.id < c.Jobs()
    requires job in s.input || exists w :: 0 <= w < |s.workers| && s.workers[w] == Got(job)
    ensures !Begun(s, job.id)
  {
    hide Contents, Phase, PillsLast, Held, CountIn, Busy, ExitedCount;
    if w :| 0 <= w < |s.workers| && s.workers[w] == Got(job) {
      NowhereElse(c, s, w, job.id);
    } else {
      forall w | 0 <= w < |s.workers| ensures !Holds(s.workers[w], job.id) {
        if Holds(s.workers[w], job.id) {
          NowhereElse(c, s, w, job.id);
        }
      }
      QueuedOnce(c, s, job);
    }
  }

  lemma QueuedOnce(c: Config, s: State, job: Job)
    requires Accounted(c, s) && job in s.input && job.id < c.Jobs()
    ensures forall i :: 0 <= i < |s.output| ==> s.output[i].id != job.id
    ensures forall i :: 0 <= i < |s.collected| ==> s.collected[i].id != job.id
  {
    hide Held, CountIn, Busy, ExitedCount;
    var i :| 0 <= i < |s.input| && s.input[i] == job;
    CountMembers(s.input, i);
    assert Places(s, job.id) <= 1;
    forall j | 0 <= j < |s.output| ensures s.output[j].id != job.id { CountMembers(s.output, j); }
    forall j | 0 <= j < |s.collected| ensures s.collected[j].id != job.id { CountMembers(s.collected, j); }
  }

  /** If some job was not begun when the flag was up, the exit status of the finished run is not 0. */
  lemma InterruptedRunFails(c: Config, states: seq<State>, events: seq<Event>, i: nat, id: nat)
    requires IsRun(c, states, events) && states[|events|].main.Finished?
    requires i < |states| && states[i].threadExit && id < c.Jobs() && !Begun(states[i], id)
    ensures id !in states[|events|].executed || id in states[i].executed
    ensures exists job :: job in states[|events|].collected && job.id == id && job.isBreak
    ensures ExitStatus(states[|events|]) == 1
  {
    hide Inv, Step, Begun, IsResult, CountIn;
    var last := states[|events|];
    FinishedRunIsGood(c, states, events);
    NothingIsBegun(c, states, events, i, |events|);
    assert CountIn(last.collected, id) == 1;
    var j := CountedIsThere(last.collected, id);
    assert IsResult(last, last.collected[j]) by { ThereIsResult(last, j); }
    assert last.collected[j].isBreak;
    assert !Begun(states[i], id) ==> !IsRunning(states[i], id) by { NotBegunNotRunning(states[i], id); }
  }

  lemma NotBegunNotRunning(s: State, id: nat)
    ensures !Begun(s, id) ==> !IsRunning(s, id)
  {
  }

  lemma ThereIsResult(s: State, j: nat)
    requires j < |s.collected|
    ensures IsResult(s, s.collected[j])
  {
  }

  lemma {:induction false} CountedIsThere(js: seq<Job>, id: nat) returns (j: nat)
    requires CountIn(js, id) > 0
    ensures j < |js| && js[j].id == id
  {
    var last := |js| - 1;
    if js[last].id == id {
      j := last;
    } else {
      j := CountedIsThere(js[..last], id);
    }
  }

  // ----- exactly those come back as breaks

  /** Against the first state with the flag up: the breaks among the results are the jobs not begun then. */
  ghost predicate Divided(c: Config, s: State, t: State) {
    && (forall job :: IsResult(t, job) ==> (job.isBreak <==> !Begun(s, job.id)))
    && (forall job :: job in t.input && job != c.Pill() ==> !Begun(s, job.id))
    && (forall w :: 0 <= w < |t.workers| && t.workers[w].Got? && t.workers[w].job != c.Pill() ==> !Begun(s, t.workers[w].job.id))
    && (forall id :: Sent(c, t) <= id < c.Jobs() ==> !Begun(s, id))
  }

  lemma NotSentNotBegun(c: Config, s: State, id: nat)
    requires Inv(c, s) && Sent(c, s) <= id < c.Jobs()
    ensures !Begun(s, id)
  {
    hide Contents, Phase, PillsLast, Held, CountIn, Busy, ExitedCount;
    assert Places(s, id) == 0;
    if w :| 0 <= w < |s.workers| && Holds(s.workers[w], id) {
      HeldMembers(s.workers, w, id);
    }
    if j :| 0 <= j < |s.output| && s.output[j].id == id {
      CountMembers(s.output, j);
    }
    if j :| 0 <= j < |s.collected| && s.collected[j].id == id {
      CountMembers(s.collected, j);
    }
  }

  /** The signal has just come. */
  lemma DividedStarts(c: Config, s: State)
    requires Inv(c, s) && !s.threadExit
    ensures var s' := s.(threadExit := true); Divided(c, s', s')
  {
    var s' := s.(threadExit := true);
    InterruptInv(c, s);
    forall job | IsResult(s', job) ensures !job.isBreak && Begun(s', job.id) {
      assert IsResult(s, job);
      ResultsAreResults(c, s, job);
    }
    forall job | job != c.Pill() && (job in s'.input || exists w :: 0 <= w < |s'.workers| && s'.workers[w] == Got(job))
      ensures !Begun(s', job.id)
    {
      WaitingIsFresh(c, s', job);
      WaitingIsNotBegun(c, s', job);
    }
    forall id | Sent(c, s') <= id < c.Jobs() ensures !Begun(s', id) { NotSentNotBegun(c, s', id); }
    hide Begun, IsResult, Inv;
  }

  lemma ResultsAreResults(c: Config, s: State, job: Job)
    requires Inv(c, s) && IsResult(s, job)
    ensures Result(c, s, job)
  {
    hide Accounted, Phase, PillsLast, Result;
    if w :| 0 <= w < |s.workers| && s.workers[w] == Putting(job) {
      assert WorkerOk(c, s, s.workers[w]);
    }
  }

  lemma WaitingIsFresh(c: Config, s: State, job: Job)
    requires Inv(c, s) && job != c.Pill()
    requires job in s.input || exists w :: 0 <= w < |s.workers| && s.workers[w] == Got(job)
    ensures Fresh(c, s, job)
  {
    hide Accounted, Phase, PillsLast, Fresh;
    if w :| 0 <= w < |s.workers| && s.workers[w] == Got(job) {
      assert WorkerOk(c, s, s.workers[w]);
    }
  }

  /** What waits in the next state was waiting before, unless it has just been sent. */
  lemma NewWaiting(c: Config, t: State, e: Event, t': State)
    requires Inv(c, t) && Step(c, t, e, t')
    ensures forall job :: job in t'.input ==> job in t.input || job == c.Pill() || Sent(c, t) <= job.id < c.Jobs()
    ensures forall w :: 0 <= w < |t'.workers| && t'.workers[w].Got? ==>
              w < |t.workers| && (t.workers[w] == t'.workers[w] || t'.workers[w].job in t.input)
    ensures Sent(c, t) <= Sent(c, t')
  {
    hide Inv;
    if e.WorkerMoves? {
      WorkerShape(c, t, e.w, e.code);
    } else {
      SentIsBounded(c, t);
    }
  }

  lemma SentIsBounded(c: Config, t: State)
    requires Inv(c, t)
    ensures Sent(c, t) <= c.Jobs()
  {
    hide Accounted, Contents, PillsLast;
  }

  lemma DividedStep(c: Config, s: State, t: State, e: Event, t': State)
    requires Inv(c, t) && Divided(c, s, t) && Stopping(s, t) && Step(c, t, e, t')
    ensures Divided(c, s, t')
  {
    DividedResults(c, s, t, e, t');
    NewWaiting(c, t, e, t');
    hide IsResult, Begun, Inv, Step, Stopping, Sent;
  }

  lemma DividedResults(c: Config, s: State, t: State, e: Event, t': State)
    requires Inv(c, t) && Divided(c, s, t) && Stopping(s, t) && Step(c, t, e, t')
    ensures forall job :: IsResult(t', job) ==> (job.isBreak <==> !Begun(s, job.id))
  {
    forall job | IsResult(t', job) ensures job.isBreak <==> !Begun(s, job.id) {
      NewResults(c, t, e, t', job);
      if !IsResult(t, job) {
        NewResultIsDivided(c, s, t, e.w, e.code, job);
      }
    }
  }

  lemma NewResultIsDivided(c: Config, s: State, t: State, w: nat, code: int, job: Job)
    requires Inv(c, t) && Divided(c, s, t) && Stopping(s, t) && WorkerEnabled(t, w) && |t.pillsTaken| == |t.workers|
    requires t.workers[w].Running? || t.workers[w].Got?
    requires WorkerNext(c, t, w, code).workers[w] == Putting(job)
    ensures job.isBreak <==> !Begun(s, job.id)
  {
    GotIsPillOrFresh(c, t, w);
    hide IsResult, IsRunning, Inv;
  }

  /** The first signal divides the jobs: a result collected later is a break exactly if no worker had begun the job. */
  lemma {:induction false} SignalDivides(c: Config, states: seq<State>, events: seq<Event>, i: nat, k: nat)
    requires IsRun(c, states, events) && i < k < |states| && events[i].Interrupt? && !states[i].threadExit
    ensures Divided(c, states[i + 1], states[k])
    decreases k
  {
    hide Divided, Inv, Stopping;
    RunInv(c, states, events);
    assert Step(c, states[k - 1], events[k - 1], states[k - 1 + 1]);
    assert Step(c, states[i], events[i], states[i + 1]);
    if k == i + 1 {
      DividedStarts(c, states[i]);
    } else {
      SignalDivides(c, states, events, i, k - 1);
      NothingIsBegun(c, states, events, i + 1, k - 1);
      DividedStep(c, states[i + 1], states[k - 1], events[k - 1], states[k]);
    }
  }

  // ----- the codes are those the processes returned

  /** At some move a worker ended the job, and its process returned the code. */
  ghost predicate Returned(states: seq<State>, events: seq<Event>, id: nat, code: int) {
    exists j, w :: 0 <= j < |events| && j < |states| && EndsJob(states[j], events[j], w, id, code)
  }

  ghost predicate EndsJob(s: State, e: Event, w: nat, id: nat, code: int) {
    e == WorkerMoves(w, code) && w < |s.workers| && s.workers[w].Running? && s.workers[w].job.id == id
  }

  /** What is recorded as executed really was: the recorded code is one its process returned in this run. */
  lemma {:induction false} ExecutedReturned(c: Config, states: seq<State>, events: seq<Event>, k: nat, id: nat)
    requires IsRun(c, states, events) && k < |states| && id in states[k].executed
    ensures Returned(states, events, id, states[k].executed[id])
    decreases k
  {
    if k > 0 {
      var s, e, s' := states[k - 1], events[k - 1], states[k];
      assert Step(c, states[k - 1], events[k - 1], states[k - 1 + 1]);
      ExecutedGrows(c, s, e, s', id);
      if id in s.executed && s.executed[id] == s'.executed[id] {
        ExecutedReturned(c, states, events, k - 1, id);
      } else {
        assert EndsJob(states[k - 1], events[k - 1], e.w, id, s'.executed[id]);
      }
    }
  }

  lemma ExecutedGrows(c: Config, s: State, e: Event, s': State, id: nat)
    requires Step(c, s, e, s') && id in s'.executed
    ensures || (id in s.executed && s.executed[id] == s'.executed[id])
            || (e.WorkerMoves? && EndsJob(s, e, e.w, id, s'.executed[id]))
  {
    if e.WorkerMoves? {
      WorkerShape(c, s, e.w, e.code);
      hide WorkerNext;
    }
  }

  /** A job that was neither skipped nor broken off comes back with the code its process returned in this run. */
  lemma ResultsAreReturned(c: Config, states: seq<State>, events: seq<Event>, k: nat, job: Job)
    requires IsRun(c, states, events) && k < |states| && IsResult(states[k], job) && !job.isBreak && !job.isSkip
    ensures Returned(states, events, job.id, job.returncode)
  {
    hide Inv, IsResult, Step, Returned;
    RunInv(c, states, events);
    ResultsAreResults(c, states[k], job);
    ExecutedReturned(c, states, events, k, job.id);
  }
}
