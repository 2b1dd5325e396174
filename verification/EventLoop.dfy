/** The event loop in its imperative form: local collections updated by the arms of a `select!`
    inside a serving loop, followed by a drain loop.  It is proved to follow the transition system,
    so every theorem about runs is a theorem about this loop. */
module EventLoop {
  import opened ByteStrings
  import opened Wire
  import opened Connection
  import opened Scheduler
  import opened SchedulerInvariants
  import opened SchedulerHistory

  /** Step `i` of the schedule leads from the `i`-th of these states to the next. */
  ghost predicate StepAt(schedule: Trace, states: seq<State>, i: nat)
    requires |states| == |schedule| + 1 && i < |schedule|
  {
    Enabled(states[i], schedule[i]) && states[i + 1] == Apply(states[i], schedule[i])
  }

  ghost predicate Follows(schedule: Trace, states: seq<State>)
  {
    && |states| == |schedule| + 1
    && states[0] == Init()
    && forall i :: 0 <= i < |schedule| ==> StepAt(schedule, states, i)
  }

  /** The states a valid schedule goes through. */
  lemma {:induction false} StatesOf(schedule: Trace) returns (states: seq<State>)
    requires Valid(schedule)
    ensures Follows(schedule, states) && states[|schedule|] == Exec(schedule)
  {
    if schedule == [] {
      states := [Init()];
    } else {
      var front := StatesOf(Front(schedule));
      states := front + [Exec(schedule)];
      forall i | 0 <= i < |schedule|
        ensures StepAt(schedule, states, i)
      {
        assert i < |schedule| - 1 ==> StepAt(Front(schedule), front, i);
      }
    }
  }

  lemma {:induction false} StateAt(schedule: Trace, states: seq<State>, i: nat)
    requires Follows(schedule, states) && i <= |schedule|
    ensures Valid(schedule[..i]) && Exec(schedule[..i]) == states[i]
  {
    if i > 0 {
      StateAt(schedule, states, i - 1);
      assert StepAt(schedule, states, i - 1);
      TakeNext(schedule, i - 1);
      Extend(schedule[..i - 1], schedule[i - 1]);
    }
  }

  /** Up to step `i`, whenever the loop did something it was not bound to stop, and now it is, if the
      schedule goes on. */
  ghost predicate LeftInTime(schedule: Trace, i: nat)
    requires i <= |schedule|
  {
    && (forall k :: 0 <= k < i && !schedule[k].Enqueue? ==> !MustDrain(schedule[..k]))
    && (i < |schedule| ==> MustDrain(schedule[..i]))
  }

  lemma DueAt(schedule: Trace, states: seq<State>, k: nat)
    requires Follows(schedule, states) && k < |schedule| && !schedule[k].Enqueue?
    requires forall j :: 0 <= j < k ==> !schedule[j].BeginDrain?
    ensures MustDrain(schedule[..k]) <==> schedule[k].BeginDrain?
  {
    StateAt(schedule, states, k);
    assert StepAt(schedule, states, k);
    StepsAreHistory(schedule[..k], schedule[k]);
    assert !DrainBegun(schedule[..k]);
    EndedDrained(schedule[..k]);
  }

  lemma LeavesInTime(schedule: Trace, states: seq<State>, i: nat)
    requires Follows(schedule, states) && i <= |schedule| && states[i].phase.Serving?
    requires i < |schedule| ==> schedule[i].BeginDrain?
    ensures LeftInTime(schedule, i)
  {
    StateAt(schedule, states, i);
    PhaseIsHistory(schedule[..i]);
    assert forall k :: 0 <= k < i ==> schedule[..i][k] == schedule[k];
    forall k | 0 <= k < i && !schedule[k].Enqueue?
      ensures !MustDrain(schedule[..k])
    {
      DueAt(schedule, states, k);
    }
    if i < |schedule| {
      DueAt(schedule, states, i);
    }
  }

  class Loop {
    var channel: seq<Event>
    var storeClosures: multiset<StorePath>
    var handleStorePaths: multiset<StorePath>
    var pendingHandleStorePaths: seq<StorePath>
    var seenStoreHashes: set<Bytes>
    var report: Report
    var stopProgressWriter: Option<nat>
    var spawned: seq<StorePath>
    var rxErrors: seq<ReceiveError>
    var calls: seq<Call>
    /** Which of the two loops is executing. */
    ghost var phase: Phase

    ghost function View(): State
      reads this
    {
      State(phase, channel, storeClosures, handleStorePaths, pendingHandleStorePaths,
            seenStoreHashes, report, stopProgressWriter, spawned, rxErrors, calls)
    }

    constructor ()
      ensures View() == Init()
    {
      channel, storeClosures, handleStorePaths := [], multiset{}, multiset{};
      pendingHandleStorePaths, seenStoreHashes := [], {};
      report, stopProgressWriter := EMPTY_REPORT, None;
      spawned, rxErrors, calls, phase := [], [], [], Serving;
    }

    method OnMessage()
      requires Enabled(View(), Receive)
      modifies this
      ensures View() == Apply(old(View()), Receive)
    {
      var message := channel[0];
      channel := channel[1..];
      match message {
        case Push(path) => storeClosures := storeClosures + multiset{path};
        case Stop(writer) => stopProgressWriter := Some(writer);
        case ReceiveFailed(error) => rxErrors := rxErrors + [error];
      }
    }

    method OnClosure(pushed: StorePath, closure: Closure)
      requires Enabled(View(), ClosureDone(pushed, closure))
      modifies this
      ensures View() == Apply(old(View()), ClosureDone(pushed, closure))
    {
      storeClosures := storeClosures - multiset{pushed};
      match closure {
        case NoClosure(error) =>
          report := report.(closureErrors := report.closureErrors + [(pushed, error)]);
        case Paths(paths) =>
          ghost var before := View();
          for i := 0 to |paths|
            invariant View() == Absorb(before, paths[..i])
          {
            TakeNext(paths, i);
            FrontLast(paths[..i], paths[i]);
            OnDiscovered(paths[i]);
          }
          assert paths[..|paths|] == paths;
      }
    }

    /** The body of the loop over a closure's paths. */
    method OnDiscovered(path: StorePath)
      modifies this
      ensures View() == AbsorbOne(old(View()), path)
    {
      if path.hash in seenStoreHashes {
        return;
      }
      seenStoreHashes := seenStoreHashes + {path.hash};
      if |handleStorePaths| < MAX_CONCURRENT {
        handleStorePaths := handleStorePaths + multiset{path};
        spawned := spawned + [path];
      } else {
        pendingHandleStorePaths := pendingHandleStorePaths + [path];
      }
    }

    /** A send by a connection's task. */
    method Deliver(event: Event)
      modifies this`channel
      ensures channel == old(channel) + [event]
    {
      channel := channel + [event];
    }

    /** One arm of the `select!`. */
    method Select(step: Step)
      requires Enabled(View(), step) && phase.Serving?
      requires step.Receive? || step.ClosureDone? || step.PathDone?
      modifies this
      ensures View() == Apply(old(View()), step) && phase.Serving?
    {
      ApplyKeepsServing(View(), step);
      match step {
        case Receive => OnMessage();
        case ClosureDone(pushed, closure) => OnClosure(pushed, closure);
        case PathDone(path, outcome) => OnPathHandled(path, outcome, false);
      }
    }

    method OnPathHandled(path: StorePath, outcome: Outcome, draining: bool)
      requires Enabled(View(), PathDone(path, outcome)) && draining == phase.Draining?
      modifies this
      ensures View() == Apply(old(View()), PathDone(path, outcome))
    {
      RetireHandler(path, outcome, draining);
      StartPending();
    }

    method RetireHandler(path: StorePath, outcome: Outcome, draining: bool)
      requires draining == phase.Draining?
      modifies this`handleStorePaths, this`calls, this`report
      ensures View() == Retire(old(View()), path, outcome)
    {
      handleStorePaths := handleStorePaths - multiset{path};
      if draining {
        calls := calls + [CallFor(path, outcome)];
      }
      RecordOutcome(path, outcome);
    }

    method RecordOutcome(path: StorePath, outcome: Outcome)
      modifies this`report
      ensures report == Record(old(report), path, outcome)
    {
      match outcome {
        case Pushed(bytes) =>
          report := report.(numBytesPushed := (report.numBytesPushed + bytes) % U64);
          report := report.(numPathsPushed := (report.numPathsPushed + 1) % U32);
        case Skipped =>
          report := report.(numPathsSkipped := (report.numPathsSkipped + 1) % U32);
        case Failed(error) =>
          report := report.(handlingErrors := report.handlingErrors + [(path, error)]);
      }
    }

    method StartPending()
      modifies this
      ensures View() == StartNext(old(View()))
    {
      if pendingHandleStorePaths != [] {
        handleStorePaths := handleStorePaths + multiset{pendingHandleStorePaths[0]};
        spawned := spawned + [pendingHandleStorePaths[0]];
        pendingHandleStorePaths := pendingHandleStorePaths[1..];
      }
    }

    method AnnounceLeft()
      requires Enabled(View(), BeginDrain)
      modifies this
      ensures View() == Apply(old(View()), BeginDrain)
    {
      var left := |handleStorePaths| + |pendingHandleStorePaths|;
      calls := calls + [PathsLeft(left % U32)];
      phase := Draining;
    }

    method ReportFinal()
      requires Enabled(View(), Finish)
      modifies this
      ensures View() == Apply(old(View()), Finish)
    {
      calls := calls + [FinalReport(report)];
      phase := Finished;
    }

    /** A send of some task, or one turn of the serving loop: the test at its head, then the `select!`. */
    method Serve(step: Step) returns (done: bool)
      requires Enabled(View(), step) && phase.Serving?
      modifies this
      ensures done == step.BeginDrain? && phase.Serving?
      ensures View() == if done then old(View()) else Apply(old(View()), step)
    {
      if step.Enqueue? {
        Deliver(step.event);
      } else if stopProgressWriter.Some? && storeClosures == multiset{} {
        return true;
      } else {
        Select(step);
      }
      return false;
    }

    /** The serving loop, driven by a schedule: it ends with the schedule, or at the test at its
        head with a drain to begin.  It is left as soon as a stop was received and all closures asked
        for are computed, however many handlers are running or waiting, and not before. */
    method ServeLoop(schedule: Trace, ghost states: seq<State>) returns (i: nat)
      requires View() == Init() && Follows(schedule, states)
      modifies this
      ensures i <= |schedule| && View() == states[i] && phase.Serving?
      ensures i < |schedule| ==> schedule[i].BeginDrain?
      ensures LeftInTime(schedule, i)
    {
      i := 0;
      while i < |schedule|
        invariant i <= |schedule| && View() == states[i] && phase.Serving?
      {
        assert StepAt(schedule, states, i);
        var done := Serve(schedule[i]);
        if done {
          break;
        }
        i := i + 1;
      }
      LeavesInTime(schedule, states, i);
    }

    /** The drain loop: it ends with the schedule, or because no handler is running. */
    method DrainLoop(schedule: Trace, ghost states: seq<State>, from: nat) returns (i: nat)
      requires Follows(schedule, states) && from <= |schedule|
      requires View() == states[from] && phase.Draining?
      modifies this
      ensures from <= i <= |schedule| && View() == states[i] && phase.Draining?
      ensures i < |schedule| ==> handleStorePaths == multiset{} && schedule[i].Finish?
    {
      i := from;
      while i < |schedule|
        invariant from <= i <= |schedule| && View() == states[i] && phase.Draining?
      {
        assert StepAt(schedule, states, i);
        if schedule[i].Enqueue? {
          Deliver(schedule[i].event);
        } else if handleStorePaths == multiset{} {
          break;
        } else {
          OnPathHandled(schedule[i].path, schedule[i].outcome, true);
        }
        i := i + 1;
      }
    }

    /** Messages sent after the daemon has finished: nobody receives them any more. */
    method Linger(schedule: Trace, ghost states: seq<State>, from: nat)
      requires Follows(schedule, states) && from <= |schedule|
      requires View() == states[from] && phase.Finished?
      modifies this
      ensures View() == states[|schedule|]
    {
      var i := from;
      while i < |schedule|
        invariant i <= |schedule| && View() == states[i] && phase.Finished?
      {
        assert StepAt(schedule, states, i);
        Deliver(schedule[i].event);
        i := i + 1;
      }
    }

    /** The whole of `run`, up to the point where the schedule ends. */
    method Run(schedule: Trace)
      requires View() == Init() && Valid(schedule)
      modifies this
      ensures View() == Exec(schedule)
    {
      ghost var states := StatesOf(schedule);
      var i := ServeLoop(schedule, states);
      if i == |schedule| {
        return;
      }
      Drain(schedule, states, i);
    }

    /** From the announcement to the final report. */
    method Drain(schedule: Trace, ghost states: seq<State>, from: nat)
      requires Follows(schedule, states) && from < |schedule| && schedule[from].BeginDrain?
      requires View() == states[from] && phase.Serving?
      modifies this
      ensures View() == states[|schedule|]
    {
      assert StepAt(schedule, states, from);
      AnnounceLeft();
      var i := DrainLoop(schedule, states, from + 1);
      if i == |schedule| {
        return;
      }
      assert StepAt(schedule, states, i);
      ReportFinal();
      Linger(schedule, states, i + 1);
    }
  }

  lemma ApplyKeepsServing(s: State, step: Step)
    requires s.phase.Serving? && Enabled(s, step) && !step.BeginDrain?
    ensures Apply(s, step).phase.Serving?
  {
    if step.ClosureDone? && step.closure.Paths? {
      AbsorbFrame(s.(closures := s.closures - multiset{step.pushed}), step.closure.paths);
    }
  }
}
