/** The event loop described from outside: what it may do next, and which handlers run and wait, as
    functions of what was sent, received, computed and handled so far. */
module SchedulerHistory {
  import opened ByteStrings
  import opened Wire
  import opened Connection
  import opened Scheduler
  import opened SchedulerInvariants
  import opened SchedulerTheorems

  /** The serving loop has been left; the drain loop has. */
  predicate DrainBegun(tr: Trace)
  {
    exists i :: 0 <= i < |tr| && tr[i].BeginDrain?
  }

  predicate Ended(tr: Trace)
  {
    exists i :: 0 <= i < |tr| && tr[i].Finish?
  }

  /** A stop was received, and the closure of every push received has been computed. */
  predicate MustDrain(tr: Trace)
  {
    && (exists i :: 0 <= i < |Consumed(tr)| && Consumed(tr)[i].Stop?)
    && |Closures(tr)| == |Pushes(Consumed(tr))|
  }

  /** The paths to handle, in the order in which their hashes were discovered. */
  function ToHandle(tr: Trace): (ps: seq<StorePath>)
  {
    FirstSeen(Discovered(Closures(tr)))
  }

  /** All of them are started at once but for the limit of 32 unfinished ones. */
  function Started(all: seq<StorePath>, numHandled: nat): (ps: seq<StorePath>)
  {
    all[..Min(|all|, numHandled + 32)]
  }

  function Waiting(all: seq<StorePath>, numHandled: nat): (ps: seq<StorePath>)
  {
    all[Min(|all|, numHandled + 32)..]
  }

  function InFlight(tr: Trace): (ps: multiset<StorePath>)
  {
    multiset(Started(ToHandle(tr), |Handled(tr)|)) - multiset(First(Handled(tr)))
  }

  function Computing(tr: Trace): (ps: multiset<StorePath>)
  {
    multiset(Pushes(Consumed(tr))) - multiset(First(Closures(tr)))
  }

  /** What the loop may do next. */
  predicate Possible(tr: Trace, step: Step)
  {
    match step
    case Enqueue(_) => true
    case Receive => !DrainBegun(tr) && !MustDrain(tr) && NumReceived(tr) < |Sent(tr)|
    case ClosureDone(path, _) => !DrainBegun(tr) && !MustDrain(tr) && path in Computing(tr)
    case PathDone(path, _) =>
      path in InFlight(tr) && (if DrainBegun(tr) then !Ended(tr) else !MustDrain(tr))
    case BeginDrain => !DrainBegun(tr) && MustDrain(tr)
    case Finish => DrainBegun(tr) && !Ended(tr) && |Handled(tr)| == |ToHandle(tr)|
  }

  // --- The phases -------------------------------------------------------------------------

  lemma StepKeepsPhase(s: State, step: Step)
    requires Enabled(s, step)
    ensures Apply(s, step).phase
         == (if step.BeginDrain? then Draining else if step.Finish? then Finished else s.phase)
    ensures step.BeginDrain? ==> s.phase.Serving?
    ensures step.Finish? ==> s.phase.Draining?
  {
    if step.ClosureDone? && step.closure.Paths? {
      AbsorbFrame(s.(closures := s.closures - multiset{step.pushed}), step.closure.paths);
    }
  }

  lemma HistoryGrows(tr: Trace)
    requires tr != []
    ensures DrainBegun(tr) <==> DrainBegun(Front(tr)) || Last(tr).BeginDrain?
    ensures Ended(tr) <==> Ended(Front(tr)) || Last(tr).Finish?
  {
    assert tr[|tr| - 1] == Last(tr);
    assert forall i :: 0 <= i < |tr| - 1 ==> Front(tr)[i] == tr[i];
  }

  lemma {:induction false} PhaseIsHistory(tr: Trace)
    requires Valid(tr)
    ensures Exec(tr).phase.Serving? <==> !DrainBegun(tr)
    ensures Exec(tr).phase.Finished? <==> Ended(tr)
  {
    if tr != [] {
      var front, step := Front(tr), Last(tr);
      PhaseIsHistory(front);
      StepKeepsPhase(Exec(front), step);
      HistoryGrows(tr);
    }
  }

  // --- The collections --------------------------------------------------------------------

  /** Started and waiting handlers, given all paths to handle and those handled. */
  lemma StartedCount(s: State, all: seq<StorePath>, handled: seq<StorePath>)
    requires WorkConserving(s) && s.started + s.pending == all
    requires multiset(s.started) == s.running + multiset(handled)
    ensures s.started == Started(all, |handled|) && s.pending == Waiting(all, |handled|)
  {
    assert |multiset(s.started)| == |s.started| && |multiset(handled)| == |handled|;
    assert |s.started| == Min(|all|, |handled| + 32);
  }

  lemma RunningRest<T>(started: multiset<T>, running: multiset<T>, handled: multiset<T>)
    requires started == running + handled
    ensures running == started - handled
  {
  }

  /** Which handlers were started, wait and run, and which closures are being computed, follows from
      the history. */
  lemma StateIsHistory(tr: Trace)
    requires Valid(tr)
    ensures var s := Exec(tr);
            && s.started == Started(ToHandle(tr), |Handled(tr)|)
            && s.pending == Waiting(ToHandle(tr), |Handled(tr)|)
            && s.running == InFlight(tr) && s.closures == Computing(tr)
            && NumReceived(tr) <= |Sent(tr)| && s.channel == Sent(tr)[NumReceived(tr)..]
  {
    var s, handled := Exec(tr), First(Handled(tr));
    AlwaysInOrder(tr);
    AlwaysWorkConserving(tr);
    StartedCount(s, ToHandle(tr), handled);
    RunningRest(multiset(s.started), s.running, multiset(handled));
    ChannelAlwaysOk(tr);
    RunningRest(multiset(Pushes(Consumed(tr))), s.closures, multiset(First(Closures(tr))));
  }

  /** The test at the head of the serving loop, seen from outside. */
  lemma StoppingIsHistory(tr: Trace)
    requires Valid(tr)
    ensures Stopping(Exec(tr)) <==> MustDrain(tr)
  {
    var s, consumed := Exec(tr), Consumed(tr);
    ChannelAlwaysOk(tr);
    var pushes, closed := Pushes(consumed), First(Closures(tr));
    assert |multiset(pushes)| == |pushes| && |multiset(closed)| == |closed|;
    assert |multiset(pushes)| == |s.closures| + |multiset(closed)|;
    assert s.closures == multiset{} <==> |s.closures| == 0;
    EventsMeaning(consumed);
  }

  lemma NothingInFlight(tr: Trace)
    requires Valid(tr)
    ensures Exec(tr).running == multiset{} <==> |Handled(tr)| == |ToHandle(tr)|
  {
    var s, handled := Exec(tr), First(Handled(tr));
    StateIsHistory(tr);
    AlwaysInOrder(tr);
    assert |multiset(s.started)| == |s.started| && |multiset(handled)| == |handled|;
    assert |s.started| == |s.running| + |handled|;
    assert s.running == multiset{} <==> |s.running| == 0;
  }

  /** Exactly what the loop may do after any run: it receives, takes closures and takes results while
      it is serving and not bound to stop; it leaves the serving loop exactly when a stop was received
      and no closure is outstanding, however many handlers run or wait; then it only takes results,
      and ends exactly when every discovered hash was handled. */
  lemma StepsAreHistory(tr: Trace, step: Step)
    requires Valid(tr)
    ensures Enabled(Exec(tr), step) <==> Possible(tr, step)
  {
    PhaseIsHistory(tr);
    StateIsHistory(tr);
    StoppingIsHistory(tr);
    NothingInFlight(tr);
    EndedDrained(tr);
  }

  lemma EndedDrained(tr: Trace)
    requires Valid(tr)
    ensures Ended(tr) ==> DrainBegun(tr)
  {
    PhaseIsHistory(tr);
  }
}
