/** What every run of the event loop keeps, whatever the interleaving. */
module SchedulerInvariants {
  import opened ByteStrings
  import opened Wire
  import opened Connection
  import opened Scheduler

  // --- Work conservation ------------------------------------------------------------------

  /** At most 32 handlers run, and nothing waits while a slot is free. */
  predicate WorkConserving(s: State)
  {
    && |s.running| <= MAX_CONCURRENT
    && (s.pending != [] ==> |s.running| == MAX_CONCURRENT)
  }

  lemma {:induction false} AbsorbConserves(s: State, paths: seq<StorePath>)
    requires WorkConserving(s)
    ensures WorkConserving(Absorb(s, paths))
  {
    if paths != [] {
      AbsorbConserves(s, Front(paths));
    }
  }

  lemma StepConserves(s: State, step: Step)
    requires WorkConserving(s) && Enabled(s, step)
    ensures WorkConserving(Apply(s, step))
  {
    if step.ClosureDone? && step.closure.Paths? {
      AbsorbConserves(s.(closures := s.closures - multiset{step.pushed}), step.closure.paths);
    }
  }

  lemma {:induction false} AlwaysWorkConserving(tr: Trace)
    requires Valid(tr)
    ensures WorkConserving(Exec(tr))
  {
    if tr != [] {
      AlwaysWorkConserving(Front(tr));
      StepConserves(Exec(Front(tr)), Last(tr));
    }
  }

  // --- The channel, the closures and the stop writer --------------------------------------

  /** The channel holds what was sent and not yet consumed; the last consumed stop is the one that
      gets the reports; and every consumed push is a closure being computed or one computed. */
  predicate ChannelOk(s: State, sent: seq<Event>, n: nat, closures: seq<(StorePath, Closure)>)
  {
    && n <= |sent|
    && s.channel == sent[n..]
    && s.stopWriter == LastStop(sent[..n])
    && s.rxErrors == RxErrors(sent[..n])
    && multiset(Pushes(sent[..n])) == s.closures + multiset(First(closures))
  }

  /** The two states differ at most in the handlers and the seen hashes. */
  predicate OnlyHandlersDiffer(s: State, t: State)
  {
    && t.phase == s.phase && t.channel == s.channel && t.closures == s.closures
    && t.report == s.report && t.stopWriter == s.stopWriter && t.rxErrors == s.rxErrors
    && t.calls == s.calls
  }

  lemma {:induction false} AbsorbFrame(s: State, paths: seq<StorePath>)
    ensures OnlyHandlersDiffer(s, Absorb(s, paths))
  {
    if paths != [] {
      AbsorbFrame(s, Front(paths));
      AbsorbOneFrame(Absorb(s, Front(paths)), Last(paths));
    }
  }

  lemma AbsorbOneFrame(s: State, path: StorePath)
    ensures OnlyHandlersDiffer(s, AbsorbOne(s, path))
  {
  }

  lemma ReceiveChannel(s: State, sent: seq<Event>, n: nat, closures: seq<(StorePath, Closure)>)
    requires ChannelOk(s, sent, n, closures) && Enabled(s, Receive)
    ensures ChannelOk(Apply(s, Receive), sent, n + 1, closures)
  {
    TakeNext(sent, n);
    FrontLast(sent[..n], sent[n]);
  }

  lemma EnqueueChannel(s: State, event: Event, sent: seq<Event>, n: nat, closures: seq<(StorePath,
      Closure)>)
    requires ChannelOk(s, sent, n, closures)
    ensures ChannelOk(Apply(s, Enqueue(event)), sent + [event], n, closures)
  {
    assert (sent + [event])[..n] == sent[..n];
    DropPrefix(sent, [event], n);
  }

  lemma ClosureChannel(s: State, path: StorePath, closure: Closure, sent: seq<Event>, n: nat,
      closures: seq<(StorePath, Closure)>)
    requires ChannelOk(s, sent, n, closures) && Enabled(s, ClosureDone(path, closure))
    ensures ChannelOk(Apply(s, ClosureDone(path, closure)), sent, n, closures + [(path, closure)])
  {
    FrontLast(closures, (path, closure));
    if closure.Paths? {
      AbsorbFrame(s.(closures := s.closures - multiset{path}), closure.paths);
    }
  }

  lemma StepChannel(s: State, step: Step, sent: seq<Event>, n: nat, closures: seq<(StorePath, Closure)>)
    requires ChannelOk(s, sent, n, closures) && Enabled(s, step)
    ensures ChannelOk(Apply(s, step), AddSent(sent, step), if step.Receive? then n + 1 else n,
                      AddClosure(closures, step))
  {
    match step {
      case Enqueue(event) => EnqueueChannel(s, event, sent, n, closures);
      case Receive => ReceiveChannel(s, sent, n, closures);
      case ClosureDone(path, closure) => ClosureChannel(s, path, closure, sent, n, closures);
      case _ =>
    }
  }

  lemma {:induction false} ChannelAlwaysOk(tr: Trace)
    requires Valid(tr)
    ensures ChannelOk(Exec(tr), Sent(tr), NumReceived(tr), Closures(tr))
  {
    if tr != [] {
      var before := Front(tr);
      ChannelAlwaysOk(before);
      StepChannel(Exec(before), Last(tr), Sent(before), NumReceived(before), Closures(before));
    }
  }

  // --- Order and exactly-once -------------------------------------------------------------

  /** The handlers started, followed by those waiting, are the first occurrences of the discovered
      hashes, in order; and those started are running or done. */
  predicate OrderOk(s: State, discovered: seq<StorePath>, handled: seq<StorePath>)
  {
    && s.started + s.pending == FirstSeen(discovered)
    && s.seen == Hashes(discovered)
    && multiset(s.started) == s.running + multiset(handled)
  }

  lemma AbsorbOneOrder(s: State, path: StorePath, discovered: seq<StorePath>, handled: seq<StorePath>)
    requires WorkConserving(s) && OrderOk(s, discovered, handled)
    ensures OrderOk(AbsorbOne(s, path), discovered + [path], handled)
  {
    FrontLast(discovered, path);
    assert Hashes(discovered + [path]) == Hashes(discovered) + {path.hash} by {
      assert path in discovered + [path];
    }
    if path.hash !in s.seen && |s.running| == MAX_CONCURRENT {
      Associate(s.started, s.pending, [path]);
    } else if path.hash !in s.seen {
      assert s.started + [path] + [] == s.started + [] + [path];
    }
  }

  lemma {:induction false} AbsorbOrder(s: State, paths: seq<StorePath>, discovered: seq<StorePath>,
      handled: seq<StorePath>)
    requires WorkConserving(s) && OrderOk(s, discovered, handled)
    ensures OrderOk(Absorb(s, paths), discovered + paths, handled)
  {
    if paths == [] {
      assert discovered + paths == discovered;
    } else {
      AbsorbConserves(s, Front(paths));
      AbsorbOrder(s, Front(paths), discovered, handled);
      AbsorbOneOrder(Absorb(s, Front(paths)), Last(paths), discovered + Front(paths), handled);
      Associate(discovered, Front(paths), [Last(paths)]);
    }
  }

  lemma SettleOrder(s: State, path: StorePath, outcome: Outcome, discovered: seq<StorePath>,
      handled: seq<StorePath>)
    requires OrderOk(s, discovered, handled) && path in s.running
    ensures OrderOk(Settle(s, path, outcome), discovered, handled + [path])
  {
    if s.pending != [] {
      Associate(s.started, [s.pending[0]], s.pending[1..]);
      assert [s.pending[0]] + s.pending[1..] == s.pending;
    }
  }

  lemma ClosureOrder(s: State, path: StorePath, closure: Closure, closures: seq<(StorePath, Closure)>,
      handled: seq<StorePath>)
    requires WorkConserving(s) && OrderOk(s, Discovered(closures), handled)
    requires Enabled(s, ClosureDone(path, closure))
    ensures OrderOk(Apply(s, ClosureDone(path, closure)), Discovered(closures + [(path, closure)]), handled)
  {
    FrontLast(closures, (path, closure));
    if closure.Paths? {
      AbsorbOrder(s.(closures := s.closures - multiset{path}), closure.paths, Discovered(closures), handled);
    }
  }

  lemma PathOrder(s: State, path: StorePath, outcome: Outcome, discovered: seq<StorePath>,
      handled: seq<(StorePath, Outcome)>)
    requires OrderOk(s, discovered, First(handled)) && Enabled(s, PathDone(path, outcome))
    ensures OrderOk(Apply(s, PathDone(path, outcome)), discovered, First(handled + [(path, outcome)]))
  {
    FirstAppend(handled, (path, outcome));
    SettleOrder(s, path, outcome, discovered, First(handled));
  }

  lemma OtherOrder(s: State, step: Step, discovered: seq<StorePath>, handled: seq<StorePath>)
    requires OrderOk(s, discovered, handled) && Enabled(s, step)
    requires !step.ClosureDone? && !step.PathDone?
    ensures OrderOk(Apply(s, step), discovered, handled)
  {
    HandlersStay(s, step);
  }

  lemma HandlersStay(s: State, step: Step)
    requires Enabled(s, step) && !step.ClosureDone? && !step.PathDone?
    ensures var t := Apply(s, step);
            && t.started == s.started && t.pending == s.pending && t.seen == s.seen
            && t.running == s.running
  {
  }

  lemma FirstAppend<A, B>(ps: seq<(A, B)>, p: (A, B))
    ensures First(ps + [p]) == First(ps) + [p.0]
  {
    FrontLast(ps, p);
  }

  lemma StepOrder(s: State, step: Step, closures: seq<(StorePath, Closure)>,
      handled: seq<(StorePath, Outcome)>)
    requires WorkConserving(s) && OrderOk(s, Discovered(closures), First(handled)) && Enabled(s, step)
    ensures OrderOk(Apply(s, step), Discovered(AddClosure(closures, step)),
                    First(AddHandled(handled, step)))
  {
    match step {
      case ClosureDone(path, closure) =>
        ClosureOrder(s, path, closure, closures, First(handled));
      case PathDone(path, outcome) =>
        PathOrder(s, path, outcome, Discovered(closures), handled);
      case _ => OtherOrder(s, step, Discovered(closures), First(handled));
    }
  }

  lemma {:induction false} AlwaysInOrder(tr: Trace)
    requires Valid(tr)
    ensures OrderOk(Exec(tr), Discovered(Closures(tr)), First(Handled(tr)))
  {
    if tr != [] {
      var before := Front(tr);
      AlwaysInOrder(before);
      AlwaysWorkConserving(before);
      StepOrder(Exec(before), Last(tr), Closures(before), Handled(before));
    }
  }

  // --- The report -------------------------------------------------------------------------

  lemma RecordTally(cs: seq<(StorePath, Closure)>, hs: seq<(StorePath, Outcome)>, path: StorePath,
      outcome: Outcome)
    ensures Record(ReportOf(cs, hs), path, outcome) == ReportOf(cs, hs + [(path, outcome)])
  {
    FrontLast(hs, (path, outcome));
    var t := TallyOf(hs);
    match outcome {
      case Pushed(bytes) =>
        Wrap64(t.bytes, bytes);
        Wrap32(t.pushed, 1);
      case Skipped => Wrap32(t.skipped, 1);
      case Failed(_) =>
    }
  }

  lemma StepReport(s: State, step: Step, closures: seq<(StorePath, Closure)>,
      handled: seq<(StorePath, Outcome)>)
    requires s.report == ReportOf(closures, handled) && Enabled(s, step)
    ensures Apply(s, step).report
         == ReportOf(AddClosure(closures, step), AddHandled(handled, step))
  {
    match step {
      case ClosureDone(path, closure) =>
        FrontLast(closures, (path, closure));
        if closure.Paths? {
          AbsorbFrame(s.(closures := s.closures - multiset{path}), closure.paths);
        }
      case PathDone(path, outcome) =>
        RecordTally(closures, handled, path, outcome);
      case _ =>
    }
  }

  lemma {:induction false} ReportAlwaysExact(tr: Trace)
    requires Valid(tr)
    ensures Exec(tr).report == ReportOf(Closures(tr), Handled(tr))
  {
    if tr != [] {
      var before := Front(tr);
      ReportAlwaysExact(before);
      StepReport(Exec(before), Last(tr), Closures(before), Handled(before));
    }
  }

  // --- The phases and the progress reports ------------------------------------------------

  /** The paths handled after the serving loop ended. */
  function Drained(tr: Trace): (hs: seq<(StorePath, Outcome)>)
    requires Valid(tr)
  {
    if tr == [] then [] else AddDrained(Drained(Front(tr)), Exec(Front(tr)), Last(tr))
  }

  function AddDrained(hs: seq<(StorePath, Outcome)>, s: State, step: Step): (r: seq<(StorePath,
      Outcome)>)
  {
    if s.phase.Draining? then AddHandled(hs, step) else hs
  }

  /** The number of handlers running or waiting. */
  function Left(s: State): (n: nat)
  {
    |s.running| + |s.pending|
  }

  /** The number of handlers running or waiting when the serving loop ended. */
  function LeftAtDrain(tr: Trace): (n: nat)
    requires Valid(tr)
  {
    if tr == [] then 0
    else NoteLeft(LeftAtDrain(Front(tr)), Exec(Front(tr)), Last(tr))
  }

  function NoteLeft(left: nat, s: State, step: Step): (n: nat)
  {
    if step.BeginDrain? then Left(s) else left
  }

  function CallsFor(hs: seq<(StorePath, Outcome)>): (cs: seq<Call>)
    ensures |cs| == |hs|
    ensures forall i :: 0 <= i < |hs| ==> cs[i] == CallFor(hs[i].0, hs[i].1)
  {
    if hs == [] then [] else CallsFor(Front(hs)) + [CallFor(Last(hs).0, Last(hs).1)]
  }

  /** The calls on the reporter once `left` handlers were announced and `drained` were reported. */
  function Announcements(s: State, drained: seq<(StorePath, Outcome)>, left: nat): (cs: seq<Call>)
  {
    var calls := [PathsLeft(left % U32)] + CallsFor(drained);
    if s.phase.Finished? then calls + [FinalReport(s.report)] else calls
  }

  predicate PhaseOk(s: State, drained: seq<(StorePath, Outcome)>, left: nat)
  {
    match s.phase
    case Serving => s.calls == [] && drained == []
    case _ =>
      && Stopping(s)
      && (s.phase.Finished? ==> s.running == multiset{})
      && |drained| + Left(s) == left
      && s.calls == Announcements(s, drained, left)
  }

  lemma DrainPhase(s: State, path: StorePath, outcome: Outcome, drained: seq<(StorePath, Outcome)>,
      left: nat)
    requires PhaseOk(s, drained, left) && s.phase.Draining? && path in s.running
    ensures PhaseOk(Settle(s, path, outcome), drained + [(path, outcome)], left)
    ensures Left(Settle(s, path, outcome)) == Left(s) - 1
  {
    FrontLast(drained, (path, outcome));
    Associate([PathsLeft(left % U32)], CallsFor(drained), [CallFor(path, outcome)]);
  }

  lemma StepPhase(s: State, step: Step, drained: seq<(StorePath, Outcome)>, left: nat)
    requires PhaseOk(s, drained, left) && Enabled(s, step)
    ensures PhaseOk(Apply(s, step), AddDrained(drained, s, step), NoteLeft(left, s, step))
  {
    match step {
      case ClosureDone(path, closure) =>
        if closure.Paths? {
          AbsorbFrame(s.(closures := s.closures - multiset{path}), closure.paths);
        }
      case PathDone(path, outcome) =>
        if s.phase.Draining? {
          DrainPhase(s, path, outcome, drained, left);
        }
      case _ =>
    }
  }

  lemma {:induction false} PhaseAlwaysOk(tr: Trace)
    requires Valid(tr)
    ensures PhaseOk(Exec(tr), Drained(tr), LeftAtDrain(tr))
  {
    if tr != [] {
      var before := Front(tr);
      PhaseAlwaysOk(before);
      StepPhase(Exec(before), Last(tr), Drained(before), LeftAtDrain(before));
    }
  }
}
