/** The guarantees of the event loop, for all runs. */
module SchedulerTheorems {
  import opened ByteStrings
  import opened Wire
  import opened Connection
  import opened Scheduler
  import opened SchedulerInvariants

  // --- Exactly once -----------------------------------------------------------------------

  lemma DistinctAppend(ps: seq<StorePath>, p: StorePath)
    requires Distinct(ps) && p.hash !in Hashes(ps)
    ensures Distinct(ps + [p])
  {
    assert forall i :: 0 <= i < |ps| ==> ps[i].hash in Hashes(ps);
  }

  /** First occurrences: every hash once, and every hash. */
  lemma {:induction false} FirstSeenIsExact(ps: seq<StorePath>)
    ensures Distinct(FirstSeen(ps))
    ensures Hashes(FirstSeen(ps)) == Hashes(ps)
    ensures |FirstSeen(ps)| == |Hashes(ps)|
  {
    if ps != [] {
      var front, p := Front(ps), Last(ps);
      FirstSeenIsExact(front);
      HashesAppend(front, p);
      if p.hash in Hashes(front) {
        assert Hashes(front) + {p.hash} == Hashes(front);
      } else {
        DistinctAppend(FirstSeen(front), p);
        HashesAppend(FirstSeen(front), p);
      }
    }
  }

  lemma HashesAppend(ps: seq<StorePath>, p: StorePath)
    ensures Hashes(ps + [p]) == Hashes(ps) + {p.hash}
  {
    assert p in ps + [p];
  }

  lemma {:induction false} DistinctOnce(ps: seq<StorePath>, p: StorePath)
    requires Distinct(ps)
    ensures multiset(ps)[p] <= 1
  {
    if ps != [] {
      var rest := Front(ps);
      DistinctOnce(rest, p);
      assert forall i :: 0 <= i < |rest| ==> rest[i] == ps[i] && rest[i] != Last(ps);
      assert multiset(ps) == multiset(rest) + multiset{Last(ps)};
    }
  }

  function RunningHashes(s: State): (hs: set<Bytes>)
  {
    set p | p in s.running :: p.hash
  }

  /** Of two lists that together make up a list of distinct hashes, no hash is in both. */
  lemma DisjointParts(started: seq<StorePath>, running: multiset<StorePath>, handled: seq<StorePath>)
    requires Distinct(started) && multiset(started) == running + multiset(handled)
    ensures forall p, q :: p in running && q in handled ==> p.hash != q.hash
  {
    forall p, q | p in running && q in handled
      ensures p.hash != q.hash
    {
      assert p in multiset(started) && q in multiset(started);
      var i :| 0 <= i < |started| && started[i] == p;
      var j :| 0 <= j < |started| && started[j] == q;
      DistinctOnce(started, p);
      assert p == q ==> multiset(started)[p] >= 2;
      assert i != j;
    }
  }

  lemma SplitDistinct(xs: seq<StorePath>, ys: seq<StorePath>)
    requires Distinct(xs + ys)
    ensures Distinct(xs)
    ensures Hashes(xs) !! Hashes(ys) && Hashes(xs + ys) == Hashes(xs) + Hashes(ys)
  {
    var all := xs + ys;
    assert forall i :: 0 <= i < |xs| ==> all[i] == xs[i];
    assert forall j :: 0 <= j < |ys| ==> all[|xs| + j] == ys[j];
    forall p, q | p in xs && q in ys
      ensures p.hash != q.hash
    {
      var i :| 0 <= i < |xs| && xs[i] == p;
      var j :| 0 <= j < |ys| && ys[j] == q;
      assert all[i].hash != all[|xs| + j].hash;
    }
    assert forall p :: p in all <==> p in xs || p in ys;
  }

  lemma StartedParts(s: State, handled: seq<StorePath>)
    requires Distinct(s.started) && multiset(s.started) == s.running + multiset(handled)
    ensures RunningHashes(s) !! Hashes(handled)
    ensures Hashes(s.started) == RunningHashes(s) + Hashes(handled)
    ensures |s.started| == |s.running| + |handled|
  {
    DisjointParts(s.started, s.running, handled);
    assert forall p :: p in s.started <==> p in multiset(s.started);
    assert forall p :: p in handled <==> p in multiset(handled);
    assert forall p :: p in s.started <==> p in s.running || p in handled;
    assert |multiset(s.started)| == |s.started| && |multiset(handled)| == |handled|;
  }

  /** In every reachable state the seen hashes are, disjointly, those running, those waiting and
      those handled, and each belongs to exactly one path. */
  lemma ExactlyOnce(tr: Trace)
    requires Valid(tr)
    ensures var s, handled := Exec(tr), First(Handled(tr));
            && s.seen == RunningHashes(s) + Hashes(s.pending) + Hashes(handled)
            && RunningHashes(s) !! Hashes(s.pending) !! Hashes(handled)
            && |s.seen| == |s.running| + |s.pending| + |handled|
            && s.seen == Hashes(Discovered(Closures(tr)))
  {
    var s := Exec(tr);
    AlwaysInOrder(tr);
    FirstSeenIsExact(Discovered(Closures(tr)));
    SplitDistinct(s.started, s.pending);
    StartedParts(s, First(Handled(tr)));
    ThreeParts(RunningHashes(s), Hashes(s.pending), Hashes(First(Handled(tr))));
  }

  lemma ThreeParts<T>(a: set<T>, b: set<T>, c: set<T>)
    requires a !! c && (a + c) !! b
    ensures a !! b !! c && (a + c) + b == a + b + c
  {
  }

  /** A handled path is handled once: no two handlers share a hash. */
  lemma HandledDistinct(tr: Trace)
    requires Valid(tr)
    ensures Distinct(First(Handled(tr)))
  {
    var s, handled := Exec(tr), First(Handled(tr));
    AlwaysInOrder(tr);
    FirstSeenIsExact(Discovered(Closures(tr)));
    SplitDistinct(s.started, s.pending);
    PartOfDistinct(s.started, s.running, handled);
  }

  lemma PartOfDistinct(started: seq<StorePath>, running: multiset<StorePath>, handled: seq<StorePath>)
    requires Distinct(started) && multiset(started) == running + multiset(handled)
    ensures Distinct(handled)
  {
    forall i, j | 0 <= i < j < |handled|
      ensures handled[i].hash != handled[j].hash
    {
      var p, q := handled[i], handled[j];
      assert p in multiset(handled) && q in multiset(handled);
      assert p in multiset(started) && q in multiset(started);
      var a :| 0 <= a < |started| && started[a] == p;
      var b :| 0 <= b < |started| && started[b] == q;
      if p == q {
        TwiceCounts(handled, i, j);
        DistinctOnce(started, p);
      }
    }
  }

  lemma TwiceCounts(ps: seq<StorePath>, i: nat, j: nat)
    requires i < j < |ps| && ps[i] == ps[j]
    ensures multiset(ps)[ps[i]] >= 2
  {
    assert ps == ps[..j] + ps[j..];
    assert ps[i] in ps[..j] && ps[j] in ps[j..];
  }

  // --- The end of a run -------------------------------------------------------------------

  /** When the drain loop ends, because no handler is running, nothing is left anywhere: every
      discovered hash was handled exactly once and the report accounts for each. */
  lemma DrainIsComplete(tr: Trace)
    requires Valid(tr) && Exec(tr).phase.Finished?
    ensures var s := Exec(tr);
            s.running == multiset{} && s.pending == [] && s.closures == multiset{}
    ensures multiset(First(Handled(tr))) == multiset(FirstSeen(Discovered(Closures(tr))))
    ensures multiset(First(Closures(tr))) == multiset(Pushes(Consumed(tr)))
    ensures Exec(tr).report == ReportOf(Closures(tr), Handled(tr))
    ensures var t := TallyOf(Handled(tr));
            t.pushed + t.skipped + |t.failed| == |Hashes(Discovered(Closures(tr)))|
  {
    PhaseAlwaysOk(tr);
    AlwaysWorkConserving(tr);
    AlwaysInOrder(tr);
    ChannelAlwaysOk(tr);
    ReportAlwaysExact(tr);
    var s := Exec(tr);
    assert s.started + s.pending == s.started;
    FirstSeenIsExact(Discovered(Closures(tr)));
    assert |multiset(First(Handled(tr)))| == |Handled(tr)|;
  }

  /** Where in a list of results a path was pushed, and where one was skipped. */
  function PushedAt(hs: seq<(StorePath, Outcome)>): (at: set<nat>)
  {
    set i: nat | i < |hs| && hs[i].1.Pushed?
  }

  function SkippedAt(hs: seq<(StorePath, Outcome)>): (at: set<nat>)
  {
    set i: nat | i < |hs| && hs[i].1.Skipped?
  }

  lemma PlacesGrow(hs: seq<(StorePath, Outcome)>)
    requires hs != []
    ensures var n, front := |hs| - 1, Front(hs);
            && PushedAt(hs) == PushedAt(front) + (if hs[n].1.Pushed? then {n} else {})
            && SkippedAt(hs) == SkippedAt(front) + (if hs[n].1.Skipped? then {n} else {})
            && n !in PushedAt(front) && n !in SkippedAt(front)
  {
    var n, front := |hs| - 1, Front(hs);
    assert forall i :: 0 <= i < n ==> front[i] == hs[i];
  }

  lemma MembersGrow<T>(xs: seq<T>)
    requires xs != []
    ensures forall x :: x in xs <==> x in Front(xs) || x == Last(xs)
  {
  }

  /** What the exact totals are: how many paths were pushed and how many skipped, and the errors of the
      failed ones. */
  lemma {:induction false} TallyMeaning(hs: seq<(StorePath, Outcome)>)
    ensures var t := TallyOf(hs);
            && t.pushed == |PushedAt(hs)| && t.skipped == |SkippedAt(hs)|
            && (forall p, e: nat :: (p, e) in t.failed <==> (p, Failed(e)) in hs)
  {
    if hs != [] {
      TallyMeaning(Front(hs));
      PlacesGrow(hs);
      MembersGrow(hs);
    }
  }

  /** While the exact totals fit their types, the report's counters are the exact totals. */
  lemma CountersExact(tr: Trace)
    requires Valid(tr) && Exec(tr).phase.Finished?
    requires |Hashes(Discovered(Closures(tr)))| < 0x1_0000_0000
    requires TallyOf(Handled(tr)).bytes < 0x1_0000_0000_0000_0000
    ensures var r := Exec(tr).report;
            && r.numBytesPushed == TallyOf(Handled(tr)).bytes
            && r.numPathsPushed + r.numPathsSkipped + |r.handlingErrors|
               == |Hashes(Discovered(Closures(tr)))|
  {
    DrainIsComplete(tr);
    SmallCounters(Closures(tr), Handled(tr));
  }

  lemma SmallCounters(cs: seq<(StorePath, Closure)>, hs: seq<(StorePath, Outcome)>)
    requires |hs| < U32 && TallyOf(hs).bytes < U64
    ensures var r, t := ReportOf(cs, hs), TallyOf(hs);
            && r.numBytesPushed == t.bytes && r.numPathsPushed == t.pushed
            && r.numPathsSkipped == t.skipped && r.handlingErrors == t.failed
  {
    var t := TallyOf(hs);
    InRange(t.bytes, U64);
    InRange(t.pushed, U32);
    InRange(t.skipped, U32);
  }

  lemma InRange(x: nat, m: nat)
    requires x < m
    ensures x % m == x
  {
  }

  lemma {:induction false} PushIn(es: seq<Event>, i: nat)
    requires i < |es| && es[i].Push?
    ensures es[i].path in Pushes(es)
  {
    if i < |es| - 1 {
      PushIn(Front(es), i);
    }
  }

  lemma {:induction false} ClosureErrorIn(cs: seq<(StorePath, Closure)>, k: nat)
    requires k < |cs| && cs[k].1.NoClosure?
    ensures (cs[k].0, cs[k].1.error) in ClosureErrors(cs)
  {
    if k < |cs| - 1 {
      ClosureErrorIn(Front(cs), k);
    }
  }

  lemma {:induction false} DiscoveredIn(cs: seq<(StorePath, Closure)>, k: nat, p: StorePath)
    requires k < |cs| && cs[k].1.Paths? && p in cs[k].1.paths
    ensures p in Discovered(cs)
  {
    if k < |cs| - 1 {
      DiscoveredIn(Front(cs), k, p);
    }
  }

  /** What is read off a list of events: the paths of the pushes, the errors, and whether there is a
      stop. */
  lemma {:induction false} EventsMeaning(es: seq<Event>)
    ensures forall p :: p in Pushes(es) <==> Push(p) in es
    ensures forall e :: e in RxErrors(es) <==> ReceiveFailed(e) in es
    ensures LastStop(es).Some? <==> exists i :: 0 <= i < |es| && es[i].Stop?
  {
    if es != [] {
      EventsMeaning(Front(es));
      MembersGrow(es);
      StopsGrow(es);
    }
  }

  lemma StopsGrow(es: seq<Event>)
    requires es != []
    ensures (exists i :: 0 <= i < |es| && es[i].Stop?)
       <==> Last(es).Stop? || exists i :: 0 <= i < |Front(es)| && Front(es)[i].Stop?
  {
    assert es[|es| - 1] == Last(es);
    assert forall i :: 0 <= i < |es| - 1 ==> Front(es)[i] == es[i];
  }

  /** The closure errors are those of the closures that failed. */
  lemma {:induction false} ClosureErrorsMeaning(cs: seq<(StorePath, Closure)>)
    ensures forall p, e: nat :: (p, e) in ClosureErrors(cs) <==> (p, NoClosure(e)) in cs
  {
    if cs != [] {
      ClosureErrorsMeaning(Front(cs));
      MembersGrow(cs);
    }
  }

  lemma {:induction false} LastStopIs(es: seq<Event>) returns (j: nat)
    requires LastStop(es).Some?
    ensures j < |es| && es[j] == Stop(LastStop(es).value)
    ensures forall k :: j < k < |es| ==> !es[k].Stop?
  {
    j := |es| - 1;
    if !Last(es).Stop? {
      j := LastStopIs(Front(es));
    }
  }

  /** A run ends only by a stop: the reports go to the last stop consumed, whose position in the
      channel's history this lemma finds. */
  lemma FinishedByStop(tr: Trace) returns (j: nat)
    requires Valid(tr) && Exec(tr).phase.Finished?
    ensures j < NumReceived(tr) <= |Sent(tr)|
    ensures Sent(tr)[j].Stop? && Exec(tr).stopWriter == Some(Sent(tr)[j].writer)
    ensures forall k :: j < k < NumReceived(tr) ==> !Sent(tr)[k].Stop?
  {
    PhaseAlwaysOk(tr);
    ChannelAlwaysOk(tr);
    j := LastStopIs(Consumed(tr));
  }

  /** A push has come to an end: its closure, the `k`-th one computed, failed and the report says so,
      or every hash of that closure was handled. */
  ghost predicate Accounted(tr: Trace, path: StorePath, k: nat)
    requires Valid(tr)
  {
    k < |Closures(tr)| && Closures(tr)[k].0 == path
    && match Closures(tr)[k].1
       case NoClosure(error) => (path, error) in Exec(tr).report.closureErrors
       case Paths(paths) => forall p :: p in paths ==> p.hash in Hashes(First(Handled(tr)))
  }

  lemma ReceivedIsAccounted(tr: Trace, i: nat) returns (k: nat)
    requires Valid(tr) && Exec(tr).phase.Finished?
    requires i < NumReceived(tr) && i < |Sent(tr)| && Sent(tr)[i].Push?
    ensures Accounted(tr, Sent(tr)[i].path, k)
  {
    DrainIsComplete(tr);
    ChannelAlwaysOk(tr);
    var path, cs, handled := Sent(tr)[i].path, Closures(tr), First(Handled(tr));
    PushIn(Consumed(tr), i);
    assert path in multiset(First(cs));
    k :| 0 <= k < |First(cs)| && First(cs)[k] == path;
    if cs[k].1.NoClosure? {
      ClosureErrorIn(cs, k);
    } else {
      forall p | p in cs[k].1.paths
        ensures p.hash in Hashes(handled)
      {
        DiscoveredIn(cs, k, p);
        FirstSeenIsExact(Discovered(cs));
        assert p.hash in Hashes(FirstSeen(Discovered(cs)));
        var q :| q in FirstSeen(Discovered(cs)) && q.hash == p.hash;
        assert q in multiset(handled);
      }
    }
  }

  /** Stop covers everything before it: a push that entered the channel before a consumed stop has,
      by the final report, a closure error or a closure all of whose hashes were handled. */
  lemma StopCoversEarlierPushes(tr: Trace, i: nat, j: nat) returns (k: nat)
    requires Valid(tr) && Exec(tr).phase.Finished?
    requires i < j < NumReceived(tr) && j < |Sent(tr)| && Sent(tr)[i].Push? && Sent(tr)[j].Stop?
    ensures Accounted(tr, Sent(tr)[i].path, k)
  {
    k := ReceivedIsAccounted(tr, i);
  }

  // --- Which pushes are safe --------------------------------------------------------------

  /** No stop was sent before event `i`. */
  predicate NoStopBefore(es: seq<Event>, i: nat)
    requires i <= |es|
  {
    forall j :: 0 <= j < i ==> !es[j].Stop?
  }

  /** The daemon has ended, and these are the events sent to it until then. */
  ghost predicate EndsWith(tr: Trace, es: seq<Event>)
  {
    Valid(tr) && Exec(tr).phase.Finished? && Sent(tr) == es
  }

  /** A push sent before any stop is accounted for on every run that ends. */
  lemma EarlyPushIsAccounted(tr: Trace, i: nat) returns (k: nat)
    requires Valid(tr) && Exec(tr).phase.Finished?
    requires i < |Sent(tr)| && Sent(tr)[i].Push? && NoStopBefore(Sent(tr), i)
    ensures i < NumReceived(tr) && Accounted(tr, Sent(tr)[i].path, k)
  {
    var j := FinishedByStop(tr);
    k := ReceivedIsAccounted(tr, i);
  }

  /** One more step of a run, and what it adds to the history of the channel. */
  lemma Grow(tr: Trace, step: Step) returns (tr': Trace)
    requires Valid(tr) && Enabled(Exec(tr), step)
    ensures Valid(tr') && Exec(tr') == Apply(Exec(tr), step)
    ensures Sent(tr') == AddSent(Sent(tr), step)
    ensures NumReceived(tr') == NumReceived(tr) + if step.Receive? then 1 else 0
  {
    Extend(tr, step);
    FrontLast(tr, step);
    tr' := tr + [step];
  }

  lemma {:induction false} SendAll(es: seq<Event>) returns (tr: Trace)
    ensures Valid(tr) && Exec(tr) == Init().(channel := es)
    ensures Sent(tr) == es && NumReceived(tr) == 0
  {
    tr := [];
    if es != [] {
      var before := SendAll(Front(es));
      tr := Grow(before, Enqueue(Last(es)));
    }
  }

  /** Serving, idle, with this much taken out of the channel. */
  predicate IdleAt(s: State, es: seq<Event>, n: nat)
    requires n <= |es|
  {
    && s.phase.Serving? && s.channel == es[n..] && s.stopWriter.None?
    && s.closures == multiset{} && s.running == multiset{}
  }

  /** The loop takes out the next event, and if it is a push its closure turns out to be empty. */
  lemma TakeOne(tr: Trace, es: seq<Event>, n: nat) returns (tr': Trace)
    requires Valid(tr) && n < |es| && IdleAt(Exec(tr), es, n) && !es[n].Stop?
    ensures Valid(tr') && IdleAt(Exec(tr'), es, n + 1)
    ensures Sent(tr') == Sent(tr) && NumReceived(tr') == NumReceived(tr) + 1
  {
    tr' := Grow(tr, Receive);
    assert es[n..][1..] == es[n + 1..];
    if es[n].Push? {
      tr' := Grow(tr', ClosureDone(es[n].path, Paths([])));
    }
  }

  lemma {:induction false} TakeUpTo(es: seq<Event>, n: nat) returns (tr: Trace)
    requires n <= |es| && NoStopBefore(es, n)
    ensures Valid(tr) && IdleAt(Exec(tr), es, n)
    ensures Sent(tr) == es && NumReceived(tr) == n
  {
    if n == 0 {
      tr := SendAll(es);
    } else {
      var before := TakeUpTo(es, n - 1);
      tr := TakeOne(before, es, n - 1);
    }
  }

  /** The loop takes out a stop while it is idle, and ends. */
  lemma StopWhenIdle(tr: Trace, es: seq<Event>, n: nat) returns (tr': Trace)
    requires Valid(tr) && n < |es| && IdleAt(Exec(tr), es, n) && es[n].Stop?
    ensures Valid(tr') && Exec(tr').phase.Finished?
    ensures Sent(tr') == Sent(tr) && NumReceived(tr') == NumReceived(tr) + 1
  {
    tr' := Grow(tr, Receive);
    tr' := Grow(tr', BeginDrain);
    tr' := Grow(tr', Finish);
  }

  lemma {:induction false} FirstStop(es: seq<Event>, i: nat) returns (j: nat)
    requires i <= |es| && !NoStopBefore(es, i)
    ensures j < i && es[j].Stop? && NoStopBefore(es, j)
  {
    if NoStopBefore(es, i - 1) {
      j := i - 1;
    } else {
      j := FirstStop(es, i - 1);
    }
  }

  /** Whatever is sent after a stop can be lost: for every history of sends there is a run that ends
      without taking it out. */
  lemma LateEventIsLost(es: seq<Event>, i: nat) returns (tr: Trace)
    requires i < |es| && !NoStopBefore(es, i)
    ensures EndsWith(tr, es) && NumReceived(tr) <= i
  {
    var j := FirstStop(es, i);
    var before := TakeUpTo(es, j);
    tr := StopWhenIdle(before, es, j);
  }

  /** Exactly which pushes are safe: a push is taken out on every run that ends, whatever the
      interleaving, if and only if no stop was sent before it. */
  lemma SafeExactlyBeforeStop(es: seq<Event>, i: nat)
    requires i < |es| && es[i].Push?
    ensures (forall tr :: EndsWith(tr, es) ==> i < NumReceived(tr)) <==> NoStopBefore(es, i)
  {
    if NoStopBefore(es, i) {
      forall tr | EndsWith(tr, es)
        ensures i < NumReceived(tr)
      {
        var j := FinishedByStop(tr);
      }
    } else {
      var tr := LateEventIsLost(es, i);
    }
  }

  /** The call tells what happened: a pushed path is reported as pushed, with its size, a skipped one
      as skipped, and a failed one with its error. */
  predicate Tells(call: Call, path: StorePath, outcome: Outcome)
  {
    match outcome
    case Pushed(bytes) => call == PathPushed(path, bytes)
    case Skipped => call == PathSkipped(path)
    case Failed(error) => call == PathFailed(path, error)
  }

  /** The stop client hears how many paths are left, then what became of exactly that many paths, then
      the final report, and nothing else. */
  lemma AnnouncedEqualsReported(tr: Trace)
    requires Valid(tr) && Exec(tr).phase.Finished?
    ensures |Drained(tr)| == LeftAtDrain(tr)
    ensures var calls, drained := Exec(tr).calls, Drained(tr);
            && |calls| == |drained| + 2
            && calls[0] == PathsLeft(|drained| % 0x1_0000_0000)
            && (forall i :: 0 <= i < |drained| ==> Tells(calls[i + 1], drained[i].0, drained[i].1))
            && calls[|drained| + 1] == FinalReport(ReportOf(Closures(tr), Handled(tr)))
  {
    PhaseAlwaysOk(tr);
    DrainIsComplete(tr);
    CallsInOrder(Drained(tr), Exec(tr).report);
  }

  lemma CallsInOrder(drained: seq<(StorePath, Outcome)>, report: Report)
    ensures var calls := [PathsLeft(|drained| % U32)] + CallsFor(drained) + [FinalReport(report)];
            && |calls| == |drained| + 2
            && calls[0] == PathsLeft(|drained| % 0x1_0000_0000)
            && (forall i :: 0 <= i < |drained| ==> Tells(calls[i + 1], drained[i].0, drained[i].1))
            && calls[|drained| + 1] == FinalReport(report)
  {
    var calls := [PathsLeft(|drained| % U32)] + CallsFor(drained) + [FinalReport(report)];
    Bracketed(PathsLeft(|drained| % U32), CallsFor(drained), FinalReport(report));
    forall i | 0 <= i < |drained|
      ensures Tells(calls[i + 1], drained[i].0, drained[i].1)
    {
      CallTells(drained[i].0, drained[i].1);
    }
  }

  lemma Bracketed<T>(first: T, middle: seq<T>, last: T)
    ensures var all := [first] + middle + [last];
            && all[0] == first && all[|middle| + 1] == last
            && forall i :: 0 <= i < |middle| ==> all[i + 1] == middle[i]
  {
  }

  lemma CallTells(path: StorePath, outcome: Outcome)
    ensures Tells(CallFor(path, outcome), path, outcome)
  {
  }

  ghost predicate IsSuffix<T>(ds: seq<T>, hs: seq<T>)
  {
    |ds| <= |hs| && hs[|hs| - |ds|..] == ds
  }

  lemma SuffixStep(s: State, step: Step, hs: seq<(StorePath, Outcome)>, ds: seq<(StorePath,
      Outcome)>, left: nat)
    requires IsSuffix(ds, hs) && PhaseOk(s, ds, left) && Enabled(s, step)
    ensures IsSuffix(AddDrained(ds, s, step), AddHandled(hs, step))
  {
    if step.PathDone? && s.phase.Draining? {
      DropPrefix(hs, [(step.path, step.outcome)], |hs| - |ds|);
    }
  }

  /** The drained paths are the last ones handled. */
  lemma {:induction false} DrainedIsSuffix(tr: Trace)
    requires Valid(tr)
    ensures IsSuffix(Drained(tr), Handled(tr))
  {
    if tr != [] {
      var before := Front(tr);
      DrainedIsSuffix(before);
      PhaseAlwaysOk(before);
      SuffixStep(Exec(before), Last(tr), Handled(before), Drained(before), LeftAtDrain(before));
    }
  }

  // --- Progress ---------------------------------------------------------------------------

  /** The loop waits only when it has nothing to do: the daemon is idle, or has finished. */
  lemma BlockedOnlyWhenIdle(tr: Trace)
    requires Valid(tr)
    ensures var s := Exec(tr);
            (forall step :: Enabled(s, step) ==> step.Enqueue?)
            <==> (s.phase.Finished?
                  || (s.phase.Serving? && s.stopWriter.None? && s.channel == [] && s.pending == []
                      && s.closures == multiset{} && s.running == multiset{}))
  {
    var s := Exec(tr);
    AlwaysWorkConserving(tr);
    PhaseAlwaysOk(tr);
    if s.phase.Draining? {
      if s.running == multiset{} {
        assert Enabled(s, Finish);
      } else {
        var p :| p in s.running;
        assert Enabled(s, PathDone(p, Skipped));
      }
    } else if s.phase.Serving? {
      if Stopping(s) {
        assert Enabled(s, BeginDrain);
      } else if s.channel != [] {
        assert Enabled(s, Receive);
      } else if s.closures != multiset{} {
        var p :| p in s.closures;
        assert Enabled(s, ClosureDone(p, Paths([])));
      } else if s.running != multiset{} {
        var p :| p in s.running;
        assert Enabled(s, PathDone(p, Skipped));
      }
    }
  }

  lemma DrainStep(tr: Trace, path: StorePath, outcome: Outcome)
    requires Valid(tr) && Exec(tr).phase.Draining? && path in Exec(tr).running
    ensures var tr' := tr + [PathDone(path, outcome)];
            Valid(tr') && Exec(tr').phase.Draining? && Left(Exec(tr')) == Left(Exec(tr)) - 1
  {
    Extend(tr, PathDone(path, outcome));
    PhaseAlwaysOk(tr);
    DrainPhase(Exec(tr), path, outcome, Drained(tr), LeftAtDrain(tr));
  }

  /** A drain in which every handler answers what `answers` says. */
  predicate AnsweredDrain(rest: Trace, answers: StorePath -> Outcome)
  {
    && rest != []
    && if |rest| == 1 then rest[0].Finish?
       else
         && rest[0].PathDone? && rest[0].outcome == answers(rest[0].path)
         && AnsweredDrain(rest[1..], answers)
  }

  /** From any point of the drain, whatever the handlers still running and waiting will answer,
      the loop finishes after handling exactly those. */
  lemma {:induction false} DrainFinishes(tr: Trace, answers: StorePath -> Outcome) returns (rest: Trace)
    requires Valid(tr) && Exec(tr).phase.Draining?
    ensures Valid(tr + rest) && Exec(tr + rest).phase.Finished?
    ensures |rest| == Left(Exec(tr)) + 1 && AnsweredDrain(rest, answers)
    decreases Left(Exec(tr))
  {
    var s := Exec(tr);
    if s.running == multiset{} {
      AlwaysWorkConserving(tr);
      Extend(tr, Finish);
      rest := [Finish];
    } else {
      var p :| p in s.running;
      var step := PathDone(p, answers(p));
      DrainStep(tr, p, answers(p));
      var more := DrainFinishes(tr + [step], answers);
      rest := [step] + more;
      Shift(tr, step, more);
      assert rest[1..] == more;
    }
  }
}
