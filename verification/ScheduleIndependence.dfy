/** The final report does not depend on the schedule: it is that of a daemon that takes the pushes
    one at a time and handles one path at a time. */
module ScheduleIndependence {
  import opened ByteStrings
  import opened Wire
  import opened Connection
  import opened Scheduler
  import opened SchedulerInvariants
  import opened SchedulerTheorems

  /** What the store and the cache would answer, whenever they are asked. */
  datatype Oracle = Oracle(closure: StorePath -> Closure, outcome: Bytes -> Outcome)

  predicate Consistent(tr: Trace, o: Oracle)
  {
    forall i :: 0 <= i < |tr| ==>
      && (tr[i].ClosureDone? ==> tr[i].closure == o.closure(tr[i].pushed))
      && (tr[i].PathDone? ==> tr[i].outcome == o.outcome(tr[i].path.hash))
  }

  // --- The sequential daemon --------------------------------------------------------------

  datatype Daemon = Daemon(seen: set<Bytes>, report: Report)

  function HandleOne(d: Daemon, path: StorePath, o: Oracle): Daemon
  {
    if path.hash in d.seen then d
    else Daemon(d.seen + {path.hash}, Record(d.report, path, o.outcome(path.hash)))
  }

  function HandleAll(d: Daemon, paths: seq<StorePath>, o: Oracle): Daemon
  {
    if paths == [] then d else HandleOne(HandleAll(d, Front(paths), o), Last(paths), o)
  }

  function ServeOne(d: Daemon, path: StorePath, o: Oracle): Daemon
  {
    match o.closure(path)
    case Paths(paths) => HandleAll(d, paths, o)
    case NoClosure(error) =>
      d.(report := d.report.(closureErrors := d.report.closureErrors + [(path, error)]))
  }

  /** Serves the pushes one after the other. */
  function Serve(pushes: seq<StorePath>, o: Oracle): Daemon
  {
    if pushes == [] then Daemon({}, EMPTY_REPORT)
    else ServeOne(Serve(Front(pushes), o), Last(pushes), o)
  }

  // --- What a report says, regardless of order --------------------------------------------

  /** A report up to the order of its error lists, and up to which of several paths with the same
      hash an error names. */
  datatype Summary = Summary(
    numBytesPushed: nat,
    numPathsPushed: nat,
    numPathsSkipped: nat,
    closureErrors: multiset<(StorePath, nat)>,
    failed: multiset<(Bytes, nat)>)

  function ByHash(es: seq<(StorePath, nat)>): (m: multiset<(Bytes, nat)>)
  {
    if es == [] then multiset{} else ByHash(Front(es)) + multiset{(Last(es).0.hash, Last(es).1)}
  }

  function Summarize(r: Report): Summary
  {
    Summary(r.numBytesPushed, r.numPathsPushed, r.numPathsSkipped,
            multiset(r.closureErrors), ByHash(r.handlingErrors))
  }

  /** The same with exact totals: these add up in any order. */
  function Plus(a: Summary, b: Summary): Summary
  {
    Summary(a.numBytesPushed + b.numBytesPushed, a.numPathsPushed + b.numPathsPushed,
            a.numPathsSkipped + b.numPathsSkipped, a.closureErrors + b.closureErrors,
            a.failed + b.failed)
  }

  const ZERO: Summary := Summary(0, 0, 0, multiset{}, multiset{})

  function Sum<X>(xs: seq<X>, f: X -> Summary): Summary
  {
    if xs == [] then ZERO else Plus(Sum(Front(xs), f), f(Last(xs)))
  }

  function Wrap(s: Summary): Summary
  {
    s.(numBytesPushed := s.numBytesPushed % U64, numPathsPushed := s.numPathsPushed % U32,
       numPathsSkipped := s.numPathsSkipped % U32)
  }

  function Without<X>(xs: seq<X>, i: nat): (r: seq<X>)
    requires i < |xs|
  {
    xs[..i] + xs[i + 1..]
  }

  lemma WithoutFront<X>(xs: seq<X>, i: nat)
    requires i < |xs| - 1
    ensures Front(Without(xs, i)) == Without(Front(xs), i) && Last(Without(xs, i)) == Last(xs)
  {
  }

  lemma PlusSwaps(a: Summary, b: Summary, c: Summary)
    ensures Plus(Plus(a, b), c) == Plus(Plus(a, c), b)
  {
  }

  lemma {:induction false} SumRemove<X>(xs: seq<X>, f: X -> Summary, i: nat)
    requires i < |xs|
    ensures Sum(xs, f) == Plus(Sum(Without(xs, i), f), f(xs[i]))
  {
    if i == |xs| - 1 {
      assert Without(xs, i) == Front(xs);
    } else {
      SumRemove(Front(xs), f, i);
      WithoutFront(xs, i);
      PlusSwaps(Sum(Without(Front(xs), i), f), f(xs[i]), f(Last(xs)));
    }
  }

  lemma WithoutMultiset<X>(xs: seq<X>, i: nat)
    requires i < |xs|
    ensures multiset(Without(xs, i)) == multiset(xs) - multiset{xs[i]}
  {
    assert xs == xs[..i] + [xs[i]] + xs[i + 1..];
  }

  lemma FindOther<X>(xs: seq<X>, ys: seq<X>) returns (i: nat)
    requires multiset(xs) == multiset(ys) && xs != []
    ensures i < |ys| && ys[i] == Last(xs)
    ensures multiset(Front(xs)) == multiset(Without(ys, i))
  {
    assert Last(xs) in multiset(ys);
    i :| 0 <= i < |ys| && ys[i] == Last(xs);
    WithoutMultiset(ys, i);
    assert multiset(xs) == multiset(Front(xs)) + multiset{Last(xs)};
  }

  lemma {:induction false} SumPermutes<X>(xs: seq<X>, ys: seq<X>, f: X -> Summary)
    requires multiset(xs) == multiset(ys)
    ensures Sum(xs, f) == Sum(ys, f)
  {
    if xs == [] {
      assert |multiset(ys)| == |ys|;
    } else {
      var i := FindOther(xs, ys);
      SumRemove(ys, f, i);
      SumPermutes(Front(xs), Without(ys, i), f);
    }
  }

  // --- Closures and outcomes given by the oracle ------------------------------------------

  function Answered(pushes: seq<StorePath>, o: Oracle): (cs: seq<(StorePath, Closure)>)
  {
    if pushes == [] then []
    else Answered(Front(pushes), o) + [(Last(pushes), o.closure(Last(pushes)))]
  }

  function Outcomes(paths: seq<StorePath>, o: Oracle): (hs: seq<(StorePath, Outcome)>)
  {
    if paths == [] then []
    else Outcomes(Front(paths), o) + [(Last(paths), o.outcome(Last(paths).hash))]
  }

  lemma {:induction false} ConsistentTrace(tr: Trace, o: Oracle)
    requires Consistent(tr, o)
    ensures Closures(tr) == Answered(First(Closures(tr)), o)
    ensures Handled(tr) == Outcomes(First(Handled(tr)), o)
  {
    if tr != [] {
      var front, step := Front(tr), Last(tr);
      assert Consistent(front, o) by {
        assert forall i :: 0 <= i < |front| ==> front[i] == tr[i];
      }
      ConsistentTrace(front, o);
      assert tr[|tr| - 1] == step;
      if step.ClosureDone? {
        FrontLast(Closures(front), (step.pushed, step.closure));
        FrontLast(First(Closures(front)), step.pushed);
      } else if step.PathDone? {
        FrontLast(Handled(front), (step.path, step.outcome));
        FrontLast(First(Handled(front)), step.path);
      }
    }
  }

  function ClosureSummary(o: Oracle, path: StorePath): Summary
  {
    match o.closure(path)
    case Paths(_) => ZERO
    case NoClosure(error) => ZERO.(closureErrors := multiset{(path, error)})
  }

  function OutcomeSummary(o: Oracle, hash: Bytes): Summary
  {
    match o.outcome(hash)
    case Pushed(bytes) => ZERO.(numBytesPushed := bytes, numPathsPushed := 1)
    case Skipped => ZERO.(numPathsSkipped := 1)
    case Failed(error) => ZERO.(failed := multiset{(hash, error)})
  }

  function ClosurePart(o: Oracle): StorePath -> Summary
  {
    path => ClosureSummary(o, path)
  }

  function OutcomePart(o: Oracle): Bytes -> Summary
  {
    hash => OutcomeSummary(o, hash)
  }

  function PathPart(o: Oracle): StorePath -> Summary
  {
    (path: StorePath) => OutcomeSummary(o, path.hash)
  }

  lemma {:induction false} ClosureErrorsSum(pushes: seq<StorePath>, o: Oracle)
    ensures Sum(pushes, ClosurePart(o))
         == ZERO.(closureErrors := multiset(ClosureErrors(Answered(pushes, o))))
  {
    if pushes != [] {
      ClosureErrorsSum(Front(pushes), o);
      FrontLast(Answered(Front(pushes), o), (Last(pushes), o.closure(Last(pushes))));
    }
  }

  function TallySummary(t: Tally): Summary
  {
    Summary(t.bytes, t.pushed, t.skipped, multiset{}, ByHash(t.failed))
  }

  /** One more outcome in a tally. */
  lemma TallyAppend(hs: seq<(StorePath, Outcome)>, path: StorePath, outcome: Outcome)
    ensures var t, t' := TallyOf(hs), TallyOf(hs + [(path, outcome)]);
            match outcome
            case Pushed(bytes) => t' == t.(bytes := t.bytes + bytes, pushed := t.pushed + 1)
            case Skipped => t' == t.(skipped := t.skipped + 1)
            case Failed(error) => t' == t.(failed := t.failed + [(path, error)])
  {
    FrontLast(hs, (path, outcome));
  }

  lemma ByHashAppend(es: seq<(StorePath, nat)>, path: StorePath, error: nat)
    ensures ByHash(es + [(path, error)]) == ByHash(es) + multiset{(path.hash, error)}
  {
    FrontLast(es, (path, error));
  }

  lemma TallyOne(hs: seq<(StorePath, Outcome)>, path: StorePath, o: Oracle)
    ensures TallySummary(TallyOf(hs + [(path, o.outcome(path.hash))]))
         == Plus(TallySummary(TallyOf(hs)), OutcomeSummary(o, path.hash))
  {
    TallyAppend(hs, path, o.outcome(path.hash));
    if o.outcome(path.hash).Failed? {
      ByHashAppend(TallyOf(hs).failed, path, o.outcome(path.hash).error);
    }
  }

  lemma {:induction false} TallySum(paths: seq<StorePath>, o: Oracle)
    ensures Sum(paths, PathPart(o)) == TallySummary(TallyOf(Outcomes(paths, o)))
  {
    if paths != [] {
      TallySum(Front(paths), o);
      TallyOne(Outcomes(Front(paths), o), Last(paths), o);
      assert PathPart(o)(Last(paths)) == OutcomeSummary(o, Last(paths).hash);
    }
  }

  lemma PlusErrors(errors: multiset<(StorePath, nat)>, t: Tally)
    ensures Plus(ZERO.(closureErrors := errors), TallySummary(t))
         == TallySummary(t).(closureErrors := errors)
  {
  }

  /** A report made of oracle answers is a sum over the pushes and a sum over the handled paths. */
  lemma ReportSum(pushes: seq<StorePath>, paths: seq<StorePath>, o: Oracle)
    ensures Summarize(ReportOf(Answered(pushes, o), Outcomes(paths, o)))
         == Wrap(Plus(Sum(pushes, ClosurePart(o)), Sum(paths, PathPart(o))))
  {
    ClosureErrorsSum(pushes, o);
    TallySum(paths, o);
    PlusErrors(multiset(ClosureErrors(Answered(pushes, o))), TallyOf(Outcomes(paths, o)));
  }

  // --- The sequential daemon computes such a report ---------------------------------------

  predicate DaemonOk(d: Daemon, cs: seq<(StorePath, Closure)>, discovered: seq<StorePath>, o: Oracle)
  {
    && d.seen == Hashes(discovered)
    && d.report == ReportOf(cs, Outcomes(FirstSeen(discovered), o))
  }

  lemma {:induction false} HandleAllOk(d: Daemon, cs: seq<(StorePath, Closure)>,
      discovered: seq<StorePath>, paths: seq<StorePath>, o: Oracle)
    requires DaemonOk(d, cs, discovered, o)
    ensures DaemonOk(HandleAll(d, paths, o), cs, discovered + paths, o)
  {
    if paths == [] {
      assert discovered + paths == discovered;
    } else {
      HandleAllOk(d, cs, discovered, Front(paths), o);
      Associate(discovered, Front(paths), [Last(paths)]);
      HandleOneOk(HandleAll(d, Front(paths), o), cs, discovered + Front(paths), Last(paths), o);
    }
  }

  lemma HandleOneOk(d: Daemon, cs: seq<(StorePath, Closure)>, discovered: seq<StorePath>,
      path: StorePath, o: Oracle)
    requires DaemonOk(d, cs, discovered, o)
    ensures DaemonOk(HandleOne(d, path, o), cs, discovered + [path], o)
  {
    HashesAppend(discovered, path);
    FrontLast(discovered, path);
    if path.hash !in d.seen {
      FrontLast(FirstSeen(discovered), path);
      RecordTally(cs, Outcomes(FirstSeen(discovered), o), path, o.outcome(path.hash));
    }
  }

  lemma {:induction false} ServeOk(pushes: seq<StorePath>, o: Oracle)
    ensures DaemonOk(Serve(pushes, o), Answered(pushes, o), Discovered(Answered(pushes, o)), o)
  {
    if pushes != [] {
      var cs, p := Answered(Front(pushes), o), Last(pushes);
      ServeOk(Front(pushes), o);
      FrontLast(cs, (p, o.closure(p)));
      if o.closure(p).Paths? {
        assert DaemonOk(Serve(Front(pushes), o), Answered(pushes, o), Discovered(cs), o);
        HandleAllOk(Serve(Front(pushes), o), Answered(pushes, o), Discovered(cs), o.closure(p).paths, o);
      }
    }
  }

  // --- The same hashes, whatever the order of the pushes ----------------------------------

  lemma {:induction false} AnsweredAt(pushes: seq<StorePath>, o: Oracle)
    ensures |Answered(pushes, o)| == |pushes|
    ensures forall k :: 0 <= k < |pushes| ==> Answered(pushes, o)[k] == (pushes[k], o.closure(pushes[k]))
  {
    if pushes != [] {
      AnsweredAt(Front(pushes), o);
    }
  }

  lemma {:induction false} DiscoveredSubset(ps: seq<StorePath>, qs: seq<StorePath>, o: Oracle)
    requires forall p :: p in ps ==> p in qs
    ensures Hashes(Discovered(Answered(ps, o))) <= Hashes(Discovered(Answered(qs, o)))
  {
    if ps != [] {
      var p := Last(ps);
      DiscoveredSubset(Front(ps), qs, o);
      FrontLast(Answered(Front(ps), o), (p, o.closure(p)));
      if o.closure(p).Paths? {
        AnsweredAt(qs, o);
        assert p in qs;
        var k :| 0 <= k < |qs| && qs[k] == p;
        forall d | d in o.closure(p).paths
          ensures d.hash in Hashes(Discovered(Answered(qs, o)))
        {
          DiscoveredIn(Answered(qs, o), k, d);
        }
      }
    }
  }

  function HashList(ps: seq<StorePath>): (hs: seq<Bytes>)
  {
    if ps == [] then [] else HashList(Front(ps)) + [Last(ps).hash]
  }

  lemma {:induction false} SumByHash(ps: seq<StorePath>, o: Oracle)
    ensures Sum(ps, PathPart(o)) == Sum(HashList(ps), OutcomePart(o))
  {
    if ps != [] {
      SumByHash(Front(ps), o);
      FrontLast(HashList(Front(ps)), Last(ps).hash);
    }
  }

  lemma {:induction false} DistinctHashList(ps: seq<StorePath>)
    requires Distinct(ps)
    ensures multiset(HashList(ps)) == multiset(Hashes(ps))
  {
    if ps != [] {
      var front, hash := Front(ps), Last(ps).hash;
      DistinctHashList(front);
      HashesAppend(front, Last(ps));
      assert forall i :: 0 <= i < |front| ==> front[i] == ps[i] && front[i].hash != hash;
      AddToSet(Hashes(front), hash);
    }
  }

  lemma AddToSet<T>(s: set<T>, x: T)
    requires x !in s
    ensures multiset(s + {x}) == multiset(s) + multiset{x}
  {
  }

  /** Two lists of distinct hashes with the same hashes have the same sum. */
  lemma SumOfDistinct(ps: seq<StorePath>, qs: seq<StorePath>, o: Oracle)
    requires Distinct(ps) && Distinct(qs) && Hashes(ps) == Hashes(qs)
    ensures Sum(ps, PathPart(o)) == Sum(qs, PathPart(o))
  {
    SumByHash(ps, o);
    SumByHash(qs, o);
    DistinctHashList(ps);
    DistinctHashList(qs);
    SumPermutes(HashList(ps), HashList(qs), OutcomePart(o));
  }

  // --- The theorem ------------------------------------------------------------------------

  /** Any complete run, whatever `select!` picked and in whatever order closures and handlers
      finished, reports what the sequential daemon reports on the consumed pushes, in any order. */
  lemma AgreesWithSequentialDaemon(tr: Trace, pushes: seq<StorePath>, o: Oracle)
    requires Valid(tr) && Exec(tr).phase.Finished? && Consistent(tr, o)
    requires multiset(pushes) == multiset(Pushes(Consumed(tr)))
    ensures Summarize(Exec(tr).report) == Summarize(Serve(pushes, o).report)
  {
    var closed, handled := First(Closures(tr)), First(Handled(tr));
    DrainIsComplete(tr);
    ConsistentTrace(tr, o);
    ReportSum(closed, handled, o);
    var fast := FirstSeen(Discovered(Answered(closed, o)));
    var slow := FirstSeen(Discovered(Answered(pushes, o)));
    SumPermutes(handled, fast, PathPart(o));
    SumPermutes(closed, pushes, ClosurePart(o));
    SameDiscovered(closed, pushes, o);
    SumOfDistinct(fast, slow, o);
    ServeOk(pushes, o);
    ReportSum(pushes, slow, o);
  }

  lemma SameDiscovered(ps: seq<StorePath>, qs: seq<StorePath>, o: Oracle)
    requires multiset(ps) == multiset(qs)
    ensures var fast, slow := FirstSeen(Discovered(Answered(ps, o))), FirstSeen(Discovered(Answered(qs, o)));
            Distinct(fast) && Distinct(slow) && Hashes(fast) == Hashes(slow)
  {
    assert forall p :: p in ps <==> p in multiset(ps);
    assert forall p :: p in qs <==> p in multiset(qs);
    DiscoveredSubset(ps, qs, o);
    DiscoveredSubset(qs, ps, o);
    FirstSeenIsExact(Discovered(Answered(ps, o)));
    FirstSeenIsExact(Discovered(Answered(qs, o)));
  }

  /** Two complete runs that consumed the same pushes, in whatever order, report the same. */
  lemma ScheduleDoesNotMatter(tr1: Trace, tr2: Trace, o: Oracle)
    requires Valid(tr1) && Exec(tr1).phase.Finished? && Consistent(tr1, o)
    requires Valid(tr2) && Exec(tr2).phase.Finished? && Consistent(tr2, o)
    requires multiset(Pushes(Consumed(tr1))) == multiset(Pushes(Consumed(tr2)))
    ensures Summarize(Exec(tr1).report) == Summarize(Exec(tr2).report)
  {
    AgreesWithSequentialDaemon(tr1, Pushes(Consumed(tr1)), o);
    AgreesWithSequentialDaemon(tr2, Pushes(Consumed(tr1)), o);
  }
}
