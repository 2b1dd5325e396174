/** The daemon's event loop as a transition system.

    A run is a sequence of steps.  `Receive`, `ClosureDone` and `PathDone` are the arms of the
    `select!`; which one fires next, with which result, is not determined.  `Enqueue` is a send by
    some connection's task, and can happen at any time. */
module Scheduler {
  import opened ByteStrings
  import opened Wire
  import opened Connection

  /** Maximum number of store paths handled concurrently. */
  const MAX_CONCURRENT: nat := 32

  /** The result of handling one store path. */
  datatype Outcome = Pushed(bytes: pos) | Skipped | Failed(error: nat)

  /** The result of computing one closure. */
  datatype Closure = Paths(paths: seq<StorePath>) | NoClosure(error: nat)

  datatype Report = Report(
    numBytesPushed: nat,
    numPathsPushed: nat,
    numPathsSkipped: nat,
    closureErrors: seq<(StorePath, nat)>,
    handlingErrors: seq<(StorePath, nat)>)

  const EMPTY_REPORT: Report := Report(0, 0, 0, [], [])

  /** The calls made on the stop-progress reporter. */
  datatype Call =
    | PathsLeft(n: nat)
    | PathPushed(path: StorePath, bytes: pos)
    | PathSkipped(path: StorePath)
    | PathFailed(path: StorePath, error: nat)
    | FinalReport(report: Report)

  datatype Phase = Serving | Draining | Finished

  datatype State = State(
    phase: Phase,
    channel: seq<Event>,
    closures: multiset<StorePath>,  // closures being computed
    running: multiset<StorePath>,   // handlers being run
    pending: seq<StorePath>,        // handlers waiting for a free slot
    seen: set<Bytes>,               // the store hashes met so far
    report: Report,
    stopWriter: Option<nat>,
    started: seq<StorePath>,        // the handlers spawned so far, in order
    rxErrors: seq<ReceiveError>,    // the errors passed to `handle_rx_error`
    calls: seq<Call>)

  datatype Step =
    | Enqueue(event: Event)
    | Receive
    | ClosureDone(pushed: StorePath, closure: Closure)
    | PathDone(path: StorePath, outcome: Outcome)
    | BeginDrain
    | Finish

  function Init(): State
  {
    State(Serving, [], multiset{}, multiset{}, [], {}, EMPTY_REPORT, None, [], [], [])
  }

  /** The test at the head of the serving loop. */
  predicate Stopping(s: State)
  {
    s.stopWriter.Some? && s.closures == multiset{}
  }

  predicate Enabled(s: State, step: Step)
  {
    match step
    case Enqueue(_) => true
    case Receive => s.phase.Serving? && !Stopping(s) && s.channel != []
    case ClosureDone(path, _) => s.phase.Serving? && !Stopping(s) && path in s.closures
    case PathDone(path, _) =>
      path in s.running && ((s.phase.Serving? && !Stopping(s)) || s.phase.Draining?)
    case BeginDrain => s.phase.Serving? && Stopping(s)
    case Finish => s.phase.Draining? && s.running == multiset{}
  }

  function Apply(s: State, step: Step): State
    requires Enabled(s, step)
  {
    match step
    case Enqueue(event) => s.(channel := s.channel + [event])
    case Receive => Consume(s.(channel := s.channel[1..]), s.channel[0])
    case ClosureDone(path, NoClosure(error)) =>
      s.(closures := s.closures - multiset{path},
         report := s.report.(closureErrors := s.report.closureErrors + [(path, error)]))
    case ClosureDone(path, Paths(paths)) =>
      Absorb(s.(closures := s.closures - multiset{path}), paths)
    case PathDone(path, outcome) => Settle(s, path, outcome)
    case BeginDrain =>
      s.(phase := Draining, calls := s.calls + [PathsLeft((|s.running| + |s.pending|) % U32)])
    case Finish => s.(phase := Finished, calls := s.calls + [FinalReport(s.report)])
  }

  function Consume(s: State, event: Event): State
  {
    match event
    case Push(path) => s.(closures := s.closures + multiset{path})
    case Stop(writer) => s.(stopWriter := Some(writer))
    case ReceiveFailed(error) => s.(rxErrors := s.rxErrors + [error])
  }

  /** One path of a closure: skipped if its hash was seen, else started or queued. */
  function AbsorbOne(s: State, path: StorePath): State
  {
    if path.hash in s.seen then s
    else if |s.running| < MAX_CONCURRENT then
      s.(seen := s.seen + {path.hash},
         running := s.running + multiset{path}, started := s.started + [path])
    else
      s.(seen := s.seen + {path.hash}, pending := s.pending + [path])
  }

  function Absorb(s: State, paths: seq<StorePath>): State
  {
    if paths == [] then s else AbsorbOne(Absorb(s, Front(paths)), Last(paths))
  }

  function Record(r: Report, path: StorePath, outcome: Outcome): Report
  {
    match outcome
    case Pushed(bytes) =>
      r.(numBytesPushed := (r.numBytesPushed + bytes) % U64,
         numPathsPushed := (r.numPathsPushed + 1) % U32)
    case Skipped => r.(numPathsSkipped := (r.numPathsSkipped + 1) % U32)
    case Failed(error) => r.(handlingErrors := r.handlingErrors + [(path, error)])
  }

  function CallFor(path: StorePath, outcome: Outcome): Call
  {
    match outcome
    case Pushed(bytes) => PathPushed(path, bytes)
    case Skipped => PathSkipped(path)
    case Failed(error) => PathFailed(path, error)
  }

  function Settle(s: State, path: StorePath, outcome: Outcome): State
  {
    StartNext(Retire(s, path, outcome))
  }

  function Retire(s: State, path: StorePath, outcome: Outcome): State
  {
    s.(report := Record(s.report, path, outcome),
       calls := if s.phase.Draining? then s.calls + [CallFor(path, outcome)] else s.calls,
       running := s.running - multiset{path})
  }

  function StartNext(s: State): State
  {
    if s.pending == [] then s
    else
      s.(running := s.running + multiset{s.pending[0]},
         started := s.started + [s.pending[0]], pending := s.pending[1..])
  }

  // --- Runs -------------------------------------------------------------------------------

  type Trace = seq<Step>

  /** Every step is enabled in the state the steps before it lead to. */
  predicate Valid(tr: Trace)
    decreases |tr|, 0
  {
    tr == [] || (Valid(Front(tr)) && Enabled(Exec(Front(tr)), Last(tr)))
  }

  function Exec(tr: Trace): State
    requires Valid(tr)
    decreases |tr|, 1
  {
    if tr == [] then Init() else Apply(Exec(Front(tr)), Last(tr))
  }

  lemma Extend(tr: Trace, step: Step)
    requires Valid(tr) && Enabled(Exec(tr), step)
    ensures Valid(tr + [step]) && Exec(tr + [step]) == Apply(Exec(tr), step)
  {
    FrontLast(tr, step);
  }

  // --- What a trace says happened ---------------------------------------------------------

  function AddSent(es: seq<Event>, step: Step): (r: seq<Event>)
  {
    if step.Enqueue? then es + [step.event] else es
  }

  function AddClosure(cs: seq<(StorePath, Closure)>, step: Step): (r: seq<(StorePath, Closure)>)
  {
    if step.ClosureDone? then cs + [(step.pushed, step.closure)] else cs
  }

  function AddHandled(hs: seq<(StorePath, Outcome)>, step: Step): (r: seq<(StorePath, Outcome)>)
  {
    if step.PathDone? then hs + [(step.path, step.outcome)] else hs
  }

  /** The events that entered the channel, in order. */
  function Sent(tr: Trace): (es: seq<Event>)
  {
    if tr == [] then [] else AddSent(Sent(Front(tr)), Last(tr))
  }

  /** How many of them the loop took out. */
  function NumReceived(tr: Trace): (n: nat)
  {
    if tr == [] then 0 else NumReceived(Front(tr)) + if Last(tr).Receive? then 1 else 0
  }

  /** The events the loop took out: the channel is first in, first out. */
  function Consumed(tr: Trace): (es: seq<Event>)
  {
    Sent(tr)[..Min(NumReceived(tr), |Sent(tr)|)]
  }

  /** The closures computed, in order of completion. */
  function Closures(tr: Trace): (cs: seq<(StorePath, Closure)>)
  {
    if tr == [] then [] else AddClosure(Closures(Front(tr)), Last(tr))
  }

  /** The paths handled, in order of completion. */
  function Handled(tr: Trace): (hs: seq<(StorePath, Outcome)>)
  {
    if tr == [] then [] else AddHandled(Handled(Front(tr)), Last(tr))
  }

  /** The paths pushed by a list of events. */
  function Pushes(es: seq<Event>): (ps: seq<StorePath>)
  {
    if es == [] then []
    else if Last(es).Push? then Pushes(Front(es)) + [Last(es).path]
    else Pushes(Front(es))
  }

  function LastStop(es: seq<Event>): (w: Option<nat>)
  {
    if es == [] then None
    else if Last(es).Stop? then Some(Last(es).writer)
    else LastStop(Front(es))
  }

  function RxErrors(es: seq<Event>): (rs: seq<ReceiveError>)
  {
    if es == [] then []
    else if Last(es).ReceiveFailed? then RxErrors(Front(es)) + [Last(es).error]
    else RxErrors(Front(es))
  }

  function First<A, B>(ps: seq<(A, B)>): (xs: seq<A>)
    ensures |xs| == |ps|
    ensures forall i :: 0 <= i < |ps| ==> xs[i] == ps[i].0
  {
    if ps == [] then [] else First(Front(ps)) + [Last(ps).0]
  }

  /** The paths of the successful closures, one closure after the other. */
  function Discovered(cs: seq<(StorePath, Closure)>): (ps: seq<StorePath>)
  {
    if cs == [] then []
    else
      match Last(cs).1
      case Paths(paths) => Discovered(Front(cs)) + paths
      case NoClosure(_) => Discovered(Front(cs))
  }

  function ClosureErrors(cs: seq<(StorePath, Closure)>): (es: seq<(StorePath, nat)>)
  {
    if cs == [] then []
    else
      match Last(cs).1
      case Paths(_) => ClosureErrors(Front(cs))
      case NoClosure(error) => ClosureErrors(Front(cs)) + [(Last(cs).0, error)]
  }

  function Hashes(ps: seq<StorePath>): (hs: set<Bytes>)
  {
    set p | p in ps :: p.hash
  }

  /** The paths whose hash occurs nowhere before them. */
  function FirstSeen(ps: seq<StorePath>): (r: seq<StorePath>)
  {
    if ps == [] then []
    else if Last(ps).hash in Hashes(Front(ps)) then FirstSeen(Front(ps))
    else FirstSeen(Front(ps)) + [Last(ps)]
  }

  predicate Distinct(ps: seq<StorePath>)
  {
    forall i, j :: 0 <= i < j < |ps| ==> ps[i].hash != ps[j].hash
  }

  /** Exact totals of a list of outcomes. */
  datatype Tally = Tally(bytes: nat, pushed: nat, skipped: nat, failed: seq<(StorePath, nat)>)

  function TallyOf(hs: seq<(StorePath, Outcome)>): (t: Tally)
    ensures t.pushed + t.skipped + |t.failed| == |hs|
  {
    if hs == [] then Tally(0, 0, 0, [])
    else
      var t := TallyOf(Front(hs));
      match Last(hs).1
      case Pushed(bytes) => t.(bytes := t.bytes + bytes, pushed := t.pushed + 1)
      case Skipped => t.(skipped := t.skipped + 1)
      case Failed(error) => t.(failed := t.failed + [(Last(hs).0, error)])
  }

  /** The report that a list of closures and a list of outcomes amount to: the counters are the
      exact totals, reduced to 64 and 32 bits. */
  function ReportOf(cs: seq<(StorePath, Closure)>, hs: seq<(StorePath, Outcome)>): (r: Report)
  {
    var t := TallyOf(hs);
    Report(t.bytes % U64, t.pushed % U32, t.skipped % U32, ClosureErrors(cs), t.failed)
  }
}
