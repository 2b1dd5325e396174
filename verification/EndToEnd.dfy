/** From the bytes on a client's connection to the final report and to what the cache then has. */
module EndToEnd {
  import opened ByteStrings
  import opened Wire
  import opened Connection
  import opened Scheduler
  import opened SchedulerTheorems
  import Upload
  import UploadTheorems
  import opened SharedServer
  import opened PushDecision

  /** The messages of a client that pushes some paths and then stops the daemon. */
  function PushAll(paths: seq<StorePath>): (ms: seq<Message>)
    ensures |ms| == |paths| + 1 && ms[|paths|] == StopDaemon
    ensures forall i :: 0 <= i < |paths| ==> ms[i] == PushStorePath(paths[i])
  {
    if paths == [] then [StopDaemon] else [PushStorePath(paths[0])] + PushAll(paths[1..])
  }

  lemma {:induction false} NothingAfterStop(paths: seq<StorePath>)
    ensures UpToStop(PushAll(paths)) == PushAll(paths)
  {
    if paths != [] {
      NothingAfterStop(paths[1..]);
      assert PushAll(paths)[1..] == PushAll(paths[1..]);
    }
  }

  /** The events the daemon's task for this connection sends. */
  ghost function EventsOf(c: Codec, paths: seq<StorePath>, writer: nat): (es: seq<Event>)
  {
    ToEvents(Decode(c, EncodeAll(c, PushAll(paths)), false), writer)
  }

  lemma EventsOfPushes(c: Codec, paths: seq<StorePath>, writer: nat)
    requires forall p :: p in paths ==> Sendable(c, p)
    ensures var es := EventsOf(c, paths, writer);
            && |es| == |paths| + 1 && es[|paths|] == Stop(writer)
            && forall i :: 0 <= i < |paths| ==> es[i] == Push(paths[i])
  {
    var ms := PushAll(paths);
    assert AllSendable(c, ms) by {
      forall i | 0 <= i < |ms| && ms[i].PushStorePath?
        ensures Sendable(c, ms[i].path)
      {
        assert ms[i].path in paths;
      }
    }
    NothingAfterStop(paths);
    RoundTrip(c, ms);
  }

  /** The events of such a client's connection are at these places of the channel's history, in
      order, in between those of other connections. */
  ghost predicate SentAt(c: Codec, paths: seq<StorePath>, writer: nat, tr: Trace, at: seq<nat>)
  {
    var es := EventsOf(c, paths, writer);
    && |at| == |es|
    && (forall a, b :: 0 <= a < b < |at| ==> at[a] < at[b])
    && (forall a :: 0 <= a < |at| ==> at[a] < |Sent(tr)| && Sent(tr)[at[a]] == es[a])
  }

  /** The daemon took this event out of the channel, or it was sent before any other stop. */
  ghost predicate InTime(tr: Trace, n: nat)
  {
    n < |Sent(tr)| && (n < NumReceived(tr) || NoStopBefore(Sent(tr), n))
  }

  ghost predicate Delivered(c: Codec, paths: seq<StorePath>, writer: nat, tr: Trace, at: seq<nat>)
  {
    && (forall p :: p in paths ==> Sendable(c, p))
    && SentAt(c, paths, writer, tr, at) && at != [] && InTime(tr, Last(at))
  }

  /** A client sends some paths and a stop on one connection.  On every run that ends and takes the
      stop out of the channel, which it must if no other stop was sent before, every one of the paths
      is accounted for in the report. */
  lemma EveryPushIsAccountedFor(c: Codec, paths: seq<StorePath>, writer: nat, tr: Trace,
      at: seq<nat>, i: nat)
    returns (k: nat)
    requires Valid(tr) && Exec(tr).phase.Finished? && i < |paths|
    ensures Delivered(c, paths, writer, tr, at) ==> Accounted(tr, paths[i], k)
  {
    k := 0;
    if Delivered(c, paths, writer, tr, at) {
      EventsOfPushes(c, paths, writer);
      assert at[i] < at[|paths|];
      if at[|paths|] < NumReceived(tr) {
        k := StopCoversEarlierPushes(tr, at[i], at[|paths|]);
      } else {
        k := EarlyPushIsAccounted(tr, at[i]);
      }
    }
  }

  // --- Down to the cache ------------------------------------------------------------------

  /** What the cache and the upstreams answered when asked for a path. */
  datatype Asked = Asked(cache: Result<bool, nat>, upstreams: seq<HttpResult>)

  /** What went on in the handlers of a run: what each was told about its path, and the uploads, each
      with the handler it belongs to, its NAR, and how they all proceeded. */
  datatype Work = Work(
    asked: seq<Asked>,
    owners: seq<nat>,
    start: Fleet,
    nars: seq<Bytes>,
    turns: seq<Turn>)

  /** Every handler has at most one upload, under its path's hash; the server gives each upload its
      own id. */
  predicate StartedBy(w: Work, hs: seq<(StorePath, Outcome)>)
  {
    && |w.asked| == |hs| && |w.owners| == |w.start| == |w.nars|
    && (forall h :: 0 <= h < |w.start| ==>
          && w.owners[h] < |hs| && w.start[h].storeHash == hs[w.owners[h]].0.hash
          && Upload.Initial(w.start[h], w.nars[h]))
    && (forall a, b :: 0 <= a < b < |w.start| ==>
          && w.owners[a] != w.owners[b] && w.start[a].server == w.start[b].server
          && w.start[a].up.uploadId != w.start[b].up.uploadId)
  }

  /** Upload `h` is that of handler `m`, and has come to this stage. */
  predicate UploadOf(w: Work, fleet: Fleet, h: nat, m: nat, stage: Upload.Stage)
  {
    h < |w.owners| && h < |fleet| && w.owners[h] == m && fleet[h].stage == stage
  }

  /** The outcome of handler `m` is what its decision and its upload lead to. */
  ghost predicate Explained(w: Work, fleet: Fleet, m: nat, outcome: Outcome)
    requires m < |w.asked|
  {
    match Decision(w.asked[m].cache, w.asked[m].upstreams)
    case Err(_) => outcome.Failed?
    case Ok(false) => outcome.Skipped?
    case Ok(true) =>
      outcome.Failed?
      || (outcome.Pushed?
          && exists h: nat :: UploadOf(w, fleet, h, m, Upload.Succeeded(outcome.bytes)))
  }

  /** The handlers did this work, on one server, in some interleaving. */
  ghost predicate DoneBy(sha: Bytes -> Bytes, w: Work, hs: seq<(StorePath, Outcome)>)
  {
    && StartedBy(w, hs) && ValidTurns(sha, w.start, w.turns)
    && forall m :: 0 <= m < |hs| ==> Explained(w, After(sha, w.start, w.turns), m, hs[m].1)
  }

  /** Upload `h` has made a truthful NARInfo visible for this hash. */
  ghost predicate VisibleFrom(sha: Bytes -> Bytes, w: Work, hash: Bytes, h: nat)
    requires ValidTurns(sha, w.start, w.turns)
  {
    && h < |w.start| && h < |w.nars|
    && var s := After(sha, w.start, w.turns)[h];
    UploadTheorems.Truthful(sha, s.server, hash, s.up.uploadId, w.nars[h])
  }

  /** What has become of a store hash: its handler's failure is in the report, some cache was found to
      have it, or its NARInfo is visible on the server and describes its completed NAR. */
  ghost predicate Settled(sha: Bytes -> Bytes, w: Work, tr: Trace, hash: Bytes, m: nat)
    requires Valid(tr) && ValidTurns(sha, w.start, w.turns)
  {
    var hs := Handled(tr);
    m < |hs| && m < |w.asked| && hs[m].0.hash == hash
    && match hs[m].1
       case Failed(error) => (hs[m].0, error) in Exec(tr).report.handlingErrors
       case Skipped => Decision(w.asked[m].cache, w.asked[m].upstreams) == Ok(false)
       case Pushed(_) => exists h: nat :: VisibleFrom(sha, w, hash, h)
  }

  /** Because every hash is handled once, the uploads of a run do not collide. */
  lemma UploadsAreApart(tr: Trace, w: Work)
    requires Valid(tr) && StartedBy(w, Handled(tr))
    ensures Starting(w.start, w.nars)
  {
    HandledDistinct(tr);
    var handled := First(Handled(tr));
    forall a, b | 0 <= a < b < |w.start|
      ensures Apart(w.start[a], w.start[b])
    {
      assert handled[w.owners[a]].hash != handled[w.owners[b]].hash;
    }
  }

  lemma {:induction false} FailureReported(hs: seq<(StorePath, Outcome)>, m: nat)
    requires m < |hs| && hs[m].1.Failed?
    ensures (hs[m].0, hs[m].1.error) in TallyOf(hs).failed
  {
    if m < |hs| - 1 {
      FailureReported(Front(hs), m);
    }
  }

  lemma HandledIsSettled(sha: Bytes -> Bytes, w: Work, tr: Trace, m: nat)
    requires Valid(tr) && Exec(tr).phase.Finished? && DoneBy(sha, w, Handled(tr))
    requires m < |Handled(tr)|
    ensures Settled(sha, w, tr, Handled(tr)[m].0.hash, m)
  {
    var hs, fleet := Handled(tr), After(sha, w.start, w.turns);
    assert Explained(w, fleet, m, hs[m].1);
    match hs[m].1 {
      case Failed(_) =>
        FailureReported(hs, m);
        DrainIsComplete(tr);
      case Skipped =>
      case Pushed(bytes) =>
        var h: nat :| UploadOf(w, fleet, h, m, Upload.Succeeded(bytes));
        UploadsAreApart(tr, w);
        FleetHasNoFalsePositives(sha, w.start, w.nars, w.turns, h);
        assert VisibleFrom(sha, w, hs[m].0.hash, h);
    }
  }

  /** A push has been dealt with: its closure's failure is reported, or every hash of its closure is
      settled. */
  ghost predicate DealtWith(sha: Bytes -> Bytes, w: Work, tr: Trace, path: StorePath, k: nat)
    requires Valid(tr) && ValidTurns(sha, w.start, w.turns)
  {
    k < |Closures(tr)| && Closures(tr)[k].0 == path
    && match Closures(tr)[k].1
       case NoClosure(error) => (path, error) in Exec(tr).report.closureErrors
       case Paths(paths) =>
         forall p :: p in paths ==> exists m: nat :: Settled(sha, w, tr, p.hash, m)
  }

  lemma AccountedIsDealtWith(sha: Bytes -> Bytes, w: Work, tr: Trace, path: StorePath, k: nat)
    requires Valid(tr) && Exec(tr).phase.Finished? && DoneBy(sha, w, Handled(tr))
    requires Accounted(tr, path, k)
    ensures DealtWith(sha, w, tr, path, k)
  {
    if Closures(tr)[k].1.Paths? {
      forall p | p in Closures(tr)[k].1.paths
        ensures exists m: nat :: Settled(sha, w, tr, p.hash, m)
      {
        var handled := First(Handled(tr));
        var q :| q in handled && q.hash == p.hash;
        var m :| 0 <= m < |handled| && handled[m] == q;
        HandledIsSettled(sha, w, tr, m);
      }
    }
  }

  /** From the socket to the cache.  A client sends paths and a stop; the daemon's handlers race,
      upload over one server and fail as they may.  When the daemon has ended, every one of the paths
      has a closure error in the report, or every hash of its closure failed and is in the report, was
      found in a cache, or has a visible NARInfo with the hash and size of its completed NAR. */
  lemma EveryPushIsDealtWith(c: Codec, paths: seq<StorePath>, writer: nat, tr: Trace, at: seq<nat>,
      i: nat, sha: Bytes -> Bytes, w: Work)
    returns (k: nat)
    requires Valid(tr) && Exec(tr).phase.Finished? && i < |paths|
    ensures Delivered(c, paths, writer, tr, at) && DoneBy(sha, w, Handled(tr)) ==>
              DealtWith(sha, w, tr, paths[i], k)
  {
    k := EveryPushIsAccountedFor(c, paths, writer, tr, at, i);
    if Delivered(c, paths, writer, tr, at) && DoneBy(sha, w, Handled(tr)) {
      AccountedIsDealtWith(sha, w, tr, paths[i], k);
    }
  }
}
