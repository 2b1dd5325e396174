/** The guarantees of an upload, for every interleaving and every pattern of failures. */
module UploadTheorems {
  import opened ByteStrings
  import opened Upload
  import opened UploadSafety

  // --- No false positives -----------------------------------------------------------------

  /** The NARInfo visible for a store hash belongs to this upload, the upload is completed, and hash and
      size are those of exactly the stored object, which is the whole, non-empty NAR. */
  predicate Truthful(sha: Bytes -> Bytes, server: Server, storeHash: Bytes, id: UploadId, nar: Bytes)
  {
    && storeHash in server.narinfos
    && var published := server.narinfos[storeHash];
    && published.upload == id && id in server.objects
    && var stored := server.objects[id];
    && stored == nar && stored != []
    && published.info.narHash == published.info.fileHash == sha(stored)
    && published.info.narSize == published.info.fileSize == |stored|
  }

  /** In every interleaving and with failures anywhere, a visible NARInfo is truthful: it was uploaded
      after the NAR it describes; and a push that succeeds has made one visible. */
  lemma NoFalsePositives(sha: Bytes -> Bytes, init: System, nar: Bytes, tr: Trace)
    requires Initial(init, nar) && Valid(sha, init, tr)
    ensures var s := Exec(sha, init, tr);
            s.storeHash in s.server.narinfos ==>
              Truthful(sha, s.server, s.storeHash, s.up.uploadId, nar)
    ensures Exec(sha, init, tr).stage.Succeeded? ==>
              Exec(sha, init, tr).storeHash in Exec(sha, init, tr).server.narinfos
  {
    AlwaysInv(sha, init, nar, tr);
  }

  /** The NARInfo can land only in a step before which the server granted the completion. */
  lemma CompletedBeforePublished(sha: Bytes -> Bytes, init: System, nar: Bytes, tr: Trace, step: Step)
    returns (j: nat)
    requires Initial(init, nar) && Valid(sha, init, tr) && Enabled(Exec(sha, init, tr), step)
    ensures var s := Exec(sha, init, tr);
            s.storeHash !in s.server.narinfos
            && s.storeHash in Apply(sha, s, step).server.narinfos ==>
              step.NarInfoAnswer? && j < |tr| && tr[j].CompleteAnswer? && tr[j].done.Granted?
  {
    var s := Exec(sha, init, tr);
    j := 0;
    if s.storeHash !in s.server.narinfos && s.storeHash in Apply(sha, s, step).server.narinfos {
      AlwaysInv(sha, init, nar, tr);
      OnlyNarInfoPublishes(sha, s, step);
      j := CompletedByGrant(sha, init, tr);
    }
  }

  lemma OnlyNarInfoPublishes(sha: Bytes -> Bytes, s: System, step: Step)
    requires Enabled(s, step) && s.storeHash !in s.server.narinfos
    ensures s.storeHash in Apply(sha, s, step).server.narinfos ==> step.NarInfoAnswer?
  {
  }

  lemma {:induction false} CompletedByGrant(sha: Bytes -> Bytes, init: System, tr: Trace)
    returns (j: nat)
    requires Valid(sha, init, tr) && !init.up.pc.Completed?
    requires Exec(sha, init, tr).up.pc.Completed?
    ensures j < |tr| && tr[j].CompleteAnswer? && tr[j].done.Granted?
  {
    if Exec(sha, init, Front(tr)).up.pc.Completed? {
      j := CompletedByGrant(sha, init, Front(tr));
    } else {
      j := |tr| - 1;
    }
  }

  // --- Alignment and geometry -------------------------------------------------------------

  /** While an upload runs, a part is only ever put to a URL issued for its number in this upload; the
      queue holds, all of one batch, the URLs of the numbers after it, or at the loop head those from
      the next part's number on; and etag `i` is the one the server gave for part `i`. */
  lemma UrlsStayAligned(sha: Bytes -> Bytes, init: System, nar: Bytes, tr: Trace)
    requires Initial(init, nar) && Valid(sha, init, tr) && Exec(sha, init, tr).stage.Streaming?
    ensures var u := Exec(sha, init, tr).up;
            Holding(u) ==>
              && u.pc.url == Url(u.uploadId, |u.etags| + 1, u.expiration)
              && forall i :: 0 <= i < |u.partUrls| ==>
                   u.partUrls[i] == Url(u.uploadId, |u.etags| + 2 + i, u.expiration)
    ensures var u := Exec(sha, init, tr).up;
            u.pc.CheckUrls? || u.pc.AwaitUrls? ==>
              && u.partNumber == |u.etags| + 1
              && forall i :: 0 <= i < |u.partUrls| ==>
                   u.partUrls[i] == Url(u.uploadId, |u.etags| + 1 + i, u.expiration)
    ensures var s := Exec(sha, init, tr); HasParts(s.server, s.up.uploadId, s.up.etags)
  {
    AlwaysInv(sha, init, nar, tr);
  }

  /** A URL is taken exactly if there is one and the batch stays valid for more than ten seconds
      after the clock was read, and it is the URL at the front of the queue. */
  lemma UrlsFreshWhenTaken(sha: Bytes -> Bytes, init: System, nar: Bytes, tr: Trace)
    requires Initial(init, nar) && Valid(sha, init, tr) && tr != [] && Last(tr).Tick?
    ensures var before, u := Exec(sha, init, Front(tr)).up, Exec(sha, init, tr).up;
            && (u.pc.Filling? <==>
                  before.partUrls != []
                  && Last(tr).now + 10_000_000_000 < before.partUrls[0].expiration)
            && (u.pc.Filling? ==> u.pc.url == before.partUrls[0])
            && (!u.pc.Filling? ==> u.pc.AwaitUrls? && u.partUrls == [])
  {
    AlwaysInv(sha, init, nar, Front(tr));
    var before := Exec(sha, init, Front(tr)).up;
    assert before.partUrls != [] ==>
      before.partUrls[0] == Url(before.uploadId, before.partNumber + 0, before.expiration);
  }

  /** A push reports the size of the NAR plus that of the NARInfo, saturating at 64 bits. */
  lemma SuccessCountsAllBytes(sha: Bytes -> Bytes, init: System, nar: Bytes, tr: Trace, size: nat)
    requires Initial(init, nar) && Valid(sha, init, tr) && tr != []
    requires Last(tr) == NarInfoAnswer(Granted(size))
    ensures Exec(sha, init, tr).stage == Succeeded(Min(|nar| + size, 0xFFFF_FFFF_FFFF_FFFF))
    ensures nar != []
  {
    AlwaysInv(sha, init, nar, Front(tr));
  }

  lemma LessByTimes(a: nat, b: nat, c: nat)
    requires a * c < b * c
    ensures a < b
  {
    if a >= b {
      TimesMonotone(b, a, c);
    }
  }

  lemma Ceiling(len: nat, ps: pos, n: nat)
    requires (n == 0 ==> len == 0) && (n > 0 ==> (n - 1) * ps < len <= n * ps)
    ensures (len + ps - 1) / ps == n
  {
    var x := len + ps - 1;
    var q := x / ps;
    assert q * ps <= x < (q + 1) * ps;
    assert n > 0 ==> n * ps == (n - 1) * ps + ps;
    assert n * ps <= x < (n + 1) * ps;
    LessByTimes(q, n + 1, ps);
    LessByTimes(n, q + 1, ps);
  }

  /** The parts of a finished upload: ceil(length / part size) of them, all full but the last, which
      together are the NAR; and the NAR is shorter than 65535 full parts. */
  predicate Geometry(server: Server, u: Uploader, nar: Bytes)
  {
    var n := |u.etags|;
    && n == (|nar| + u.partSize - 1) / u.partSize
    && (forall i :: 1 <= i < n ==> |PartOf(server, u.uploadId, i)| == u.partSize)
    && (n > 0 ==> 0 < |PartOf(server, u.uploadId, n)| <= u.partSize)
    && Assemble(server, u.uploadId, n) == nar
    && |nar| < 65535 * u.partSize
  }

  lemma LiveGeometry(s: System, nar: Bytes)
    requires Live(s, nar) && s.up.pc.Completed?
    ensures Geometry(s.server, s.up, nar)
  {
    var joined := Assemble(s.server, s.up.uploadId, |s.up.etags|);
    assert joined + [] + [] == joined && s.hashed + [] == s.hashed;
    FinishedLength(s.server, s.up);
    Ceiling(|nar|, s.up.partSize, |s.up.etags|);
  }

  lemma FinishedGeometry(sha: Bytes -> Bytes, init: System, nar: Bytes, tr: Trace)
    requires Initial(init, nar) && Valid(sha, init, tr)
    requires var s := Exec(sha, init, tr); s.up.pc.Completed? && !s.stage.Aborted?
    ensures var s := Exec(sha, init, tr); Geometry(s.server, s.up, nar)
  {
    AlwaysInv(sha, init, nar, tr);
    LiveGeometry(Exec(sha, init, tr), nar);
  }

  // --- Outcome ----------------------------------------------------------------------------

  /** A step in which nothing fails. */
  predicate Favourable(step: Step)
  {
    match step
    case WriteFails => false
    case ReadFails => false
    case UrlsAnswer(answer) => answer.Granted?
    case PutAnswer(answer) => answer.Granted?
    case CompleteAnswer(answer) => answer.Granted?
    case InfosAnswer(ok) => ok
    case NarInfoAnswer(answer) => answer.Granted?
    case _ => true
  }

  predicate AllFavourable(tr: Trace)
  {
    forall i :: 0 <= i < |tr| ==> Favourable(tr[i])
  }

  /** The error a step that fails ends the handler with. */
  function ErrorOf(step: Step): (error: PathError)
    requires !Favourable(step)
  {
    match step
    case WriteFails => WriteNar
    case ReadFails => UploadNar(ReadNar)
    case InfosAnswer(_) => GetPathInfos
    case NarInfoAnswer(_) => UploadNarInfo
    case _ => UploadNar(RequestFailed)
  }

  lemma FailureAborts(sha: Bytes -> Bytes, s: System, step: Step)
    requires Enabled(s, step)
    ensures !Favourable(step) ==> Apply(sha, s, step).stage == Aborted(ErrorOf(step))
    ensures s.stage.Aborted? ==> Favourable(step) && Apply(sha, s, step).stage == s.stage
  {
  }

  /** A failure is final: whatever fails first, the handler ends with the error of that failure. */
  lemma {:induction false} FailureIsFinal(sha: Bytes -> Bytes, init: System, tr: Trace, i: nat)
    requires Valid(sha, init, tr) && i < |tr| && !Favourable(tr[i])
    ensures Exec(sha, init, tr).stage == Aborted(ErrorOf(tr[i]))
  {
    if i < |tr| - 1 {
      FailureIsFinal(sha, init, Front(tr), i);
    }
    FailureAborts(sha, Exec(sha, init, Front(tr)), Last(tr));
  }

  /** A NARInfo was uploaded, though the answer may have been lost. */
  predicate Publishes(step: Step)
  {
    step.NarInfoAnswer? && !step.size.Refused?
  }

  lemma OnlyPublishingTouchesNarInfos(sha: Bytes -> Bytes, s: System, step: Step)
    requires Enabled(s, step) && !step.NarInfoAnswer? && !step.Interfere?
    ensures Apply(sha, s, step).server.narinfos == s.server.narinfos
  {
  }

  lemma PublishStep(sha: Bytes -> Bytes, s: System, step: Step)
    requires Enabled(s, step)
    ensures s.storeHash in Apply(sha, s, step).server.narinfos
       <==> s.storeHash in s.server.narinfos || Publishes(step)
  {
    if !step.NarInfoAnswer? && !step.Interfere? {
      OnlyPublishingTouchesNarInfos(sha, s, step);
    }
  }

  lemma SameStoreHash(sha: Bytes -> Bytes, s: System, step: Step)
    requires Enabled(s, step)
    ensures Apply(sha, s, step).storeHash == s.storeHash
  {
  }

  /** Exactly when a path's NARInfo is visible: when a request to publish it was not refused.  In
      particular no failure before that, of whatever kind, leaves one behind. */
  lemma {:induction false} VisibleExactly(sha: Bytes -> Bytes, init: System, nar: Bytes, tr: Trace)
    requires Initial(init, nar) && Valid(sha, init, tr)
    ensures var s := Exec(sha, init, tr);
            && s.storeHash == init.storeHash
            && (s.storeHash in s.server.narinfos <==> exists i :: 0 <= i < |tr| && Publishes(tr[i]))
  {
    if tr != [] {
      var front := Front(tr);
      VisibleExactly(sha, init, nar, front);
      PublishStep(sha, Exec(sha, init, front), Last(tr));
      SameStoreHash(sha, Exec(sha, init, front), Last(tr));
      assert tr[|tr| - 1] == Last(tr);
      assert forall i :: 0 <= i < |front| ==> front[i] == tr[i];
    }
  }

  /** A request whose answer is lost takes effect, and one that is refused does not. */
  lemma LostStillLands(sha: Bytes -> Bytes, s: System, etag: Etag, size: nat)
    ensures s.stage.Streaming? && s.up.pc.Putting? ==>
              && Apply(sha, s, PutAnswer(Lost(etag))).server == Apply(sha, s, PutAnswer(Granted(etag))).server
              && Apply(sha, s, PutAnswer(Refused)).server == s.server
    ensures s.stage.Streaming? && s.up.pc.Completing?
            && HasParts(s.server, s.up.uploadId, s.up.etags) ==>
              && Apply(sha, s, CompleteAnswer(Lost(()))).server
                 == Apply(sha, s, CompleteAnswer(Granted(()))).server
              && Apply(sha, s, CompleteAnswer(Refused)).server == s.server
    ensures s.stage.Publishing? ==>
              && Apply(sha, s, NarInfoAnswer(Lost(size))).server
                 == Apply(sha, s, NarInfoAnswer(Granted(size))).server
              && Apply(sha, s, NarInfoAnswer(Refused)).server == s.server
  {
  }

  predicate Over(s: System)
  {
    s.stage.Succeeded? || s.stage.Aborted?
  }

  lemma {:induction false} OnlyTwoErrors(sha: Bytes -> Bytes, init: System, nar: Bytes, tr: Trace)
    requires Initial(init, nar) && Valid(sha, init, tr) && AllFavourable(tr)
    ensures var s := Exec(sha, init, tr);
            s.stage.Aborted? ==> s.stage.error in {UploadNar(TooManyNarParts), WroteZeroBytes}
  {
    if tr != [] {
      assert AllFavourable(Front(tr)) by {
        assert forall i :: 0 <= i < |tr| - 1 ==> Front(tr)[i] == tr[i];
      }
      OnlyTwoErrors(sha, init, nar, Front(tr));
      AlwaysInv(sha, init, nar, Front(tr));
      assert Favourable(tr[|tr| - 1]);
    }
  }

  /** When nothing fails, the length of the NAR alone decides: too many parts exactly from 65535
      full parts on, an error for an empty NAR, and success in between. */
  lemma LengthDecides(sha: Bytes -> Bytes, init: System, nar: Bytes, tr: Trace)
    requires Initial(init, nar) && Valid(sha, init, tr) && AllFavourable(tr)
    requires Over(Exec(sha, init, tr))
    ensures var s := Exec(sha, init, tr);
            && (s.stage == Aborted(UploadNar(TooManyNarParts))
                <==> |nar| >= 65535 * s.up.partSize)
            && (s.stage == Aborted(WroteZeroBytes) <==> nar == [])
            && (s.stage.Succeeded? <==> 0 < |nar| < 65535 * s.up.partSize)
  {
    OnlyTwoErrors(sha, init, nar, tr);
    AlwaysInv(sha, init, nar, tr);
    var s := Exec(sha, init, tr);
    if s.stage.Succeeded? {
      LiveGeometry(s, nar);
    }
  }

  // --- Progress ---------------------------------------------------------------------------

  /** The pair never deadlocks: as long as the path is not settled, some step that is not a failure
      is possible, whatever the pipe holds and wherever the two halves are. */
  lemma NeverStuck(sha: Bytes -> Bytes, init: System, nar: Bytes, tr: Trace) returns (step: Step)
    requires Initial(init, nar) && Valid(sha, init, tr) && !Over(Exec(sha, init, tr))
    ensures Enabled(Exec(sha, init, tr), step) && Favourable(step) && !step.Interfere?
  {
    var s := Exec(sha, init, tr);
    AlwaysInv(sha, init, nar, tr);
    if s.stage.QueryInfos? {
      step := InfosAnswer(true);
    } else if s.stage.Publishing? {
      step := NarInfoAnswer(Granted(0));
    } else {
      step := NextWhileStreaming(s, nar);
    }
  }

  lemma NextWhileStreaming(s: System, nar: Bytes) returns (step: Step)
    requires Live(s, nar) && s.stage.Streaming?
    ensures Enabled(s, step) && Favourable(step) && !step.Interfere?
  {
    match s.up.pc {
      case CheckUrls(_) => step := Tick(0);
      case AwaitUrls =>
        var url := Url(s.up.uploadId, s.up.partNumber, 0);
        assert PartNumbers(s.up.partNumber, 4)[0] == s.up.partNumber;
        step := UrlsAnswer(Granted(([url], 0)));
      case Filling(_) => step := FeedOrRead(s);
      case Putting(_) => step := PutAnswer(Granted(0));
      case Completing => step := CompleteAnswer(Granted(()));
      case Completed => step := Join;
    }
  }

  /** Anything can go wrong at any time: the producer can fail until it has shut its end down, a read
      can fail, and every request can be refused, or granted with its answer lost. */
  lemma AnythingCanFail(s: System, etag: Etag, size: nat)
    ensures s.stage.Streaming? ==>
              && (!s.shut ==> Enabled(s, WriteFails))
              && (s.up.pc.Filling? ==> Enabled(s, ReadFails))
              && (s.up.pc.AwaitUrls? ==> Enabled(s, UrlsAnswer(Refused)))
              && (s.up.pc.Putting? ==> Enabled(s, PutAnswer(Refused)) && Enabled(s, PutAnswer(Lost(etag))))
              && (s.up.pc.Completing? ==> Enabled(s, CompleteAnswer(Refused)))
    ensures s.stage.QueryInfos? ==> Enabled(s, InfosAnswer(false))
    ensures s.stage.Publishing? ==>
              Enabled(s, NarInfoAnswer(Refused)) && Enabled(s, NarInfoAnswer(Lost(size)))
  {
  }

  /** The two ends of the pipe: the producer can write exactly while there is something to write and
      the pipe, which holds 65536 bytes, is not full, and can shut its end down exactly once everything
      is written; the uploader can read exactly while the pipe is not empty or has been shut down. */
  lemma PipeBlocks(sha: Bytes -> Bytes, init: System, nar: Bytes, tr: Trace)
    requires Initial(init, nar) && Valid(sha, init, tr) && Exec(sha, init, tr).stage.Streaming?
    ensures var s := Exec(sha, init, tr);
            && |s.pipe| <= 65536
            && (!s.shut ==>
                  && ((exists n: pos :: Enabled(s, Write(n))) <==> s.todo != [] && |s.pipe| < 65536)
                  && (Enabled(s, Shutdown) <==> s.todo == []))
            && (s.up.pc.Filling? ==>
                  ((exists n: nat :: Enabled(s, Read(n))) <==> s.pipe != [] || s.shut))
  {
    var s := Exec(sha, init, tr);
    AlwaysInv(sha, init, nar, tr);
    if !s.shut && s.todo != [] && |s.pipe| < 65536 {
      assert Enabled(s, Write(1));
    }
    if s.up.pc.Filling? && (s.pipe != [] || s.shut) {
      assert Enabled(s, Read(if s.pipe != [] then 1 else 0));
    }
  }

  /** The uploader wants bytes: it can read, or the pipe is empty and the producer can move. */
  lemma FeedOrRead(s: System) returns (step: Step)
    requires s.stage.Streaming? && s.up.pc.Filling? && |s.up.part| < s.up.partSize
    ensures Enabled(s, step) && (step.Read? || step.Write? || step.Shutdown?)
  {
    if s.pipe != [] {
      step := Read(1);
    } else if s.shut {
      step := Read(0);
    } else if s.todo != [] {
      step := Write(1);
    } else {
      step := Shutdown;
    }
  }

  // --- Termination ------------------------------------------------------------------------

  /** Steps that are not taken by this handler: other handlers' doings, and a put that lands after the
      handler has given up. */
  predicate Foreign(step: Step)
  {
    step.Interfere? || step.LatePut?
  }

  /** A refill was in vain: back at the loop head there is no URL, or the batch is about to expire. */
  predicate Wasted(s: System, step: Step)
  {
    && step.Tick? && s.up.pc == CheckUrls(true)
    && (s.up.partUrls == [] || step.now + SAFETY_MARGIN >= s.up.expiration)
  }

  function Rank(u: Uploader): nat
  {
    match u.pc
    case CheckUrls(refilled) => if refilled then 3 else 5
    case AwaitUrls => 4
    case Filling(_) => if u.part == [] then 2 else 7
    case Putting(_) => 6
    case Completing => 1
    case _ => 0
  }

  function StageRank(s: System): nat
  {
    match s.stage
    case Streaming => 3
    case QueryInfos => 2
    case Publishing(_) => 1
    case _ => 0
  }

  /** How many steps are left at most, unless refills are wasted. */
  function Measure(s: System): nat
  {
    12 * |s.todo| + 6 * |s.pipe| + (if s.shut then 0 else 1) + Rank(s.up) + StageRank(s)
  }

  lemma ReadShrinks(u: Uploader, bytes: Bytes)
    requires u.pc.Filling? && |u.part| < u.partSize
    ensures Rank(OnRead(u, bytes)) < Rank(u) + 6 * |bytes|
  {
  }

  lemma PutShrinks(u: Uploader, etag: Etag)
    requires u.pc.Putting?
    ensures Rank(OnPut(u, etag)) < Rank(u)
  {
  }

  lemma TickShrinks(s: System, now: nat)
    requires s.up.pc.CheckUrls?
    ensures Rank(OnTick(s.up, now)) < Rank(s.up) + if Wasted(s, Tick(now)) then 2 else 0
  {
  }

  /** While a part is being filled there is room in it. */
  predicate HasRoom(s: System)
  {
    s.stage.Streaming? && s.up.pc.Filling? ==> |s.up.part| < s.up.partSize
  }

  /** Every step of the handler shrinks the measure, except that a wasted refill gives one back. */
  lemma StepShrinks(sha: Bytes -> Bytes, s: System, step: Step)
    requires HasRoom(s) && Enabled(s, step) && !Foreign(step)
    ensures Measure(Apply(sha, s, step)) < Measure(s) + if Wasted(s, step) then 2 else 0
  {
    match step {
      case Tick(now) => TickShrinks(s, now);
      case Read(n) => ReadShrinks(s.up, s.pipe[..n]);
      case PutAnswer(Granted(etag)) => PutShrinks(s.up, etag);
      case _ =>
    }
  }

  lemma ForeignKeepsMeasure(sha: Bytes -> Bytes, s: System, step: Step)
    requires Enabled(s, step) && Foreign(step)
    ensures Measure(Apply(sha, s, step)) == Measure(s)
  {
  }

  /** The number of steps of this handler, and of its refills, its takings of URLs and its wasted
      refills. */
  function NumSteps(tr: Trace): nat
  {
    if tr == [] then 0 else NumSteps(Front(tr)) + if Foreign(Last(tr)) then 0 else 1
  }

  function NumRefills(tr: Trace): nat
  {
    if tr == [] then 0 else NumRefills(Front(tr)) + if Last(tr).UrlsAnswer? then 1 else 0
  }

  ghost function NumTaken(sha: Bytes -> Bytes, init: System, tr: Trace): nat
    requires Valid(sha, init, tr)
  {
    if tr == [] then 0
    else
      NumTaken(sha, init, Front(tr))
      + if Last(tr).Tick? && Exec(sha, init, tr).up.pc.Filling? then 1 else 0
  }

  ghost function NumWasted(sha: Bytes -> Bytes, init: System, tr: Trace): nat
    requires Valid(sha, init, tr)
  {
    if tr == [] then 0
    else
      NumWasted(sha, init, Front(tr))
      + if Wasted(Exec(sha, init, Front(tr)), Last(tr)) then 1 else 0
  }

  /** Wasted refills are all that makes an upload long.  On every run, with failures anywhere, the
      handler takes at most 12 * length + 9 steps and two more per wasted refill; and every wasted
      refill does cost it two steps. */
  lemma {:induction false} WasteMakesLength(sha: Bytes -> Bytes, init: System, nar: Bytes, tr: Trace)
    requires Initial(init, nar) && Valid(sha, init, tr)
    ensures NumSteps(tr) + Measure(Exec(sha, init, tr))
         <= 12 * |nar| + 9 + 2 * NumWasted(sha, init, tr)
    ensures 2 * NumWasted(sha, init, tr) <= NumSteps(tr)
  {
    if tr != [] {
      var s, step := Exec(sha, init, Front(tr)), Last(tr);
      WasteMakesLength(sha, init, nar, Front(tr));
      AlwaysInv(sha, init, nar, Front(tr));
      if Foreign(step) {
        ForeignKeepsMeasure(sha, s, step);
      } else {
        StepShrinks(sha, s, step);
      }
    }
    WasteTakesTwo(sha, init, nar, tr);
  }

  /** A refill has been answered and not yet been used or wasted, or has failed. */
  predicate RefillOpen(s: System)
  {
    s.up.pc == CheckUrls(true) || s.up.pc.Stopped?
  }

  lemma RefillStep(sha: Bytes -> Bytes, s: System, step: Step)
    requires Enabled(s, step)
    ensures var s' := Apply(sha, s, step);
            && (step.UrlsAnswer? ==> !RefillOpen(s) && RefillOpen(s'))
            && (RefillOpen(s) && !RefillOpen(s') ==>
                  step.Tick? && (s'.up.pc.Filling? || Wasted(s, step)))
  {
  }

  /** Every refill is followed by the taking of a URL or is wasted, but for the last one. */
  lemma {:induction false} RefillsTakeOrWaste(sha: Bytes -> Bytes, init: System, tr: Trace)
    requires Valid(sha, init, tr)
    ensures NumRefills(tr) <= NumTaken(sha, init, tr) + NumWasted(sha, init, tr)
                              + if RefillOpen(Exec(sha, init, tr)) then 1 else 0
  {
    if tr != [] {
      RefillsTakeOrWaste(sha, init, Front(tr));
      RefillStep(sha, Exec(sha, init, Front(tr)), Last(tr));
    }
  }

  /** The loop head is reached from a refill only by one. */
  lemma HeadAfterRefill(sha: Bytes -> Bytes, s: System, step: Step)
    requires Enabled(s, step) && Apply(sha, s, step).up.pc == CheckUrls(true)
    ensures step.UrlsAnswer? || (s.up.pc == CheckUrls(true) && !step.Tick?)
  {
  }

  lemma {:induction false} WasteTakesTwo(sha: Bytes -> Bytes, init: System, nar: Bytes, tr: Trace)
    requires Initial(init, nar) && Valid(sha, init, tr)
    ensures NumWasted(sha, init, tr) + (if Exec(sha, init, tr).up.pc == CheckUrls(true) then 1 else 0)
         <= NumRefills(tr)
    ensures NumWasted(sha, init, tr) + NumRefills(tr) <= NumSteps(tr)
  {
    if tr != [] {
      WasteTakesTwo(sha, init, nar, Front(tr));
      if Exec(sha, init, tr).up.pc == CheckUrls(true) {
        HeadAfterRefill(sha, Exec(sha, init, Front(tr)), Last(tr));
      }
    }
  }

  /** The first `n` steps of an endless run. */
  function Prefix(run: nat -> Step, n: nat): (tr: Trace)
    ensures |tr| == n
  {
    if n == 0 then [] else Prefix(run, n - 1) + [run(n - 1)]
  }

  ghost predicate ValidRun(sha: Bytes -> Bytes, init: System, run: nat -> Step)
  {
    forall n: nat :: Valid(sha, init, Prefix(run, n))
  }

  ghost predicate StepsAtMost(run: nat -> Step, b: nat)
  {
    forall n: nat :: NumSteps(Prefix(run, n)) <= b
  }

  ghost predicate WasteAtMost(sha: Bytes -> Bytes, init: System, run: nat -> Step, b: nat)
    requires ValidRun(sha, init, run)
  {
    forall n: nat :: NumWasted(sha, init, Prefix(run, n)) <= b
  }

  /** Exactly when an upload terminates: in an endless run of the whole system this handler takes
      finitely many steps if and only if finitely many of its refills are wasted. */
  lemma TerminatesExactly(sha: Bytes -> Bytes, init: System, nar: Bytes, run: nat -> Step)
    requires Initial(init, nar) && ValidRun(sha, init, run)
    ensures (exists b: nat :: StepsAtMost(run, b)) <==> (exists b: nat :: WasteAtMost(sha, init, run, b))
  {
    forall n: nat
      ensures var tr := Prefix(run, n);
              && 2 * NumWasted(sha, init, tr) <= NumSteps(tr)
              && NumSteps(tr) <= 12 * |nar| + 9 + 2 * NumWasted(sha, init, tr)
    {
      WasteMakesLength(sha, init, nar, Prefix(run, n));
    }
    if b: nat :| StepsAtMost(run, b) {
      assert WasteAtMost(sha, init, run, b);
    }
    if b: nat :| WasteAtMost(sha, init, run, b) {
      assert StepsAtMost(run, 12 * |nar| + 9 + 2 * b);
    }
  }

  /** A refill brings at least one URL, and one still fresh at the next look at the clock. */
  predicate Cooperative(s: System, step: Step)
  {
    && (step.UrlsAnswer? && step.urls.Granted? ==> step.urls.value.0 != [])
    && (step.Tick? && s.up.pc == CheckUrls(true) ==> step.now + SAFETY_MARGIN < s.up.expiration)
  }

  ghost predicate AllCooperative(sha: Bytes -> Bytes, init: System, tr: Trace)
    requires Valid(sha, init, tr)
  {
    tr == [] || (AllCooperative(sha, init, Front(tr))
                 && Cooperative(Exec(sha, init, Front(tr)), Last(tr)))
  }

  lemma CooperativeStep(sha: Bytes -> Bytes, s: System, step: Step)
    requires Enabled(s, step) && Cooperative(s, step)
    requires s.up.pc == CheckUrls(true) ==> s.up.partUrls != []
    ensures !Wasted(s, step)
    ensures var u := Apply(sha, s, step).up; u.pc == CheckUrls(true) ==> u.partUrls != []
  {
  }

  lemma {:induction false} NothingWasted(sha: Bytes -> Bytes, init: System, nar: Bytes, tr: Trace)
    requires Initial(init, nar) && Valid(sha, init, tr) && AllCooperative(sha, init, tr)
    ensures NumWasted(sha, init, tr) == 0
    ensures var u := Exec(sha, init, tr).up; u.pc == CheckUrls(true) ==> u.partUrls != []
  {
    if tr != [] {
      NothingWasted(sha, init, nar, Front(tr));
      CooperativeStep(sha, Exec(sha, init, Front(tr)), Last(tr));
    }
  }

  /** With a cooperative server every run on a finite NAR, with failures anywhere, is finite: it has at
      most 12 * length + 9 steps, and at most one refill more than URLs taken. */
  lemma CooperativeRunsEnd(sha: Bytes -> Bytes, init: System, nar: Bytes, tr: Trace)
    requires Initial(init, nar) && Valid(sha, init, tr) && AllCooperative(sha, init, tr)
    ensures NumSteps(tr) <= 12 * |nar| + 9
    ensures NumRefills(tr) <= NumTaken(sha, init, tr) + 1
  {
    NothingWasted(sha, init, nar, tr);
    WasteMakesLength(sha, init, nar, tr);
    RefillsTakeOrWaste(sha, init, tr);
  }

  // --- Why cooperation is needed ----------------------------------------------------------

  /** What a server can answer to a refill for part 1. */
  predicate Refill(answer: (seq<Url>, nat), id: UploadId)
  {
    IssuedFor(answer.0, id, PartNumbers(1, 4), answer.1)
  }

  ghost predicate Refills(answers: nat -> (seq<Url>, nat), id: UploadId)
  {
    forall i: nat :: Refill(answers(i), id)
  }

  /** The expiry of the batch in hand at the start of a round of refilling. */
  function Expiry(init: System, answers: nat -> (seq<Url>, nat), round: nat): nat
  {
    if round == 0 then init.up.expiration else answers(round - 1).1
  }

  /** Rounds of a look at the clock, when the batch in hand has just expired, and a refill. */
  function SpinStep(init: System, answers: nat -> (seq<Url>, nat), n: nat): (step: Step)
    ensures Favourable(step) && !Foreign(step)
  {
    if n % 2 == 0 then Tick(Expiry(init, answers, n / 2)) else UrlsAnswer(Granted(answers(n / 2)))
  }

  function SpinRun(init: System, answers: nat -> (seq<Url>, nat)): nat -> Step
  {
    (n: nat) => SpinStep(init, answers, n)
  }

  /** The system after `n` steps: nothing is read and nothing stored. */
  function SpinState(init: System, answers: nat -> (seq<Url>, nat), n: nat): System
  {
    var round := n / 2;
    var urls := if n == 0 then init.up.partUrls else if n % 2 == 0 then answers(round - 1).0 else [];
    var pc := if n == 0 then CheckUrls(false) else if n % 2 == 0 then CheckUrls(true) else AwaitUrls;
    init.(up := init.up.(partUrls := urls, expiration := Expiry(init, answers, round), pc := pc))
  }

  function SpinStates(init: System, answers: nat -> (seq<Url>, nat)): nat -> System
  {
    (n: nat) => SpinState(init, answers, n)
  }

  /** Step `n` of a run leads from state `n` to the next. */
  ghost predicate Follows(sha: Bytes -> Bytes, run: nat -> Step, states: nat -> System, n: nat)
  {
    Enabled(states(n), run(n)) && Apply(sha, states(n), run(n)) == states(n + 1)
  }

  /** A run that follows a sequence of states reaches them. */
  lemma {:induction false} RunFollows(sha: Bytes -> Bytes, init: System, run: nat -> Step,
      states: nat -> System, n: nat)
    requires states(0) == init && forall k: nat :: Follows(sha, run, states, k)
    ensures Valid(sha, init, Prefix(run, n)) && Exec(sha, init, Prefix(run, n)) == states(n)
  {
    if n > 0 {
      RunFollows(sha, init, run, states, n - 1);
      assert Follows(sha, run, states, n - 1);
      Extend(sha, init, Prefix(run, n - 1), run(n - 1));
    }
  }

  lemma SpinFollows(sha: Bytes -> Bytes, init: System, nar: Bytes, answers: nat -> (seq<Url>, nat),
      n: nat)
    requires Initial(init, nar) && Refills(answers, init.up.uploadId)
    ensures Follows(sha, SpinRun(init, answers), SpinStates(init, answers), n)
  {
    var s, round := SpinState(init, answers, n), n / 2;
    if n % 2 == 0 {
      assert (n + 1) / 2 == round;
      assert OnTick(s.up, s.up.expiration) == s.up.(partUrls := [], pc := AwaitUrls);
    } else {
      assert (n + 1) / 2 == round + 1;
      assert Refill(answers(round), init.up.uploadId);
      assert s.up.partUrls + answers(round).0 == answers(round).0;
    }
  }

  lemma {:induction false} SpinSteps(init: System, answers: nat -> (seq<Url>, nat), n: nat)
    ensures var tr := Prefix(SpinRun(init, answers), n); NumSteps(tr) == n && AllFavourable(tr)
  {
    if n > 0 {
      SpinSteps(init, answers, n - 1);
      FrontLast(Prefix(SpinRun(init, answers), n - 1), SpinRun(init, answers)(n - 1));
    }
  }

  lemma SpinReaches(sha: Bytes -> Bytes, init: System, nar: Bytes, answers: nat -> (seq<Url>, nat),
      n: nat)
    requires Initial(init, nar) && Refills(answers, init.up.uploadId)
    ensures var tr := Prefix(SpinRun(init, answers), n);
            Valid(sha, init, tr) && Exec(sha, init, tr) == SpinState(init, answers, n)
  {
    var run, states := SpinRun(init, answers), SpinStates(init, answers);
    forall k: nat
      ensures Follows(sha, run, states, k)
    {
      SpinFollows(sha, init, nar, answers, k);
    }
    assert states(0) == init;
    RunFollows(sha, init, run, states, n);
  }

  /** Without cooperation the upload need not end: from every start, and whatever URLs the server
      issues in answer to refills, there is an endless run in which each batch has expired by the time
      the clock is read, no request fails, the handler never comes to rest, and nothing is stored. */
  lemma LateRefillsSpin(sha: Bytes -> Bytes, init: System, nar: Bytes,
      answers: nat -> (seq<Url>, nat))
    requires Initial(init, nar) && Refills(answers, init.up.uploadId)
    ensures var run := SpinRun(init, answers);
            && ValidRun(sha, init, run) && (forall n: nat :: AllFavourable(Prefix(run, n)))
            && (forall n: nat :: Exec(sha, init, Prefix(run, n)).server == init.server)
            && !exists b: nat :: StepsAtMost(run, b)
  {
    var run := SpinRun(init, answers);
    forall n: nat
      ensures Valid(sha, init, Prefix(run, n)) && AllFavourable(Prefix(run, n))
      ensures Exec(sha, init, Prefix(run, n)).server == init.server
    {
      SpinReaches(sha, init, nar, answers, n);
      SpinSteps(init, answers, n);
    }
    forall b: nat
      ensures !StepsAtMost(run, b)
    {
      SpinSteps(init, answers, b + 1);
      assert NumSteps(Prefix(run, b + 1)) > b;
    }
  }
}
