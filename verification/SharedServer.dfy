/** The handlers of one daemon, at most one per store hash, all uploading to one server at once.  What
    the transition system of a single upload takes the others to do is proved here to be all they do:
    each handler's view of a run of them all is a run of that system. */
module SharedServer {
  import opened ByteStrings
  import opened Upload
  import opened UploadSafety
  import opened UploadTheorems

  /** The handlers, each with its copy of the server's state, which is the same for all. */
  type Fleet = seq<System>

  /** One handler takes a step, or someone outside this daemon does something to the server. */
  datatype Turn = By(who: nat, step: Step) | Outside(server: Server)

  predicate Together(fleet: Fleet)
  {
    forall a, b :: 0 <= a < b < |fleet| ==> Apart(fleet[a], fleet[b])
  }

  /** Two handlers share the server and nothing else. */
  predicate Apart(s: System, t: System)
  {
    s.server == t.server && s.up.uploadId != t.up.uploadId && s.storeHash != t.storeHash
  }

  /** Every handler is about to start, on its own NAR. */
  predicate Starting(fleet: Fleet, nars: seq<Bytes>)
  {
    && |fleet| == |nars| && Together(fleet)
    && forall h :: 0 <= h < |fleet| ==> Initial(fleet[h], nars[h])
  }

  ghost predicate CanTurn(fleet: Fleet, turn: Turn)
  {
    match turn
    case By(who, step) => who < |fleet| && !step.Interfere? && Enabled(fleet[who], step)
    case Outside(server) =>
      forall h :: 0 <= h < |fleet| ==>
        SameSession(fleet[h].server, server, fleet[h].up.uploadId, fleet[h].storeHash)
  }

  function SetServer(fleet: Fleet, server: Server): (r: Fleet)
    ensures |r| == |fleet|
    ensures forall h :: 0 <= h < |r| ==> r[h] == fleet[h].(server := server)
  {
    seq(|fleet|, h requires 0 <= h < |fleet| => fleet[h].(server := server))
  }

  ghost function AfterTurn(sha: Bytes -> Bytes, fleet: Fleet, turn: Turn): (r: Fleet)
    requires CanTurn(fleet, turn)
    ensures |r| == |fleet|
  {
    match turn
    case By(who, step) =>
      var s := Apply(sha, fleet[who], step);
      SetServer(fleet, s.server)[who := s]
    case Outside(server) => SetServer(fleet, server)
  }

  ghost predicate ValidTurns(sha: Bytes -> Bytes, init: Fleet, turns: seq<Turn>)
    decreases |turns|, 0
  {
    turns == [] || (ValidTurns(sha, init, Front(turns))
                    && CanTurn(After(sha, init, Front(turns)), Last(turns)))
  }

  ghost function After(sha: Bytes -> Bytes, init: Fleet, turns: seq<Turn>): (r: Fleet)
    requires ValidTurns(sha, init, turns)
    ensures |r| == |init|
    decreases |turns|, 1
  {
    if turns == [] then init else AfterTurn(sha, After(sha, init, Front(turns)), Last(turns))
  }

  // --- Each handler leaves the others alone -----------------------------------------------

  lemma PartIsOwn(s: System, etag: Etag, id: UploadId, storeHash: Bytes)
    requires s.up.pc.Putting? && id != s.up.pc.url.upload
    ensures SameSession(s.server, StorePart(s, etag).server, id, storeHash)
  {
  }

  lemma ObjectIsOwn(s: System, id: UploadId, storeHash: Bytes)
    requires id != s.up.uploadId
    ensures SameSession(s.server, StoreObject(s).server, id, storeHash)
  {
  }

  lemma NarInfoIsOwn(s: System, id: UploadId, storeHash: Bytes)
    requires s.stage.Publishing? && storeHash != s.storeHash
    ensures SameSession(s.server, StoreNarInfo(s).server, id, storeHash)
  {
  }

  /** A put, a completion and a publication are all a handler does to the server. */
  lemma OnlyWrites(sha: Bytes -> Bytes, s: System, step: Step)
    requires Enabled(s, step) && !step.Interfere?
    ensures var server := Apply(sha, s, step).server;
            || server == s.server
            || (s.up.pc.Putting? && exists etag :: server == StorePart(s, etag).server)
            || server == StoreObject(s).server
            || (s.stage.Publishing? && server == StoreNarInfo(s).server)
  {
    var server := Apply(sha, s, step).server;
    match step {
      case PutAnswer(Granted(etag)) => assert server == StorePart(s, etag).server;
      case PutAnswer(Lost(etag)) => assert server == StorePart(s, etag).server;
      case LatePut(etag) => assert server == StorePart(s, etag).server;
      case _ =>
    }
  }

  /** A step of a handler changes nothing on the server under any other upload id or store hash. */
  lemma OthersUntouched(sha: Bytes -> Bytes, s: System, nar: Bytes, step: Step, id: UploadId,
      storeHash: Bytes)
    requires Inv(sha, s, nar) && Enabled(s, step) && !step.Interfere?
    requires id != s.up.uploadId && storeHash != s.storeHash
    ensures SameSession(s.server, Apply(sha, s, step).server, id, storeHash)
  {
    var server := Apply(sha, s, step).server;
    OnlyWrites(sha, s, step);
    if s.up.pc.Putting? && exists etag :: server == StorePart(s, etag).server {
      var etag :| server == StorePart(s, etag).server;
      PartIsOwn(s, etag, id, storeHash);
    } else if server == StoreObject(s).server {
      ObjectIsOwn(s, id, storeHash);
    } else if server != s.server {
      NarInfoIsOwn(s, id, storeHash);
    }
  }

  lemma SameNames(sha: Bytes -> Bytes, s: System, step: Step)
    requires Enabled(s, step)
    ensures var s' := Apply(sha, s, step);
            s'.up.uploadId == s.up.uploadId && s'.storeHash == s.storeHash
  {
  }

  // --- Each handler's view ----------------------------------------------------------------

  /** What a turn is to handler `h`: its own step, or interference. */
  ghost function Seen(turn: Turn, h: nat, server: Server): Step
  {
    if turn.By? && turn.who == h then turn.step else Interfere(server)
  }

  ghost function View(sha: Bytes -> Bytes, init: Fleet, turns: seq<Turn>, h: nat): Trace
    requires ValidTurns(sha, init, turns) && h < |init|
  {
    if turns == [] then []
    else
      View(sha, init, Front(turns), h)
      + [Seen(Last(turns), h, After(sha, init, turns)[h].server)]
  }

  /** A turn of a fleet, as handler `h` sees it, is a step of the transition system. */
  lemma TurnIsStep(sha: Bytes -> Bytes, fleet: Fleet, nars: seq<Bytes>, turn: Turn, h: nat)
    requires Together(fleet) && CanTurn(fleet, turn) && h < |fleet| == |nars|
    requires forall k :: 0 <= k < |fleet| ==> Inv(sha, fleet[k], nars[k])
    ensures var s := AfterTurn(sha, fleet, turn)[h];
            var step := Seen(turn, h, s.server);
            Enabled(fleet[h], step) && Apply(sha, fleet[h], step) == s
  {
    if turn.By? && turn.who != h {
      var who := turn.who;
      assert if who < h then Apart(fleet[who], fleet[h]) else Apart(fleet[h], fleet[who]);
      OthersUntouched(sha, fleet[who], nars[who], turn.step, fleet[h].up.uploadId,
                      fleet[h].storeHash);
    }
  }

  lemma StillTogether(sha: Bytes -> Bytes, fleet: Fleet, turn: Turn)
    requires Together(fleet) && CanTurn(fleet, turn)
    ensures Together(AfterTurn(sha, fleet, turn))
  {
    if turn.By? {
      SameNames(sha, fleet[turn.who], turn.step);
    }
    var r := AfterTurn(sha, fleet, turn);
    forall a, b | 0 <= a < b < |r|
      ensures Apart(r[a], r[b])
    {
      assert Apart(fleet[a], fleet[b]);
    }
  }

  ghost predicate ViewsOk(sha: Bytes -> Bytes, init: Fleet, turns: seq<Turn>, h: nat)
    requires ValidTurns(sha, init, turns) && h < |init|
  {
    var tr := View(sha, init, turns, h);
    Valid(sha, init[h], tr) && Exec(sha, init[h], tr) == After(sha, init, turns)[h]
  }

  /** Every handler's view of every run of the fleet is a run of its own transition system, so that
      what is proved of one upload holds of each while all of them run. */
  lemma {:induction false} ViewsAreRuns(sha: Bytes -> Bytes, init: Fleet, nars: seq<Bytes>,
      turns: seq<Turn>)
    requires Starting(init, nars) && ValidTurns(sha, init, turns)
    ensures Together(After(sha, init, turns))
    ensures forall h :: 0 <= h < |init| ==> ViewsOk(sha, init, turns, h)
  {
    if turns != [] {
      var front, turn := Front(turns), Last(turns);
      var fleet := After(sha, init, front);
      ViewsAreRuns(sha, init, nars, front);
      forall h | 0 <= h < |init|
        ensures Inv(sha, fleet[h], nars[h])
      {
        assert ViewsOk(sha, init, front, h);
        AlwaysInv(sha, init[h], nars[h], View(sha, init, front, h));
      }
      StillTogether(sha, fleet, turn);
      forall h | 0 <= h < |init|
        ensures ViewsOk(sha, init, turns, h)
      {
        assert ViewsOk(sha, init, front, h);
        TurnIsStep(sha, fleet, nars, turn, h);
        Extend(sha, init[h], View(sha, init, front, h),
               Seen(turn, h, After(sha, init, turns)[h].server));
      }
    }
  }

  /** No false positives on the shared server: however the handlers interleave, and wherever they
      fail, the NARInfo visible for any of them is truthful, and one that succeeded has one. */
  lemma FleetHasNoFalsePositives(sha: Bytes -> Bytes, init: Fleet, nars: seq<Bytes>,
      turns: seq<Turn>, h: nat)
    requires Starting(init, nars) && ValidTurns(sha, init, turns) && h < |init|
    ensures var s := After(sha, init, turns)[h];
            && s.storeHash == init[h].storeHash && s.up.uploadId == init[h].up.uploadId
            && (s.storeHash in s.server.narinfos ==>
                  Truthful(sha, s.server, s.storeHash, s.up.uploadId, nars[h]))
            && (s.stage.Succeeded? ==> s.storeHash in s.server.narinfos)
  {
    ViewsAreRuns(sha, init, nars, turns);
    assert ViewsOk(sha, init, turns, h);
    var tr := View(sha, init, turns, h);
    NoFalsePositives(sha, init[h], nars[h], tr);
    KeepsNames(sha, init[h], tr);
  }

  lemma {:induction false} KeepsNames(sha: Bytes -> Bytes, init: System, tr: Trace)
    requires Valid(sha, init, tr)
    ensures var s := Exec(sha, init, tr);
            s.storeHash == init.storeHash && s.up.uploadId == init.up.uploadId
  {
    if tr != [] {
      KeepsNames(sha, init, Front(tr));
      SameNames(sha, Exec(sha, init, Front(tr)), Last(tr));
    }
  }

  // --- Nothing else becomes visible -------------------------------------------------------

  predicate Undisturbed(turns: seq<Turn>)
  {
    forall i :: 0 <= i < |turns| ==> turns[i].By?
  }

  lemma PublishesOwnHash(sha: Bytes -> Bytes, s: System, step: Step, storeHash: Bytes)
    requires Enabled(s, step) && !step.Interfere? && storeHash != s.storeHash
    ensures storeHash in Apply(sha, s, step).server.narinfos <==> storeHash in s.server.narinfos
  {
    OnlyWrites(sha, s, step);
  }

  lemma {:induction false} OtherHashesUntouched(sha: Bytes -> Bytes, init: Fleet, nars: seq<Bytes>,
      turns: seq<Turn>, storeHash: Bytes)
    requires Starting(init, nars) && ValidTurns(sha, init, turns) && Undisturbed(turns)
    requires forall h :: 0 <= h < |init| ==> init[h].storeHash != storeHash
    ensures forall k :: 0 <= k < |init| ==>
              (storeHash in After(sha, init, turns)[k].server.narinfos
               <==> storeHash in init[k].server.narinfos)
  {
    if turns != [] {
      var front, turn := Front(turns), Last(turns);
      assert turns[|turns| - 1] == turn;
      assert Undisturbed(front) by {
        assert forall i :: 0 <= i < |front| ==> front[i] == turns[i];
      }
      OtherHashesUntouched(sha, init, nars, front, storeHash);
      ViewsAreRuns(sha, init, nars, front);
      var fleet, who := After(sha, init, front), turn.who;
      FleetHasNoFalsePositives(sha, init, nars, front, who);
      PublishesOwnHash(sha, fleet[who], turn.step, storeHash);
      forall k | 0 <= k < |init|
        ensures fleet[k].server == fleet[who].server && init[k].server == init[who].server
      {
        assert k < who ==> Apart(fleet[k], fleet[who]) && Apart(init[k], init[who]);
        assert who < k ==> Apart(fleet[who], fleet[k]) && Apart(init[who], init[k]);
      }
    }
  }

  /** If nobody else touches the server, every NARInfo that becomes visible on it is that of one of the
      handlers, and truthful. */
  lemma OnlyTruthBecomesVisible(sha: Bytes -> Bytes, init: Fleet, nars: seq<Bytes>,
      turns: seq<Turn>, k: nat, storeHash: Bytes)
    returns (h: nat)
    requires Starting(init, nars) && ValidTurns(sha, init, turns) && Undisturbed(turns)
    requires k < |init| && storeHash !in init[k].server.narinfos
    ensures var server := After(sha, init, turns)[k].server;
            storeHash in server.narinfos ==>
              h < |init| && Truthful(sha, server, storeHash, init[h].up.uploadId, nars[h])
  {
    h := 0;
    if i :| 0 <= i < |init| && init[i].storeHash == storeHash {
      h := i;
      FleetHasNoFalsePositives(sha, init, nars, turns, h);
      ViewsAreRuns(sha, init, nars, turns);
      var fleet := After(sha, init, turns);
      assert k < h ==> Apart(fleet[k], fleet[h]);
      assert h < k ==> Apart(fleet[h], fleet[k]);
    } else {
      OtherHashesUntouched(sha, init, nars, turns, storeHash);
    }
  }
}
