/** Every history of the imperative upload loop is a run of the transition system: what is proved of
    all interleavings holds of the loop. */
module UploadRefinement {
  import opened ByteStrings
  import opened Upload
  import opened UploadSafety
  import opened UploadTheorems
  import opened UploadMoves
  import opened UploadRequests

  /** The system is where the loop is: same uploader, an empty pipe, and as many bytes written as the
      loop has read. */
  predicate Matches(s: System, u: Uploader, read: Bytes, nar: Bytes)
  {
    && s.up == u && s.pipe == [] && nar == read + s.todo
    && (!u.pc.Stopped? ==> s.stage.Streaming?)
    && (s.shut ==> s.todo == [])
  }

  lemma PrefixRest(read: Bytes, bytes: Bytes, todo: Bytes)
    requires read + bytes <= read + todo
    ensures bytes <= todo
  {
    assert (read + todo)[..|read| + |bytes|] == read + todo[..|bytes|];
    assert (read + bytes)[|read|..] == bytes;
    assert (read + todo[..|bytes|])[|read|..] == todo[..|bytes|];
  }

  /** One byte goes through the pipe. */
  lemma PumpOne(sha: Bytes -> Bytes, s: System, u: Uploader, read: Bytes, nar: Bytes)
    requires Matches(s, u, read, nar) && u.pc.Filling? && |u.part| < u.partSize && s.todo != []
    ensures Enabled(s, Write(1)) && Enabled(Apply(sha, s, Write(1)), Read(1))
    ensures var s2 := Apply(sha, Apply(sha, s, Write(1)), Read(1));
            Matches(s2, OnRead(u, s.todo[..1]), read + s.todo[..1], nar) && s2.todo == s.todo[1..]
  {
    var x := s.todo[..1];
    assert [] + x == x && x[..1] == x && x[1..] == [];
    assert s.todo == x + s.todo[1..];
    Associate(read, x, s.todo[1..]);
  }

  /** Reading byte by byte amounts to reading all at once. */
  lemma ReadInTwo(u: Uploader, bytes: Bytes)
    requires u.pc.Filling? && |bytes| > 1 && |u.part| + |bytes| <= u.partSize
    ensures OnRead(u, bytes[..1]).pc == u.pc
    ensures OnRead(OnRead(u, bytes[..1]), bytes[1..]) == OnRead(u, bytes)
  {
    assert bytes == bytes[..1] + bytes[1..];
    Associate(u.part, bytes[..1], bytes[1..]);
  }

  /** One byte goes through the pipe, at the end of a run. */
  lemma PumpRun(sha: Bytes -> Bytes, init: System, tr: Trace, u: Uploader, read: Bytes, nar: Bytes)
    returns (tr': Trace)
    requires Valid(sha, init, tr) && Matches(Exec(sha, init, tr), u, read, nar)
    requires u.pc.Filling? && |u.part| < u.partSize && Exec(sha, init, tr).todo != []
    ensures Valid(sha, init, tr')
    ensures var todo, s' := Exec(sha, init, tr).todo, Exec(sha, init, tr');
            Matches(s', OnRead(u, todo[..1]), read + todo[..1], nar) && s'.todo == todo[1..]
  {
    PumpOne(sha, Exec(sha, init, tr), u, read, nar);
    Extend(sha, init, tr, Write(1));
    Extend(sha, init, tr + [Write(1)], Read(1));
    tr' := tr + [Write(1)] + [Read(1)];
  }

  lemma {:induction false} Pump(sha: Bytes -> Bytes, init: System, tr: Trace, u: Uploader,
      read: Bytes, nar: Bytes, bytes: Bytes)
    returns (tr': Trace)
    requires Valid(sha, init, tr) && Matches(Exec(sha, init, tr), u, read, nar)
    requires u.pc.Filling? && bytes != [] && |u.part| + |bytes| <= u.partSize
    requires bytes <= Exec(sha, init, tr).todo
    ensures Valid(sha, init, tr')
    ensures Matches(Exec(sha, init, tr'), OnRead(u, bytes), read + bytes, nar)
    decreases |bytes|
  {
    var todo := Exec(sha, init, tr).todo;
    assert todo[..1] == bytes[..1] && bytes[1..] <= todo[1..];
    tr' := PumpRun(sha, init, tr, u, read, nar);
    if |bytes| == 1 {
      assert bytes[..1] == bytes;
    } else {
      ReadInTwo(u, bytes);
      Associate(read, bytes[..1], bytes[1..]);
      assert bytes == bytes[..1] + bytes[1..];
      tr' := Pump(sha, init, tr', OnRead(u, bytes[..1]), read + bytes[..1], nar, bytes[1..]);
    }
  }

  /** The end of the NAR: the producer shuts down, if it has not, and the uploader reads nothing. */
  lemma ReachEnd(sha: Bytes -> Bytes, init: System, tr: Trace, u: Uploader, nar: Bytes)
    returns (tr': Trace)
    requires Valid(sha, init, tr) && Matches(Exec(sha, init, tr), u, nar, nar)
    requires u.pc.Filling? && |u.part| <= u.partSize
    ensures Valid(sha, init, tr')
    ensures Matches(Exec(sha, init, tr'), OnRead(u, []), nar, nar)
  {
    tr' := tr;
    assert Exec(sha, init, tr).todo == [];
    if !Exec(sha, init, tr').shut {
      Extend(sha, init, tr', Shutdown);
      tr' := tr' + [Shutdown];
    }
    Extend(sha, init, tr', Read(0));
    tr' := tr' + [Read(0)];
  }

  /** A move that is an answer or a failed read is one step. */
  lemma AnswerStep(sha: Bytes -> Bytes, s: System, u: Uploader, read: Bytes, nar: Bytes, move: Move)
    returns (step: Step)
    requires Matches(s, u, read, nar) && CanMove(u, move) && !move.ReadBytes? && Issued(u, move)
    requires u.pc.Completing? ==> HasParts(s.server, u.uploadId, u.etags)
    ensures Enabled(s, step) && Matches(Apply(sha, s, step), Advance(u, move), read, nar)
  {
    match move {
      case Got(Clock(now)) => step := Tick(now);
      case Got(Urls(answer)) => step := UrlsAnswer(answer);
      case Got(Put(answer)) => step := PutAnswer(answer);
      case Got(Complete(answer)) => step := CompleteAnswer(answer);
      case ReadFailed => step := ReadFails;
    }
  }

  /** The loop is simulated by the transition system: for every legal history on a NAR, with URLs
      issued as asked, there is a run that brings the uploader to the same state. */
  lemma {:induction false} LoopIsSimulated(sha: Bytes -> Bytes, init: System, nar: Bytes,
      moves: seq<Move>)
    returns (tr: Trace)
    requires Initial(init, nar) && Legal(init.up, moves)
    requires ReadsOk(moves, nar) && IssuedOk(init.up, moves)
    ensures Valid(sha, init, tr)
    ensures Matches(Exec(sha, init, tr), Run(init.up, moves), BytesRead(moves), nar)
    decreases |moves|
  {
    if moves == [] {
      tr := [];
      assert [] + nar == nar;
    } else {
      var front, move := Front(moves), Last(moves);
      var u, read := Run(init.up, front), BytesRead(front);
      tr := LoopIsSimulated(sha, init, nar, front);
      AlwaysInv(sha, init, nar, tr);
      if !move.ReadBytes? {
        var step := AnswerStep(sha, Exec(sha, init, tr), u, read, nar, move);
        Extend(sha, init, tr, step);
        tr := tr + [step];
      } else if move.bytes == [] {
        assert nar + [] == nar;
        tr := ReachEnd(sha, init, tr, u, nar);
      } else {
        PrefixRest(read, move.bytes, Exec(sha, init, tr).todo);
        tr := Pump(sha, init, tr, u, read, nar, move.bytes);
      }
    }
  }

  lemma OneMore(n: nat, m: nat)
    ensures (n + 1) * m == n * m + m
  {
  }

  lemma {:induction false} FullLength(ps: seq<(Url, Bytes)>, partSize: pos)
    requires AllFull(ps, partSize)
    ensures |Joined(ps)| == |ps| * partSize
  {
    if ps != [] {
      var n := |ps| - 1;
      assert AllFull(Front(ps), partSize) && |ps[n].1| == partSize;
      FullLength(Front(ps), partSize);
      OneMore(n, partSize);
    }
  }

  lemma SplitEqual(a: Bytes, b: Bytes, c: Bytes, d: Bytes)
    requires a + b == c + d && |a| == |c|
    ensures a == c && b == d
  {
    assert a == (a + b)[..|a|] && c == (c + d)[..|c|];
    assert b == (a + b)[|a|..] && d == (c + d)[|c|..];
  }

  /** These parts and the stored ones join to the same bytes, and all but the last are full. */
  predicate FitParts(ps: seq<(Url, Bytes)>, server: Server, u: Uploader)
  {
    && Joined(ps) == Assemble(server, u.uploadId, |ps|)
    && (ps != [] ==> AllFull(Front(ps), u.partSize) && FullParts(server, u, |ps| - 1))
  }

  lemma LastPart(ps: seq<(Url, Bytes)>, server: Server, u: Uploader)
    requires ps != [] && FitParts(ps, server, u)
    ensures FitParts(Front(ps), server, u)
    ensures ps[|ps| - 1].1 == PartOf(server, u.uploadId, |ps|)
  {
    FullLength(Front(ps), u.partSize);
    AssembleLength(server, u, |ps| - 1);
    SplitEqual(Joined(Front(ps)), Last(ps).1, Assemble(server, u.uploadId, |ps| - 1),
               PartOf(server, u.uploadId, |ps|));
  }

  /** There is one way to cut bytes into parts of a size. */
  lemma {:induction false} SamePart(ps: seq<(Url, Bytes)>, server: Server, u: Uploader, k: nat)
    requires k < |ps| && FitParts(ps, server, u)
    ensures ps[k].1 == PartOf(server, u.uploadId, k + 1)
  {
    LastPart(ps, server, u);
    if k < |ps| - 1 {
      SamePart(Front(ps), server, u, k);
      assert Front(ps)[k] == ps[k];
    }
  }

  /** A loop that succeeds has stored the NAR: on the server of a run that simulates it, the upload is
      complete, in parts of the right sizes, and is the whole NAR; and what is stored as part `k` is the
      body of the `k`-th part the loop put, which went to the URL of `k`. */
  lemma LoopDeliversTheNar(sha: Bytes -> Bytes, init: System, nar: Bytes, moves: seq<Move>)
    returns (tr: Trace)
    requires Initial(init, nar) && Legal(init.up, moves)
    requires ReadsOk(moves, nar) && IssuedOk(init.up, moves) && Run(init.up, moves).pc.Completed?
    ensures Valid(sha, init, tr) && Exec(sha, init, tr).up == Run(init.up, moves)
    ensures var s := Exec(sha, init, tr);
            && Geometry(s.server, s.up, nar)
            && s.up.uploadId in s.server.objects && s.server.objects[s.up.uploadId] == nar
    ensures var s, ps := Exec(sha, init, tr), Puts(Requests(init.up, moves));
            && ToOwnUrls(ps, s.up.uploadId) && |ps| == |s.up.etags|
            && forall k :: 0 <= k < |ps| ==> ps[k].1 == PartOf(s.server, s.up.uploadId, k + 1)
  {
    tr := LoopIsSimulated(sha, init, nar, moves);
    FinishedGeometry(sha, init, nar, tr);
    AlwaysInv(sha, init, nar, tr);
    var s := Exec(sha, init, tr);
    assert s.hashed + [] == s.hashed && BytesRead(moves) + [] == BytesRead(moves);
    assert BytesRead(moves) == nar;
    EtagsAreGranted(init.up, moves);
    PutsGoToTheirUrls(init.up, moves);
    PutsAreStored(init.up, moves, s.server);
  }

  lemma PutsAreStored(u: Uploader, moves: seq<Move>, server: Server)
    requires Legal(u, moves) && Beginning(u) && Run(u, moves).pc.Completed?
    requires Geometry(server, Run(u, moves), BytesRead(moves))
    ensures var ps, end := Puts(Requests(u, moves)), Run(u, moves);
            && |ps| == |end.etags|
            && forall k :: 0 <= k < |ps| ==> ps[k].1 == PartOf(server, end.uploadId, k + 1)
  {
    var ps, end := Puts(Requests(u, moves)), Run(u, moves);
    RequestsAreHonest(u, moves);
    EtagsAreGranted(u, moves);
    assert BytesRead(moves) + [] == BytesRead(moves);
    forall k | 0 <= k < |ps|
      ensures ps[k].1 == PartOf(server, end.uploadId, k + 1)
    {
      SamePart(ps, server, end, k);
    }
  }

  /** A loop that fails with too many parts was given at least 65535 full parts. */
  lemma LoopRefusesOnlyLongNars(sha: Bytes -> Bytes, init: System, nar: Bytes, moves: seq<Move>)
    requires Initial(init, nar) && Legal(init.up, moves)
    requires ReadsOk(moves, nar) && IssuedOk(init.up, moves)
    requires Run(init.up, moves).pc == Stopped(TooManyNarParts)
    ensures |nar| >= MAX_PART_NUMBER * init.up.partSize
  {
    var tr := LoopIsSimulated(sha, init, nar, moves);
    AlwaysInv(sha, init, nar, tr);
    StoppedAborts(sha, init, nar, tr);
  }

  predicate StoppedOnlyByAbort(s: System)
  {
    s.up.pc.Stopped? ==> s.stage == Aborted(UploadNar(s.up.pc.error))
  }

  lemma StopStep(sha: Bytes -> Bytes, s: System, step: Step)
    requires Enabled(s, step) && StoppedOnlyByAbort(s)
    ensures StoppedOnlyByAbort(Apply(sha, s, step))
    ensures Apply(sha, s, step).up.partSize == s.up.partSize
  {
  }

  lemma {:induction false} StoppedAborts(sha: Bytes -> Bytes, init: System, nar: Bytes, tr: Trace)
    requires Initial(init, nar) && Valid(sha, init, tr)
    ensures var s := Exec(sha, init, tr);
            s.up.partSize == init.up.partSize && StoppedOnlyByAbort(s)
  {
    if tr != [] {
      StoppedAborts(sha, init, nar, Front(tr));
      StopStep(sha, Exec(sha, init, Front(tr)), Last(tr));
    }
  }
}
