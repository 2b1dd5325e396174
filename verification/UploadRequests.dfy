/** What the uploader asks of the server, told from the requests, the answers and the bytes read alone:
    the parts it puts are the NAR cut into pieces, in order, each to the URL of its number; it asks for
    the URLs it needs next; and it completes the upload with exactly the etags it was given. */
module UploadRequests {
  import opened ByteStrings
  import opened Upload
  import opened UploadSafety
  import opened UploadMoves

  function AddPut(ps: seq<(Url, Bytes)>, request: Request): (r: seq<(Url, Bytes)>)
  {
    if request.PutPart? then ps + [(request.url, request.bytes)] else ps
  }

  /** The parts put, with their URLs, in order. */
  function Puts(rs: seq<Request>): (ps: seq<(Url, Bytes)>)
  {
    if rs == [] then [] else AddPut(Puts(Front(rs)), Last(rs))
  }

  /** The bodies of the parts, joined. */
  function Joined(ps: seq<(Url, Bytes)>): (bs: Bytes)
  {
    if ps == [] then [] else Joined(Front(ps)) + Last(ps).1
  }

  function AddEtag(es: seq<Etag>, reply: Reply): (r: seq<Etag>)
  {
    if reply.Put? && reply.etag.Granted? then es + [reply.etag.value] else es
  }

  /** The etags that were granted, in order. */
  function GrantedEtags(replies: seq<Reply>): (es: seq<Etag>)
  {
    if replies == [] then [] else AddEtag(GrantedEtags(Front(replies)), Last(replies))
  }

  /** The numbers `from`, `from + 1`, and so on: four of them, or up to 65535. */
  predicate NextNumbers(numbers: seq<nat>, from: nat)
  {
    && from <= 65535 && |numbers| == Min(4, 65536 - from)
    && forall k :: 0 <= k < |numbers| ==> numbers[k] == from + k
  }

  /** Request `i`, if it asks for URLs, asks for those of the part after the ones put before it. */
  predicate AsksForNext(rs: seq<Request>, id: UploadId, i: nat)
    requires i < |rs|
  {
    rs[i].AskUrls? ==>
      rs[i].upload == id && NextNumbers(rs[i].numbers, |Puts(rs[..i])| + 1)
  }

  predicate AllAskForNext(rs: seq<Request>, id: UploadId)
  {
    forall i :: 0 <= i < |rs| ==> AsksForNext(rs, id, i)
  }

  /** No part is empty or too long, and all but maybe the last are full. */
  predicate Cut(ps: seq<(Url, Bytes)>, partSize: pos)
  {
    && (forall k :: 0 <= k < |ps| ==> 0 < |ps[k].1| <= partSize)
    && (forall k :: 0 <= k < |ps| - 1 ==> |ps[k].1| == partSize)
  }

  predicate AllFull(ps: seq<(Url, Bytes)>, partSize: pos)
  {
    forall k :: 0 <= k < |ps| ==> |ps[k].1| == partSize
  }

  predicate NoCompletion(rs: seq<Request>)
  {
    forall i :: 0 <= i < |rs| ==> !rs[i].CompleteUpload?
  }

  /** A completion is asked for at most once, as the last request, with these etags. */
  predicate CompletesWith(rs: seq<Request>, id: UploadId, etags: seq<Etag>)
  {
    rs != [] && NoCompletion(Front(rs)) && Last(rs) == CompleteUpload(id, etags)
  }

  /** The uploader before its first move. */
  predicate Beginning(u: Uploader)
  {
    u.partNumber == 1 && u.etags == [] && u.part == [] && u.pc == CheckUrls(false)
  }

  // --- What every move keeps --------------------------------------------------------------

  predicate Counted(u: Uploader, ps: seq<(Url, Bytes)>)
  {
    && 1 <= u.partNumber <= 65535
    && (Looping(u) ==> |u.etags| == u.partNumber - 1)
    && (!u.pc.Stopped? ==> |ps| == |u.etags| + if u.pc.Putting? then 1 else 0)
  }

  predicate Sized(u: Uploader, ps: seq<(Url, Bytes)>)
  {
    && Cut(ps, u.partSize)
    && (Looping(u) && !u.pc.Putting? ==> AllFull(ps, u.partSize))
    && (u.pc.Putting? ==> ps != [] && Last(ps).1 == u.part)
    && (u.pc.Filling? ==> |u.part| < u.partSize)
    && (u.pc.CheckUrls? || u.pc.AwaitUrls? ==> u.part == [])
  }

  predicate Covered(u: Uploader, ps: seq<(Url, Bytes)>, read: Bytes)
  {
    !u.pc.Stopped? ==> Joined(ps) + (if u.pc.Filling? then u.part else []) == read
  }

  predicate Completions(u: Uploader, rs: seq<Request>, read: Bytes)
  {
    if Looping(u) then NoCompletion(rs)
    else
      NoCompletion(rs)
      || (CompletesWith(rs, u.uploadId, u.etags) && Joined(Puts(rs)) == read
          && |Puts(rs)| == |u.etags|)
  }

  predicate Kept(u: Uploader, rs: seq<Request>, read: Bytes)
  {
    && AllAskForNext(rs, u.uploadId)
    && Counted(u, Puts(rs)) && Sized(u, Puts(rs)) && Covered(u, Puts(rs), read)
    && Completions(u, rs, read)
    && (u.pc.Completing? || u.pc.Completed? ==> CompletesWith(rs, u.uploadId, u.etags))
  }

  lemma PutsAppend(rs: seq<Request>, r: Request)
    ensures Puts(rs + [r]) == AddPut(Puts(rs), r)
  {
    FrontLast(rs, r);
  }

  lemma Append(rs: seq<Request>, r: Request, id: UploadId)
    ensures Puts(rs + [r]) == AddPut(Puts(rs), r)
    ensures AllAskForNext(rs, id) && (r.AskUrls? ==> r.upload == id && NextNumbers(r.numbers, |Puts(rs)| + 1))
            ==> AllAskForNext(rs + [r], id)
    ensures NoCompletion(rs) ==>
              if r.CompleteUpload? then CompletesWith(rs + [r], r.upload, r.etags)
              else NoCompletion(rs + [r])
  {
    FrontLast(rs, r);
    if AllAskForNext(rs, id) && (r.AskUrls? ==> r.upload == id && NextNumbers(r.numbers, |Puts(rs)| + 1)) {
      forall i | 0 <= i < |rs + [r]|
        ensures AsksForNext(rs + [r], id, i)
      {
        assert (rs + [r])[..i] == rs[..i];
        assert rs[..|rs|] == rs;
        assert i < |rs| ==> AsksForNext(rs, id, i);
      }
    }
  }

  lemma KeptTick(u: Uploader, now: nat, rs: seq<Request>, read: Bytes)
    requires Kept(u, rs, read) && u.pc.CheckUrls?
    ensures var u' := OnTick(u, now); Kept(u', rs + Asks(u'), read)
  {
    var u' := OnTick(u, now);
    if u'.pc.AwaitUrls? {
      Append(rs, AskUrls(u.uploadId, PartNumbers(u.partNumber, 4)), u.uploadId);
    } else {
      assert rs + [] == rs;
    }
  }

  lemma KeptUrls(u: Uploader, answer: Answer<(seq<Url>, nat)>, rs: seq<Request>, read: Bytes)
    requires Kept(u, rs, read) && u.pc.AwaitUrls?
    ensures var u' := Advance(u, Got(Urls(answer))); Kept(u', rs + Asks(u'), read)
  {
    assert rs + [] == rs;
  }

  lemma KeptReadMore(u: Uploader, bytes: Bytes, rs: seq<Request>, read: Bytes)
    requires Kept(u, rs, read) && u.pc.Filling? && |u.part| + |bytes| < u.partSize
    ensures Kept(u.(part := u.part + bytes), rs, read + bytes)
  {
    Associate(Joined(Puts(rs)), u.part, bytes);
  }

  /** A part is complete, and is put. */
  lemma KeptReadPart(u: Uploader, part: Bytes, rs: seq<Request>, read: Bytes)
    requires Kept(u, rs, read) && u.pc.Filling? && u.part <= part && 0 < |part| <= u.partSize
    ensures var u' := u.(part := part, pc := Putting(u.pc.url));
            Kept(u', rs + [PutPart(u.pc.url, part)], read + part[|u.part|..])
  {
    var ps, put := Puts(rs), (u.pc.url, part);
    Append(rs, PutPart(u.pc.url, part), u.uploadId);
    FrontLast(ps, put);
    Associate(Joined(ps), u.part, part[|u.part|..]);
    assert u.part + part[|u.part|..] == part;
    assert Joined(ps + [put]) + [] == Joined(ps) + part;
  }

  lemma KeptReadEnd(u: Uploader, rs: seq<Request>, read: Bytes)
    requires Kept(u, rs, read) && u.pc.Filling? && u.part == []
    ensures Kept(u.(pc := Completing), rs + [CompleteUpload(u.uploadId, u.etags)], read)
  {
    Append(rs, CompleteUpload(u.uploadId, u.etags), u.uploadId);
    assert Joined(Puts(rs)) + [] == Joined(Puts(rs));
  }

  lemma ReadAsks(u: Uploader, bytes: Bytes)
    requires CanMove(u, ReadBytes(bytes)) && |u.part| < u.partSize
    ensures var u', part := OnRead(u, bytes), u.part + bytes;
            if bytes != [] && |part| < u.partSize then u' == u.(part := part) && Asks(u') == []
            else if part != [] then
              u' == u.(part := part, pc := Putting(u.pc.url)) && Asks(u') == [PutPart(u.pc.url, part)]
            else
              && u' == u.(pc := Completing) && u.part == [] && bytes == []
              && Asks(u') == [CompleteUpload(u.uploadId, u.etags)]
  {
    assert u.part + bytes == [] ==> u.part == [] && bytes == [];
  }

  lemma KeptRead(u: Uploader, bytes: Bytes, rs: seq<Request>, read: Bytes)
    requires Kept(u, rs, read) && CanMove(u, ReadBytes(bytes))
    ensures var u' := OnRead(u, bytes); Kept(u', rs + Asks(u'), read + bytes)
  {
    var part := u.part + bytes;
    ReadAsks(u, bytes);
    assert rs + [] == rs && read + [] == read && part[|u.part|..] == bytes;
    if bytes != [] && |part| < u.partSize {
      KeptReadMore(u, bytes, rs, read);
    } else if part != [] {
      KeptReadPart(u, part, rs, read);
    } else {
      KeptReadEnd(u, rs, read);
    }
  }

  lemma KeptPut(u: Uploader, answer: Answer<Etag>, rs: seq<Request>, read: Bytes)
    requires Kept(u, rs, read) && u.pc.Putting?
    ensures var u' := Advance(u, Got(Put(answer))); Kept(u', rs + Asks(u'), read)
  {
    var u', ps := Advance(u, Got(Put(answer))), Puts(rs);
    assert rs + [] == rs && Joined(ps) + [] == Joined(ps);
    if u'.pc.Completing? {
      Append(rs, CompleteUpload(u.uploadId, u'.etags), u.uploadId);
    } else if u'.pc.CheckUrls? {
      assert AllFull(ps, u.partSize);
    }
  }

  lemma KeptReadFailed(u: Uploader, rs: seq<Request>, read: Bytes)
    requires Kept(u, rs, read) && u.pc.Filling?
    ensures Kept(u.(pc := Stopped(ReadNar)), rs, read)
  {
  }

  lemma KeptComplete(u: Uploader, rs: seq<Request>, read: Bytes, pc: Pc)
    requires Kept(u, rs, read) && u.pc.Completing? && (pc.Completed? || pc.Stopped?)
    ensures Kept(u.(pc := pc), rs, read)
  {
  }

  lemma MoveKeeps(u: Uploader, move: Move, rs: seq<Request>, read: Bytes)
    requires Kept(u, rs, read) && CanMove(u, move)
    ensures var u' := Advance(u, move); Kept(u', rs + Asks(u'), AddBytes(read, move))
  {
    match move {
      case Got(Clock(now)) => KeptTick(u, now, rs, read);
      case Got(Urls(answer)) => KeptUrls(u, answer, rs, read);
      case Got(Put(answer)) => KeptPut(u, answer, rs, read);
      case ReadBytes(bytes) => KeptRead(u, bytes, rs, read);
      case ReadFailed =>
        assert rs + [] == rs;
        KeptReadFailed(u, rs, read);
      case Got(Complete(_)) =>
        assert rs + [] == rs;
        KeptComplete(u, rs, read, Advance(u, move).pc);
    }
  }

  lemma {:induction false} AlwaysKept(u: Uploader, moves: seq<Move>)
    requires Legal(u, moves) && Beginning(u)
    ensures Kept(Run(u, moves), Requests(u, moves), BytesRead(moves))
  {
    if moves != [] {
      AlwaysKept(u, Front(moves));
      MoveKeeps(Run(u, Front(moves)), Last(moves), Requests(u, Front(moves)), BytesRead(Front(moves)));
    }
  }

  lemma EtagStep(u: Uploader, move: Move, replies: seq<Reply>)
    requires CanMove(u, move) && u.etags == GrantedEtags(replies)
    ensures Advance(u, move).etags == GrantedEtags(AddReply(replies, move))
    ensures Advance(u, move).uploadId == u.uploadId && Advance(u, move).partSize == u.partSize
  {
    if move.Got? {
      FrontLast(replies, move.reply);
    }
  }

  lemma {:induction false} EtagsAreGranted(u: Uploader, moves: seq<Move>)
    requires Legal(u, moves) && Beginning(u)
    ensures Run(u, moves).etags == GrantedEtags(Replies(moves))
    ensures Run(u, moves).uploadId == u.uploadId && Run(u, moves).partSize == u.partSize
  {
    if moves != [] {
      EtagsAreGranted(u, Front(moves));
      EtagStep(Run(u, Front(moves)), Last(moves), Replies(Front(moves)));
    }
  }

  // --- The theorems -----------------------------------------------------------------------

  /** On every history of the uploader: the parts put are non-empty and full, but for the last; every
      request for URLs lists the numbers of the next four parts, or up to 65535; and completion is asked
      for at most once, last, with exactly the etags granted, one per part, when the bodies of the parts
      are all the bytes read.  It has been asked for when the uploader has completed. */
  lemma RequestsAreHonest(u: Uploader, moves: seq<Move>)
    requires Legal(u, moves) && Beginning(u)
    ensures var rs := Requests(u, moves);
            && Cut(Puts(rs), u.partSize) && AllAskForNext(rs, u.uploadId)
            && (NoCompletion(rs)
                || (CompletesWith(rs, u.uploadId, GrantedEtags(Replies(moves)))
                    && Joined(Puts(rs)) == BytesRead(moves)
                    && |Puts(rs)| == |GrantedEtags(Replies(moves))|))
            && (Run(u, moves).pc.Completed? ==> !NoCompletion(rs))
  {
    AlwaysKept(u, moves);
    EtagsAreGranted(u, moves);
  }

  /** A completed upload has put all bytes read and asked for completion with the etags granted. */
  lemma CompletedIsHonest(u: Uploader, moves: seq<Move>, rs: seq<Request>, stream: Bytes)
    requires Legal(u, moves) && Beginning(u) && Run(u, moves).pc.Completed?
    requires Requests(u, moves) == rs && BytesRead(moves) == stream
    ensures Joined(Puts(rs)) == stream
    ensures CompleteUpload(u.uploadId, GrantedEtags(Replies(moves))) in rs
  {
    RequestsAreHonest(u, moves);
  }

  /** Part `k` goes to a URL issued for `k` in this upload. */
  predicate ToOwnUrls(ps: seq<(Url, Bytes)>, id: UploadId)
  {
    forall k :: 0 <= k < |ps| ==> ps[k].0.upload == id && ps[k].0.part == k + 1
  }

  predicate UrlsOk(u: Uploader)
  {
    !u.pc.Stopped? ==> Aligned(u)
  }

  lemma MoveAligned(u: Uploader, move: Move)
    requires UrlsOk(u) && CanMove(u, move) && Issued(u, move)
    ensures UrlsOk(Advance(u, move))
  {
    match move {
      case Got(Clock(now)) => TickAligned(u, now);
      case Got(Urls(Granted((urls, expiration)))) => UrlsAligned(u, urls, expiration);
      case Got(Put(Granted(etag))) => PutAligned(u, etag);
      case ReadBytes(bytes) =>
        assert Queued(OnRead(u, bytes), u.partNumber + 1);
      case _ =>
    }
  }

  lemma {:induction false} AlwaysUrlsOk(u: Uploader, moves: seq<Move>)
    requires Legal(u, moves) && Beginning(u)
    ensures Queued(u, 1) && IssuedOk(u, moves) ==> UrlsOk(Run(u, moves))
  {
    if moves != [] && Queued(u, 1) && IssuedOk(u, moves) {
      AlwaysUrlsOk(u, Front(moves));
      MoveAligned(Run(u, Front(moves)), Last(moves));
    }
  }

  /** The only put ever asked for is that of the part at hand. */
  lemma PutsAsked(rs: seq<Request>, u: Uploader)
    ensures Puts(rs + Asks(u))
         == if u.pc.Putting? then Puts(rs) + [(u.pc.url, u.part)] else Puts(rs)
  {
    match u.pc {
      case AwaitUrls => PutsAppend(rs, AskUrls(u.uploadId, PartNumbers(u.partNumber, 4)));
      case Putting(url) => PutsAppend(rs, PutPart(url, u.part));
      case Completing => PutsAppend(rs, CompleteUpload(u.uploadId, u.etags));
      case _ => assert rs + [] == rs;
    }
  }

  lemma AskedOfOwnUrl(rs: seq<Request>, u: Uploader, id: UploadId)
    requires ToOwnUrls(Puts(rs), id) && u.uploadId == id && UrlsOk(u)
    requires Counted(u, Puts(rs + Asks(u)))
    ensures ToOwnUrls(Puts(rs + Asks(u)), id)
  {
    PutsAsked(rs, u);
    if u.pc.Putting? {
      assert |Puts(rs)| + 1 == u.partNumber;
    }
  }

  /** If the server issues URLs as asked, every part goes to the URL of its number. */
  lemma {:induction false} PutsGoToTheirUrls(u: Uploader, moves: seq<Move>)
    requires Legal(u, moves) && Beginning(u)
    ensures Queued(u, 1) && IssuedOk(u, moves) ==> ToOwnUrls(Puts(Requests(u, moves)), u.uploadId)
  {
    if moves != [] && Queued(u, 1) && IssuedOk(u, moves) {
      var front, at := Front(moves), Run(u, moves);
      PutsGoToTheirUrls(u, front);
      AlwaysUrlsOk(u, moves);
      AlwaysKept(u, moves);
      EtagsAreGranted(u, moves);
      AskedOfOwnUrl(Requests(u, front), at, u.uploadId);
    }
  }
}
