/** `upload_nar` in its imperative form: one loop over a queue of URLs, a part number, a list of
    etags and a reused part buffer.  It is proved to make only moves of the uploader of the
    transition system, so the theorems about uploads are theorems about this loop. */
module NarUpload {
  import opened ByteStrings
  import opened Readers
  import opened StreamAdapters
  import opened Upload
  import opened UploadMoves
  import opened UploadRequests

  /** How a turn of the loop ends: it goes round again, waits for an answer that has not come yet,
      breaks out to complete the upload, or fails. */
  datatype Turning = Again | Waiting | Break | Fail(error: UploadError)

  /** `NarUploadState`. */
  class UploadState {
    const uploadId: UploadId
    const partSize: pos
    var partUrls: seq<Url>
    var expiration: nat

    constructor (uploadId: UploadId, partSize: pos, partUrls: seq<Url>, expiration: nat)
      ensures this.uploadId == uploadId && this.partSize == partSize
      ensures this.partUrls == partUrls && this.expiration == expiration
    {
      this.uploadId, this.partSize := uploadId, partSize;
      this.partUrls, this.expiration := partUrls, expiration;
    }

    ghost function Start(): Uploader
      reads this
    {
      Uploader(uploadId, partSize, partUrls, expiration, 1, [], [], CheckUrls(false))
    }
  }

  /** The loop's locals, and the moves made so far. */
  class Uploading {
    const state: UploadState
    const reader: ByteSource
    const buf: array<byte>
    var partNumber: nat
    var etags: seq<Etag>
    var requests: seq<Request>
    ghost const start: Uploader
    ghost const stream: Bytes
    ghost var moves: seq<Move>
    ghost var at: Uploader

    ghost predicate Valid()
      reads this, state, reader
    {
      && buf.Length == state.partSize
      && at == Uploader(state.uploadId, state.partSize, state.partUrls, state.expiration,
                        partNumber, etags, at.part, at.pc)
      && Recorded()
      && BytesRead(moves) + reader.rest == stream
    }

    /** The history is a run of the uploader on the stream, and leads to the current state. */
    ghost predicate Recorded()
      reads this
    {
      Legal(start, moves) && Run(start, moves) == at && ReadsOk(moves, stream)
    }

    /** All requests of the history were sent, and `Owing`: all but that of the current state. */
    ghost predicate Settled()
      requires Legal(start, moves)
      reads this
    {
      Requests(start, moves) == requests
    }

    ghost predicate Owing()
      requires Legal(start, moves)
      reads this
    {
      Requests(start, moves) == requests + Asks(at)
    }

    constructor (state: UploadState, reader: ByteSource)
      ensures Valid() && Settled() && this.state == state && this.reader == reader && fresh(buf)
      ensures start == at == state.Start() && stream == reader.rest && moves == []
      ensures Beginning(start)
    {
      this.state, this.reader, this.buf := state, reader, new byte[state.partSize](_ => 0);
      this.partNumber, this.etags, this.requests := 1, [], [];
      this.start, this.at, this.stream, this.moves := state.Start(), state.Start(), reader.rest, [];
    }

    ghost method Note(move: Move)
      requires Recorded() && Settled() && CanMove(at, move)
      requires ReadOk(BytesRead(moves), move, stream)
      modifies this`moves, this`at
      ensures moves == old(moves) + [move] && at == Advance(old(at), move)
      ensures Recorded() && Owing()
      ensures Asks(at) == [] ==> Settled()
      ensures BytesRead(moves) == AddBytes(old(BytesRead(moves)), move)
      ensures Replies(moves) == AddReply(old(Replies(moves)), move)
    {
      AppendMove(start, moves, move);
      at := Advance(at, move);
      moves := moves + [move];
      assert requests + [] == requests;
    }

    /** Drops the URLs if they are about to expire, then takes one if there is one. */
    method TakeUrl(now: nat) returns (url: Option<Url>)
      requires Valid() && Settled() && at.pc.CheckUrls? && at.part == []
      modifies this`moves, this`at, state`partUrls
      ensures Valid() && Owing() && Replies(moves) == old(Replies(moves)) + [Clock(now)]
      ensures url.Some? ==> Settled()
      ensures at.part == []
      ensures if url.Some? then at.pc == Filling(url.value) else at.pc.AwaitUrls?
    {
      Note(Got(Clock(now)));
      if now + SAFETY_MARGIN >= state.expiration {
        state.partUrls := [];
      }
      if state.partUrls == [] {
        return None;
      }
      url := Some(state.partUrls[0]);
      state.partUrls := state.partUrls[1..];
    }

    /** Adds freshly issued URLs to the queue. */
    method Refill(answer: Answer<(seq<Url>, nat)>) returns (ok: bool)
      requires Valid() && Settled() && at.pc.AwaitUrls?
      modifies this`moves, this`at, state`partUrls, state`expiration
      ensures Valid() && Settled() && Replies(moves) == old(Replies(moves)) + [Urls(answer)]
      ensures at.pc == if ok then CheckUrls(true) else Stopped(RequestFailed)
      ensures at.part == old(at).part
    {
      ghost var before := at;
      Note(Got(Urls(answer)));
      ok := answer.Granted?;
      if ok {
        assert at == OnUrls(before, answer.value.0, answer.value.1);
        state.partUrls := state.partUrls + answer.value.0;
        state.expiration := answer.value.1;
      } else {
        assert at == before.(pc := Stopped(RequestFailed));
      }
    }

    /** Records the bytes of one fill, as one read. */
    ghost method NoteBytes(bytes: Bytes)
      requires Recorded() && Settled()
      requires at.pc.Filling? && at.part == [] && |bytes| <= at.partSize
      requires BytesRead(moves) + bytes <= stream
      modifies this`moves, this`at
      ensures Recorded()
      ensures BytesRead(moves) == old(BytesRead(moves)) + bytes
      ensures Replies(moves) == old(Replies(moves))
      ensures |bytes| < old(at).partSize ==> Settled() && at == old(at).(part := bytes)
      ensures |bytes| == old(at).partSize ==>
                Owing() && at == old(at).(part := bytes, pc := Putting(old(at).pc.url))
    {
      assert [] + bytes == bytes;
      if bytes != [] {
        Note(ReadBytes(bytes));
      } else {
        assert BytesRead(moves) + [] == BytesRead(moves);
      }
    }

    /** Records the end of the NAR. */
    ghost method NoteEnd()
      requires Recorded() && Settled() && BytesRead(moves) == stream
      requires at.pc.Filling? && |at.part| < at.partSize
      modifies this`moves, this`at
      ensures Recorded() && Owing()
      ensures BytesRead(moves) == old(BytesRead(moves)) && Replies(moves) == old(Replies(moves))
      ensures at == old(at).(pc := if old(at).part == [] then Completing else Putting(old(at).pc.url))
    {
      assert BytesRead(moves) + [] == BytesRead(moves);
      Note(ReadBytes([]));
      assert old(at).part + [] == old(at).part;
    }

    /** Fills the part buffer; fewer bytes than its size mean that the NAR has ended. */
    method FillPart() returns (r: Result<nat, ()>)
      requires Valid() && Settled() && at.pc.Filling? && at.part == []
      modifies this`moves, this`at, buf, reader`rest, reader`pace
      ensures Valid() && Owing() && Replies(moves) == old(Replies(moves))
      ensures r.Err? ==> at.pc == Stopped(ReadNar) && Settled()
      ensures r.Ok? ==>
                && r.value <= buf.Length && buf[..r.value] == at.part
                && at.pc == (if r.value == 0 then Completing else Putting(old(at).pc.url))
                && (r.value < buf.Length ==> reader.rest == [])
    {
      var fill := new TryFill(reader, buf);
      r := fill.Await();
      ghost var bytes, before := buf[..fill.numRead], BytesRead(moves);
      assert bytes + reader.rest == fill.stream == old(reader.rest);
      Associate(before, bytes, reader.rest);
      NoteBytes(bytes);
      if r.Err? {
        Note(ReadFailed);
      } else if r.value < buf.Length {
        assert BytesRead(moves) + [] == BytesRead(moves);
        NoteEnd();
      }
    }

    /** Takes the etag of an uploaded part. */
    method FinishPart(numRead: nat, answer: Answer<Etag>) returns (r: Result<bool, UploadError>)
      requires Valid() && Settled() && at.pc.Putting? && numRead == |at.part|
      modifies this`moves, this`at, this`etags, this`partNumber
      ensures Valid() && Owing() && Replies(moves) == old(Replies(moves)) + [Put(answer)]
      ensures match r
              case Err(error) => at.pc == Stopped(error) && Settled()
              case Ok(last) =>
                at.pc == (if last then Completing else CheckUrls(false)) && at.part == []
                && last == (numRead < buf.Length) && (!last ==> Settled())
    {
      ghost var before := at;
      Note(Got(Put(answer)));
      if !answer.Granted? {
        assert at == before.(pc := Stopped(RequestFailed));
        return Err(RequestFailed);
      }
      assert at == OnPut(before, answer.value);
      r := CountPart(numRead, answer.value, before);
    }

    /** What the loop does with a granted etag. */
    method CountPart(numRead: nat, etag: Etag, ghost before: Uploader)
      returns (r: Result<bool, UploadError>)
      requires buf.Length == state.partSize == before.partSize && numRead == |before.part|
      requires etags == before.etags && partNumber == before.partNumber
      modifies this`etags, this`partNumber
      ensures var u := OnPut(before, etag);
              && etags == u.etags && partNumber == u.partNumber && u.part == []
              && match r
                 case Err(error) => u.pc == Stopped(error)
                 case Ok(last) =>
                   u.pc == (if last then Completing else CheckUrls(false)) && last == (numRead < buf.Length)
    {
      etags := etags + [etag];
      if numRead < state.partSize {
        return Ok(true);
      }
      if partNumber == MAX_PART_NUMBER {
        return Err(TooManyNarParts);
      }
      partNumber := partNumber + 1;
      return Ok(false);
    }

    /** Sends a request; by now it is the one that the history asks for. */
    method Send(request: Request)
      requires Legal(start, moves) && Owing() && Asks(at) == [request]
      modifies this`requests
      ensures Settled() && requests == old(requests) + [request]
    {
      requests := requests + [request];
    }

    /** The turn ended where the history says it did. */
    ghost predicate Ended(turning: Turning)
      reads this, reader
    {
      match turning
      case Again => at.pc.CheckUrls? && at.part == []
      case Waiting => at.pc.CheckUrls? || at.pc.AwaitUrls? || at.pc.Putting?
      case Break => at.pc.Completing? && reader.rest == []
      case Fail(error) => at.pc == Stopped(error)
    }

    /** The request after the loop. */
    method AskCompletion()
      requires Valid() && Owing() && at.pc.Completing? && reader.rest == []
      modifies this`requests
      ensures Valid() && Settled() && Ended(Break)
    {
      Send(CompleteUpload(state.uploadId, etags));
    }

    /** One turn of the loop. */
    method Turn(script: seq<Reply>, i: nat) returns (j: nat, turning: Turning)
      requires Valid() && Settled() && Ended(Again)
      requires i <= |script| && Replies(moves) == script[..i]
      modifies this`moves, this`at, this`etags, this`partNumber, this`requests, state, buf,
               reader`rest, reader`pace
      ensures Valid() && Settled() && i <= j <= |script| && Replies(moves) == script[..j]
      ensures Ended(turning) && (turning.Again? ==> i < j)
    {
      j := i;
      if j == |script| || !script[j].Clock? {
        return j, Waiting;
      }
      TakeNext(script, j);
      var url := TakeUrl(script[j].now);
      j := j + 1;
      if url.None? {
        j, turning := AskForUrls(script, j);
      } else {
        j, turning := UploadPart(url.value, script, j);
      }
    }

    /** The rest of a turn, with no URL left. */
    method AskForUrls(script: seq<Reply>, i: nat) returns (j: nat, turning: Turning)
      requires Valid() && Owing() && at.pc.AwaitUrls? && at.part == []
      requires i <= |script| && Replies(moves) == script[..i]
      modifies this`moves, this`at, this`requests, state
      ensures Valid() && Settled() && i <= j <= |script| && Replies(moves) == script[..j]
      ensures Ended(turning)
    {
      Send(AskUrls(state.uploadId, PartNumbers(partNumber, 4)));
      if i == |script| || !script[i].Urls? {
        return i, Waiting;
      }
      TakeNext(script, i);
      var ok := Refill(script[i].urls);
      return i + 1, if ok then Again else Fail(RequestFailed);
    }

    /** The rest of a turn, with a URL in hand. */
    method UploadPart(url: Url, script: seq<Reply>, i: nat) returns (j: nat, turning: Turning)
      requires Valid() && Settled() && at.pc == Filling(url) && at.part == []
      requires i <= |script| && Replies(moves) == script[..i]
      modifies this`moves, this`at, this`etags, this`partNumber, this`requests, buf,
               reader`rest, reader`pace
      ensures Valid() && Settled() && i <= j <= |script| && Replies(moves) == script[..j]
      ensures Ended(turning)
    {
      var filled := FillPart();
      if filled.Err? {
        return i, Fail(ReadNar);
      }
      var numRead := filled.value;
      if numRead == 0 {
        AskCompletion();
        return i, Break;
      }
      j, turning := SendPart(url, numRead, script, i);
    }

    /** Puts a part that was filled and, if it was the last one, asks for completion. */
    method SendPart(url: Url, numRead: nat, script: seq<Reply>, i: nat)
      returns (j: nat, turning: Turning)
      requires Valid() && Owing() && at.pc == Putting(url)
      requires numRead <= buf.Length && buf[..numRead] == at.part
      requires numRead < buf.Length ==> reader.rest == []
      requires i <= |script| && Replies(moves) == script[..i]
      modifies this`moves, this`at, this`etags, this`partNumber, this`requests
      ensures Valid() && Settled() && i <= j <= |script| && Replies(moves) == script[..j]
      ensures Ended(turning)
    {
      Send(PutPart(url, buf[..numRead]));
      if i == |script| || !script[i].Put? {
        return i, Waiting;
      }
      TakeNext(script, i);
      var last := FinishPart(numRead, script[i].etag);
      if last.Err? {
        return i + 1, Fail(last.error);
      }
      if last.value {
        AskCompletion();
        return i + 1, Break;
      }
      return i + 1, Again;
    }

    /** The whole of `upload_nar`, for as long as the script has answers.  Its history is a legal
        run of the uploader from the initial state; the answers it used are the script's, in order;
        the requests it sent are those of the run; and if it succeeds, the bodies of the parts it put,
        joined, are the whole stream, and it asked for completion with exactly the etags it was given. */
    method UploadNar(script: seq<Reply>) returns (r: Option<Result<(), UploadError>>)
      requires Valid() && Settled() && Ended(Again) && moves == [] && Beginning(start)
      modifies this`moves, this`at, this`etags, this`partNumber, this`requests, state, buf,
               reader`rest, reader`pace
      ensures Valid() && Requests(start, moves) == requests && Replies(moves) <= script
      ensures r == (if at.pc.Completed? then Some(Ok(()))
                    else if at.pc.Stopped? then Some(Err(at.pc.error)) else None)
      ensures r.Some? && r.value.Ok? ==>
                && BytesRead(moves) == stream && Joined(Puts(requests)) == stream
                && CompleteUpload(start.uploadId, GrantedEtags(Replies(moves))) in requests
    {
      var i, turning := 0, Again;
      while turning.Again?
        invariant Valid() && Settled() && i <= |script| && Replies(moves) == script[..i]
        invariant Ended(turning)
        decreases |script| - i, turning.Again?
      {
        i, turning := Turn(script, i);
      }
      if turning.Fail? {
        return Some(Err(turning.error));
      }
      if turning.Waiting? || i == |script| || !script[i].Complete? {
        return None;
      }
      TakeNext(script, i);
      var done := TakeCompletion(script[i].done);
      return Some(done);
    }

    /** The answer to the request after the loop. */
    method TakeCompletion(answer: Answer<()>) returns (r: Result<(), UploadError>)
      requires Valid() && Settled() && Ended(Break) && Beginning(start)
      modifies this`moves, this`at
      ensures Valid() && Settled() && Replies(moves) == old(Replies(moves)) + [Complete(answer)]
      ensures if at.pc.Completed? then r == Ok(()) else r.Err? && at.pc == Stopped(r.error)
      ensures r.Ok? ==>
                && BytesRead(moves) == stream && Joined(Puts(requests)) == stream
                && CompleteUpload(start.uploadId, GrantedEtags(Replies(moves))) in requests
    {
      Note(Got(Complete(answer)));
      assert BytesRead(moves) + [] == BytesRead(moves);
      if answer.Granted? {
        CompletedIsHonest(start, moves, requests, stream);
        return Ok(());
      }
      return Err(RequestFailed);
    }
  }
}
