/** The uploader on its own: the moves it makes, one per answer or read, and the requests it sends.
    The imperative loop and the transition system are both tied to this machine. */
module UploadMoves {
  import opened ByteStrings
  import opened Upload

  /** What the loop's awaits answer; the bytes read come from the reader. */
  datatype Reply =
    | Clock(now: nat)
    | Urls(urls: Answer<(seq<Url>, nat)>)
    | Put(etag: Answer<Etag>)
    | Complete(done: Answer<()>)

  datatype Request =
    | AskUrls(upload: UploadId, numbers: seq<nat>)
    | PutPart(url: Url, bytes: Bytes)
    | CompleteUpload(upload: UploadId, etags: seq<Etag>)

  /** A move of the uploader: an answer, a read, or a failed read. */
  datatype Move = Got(reply: Reply) | ReadBytes(bytes: Bytes) | ReadFailed

  predicate CanMove(u: Uploader, move: Move)
  {
    match move
    case Got(Clock(_)) => u.pc.CheckUrls?
    case Got(Urls(_)) => u.pc.AwaitUrls?
    case Got(Put(_)) => u.pc.Putting?
    case Got(Complete(_)) => u.pc.Completing?
    case ReadBytes(bytes) => u.pc.Filling? && |u.part| + |bytes| <= u.partSize
    case ReadFailed => u.pc.Filling?
  }

  function Advance(u: Uploader, move: Move): Uploader
    requires CanMove(u, move)
  {
    match move
    case Got(Clock(now)) => OnTick(u, now)
    case Got(Urls(Granted((urls, expiration)))) => OnUrls(u, urls, expiration)
    case Got(Put(Granted(etag))) => OnPut(u, etag)
    case Got(Complete(Granted(_))) => u.(pc := Completed)
    case Got(_) => u.(pc := Stopped(RequestFailed))
    case ReadBytes(bytes) => OnRead(u, bytes)
    case ReadFailed => u.(pc := Stopped(ReadNar))
  }

  /** The consumer's steps of the transition system are these moves, and no other step touches the
      uploader. */
  function MoveOf(s: System, step: Step): Option<Move>
    requires step.Read? ==> step.len <= |s.pipe|
  {
    match step
    case Tick(now) => Some(Got(Clock(now)))
    case UrlsAnswer(answer) => Some(Got(Urls(answer)))
    case PutAnswer(answer) => Some(Got(Put(answer)))
    case CompleteAnswer(answer) => Some(Got(Complete(answer)))
    case Read(n) => Some(ReadBytes(s.pipe[..n]))
    case ReadFails => Some(ReadFailed)
    case _ => None
  }

  lemma StepsAreMoves(sha: Bytes -> Bytes, s: System, step: Step)
    requires Enabled(s, step)
    ensures match MoveOf(s, step)
            case Some(move) => CanMove(s.up, move) && Apply(sha, s, step).up == Advance(s.up, move)
            case None => Apply(sha, s, step).up == s.up
  {
  }

  // --- Runs of the uploader alone ---------------------------------------------------------

  predicate Legal(u: Uploader, moves: seq<Move>)
    decreases |moves|, 0
  {
    moves == [] || (Legal(u, Front(moves)) && CanMove(Run(u, Front(moves)), Last(moves)))
  }

  function Run(u: Uploader, moves: seq<Move>): Uploader
    requires Legal(u, moves)
    decreases |moves|, 1
  {
    if moves == [] then u else Advance(Run(u, Front(moves)), Last(moves))
  }

  /** The request sent when the uploader starts to wait in this state. */
  function Asks(u: Uploader): (r: seq<Request>)
  {
    match u.pc
    case AwaitUrls => [AskUrls(u.uploadId, PartNumbers(u.partNumber, 4))]
    case Putting(url) => [PutPart(url, u.part)]
    case Completing => [CompleteUpload(u.uploadId, u.etags)]
    case _ => []
  }

  function Requests(u: Uploader, moves: seq<Move>): (r: seq<Request>)
    requires Legal(u, moves)
  {
    if moves == [] then [] else Requests(u, Front(moves)) + Asks(Run(u, moves))
  }

  function AddReply(rs: seq<Reply>, move: Move): (r: seq<Reply>)
  {
    if move.Got? then rs + [move.reply] else rs
  }

  function AddBytes(bs: Bytes, move: Move): (r: Bytes)
  {
    if move.ReadBytes? then bs + move.bytes else bs
  }

  function Replies(moves: seq<Move>): (r: seq<Reply>)
  {
    if moves == [] then [] else AddReply(Replies(Front(moves)), Last(moves))
  }

  function BytesRead(moves: seq<Move>): (r: Bytes)
  {
    if moves == [] then [] else AddBytes(BytesRead(Front(moves)), Last(moves))
  }

  /** The bytes read are a prefix of the stream, and an empty read comes only at its end. */
  predicate ReadsOk(moves: seq<Move>, stream: Bytes)
  {
    moves == [] || (ReadsOk(Front(moves), stream)
                    && ReadOk(BytesRead(Front(moves)), Last(moves), stream))
  }

  predicate ReadOk(before: Bytes, move: Move, stream: Bytes)
  {
    move.ReadBytes? ==> before + move.bytes <= stream && (move.bytes == [] ==> before == stream)
  }

  lemma AppendMove(u: Uploader, moves: seq<Move>, move: Move)
    requires Legal(u, moves) && CanMove(Run(u, moves), move)
    ensures Legal(u, moves + [move]) && Run(u, moves + [move]) == Advance(Run(u, moves), move)
    ensures Requests(u, moves + [move]) == Requests(u, moves) + Asks(Run(u, moves + [move]))
    ensures BytesRead(moves + [move]) == AddBytes(BytesRead(moves), move)
    ensures Replies(moves + [move]) == AddReply(Replies(moves), move)
    ensures forall stream ::
              ReadsOk(moves + [move], stream)
              <==> ReadsOk(moves, stream) && ReadOk(BytesRead(moves), move, stream)
  {
    FrontLast(moves, move);
  }

  /** The server issues URLs for the numbers asked for. */
  predicate IssuedOk(u: Uploader, moves: seq<Move>)
    requires Legal(u, moves)
  {
    moves == [] || (IssuedOk(u, Front(moves)) && Issued(Run(u, Front(moves)), Last(moves)))
  }

  predicate Issued(u: Uploader, move: Move)
  {
    move.Got? && move.reply.Urls? && !move.reply.urls.Refused? ==>
      var answer := move.reply.urls.value;
      IssuedFor(answer.0, u.uploadId, PartNumbers(u.partNumber, 4), answer.1)
  }
}
