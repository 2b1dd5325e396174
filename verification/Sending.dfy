/** The sending half of the protocol: messages are buffered, then written out by drains that may be
    short, not ready, or failing. */
module Sending {
  import opened ByteStrings
  import opened Wire

  /** How a writer behaves at one poll. */
  datatype WriterMood = Stall | Accept(n: pos) | AcceptNothing | Refuse

  datatype WriteError = WriteZero | WriterFailed

  /** A writer that may be slow and take as little as a byte at a time, but never fails and never
      takes nothing. */
  predicate Willing(moods: seq<WriterMood>)
  {
    forall mood :: mood in moods ==> !mood.Refuse? && !mood.AcceptNothing?
  }

  /** The moods left after one poll. */
  function Later(moods: seq<WriterMood>): (r: seq<WriterMood>)
  {
    if moods == [] then [] else moods[1..]
  }

  /** What a writer in these moods answers to a write of `len` bytes. */
  function WriteAnswer(moods: seq<WriterMood>, len: nat): Poll<Result<nat, WriteError>>
  {
    if moods == [] then Ready(Ok(len))
    else
      match moods[0]
      case Stall => Pending
      case Accept(n) => Ready(Ok(Min(n, len)))
      case AcceptNothing => Ready(Ok(0))
      case Refuse => Ready(Err(WriterFailed))
  }

  /** The moods met in a series of polls: the last one made the difference, those before all accepted
      something. */
  predicate Met(before: seq<WriterMood>, after: seq<WriterMood>)
  {
    && |after| <= |before|
    && var n := |before| - |after|;
    && after == before[n..]
    && forall i :: 0 <= i < n - 1 ==> before[i].Accept?
  }

  /** The last mood met, if any was. */
  function Decisive(before: seq<WriterMood>, after: seq<WriterMood>): (m: Option<WriterMood>)
  {
    if |after| < |before| then Some(before[|before| - |after| - 1]) else None
  }

  /** All moods met so far accepted something. */
  predicate OnlyAccepted(before: seq<WriterMood>, after: seq<WriterMood>)
  {
    Met(before, after) && (|after| < |before| ==> Decisive(before, after).value.Accept?)
  }

  lemma MeetOne(before: seq<WriterMood>, mid: seq<WriterMood>, after: seq<WriterMood>)
    requires OnlyAccepted(before, mid) && after == Later(mid)
    ensures Met(before, after)
    ensures mid != [] ==> Decisive(before, after) == Some(mid[0])
    ensures mid == [] || mid[0].Accept? ==> OnlyAccepted(before, after)
  {
    var n := |before| - |mid|;
    if mid != [] {
      assert mid[0] == before[n];
      forall i | 0 <= i < n
        ensures before[i].Accept?
      {
        assert i == n - 1 ==> Decisive(before, mid) == Some(before[i]);
      }
    }
  }

  /** What one write of the drain makes of the writer's answer. */
  function SomeAnswer(moods: seq<WriterMood>, len: nat): Poll<Result<(), WriteError>>
  {
    match WriteAnswer(moods, len)
    case Pending => Pending
    case Ready(Err(error)) => Ready(Err(error))
    case Ready(Ok(n)) => if n == 0 then Ready(Err(WriteZero)) else Ready(Ok(()))
  }

  predicate FailsWith<T>(r: Poll<Result<T, WriteError>>, error: WriteError)
  {
    r.Ready? && r.value.Err? && r.value.error == error
  }

  /** The answer follows from the moods met: not ready exactly if the writer was not, an error exactly if
      it refused or took nothing. */
  predicate Explains(before: seq<WriterMood>, after: seq<WriterMood>, r: Poll<Result<(), WriteError>>)
  {
    && Met(before, after)
    && var mood := Decisive(before, after);
    && (r.Pending? <==> mood == Some(Stall))
    && (FailsWith(r, WriterFailed) <==> mood == Some(Refuse))
    && (FailsWith(r, WriteZero) <==> mood == Some(AcceptNothing))
  }

  lemma AcceptedExplains(before: seq<WriterMood>, after: seq<WriterMood>,
      r: Poll<Result<(), WriteError>>)
    requires OnlyAccepted(before, after) && r.Ready? && r.value.Ok?
    ensures Explains(before, after, r)
  {
  }

  lemma PollExplains(before: seq<WriterMood>, mid: seq<WriterMood>, after: seq<WriterMood>, len: nat)
    requires len > 0 && OnlyAccepted(before, mid) && after == Later(mid)
    ensures Explains(before, after, SomeAnswer(mid, len))
    ensures SomeAnswer(mid, len).Ready? && SomeAnswer(mid, len).value.Ok? ==> OnlyAccepted(before, after)
  {
    MeetOne(before, mid, after);
  }

  lemma MetWilling(before: seq<WriterMood>, after: seq<WriterMood>, r: Poll<Result<(), WriteError>>)
    requires Explains(before, after, r) && Willing(before)
    ensures Willing(after) && (r.Ready? ==> r.value.Ok?)
  {
    var n := |before| - |after|;
    assert n > 0 ==> before[n - 1] in before;
  }

  /** A writer that keeps the bytes it accepted.  Once `moods` is used up it accepts everything. */
  class ByteSink {
    var accepted: Bytes
    var moods: seq<WriterMood>
    var closed: bool

    constructor (moods: seq<WriterMood>)
      ensures accepted == [] && this.moods == moods && !closed
    {
      accepted, this.moods, closed := [], moods, false;
    }

    method PollWrite(data: Bytes) returns (r: Poll<Result<nat, WriteError>>)
      modifies this`accepted, this`moods
      ensures r == WriteAnswer(old(moods), |data|)
      ensures moods == Later(old(moods))
      ensures r.Ready? && r.value.Ok? ==>
                r.value.value <= |data| && accepted == old(accepted) + data[..r.value.value]
      ensures r.Pending? || r.value.Err? ==> accepted == old(accepted)
      ensures |moods| <= |old(moods)|
      ensures r.Pending? || r.value.Err? || (r.value.value == 0 && data != []) ==>
                |moods| < |old(moods)|
      ensures Willing(old(moods)) ==>
                Willing(moods)
                && (r.Ready? ==> r.value.Ok? && (data != [] ==> r.value.value > 0))
    {
      var n := |data|;
      if moods != [] {
        var mood := moods[0];
        assert mood in moods;
        moods := moods[1..];
        match mood {
          case Stall => return Pending;
          case Refuse => return Ready(Err(WriterFailed));
          case AcceptNothing => n := 0;
          case Accept(m) => n := Min(n, m);
        }
      }
      accepted := accepted + data[..n];
      return Ready(Ok(n));
    }

    /** A flush, or with `close` a close, of the writer itself. */
    method PollFinish(close: bool) returns (r: Poll<Result<(), WriteError>>)
      modifies this`moods, this`closed
      ensures |moods| <= |old(moods)|
      ensures r.Pending? || r.value.Err? ==> |moods| < |old(moods)|
      ensures moods == Later(old(moods))
      ensures r.Pending? <==> old(moods) != [] && old(moods)[0].Stall?
      ensures r.Ready? ==>
                r.value == (if old(moods) != [] && old(moods)[0].Refuse? then Err(WriterFailed)
                            else Ok(()))
      ensures closed == (old(closed) || (close && r.Ready? && r.value.Ok?))
      ensures Willing(old(moods)) ==> Willing(moods) && (r.Ready? ==> r.value.Ok?)
    {
      if moods != [] {
        var mood := moods[0];
        assert mood in moods;
        moods := moods[1..];
        match mood {
          case Stall => return Pending;
          case Refuse => return Ready(Err(WriterFailed));
          case _ =>
        }
      }
      closed := closed || close;
      return Ready(Ok(()));
    }
  }

  /** Accepting the next `n` bytes of the buffer moves them, and loses or repeats none. */
  lemma MoveAccepted(accepted: Bytes, buf: Bytes, numWritten: nat, n: nat)
    requires numWritten + n <= |buf|
    ensures accepted + buf[numWritten..]
         == (accepted + buf[numWritten..][..n]) + buf[numWritten + n..]
  {
  }

  class Sender {
    const codec: Codec
    var buf: Bytes
    var numWritten: nat
    const writer: ByteSink
    /** The messages handed to `StartSend` so far. */
    ghost var sent: seq<Message>

    /** Exactly-once delivery: the accepted bytes followed by the unwritten part of the buffer are
        the encodings of all messages sent so far, each once and in order. */
    ghost predicate Valid()
      reads this, writer
    {
      && numWritten <= |buf|
      && writer.accepted + buf[numWritten..] == EncodeAll(codec, sent)
    }

    constructor (codec: Codec, writer: ByteSink)
      requires writer.accepted == []
      ensures Valid() && sent == [] && this.codec == codec && this.writer == writer
    {
      this.codec, this.writer := codec, writer;
      buf, numWritten, sent := [], 0, [];
    }

    method StartSend(message: Message)
      requires Valid()
      modifies this`buf, this`sent
      ensures Valid() && sent == old(sent) + [message]
      ensures buf == old(buf) + Encode(codec, message)
    {
      EncodeAllAppend(codec, sent, message);
      match message {
        case PushStorePath(path) =>
          buf := buf + codec.show(path);
          buf := buf + [PATH_SEPARATOR];
        case StopDaemon =>
          buf := buf + [STOP_SENTINEL];
      }
      sent := sent + [message];
      assert old(buf)[numWritten..] + Encode(codec, message) == buf[numWritten..];
    }

    /** Writes out the buffer.  Whether it succeeds, fails or is not ready, no byte is lost or
        written twice, and on success everything sent has been accepted.  It is not ready exactly if
        the writer was not, and fails exactly if the writer failed or took nothing. */
    method DrainBuf() returns (r: Poll<Result<(), WriteError>>)
      requires Valid()
      modifies this`buf, this`numWritten, writer`accepted, writer`moods
      ensures Valid() && |writer.moods| <= |old(writer.moods)|
      ensures r.Pending? || r.value.Err? ==> |writer.moods| < |old(writer.moods)|
      ensures r.Ready? && r.value.Ok? ==> buf == [] && writer.accepted == EncodeAll(codec, sent)
      ensures Explains(old(writer.moods), writer.moods, r)
      ensures Willing(old(writer.moods)) ==>
                Willing(writer.moods) && (r.Ready? ==> r.value.Ok?)
    {
      r := Ready(Ok(()));
      while numWritten < |buf|
        invariant Valid() && r.Ready? && r.value.Ok?
        invariant OnlyAccepted(old(writer.moods), writer.moods)
        invariant Willing(old(writer.moods)) ==> Willing(writer.moods)
        decreases |buf| - numWritten
      {
        ghost var moods, len := writer.moods, |buf| - numWritten;
        r := WriteSome();
        PollExplains(old(writer.moods), moods, writer.moods, len);
        if Willing(old(writer.moods)) {
          MetWilling(old(writer.moods), writer.moods, r);
        }
        if r.Pending? || r.value.Err? {
          return;
        }
      }
      AcceptedExplains(old(writer.moods), writer.moods, r);
      ClearBuf();
    }

    method ClearBuf()
      requires Valid() && numWritten == |buf|
      modifies this`buf, this`numWritten
      ensures Valid() && buf == [] && writer.accepted == EncodeAll(codec, sent)
    {
      assert buf[numWritten..] == [] && writer.accepted + [] == writer.accepted;
      buf := [];
      numWritten := 0;
    }

    /** One write of the drain. */
    method WriteSome() returns (r: Poll<Result<(), WriteError>>)
      requires Valid() && numWritten < |buf|
      modifies this`numWritten, writer`accepted, writer`moods
      ensures Valid()
      ensures writer.moods == Later(old(writer.moods))
      ensures r == SomeAnswer(old(writer.moods), |buf| - old(numWritten))
      ensures if r.Ready? && r.value.Ok? then numWritten > old(numWritten)
              else numWritten == old(numWritten)
    {
      ghost var accepted := writer.accepted;
      var polled := writer.PollWrite(buf[numWritten..]);
      if polled.Pending? {
        return Pending;
      }
      if polled.value.Err? {
        return Ready(Err(polled.value.error));
      }
      var n := polled.value.value;
      if n == 0 {
        return Ready(Err(WriteZero));
      }
      MoveAccepted(accepted, buf, numWritten, n);
      numWritten := numWritten + n;
      return Ready(Ok(()));
    }

    /** `poll_flush`, and with `close` `poll_close`: drain, then flush or close the writer. */
    method PollFinish(close: bool) returns (r: Poll<Result<(), WriteError>>)
      requires Valid()
      modifies this`buf, this`numWritten, writer
      ensures Valid() && |writer.moods| <= |old(writer.moods)|
      ensures r.Pending? || r.value.Err? ==> |writer.moods| < |old(writer.moods)|
      ensures r.Ready? && r.value.Ok? ==>
                buf == [] && writer.accepted == EncodeAll(codec, sent) && (close ==> writer.closed)
      ensures Met(old(writer.moods), writer.moods)
      ensures var mood := Decisive(old(writer.moods), writer.moods);
              && (r.Pending? <==> mood == Some(Stall))
              && (FailsWith(r, WriterFailed) <==> mood == Some(Refuse))
              && (FailsWith(r, WriteZero) ==> mood == Some(AcceptNothing))
      ensures Willing(old(writer.moods)) ==>
                Willing(writer.moods) && (r.Ready? ==> r.value.Ok?)
    {
      r := DrainBuf();
      if r.Ready? && r.value.Ok? {
        ghost var moods := writer.moods;
        r := writer.PollFinish(close);
        MeetOne(old(writer.moods), moods, writer.moods);
      }
    }

    /** `close().await`: polls until the close is ready. */
    method Close() returns (r: Result<(), WriteError>)
      requires Valid()
      modifies this`buf, this`numWritten, writer
      ensures Valid() && |writer.moods| <= |old(writer.moods)|
      ensures r.Err? ==> |writer.moods| < |old(writer.moods)|
      ensures r.Ok? ==> writer.accepted == EncodeAll(codec, sent) && writer.closed
      ensures Willing(old(writer.moods)) ==> r.Ok?
    {
      while true
        invariant Valid() && |writer.moods| <= |old(writer.moods)|
        invariant Willing(old(writer.moods)) ==> Willing(writer.moods)
        decreases |writer.moods|
      {
        var polled := PollFinish(true);
        if polled.Ready? {
          return polled.value;
        }
      }
    }
  }
}
