/** The receiving half of the protocol: an incremental decoder over a fixed buffer. */
module Receiving {
  import opened ByteStrings
  import opened Readers
  import opened Wire

  class Receiver {
    const codec: Codec
    var isDone: bool
    const buf: array<byte>
    var start: nat
    var end: nat
    const source: ByteSource
    /** The bytes of the buffer still to be handled. */
    ghost var unhandled: Bytes

    ghost predicate Valid()
      reads this, buf
    {
      && buf.Length == BUFFER_SIZE
      && start <= end <= BUFFER_SIZE
      && buf[start..end] == unhandled
    }

    /** The bytes not yet decoded: those buffered and those still to be read. */
    ghost function Unread(): (bs: Bytes)
      reads this, source
    {
      unhandled + source.rest
    }

    /** What repeated polling will still produce. */
    ghost function Outlook(): (items: seq<Item>)
      reads this, source
    {
      if isDone then [] else Decode(codec, Unread(), source.fails)
    }

    constructor (codec: Codec, source: ByteSource)
      ensures Valid() && !isDone && this.codec == codec && this.source == source && fresh(buf)
      ensures Unread() == source.rest
    {
      this.codec, this.source := codec, source;
      isDone, start, end, unhandled := false, 0, 0, [];
      buf := new byte[BUFFER_SIZE](_ => 0);
    }

    /** Moves the unhandled bytes to the front of the buffer. */
    method Compact()
      requires Valid()
      modifies this`start, this`end, buf
      ensures Valid() && start == 0
    {
      var len := end - start;
      forall i | 0 <= i < len {
        buf[i] := buf[start + i];
      }
      start, end := 0, len;
    }

    /** Reads once behind the unhandled bytes, which are at the front of the buffer. */
    method ReadMore() returns (r: Poll<ReadResult>)
      requires Valid() && start == 0
      modifies this`end, this`unhandled, buf, source`rest, source`pace
      ensures Valid() && Unread() == old(Unread()) && |source.pace| <= |old(source.pace)|
      ensures r.Pending? ==> |source.pace| < |old(source.pace)|
      ensures r.Ready? && r.value.Read? ==> |unhandled| == |old(unhandled)| + r.value.n
      ensures r == Ready(Read(0)) ==>
                unhandled == old(unhandled)
                && (|unhandled| == BUFFER_SIZE || (source.rest == [] && !source.fails))
      ensures r == Ready(ReadError) ==>
                unhandled == old(unhandled)
                && |unhandled| < BUFFER_SIZE && source.rest == [] && source.fails
    {
      ghost var kept := buf[..end];
      assert kept == unhandled;
      r := source.PollRead(buf, end);
      assert buf[..end] == kept;
      assert buf[start..end] == kept;
      if r.Ready? && r.value.Read? {
        ghost var chunk := buf[end..end + r.value.n];
        Associate(unhandled, chunk, source.rest);
        Extend(r.value.n);
      }
    }

    /** Compacts the buffer and reads once into its free part. */
    method Fill() returns (r: Poll<ReadResult>)
      requires Valid()
      modifies this`start, this`end, this`unhandled, buf, source`rest, source`pace
      ensures Valid() && Unread() == old(Unread()) && |source.pace| <= |old(source.pace)|
      ensures |unhandled| <= BUFFER_SIZE
      ensures r.Pending? ==> |source.pace| < |old(source.pace)|
      ensures r.Ready? && r.value.Read? && r.value.n > 0 ==> |unhandled| > |old(unhandled)|
      ensures r == Ready(Read(0)) ==>
                unhandled == old(unhandled)
                && (|unhandled| == BUFFER_SIZE || (source.rest == [] && !source.fails))
      ensures r == Ready(ReadError) ==>
                unhandled == old(unhandled)
                && |unhandled| < BUFFER_SIZE && source.rest == [] && source.fails
    {
      Compact();
      r := ReadMore();
    }

    /** Counts bytes that were read behind the unhandled ones as unhandled. */
    method Extend(n: nat)
      requires Valid() && end + n <= BUFFER_SIZE
      modifies this`end, this`unhandled
      ensures Valid() && unhandled == old(unhandled) + buf[old(end)..old(end) + n]
    {
      assert buf[start..end + n] == buf[start..end] + buf[end..end + n];
      unhandled := unhandled + buf[end..end + n];
      end := end + n;
    }

    /** The retry loop: decodes the next item of the undecoded bytes, reading more while the buffer
        holds no whole frame.  Every retry shrinks the free part of the buffer. */
    method Advance() returns (r: Poll<Option<Item>>)
      requires Valid()
      modifies this`start, this`end, this`unhandled, buf, source`rest, source`pace
      ensures Valid() && |source.pace| <= |old(source.pace)|
      ensures r.Pending? ==> Unread() == old(Unread()) && |source.pace| < |old(source.pace)|
      ensures r.Ready? ==>
                Next(codec, old(Unread()), source.fails)
                == (if r.value.None? then End else Got(r.value.value, Unread()))
      ensures r == Ready(None) ==> Unread() == old(Unread())
    {
      ghost var unread := Unread();
      while true
        invariant Valid() && Unread() == unread
        invariant |source.pace| <= |old(source.pace)|
        decreases BUFFER_SIZE - |unhandled|
      {
        var bytes := buf[start..end];
        if bytes != [] && bytes[0] == STOP_SENTINEL {
          return Ready(Some(Ok(StopDaemon)));
        }
        var separator := Find(PATH_SEPARATOR, bytes);
        if separator.Some? {
          FrameInWindow(bytes, source.rest, separator.value);
          assert buf[start + separator.value + 1..end] == bytes[separator.value + 1..];
          start := start + separator.value + 1;
          unhandled := bytes[separator.value + 1..];
          DropPrefix(bytes, source.rest, separator.value + 1);
          return Ready(Some(ParseFrame(codec, bytes[..separator.value])));
        }
        var polled := Fill();
        if polled.Pending? {
          return Pending;
        }
        if polled.value.ReadError? {
          NoFrameInWindow(codec, bytes, source.rest, true);
          return Ready(Some(Err(Io(ReaderFailed))));
        }
        if polled.value.n == 0 {
          NoFrameInWindow(codec, bytes, source.rest, source.fails);
          return Ready(None);
        }
      }
    }

    /** One poll.  Whatever the chunking, an item is the next item of the simple decoder, the stream
        ends where the simple decoder does, a poll that is not ready loses nothing, and after a stop
        or an error the stream stays ended. */
    method PollNext() returns (r: Poll<Option<Item>>)
      requires Valid()
      modifies this`isDone, this`start, this`end, this`unhandled, buf, source`rest, source`pace
      ensures Valid() && |source.pace| <= |old(source.pace)|
      ensures r.Pending? ==> Outlook() == old(Outlook()) && |source.pace| < |old(source.pace)|
      ensures r == Ready(None) ==> Outlook() == old(Outlook()) == []
      ensures r.Ready? && r.value.Some? ==> old(Outlook()) == [r.value.value] + Outlook()
      ensures isDone == (old(isDone) || (r.Ready? && r.value.Some? && Terminal(r.value.value)))
    {
      if isDone {
        return Ready(None);
      }
      r := Advance();
      if r.Ready? && r.value.Some? {
        isDone := Terminal(r.value.value);
      }
    }

    /** `next().await`: polls until the stream is ready. */
    method AwaitNext() returns (r: Option<Item>)
      requires Valid()
      modifies this`isDone, this`start, this`end, this`unhandled, buf, source`rest, source`pace
      ensures Valid()
      ensures r.None? ==> Outlook() == old(Outlook()) == []
      ensures r.Some? ==> old(Outlook()) == [r.value] + Outlook()
      ensures r.Some? && Terminal(r.value) ==> Outlook() == []
    {
      while true
        invariant Valid() && Outlook() == old(Outlook())
        decreases |source.pace|
      {
        var polled := PollNext();
        if polled.Ready? {
          return polled.value;
        }
      }
    }
  }

  /** A full buffer, or an exhausted reader, without a separator: there is no frame to come. */
  lemma NoFrameInWindow(c: Codec, bytes: Bytes, rest: Bytes, fails: bool)
    requires PATH_SEPARATOR !in bytes && (bytes != [] ==> bytes[0] != STOP_SENTINEL)
    requires |bytes| <= BUFFER_SIZE && (|bytes| == BUFFER_SIZE || rest == [])
    ensures Next(c, bytes + rest, fails)
         == if fails && |bytes| < BUFFER_SIZE then Got(Err(Io(ReaderFailed)), bytes + rest) else End
  {
    var unread := bytes + rest;
    assert unread[..Min(|unread|, BUFFER_SIZE)] == bytes;
  }

  /** A separator found among the buffered bytes is the one a look at the whole stream finds. */
  lemma FrameInWindow(bytes: Bytes, rest: Bytes, i: nat)
    requires |bytes| <= BUFFER_SIZE && Find(PATH_SEPARATOR, bytes) == Some(i)
    ensures var unread := bytes + rest;
            && Find(PATH_SEPARATOR, unread[..Min(|unread|, BUFFER_SIZE)]) == Some(i)
            && unread[..i] == bytes[..i]
  {
    var unread := bytes + rest;
    var window := unread[..Min(|unread|, BUFFER_SIZE)];
    assert window[..i] == bytes[..i];
    FindUnique(PATH_SEPARATOR, window, i);
  }
}
