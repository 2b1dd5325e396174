/** Two adapters around byte streams: the future that fills a buffer, and the writer that hashes and
    counts what it passes on. */
module StreamAdapters {
  import opened ByteStrings
  import opened Readers
  import Sending

  /** The future returned by `try_fill`: it reads until the buffer is full or the reader is at its
      end, and keeps its place across polls that are not ready. */
  class TryFill {
    const reader: ByteSource
    const buf: array<byte>
    var numRead: nat
    /** What the reader had to deliver when the future was created. */
    ghost const stream: Bytes

    ghost predicate Valid()
      reads this, buf, reader
    {
      numRead <= buf.Length && buf[..numRead] + reader.rest == stream
    }

    constructor (reader: ByteSource, buf: array<byte>)
      ensures Valid() && this.reader == reader && this.buf == buf && numRead == 0
      ensures stream == reader.rest
    {
      this.reader, this.buf, this.numRead, this.stream := reader, buf, 0, reader.rest;
    }

    /** Ready with fewer bytes than the buffer holds only at the end of the stream: this is the
        test for the last part.  A failing reader makes it fail unless the buffer fills first. */
    method Poll() returns (r: Poll<Result<nat, ()>>)
      requires Valid()
      modifies this`numRead, buf, reader`rest, reader`pace
      ensures Valid() && |reader.pace| <= |old(reader.pace)|
      ensures r.Pending? ==> |reader.pace| < |old(reader.pace)|
      ensures r.Ready? && r.value.Ok? ==>
                var n := r.value.value;
                && n == numRead == Min(buf.Length, |stream|)
                && buf[..n] == stream[..n] && reader.rest == stream[n..]
                && (n < buf.Length ==> reader.rest == [] && !reader.fails)
      ensures r.Ready? && r.value.Err? ==>
                reader.fails && numRead == |stream| < buf.Length && reader.rest == []
    {
      while numRead < buf.Length
        invariant Valid() && |reader.pace| <= |old(reader.pace)|
        decreases buf.Length - numRead
      {
        ghost var front := buf[..numRead];
        var polled := reader.PollRead(buf, numRead);
        assert buf[..numRead] == front;
        if polled.Pending? {
          return Pending;
        }
        if polled.value.ReadError? {
          return Ready(Err(()));
        }
        var n := polled.value.n;
        assert buf[..numRead + n] == buf[..numRead] + buf[numRead..numRead + n];
        Associate(buf[..numRead], buf[numRead..numRead + n], reader.rest);
        if n == 0 {
          break;
        }
        numRead := numRead + n;
      }
      SplitAt(buf[..numRead], reader.rest);
      return Ready(Ok(numRead));
    }

    /** `try_fill(..).await`. */
    method Await() returns (r: Result<nat, ()>)
      requires Valid()
      modifies this`numRead, buf, reader`rest, reader`pace
      ensures Valid()
      ensures r.Ok? ==>
                && r.value == numRead == Min(buf.Length, |stream|)
                && buf[..r.value] == stream[..r.value] && reader.rest == stream[r.value..]
                && (r.value < buf.Length ==> reader.rest == [] && !reader.fails)
      ensures r.Err? ==>
                reader.fails && numRead == |stream| < buf.Length && reader.rest == []
    {
      while true
        invariant Valid()
        decreases |reader.pace|
      {
        var polled := Poll();
        if polled.Ready? {
          return polled.value;
        }
      }
    }
  }

  lemma SplitAt<T>(xs: seq<T>, ys: seq<T>)
    ensures (xs + ys)[..|xs|] == xs && (xs + ys)[|xs|..] == ys
  {
  }

  /** The writer between the NAR serializer and the pipe.  The hash state is the bytes fed to it. */
  class HashAndCountWriter {
    const inner: Sending.ByteSink
    var hashed: Bytes
    var numBytesWritten: nat

    /** It has hashed and counted exactly what the inner writer accepted. */
    ghost predicate Valid()
      reads this, inner
    {
      hashed == inner.accepted && numBytesWritten == |inner.accepted| % U64
    }

    constructor (inner: Sending.ByteSink)
      requires inner.accepted == []
      ensures Valid() && this.inner == inner
    {
      this.inner, this.hashed, this.numBytesWritten := inner, [], 0;
    }

    /** Answers what the inner writer answers.  Only the accepted prefix of the slice is hashed and
        counted, and nothing on a poll that is not ready or fails. */
    method PollWrite(buf: Bytes) returns (r: Poll<Result<nat, Sending.WriteError>>)
      requires Valid()
      modifies this`hashed, this`numBytesWritten, inner`accepted, inner`moods
      ensures Valid()
      ensures r == Sending.WriteAnswer(old(inner.moods), |buf|)
      ensures hashed == old(hashed)
                        + (if r.Ready? && r.value.Ok? then buf[..Min(r.value.value, |buf|)] else [])
    {
      r := inner.PollWrite(buf);
      if r.Ready? && r.value.Ok? {
        var n := r.value.value;
        hashed := hashed + buf[..n];
        Wrap64(|old(hashed)|, n);
        numBytesWritten := (numBytesWritten + n) % U64;
      }
    }
  }
}
