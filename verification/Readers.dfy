/** Readers that deliver their bytes in pieces, are sometimes not ready, and may fail. */
module Readers {
  import opened ByteStrings

  /** How a reader behaves at one poll: not ready, or at most `n` bytes at a time. */
  datatype Pace = Stall | UpTo(n: pos)

  datatype ReadResult = Read(n: nat) | ReadError

  /** A reader that will deliver `rest` and then fail or reach end of file.  `pace` fixes where it
      is not ready and how it splits the bytes; once it is used up, reads are as large as they can
      be.  A read into an empty slice reads nothing. */
  class ByteSource {
    var rest: Bytes
    const fails: bool
    var pace: seq<Pace>

    constructor (bytes: Bytes, fails: bool, pace: seq<Pace>)
      ensures this.rest == bytes && this.fails == fails && this.pace == pace
    {
      this.rest, this.fails, this.pace := bytes, fails, pace;
    }

    method PollRead(buf: array<byte>, from: nat) returns (r: Poll<ReadResult>)
      requires from <= buf.Length
      modifies this`rest, this`pace, buf
      ensures buf[..from] == old(buf[..from])
      ensures r.Pending? ==> |pace| < |old(pace)| && rest == old(rest) && buf[..] == old(buf[..])
      ensures r == Ready(ReadError) ==>
                fails && old(rest) == [] && from < buf.Length && rest == [] && buf[..] == old(buf[..])
      ensures r.Ready? && r.value.Read? ==>
                var n := r.value.n;
                && from + n <= buf.Length && n <= |old(rest)|
                && old(rest) == buf[from..from + n] + rest
                && (n == 0 <==> from == buf.Length || (old(rest) == [] && !fails))
      ensures |pace| <= |old(pace)|
    {
      var limit := buf.Length - from;
      if limit == 0 {
        return Ready(Read(0));
      }
      if pace != [] {
        if pace[0].Stall? {
          pace := pace[1..];
          return Pending;
        }
        limit := Min(limit, pace[0].n);
        pace := pace[1..];
      }
      if rest == [] && fails {
        return Ready(ReadError);
      }
      var n := Min(limit, |rest|);
      forall i | 0 <= i < n {
        buf[from + i] := rest[i];
      }
      assert buf[from..from + n] == rest[..n];
      rest := rest[n..];
      return Ready(Read(n));
    }
  }
}
