/** The wire format spoken on the daemon's socket: messages, their encoding, and a decoder that
    works on a whole byte string at once.  The incremental receiver is proved against it. */
module Wire {
  import opened ByteStrings

  const PATH_SEPARATOR: byte := 10

  const STOP_SENTINEL: byte := 0

  /** The size of the receiver's buffer, hence the longest frame it can see, separator included. */
  const BUFFER_SIZE: nat := 1024

  datatype StoreDir = NixStore | Other(dir: Bytes)

  datatype StorePath = StorePath(dir: StoreDir, hash: Bytes, name: Bytes)

  datatype Message = PushStorePath(path: StorePath) | StopDaemon

  datatype IoErrorKind = ReaderFailed | InvalidData

  datatype ReceiveError = Io(kind: IoErrorKind) | InvalidStorePath

  type Item = Result<Message, ReceiveError>

  /** Printing and parsing of store paths and the UTF-8 check belong to other crates. */
  datatype Codec = Codec(
    show: StorePath -> Bytes,
    isUtf8: Bytes -> bool,
    parse: Bytes -> Option<StorePath>)

  function Encode(c: Codec, m: Message): (bs: Bytes)
    ensures bs != []
  {
    match m
    case PushStorePath(path) => c.show(path) + [PATH_SEPARATOR]
    case StopDaemon => [STOP_SENTINEL]
  }

  function EncodeAll(c: Codec, ms: seq<Message>): (bs: Bytes)
  {
    if ms == [] then [] else Encode(c, ms[0]) + EncodeAll(c, ms[1..])
  }

  lemma {:induction false} EncodeAllAppend(c: Codec, ms: seq<Message>, m: Message)
    ensures EncodeAll(c, ms + [m]) == EncodeAll(c, ms) + Encode(c, m)
  {
    if ms == [] {
      assert EncodeAll(c, [m]) == Encode(c, m) + EncodeAll(c, []);
    } else {
      assert (ms + [m])[1..] == ms[1..] + [m];
      EncodeAllAppend(c, ms[1..], m);
    }
  }

  function ParseFrame(c: Codec, frame: Bytes): (item: Item)
  {
    if !c.isUtf8(frame) then Err(Io(InvalidData))
    else
      match c.parse(frame)
      case Some(path) => Ok(PushStorePath(path))
      case None => Err(InvalidStorePath)
  }

  /** Items after which the stream is over. */
  predicate Terminal(item: Item)
  {
    item.Err? || item.value.StopDaemon?
  }

  datatype Advance = End | Got(item: Item, rest: Bytes)

  /** The next item of a stream that will deliver `bs` and then fail or reach end of file.
      A frame whose separator is not among its first 1024 bytes ends the stream silently. */
  function Next(c: Codec, bs: Bytes, fails: bool): (a: Advance)
    ensures a.Got? && !Terminal(a.item) ==> |a.rest| < |bs|
  {
    if bs != [] && bs[0] == STOP_SENTINEL then Got(Ok(StopDaemon), bs)
    else
      match Find(PATH_SEPARATOR, bs[..Min(|bs|, BUFFER_SIZE)])
      case Some(i) => Got(ParseFrame(c, bs[..i]), bs[i + 1..])
      case None =>
        if fails && |bs| < BUFFER_SIZE then Got(Err(Io(ReaderFailed)), bs) else End
  }

  /** Everything such a stream decodes to. */
  function Decode(c: Codec, bs: Bytes, fails: bool): (items: seq<Item>)
    decreases |bs|
  {
    match Next(c, bs, fails)
    case End => []
    case Got(item, rest) => [item] + if Terminal(item) then [] else Decode(c, rest, fails)
  }

  /** Pushes, followed by at most one stop or error. */
  predicate PushesUpToLast(items: seq<Item>)
  {
    forall i :: 0 <= i < |items| - 1 ==> items[i].Ok? && items[i].value.PushStorePath?
  }

  /** Only the last item of a stream can be a stop or an error: those before are pushes. */
  lemma {:induction false} DecodeShape(c: Codec, bs: Bytes, fails: bool)
    ensures PushesUpToLast(Decode(c, bs, fails))
    decreases |bs|
  {
    var a := Next(c, bs, fails);
    if a.Got? && !Terminal(a.item) {
      DecodeShape(c, a.rest, fails);
      assert Decode(c, bs, fails) == [a.item] + Decode(c, a.rest, fails);
    }
  }

  // --- What a stream means ----------------------------------------------------------------

  /** A stream whose next byte is 0 is a stop, and nothing after it. */
  lemma StopEndsStream(c: Codec, suffix: Bytes, fails: bool)
    ensures Decode(c, [0] + suffix, fails) == [Ok(StopDaemon)]
  {
  }

  /** A frame: some text of at most 1023 bytes, without newlines and not starting with a 0, and a
      newline.  Text that is not UTF-8, or is no store path, is an error and ends the stream;
      otherwise it is a push, and the stream goes on after the newline. */
  lemma FrameDecides(c: Codec, text: Bytes, suffix: Bytes, fails: bool)
    requires 10 !in text && |text| < 1024 && (text != [] ==> text[0] != 0)
    ensures Decode(c, text + [10] + suffix, fails)
         == if !c.isUtf8(text) then [Err(Io(InvalidData))]
            else
              match c.parse(text)
              case None => [Err(InvalidStorePath)]
              case Some(path) => [Ok(PushStorePath(path))] + Decode(c, suffix, fails)
  {
    var bs := text + [10] + suffix;
    var window := bs[..Min(|bs|, BUFFER_SIZE)];
    assert window[..|text|] == text;
    FindUnique(PATH_SEPARATOR, window, |text|);
    assert bs[..|text|] == text;
    assert bs[|text| + 1..] == suffix;
  }

  /** Without a 0 in front and a newline among the first 1024 bytes there is no more to come: the
      failure of the reader if it shows before the buffer is full, else nothing at all. */
  lemma NoFrameEndsStream(c: Codec, bs: Bytes, fails: bool)
    requires 10 !in bs[..Min(|bs|, 1024)] && (bs != [] ==> bs[0] != 0)
    ensures Decode(c, bs, fails)
         == if fails && |bs| < 1024 then [Err(Io(ReaderFailed))] else []
  {
  }

  /** A push ends at a newline, and the stream goes on behind it. */
  lemma PushEndsAtSeparator(c: Codec, bs: Bytes, fails: bool) returns (n: nat)
    requires Decode(c, bs, fails) != [] && !Terminal(Decode(c, bs, fails)[0])
    ensures n < |bs| && bs[n] == 10
    ensures Decode(c, bs, fails) == [Decode(c, bs, fails)[0]] + Decode(c, bs[n + 1..], fails)
  {
    n := Find(PATH_SEPARATOR, bs[..Min(|bs|, BUFFER_SIZE)]).value;
  }

  lemma StopStartsWithSentinel(c: Codec, bs: Bytes, fails: bool)
    requires Decode(c, bs, fails) != [] && Decode(c, bs, fails)[0] == Ok(StopDaemon)
    ensures bs != [] && bs[0] == 0
  {
  }

  lemma DropHead<T>(x: T, xs: seq<T>, i: nat)
    requires 0 < i <= |xs|
    ensures ([x] + xs)[i] == xs[i - 1] && ([x] + xs)[i..] == xs[i - 1..]
  {
  }

  /** Items after the first are decoded from behind the first newline. */
  lemma LaterItems(c: Codec, bs: Bytes, fails: bool, i: nat) returns (n: nat)
    requires 0 < i < |Decode(c, bs, fails)|
    ensures n < |bs| && bs[n] == 10
    ensures var items, later := Decode(c, bs, fails), Decode(c, bs[n + 1..], fails);
            i - 1 < |later| && later[i - 1] == items[i] && later[i - 1..] == items[i..]
  {
    DecodeShape(c, bs, fails);
    n := PushEndsAtSeparator(c, bs, fails);
    DropHead(Decode(c, bs, fails)[0], Decode(c, bs[n + 1..], fails), i);
  }

  /** A message begins at `k`, at the start of the stream or after a newline, with a 0; and these items
      are what is decoded from there on. */
  predicate SentinelAt(c: Codec, bs: Bytes, fails: bool, k: nat, items: seq<Item>)
  {
    && k < |bs| && bs[k] == 0 && (k > 0 ==> bs[k - 1] == 10)
    && Decode(c, bs[k..], fails) == items
  }

  lemma SentinelLater(c: Codec, bs: Bytes, fails: bool, n: nat, k: nat, items: seq<Item>)
    requires n < |bs| && bs[n] == 10 && SentinelAt(c, bs[n + 1..], fails, k, items)
    ensures SentinelAt(c, bs, fails, n + 1 + k, items)
  {
    assert bs[n + 1..][k..] == bs[n + 1 + k..];
  }

  /** A stop comes from a 0 where a message begins, and from nowhere else. */
  lemma {:induction false} StopOnlyFromSentinel(c: Codec, bs: Bytes, fails: bool, i: nat) returns (k: nat)
    requires i < |Decode(c, bs, fails)| && Decode(c, bs, fails)[i] == Ok(StopDaemon)
    ensures SentinelAt(c, bs, fails, k, Decode(c, bs, fails)[i..])
    decreases i
  {
    if i == 0 {
      StopStartsWithSentinel(c, bs, fails);
      k := 0;
      assert bs[0..] == bs && Decode(c, bs, fails)[0..] == Decode(c, bs, fails);
    } else {
      var n := LaterItems(c, bs, fails, i);
      k := StopOnlyFromSentinel(c, bs[n + 1..], fails, i - 1);
      SentinelLater(c, bs, fails, n, k, Decode(c, bs, fails)[i..]);
      k := n + 1 + k;
    }
  }

  // --- Round trip -------------------------------------------------------------------------

  /** What the protocol asks of a pushed path: its text has no separator, does not begin with the
      stop sentinel, fits the receiver's buffer together with its separator, and reads back. */
  predicate Sendable(c: Codec, path: StorePath)
  {
    var text := c.show(path);
    && 10 !in text
    && (text != [] ==> text[0] != 0)
    && |text| < 1024
    && c.isUtf8(text)
    && c.parse(text) == Some(path)
  }

  predicate AllSendable(c: Codec, ms: seq<Message>)
  {
    forall i :: 0 <= i < |ms| && ms[i].PushStorePath? ==> Sendable(c, ms[i].path)
  }

  /** The messages up to and including the first stop: the daemon ignores the rest. */
  function UpToStop(ms: seq<Message>): (r: seq<Message>)
    ensures |r| <= |ms| && r == ms[..|r|]
    ensures forall i :: 0 <= i < |r| - 1 ==> r[i].PushStorePath?
    ensures |r| < |ms| ==> r != [] && r[|r| - 1].StopDaemon?
  {
    if ms == [] then []
    else if ms[0].StopDaemon? then [ms[0]]
    else [ms[0]] + UpToStop(ms[1..])
  }

  function Received(ms: seq<Message>): (items: seq<Item>)
    ensures |items| == |ms|
    ensures forall i :: 0 <= i < |ms| ==> items[i] == Ok(ms[i])
  {
    if ms == [] then [] else [Ok(ms[0])] + Received(ms[1..])
  }

  /** Sending any list of messages and decoding the bytes gives the list back, up to and including
      the first stop.  What follows the stop is not read, and need not even be sendable. */
  lemma {:induction false} RoundTrip(c: Codec, ms: seq<Message>)
    requires AllSendable(c, UpToStop(ms))
    ensures Decode(c, EncodeAll(c, ms), false) == Received(UpToStop(ms))
  {
    if ms != [] {
      var rest := EncodeAll(c, ms[1..]);
      if ms[0].PushStorePath? {
        var all, later := UpToStop(ms), UpToStop(ms[1..]);
        assert all[0] == ms[0];
        FrameDecides(c, c.show(ms[0].path), rest, false);
        assert AllSendable(c, later) by {
          forall i | 0 <= i < |later| && later[i].PushStorePath?
            ensures Sendable(c, later[i].path)
          {
            assert later[i] == all[i + 1];
          }
        }
        RoundTrip(c, ms[1..]);
      } else {
        StopEndsStream(c, rest, false);
      }
      assert UpToStop(ms)[1..] == if ms[0].StopDaemon? then [] else UpToStop(ms[1..]);
    }
  }

  /** For a path whose text has no separator, the conditions of `Sendable` are exactly what makes
      a single push come back. */
  lemma RoundTripExact(c: Codec, path: StorePath)
    requires 10 !in c.show(path)
    ensures Decode(c, Encode(c, PushStorePath(path)), false) == [Ok(PushStorePath(path))]
       <==> Sendable(c, path)
  {
    var text := c.show(path);
    var bs := text + [PATH_SEPARATOR];
    if text != [] && text[0] == STOP_SENTINEL {
      assert bs == [0] + bs[1..];
      StopEndsStream(c, bs[1..], false);
    } else if |text| >= BUFFER_SIZE {
      assert bs[..BUFFER_SIZE] == text[..BUFFER_SIZE];
      NoFrameEndsStream(c, bs, false);
    } else {
      assert text + [10] + [] == bs;
      FrameDecides(c, text, [], false);
      assert Decode(c, [], false) == [];
      assert Sendable(c, path)
        <==> Decode(c, bs, false) != [] && Decode(c, bs, false)[0] == Ok(PushStorePath(path));
    }
  }

  // --- Store directories ------------------------------------------------------------------

  /** The text `/nix/store`. */
  const NIX_STORE: Bytes := [47, 110, 105, 120, 47, 115, 116, 111, 114, 101]

  function PrintStoreDir(d: StoreDir): (bs: Bytes)
  {
    match d
    case NixStore => NIX_STORE
    case Other(dir) => dir
  }

  /** Parsing fails with the position of the first NUL byte. */
  function ParseStoreDir(bs: Bytes): (r: Result<StoreDir, nat>)
  {
    if bs == NIX_STORE then Ok(NixStore)
    else
      match Find(0, bs)
      case Some(i) => Err(i)
      case None => Ok(Other(bs))
  }

  /** Parsing accepts exactly the NUL-free texts and inverts printing; printing is inverted by
      parsing exactly for directories that are NUL-free and do not spell `/nix/store` the long way. */
  lemma StoreDirRoundTrip(d: StoreDir, bs: Bytes)
    ensures ParseStoreDir(bs).Ok? <==> 0 !in bs
    ensures ParseStoreDir(bs).Ok? ==> PrintStoreDir(ParseStoreDir(bs).value) == bs
    ensures ParseStoreDir(bs).Err? ==>
              var i := ParseStoreDir(bs).error; i < |bs| && bs[i] == 0 && 0 !in bs[..i]
    ensures ParseStoreDir(PrintStoreDir(d)) == Ok(d)
       <==> d.NixStore? || (0 !in d.dir && d.dir != NIX_STORE)
  {
    assert 0 !in NIX_STORE;
  }
}
