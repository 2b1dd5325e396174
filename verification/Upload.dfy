/** Handling one store path once it must be pushed, as a transition system: a producer writes the
    NAR through a hashing writer into a bounded pipe while a consumer cuts the pipe's bytes into
    parts and uploads them; when both have succeeded the NARInfo is published.

    A run is any interleaving of the two halves, of the server's answers and of what the other
    handlers do to the shared server.  Every request can be refused, and its answer can be lost
    after the request took effect. */
module Upload {
  import opened ByteStrings

  /** Capacity of the pipe between the NAR writer and the uploader. */
  const PIPE_CAPACITY: nat := 64 * 1024

  /** The largest `NonZeroU16`. */
  const MAX_PART_NUMBER: nat := 0xFFFF

  /** URLs are dropped ten seconds before they expire; times are in nanoseconds. */
  const SAFETY_MARGIN: nat := 10_000_000_000

  type UploadId = nat

  type Etag = nat

  /** A part URL, with what the server issued it for.  The client never looks inside. */
  datatype Url = Url(upload: UploadId, part: nat, expiration: nat)

  datatype NarInfo = NarInfo(fileHash: Bytes, fileSize: nat, narHash: Bytes, narSize: nat)

  datatype Published = Published(upload: UploadId, info: NarInfo)

  datatype Server = Server(
    parts: map<(UploadId, nat), (Etag, Bytes)>,  // uploaded parts, by number
    objects: map<UploadId, Bytes>,               // completed uploads
    narinfos: map<Bytes, Published>)             // visible NARInfos, by store hash

  /** Where in its loop `upload_nar` is waiting. */
  datatype Pc =
    | CheckUrls(refilled: bool)  // at the loop head, coming from a refill or not
    | AwaitUrls
    | Filling(url: Url)
    | Putting(url: Url)
    | Completing
    | Completed
    | Stopped(error: UploadError)

  datatype UploadError = ReadNar | RequestFailed | TooManyNarParts

  datatype Uploader = Uploader(
    uploadId: UploadId,
    partSize: pos,
    partUrls: seq<Url>,
    expiration: nat,
    partNumber: nat,
    etags: seq<Etag>,
    part: Bytes,  // the bytes of the current part read so far
    pc: Pc)

  datatype PathError =
    WriteNar | UploadNar(error: UploadError) | WroteZeroBytes | GetPathInfos | UploadNarInfo

  datatype Stage =
    | Streaming
    | QueryInfos
    | Publishing(info: NarInfo)
    | Succeeded(numBytes: nat)
    | Aborted(error: PathError)

  datatype System = System(
    storeHash: Bytes,
    todo: Bytes,    // what the producer still has to write
    hashed: Bytes,  // what the hashing writer has seen
    count: nat,     // what it has counted, a 64-bit number
    shut: bool,     // the producer has shut its end down
    pipe: Bytes,
    up: Uploader,
    server: Server,
    stage: Stage)

  /** The fate of a request: granted, refused, or granted with the answer lost. */
  datatype Answer<+T> = Granted(value: T) | Refused | Lost(value: T)

  datatype Step =
    | Write(n: pos)
    | Shutdown
    | WriteFails
    | Tick(now: nat)
    | UrlsAnswer(urls: Answer<(seq<Url>, nat)>)
    | Read(len: nat)
    | ReadFails
    | PutAnswer(etag: Answer<Etag>)
    | CompleteAnswer(done: Answer<()>)
    | Join
    | InfosAnswer(ok: bool)
    | NarInfoAnswer(size: Answer<nat>)
    | LatePut(late: Etag)  // a put in flight when the producer failed still lands
    | Interfere(server: Server)

  // --- The uploader -----------------------------------------------------------------------

  /** The part numbers asked for in a refill: the current one and up to three more. */
  function PartNumbers(from: nat, n: nat): (r: seq<nat>)
    ensures |r| <= n
    ensures forall i :: 0 <= i < |r| ==> r[i] == from + i && r[i] <= MAX_PART_NUMBER
    ensures from <= 65535 ==> |r| == Min(n, 65536 - from)
    decreases n
  {
    if n == 0 || from > MAX_PART_NUMBER then [] else [from] + PartNumbers(from + 1, n - 1)
  }

  /** The loop head: drop expired URLs, then take one or ask for more. */
  function OnTick(u: Uploader, now: nat): Uploader
  {
    var urls := if now + SAFETY_MARGIN >= u.expiration then [] else u.partUrls;
    if urls == [] then u.(partUrls := [], pc := AwaitUrls)
    else u.(partUrls := urls[1..], part := [], pc := Filling(urls[0]))
  }

  function OnUrls(u: Uploader, urls: seq<Url>, expiration: nat): Uploader
  {
    u.(partUrls := u.partUrls + urls, expiration := expiration, pc := CheckUrls(true))
  }

  /** A read of the part being filled; an empty one is the end of the NAR. */
  function OnRead(u: Uploader, bytes: Bytes): Uploader
    requires u.pc.Filling?
  {
    var part := u.part + bytes;
    if bytes != [] && |part| < u.partSize then u.(part := part)
    else u.(part := part, pc := if part == [] then Completing else Putting(u.pc.url))
  }

  function OnPut(u: Uploader, etag: Etag): Uploader
  {
    var u' := u.(etags := u.etags + [etag], part := []);
    if |u.part| < u.partSize then u'.(pc := Completing)
    else if u.partNumber == MAX_PART_NUMBER then u'.(pc := Stopped(TooManyNarParts))
    else u'.(partNumber := u.partNumber + 1, pc := CheckUrls(false))
  }

  // --- The server -------------------------------------------------------------------------

  /** The stored bytes of part `i`. */
  function PartOf(server: Server, id: UploadId, i: nat): Bytes
  {
    if (id, i) in server.parts then server.parts[(id, i)].1 else []
  }

  /** Part `i` is stored, with the `i`-th of these etags. */
  predicate HasPart(server: Server, id: UploadId, etags: seq<Etag>, i: nat)
  {
    1 <= i <= |etags| && (id, i) in server.parts && server.parts[(id, i)].0 == etags[i - 1]
  }

  predicate HasParts(server: Server, id: UploadId, etags: seq<Etag>)
  {
    forall i :: 1 <= i <= |etags| ==> HasPart(server, id, etags, i)
  }

  /** Parts 1 to `n` of an upload, joined. */
  function Assemble(server: Server, id: UploadId, n: nat): Bytes
  {
    if n == 0 then [] else Assemble(server, id, n - 1) + PartOf(server, id, n)
  }

  /** The server hands out URLs for the part numbers asked for, in that order, maybe fewer. */
  predicate IssuedFor(urls: seq<Url>, id: UploadId, numbers: seq<nat>, expiration: nat)
  {
    |urls| <= |numbers|
    && forall i :: 0 <= i < |urls| ==> urls[i] == Url(id, numbers[i], expiration)
  }

  /** Another handler has its own upload id and its own store hash. */
  ghost predicate SameSession(a: Server, b: Server, id: UploadId, storeHash: Bytes)
  {
    && (forall i: nat ::
          ((id, i) in a.parts <==> (id, i) in b.parts)
          && ((id, i) in a.parts && (id, i) in b.parts ==> a.parts[(id, i)] == b.parts[(id, i)]))
    && (id in a.objects <==> id in b.objects)
    && (id in a.objects && id in b.objects ==> a.objects[id] == b.objects[id])
    && (storeHash in a.narinfos <==> storeHash in b.narinfos)
    && (storeHash in a.narinfos && storeHash in b.narinfos ==>
          a.narinfos[storeHash] == b.narinfos[storeHash])
  }

  // --- The whole --------------------------------------------------------------------------

  /** The start: an upload was initiated and came with URLs for parts 1, 2, and so on. */
  predicate Initial(s: System, nar: Bytes)
  {
    && s.todo == nar && s.hashed == [] && s.count == 0 && !s.shut && s.pipe == []
    && s.stage.Streaming?
    && s.up.partSize < U32 && s.up.partNumber == 1 && s.up.etags == [] && s.up.part == []
    && s.up.pc == CheckUrls(false)
    && (forall i :: 0 <= i < |s.up.partUrls| ==>
          s.up.partUrls[i] == Url(s.up.uploadId, i + 1, s.up.expiration))
    && s.storeHash !in s.server.narinfos
  }

  ghost predicate Enabled(s: System, step: Step)
  {
    match step
    case Write(n) =>
      s.stage.Streaming? && !s.shut && n <= |s.todo| && |s.pipe| + n <= PIPE_CAPACITY
    case Shutdown => s.stage.Streaming? && !s.shut && s.todo == []
    case WriteFails => s.stage.Streaming? && !s.shut
    case Tick(_) => s.stage.Streaming? && s.up.pc.CheckUrls?
    case UrlsAnswer(answer) =>
      && s.stage.Streaming? && s.up.pc.AwaitUrls?
      && (!answer.Refused? ==>
            IssuedFor(answer.value.0, s.up.uploadId, PartNumbers(s.up.partNumber, 4), answer.value.1))
    case Read(n) =>
      && s.stage.Streaming? && s.up.pc.Filling?
      && n <= |s.pipe| && |s.up.part| + n <= s.up.partSize
      && (n == 0 ==> s.shut && s.pipe == [])
    case ReadFails => s.stage.Streaming? && s.up.pc.Filling?
    case PutAnswer(_) => s.stage.Streaming? && s.up.pc.Putting?
    case CompleteAnswer(answer) =>
      && s.stage.Streaming? && s.up.pc.Completing?
      && (!answer.Refused? ==> HasParts(s.server, s.up.uploadId, s.up.etags))
    case Join => s.stage.Streaming? && s.shut && s.up.pc.Completed?
    case InfosAnswer(_) => s.stage.QueryInfos?
    case NarInfoAnswer(_) => s.stage.Publishing?
    case LatePut(_) => s.stage.Aborted? && s.up.pc.Putting?
    case Interfere(server) => SameSession(s.server, server, s.up.uploadId, s.storeHash)
  }

  /** `try_join` gives up as soon as one half has failed. */
  function Abort(s: System, error: PathError): System
  {
    s.(stage := Aborted(error))
  }

  function StopUpload(s: System, error: UploadError): System
  {
    Abort(s.(up := s.up.(pc := Stopped(error))), UploadNar(error))
  }

  function StorePart(s: System, etag: Etag): System
    requires s.up.pc.Putting?
  {
    var url := s.up.pc.url;
    s.(server := s.server.(parts := s.server.parts[(url.upload, url.part) := (etag, s.up.part)]))
  }

  function StoreObject(s: System): System
  {
    var joined := Assemble(s.server, s.up.uploadId, |s.up.etags|);
    s.(server := s.server.(objects := s.server.objects[s.up.uploadId := joined]))
  }

  function StoreNarInfo(s: System): System
    requires s.stage.Publishing?
  {
    var published := Published(s.up.uploadId, s.stage.info);
    s.(server := s.server.(narinfos := s.server.narinfos[s.storeHash := published]))
  }

  function Describe(sha: Bytes -> Bytes, s: System): NarInfo
  {
    NarInfo(sha(s.hashed), s.count, sha(s.hashed), s.count)
  }

  function SaturatingAdd(a: nat, b: nat): nat
  {
    if a + b < U64 then a + b else U64 - 1
  }

  ghost function Apply(sha: Bytes -> Bytes, s: System, step: Step): System
    requires Enabled(s, step)
  {
    match step
    case Write(n) =>
      s.(todo := s.todo[n..], hashed := s.hashed + s.todo[..n], count := (s.count + n) % U64,
         pipe := s.pipe + s.todo[..n])
    case Shutdown => s.(shut := true)
    case WriteFails => Abort(s, WriteNar)
    case Tick(now) => s.(up := OnTick(s.up, now))
    case UrlsAnswer(Granted((urls, expiration))) => s.(up := OnUrls(s.up, urls, expiration))
    case UrlsAnswer(_) => StopUpload(s, RequestFailed)
    case Read(n) => s.(pipe := s.pipe[n..], up := OnRead(s.up, s.pipe[..n]))
    case ReadFails => StopUpload(s, ReadNar)
    case PutAnswer(Granted(etag)) =>
      var s' := StorePart(s, etag).(up := OnPut(s.up, etag));
      if s'.up.pc.Stopped? then Abort(s', UploadNar(s'.up.pc.error)) else s'
    case PutAnswer(Lost(etag)) => StopUpload(StorePart(s, etag), RequestFailed)
    case PutAnswer(Refused) => StopUpload(s, RequestFailed)
    case CompleteAnswer(Granted(_)) => StoreObject(s).(up := s.up.(pc := Completed))
    case CompleteAnswer(Lost(_)) => StopUpload(StoreObject(s), RequestFailed)
    case CompleteAnswer(Refused) => StopUpload(s, RequestFailed)
    case Join => if s.count == 0 then Abort(s, WroteZeroBytes) else s.(stage := QueryInfos)
    case InfosAnswer(ok) =>
      if ok then s.(stage := Publishing(Describe(sha, s))) else Abort(s, GetPathInfos)
    case NarInfoAnswer(Granted(size)) =>
      StoreNarInfo(s).(stage := Succeeded(SaturatingAdd(s.stage.info.narSize, size)))
    case NarInfoAnswer(Lost(_)) => Abort(StoreNarInfo(s), UploadNarInfo)
    case NarInfoAnswer(Refused) => Abort(s, UploadNarInfo)
    case LatePut(etag) => StorePart(s, etag)
    case Interfere(server) => s.(server := server)
  }

  type Trace = seq<Step>

  ghost predicate Valid(sha: Bytes -> Bytes, init: System, tr: Trace)
    decreases |tr|, 0
  {
    tr == [] || (Valid(sha, init, Front(tr)) && Enabled(Exec(sha, init, Front(tr)), Last(tr)))
  }

  ghost function Exec(sha: Bytes -> Bytes, init: System, tr: Trace): System
    requires Valid(sha, init, tr)
    decreases |tr|, 1
  {
    if tr == [] then init else Apply(sha, Exec(sha, init, Front(tr)), Last(tr))
  }

  lemma Extend(sha: Bytes -> Bytes, init: System, tr: Trace, step: Step)
    requires Valid(sha, init, tr) && Enabled(Exec(sha, init, tr), step)
    ensures Valid(sha, init, tr + [step])
    ensures Exec(sha, init, tr + [step]) == Apply(sha, Exec(sha, init, tr), step)
  {
    FrontLast(tr, step);
  }
}
