/** What every interleaving of an upload keeps: URLs, parts and etags stay aligned, no byte is lost,
    and a NARInfo is visible only for a completed upload of exactly the bytes it describes. */
module UploadSafety {
  import opened ByteStrings
  import opened Upload

  // --- The invariant ----------------------------------------------------------------------

  predicate Looping(u: Uploader)
  {
    u.pc.CheckUrls? || u.pc.AwaitUrls? || Holding(u)
  }

  /** A URL has been taken for the current part. */
  predicate Holding(u: Uploader)
  {
    u.pc.Filling? || u.pc.Putting?
  }

  /** The queue holds consecutive URLs of one batch, starting at the next part that needs one; a
      taken URL was issued for the current part; there is one etag per part before it. */
  predicate Aligned(u: Uploader)
  {
    && 1 <= u.partNumber <= MAX_PART_NUMBER
    && (Looping(u) ==>
          && |u.etags| == u.partNumber - 1
          && Queued(u, if Holding(u) then u.partNumber + 1 else u.partNumber))
    && (Holding(u) ==> u.pc.url == Url(u.uploadId, u.partNumber, u.expiration))
    && (u.pc.AwaitUrls? ==> u.partUrls == [])
    && (!Holding(u) ==> u.part == [])
    && (u.pc.Filling? ==> |u.part| < u.partSize)
    && (u.pc.Putting? ==> 0 < |u.part| <= u.partSize)
  }

  predicate Queued(u: Uploader, from: nat)
  {
    forall i :: 0 <= i < |u.partUrls| ==> u.partUrls[i] == Url(u.uploadId, from + i, u.expiration)
  }

  /** Every part that has an etag is stored under its number with that etag, and is full; once the
      uploader has left its loop the last one may be shorter, and must be if it has the last
      possible number. */
  predicate Stored(server: Server, u: Uploader)
  {
    && |u.etags| <= MAX_PART_NUMBER
    && HasParts(server, u.uploadId, u.etags)
    && FullParts(server, u, if Looping(u) then |u.etags| else |u.etags| - 1)
    && (!Looping(u) && u.etags != [] ==>
          var last := |PartOf(server, u.uploadId, |u.etags|)|;
          0 < last <= u.partSize && (|u.etags| == MAX_PART_NUMBER ==> last < u.partSize))
  }

  predicate FullParts(server: Server, u: Uploader, n: int)
  {
    forall i :: 1 <= i <= n ==> |PartOf(server, u.uploadId, i)| == u.partSize
  }

  /** No byte is lost or reordered between the producer and the stored parts. */
  predicate Streamed(s: System, nar: Bytes)
  {
    && nar == s.hashed + s.todo
    && s.hashed == Assemble(s.server, s.up.uploadId, |s.up.etags|) + s.up.part + s.pipe
    && s.count == |s.hashed| % U64
    && |s.pipe| <= PIPE_CAPACITY
    && (s.shut ==> s.todo == [])
    && (!Looping(s.up) || CutShort(s.up) ==> s.shut && s.pipe == [])
  }

  /** The current part was cut short by the end of the NAR. */
  predicate CutShort(u: Uploader)
  {
    u.pc.Putting? && |u.part| < u.partSize
  }

  predicate Live(s: System, nar: Bytes)
  {
    && s.up.partSize < U32
    && !s.up.pc.Stopped?
    && Aligned(s.up) && Stored(s.server, s.up) && Streamed(s, nar)
    && (s.up.pc.Completed? ==>
          s.up.uploadId in s.server.objects && s.server.objects[s.up.uploadId] == nar)
    && (!s.stage.Streaming? ==> s.up.pc.Completed? && nar != [] && s.count == |nar|)
  }

  function InfoOf(sha: Bytes -> Bytes, nar: Bytes): NarInfo
  {
    NarInfo(sha(nar), |nar|, sha(nar), |nar|)
  }

  /** If this path's NARInfo is visible, it belongs to this upload, the upload was completed, and
      its hash and size are those of the completed object, which is the whole, non-empty NAR. */
  predicate NoFalsePositive(sha: Bytes -> Bytes, s: System, nar: Bytes)
  {
    s.storeHash in s.server.narinfos ==>
      && (s.stage.Succeeded? || s.stage == Aborted(UploadNarInfo))
      && s.up.uploadId in s.server.objects
      && s.server.objects[s.up.uploadId] == nar && nar != []
      && s.server.narinfos[s.storeHash] == Published(s.up.uploadId, InfoOf(sha, nar))
  }

  predicate Inv(sha: Bytes -> Bytes, s: System, nar: Bytes)
  {
    && NoFalsePositive(sha, s, nar)
    && (!s.stage.Aborted? ==> Live(s, nar))
    && (Holding(s.up) ==> s.up.pc.url.upload == s.up.uploadId)
    && (s.stage.Publishing? ==> s.stage.info == InfoOf(sha, nar))
    && (s.stage == Aborted(UploadNar(TooManyNarParts)) ==>
          |nar| >= MAX_PART_NUMBER * s.up.partSize)
    && (s.stage == Aborted(WroteZeroBytes) ==> nar == [])
    && (s.stage.Succeeded? ==> s.storeHash in s.server.narinfos)
  }

  // --- Assembling parts -------------------------------------------------------------------

  lemma {:induction false} AssembleFrame(a: Server, b: Server, id: UploadId, n: nat)
    requires forall i :: 1 <= i <= n ==> PartOf(a, id, i) == PartOf(b, id, i)
    ensures Assemble(a, id, n) == Assemble(b, id, n)
  {
    if n > 0 {
      AssembleFrame(a, b, id, n - 1);
    }
  }

  /** What is stored for this upload depends only on its own parts. */
  lemma StoredFrame(a: Server, b: Server, u: Uploader)
    requires Stored(a, u)
    requires forall i {:trigger PartOf(a, u.uploadId, i)} {:trigger PartOf(b, u.uploadId, i)}
               {:trigger HasPart(b, u.uploadId, u.etags, i)} :: 1 <= i <= |u.etags| ==>
               (u.uploadId, i) in a.parts ==>
                 (u.uploadId, i) in b.parts && a.parts[(u.uploadId, i)] == b.parts[(u.uploadId, i)]
    ensures Stored(b, u)
    ensures Assemble(a, u.uploadId, |u.etags|) == Assemble(b, u.uploadId, |u.etags|)
  {
    forall i | 1 <= i <= |u.etags|
      ensures HasPart(b, u.uploadId, u.etags, i)
      ensures PartOf(a, u.uploadId, i) == PartOf(b, u.uploadId, i)
    {
      assert HasPart(a, u.uploadId, u.etags, i);
      assert PartOf(a, u.uploadId, i) == a.parts[(u.uploadId, i)].1;
    }
    AssembleFrame(a, b, u.uploadId, |u.etags|);
  }

  lemma {:induction false} AssembleLength(server: Server, u: Uploader, n: nat)
    requires FullParts(server, u, n)
    ensures |Assemble(server, u.uploadId, n)| == n * u.partSize
  {
    if n > 0 {
      AssembleLength(server, u, n - 1);
      assert n * u.partSize == (n - 1) * u.partSize + u.partSize;
    }
  }

  lemma TimesMonotone(a: nat, b: nat, c: nat)
    requires a <= b
    ensures a * c <= b * c
  {
  }

  /** How long a finished upload is: all parts but the last are full, and the last is not empty. */
  lemma FinishedLength(server: Server, u: Uploader)
    requires Stored(server, u) && !Looping(u)
    ensures var n, len := |u.etags|, |Assemble(server, u.uploadId, |u.etags|)|;
            && (n == 0 ==> len == 0)
            && (n > 0 ==> (n - 1) * u.partSize < len <= n * u.partSize)
            && len < MAX_PART_NUMBER * u.partSize
  {
    var n, ps := |u.etags|, u.partSize;
    if n > 0 {
      AssembleLength(server, u, n - 1);
      assert n * ps == (n - 1) * ps + ps;
      if n < MAX_PART_NUMBER {
        TimesMonotone(n, MAX_PART_NUMBER - 1, ps);
      }
    }
  }

  // --- Each step keeps it -----------------------------------------------------------------

  lemma TickAligned(u: Uploader, now: nat)
    requires Aligned(u) && u.pc.CheckUrls?
    ensures Aligned(OnTick(u, now))
    ensures Looping(OnTick(u, now)) && OnTick(u, now).part == []
  {
    if !(now + SAFETY_MARGIN >= u.expiration) && u.partUrls != [] {
      var u' := OnTick(u, now);
      assert u.partUrls[0] == Url(u.uploadId, u.partNumber + 0, u.expiration);
      assert forall i :: 0 <= i < |u'.partUrls| ==> u'.partUrls[i] == u.partUrls[i + 1];
    }
  }

  lemma UrlsAligned(u: Uploader, urls: seq<Url>, expiration: nat)
    requires Aligned(u) && u.pc.AwaitUrls?
    requires IssuedFor(urls, u.uploadId, PartNumbers(u.partNumber, 4), expiration)
    ensures Aligned(OnUrls(u, urls, expiration))
  {
    var u', numbers := OnUrls(u, urls, expiration), PartNumbers(u.partNumber, 4);
    assert u.partUrls + urls == urls;
    forall i | 0 <= i < |urls|
      ensures urls[i] == Url(u.uploadId, u.partNumber + i, expiration)
    {
      assert numbers[i] == u.partNumber + i;
    }
    assert Queued(u', u'.partNumber);
  }

  lemma KeepTick(sha: Bytes -> Bytes, s: System, nar: Bytes, now: nat)
    requires Inv(sha, s, nar) && Enabled(s, Tick(now))
    ensures Inv(sha, Apply(sha, s, Tick(now)), nar)
  {
    TickAligned(s.up, now);
  }

  lemma KeepUrls(sha: Bytes -> Bytes, s: System, nar: Bytes, answer: Answer<(seq<Url>, nat)>)
    requires Inv(sha, s, nar) && Enabled(s, UrlsAnswer(answer))
    ensures Inv(sha, Apply(sha, s, UrlsAnswer(answer)), nar)
  {
    if answer.Granted? {
      UrlsAligned(s.up, answer.value.0, answer.value.1);
    }
  }

  lemma KeepWrite(sha: Bytes -> Bytes, s: System, nar: Bytes, n: pos)
    requires Inv(sha, s, nar) && Enabled(s, Write(n))
    ensures Inv(sha, Apply(sha, s, Write(n)), nar)
  {
    var chunk, rest := s.todo[..n], s.todo[n..];
    assert s.todo == chunk + rest;
    Associate(s.hashed, chunk, rest);
    Associate(Assemble(s.server, s.up.uploadId, |s.up.etags|) + s.up.part, s.pipe, chunk);
    Wrap64(|s.hashed|, n);
  }

  lemma KeepRead(sha: Bytes -> Bytes, s: System, nar: Bytes, n: nat)
    requires Inv(sha, s, nar) && Enabled(s, Read(n))
    ensures Inv(sha, Apply(sha, s, Read(n)), nar)
  {
    var u, chunk, rest := s.up, s.pipe[..n], s.pipe[n..];
    var before := Assemble(s.server, u.uploadId, |u.etags|);
    assert s.pipe == chunk + rest;
    Associate(before + u.part, chunk, rest);
    Associate(before, u.part, chunk);
    var u' := OnRead(u, chunk);
    assert Queued(u', u.partNumber + 1);
  }

  lemma PutAssembles(s: System, etag: Etag)
    requires s.up.pc.Putting? && Aligned(s.up) && Stored(s.server, s.up)
    ensures var server, u := StorePart(s, etag).server, s.up;
            && HasParts(server, u.uploadId, u.etags + [etag])
            && FullParts(server, u, |u.etags|)
            && PartOf(server, u.uploadId, |u.etags| + 1) == u.part
            && Assemble(server, u.uploadId, |u.etags| + 1)
               == Assemble(s.server, u.uploadId, |u.etags|) + u.part
  {
    var server, u := StorePart(s, etag).server, s.up;
    forall i | 1 <= i <= |u.etags|
      ensures HasPart(server, u.uploadId, u.etags + [etag], i)
      ensures PartOf(server, u.uploadId, i) == PartOf(s.server, u.uploadId, i)
    {
      assert HasPart(s.server, u.uploadId, u.etags, i);
    }
    AssembleFrame(s.server, server, u.uploadId, |u.etags|);
  }

  lemma PutAligned(u: Uploader, etag: Etag)
    requires Aligned(u) && u.pc.Putting?
    ensures !OnPut(u, etag).pc.Stopped? ==> Aligned(OnPut(u, etag))
  {
    var u' := OnPut(u, etag);
    if u'.pc.CheckUrls? {
      assert Queued(u', u'.partNumber);
    }
  }

  lemma PutStored(s: System, etag: Etag)
    requires s.up.pc.Putting? && Aligned(s.up) && Stored(s.server, s.up)
    ensures var server, u' := StorePart(s, etag).server, OnPut(s.up, etag);
            && Assemble(server, u'.uploadId, |u'.etags|)
               == Assemble(s.server, s.up.uploadId, |s.up.etags|) + s.up.part
            && (u'.pc.Stopped? ==> FullParts(server, u', |u'.etags|) && |u'.etags| == MAX_PART_NUMBER)
            && (!u'.pc.Stopped? ==> Stored(server, u'))
  {
    var u, u', server := s.up, OnPut(s.up, etag), StorePart(s, etag).server;
    PutAssembles(s, etag);
    if |u.part| == u.partSize {
      assert FullParts(server, u', |u'.etags|);
    }
  }

  lemma KeepPutGranted(sha: Bytes -> Bytes, s: System, nar: Bytes, etag: Etag)
    requires Inv(sha, s, nar) && Enabled(s, PutAnswer(Granted(etag)))
    ensures Inv(sha, Apply(sha, s, PutAnswer(Granted(etag))), nar)
  {
    var u, u', server := s.up, OnPut(s.up, etag), StorePart(s, etag).server;
    PutAligned(u, etag);
    PutStored(s, etag);
    var before := Assemble(s.server, u.uploadId, |u.etags|);
    assert before + u.part + [] == before + u.part;
    if u'.pc.Stopped? {
      AssembleLength(server, u', |u'.etags|);
    }
  }

  lemma KeepPut(sha: Bytes -> Bytes, s: System, nar: Bytes, answer: Answer<Etag>)
    requires Inv(sha, s, nar) && Enabled(s, PutAnswer(answer))
    ensures Inv(sha, Apply(sha, s, PutAnswer(answer)), nar)
  {
    if answer.Granted? {
      KeepPutGranted(sha, s, nar, answer.value);
    }
  }

  lemma KeepComplete(sha: Bytes -> Bytes, s: System, nar: Bytes, answer: Answer<()>)
    requires Inv(sha, s, nar) && Enabled(s, CompleteAnswer(answer))
    ensures Inv(sha, Apply(sha, s, CompleteAnswer(answer)), nar)
  {
    if answer.Granted? {
      var joined := Assemble(s.server, s.up.uploadId, |s.up.etags|);
      assert joined + [] + [] == joined;
      assert s.hashed + [] == s.hashed;
      var s' := Apply(sha, s, CompleteAnswer(answer));
      StoredFrame(s.server, s'.server, s.up);
      assert Stored(s'.server, s'.up);
    }
  }

  lemma KeepJoin(sha: Bytes -> Bytes, s: System, nar: Bytes)
    requires Inv(sha, s, nar) && Enabled(s, Join)
    ensures Inv(sha, Apply(sha, s, Join), nar)
  {
    var joined, ps := Assemble(s.server, s.up.uploadId, |s.up.etags|), s.up.partSize;
    assert joined + [] + [] == joined;
    assert s.hashed + [] == s.hashed;
    FinishedLength(s.server, s.up);
    assert MAX_PART_NUMBER * ps < U64;
  }

  lemma KeepInfos(sha: Bytes -> Bytes, s: System, nar: Bytes, ok: bool)
    requires Inv(sha, s, nar) && Enabled(s, InfosAnswer(ok))
    ensures Inv(sha, Apply(sha, s, InfosAnswer(ok)), nar)
  {
    assert s.hashed + [] == s.hashed;
  }

  lemma KeepNarInfo(sha: Bytes -> Bytes, s: System, nar: Bytes, answer: Answer<nat>)
    requires Inv(sha, s, nar) && Enabled(s, NarInfoAnswer(answer))
    ensures Inv(sha, Apply(sha, s, NarInfoAnswer(answer)), nar)
  {
    var s' := Apply(sha, s, NarInfoAnswer(answer));
    if answer.Granted? {
      StoredFrame(s.server, s'.server, s.up);
    }
  }

  lemma KeepFailures(sha: Bytes -> Bytes, s: System, nar: Bytes, step: Step)
    requires Inv(sha, s, nar) && Enabled(s, step)
    requires step.Shutdown? || step.WriteFails? || step.ReadFails?
    ensures Inv(sha, Apply(sha, s, step), nar)
  {
  }

  lemma KeepLatePut(sha: Bytes -> Bytes, s: System, nar: Bytes, etag: Etag)
    requires Inv(sha, s, nar) && Enabled(s, LatePut(etag))
    ensures Inv(sha, Apply(sha, s, LatePut(etag)), nar)
  {
  }

  lemma KeepInterfere(sha: Bytes -> Bytes, s: System, nar: Bytes, server: Server)
    requires Inv(sha, s, nar) && Enabled(s, Interfere(server))
    ensures Inv(sha, Apply(sha, s, Interfere(server)), nar)
  {
    if !s.stage.Aborted? {
      StoredFrame(s.server, server, s.up);
    }
  }

  lemma StepKeepsInv(sha: Bytes -> Bytes, s: System, nar: Bytes, step: Step)
    requires Inv(sha, s, nar) && Enabled(s, step)
    ensures Inv(sha, Apply(sha, s, step), nar)
  {
    match step {
      case Write(n) => KeepWrite(sha, s, nar, n);
      case Tick(now) => KeepTick(sha, s, nar, now);
      case UrlsAnswer(answer) => KeepUrls(sha, s, nar, answer);
      case Read(n) => KeepRead(sha, s, nar, n);
      case PutAnswer(answer) => KeepPut(sha, s, nar, answer);
      case CompleteAnswer(answer) => KeepComplete(sha, s, nar, answer);
      case Join => KeepJoin(sha, s, nar);
      case LatePut(etag) => KeepLatePut(sha, s, nar, etag);
      case Interfere(server) => KeepInterfere(sha, s, nar, server);
      case InfosAnswer(ok) => KeepInfos(sha, s, nar, ok);
      case NarInfoAnswer(answer) => KeepNarInfo(sha, s, nar, answer);
      case _ => KeepFailures(sha, s, nar, step);
    }
  }

  lemma {:induction false} AlwaysInv(sha: Bytes -> Bytes, init: System, nar: Bytes, tr: Trace)
    requires Initial(init, nar) && Valid(sha, init, tr)
    ensures Inv(sha, Exec(sha, init, tr), nar)
  {
    if tr == [] {
      assert [] + nar == nar;
    } else {
      AlwaysInv(sha, init, nar, Front(tr));
      StepKeepsInv(sha, Exec(sha, init, Front(tr)), nar, Last(tr));
    }
  }
}
