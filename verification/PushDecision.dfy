/** Whether a store path must be pushed: the cache and all upstream caches are asked at once, and the
    two questions race. */
module PushDecision {
  import opened ByteStrings

  datatype HttpResult = Status(code: nat) | NoResponse(error: nat)

  /** Whether a response means that the upstream has the path. */
  predicate Has(r: HttpResult)
  {
    match r
    case Status(code) => code == 200
    case NoResponse(_) => false
  }

  /** The answer that does not depend on who answers first: a path that is anywhere is not pushed;
      otherwise the cache's error counts, if there is one. */
  ghost function Decision(cache: Result<bool, nat>, upstreams: seq<HttpResult>): (r: Result<bool, nat>)
  {
    if cache == Ok(true) || Status(200) in upstreams then Ok(false)
    else if cache.Err? then Err(cache.error)
    else Ok(true)
  }

  /** Takes the responses in the order in which they complete and stops at the first hit.  Only an
      upstream that answers 200 counts; any other status, and no response, count as not having it. */
  method UpstreamCachesHaveNarInfo(completed: seq<HttpResult>) returns (r: bool)
    ensures r <==> Status(200) in completed
  {
    var i := 0;
    while i < |completed|
      invariant i <= |completed| && Status(200) !in completed[..i]
    {
      if Has(completed[i]) {
        return true;
      }
      TakeNext(completed, i);
      i := i + 1;
    }
    return false;
  }

  /** For any order in which the upstreams respond, and whichever side of the race resolves first, the
      answer is the same: skip exactly if the cache has the path or some upstream answered 200; fail
      exactly if the cache failed and no upstream did; push exactly if neither. */
  method ShouldPushStorePath(cache: Result<bool, nat>, completed: seq<HttpResult>, cacheWins: bool,
                             ghost upstreams: seq<HttpResult>)
    returns (r: Result<bool, nat>)
    requires multiset(completed) == multiset(upstreams)
    ensures r == Ok(false) <==> cache == Ok(true) || Status(200) in upstreams
    ensures r.Err? <==> cache.Err? && Status(200) !in upstreams
    ensures r.Err? ==> r.error == cache.error
    ensures r == Ok(true) <==> cache == Ok(false) && Status(200) !in upstreams
    ensures r == Decision(cache, upstreams)
  {
    SameHits(completed, upstreams);
    if cacheWins {
      match cache {
        case Ok(true) => return Ok(false);
        case Ok(false) =>
          var upstreamHas := UpstreamCachesHaveNarInfo(completed);
          return Ok(!upstreamHas);
        case Err(error) =>
          var upstreamHas := UpstreamCachesHaveNarInfo(completed);
          return if upstreamHas then Ok(false) else Err(error);
      }
    } else {
      var upstreamHas := UpstreamCachesHaveNarInfo(completed);
      if upstreamHas {
        return Ok(false);
      }
      return if cache.Ok? then Ok(!cache.value) else Err(cache.error);
    }
  }

  lemma SameHits(xs: seq<HttpResult>, ys: seq<HttpResult>)
    requires multiset(xs) == multiset(ys)
    ensures Status(200) in xs <==> Status(200) in ys
  {
    assert Status(200) in xs <==> Status(200) in multiset(xs);
  }
}
