/** Bytes, byte strings and the small vocabulary the other modules share. */
module ByteStrings {

  type byte = b: int | 0 <= b < 256

  type Bytes = seq<byte>

  /** A strictly positive number, for `NonZeroU32` part sizes and read sizes. */
  type pos = n: int | 0 < n witness 1

  /** One more than the largest `u32` and `u64`. */
  const U32: nat := 0x1_0000_0000

  const U64: nat := 0x1_0000_0000_0000_0000

  datatype Option<+T> = None | Some(value: T)

  datatype Result<+T, +E> = Ok(value: T) | Err(error: E)

  /** What a poll of a future or stream answers. */
  datatype Poll<+T> = Pending | Ready(value: T)

  function Min(a: nat, b: nat): (m: nat)
    ensures m <= a && m <= b && (m == a || m == b)
  {
    if a <= b then a else b
  }

  lemma Wrap64(a: nat, b: nat)
    ensures (a % U64 + b) % U64 == (a + b) % U64
  {
  }

  lemma Wrap32(a: nat, b: nat)
    ensures (a % U32 + b) % U32 == (a + b) % U32
  {
  }

  /** The position of the first `b` in `bs` (what `memchr` computes). */
  function Find(b: byte, bs: Bytes): (r: Option<nat>)
    ensures r.Some? ==> r.value < |bs| && bs[r.value] == b && b !in bs[..r.value]
    ensures r.None? ==> b !in bs
  {
    if bs == [] then None
    else if bs[0] == b then Some(0)
    else
      match Find(b, bs[1..])
      case None => None
      case Some(i) =>
        assert bs[..i + 1] == [bs[0]] + bs[1..][..i];
        Some(i + 1)
  }

  /** A first occurrence is unique: any index with these two properties is the one found. */
  lemma FindUnique(b: byte, bs: Bytes, i: nat)
    requires i < |bs| && bs[i] == b && b !in bs[..i]
    ensures Find(b, bs) == Some(i)
  {
    var r := Find(b, bs);
    assert bs[i] in bs;
    assert forall k :: 0 <= k < i ==> bs[k] in bs[..i];
    assert forall k :: 0 <= k < r.value ==> bs[k] in bs[..r.value];
  }

  // Facts about concatenation that the solver should not rediscover inside larger proofs.

  lemma Associate<T>(xs: seq<T>, ys: seq<T>, zs: seq<T>)
    ensures xs + (ys + zs) == (xs + ys) + zs
  {
  }

  lemma DropPrefix<T>(xs: seq<T>, ys: seq<T>, i: nat)
    requires i <= |xs|
    ensures (xs + ys)[i..] == xs[i..] + ys
  {
  }

  lemma TakeNext<T>(xs: seq<T>, i: nat)
    requires i < |xs|
    ensures xs[..i + 1] == xs[..i] + [xs[i]]
  {
  }

  lemma Shift<T>(xs: seq<T>, x: T, ys: seq<T>)
    ensures xs + ([x] + ys) == (xs + [x]) + ys
  {
  }

  function Front<T>(xs: seq<T>): (r: seq<T>)
    requires xs != []
    ensures |r| == |xs| - 1
  {
    xs[..|xs| - 1]
  }

  function Last<T>(xs: seq<T>): (x: T)
    requires xs != []
    ensures xs == Front(xs) + [x]
  {
    xs[|xs| - 1]
  }

  lemma FrontLast<T>(xs: seq<T>, x: T)
    ensures Front(xs + [x]) == xs && Last(xs + [x]) == x
  {
  }
}
