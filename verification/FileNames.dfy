/** File names, their bytewise order, and the sorted listing of a directory. */
module FileNames {
  import opened ByteStrings

  type Name = Bytes

  /** The order of byte strings in which a NAR lists the entries of a directory: after the longest
      common prefix, which has length `k`, the first ends or has the smaller byte. */
  predicate BeforeAt(a: Name, b: Name, k: nat)
  {
    k <= |a| && k < |b| && a[..k] == b[..k] && (k == |a| || a[k] < b[k])
  }

  predicate Before(a: Name, b: Name)
  {
    exists k: nat :: k <= |a| && BeforeAt(a, b, k)
  }

  /** The same order, compared byte by byte. */
  predicate Less(a: Name, b: Name)
  {
    b != [] && (a == [] || a[0] < b[0] || (a[0] == b[0] && Less(a[1..], b[1..])))
  }

  lemma SameFirstByte(a: Name, b: Name, k: nat)
    requires BeforeAt(a, b, k)
    ensures k > 0 ==> a[0] == b[0]
  {
    assert k > 0 ==> a[0] == a[..k][0] && b[0] == b[..k][0];
  }

  /** The comparison is the bytewise lexicographic order. */
  lemma {:induction false} LessIsBytewise(a: Name, b: Name)
    ensures Less(a, b) <==> Before(a, b)
  {
    if a == [] || b == [] || a[0] != b[0] {
      assert b != [] && (a == [] || a[0] < b[0]) ==> BeforeAt(a, b, 0);
      forall k: nat | BeforeAt(a, b, k)
        ensures Less(a, b)
      {
        SameFirstByte(a, b, k);
      }
    } else {
      LessIsBytewise(a[1..], b[1..]);
      forall k: nat | BeforeAt(a[1..], b[1..], k)
        ensures BeforeAt(a, b, k + 1)
      {
        assert a[..k + 1] == [a[0]] + a[1..][..k] && b[..k + 1] == [b[0]] + b[1..][..k];
      }
      forall k: nat | BeforeAt(a, b, k)
        ensures k > 0 && BeforeAt(a[1..], b[1..], k - 1)
      {
        assert a[1..][..k - 1] == a[..k][1..] && b[1..][..k - 1] == b[..k][1..];
      }
    }
  }

  lemma {:induction false} LessTotal(a: Name, b: Name)
    ensures Less(a, b) || a == b || Less(b, a)
    ensures !(Less(a, b) && Less(b, a)) && !Less(a, a)
  {
    if a != [] {
      LessTotal(a[1..], a[1..]);
      if b != [] {
        LessTotal(a[1..], b[1..]);
        assert a[0] == b[0] && a[1..] == b[1..] ==> a == b by {
          assert a == [a[0]] + a[1..] && b == [b[0]] + b[1..];
        }
      }
    }
  }

  lemma {:induction false} LessTransitive(a: Name, b: Name, c: Name)
    requires Less(a, b) && Less(b, c)
    ensures Less(a, c)
  {
    if a != [] && a[0] == b[0] && b[0] == c[0] {
      LessTransitive(a[1..], b[1..], c[1..]);
    }
  }

  predicate Increasing(ns: seq<Name>)
  {
    forall i, j :: 0 <= i < j < |ns| ==> Less(ns[i], ns[j])
  }

  lemma IncreasingIsBytewise(ns: seq<Name>)
    requires Increasing(ns)
    ensures forall i, j :: 0 <= i < j < |ns| ==> Before(ns[i], ns[j])
  {
    forall i, j | 0 <= i < j < |ns|
      ensures Before(ns[i], ns[j])
    {
      LessIsBytewise(ns[i], ns[j]);
    }
  }

  predicate NoDuplicates(ns: seq<Name>)
  {
    forall i, j :: 0 <= i < j < |ns| ==> ns[i] != ns[j]
  }

  function NameSet(ns: seq<Name>): (s: set<Name>)
  {
    set n | n in ns
  }

  function Insert(n: Name, ns: seq<Name>): (r: seq<Name>)
  {
    if ns == [] || !Less(ns[0], n) then [n] + ns else [ns[0]] + Insert(n, ns[1..])
  }

  /** What `sort` leaves in the vector. */
  function Sort(ns: seq<Name>): (r: seq<Name>)
  {
    if ns == [] then [] else Insert(ns[0], Sort(ns[1..]))
  }

  lemma NameSetCons(n: Name, ns: seq<Name>)
    ensures NameSet([n] + ns) == {n} + NameSet(ns)
    ensures multiset([n] + ns) == multiset{n} + multiset(ns)
  {
    assert forall x :: x in [n] + ns <==> x == n || x in ns;
  }

  /** A list is increasing if its tail is and its head comes before everything in the tail. */
  lemma IncreasingCons(n: Name, ns: seq<Name>)
    requires Increasing(ns) && forall x :: x in ns ==> Less(n, x)
    ensures Increasing([n] + ns)
  {
    var r := [n] + ns;
    forall i, j | 0 <= i < j < |r|
      ensures Less(r[i], r[j])
    {
      assert r[j] == ns[j - 1];
    }
  }

  lemma HeadIsBelow(n: Name, ns: seq<Name>)
    requires Increasing(ns) && n !in ns && (ns == [] || !Less(ns[0], n))
    ensures forall x :: x in ns ==> Less(n, x)
  {
    forall x | x in ns
      ensures Less(n, x)
    {
      LessTotal(n, ns[0]);
      assert ns[0] in ns;
      if x != ns[0] {
        LessTransitive(n, ns[0], x);
      }
    }
  }

  lemma {:induction false} InsertOk(n: Name, ns: seq<Name>)
    requires Increasing(ns) && n !in ns
    ensures Increasing(Insert(n, ns))
    ensures multiset(Insert(n, ns)) == multiset{n} + multiset(ns)
    ensures NameSet(Insert(n, ns)) == {n} + NameSet(ns)
  {
    if ns == [] || !Less(ns[0], n) {
      HeadIsBelow(n, ns);
      IncreasingCons(n, ns);
      NameSetCons(n, ns);
    } else {
      var head, tail := ns[0], ns[1..];
      assert ns == [head] + tail;
      NameSetCons(head, tail);
      TailNames(ns);
      InsertOk(n, tail);
      var r := Insert(n, tail);
      assert forall x :: x in r ==> x in NameSet(r);
      assert forall x :: x in tail ==> Less(head, x);
      IncreasingCons(head, r);
      NameSetCons(head, r);
    }
  }

  /** Sorting a listing without duplicates puts it in strictly increasing order and keeps exactly
      its names. */
  lemma {:induction false} SortOk(ns: seq<Name>)
    requires NoDuplicates(ns)
    ensures Increasing(Sort(ns)) && multiset(Sort(ns)) == multiset(ns)
    ensures NameSet(Sort(ns)) == NameSet(ns)
    ensures forall i, j :: 0 <= i < j < |Sort(ns)| ==> Before(Sort(ns)[i], Sort(ns)[j])
  {
    if ns != [] {
      SortOk(ns[1..]);
      assert ns == [ns[0]] + ns[1..];
      assert ns[0] !in NameSet(ns[1..]);
      assert ns[0] !in Sort(ns[1..]) by {
        assert ns[0] !in NameSet(Sort(ns[1..]));
      }
      InsertOk(ns[0], Sort(ns[1..]));
      NameSetCons(ns[0], ns[1..]);
    }
    IncreasingIsBytewise(Sort(ns));
  }

  lemma FirstIsLeast(ns: seq<Name>, n: Name)
    requires Increasing(ns) && ns != [] && n in ns
    ensures n == ns[0] || Less(ns[0], n)
  {
  }

  /** Strictly increasing lists with the same names are equal: a directory has one sorted listing,
      whatever the order of its enumeration. */
  lemma {:induction false} IncreasingIsUnique(xs: seq<Name>, ys: seq<Name>)
    requires Increasing(xs) && Increasing(ys) && NameSet(xs) == NameSet(ys)
    ensures xs == ys
  {
    if xs == [] {
      assert forall i :: 0 <= i < |ys| ==> ys[i] in NameSet(ys);
    } else {
      assert xs[0] in NameSet(xs);
      assert ys != [] && ys[0] in NameSet(ys);
      FirstIsLeast(xs, ys[0]);
      FirstIsLeast(ys, xs[0]);
      LessTotal(xs[0], ys[0]);
      TailNames(xs);
      TailNames(ys);
      IncreasingIsUnique(xs[1..], ys[1..]);
      assert xs == [xs[0]] + xs[1..] && ys == [ys[0]] + ys[1..];
    }
  }

  lemma TailNames(ns: seq<Name>)
    requires Increasing(ns) && ns != []
    ensures NameSet(ns[1..]) == NameSet(ns) - {ns[0]} && Increasing(ns[1..])
  {
    LessTotal(ns[0], ns[0]);
    assert ns == [ns[0]] + ns[1..];
    assert forall i :: 0 <= i < |ns[1..]| ==> ns[1..][i] == ns[i + 1] && Less(ns[0], ns[i + 1]);
    assert ns[0] !in ns[1..];
    assert forall x :: x in ns <==> x == ns[0] || x in ns[1..];
  }

  /** The sorted listing of a set of names. */
  ghost function SortedNames(s: set<Name>): (ns: seq<Name>)
    ensures Increasing(ns) && NameSet(ns) == s
  {
    var listing := SomeListing(s);
    SortOk(listing);
    Sort(listing)
  }

  ghost function SomeListing(s: set<Name>): (ns: seq<Name>)
    ensures NoDuplicates(ns) && NameSet(ns) == s
  {
    if s == {} then []
    else
      var n :| n in s;
      var rest := SomeListing(s - {n});
      assert forall i :: 0 <= i < |rest| ==> rest[i] in NameSet(rest);
      NameSetCons(n, rest);
      assert s == {n} + (s - {n});
      [n] + rest
  }

  /** `read_dir_entries`: collect what the enumeration yields, then sort.  The result depends only
      on which names there are. */
  method ReadDirEntries(listing: seq<Name>) returns (names: seq<Name>)
    requires NoDuplicates(listing)
    ensures names == SortedNames(NameSet(listing))
    ensures multiset(names) == multiset(listing)
    ensures forall i, j :: 0 <= i < j < |names| ==> Before(names[i], names[j])
  {
    names := [];
    var i := 0;
    while i < |listing|
      invariant i <= |listing| && names == listing[..i]
    {
      TakeNext(listing, i);
      names := names + [listing[i]];
      i := i + 1;
    }
    assert names == listing;
    names := Sort(names);
    SortOk(listing);
    IncreasingIsUnique(names, SortedNames(NameSet(listing)));
    IncreasingIsBytewise(names);
  }
}
