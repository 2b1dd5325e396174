/** Serializing a file tree as a NAR: the calls made on the archive writer, and a decoder that reads
    them back. */
module NarTree {
  import opened ByteStrings
  import opened FileNames

  datatype Node =
    | Directory(entries: map<Name, Node>)
    | Regular(executable: bool, contents: Bytes)
    | Symlink(target: Bytes)
    | Special  // a socket, a device, a pipe: not representable in a NAR

  /** The calls on the archive writer. */
  datatype Call =
    | OpenDirectory
    | Entry(name: Name)
    | CloseDirectory
    | WriteFile(executable: bool, size: nat, contents: Bytes)
    | WriteSymlink(target: Bytes)

  /** The calls made for a tree, and whether they end in success: the traversal stops at the first
      node that a NAR cannot represent. */
  datatype Walked = Walked(calls: seq<Call>, ok: bool)

  ghost function Walk(t: Node): Walked
    decreases t, 1, 0
  {
    match t
    case Directory(entries) =>
      var w := WalkEntries(t, SortedNames(entries.Keys));
      Walked([OpenDirectory] + w.calls + (if w.ok then [CloseDirectory] else []), w.ok)
    case Regular(executable, contents) =>
      Walked([WriteFile(executable, |contents|, contents)], true)
    case Symlink(target) => Walked([WriteSymlink(target)], true)
    case Special => Walked([], false)
  }

  ghost function WalkEntries(d: Node, names: seq<Name>): Walked
    requires d.Directory? && forall n :: n in names ==> n in d.entries
    decreases d, 0, |names|
  {
    if names == [] then Walked([], true)
    else
      var child := Walk(d.entries[names[0]]);
      if !child.ok then Walked([Entry(names[0])] + child.calls, false)
      else
        var rest := WalkEntries(d, names[1..]);
        Walked([Entry(names[0])] + child.calls + rest.calls, rest.ok)
  }

  /** A tree of directories, regular files and symlinks only. */
  predicate Supported(t: Node)
  {
    match t
    case Directory(entries) => forall n :: n in entries ==> Supported(entries[n])
    case Special => false
    case _ => true
  }

  /** The traversal succeeds exactly on supported trees. */
  lemma {:induction false} WalkSucceeds(t: Node)
    ensures Walk(t).ok <==> Supported(t)
    decreases t, 1, 0
  {
    if t.Directory? {
      var names := SortedNames(t.entries.Keys);
      WalkEntriesSucceeds(t, names);
      assert forall n :: n in t.entries <==> n in NameSet(names);
    }
  }

  lemma {:induction false} WalkEntriesSucceeds(d: Node, names: seq<Name>)
    requires d.Directory? && forall n :: n in names ==> n in d.entries
    ensures WalkEntries(d, names).ok <==> forall n :: n in names ==> Supported(d.entries[n])
    decreases d, 0, |names|
  {
    if names != [] {
      WalkSucceeds(d.entries[names[0]]);
      WalkEntriesSucceeds(d, names[1..]);
      assert forall n :: n in names <==> n == names[0] || n in names[1..];
    }
  }

  // --- Reading the calls back -------------------------------------------------------------

  /** Reads one node and leaves the rest.  Entry names must be strictly increasing. */
  function Decode(cs: seq<Call>): (r: Option<(Node, seq<Call>)>)
    ensures r.Some? ==> |r.value.1| < |cs|
    decreases |cs|
  {
    if cs == [] then None
    else
      match cs[0]
      case WriteFile(executable, size, contents) =>
        if size == |contents| then Some((Regular(executable, contents), cs[1..])) else None
      case WriteSymlink(target) => Some((Symlink(target), cs[1..]))
      case OpenDirectory =>
        (match DecodeEntries(cs[1..], None)
         case Some((entries, rest)) => Some((Directory(entries), rest))
         case None => None)
      case _ => None
  }

  function DecodeEntries(cs: seq<Call>, after: Option<Name>): (r: Option<(map<Name, Node>, seq<Call>)>)
    ensures r.Some? ==> |r.value.1| < |cs|
    decreases |cs|
  {
    if cs == [] then None
    else
      match cs[0]
      case CloseDirectory => Some((map[], cs[1..]))
      case Entry(name) =>
        if after.Some? && !Less(after.value, name) then None
        else
          (match Decode(cs[1..])
           case None => None
           case Some((child, rest)) =>
             match DecodeEntries(rest, Some(name))
             case None => None
             case Some((entries, rest')) => Some((entries[name := child], rest')))
      case _ => None
  }

  predicate Above(after: Option<Name>, ns: seq<Name>)
  {
    after.Some? ==> forall n :: n in ns ==> Less(after.value, n)
  }

  ghost function Restrict(m: map<Name, Node>, ns: seq<Name>): map<Name, Node>
  {
    map n | n in m && n in ns :: m[n]
  }

  lemma RestrictCons(m: map<Name, Node>, n: Name, ns: seq<Name>)
    requires n in m
    ensures Restrict(m, [n] + ns) == Restrict(m, ns)[n := m[n]]
  {
    assert forall x :: x in [n] + ns <==> x == n || x in ns;
  }

  /** Decoding the calls of a supported tree gives the tree back and leaves any suffix intact. */
  lemma {:induction false} RoundTrip(t: Node, suffix: seq<Call>)
    requires Supported(t)
    ensures Decode(Walk(t).calls + suffix) == Some((t, suffix))
    decreases t, 2
  {
    if t.Directory? {
      DirectoryRoundTrip(t, suffix);
    } else {
      assert (Walk(t).calls + suffix)[1..] == suffix;
    }
  }

  lemma DirectoryRoundTrip(t: Node, suffix: seq<Call>)
    requires Supported(t) && t.Directory?
    ensures Decode(Walk(t).calls + suffix) == Some((t, suffix))
    decreases t, 1
  {
    var names := SortedNames(t.entries.Keys);
    assert forall n :: n in names <==> n in NameSet(names);
    WalkSucceeds(t);
    EntriesRoundTrip(t, names, None, suffix);
    assert Restrict(t.entries, names) == t.entries;
    DirectoryCalls(WalkEntries(t, names).calls, suffix);
    var calls := Walk(t).calls + suffix;
    assert calls == [OpenDirectory] + calls[1..];
  }

  lemma {:induction false} EntriesRoundTrip(d: Node, names: seq<Name>, after: Option<Name>,
      suffix: seq<Call>)
    requires Supported(d) && d.Directory? && forall n :: n in names ==> n in d.entries
    requires Increasing(names) && Above(after, names)
    ensures DecodeEntries(WalkEntries(d, names).calls + ([CloseDirectory] + suffix), after)
         == Some((Restrict(d.entries, names), suffix))
    decreases d, 0, |names|
  {
    var tail := [CloseDirectory] + suffix;
    if names == [] {
      assert tail[1..] == suffix && [] + tail == tail;
    } else {
      var n, ns := names[0], names[1..];
      assert names == [n] + ns && n in names;
      var child, rest := Walk(d.entries[n]).calls, WalkEntries(d, ns).calls;
      WalkSucceeds(d.entries[n]);
      RoundTrip(d.entries[n], rest + tail);
      TailNames(names);
      assert Above(Some(n), ns);
      EntriesRoundTrip(d, ns, Some(n), suffix);
      RestrictCons(d.entries, n, ns);
      EntryCalls(n, child, rest, tail);
    }
  }

  lemma EntryCalls(n: Name, child: seq<Call>, rest: seq<Call>, tail: seq<Call>)
    ensures var cs := [Entry(n)] + child + rest + tail;
            cs[0] == Entry(n) && cs[1..] == child + (rest + tail)
  {
  }

  // --- Canonicity -------------------------------------------------------------------------

  /** The decoder accepts nothing else: what it reads as a tree are exactly that tree's calls. */
  lemma {:induction false} Canonical(cs: seq<Call>)
    requires Decode(cs).Some?
    ensures var (t, rest) := Decode(cs).value; Supported(t) && cs == Walk(t).calls + rest
    decreases |cs|
  {
    var (t, rest) := Decode(cs).value;
    assert cs == [cs[0]] + cs[1..];
    if cs[0].OpenDirectory? {
      var names := CanonicalEntries(cs[1..], None);
      IncreasingIsUnique(names, SortedNames(t.entries.Keys));
      WalkSucceeds(t);
      SameEntries(t, t, names);
      DirectoryCalls(WalkEntries(t, names).calls, rest);
    }
  }

  lemma DirectoryCalls(inner: seq<Call>, rest: seq<Call>)
    ensures [OpenDirectory] + (inner + ([CloseDirectory] + rest))
         == [OpenDirectory] + inner + [CloseDirectory] + rest
    ensures ([OpenDirectory] + inner + [CloseDirectory] + rest)[1..]
         == inner + ([CloseDirectory] + rest)
  {
  }

  /** The calls for some entries depend only on those entries. */
  lemma {:induction false} SameEntries(d: Node, e: Node, names: seq<Name>)
    requires d.Directory? && e.Directory?
    requires forall n :: n in names ==> n in d.entries && n in e.entries && d.entries[n] == e.entries[n]
    ensures WalkEntries(d, names) == WalkEntries(e, names)
    decreases |names|
  {
    if names != [] {
      assert names[0] in names;
      SameEntries(d, e, names[1..]);
    }
  }

  lemma {:induction false} CanonicalEntries(cs: seq<Call>, after: Option<Name>)
    returns (names: seq<Name>)
    requires DecodeEntries(cs, after).Some?
    ensures var (entries, rest) := DecodeEntries(cs, after).value;
            && Increasing(names) && Above(after, names) && NameSet(names) == entries.Keys
            && Supported(Directory(entries))
            && cs == WalkEntries(Directory(entries), names).calls + ([CloseDirectory] + rest)
    decreases |cs|
  {
    var (entries, rest) := DecodeEntries(cs, after).value;
    assert cs == [cs[0]] + cs[1..];
    if cs[0].CloseDirectory? {
      names := [];
      assert [] + cs == cs;
    } else {
      var n := cs[0].name;
      var (child, rest1) := Decode(cs[1..]).value;
      var (others, _) := DecodeEntries(rest1, Some(n)).value;
      Canonical(cs[1..]);
      var ns := CanonicalEntries(rest1, Some(n));
      names := [n] + ns;
      IncreasingCons(n, ns);
      AboveCons(after, n, ns);
      NameSetCons(n, ns);
      AddEntry(others, n, child, ns);
      EntryCalls(n, Walk(child).calls, WalkEntries(Directory(others), ns).calls, [CloseDirectory] + rest);
    }
  }

  /** Adding one supported entry in front of a directory's. */
  lemma AddEntry(others: map<Name, Node>, n: Name, child: Node, ns: seq<Name>)
    requires NameSet(ns) == others.Keys && Above(Some(n), ns)
    requires Supported(Directory(others)) && Supported(child)
    requires forall x :: x in ns ==> x in others
    ensures var d := Directory(others[n := child]);
            && Supported(d)
            && (forall x :: x in [n] + ns ==> x in d.entries)
            && WalkEntries(d, [n] + ns).calls
               == [Entry(n)] + Walk(child).calls + WalkEntries(Directory(others), ns).calls
  {
    var d, names := Directory(others[n := child]), [n] + ns;
    assert n !in ns by {
      LessTotal(n, n);
    }
    assert forall x :: x in names <==> x == n || x in ns;
    assert names[0] == n && names[1..] == ns;
    WalkSucceeds(child);
    SameEntries(d, Directory(others), ns);
  }

  lemma AboveCons(after: Option<Name>, n: Name, ns: seq<Name>)
    requires Above(Some(n), ns) && (after.Some? ==> Less(after.value, n))
    ensures Above(after, [n] + ns)
  {
    if after.Some? {
      forall x | x in [n] + ns
        ensures Less(after.value, x)
      {
        if x != n {
          LessTransitive(after.value, n, x);
        }
      }
    }
  }

  /** Different trees have different calls. */
  lemma WalkIsInjective(t: Node, u: Node)
    requires Supported(t) && Supported(u) && Walk(t).calls == Walk(u).calls
    ensures t == u
  {
    RoundTrip(t, []);
    RoundTrip(u, []);
  }
}
