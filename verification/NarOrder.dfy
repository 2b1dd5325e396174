/** The order of the entries of an archive, read off the calls alone: a directory's entries are those
    at the same depth with nothing shallower in between. */
module NarOrder {
  import opened ByteStrings
  import opened FileNames
  import opened NarTree

  function Change(call: Call): int
  {
    match call
    case OpenDirectory => 1
    case CloseDirectory => -1
    case _ => 0
  }

  /** How many directories are open before call `k`. */
  function DepthAt(cs: seq<Call>, k: nat): int
    requires k <= |cs|
  {
    if k == 0 then 0 else DepthAt(cs, k - 1) + Change(cs[k - 1])
  }

  function Depth(cs: seq<Call>): int
  {
    DepthAt(cs, |cs|)
  }

  /** Two entries, `i` before `j`, of one and the same directory. */
  predicate Siblings(cs: seq<Call>, i: nat, j: nat)
  {
    && i < j < |cs| && cs[i].Entry? && cs[j].Entry?
    && DepthAt(cs, i) == DepthAt(cs, j)
    && forall k :: i <= k <= j ==> DepthAt(cs, k) >= DepthAt(cs, i)
  }

  /** The entries of every directory are in strictly increasing bytewise order. */
  ghost predicate SiblingsIncrease(cs: seq<Call>)
  {
    forall i: nat, j: nat :: Siblings(cs, i, j) ==> Before(cs[i].name, cs[j].name)
  }

  // --- Depth of concatenations ------------------------------------------------------------

  lemma DepthOfOne(call: Call)
    ensures Depth([call]) == Change(call)
  {
    assert DepthAt([call], 1) == DepthAt([call], 0) + Change(call);
  }

  lemma {:induction false} DepthInFirst(a: seq<Call>, b: seq<Call>, k: nat)
    requires k <= |a|
    ensures DepthAt(a + b, k) == DepthAt(a, k)
  {
    if k > 0 {
      DepthInFirst(a, b, k - 1);
    }
  }

  lemma {:induction false} DepthInSecond(a: seq<Call>, b: seq<Call>, k: nat)
    requires k <= |b|
    ensures DepthAt(a + b, |a| + k) == Depth(a) + DepthAt(b, k)
  {
    if k == 0 {
      DepthInFirst(a, b, |a|);
    } else {
      DepthInSecond(a, b, k - 1);
    }
  }

  lemma SiblingsInFirst(a: seq<Call>, b: seq<Call>, i: nat, j: nat)
    requires Siblings(a + b, i, j) && j < |a|
    ensures Siblings(a, i, j) && a[i] == (a + b)[i] && a[j] == (a + b)[j]
  {
    forall k | i <= k <= j
      ensures DepthAt(a + b, k) == DepthAt(a, k)
    {
      DepthInFirst(a, b, k);
    }
  }

  lemma SiblingsInSecond(a: seq<Call>, b: seq<Call>, i: nat, j: nat)
    requires Siblings(a + b, i, j) && |a| <= i
    ensures Siblings(b, i - |a|, j - |a|)
    ensures b[i - |a|] == (a + b)[i] && b[j - |a|] == (a + b)[j]
  {
    forall k | i <= k <= j
      ensures DepthAt(a + b, k) == Depth(a) + DepthAt(b, k - |a|)
    {
      DepthInSecond(a, b, k - |a|);
    }
    forall k | i - |a| <= k <= j - |a|
      ensures DepthAt(b, k) >= DepthAt(b, i - |a|)
    {
      assert DepthAt(a + b, k + |a|) >= DepthAt(a + b, i);
    }
  }

  /** If nothing in the second list is shallower than its start, and the first list is followed by no
      sibling across, siblings lie within one of the two. */
  lemma JoinSiblings(a: seq<Call>, b: seq<Call>)
    requires SiblingsIncrease(a) && SiblingsIncrease(b)
    requires forall i: nat, j: nat :: i < |a| <= j && Siblings(a + b, i, j) ==>
               Before((a + b)[i].name, (a + b)[j].name)
    ensures SiblingsIncrease(a + b)
  {
    forall i: nat, j: nat | Siblings(a + b, i, j)
      ensures Before((a + b)[i].name, (a + b)[j].name)
    {
      if j < |a| {
        SiblingsInFirst(a, b, i, j);
      } else if |a| <= i {
        SiblingsInSecond(a, b, i, j);
      }
    }
  }

  // --- Depth in the calls of a tree -------------------------------------------------------

  ghost predicate NeverBelow(cs: seq<Call>, depth: int)
  {
    forall k :: 0 <= k <= |cs| ==> DepthAt(cs, k) >= depth
  }

  /** Entries are inside a directory. */
  ghost predicate EntriesInside(cs: seq<Call>)
  {
    forall k :: 0 <= k < |cs| && cs[k].Entry? ==> DepthAt(cs, k) >= 1
  }

  /** Entries inside no directory have these names. */
  ghost predicate TopNames(cs: seq<Call>, names: seq<Name>)
  {
    forall k :: 0 <= k < |cs| && cs[k].Entry? && DepthAt(cs, k) == 0 ==> cs[k].name in names
  }

  lemma JoinNeverBelow(a: seq<Call>, b: seq<Call>)
    requires NeverBelow(a, 0) && NeverBelow(b, -Depth(a))
    ensures NeverBelow(a + b, 0)
  {
    forall k | 0 <= k <= |a + b|
      ensures DepthAt(a + b, k) >= 0
    {
      if k <= |a| {
        DepthInFirst(a, b, k);
      } else {
        DepthInSecond(a, b, k - |a|);
      }
    }
  }

  lemma JoinTopNames(a: seq<Call>, b: seq<Call>, names: seq<Name>)
    requires Depth(a) == 0 && TopNames(a, names) && TopNames(b, names)
    ensures TopNames(a + b, names)
  {
    var cs := a + b;
    forall k | 0 <= k < |cs| && cs[k].Entry? && DepthAt(cs, k) == 0
      ensures cs[k].name in names
    {
      if k < |a| {
        DepthInFirst(a, b, k);
        assert cs[k] == a[k];
      } else {
        DepthInSecond(a, b, k - |a|);
        assert cs[k] == b[k - |a|];
      }
    }
  }

  /** The calls for the first entry and those for the others. */
  lemma JoinDepth(first: seq<Call>, rest: seq<Call>, names: seq<Name>)
    requires names != [] && Depth(first) == 0
    requires NeverBelow(first, 0) && TopNames(first, names)
    requires NeverBelow(rest, 0) && TopNames(rest, names[1..])
    ensures NeverBelow(first + rest, 0) && TopNames(first + rest, names)
    ensures Depth(first + rest) == Depth(rest)
  {
    JoinNeverBelow(first, rest);
    JoinTopNames(first, rest, names);
    DepthInSecond(first, rest, |rest|);
  }

  lemma {:induction false} NodeDepth(t: Node)
    ensures var w := Walk(t);
            NeverBelow(w.calls, 0) && EntriesInside(w.calls) && (w.ok ==> Depth(w.calls) == 0)
    decreases t, 1, 0
  {
    if t.Directory? {
      var names := SortedNames(t.entries.Keys);
      assert forall n :: n in names <==> n in NameSet(names);
      var w := WalkEntries(t, names);
      EntriesDepth(t, names);
      DirectoryDepth(w.calls, if w.ok then [CloseDirectory] else []);
    } else if Walk(t).ok {
      DepthOfOne(Walk(t).calls[0]);
    }
  }

  lemma DirectoryDepth(inner: seq<Call>, closing: seq<Call>)
    requires NeverBelow(inner, 0) && (closing == [] || (closing == [CloseDirectory] && Depth(inner) == 0))
    ensures var cs := [OpenDirectory] + inner + closing;
            && NeverBelow(cs, 0) && EntriesInside(cs) && (closing != [] ==> Depth(cs) == 0)
  {
    var open := [OpenDirectory] + inner;
    var cs := open + closing;
    DepthOfOne(OpenDirectory);
    DepthOfOne(CloseDirectory);
    forall k | 0 < k <= |open|
      ensures DepthAt(open, k) >= 1 && DepthAt(cs, k) >= 1
    {
      DepthInSecond([OpenDirectory], inner, k - 1);
      DepthInFirst(open, closing, k);
    }
    DepthInSecond([OpenDirectory], inner, |inner|);
    DepthInSecond(open, closing, |closing|);
  }

  lemma {:induction false} EntriesDepth(d: Node, names: seq<Name>)
    requires d.Directory? && forall n :: n in names ==> n in d.entries
    ensures var w := WalkEntries(d, names);
            && NeverBelow(w.calls, 0) && TopNames(w.calls, names)
            && (w.ok ==> Depth(w.calls) == 0)
    decreases d, 0, |names|
  {
    if names != [] {
      var child := Walk(d.entries[names[0]]);
      NodeDepth(d.entries[names[0]]);
      EntryDepth(names[0], child.calls, names);
      if child.ok {
        EntriesDepth(d, names[1..]);
        JoinDepth([Entry(names[0])] + child.calls, WalkEntries(d, names[1..]).calls, names);
      }
    }
  }

  /** The calls for one entry. */
  lemma EntryDepth(name: Name, child: seq<Call>, names: seq<Name>)
    requires NeverBelow(child, 0) && EntriesInside(child) && name in names
    ensures var cs := [Entry(name)] + child;
            && NeverBelow(cs, 0) && TopNames(cs, names) && Depth(cs) == Depth(child)
            && (forall k :: 0 < k < |cs| && cs[k].Entry? ==> DepthAt(cs, k) >= 1)
  {
    var head := [Entry(name)];
    var cs := head + child;
    DepthOfOne(Entry(name));
    DepthInSecond(head, child, |child|);
    forall k | 0 < k <= |cs|
      ensures DepthAt(cs, k) >= 0
      ensures k < |cs| && cs[k].Entry? ==> DepthAt(cs, k) >= 1
    {
      DepthInSecond(head, child, k - 1);
      assert k < |cs| ==> cs[k] == child[k - 1];
    }
  }

  // --- Siblings in the calls of a tree ----------------------------------------------------

  /** In the calls made for a tree, the entries of every directory are in strictly increasing bytewise
      order, at every depth. */
  lemma {:induction false} EntriesAreOrdered(t: Node)
    ensures SiblingsIncrease(Walk(t).calls)
    decreases t, 1, 0
  {
    if t.Directory? {
      var names := SortedNames(t.entries.Keys);
      assert forall n :: n in names <==> n in NameSet(names);
      var w := WalkEntries(t, names);
      EntriesSiblings(t, names);
      JoinSiblings([OpenDirectory], w.calls);
      JoinSiblings([OpenDirectory] + w.calls, if w.ok then [CloseDirectory] else []);
    }
  }

  /** The decoder accepts no other order. */
  lemma DecoderDemandsOrder(cs: seq<Call>)
    requires Decode(cs).Some? && Decode(cs).value.1 == []
    ensures SiblingsIncrease(cs)
  {
    Canonical(cs);
    var t := Decode(cs).value.0;
    assert cs == Walk(t).calls;
    EntriesAreOrdered(t);
  }

  lemma {:induction false} EntriesSiblings(d: Node, names: seq<Name>)
    requires d.Directory? && (forall n :: n in names ==> n in d.entries) && Increasing(names)
    ensures SiblingsIncrease(WalkEntries(d, names).calls)
    decreases d, 0, |names|
  {
    if names != [] {
      var child := Walk(d.entries[names[0]]);
      EntriesAreOrdered(d.entries[names[0]]);
      NodeDepth(d.entries[names[0]]);
      EntrySiblings(names[0], child.calls, names);
      if child.ok {
        var first: seq<Call>, rest := [Entry(names[0])] + child.calls, WalkEntries(d, names[1..]).calls;
        TailNames(names);
        EntriesSiblings(d, names[1..]);
        EntriesDepth(d, names[1..]);
        EntryDepth(names[0], child.calls, names);
        forall i: nat, j: nat | i < |first| <= j && Siblings(first + rest, i, j)
          ensures Before((first + rest)[i].name, (first + rest)[j].name)
        {
          AcrossEntries(first, rest, i, j);
          LaterName(names, (first + rest)[j].name);
        }
        JoinSiblings(first, rest);
      }
    }
  }

  lemma LaterName(names: seq<Name>, later: Name)
    requires names != [] && Increasing(names) && later in names[1..]
    ensures Before(names[0], later)
  {
    var m :| 0 <= m < |names[1..]| && names[1..][m] == later;
    assert later == names[m + 1];
    LessIsBytewise(names[0], later);
  }

  /** An entry has no siblings among the entries below it. */
  lemma EntrySiblings(name: Name, child: seq<Call>, names: seq<Name>)
    requires NeverBelow(child, 0) && EntriesInside(child) && SiblingsIncrease(child) && name in names
    ensures SiblingsIncrease([Entry(name)] + child)
  {
    var head := [Entry(name)];
    EntryDepth(name, child, names);
    JoinSiblings(head, child);
  }

  /** Siblings on both sides of the end of an entry's calls are that entry and a later one. */
  lemma AcrossEntries(first: seq<Call>, rest: seq<Call>, i: nat, j: nat)
    requires Depth(first) == 0 && Siblings(first + rest, i, j) && i < |first| <= j
    requires forall k :: 0 < k < |first| && first[k].Entry? ==> DepthAt(first, k) >= 1
    ensures i == 0 && (first + rest)[j] == rest[j - |first|] && DepthAt(rest, j - |first|) == 0
  {
    var cs := first + rest;
    DepthInFirst(first, rest, i);
    DepthInFirst(first, rest, |first|);
    DepthInSecond(first, rest, j - |first|);
    assert DepthAt(cs, |first|) >= DepthAt(cs, i);
    assert cs[i] == first[i];
  }
}
