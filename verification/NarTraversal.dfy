/** `write_nar` in its imperative form: a recursion over paths with a mutable child-path cursor. */
module NarTraversal {
  import opened ByteStrings
  import opened FileNames
  import opened NarTree
  import opened NarOrder

  type Path = seq<Name>

  /** What the file system holds at a path below the root. */
  function Lookup(root: Node, path: Path): (r: Option<Node>)
  {
    if path == [] then Some(root)
    else
      match Lookup(root, Front(path))
      case Some(Directory(entries)) =>
        if Last(path) in entries then Some(entries[Last(path)]) else None
      case _ => None
  }

  /** The enumeration of every directory yields each of its names once, in some order. */
  ghost predicate Enumerates(listing: Path -> seq<Name>, root: Node)
  {
    forall path :: EnumeratesAt(listing, root, path)
  }

  ghost predicate EnumeratesAt(listing: Path -> seq<Name>, root: Node, path: Path)
  {
    match Lookup(root, path)
    case Some(Directory(entries)) =>
      NoDuplicates(listing(path)) && NameSet(listing(path)) == entries.Keys
    case _ => true
  }

  class ArchiveWriter {
    var calls: seq<Call>

    constructor ()
      ensures calls == []
    {
      calls := [];
    }

    method Emit(call: Call)
      modifies this
      ensures calls == old(calls) + [call]
    {
      calls := calls + [call];
    }
  }

  /** Writes the node at a path.  The calls are those of the tree there, whatever the order in which
      the directories enumerate their entries. */
  method WriteNar(root: Node, path: Path, listing: Path -> seq<Name>, writer: ArchiveWriter)
    returns (ok: bool)
    requires Lookup(root, path).Some? && Enumerates(listing, root)
    modifies writer
    ensures var w := Walk(Lookup(root, path).value);
            writer.calls == old(writer.calls) + w.calls && ok == w.ok
    decreases Lookup(root, path).value, 1
  {
    var node := Lookup(root, path).value;
    match node {
      case Directory(_) =>
        ok := WriteDirectory(root, path, node, listing, writer);
      case Symlink(target) =>
        writer.Emit(WriteSymlink(target));
        ok := true;
      case Regular(executable, contents) =>
        writer.Emit(WriteFile(executable, |contents|, contents));
        ok := true;
      case Special =>
        ok := false;
        assert writer.calls + [] == writer.calls;
    }
  }

  method WriteDirectory(root: Node, path: Path, ghost node: Node, listing: Path -> seq<Name>,
      writer: ArchiveWriter)
    returns (ok: bool)
    requires Lookup(root, path) == Some(node) && node.Directory? && Enumerates(listing, root)
    modifies writer
    ensures writer.calls == old(writer.calls) + Walk(node).calls && ok == Walk(node).ok
    decreases node, 0, 1
  {
    assert EnumeratesAt(listing, root, path);
    writer.Emit(OpenDirectory);
    var names := ReadDirEntries(listing(path));
    assert forall i :: 0 <= i < |names| ==> names[i] in NameSet(names);
    ghost var inner := WalkEntries(node, names).calls;
    ok := WriteEntries(root, path, node, names, listing, writer);
    Close(old(writer.calls), inner);
    if ok {
      writer.Emit(CloseDirectory);
    }
  }

  /** The loop over a directory's entries.  The cursor is back at the directory after each child. */
  method WriteEntries(root: Node, path: Path, ghost node: Node, names: seq<Name>,
      listing: Path -> seq<Name>, writer: ArchiveWriter)
    returns (ok: bool)
    requires Lookup(root, path) == Some(node) && node.Directory? && Enumerates(listing, root)
    requires forall n :: n in names ==> n in node.entries
    modifies writer
    ensures var w := WalkEntries(node, names);
            writer.calls == old(writer.calls) + w.calls && ok == w.ok
    decreases node, 0, 0
  {
    var childPath := path;
    ghost var goal := writer.calls + WalkEntries(node, names).calls;
    assert names[0..] == names;
    var i := 0;
    while i < |names|
      invariant i <= |names| && childPath == path
      invariant writer.calls + WalkEntries(node, names[i..]).calls == goal
      invariant WalkEntries(node, names[i..]).ok == WalkEntries(node, names).ok
    {
      ghost var before := writer.calls;
      EntriesFrom(before, node, names, i);
      childPath := childPath + [names[i]];
      FrontLast(path, names[i]);
      ok := WriteEntry(root, childPath, names[i], listing, writer);
      if !ok {
        return;
      }
      childPath := childPath[..|childPath| - 1];
      i := i + 1;
    }
    assert writer.calls + [] == writer.calls;
    ok := true;
  }

  /** The calls for the entries from `i` on, after others: that entry's, then the rest, if it succeeds. */
  lemma EntriesFrom(before: seq<Call>, node: Node, names: seq<Name>, i: nat)
    requires node.Directory? && i < |names| && forall n :: n in names ==> n in node.entries
    ensures var w, child, rest :=
              WalkEntries(node, names[i..]), Walk(node.entries[names[i]]), WalkEntries(node, names[i + 1..]);
            var entry := [Entry(names[i])] + child.calls;
            if child.ok then
              before + w.calls == before + entry + rest.calls && w.ok == rest.ok
            else
              w.calls == entry && !w.ok
  {
    var later: seq<Name> := names[i..];
    assert later[0] == names[i] && later[1..] == names[i + 1..];
    Associate(before, [Entry(names[i])] + Walk(node.entries[names[i]]).calls,
              WalkEntries(node, names[i + 1..]).calls);
  }

  /** One entry: its name, then the node at the child path. */
  method WriteEntry(root: Node, childPath: Path, name: Name, listing: Path -> seq<Name>,
      writer: ArchiveWriter)
    returns (ok: bool)
    requires Lookup(root, childPath).Some? && Enumerates(listing, root)
    modifies writer
    ensures var w := Walk(Lookup(root, childPath).value);
            writer.calls == old(writer.calls) + ([Entry(name)] + w.calls) && ok == w.ok
    decreases Lookup(root, childPath).value, 2
  {
    writer.Emit(Entry(name));
    ok := WriteNar(root, childPath, listing, writer);
    Associate(old(writer.calls), [Entry(name)], Walk(Lookup(root, childPath).value).calls);
  }

  lemma Close(before: seq<Call>, inner: seq<Call>)
    ensures before + [OpenDirectory] + inner == before + ([OpenDirectory] + inner + [])
    ensures before + [OpenDirectory] + inner + [CloseDirectory]
         == before + ([OpenDirectory] + inner + [CloseDirectory])
  {
  }

  /** Writing a whole tree: it succeeds exactly if the tree is supported, and then decoding the calls
      gives the tree back, for every order in which the directories enumerate their entries.  In any
      case the entries of every directory come in strictly increasing bytewise order. */
  method WriteTree(root: Node, listing: Path -> seq<Name>) returns (calls: seq<Call>, ok: bool)
    requires Enumerates(listing, root)
    ensures ok <==> Supported(root)
    ensures ok ==> Decode(calls) == Some((root, []))
    ensures SiblingsIncrease(calls)
    ensures match root
            case Regular(executable, contents) =>
              calls == [WriteFile(executable, |contents|, contents)]
            case Symlink(target) => calls == [WriteSymlink(target)]
            case Special => calls == []
            case Directory(_) => calls != [] && calls[0].OpenDirectory? && (ok ==> Last(calls).CloseDirectory?)
    ensures calls == Walk(root).calls
  {
    var writer := new ArchiveWriter();
    ok := WriteNar(root, [], listing, writer);
    calls := writer.calls;
    assert [] + Walk(root).calls == Walk(root).calls;
    WalkSucceeds(root);
    EntriesAreOrdered(root);
    if ok {
      RoundTrip(root, []);
      assert calls + [] == calls;
    }
  }
}
