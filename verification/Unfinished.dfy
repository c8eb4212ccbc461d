/** What a shared folder shows of uploads: Walk and Stat against the names that
    Save gives its temporary files (internal/transfer/save.go and
    internal/transfer/download.go). */
module Unfinished {
  import opened Options
  import opened Text
  import opened Paths
  import opened SharedFolders
  import opened FolderWalk
  import Names
  import SaveProtocol

  /** No element is a name of a temporary file. */
  predicate Shown(parts: seq<string>) { forall k :: 0 <= k < |parts| ==> !Names.IsTemp(parts[k]) }

  /** A regular file of this size is there, reached through folders only. */
  predicate Holds(n: Node, parts: seq<string>, size: nat) { Lstat(n, parts) == Some(File(size)) }

  lemma PartialIsTemp(name: string)
    ensures IsPartial(name) <==> Names.IsTemp(name)
  {
  }

  lemma {:induction false} LstatFirst(n: Node, parts: seq<string>)
    requires parts != []
    ensures Lstat(n, parts) == if n.Dir? && Lookup(n.children, parts[0]).Some?
                               then Lstat(Lookup(n.children, parts[0]).value, parts[1..]) else None
    decreases |parts|
  {
    var init := parts[..|parts| - 1];
    if init == [] {
      assert parts[1..] == [];
    } else {
      LstatFirst(n, init);
      assert init[1..] == parts[1..][..|parts[1..]| - 1];
    }
  }

  /** The files Stat finds and Walk visits are those there under names that are
      not temporary. */
  lemma {:induction false} FileAtExactly(n: Node, parts: seq<string>, size: nat)
    ensures FileAt(n, parts) == Some(size) <==> Holds(n, parts, size) && Shown(parts)
    decreases |parts|
  {
    if parts != [] {
      LstatFirst(n, parts);
      PartialIsTemp(parts[0]);
      if n.Dir? && Lookup(n.children, parts[0]).Some? {
        FileAtExactly(Lookup(n.children, parts[0]).value, parts[1..], size);
      }
      assert Shown(parts) <==> !Names.IsTemp(parts[0]) && Shown(parts[1..]) by {
        ShownSplit(parts);
      }
    }
  }

  lemma ShownSplit(parts: seq<string>)
    requires parts != []
    ensures Shown(parts) <==> !Names.IsTemp(parts[0]) && Shown(parts[1..])
  {
    assert parts == [parts[0]] + parts[1..];
  }

  /** A clean path is listed with a size exactly if a regular file of this size
      is there and no element is a temporary name. */
  lemma {:induction false} ListedExactly(dir: Node, p: string, size: nat)
    requires WellFormed(dir) && dir.Dir? && CleanPath(p)
    ensures Entry(p, size) in Listing(dir) <==> Holds(dir, Split(p, '/'), size) && Shown(Split(p, '/'))
  {
    ListedIsFile(dir, p, size);
    FileAtExactly(dir, Split(p, '/'), size);
  }

  /** Whatever is listed, also under a path that cannot be fetched, has no
      temporary name anywhere in it. */
  lemma {:induction false} NothingUnfinishedIsListed(dir: Node, e: Entry)
    requires WellFormed(dir) && dir.Dir? && e in Listing(dir)
    ensures Holds(dir, Split(e.path, '/'), e.size) && Shown(Split(e.path, '/'))
  {
    var items, parts := Items(dir, []), Split(e.path, '/');
    ListingIsSorted(dir);
    assert e in multiset(Entries(items));
    EntryIsItem(dir, e.path, e.size);
    VisitedIsFile(dir, [], parts, e.size);
    assert [] + parts == parts;
    FileAtExactly(dir, parts, e.size);
  }

  /** Stat finds exactly what is there, a folder or a regular file, reached
      through folders only and under no temporary name. */
  lemma {:induction false} StatExactly(n: Node, parts: seq<string>, node: Node)
    requires parts != []
    ensures StatAt(n, parts) == Found(node) <==>
              Lstat(n, parts) == Some(node) && (node.Dir? || node.File?) && Shown(parts)
    decreases |parts|
  {
    LstatFirst(n, parts);
    PartialIsTemp(parts[0]);
    ShownSplit(parts);
    if n.Dir? && Lookup(n.children, parts[0]).Some? {
      var c := Lookup(n.children, parts[0]).value;
      if |parts| > 1 {
        LstatFirst(c, parts[1..]);
        StatExactly(c, parts[1..], node);
      } else {
        assert parts[1..] == [];
      }
    }
  }

  /** Stat finds a regular file exactly where one is, under no temporary name. */
  lemma {:induction false} FoundExactly(root: Node, rel: string, size: nat)
    requires CleanPath(Trim(rel))
    ensures StatSpec(root, rel) == Found(File(size)) <==>
              Holds(root, Split(Trim(rel), '/'), size) && Shown(Split(Trim(rel), '/'))
  {
    var parts := Split(Trim(rel), '/');
    StatIsFileAt(root, parts);
    FileAtExactly(root, parts, size);
  }

  /** And nothing at all, file or folder, through a temporary name. */
  lemma {:induction false} NothingUnfinishedIsFound(n: Node, parts: seq<string>)
    requires parts != [] && StatAt(n, parts).Found?
    ensures Shown(parts)
    decreases |parts|
  {
    PartialIsTemp(parts[0]);
    if |parts| > 1 {
      NothingUnfinishedIsFound(Lookup(n.children, parts[0]).value, parts[1..]);
    }
    ShownSplit(parts);
  }

  /** A file in the folder that the calls save into, wherever that folder is. */
  predicate Below(parts: seq<string>, name: string) { parts != [] && parts[|parts| - 1] == name }

  /** In every interleaving: a running upload's temporary file is neither listed
      nor found, whatever else is in the tree; a finished upload's file is not
      hidden. */
  lemma {:induction false} OnlyFinishedIsShown(run: seq<SaveProtocol.Action>, c: nat, root: Node, p: string, size: nat)
    requires SaveProtocol.Possible(SaveProtocol.INIT, run) && c < |SaveProtocol.After(SaveProtocol.INIT, run).calls|
    requires WellFormed(root) && root.Dir? && CleanPath(p)
    ensures var call := SaveProtocol.After(SaveProtocol.INIT, run).calls[c];
            && (SaveProtocol.Live(call) && Below(Split(p, '/'), call.tmp) ==>
                  Entry(p, size) !in Listing(root) && !StatAt(root, Split(p, '/')).Found?)
            && (call.Saved? && Below(Split(p, '/'), call.final) && Shown(Split(p, '/')[..|Split(p, '/')| - 1]) ==>
                  (Entry(p, size) in Listing(root) <==> Holds(root, Split(p, '/'), size)))
  {
    var call, parts := SaveProtocol.After(SaveProtocol.INIT, run).calls[c], Split(p, '/');
    SaveProtocol.RunKeeps(SaveProtocol.INIT, run);
    ListedExactly(root, p, size);
    if SaveProtocol.Live(call) && StatAt(root, parts).Found? {
      NothingUnfinishedIsFound(root, parts);
    }
  }
}
