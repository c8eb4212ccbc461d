/** Walk: the sorted list of the regular files under a shared folder
    (internal/transfer/download.go), and its agreement with Stat and Join. */
module FolderWalk {
  import opened Options
  import opened Text
  import opened Paths
  import opened SharedFolders

  /** A file by its path elements below the shared folder. */
  datatype Item = Item(parts: seq<string>, size: nat)
  datatype Entry = Entry(path: string, size: nat)

  datatype Walked = Listed(files: seq<Entry>, total: nat) | TooMany

  // ---- what the traversal visits ----

  /** The files at or below a node that was not skipped. */
  function Items(n: Node, at: seq<string>): seq<Item>
    decreases n, 1
  {
    match n
    case File(size) => [Item(at, size)]
    case Dir(children) => ChildItems(children, at)
    case _ => []
  }

  /** Unfinished uploads, and folders named like one, are skipped. */
  function ChildItems(children: seq<Child>, at: seq<string>): seq<Item>
    decreases children, 0
  {
    if children == [] then []
    else
      var c := children[|children| - 1];
      ChildItems(children[..|children| - 1], at) + if IsPartial(c.name) then [] else Items(c.node, at + [c.name])
  }

  function Total(items: seq<Item>): nat {
    if items == [] then 0 else Total(items[..|items| - 1]) + items[|items| - 1].size
  }

  lemma {:induction false} TotalConcat(a: seq<Item>, b: seq<Item>)
    ensures Total(a + b) == Total(a) + Total(b)
  {
    if b == [] {
      assert a + b == a;
    } else {
      assert (a + b)[..|a + b| - 1] == a + b[..|b| - 1];
      TotalConcat(a, b[..|b| - 1]);
    }
  }

  /** e is visited through child i. */
  predicate Through(children: seq<Child>, i: int, at: seq<string>, e: Item) {
    0 <= i < |children| && !IsPartial(children[i].name) && e in Items(children[i].node, at + [children[i].name])
  }

  lemma {:induction false} ChildItemsMember(children: seq<Child>, at: seq<string>, e: Item)
    ensures e in ChildItems(children, at) <==> exists i :: Through(children, i, at, e)
  {
    if children != [] {
      var n := |children| - 1;
      var rest := children[..n];
      ChildItemsMember(rest, at, e);
      assert e in ChildItems(children, at) <==> e in ChildItems(rest, at) || Through(children, n, at, e);
      if i :| Through(children, i, at, e) {
        assert i == n || Through(rest, i, at, e);
      }
      if i :| Through(rest, i, at, e) {
        assert Through(children, i, at, e);
      }
    }
  }

  lemma {:induction false} ItemsExtend(n: Node, at: seq<string>, e: Item)
    requires e in Items(n, at)
    ensures at <= e.parts && (n.Dir? ==> at != e.parts)
    decreases n
  {
    if n.Dir? {
      ChildItemsMember(n.children, at, e);
      var i :| Through(n.children, i, at, e);
      ItemsExtend(n.children[i].node, at + [n.children[i].name], e);
    }
  }

  lemma {:induction false} LookupFinds(children: seq<Child>, name: string)
    requires forall i, j :: 0 <= i < j < |children| ==> children[i].name != children[j].name
    ensures Lookup(children, name).None? <==> forall i :: 0 <= i < |children| ==> children[i].name != name
    ensures forall i :: 0 <= i < |children| && children[i].name == name ==>
              Lookup(children, name) == Some(children[i].node)
  {
    if children != [] && children[0].name != name {
      LookupFinds(children[1..], name);
      assert forall i :: 0 < i < |children| ==> children[i] == children[1..][i - 1];
    }
  }

  /** A path is visited, with its size, exactly when Stat finds a regular file
      of that size there. */
  lemma {:induction false} VisitedIsFile(n: Node, at: seq<string>, below: seq<string>, size: nat)
    requires WellFormed(n)
    ensures Item(at + below, size) in Items(n, at) <==> FileAt(n, below) == Some(size)
    decreases n
  {
    var e := Item(at + below, size);
    if below == [] {
      assert at + below == at;
      if n.Dir? && e in Items(n, at) {
        ItemsExtend(n, at, e);
      }
    } else if n.Dir? {
      VisitedInChild(n, at, below, size);
    } else if n.File? {
      assert |at + below| != |at|;
    }
  }

  lemma {:induction false} VisitedInChild(n: Node, at: seq<string>, below: seq<string>, size: nat)
    requires WellFormed(n) && n.Dir? && below != []
    ensures Item(at + below, size) in Items(n, at) <==> FileAt(n, below) == Some(size)
    decreases n, 0
  {
    var e, name, rest := Item(at + below, size), below[0], below[1..];
    LookupFinds(n.children, name);
    ChildItemsMember(n.children, at, e);
    assert at + below == at + [name] + rest && (at + below)[|at|] == name;
    forall i | 0 <= i < |n.children|
      ensures Through(n.children, i, at, e) <==>
                n.children[i].name == name && !IsPartial(name) && FileAt(n.children[i].node, rest) == Some(size)
    {
      var c := n.children[i];
      if c.name == name {
        VisitedIsFile(c.node, at + [name], rest, size);
      } else if e in Items(c.node, at + [c.name]) {
        ItemsExtend(c.node, at + [c.name], e);
        assert false;
      }
    }
  }

  /** Every visited path is made of plain elements. */
  lemma {:induction false} VisitedIsPlain(n: Node, at: seq<string>, e: Item)
    requires WellFormed(n) && Plain(at) && e in Items(n, at)
    ensures Plain(e.parts)
    decreases n
  {
    if n.Dir? {
      ChildItemsMember(n.children, at, e);
      var i :| Through(n.children, i, at, e);
      VisitedIsPlain(n.children[i].node, at + [n.children[i].name], e);
    }
  }

  // ---- no path twice ----

  predicate Distinct(items: seq<Item>) {
    forall i, j :: 0 <= i < j < |items| ==> items[i].parts != items[j].parts
  }

  lemma {:induction false} VisitedOnce(n: Node, at: seq<string>)
    requires WellFormed(n)
    ensures Distinct(Items(n, at))
    decreases n, 1
  {
    if n.Dir? {
      ChildrenOnce(n.children, at);
    }
  }

  lemma {:induction false} ChildrenOnce(children: seq<Child>, at: seq<string>)
    requires forall i :: 0 <= i < |children| ==> WellFormed(children[i].node)
    requires forall i, j :: 0 <= i < j < |children| ==> children[i].name != children[j].name
    ensures Distinct(ChildItems(children, at))
    decreases children, 0
  {
    if children != [] {
      var rest, c := children[..|children| - 1], children[|children| - 1];
      ChildrenOnce(rest, at);
      VisitedOnce(c.node, at + [c.name]);
      forall e, f | e in ChildItems(rest, at) && f in Items(c.node, at + [c.name]) ensures e.parts != f.parts {
        ChildItemsMember(rest, at, e);
        var i :| Through(rest, i, at, e);
        ItemsExtend(rest[i].node, at + [rest[i].name], e);
        ItemsExtend(c.node, at + [c.name], f);
        assert e.parts[|at|] == rest[i].name && f.parts[|at|] == c.name;
      }
    }
  }

  // ---- the sorted list ----

  function Entries(items: seq<Item>): (es: seq<Entry>)
    ensures |es| == |items|
    ensures forall i :: 0 <= i < |items| ==> es[i] == Entry(Join(items[i].parts, "/"), items[i].size)
  {
    seq(|items|, i requires 0 <= i < |items| => Entry(Join(items[i].parts, "/"), items[i].size))
  }

  function Insert(es: seq<Entry>, e: Entry): seq<Entry> {
    if es == [] || !Less(e.path, es[|es| - 1].path) then es + [e]
    else Insert(es[..|es| - 1], e) + [es[|es| - 1]]
  }

  /** sort.Slice by path. */
  function Sort(es: seq<Entry>): seq<Entry> {
    if es == [] then [] else Insert(Sort(es[..|es| - 1]), es[|es| - 1])
  }

  lemma LastApart(es: seq<Entry>)
    requires es != []
    ensures multiset(es) == multiset(es[..|es| - 1]) + multiset{es[|es| - 1]}
  {
    assert es == es[..|es| - 1] + [es[|es| - 1]];
  }

  lemma {:induction false} InsertAdds(es: seq<Entry>, e: Entry)
    ensures multiset(Insert(es, e)) == multiset(es) + multiset{e}
  {
    if es != [] && Less(e.path, es[|es| - 1].path) {
      InsertAdds(es[..|es| - 1], e);
      LastApart(es);
    }
  }

  lemma {:induction false} SortPermutes(es: seq<Entry>)
    ensures multiset(Sort(es)) == multiset(es)
  {
    if es != [] {
      SortPermutes(es[..|es| - 1]);
      InsertAdds(Sort(es[..|es| - 1]), es[|es| - 1]);
      LastApart(es);
    }
  }

  predicate Ascending(es: seq<Entry>) {
    forall i, j :: 0 <= i < j < |es| ==> Less(es[i].path, es[j].path)
  }

  lemma {:induction false} InsertAscends(es: seq<Entry>, e: Entry)
    requires Ascending(es) && forall i :: 0 <= i < |es| ==> es[i].path != e.path
    ensures Ascending(Insert(es, e))
    ensures forall x :: x in Insert(es, e) <==> x in es || x == e
  {
    if es != [] {
      var rest, last := es[..|es| - 1], es[|es| - 1];
      LessTotal(e.path, last.path);
      if Less(e.path, last.path) {
        InsertAscends(rest, e);
        var r := Insert(rest, e);
        forall i | 0 <= i < |r| ensures Less(r[i].path, last.path) {
          assert r[i] in r;
          if r[i] != e {
            var j :| 0 <= j < |rest| && rest[j] == r[i];
          }
        }
      } else {
        forall i | 0 <= i < |es| ensures Less(es[i].path, e.path) {
          if i < |es| - 1 {
            LessTransitive(es[i].path, last.path, e.path);
          }
        }
      }
    }
  }

  predicate PathsDiffer(es: seq<Entry>) { forall i, j :: 0 <= i < j < |es| ==> es[i].path != es[j].path }

  lemma {:induction false} SortAscends(es: seq<Entry>)
    requires PathsDiffer(es)
    ensures Ascending(Sort(es)) && forall x :: x in Sort(es) <==> x in es
  {
    if es != [] {
      var rest, last := es[..|es| - 1], es[|es| - 1];
      SortAscends(rest);
      assert forall x :: x in es <==> x in rest || x == last;
      var sorted := Sort(rest);
      forall i | 0 <= i < |sorted| ensures sorted[i].path != last.path {
        assert sorted[i] in sorted;
        var j :| 0 <= j < |rest| && rest[j] == sorted[i];
        assert es[j] == sorted[i];
      }
      InsertAscends(Sort(rest), last);
    }
  }

  function Sum(es: seq<Entry>): nat {
    if es == [] then 0 else Sum(es[..|es| - 1]) + es[|es| - 1].size
  }

  lemma {:induction false} InsertSum(es: seq<Entry>, e: Entry)
    ensures Sum(Insert(es, e)) == Sum(es) + e.size
  {
    if es != [] && Less(e.path, es[|es| - 1].path) {
      InsertSum(es[..|es| - 1], e);
    }
  }

  lemma {:induction false} SortSum(es: seq<Entry>)
    ensures Sum(Sort(es)) == Sum(es)
  {
    if es != [] {
      SortSum(es[..|es| - 1]);
      InsertSum(Sort(es[..|es| - 1]), es[|es| - 1]);
    }
  }

  lemma {:induction false} EntriesSum(items: seq<Item>)
    ensures Sum(Entries(items)) == Total(items)
  {
    if items != [] {
      assert Entries(items)[..|items| - 1] == Entries(items[..|items| - 1]);
      EntriesSum(items[..|items| - 1]);
    }
  }

  /** What Walk lists for a folder. */
  function Listing(dir: Node): seq<Entry> { Sort(Entries(Items(dir, []))) }

  lemma NoEmptyPath(dir: Node, e: Item)
    requires WellFormed(dir) && dir.Dir? && e in Items(dir, [])
    ensures e.parts != [] && Plain(e.parts) && Apart(e.parts, '/')
  {
    ItemsExtend(dir, [], e);
    VisitedIsPlain(dir, [], e);
    PlainApart(e.parts);
  }

  lemma ListedPathsDiffer(dir: Node)
    requires WellFormed(dir) && dir.Dir?
    ensures PathsDiffer(Entries(Items(dir, [])))
  {
    var items := Items(dir, []);
    VisitedOnce(dir, []);
    forall i, j | 0 <= i < j < |items| ensures Entries(items)[i].path != Entries(items)[j].path {
      NoEmptyPath(dir, items[i]);
      NoEmptyPath(dir, items[j]);
      if Join(items[i].parts, "/") == Join(items[j].parts, "/") {
        JoinInjective(items[i].parts, items[j].parts, '/');
      }
    }
  }

  /** The list is strictly ascending, so without duplicates, and its sizes add
      up to the total of the files visited. */
  lemma ListingIsSorted(dir: Node)
    requires WellFormed(dir) && dir.Dir?
    ensures Ascending(Listing(dir)) && multiset(Listing(dir)) == multiset(Entries(Items(dir, [])))
    ensures Sum(Listing(dir)) == Total(Items(dir, []))
  {
    ListedPathsDiffer(dir);
    SortAscends(Entries(Items(dir, [])));
    SortPermutes(Entries(Items(dir, [])));
    SortSum(Entries(Items(dir, [])));
    EntriesSum(Items(dir, []));
  }

  /** Entries and items of one path and size, for paths of plain elements. */
  lemma EntryIsItem(dir: Node, sub: string, size: nat)
    requires WellFormed(dir) && dir.Dir?
    ensures Entry(sub, size) in Entries(Items(dir, [])) <==> Item(Split(sub, '/'), size) in Items(dir, [])
  {
    var items, parts := Items(dir, []), Split(sub, '/');
    JoinSplit(sub, '/');
    if Item(parts, size) in items {
      var i :| 0 <= i < |items| && items[i] == Item(parts, size);
      assert Entries(items)[i] == Entry(sub, size);
    }
    if Entry(sub, size) in Entries(items) {
      var i :| 0 <= i < |items| && Entries(items)[i] == Entry(sub, size);
      NoEmptyPath(dir, items[i]);
      SplitJoin(items[i].parts, '/');
      assert items[i] == Item(parts, size);
    }
  }

  /** A clean sub-path is listed with a size exactly when the folder holds a
      regular file of that size there. */
  lemma ListedIsFile(dir: Node, sub: string, size: nat)
    requires WellFormed(dir) && dir.Dir? && CleanPath(sub)
    ensures Entry(sub, size) in Listing(dir) <==> FileAt(dir, Split(sub, '/')) == Some(size)
  {
    var parts := Split(sub, '/');
    ListedPathsDiffer(dir);
    SortAscends(Entries(Items(dir, [])));
    VisitedIsFile(dir, [], parts, size);
    assert [] + parts == parts;
    EntryIsItem(dir, sub, size);
  }

  lemma {:induction false} StatWellFormed(n: Node, parts: seq<string>)
    requires WellFormed(n) && parts != [] && StatAt(n, parts).Found?
    ensures WellFormed(StatAt(n, parts).node)
    decreases |parts|
  {
    LookupMember(n.children, parts[0]);
    if |parts| > 1 {
      StatWellFormed(Lookup(n.children, parts[0]).value, parts[1..]);
    }
  }

  lemma {:induction false} LookupMember(children: seq<Child>, name: string)
    requires Lookup(children, name).Some?
    ensures exists i :: 0 <= i < |children| && children[i].node == Lookup(children, name).value
  {
    if children[0].name != name {
      LookupMember(children[1..], name);
      var i :| 0 <= i < |children[1..]| && children[1..][i].node == Lookup(children[1..], name).value;
      assert children[i + 1] == children[1..][i];
    }
  }

  /** Walk under a shared folder lists a sub-path exactly when Stat of
      Join(base, sub) is a regular file, with the same size, for every path
      within CleanRel's limits. */
  lemma WalkAgreesWithStat(root: Node, base: string, sub: string, size: nat)
    requires WellFormed(root) && CleanPath(base) && StatSpec(root, base).Found? && StatSpec(root, base).node.Dir?
    requires CleanPath(Trim(sub)) && |base| + 1 + |Trim(sub)| <= MAX_PATH
    ensures JoinSpec(base, sub).Inside?
    ensures Entry(Trim(sub), size) in Listing(StatSpec(root, base).node)
            <==> StatSpec(root, JoinSpec(base, sub).path) == Found(File(size))
  {
    var c, dir := Trim(sub), StatSpec(root, base).node;
    CleanIsTrimmed(base);
    var a, b := Split(base, '/'), Split(c, '/');
    JoinStaysInside(base, sub);
    var full := base + "/" + c;
    SplitConcat(base, c, '/');
    FullIsClean(base, c);
    CleanIsTrimmed(full);
    StatBelow(root, a, b);
    StatWellFormed(root, a);
    ListedIsFile(dir, c, size);
    StatIsFileAt(dir, b);
  }

  /** What Join and Stat say of a path: a regular file of this size. */
  ghost predicate Fetchable(root: Node, base: string, p: string, size: nat) {
    JoinSpec(base, p).Inside? && StatSpec(root, JoinSpec(base, p).path) == Found(File(size))
  }

  lemma UnfitIsRefused(root: Node, base: string, p: string, size: nat)
    requires !CleanPath(Trim(p))
    ensures !Fetchable(root, base, p, size)
  {
  }

  lemma TooLongIsRefused(root: Node, base: string, p: string, size: nat)
    requires CleanPath(base) && CleanPath(p) && Trim(p) == p && |base| + 1 + |p| > MAX_PATH
    ensures !Fetchable(root, base, p, size)
  {
    JoinStaysInside(base, p);
    SplitConcat(base, p, '/');
    CleanIsTrimmed(base + "/" + p);
  }

  lemma ListedIsClean(dir: Node, e: Entry)
    requires WellFormed(dir) && dir.Dir? && e in Listing(dir)
    ensures Trim(e.path) == e.path && (CleanPath(e.path) <==> Fits(e.path))
  {
    ListedIsPlain(dir, e);
    CleanIsTrimmed(e.path);
  }

  lemma SharedIsWellFormed(root: Node, base: string)
    requires WellFormed(root) && CleanPath(base) && StatSpec(root, base).Found?
    ensures WellFormed(StatSpec(root, base).node)
  {
    CleanIsTrimmed(base);
    StatWellFormed(root, Split(base, '/'));
  }

  /** A listed file can be fetched under its listed path exactly when the path,
      alone and below the folder's, keeps CleanRel's limits. */
  lemma {:induction false} ListedIsFetchable(root: Node, base: string, e: Entry)
    requires WellFormed(root) && CleanPath(base) && StatSpec(root, base).Found? && StatSpec(root, base).node.Dir?
    requires e in Listing(StatSpec(root, base).node)
    ensures Fetchable(root, base, e.path, e.size) <==> Fits(e.path) && |base| + 1 + |e.path| <= MAX_PATH
  {
    SharedIsWellFormed(root, base);
    ListedIsClean(StatSpec(root, base).node, e);
    if !Fits(e.path) {
      UnfitIsRefused(root, base, e.path, e.size);
    } else if |base| + 1 + |e.path| > MAX_PATH {
      TooLongIsRefused(root, base, e.path, e.size);
    } else {
      WalkAgreesWithStat(root, base, e.path, e.size);
    }
  }

  /** A file whose name is a byte that is no UTF-8 is listed and cannot be
      fetched. */
  lemma BadByteIsNotFetchable(root: Node, base: string, name: string)
    requires name == "\U{00ff}"
    ensures WellFormed(Dir([Child(name, File(0))])) && Entry(name, 0) in Listing(Dir([Child(name, File(0))]))
    ensures !Fetchable(root, base, name, 0)
  {
    OneFileListing(name, 0);
    assert Trim(name) == name;
    UnfitIsRefused(root, base, name, 0);
  }

  lemma OneFileListing(name: string, size: nat)
    requires !IsPartial(name)
    ensures Listing(Dir([Child(name, File(size))])) == [Entry(name, size)]
  {
    var dir, item := Dir([Child(name, File(size))]), Item([name], size);
    assert [] + [name] == [name];
    assert Items(File(size), [name]) == [item];
    assert ChildItems(dir.children[..0], []) == [];
    assert ChildItems(dir.children, []) == [item];
    var es := Entries([item]);
    assert es == [Entry(name, size)] && es[..0] == [];
    assert Sort(es[..0]) == [];
  }

  lemma ListedIsPlain(dir: Node, e: Entry)
    requires WellFormed(dir) && dir.Dir? && e in Listing(dir)
    ensures e.path != "" && Plain(Split(e.path, '/'))
  {
    var items := Items(dir, []);
    ListingIsSorted(dir);
    assert e in multiset(Entries(items));
    var i :| 0 <= i < |items| && Entries(items)[i] == e;
    NoEmptyPath(dir, items[i]);
    SplitJoin(items[i].parts, '/');
  }

  lemma FullIsClean(base: string, c: string)
    requires CleanPath(base) && CleanPath(c) && |base| + 1 + |c| <= MAX_PATH
    ensures CleanPath(base + "/" + c)
  {
    SplitConcat(base, c, '/');
    assert Utf8.Valid("/") by { assert "/"[1..] == ""; }
    Utf8.ValidConcat(base, "/");
    Utf8.ValidConcat(base + "/", c);
  }

  /** A path of plain elements has no slash to trim. */
  lemma CleanIsTrimmed(s: string)
    requires Plain(Split(s, '/'))
    ensures Trim(s) == s
  {
    var parts := Split(s, '/');
    JoinSplit(s, '/');
    JoinFirst(parts, "/");
    assert PlainPart(parts[0]) && PlainPart(parts[|parts| - 1]);
    LastByte(parts);
  }

  lemma LastByte(parts: seq<string>)
    requires parts != [] && parts[|parts| - 1] != []
    ensures var s, last := Join(parts, "/"), parts[|parts| - 1]; s != [] && s[|s| - 1] == last[|last| - 1]
  {
  }

  // ---- the traversal ----

  class Walker {
    var out: seq<Entry>
    var total: nat

    constructor ()
      ensures out == [] && total == 0
    {
      out, total := [], 0;
    }

    /** The callback of fs.WalkDir for one node and everything below it. p is
        the node's path, at its elements below the shared folder dir. */
    method Visit(n: Node, name: string, p: string, dir: string, ghost at: seq<string>) returns (tooMany: bool)
      requires WellFormed(n) && Plain(Split(dir, '/')) && Plain(at) && p == Join(Split(dir, '/') + at, "/")
      requires n.File? ==> at != []
      requires |out| <= MAX_LISTED
      modifies this
      ensures |out| <= MAX_LISTED
      ensures tooMany <==> |old(out)| + |Seen(n, name, at)| > MAX_LISTED
      ensures !tooMany ==>
                out == old(out) + Entries(Seen(n, name, at)) && total == old(total) + Total(Seen(n, name, at))
      decreases n, 1
    {
      if IsPartial(name) || n.Symlink? || n.Special? {
        return false;
      }
      if n.Dir? {
        tooMany := VisitChildren(n.children, p, dir, at);
      } else {
        tooMany := AddFile(n.size, p, dir, at);
      }
    }

    /** fs.WalkDir on the shared folder itself. */
    method VisitRoot(n: Node, name: string, dir: string) returns (tooMany: bool)
      requires WellFormed(n) && n.Dir? && Plain(Split(dir, '/')) && !IsPartial(name) && out == [] && total == 0
      modifies this
      ensures tooMany <==> |Items(n, [])| > MAX_LISTED
      ensures !tooMany ==> out == Entries(Items(n, [])) && total == Total(Items(n, []))
    {
      RootPath(dir);
      tooMany := Visit(n, name, dir, dir, []);
    }

    method AddFile(size: nat, p: string, dir: string, ghost at: seq<string>) returns (tooMany: bool)
      requires p == Join(Split(dir, '/') + at, "/") && at != [] && |out| <= MAX_LISTED
      modifies this
      ensures |out| <= MAX_LISTED
      ensures tooMany <==> |old(out)| + 1 > MAX_LISTED
      ensures !tooMany ==> out == old(out) + Entries([Item(at, size)]) && total == old(total) + Total([Item(at, size)])
    {
      if |out| >= MAX_LISTED {
        return true;
      }
      var rel := if HasPrefix(p, dir + "/") then p[|dir| + 1..] else p;
      RelativeTo(dir, at, p);
      out := out + [Entry(rel, size)];
      total := total + size;
      return false;
    }

    method VisitChildren(children: seq<Child>, p: string, dir: string, ghost at: seq<string>) returns (tooMany: bool)
      requires forall i :: 0 <= i < |children| ==> PlainPart(children[i].name) && WellFormed(children[i].node)
      requires Plain(Split(dir, '/')) && Plain(at) && p == Join(Split(dir, '/') + at, "/")
      requires |out| <= MAX_LISTED
      modifies this
      ensures |out| <= MAX_LISTED
      ensures tooMany <==> |old(out)| + |ChildItems(children, at)| > MAX_LISTED
      ensures !tooMany ==> out == old(out) + Entries(ChildItems(children, at))
                           && total == old(total) + Total(ChildItems(children, at))
      decreases children, 0
    {
      ghost var seen, start := [], out;
      for i := 0 to |children|
        invariant |out| <= MAX_LISTED
        invariant seen == ChildItems(children[..i], at)
        invariant out == start + Entries(seen) && total == old(total) + Total(seen)
      {
        var c := children[i];
        ghost var below := Seen(c.node, c.name, at + [c.name]);
        ChildStep(children, i, at);
        ChildPath(dir, at, p, c.name);
        tooMany := Visit(c.node, c.name, PathJoin(p, c.name), dir, at + [c.name]);
        if tooMany {
          ChildItemsGrow(children, i + 1, at);
          return true;
        }
        EntriesConcat(start, seen, below);
        TotalConcat(seen, below);
        seen := seen + below;
      }
      assert children[..|children|] == children;
      return false;
    }
  }

  /** What the traversal adds for a node with a name. */
  function Seen(n: Node, name: string, at: seq<string>): seq<Item> {
    if IsPartial(name) then [] else Items(n, at)
  }

  lemma EntriesConcat(start: seq<Entry>, a: seq<Item>, b: seq<Item>)
    ensures start + Entries(a + b) == start + Entries(a) + Entries(b)
  {
  }

  lemma ChildStep(children: seq<Child>, i: nat, at: seq<string>)
    requires i < |children|
    ensures ChildItems(children[..i + 1], at) == ChildItems(children[..i], at)
              + Seen(children[i].node, children[i].name, at + [children[i].name])
  {
    assert children[..i + 1][..i] == children[..i];
  }

  lemma {:induction false} ChildItemsGrow(children: seq<Child>, i: nat, at: seq<string>)
    requires i <= |children|
    ensures |ChildItems(children[..i], at)| <= |ChildItems(children, at)|
    decreases |children| - i
  {
    if i < |children| {
      ChildStep(children, i, at);
      ChildItemsGrow(children, i + 1, at);
    } else {
      assert children[..i] == children;
    }
  }

  lemma ChildPath(dir: string, at: seq<string>, p: string, name: string)
    requires Plain(Split(dir, '/')) && Plain(at) && PlainPart(name) && p == Join(Split(dir, '/') + at, "/")
    ensures PathJoin(p, name) == Join(Split(dir, '/') + (at + [name]), "/")
  {
    var parts := Split(dir, '/') + at;
    JoinFirst(parts, "/") by { assert parts[0] == Split(dir, '/')[0] && PlainPart(parts[0]); }
    JoinConcat(parts, [name], "/");
    RelativeElements(parts + [name]);
    assert parts + [name] == Split(dir, '/') + (at + [name]);
  }

  lemma RelativeTo(dir: string, at: seq<string>, p: string)
    requires p == Join(Split(dir, '/') + at, "/") && at != []
    ensures HasPrefix(p, dir + "/") && p[|dir| + 1..] == Join(at, "/")
  {
    JoinSplit(dir, '/');
    JoinConcat(Split(dir, '/'), at, "/");
  }

  /** Walk: refuses more than 20000 files, otherwise the sorted list and the
      total size. */
  method Walk(n: Node, name: string, dir: string) returns (r: Walked)
    requires WellFormed(n) && n.Dir? && Plain(Split(dir, '/')) && !IsPartial(name)
    ensures r == if |Items(n, [])| > MAX_LISTED then TooMany else Listed(Listing(n), Total(Items(n, [])))
  {
    var w := new Walker();
    var tooMany := w.VisitRoot(n, name, dir);
    if tooMany {
      return TooMany;
    }
    return Listed(Sort(w.out), w.total);
  }

  lemma RootPath(dir: string)
    ensures dir == Join(Split(dir, '/') + [], "/")
  {
    JoinSplit(dir, '/');
    assert Split(dir, '/') + [] == Split(dir, '/');
  }
}
