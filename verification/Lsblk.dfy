/** What lsblk and findmnt report (internal/disks/lsblk.go), from the parsed
    trees on: a device's mount points and the flattened mount tree. */
module Lsblk {
  import opened Options
  import opened Text

  /** mountpoints and mountpoint are the modern and the legacy column. */
  datatype Node = Node(
    name: string, kname: string, path: string, kind: string, size: int, fstype: string, uuid: string,
    mountpoints: seq<Option<string>>, mountpoint: Option<string>,
    removable: bool, readOnly: bool, hotplug: bool, children: seq<Node>)

  datatype MountNode = MountNode(target: string, source: string, fstype: string, children: seq<MountNode>)
  datatype MountInfo = MountInfo(source: string, fstype: string)
  type MountMap = map<string, MountInfo>

  // ---- mount points of a device ----

  predicate MountedAt(n: Node, target: string) {
    target != "" && (Some(target) in n.mountpoints || n.mountpoint == Some(target))
  }

  function Append(out: seq<string>, p: Option<string>): seq<string> {
    if p.None? || p.value == "" || p.value in out then out else out + [p.value]
  }

  function Distinct(ps: seq<Option<string>>): seq<string> {
    if ps == [] then [] else Append(Distinct(ps[..|ps| - 1]), ps[|ps| - 1])
  }

  lemma DistinctStep(ps: seq<Option<string>>, p: Option<string>)
    ensures Distinct(ps + [p]) == Append(Distinct(ps), p)
  {
    assert (ps + [p])[..|ps|] == ps;
  }

  function MountList(n: Node): seq<string> { Distinct(n.mountpoints + [n.mountpoint]) }

  class Mountpoints {
    var out: seq<string>
    var seen: set<string>

    ghost predicate Valid() reads this { forall m :: m in seen <==> m in out }

    constructor ()
      ensures Valid() && out == []
    {
      out, seen := [], {};
    }

    method Add(p: Option<string>)
      requires Valid()
      modifies this
      ensures Valid() && out == Append(old(out), p)
    {
      if p.None? || p.value == "" || p.value in seen {
        return;
      }
      seen := seen + {p.value};
      out := out + [p.value];
    }

    method AddAll(ps: seq<Option<string>>)
      requires Valid() && out == []
      modifies this
      ensures Valid() && out == Distinct(ps)
    {
      for i := 0 to |ps|
        invariant Valid() && out == Distinct(ps[..i])
      {
        assert ps[..i + 1] == ps[..i] + [ps[i]];
        DistinctStep(ps[..i], ps[i]);
        Add(ps[i]);
      }
      assert ps[..|ps|] == ps;
    }
  }

  method Mounts(n: Node) returns (out: seq<string>)
    ensures out == MountList(n)
  {
    var list := new Mountpoints();
    list.AddAll(n.mountpoints);
    DistinctStep(n.mountpoints, n.mountpoint);
    list.Add(n.mountpoint);
    out := list.out;
  }

  predicate NoRepeats(s: seq<string>) { forall i, j :: 0 <= i < j < |s| ==> s[i] != s[j] }

  lemma {:induction false} DistinctExactly(ps: seq<Option<string>>)
    ensures NoRepeats(Distinct(ps))
    ensures forall t :: t in Distinct(ps) <==> t != "" && Some(t) in ps
  {
    if ps != [] {
      var rest := ps[..|ps| - 1];
      DistinctExactly(rest);
      assert forall p :: p in ps <==> p in rest || p == ps[|ps| - 1];
    }
  }

  /** Both columns are read, each mount point once, empty ones never. */
  lemma MountListExactly(n: Node)
    ensures NoRepeats(MountList(n))
    ensures forall t :: t in MountList(n) <==> MountedAt(n, t)
  {
    DistinctExactly(n.mountpoints + [n.mountpoint]);
  }

  /** Where a target first stands in the columns. */
  function FirstAt(ps: seq<Option<string>>, t: string): (k: nat)
    ensures k <= |ps|
  {
    if ps == [] then 0
    else
      var k := FirstAt(ps[..|ps| - 1], t);
      if k < |ps| - 1 then k else if ps[|ps| - 1] == Some(t) then |ps| - 1 else |ps|
  }

  /** The targets stand in the columns, in this order. */
  predicate InOrder(ps: seq<Option<string>>, d: seq<string>) {
    && (forall i :: 0 <= i < |d| ==> FirstAt(ps, d[i]) < |ps|)
    && (forall i, j :: 0 <= i < j < |d| ==> FirstAt(ps, d[i]) < FirstAt(ps, d[j]))
  }

  lemma {:induction false} DistinctInOrder(ps: seq<Option<string>>)
    ensures InOrder(ps, Distinct(ps))
  {
    if ps != [] {
      var rest, p := ps[..|ps| - 1], ps[|ps| - 1];
      DistinctInOrder(rest);
      StaysInOrder(rest, p, Distinct(rest));
      if p.Some? && p.value != "" && p.value !in Distinct(rest) {
        DistinctExactly(rest);
        FirstAtExactly(rest, p.value);
        NextInOrder(rest, p.value, Distinct(rest));
      }
      assert rest + [p] == ps;
    }
  }

  lemma FirstAtMore(ps: seq<Option<string>>, p: Option<string>, t: string)
    ensures FirstAt(ps + [p], t) ==
              if FirstAt(ps, t) < |ps| then FirstAt(ps, t) else if p == Some(t) then |ps| else |ps| + 1
  {
    assert (ps + [p])[..|ps|] == ps;
  }

  lemma StaysInOrder(ps: seq<Option<string>>, p: Option<string>, d: seq<string>)
    requires InOrder(ps, d)
    ensures InOrder(ps + [p], d)
  {
    forall i | 0 <= i < |d| ensures FirstAt(ps + [p], d[i]) == FirstAt(ps, d[i]) {
      FirstAtMore(ps, p, d[i]);
    }
  }

  lemma NextInOrder(ps: seq<Option<string>>, t: string, d: seq<string>)
    requires InOrder(ps, d) && FirstAt(ps, t) == |ps|
    ensures InOrder(ps + [Some(t)], d + [t])
  {
    FirstAtMore(ps, Some(t), t);
    forall i | 0 <= i < |d| ensures FirstAt(ps + [Some(t)], d[i]) == FirstAt(ps, d[i]) {
      FirstAtMore(ps, Some(t), d[i]);
    }
  }

  lemma {:induction false} FirstAtExactly(ps: seq<Option<string>>, t: string)
    ensures FirstAt(ps, t) < |ps| <==> Some(t) in ps
  {
    if ps != [] {
      FirstAtExactly(ps[..|ps| - 1], t);
      assert ps == ps[..|ps| - 1] + [ps[|ps| - 1]];
    }
  }

  /** The list keeps the order of the columns, the modern one first. */
  lemma MountListInOrder(n: Node, i: nat, j: nat)
    requires i < j < |MountList(n)|
    ensures var all := n.mountpoints + [n.mountpoint];
            FirstAt(all, MountList(n)[i]) < FirstAt(all, MountList(n)[j]) < |all|
  {
    DistinctInOrder(n.mountpoints + [n.mountpoint]);
  }

  // ---- the mount tree ----

  /** A source without its bind or subvolume suffix. */
  function Device(source: string): string {
    var i := IndexOf(source, '[');
    if 0 < i < |source| then source[..i] else source
  }

  lemma DeviceDropsSuffix(device: string, suffix: string)
    requires device != "" && '[' !in device
    ensures Device(device) == device && Device(device + "[" + suffix) == device
  {
    var s := device + "[" + suffix;
    assert device[..|device|] == device && s[..|device|] == device;
    IndexIs(device, '[', |device|);
    IndexIs(s, '[', |device|);
  }

  function Info(n: MountNode): MountInfo { MountInfo(Device(n.source), n.fstype) }

  function Flatten(m: MountMap, nodes: seq<MountNode>): MountMap
    decreases nodes
  {
    if nodes == [] then m
    else Flatten(Flatten(m[nodes[0].target := Info(nodes[0])], nodes[0].children), nodes[1..])
  }

  class MountTree {
    var m: MountMap

    constructor ()
      ensures m == map[]
    {
      m := map[];
    }

    method Walk(nodes: seq<MountNode>)
      modifies this
      ensures m == Flatten(old(m), nodes)
      decreases nodes
    {
      var i := 0;
      while i < |nodes|
        invariant i <= |nodes|
        invariant Flatten(m, nodes[i..]) == Flatten(old(m), nodes)
      {
        var n := nodes[i];
        assert nodes[i..][0] == n && nodes[i..][1..] == nodes[i + 1..];
        var src := n.source;
        var at := IndexOf(src, '[');
        if 0 < at < |src| {
          src := src[..at];
        }
        m := m[n.target := MountInfo(src, n.fstype)];
        Walk(n.children);
        i := i + 1;
      }
    }
  }

  method ParseFindmnt(filesystems: seq<MountNode>) returns (m: MountMap)
    ensures m == Flatten(map[], filesystems)
  {
    var tree := new MountTree();
    tree.Walk(filesystems);
    m := tree.m;
  }

  /** Every mount of the tree, parents first, in the order findmnt lists them. */
  function Preorder(nodes: seq<MountNode>): seq<MountNode>
    decreases nodes
  {
    if nodes == [] then [] else [nodes[0]] + Preorder(nodes[0].children) + Preorder(nodes[1..])
  }

  /** The last mount at a target in a listing. */
  predicate LastAt(pre: seq<MountNode>, i: int, target: string) {
    0 <= i < |pre| && pre[i].target == target && forall j :: i < j < |pre| ==> pre[j].target != target
  }

  predicate NoneAt(pre: seq<MountNode>, target: string) { forall i :: 0 <= i < |pre| ==> pre[i].target != target }

  function Latest(m: MountMap, pre: seq<MountNode>): MountMap {
    if pre == [] then m else Latest(m, pre[..|pre| - 1])[pre[|pre| - 1].target := Info(pre[|pre| - 1])]
  }

  lemma {:induction false} LatestConcat(m: MountMap, a: seq<MountNode>, b: seq<MountNode>)
    ensures Latest(m, a + b) == Latest(Latest(m, a), b)
  {
    if b == [] {
      assert a + b == a;
    } else {
      assert (a + b)[..|a + b| - 1] == a + b[..|b| - 1];
      LatestConcat(m, a, b[..|b| - 1]);
    }
  }

  lemma {:induction false} FlattenIsLatest(m: MountMap, nodes: seq<MountNode>)
    ensures Flatten(m, nodes) == Latest(m, Preorder(nodes))
    decreases nodes
  {
    if nodes != [] {
      var n, rest := nodes[0], nodes[1..];
      var first := m[n.target := Info(n)];
      FlattenIsLatest(first, n.children);
      FlattenIsLatest(Flatten(first, n.children), rest);
      LatestConcat(m, [n] + Preorder(n.children), Preorder(rest));
      LatestConcat(m, [n], Preorder(n.children));
      assert Latest(m, [n]) == first by { assert [n][..0] == []; }
    }
  }

  lemma {:induction false} LatestAt(m: MountMap, pre: seq<MountNode>, i: int, target: string)
    requires LastAt(pre, i, target)
    ensures target in Latest(m, pre) && Latest(m, pre)[target] == Info(pre[i])
  {
    var n := |pre| - 1;
    if i < n {
      LatestAt(m, pre[..n], i, target);
    }
  }

  lemma {:induction false} LatestElsewhere(m: MountMap, pre: seq<MountNode>, target: string)
    requires NoneAt(pre, target)
    ensures target in Latest(m, pre) <==> target in m
  {
    if pre != [] {
      LatestElsewhere(m, pre[..|pre| - 1], target);
    }
  }

  lemma {:induction false} LastExists(pre: seq<MountNode>, target: string) returns (i: int)
    requires !NoneAt(pre, target)
    ensures LastAt(pre, i, target)
  {
    i := |pre| - 1;
    if pre[i].target != target {
      var rest := pre[..i];
      i := LastExists(rest, target);
    }
  }

  /** The table holds, for each target of the mount tree, its last mount in
      findmnt's order (the one on top), and nothing else. */
  lemma {:induction false} FlattenIsLastMount(filesystems: seq<MountNode>, target: string)
    ensures var m := Flatten(map[], filesystems);
            var pre := Preorder(filesystems);
            && (target in m <==> !NoneAt(pre, target))
            && forall i :: LastAt(pre, i, target) ==> m[target] == Info(pre[i])
  {
    FlattenIsLatest(map[], filesystems);
    var pre := Preorder(filesystems);
    if NoneAt(pre, target) {
      LatestElsewhere(map[], pre, target);
    } else {
      var last := LastExists(pre, target);
      LatestAt(map[], pre, last, target);
    }
    forall i | LastAt(pre, i, target)
      ensures target in Latest(map[], pre) && Latest(map[], pre)[target] == Info(pre[i])
    {
      LatestAt(map[], pre, i, target);
    }
  }
}
