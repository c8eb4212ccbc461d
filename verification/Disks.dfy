/** Which drives Vault may use (internal/disks/disks.go): the drive the
    operating system runs from is protected over its whole device tree. */
module Disks {
  import opened Options
  import opened Text
  import opened Lsblk

  datatype DiskStatus = StatusSystem | StatusAvailable | StatusUnmounted | StatusUnsupported | StatusReadOnly
  datatype VolumeStatus = VolSystem | VolMounted | VolUnmounted | VolContainer | VolUnsupported | VolSwap

  datatype Volume = Volume(
    name: string, path: string, kind: string, fstype: string, uuid: string,
    mountpoints: seq<string>, status: VolumeStatus, adoptable: bool)

  datatype Disk = Disk(
    id: string, name: string, path: string, removable: bool, readOnly: bool,
    system: bool, isProtected: bool, status: DiskStatus, adoptable: bool, volumes: seq<Volume>)

  datatype Inventory = Inventory(disks: seq<Disk>, systemDetected: bool)

  const SYSTEM_MOUNTS := ["/", "/boot", "/boot/efi", "/efi", "/usr", "/var", "/home", "[SWAP]"]
  const RESERVED := [
    "/boot", "/efi", "/usr", "/etc", "/var", "/proc", "/sys", "/dev", "/root",
    "/tmp", "/bin", "/sbin", "/lib", "/lib64"]
  const SUPPORTED := ["ext4", "ext3", "xfs", "btrfs", "f2fs", "exfat", "vfat", "ntfs", "ntfs3", "fuseblk"]
  const CONTAINERS := ["crypto_LUKS", "LVM2_member", "linux_raid_member", "zfs_member", "bcache"]

  predicate IsSystemMount(target: string) { target in SYSTEM_MOUNTS || HasPrefix(target, "/boot/") }

  predicate Reserved(target: string) {
    target == "/" || target == "/home" || HasPrefix(target, "[")
    || exists i :: 0 <= i < |RESERVED| && Under(target, RESERVED[i])
  }

  predicate Under(target: string, p: string) { target == p || HasPrefix(target, p + "/") }

  method IsReservedTarget(target: string) returns (r: bool)
    ensures r == Reserved(target)
  {
    if target == "/" || target == "/home" || HasPrefix(target, "[") {
      return true;
    }
    for i := 0 to |RESERVED|
      invariant forall j :: 0 <= j < i ==> !Under(target, RESERVED[j])
    {
      if target == RESERVED[i] || HasPrefix(target, RESERVED[i] + "/") {
        return true;
      }
    }
    return false;
  }

  /** Every place the system mounts is reserved. */
  lemma SystemMountsAreReserved(target: string)
    requires IsSystemMount(target)
    ensures Reserved(target)
  {
    assert RESERVED[0] == "/boot" && RESERVED[1] == "/efi" && RESERVED[2] == "/usr" && RESERVED[4] == "/var";
    if target == "/boot/efi" {
      assert "/boot/efi"[..6] == "/boot/";
    }
    assert Under(target, RESERVED[0]) || Under(target, RESERVED[1])
           || Under(target, RESERVED[2]) || Under(target, RESERVED[4])
           || target == "/" || target == "/home" || HasPrefix(target, "[");
  }

  function FirstNonEmpty(a: string, b: string): string { if a != "" then a else b }

  // ---- the device tree ----

  /** x is n or somewhere in its tree. */
  predicate Inside(x: Node, n: Node)
    decreases n
  {
    x == n || exists i :: 0 <= i < |n.children| && Inside(x, n.children[i])
  }

  /** x is in n's tree, and every node from n down to x can be written. */
  predicate WritableDown(n: Node, x: Node)
    decreases n
  {
    !n.readOnly && (x == n || exists i :: 0 <= i < |n.children| && WritableDown(n.children[i], x))
  }

  /** The devices the mount table names for system mounts. */
  function SystemSources(table: MountMap): set<string> {
    set t | t in table && IsSystemMount(t) && HasPrefix(table[t].source, "/dev/") :: table[t].source
  }

  function DeviceNames(x: Node): seq<string> { [x.path, "/dev/" + x.kname, "/dev/mapper/" + x.name] }

  /** Mounted at a system location, or a device the mount table says backs
      one. */
  ghost predicate RunsSystem(x: Node, sources: set<string>) {
    || (exists t :: MountedAt(x, t) && IsSystemMount(t))
    || exists i :: 0 <= i < |DeviceNames(x)| && DeviceNames(x)[i] in sources
  }

  ghost predicate SystemTree(n: Node, sources: set<string>) { exists x :: Inside(x, n) && RunsSystem(x, sources) }

  /** One of these trees runs the system. */
  ghost predicate SystemForest(ns: seq<Node>, sources: set<string>) {
    exists i :: 0 <= i < |ns| && SystemTree(ns[i], sources)
  }

  lemma SystemTreeSplit(n: Node, sources: set<string>)
    ensures SystemTree(n, sources) <==> RunsSystem(n, sources) || SystemForest(n.children, sources)
  {
    if x :| Inside(x, n) && RunsSystem(x, sources) {
      if x != n {
        var i :| 0 <= i < |n.children| && Inside(x, n.children[i]);
        assert SystemTree(n.children[i], sources);
      }
    }
    if RunsSystem(n, sources) {
      assert Inside(n, n);
    }
    if i :| 0 <= i < |n.children| && SystemTree(n.children[i], sources) {
      var x :| Inside(x, n.children[i]) && RunsSystem(x, sources);
      assert Inside(x, n);
    }
  }

  /** buildDisk's walk over one tree. */
  class Hits {
    var systemHits: seq<string>
    var deviceHits: seq<string>

    ghost predicate Any() reads this { systemHits != [] || deviceHits != [] }

    constructor ()
      ensures !Any()
    {
      systemHits, deviceHits := [], [];
    }

    method Own(x: Node, sources: set<string>)
      modifies this
      ensures Any() <==> old(Any()) || RunsSystem(x, sources)
    {
      var mounts := Mounts(x);
      MountListExactly(x);
      ghost var before := Any();
      for i := 0 to |mounts|
        invariant Any() <==> before || exists j :: 0 <= j < i && IsSystemMount(mounts[j])
      {
        if IsSystemMount(mounts[i]) {
          systemHits := systemHits + [mounts[i]];
        }
      }
      var names := DeviceNames(x);
      ghost var mounted := Any();
      for i := 0 to |names|
        invariant Any() <==> mounted || exists j :: 0 <= j < i && names[j] in sources
      {
        if names[i] in sources {
          deviceHits := deviceHits + [names[i]];
        }
      }
    }

    method Walk(x: Node, sources: set<string>)
      modifies this
      ensures Any() <==> old(Any()) || SystemTree(x, sources)
      decreases x
    {
      Own(x, sources);
      ghost var own := Any();
      for i := 0 to |x.children|
        invariant Any() <==> own || exists j :: 0 <= j < i && SystemTree(x.children[j], sources)
      {
        Walk(x.children[i], sources);
      }
      SystemTreeSplit(x, sources);
    }
  }

  // ---- volumes ----

  function TypeFromTable(mounts: seq<string>, table: MountMap): string {
    if mounts == [] then ""
    else if mounts[0] in table && table[mounts[0]].fstype != "" then table[mounts[0]].fstype
    else TypeFromTable(mounts[1..], table)
  }

  function FSType(n: Node, table: MountMap): string {
    if n.fstype != "" then n.fstype else TypeFromTable(MountList(n), table)
  }

  /** The one rule for offering a volume. */
  predicate CanAdopt(fstype: string, mounts: seq<string>, system: bool, ro: bool) {
    !system && fstype in SUPPORTED && mounts != [] && !ro && forall i :: 0 <= i < |mounts| ==> !Reserved(mounts[i])
  }

  function StatusOf(fstype: string, mounts: seq<string>, inner: bool, system: bool): VolumeStatus {
    if system then VolSystem
    else if fstype == "swap" then VolSwap
    else if fstype in SUPPORTED then (if mounts == [] then VolUnmounted else VolMounted)
    else if inner && (fstype == "" || fstype in CONTAINERS) then VolContainer
    else VolUnsupported
  }

  function VolumeOf(n: Node, system: bool, ro: bool, table: MountMap): Volume {
    var fstype, mounts := FSType(n, table), MountList(n);
    Volume(n.name, FirstNonEmpty(n.path, "/dev/" + n.kname), n.kind, fstype, n.uuid, mounts,
           StatusOf(fstype, mounts, n.children != [], system), CanAdopt(fstype, mounts, system, ro))
  }

  predicate HasVolume(n: Node) { n.kind != "disk" || n.fstype != "" || MountList(n) != [] }

  /** A node and whether it or an ancestor is read-only. */
  datatype Place = Place(node: Node, ro: bool)

  /** The nodes of a tree that are volumes, parents first; ro if an ancestor is
      read-only. */
  function Places(n: Node, ro: bool): seq<Place>
    decreases n, 1
  {
    (if HasVolume(n) then [Place(n, ro || n.readOnly)] else []) + AllPlaces(n.children, ro || n.readOnly)
  }

  function AllPlaces(ns: seq<Node>, ro: bool): seq<Place>
    decreases ns, 0
  {
    if ns == [] then [] else AllPlaces(ns[..|ns| - 1], ro) + Places(ns[|ns| - 1], ro)
  }

  function Volumes(ps: seq<Place>, system: bool, table: MountMap): seq<Volume> {
    seq(|ps|, i requires 0 <= i < |ps| => VolumeOf(ps[i].node, system, ps[i].ro, table))
  }

  /** The type of the first mount the table knows one for. */
  method TypeOfMounts(mounts: seq<string>, table: MountMap) returns (fstype: string)
    ensures fstype == TypeFromTable(mounts, table)
  {
    for i := 0 to |mounts|
      invariant TypeFromTable(mounts[i..], table) == TypeFromTable(mounts, table)
    {
      if mounts[i] in table && table[mounts[i]].fstype != "" {
        return table[mounts[i]].fstype;
      }
    }
    return "";
  }

  /** v comes with the status and the mark of a fresh volume. */
  method ClassifyVolume(v: Volume, n: Node, system: bool, ro: bool) returns (r: Volume)
    requires !v.adoptable
    ensures r == v.(status := StatusOf(v.fstype, v.mountpoints, n.children != [], system),
                    adoptable := CanAdopt(v.fstype, v.mountpoints, system, ro))
  {
    if system {
      return v.(status := VolSystem);
    }
    if v.fstype == "swap" {
      return v.(status := VolSwap);
    }
    if v.fstype in CONTAINERS || v.fstype == "" {
      return v.(status := if |n.children| > 0 then VolContainer else VolUnsupported);
    }
    if v.fstype !in SUPPORTED {
      return v.(status := VolUnsupported);
    }
    if |v.mountpoints| == 0 {
      return v.(status := VolUnmounted);
    }
    r := v.(status := VolMounted);
    if ro {
      return;
    }
    for i := 0 to |v.mountpoints|
      invariant forall j :: 0 <= j < i ==> !Reserved(v.mountpoints[j])
    {
      var reserved := IsReservedTarget(v.mountpoints[i]);
      if reserved {
        return;
      }
    }
    r := r.(adoptable := true);
  }

  /** collectVolumes; done is the list of places the volumes are of. */
  class Collector {
    var volumes: seq<Volume>
    ghost var done: seq<Place>
    const system: bool
    const table: MountMap

    ghost predicate Valid() reads this { volumes == Volumes(done, system, table) }

    constructor (system: bool, table: MountMap)
      ensures Valid() && done == [] && this.system == system && this.table == table
    {
      this.system, this.table, volumes, done := system, table, [], [];
    }

    /** The node's own volume. */
    method Own(n: Node, ro: bool)
      requires Valid()
      modifies this
      ensures Valid() && done == old(done) + if HasVolume(n) then [Place(n, ro)] else []
    {
      var mounts := Mounts(n);
      if n.kind != "disk" || n.fstype != "" || |mounts| > 0 {
        var fstype := n.fstype;
        if fstype == "" {
          fstype := TypeOfMounts(mounts, table);
        }
        var v := Volume(n.name, FirstNonEmpty(n.path, "/dev/" + n.kname), n.kind, fstype, n.uuid, mounts,
                        VolUnsupported, false);
        v := ClassifyVolume(v, n, system, ro);
        volumes, done := volumes + [v], done + [Place(n, ro)];
      }
    }

    method Collect(n: Node, parentRO: bool)
      requires Valid()
      modifies this
      ensures Valid() && done == old(done) + Places(n, parentRO)
      decreases n, 1
    {
      var ro := parentRO || n.readOnly;
      Own(n, ro);
      CollectChildren(n.children, ro);
    }

    method CollectChildren(children: seq<Node>, ro: bool)
      requires Valid()
      modifies this
      ensures Valid() && done == old(done) + AllPlaces(children, ro)
      decreases children, 0
    {
      ghost var own := done;
      for i := 0 to |children|
        invariant Valid() && done == own + AllPlaces(children[..i], ro)
      {
        AllPlacesStep(children, i, ro);
        Collect(children[i], ro);
      }
      assert children[..|children|] == children;
    }
  }

  lemma AllPlacesStep(ns: seq<Node>, i: nat, ro: bool)
    requires i < |ns|
    ensures AllPlaces(ns[..i + 1], ro) == AllPlaces(ns[..i], ro) + Places(ns[i], ro)
  {
    assert ns[..i + 1][..i] == ns[..i];
  }

  /** Where a place of a tree is: its node is in the tree, and it is marked
      writable only below writable nodes. */
  ghost predicate Placed(n: Node, ro: bool, p: Place) {
    Inside(p.node, n) && HasVolume(p.node) && (!p.ro ==> !ro && WritableDown(n, p.node))
  }

  lemma {:induction false} PlaceIsPlaced(n: Node, ro: bool, p: Place)
    requires p in Places(n, ro)
    ensures Placed(n, ro, p)
    decreases n, 1
  {
    if p in AllPlaces(n.children, ro || n.readOnly) {
      var i := PlaceBelow(n.children, ro || n.readOnly, p);
    }
  }

  lemma {:induction false} PlaceBelow(ns: seq<Node>, ro: bool, p: Place) returns (i: int)
    requires p in AllPlaces(ns, ro)
    ensures 0 <= i < |ns| && Placed(ns[i], ro, p)
    decreases ns, 0
  {
    i := |ns| - 1;
    if p in Places(ns[i], ro) {
      PlaceIsPlaced(ns[i], ro, p);
    } else {
      i := PlaceBelow(ns[..i], ro, p);
    }
  }

  lemma {:induction false} WritableHasPlace(n: Node, x: Node)
    requires WritableDown(n, x) && HasVolume(x)
    ensures Place(x, false) in Places(n, false)
    decreases n
  {
    if x != n {
      var i :| 0 <= i < |n.children| && WritableDown(n.children[i], x);
      WritableHasPlace(n.children[i], x);
      AllPlacesHold(n.children, i, false, Place(x, false));
    }
  }

  lemma {:induction false} AllPlacesHold(ns: seq<Node>, i: nat, ro: bool, p: Place)
    requires i < |ns| && p in Places(ns[i], ro)
    ensures p in AllPlaces(ns, ro)
  {
    if i < |ns| - 1 {
      AllPlacesHold(ns[..|ns| - 1], i, ro, p);
    }
  }

  // ---- one drive ----

  ghost predicate AnyAdoptable(vs: seq<Volume>) { exists i :: 0 <= i < |vs| && vs[i].adoptable }

  ghost function DriveStatus(system: bool, adoptable: bool, ro: bool, vs: seq<Volume>): DiskStatus {
    if system then StatusSystem
    else if adoptable then StatusAvailable
    else if ro then StatusReadOnly
    else if exists i :: 0 <= i < |vs| && vs[i].status == VolUnmounted then StatusUnmounted
    else StatusUnsupported
  }

  /** The drive of a device tree. */
  ghost function DiskOf(n: Node, sources: set<string>, table: MountMap): Disk {
    var system := SystemTree(n, sources);
    var vs := Volumes(Places(n, false), system, table);
    Disk(FirstNonEmpty(n.kname, n.name), n.name, FirstNonEmpty(n.path, "/dev/" + n.name),
         n.removable || n.hotplug, n.readOnly,
         system, system, DriveStatus(system, AnyAdoptable(vs), n.readOnly, vs), AnyAdoptable(vs), vs)
  }

  method StatusOfDisk(d: Disk) returns (status: DiskStatus)
    ensures status == DriveStatus(d.system, d.adoptable, d.readOnly, d.volumes)
  {
    if d.system {
      return StatusSystem;
    }
    if d.adoptable {
      return StatusAvailable;
    }
    if d.readOnly {
      return StatusReadOnly;
    }
    for i := 0 to |d.volumes|
      invariant forall j :: 0 <= j < i ==> d.volumes[j].status != VolUnmounted
    {
      if d.volumes[i].status == VolUnmounted {
        return StatusUnmounted;
      }
    }
    return StatusUnsupported;
  }

  method AnyVolumeAdoptable(vs: seq<Volume>) returns (any: bool)
    ensures any == AnyAdoptable(vs)
  {
    any := false;
    for i := 0 to |vs|
      invariant any <==> exists j :: 0 <= j < i && vs[j].adoptable
    {
      if vs[i].adoptable {
        any := true;
      }
    }
  }

  method BuildDisk(n: Node, sources: set<string>, table: MountMap) returns (d: Disk)
    ensures d == DiskOf(n, sources, table)
  {
    var hits := new Hits();
    hits.Walk(n, sources);
    var systemHits := hits.systemHits;
    if |systemHits| == 0 {
      systemHits := hits.deviceHits;
    }
    var system := |systemHits| > 0;
    var all := new Collector(system, table);
    all.Collect(n, n.readOnly);
    assert all.done == Places(n, n.readOnly) == Places(n, false);
    var adoptable := AnyVolumeAdoptable(all.volumes);
    d := Disk(FirstNonEmpty(n.kname, n.name), n.name, FirstNonEmpty(n.path, "/dev/" + n.name),
              n.removable || n.hotplug, n.readOnly,
              system, system, StatusUnsupported, adoptable, all.volumes);
    var status := StatusOfDisk(d);
    d := d.(status := status);
  }

  /** A volume is offered exactly when it belongs to a node with a supported
      filesystem that is mounted, nowhere reserved, with every node above it
      writable, in a tree without any sign of the system. */
  ghost predicate Offers(n: Node, x: Node, sources: set<string>, table: MountMap) {
    && !SystemTree(n, sources) && WritableDown(n, x) && HasVolume(x) && FSType(x, table) in SUPPORTED
    && (exists t :: MountedAt(x, t))
    && forall t :: MountedAt(x, t) ==> !Reserved(t)
  }

  lemma CanAdoptNode(x: Node, system: bool, ro: bool, table: MountMap)
    ensures VolumeOf(x, system, ro, table).adoptable <==>
              !system && !ro && FSType(x, table) in SUPPORTED
              && (exists t :: MountedAt(x, t)) && forall t :: MountedAt(x, t) ==> !Reserved(t)
  {
    var mounts := MountList(x);
    MountListExactly(x);
    if mounts != [] {
      assert MountedAt(x, mounts[0]);
    }
    forall t | MountedAt(x, t) ensures exists i :: 0 <= i < |mounts| && mounts[i] == t {
      assert t in mounts;
    }
  }

  lemma OfferedExactly(n: Node, sources: set<string>, table: MountMap, v: Volume)
    requires v.adoptable
    ensures v in DiskOf(n, sources, table).volumes <==>
              exists x :: Offers(n, x, sources, table) && v == VolumeOf(x, false, false, table)
  {
    var system, ps := SystemTree(n, sources), Places(n, false);
    if v in DiskOf(n, sources, table).volumes {
      var i :| 0 <= i < |ps| && v == VolumeOf(ps[i].node, system, ps[i].ro, table);
      CanAdoptNode(ps[i].node, system, ps[i].ro, table);
      PlaceIsPlaced(n, false, ps[i]);
      assert Offers(n, ps[i].node, sources, table);
    }
    if x :| Offers(n, x, sources, table) && v == VolumeOf(x, false, false, table) {
      WritableHasPlace(n, x);
      var i :| 0 <= i < |ps| && ps[i] == Place(x, false);
      assert DiskOf(n, sources, table).volumes[i] == v;
    }
  }

  /** A supported volume in the tree that is not mounted. */
  ghost predicate Unmounted(n: Node, x: Node, table: MountMap) {
    Inside(x, n) && HasVolume(x) && FSType(x, table) in SUPPORTED && forall t :: !MountedAt(x, t)
  }

  lemma AvailableExactly(n: Node, sources: set<string>, table: MountMap)
    ensures AnyAdoptable(DiskOf(n, sources, table).volumes) <==> exists x :: Offers(n, x, sources, table)
  {
    var vs := DiskOf(n, sources, table).volumes;
    if i :| 0 <= i < |vs| && vs[i].adoptable {
      OfferedExactly(n, sources, table, vs[i]);
    }
    if x :| Offers(n, x, sources, table) {
      CanAdoptNode(x, false, false, table);
      OfferedExactly(n, sources, table, VolumeOf(x, false, false, table));
    }
  }

  lemma UnmountedVolume(x: Node, system: bool, ro: bool, table: MountMap)
    ensures VolumeOf(x, system, ro, table).status == VolUnmounted <==>
              !system && FSType(x, table) in SUPPORTED && forall t :: !MountedAt(x, t)
  {
    MountListExactly(x);
    assert MountList(x) == [] || MountedAt(x, MountList(x)[0]);
  }

  lemma {:induction false} UnmountedExactly(n: Node, sources: set<string>, table: MountMap)
    requires !SystemTree(n, sources)
    ensures var vs := DiskOf(n, sources, table).volumes;
            (exists i :: 0 <= i < |vs| && vs[i].status == VolUnmounted) <==> exists x :: Unmounted(n, x, table)
  {
    var ps, vs := Places(n, false), DiskOf(n, sources, table).volumes;
    if i :| 0 <= i < |vs| && vs[i].status == VolUnmounted {
      PlaceIsPlaced(n, false, ps[i]);
      UnmountedVolume(ps[i].node, false, ps[i].ro, table);
      assert Unmounted(n, ps[i].node, table);
    }
    if x :| Unmounted(n, x, table) {
      var below := InsideHasPlace(n, false, x);
      var i :| 0 <= i < |ps| && ps[i] == Place(x, below);
      UnmountedVolume(x, false, below, table);
      assert vs[i].status == VolUnmounted;
    }
  }

  /** What a drive's status says: it runs the system, else it offers a volume,
      else it is read-only, else it holds a supported volume that is not
      mounted. */
  lemma {:induction false} StatusExactly(n: Node, sources: set<string>, table: MountMap)
    ensures var s := DiskOf(n, sources, table).status;
            var offers := exists x :: Offers(n, x, sources, table);
            && (s == StatusSystem <==> SystemTree(n, sources))
            && (s == StatusAvailable <==> offers)
            && (s == StatusReadOnly <==> !SystemTree(n, sources) && !offers && n.readOnly)
            && (s == StatusUnmounted <==>
                  !SystemTree(n, sources) && !offers && !n.readOnly && exists x :: Unmounted(n, x, table))
  {
    AvailableExactly(n, sources, table);
    if !SystemTree(n, sources) {
      UnmountedExactly(n, sources, table);
    }
  }

  // ---- the inventory ----

  predicate SkipTopLevel(n: Node) {
    n.kind in ["loop", "rom", "ram"] || HasPrefix(n.name, "zram") || HasPrefix(n.name, "ram") || n.size == 0
  }

  ghost function Drives(nodes: seq<Node>, table: MountMap): seq<Disk> {
    if nodes == [] then []
    else
      var n := nodes[|nodes| - 1];
      Drives(nodes[..|nodes| - 1], table) + if SkipTopLevel(n) then [] else [DiskOf(n, SystemSources(table), table)]
  }

  ghost predicate AnySystem(ds: seq<Disk>) { exists i :: 0 <= i < |ds| && ds[i].system }

  /** A drive that is not offered, nor any of its volumes. */
  function Withheld(d: Disk): Disk {
    d.(adoptable := false,
       volumes := seq(|d.volumes|, i requires 0 <= i < |d.volumes| => d.volumes[i].(adoptable := false)))
  }

  function AllWithheld(ds: seq<Disk>): seq<Disk> { seq(|ds|, i requires 0 <= i < |ds| => Withheld(ds[i])) }

  /** System drives first, then by name. */
  predicate Before(a: Disk, b: Disk) {
    if a.system != b.system then a.system else Less(a.name, b.name)
  }

  function Insert(d: Disk, ds: seq<Disk>): seq<Disk> {
    if ds == [] || !Before(ds[0], d) then [d] + ds else [ds[0]] + Insert(d, ds[1..])
  }

  /** sort.SliceStable. */
  function Sorted(ds: seq<Disk>): seq<Disk> {
    if ds == [] then [] else Insert(ds[0], Sorted(ds[1..]))
  }

  /** The table of findmnt's tree; without one, lsblk is all there is. */
  function Table(findmnt: Option<seq<MountNode>>): MountMap {
    if findmnt.None? then map[] else Flatten(map[], findmnt.value)
  }

  ghost function Built(nodes: seq<Node>, findmnt: Option<seq<MountNode>>): Inventory {
    var ds := Drives(nodes, Table(findmnt));
    Inventory(Sorted(if AnySystem(ds) then ds else AllWithheld(ds)), AnySystem(ds))
  }

  method Sources(table: MountMap) returns (sources: set<string>)
    ensures sources == SystemSources(table)
  {
    sources := {};
    var todo := table.Keys;
    while todo != {}
      invariant todo <= table.Keys
      invariant sources == set t | t in table && t !in todo && IsSystemMount(t) && HasPrefix(table[t].source, "/dev/")
                           :: table[t].source
      decreases |todo|
    {
      var target :| target in todo;
      todo := todo - {target};
      if IsSystemMount(target) && HasPrefix(table[target].source, "/dev/") {
        sources := sources + {table[target].source};
      }
    }
  }

  method Withhold(d: Disk) returns (r: Disk)
    ensures r == Withheld(d)
  {
    r := d.(adoptable := false);
    for j := 0 to |d.volumes|
      invariant r == d.(adoptable := false, volumes := r.volumes) && |r.volumes| == |d.volumes|
      invariant forall k :: 0 <= k < j ==> r.volumes[k] == d.volumes[k].(adoptable := false)
      invariant forall k :: j <= k < |d.volumes| ==> r.volumes[k] == d.volumes[k]
    {
      r := r.(volumes := r.volumes[j := r.volumes[j].(adoptable := false)]);
    }
  }

  method WithholdAll(ds: seq<Disk>) returns (r: seq<Disk>)
    ensures r == AllWithheld(ds)
  {
    r := ds;
    for i := 0 to |ds|
      invariant |r| == |ds|
      invariant forall k :: 0 <= k < i ==> r[k] == Withheld(ds[k])
      invariant forall k :: i <= k < |ds| ==> r[k] == ds[k]
    {
      var d := Withhold(r[i]);
      r := r[i := d];
    }
  }

  method SystemDetected(ds: seq<Disk>) returns (detected: bool)
    ensures detected <==> AnySystem(ds)
  {
    detected := false;
    for i := 0 to |ds|
      invariant detected <==> exists j :: 0 <= j < i && ds[j].system
    {
      if ds[i].system {
        detected := true;
      }
    }
  }

  method Build(nodes: seq<Node>, findmnt: Option<seq<MountNode>>) returns (inv: Inventory)
    ensures inv == Built(nodes, findmnt)
  {
    var table := map[];
    if findmnt.Some? {
      table := ParseFindmnt(findmnt.value);
    }
    var sources := Sources(table);
    var disks := [];
    for i := 0 to |nodes|
      invariant disks == Drives(nodes[..i], table)
    {
      assert nodes[..i + 1][..i] == nodes[..i];
      if !SkipTopLevel(nodes[i]) {
        var d := BuildDisk(nodes[i], sources, table);
        disks := disks + [d];
      }
    }
    assert nodes[..|nodes|] == nodes;
    var detected := SystemDetected(disks);
    if !detected {
      disks := WithholdAll(disks);
    }
    inv := Inventory(Sorted(disks), detected);
  }

  // ---- sorting keeps what there is ----

  predicate SameKey(a: Disk, b: Disk) { a.system == b.system && a.name == b.name }

  /** The drives with the key of k, in order. */
  function Like(k: Disk, ds: seq<Disk>): seq<Disk> {
    if ds == [] then [] else (if SameKey(ds[0], k) then [ds[0]] else []) + Like(k, ds[1..])
  }

  predicate InOrder(ds: seq<Disk>) { forall i, j :: 0 <= i < j < |ds| ==> !Before(ds[j], ds[i]) }

  /** Not before is transitive. */
  lemma BeforeIsWeakOrder(a: Disk, b: Disk, c: Disk)
    requires !Before(b, a) && !Before(c, b)
    ensures !Before(c, a)
  {
    LessTotal(a.name, b.name);
    LessTotal(b.name, c.name);
    LessTotal(a.name, c.name);
    if Less(a.name, b.name) && Less(b.name, c.name) {
      LessTransitive(a.name, b.name, c.name);
    }
  }

  lemma BeforeIsStrict(a: Disk, b: Disk)
    requires Before(a, b)
    ensures !Before(b, a) && !SameKey(a, b)
  {
    LessTotal(a.name, b.name);
  }

  lemma {:induction false} InsertKeepsLike(d: Disk, ds: seq<Disk>, k: Disk)
    ensures Like(k, Insert(d, ds)) == (if SameKey(d, k) then [d] else []) + Like(k, ds)
  {
    if ds == [] || !Before(ds[0], d) {
      assert ([d] + ds)[1..] == ds;
    } else {
      var rest := Insert(d, ds[1..]);
      InsertKeepsLike(d, ds[1..], k);
      assert ([ds[0]] + rest)[1..] == rest;
      BeforeIsStrict(ds[0], d);
    }
  }

  lemma {:induction false} InsertKeeps(d: Disk, ds: seq<Disk>)
    ensures multiset(Insert(d, ds)) == multiset(ds) + multiset{d}
  {
    if ds != [] && Before(ds[0], d) {
      InsertKeeps(d, ds[1..]);
      assert ds == [ds[0]] + ds[1..];
    }
  }

  lemma {:induction false} InsertInOrder(d: Disk, ds: seq<Disk>)
    requires InOrder(ds)
    ensures InOrder(Insert(d, ds))
  {
    if ds == [] {
    } else if Before(ds[0], d) {
      var rest := Insert(d, ds[1..]);
      InsertInOrder(d, ds[1..]);
      InsertKeeps(d, ds[1..]);
      BeforeIsStrict(ds[0], d);
      forall j | 0 <= j < |rest| ensures !Before(rest[j], ds[0]) {
        assert rest[j] in multiset(rest);
        assert rest[j] == d || rest[j] in ds[1..];
      }
    } else {
      forall j | 0 <= j < |ds| ensures !Before(ds[j], d) {
        if j > 0 {
          BeforeIsWeakOrder(d, ds[0], ds[j]);
        }
      }
    }
  }

  lemma {:induction false} SortedSame(ds: seq<Disk>)
    ensures multiset(Sorted(ds)) == multiset(ds)
  {
    if ds != [] {
      SortedSame(ds[1..]);
      InsertKeeps(ds[0], Sorted(ds[1..]));
      assert ds == [ds[0]] + ds[1..];
    }
  }

  lemma {:induction false} SortedInOrder(ds: seq<Disk>)
    ensures InOrder(Sorted(ds))
  {
    if ds != [] {
      SortedInOrder(ds[1..]);
      InsertInOrder(ds[0], Sorted(ds[1..]));
    }
  }

  lemma {:induction false} SortedLike(ds: seq<Disk>, k: Disk)
    ensures Like(k, Sorted(ds)) == Like(k, ds)
  {
    if ds != [] {
      SortedLike(ds[1..], k);
      InsertKeepsLike(ds[0], Sorted(ds[1..]), k);
    }
  }

  /** The sorted list has the same drives, in order, and drives that compare
      equal keep their order. */
  lemma SortedIsStable(ds: seq<Disk>, k: Disk)
    ensures InOrder(Sorted(ds)) && multiset(Sorted(ds)) == multiset(ds) && Like(k, Sorted(ds)) == Like(k, ds)
  {
    SortedSame(ds);
    SortedInOrder(ds);
    SortedLike(ds, k);
  }

  lemma SortedMembers(ds: seq<Disk>, d: Disk)
    ensures d in Sorted(ds) <==> d in ds
  {
    SortedSame(ds);
    assert d in Sorted(ds) <==> d in multiset(Sorted(ds));
  }

  // ---- what the whole inventory guarantees ----

  /** d is the drive of a top-level device that is not skipped. */
  ghost predicate DriveOf(nodes: seq<Node>, n: Node, d: Disk, table: MountMap) {
    n in nodes && !SkipTopLevel(n) && d == DiskOf(n, SystemSources(table), table)
  }

  lemma {:induction false} DriveHasNode(nodes: seq<Node>, d: Disk, table: MountMap) returns (n: Node)
    requires d in Drives(nodes, table)
    ensures DriveOf(nodes, n, d, table)
  {
    var last := nodes[|nodes| - 1];
    if d in Drives(nodes[..|nodes| - 1], table) {
      n := DriveHasNode(nodes[..|nodes| - 1], d, table);
    } else {
      n := last;
    }
  }

  lemma {:induction false} NodeHasDrive(nodes: seq<Node>, n: Node, d: Disk, table: MountMap)
    requires DriveOf(nodes, n, d, table)
    ensures d in Drives(nodes, table)
  {
    if n != nodes[|nodes| - 1] {
      NodeHasDrive(nodes[..|nodes| - 1], n, d, table);
    }
  }

  lemma WithheldOffersNothing(ds: seq<Disk>, d: Disk, v: Volume)
    requires d in AllWithheld(ds) && v in d.volumes
    ensures !d.adoptable && !v.adoptable
  {
    var i :| 0 <= i < |ds| && d == Withheld(ds[i]);
  }

  /** A volume of the inventory marked adoptable belongs to a drive with no
      sign of the system anywhere in its tree, is mounted, nowhere reserved,
      below writable devices only; and some other drive is known to run the
      system. */
  lemma AdoptableIsSafe(nodes: seq<Node>, findmnt: Option<seq<MountNode>>, d: Disk, v: Volume)
    returns (n: Node, x: Node)
    requires d in Built(nodes, findmnt).disks && v in d.volumes && v.adoptable
    ensures var table := Table(findmnt);
            && Built(nodes, findmnt).systemDetected
            && DriveOf(nodes, n, d, table) && Offers(n, x, SystemSources(table), table)
            && v == VolumeOf(x, false, false, table)
    ensures d.adoptable && !d.system && !d.isProtected && d.status == StatusAvailable
  {
    var table := Table(findmnt);
    var ds := Drives(nodes, table);
    if !AnySystem(ds) {
      SortedMembers(AllWithheld(ds), d);
      WithheldOffersNothing(ds, d, v);
    }
    SortedMembers(ds, d);
    n := DriveHasNode(nodes, d, table);
    OfferedExactly(n, SystemSources(table), table, v);
    x :| Offers(n, x, SystemSources(table), table) && v == VolumeOf(x, false, false, table);
    var i :| 0 <= i < |d.volumes| && d.volumes[i] == v;
  }

  /** And once a system drive is known, every such volume is offered. */
  lemma SafeIsAdoptable(nodes: seq<Node>, findmnt: Option<seq<MountNode>>, n: Node, x: Node)
    requires var table := Table(findmnt);
             n in nodes && !SkipTopLevel(n) && Offers(n, x, SystemSources(table), table)
             && Built(nodes, findmnt).systemDetected
    ensures var table := Table(findmnt);
            exists d :: d in Built(nodes, findmnt).disks && d.adoptable && VolumeOf(x, false, false, table) in d.volumes
                        && VolumeOf(x, false, false, table).adoptable
  {
    var table := Table(findmnt);
    var ds, d, v := Drives(nodes, table), DiskOf(n, SystemSources(table), table), VolumeOf(x, false, false, table);
    NodeHasDrive(nodes, n, d, table);
    SortedMembers(ds, d);
    CanAdoptNode(x, false, false, table);
    OfferedExactly(n, SystemSources(table), table, v);
    var i :| 0 <= i < |d.volumes| && d.volumes[i] == v;
  }

  /** With no system drive identified nothing is offered. */
  lemma NothingWithoutSystem(nodes: seq<Node>, findmnt: Option<seq<MountNode>>, d: Disk)
    requires d in Built(nodes, findmnt).disks && !Built(nodes, findmnt).systemDetected
    ensures !d.adoptable && forall i :: 0 <= i < |d.volumes| ==> !d.volumes[i].adoptable
  {
    var ds := Drives(nodes, Table(findmnt));
    SortedMembers(AllWithheld(ds), d);
    forall i | 0 <= i < |d.volumes| ensures !d.volumes[i].adoptable {
      WithheldOffersNothing(ds, d, d.volumes[i]);
    }
    var i :| 0 <= i < |ds| && d == Withheld(ds[i]);
  }

  /** A system drive is identified exactly when some device tree shows the
      system. */
  lemma DetectedExactly(nodes: seq<Node>, findmnt: Option<seq<MountNode>>)
    ensures Built(nodes, findmnt).systemDetected <==>
              exists n :: n in nodes && !SkipTopLevel(n) && SystemTree(n, SystemSources(Table(findmnt)))
  {
    var table := Table(findmnt);
    var ds := Drives(nodes, table);
    if AnySystem(ds) {
      var i :| 0 <= i < |ds| && ds[i].system;
      var n := DriveHasNode(nodes, ds[i], table);
    }
    if n :| n in nodes && !SkipTopLevel(n) && SystemTree(n, SystemSources(table)) {
      var d := DiskOf(n, SystemSources(table), table);
      NodeHasDrive(nodes, n, d, table);
      var i :| 0 <= i < |ds| && ds[i] == d;
      assert ds[i].system;
    }
  }

  // ---- what a report says of a device ----

  /** A file system type is the device's own, or that of the first of its mounts
      whose type the mount table knows. */
  lemma {:induction false} FSTypeExactly(n: Node, table: MountMap, i: nat)
    requires n.fstype == "" && i < |MountList(n)| && MountList(n)[i] in table && table[MountList(n)[i]].fstype != ""
    requires forall j :: 0 <= j < i ==> MountList(n)[j] !in table || table[MountList(n)[j]].fstype == ""
    ensures FSType(n, table) == table[MountList(n)[i]].fstype
  {
    TypeIsFirst(MountList(n), table, i);
  }

  lemma {:induction false} TypeIsFirst(mounts: seq<string>, table: MountMap, i: nat)
    requires i < |mounts| && mounts[i] in table && table[mounts[i]].fstype != ""
    requires forall j :: 0 <= j < i ==> mounts[j] !in table || table[mounts[j]].fstype == ""
    ensures TypeFromTable(mounts, table) == table[mounts[i]].fstype
  {
    if i > 0 {
      TypeIsFirst(mounts[1..], table, i - 1);
    }
  }

  /** Every device is a volume but a whole disk without a file system that is
      not mounted. */
  lemma VolumeExactly(n: Node)
    ensures HasVolume(n) <==> n.kind != "disk" || n.fstype != "" || exists t :: MountedAt(n, t)
  {
    MountListExactly(n);
    assert MountList(n) == [] || MountedAt(n, MountList(n)[0]);
  }

  /** A drive and its volumes are named, addressed and identified as lsblk
      reports them. */
  lemma NamesAreReported(n: Node, x: Node, sources: set<string>, table: MountMap, system: bool, ro: bool)
    ensures var d := DiskOf(n, sources, table);
            && d.name == n.name && d.path == (if n.path == "" then "/dev/" + n.name else n.path)
            && d.readOnly == n.readOnly && (d.removable <==> n.removable || n.hotplug)
            && (d.system <==> SystemTree(n, sources)) && (d.isProtected <==> d.system)
    ensures var v := VolumeOf(x, system, ro, table);
            && v.name == x.name && v.path == (if x.path == "" then "/dev/" + x.kname else x.path)
            && v.uuid == x.uuid && v.mountpoints == MountList(x)
  {
  }

  /** A device that a drive is made of: no pseudo device, and not empty. */
  predicate Real(n: Node) {
    && n.kind != "loop" && n.kind != "rom" && n.kind != "ram" && n.size != 0
    && !HasPrefix(n.name, "zram") && !HasPrefix(n.name, "ram")
  }

  /** The inventory has a drive exactly for every such top-level device. */
  lemma {:induction false} DrivesAreReal(nodes: seq<Node>, findmnt: Option<seq<MountNode>>, name: string)
    ensures (exists d :: d in Built(nodes, findmnt).disks && d.name == name) <==>
              exists n :: n in nodes && Real(n) && n.name == name
  {
    var table := Table(findmnt);
    var ds := Drives(nodes, table);
    if d :| d in Built(nodes, findmnt).disks && d.name == name {
      var e := BuiltHasDrive(nodes, findmnt, d);
      var n := DriveHasNode(nodes, e, table);
      SkippedIsNotReal(n);
    }
    if n :| n in nodes && Real(n) && n.name == name {
      SkippedIsNotReal(n);
      var d := DiskOf(n, SystemSources(table), table);
      NodeHasDrive(nodes, n, d, table);
      DriveIsBuilt(nodes, findmnt, d);
    }
  }

  lemma SkippedIsNotReal(n: Node)
    ensures SkipTopLevel(n) <==> !Real(n)
  {
  }

  lemma BuiltHasDrive(nodes: seq<Node>, findmnt: Option<seq<MountNode>>, d: Disk) returns (e: Disk)
    requires d in Built(nodes, findmnt).disks
    ensures e in Drives(nodes, Table(findmnt)) && e.name == d.name
  {
    var ds := Drives(nodes, Table(findmnt));
    SortedMembers(if AnySystem(ds) then ds else AllWithheld(ds), d);
    if AnySystem(ds) {
      e := d;
    } else {
      var i :| 0 <= i < |ds| && d == Withheld(ds[i]);
      e := ds[i];
    }
  }

  lemma DriveIsBuilt(nodes: seq<Node>, findmnt: Option<seq<MountNode>>, d: Disk)
    requires d in Drives(nodes, Table(findmnt))
    ensures exists e :: e in Built(nodes, findmnt).disks && e.name == d.name
  {
    var ds := Drives(nodes, Table(findmnt));
    var i :| 0 <= i < |ds| && ds[i] == d;
    if AnySystem(ds) {
      SortedMembers(ds, d);
    } else {
      assert AllWithheld(ds)[i] == Withheld(d);
      SortedMembers(AllWithheld(ds), Withheld(d));
    }
  }

  /** System drives come first, and then the names ascend. */
  lemma SystemDrivesFirst(ds: seq<Disk>, i: nat, j: nat)
    requires i < j < |Sorted(ds)|
    ensures var a, b := Sorted(ds)[i], Sorted(ds)[j];
            (b.system ==> a.system) && (a.system == b.system ==> !Less(b.name, a.name))
  {
    SortedInOrder(ds);
  }

  // ---- volumes below two drives ----

  ghost predicate Lists(d: Disk, name: string) { exists j :: 0 <= j < |d.volumes| && d.volumes[j].name == name }

  /** x is a volume of this name in n's tree. */
  ghost predicate Carries(n: Node, x: Node, name: string) { Inside(x, n) && HasVolume(x) && x.name == name }

  lemma {:induction false} InsideHasPlace(n: Node, ro: bool, x: Node) returns (below: bool)
    requires Inside(x, n) && HasVolume(x)
    ensures Place(x, below) in Places(n, ro)
    decreases n
  {
    if x == n {
      below := ro || n.readOnly;
      assert Places(n, ro)[0] == Place(x, below);
    } else {
      var i :| 0 <= i < |n.children| && Inside(x, n.children[i]);
      below := InsideHasPlace(n.children[i], ro || n.readOnly, x);
      AllPlacesHold(n.children, i, ro || n.readOnly, Place(x, below));
    }
  }

  lemma ListedExactly(n: Node, sources: set<string>, table: MountMap, name: string)
    ensures Lists(DiskOf(n, sources, table), name) <==> exists x :: Carries(n, x, name)
  {
    var ps, vs := Places(n, false), DiskOf(n, sources, table).volumes;
    if j :| 0 <= j < |vs| && vs[j].name == name {
      PlaceIsPlaced(n, false, ps[j]);
      assert Carries(n, ps[j].node, name);
    }
    if x :| Carries(n, x, name) {
      var below := InsideHasPlace(n, false, x);
      var j :| 0 <= j < |ps| && ps[j] == Place(x, below);
      assert vs[j].name == name;
    }
  }

  /** This device tree shows the system and has a volume of this name. */
  ghost predicate SystemCarries(nodes: seq<Node>, n: Node, sources: set<string>, name: string) {
    n in nodes && !SkipTopLevel(n) && SystemTree(n, sources) && exists x :: Carries(n, x, name)
  }

  ghost predicate SystemLists(ds: seq<Disk>, d: Disk, name: string) { d in ds && d.system && Lists(d, name) }

  /** A system drive of the inventory lists a volume of this name exactly if
      some tree that shows the system has a volume of this name. */
  lemma {:induction false} SystemListsExactly(nodes: seq<Node>, findmnt: Option<seq<MountNode>>, name: string)
    ensures (exists d :: SystemLists(Built(nodes, findmnt).disks, d, name)) <==>
              exists n :: SystemCarries(nodes, n, SystemSources(Table(findmnt)), name)
  {
    var table := Table(findmnt);
    var sources, ds := SystemSources(table), Drives(nodes, table);
    if d :| SystemLists(Built(nodes, findmnt).disks, d, name) {
      SystemIsNotWithheld(nodes, findmnt, d);
      var n := DriveHasNode(nodes, d, table);
      ListedExactly(n, sources, table, name);
      assert SystemCarries(nodes, n, sources, name);
    }
    if n :| SystemCarries(nodes, n, sources, name) {
      var d := DiskOf(n, sources, table);
      NodeHasDrive(nodes, n, d, table);
      ListedExactly(n, sources, table, name);
      DetectedExactly(nodes, findmnt);
      SortedMembers(ds, d);
      assert SystemLists(Built(nodes, findmnt).disks, d, name);
    }
  }

  lemma SystemIsNotWithheld(nodes: seq<Node>, findmnt: Option<seq<MountNode>>, d: Disk)
    requires d in Built(nodes, findmnt).disks && d.system
    ensures d in Drives(nodes, Table(findmnt))
  {
    var ds := Drives(nodes, Table(findmnt));
    SortedMembers(if AnySystem(ds) then ds else AllWithheld(ds), d);
  }

  /** What the mount tree protects: exactly the devices of the mounts on top
      at system locations. */
  lemma SourcesExactly(filesystems: seq<MountNode>, p: string)
    ensures p in SystemSources(Table(Some(filesystems))) <==> Protects(Preorder(filesystems), p)
  {
    var table, pre := Table(Some(filesystems)), Preorder(filesystems);
    if t :| t in table && IsSystemMount(t) && HasPrefix(table[t].source, "/dev/") && table[t].source == p {
      FlattenIsLastMount(filesystems, t);
      var i := LastExists(pre, t);
      assert OnTop(pre, i) && SystemSource(pre[i], p);
    }
    if i :| OnTop(pre, i) && SystemSource(pre[i], p) {
      FlattenIsLastMount(filesystems, pre[i].target);
      assert pre[i].target in table && table[pre[i].target].source == p;
    }
  }

  /** No later mount has the same target. */
  predicate OnTop(pre: seq<MountNode>, i: int) { 0 <= i < |pre| && LastAt(pre, i, pre[i].target) }

  ghost predicate Protects(pre: seq<MountNode>, p: string) { exists i :: OnTop(pre, i) && SystemSource(pre[i], p) }

  predicate SystemSource(m: MountNode, p: string) {
    IsSystemMount(m.target) && HasPrefix(p, "/dev/") && Device(m.source) == p
  }

  lemma TwoMounts(a: MountNode, b: MountNode)
    requires a.children == b.children == []
    ensures Preorder([a, b]) == [a, b]
  {
    assert [a, b][1..] == [b] && [b][1..] == [];
    assert Preorder([b]) == [b];
  }

  /** A mount below another one at the same location gives no protection. */
  lemma CoveredMountIsNoSource(target: string, under: string, over: string)
    requires Device(over) != under
    ensures under !in
              SystemSources(Table(Some([MountNode(target, under, "ext4", []), MountNode(target, over, "ext4", [])])))
  {
    var a, b := MountNode(target, under, "ext4", []), MountNode(target, over, "ext4", []);
    TwoMounts(a, b);
    SourcesExactly([a, b], under);
    assert !OnTop([a, b], 0);
  }

  /** A node named by such a device protects its drive, whatever lsblk saw. */
  lemma {:induction false} MountTreeProtects(filesystems: seq<MountNode>, n: Node, x: Node, p: string)
    requires Inside(x, n) && (p == x.path || p == "/dev/" + x.kname || p == "/dev/mapper/" + x.name)
    requires Protects(Preorder(filesystems), p)
    ensures SystemTree(n, SystemSources(Table(Some(filesystems))))
  {
    var sources := SystemSources(Table(Some(filesystems)));
    var k := if p == x.path then 0 else if p == "/dev/" + x.kname then 1 else 2;
    assert DeviceNames(x)[k] == p;
    SourcesExactly(filesystems, p);
    NamedRunsSystem(x, k, sources);
  }

  lemma NamedRunsSystem(x: Node, k: nat, sources: set<string>)
    requires k < |DeviceNames(x)| && DeviceNames(x)[k] in sources
    ensures RunsSystem(x, sources)
  {
  }
}
