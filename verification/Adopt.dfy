/** Taking a mounted volume into use (internal/storage/adopt.go), on top of the
    inventory and the kernel's mount table. */
module Adopt {
  import opened Options
  import opened Text
  import opened Paths
  import opened Mounts
  import Lsblk
  import opened Disks

  datatype Code = NotFound | NotAdoptable | SystemDisk | UnsafePath | UnknownSystemDisk | InputOutput
  datatype Request = Request(volume: string, folder: string, createFolders: bool)
  datatype Adopted = Adopted(
    path: string, folder: string, uuid: string, volume: string,
    dataDir: string, created: seq<string>, existing: seq<string>, skipped: seq<string>)
  datatype Result = Ok(res: Adopted) | Refused(code: Code)

  // ---- the folder name ----

  predicate Control(c: char) { c as int < 0x20 || c as int == 0x7f }

  predicate ValidPart(p: string) { PlainPart(p) && |p| <= 255 && forall i :: 0 <= i < |p| ==> !Control(p[i]) }

  predicate ValidParts(parts: seq<string>) { |parts| <= 4 && forall i :: 0 <= i < |parts| ==> ValidPart(parts[i]) }

  /** The elements of a folder name; none for the whole drive. */
  function FolderParts(f: string): seq<string> { if f == "" then [] else Split(f, '/') }

  /** Up to four plain elements without control characters or backslashes. */
  predicate ValidFolder(f: string) { '\\' !in f && ValidParts(FolderParts(f)) }

  lemma {:induction false} SplitBytes(s: string, sep: char, c: char)
    requires c in s && c != sep
    ensures exists i :: 0 <= i < |Split(s, sep)| && c in Split(s, sep)[i]
  {
    var r, last := Split(s[..|s| - 1], sep), s[|s| - 1];
    var parts := Split(s, sep);
    if c == last {
      assert c in parts[|parts| - 1];
    } else {
      assert c in s[..|s| - 1] by {
        var k :| 0 <= k < |s| && s[k] == c;
        assert s[..|s| - 1][k] == c;
      }
      SplitBytes(s[..|s| - 1], sep, c);
      var i :| 0 <= i < |r| && c in r[i];
      assert c in parts[i];
    }
  }

  lemma SplitEdges(s: string)
    requires s != ""
    ensures s[0] == '/' ==> Split(s, '/')[0] == ""
    ensures s[|s| - 1] == '/' ==> Split(s, '/')[|Split(s, '/')| - 1] == ""
  {
    if s[0] == '/' {
      assert s == [] + ['/'] + s[1..];
      SplitConcat([], s[1..], '/');
    }
  }

  method ValidateFolder(f: string) returns (ok: bool)
    ensures ok <==> ValidFolder(f)
  {
    if f == "" {
      return true;
    }
    SplitEdges(f);
    SplitApart(f, '/');
    if '\0' in f {
      SplitBytes(f, '/', '\0');
      return false;
    }
    if '\\' in f || HasPrefix(f, "/") || HasSuffix(f, "/") {
      return false;
    }
    var parts := Split(f, '/');
    if |parts| > 4 {
      return false;
    }
    for i := 0 to |parts|
      invariant forall j :: 0 <= j < i ==> ValidPart(parts[j])
    {
      var p := parts[i];
      if p == "" || p == "." || p == ".." || |p| > 255 {
        return false;
      }
      for j := 0 to |p|
        invariant forall k :: 0 <= k < j ==> !Control(p[k])
      {
        if Control(p[j]) {
          return false;
        }
      }
    }
    return true;
  }

  // ---- the drive ----

  datatype Kind = Dir | File | Link
  datatype Looked = Present(kind: Kind) | Missing | Failed
  datatype Made = Done | Exists | NotMade
  datatype Ensured = Created | Existing | No(code: Code)

  type Entries = map<seq<string>, Kind>

  /** Every element down to rel is a folder. */
  predicate Solid(entries: Entries, rel: seq<string>) {
    forall k :: 0 < k <= |rel| ==> rel[..k] in entries && entries[rel[..k]] == Dir
  }

  /** rel leads to itself: folders down to it, and no link at its end. */
  predicate Itself(entries: Entries, rel: seq<string>) {
    forall k :: 0 < k <= |rel| ==>
      rel[..k] in entries && entries[rel[..k]] != Link && (k < |rel| ==> entries[rel[..k]] == Dir)
  }

  /** Nothing that was there is gone or changed. */
  predicate Kept(before: Entries, after: Entries) {
    forall p :: p in before ==> p in after && after[p] == before[p]
  }

  function Parent(rel: seq<string>): seq<string>
    requires rel != []
  {
    rel[..|rel| - 1]
  }

  /** What is below the mount point. Unless it is quiet, other programs may add
      entries at any moment; unless it is reliable, any call may fail. */
  class Drive {
    var entries: Entries
    const quiet: bool
    const reliable: bool

    constructor (entries: Entries, quiet: bool, reliable: bool)
      ensures this.entries == entries && this.quiet == quiet && this.reliable == reliable
    {
      this.entries, this.quiet, this.reliable := entries, quiet, reliable;
    }

    method Others()
      modifies this`entries
      ensures Kept(old(entries), entries)
      ensures quiet ==> entries == old(entries)
    {
      if !quiet {
        var more: Entries := *;
        entries := more + entries;
      }
    }

    method Fails() returns (err: bool)
      ensures reliable ==> !err
    {
      err := *;
      err := err && !reliable;
    }

    /** Not below folders only, the answer may come from anywhere on the drive. */
    method Lstat(rel: seq<string>) returns (r: Looked)
      requires rel != []
      modifies this`entries
      ensures Kept(old(entries), entries) && (quiet ==> entries == old(entries))
      ensures Solid(old(entries), Parent(rel)) ==>
                && (r.Present? ==> rel in entries && entries[rel] == r.kind)
                && (r.Missing? ==> rel !in entries)
                && (reliable ==> !r.Failed?)
    {
      Others();
      var err := Fails();
      if err {
        return Failed;
      }
      if !Solid(entries, Parent(rel)) {
        r := *;
      } else {
        r := if rel in entries then Present(entries[rel]) else Missing;
      }
    }

    /** Not below folders only, the new folder may come to be elsewhere. */
    method Mkdir(rel: seq<string>) returns (r: Made)
      requires rel != []
      modifies this`entries
      ensures Kept(old(entries), entries)
      ensures Solid(old(entries), Parent(rel)) ==>
                && (r.Done? ==> rel in entries && entries[rel] == Dir)
                && (r.Exists? ==> rel in entries)
                && (reliable ==> !r.NotMade?)
                && (quiet ==> entries == if r.Done? then old(entries)[rel := Dir] else old(entries))
                && (quiet && r.Done? ==> rel !in old(entries))
    {
      Others();
      if !Solid(entries, Parent(rel)) {
        var more: Entries := *;
        entries, r := more + entries, *;
        return;
      }
      var err := Fails();
      if err {
        return NotMade;
      }
      if rel in entries {
        return Exists;
      }
      entries := entries[rel := Dir];
      r := Done;
    }

    /** OpenRoot of a folder on the drive. */
    method OpenFolder(rel: seq<string>) returns (err: bool)
      modifies this`entries
      ensures Kept(old(entries), entries) && (quiet ==> entries == old(entries))
      ensures reliable && Solid(old(entries), rel) ==> !err
    {
      Others();
      err := Fails();
      if !Solid(entries, rel) {
        err := *;
      }
    }

    /** EvalSymlinks of a path on the drive: whether it leads to itself. */
    method LeadsToItself(rel: seq<string>) returns (err: bool, same: bool)
      modifies this`entries
      ensures Kept(old(entries), entries) && (quiet ==> entries == old(entries))
      ensures !err && same ==> Itself(entries, rel)
      ensures reliable && Solid(old(entries), rel) ==> !err && same
    {
      Others();
      err := Fails();
      same := Itself(entries, rel);
      if !same {
        // A missing element is an error; a link leads somewhere else.
        err := *;
      }
    }

    /** Create rel if missing; an existing folder is reused, anything else is
        refused and left as it is. */
    method EnsureDir(rel: seq<string>) returns (r: Ensured)
      requires rel != []
      modifies this`entries
      ensures Kept(old(entries), entries)
      ensures Solid(old(entries), Parent(rel)) ==>
                && (r.Created? ==> Solid(entries, rel))
                && (r.Existing? ==> rel in entries)
                && (quiet ==> entries == if r.Created? then old(entries)[rel := Dir] else old(entries))
                && (quiet && r.Created? ==> rel !in old(entries))
                && (quiet && r.Existing? ==> Solid(old(entries), rel))
                && (quiet && reliable ==> (r.No? <==> rel in old(entries) && old(entries)[rel] != Dir))
                && (reliable && r.No? ==> r.code == UnsafePath)
    {
      var found := Lstat(rel);
      match found
      case Present(kind) =>
        if kind != Dir {
          return No(UnsafePath);
        }
        SolidEnd(entries, rel);
        return Existing;
      case Missing =>
        var made := Mkdir(rel);
        SolidEnd(entries, rel);
        if made.Exists? {
          return Existing;
        }
        if made.NotMade? {
          return No(InputOutput);
        }
        return Created;
      case Failed =>
        return No(InputOutput);
    }
  }

  lemma SolidEnd(entries: Entries, rel: seq<string>)
    requires rel != []
    ensures Solid(entries, rel) <==> Solid(entries, Parent(rel)) && rel in entries && entries[rel] == Dir
  {
    assert rel[..|rel|] == rel;
    forall k | 0 < k < |rel| ensures rel[..k] == Parent(rel)[..k] {
    }
  }

  // ---- the search ----

  function LastVolume(vs: seq<Volume>, name: string): Option<Volume> {
    if vs == [] then None
    else if vs[|vs| - 1].name == name then Some(vs[|vs| - 1])
    else LastVolume(vs[..|vs| - 1], name)
  }

  /** The last volume of that name in the inventory, with its drive. */
  function LastNamed(ds: seq<Disk>, name: string): Option<(Disk, Volume)> {
    if ds == [] then None
    else
      var v := LastVolume(ds[|ds| - 1].volumes, name);
      if v.Some? then Some((ds[|ds| - 1], v.value)) else LastNamed(ds[..|ds| - 1], name)
  }

  method FindVolume(ds: seq<Disk>, name: string) returns (found: Option<(Disk, Volume)>)
    ensures found == LastNamed(ds, name)
  {
    found := None;
    for i := 0 to |ds|
      invariant found == LastNamed(ds[..i], name)
    {
      assert ds[..i + 1][..i] == ds[..i];
      var d := ds[i];
      ghost var before := found;
      for j := 0 to |d.volumes|
        invariant found == var v := LastVolume(d.volumes[..j], name); if v.Some? then Some((d, v.value)) else before
      {
        assert d.volumes[..j + 1][..j] == d.volumes[..j];
        if d.volumes[j].name == name {
          found := Some((d, d.volumes[j]));
        }
      }
      assert d.volumes[..|d.volumes|] == d.volumes;
    }
    assert ds[..|ds|] == ds;
  }

  lemma {:induction false} LastVolumeIsNamed(vs: seq<Volume>, name: string)
    ensures var v := LastVolume(vs, name);
            if v.Some? then v.value in vs && v.value.name == name else forall i :: 0 <= i < |vs| ==> vs[i].name != name
  {
    if vs != [] {
      LastVolumeIsNamed(vs[..|vs| - 1], name);
    }
  }

  lemma {:induction false} LastNamedIsNamed(ds: seq<Disk>, name: string)
    ensures var f := LastNamed(ds, name);
            if f.Some? then f.value.0 in ds && f.value.1 in f.value.0.volumes && f.value.1.name == name
            else forall i, j :: 0 <= i < |ds| && 0 <= j < |ds[i].volumes| ==> ds[i].volumes[j].name != name
  {
    if ds != [] {
      LastVolumeIsNamed(ds[|ds| - 1].volumes, name);
      LastNamedIsNamed(ds[..|ds| - 1], name);
    }
  }

  // ---- adoption ----

  function DataDir(mount: string, folder: string): string {
    if folder == "" then mount else PathJoin(mount, folder)
  }

  /** What has to hold of the scan for an adoption. */
  predicate Eligible(d: Disk, v: Volume, mounts: MountTable) {
    && !d.system && !d.isProtected && v.status != VolSystem
    && v.adoptable && v.mountpoints != [] && Clean(v.mountpoints[0]) in mounts
  }

  /** The gate an adoption passes before it touches the drive. */
  function Gate(inv: Option<Inventory>, mounts: MountTable, req: Request): Option<Code> {
    if inv.None? || !inv.value.systemDetected then Some(UnknownSystemDisk)
    else if !ValidFolder(req.folder) then Some(UnsafePath)
    else
      var f := LastNamed(inv.value.disks, req.volume);
      if f.None? then Some(NotFound)
      else if f.value.0.system || f.value.0.isProtected || f.value.1.status == VolSystem then Some(SystemDisk)
      else if !Eligible(f.value.0, f.value.1, mounts) then Some(NotAdoptable)
      else None
  }

  predicate Accepted(inv: Option<Inventory>, mounts: MountTable, req: Request, res: Adopted) {
    && inv.Some? && inv.value.systemDetected && ValidFolder(req.folder)
    && var f := LastNamed(inv.value.disks, req.volume);
    && f.Some? && Eligible(f.value.0, f.value.1, mounts)
    && res.path == f.value.1.mountpoints[0] && res.uuid == f.value.1.uuid && res.volume == f.value.1.name
    && res.folder == req.folder && res.dataDir == DataDir(res.path, req.folder)
    && Best(mounts, Clean(res.dataDir)) == res.path
  }

  /** What is in the way of making rel: nothing but folders. */
  predicate Clear(entries: Entries, rel: seq<string>) {
    forall k :: 0 < k <= |rel| && rel[..k] in entries ==> entries[rel[..k]] == Dir
  }

  /** rel and the folders above it are made where missing. */
  function MakeDirs(entries: Entries, rel: seq<string>): Entries {
    if rel == [] then entries
    else
      var e := MakeDirs(entries, Parent(rel));
      if rel in e then e else e[rel := Dir]
  }

  /** Only folders on the way to rel are new. */
  lemma {:induction false} MakeDirsAdds(entries: Entries, rel: seq<string>)
    ensures Kept(entries, MakeDirs(entries, rel))
    ensures forall p :: p in MakeDirs(entries, rel) && p !in entries ==> MakeDirs(entries, rel)[p] == Dir && p <= rel
  {
    if rel != [] {
      MakeDirsAdds(entries, Parent(rel));
    }
  }

  lemma ClearEnd(entries: Entries, rel: seq<string>)
    requires rel != []
    ensures Clear(entries, rel) <==> Clear(entries, Parent(rel)) && (rel in entries ==> entries[rel] == Dir)
  {
    assert rel[..|rel|] == rel;
    forall k | 0 < k < |rel| ensures rel[..k] == Parent(rel)[..k] {
    }
  }

  lemma {:induction false} MakeDirsSolid(entries: Entries, rel: seq<string>)
    ensures Clear(entries, rel) <==> Solid(MakeDirs(entries, rel), rel)
  {
    if rel != [] {
      var e := MakeDirs(entries, Parent(rel));
      MakeDirsSolid(entries, Parent(rel));
      MakeDirsAdds(entries, Parent(rel));
      SolidEnd(MakeDirs(entries, rel), rel);
      ClearEnd(entries, rel);
      SolidUpdate(e, Parent(rel), rel);
    }
  }

  lemma SolidUpdate(entries: Entries, rel: seq<string>, p: seq<string>)
    requires |p| > |rel|
    ensures Solid(entries[p := Dir], rel) <==> Solid(entries, rel)
  {
    forall k | 0 < k <= |rel| ensures rel[..k] != p {
    }
  }

  /** Adopt's loop over the elements of the folder. */
  method MakeFolder(drive: Drive, parts: seq<string>) returns (failed: Option<Code>, created: bool)
    modifies drive`entries
    ensures Kept(old(drive.entries), drive.entries)
    ensures drive.quiet && failed.None? ==>
              drive.entries == MakeDirs(old(drive.entries), parts)
              && (created <==> parts != [] && parts !in old(drive.entries))
    ensures drive.quiet && failed.Some? ==>
              exists i :: 0 <= i < |parts| && drive.entries == MakeDirs(old(drive.entries), parts[..i])
    ensures drive.quiet && drive.reliable ==> (failed.None? <==> Clear(old(drive.entries), parts))
    ensures failed.None? && drive.quiet ==> Solid(drive.entries, parts)
  {
    created := false;
    ghost var before := drive.entries;
    for i := 0 to |parts|
      invariant Kept(before, drive.entries)
      invariant drive.quiet ==> drive.entries == MakeDirs(before, parts[..i]) && Solid(drive.entries, parts[..i])
      invariant created ==> i == |parts| && i > 0
      invariant drive.quiet && i == |parts| > 0 ==> (created <==> parts !in before)
    {
      var rel := parts[..i + 1];
      assert Parent(rel) == parts[..i];
      MakeDirsSolid(before, parts[..i]);
      MakeDirsAdds(before, parts[..i]);
      ClearEnd(before, rel);
      assert i == |parts| - 1 ==> rel == parts;
      var r := drive.EnsureDir(rel);
      if r.No? {
        ClearPrefix(before, parts, i + 1);
        return Some(r.code), false;
      }
      SolidEnd(drive.entries, rel);
      assert !(rel <= parts[..i]);
      if r.Created? && i == |parts| - 1 {
        created := true;
      }
    }
    assert parts[..|parts|] == parts;
    MakeDirsSolid(before, parts);
    failed := None;
  }

  lemma ClearPrefix(entries: Entries, rel: seq<string>, k: nat)
    requires k <= |rel|
    ensures Clear(entries, rel) ==> Clear(entries, rel[..k])
  {
    forall j | 0 < j <= k ensures rel[..k][..j] == rel[..j] {
    }
  }

  function DefaultFolders(uploadFolder: string): seq<string> {
    ["Photos", "Documents", "Backups", "Projects", uploadFolder, "Shared"]
  }

  /** p is one of these names directly below sub. */
  predicate NamedBelow(p: seq<string>, sub: seq<string>, names: seq<string>) {
    |p| == |sub| + 1 && p[..|sub|] == sub && p[|sub|] in names
  }

  /** Only folders of these names directly below sub are new. */
  predicate OnlyBelow(before: Entries, now: Entries, sub: seq<string>, names: seq<string>) {
    forall p :: p in now && p !in before ==> now[p] == Dir && NamedBelow(p, sub, names)
  }

  predicate AllThere(now: Entries, sub: seq<string>, names: seq<string>) {
    forall i :: 0 <= i < |names| ==> Solid(now, sub + [names[i]])
  }

  predicate NoneThere(before: Entries, sub: seq<string>, names: seq<string>) {
    forall i :: 0 <= i < |names| ==> sub + [names[i]] !in before
  }

  /** Something else has each of these names. */
  predicate AllBlocked(before: Entries, sub: seq<string>, names: seq<string>) {
    forall i :: 0 <= i < |names| ==> sub + [names[i]] in before && before[sub + [names[i]]] != Dir
  }

  /** The lists say truly what was made and what was there. */
  predicate Truthful(before: Entries, now: Entries, sub: seq<string>, names: seq<string>, created: seq<string>,
                     existing: seq<string>) {
    && Solid(now, sub) && OnlyBelow(before, now, sub, names)
    && NoneThere(before, sub, created) && AllThere(now, sub, created) && AllThere(now, sub, existing)
  }

  lemma SolidKept(before: Entries, now: Entries, rel: seq<string>)
    requires Kept(before, now) && Solid(before, rel)
    ensures Solid(now, rel)
  {
  }

  lemma AllThereKept(before: Entries, now: Entries, sub: seq<string>, names: seq<string>)
    requires Kept(before, now) && AllThere(before, sub, names)
    ensures AllThere(now, sub, names)
  {
    forall i | 0 <= i < |names| ensures Solid(now, sub + [names[i]]) {
      SolidKept(before, now, sub + [names[i]]);
    }
  }

  lemma AllThereOneMore(now: Entries, sub: seq<string>, names: seq<string>, name: string)
    requires AllThere(now, sub, names) && Solid(now, sub + [name])
    ensures AllThere(now, sub, names + [name])
  {
    forall i | 0 <= i < |names| + 1 ensures Solid(now, sub + [(names + [name])[i]]) {
      if i < |names| {
        assert (names + [name])[i] == names[i];
      }
    }
  }

  lemma MadeStep(start: Entries, before: Entries, sub: seq<string>, names: seq<string>, created: seq<string>,
                 existing: seq<string>, name: string)
    requires Kept(start, before) && Truthful(start, before, sub, names, created, existing) && name in names
    requires sub + [name] !in before
    ensures Truthful(start, before[sub + [name] := Dir], sub, names, created + [name], existing)
  {
    var now, rel := before[sub + [name] := Dir], sub + [name];
    assert Parent(rel) == sub;
    SolidKept(before, now, sub);
    SolidEnd(now, rel);
    AllThereKept(before, now, sub, created);
    AllThereKept(before, now, sub, existing);
    AllThereOneMore(now, sub, created, name);
  }

  /** One round of MakeDefaults on a quiet drive. */
  lemma DefaultStep(start: Entries, before: Entries, now: Entries, sub: seq<string>, names: seq<string>,
                    created: seq<string>, existing: seq<string>, name: string, r: Ensured)
    requires Kept(start, before) && Truthful(start, before, sub, names, created, existing) && name in names
    requires now == if r.Created? then before[sub + [name] := Dir] else before
    requires r.Created? ==> sub + [name] !in before
    requires r.Existing? ==> Solid(before, sub + [name])
    ensures Truthful(start, now, sub, names,
                     if r.Created? then created + [name] else created,
                     if r.Existing? then existing + [name] else existing)
  {
    if r.Created? {
      MadeStep(start, before, sub, names, created, existing, name);
    } else if r.Existing? {
      AllThereOneMore(before, sub, existing, name);
    }
  }

  /** Every name is in exactly one of the lists. */
  ghost predicate Divided(created: seq<string>, existing: seq<string>, skipped: seq<string>, names: seq<string>) {
    multiset(created) + multiset(existing) + multiset(skipped) == multiset(names)
  }

  lemma DividedStep(created: seq<string>, existing: seq<string>, skipped: seq<string>, names: seq<string>, k: nat)
    requires k < |names| && Divided(created, existing, skipped, names[..k])
    ensures Divided(created + [names[k]], existing, skipped, names[..k + 1])
    ensures Divided(created, existing + [names[k]], skipped, names[..k + 1])
    ensures Divided(created, existing, skipped + [names[k]], names[..k + 1])
  {
    assert names[..k + 1] == names[..k] + [names[k]];
  }

  /** Adopt's loop over the default folders: every name ends in one of the
      three lists, and says truly what is there. */
  method MakeDefaults(drive: Drive, sub: seq<string>, names: seq<string>)
    returns (created: seq<string>, existing: seq<string>, skipped: seq<string>)
    modifies drive`entries
    ensures Kept(old(drive.entries), drive.entries)
    ensures Divided(created, existing, skipped, names)
    ensures drive.quiet && Solid(old(drive.entries), sub) ==>
              Truthful(old(drive.entries), drive.entries, sub, names, created, existing)
    ensures drive.quiet && drive.reliable && Solid(old(drive.entries), sub) ==>
              AllBlocked(old(drive.entries), sub, skipped)
  {
    created, existing, skipped := [], [], [];
    ghost var start := drive.entries;
    for k := 0 to |names|
      invariant Kept(start, drive.entries)
      invariant Divided(created, existing, skipped, names[..k])
      invariant drive.quiet && Solid(start, sub) ==> Truthful(start, drive.entries, sub, names, created, existing)
      invariant drive.quiet && drive.reliable && Solid(start, sub) ==> AllBlocked(start, sub, skipped)
    {
      DividedStep(created, existing, skipped, names, k);
      var rel := sub + [names[k]];
      assert Parent(rel) == sub;
      ghost var before := drive.entries;
      var r := drive.EnsureDir(rel);
      if drive.quiet && Solid(start, sub) {
        DefaultStep(start, before, drive.entries, sub, names, created, existing, names[k], r);
      }
      match r
      case No(_) => skipped := skipped + [names[k]];
      case Created => created := created + [names[k]];
      case Existing => existing := existing + [names[k]];
    }
    assert names[..|names|] == names;
  }

  /** Only folders are new: those on the way to the Vault folder, and the
      default ones in it. */
  predicate OnlyFolders(before: Entries, now: Entries, parts: seq<string>, names: seq<string>) {
    forall p :: p in now && p !in before ==> now[p] == Dir && (p <= parts || NamedBelow(p, parts, names))
  }

  /** The folders a request wants in the Vault. */
  function Defaults(req: Request, uploadFolder: string): seq<string> {
    if req.createFolders then DefaultFolders(uploadFolder) else []
  }

  /** Every asked folder is listed once: the Vault folder if it was made. */
  predicate Accounted(res: Adopted, made: bool, names: seq<string>) {
    multiset(res.created) + multiset(res.existing) + multiset(res.skipped)
    == multiset(if made then [res.folder] else []) + multiset(names)
  }

  /** A refusal at the gate leaves the drive alone; success means the scan and
      the mount table allowed it and the folder leads to itself; nothing on the
      drive is ever replaced or removed, and on a quiet drive only the asked
      folders are new. Without faults or interference, exactly an eligible
      volume with a clear way to the folder on its own filesystem is taken. */
  method Adopt(inv: Option<Inventory>, mounts: MountTable, req: Request, uploadFolder: string, drive: Drive)
    returns (r: Result)
    modifies drive`entries
    ensures Gate(inv, mounts, req).Some? ==>
              r == Refused(Gate(inv, mounts, req).value) && drive.entries == old(drive.entries)
    ensures r.Ok? ==> Accepted(inv, mounts, req, r.res) && Itself(drive.entries, FolderParts(req.folder))
    ensures Kept(old(drive.entries), drive.entries)
    ensures drive.quiet ==>
              OnlyFolders(old(drive.entries), drive.entries, FolderParts(req.folder), Defaults(req, uploadFolder))
    ensures drive.quiet && r.Ok? ==>
              && Solid(drive.entries, FolderParts(req.folder))
              && Accounted(r.res,
                           req.folder != "" && FolderParts(req.folder) !in old(drive.entries),
                           Defaults(req, uploadFolder))
    ensures drive.quiet && drive.reliable && Gate(inv, mounts, req).None? ==>
              (r.Ok? <==> Clear(old(drive.entries), FolderParts(req.folder)) && StaysThere(inv, mounts, req))
  {
    if inv.None? || !inv.value.systemDetected {
      return Refused(UnknownSystemDisk);
    }
    var valid := ValidateFolder(req.folder);
    if !valid {
      return Refused(UnsafePath);
    }
    var found := FindVolume(inv.value.disks, req.volume);
    if found.None? {
      return Refused(NotFound);
    }
    var disk, vol := found.value.0, found.value.1;
    if disk.system || disk.isProtected || vol.status == VolSystem {
      return Refused(SystemDisk);
    }
    if !vol.adoptable || |vol.mountpoints| == 0 {
      return Refused(NotAdoptable);
    }
    var mount := vol.mountpoints[0];
    var mounted := IsMountPoint(mounts, mount);
    if !mounted {
      return Refused(NotAdoptable);
    }
    var dataDir := mount;
    if req.folder != "" {
      dataDir := PathJoin(mount, req.folder);
    }
    r := Prepare(mounts, drive, mount, dataDir, req.folder, req.createFolders, Defaults(req, uploadFolder));
    if r.Ok? {
      r := Ok(r.res.(uuid := vol.uuid, volume := vol.name));
    }
  }

  /** The mount table puts the folder on the volume's own filesystem. */
  predicate StaysThere(inv: Option<Inventory>, mounts: MountTable, req: Request)
    requires Gate(inv, mounts, req).None?
  {
    var mount := LastNamed(inv.value.disks, req.volume).value.1.mountpoints[0];
    Best(mounts, Clean(DataDir(mount, req.folder))) == mount
  }

  /** The part of Adopt that touches the drive. */
  method Prepare(mounts: MountTable, drive: Drive, mount: string, dataDir: string, folder: string, fill: bool,
                 names: seq<string>)
    returns (r: Result)
    requires fill || names == []
    modifies drive`entries
    ensures r.Ok? ==>
              && r.res.path == mount && r.res.folder == folder && r.res.dataDir == dataDir
              && Best(mounts, Clean(dataDir)) == mount && Itself(drive.entries, FolderParts(folder))
    ensures Kept(old(drive.entries), drive.entries)
    ensures drive.quiet ==> OnlyFolders(old(drive.entries), drive.entries, FolderParts(folder), names)
    ensures drive.quiet && r.Ok? ==>
              && Solid(drive.entries, FolderParts(folder))
              && Accounted(r.res, FolderParts(folder) != [] && FolderParts(folder) !in old(drive.entries), names)
    ensures drive.quiet && drive.reliable ==>
              (r.Ok? <==> Clear(old(drive.entries), FolderParts(folder)) && Best(mounts, Clean(dataDir)) == mount)
  {
    ghost var start := drive.entries;
    var parts := FolderParts(folder);
    var failed, made := Settle(mounts, drive, mount, dataDir, parts);
    ghost var settled := drive.entries;
    OnlyFoldersThen(start, settled, settled, parts, names);
    if failed.Some? {
      return Refused(failed.value);
    }
    var created, existing, skipped := if made then [folder] else [], [], [];
    if fill {
      var more;
      failed, more, existing, skipped := Fill(drive, parts, names);
      OnlyFoldersThen(start, settled, drive.entries, parts, names);
      if failed.Some? {
        return Refused(failed.value);
      }
      created := created + more;
      ItselfKept(settled, drive.entries, parts);
    }
    r := Ok(Adopted(mount, folder, "", "", dataDir, created, existing, skipped));
  }

  /** Make the folder, and check where it really is. */
  method Settle(mounts: MountTable, drive: Drive, mount: string, dataDir: string, parts: seq<string>)
    returns (failed: Option<Code>, made: bool)
    modifies drive`entries
    ensures Kept(old(drive.entries), drive.entries)
    ensures failed.None? ==> Itself(drive.entries, parts) && Best(mounts, Clean(dataDir)) == mount
    ensures drive.quiet ==> OnlyFolders(old(drive.entries), drive.entries, parts, [])
    ensures drive.quiet && failed.None? ==>
              Solid(drive.entries, parts) && (made <==> parts != [] && parts !in old(drive.entries))
    ensures drive.quiet && drive.reliable ==>
              (failed.None? <==> Clear(old(drive.entries), parts) && Best(mounts, Clean(dataDir)) == mount)
  {
    ghost var start := drive.entries;
    var err := drive.OpenFolder([]);
    if err {
      return Some(InputOutput), false;
    }
    failed, made := MakeFolder(drive, parts);
    PrefixesOnly(start, drive.entries, parts);
    if failed.Some? {
      return;
    }
    var same;
    err, same := drive.LeadsToItself(parts);
    if err {
      return Some(InputOutput), made;
    }
    if !same {
      return Some(UnsafePath), made;
    }
    var c := Containing(mounts, dataDir);
    if c != mount {
      return Some(UnsafePath), made;
    }
  }

  /** Make the default folders. */
  method Fill(drive: Drive, parts: seq<string>, names: seq<string>)
    returns (failed: Option<Code>, created: seq<string>, existing: seq<string>, skipped: seq<string>)
    modifies drive`entries
    ensures Kept(old(drive.entries), drive.entries)
    ensures failed.None? ==> multiset(created) + multiset(existing) + multiset(skipped) == multiset(names)
    ensures drive.quiet && Solid(old(drive.entries), parts) ==>
              Solid(drive.entries, parts) && OnlyBelow(old(drive.entries), drive.entries, parts, names)
    ensures drive.quiet && drive.reliable && Solid(old(drive.entries), parts) ==> failed.None?
  {
    failed, created, existing, skipped := None, [], [], [];
    if parts != [] {
      var err := drive.OpenFolder(parts);
      if err {
        return Some(InputOutput), [], [], [];
      }
    }
    created, existing, skipped := MakeDefaults(drive, parts, names);
  }

  lemma OnlyFoldersThen(start: Entries, settled: Entries, now: Entries, parts: seq<string>, names: seq<string>)
    requires Kept(settled, now)
    ensures OnlyFolders(start, settled, parts, []) && OnlyBelow(settled, now, parts, names) ==>
              OnlyFolders(start, now, parts, names)
  {
  }

  lemma PrefixesOnly(start: Entries, now: Entries, parts: seq<string>)
    ensures now == MakeDirs(start, parts) ==> OnlyFolders(start, now, parts, [])
    ensures (exists i :: 0 <= i < |parts| && now == MakeDirs(start, parts[..i])) ==> OnlyFolders(start, now, parts, [])
  {
    MakeDirsAdds(start, parts);
    if i :| 0 <= i < |parts| && now == MakeDirs(start, parts[..i]) {
      MakeDirsAdds(start, parts[..i]);
    }
  }

  lemma ItselfKept(before: Entries, now: Entries, rel: seq<string>)
    requires Kept(before, now) && Itself(before, rel)
    ensures Itself(now, rel)
  {
  }

  // ---- what an adoption guarantees ----

  /** The data folder is the mount point and the folder's elements, no less. */
  lemma DataDirElements(mount: string, folder: string)
    requires Rooted(mount) && ValidFolder(folder)
    ensures var dir := DataDir(mount, folder); Rooted(dir) && Elements(dir) == Elements(mount) + FolderParts(folder)
  {
    if folder != "" {
      var parts := FolderParts(folder);
      var s := mount + "/" + folder;
      assert Plain(parts);
      SplitConcat(mount, folder, '/');
      ResolveConcat(Split(mount, '/'), parts, true);
      CleanOfRooted(s);
    } else {
      assert Elements(mount) + [] == Elements(mount);
    }
  }

  /** The mount table's answer for the data folder puts no other filesystem
      between the mount point and it. */
  lemma {:induction false} NothingBetween(mounts: MountTable, mount: string, folder: string)
    requires Kernel(mounts) && mount != "" && ValidFolder(folder) && Clean(mount) in mounts
    requires Best(mounts, Clean(DataDir(mount, folder))) == mount
    ensures mount in mounts && Rooted(mount) && Deepest(mounts, DataDir(mount, folder), mount)
  {
    BestIsLongest(mounts, Clean(DataDir(mount, folder)));
    assert MountPoint(mount);
    DataDirElements(mount, folder);
    ContainingIsDeepest(mounts, DataDir(mount, folder), mount);
  }

  /** If a scan's volume is adopted, then some drive was known to run the
      system, and nothing in the whole tree of the adopted drive was mounted at
      a system location or named by the mount table for one; every device from
      the drive down to the volume is writable, none of the volume's mount
      points is reserved, and the data folder lies on the volume's own
      filesystem, below its mount point. */
  lemma {:induction false} AdoptIsSafe(nodes: seq<Lsblk.Node>, findmnt: Option<seq<Lsblk.MountNode>>,
                                       mounts: MountTable, req: Request, res: Adopted)
    returns (n: Lsblk.Node, x: Lsblk.Node)
    requires Kernel(mounts) && Accepted(Some(Built(nodes, findmnt)), mounts, req, res)
    ensures var sources := SystemSources(Table(findmnt));
            && n in nodes && !SkipTopLevel(n)
            && (forall y :: Inside(y, n) ==> !RunsSystem(y, sources))
            && (exists s :: s in nodes && !SkipTopLevel(s) && SystemTree(s, sources))
    ensures WritableDown(n, x) && x.name == req.volume
    ensures Lsblk.MountedAt(x, res.path) && forall t :: Lsblk.MountedAt(x, t) ==> !Reserved(t)
    ensures Rooted(res.path) && Deepest(mounts, res.dataDir, res.path)
    ensures Elements(res.dataDir) == Elements(res.path) + FolderParts(req.folder)
    ensures res.uuid == x.uuid && res.volume == x.name
    ensures Lsblk.MountList(x) != [] && res.path == Lsblk.MountList(x)[0]
  {
    var inv := Built(nodes, findmnt);
    LastNamedIsNamed(inv.disks, req.volume);
    var f := LastNamed(inv.disks, req.volume);
    n, x := AdoptableIsSafe(nodes, findmnt, f.value.0, f.value.1);
    Lsblk.MountListExactly(x);
    assert res.path in Lsblk.MountList(x);
    DetectedExactly(nodes, findmnt);
    NothingBetween(mounts, res.path, req.folder);
    DataDirElements(res.path, req.folder);
  }

  /** With no system drive identified, every request is refused at the gate. */
  lemma NothingWithoutSystemDrive(nodes: seq<Lsblk.Node>, findmnt: Option<seq<Lsblk.MountNode>>, mounts: MountTable,
                                  req: Request)
    requires forall n :: n in nodes && !SkipTopLevel(n) ==> !SystemTree(n, SystemSources(Table(findmnt)))
    ensures Gate(Some(Built(nodes, findmnt)), mounts, req) == Some(UnknownSystemDisk)
  {
    DetectedExactly(nodes, findmnt);
  }

  // ---- a volume below two drives ----

  /** All volumes of n's tree with this name are x, below writable devices. */
  ghost predicate OnlyPlace(n: Lsblk.Node, x: Lsblk.Node) {
    forall i :: 0 <= i < |Places(n, false)| && Places(n, false)[i].node.name == x.name ==>
      Places(n, false)[i] == Place(x, false)
  }

  lemma LastOfDrive(o: Lsblk.Node, x: Lsblk.Node)
    requires Offers(o, x, {}, map[]) && OnlyPlace(o, x)
    ensures var vs := DiskOf(o, {}, map[]).volumes; LastVolume(vs, x.name) == Some(VolumeOf(x, false, false, map[]))
  {
    var ps, vs := Places(o, false), DiskOf(o, {}, map[]).volumes;
    WritableHasPlace(o, x);
    var i :| 0 <= i < |ps| && ps[i] == Place(x, false);
    assert vs[i].name == x.name;
    LastVolumeIsNamed(vs, x.name);
  }

  lemma SystemFirst(s: Disk, o: Disk)
    requires s.system && !o.system
    ensures Disks.Sorted([s, o]) == [s, o]
  {
    assert [s, o][1..] == [o] && [o][1..] == [];
    assert Disks.Sorted([o]) == [o];
  }

  lemma TwoDrives(s: Lsblk.Node, o: Lsblk.Node)
    requires !SkipTopLevel(s) && !SkipTopLevel(o) && SystemTree(s, {}) && !SystemTree(o, {})
    ensures Built([s, o], None) == Inventory([DiskOf(s, {}, map[]), DiskOf(o, {}, map[])], true)
  {
    var ds := Drives([s, o], map[]);
    assert [s, o][..1] == [s] && [s][..0] == [];
    assert Drives([s], map[]) == [DiskOf(s, {}, map[])];
    assert ds == [DiskOf(s, {}, map[]), DiskOf(o, {}, map[])];
    assert ds[0].system;
    SystemFirst(ds[0], ds[1]);
  }

  lemma LastOfTwo(s: Disk, o: Disk, name: string, v: Volume)
    requires LastVolume(o.volumes, name) == Some(v)
    ensures LastNamed([s, o], name) == Some((o, v))
  {
  }

  lemma OfferIsEligible(o: Lsblk.Node, x: Lsblk.Node, mounts: MountTable)
    requires Offers(o, x, {}, map[]) && Lsblk.MountList(x) != [] && Clean(Lsblk.MountList(x)[0]) in mounts
    ensures Eligible(DiskOf(o, {}, map[]), VolumeOf(x, false, false, map[]), mounts)
  {
    CanAdoptNode(x, false, false, map[]);
  }

  /** x is a mounted volume of the tree o, the only one of its name there, that
      the inventory offers. */
  ghost predicate OfferedFrom(o: Lsblk.Node, x: Lsblk.Node, mounts: MountTable) {
    && Offers(o, x, {}, map[]) && OnlyPlace(o, x)
    && var m := Lsblk.MountList(x); m != [] && Clean(m[0]) in mounts && Best(mounts, Clean(m[0])) == m[0]
  }

  function WholeDrive(x: Lsblk.Node, mount: string): Adopted { Adopted(mount, "", x.uuid, x.name, mount, [], [], []) }

  lemma {:induction false} AcceptedFrom(inv: Inventory, s: Disk, o: Lsblk.Node, x: Lsblk.Node, mounts: MountTable)
    requires inv == Inventory([s, DiskOf(o, {}, map[])], true) && OfferedFrom(o, x, mounts)
    ensures Accepted(Some(inv), mounts, Request(x.name, "", false), WholeDrive(x, Lsblk.MountList(x)[0]))
  {
    var d, v := DiskOf(o, {}, map[]), VolumeOf(x, false, false, map[]);
    LastOfDrive(o, x);
    LastOfTwo(s, d, x.name, v);
    OfferIsEligible(o, x, mounts);
    assert FolderParts("") == [];
  }

  /** The volume x is below the system's drive s and below o. */
  ghost predicate Shared(s: Lsblk.Node, o: Lsblk.Node, x: Lsblk.Node, mounts: MountTable) {
    && !SkipTopLevel(s) && !SkipTopLevel(o) && SystemTree(s, {}) && Carries(s, x, x.name)
    && OfferedFrom(o, x, mounts)
  }

  /** A volume that a system drive lists too is offered and accepted from the
      other drive, which is the last one listing it. */
  lemma {:induction false} SharedIsAccepted(s: Lsblk.Node, o: Lsblk.Node, x: Lsblk.Node, mounts: MountTable)
    requires Shared(s, o, x, mounts)
    ensures var res := WholeDrive(x, Lsblk.MountList(x)[0]);
            Accepted(Some(Built([s, o], None)), mounts, Request(x.name, "", false), res)
    ensures exists d :: SystemLists(Built([s, o], None).disks, d, x.name)
  {
    TwoDrives(s, o);
    AcceptedFrom(Built([s, o], None), DiskOf(s, {}, map[]), o, x, mounts);
    ListedExactly(s, {}, map[], x.name);
    assert SystemLists(Built([s, o], None).disks, DiskOf(s, {}, map[]), x.name);
  }

  const ARRAY := Lsblk.Node(
    "md0", "md0", "/dev/md0", "raid1", 1, "ext4", "u", [Some("/mnt")], None, false, false, false, [])
  const FIRST := Lsblk.Node(
    "sda", "sda", "/dev/sda", "disk", 1, "", "", [Some("/")], None, false, false, false, [ARRAY])
  const SECOND := Lsblk.Node(
    "sdb", "sdb", "/dev/sdb", "disk", 1, "", "", [], None, false, false, false, [ARRAY])

  lemma OneChild(n: Lsblk.Node, x: Lsblk.Node)
    requires n.children == [x] && x.children == []
    ensures forall y :: Inside(y, n) <==> y == n || y == x
    ensures WritableDown(n, x) <==> !n.readOnly && !x.readOnly
  {
    assert n.children[0] == x;
    assert Inside(x, x);
    forall y | Inside(y, n) && y != n ensures y == x {
      var i :| 0 <= i < |n.children| && Inside(y, n.children[i]);
    }
  }

  lemma ChildIsOnlyPlace(n: Lsblk.Node, x: Lsblk.Node)
    requires n.children == [x] && x.children == [] && !HasVolume(n) && HasVolume(x) && !n.readOnly && !x.readOnly
    ensures OnlyPlace(n, x)
  {
    assert n.children[..0] == [];
    assert Places(x, false) == [Place(x, false)];
    assert Places(n, false) == [Place(x, false)];
  }

  lemma OnlyMount(n: Lsblk.Node, t: string)
    requires n.mountpoints == [Some(t)] && n.mountpoint == None && t != ""
    ensures Lsblk.MountList(n) == [t] && forall u :: Lsblk.MountedAt(n, u) <==> u == t
  {
    var all := n.mountpoints + [n.mountpoint];
    assert all[..1] == [Some(t)] && all[..1][..0] == [];
    assert Lsblk.Distinct(all[..1]) == [t];
  }

  lemma NoMount(n: Lsblk.Node)
    requires n.mountpoints == [] && n.mountpoint == None
    ensures Lsblk.MountList(n) == [] && forall u :: !Lsblk.MountedAt(n, u)
  {
    Lsblk.MountListExactly(n);
    assert Lsblk.MountList(n) == [] || Lsblk.MountedAt(n, Lsblk.MountList(n)[0]);
  }

  /** A system drive and a plain one with the same mounted volume below. */
  ghost predicate Pair(s: Lsblk.Node, o: Lsblk.Node, x: Lsblk.Node, t: string) {
    && !SkipTopLevel(s) && !SkipTopLevel(o) && s.children == o.children == [x] && x.children == []
    && s.mountpoints == [Some("/")] && s.mountpoint == None
    && o.mountpoints == [] && o.mountpoint == None && o.kind == "disk" && o.fstype == ""
    && x.mountpoints == [Some(t)] && x.mountpoint == None && x.fstype in SUPPORTED && !o.readOnly && !x.readOnly
    && t != "" && !Reserved(t)
  }

  lemma {:induction false} PlainTree(s: Lsblk.Node, o: Lsblk.Node, x: Lsblk.Node, t: string)
    requires Pair(s, o, x, t)
    ensures Offers(o, x, {}, map[]) && OnlyPlace(o, x)
  {
    OneChild(o, x);
    OnlyMount(x, t);
    NoMount(o);
    ChildIsOnlyPlace(o, x);
    assert Lsblk.MountedAt(x, t);
    forall y | Inside(y, o) ensures !RunsSystem(y, {}) {
      if IsSystemMount(t) {
        SystemMountsAreReserved(t);
      }
    }
  }

  lemma {:induction false} SystemSide(s: Lsblk.Node, o: Lsblk.Node, x: Lsblk.Node, t: string)
    requires Pair(s, o, x, t)
    ensures SystemTree(s, {}) && Carries(s, x, x.name)
  {
    OneChild(s, x);
    OnlyMount(s, "/");
    OnlyMount(x, t);
    assert Lsblk.MountedAt(s, "/") && SYSTEM_MOUNTS[0] == "/";
    assert Inside(s, s) && RunsSystem(s, {});
  }

  lemma {:induction false} PairShares(s: Lsblk.Node, o: Lsblk.Node, x: Lsblk.Node, t: string, mounts: MountTable)
    requires Pair(s, o, x, t) && t in mounts && Clean(t) == t == Best(mounts, t)
    ensures Shared(s, o, x, mounts) && Lsblk.MountList(x) == [t]
  {
    PlainTree(s, o, x, t);
    SystemSide(s, o, x, t);
    OnlyMount(x, t);
  }

  lemma {:induction false} MntIsBest(mounts: MountTable)
    requires "/mnt" in mounts && Kernel(mounts)
    ensures Clean("/mnt") == "/mnt" && Best(mounts, "/mnt") == "/mnt"
  {
    assert "/mnt" == Absolute(["mnt"]);
    AbsoluteElements(["mnt"]);
    BestIsLongest(mounts, "/mnt");
    var r := Best(mounts, "/mnt");
    assert |r| >= 4;
    assert Holds(r, "/mnt");
  }

  lemma MntIsFree()
    ensures !Reserved("/mnt")
  {
    forall i | 0 <= i < |RESERVED| ensures !Under("/mnt", RESERVED[i]) {
      assert |RESERVED[i]| >= 4 && RESERVED[i] != "/mnt";
    }
    assert "/mnt"[0] == '/' && !HasPrefix("/mnt", "[") && "/mnt" != "/home" && "/mnt" != "/";
  }

  lemma ArrayPair()
    ensures Pair(FIRST, SECOND, ARRAY, "/mnt")
  {
    MntIsFree();
    assert SUPPORTED[0] == "ext4";
    assert "sda"[0] == "sdb"[0] == 's' && FIRST.kind == SECOND.kind == "disk" && "disk"[0] == 'd';
    assert !HasPrefix("sda", "ram") && !HasPrefix("sdb", "ram");
  }

  /** An array over the system drive and another one is accepted. */
  lemma {:induction false} ArrayIsAccepted(mounts: MountTable)
    requires "/mnt" in mounts && Kernel(mounts)
    ensures var inv := Built([FIRST, SECOND], None);
            Accepted(Some(inv), mounts, Request(ARRAY.name, "", false), WholeDrive(ARRAY, "/mnt"))
    ensures exists d :: SystemLists(Built([FIRST, SECOND], None).disks, d, ARRAY.name)
  {
    ArrayPair();
    MntIsBest(mounts);
    PairShares(FIRST, SECOND, ARRAY, "/mnt", mounts);
    SharedIsAccepted(FIRST, SECOND, ARRAY, mounts);
  }

  // ---- reserved locations ----

  const RESERVED_NAMES := [
    "boot", "efi", "usr", "etc", "var", "proc", "sys", "dev", "root", "tmp", "bin", "sbin", "lib", "lib64"]

  lemma ReservedAreAbsolute(i: nat)
    requires i < |RESERVED|
    ensures |RESERVED| == |RESERVED_NAMES| && PlainPart(RESERVED_NAMES[i])
    ensures RESERVED[i] == Absolute([RESERVED_NAMES[i]])
  {
  }

  lemma UnderIsBelow(parts: seq<string>, x: string)
    requires Plain(parts) && PlainPart(x)
    ensures Under(Absolute(parts), Absolute([x])) <==> parts != [] && parts[0] == x
  {
    HoldsIsAncestor([x], parts);
    AbsoluteEnd([x]);
    assert [x] <= parts <==> parts != [] && parts[0] == x;
  }

  /** On the kernel's paths, reserved are the root, /home itself, and whatever is
      at or below one of the fixed locations; no name that only begins like
      one. */
  lemma {:induction false} ReservedExactly(t: string)
    requires MountPoint(t)
    ensures Reserved(t) <==> Elements(t) == [] || Elements(t) == ["home"] || Elements(t)[0] in RESERVED_NAMES
  {
    var parts := MountPointParts(t);
    RootOrHome(t, parts);
    forall i | 0 <= i < |RESERVED| ensures Under(t, RESERVED[i]) <==> parts != [] && parts[0] == RESERVED_NAMES[i] {
      ReservedAreAbsolute(i);
      UnderIsBelow(parts, RESERVED_NAMES[i]);
    }
    ReservedAreAbsolute(0);
    if parts != [] && parts[0] in RESERVED_NAMES {
      var i :| 0 <= i < |RESERVED_NAMES| && RESERVED_NAMES[i] == parts[0];
      assert Under(t, RESERVED[i]);
    }
  }

  lemma RootOrHome(t: string, parts: seq<string>)
    requires Plain(parts) && t == Absolute(parts)
    ensures (t == "/" <==> parts == []) && (t == "/home" <==> parts == ["home"]) && !HasPrefix(t, "[")
  {
    assert Absolute([]) == "/" && Absolute(["home"]) == "/home" && t[0] == '/';
    if t == "/" {
      AbsoluteInjective(parts, []);
    }
    if t == "/home" {
      AbsoluteInjective(parts, ["home"]);
    }
  }

  // ---- the folder name and the gate ----

  /** Which folder names are taken: none, or one to four elements that are
      ordinary names. */
  lemma ValidFolderExactly(f: string)
    ensures ValidFolder(f) <==>
              f == "" || (|Split(f, '/')| <= 4 && forall i :: 0 <= i < |Split(f, '/')| ==> Ordinary(Split(f, '/')[i]))
  {
    if f != "" {
      var parts := Split(f, '/');
      SplitApart(f, '/');
      if '\\' in f {
        SplitBytes(f, '/', '\\');
      } else {
        forall i | 0 <= i < |parts| ensures '\\' !in parts[i] {
          if '\\' in parts[i] {
            SplitBytesBack(f, '/', '\\', i);
          }
        }
      }
    }
  }

  predicate Ordinary(p: string) {
    p != "" && p != "." && p != ".." && |p| <= 255
    && forall i :: 0 <= i < |p| ==> 0x20 <= p[i] as int && p[i] as int != 0x7f && p[i] != '\\'
  }

  lemma {:induction false} SplitBytesBack(s: string, sep: char, c: char, i: nat)
    requires i < |Split(s, sep)| && c in Split(s, sep)[i]
    ensures c in s
  {
    if s != [] {
      var r := Split(s[..|s| - 1], sep);
      if i < |r| && c in r[i] {
        SplitBytesBack(s[..|s| - 1], sep, c, i);
      }
    }
  }

  /** What each refusal at the gate means; the first cause counts. */
  lemma GateExactly(inv: Option<Inventory>, mounts: MountTable, req: Request)
    ensures var g := Gate(inv, mounts, req);
            && (g == Some(UnknownSystemDisk) <==> inv.None? || !inv.value.systemDetected)
            && (g == Some(UnsafePath) <==> inv.Some? && inv.value.systemDetected && !ValidFolder(req.folder))
            && (g == Some(NotFound) || g == Some(SystemDisk) || g == Some(NotAdoptable) || g == None <==>
                  inv.Some? && inv.value.systemDetected && ValidFolder(req.folder))
    ensures inv.Some? && inv.value.systemDetected && ValidFolder(req.folder) ==>
              var g, f := Gate(inv, mounts, req), LastNamed(inv.value.disks, req.volume);
              && (g == Some(NotFound) <==>
                    forall i, j :: 0 <= i < |inv.value.disks| && 0 <= j < |inv.value.disks[i].volumes| ==>
                      inv.value.disks[i].volumes[j].name != req.volume)
              && (f.Some? ==>
                    (g == Some(SystemDisk) <==>
                       f.value.0.system || f.value.0.isProtected || f.value.1.status == VolSystem))
              && (g == None ==> f.Some? && f.value.1.adoptable && f.value.1.mountpoints != []
                                && Clean(f.value.1.mountpoints[0]) in mounts)
  {
    if inv.Some? {
      LastNamedIsNamed(inv.value.disks, req.volume);
    }
  }
}
