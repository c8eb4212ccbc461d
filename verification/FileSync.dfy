/** Making the file service's users match Vault's accounts
    (internal/files/sync.go over internal/files/client.go). */
module FileSync {
  import opened Paths
  import opened Sets

  datatype Role = Admin | Family | Guest
  datatype Access = ReadWrite | ReadOnly
  datatype Grant = Grant(name: string, access: Access)
  datatype Account = Account(username: string, role: Role, disabled: bool, folders: seq<Grant>)

  datatype VirtualFolder = VirtualFolder(name: string, virtualPath: string)
  datatype FolderObject = FolderObject(name: string, mappedPath: string)
  datatype SftpUser = SftpUser(
    username: string, password: string, status: int, homeDir: string,
    permissions: map<string, seq<string>>, virtualFolders: seq<VirtualFolder>,
    webClient: seq<string>, deniedProtocols: seq<string>, info: string, description: string)

  const TAG := "managed by omarchy-vault"
  const READ_WRITE := ["list", "download", "upload", "overwrite", "delete", "rename", "create_dirs"]
  const READ_ONLY := ["list", "download"]
  const LIST_ONLY := ["list"]
  const WEB_LIMITS := [
    "password-change-disabled", "password-reset-disabled", "mfa-disabled", "api-key-auth-change-disabled",
    "info-change-disabled", "publickey-change-disabled", "tls-cert-change-disabled", "shares-disabled"]
  const DENIED := ["SSH", "FTP", "DAV"]

  /** The Vault's side: where files and homes are, the slug-and-hash name of a
      folder object and the derived password of an account. */
  datatype Vault = Vault(root: string, homes: string, objectName: string -> string,
                         password: string -> string, hasKey: bool)

  // ---- the desired user ----

  function Permission(g: Grant, role: Role): seq<string> {
    if g.access == ReadWrite && role != Guest then READ_WRITE else READ_ONLY
  }

  function Permissions(gs: seq<Grant>, role: Role): map<string, seq<string>> {
    if gs == [] then map["/" := LIST_ONLY]
    else Permissions(gs[..|gs| - 1], role)["/" + gs[|gs| - 1].name := Permission(gs[|gs| - 1], role)]
  }

  function Objects(gs: seq<Grant>, v: Vault): seq<FolderObject> {
    seq(|gs|, i requires 0 <= i < |gs| => FolderObject(v.objectName(gs[i].name), PathJoin(v.root, gs[i].name)))
  }

  function Virtual(gs: seq<Grant>, v: Vault): seq<VirtualFolder> {
    seq(|gs|, i requires 0 <= i < |gs| => VirtualFolder(v.objectName(gs[i].name), "/" + gs[i].name))
  }

  function Description(role: Role): string {
    "Omarchy Vault " + match role case Admin => "admin" case Family => "family" case Guest => "guest"
  }

  function Wanted(u: Account, v: Vault): SftpUser {
    var status := if u.disabled then 0 else 1;
    if u.role == Admin then
      SftpUser(u.username, v.password(u.username), status, v.root, map["/" := READ_WRITE], [],
               WEB_LIMITS, DENIED, TAG, Description(u.role))
    else
      SftpUser(u.username, v.password(u.username), status, PathJoin(v.homes, u.username),
               Permissions(u.folders, u.role), Virtual(u.folders, v),
               WEB_LIMITS + if u.role == Guest then ["write-disabled"] else [], DENIED, TAG, Description(u.role))
  }

  function WantedObjects(u: Account, v: Vault): seq<FolderObject> {
    if u.role == Admin then [] else Objects(u.folders, v)
  }

  /** One more grant. */
  lemma GrantStep(gs: seq<Grant>, i: nat, role: Role, v: Vault)
    requires i < |gs|
    ensures Permissions(gs[..i + 1], role) == Permissions(gs[..i], role)["/" + gs[i].name := Permission(gs[i], role)]
    ensures Objects(gs[..i + 1], v) == Objects(gs[..i], v) +
              [FolderObject(v.objectName(gs[i].name), PathJoin(v.root, gs[i].name))]
    ensures Virtual(gs[..i + 1], v) == Virtual(gs[..i], v) + [VirtualFolder(v.objectName(gs[i].name), "/" + gs[i].name)]
  {
    assert gs[..i + 1][..i] == gs[..i];
  }

  method Desired(u: Account, v: Vault) returns (su: SftpUser, folders: seq<FolderObject>)
    ensures su == Wanted(u, v) && folders == WantedObjects(u, v)
  {
    var status := if u.disabled then 0 else 1;
    if u.role == Admin {
      return SftpUser(u.username, v.password(u.username), status, v.root, map["/" := READ_WRITE], [],
                      WEB_LIMITS, DENIED, TAG, Description(u.role)), [];
    }
    var web := WEB_LIMITS;
    if u.role == Guest {
      web := web + ["write-disabled"];
    }
    var permissions, virtualFolders := map["/" := LIST_ONLY], [];
    folders := [];
    for i := 0 to |u.folders|
      invariant permissions == Permissions(u.folders[..i], u.role)
      invariant folders == Objects(u.folders[..i], v) && virtualFolders == Virtual(u.folders[..i], v)
    {
      var f := u.folders[i];
      GrantStep(u.folders, i, u.role, v);
      var obj := FolderObject(v.objectName(f.name), PathJoin(v.root, f.name));
      folders := folders + [obj];
      virtualFolders := virtualFolders + [VirtualFolder(obj.name, "/" + f.name)];
      var perm := READ_ONLY;
      if f.access == ReadWrite && u.role != Guest {
        perm := READ_WRITE;
      }
      permissions := permissions["/" + f.name := perm];
    }
    assert u.folders[..|u.folders|] == u.folders;
    su := SftpUser(u.username, v.password(u.username), status, PathJoin(v.homes, u.username),
                   permissions, virtualFolders, web, DENIED, TAG, Description(u.role));
  }

  /** What changes files or the tree. */
  predicate Writes(p: string) { p in {"upload", "overwrite", "delete", "rename", "create_dirs"} }

  lemma {:induction false} GuestPermissions(gs: seq<Grant>)
    ensures forall path, p :: path in Permissions(gs, Guest) && p in Permissions(gs, Guest)[path] ==> !Writes(p)
  {
    if gs != [] {
      GuestPermissions(gs[..|gs| - 1]);
    }
  }

  /** No guest holds a write permission anywhere, whatever was granted. */
  lemma GuestCannotWrite(u: Account, v: Vault)
    requires u.role == Guest
    ensures forall path, p :: path in Wanted(u, v).permissions && p in Wanted(u, v).permissions[path] ==> !Writes(p)
    ensures "write-disabled" in Wanted(u, v).webClient
  {
    GuestPermissions(u.folders);
  }

  /** Grant i decides about a path: it is for it, and no later one is. */
  predicate Decides(gs: seq<Grant>, i: int, path: string) {
    0 <= i < |gs| && "/" + gs[i].name == path && forall j :: i < j < |gs| ==> gs[j].name != gs[i].name
  }

  lemma SlashInjective(a: string, b: string)
    requires "/" + a == "/" + b
    ensures a == b
  {
    assert ("/" + a)[1..] == a && ("/" + b)[1..] == b;
  }

  lemma DecidesRest(gs: seq<Grant>, path: string)
    requires gs != [] && "/" + gs[|gs| - 1].name != path
    ensures forall i :: Decides(gs, i, path) <==> Decides(gs[..|gs| - 1], i, path)
  {
    forall i ensures Decides(gs, i, path) <==> Decides(gs[..|gs| - 1], i, path) {
      if 0 <= i < |gs| - 1 {
        assert gs[..|gs| - 1][i] == gs[i];
      }
    }
  }

  /** The permission of a path: of the grant that decides about it, or listing
      at the root. */
  lemma {:induction false} PermissionsExactly(gs: seq<Grant>, role: Role, path: string)
    ensures var ps := Permissions(gs, role);
            && (forall i :: Decides(gs, i, path) ==> path in ps && ps[path] == Permission(gs[i], role))
            && ((forall i :: !Decides(gs, i, path)) ==>
                  (path in ps <==> path == "/") && (path in ps ==> ps[path] == LIST_ONLY))
  {
    if gs != [] {
      var n := |gs| - 1;
      PermissionsExactly(gs[..n], role, path);
      if "/" + gs[n].name == path {
        assert Decides(gs, n, path);
        forall i | Decides(gs, i, path) ensures i == n {
          if i < n {
            SlashInjective(gs[i].name, gs[n].name);
          }
        }
      } else {
        DecidesRest(gs, path);
        if forall i :: !Decides(gs, i, path) {
          forall i ensures !Decides(gs[..n], i, path) {
            assert !Decides(gs, i, path);
          }
        }
        forall i | Decides(gs, i, path)
          ensures path in Permissions(gs, role) && Permissions(gs, role)[path] == Permission(gs[i], role)
        {
          assert Decides(gs[..n], i, path) && gs[..n][i] == gs[i];
        }
      }
    }
  }

  predicate Holds(u: SftpUser, path: string, p: string) { path in u.permissions && p in u.permissions[path] }

  lemma WritingPermission(g: Grant, role: Role)
    ensures (exists p :: p in Permission(g, role) && Writes(p)) <==> g.access == ReadWrite && role != Guest
  {
    assert READ_WRITE[2] == "upload" && Writes("upload");
  }

  /** On which paths a limited account can write: exactly those whose deciding
      grant is read-write and made to a family member. */
  lemma {:induction false} WriteExactly(u: Account, v: Vault, path: string)
    requires u.role != Admin
    ensures (exists p :: Holds(Wanted(u, v), path, p) && Writes(p)) <==>
              u.role == Family && exists i :: Decides(u.folders, i, path) && u.folders[i].access == ReadWrite
  {
    PermissionsExactly(u.folders, u.role, path);
    if i :| Decides(u.folders, i, path) {
      WritingPermission(u.folders[i], u.role);
      OnlyOneDecides(u.folders, i, path);
      assert forall p :: Holds(Wanted(u, v), path, p) <==> p in Permission(u.folders[i], u.role);
    }
  }

  lemma OnlyOneDecides(gs: seq<Grant>, i: int, path: string)
    requires Decides(gs, i, path)
    ensures forall j :: Decides(gs, j, path) ==> j == i
  {
    forall j | Decides(gs, j, path) ensures j == i {
      SlashInjective(gs[i].name, gs[j].name);
    }
  }

  // ---- the target of a sync ----

  /** The users wanted for a list of accounts; a later account of the same name
      wins. */
  function Overlay(list: seq<Account>, v: Vault): map<string, SftpUser> {
    if list == [] then map[]
    else Overlay(list[..|list| - 1], v)[list[|list| - 1].username := Wanted(list[|list| - 1], v)]
  }

  function Unmanaged(users: map<string, SftpUser>): map<string, SftpUser> {
    map n | n in users && users[n].info != TAG :: users[n]
  }

  /** Users Vault did not create, and one user per account. */
  function Target(users: map<string, SftpUser>, list: seq<Account>, v: Vault): map<string, SftpUser> {
    Unmanaged(users) + Overlay(list, v)
  }

  // ---- the listing a sync works from ----

  /** SFTPGo is asked for this many users; which ones it leaves out is its
      choice. */
  const LISTED := 500

  predicate Part(have: map<string, SftpUser>, users: map<string, SftpUser>) {
    forall n :: n in have ==> n in users && users[n] == have[n]
  }

  predicate Listing(have: map<string, SftpUser>, users: map<string, SftpUser>) {
    Part(have, users) && |have| == if |users| <= LISTED then |users| else LISTED
  }

  /** No account's name is taken: a user there is listed and Vault's own. */
  predicate Clear(list: seq<Account>, users: map<string, SftpUser>, have: map<string, SftpUser>) {
    forall i :: 0 <= i < |list| && list[i].username in users ==>
      list[i].username in have && have[list[i].username].info == TAG
  }

  /** The users without the listed ones that Vault manages. */
  function Rest(users: map<string, SftpUser>, have: map<string, SftpUser>): map<string, SftpUser> {
    map n | n in users && (n in have ==> have[n].info != TAG) :: users[n]
  }

  /** What a sync from a listing leads to. */
  function Synced(users: map<string, SftpUser>, have: map<string, SftpUser>, list: seq<Account>,
                  v: Vault): map<string, SftpUser> {
    Rest(users, have) + Overlay(list, v)
  }

  lemma KeysAreSize(users: map<string, SftpUser>)
    ensures |users.Keys| == |users|
  {
  }

  /** Up to LISTED users are all listed. */
  lemma ListsAll(have: map<string, SftpUser>, users: map<string, SftpUser>)
    requires Listing(have, users) && |users| <= LISTED
    ensures have == users
  {
    KeysAreSize(have);
    KeysAreSize(users);
    SameSize(have.Keys, users.Keys);
  }

  /** Where all users are listed a sync leads to the target, and is free of
      errors when no name is taken by a user Vault did not create. */
  lemma ListedWhole(users: map<string, SftpUser>, have: map<string, SftpUser>, list: seq<Account>, v: Vault)
    requires Listing(have, users) && |users| <= LISTED
    ensures Synced(users, have, list, v) == Target(users, list, v)
    ensures Clear(list, users, have) <==> NoneTaken(list, users)
  {
    ListsAll(have, users);
    assert Rest(users, users) == Unmanaged(users);
    if NoneTaken(list, users) {
      forall i | 0 <= i < |list| && list[i].username in users ensures users[list[i].username].info == TAG {
        assert list[i].username !in Unmanaged(users);
      }
    }
  }

  lemma ListsSome(users: map<string, SftpUser>) returns (have: map<string, SftpUser>)
    ensures Listing(have, users)
  {
    var keys := Subset(users.Keys, if |users| <= LISTED then |users| else LISTED);
    have := map n | n in keys :: users[n];
    assert have.Keys == keys;
  }

  /** A sync without errors reaches the target exactly when every user Vault
      manages was listed. */
  lemma {:induction false} SyncedExactly(users: map<string, SftpUser>, have: map<string, SftpUser>, list: seq<Account>,
                                         v: Vault)
    requires Part(have, users) && Clear(list, users, have)
    ensures Synced(users, have, list, v) == Target(users, list, v) <==>
              forall n :: n in users && users[n].info == TAG ==> n in have
  {
    forall n | n in Overlay(list, v) && n in users ensures n in have {
      OverlayNames(list, v, n);
    }
    var a, b := Rest(users, have), Unmanaged(users);
    if forall n :: n in users && users[n].info == TAG ==> n in have {
      assert a == b;
    } else {
      var n :| n in users && users[n].info == TAG && n !in have;
      assert n in a && n !in b && n !in Overlay(list, v);
    }
  }

  /** Of more than LISTED users without an account, some stay. */
  lemma {:induction false} LongListsFallShort(users: map<string, SftpUser>, have: map<string, SftpUser>, v: Vault)
    requires Listing(have, users) && |users| > LISTED && Unmanaged(users) == map[]
    ensures Synced(users, have, [], v) != Target(users, [], v)
  {
    KeysAreSize(have);
    KeysAreSize(users);
    if forall n :: n in users ==> n in have {
      SubsetCount(users.Keys, have.Keys);
    }
    var n :| n in users && n !in have;
    assert n !in Unmanaged(users);
    SyncedExactly(users, have, [], v);
  }

  /** Every granted folder object maps to its own Vault folder. */
  ghost predicate Mapped(folders: map<string, string>, list: seq<Account>, v: Vault) {
    forall i, k :: 0 <= i < |list| && list[i].role != Admin && 0 <= k < |list[i].folders| ==>
      MapsTo(folders, list[i].folders[k].name, v)
  }

  predicate MapsTo(folders: map<string, string>, name: string, v: Vault) {
    v.objectName(name) in folders && folders[v.objectName(name)] == PathJoin(v.root, name)
  }

  /** No object name stands for two different Vault folders. */
  ghost predicate ObjectsDiffer(list: seq<Account>, v: Vault) {
    forall i, k, j, l :: Grants(list, i, k) && Grants(list, j, l)
                         && v.objectName(list[i].folders[k].name) == v.objectName(list[j].folders[l].name) ==>
      PathJoin(v.root, list[i].folders[k].name) == PathJoin(v.root, list[j].folders[l].name)
  }

  predicate Grants(list: seq<Account>, i: int, k: int) {
    0 <= i < |list| && list[i].role != Admin && 0 <= k < |list[i].folders|
  }

  ghost predicate DifferentNames(list: seq<Account>) {
    forall i, j :: 0 <= i < j < |list| ==> list[i].username != list[j].username
  }

  lemma {:induction false} OverlayNames(list: seq<Account>, v: Vault, name: string)
    ensures name in Overlay(list, v) <==> exists i :: 0 <= i < |list| && list[i].username == name
    ensures name in Overlay(list, v) ==> Overlay(list, v)[name].info == TAG && Overlay(list, v)[name].username == name
  {
    if list != [] {
      var rest := list[..|list| - 1];
      OverlayNames(rest, v, name);
      if i :| 0 <= i < |list| && list[i].username == name {
        assert i == |list| - 1 || rest[i].username == name;
      }
    }
  }

  lemma {:induction false} OverlayExactly(list: seq<Account>, v: Vault, i: nat)
    requires i < |list| && DifferentNames(list)
    ensures list[i].username in Overlay(list, v) && Overlay(list, v)[list[i].username] == Wanted(list[i], v)
  {
    if i < |list| - 1 {
      OverlayExactly(list[..|list| - 1], v, i);
    }
  }

  /** The Vault-managed users of the target are exactly Vault's accounts, each
      equal to Desired; every other user is unchanged. */
  lemma {:induction false} TargetIsExact(users: map<string, SftpUser>, list: seq<Account>, v: Vault)
    requires DifferentNames(list) && NoneTaken(list, users)
    ensures var t := Target(users, list, v);
            && (forall n :: n in t && t[n].info == TAG <==> exists i :: 0 <= i < |list| && list[i].username == n)
            && (forall i :: 0 <= i < |list| ==> list[i].username in t && t[list[i].username] == Wanted(list[i], v))
            && Unmanaged(t) == Unmanaged(users)
  {
    forall n
      ensures n in Overlay(list, v) <==> exists i :: 0 <= i < |list| && list[i].username == n
      ensures n in Overlay(list, v) ==> Overlay(list, v)[n].info == TAG
    {
      OverlayNames(list, v, n);
    }
    forall i | 0 <= i < |list|
      ensures list[i].username in Overlay(list, v) && Overlay(list, v)[list[i].username] == Wanted(list[i], v)
    {
      OverlayExactly(list, v, i);
    }
  }

  /** A second sync has the same target, whatever names are taken. */
  lemma {:induction false} TargetIsStable(users: map<string, SftpUser>, list: seq<Account>, v: Vault)
    ensures Target(Target(users, list, v), list, v) == Target(users, list, v)
  {
    forall n | n in Overlay(list, v) ensures Overlay(list, v)[n].info == TAG {
      OverlayNames(list, v, n);
    }
  }

  /** A sync takes no account's name. */
  lemma {:induction false} TargetTakesNone(users: map<string, SftpUser>, list: seq<Account>, v: Vault)
    requires NoneTaken(list, users)
    ensures NoneTaken(list, Target(users, list, v))
  {
    forall n | n in Overlay(list, v) ensures Overlay(list, v)[n].info == TAG {
      OverlayNames(list, v, n);
    }
  }

  // ---- folder objects ----

  function PutObjects(folders: map<string, string>, objs: seq<FolderObject>): map<string, string> {
    if objs == [] then folders
    else PutObjects(folders, objs[..|objs| - 1])[objs[|objs| - 1].name := objs[|objs| - 1].mappedPath]
  }

  function FoldersAfter(folders: map<string, string>, list: seq<Account>, v: Vault): map<string, string> {
    if list == [] then folders
    else PutObjects(FoldersAfter(folders, list[..|list| - 1], v), WantedObjects(list[|list| - 1], v))
  }

  /** Grant k of an account is stored under this object name. */
  predicate StoredAs(u: Account, k: int, v: Vault, obj: string) {
    u.role != Admin && 0 <= k < |u.folders| && v.objectName(u.folders[k].name) == obj
  }

  ghost predicate GrantedBy(u: Account, v: Vault, obj: string) { exists k :: StoredAs(u, k, v, obj) }
  ghost predicate Granted(list: seq<Account>, v: Vault, obj: string) {
    exists i :: 0 <= i < |list| && GrantedBy(list[i], v, obj)
  }

  /** All grants of an account under this object name mean the same folder. */
  ghost predicate OnePath(u: Account, v: Vault, obj: string, path: string) {
    forall k :: StoredAs(u, k, v, obj) ==> PathJoin(v.root, u.folders[k].name) == path
  }

  lemma {:induction false} PutObjectsAt(folders: map<string, string>, objs: seq<FolderObject>, obj: string,
                                        path: string)
    requires forall k :: 0 <= k < |objs| && objs[k].name == obj ==> objs[k].mappedPath == path
    ensures var r := PutObjects(folders, objs);
            if exists k :: 0 <= k < |objs| && objs[k].name == obj then obj in r && r[obj] == path
            else (obj in r <==> obj in folders) && (obj in r ==> r[obj] == folders[obj])
  {
    if objs != [] {
      var rest := objs[..|objs| - 1];
      PutObjectsAt(folders, rest, obj, path);
      if k :| 0 <= k < |objs| && objs[k].name == obj {
        assert k == |objs| - 1 || rest[k].name == obj;
      }
    }
  }

  lemma AccountObjectsAt(folders: map<string, string>, u: Account, v: Vault, obj: string, path: string)
    requires OnePath(u, v, obj, path)
    ensures var r := PutObjects(folders, WantedObjects(u, v));
            if GrantedBy(u, v, obj) then obj in r && r[obj] == path
            else (obj in r <==> obj in folders) && (obj in r ==> r[obj] == folders[obj])
  {
    var objs := WantedObjects(u, v);
    forall k | 0 <= k < |objs| && objs[k].name == obj ensures StoredAs(u, k, v, obj) && objs[k].mappedPath == path {
      assert StoredAs(u, k, v, obj);
    }
    PutObjectsAt(folders, objs, obj, path);
    if GrantedBy(u, v, obj) {
      var k :| StoredAs(u, k, v, obj);
      assert objs[k].name == obj;
    }
  }

  lemma {:induction false} FoldersAfterAt(folders: map<string, string>, list: seq<Account>, v: Vault, obj: string,
                                          path: string)
    requires forall i :: 0 <= i < |list| ==> OnePath(list[i], v, obj, path)
    ensures var r := FoldersAfter(folders, list, v);
            if Granted(list, v, obj) then obj in r && r[obj] == path
            else (obj in r <==> obj in folders) && (obj in r ==> r[obj] == folders[obj])
  {
    if list != [] {
      var rest, n := list[..|list| - 1], |list| - 1;
      FoldersAfterAt(folders, rest, v, obj, path);
      AccountObjectsAt(FoldersAfter(folders, rest, v), list[n], v, obj, path);
      assert Granted(list, v, obj) <==> Granted(rest, v, obj) || GrantedBy(list[n], v, obj) by {
        GrantedSplit(list, v, obj);
      }
    }
  }

  lemma GrantedSplit(list: seq<Account>, v: Vault, obj: string)
    requires list != []
    ensures Granted(list, v, obj) <==> Granted(list[..|list| - 1], v, obj) || GrantedBy(list[|list| - 1], v, obj)
  {
    var rest := list[..|list| - 1];
    if i :| 0 <= i < |list| && GrantedBy(list[i], v, obj) {
      assert i == |list| - 1 || GrantedBy(rest[i], v, obj);
    }
    if i :| 0 <= i < |rest| && GrantedBy(rest[i], v, obj) {
      assert GrantedBy(list[i], v, obj);
    }
  }

  /** The path of one grant is the path of all under its object name. */
  lemma GrantHasOnePath(list: seq<Account>, v: Vault, i: nat, k: nat, j: nat)
    requires ObjectsDiffer(list, v) && Grants(list, i, k) && j < |list|
    ensures var name := list[i].folders[k].name; OnePath(list[j], v, v.objectName(name), PathJoin(v.root, name))
  {
    var name := list[i].folders[k].name;
    forall l | StoredAs(list[j], l, v, v.objectName(name))
      ensures PathJoin(v.root, list[j].folders[l].name) == PathJoin(v.root, name)
    {
      assert Grants(list, j, l);
    }
  }

  lemma GrantedAt(folders: map<string, string>, list: seq<Account>, v: Vault, i: nat, k: nat)
    requires ObjectsDiffer(list, v) && Grants(list, i, k)
    ensures MapsTo(FoldersAfter(folders, list, v), list[i].folders[k].name, v)
  {
    var name := list[i].folders[k].name;
    forall j | 0 <= j < |list| ensures OnePath(list[j], v, v.objectName(name), PathJoin(v.root, name)) {
      GrantHasOnePath(list, v, i, k, j);
    }
    assert StoredAs(list[i], k, v, v.objectName(name));
    assert GrantedBy(list[i], v, v.objectName(name));
    FoldersAfterAt(folders, list, v, v.objectName(name), PathJoin(v.root, name));
  }

  /** A folder object that is not granted is not touched. */
  lemma NotGrantedAt(folders: map<string, string>, list: seq<Account>, v: Vault, obj: string)
    requires !Granted(list, v, obj)
    ensures var r := FoldersAfter(folders, list, v);
            (obj in r <==> obj in folders) && (obj in r ==> r[obj] == folders[obj])
  {
    forall j | 0 <= j < |list| ensures OnePath(list[j], v, obj, "") {
      assert !GrantedBy(list[j], v, obj);
    }
    FoldersAfterAt(folders, list, v, obj, "");
  }

  /** Every granted folder object maps to its own Vault folder exactly when no
      object name stands for two different ones. */
  lemma {:induction false} FoldersAreMapped(folders: map<string, string>, list: seq<Account>, v: Vault)
    ensures Mapped(FoldersAfter(folders, list, v), list, v) <==> ObjectsDiffer(list, v)
  {
    var after := FoldersAfter(folders, list, v);
    if ObjectsDiffer(list, v) {
      forall i, k | 0 <= i < |list| && list[i].role != Admin && 0 <= k < |list[i].folders|
        ensures MapsTo(after, list[i].folders[k].name, v)
      {
        GrantedAt(folders, list, v, i, k);
      }
    }
    if Mapped(after, list, v) {
      MappedOnce(after, list, v);
    }
  }

  lemma MappedOnce(folders: map<string, string>, list: seq<Account>, v: Vault)
    requires Mapped(folders, list, v)
    ensures ObjectsDiffer(list, v)
  {
    forall i, k, j, l | Grants(list, i, k) && Grants(list, j, l)
                        && v.objectName(list[i].folders[k].name) == v.objectName(list[j].folders[l].name)
      ensures PathJoin(v.root, list[i].folders[k].name) == PathJoin(v.root, list[j].folders[l].name)
    {
      assert MapsTo(folders, list[i].folders[k].name, v);
      assert MapsTo(folders, list[j].folders[l].name, v);
    }
  }

  lemma {:induction false} CollisionsClash(folders: map<string, string>, list: seq<Account>, v: Vault, i: nat, k: nat,
                                           l: nat)
    requires Grants(list, i, k) && Grants(list, i, l)
    requires v.objectName(list[i].folders[k].name) == v.objectName(list[i].folders[l].name)
    requires PathJoin(v.root, list[i].folders[k].name) != PathJoin(v.root, list[i].folders[l].name)
    ensures !Mapped(FoldersAfter(folders, list, v), list, v)
  {
    FoldersAreMapped(folders, list, v);
  }

  const ONE_NAME := Vault("/" + "v", "/h", name => "x", name => "", true)
  const BOTH := Account("u", Family, false, [Grant("a", ReadOnly), Grant("b", ReadOnly)])

  /** With one object name for "a" and "b", an account granted both does not
      have both mapped. */
  lemma {:induction false} CollisionIsNotMapped(folders: map<string, string>)
    ensures !Mapped(FoldersAfter(folders, [BOTH], ONE_NAME), [BOTH], ONE_NAME)
  {
    JoinBelow("v", "a");
    JoinBelow("v", "b");
    assert ("/" + "v" + "/" + "a")[3] == 'a' && ("/" + "v" + "/" + "b")[3] == 'b';
    CollisionsClash(folders, [BOTH], ONE_NAME, 0, 0, 1);
  }

  lemma {:induction false} PutObjectsMerges(folders: map<string, string>, objs: seq<FolderObject>)
    ensures PutObjects(folders, objs) == folders + PutObjects(map[], objs)
  {
    if objs != [] {
      PutObjectsMerges(folders, objs[..|objs| - 1]);
    }
  }

  lemma {:induction false} FoldersAfterMerges(folders: map<string, string>, list: seq<Account>, v: Vault)
    ensures FoldersAfter(folders, list, v) == folders + FoldersAfter(map[], list, v)
  {
    if list != [] {
      var rest, objs := list[..|list| - 1], WantedObjects(list[|list| - 1], v);
      FoldersAfterMerges(folders, rest, v);
      PutObjectsMerges(FoldersAfter(folders, rest, v), objs);
      PutObjectsMerges(FoldersAfter(map[], rest, v), objs);
      MergeFolders(folders, FoldersAfter(map[], rest, v), PutObjects(map[], objs));
    }
  }

  lemma MergeFolders(a: map<string, string>, b: map<string, string>, c: map<string, string>)
    ensures a + b + c == a + (b + c)
  {
  }

  /** A second sync changes no folder object, even when object names collide. */
  lemma {:induction false} FoldersAreStable(folders: map<string, string>, list: seq<Account>, v: Vault)
    ensures FoldersAfter(FoldersAfter(folders, list, v), list, v) == FoldersAfter(folders, list, v)
  {
    FoldersAfterMerges(folders, list, v);
    FoldersAfterMerges(FoldersAfter(folders, list, v), list, v);
  }

  // ---- what each account gets ----

  /** The user stands for the account: its own password, active exactly if the
      account is, and limited to the web client. */
  ghost predicate StandsFor(su: SftpUser, u: Account, v: Vault) {
    && su.username == u.username && su.password == v.password(u.username)
    && (su.status == 1 <==> !u.disabled) && (su.status == 0 <==> u.disabled)
    && (forall p :: p in su.deniedProtocols <==> p in ["SSH", "FTP", "DAV"])
    && (forall w :: w in su.webClient <==> w in WEB_LIMITS || (w == "write-disabled" && u.role == Guest))
    && su.info == "managed by omarchy-vault"
  }

  /** An admin has the whole Vault. */
  ghost predicate HasVault(su: SftpUser, v: Vault) {
    su.homeDir == v.root && su.virtualFolders == [] && su.permissions == map["/" := READ_WRITE]
  }

  /** Anyone else has a home where nothing but listing is allowed, and below it
      one folder per grant, at its name, that leads to its Vault folder. */
  ghost predicate HasGrants(su: SftpUser, u: Account, v: Vault, folders: map<string, string>) {
    && su.homeDir == PathJoin(v.homes, u.username)
    && |su.virtualFolders| == |u.folders|
    && (forall k :: 0 <= k < |u.folders| ==> Leads(su.virtualFolders[k], u.folders[k].name, v, folders))
    && (forall path :: path in su.permissions <==> path == "/" || exists k :: Decides(u.folders, k, path))
    && (forall path, k :: Decides(u.folders, k, path) ==>
          su.permissions[path] ==
            if u.folders[k].access == ReadWrite && u.role == Family then READ_WRITE else READ_ONLY)
    && ((forall k :: !Decides(u.folders, k, "/")) ==> su.permissions["/"] == LIST_ONLY)
  }

  predicate Leads(f: VirtualFolder, name: string, v: Vault, folders: map<string, string>) {
    f.virtualPath == "/" + name && f.name in folders && folders[f.name] == PathJoin(v.root, name)
  }

  lemma {:induction false} WantedStands(u: Account, v: Vault)
    ensures StandsFor(Wanted(u, v), u, v)
    ensures u.role == Admin ==> HasVault(Wanted(u, v), v)
  {
  }

  lemma {:induction false} WantedPermissions(u: Account, v: Vault, path: string)
    requires u.role != Admin
    ensures var ps := Wanted(u, v).permissions;
            && (path in ps <==> path == "/" || exists k :: Decides(u.folders, k, path))
            && (forall k :: Decides(u.folders, k, path) ==>
                  ps[path] == if u.folders[k].access == ReadWrite && u.role == Family then READ_WRITE else READ_ONLY)
            && (path == "/" && (forall k :: !Decides(u.folders, k, path)) ==> ps[path] == LIST_ONLY)
  {
    PermissionsExactly(u.folders, u.role, path);
    if path == "/" && exists k :: Decides(u.folders, k, path) {
      var k :| Decides(u.folders, k, path);
      assert path in Permissions(u.folders, u.role);
    }
  }

  lemma {:induction false} WantedGrants(u: Account, v: Vault, folders: map<string, string>)
    requires u.role != Admin && forall k :: 0 <= k < |u.folders| ==> MapsTo(folders, u.folders[k].name, v)
    ensures HasGrants(Wanted(u, v), u, v, folders)
  {
    forall path
      ensures path in Wanted(u, v).permissions <==> path == "/" || exists k :: Decides(u.folders, k, path)
      ensures forall k :: Decides(u.folders, k, path) ==>
                Wanted(u, v).permissions[path] ==
                  if u.folders[k].access == ReadWrite && u.role == Family then READ_WRITE else READ_ONLY
    {
      WantedPermissions(u, v, path);
    }
    WantedPermissions(u, v, "/");
    forall k | 0 <= k < |u.folders| ensures Leads(Wanted(u, v).virtualFolders[k], u.folders[k].name, v, folders) {
      assert MapsTo(folders, u.folders[k].name, v);
    }
  }

  /** After a sync without errors every account has its user: what it may do and
      where its folders lead, as far as no object name stands for two. */
  lemma {:induction false} AccountsAfterSync(users: map<string, SftpUser>, have: map<string, SftpUser>,
                                             mapped: map<string, string>, list: seq<Account>, v: Vault, i: nat)
    requires DifferentNames(list) && ObjectsDiffer(list, v) && i < |list|
    ensures var u, t := list[i], Synced(users, have, list, v);
            && u.username in t && StandsFor(t[u.username], u, v)
            && if u.role == Admin then HasVault(t[u.username], v)
               else HasGrants(t[u.username], u, v, FoldersAfter(mapped, list, v))
  {
    var u := list[i];
    OverlayExactly(list, v, i);
    WantedStands(u, v);
    if u.role != Admin {
      forall k | 0 <= k < |u.folders| ensures MapsTo(FoldersAfter(mapped, list, v), u.folders[k].name, v) {
        GrantedAt(mapped, list, v, i, k);
      }
      WantedGrants(u, v, FoldersAfter(mapped, list, v));
    }
  }

  // ---- the service and the reconciliation ----

  /** SFTPGo's tables behind its API. A failed call may or may not have taken
      effect; a reliable service fails only for a user that exists already, or
      does not. */
  class Service {
    var users: map<string, SftpUser>
    var folders: map<string, string>
    const reliable: bool

    constructor (users: map<string, SftpUser>, folders: map<string, string>, reliable: bool)
      ensures this.users == users && this.folders == folders && this.reliable == reliable
    {
      this.users, this.folders, this.reliable := users, folders, reliable;
    }

    method ListUsers() returns (err: bool, have: map<string, SftpUser>)
      ensures !err ==> Listing(have, users)
      ensures reliable ==> !err
    {
      err := *;
      err := err && !reliable;
      ghost var some := ListsSome(users);
      have :| Listing(have, users);
    }

    /** Update a user that exists, create one that does not. */
    method PutUser(u: SftpUser, there: bool) returns (err: bool)
      modifies this`users
      ensures users == old(users) || users == old(users)[u.username := u]
      ensures !err ==> users == old(users)[u.username := u]
      ensures (there <==> u.username !in old(users)) ==> err && users == old(users)
      ensures reliable && (there <==> u.username in old(users)) ==> !err
    {
      err := *;
      if there != (u.username in users) {
        return true;
      }
      var applied := *;
      err := err && !reliable;
      if applied || !err {
        users := users[u.username := u];
      }
    }

    /** A user that is not there counts as deleted. */
    method DeleteUser(name: string) returns (err: bool)
      modifies this`users
      ensures users == old(users) || users == old(users) - {name}
      ensures !err ==> users == old(users) - {name}
      ensures reliable ==> !err
    {
      err := *;
      var applied := *;
      err := err && !reliable;
      if applied || !err {
        users := users - {name};
      }
    }

    method EnsureFolder(f: FolderObject) returns (err: bool)
      modifies this`folders
      ensures folders == old(folders) || folders == old(folders)[f.name := f.mappedPath]
      ensures !err ==> folders == old(folders)[f.name := f.mappedPath]
      ensures reliable ==> !err
    {
      err := *;
      var applied := *;
      err := err && !reliable;
      if (applied || !err) && (f.name !in folders || folders[f.name] != f.mappedPath) {
        folders := folders[f.name := f.mappedPath];
      }
    }

    method EnsureFolders(objs: seq<FolderObject>) returns (errs: nat)
      modifies this`folders
      ensures errs == 0 ==> folders == PutObjects(old(folders), objs)
      ensures reliable ==> errs == 0
    {
      errs := 0;
      for i := 0 to |objs|
        invariant errs == 0 ==> folders == PutObjects(old(folders), objs[..i])
        invariant reliable ==> errs == 0
      {
        assert objs[..i + 1][..i] == objs[..i];
        var err := EnsureFolder(objs[i]);
        if err {
          errs := errs + 1;
        }
      }
      assert objs[..|objs|] == objs;
    }

    method MakeHome() returns (err: bool)
      ensures reliable ==> !err
    {
      err := *;
      err := err && !reliable;
    }

    /** One account of Sync's first loop. */
    method SyncAccount(u: Account, v: Vault, have: map<string, SftpUser>) returns (err: bool)
      modifies this
      ensures users == old(users) || users == old(users)[u.username := Wanted(u, v)]
      ensures u.username in Unmanaged(have) || (u.username in have <==> u.username !in old(users)) ==>
                err && users == old(users)
      ensures !err ==> users == old(users)[u.username := Wanted(u, v)]
                       && folders == PutObjects(old(folders), WantedObjects(u, v))
      ensures reliable && u.username !in Unmanaged(have) && (u.username in have <==> u.username in old(users)) ==> !err
    {
      var su, objs := Desired(u, v);
      if u.role != Admin {
        var failed := MakeHome();
        if failed {
          return true;
        }
      }
      var errs := EnsureFolders(objs);
      var there := u.username in have;
      if there && have[u.username].info != TAG {
        return true;
      }
      var put := PutUser(su, there);
      return errs > 0 || put;
    }

    /** Sync's second loop: managed users without an account go. */
    method DeleteOthers(have: map<string, SftpUser>, want: set<string>) returns (errs: nat)
      modifies this`users
      ensures errs == 0 ==> users == Without(old(users), have, want, {})
      ensures forall base :: Part(have, base) && Kept(base, old(users)) ==> Kept(base, users)
      ensures reliable ==> errs == 0
    {
      errs := 0;
      var todo := have.Keys;
      ghost var start := users;
      while todo != {}
        invariant todo <= have.Keys
        invariant errs == 0 ==> users == Without(start, have, want, todo)
        invariant forall base :: Part(have, base) && Kept(base, start) ==> Kept(base, users)
        invariant reliable ==> errs == 0
        decreases |todo|
      {
        var name :| name in todo;
        ghost var all := todo;
        todo := todo - {name};
        assert todo + {name} == all;
        WithoutStep(start, have, want, todo, name);
        if name !in want && have[name].info == TAG {
          var err := DeleteUser(name);
          if err {
            errs := errs + 1;
          }
        }
      }
    }

    /** Sync. Unmanaged users survive whatever fails. Without an error the
        tables are what the listing leads to, which is the target if all users
        were listed. A reliable service gives no error unless an account's name
        is taken, by a user Vault did not create or by one not listed. */
    method Sync(list: seq<Account>, v: Vault) returns (errs: nat, ghost have: map<string, SftpUser>)
      modifies this
      ensures Kept(old(users), users)
      ensures errs == 0 ==> Listing(have, old(users)) && Clear(list, old(users), have)
      ensures errs == 0 ==> users == Synced(old(users), have, list, v) && folders == FoldersAfter(old(folders), list, v)
      ensures reliable && v.hasKey && DifferentNames(list) ==>
                Listing(have, old(users)) && (errs == 0 <==> Clear(list, old(users), have))
    {
      var failed, listed := ListUsers();
      if failed {
        return 1, map[];
      }
      have := listed;
      var want;
      errs, want := SyncAccounts(list, v, listed);
      if !v.hasKey && list != [] {
        return errs, have;
      }
      var more := DeleteOthers(listed, want);
      TargetReached(old(users), have, list, v, want);
      errs := errs + more;
    }

    /** Two syncs in a row. If neither fails and all users were listed, the
        second changes nothing; on a reliable service it does not fail if the
        first did not and the target can be listed. */
    method SyncTwice(list: seq<Account>, v: Vault) returns (first: nat, second: nat)
      modifies this
      ensures first == 0 && second == 0 ==> folders == FoldersAfter(old(folders), list, v)
      ensures first == 0 && second == 0 && |old(users)| <= LISTED ==> users == Target(old(users), list, v)
      ensures first == 0 && reliable && v.hasKey && DifferentNames(list)
              && |old(users)| <= LISTED && |Target(old(users), list, v)| <= LISTED
              ==> second == 0
    {
      ghost var have1, have2;
      first, have1 := Sync(list, v);
      ghost var users1, folders1 := users, folders;
      second, have2 := Sync(list, v);
      if first == 0 && |old(users)| <= LISTED {
        ListedWhole(old(users), have1, list, v);
        TargetTakesNone(old(users), list, v);
        if |users1| <= LISTED && reliable && v.hasKey && DifferentNames(list) {
          ListedWhole(users1, have2, list, v);
        }
        if second == 0 {
          SyncedAgain(old(users), have2, list, v);
        }
      }
      FoldersAreStable(old(folders), list, v);
    }

    /** Sync's first loop; without the key it gives up at the first account. */
    method SyncAccounts(list: seq<Account>, v: Vault, have: map<string, SftpUser>)
      returns (errs: nat, want: set<string>)
      requires Part(have, users)
      modifies this
      ensures Kept(old(users), users)
      ensures errs == 0 ==> Reached(old(users), have, users, old(folders), folders, list, v)
      ensures !v.hasKey && list != [] ==> errs > 0
      ensures v.hasKey || list == [] ==> want == set j | 0 <= j < |list| :: list[j].username
      ensures reliable && v.hasKey && DifferentNames(list) && Clear(list, old(users), have) ==> errs == 0
    {
      errs, want := 0, {};
      for i := 0 to |list|
        invariant i > 0 ==> v.hasKey
        invariant want == set j | 0 <= j < i :: list[j].username
        invariant Kept(old(users), users)
        invariant errs == 0 ==> Reached(old(users), have, users, old(folders), folders, list[..i], v)
        invariant reliable && v.hasKey && DifferentNames(list) && Clear(list, old(users), have) ==> errs == 0
      {
        var u := list[i];
        want := want + {u.username};
        if !v.hasKey {
          return errs + 1, want;
        }
        ghost var before, folded := users, folders;
        var err := SyncAccount(u, v, have);
        KeptStep(old(users), before, users, u, v);
        if err {
          errs := errs + 1;
        }
        if errs == 0 {
          ReachedStep(old(users), have, before, old(folders), folded, list, i, v);
        } else if DifferentNames(list) && errs == 1 {
          NameNotYet(old(users), have, before, old(folders), folded, list, i, v);
        }
      }
      assert list[..|list|] == list;
    }
  }

  /** A managed user that has no account. */
  predicate Stray(have: map<string, SftpUser>, want: set<string>, name: string) {
    name in have && name !in want && have[name].info == TAG
  }

  /** The users without the strays that are not still to do. */
  function Without(users: map<string, SftpUser>, have: map<string, SftpUser>, want: set<string>,
                   todo: set<string>): map<string, SftpUser> {
    map n | n in users && (n in todo || !Stray(have, want, n)) :: users[n]
  }

  lemma WithoutStep(users: map<string, SftpUser>, have: map<string, SftpUser>, want: set<string>, todo: set<string>,
                    name: string)
    ensures var all := Without(users, have, want, todo + {name});
            Without(users, have, want, todo) == if Stray(have, want, name) && name !in todo then all - {name} else all
  {
  }

  /** Users Vault did not create are as they were. */
  ghost predicate Kept(have: map<string, SftpUser>, users: map<string, SftpUser>) {
    forall n :: n in Unmanaged(have) ==> n in users && users[n] == have[n]
  }

  lemma KeptStep(have: map<string, SftpUser>, before: map<string, SftpUser>, users: map<string, SftpUser>, u: Account,
                 v: Vault)
    requires Kept(have, before) && (users == before || users == before[u.username := Wanted(u, v)])
    requires u.username in Unmanaged(have) ==> users == before
    ensures Kept(have, users)
  {
  }

  /** Every account of a list has its user and its folder objects, and none
      took a name Vault does not own. */
  ghost predicate Reached(base: map<string, SftpUser>, have: map<string, SftpUser>, users: map<string, SftpUser>,
                          mapped: map<string, string>, folders: map<string, string>, list: seq<Account>, v: Vault) {
    users == base + Overlay(list, v) && folders == FoldersAfter(mapped, list, v) && Clear(list, base, have)
  }

  lemma ReachedStep(base: map<string, SftpUser>, have: map<string, SftpUser>, users: map<string, SftpUser>,
                    mapped: map<string, string>, folders: map<string, string>, list: seq<Account>, i: nat, v: Vault)
    requires i < |list| && Reached(base, have, users, mapped, folders, list[..i], v)
    requires list[i].username in users ==> list[i].username in have && have[list[i].username].info == TAG
    ensures Reached(base, have, users[list[i].username := Wanted(list[i], v)], mapped,
                    PutObjects(folders, WantedObjects(list[i], v)), list[..i + 1], v)
  {
    OverlayStep(list, i, v);
    MergeStep(base, Overlay(list[..i], v), list[i].username, Wanted(list[i], v));
    FoldersStep(mapped, list, i, v);
    ClearStep(list, i, base, have);
  }

  lemma MergeStep(a: map<string, SftpUser>, b: map<string, SftpUser>, name: string, u: SftpUser)
    ensures (a + b)[name := u] == a + b[name := u]
  {
  }

  lemma ClearStep(list: seq<Account>, i: nat, base: map<string, SftpUser>, have: map<string, SftpUser>)
    requires i < |list| && Clear(list[..i], base, have)
    requires list[i].username in base ==> list[i].username in have && have[list[i].username].info == TAG
    ensures Clear(list[..i + 1], base, have)
  {
    assert list[..i + 1] == list[..i] + [list[i]];
  }

  lemma OverlayStep(list: seq<Account>, i: nat, v: Vault)
    requires i < |list|
    ensures Overlay(list[..i + 1], v) == Overlay(list[..i], v)[list[i].username := Wanted(list[i], v)]
  {
    assert list[..i + 1][..i] == list[..i];
  }

  lemma FoldersStep(mapped: map<string, string>, list: seq<Account>, i: nat, v: Vault)
    requires i < |list|
    ensures FoldersAfter(mapped, list[..i + 1], v) ==
              PutObjects(FoldersAfter(mapped, list[..i], v), WantedObjects(list[i], v))
  {
    assert list[..i + 1][..i] == list[..i];
  }

  /** Before its turn, an account's name is in the table only if it was
      there at the start. */
  lemma NameNotYet(base: map<string, SftpUser>, have: map<string, SftpUser>, users: map<string, SftpUser>,
                   mapped: map<string, string>, folders: map<string, string>, list: seq<Account>, i: nat, v: Vault)
    requires i < |list| && DifferentNames(list)
    ensures Reached(base, have, users, mapped, folders, list[..i], v) ==>
              (list[i].username in base <==> list[i].username in users)
  {
    OverlayNames(list[..i], v, list[i].username);
  }

  /** No account's name belongs to a user Vault did not create. */
  predicate NoneTaken(list: seq<Account>, users: map<string, SftpUser>) {
    forall i :: 0 <= i < |list| ==> list[i].username !in Unmanaged(users)
  }

  lemma TargetReached(base: map<string, SftpUser>, have: map<string, SftpUser>, list: seq<Account>, v: Vault,
                      want: set<string>)
    requires want == set j | 0 <= j < |list| :: list[j].username
    ensures Without(base + Overlay(list, v), have, want, {}) == Synced(base, have, list, v)
  {
    forall n ensures n in Overlay(list, v) <==> n in want {
      OverlayNames(list, v, n);
    }
    WithoutOver(base, have, Overlay(list, v), want);
  }

  lemma WithoutOver(base: map<string, SftpUser>, have: map<string, SftpUser>, over: map<string, SftpUser>,
                    want: set<string>)
    requires forall n :: n in over <==> n in want
    ensures Without(base + over, have, want, {}) == Rest(base, have) + over
  {
    var a, b := Without(base + over, have, want, {}), Rest(base, have) + over;
    forall n ensures n in a <==> n in b {
    }
    forall n | n in a ensures a[n] == b[n] {
    }
  }

  /** From the target, any part of it as listing leads to the target. */
  lemma SyncedAgain(users: map<string, SftpUser>, have: map<string, SftpUser>, list: seq<Account>, v: Vault)
    requires Part(have, Target(users, list, v))
    ensures Synced(Target(users, list, v), have, list, v) == Target(users, list, v)
  {
  }
}
