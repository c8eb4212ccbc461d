/** Uploads through one link, interleaved one SQL statement at a time
    (internal/transfer/server.go saveOne over internal/transfer/store.go).
    Any database call may fail, with or without its effect. */
module UploadProtocol {
  import opened Options
  import opened LinkStore

  /** Where one saveOne stands. */
  datatype Upload =
    | Claimed                                   // Reserve done, Remaining next
    | Receiving(limit: nat)                     // Save is running with this limit
    | Written(size: nat, limit: nat)            // the file is published, Record next
    | Failing                                   // no file, Release next
    | Recorded(size: nat, logged: bool)         // returned; logged if the bytes were charged
    | Dropped                                   // returned without a file

  /** faulty: some counter update has failed so far. peak: the most uploads
      ever between reading Remaining and finishing at the same time. */
  datatype State = State(row: Option<Session>, uploads: seq<Upload>, peak: nat, faulty: bool)

  datatype Action =
    | Reserve(reported: bool, applied: bool)
    | Remaining(u: nat, ok: bool, room: Option<int>)
    | SaveOk(u: nat, size: nat)
    | SaveFails(u: nat)
    | Record(u: nat, applied: bool)
    | Release(u: nat, applied: bool)
    | Revoke
    | Prune

  predicate Fresh(s: State) {
    s.row.Some? && s.row.value.files == 0 && s.row.value.bytes == 0 && s.row.value.maxFiles >= 0
    && s.row.value.maxBytes >= 0 && s.uploads == [] && s.peak == 0 && !s.faulty
  }

  predicate Can(s: State) { s.row.Some? && CanReserve(s.row.value) }

  predicate Enabled(s: State, a: Action) {
    match a
    case Reserve(reported, applied) => (reported ==> applied) && (applied ==> Can(s))
    case Remaining(u, ok, _) => u < |s.uploads| && s.uploads[u].Claimed? && (ok ==> s.row.Some?)
    case SaveOk(u, size) => u < |s.uploads| && s.uploads[u].Receiving? && size <= s.uploads[u].limit
    case SaveFails(u) => u < |s.uploads| && s.uploads[u].Receiving?
    case Record(u, _) => u < |s.uploads| && s.uploads[u].Written?
    case Release(u, _) => u < |s.uploads| && s.uploads[u].Failing?
    case Revoke => true
    case Prune => true
  }

  /** The limit handed to Save, or nothing when the drive is full. */
  function Grant(left: nat, room: Option<int>): Option<nat> {
    match room
    case None => Some(left)
    case Some(r) => if r <= 0 then None else if r < left then Some(r) else Some(left)
  }

  function Apply(s: State, a: Action): State
    requires Enabled(s, a)
  {
    match a
    case Reserve(reported, applied) =>
      State(if applied then Some(Reserved(s.row.value)) else s.row,
            if reported then s.uploads + [Claimed] else s.uploads, s.peak,
            s.faulty || (!reported && Can(s)))
    case Remaining(u, ok, room) =>
      var next := if !ok then Failing
                  else match Grant(Left(s.row.value), room)
                       case None => Failing
                       case Some(limit) => Receiving(limit);
      var uploads := s.uploads[u := next];
      s.(uploads := uploads, peak := if Sum(uploads, Running) > s.peak then Sum(uploads, Running) else s.peak)
    case SaveOk(u, size) => s.(uploads := s.uploads[u := Written(size, s.uploads[u].limit)])
    case SaveFails(u) => s.(uploads := s.uploads[u := Failing])
    case Record(u, applied) =>
      var size := s.uploads[u].size;
      State(if applied && s.row.Some? then Some(Charged(s.row.value, size)) else s.row,
            s.uploads[u := Recorded(size, applied)], s.peak, s.faulty || !applied)
    case Release(u, applied) =>
      State(if applied && s.row.Some? then Some(Released(s.row.value)) else s.row,
            s.uploads[u := Dropped], s.peak, s.faulty || !applied)
    case Revoke => s.(row := if s.row.Some? then Some(s.row.value.(revoked := true)) else None)
    case Prune => s.(row := None)
  }

  // ---- totals over the uploads ----

  function Sum(us: seq<Upload>, w: Upload -> nat): nat {
    if us == [] then 0 else Sum(us[..|us| - 1], w) + w(us[|us| - 1])
  }

  function Holds(u: Upload): nat { if u.Dropped? then 0 else 1 } // a saved file or an outstanding reservation
  function Running(u: Upload): nat { if u.Receiving? || u.Written? then 1 else 0 }
  function Limit(u: Upload): nat { if u.Receiving? || u.Written? then u.limit else 0 }
  function Logged(u: Upload): nat { if u.Recorded? && u.logged then u.size else 0 }
  function OnDrive(u: Upload): nat { if u.Written? || u.Recorded? then u.size else 0 } // bytes on the drive
  function SavedFile(u: Upload): nat { if u.Written? || u.Recorded? then 1 else 0 }
  function Outstanding(u: Upload): nat { if u.Claimed? || u.Receiving? || u.Failing? then 1 else 0 }

  lemma {:induction false} SumAppend(us: seq<Upload>, u: Upload, w: Upload -> nat)
    ensures Sum(us + [u], w) == Sum(us, w) + w(u)
  {
    assert (us + [u])[..|us|] == us;
  }

  lemma {:induction false} SumUpdate(us: seq<Upload>, k: nat, u: Upload, w: Upload -> nat)
    requires k < |us|
    ensures Sum(us[k := u], w) == Sum(us, w) - w(us[k]) + w(u)
  {
    var last := |us| - 1;
    if k == last {
      assert us[k := u][..last] == us[..last];
    } else {
      assert us[k := u][..last] == us[..last][k := u];
      SumUpdate(us[..last], k, u, w);
    }
  }

  lemma {:induction false} SumAtLeast(us: seq<Upload>, k: nat, w: Upload -> nat)
    requires k < |us|
    ensures Sum(us, w) >= w(us[k])
  {
    if k < |us| - 1 {
      SumAtLeast(us[..|us| - 1], k, w);
    }
  }

  lemma {:induction false} HoldsSplit(us: seq<Upload>)
    ensures Sum(us, Holds) == Sum(us, SavedFile) + Sum(us, Outstanding)
  {
    if us != [] {
      HoldsSplit(us[..|us| - 1]);
    }
  }

  /** Each running upload was handed at most the link's byte limit. */
  lemma {:induction false} LimitsBound(us: seq<Upload>, max: nat)
    requires forall i :: 0 <= i < |us| ==> Limit(us[i]) <= max
    ensures Sum(us, Limit) <= Sum(us, Running) * max
  {
    if us != [] {
      var rest := us[..|us| - 1];
      LimitsBound(rest, max);
      var last := us[|us| - 1];
      assert (Sum(rest, Running) + Running(last)) * max == Sum(rest, Running) * max + Running(last) * max;
    }
  }

  // ---- the invariants ----

  /** Counters: saved files and outstanding reservations are always covered by
      the files counter, exactly so while no counter update has failed. */
  ghost predicate FilesInv(s: State) {
    s.row.Some? ==>
      && 0 <= Sum(s.uploads, Holds) <= s.row.value.files <= s.row.value.maxFiles
      && (!s.faulty ==> s.row.value.files == Sum(s.uploads, Holds))
  }

  ghost predicate BytesInv(s: State, max: nat) {
    && Sum(s.uploads, Running) <= s.peak
    && (forall i :: 0 <= i < |s.uploads| ==> Limit(s.uploads[i]) <= max)
    && (forall i :: 0 <= i < |s.uploads| && s.uploads[i].Written? ==> s.uploads[i].size <= s.uploads[i].limit)
    && (s.row.Some? ==> s.row.value.maxBytes == max && s.row.value.bytes == Sum(s.uploads, Logged))
    && Sum(s.uploads, Logged) + Sum(s.uploads, Limit) <= s.peak * max
  }

  lemma FilesStep(s: State, a: Action)
    requires FilesInv(s) && Enabled(s, a)
    ensures FilesInv(Apply(s, a))
  {
    match a
    case Reserve(_, _) => SumAppend(s.uploads, Claimed, Holds);
    case Remaining(u, ok, room) => SumUpdate(s.uploads, u, Apply(s, a).uploads[u], Holds);
    case SaveOk(u, size) => SumUpdate(s.uploads, u, Apply(s, a).uploads[u], Holds);
    case SaveFails(u) => SumUpdate(s.uploads, u, Failing, Holds);
    case Record(u, applied) => SumUpdate(s.uploads, u, Apply(s, a).uploads[u], Holds);
    case Release(u, applied) =>
      SumUpdate(s.uploads, u, Dropped, Holds);
      SumAtLeast(s.uploads, u, Holds);
    case Revoke =>
    case Prune =>
  }

  /** One upload moves on, without a new limit. */
  lemma BytesKeep(s: State, t: State, u: nat, next: Upload, max: nat)
    requires BytesInv(s, max) && u < |s.uploads| && t.uploads == s.uploads[u := next] && t.peak == s.peak
    requires Running(next) <= Running(s.uploads[u]) && Limit(next) <= max
    requires Logged(next) + Limit(next) <= Logged(s.uploads[u]) + Limit(s.uploads[u])
    requires next.Written? ==> next.size <= next.limit
    requires t.row.Some? ==> s.row.Some?
    requires t.row.Some? ==> t.row.value.maxBytes == s.row.value.maxBytes
    requires t.row.Some? ==> t.row.value.bytes == s.row.value.bytes + Logged(next) - Logged(s.uploads[u])
    ensures BytesInv(t, max)
  {
    SumUpdate(s.uploads, u, next, Running);
    SumUpdate(s.uploads, u, next, Limit);
    SumUpdate(s.uploads, u, next, Logged);
  }

  lemma RemainingStep(s: State, u: nat, room: Option<int>, max: nat)
    requires BytesInv(s, max) && Enabled(s, Remaining(u, true, room))
    ensures BytesInv(Apply(s, Remaining(u, true, room)), max)
  {
    var t := Apply(s, Remaining(u, true, room));
    var next := t.uploads[u];
    SumUpdate(s.uploads, u, next, Running);
    SumUpdate(s.uploads, u, next, Limit);
    SumUpdate(s.uploads, u, next, Logged);
    LimitsBound(s.uploads, max);
    GrantBound(Sum(s.uploads, Logged), Sum(s.uploads, Limit), Limit(next), Sum(s.uploads, Running),
               s.peak, t.peak, max);
  }

  /** The arithmetic of one Remaining: bytes recorded, limits handed out
      before and now, uploads running before, and the peaks. */
  lemma GrantBound(bytes: nat, limits: nat, granted: nat, running: nat, peak: nat, newPeak: nat, max: nat)
    requires bytes + limits <= peak * max && limits <= running * max
    requires granted <= (if bytes >= max then 0 else max - bytes)
    requires peak <= newPeak && (granted > 0 ==> running + 1 <= newPeak)
    ensures bytes + limits + granted <= newPeak * max
  {
    MulMonotone(peak, newPeak, max);
    if granted > 0 {
      assert (running + 1) * max == running * max + max;
      MulMonotone(running + 1, newPeak, max);
    }
  }

  lemma MulMonotone(a: nat, b: nat, c: nat)
    requires a <= b
    ensures a * c <= b * c
  {
  }

  lemma ReserveStep(s: State, a: Action, max: nat)
    requires BytesInv(s, max) && Enabled(s, a) && a.Reserve?
    ensures BytesInv(Apply(s, a), max)
  {
    SumAppend(s.uploads, Claimed, Running);
    SumAppend(s.uploads, Claimed, Limit);
    SumAppend(s.uploads, Claimed, Logged);
  }

  lemma BytesStep(s: State, a: Action, max: nat)
    requires BytesInv(s, max) && Enabled(s, a)
    ensures BytesInv(Apply(s, a), max)
  {
    match a
    case Reserve(_, _) => ReserveStep(s, a, max);
    case Remaining(u, ok, room) =>
      if ok { RemainingStep(s, u, room, max); } else { BytesKeep(s, Apply(s, a).(peak := s.peak), u, Failing, max); }
    case SaveOk(u, size) => BytesKeep(s, Apply(s, a), u, Apply(s, a).uploads[u], max);
    case SaveFails(u) => BytesKeep(s, Apply(s, a), u, Failing, max);
    case Record(u, applied) => BytesKeep(s, Apply(s, a), u, Apply(s, a).uploads[u], max);
    case Release(u, applied) => BytesKeep(s, Apply(s, a), u, Dropped, max);
    case Revoke =>
    case Prune =>
  }

  // ---- whole runs ----

  predicate Possible(s: State, run: seq<Action>)
    decreases |run|
  {
    run == [] || (Enabled(s, run[0]) && Possible(Apply(s, run[0]), run[1..]))
  }

  function After(s: State, run: seq<Action>): State
    requires Possible(s, run)
    decreases |run|
  {
    if run == [] then s else After(Apply(s, run[0]), run[1..])
  }

  lemma {:induction false} RunKeeps(s: State, run: seq<Action>, max: nat)
    requires Possible(s, run) && FilesInv(s) && BytesInv(s, max)
    ensures FilesInv(After(s, run)) && BytesInv(After(s, run), max)
    decreases |run|
  {
    if run != [] {
      FilesStep(s, run[0]);
      BytesStep(s, run[0], max);
      RunKeeps(Apply(s, run[0]), run[1..], max);
    }
  }

  /** Saved files and outstanding reservations against the counter. */
  ghost predicate Covered(t: State) {
    t.row.Some? ==>
      && Sum(t.uploads, SavedFile) + Sum(t.uploads, Outstanding) <= t.row.value.files <= t.row.value.maxFiles
      && (!t.faulty ==> t.row.value.files == Sum(t.uploads, SavedFile) + Sum(t.uploads, Outstanding))
  }

  lemma InvCovers(t: State)
    requires FilesInv(t)
    ensures Covered(t)
  {
    HoldsSplit(t.uploads);
  }

  lemma ReleaseIsExact(t: State, u: nat)
    requires FilesInv(t) && t.row.Some? && u < |t.uploads| && t.uploads[u].Failing?
    ensures Released(t.row.value).files == t.row.value.files - 1
  {
    SumAtLeast(t.uploads, u, Holds);
  }

  /** In every interleaving, saved files plus outstanding reservations never
      exceed the files counter, and that never exceeds max_files; while no
      counter update has failed they are equal, and the clamp at zero in
      Release never takes effect. */
  lemma {:induction false} FilesAreCovered(init: State, run: seq<Action>)
    requires Fresh(init) && Possible(init, run)
    ensures Covered(After(init, run))
    ensures var t := After(init, run);
            t.row.Some? ==> forall u :: 0 <= u < |t.uploads| && t.uploads[u].Failing? ==>
              Released(t.row.value).files == t.row.value.files - 1
  {
    RunKeeps(init, run, init.row.value.maxBytes);
    var t := After(init, run);
    InvCovers(t);
    forall u | t.row.Some? && 0 <= u < |t.uploads| && t.uploads[u].Failing?
      ensures Released(t.row.value).files == t.row.value.files - 1
    {
      ReleaseIsExact(t, u);
    }
  }

  /** With at most k uploads at once between reading Remaining and finishing,
      the recorded bytes and all limits handed out stay within k * max_bytes;
      uploads one at a time stay within max_bytes. */
  lemma {:induction false} BytesAreBounded(init: State, run: seq<Action>, k: nat)
    requires Fresh(init) && Possible(init, run) && After(init, run).peak <= k
    ensures var t := After(init, run);
            var max := init.row.value.maxBytes;
            && Sum(t.uploads, Logged) + Sum(t.uploads, Limit) <= k * max
            && (t.row.Some? ==> t.row.value.bytes == Sum(t.uploads, Logged))
  {
    var max := init.row.value.maxBytes;
    RunKeeps(init, run, max);
    MulMonotone(After(init, run).peak, k, max);
  }

  // ---- what is on the drive ----

  /** No file is larger than the limit it was handed, which is at most the
      link's; while no counter update has failed every finished one is charged. */
  ghost predicate SizesInv(s: State, max: nat) {
    && (forall i :: 0 <= i < |s.uploads| ==> OnDrive(s.uploads[i]) <= max)
    && (!s.faulty ==> forall i :: 0 <= i < |s.uploads| && s.uploads[i].Recorded? ==> s.uploads[i].logged)
  }

  lemma SizesStep(s: State, a: Action, max: nat)
    requires SizesInv(s, max) && BytesInv(s, max) && Enabled(s, a)
    ensures SizesInv(Apply(s, a), max)
  {
    if a.SaveOk? {
      assert Limit(s.uploads[a.u]) <= max;
    }
    if a.Record? {
      assert OnDrive(s.uploads[a.u]) <= max;
    }
  }

  lemma {:induction false} SizesKeep(s: State, run: seq<Action>, max: nat)
    requires Possible(s, run) && SizesInv(s, max) && FilesInv(s) && BytesInv(s, max)
    ensures SizesInv(After(s, run), max)
    decreases |run|
  {
    if run != [] {
      SizesStep(s, run[0], max);
      FilesStep(s, run[0]);
      BytesStep(s, run[0], max);
      SizesKeep(Apply(s, run[0]), run[1..], max);
    }
  }

  lemma {:induction false} ChargedOrLimited(us: seq<Upload>)
    requires forall i :: 0 <= i < |us| && us[i].Recorded? ==> us[i].logged
    requires forall i :: 0 <= i < |us| && us[i].Written? ==> us[i].size <= us[i].limit
    ensures Sum(us, OnDrive) <= Sum(us, Logged) + Sum(us, Limit)
  {
    if us != [] {
      ChargedOrLimited(us[..|us| - 1]);
    }
  }

  lemma {:induction false} FilesTimesLimit(us: seq<Upload>, max: nat)
    requires forall i :: 0 <= i < |us| ==> OnDrive(us[i]) <= max
    ensures Sum(us, OnDrive) <= Sum(us, SavedFile) * max
  {
    if us != [] {
      var rest, last := us[..|us| - 1], us[|us| - 1];
      FilesTimesLimit(rest, max);
      assert (Sum(rest, SavedFile) + SavedFile(last)) * max == Sum(rest, SavedFile) * max + SavedFile(last) * max;
    }
  }

  /** The bytes really on the drive: within k * max_bytes while no counter
      update has failed; when one has, files may stay uncharged, but all of them
      together are within the files counter times max_bytes. */
  lemma {:induction false} DriveIsBounded(init: State, run: seq<Action>, k: nat)
    requires Fresh(init) && Possible(init, run) && After(init, run).peak <= k
    ensures var t := After(init, run);
            var max := init.row.value.maxBytes;
            && (!t.faulty ==> Sum(t.uploads, OnDrive) <= k * max)
            && (t.row.Some? ==> Sum(t.uploads, OnDrive) <= t.row.value.files * max)
  {
    var max: nat := init.row.value.maxBytes;
    var t := After(init, run);
    BytesAreBounded(init, run, k);
    FilesAreCovered(init, run);
    RunKeeps(init, run, max);
    SizesKeep(init, run, max);
    if !t.faulty {
      ChargedOrLimited(t.uploads);
    }
    FilesTimesLimit(t.uploads, max);
    if t.row.Some? {
      MulMonotone(Sum(t.uploads, SavedFile), t.row.value.files, max);
    }
  }

  // ---- the bound is attained ----

  function Mix(a: Upload, j: nat, b: Upload, k: nat): seq<Upload>
    requires j <= k
  {
    seq(k, i requires 0 <= i < k => if i < j then a else b)
  }

  lemma {:induction false} MixRunning(max: nat, j: nat, k: nat)
    requires j <= k
    ensures Sum(Mix(Receiving(max), j, Claimed, k), Running) == j
  {
    if k > 0 {
      var j' := if j < k then j else j - 1;
      assert Mix(Receiving(max), j, Claimed, k)[..k - 1] == Mix(Receiving(max), j', Claimed, k - 1);
      MixRunning(max, j', k - 1);
    }
  }

  /** n steps from s lead to t. */
  ghost predicate Leads(s: State, t: State) { exists run :: Possible(s, run) && After(s, run) == t }

  lemma LeadsStep(s: State, t: State, a: Action)
    requires Leads(s, t) && Enabled(t, a)
    ensures Leads(s, Apply(t, a))
  {
    var run :| Possible(s, run) && After(s, run) == t;
    RunSnoc(s, run, a);
  }

  lemma {:induction false} RunSnoc(s: State, run: seq<Action>, a: Action)
    requires Possible(s, run) && Enabled(After(s, run), a)
    ensures Possible(s, run + [a]) && After(s, run + [a]) == Apply(After(s, run), a)
    decreases |run|
  {
    if run == [] {
      assert Possible(Apply(s, a), []);
      assert run + [a] == [a];
    } else {
      RunSnoc(Apply(s, run[0]), run[1..], a);
      assert (run + [a])[1..] == run[1..] + [a];
    }
  }

  /** j uploads have claimed a file. */
  function Claims(init: State, j: nat): State
    requires init.row.Some?
  {
    init.(row := Some(init.row.value.(files := j)), uploads := Mix(Claimed, j, Claimed, j))
  }

  /** k have claimed, j of them were handed the whole limit. */
  function Grants(init: State, k: nat, j: nat): State
    requires init.row.Some? && init.row.value.maxBytes >= 0 && j <= k
  {
    Claims(init, k).(uploads := Mix(Receiving(init.row.value.maxBytes), j, Claimed, k), peak := j)
  }

  /** j of the k have recorded a file of the whole limit. */
  function Records(init: State, k: nat, j: nat): State
    requires init.row.Some? && init.row.value.maxBytes >= 0 && j <= k
  {
    var max := init.row.value.maxBytes;
    init.(row := Some(init.row.value.(files := k, bytes := j * max)),
          uploads := Mix(Recorded(max, true), j, Receiving(max), k), peak := k)
  }

  predicate Usable(init: State) { Fresh(init) && !init.row.value.revoked && init.row.value.maxBytes > 0 }

  lemma {:induction false} ClaimAll(init: State, k: nat)
    requires Usable(init) && k <= init.row.value.maxFiles
    ensures Leads(init, Claims(init, k))
  {
    if k == 0 {
      assert Possible(init, []) && After(init, []) == Claims(init, 0);
    } else {
      ClaimAll(init, k - 1);
      var t := Claims(init, k - 1);
      LeadsStep(init, t, Reserve(true, true));
      assert Apply(t, Reserve(true, true)).uploads == Claims(init, k).uploads;
    }
  }

  lemma {:induction false} GrantAll(init: State, k: nat, j: nat)
    requires Usable(init) && j <= k <= init.row.value.maxFiles
    ensures Leads(init, Grants(init, k, j))
  {
    if j == 0 {
      ClaimAll(init, k);
      assert Grants(init, k, 0).uploads == Claims(init, k).uploads;
    } else {
      GrantAll(init, k, j - 1);
      GrantNext(init, k, j);
      LeadsStep(init, Grants(init, k, j - 1), Remaining(j - 1, true, None));
    }
  }

  lemma GrantNext(init: State, k: nat, j: nat)
    requires Usable(init) && 0 < j <= k <= init.row.value.maxFiles
    ensures var t, a := Grants(init, k, j - 1), Remaining(j - 1, true, None);
            Enabled(t, a) && Apply(t, a) == Grants(init, k, j)
  {
    var t, a := Grants(init, k, j - 1), Remaining(j - 1, true, None);
    MixRunning(init.row.value.maxBytes, j, k);
    assert Apply(t, a).uploads == Grants(init, k, j).uploads;
  }

  lemma {:induction false} RecordAll(init: State, k: nat, j: nat)
    requires Usable(init) && j <= k <= init.row.value.maxFiles
    ensures Leads(init, Records(init, k, j))
  {
    var max := init.row.value.maxBytes;
    if j == 0 {
      GrantAll(init, k, k);
      assert Records(init, k, 0).uploads == Grants(init, k, k).uploads;
    } else {
      RecordAll(init, k, j - 1);
      var t, a, b := Records(init, k, j - 1), SaveOk(j - 1, max), Record(j - 1, true);
      LeadsStep(init, t, a);
      LeadsStep(init, Apply(t, a), b);
      assert Apply(Apply(t, a), b).uploads == Records(init, k, j).uploads;
      assert j * max == (j - 1) * max + max;
    }
  }

  /** The factor is real: for every k the link allows, some interleaving of k
      phones records k times max_bytes. */
  lemma BoundIsAttained(init: State, k: nat)
    requires Usable(init) && k <= init.row.value.maxFiles
    ensures exists run :: Possible(init, run) && After(init, run).peak == k && After(init, run).row.Some?
              && After(init, run).row.value.bytes == k * init.row.value.maxBytes
  {
    RecordAll(init, k, k);
    var run :| Possible(init, run) && After(init, run) == Records(init, k, k);
  }

  // ---- the drive's free space ----

  /** No more than the link had left and the drive had room for. */
  predicate Within(up: Upload, left: nat, room: Option<int>) {
    match up
    case Receiving(limit) => limit <= left && (room.Some? ==> limit <= room.value)
    case Written(size, limit) => size <= limit <= left && (room.Some? ==> limit <= room.value)
    case Recorded(size, _) => size <= left && (room.Some? ==> size <= room.value)
    case Claimed => false
    case _ => true
  }

  lemma {:induction false} WithinStays(s: State, run: seq<Action>, u: nat, left: nat, room: Option<int>)
    requires Possible(s, run) && u < |s.uploads| && Within(s.uploads[u], left, room)
    ensures u < |After(s, run).uploads| && Within(After(s, run).uploads[u], left, room)
    decreases |run|
  {
    if run != [] {
      WithinStays(Apply(s, run[0]), run[1..], u, left, room);
    }
  }

  /** In every interleaving an upload that read the rest of the link and the
      drive's room is given the smaller of the two, or nothing if the drive has
      no room, and never writes more, whatever happens next. */
  lemma {:induction false} RoomIsKept(s: State, u: nat, room: Option<int>, run: seq<Action>)
    requires Enabled(s, Remaining(u, true, room)) && Possible(Apply(s, Remaining(u, true, room)), run)
    ensures var r, next := s.row.value, Apply(s, Remaining(u, true, room)).uploads[u];
            var left := if r.bytes >= r.maxBytes then 0 else r.maxBytes - r.bytes;
            && (next.Failing? <==> room.Some? && room.value <= 0)
            && (!next.Failing? ==> next.Receiving? && (next.limit == left || Some(next.limit as int) == room))
            && u < |After(Apply(s, Remaining(u, true, room)), run).uploads|
            && Within(After(Apply(s, Remaining(u, true, room)), run).uploads[u], left, room)
  {
    var t := Apply(s, Remaining(u, true, room));
    WithinStays(t, run, u, Left(s.row.value), room);
  }

  // ---- after a revocation ----

  /** Revoked, or pruned. */
  predicate Ended(s: State) { s.row.None? || s.row.value.revoked }

  /** A link that was revoked takes no further file, in any interleaving. */
  lemma {:induction false} RevokedTakesNothing(s: State, run: seq<Action>)
    requires Possible(s, run) && Ended(s) && (s.row.Some? ==> s.row.value.files >= 0)
    ensures Ended(After(s, run)) && |After(s, run).uploads| == |s.uploads|
    ensures After(s, run).row.Some? ==> s.row.Some? && After(s, run).row.value.files <= s.row.value.files
    decreases |run|
  {
    if run != [] {
      RevokedTakesNothing(Apply(s, run[0]), run[1..]);
    }
  }
}
