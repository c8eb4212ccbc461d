/** Any number of Save calls into one folder, interleaved one system call at
    a time, with other programs adding files at any moment
    (internal/transfer/save.go). */
module SaveProtocol {
  import opened Names
  import opened Publish

  type Data = seq<int>

  /** One call's arguments; data is everything its reader would deliver. */
  datatype Request = Request(raw: string, data: Data, limit: nat)

  /** Where a call stands; its next step is one system call. */
  datatype Call =
    | Copying(req: Request, tmp: string, ino: Inode, n: nat) // n bytes copied into the temporary file
    | Renaming(req: Request, tmp: string, ino: Inode, i: nat) // renameat2 to candidate i is next
    | Linking(req: Request, tmp: string, ino: Inode, i: nat) // linkat to candidate i is next
    | Unlinking(req: Request, tmp: string, ino: Inode, final: string) // linked as final; unlinkat is next
    | Discarding(req: Request, tmp: string, ino: Inode) // failed; its temporary file is still there
    | Saved(req: Request, ino: Inode, final: string) // returned final
    | GaveUp(req: Request)

  datatype State = State(entries: Entries, content: seq<Data>, calls: seq<Call>)

  /** The outcome of each system call is part of the action. */
  datatype Action =
    | AddFile(name: string, data: Data)             // another program
    | Begin(req: Request, suffix: string)           // O_CREAT|O_EXCL of the temporary file
    | Copy(c: nat, upTo: nat)                       // one chunk of io.Copy
    | CopyFails(c: nat)                             // read, write, sync or close error, or too large
    | CopyEnds(c: nat)                              // end of data within the limit, synced and closed
    | Rename(c: nat, e: Errno)
    | Link(c: nat, e: Errno)
    | Unlink(c: nat, done: bool)
    | Discard(c: nat, done: bool)

  const INIT := State(map[], [], [])

  /** The name a call tries next. */
  function Try(c: Call): string
    requires c.Renaming? || c.Linking?
  {
    Candidate(Cleaned(c.req.raw), c.i)
  }

  ghost predicate CandidateOf(raw: string, final: string) {
    exists i: nat :: i < ATTEMPTS && final == Candidate(Cleaned(raw), i)
  }

  /** What the kernel may answer to a rename or link of c's temporary file. */
  predicate Answer(s: State, c: Call, e: Errno)
    requires c.Renaming? || c.Linking?
  {
    (e == Ok ==> c.tmp in s.entries && Try(c) !in s.entries) && (e == Exists ==> Try(c) in s.entries)
  }

  ghost predicate Enabled(s: State, a: Action) {
    match a
    case AddFile(name, _) => name !in s.entries
    case Begin(_, _) => true
    case Copy(c, upTo) => c < |s.calls| && s.calls[c].Copying? && s.calls[c].n <= upTo <= |s.calls[c].req.data|
                          && upTo <= s.calls[c].req.limit + 1 && s.calls[c].ino < |s.content|
    case CopyFails(c) => c < |s.calls| && s.calls[c].Copying?
    case CopyEnds(c) => c < |s.calls| && s.calls[c].Copying?
                        && s.calls[c].n == |s.calls[c].req.data| <= s.calls[c].req.limit
    case Rename(c, e) => c < |s.calls| && s.calls[c].Renaming? && Answer(s, s.calls[c], e)
    case Link(c, e) => c < |s.calls| && s.calls[c].Linking? && Answer(s, s.calls[c], e)
    case Unlink(c, _) => c < |s.calls| && s.calls[c].Unlinking?
    case Discard(c, _) => c < |s.calls| && s.calls[c].Discarding?
  }

  /** Temporary file plus the loop of publish: the next candidate, or give up. */
  function NextTry(c: Call): Call
    requires c.Renaming? || c.Linking?
  {
    if c.i + 1 >= ATTEMPTS then Discarding(c.req, c.tmp, c.ino)
    else if c.Renaming? then Renaming(c.req, c.tmp, c.ino, c.i + 1)
    else Linking(c.req, c.tmp, c.ino, c.i + 1)
  }

  function Discarded(c: Call): Call
    requires c.Copying? || c.Renaming? || c.Linking?
  {
    Discarding(c.req, c.tmp, c.ino)
  }

  function Apply(s: State, a: Action): State
    requires Enabled(s, a)
  {
    match a
    case AddFile(name, data) => State(s.entries[name := |s.content|], s.content + [data], s.calls)
    case Begin(req, suffix) =>
      var tmp := TEMP_PREFIX + suffix;
      if tmp in s.entries then s.(calls := s.calls + [GaveUp(req)])
      else State(s.entries[tmp := |s.content|], s.content + [[]], s.calls + [Copying(req, tmp, |s.content|, 0)])
    case Copy(c, upTo) =>
      var call := s.calls[c];
      s.(content := s.content[call.ino := call.req.data[..upTo]], calls := s.calls[c := call.(n := upTo)])
    case CopyFails(c) => s.(calls := s.calls[c := Discarded(s.calls[c])])
    case CopyEnds(c) =>
      var call := s.calls[c];
      s.(calls := s.calls[c := Renaming(call.req, call.tmp, call.ino, 0)])
    case Rename(c, e) =>
      var call := s.calls[c];
      (match e
       case Ok => s.(entries := Renamed(s.entries, call.tmp, Try(call)),
                     calls := s.calls[c := Saved(call.req, call.ino, Try(call))])
       case Exists => s.(calls := s.calls[c := NextTry(call)])
       case Unsupported => s.(calls := s.calls[c := Linking(call.req, call.tmp, call.ino, call.i)])
       case _ => s.(calls := s.calls[c := Discarded(call)]))
    case Link(c, e) =>
      var call := s.calls[c];
      (match e
       case Ok => s.(entries := Linked(s.entries, call.tmp, Try(call)),
                     calls := s.calls[c := Unlinking(call.req, call.tmp, call.ino, Try(call))])
       case Exists => s.(calls := s.calls[c := NextTry(call)])
       case _ => s.(calls := s.calls[c := Discarded(call)]))
    case Unlink(c, done) =>
      var call := s.calls[c];
      s.(entries := if done then s.entries - {call.tmp} else s.entries,
         calls := s.calls[c := Saved(call.req, call.ino, call.final)])
    case Discard(c, done) =>
      var call := s.calls[c];
      s.(entries := if done then s.entries - {call.tmp} else s.entries, calls := s.calls[c := GaveUp(call.req)])
  }

  // ---- the invariant ----

  predicate Live(c: Call) { !c.Saved? && !c.GaveUp? }
  predicate Unpublished(c: Call) { Live(c) && !c.Unlinking? }
  predicate HasFile(c: Call) { !c.GaveUp? }

  /** What one call owns: its temporary name, and while it is unpublished no
      other name for its inode. */
  ghost predicate CallInv(s: State, c: Call) {
    && (HasFile(c) ==> c.ino < |s.content|)
    && (Live(c) ==> IsTemp(c.tmp) && c.tmp in s.entries && s.entries[c.tmp] == c.ino)
    && (Unpublished(c) ==> forall n :: n in s.entries && s.entries[n] == c.ino ==> n == c.tmp)
    && (c.Copying? ==> c.n <= |c.req.data| && s.content[c.ino] == c.req.data[..c.n])
    && (c.Renaming? || c.Linking? ==> c.i < ATTEMPTS)
    && (c.Renaming? || c.Linking? || c.Unlinking? || c.Saved? ==>
          s.content[c.ino] == c.req.data && |c.req.data| <= c.req.limit)
    && (c.Unlinking? || c.Saved? ==>
          c.final in s.entries && s.entries[c.final] == c.ino && !IsTemp(c.final))
  }

  ghost predicate Apart(c: Call, d: Call) {
    && (HasFile(c) && HasFile(d) ==> c.ino != d.ino)
    && (Live(c) && Live(d) ==> c.tmp != d.tmp)
  }

  ghost predicate Inv(s: State) {
    && (forall n :: n in s.entries ==> s.entries[n] < |s.content|)
    && (forall i :: 0 <= i < |s.calls| ==> CallInv(s, s.calls[i]))
    && AllApart(s.calls)
  }

  /** Every published name is one of its call's candidates. */
  ghost predicate NamesInv(s: State) {
    forall i :: 0 <= i < |s.calls| ==> Named(s.calls[i])
  }

  ghost predicate AllApart(calls: seq<Call>) {
    forall i, j :: 0 <= i < j < |calls| ==> Apart(calls[i], calls[j])
  }

  /** A name no running call uses for its temporary file. */
  ghost predicate Finished(s: State, n: string) {
    n in s.entries && forall i :: 0 <= i < |s.calls| && Live(s.calls[i]) ==> s.calls[i].tmp != n
  }

  /** Every finished file is still there, under its name, byte for byte. */
  ghost predicate Keeps(s: State, t: State)
    requires Inv(s) && Inv(t)
  {
    forall n :: Finished(s, n) ==> Finished(t, n) && t.content[t.entries[n]] == s.content[s.entries[n]]
  }

  // ---- every step keeps the invariant and every finished file ----

  lemma AddFileStep(s: State, name: string, data: Data)
    requires Inv(s) && Enabled(s, AddFile(name, data))
    ensures var t := Apply(s, AddFile(name, data)); Inv(t) && Keeps(s, t)
  {
    var t := Apply(s, AddFile(name, data));
    forall i | 0 <= i < |t.calls| ensures CallInv(t, t.calls[i]) {
      assert CallInv(s, s.calls[i]);
    }
  }

  lemma BeginStep(s: State, req: Request, suffix: string)
    requires Inv(s)
    ensures var t := Apply(s, Begin(req, suffix)); Inv(t) && Keeps(s, t)
  {
    var t := Apply(s, Begin(req, suffix));
    forall i | 0 <= i < |s.calls| ensures CallInv(t, t.calls[i]) && Apart(t.calls[i], t.calls[|s.calls|]) {
      assert CallInv(s, s.calls[i]);
    }
    assert CallInv(t, t.calls[|s.calls|]);
  }

  /** One call changes state, its files do not. */
  lemma CallStep(s: State, t: State, c: nat)
    requires Inv(s) && c < |s.calls| && |t.calls| == |s.calls| && t == s.(calls := s.calls[c := t.calls[c]])
    requires CallInv(s, t.calls[c])
    requires HasFile(t.calls[c]) ==> HasFile(s.calls[c]) && t.calls[c].ino == s.calls[c].ino
    requires Live(t.calls[c]) ==> Live(s.calls[c]) && t.calls[c].tmp == s.calls[c].tmp
    ensures Inv(t) && Keeps(s, t)
  {
    forall i, j | 0 <= i < j < |t.calls| ensures Apart(t.calls[i], t.calls[j]) {
      assert Apart(s.calls[i], s.calls[j]);
    }
    forall i | 0 <= i < |t.calls| ensures CallInv(t, t.calls[i]) {
      assert CallInv(s, t.calls[i]);
    }
  }

  lemma CopyStep(s: State, c: nat, upTo: nat)
    requires Inv(s) && Enabled(s, Copy(c, upTo))
    ensures var t := Apply(s, Copy(c, upTo)); Inv(t) && Keeps(s, t)
  {
    var t := Apply(s, Copy(c, upTo));
    forall i | 0 <= i < |t.calls| ensures CallInv(t, t.calls[i]) {
      assert CallInv(s, s.calls[i]);
      if i < c { assert Apart(s.calls[i], s.calls[c]); } else if c < i { assert Apart(s.calls[c], s.calls[i]); }
    }
    forall i, j | 0 <= i < j < |t.calls| ensures Apart(t.calls[i], t.calls[j]) {
      assert Apart(s.calls[i], s.calls[j]);
    }
    assert CallInv(s, s.calls[c]);
  }

  lemma RenameStep(s: State, c: nat, e: Errno)
    requires Inv(s) && Enabled(s, Rename(c, e))
    ensures var t := Apply(s, Rename(c, e)); Inv(t) && Keeps(s, t)
  {
    var t, call := Apply(s, Rename(c, e)), s.calls[c];
    assert CallInv(s, call);
    CandidateIsSafe(call.req.raw, call.i);
    if e == Ok {
      PublishedStep(s, t, c, Try(call));
    } else {
      CallStep(s, t, c);
    }
  }

  lemma LinkStep(s: State, c: nat, e: Errno)
    requires Inv(s) && Enabled(s, Link(c, e))
    ensures var t := Apply(s, Link(c, e)); Inv(t) && Keeps(s, t)
  {
    var t, call := Apply(s, Link(c, e)), s.calls[c];
    assert CallInv(s, call);
    CandidateIsSafe(call.req.raw, call.i);
    if e == Ok {
      PublishedStep(s, t, c, Try(call));
    } else {
      CallStep(s, t, c);
    }
  }

  /** A call d does not notice what another one, c, does to names bound to
      c's own inode. */
  lemma OthersUnaffected(s: State, t: State, c: Call, d: Call)
    requires CallInv(s, d) && Apart(c, d) && Live(c) && c.tmp in s.entries && s.entries[c.tmp] == c.ino
    requires t.content == s.content
    requires forall n :: n in s.entries && s.entries[n] != c.ino ==> n in t.entries && t.entries[n] == s.entries[n]
    requires forall n :: n in t.entries && t.entries[n] != c.ino ==> n in s.entries && s.entries[n] == t.entries[n]
    ensures CallInv(t, d)
  {
  }

  lemma PairwiseApart(s: State, c: nat, d: Call)
    requires Inv(s) && c < |s.calls|
    requires HasFile(d) ==> HasFile(s.calls[c]) && d.ino == s.calls[c].ino
    requires Live(d) ==> Live(s.calls[c]) && d.tmp == s.calls[c].tmp
    ensures AllApart(s.calls[c := d])
    ensures forall i :: 0 <= i < |s.calls| && i != c ==> Apart(s.calls[c], s.calls[i])
  {
    var calls := s.calls[c := d];
    forall i, j | 0 <= i < j < |calls| ensures Apart(calls[i], calls[j]) {
      assert Apart(s.calls[i], s.calls[j]);
    }
    forall i | 0 <= i < |s.calls| && i != c ensures Apart(s.calls[c], s.calls[i]) {
      if i < c { assert Apart(s.calls[i], s.calls[c]); } else { assert Apart(s.calls[c], s.calls[i]); }
    }
  }

  /** A call changes only names bound to its own inode. */
  lemma OwnNamesStep(s: State, t: State, c: nat, d: Call)
    requires Inv(s) && c < |s.calls| && Live(s.calls[c]) && t.calls == s.calls[c := d] && t.content == s.content
    requires CallInv(t, d)
    requires HasFile(d) ==> HasFile(s.calls[c]) && d.ino == s.calls[c].ino
    requires Live(d) ==> Live(s.calls[c]) && d.tmp == s.calls[c].tmp
    requires forall n :: n in s.entries && s.entries[n] != s.calls[c].ino ==>
               n in t.entries && t.entries[n] == s.entries[n]
    requires forall n :: n in t.entries && t.entries[n] != s.calls[c].ino ==>
               n in s.entries && s.entries[n] == t.entries[n]
    ensures Inv(t)
  {
    var call := s.calls[c];
    assert CallInv(s, call);
    PairwiseApart(s, c, d);
    forall i | 0 <= i < |t.calls| ensures CallInv(t, t.calls[i]) {
      if i != c {
        OthersUnaffected(s, t, call, s.calls[i]);
      }
    }
  }

  /** A call's inode appears under one new name; its temporary name may go. */
  lemma PublishedStep(s: State, t: State, c: nat, final: string)
    requires Inv(s) && c < |s.calls| && (s.calls[c].Renaming? || s.calls[c].Linking?)
    requires !IsTemp(final) && final !in s.entries
    requires var call := s.calls[c];
             && call.tmp in s.entries && t.content == s.content
             && ((t.entries == Renamed(s.entries, call.tmp, final)
                  && t.calls == s.calls[c := Saved(call.req, call.ino, final)])
                 || (t.entries == Linked(s.entries, call.tmp, final)
                     && t.calls == s.calls[c := Unlinking(call.req, call.tmp, call.ino, final)]))
    ensures Inv(t) && Keeps(s, t)
  {
    var call := s.calls[c];
    assert CallInv(s, call);
    OwnNamesStep(s, t, c, t.calls[c]);
  }

  lemma UnlinkStep(s: State, c: nat, done: bool)
    requires Inv(s) && Enabled(s, Unlink(c, done))
    ensures var t := Apply(s, Unlink(c, done)); Inv(t) && Keeps(s, t)
  {
    var t, call := Apply(s, Unlink(c, done)), s.calls[c];
    assert CallInv(s, call);
    if done {
      assert CallInv(t, t.calls[c]);
      OwnNamesStep(s, t, c, t.calls[c]);
    } else {
      CallStep(s, t, c);
    }
  }

  lemma DiscardStep(s: State, c: nat, done: bool)
    requires Inv(s) && Enabled(s, Discard(c, done))
    ensures var t := Apply(s, Discard(c, done)); Inv(t) && Keeps(s, t)
  {
    var t, call := Apply(s, Discard(c, done)), s.calls[c];
    assert CallInv(s, call);
    if done {
      assert CallInv(t, t.calls[c]);
      OwnNamesStep(s, t, c, t.calls[c]);
    } else {
      CallStep(s, t, c);
    }
  }

  lemma {:induction false} Step(s: State, a: Action)
    requires Inv(s) && Enabled(s, a)
    ensures Inv(Apply(s, a)) && Keeps(s, Apply(s, a))
  {
    match a
    case AddFile(name, data) => AddFileStep(s, name, data);
    case Begin(req, suffix) => BeginStep(s, req, suffix);
    case Copy(c, upTo) => CopyStep(s, c, upTo);
    case CopyFails(c) => assert CallInv(s, s.calls[c]); CallStep(s, Apply(s, a), c);
    case CopyEnds(c) =>
      assert CallInv(s, s.calls[c]);
      assert s.calls[c].req.data[..s.calls[c].n] == s.calls[c].req.data;
      CallStep(s, Apply(s, a), c);
    case Rename(c, e) => RenameStep(s, c, e);
    case Link(c, e) => LinkStep(s, c, e);
    case Unlink(c, done) => UnlinkStep(s, c, done);
    case Discard(c, done) => DiscardStep(s, c, done);
  }

  /** Where a rename leaves its call. */
  lemma RenameNext(s: State, c: nat, e: Errno)
    requires Enabled(s, Rename(c, e))
    ensures var call := s.calls[c];
            Apply(s, Rename(c, e)).calls ==
              s.calls[c := match e
                           case Ok => Saved(call.req, call.ino, Try(call))
                           case Exists => NextTry(call)
                           case Unsupported => Linking(call.req, call.tmp, call.ino, call.i)
                           case _ => Discarded(call)]
  {
  }

  lemma LinkNext(s: State, c: nat, e: Errno)
    requires Enabled(s, Link(c, e))
    ensures var call := s.calls[c];
            Apply(s, Link(c, e)).calls == s.calls[c := match e
                                                      case Ok => Unlinking(call.req, call.tmp, call.ino, Try(call))
                                                      case Exists => NextTry(call)
                                                      case _ => Discarded(call)]
  {
  }

  lemma TryIsCandidate(c: Call)
    requires (c.Renaming? || c.Linking?) && c.i < ATTEMPTS
    ensures CandidateOf(c.req.raw, Try(c))
  {
  }

  ghost predicate Named(c: Call) { c.Unlinking? || c.Saved? ==> CandidateOf(c.req.raw, c.final) }

  lemma NamedUpdate(calls: seq<Call>, c: nat, next: Call)
    requires c < |calls| && (forall i :: 0 <= i < |calls| ==> Named(calls[i])) && Named(next)
    ensures var t := calls[c := next]; forall i :: 0 <= i < |t| ==> Named(t[i])
  {
  }

  lemma RenameNames(s: State, c: nat, e: Errno)
    requires Inv(s) && NamesInv(s) && Enabled(s, Rename(c, e))
    ensures NamesInv(Apply(s, Rename(c, e)))
  {
    var call := s.calls[c];
    assert CallInv(s, call);
    TryIsCandidate(call);
    RenameNext(s, c, e);
    NamedUpdate(s.calls, c, Apply(s, Rename(c, e)).calls[c]);
  }

  lemma LinkNames(s: State, c: nat, e: Errno)
    requires Inv(s) && NamesInv(s) && Enabled(s, Link(c, e))
    ensures NamesInv(Apply(s, Link(c, e)))
  {
    var call := s.calls[c];
    assert CallInv(s, call);
    TryIsCandidate(call);
    LinkNext(s, c, e);
    NamedUpdate(s.calls, c, Apply(s, Link(c, e)).calls[c]);
  }

  lemma NamesStep(s: State, a: Action)
    requires Inv(s) && NamesInv(s) && Enabled(s, a)
    ensures NamesInv(Apply(s, a))
  {
    match a
    case Rename(c, e) => RenameNames(s, c, e);
    case Link(c, e) => LinkNames(s, c, e);
    case _ =>
  }

  // ---- whole runs ----

  ghost predicate Possible(s: State, run: seq<Action>)
    decreases |run|
  {
    run == [] || (Enabled(s, run[0]) && Possible(Apply(s, run[0]), run[1..]))
  }

  ghost function After(s: State, run: seq<Action>): State
    requires Possible(s, run)
    decreases |run|
  {
    if run == [] then s else After(Apply(s, run[0]), run[1..])
  }

  lemma {:induction false} RunKeeps(s: State, run: seq<Action>)
    requires Inv(s) && Possible(s, run)
    ensures Inv(After(s, run)) && Keeps(s, After(s, run))
    ensures NamesInv(s) ==> NamesInv(After(s, run))
    decreases |run|
  {
    if run != [] {
      Step(s, run[0]);
      if NamesInv(s) { NamesStep(s, run[0]); }
      RunKeeps(Apply(s, run[0]), run[1..]);
    }
  }

  /** In every interleaving each successful call's name holds exactly that
      call's data, within its limit, is one of its candidates and is no
      temporary name; two successful calls never return the same name. */
  lemma {:induction false} SavesAreComplete(run: seq<Action>)
    requires Possible(INIT, run)
    ensures var t := After(INIT, run);
            && (forall i :: 0 <= i < |t.calls| && t.calls[i].Saved? ==>
                  var c := t.calls[i];
                  && c.final in t.entries && t.entries[c.final] < |t.content|
                  && t.content[t.entries[c.final]] == c.req.data && |c.req.data| <= c.req.limit
                  && !IsTemp(c.final) && CandidateOf(c.req.raw, c.final))
            && (forall i, j :: 0 <= i < j < |t.calls| && t.calls[i].Saved? && t.calls[j].Saved? ==>
                  t.calls[i].final != t.calls[j].final)
  {
    RunKeeps(INIT, run);
    var t := After(INIT, run);
    forall i | 0 <= i < |t.calls| ensures CallInv(t, t.calls[i]) {
    }
    forall i, j | 0 <= i < j < |t.calls| && t.calls[i].Saved? && t.calls[j].Saved?
      ensures t.calls[i].final != t.calls[j].final
    {
      assert Apart(t.calls[i], t.calls[j]);
    }
  }

  /** No finished file is ever replaced, changed or removed by later steps:
      whatever a run has left in the folder, every continuation keeps. */
  lemma NothingIsReplaced(run: seq<Action>, more: seq<Action>)
    requires Possible(INIT, run) && Possible(After(INIT, run), more)
    ensures var s, t := After(INIT, run), After(After(INIT, run), more);
            forall n :: Finished(s, n) && s.entries[n] < |s.content| ==>
              Finished(t, n) && t.entries[n] < |t.content| && t.content[t.entries[n]] == s.content[s.entries[n]]
  {
    RunKeeps(INIT, run);
    RunKeeps(After(INIT, run), more);
  }

  // ---- which candidate ----

  /** The candidates before the i-th are in the folder. */
  ghost predicate Skipped(s: State, raw: string, i: nat) {
    forall j: nat :: j < i ==> Candidate(Cleaned(raw), j) in s.entries
  }

  /** final is the i-th candidate, and those before it are in the folder. */
  ghost predicate FirstFree(s: State, raw: string, final: string, i: nat) {
    i < ATTEMPTS && final == Candidate(Cleaned(raw), i) && Skipped(s, raw, i)
  }

  ghost predicate Tried(s: State, c: Call) {
    && (c.Renaming? || c.Linking? ==> Skipped(s, c.req.raw, c.i))
    && (c.Unlinking? || c.Saved? ==> exists i: nat :: FirstFree(s, c.req.raw, c.final, i))
  }

  ghost predicate TriedInv(s: State) { forall i :: 0 <= i < |s.calls| ==> Tried(s, s.calls[i]) }

  /** No name but a temporary one ever goes. */
  ghost predicate Grows(s: State, t: State) { forall n :: n in s.entries && !IsTemp(n) ==> n in t.entries }

  lemma EntriesGrow(s: State, a: Action)
    requires Inv(s) && Enabled(s, a)
    ensures Grows(s, Apply(s, a))
  {
    if a.Rename? || a.Link? || a.Unlink? || a.Discard? {
      assert CallInv(s, s.calls[a.c]);
    }
  }

  lemma SkippedGrows(s: State, t: State, raw: string, i: nat)
    requires Skipped(s, raw, i) && Grows(s, t) && i <= ATTEMPTS
    ensures Skipped(t, raw, i)
  {
    forall j: nat | j < i ensures Candidate(Cleaned(raw), j) in t.entries {
      CandidateIsSafe(raw, j);
    }
  }

  lemma TriedGrows(s: State, t: State, c: Call)
    requires Tried(s, c) && Grows(s, t) && (c.Renaming? || c.Linking? ==> c.i < ATTEMPTS)
    ensures Tried(t, c)
  {
    if c.Renaming? || c.Linking? {
      SkippedGrows(s, t, c.req.raw, c.i);
    } else if c.Unlinking? || c.Saved? {
      var i: nat :| FirstFree(s, c.req.raw, c.final, i);
      SkippedGrows(s, t, c.req.raw, i);
      assert FirstFree(t, c.req.raw, c.final, i);
    }
  }

  lemma OneMoreSkipped(s: State, raw: string, i: nat)
    requires Skipped(s, raw, i) && Candidate(Cleaned(raw), i) in s.entries
    ensures Skipped(s, raw, i + 1)
  {
  }

  lemma NextTried(s: State, c: Call)
    requires (c.Renaming? || c.Linking?) && Tried(s, c) && Try(c) in s.entries
    ensures Tried(s, NextTry(c))
  {
    OneMoreSkipped(s, c.req.raw, c.i);
  }

  lemma RenameTried(s: State, c: nat, e: Errno)
    requires Inv(s) && TriedInv(s) && Enabled(s, Rename(c, e))
    ensures Tried(Apply(s, Rename(c, e)), Apply(s, Rename(c, e)).calls[c])
  {
    var t, call := Apply(s, Rename(c, e)), s.calls[c];
    assert CallInv(s, call) && Tried(s, call);
    EntriesGrow(s, Rename(c, e));
    RenameNext(s, c, e);
    SkippedGrows(s, t, call.req.raw, call.i);
    if e == Exists {
      NextTried(s, call);
    } else if e == Ok {
      assert FirstFree(t, call.req.raw, Try(call), call.i);
    }
  }

  lemma LinkTried(s: State, c: nat, e: Errno)
    requires Inv(s) && TriedInv(s) && Enabled(s, Link(c, e))
    ensures Tried(Apply(s, Link(c, e)), Apply(s, Link(c, e)).calls[c])
  {
    var t, call := Apply(s, Link(c, e)), s.calls[c];
    assert CallInv(s, call) && Tried(s, call);
    EntriesGrow(s, Link(c, e));
    LinkNext(s, c, e);
    SkippedGrows(s, t, call.req.raw, call.i);
    if e == Exists {
      NextTried(s, call);
    } else if e == Ok {
      assert FirstFree(t, call.req.raw, Try(call), call.i);
    }
  }

  lemma OthersTried(s: State, a: Action, i: nat)
    requires Enabled(s, a) && i < |s.calls| && Tried(s, s.calls[i]) && Grows(s, Apply(s, a))
    requires s.calls[i].Renaming? || s.calls[i].Linking? ==> s.calls[i].i < ATTEMPTS
    requires (a.Rename? || a.Link?) ==> i != a.c
    ensures i < |Apply(s, a).calls| && Tried(Apply(s, a), Apply(s, a).calls[i])
  {
    OthersNext(s, a, i);
    TriedFollows(s, Apply(s, a), s.calls[i], Apply(s, a).calls[i]);
  }

  lemma NewIsCopying(s: State, a: Action)
    requires Enabled(s, a) && |Apply(s, a).calls| > |s.calls|
    ensures |Apply(s, a).calls| == |s.calls| + 1
    ensures var c := Apply(s, a).calls[|s.calls|]; c.Copying? || c.GaveUp?
  {
  }

  /** Where the other actions leave a call. */
  predicate Follows(c: Call, d: Call) {
    || d == c || d.Copying? || (d.Renaming? && d.i == 0) || d.GaveUp? || d.Discarding?
    || (c.Unlinking? && d.Saved? && d.final == c.final && d.req == c.req)
  }

  lemma TriedFollows(s: State, t: State, c: Call, d: Call)
    requires Tried(s, c) && Grows(s, t) && (c.Renaming? || c.Linking? ==> c.i < ATTEMPTS) && Follows(c, d)
    ensures Tried(t, d)
  {
    TriedGrows(s, t, c);
  }

  /** The other actions leave a call where it is, start it on its candidates, end
      it, or keep the candidate it published under. */
  lemma OthersNext(s: State, a: Action, i: nat)
    requires Enabled(s, a) && i < |s.calls| && ((a.Rename? || a.Link?) ==> i != a.c)
    ensures i < |Apply(s, a).calls| && Follows(s.calls[i], Apply(s, a).calls[i])
  {
  }

  lemma TriedAt(s: State, i: nat)
    requires Inv(s) && TriedInv(s) && i < |s.calls|
    ensures Tried(s, s.calls[i]) && (s.calls[i].Renaming? || s.calls[i].Linking? ==> s.calls[i].i < ATTEMPTS)
  {
    assert CallInv(s, s.calls[i]);
  }

  /** The call that a rename or link is of. */
  predicate OwnTry(a: Action, i: int) { (a.Rename? || a.Link?) && i == a.c }

  lemma OwnTried(s: State, a: Action, i: nat)
    requires Inv(s) && TriedInv(s) && Enabled(s, a) && OwnTry(a, i)
    ensures i < |Apply(s, a).calls| && Tried(Apply(s, a), Apply(s, a).calls[i])
  {
    if a.Rename? {
      RenameTried(s, i, a.e);
    } else {
      LinkTried(s, i, a.e);
    }
  }

  lemma NewTried(s: State, a: Action, i: nat)
    requires Enabled(s, a) && |s.calls| <= i < |Apply(s, a).calls|
    ensures Tried(Apply(s, a), Apply(s, a).calls[i])
  {
    NewIsCopying(s, a);
    assert i == |s.calls|;
  }

  lemma TriedStep(s: State, a: Action)
    requires Inv(s) && TriedInv(s) && Enabled(s, a)
    ensures TriedInv(Apply(s, a))
  {
    EntriesGrow(s, a);
    forall i | 0 <= i < |Apply(s, a).calls| ensures Tried(Apply(s, a), Apply(s, a).calls[i]) {
      if OwnTry(a, i) {
        OwnTried(s, a, i);
      } else if i < |s.calls| {
        TriedAt(s, i);
        OthersTried(s, a, i);
      } else {
        NewTried(s, a, i);
      }
    }
  }

  lemma {:induction false} TriedKeeps(s: State, run: seq<Action>)
    requires Inv(s) && TriedInv(s) && Possible(s, run)
    ensures TriedInv(After(s, run))
    decreases |run|
  {
    if run != [] {
      Step(s, run[0]);
      TriedStep(s, run[0]);
      TriedKeeps(Apply(s, run[0]), run[1..]);
    }
  }

  /** In every interleaving a successful call's name is the first of its
      candidates that was free: all before it are in the folder. */
  lemma {:induction false} FirstFreeIsTaken(run: seq<Action>, c: nat)
    requires Possible(INIT, run) && c < |After(INIT, run).calls| && After(INIT, run).calls[c].Saved?
    ensures var t := After(INIT, run); exists i: nat :: FirstFree(t, t.calls[c].req.raw, t.calls[c].final, i)
  {
    TriedKeeps(INIT, run);
    assert Tried(After(INIT, run), After(INIT, run).calls[c]);
  }

  // ---- an upload succeeds ----

  /** A step of call c that does not fail. */
  function Onward(s: State, c: nat): Action
    requires c < |s.calls| && Live(s.calls[c])
  {
    var call := s.calls[c];
    match call
    case Copying(req, _, _, n) => if n < |req.data| then Copy(c, |req.data|) else CopyEnds(c)
    case Renaming(_, _, _, _) => Rename(c, if Try(call) in s.entries then Exists else Ok)
    case Linking(_, _, _, _) => Link(c, if Try(call) in s.entries then Exists else Ok)
    case Unlinking(_, _, _, _) => Unlink(c, true)
    case _ => Discard(c, true)
  }

  /** It has data within its limit, and a candidate it has not tried is free. */
  ghost predicate CanSave(s: State, c: nat, free: nat) {
    && c < |s.calls|
    && match s.calls[c]
       case Copying(req, _, _, _) =>
         |req.data| <= req.limit && free < ATTEMPTS && Candidate(Cleaned(req.raw), free) !in s.entries
       case Renaming(req, _, _, i) => i <= free < ATTEMPTS && Candidate(Cleaned(req.raw), free) !in s.entries
       case Linking(req, _, _, i) => i <= free < ATTEMPTS && Candidate(Cleaned(req.raw), free) !in s.entries
       case Unlinking(_, _, _, _) => true
       case Saved(_, _, _) => true
       case _ => false
  }

  /** Its steps until then, at most. */
  function StepsToSave(c: Call, free: nat): nat {
    match c
    case Copying(req, _, _, n) => free + 4 + if n < |req.data| then 1 else 0
    case Renaming(_, _, _, i) => if i <= free then free - i + 2 else 0
    case Linking(_, _, _, i) => if i <= free then free - i + 2 else 0
    case Unlinking(_, _, _, _) => 1
    case _ => 0
  }

  /** The step can happen and brings the call closer. */
  ghost predicate Closer(s: State, c: nat, free: nat, a: Action) {
    && c < |s.calls| && Enabled(s, a) && CanSave(Apply(s, a), c, free)
    && Apply(s, a).calls[c].req == s.calls[c].req
    && StepsToSave(Apply(s, a).calls[c], free) < StepsToSave(s.calls[c], free)
  }

  lemma CopyCloser(s: State, c: nat, free: nat)
    requires Inv(s) && CanSave(s, c, free) && s.calls[c].Copying?
    ensures Closer(s, c, free, Onward(s, c))
  {
    assert CallInv(s, s.calls[c]);
  }

  lemma RenameCloser(s: State, c: nat, free: nat, e: Errno)
    requires Inv(s) && CanSave(s, c, free) && s.calls[c].Renaming?
    requires e == if Try(s.calls[c]) in s.entries then Exists else Ok
    ensures Closer(s, c, free, Rename(c, e))
  {
    assert CallInv(s, s.calls[c]);
    RenameNext(s, c, e);
  }

  lemma LinkCloser(s: State, c: nat, free: nat, e: Errno)
    requires Inv(s) && CanSave(s, c, free) && s.calls[c].Linking?
    requires e == if Try(s.calls[c]) in s.entries then Exists else Ok
    ensures Closer(s, c, free, Link(c, e))
  {
    assert CallInv(s, s.calls[c]);
    LinkNext(s, c, e);
  }

  lemma UnlinkCloser(s: State, c: nat, free: nat)
    requires CanSave(s, c, free) && s.calls[c].Unlinking?
    ensures Closer(s, c, free, Unlink(c, true))
  {
  }

  lemma OnwardIsCloser(s: State, c: nat, free: nat)
    requires Inv(s) && CanSave(s, c, free) && !s.calls[c].Saved?
    ensures Closer(s, c, free, Onward(s, c))
  {
    match s.calls[c]
    case Copying(_, _, _, _) => CopyCloser(s, c, free);
    case Renaming(_, _, _, _) => RenameCloser(s, c, free, Onward(s, c).e);
    case Linking(_, _, _, _) => LinkCloser(s, c, free, Onward(s, c).e);
    case _ => UnlinkCloser(s, c, free);
  }

  /** From every reachable state an upload within its limit succeeds if no call
      of its own fails, nobody interferes and a candidate is free. */
  lemma {:induction false} UploadSucceeds(s: State, c: nat, free: nat) returns (run: seq<Action>)
    requires Inv(s) && CanSave(s, c, free)
    ensures Possible(s, run) && c < |After(s, run).calls|
    ensures After(s, run).calls[c].Saved? && After(s, run).calls[c].req == s.calls[c].req
    decreases StepsToSave(s.calls[c], free)
  {
    if s.calls[c].Saved? {
      run := [];
    } else {
      var a := Onward(s, c);
      OnwardIsCloser(s, c, free);
      Step(s, a);
      var rest := UploadSucceeds(Apply(s, a), c, free);
      run := [a] + rest;
      assert run[1..] == rest;
    }
  }

  /** A drive without the atomic rename is no failure: the upload goes on with
      links. */
  lemma UnsupportedGoesOn(s: State, c: nat, free: nat)
    requires Inv(s) && CanSave(s, c, free) && s.calls[c].Renaming?
    ensures Enabled(s, Rename(c, Unsupported)) && CanSave(Apply(s, Rename(c, Unsupported)), c, free)
    ensures Apply(s, Rename(c, Unsupported)).entries == s.entries
  {
    RenameNext(s, c, Unsupported);
  }

  lemma BegunCanSave(s: State, req: Request, suffix: string, free: nat)
    requires |req.data| <= req.limit && free < ATTEMPTS && Candidate(Cleaned(req.raw), free) !in s.entries
    requires TEMP_PREFIX + suffix !in s.entries
    ensures var t := Apply(s, Begin(req, suffix));
            CanSave(t, |s.calls|, free) && t.calls[|s.calls|].req == req
  {
    CandidateIsSafe(req.raw, free);
    assert IsTemp(TEMP_PREFIX + suffix);
  }

  /** So an upload begun in any reachable state can succeed. */
  lemma {:induction false} UploadCanSucceed(first: seq<Action>, req: Request, suffix: string, free: nat)
    returns (run: seq<Action>)
    requires Possible(INIT, first) && |req.data| <= req.limit && free < ATTEMPTS
    requires Candidate(Cleaned(req.raw), free) !in After(INIT, first).entries
    requires TEMP_PREFIX + suffix !in After(INIT, first).entries
    ensures Possible(After(INIT, first), run)
    ensures var c, t := |After(INIT, first).calls|, After(After(INIT, first), run);
            c < |t.calls| && t.calls[c].Saved? && t.calls[c].req == req
  {
    var s, a := After(INIT, first), Begin(req, suffix);
    RunKeeps(INIT, first);
    BegunCanSave(s, req, suffix, free);
    Step(s, a);
    var rest := UploadSucceeds(Apply(s, a), |s.calls|, free);
    run := [a] + rest;
    assert run[1..] == rest;
  }

  // ---- nothing is left over ----

  /** No other program makes temporary names, and removing one works. */
  predicate Tidy(a: Action) {
    match a
    case AddFile(name, _) => !IsTemp(name)
    case Unlink(_, done) => done
    case Discard(_, done) => done
    case _ => true
  }

  /** Every temporary name is a running call's. */
  ghost predicate Owned(s: State) {
    forall n :: n in s.entries && IsTemp(n) ==> exists c :: 0 <= c < |s.calls| && Owns(s.calls[c], n)
  }

  predicate Owns(c: Call, n: string) { Live(c) && c.tmp == n }

  /** An action that leaves the other calls as they are, and at most its own
      call's name goes with it. */
  lemma OwnedUpdate(s: State, t: State, c: nat, next: Call)
    requires Owned(s) && c < |s.calls| && t.calls == s.calls[c := next]
    requires forall n :: n in t.entries && IsTemp(n) ==> n in s.entries
    requires Live(s.calls[c]) && (s.calls[c].tmp in t.entries ==> Owns(next, s.calls[c].tmp))
    ensures Owned(t)
  {
    forall n | n in t.entries && IsTemp(n) ensures exists i :: 0 <= i < |t.calls| && Owns(t.calls[i], n) {
      var i :| 0 <= i < |s.calls| && Owns(s.calls[i], n);
      assert Owns(t.calls[i], n);
    }
  }

  lemma OwnedNew(s: State, t: State)
    requires Owned(s) && s.calls <= t.calls
    requires forall n :: n in t.entries && IsTemp(n) && n !in s.entries ==>
               exists i :: 0 <= i < |t.calls| && Owns(t.calls[i], n)
    ensures Owned(t)
  {
    forall n | n in t.entries && IsTemp(n) ensures exists i :: 0 <= i < |t.calls| && Owns(t.calls[i], n) {
      if n in s.entries {
        var i :| 0 <= i < |s.calls| && Owns(s.calls[i], n);
        assert Owns(t.calls[i], n);
      }
    }
  }

  lemma OwnedRename(s: State, c: nat, e: Errno)
    requires Inv(s) && Owned(s) && Enabled(s, Rename(c, e))
    ensures Owned(Apply(s, Rename(c, e)))
  {
    assert CallInv(s, s.calls[c]);
    RenameNext(s, c, e);
    CandidateIsSafe(s.calls[c].req.raw, s.calls[c].i);
    OwnedUpdate(s, Apply(s, Rename(c, e)), c, Apply(s, Rename(c, e)).calls[c]);
  }

  lemma OwnedLink(s: State, c: nat, e: Errno)
    requires Inv(s) && Owned(s) && Enabled(s, Link(c, e))
    ensures Owned(Apply(s, Link(c, e)))
  {
    assert CallInv(s, s.calls[c]);
    LinkNext(s, c, e);
    CandidateIsSafe(s.calls[c].req.raw, s.calls[c].i);
    OwnedUpdate(s, Apply(s, Link(c, e)), c, Apply(s, Link(c, e)).calls[c]);
  }

  lemma OwnedBegin(s: State, req: Request, suffix: string)
    requires Owned(s)
    ensures Owned(Apply(s, Begin(req, suffix)))
  {
    var t, tmp := Apply(s, Begin(req, suffix)), TEMP_PREFIX + suffix;
    if tmp !in s.entries {
      assert Owns(t.calls[|s.calls|], tmp);
    }
    OwnedNew(s, t);
  }

  lemma OwnedStep(s: State, a: Action)
    requires Inv(s) && Owned(s) && Enabled(s, a) && Tidy(a)
    ensures Owned(Apply(s, a))
  {
    match a
    case AddFile(_, _) => OwnedNew(s, Apply(s, a));
    case Begin(req, suffix) => OwnedBegin(s, req, suffix);
    case Rename(c, e) => OwnedRename(s, c, e);
    case Link(c, e) => OwnedLink(s, c, e);
    case _ => OwnedUpdate(s, Apply(s, a), a.c, Apply(s, a).calls[a.c]);
  }

  lemma {:induction false} OwnedKeeps(s: State, run: seq<Action>)
    requires Inv(s) && Owned(s) && Possible(s, run) && forall i :: 0 <= i < |run| ==> Tidy(run[i])
    ensures Owned(After(s, run))
    decreases |run|
  {
    if run != [] {
      Step(s, run[0]);
      OwnedStep(s, run[0]);
      assert forall i :: 0 <= i < |run[1..]| ==> run[1..][i] == run[i + 1];
      OwnedKeeps(Apply(s, run[0]), run[1..]);
    }
  }

  /** Once all calls are through, no temporary file is left, unless one could not
      be removed. */
  lemma {:induction false} NothingIsLeftOver(run: seq<Action>, n: string)
    requires Possible(INIT, run) && forall i :: 0 <= i < |run| ==> Tidy(run[i])
    requires forall c :: 0 <= c < |After(INIT, run).calls| ==> !Live(After(INIT, run).calls[c])
    ensures n in After(INIT, run).entries ==> !IsTemp(n)
  {
    OwnedKeeps(INIT, run);
  }
}
