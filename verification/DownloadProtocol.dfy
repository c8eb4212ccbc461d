/** Downloads through one download or share link, interleaved one SQL
    statement or mutex section at a time (internal/transfer/serve_download.go).
    An (address, item) pair is counted once and may then resume. */
module DownloadProtocol {
  import opened Options
  import opened LinkStore
  import Sets

  type Pair = (string, string) // client address, item key

  /** Where one request stands. late: its lookup came after revocation or
      expiry. */
  datatype Request =
    | Arrived(pair: Pair, get: bool)
    | Looked(pair: Pair, get: bool, result: Lookup, late: bool)   // wasCounted is next
    | Admitted(pair: Pair, get: bool, counted: bool)              // gates and Stat are next, then count
    | Paid(pair: Pair, expiresAt: int)                            // Reserve done; the counted map is next
    | Sending(pair: Pair, get: bool)
    | Refused(pair: Pair, late: bool)
    | Sent(pair: Pair)

  /** served and paid are history: pairs that got content, pairs that used up
      a download; reserves counts the Reserves that took effect. */
  datatype State = State(
    row: Option<Session>, maxFiles: int, now: int, counted: map<Pair, int>, requests: seq<Request>,
    served: set<Pair>, paid: set<Pair>, reserves: nat)

  datatype Action =
    | Arrive(pair: Pair, get: bool)
    | LookUp(r: nat, guessing: bool)      // guessing: the address is locked out for wrong tokens
    | CheckCounted(r: nat)
    | Gate(r: nat)                        // wrong password, file missing, drive offline
    | Begin(r: nat, reported: bool, applied: bool) // Reserve if needed; a call may fail with or without its effect
    | Remember(r: nat, size: nat, recorded: bool)
    | Send(r: nat)
    | Tick(to: int)
    | Revoke
    | Prune
    | PruneCounted

  predicate Fresh(s: State) {
    s.row.Some? && s.row.value.files == 0 && s.row.value.maxFiles == s.maxFiles >= 0 && s.counted == map[]
    && s.requests == [] && s.served == {} && s.paid == {} && s.reserves == 0
  }

  predicate Over(s: State) { s.row.None? || s.row.value.revoked || s.now >= s.row.value.expiresAt }

  /** wasCounted. */
  predicate WasCounted(s: State, p: Pair) { p in s.counted && s.now < s.counted[p] }

  predicate Enabled(s: State, a: Action) {
    match a
    case Arrive(_, _) => true
    case LookUp(r, _) => r < |s.requests| && s.requests[r].Arrived?
    case CheckCounted(r) => r < |s.requests| && s.requests[r].Looked?
    case Gate(r) => r < |s.requests| && s.requests[r].Admitted?
    case Begin(r, reported, applied) =>
      && r < |s.requests| && s.requests[r].Admitted?
      && (reported ==> applied) && (applied ==> s.row.Some? && CanReserve(s.row.value))
    case Remember(r, _, _) => r < |s.requests| && s.requests[r].Paid?
    case Send(r) => r < |s.requests| && s.requests[r].Sending?
    case Tick(to) => s.now <= to
    case Revoke => true
    case Prune => s.row.Some? ==> s.row.value.expiresAt < s.now - WEEK_MS
    case PruneCounted => true
  }

  /** usable, after its lookup answered: whether the request goes on, and
      whether it counts as already downloaded. */
  function Admit(s: State, q: Request): Request
    requires q.Looked?
  {
    match q.result
    case Usable(_) => Admitted(q.pair, q.get, WasCounted(s, q.pair))
    case UsedUp(_) => if WasCounted(s, q.pair) then Admitted(q.pair, q.get, true) else Refused(q.pair, q.late)
    case _ => Refused(q.pair, q.late)
  }

  function Apply(s: State, a: Action): State
    requires Enabled(s, a)
  {
    match a
    case Arrive(pair, get) => s.(requests := s.requests + [Arrived(pair, get)])
    case LookUp(r, guessing) =>
      var q := s.requests[r];
      var result := if guessing || s.row.None? then NotFound else Verdict(s.row.value, s.now);
      s.(requests := s.requests[r := Looked(q.pair, q.get, result, Over(s))])
    case CheckCounted(r) => s.(requests := s.requests[r := Admit(s, s.requests[r])])
    case Gate(r) => s.(requests := s.requests[r := Refused(s.requests[r].pair, false)])
    case Begin(r, reported, applied) =>
      var q := s.requests[r];
      if q.counted || !q.get then s.(requests := s.requests[r := Sending(q.pair, q.get)])
      else
        var t := if applied then s.(row := Some(Reserved(s.row.value)), reserves := s.reserves + 1) else s;
        if reported then
          t.(paid := s.paid + {q.pair}, requests := s.requests[r := Paid(q.pair, s.row.value.expiresAt)])
        else t.(requests := s.requests[r := Refused(q.pair, false)])
    case Remember(r, size, recorded) =>
      var q := s.requests[r];
      s.(counted := s.counted[q.pair := q.expiresAt],
         row := if recorded && s.row.Some? then Some(Charged(s.row.value, size)) else s.row,
         requests := s.requests[r := Sending(q.pair, true)])
    case Send(r) =>
      var q := s.requests[r];
      s.(served := if q.get then s.served + {q.pair} else s.served, requests := s.requests[r := Sent(q.pair)])
    case Tick(to) => s.(now := to)
    case Revoke => s.(row := if s.row.Some? then Some(s.row.value.(revoked := true)) else None)
    case Prune => s.(row := None)
    case PruneCounted => s.(counted := map p | p in s.counted && s.now < s.counted[p] :: s.counted[p])
  }

  // ---- the invariant ----

  ghost predicate RequestInv(s: State, q: Request) {
    match q
    case Admitted(p, get, counted) => counted ==> p in s.paid
    case Paid(p, _) => p in s.paid
    case Sending(p, get) => get ==> p in s.paid
    case Looked(_, _, result, late) => late ==> !result.Usable? && !result.UsedUp?
    case _ => true
  }

  ghost predicate Inv(s: State) {
    && s.served <= s.paid
    && |s.paid| <= s.reserves <= s.maxFiles
    && (forall p :: p in s.counted ==> p in s.paid)
    && (s.row.Some? ==> s.row.value.maxFiles == s.maxFiles && s.row.value.files == s.reserves)
    && (forall i :: 0 <= i < |s.requests| ==> RequestInv(s, s.requests[i]))
  }

  lemma Step(s: State, a: Action)
    requires Inv(s) && Enabled(s, a)
    ensures Inv(Apply(s, a))
  {
    var t := Apply(s, a);
    if a.Send? {
      assert RequestInv(s, s.requests[a.r]);
    }
    if a.Remember? {
      assert RequestInv(s, s.requests[a.r]);
    }
    forall i | 0 <= i < |t.requests| ensures RequestInv(t, t.requests[i]) {
      if i < |s.requests| {
        assert RequestInv(s, s.requests[i]);
      }
    }
  }

  predicate Possible(s: State, run: seq<Action>)
    decreases |run|
  {
    run == [] || (Enabled(s, run[0]) && Possible(Apply(s, run[0]), run[1..]))
  }

  function After(s: State, run: seq<Action>): State
    requires Possible(s, run)
    decreases |run|
  {
    if run == [] then s else After(Apply(s, run[0]), run[1..])
  }

  lemma {:induction false} RunKeeps(s: State, run: seq<Action>)
    requires Possible(s, run) && Inv(s)
    ensures Inv(After(s, run)) && After(s, run).maxFiles == s.maxFiles
    decreases |run|
  {
    if run != [] {
      Step(s, run[0]);
      RunKeeps(Apply(s, run[0]), run[1..]);
    }
  }

  /** In every interleaving, the pairs ever sent content number at most the
      link's files count, which is at most max_files. */
  lemma ServedIsBounded(init: State, run: seq<Action>)
    requires Fresh(init) && Possible(init, run)
    ensures var t := After(init, run);
            && |t.served| <= t.reserves <= init.maxFiles
            && (t.row.Some? ==> |t.served| <= t.row.value.files <= t.row.value.maxFiles)
  {
    RunKeeps(init, run);
    Sets.SubsetCount(After(init, run).served, After(init, run).paid);
  }

  // ---- lookups after the end of the link ----

  /** A request whose lookup came too late is refused and stays refused. */
  ghost predicate TooLate(q: Request) {
    (q.Looked? && q.late && !q.result.Usable? && !q.result.UsedUp?) || (q.Refused? && q.late)
  }

  lemma {:induction false} LateStays(s: State, run: seq<Action>, r: nat)
    requires Possible(s, run) && r < |s.requests| && TooLate(s.requests[r])
    ensures r < |After(s, run).requests| && TooLate(After(s, run).requests[r])
    decreases |run|
  {
    if run != [] {
      LateStays(Apply(s, run[0]), run[1..], r);
    }
  }

  /** A lookup made after revocation, expiry or pruning never leads to any
      content, whatever happens next. */
  lemma LateLookupIsNeverServed(s: State, r: nat, guessing: bool, run: seq<Action>)
    requires Enabled(s, LookUp(r, guessing)) && Over(s)
    requires Possible(Apply(s, LookUp(r, guessing)), run)
    ensures var t := After(Apply(s, LookUp(r, guessing)), run);
            r < |t.requests| && !t.requests[r].Sending? && !t.requests[r].Sent?
  {
    LateStays(Apply(s, LookUp(r, guessing)), run, r);
  }

  /** The link stays over once it is. */
  lemma {:induction false} OverStays(s: State, run: seq<Action>)
    requires Possible(s, run) && Over(s)
    ensures Over(After(s, run))
    decreases |run|
  {
    if run != [] {
      OverStays(Apply(s, run[0]), run[1..]);
    }
  }

  // ---- who gets past the lookup ----

  /** What a lookup answered does not change while it waits for the counted
      check, and no request comes back to this point. */
  lemma {:induction false} LookedStays(s: State, run: seq<Action>, r: nat)
    requires Possible(s, run) && r < |s.requests| && !s.requests[r].Arrived?
    ensures r < |After(s, run).requests|
    ensures After(s, run).requests[r].Looked? ==> After(s, run).requests[r] == s.requests[r]
    ensures !s.requests[r].Looked? ==> !After(s, run).requests[r].Looked?
    decreases |run|
  {
    if run != [] {
      LookedStays(Apply(s, run[0]), run[1..], r);
    }
  }

  /** Exactly which requests get past the lookup and the counted check,
      whatever comes between the two: the link was not over at the lookup, and
      either it had downloads left then or the pair is counted now. */
  lemma {:induction false} AdmittedExactly(s: State, r: nat, mid: seq<Action>)
    requires Enabled(s, LookUp(r, false)) && Possible(Apply(s, LookUp(r, false)), mid)
    requires var u := After(Apply(s, LookUp(r, false)), mid); r < |u.requests| && u.requests[r].Looked?
    ensures var u := After(Apply(s, LookUp(r, false)), mid);
            var q, p := Apply(u, CheckCounted(r)).requests[r], s.requests[r].pair;
            && (q.Admitted? <==> !Over(s) && (CanReserve(s.row.value) || WasCounted(u, p)))
            && (q.Admitted? ==> q.pair == p && (q.counted <==> WasCounted(u, p)))
  {
    LookedStays(Apply(s, LookUp(r, false)), mid, r);
  }

  // ---- resuming ----

  /** Until the link's end, exp, every pair that got content is counted, and so
      is every pair about to get some without paying. */
  ghost predicate ResumeInv(s: State, exp: int) {
    && (s.row.Some? ==> s.row.value.expiresAt == exp)
    && (forall p :: p in s.counted ==> s.counted[p] == exp)
    && (s.now < exp ==> forall p :: p in s.served ==> p in s.counted)
    && (forall i :: 0 <= i < |s.requests| ==> KnownPair(s, s.requests[i], exp))
  }

  ghost predicate KnownPair(s: State, q: Request, exp: int) {
    match q
    case Admitted(p, _, counted) => counted && s.now < exp ==> p in s.counted
    case Paid(_, expiresAt) => expiresAt == exp
    case Sending(p, get) => get && s.now < exp ==> p in s.counted
    case _ => true
  }

  lemma ResumeStep(s: State, a: Action, exp: int)
    requires ResumeInv(s, exp) && Enabled(s, a)
    ensures ResumeInv(Apply(s, a), exp)
  {
    var t := Apply(s, a);
    if a.Send? || a.Remember? {
      assert KnownPair(s, s.requests[a.r], exp);
    }
    forall i | 0 <= i < |t.requests| ensures KnownPair(t, t.requests[i], exp) {
      if i < |s.requests| {
        assert KnownPair(s, s.requests[i], exp);
      }
    }
  }

  lemma {:induction false} ResumeKeeps(s: State, run: seq<Action>, exp: int)
    requires Possible(s, run) && ResumeInv(s, exp)
    ensures ResumeInv(After(s, run), exp) && s.now <= After(s, run).now && s.served <= After(s, run).served
    decreases |run|
  {
    if run != [] {
      ResumeStep(s, run[0], exp);
      ResumeKeeps(Apply(s, run[0]), run[1..], exp);
    }
  }

  /** In every interleaving a pair that ever got content is counted until the
      link's end, even after it is revoked or pruned. */
  lemma {:induction false} ServedIsCounted(init: State, run: seq<Action>, p: Pair)
    requires Fresh(init) && Possible(init, run)
    requires p in After(init, run).served && After(init, run).now < init.row.value.expiresAt
    ensures WasCounted(After(init, run), p)
  {
    ResumeKeeps(init, run, init.row.value.expiresAt);
  }

  /** On its way to the content without using up a download. */
  predicate Resuming(q: Request) {
    match q
    case Looked(_, _, result, _) => result.Usable? || result.UsedUp?
    case Admitted(_, _, counted) => counted
    case Sending(_, _) => true
    case Sent(_) => true
    case _ => false
  }

  /** A resuming request of a served pair goes on to the content, unless a gate
      refuses it; nothing another request, a revocation or the collection does
      stops it before the link's end. */
  lemma ResumingStep(s: State, a: Action, r: nat, exp: int)
    requires ResumeInv(s, exp) && s.now < exp && Enabled(s, a) && a != Gate(r)
    requires r < |s.requests| && Resuming(s.requests[r]) && s.requests[r].pair in s.served
    ensures var t := Apply(s, a); Resuming(t.requests[r]) && t.requests[r].pair == s.requests[r].pair
  {
  }

  lemma {:induction false} ResumingStays(s: State, run: seq<Action>, r: nat, exp: int)
    requires Possible(s, run) && ResumeInv(s, exp) && After(s, run).now < exp
    requires r < |s.requests| && Resuming(s.requests[r]) && s.requests[r].pair in s.served
    ensures r < |After(s, run).requests| && (Resuming(After(s, run).requests[r]) || Gate(r) in run)
    decreases |run|
  {
    if run != [] && run[0] != Gate(r) {
      var t := Apply(s, run[0]);
      ResumeStep(s, run[0], exp);
      ResumeKeeps(s, run, exp);
      ResumeKeeps(t, run[1..], exp);
      ResumingStep(s, run[0], r, exp);
      ResumingStays(t, run[1..], r, exp);
    } else if run != [] {
      RequestsGrow(s, run);
    }
  }

  lemma {:induction false} RequestsGrow(s: State, run: seq<Action>)
    requires Possible(s, run)
    ensures |s.requests| <= |After(s, run).requests|
    decreases |run|
  {
    if run != [] {
      RequestsGrow(Apply(s, run[0]), run[1..]);
    }
  }

  /** A device that got an item can resume it, in every interleaving: a request
      of a served pair, looked up while the link is not over (used up or not),
      is never refused before the link's end except at a gate. */
  lemma {:induction false} CountedPairResumes(init: State, run: seq<Action>, r: nat, mid: seq<Action>)
    requires Fresh(init) && Possible(init, run)
    requires var s := After(init, run); Enabled(s, LookUp(r, false)) && s.requests[r].pair in s.served && !Over(s)
    requires Possible(Apply(After(init, run), LookUp(r, false)), mid)
    requires After(Apply(After(init, run), LookUp(r, false)), mid).now < init.row.value.expiresAt
    ensures var u := After(Apply(After(init, run), LookUp(r, false)), mid);
            r < |u.requests| && (Resuming(u.requests[r]) || Gate(r) in mid)
  {
    var exp, s := init.row.value.expiresAt, After(init, run);
    ResumeKeeps(init, run, exp);
    ResumeStep(s, LookUp(r, false), exp);
    ResumingStays(Apply(s, LookUp(r, false)), mid, r, exp);
  }

  /** Once admitted as counted, no interleaving keeps a request from its
      content, even past the link's end; only a gate does. */
  lemma {:induction false} CountedRequestGoesOn(s: State, run: seq<Action>, r: nat)
    requires Possible(s, run) && r < |s.requests|
    requires (s.requests[r].Admitted? && s.requests[r].counted) || s.requests[r].Sending? || s.requests[r].Sent?
    ensures r < |After(s, run).requests|
    ensures var q := After(s, run).requests[r];
            (q.Admitted? && q.counted) || q.Sending? || q.Sent? || Gate(r) in run
    decreases |run|
  {
    if run != [] && run[0] != Gate(r) {
      CountedRequestGoesOn(Apply(s, run[0]), run[1..], r);
    } else if run != [] {
      RequestsGrow(s, run);
    }
  }

  /** Its own steps to the content. */
  function StepsLeft(q: Request): nat {
    if q.Looked? then 3 else if q.Admitted? then 2 else if q.Sending? then 1 else 0
  }

  function NextStep(q: Request, r: nat): Action {
    if q.Looked? then CheckCounted(r) else if q.Admitted? then Begin(r, false, false) else Send(r)
  }

  /** It is never blocked: its next step can happen and brings it closer; the
      last one sends the content. */
  lemma ResumingAdvances(s: State, r: nat, exp: int)
    requires ResumeInv(s, exp) && s.now < exp && r < |s.requests|
    requires Resuming(s.requests[r]) && s.requests[r].pair in s.served && !s.requests[r].Sent?
    ensures var a := NextStep(s.requests[r], r);
            && Enabled(s, a)
            && Resuming(Apply(s, a).requests[r])
            && StepsLeft(Apply(s, a).requests[r]) < StepsLeft(s.requests[r])
            && (StepsLeft(s.requests[r]) == 1 <==> Apply(s, a).requests[r].Sent?)
  {
  }

  /** Who acts. */
  function Actor(a: Action): Option<nat> {
    match a
    case LookUp(r, _) => Some(r)
    case CheckCounted(r) => Some(r)
    case Gate(r) => Some(r)
    case Begin(r, _, _) => Some(r)
    case Remember(r, _, _) => Some(r)
    case Send(r) => Some(r)
    case _ => None
  }

  /** And it uses up nothing: none of its own steps touches the link's row or
      counts as another download. */
  lemma ResumingIsFree(s: State, a: Action, r: nat)
    requires Enabled(s, a) && Actor(a) == Some(r) && Resuming(s.requests[r])
    ensures Apply(s, a).row == s.row && Apply(s, a).reserves == s.reserves && Apply(s, a).paid == s.paid
  {
  }

  /** A HEAD request: no part of it counts as a download. */
  predicate Head(q: Request) {
    match q
    case Arrived(_, get) => !get
    case Looked(_, get, _, _) => !get
    case Admitted(_, get, _) => !get
    case Sending(_, get) => !get
    case _ => false
  }

  /** Its own steps use up nothing and serve no content. */
  lemma HeadIsFree(s: State, a: Action, r: nat)
    requires Enabled(s, a) && Actor(a) == Some(r) && Head(s.requests[r])
    ensures var t := Apply(s, a);
            && t.row == s.row && t.reserves == s.reserves && t.paid == s.paid && t.served == s.served
            && t.counted == s.counted
            && (Head(t.requests[r]) || t.requests[r].Refused? || t.requests[r].Sent?)
  {
  }

  /** A link that was revoked or pruned is never counted for another download,
      in any interleaving. */
  lemma {:induction false} RevokedUsesNothing(s: State, run: seq<Action>)
    requires Possible(s, run) && (s.row.None? || s.row.value.revoked)
    ensures var t := After(s, run); t.reserves == s.reserves && (t.row.None? || t.row.value.revoked)
    decreases |run|
  {
    if run != [] {
      RevokedUsesNothing(Apply(s, run[0]), run[1..]);
    }
  }

  /** Turned away, or about to be. */
  predicate TurnedAway(q: Request) { (q.Looked? && q.result.NotFound?) || q.Refused? }

  lemma {:induction false} TurnedStays(s: State, run: seq<Action>, r: nat)
    requires Possible(s, run) && r < |s.requests| && TurnedAway(s.requests[r])
    ensures r < |After(s, run).requests| && TurnedAway(After(s, run).requests[r])
    decreases |run|
  {
    if run != [] {
      TurnedStays(Apply(s, run[0]), run[1..], r);
    }
  }

  /** A request from an address locked out for wrong tokens, or for a link that
      is gone, is never admitted, whatever happens next. */
  lemma {:induction false} GuesserIsNeverServed(s: State, r: nat, guessing: bool, run: seq<Action>)
    requires Enabled(s, LookUp(r, guessing)) && (guessing || s.row.None?)
    requires Possible(Apply(s, LookUp(r, guessing)), run)
    ensures var t := After(Apply(s, LookUp(r, guessing)), run);
            r < |t.requests| && !t.requests[r].Admitted? && !t.requests[r].Sending? && !t.requests[r].Sent?
  {
    TurnedStays(Apply(s, LookUp(r, guessing)), run, r);
  }

  // ---- a first download ----

  /** The steps of a first download. */
  function FirstSteps(p: Pair, r: nat, size: nat): seq<Action> {
    [Arrive(p, true), LookUp(r, false), CheckCounted(r), Begin(r, true, true), Remember(r, size, true), Send(r)]
  }

  /** While a link is not over and has downloads left, a pair that was not
      counted is served by these steps, in any reachable state, and uses up
      exactly one download. */
  lemma {:induction false} FirstDownloadIsServed(s: State, p: Pair, size: nat)
    requires !Over(s) && CanReserve(s.row.value) && !WasCounted(s, p)
    ensures var run, r := FirstSteps(p, |s.requests|, size), s.row.value;
            && Possible(s, run)
            && var t := After(s, run);
            && p in t.served && WasCounted(t, p) && t.reserves == s.reserves + 1
            && t.row == Some(r.(files := r.files + 1, bytes := r.bytes + size))
  {
    var r := |s.requests|;
    var run := FirstSteps(p, r, size);
    var s1 := Apply(s, run[0]);
    var s2 := Apply(s1, run[1]);
    var s3 := Apply(s2, run[2]);
    assert s3.requests[r] == Admitted(p, true, false);
    var s4 := Apply(s3, run[3]);
    var s5 := Apply(s4, run[4]);
    var s6 := Apply(s5, run[5]);
    SixSteps(s, run, s1, s2, s3, s4, s5, s6);
  }

  lemma SixSteps(s: State, run: seq<Action>, s1: State, s2: State, s3: State, s4: State, s5: State, s6: State)
    requires |run| == 6
    requires Enabled(s, run[0]) && s1 == Apply(s, run[0]) && Enabled(s1, run[1]) && s2 == Apply(s1, run[1])
    requires Enabled(s2, run[2]) && s3 == Apply(s2, run[2]) && Enabled(s3, run[3]) && s4 == Apply(s3, run[3])
    requires Enabled(s4, run[4]) && s5 == Apply(s4, run[4]) && Enabled(s5, run[5]) && s6 == Apply(s5, run[5])
    ensures Possible(s, run) && After(s, run) == s6
  {
    LastStep(s5, run[5..], s6);
    FirstStep(s4, run[4..], s5);
    FirstStep(s3, run[3..], s4);
    FirstStep(s2, run[2..], s3);
    FirstStep(s1, run[1..], s2);
    FirstStep(s, run, s1);
  }

  lemma LastStep(s: State, run: seq<Action>, t: State)
    requires |run| == 1 && Enabled(s, run[0]) && t == Apply(s, run[0])
    ensures Possible(s, run) && After(s, run) == t
  {
    assert run[1..] == [];
  }

  lemma FirstStep(s: State, run: seq<Action>, t: State)
    requires run != [] && Enabled(s, run[0]) && t == Apply(s, run[0]) && Possible(t, run[1..])
    ensures Possible(s, run) && After(s, run) == After(t, run[1..])
  {
  }

  /** Dropping expired entries is unobservable now and at any later time. */
  lemma PruningIsUnobservable(s: State, p: Pair, later: int)
    requires s.now <= later
    ensures WasCounted(s.(now := later), p) == WasCounted(Apply(s, PruneCounted).(now := later), p)
  {
  }

  // ---- the key of the counted map ----

  /** The map is keyed by one string, session|address|item. */
  function Key(session: string, address: string, item: string): string { session + "|" + address + "|" + item }

  lemma BarSplit(a: string, x: string, b: string, y: string)
    requires '|' !in a && '|' !in b && a + "|" + x == b + "|" + y
    ensures a == b && x == y
  {
    var s := a + "|" + x;
    assert s[|a|] == '|' && forall k :: 0 <= k < |a| ==> s[k] == a[k] && s[k] != '|';
    assert s[|b|] == '|' && forall k :: 0 <= k < |b| ==> s[k] == b[k] && s[k] != '|';
    assert s[..|a|] == a && s[..|b|] == b;
    assert s[|a| + 1..] == x && s[|b| + 1..] == y;
  }

  /** Session ids and addresses hold no bar, so distinct triples have distinct
      keys even though an item is any string. */
  lemma KeyIsInjective(s1: string, a1: string, i1: string, s2: string, a2: string, i2: string)
    requires '|' !in s1 && '|' !in s2 && '|' !in a1 && '|' !in a2
    requires Key(s1, a1, i1) == Key(s2, a2, i2)
    ensures s1 == s2 && a1 == a2 && i1 == i2
  {
    assert Key(s1, a1, i1) == s1 + "|" + (a1 + "|" + i1);
    assert Key(s2, a2, i2) == s2 + "|" + (a2 + "|" + i2);
    BarSplit(s1, a1 + "|" + i1, s2, a2 + "|" + i2);
    BarSplit(a1, i1, a2, i2);
  }
}

/** The counted map itself and the sequential form of count
    (internal/transfer/serve_download.go). */
module Counting {
  import opened LinkStore
  import DownloadProtocol

  class Counts {
    var counted: map<string, int>

    constructor ()
      ensures counted == map[]
    {
      counted := map[];
    }

    method WasCounted(id: string, ip: string, item: string, now: int) returns (b: bool)
      ensures var k := DownloadProtocol.Key(id, ip, item); b <==> k in counted && now < counted[k]
    {
      var k := DownloadProtocol.Key(id, ip, item);
      b := k in counted && now < counted[k];
    }

    /** count: a reported success has used up and remembered one download, and
        logged it together with its bytes or not at all; a reported failure
        remembers and logs nothing. With a reliable database it succeeds exactly
        if the link has a download left, and a failure changes nothing. */
    method Count(store: Store, id: string, ip: string, item: string, now: int, name: string, size: nat)
      returns (ok: bool)
      modifies this, store
      ensures ok ==>
                && id in old(store.sessions) && CanReserve(old(store.sessions)[id])
                && counted == old(counted)[DownloadProtocol.Key(id, ip, item) := old(store.sessions)[id].expiresAt]
      ensures ok ==>
                || (store.sessions == old(store.sessions)[id := Reserved(old(store.sessions)[id])]
                   && store.activity == old(store.activity))
                || (store.sessions == old(store.sessions)[id := Charged(Reserved(old(store.sessions)[id]), size)]
                    && store.activity == old(store.activity) + [Item(now, id, name, size)])
      ensures !ok ==>
                && counted == old(counted) && store.activity == old(store.activity)
                && (store.sessions == old(store.sessions)
                    || (id in old(store.sessions)
                       && store.sessions == old(store.sessions)[id := Reserved(old(store.sessions)[id])]))
      ensures store.reliable ==>
                && (ok <==> id in old(store.sessions) && CanReserve(old(store.sessions)[id]))
                && (ok ==> store.activity == old(store.activity) + [Item(now, id, name, size)])
                && (!ok ==> store.sessions == old(store.sessions))
    {
      ok := store.Reserve(id);
      if ok {
        counted := counted[DownloadProtocol.Key(id, ip, item) := store.sessions[id].expiresAt];
        var err := store.Record(id, now, name, size);
      }
    }

    method PruneGrants(now: int)
      modifies this
      ensures counted == map k | k in old(counted) && now < old(counted)[k] :: old(counted)[k]
    {
      var todo := counted.Keys;
      while todo != {}
        invariant todo <= counted.Keys
        invariant forall k :: k in counted ==> k in old(counted) && counted[k] == old(counted)[k]
        invariant forall k :: k in old(counted) && k !in todo ==> (k in counted <==> now < old(counted)[k])
        decreases |todo|
      {
        var k :| k in todo;
        todo := todo - {k};
        if now >= counted[k] {
          counted := counted - {k};
        }
      }
    }
  }
}
