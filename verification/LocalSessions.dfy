/** Login codes and browser sessions (internal/auth/local.go). Codes and
    session ids are random and only their hashes are kept; here they are
    values never used before. Times are seconds. */
module LocalSessions {

  type Id = nat
  datatype Identity = Identity(username: string, role: string, local: bool)
  datatype Entry = Entry(exp: int, id: Identity)
  type Table = map<Id, Entry>

  const CODE_TTL := 30
  const SESSION_TTL := 12 * 3600
  const MAX_SESSIONS := 64
  const MAX_CODES := 16

  /** gc on one table. */
  function Live(t: Table, now: int): Table {
    map k | k in t && now <= t[k].exp :: t[k]
  }

  /** What Redeem and Session ask of an entry; they differ at the last instant. */
  predicate Redeemable(t: Table, code: Id, now: int) { code in t && now <= t[code].exp }
  predicate SignedIn(t: Table, sid: Id, now: int) { sid in t && now < t[sid].exp }

  /** gc removes only entries that would be refused now and ever after. */
  lemma CollectionIsUnobservable(t: Table, k: Id, now: int, later: int)
    requires now <= later
    ensures Redeemable(Live(t, now), k, later) <==> Redeemable(t, k, later)
    ensures SignedIn(Live(t, now), k, later) <==> SignedIn(t, k, later)
    ensures k in t && k !in Live(t, now) ==> !Redeemable(t, k, now) && !SignedIn(t, k, now)
  {
  }

  lemma {:induction false} SmallerMap(a: Table, b: Table)
    requires a.Keys <= b.Keys
    ensures |a| <= |b|
  {
    assert b.Keys == a.Keys + (b.Keys - a.Keys);
  }

  /** k is an entry that expires no later than any other. */
  predicate Earliest(t: Table, k: Id) { k in t && forall j :: j in t ==> t[k].exp <= t[j].exp }

  function Without(t: Table, user: string): Table {
    map k | k in t && t[k].id.username != user :: t[k]
  }

  /** t may become u when a session is opened: expired entries go, at 64 an
      earliest-expiring one goes too, and the new one is added. */
  ghost predicate Opens(t: Table, u: Table, sid: Id, id: Identity, now: int) {
    var live := Live(t, now);
    if |live| < MAX_SESSIONS then u == live[sid := Entry(now + SESSION_TTL, id)]
    else exists victim: Id :: Earliest(live, victim) && u == (live - {victim})[sid := Entry(now + SESSION_TTL, id)]
  }

  class Local {
    var codes: Table
    var sessions: Table

    constructor ()
      ensures codes == map[] && sessions == map[]
    {
      codes, sessions := map[], map[];
    }

    method Collect(t: Table, now: int) returns (u: Table)
      ensures u == Live(t, now)
    {
      u := t;
      var todo := t.Keys;
      while todo != {}
        invariant todo <= u.Keys
        invariant forall k :: k in u ==> k in t && u[k] == t[k]
        invariant forall k :: k in t && k !in todo ==> (k in u <==> now <= t[k].exp)
        decreases |todo|
      {
        var k :| k in todo;
        todo := todo - {k};
        if now > u[k].exp {
          u := u - {k};
        }
      }
    }

    method Gc(now: int)
      modifies this
      ensures codes == Live(old(codes), now) && sessions == Live(old(sessions), now)
    {
      codes := Collect(codes, now);
      sessions := Collect(sessions, now);
    }

    method NewCode(code: Id, id: Identity, now: int) returns (ok: bool)
      requires code !in codes && |codes| <= MAX_CODES
      modifies this
      ensures ok <==> |Live(old(codes), now)| < MAX_CODES
      ensures codes == if ok then Live(old(codes), now)[code := Entry(now + CODE_TTL, id)] else Live(old(codes), now)
      ensures sessions == Live(old(sessions), now) && |codes| <= MAX_CODES
    {
      SmallerMap(Live(codes, now), codes);
      Gc(now);
      if |codes| >= MAX_CODES {
        return false;
      }
      codes := codes[code := Entry(now + CODE_TTL, id)];
      return true;
    }

    /** The mutex section of Redeem: the code is gone whatever the outcome. */
    method TakeCode(code: Id, now: int) returns (ok: bool, id: Identity)
      modifies this`codes
      ensures codes == old(codes) - {code}
      ensures ok <==> Redeemable(old(codes), code, now)
      ensures ok ==> id == old(codes)[code].id
    {
      if code !in codes {
        assert codes - {code} == codes;
        return false, Identity("", "", false);
      }
      var e := codes[code];
      codes := codes - {code};
      return now <= e.exp, e.id;
    }

    method NewSession(sid: Id, id: Identity, now: int)
      requires sid !in sessions && |sessions| <= MAX_SESSIONS
      modifies this
      ensures Opens(old(sessions), sessions, sid, id, now)
      ensures codes == Live(old(codes), now) && |sessions| <= MAX_SESSIONS
    {
      SmallerMap(Live(sessions, now), sessions);
      Gc(now);
      if |sessions| >= MAX_SESSIONS {
        var oldest: Id :| oldest in sessions;
        var todo := sessions.Keys - {oldest};
        while todo != {}
          invariant todo <= sessions.Keys && oldest in sessions
          invariant forall k :: k in sessions && k !in todo ==> sessions[oldest].exp <= sessions[k].exp
          decreases |todo|
        {
          var k :| k in todo;
          todo := todo - {k};
          if sessions[k].exp < sessions[oldest].exp {
            oldest := k;
          }
        }
        assert Earliest(Live(old(sessions), now), oldest);
        sessions := sessions - {oldest};
      }
      sessions := sessions[sid := Entry(now + SESSION_TTL, id)];
    }

    /** Redeem without interference: both sections in a row. */
    method Redeem(code: Id, sid: Id, now: int) returns (ok: bool, id: Identity)
      requires sid !in sessions && |sessions| <= MAX_SESSIONS
      modifies this
      ensures ok <==> Redeemable(old(codes), code, now)
      ensures code !in codes && |sessions| <= MAX_SESSIONS
      ensures ok ==> id == old(codes)[code].id && SignedIn(sessions, sid, now) && sessions[sid].id == id
      ensures !ok ==> sessions == old(sessions)
    {
      ok, id := TakeCode(code, now);
      if ok {
        NewSession(sid, id, now);
      }
    }

    method EndSessionsFor(user: string)
      modifies this`sessions
      ensures sessions == Without(old(sessions), user)
      ensures forall k :: k in sessions <==> k in old(sessions) && old(sessions)[k].id.username != user
      ensures forall k :: k in sessions ==> sessions[k] == old(sessions)[k]
    {
      var todo := sessions.Keys;
      while todo != {}
        invariant todo <= sessions.Keys
        invariant forall k :: k in sessions ==> k in old(sessions) && sessions[k] == old(sessions)[k]
        invariant forall k :: k in old(sessions) && k !in todo ==>
                    (k in sessions <==> old(sessions)[k].id.username != user)
        decreases |todo|
      {
        var k :| k in todo;
        todo := todo - {k};
        if sessions[k].id.username == user {
          sessions := sessions - {k};
        }
      }
    }
  }

  // ---- interleavings ----

  /** One call of Redeem, after its first section. */
  datatype Redeeming =
    | Taken(code: Id, id: Identity)
    | Opened(code: Id, id: Identity, sid: Id)

  /** issued, used and redeeming are history. */
  datatype State = State(
    codes: Table, sessions: Table, now: int,
    issued: map<Id, Identity>, used: set<Id>, redeeming: seq<Redeeming>)

  const INIT := State(map[], map[], 0, map[], {}, [])

  datatype Action =
    | IssueCode(code: Id, id: Identity)
    | Take(code: Id)
    | Open(r: nat, sid: Id, after: Table)         // Redeem's second section
    | OpenDirect(id: Identity, sid: Id, after: Table)
    | EndSession(sid: Id)
    | EndUser(user: string)
    | Tick(to: int)

  ghost predicate Enabled(s: State, a: Action) {
    match a
    case IssueCode(code, _) => code !in s.issued
    case Take(_) => true
    case Open(r, sid, after) => r < |s.redeeming| && s.redeeming[r].Taken? && sid !in s.used
                                && Opens(s.sessions, after, sid, s.redeeming[r].id, s.now)
    case OpenDirect(id, sid, after) => sid !in s.used && Opens(s.sessions, after, sid, id, s.now)
    case EndSession(_) => true
    case EndUser(_) => true
    case Tick(to) => s.now <= to
  }

  function Apply(s: State, a: Action): State {
    match a
    case IssueCode(code, id) =>
      var live := Live(s.codes, s.now);
      s.(codes := if |live| < MAX_CODES then live[code := Entry(s.now + CODE_TTL, id)] else live,
         sessions := Live(s.sessions, s.now),
         issued := s.issued[code := id])
    case Take(code) =>
      s.(codes := s.codes - {code},
         redeeming := if Redeemable(s.codes, code, s.now) then s.redeeming + [Taken(code, s.codes[code].id)]
                      else s.redeeming)
    case Open(r, sid, after) =>
      if r >= |s.redeeming| then s else
      s.(codes := Live(s.codes, s.now), sessions := after, used := s.used + {sid},
         redeeming := s.redeeming[r := Opened(s.redeeming[r].code, s.redeeming[r].id, sid)])
    case OpenDirect(id, sid, after) => s.(codes := Live(s.codes, s.now), sessions := after, used := s.used + {sid})
    case EndSession(sid) => s.(sessions := s.sessions - {sid})
    case EndUser(user) => s.(sessions := Without(s.sessions, user))
    case Tick(to) => s.(now := to)
  }

  ghost predicate Inv(s: State) {
    && |s.codes| <= MAX_CODES && |s.sessions| <= MAX_SESSIONS
    && (forall c :: c in s.codes ==> c in s.issued && s.codes[c].id == s.issued[c])
    && (forall k :: k in s.sessions ==> k in s.used)
    && (forall i :: 0 <= i < |s.redeeming| ==> OneRedeem(s, s.redeeming[i]))
    && (forall i, j :: 0 <= i < j < |s.redeeming| ==> TwoRedeems(s.redeeming[i], s.redeeming[j]))
  }

  /** A redeemed code is spent, was issued for this identity, and the session
      it opened belongs to that identity. */
  ghost predicate OneRedeem(s: State, r: Redeeming) {
    && r.code in s.issued && s.issued[r.code] == r.id && r.code !in s.codes
    && (r.Opened? ==> r.sid in s.used && (r.sid in s.sessions ==> s.sessions[r.sid].id == r.id))
  }

  ghost predicate TwoRedeems(a: Redeeming, b: Redeeming) {
    a.code != b.code && (a.Opened? && b.Opened? ==> a.sid != b.sid)
  }

  lemma RemovedSize(t: Table, k: Id)
    requires k in t
    ensures |t - {k}| == |t| - 1
  {
    assert t.Keys == (t - {k}).Keys + {k};
  }

  lemma OpensSmall(t: Table, u: Table, sid: Id, id: Identity, now: int)
    requires |t| <= MAX_SESSIONS && Opens(t, u, sid, id, now)
    ensures |u| <= MAX_SESSIONS && sid in u && u[sid] == Entry(now + SESSION_TTL, id)
    ensures forall k :: k in u && k != sid ==> k in t && u[k] == t[k]
  {
    var live := Live(t, now);
    SmallerMap(live, t);
    if |live| >= MAX_SESSIONS {
      var victim: Id :| Earliest(live, victim) && u == (live - {victim})[sid := Entry(now + SESSION_TTL, id)];
      RemovedSize(live, victim);
    }
  }

  lemma OpenStep(s: State, t: State, sid: Id, id: Identity)
    requires Inv(s) && sid !in s.used && Opens(s.sessions, t.sessions, sid, id, s.now)
    requires t.codes == Live(s.codes, s.now) && t.used == s.used + {sid} && t.issued == s.issued
    requires t.redeeming == s.redeeming
             || exists r :: 0 <= r < |s.redeeming| && s.redeeming[r].Taken? && s.redeeming[r].id == id
                            && t.redeeming == s.redeeming[r := Opened(s.redeeming[r].code, id, sid)]
    ensures Inv(t)
  {
    OpensSmall(s.sessions, t.sessions, sid, id, s.now);
    SmallerMap(t.codes, s.codes);
    forall i | 0 <= i < |t.redeeming| ensures OneRedeem(t, t.redeeming[i]) {
      assert OneRedeem(s, s.redeeming[i]);
    }
    forall i, j | 0 <= i < j < |t.redeeming| ensures TwoRedeems(t.redeeming[i], t.redeeming[j]) {
      assert TwoRedeems(s.redeeming[i], s.redeeming[j]);
      assert OneRedeem(s, s.redeeming[i]) && OneRedeem(s, s.redeeming[j]);
    }
  }

  lemma ShrinkStep(s: State, t: State)
    requires Inv(s) && t.redeeming == s.redeeming && t.used == s.used && t.issued == s.issued
    requires forall k :: k in t.codes ==> k in s.codes && t.codes[k] == s.codes[k]
    requires forall k :: k in t.sessions ==> k in s.sessions && t.sessions[k] == s.sessions[k]
    ensures Inv(t)
  {
    SmallerMap(t.codes, s.codes);
    SmallerMap(t.sessions, s.sessions);
    forall i | 0 <= i < |t.redeeming| ensures OneRedeem(t, t.redeeming[i]) {
      assert OneRedeem(s, s.redeeming[i]);
    }
  }

  lemma IssueStep(s: State, code: Id, id: Identity)
    requires Inv(s) && Enabled(s, IssueCode(code, id))
    ensures Inv(Apply(s, IssueCode(code, id)))
  {
    var t := Apply(s, IssueCode(code, id));
    SmallerMap(Live(s.codes, s.now), s.codes);
    SmallerMap(t.sessions, s.sessions);
    forall i | 0 <= i < |t.redeeming| ensures OneRedeem(t, t.redeeming[i]) {
      assert OneRedeem(s, s.redeeming[i]);
    }
  }

  lemma TakeStep(s: State, code: Id)
    requires Inv(s)
    ensures Inv(Apply(s, Take(code)))
  {
    var t := Apply(s, Take(code));
    SmallerMap(t.codes, s.codes);
    forall i | 0 <= i < |t.redeeming| ensures OneRedeem(t, t.redeeming[i]) {
      if i < |s.redeeming| { assert OneRedeem(s, s.redeeming[i]); }
    }
    forall i, j | 0 <= i < j < |t.redeeming| ensures TwoRedeems(t.redeeming[i], t.redeeming[j]) {
      assert OneRedeem(s, s.redeeming[i]);
      if j < |s.redeeming| { assert TwoRedeems(s.redeeming[i], s.redeeming[j]); }
    }
  }

  lemma Step(s: State, a: Action)
    requires Inv(s) && Enabled(s, a)
    ensures Inv(Apply(s, a))
  {
    match a
    case IssueCode(code, id) => IssueStep(s, code, id);
    case Take(code) => TakeStep(s, code);
    case Open(r, sid, after) => OpenStep(s, Apply(s, a), sid, s.redeeming[r].id);
    case OpenDirect(id, sid, after) => OpenStep(s, Apply(s, a), sid, id);
    case EndSession(_) => ShrinkStep(s, Apply(s, a));
    case EndUser(_) => ShrinkStep(s, Apply(s, a));
    case Tick(_) => ShrinkStep(s, Apply(s, a));
  }

  ghost predicate Possible(s: State, run: seq<Action>)
    decreases |run|
  {
    run == [] || (Enabled(s, run[0]) && Possible(Apply(s, run[0]), run[1..]))
  }

  function After(s: State, run: seq<Action>): State
    decreases |run|
  {
    if run == [] then s else After(Apply(s, run[0]), run[1..])
  }

  lemma {:induction false} RunKeeps(s: State, run: seq<Action>)
    requires Possible(s, run) && Inv(s)
    ensures Inv(After(s, run))
    decreases |run|
  {
    if run != [] {
      Step(s, run[0]);
      RunKeeps(Apply(s, run[0]), run[1..]);
    }
  }

  /** In every interleaving: never more than 16 codes or 64 sessions; a code
      is redeemed at most once, so it opens at most one session, and only for
      the identity it was issued to. */
  lemma CodesAreSingleUse(run: seq<Action>)
    requires Possible(INIT, run)
    ensures var t := After(INIT, run);
            && |t.codes| <= MAX_CODES && |t.sessions| <= MAX_SESSIONS
            && (forall i, j :: 0 <= i < j < |t.redeeming| ==> t.redeeming[i].code != t.redeeming[j].code)
            && (forall i :: 0 <= i < |t.redeeming| ==>
                  var r := t.redeeming[i];
                  && r.code in t.issued && t.issued[r.code] == r.id && r.code !in t.codes
                  && (r.Opened? && r.sid in t.sessions ==> t.sessions[r.sid].id == r.id))
  {
    RunKeeps(INIT, run);
    var t := After(INIT, run);
    forall i | 0 <= i < |t.redeeming| ensures OneRedeem(t, t.redeeming[i]) {
    }
    forall i, j | 0 <= i < j < |t.redeeming| ensures t.redeeming[i].code != t.redeeming[j].code {
      assert TwoRedeems(t.redeeming[i], t.redeeming[j]);
    }
  }

  /** EndSessionsFor ends the sessions of this user, and no other. */
  lemma OthersStay(s: State, user: string, k: Id)
    ensures var t := Apply(s, EndUser(user));
            && (k in t.sessions <==> k in s.sessions && s.sessions[k].id.username != user)
            && (k in t.sessions ==> t.sessions[k] == s.sessions[k])
            && t.codes == s.codes && t.redeeming == s.redeeming
  {
  }

  // ---- room for codes and sessions ----

  /** Nothing lives longer than its term from now. */
  ghost predicate Short(s: State) {
    && (forall c :: c in s.codes ==> s.codes[c].exp <= s.now + 30)
    && (forall k :: k in s.sessions ==> s.sessions[k].exp <= s.now + 12 * 3600)
  }

  lemma ShortStep(s: State, a: Action)
    requires Inv(s) && Short(s) && Enabled(s, a)
    ensures Short(Apply(s, a))
  {
    match a
    case Open(r, sid, after) => OpensSmall(s.sessions, after, sid, s.redeeming[r].id, s.now);
    case OpenDirect(id, sid, after) => OpensSmall(s.sessions, after, sid, id, s.now);
    case _ =>
  }

  lemma {:induction false} ShortKeeps(s: State, run: seq<Action>)
    requires Possible(s, run) && Inv(s) && Short(s)
    ensures Inv(After(s, run)) && Short(After(s, run))
    decreases |run|
  {
    if run != [] {
      Step(s, run[0]);
      ShortStep(s, run[0]);
      ShortKeeps(Apply(s, run[0]), run[1..]);
    }
  }

  /** In every interleaving a code can be issued again after half a minute,
      however many there are, and only it is left then; it can be redeemed for
      half a minute. */
  lemma {:induction false} CodesMakeRoom(run: seq<Action>, to: int, code: Id, id: Identity)
    requires Possible(INIT, run) && to > After(INIT, run).now + 30
    ensures Apply(Apply(After(INIT, run), Tick(to)), IssueCode(code, id)).codes == map[code := Entry(to + 30, id)]
  {
    ShortKeeps(INIT, run);
    LateIsEmpty(After(INIT, run), to, code, id);
  }

  lemma LateIsEmpty(s: State, to: int, code: Id, id: Identity)
    requires Short(s) && to > s.now + 30
    ensures Apply(Apply(s, Tick(to)), IssueCode(code, id)).codes == map[code := Entry(to + 30, id)]
  {
    assert Live(s.codes, to) == map[];
  }

  /** A code is issued exactly if fewer than 16 others can still be redeemed. */
  lemma {:induction false} CodesAreLimited(s: State, code: Id, id: Identity)
    requires code !in s.codes
    ensures code in Apply(s, IssueCode(code, id)).codes <==> |set c | c in s.codes && s.now <= s.codes[c].exp| < 16
  {
    var live := Live(s.codes, s.now);
    assert live.Keys == set c | c in s.codes && s.now <= s.codes[c].exp;
    assert |live.Keys| == |live|;
  }

  /** A code opens a session exactly if it was issued at most half a minute ago
      and not taken since. */
  lemma RedeemsExactly(s: State, code: Id)
    ensures var t := Apply(s, Take(code));
            if code in s.codes && s.now <= s.codes[code].exp then
              t.redeeming == s.redeeming + [Taken(code, s.codes[code].id)]
            else t.redeeming == s.redeeming
    ensures code !in Apply(s, Take(code)).codes
  {
  }

  /** What a new session displaces: only one that has not expired, only beside 63
      others like it, and then one that expires no later than any of them. */
  lemma {:induction false} DisplacedIsEarliest(t: Table, u: Table, sid: Id, id: Identity, now: int, k: Id)
    requires Opens(t, u, sid, id, now) && k in t && now <= t[k].exp && k != sid && k !in u
    ensures |set j | j in t && now <= t[j].exp| >= 64
    ensures forall j :: j in t && now <= t[j].exp ==> t[k].exp <= t[j].exp
    ensures forall j :: j in t && now <= t[j].exp && j != k && j != sid ==> j in u && u[j] == t[j]
    ensures sid in u && u[sid] == Entry(now + 12 * 3600, id)
  {
    var live := Live(t, now);
    assert live.Keys == set j | j in t && now <= t[j].exp;
    assert |live.Keys| == |live|;
    var victim: Id :| Earliest(live, victim) && u == (live - {victim})[sid := Entry(now + SESSION_TTL, id)];
    assert k == victim;
    forall j | j in t && now <= t[j].exp ensures t[k].exp <= t[j].exp {
      assert j in live;
    }
  }

  // ---- signing a user out ----

  /** What can still open a session for a user: a code not yet expired, or a
      Redeem between its two sections. */
  ghost predicate Waiting(s: State, user: string) {
    || (exists c: Id :: Redeemable(s.codes, c, s.now) && s.codes[c].id.username == user)
    || (exists i :: 0 <= i < |s.redeeming| && s.redeeming[i].Taken? && s.redeeming[i].id.username == user)
  }

  predicate SignsIn(a: Action, user: string) {
    match a
    case IssueCode(_, id) => id.username == user
    case OpenDirect(id, _, _) => id.username == user
    case _ => false
  }

  /** Nothing in the run is a new sign-in of the user. */
  predicate NoSignIn(run: seq<Action>, user: string) { forall i :: 0 <= i < |run| ==> !SignsIn(run[i], user) }

  /** A redemption seen in a later state is one of t's, perhaps completed since,
      or of a code that could be redeemed in t. */
  ghost predicate Known(t: State, i: nat, r: Redeeming) {
    if i < |t.redeeming| then
      var q := t.redeeming[i];
      r == q || (q.Taken? && r.Opened? && r.code == q.code && r.id == q.id)
    else Redeemable(t.codes, r.code, t.now) && t.codes[r.code].id == r.id
  }

  /** Session k was opened since t by redemption i. */
  ghost predicate OpenedSince(t: State, s: State, i: int, k: Id) {
    && 0 <= i < |s.redeeming| && s.redeeming[i].Opened? && s.redeeming[i].sid == k
    && k in s.sessions && s.redeeming[i].id == s.sessions[k].id
    && Known(t, i, s.redeeming[i])
    && (i < |t.redeeming| ==> t.redeeming[i].Taken?)
  }

  ghost predicate Awaited(t: State, s: State, k: Id) { exists i :: OpenedSince(t, s, i, k) }

  predicate Of(t: Table, k: Id, user: string) { k in t && t[k].id.username == user }

  /** Everything of the user in s comes from what was waiting in t. */
  ghost predicate Traced(t: State, s: State, user: string) {
    && t.now <= s.now && |t.redeeming| <= |s.redeeming|
    && (forall c :: Of(s.codes, c, user) ==> c in t.codes && t.codes[c] == s.codes[c])
    && (forall i :: 0 <= i < |s.redeeming| && s.redeeming[i].id.username == user ==> Known(t, i, s.redeeming[i]))
    && (forall k :: Of(s.sessions, k, user) ==> Awaited(t, s, k))
  }

  /** Sessions and codes of the user only go. */
  lemma TracedShrinks(t: State, s: State, u: State, user: string)
    requires Traced(t, s, user) && s.now <= u.now && u.redeeming == s.redeeming
    requires forall c :: Of(u.codes, c, user) ==> c in s.codes && u.codes[c] == s.codes[c]
    requires forall k :: Of(u.sessions, k, user) ==> k in s.sessions && u.sessions[k] == s.sessions[k]
    ensures Traced(t, u, user)
  {
    forall k | Of(u.sessions, k, user) ensures Awaited(t, u, k) {
      assert Of(s.sessions, k, user);
      var i :| OpenedSince(t, s, i, k);
      assert OpenedSince(t, u, i, k);
    }
    forall c | Of(u.codes, c, user) ensures c in t.codes && t.codes[c] == u.codes[c] {
      assert Of(s.codes, c, user);
    }
  }

  lemma TracedTake(t: State, s: State, code: Id, user: string)
    requires Traced(t, s, user)
    ensures Traced(t, Apply(s, Take(code)), user)
  {
    var u := Apply(s, Take(code));
    forall k | Of(u.sessions, k, user) ensures Awaited(t, u, k) {
      assert Of(s.sessions, k, user);
      var i :| OpenedSince(t, s, i, k);
      assert OpenedSince(t, u, i, k);
    }
    forall i | 0 <= i < |u.redeeming| && u.redeeming[i].id.username == user ensures Known(t, i, u.redeeming[i]) {
      if i == |s.redeeming| {
        assert Of(s.codes, code, user);
      }
    }
    forall c | Of(u.codes, c, user) ensures c in t.codes && t.codes[c] == u.codes[c] {
      assert Of(s.codes, c, user);
    }
  }

  lemma TracedOpen(t: State, s: State, r: nat, sid: Id, after: Table, user: string)
    requires Traced(t, s, user) && Inv(s) && Enabled(s, Open(r, sid, after))
    ensures Traced(t, Apply(s, Open(r, sid, after)), user)
  {
    var u, q := Apply(s, Open(r, sid, after)), s.redeeming[r];
    OpensSmall(s.sessions, after, sid, q.id, s.now);
    forall k | Of(u.sessions, k, user) ensures Awaited(t, u, k) {
      if k == sid {
        assert OpenedSince(t, u, r, k);
      } else {
        assert Of(s.sessions, k, user);
        var i :| OpenedSince(t, s, i, k);
        assert OpenedSince(t, u, i, k);
      }
    }
    forall c | Of(u.codes, c, user) ensures c in t.codes && t.codes[c] == u.codes[c] {
      assert Of(s.codes, c, user);
    }
  }

  lemma TracedStep(t: State, s: State, a: Action, user: string)
    requires Traced(t, s, user) && Inv(s) && Enabled(s, a) && !SignsIn(a, user)
    ensures Traced(t, Apply(s, a), user)
  {
    match a
    case Take(code) => TracedTake(t, s, code, user);
    case Open(r, sid, after) => TracedOpen(t, s, r, sid, after, user);
    case OpenDirect(id, sid, after) =>
      OpensSmall(s.sessions, after, sid, id, s.now);
      TracedShrinks(t, s, Apply(s, a), user);
    case _ => TracedShrinks(t, s, Apply(s, a), user);
  }

  lemma {:induction false} TracedRun(t: State, s: State, run: seq<Action>, user: string)
    requires Possible(s, run) && Traced(t, s, user) && Inv(s) && NoSignIn(run, user)
    ensures Traced(t, After(s, run), user)
    decreases |run|
  {
    if run != [] {
      Step(s, run[0]);
      TracedStep(t, s, run[0], user);
      forall i | 0 <= i < |run[1..]| ensures !SignsIn(run[1..][i], user) {
        assert run[1..][i] == run[i + 1];
      }
      TracedRun(t, Apply(s, run[0]), run[1..], user);
    }
  }

  lemma OpenedWaits(t: State, s: State, i: int, k: Id)
    requires OpenedSince(t, s, i, k)
    ensures Waiting(t, s.sessions[k].id.username)
  {
    if i < |t.redeeming| {
      assert t.redeeming[i].Taken?;
    } else {
      assert Redeemable(t.codes, s.redeeming[i].code, t.now);
    }
  }

  lemma TracedAtFirst(s: State, user: string)
    ensures Traced(s, Apply(s, EndUser(user)), user)
  {
  }

  /** After EndSessionsFor, while the user does not sign in anew, a session of
      the user can only come from a code that could be redeemed at that moment
      or from a Redeem that was between its sections. */
  lemma EndedSessionsStayEnded(s: State, user: string, run: seq<Action>, k: Id)
    requires Inv(s) && Possible(Apply(s, EndUser(user)), run) && NoSignIn(run, user)
    requires Of(After(Apply(s, EndUser(user)), run).sessions, k, user)
    ensures Waiting(s, user) && Awaited(s, After(Apply(s, EndUser(user)), run), k)
  {
    var t := Apply(s, EndUser(user));
    Step(s, EndUser(user));
    TracedAtFirst(s, user);
    TracedRun(s, t, run, user);
    var i :| OpenedSince(s, After(t, run), i, k);
    OpenedWaits(s, After(t, run), i, k);
  }

  lemma {:induction false} Fresh(used: set<Id>) returns (sid: Id)
    ensures forall k :: k in used ==> k < sid
    decreases |used|
  {
    if used == {} {
      sid := 0;
    } else {
      var k :| k in used;
      var rest := Fresh(used - {k});
      sid := if rest > k then rest else k + 1;
      forall j | j in used ensures j < sid {
        assert j == k || j in used - {k};
      }
    }
  }

  lemma {:induction false} EarliestExists(t: Table) returns (k: Id)
    requires |t| > 0
    ensures Earliest(t, k)
    decreases |t|
  {
    k :| k in t;
    var rest := t - {k};
    RemovedSize(t, k);
    if |rest| == 0 {
      assert t.Keys == {k} + rest.Keys;
    } else {
      var j := EarliestExists(rest);
      forall x | x in t ensures x == k || rest[j].exp <= t[x].exp {
        assert x == k || x in rest;
      }
      k := if rest[j].exp < t[k].exp then j else k;
    }
  }

  lemma CanOpen(t: Table, sid: Id, id: Identity, now: int) returns (after: Table)
    ensures Opens(t, after, sid, id, now)
  {
    var live := Live(t, now);
    if |live| < MAX_SESSIONS {
      after := live[sid := Entry(now + SESSION_TTL, id)];
    } else {
      var victim := EarliestExists(live);
      after := (live - {victim})[sid := Entry(now + SESSION_TTL, id)];
    }
  }

  /** A run that brings a session of the user without a new sign-in. */
  ghost predicate Revives(s: State, user: string, run: seq<Action>, k: Id) {
    Possible(s, run) && NoSignIn(run, user) && Of(After(s, run).sessions, k, user)
  }

  lemma TakenRevives(s: State, i: nat) returns (run: seq<Action>, k: Id)
    requires Inv(s) && i < |s.redeeming| && s.redeeming[i].Taken?
    ensures Revives(s, s.redeeming[i].id.username, run, k)
  {
    k := Fresh(s.used);
    var id := s.redeeming[i].id;
    var after := CanOpen(s.sessions, k, id, s.now);
    OpensSmall(s.sessions, after, k, id, s.now);
    run := [Open(i, k, after)];
    assert run[1..] == [];
    assert Enabled(s, run[0]);
    assert After(Apply(s, run[0]), []).sessions == after;
  }

  lemma CodeRevives(s: State, c: Id) returns (run: seq<Action>, k: Id)
    requires Inv(s) && Redeemable(s.codes, c, s.now)
    ensures Revives(s, s.codes[c].id.username, run, k)
  {
    var t, user := Apply(s, Take(c)), s.codes[c].id.username;
    Step(s, Take(c));
    var more;
    more, k := TakenRevives(t, |s.redeeming|);
    run := [Take(c)] + more;
    assert run[1..] == more;
    forall i | 0 <= i < |run| ensures !SignsIn(run[i], user) {
      if i > 0 {
        assert run[i] == more[i - 1];
      }
    }
  }

  /** EndSessionsFor signs a user out for good, until the next sign-in, exactly
      if no code of the user can be redeemed and no Redeem for the user is under
      way. */
  lemma SignedOutExactly(s: State, user: string)
    requires Inv(s)
    ensures (exists run, k :: Revives(Apply(s, EndUser(user)), user, run, k)) <==> Waiting(s, user)
  {
    var t := Apply(s, EndUser(user));
    Step(s, EndUser(user));
    if run, k :| Revives(t, user, run, k) {
      EndedSessionsStayEnded(s, user, run, k);
    }
    if c: Id :| Redeemable(s.codes, c, s.now) && s.codes[c].id.username == user {
      var run, k := CodeRevives(t, c);
    }
    if i :| 0 <= i < |s.redeeming| && s.redeeming[i].Taken? && s.redeeming[i].id.username == user {
      var run, k := TakenRevives(t, i);
    }
  }

  /** A code issued before EndSessionsFor still signs the user in after it. */
  lemma CodeOutlivesEndUser(id: Identity) returns (run: seq<Action>, k: Id)
    ensures Possible(INIT, [IssueCode(0, id), EndUser(id.username)])
    ensures Revives(After(INIT, [IssueCode(0, id), EndUser(id.username)]), id.username, run, k)
  {
    var first := [IssueCode(0, id), EndUser(id.username)];
    assert first[1..] == [EndUser(id.username)] && first[1..][1..] == [];
    var s := Apply(INIT, first[0]);
    var t := Apply(s, first[1]);
    assert After(INIT, first) == After(s, first[1..]) == After(t, []) == t;
    RunKeeps(INIT, first);
    assert Redeemable(t.codes, 0, t.now);
    run, k := CodeRevives(t, 0);
  }
}
