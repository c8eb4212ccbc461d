/** The dashboard's per-client token bucket (internal/api/middleware.go). Time
    and tokens are reals; the clock never goes back. */
module RateLimiter {
  import opened Options

  datatype Bucket = Bucket(tokens: real, last: real)
  type Table = map<string, Bucket>

  const GC_EVERY := 60.0
  const IDLE := 600.0

  /** Tokens that arrive in a span of time. */
  function Earned(span: real, rate: real): real { span * rate }

  /** The bucket's tokens at a later time. */
  function Refilled(b: Bucket, rate: real, burst: real, now: real): real {
    var t := b.tokens + Earned(now - b.last, rate);
    if t > burst then burst else t
  }

  /** What the limiter sees for key: its bucket, or a full new one. */
  function Tokens(tbl: Table, key: string, rate: real, burst: real, now: real): real {
    if key in tbl then Refilled(tbl[key], rate, burst, now) else burst
  }

  predicate Allowed(tbl: Table, key: string, rate: real, burst: real, now: real) {
    Tokens(tbl, key, rate, burst, now) >= 1.0
  }

  /** The table after one request. */
  function Taken(tbl: Table, key: string, rate: real, burst: real, now: real): Table {
    var t := Tokens(tbl, key, rate, burst, now);
    tbl[key := Bucket(if t < 1.0 then t else t - 1.0, now)]
  }

  function Collected(tbl: Table, now: real): Table {
    map k | k in tbl && now - tbl[k].last <= IDLE :: tbl[k]
  }

  /** lastGC is None before the first request. */
  predicate GCDue(lastGC: Option<real>, now: real) { lastGC.None? || now - lastGC.value > GC_EVERY }

  class Limiter {
    const rate: real
    const burst: real
    var clients: Table
    var lastGC: Option<real>

    constructor (rate: real, burst: real)
      ensures this.rate == rate && this.burst == burst && clients == map[] && lastGC == None
    {
      this.rate, this.burst, clients, lastGC := rate, burst, map[], None;
    }

    method Allow(key: string, now: real) returns (ok: bool)
      requires burst >= 0.0
      modifies this
      ensures var tbl := if GCDue(old(lastGC), now) then Collected(old(clients), now) else old(clients);
              ok == Allowed(tbl, key, rate, burst, now) && clients == Taken(tbl, key, rate, burst, now)
      ensures lastGC == if GCDue(old(lastGC), now) then Some(now) else old(lastGC)
    {
      if GCDue(lastGC, now) {
        Collect(now);
        lastGC := Some(now);
      }
      if key !in clients {
        clients := clients[key := Bucket(burst, now)];
        assert Earned(now - now, rate) == 0.0;
      }
      var b := clients[key];
      var tokens := b.tokens + Earned(now - b.last, rate);
      if tokens > burst {
        tokens := burst;
      }
      if tokens < 1.0 {
        clients := clients[key := Bucket(tokens, now)];
        return false;
      }
      clients := clients[key := Bucket(tokens - 1.0, now)];
      return true;
    }

    method Collect(now: real)
      modifies this`clients
      ensures clients == Collected(old(clients), now)
    {
      var todo := clients.Keys;
      while todo != {}
        invariant todo <= clients.Keys
        invariant forall k :: k in clients ==> k in old(clients) && clients[k] == old(clients)[k]
        invariant forall k :: k in old(clients) && k !in todo ==> (k in clients <==> now - old(clients)[k].last <= IDLE)
        decreases |todo|
      {
        var k :| k in todo;
        todo := todo - {k};
        if now - clients[k].last > IDLE {
          clients := clients - {k};
        }
      }
    }
  }

  // ---- runs ----

  datatype Event = Event(key: string, at: real)

  predicate Ordered(run: seq<Event>) {
    forall i, j :: 0 <= i < j < |run| ==> run[i].at <= run[j].at
  }

  datatype State = State(clients: Table, lastGC: Option<real>)

  const EMPTY := State(map[], None)

  /** The limiter after a run, collecting or never collecting. */
  function After(run: seq<Event>, collecting: bool, rate: real, burst: real): State {
    if run == [] then EMPTY
    else
      var s := After(run[..|run| - 1], collecting, rate, burst);
      var e := run[|run| - 1];
      var due := collecting && GCDue(s.lastGC, e.at);
      State(Taken(if due then Collected(s.clients, e.at) else s.clients, e.key, rate, burst, e.at),
            if due then Some(e.at) else s.lastGC)
  }

  /** The answer to event i of a run. */
  predicate Answer(run: seq<Event>, i: nat, collecting: bool, rate: real, burst: real)
    requires i < |run|
  {
    var s := After(run[..i], collecting, rate, burst);
    var e := run[i];
    Allowed(if collecting && GCDue(s.lastGC, e.at) then Collected(s.clients, e.at) else s.clients,
            e.key, rate, burst, e.at)
  }

  // ---- collection is unobservable ----

  predicate Sane(tbl: Table, burst: real, now: real) {
    forall k :: k in tbl ==> 0.0 <= tbl[k].tokens <= burst && tbl[k].last <= now
  }

  /** small lost only buckets that are full again by now. */
  ghost predicate Covers(small: Table, full: Table, rate: real, burst: real, now: real) {
    && (forall k :: k in small ==> k in full && small[k] == full[k])
    && (forall k :: k in full && k !in small ==> Refilled(full[k], rate, burst, now) == burst)
  }

  lemma EarnedMore(a: real, b: real, rate: real)
    requires a <= b && rate >= 0.0
    ensures Earned(a, rate) <= Earned(b, rate)
  {
  }

  lemma EarnedSum(a: real, b: real, rate: real)
    ensures Earned(a + b, rate) == Earned(a, rate) + Earned(b, rate)
  {
  }

  lemma FullStaysFull(b: Bucket, rate: real, burst: real, now: real, later: real)
    requires rate >= 0.0 && now <= later && Refilled(b, rate, burst, now) == burst
    ensures Refilled(b, rate, burst, later) == burst
  {
    EarnedMore(now - b.last, later - b.last, rate);
  }

  lemma IdleIsFull(b: Bucket, rate: real, burst: real, now: real)
    requires rate >= 0.0 && Earned(IDLE, rate) >= burst && b.tokens >= 0.0 && now - b.last > IDLE
    ensures Refilled(b, rate, burst, now) == burst
  {
    EarnedMore(IDLE, now - b.last, rate);
  }

  lemma CoversLater(small: Table, full: Table, rate: real, burst: real, now: real, later: real)
    requires rate >= 0.0 && now <= later && Covers(small, full, rate, burst, now)
    ensures Covers(small, full, rate, burst, later)
  {
    forall k | k in full && k !in small ensures Refilled(full[k], rate, burst, later) == burst {
      FullStaysFull(full[k], rate, burst, now, later);
    }
  }

  lemma CoversCollected(small: Table, full: Table, rate: real, burst: real, now: real)
    requires rate >= 0.0 && Earned(IDLE, rate) >= burst && Sane(full, burst, now)
             && Covers(small, full, rate, burst, now)
    ensures Covers(Collected(small, now), full, rate, burst, now)
  {
    forall k | k in full && k !in Collected(small, now) ensures Refilled(full[k], rate, burst, now) == burst {
      if k in small {
        IdleIsFull(full[k], rate, burst, now);
      }
    }
  }

  lemma CoversTaken(small: Table, full: Table, key: string, rate: real, burst: real, now: real)
    requires rate >= 0.0 && burst >= 0.0 && Sane(full, burst, now) && Covers(small, full, rate, burst, now)
    ensures Tokens(small, key, rate, burst, now) == Tokens(full, key, rate, burst, now)
    ensures Covers(Taken(small, key, rate, burst, now), Taken(full, key, rate, burst, now), rate, burst, now)
    ensures Sane(Taken(full, key, rate, burst, now), burst, now)
  {
    TokensInRange(full, key, rate, burst, now);
  }

  lemma TokensInRange(tbl: Table, key: string, rate: real, burst: real, now: real)
    requires rate >= 0.0 && burst >= 0.0 && Sane(tbl, burst, now)
    ensures 0.0 <= Tokens(tbl, key, rate, burst, now) <= burst
  {
    if key in tbl {
      EarnedMore(0.0, now - tbl[key].last, rate);
    }
  }

  lemma {:induction false} RunsAgree(run: seq<Event>, rate: real, burst: real, now: real)
    requires rate >= 0.0 && burst >= 0.0 && Earned(IDLE, rate) >= burst && Ordered(run)
    requires forall i :: 0 <= i < |run| ==> run[i].at <= now
    ensures var full := After(run, false, rate, burst).clients;
            Sane(full, burst, now) && Covers(After(run, true, rate, burst).clients, full, rate, burst, now)
  {
    if run != [] {
      var rest, e := run[..|run| - 1], run[|run| - 1];
      RunsAgree(rest, rate, burst, e.at);
      var s, full := After(rest, true, rate, burst), After(rest, false, rate, burst).clients;
      CoversCollected(s.clients, full, rate, burst, e.at);
      var small := if GCDue(s.lastGC, e.at) then Collected(s.clients, e.at) else s.clients;
      CoversTaken(small, full, e.key, rate, burst, e.at);
      CoversLater(After(run, true, rate, burst).clients, After(run, false, rate, burst).clients,
                  rate, burst, e.at, now);
    }
  }

  lemma AnswersAgree(run: seq<Event>, i: nat, rate: real, burst: real)
    requires rate >= 0.0 && burst >= 0.0 && Earned(IDLE, rate) >= burst && Ordered(run) && i < |run|
    ensures Answer(run, i, true, rate, burst) == Answer(run, i, false, rate, burst)
  {
    var rest, e := run[..i], run[i];
    RunsAgree(rest, rate, burst, e.at);
    var s, full := After(rest, true, rate, burst), After(rest, false, rate, burst).clients;
    CoversCollected(s.clients, full, rate, burst, e.at);
    var small := if GCDue(s.lastGC, e.at) then Collected(s.clients, e.at) else s.clients;
    CoversTaken(small, full, e.key, rate, burst, e.at);
  }

  /** Every answer equals that of a limiter that never collects, provided an
      idle bucket fills up before it is dropped (20 * 600 >= 60 as deployed). */
  lemma {:induction false} CollectionIsUnobservable(run: seq<Event>, i: nat, rate: real, burst: real)
    requires rate >= 0.0 && burst >= 0.0 && 600.0 * rate >= burst && Ordered(run) && i < |run|
    ensures Answer(run, i, true, rate, burst) == Answer(run, i, false, rate, burst)
  {
    EarnedIs(IDLE, rate);
    AnswersAgree(run, i, rate, burst);
  }

  // ---- the window bound ----

  /** Requests of key allowed among events i .. j-1. */
  function Count(run: seq<Event>, i: nat, j: nat, key: string, collecting: bool, rate: real, burst: real): nat
    requires i <= j <= |run|
    decreases j
  {
    if i == j then 0
    else Count(run, i, j - 1, key, collecting, rate, burst)
         + if run[j - 1].key == key && Answer(run, j - 1, collecting, rate, burst) then 1 else 0
  }

  /** What key could spend at once at a given time. */
  function Credit(run: seq<Event>, key: string, rate: real, burst: real, now: real): real {
    Tokens(After(run, false, rate, burst).clients, key, rate, burst, now)
  }

  lemma TokensLater(tbl: Table, key: string, rate: real, burst: real, now: real, later: real)
    requires rate >= 0.0 && now <= later
    ensures Tokens(tbl, key, rate, burst, later) <= Tokens(tbl, key, rate, burst, now) + Earned(later - now, rate)
  {
    EarnedMore(0.0, later - now, rate);
    if key in tbl {
      EarnedSum(now - tbl[key].last, later - now, rate);
      assert now - tbl[key].last + (later - now) == later - tbl[key].last;
    }
  }

  /** One request costs its own client what it was allowed, others nothing. */
  lemma TakenPays(tbl: Table, taker: string, key: string, rate: real, burst: real, now: real)
    ensures Tokens(Taken(tbl, taker, rate, burst, now), key, rate, burst, now)
            == Tokens(tbl, key, rate, burst, now) -
               if taker == key && Allowed(tbl, key, rate, burst, now) then 1.0 else 0.0
  {
    assert now - now == 0.0 && Earned(0.0, rate) == 0.0;
  }

  /** Allowed requests are paid for by the credit at the start of the window
      and the tokens that arrived since. */
  lemma {:induction false} Spent(run: seq<Event>, i: nat, j: nat, key: string, rate: real, burst: real, now: real)
    requires rate >= 0.0 && Ordered(run) && i < j <= |run|
    requires forall k :: 0 <= k < j ==> run[k].at <= now
    ensures Count(run, i, j, key, false, rate, burst) as real + Credit(run[..j], key, rate, burst, now)
            <= burst + Earned(now - run[i].at, rate)
    decreases j
  {
    var e, start := run[j - 1], run[i].at;
    var before := After(run[..j - 1], false, rate, burst).clients;
    assert run[..j][..j - 1] == run[..j - 1];
    var after := Taken(before, e.key, rate, burst, e.at);
    assert After(run[..j], false, rate, burst).clients == after;
    var earlier := Count(run, i, j - 1, key, false, rate, burst);
    assert earlier as real + Tokens(before, key, rate, burst, e.at) <= burst + Earned(e.at - start, rate) by {
      if i < j - 1 {
        Spent(run, i, j - 1, key, rate, burst, e.at);
      } else {
        EarnedMore(0.0, e.at - start, rate);
      }
    }
    TakenPays(before, e.key, key, rate, burst, e.at);
    TokensLater(after, key, rate, burst, e.at, now);
    EarnedSum(e.at - start, now - e.at, rate);
    assert e.at - start + (now - e.at) == now - start;
  }

  lemma {:induction false} CountsAgree(run: seq<Event>, i: nat, j: nat, key: string, rate: real, burst: real)
    requires rate >= 0.0 && burst >= 0.0 && Earned(IDLE, rate) >= burst && Ordered(run) && i <= j <= |run|
    ensures Count(run, i, j, key, true, rate, burst) == Count(run, i, j, key, false, rate, burst)
    decreases j
  {
    if i < j {
      CountsAgree(run, i, j - 1, key, rate, burst);
      AnswersAgree(run, j - 1, rate, burst);
    }
  }

  /** The same up to event n. */
  lemma EarnedBound(run: seq<Event>, i: nat, n: nat, key: string, rate: real, burst: real)
    requires rate >= 0.0 && burst >= 0.0 && Earned(IDLE, rate) >= burst && Ordered(run) && i <= n < |run|
    ensures Count(run, i, n + 1, key, true, rate, burst) as real <= burst + Earned(run[n].at - run[i].at, rate)
  {
    var now := run[n].at;
    CountsAgree(run, i, n + 1, key, rate, burst);
    Spent(run, i, n + 1, key, rate, burst, now);
    RunsAgree(run[..n + 1], rate, burst, now);
    TokensInRange(After(run[..n + 1], false, rate, burst).clients, key, rate, burst, now);
  }

  lemma EarnedWindow(run: seq<Event>, i: nat, j: nat, key: string, rate: real, burst: real)
    requires rate >= 0.0 && burst >= 0.0 && Earned(IDLE, rate) >= burst && Ordered(run) && i < j <= |run|
    ensures Count(run, i, j, key, true, rate, burst) as real <= burst + Earned(run[j - 1].at - run[i].at, rate)
  {
    var n := j - 1;
    EarnedBound(run, i, n, key, rate, burst);
    assert n + 1 == j;
  }

  lemma EarnedIs(span: real, rate: real)
    ensures Earned(span, rate) == span * rate
  {
  }

  /** In any window of any run, from one event to a later one, a client is
      allowed at most burst + window * rate requests. */
  lemma {:induction false} WindowBound(run: seq<Event>, i: nat, j: nat, key: string, rate: real, burst: real)
    requires rate >= 0.0 && burst >= 0.0 && 600.0 * rate >= burst && Ordered(run) && i < j <= |run|
    ensures Count(run, i, j, key, true, rate, burst) as real <= burst + (run[j - 1].at - run[i].at) * rate
  {
    EarnedIs(IDLE, rate);
    EarnedIs(run[j - 1].at - run[i].at, rate);
    EarnedWindow(run, i, j, key, rate, burst);
  }

  // ---- refusals ----

  /** The credit came from a full bucket at event i, less what was allowed
      since. */
  ghost predicate CameFrom(run: seq<Event>, i: int, j: nat, key: string, rate: real, burst: real, now: real,
                           credit: real)
    requires j <= |run|
  {
    0 <= i < j && credit == burst + Earned(now - run[i].at, rate) - Count(run, i, j, key, false, rate, burst) as real
  }

  /** A request by another client. */
  lemma OtherTakes(tbl: Table, taker: string, key: string, rate: real, burst: real, at: real, now: real)
    requires taker != key
    ensures Tokens(Taken(tbl, taker, rate, burst, at), key, rate, burst, now) == Tokens(tbl, key, rate, burst, now)
  {
  }

  /** A request by this one. */
  lemma SelfTakes(tbl: Table, key: string, rate: real, burst: real, at: real, now: real)
    ensures var t := Tokens(tbl, key, rate, burst, at);
            var rest := (if Allowed(tbl, key, rate, burst, at) then t - 1.0 else t) + Earned(now - at, rate);
            Tokens(Taken(tbl, key, rate, burst, at), key, rate, burst, now) == if rest > burst then burst else rest
  {
  }

  lemma EarnedSince(start: real, at: real, now: real, rate: real)
    ensures Earned(now - start, rate) == Earned(at - start, rate) + Earned(now - at, rate)
  {
    EarnedSum(at - start, now - at, rate);
    assert at - start + (now - at) == now - start;
  }

  /** It is the burst, or came from one of the first j events. */
  ghost predicate Sourced(run: seq<Event>, j: nat, key: string, rate: real, burst: real, now: real, credit: real)
    requires j <= |run|
  {
    credit == burst || exists i :: CameFrom(run, i, j, key, rate, burst, now, credit)
  }

  /** What a client can spend is the burst, or comes from a full bucket at one
      of the events. */
  lemma {:induction false} CreditIsSourced(run: seq<Event>, j: nat, key: string, rate: real, burst: real, now: real)
    requires rate >= 0.0 && j <= |run|
    ensures Sourced(run, j, key, rate, burst, now, Credit(run[..j], key, rate, burst, now))
    decreases j
  {
    if j > 0 {
      var e := run[j - 1];
      var before := After(run[..j - 1], false, rate, burst).clients;
      assert run[..j][..j - 1] == run[..j - 1];
      assert After(run[..j], false, rate, burst).clients == Taken(before, e.key, rate, burst, e.at);
      if e.key != key {
        OtherTakes(before, e.key, key, rate, burst, e.at, now);
        CreditIsSourced(run, j - 1, key, rate, burst, now);
        CreditKeeps(run, j - 1, key, rate, burst, now, Credit(run[..j - 1], key, rate, burst, now));
      } else {
        SelfTakes(before, key, rate, burst, e.at, now);
        CreditIsSourced(run, j - 1, key, rate, burst, e.at);
        CreditMoves(run, j - 1, key, rate, burst, now, Credit(run[..j - 1], key, rate, burst, e.at));
      }
    }
  }

  lemma CreditKeeps(run: seq<Event>, n: nat, key: string, rate: real, burst: real, now: real, credit: real)
    requires n < |run| && run[n].key != key && Sourced(run, n, key, rate, burst, now, credit)
    ensures Sourced(run, n + 1, key, rate, burst, now, credit)
  {
    if i :| CameFrom(run, i, n, key, rate, burst, now, credit) {
      assert CameFrom(run, i, n + 1, key, rate, burst, now, credit);
    }
  }

  lemma CreditMoves(run: seq<Event>, n: nat, key: string, rate: real, burst: real, now: real, credit: real)
    requires n < |run| && run[n].key == key && Sourced(run, n, key, rate, burst, run[n].at, credit)
    ensures var paid := if Answer(run, n, false, rate, burst) then 1.0 else 0.0;
            Sourced(run, n + 1, key, rate, burst, now, credit - paid + Earned(now - run[n].at, rate))
  {
    var at, paid := run[n].at, if Answer(run, n, false, rate, burst) then 1.0 else 0.0;
    var rest := credit - paid + Earned(now - at, rate);
    assert Count(run, n, n + 1, key, false, rate, burst) as real == paid;
    if i :| CameFrom(run, i, n, key, rate, burst, at, credit) {
      EarnedSince(run[i].at, at, now, rate);
      assert CameFrom(run, i, n + 1, key, rate, burst, now, rest);
    } else {
      assert CameFrom(run, n, n + 1, key, rate, burst, now, rest);
    }
  }

  /** The window from event i to event j holds all that may be allowed in it
      before j. */
  ghost predicate WindowFull(run: seq<Event>, i: int, j: nat, rate: real, burst: real)
    requires j < |run|
  {
    0 <= i <= j
    && Count(run, i, j, run[j].key, true, rate, burst) as real + 1.0 > burst + (run[j].at - run[i].at) * rate
  }

  lemma LastCounts(run: seq<Event>, i: nat, j: nat, rate: real, burst: real)
    requires i <= j < |run| && Answer(run, j, true, rate, burst)
    ensures Count(run, i, j + 1, run[j].key, true, rate, burst) == Count(run, i, j, run[j].key, true, rate, burst) + 1
  {
  }

  lemma LastFits(run: seq<Event>, i: nat, j: nat, rate: real, burst: real, bound: real)
    requires i <= j < |run| && Answer(run, j, true, rate, burst)
    requires Count(run, i, j + 1, run[j].key, true, rate, burst) as real <= bound
    ensures Count(run, i, j, run[j].key, true, rate, burst) as real + 1.0 <= bound
  {
    LastCounts(run, i, j, rate, burst);
  }

  lemma {:induction false} AllowedIsNotFull(run: seq<Event>, i: nat, j: nat, rate: real, burst: real)
    requires rate >= 0.0 && burst >= 0.0 && 600.0 * rate >= burst && Ordered(run) && i <= j < |run|
    requires Answer(run, j, true, rate, burst)
    ensures !WindowFull(run, i, j, rate, burst)
  {
    EarnedIs(IDLE, rate);
    EarnedIs(run[j].at - run[i].at, rate);
    EarnedBound(run, i, j, run[j].key, rate, burst);
    LastFits(run, i, j, rate, burst, burst + Earned(run[j].at - run[i].at, rate));
  }

  lemma {:induction false} SourceIsFull(run: seq<Event>, i: nat, j: nat, rate: real, burst: real, credit: real)
    requires rate >= 0.0 && burst >= 0.0 && 600.0 * rate >= burst && Ordered(run) && j < |run| && credit < 1.0
    requires CameFrom(run, i, j, run[j].key, rate, burst, run[j].at, credit)
    ensures WindowFull(run, i, j, rate, burst)
  {
    EarnedIs(IDLE, rate);
    EarnedIs(run[j].at - run[i].at, rate);
    CountsAgree(run, i, j, run[j].key, rate, burst);
  }

  lemma {:induction false} RefusedHasNoCredit(run: seq<Event>, j: nat, rate: real, burst: real)
    requires rate >= 0.0 && burst >= 0.0 && 600.0 * rate >= burst && Ordered(run) && j < |run|
    requires !Answer(run, j, true, rate, burst)
    ensures Credit(run[..j], run[j].key, rate, burst, run[j].at) < 1.0
  {
    CollectionIsUnobservable(run, j, rate, burst);
  }

  /** A request is refused exactly if some window that ends with it is full. */
  lemma {:induction false} RefusedExactly(run: seq<Event>, j: nat, rate: real, burst: real)
    requires rate >= 0.0 && burst >= 0.0 && 600.0 * rate >= burst && Ordered(run) && j < |run|
    ensures !Answer(run, j, true, rate, burst) <==> exists i :: WindowFull(run, i, j, rate, burst)
  {
    var key, now := run[j].key, run[j].at;
    if Answer(run, j, true, rate, burst) {
      forall i | 0 <= i <= j ensures !WindowFull(run, i, j, rate, burst) {
        AllowedIsNotFull(run, i, j, rate, burst);
      }
    } else {
      var credit := Credit(run[..j], key, rate, burst, now);
      RefusedHasNoCredit(run, j, rate, burst);
      CreditIsSourced(run, j, key, rate, burst, now);
      if i :| CameFrom(run, i, j, key, rate, burst, now, credit) {
        SourceIsFull(run, i, j, rate, burst, credit);
      } else {
        assert (run[j].at - run[j].at) * rate == 0.0;
        assert WindowFull(run, j, j, rate, burst);
      }
    }
  }

  /** The table is gone through at most once a minute. */
  lemma CollectedOnceAMinute(run: seq<Event>, rate: real, burst: real)
    requires run != []
    ensures var a, b := After(run[..|run| - 1], true, rate, burst).lastGC, After(run, true, rate, burst).lastGC;
            a == b || (b == Some(run[|run| - 1].at) && (a.Some? ==> b.value - a.value > 60.0))
  {
  }

  // ---- what is kept ----

  /** Idle clients are gone a minute after they may be: the last collection was
      at most a minute ago, and left only clients seen in the ten before it. */
  ghost predicate Recent(s: State, now: real) {
    s.lastGC.Some? && now - s.lastGC.value <= 60.0
    && forall k :: k in s.clients ==> s.lastGC.value - s.clients[k].last <= 600.0
  }

  lemma {:induction false} IdleAreForgotten(run: seq<Event>, rate: real, burst: real)
    requires Ordered(run) && run != []
    ensures var s, now := After(run, true, rate, burst), run[|run| - 1].at;
            && Recent(s, now)
            && forall k :: k in s.clients ==> now - s.clients[k].last <= 660.0
  {
    var rest := run[..|run| - 1];
    if rest != [] {
      IdleAreForgotten(rest, rate, burst);
    }
  }
}
