/** The sign-in limiter (internal/auth/limiter.go): after five failures a key
    is locked, for a minute at first and doubling up to fifteen. Times are
    nanoseconds. */
module LoginLimiter {
  import opened Options

  const FREE_ATTEMPTS := 5
  const BASE := 60_000_000_000
  const MAX := 15 * BASE
  const HOUR := 60 * BASE
  const TWO_64 := 0x1_0000_0000_0000_0000
  const TWO_63 := 0x8000_0000_0000_0000

  // ---- the lockout time ----

  function Pow2(n: nat): (p: nat)
    ensures p >= 1
  {
    if n == 0 then 1 else 2 * Pow2(n - 1)
  }

  /** A 64-bit two's complement integer. */
  function Wrap64(x: int): int {
    var m := x % TWO_64;
    if m >= TWO_63 then m - TWO_64 else m
  }

  /** baseLockout << n on int64: shifted left n times, bits above 64 lost. */
  function Shifted(n: nat): int { Wrap64(BASE * Pow2(n)) }

  /** The lockout the code computes for this many failures. */
  function Lockout(failures: nat): int
    requires failures >= FREE_ATTEMPTS
  {
    var d := Shifted(failures - FREE_ATTEMPTS);
    if d > MAX || d <= 0 then MAX else d
  }

  lemma {:induction false} Pow2Sum(a: nat, b: nat)
    ensures Pow2(a + b) == Pow2(a) * Pow2(b)
  {
    if a > 0 {
      Pow2Sum(a - 1, b);
      assert Pow2(a + b) == 2 * Pow2(a - 1 + b);
    }
  }

  lemma {:induction false} Pow2AtLeast(a: nat, b: nat)
    requires a <= b
    ensures Pow2(a) <= Pow2(b)
  {
    if a < b {
      Pow2AtLeast(a, b - 1);
    }
  }

  lemma Pow2Values()
    ensures Pow2(4) == 16 && Pow2(27) == 0x800_0000 && Pow2(28) == 0x1000_0000 && Pow2(29) == 0x2000_0000
  {
    assert Pow2(8) == 256;
    Pow2Sum(8, 8);
    Pow2Sum(16, 8);
    Pow2Sum(24, 3);
    assert Pow2(3) == 8;
  }

  /** Multiples of 2^40 stay multiples of 2^40 when reduced modulo 2^64. */
  lemma HighBitsOnly(k: nat)
    ensures var d := Wrap64(k * 0x100_0000_0000); d <= 0 || d >= 0x100_0000_0000
  {
    var q, r := k / 0x100_0000, k % 0x100_0000;
    assert k * 0x100_0000_0000 == q * TWO_64 + r * 0x100_0000_0000;
    ModUnique(k * 0x100_0000_0000, q, r * 0x100_0000_0000);
  }

  lemma ModUnique(x: int, q: int, r: int)
    requires x == q * TWO_64 + r && 0 <= r < TWO_64
    ensures x % TWO_64 == r
  {
  }

  /** However far the shift overflows (negative, zero or a wrong positive
      value), the clamp yields min(1 minute * 2^(failures-5), 15 minutes). */
  lemma {:induction false} LockoutIsExact(failures: nat)
    requires failures >= FREE_ATTEMPTS
    ensures var exact := BASE * Pow2(failures - FREE_ATTEMPTS);
            Lockout(failures) == if exact < MAX then exact else MAX
  {
    var n := failures - FREE_ATTEMPTS;
    Pow2Values();
    if n <= 27 {
      Pow2AtLeast(n, 27);
    } else if n > 28 {
      Pow2Sum(29, n - 29);
      assert BASE * Pow2(n) == (29296875 * Pow2(n - 29)) * 0x100_0000_0000;
      HighBitsOnly(29296875 * Pow2(n - 29));
      Pow2AtLeast(4, n);
    }
  }

  // ---- the table ----

  /** until is None while the key was never locked. */
  datatype Entry = Entry(failures: nat, until: Option<int>, last: int)
  type Table = map<string, Entry>

  predicate Locked(t: Table, key: string, now: int) {
    key in t && t[key].until.Some? && now < t[key].until.value
  }

  function Wait(t: Table, key: string, now: int): nat {
    if Locked(t, key, now) then t[key].until.value - now else 0
  }

  function Collected(t: Table, now: int): Table {
    map k | k in t && now - t[k].last <= HOUR :: t[k]
  }

  function Failed(e: Entry, now: int): Entry {
    var n := e.failures + 1;
    Entry(n, if n >= FREE_ATTEMPTS then Some(now + Lockout(n)) else e.until, now)
  }

  function FailedKey(t: Table, key: string, now: int): Table {
    t[key := Failed(if key in t then t[key] else Entry(0, None, now), now)]
  }

  function FailedKeys(t: Table, keys: seq<string>, now: int): Table {
    if keys == [] then t else FailedKey(FailedKeys(t, keys[..|keys| - 1], now), keys[|keys| - 1], now)
  }

  class Limiter {
    var state: Table

    constructor ()
      ensures state == map[]
    {
      state := map[];
    }

    /** The longest wait over the keys; blocked when any of them is locked. */
    method Blocked(keys: seq<string>, now: int) returns (wait: int, blocked: bool)
      ensures blocked <==> exists k :: k in keys && Locked(state, k, now)
      ensures forall k :: k in keys ==> Wait(state, k, now) <= wait
      ensures wait == 0 || exists k :: k in keys && Wait(state, k, now) == wait
    {
      wait := 0;
      for i := 0 to |keys|
        invariant wait >= 0
        invariant forall j :: 0 <= j < i ==> Wait(state, keys[j], now) <= wait
        invariant wait == 0 || exists j :: 0 <= j < i && Wait(state, keys[j], now) == wait
      {
        var k := keys[i];
        if k in state && state[k].until.Some? && now < state[k].until.value {
          var d := state[k].until.value - now;
          if d > wait {
            assert Wait(state, keys[i], now) == d;
            wait := d;
          }
        }
      }
      blocked := wait > 0;
      if k :| k in keys && Locked(state, k, now) {
        assert Wait(state, k, now) > 0;
      }
    }

    method Fail(keys: seq<string>, now: int)
      modifies this
      ensures state == FailedKeys(Collected(old(state), now), keys, now)
    {
      Collect(now);
      ghost var start := state;
      for i := 0 to |keys|
        invariant state == FailedKeys(start, keys[..i], now)
      {
        assert keys[..i + 1][..i] == keys[..i];
        var k := keys[i];
        if k !in state {
          state := state[k := Entry(0, None, now)];
        }
        var e := state[k];
        var failures, until := e.failures + 1, e.until;
        if failures >= FREE_ATTEMPTS {
          var d := Shifted(failures - FREE_ATTEMPTS);
          if d > MAX || d <= 0 {
            d := MAX;
          }
          until := Some(now + d);
        }
        state := state[k := Entry(failures, until, now)];
      }
      assert keys[..|keys|] == keys;
    }

    method Collect(now: int)
      modifies this
      ensures state == Collected(old(state), now)
    {
      var todo := state.Keys;
      while todo != {}
        invariant todo <= state.Keys
        invariant forall k :: k in state ==> k in old(state) && state[k] == old(state)[k]
        invariant forall k :: k in old(state) && k !in todo ==> (k in state <==> now - old(state)[k].last <= HOUR)
        decreases |todo|
      {
        var k :| k in todo;
        todo := todo - {k};
        if now - state[k].last > HOUR {
          state := state - {k};
        }
      }
    }

    method Succeed(keys: seq<string>)
      modifies this
      ensures state == old(state) - set k | k in keys
    {
      for i := 0 to |keys|
        invariant state == old(state) - set k | k in keys[..i]
      {
        state := state - {keys[i]};
      }
      assert keys[..|keys|] == keys;
    }
  }

  // ---- runs ----

  /** One call of Fail, or of Succeed when ok. */
  datatype Event = Event(ok: bool, keys: seq<string>, at: int)

  predicate Ordered(run: seq<Event>) { forall i, j :: 0 <= i < j < |run| ==> run[i].at <= run[j].at }

  function After(run: seq<Event>): Table {
    if run == [] then map[]
    else
      var t, e := After(run[..|run| - 1]), run[|run| - 1];
      if e.ok then t - set k | k in e.keys else FailedKeys(Collected(t, e.at), e.keys, e.at)
  }

  /** No lockout outlasts its failure by more than fifteen minutes. */
  ghost predicate Bounded(t: Table) {
    forall k :: k in t && t[k].until.Some? ==> t[k].until.value <= t[k].last + MAX
  }

  lemma {:induction false} FailedKeysBounded(t: Table, keys: seq<string>, now: int)
    requires Bounded(t) && forall k :: k in t ==> t[k].last <= now
    ensures Bounded(FailedKeys(t, keys, now)) && forall k :: k in FailedKeys(t, keys, now) ==>
              FailedKeys(t, keys, now)[k].last <= now
  {
    if keys != [] {
      FailedKeysBounded(t, keys[..|keys| - 1], now);
    }
  }

  lemma {:induction false} RunsBounded(run: seq<Event>, now: int)
    requires Ordered(run) && forall i :: 0 <= i < |run| ==> run[i].at <= now
    ensures Bounded(After(run)) && forall k :: k in After(run) ==> After(run)[k].last <= now
  {
    if run != [] {
      var e := run[|run| - 1];
      RunsBounded(run[..|run| - 1], e.at);
      FailedKeysBounded(Collected(After(run[..|run| - 1]), e.at), e.keys, e.at);
    }
  }

  /** The hourly collection never removes a key that is still locked. */
  lemma {:induction false} CollectionKeepsLocked(run: seq<Event>, key: string, now: int)
    requires Ordered(run) && forall i :: 0 <= i < |run| ==> run[i].at <= now
    ensures Locked(Collected(After(run), now), key, now) <==> Locked(After(run), key, now)
  {
    RunsBounded(run, now);
  }

  // ---- when a key is locked ----

  /** How often a key is mentioned. */
  function Mentions(keys: seq<string>, key: string): nat {
    if keys == [] then 0 else Mentions(keys[..|keys| - 1], key) + if keys[|keys| - 1] == key then 1 else 0
  }

  /** Failures of a key in a row, and the time of the last: a success ends the
      row, and so does an hour without a failure. */
  datatype Row = Row(failures: nat, last: int)

  function RowOf(run: seq<Event>, key: string): Row {
    if run == [] then Row(0, 0)
    else
      var r, e := RowOf(run[..|run| - 1], key), run[|run| - 1];
      var m := Mentions(e.keys, key);
      if m == 0 then r
      else if e.ok then Row(0, e.at)
      else Row((if e.at - r.last > HOUR then 0 else r.failures) + m, e.at)
  }

  /** The table knows the row, unless it is over. */
  ghost predicate Knows(t: Table, key: string, r: Row, now: int) {
    if key in t then
      && t[key].failures == r.failures > 0 && t[key].last == r.last <= now
      && (r.failures >= 5 ==> t[key].until == Some(r.last + Lockout(r.failures)))
      && (r.failures < 5 ==> t[key].until == None)
    else r.failures == 0 || now - r.last > HOUR
  }

  lemma {:induction false} MentionsExactly(keys: seq<string>, key: string)
    ensures Mentions(keys, key) > 0 <==> key in keys
  {
    if keys != [] {
      MentionsExactly(keys[..|keys| - 1], key);
      assert keys == keys[..|keys| - 1] + [keys[|keys| - 1]];
    }
  }

  /** A Fail that mentions a key m times charges it m times. */
  lemma {:induction false} FailsCharge(t: Table, keys: seq<string>, now: int, key: string, n: nat)
    requires if key in t then t[key].failures == n && (n < 5 ==> t[key].until == None) else n == 0
    ensures var u, m := FailedKeys(t, keys, now), Mentions(keys, key);
            if m == 0 then (key in u <==> key in t) && (key in t ==> u[key] == t[key])
            else key in u && u[key] == Entry(n + m, if n + m >= 5 then Some(now + Lockout(n + m)) else None, now)
  {
    if keys != [] {
      FailsCharge(t, keys[..|keys| - 1], now, key, n);
    }
  }

  lemma {:induction false} RowIsKnown(run: seq<Event>, key: string, now: int)
    requires Ordered(run) && forall i :: 0 <= i < |run| ==> run[i].at <= now
    ensures Knows(After(run), key, RowOf(run, key), now)
  {
    if run != [] {
      var rest, e := run[..|run| - 1], run[|run| - 1];
      RowIsKnown(rest, key, e.at);
      MentionsExactly(e.keys, key);
      if !e.ok {
        var t := Collected(After(rest), e.at);
        FailsCharge(t, e.keys, e.at, key, if key in t then t[key].failures else 0);
      }
    }
  }

  /** In every run a key is locked exactly if it failed five times or more in a
      row and the last failure was less than min(1 minute * 2^(failures-5),
      15 minutes) ago. */
  lemma {:induction false} LockedExactly(run: seq<Event>, key: string, now: int)
    requires Ordered(run) && forall i :: 0 <= i < |run| ==> run[i].at <= now
    ensures var r := RowOf(run, key);
            Locked(After(run), key, now) <==>
              r.failures >= 5
              && now < r.last + 60_000_000_000 * (if Pow2(r.failures - 5) < 15 then Pow2(r.failures - 5) else 15)
  {
    var r := RowOf(run, key);
    RowIsKnown(run, key, now);
    if r.failures >= 5 {
      LockoutIsExact(r.failures);
    }
  }

  /** After a Fail no key is kept whose last failure is over an hour ago. */
  lemma {:induction false} IdleIsForgotten(run: seq<Event>, key: string)
    requires Ordered(run) && run != [] && !run[|run| - 1].ok && key in After(run)
    ensures run[|run| - 1].at - RowOf(run, key).last <= 3600 * 1_000_000_000 && RowOf(run, key).failures > 0
  {
    var rest, e := run[..|run| - 1], run[|run| - 1];
    var t := Collected(After(rest), e.at);
    RowIsKnown(run, key, e.at);
    RowIsKnown(rest, key, e.at);
    MentionsExactly(e.keys, key);
    FailsCharge(t, e.keys, e.at, key, if key in t then t[key].failures else 0);
  }

  // ---- how long guessing takes ----

  /** The times at which key failed. */
  function Times(run: seq<Event>, key: string): seq<int> {
    if run == [] then []
    else
      var e := run[|run| - 1];
      Times(run[..|run| - 1], key) + if !e.ok && key in e.keys then [e.at] else []
  }

  /** A run a guesser can make on key: attempts only while unlocked, no
      success, never more than an hour between failures. */
  ghost predicate Guessing(run: seq<Event>, key: string) {
    && Ordered(run)
    && (forall i :: 0 <= i < |run| && key in run[i].keys ==>
          !run[i].ok && !Locked(After(run[..i]), key, run[i].at) && Once(run[i].keys, key))
    && (forall j :: 0 < j < |Times(run, key)| ==> Times(run, key)[j] - Times(run, key)[j - 1] <= HOUR)
  }

  predicate Once(keys: seq<string>, key: string) {
    forall i, j :: 0 <= i < j < |keys| && keys[i] == key ==> keys[j] != key
  }

  /** The lockouts served between the fifth failure and the k-th. */
  function Served(k: nat): int {
    if k <= FREE_ATTEMPTS then 0 else Served(k - 1) + Lockout(k - 1)
  }

  lemma {:induction false} FailedKeysAt(t: Table, keys: seq<string>, now: int, key: string)
    requires Once(keys, key)
    ensures var u := FailedKeys(t, keys, now);
            if key in keys then key in u && u[key] == Failed(if key in t then t[key] else Entry(0, None, now), now)
            else (key in u <==> key in t) && (key in t ==> u[key] == t[key])
  {
    if keys != [] {
      var rest, last := keys[..|keys| - 1], keys[|keys| - 1];
      FailedKeysAt(t, rest, now, key);
      assert keys == rest + [last];
    }
  }

  /** What the table knows about key while an hour has not passed. */
  ghost predicate Tracks(t: Table, times: seq<int>, key: string, now: int) {
    var n := |times|;
    if n == 0 then key !in t
    else now - times[n - 1] <= HOUR ==>
      key in t && t[key].failures == n && t[key].last == times[n - 1]
      && (n >= FREE_ATTEMPTS ==> t[key].until == Some(times[n - 1] + Lockout(n)))
  }

  lemma {:induction false} GuessingIsTracked(run: seq<Event>, key: string, now: int)
    requires Guessing(run, key) && forall i :: 0 <= i < |run| ==> run[i].at <= now
    ensures Tracks(After(run), Times(run, key), key, now)
    ensures forall j :: 0 <= j < |Times(run, key)| ==> Times(run, key)[j] <= now
    ensures var ts := Times(run, key);
            forall k :: FREE_ATTEMPTS <= k <= |ts| ==> ts[k - 1] - ts[4] >= Served(k)
  {
    if run != [] {
      var rest, e := run[..|run| - 1], run[|run| - 1];
      GuessingPrefix(run, key);
      GuessingIsTracked(rest, key, e.at);
      var ts, t := Times(rest, key), After(rest);
      if key in e.keys {
        assert !e.ok && !Locked(After(run[..|run| - 1]), key, e.at);
        assert Times(run, key) == ts + [e.at];
        if ts != [] {
          assert Times(run, key)[|ts|] - Times(run, key)[|ts| - 1] <= HOUR;
        }
        FailedKeysAt(Collected(t, e.at), e.keys, e.at, key);
      } else if !e.ok {
        FailedKeysAt(Collected(t, e.at), e.keys, e.at, key);
      }
    }
  }

  lemma GuessingPrefix(run: seq<Event>, key: string)
    requires Guessing(run, key) && run != []
    ensures Guessing(run[..|run| - 1], key)
  {
    var rest := run[..|run| - 1];
    forall i | 0 <= i < |rest| && key in rest[i].keys
      ensures !rest[i].ok && !Locked(After(rest[..i]), key, rest[i].at) && Once(rest[i].keys, key)
    {
      assert rest[..i] == run[..i] && rest[i] == run[i];
    }
    assert Times(rest, key) <= Times(run, key);
  }

  /** The k-th failure comes at least the sum of the lockouts after the fifth
      to the (k-1)-th failure, each min(2^(j-5), 15) minutes. */
  lemma GuessingIsSlow(run: seq<Event>, key: string, k: nat)
    requires Guessing(run, key) && FREE_ATTEMPTS <= k <= |Times(run, key)|
    ensures Times(run, key)[k - 1] - Times(run, key)[4] >= Served(k)
  {
    if run != [] {
      GuessingIsTracked(run, key, run[|run| - 1].at);
    }
  }
}
