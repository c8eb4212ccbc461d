/** The table of transfer links (internal/transfer/store.go). The database has
    one connection, so each SQL statement is one atomic step; the row functions
    below are the effect of one statement on one row. */
module LinkStore {
  import opened Options

  datatype Kind = Upload | Download | Share

  datatype Session = Session(
    kind: Kind, token: string, expiresAt: int, revoked: bool,
    maxFiles: int, maxBytes: int, files: int, bytes: int)

  datatype Lookup = Usable(sess: Session) | NotFound | Revoked(sess: Session) |
    Expired(sess: Session) | UsedUp(sess: Session)

  datatype Item = Item(at: int, session: string, name: string, size: nat)

  const WEEK_MS := 7 * 24 * 3600 * 1000
  const LOG_MS := 90 * 24 * 3600 * 1000

  /** Session.Active, and the WHERE clause that lists active links. */
  predicate Active(s: Session, now: int) {
    !s.revoked && now < s.expiresAt && s.files < s.maxFiles && s.bytes < s.maxBytes
  }

  /** What a lookup that found its row answers. */
  function Verdict(s: Session, now: int): Lookup {
    if s.revoked then Revoked(s)
    else if now >= s.expiresAt then Expired(s)
    else if s.files >= s.maxFiles || s.bytes >= s.maxBytes then UsedUp(s)
    else Usable(s)
  }

  /** The guard of Reserve; unlike a lookup it does not look at the clock. */
  predicate CanReserve(s: Session) { !s.revoked && s.files < s.maxFiles && s.bytes < s.maxBytes }

  /** What each answer to a lookup means. */
  lemma VerdictExactly(s: Session, now: int)
    ensures var r := Verdict(s, now);
            && r.sess == s
            && (r.Revoked? <==> s.revoked)
            && (r.Expired? <==> !s.revoked && s.expiresAt <= now)
            && (r.UsedUp? <==> !s.revoked && now < s.expiresAt && (s.maxFiles <= s.files || s.maxBytes <= s.bytes))
            && (r.Usable? <==> !s.revoked && now < s.expiresAt && s.files < s.maxFiles && s.bytes < s.maxBytes)
            && (r.Usable? <==> Active(s, now))
            && (r.Usable? ==> CanReserve(s))
  {
  }

  function Reserved(s: Session): Session { s.(files := s.files + 1) }
  function Released(s: Session): Session { s.(files := if s.files - 1 > 0 then s.files - 1 else 0) }
  function Charged(s: Session, size: nat): Session { s.(bytes := s.bytes + size) }
  function Left(s: Session): nat { if s.bytes >= s.maxBytes then 0 else s.maxBytes - s.bytes }

  lemma ReleaseUndoesReserve(s: Session)
    requires s.files >= 0
    ensures Released(Reserved(s)) == s
    ensures s.files > 0 && CanReserve(Released(s)) ==> Reserved(Released(s)) == s
  {
  }

  /** The table after Record, for a link that is still there or is gone. */
  function ChargedIn(sessions: map<string, Session>, id: string, size: nat): map<string, Session> {
    if id in sessions then sessions[id := Charged(sessions[id], size)] else sessions
  }

  /** The log entries from cutoff on, in order. */
  function Since(items: seq<Item>, cutoff: int): seq<Item> {
    if items == [] then []
    else Since(items[..|items| - 1], cutoff) + if items[|items| - 1].at >= cutoff then [items[|items| - 1]] else []
  }

  /** Which entries those are: each is kept or not on its own. */
  lemma {:induction false} SinceExactly(a: seq<Item>, i: Item, b: seq<Item>, cutoff: int)
    ensures Since(a + [i] + b, cutoff) == Since(a, cutoff) + (if i.at < cutoff then [] else [i]) + Since(b, cutoff)
  {
    if b == [] {
      assert a + [i] + b == a + [i] && (a + [i])[..|a|] == a;
    } else {
      var init, s := b[..|b| - 1], a + [i] + b;
      assert s[..|s| - 1] == a + [i] + init && s[|s| - 1] == b[|b| - 1];
      SinceExactly(a, i, init, cutoff);
    }
  }

  /** Unless the database is reliable, a statement that changes rows may fail
      with or without its effect, and the read of Remaining may fail. */
  class Store {
    var sessions: map<string, Session>
    var activity: seq<Item>
    const reliable: bool

    /** Token hashes are unique. */
    ghost predicate Valid()
      reads this
    {
      forall i, j :: i in sessions && j in sessions && sessions[i].token == sessions[j].token ==> i == j
    }

    constructor (reliable: bool)
      ensures Valid() && sessions == map[] && activity == [] && this.reliable == reliable
    {
      this.reliable, sessions, activity := reliable, map[], [];
    }

    method Fails() returns (err: bool)
      ensures reliable ==> !err
    {
      err := *;
      err := err && !reliable;
    }

    /** A new link under a fresh id and token; it is active until its time is
        over, or never if it allows nothing. */
    method Create(id: string, kind: Kind, token: string, now: int, ttl: nat, maxFiles: int, maxBytes: int)
      returns (err: bool)
      requires Valid() && id !in sessions && forall i :: i in sessions ==> sessions[i].token != token
      modifies this`sessions
      ensures Valid() && forall i :: i in old(sessions) ==> i in sessions && sessions[i] == old(sessions)[i]
      ensures sessions.Keys == old(sessions).Keys || sessions.Keys == old(sessions).Keys + {id}
      ensures id in sessions ==>
                && sessions[id].token == token && sessions[id].kind == kind
                && forall t :: Active(sessions[id], t) <==> t < now + ttl && maxFiles > 0 && maxBytes > 0
      ensures !err ==> id in sessions
      ensures reliable ==> !err
    {
      err := Fails();
      var applied := *;
      if !err || applied {
        sessions := sessions[id := Session(kind, token, now + ttl, false, maxFiles, maxBytes, 0, 0)];
      }
    }

    method Lookup(token: string, kind: Kind, now: int) returns (r: Lookup)
      requires Valid()
      ensures |token| < 40 || |token| > 64 ==> r == NotFound
      ensures 40 <= |token| <= 64 ==>
                forall id :: id in sessions && sessions[id].token == token && sessions[id].kind == kind ==>
                  r == Verdict(sessions[id], now)
      ensures r != NotFound ==> exists id :: id in sessions && sessions[id].token == token && sessions[id].kind == kind
      ensures r.Usable? ==> Active(r.sess, now) && r.sess.kind == kind
    {
      if |token| < 40 || |token| > 64 {
        return NotFound;
      }
      if id :| id in sessions && sessions[id].token == token && sessions[id].kind == kind {
        return Verdict(sessions[id], now);
      }
      return NotFound;
    }

    method Reserve(id: string) returns (ok: bool)
      modifies this`sessions
      ensures ok ==> id in old(sessions) && CanReserve(old(sessions)[id])
      ensures ok ==> sessions == old(sessions)[id := Reserved(old(sessions)[id])]
      ensures sessions == old(sessions)
              || (id in old(sessions) && CanReserve(old(sessions)[id])
                  && sessions == old(sessions)[id := Reserved(old(sessions)[id])])
      ensures reliable ==>
                (ok <==> id in old(sessions) && CanReserve(old(sessions)[id])) && (!ok ==> sessions == old(sessions))
    {
      var err := Fails();
      var applied := *;
      ok := id in sessions && CanReserve(sessions[id]);
      if ok && (!err || applied) {
        sessions := sessions[id := Reserved(sessions[id])];
      }
      ok := ok && !err;
    }

    method Release(id: string)
      modifies this`sessions
      ensures sessions == old(sessions)
              || (id in old(sessions) && sessions == old(sessions)[id := Released(old(sessions)[id])])
      ensures reliable && id in old(sessions) ==> sessions == old(sessions)[id := Released(old(sessions)[id])]
    {
      var err := Fails();
      var applied := *;
      if id in sessions && (!err || applied) {
        sessions := sessions[id := Released(sessions[id])];
      }
    }

    /** One transaction: the byte counter and the activity log move together or
        not at all. */
    method Record(id: string, now: int, name: string, size: nat) returns (err: bool)
      modifies this
      ensures (sessions == old(sessions) && activity == old(activity))
              || (sessions == ChargedIn(old(sessions), id, size)
                  && activity == old(activity) + [Item(now, id, name, size)])
      ensures !err ==> sessions == ChargedIn(old(sessions), id, size)
                       && activity == old(activity) + [Item(now, id, name, size)]
      ensures reliable ==> !err
    {
      err := Fails();
      var applied := *;
      if !err || applied {
        if id in sessions {
          sessions := sessions[id := Charged(sessions[id], size)];
        }
        activity := activity + [Item(now, id, name, size)];
      }
    }

    /** What the link still takes: something exactly while its bytes are below
        the limit, and then just enough to reach it. */
    method Remaining(id: string) returns (left: Option<int>)
      ensures left.Some? ==> id in sessions
      ensures left.Some? ==> left.value >= 0 && (left.value > 0 <==> sessions[id].bytes < sessions[id].maxBytes)
      ensures left.Some? && left.value > 0 ==> sessions[id].bytes + left.value == sessions[id].maxBytes
      ensures reliable && id in sessions ==> left.Some?
    {
      var err := Fails();
      if err || id !in sessions {
        return None;
      }
      var used, max := sessions[id].bytes, sessions[id].maxBytes;
      if used >= max {
        return Some(0);
      }
      return Some(max - used);
    }

    /** Unless it reports an error the link is there and never active again. */
    method Revoke(id: string) returns (err: bool)
      modifies this`sessions
      ensures sessions == old(sessions)
              || (id in old(sessions) && sessions == old(sessions)[id := old(sessions)[id].(revoked := true)])
      ensures !err ==> id in sessions && forall t :: !Active(sessions[id], t)
      ensures reliable ==> (err <==> id !in old(sessions))
    {
      err := Fails();
      var applied := *;
      if id in sessions && (!err || applied) {
        sessions := sessions[id := sessions[id].(revoked := true)];
      }
      err := err || id !in sessions;
    }

    /** Drops links that ended over a week ago; none of them was usable. */
    method Prune(now: int)
      modifies this
      ensures sessions ==
              map id | id in old(sessions) && old(sessions)[id].expiresAt >= now - WEEK_MS :: old(sessions)[id]
      ensures forall id :: id in old(sessions) && id !in sessions ==> !Active(old(sessions)[id], now)
      ensures activity == Since(old(activity), now - LOG_MS)
    {
      sessions := map id | id in sessions && sessions[id].expiresAt >= now - WEEK_MS :: sessions[id];
      var kept := [];
      for i := 0 to |activity|
        invariant kept == Since(activity[..i], now - LOG_MS)
      {
        assert activity[..i + 1][..i] == activity[..i];
        if activity[i].at >= now - LOG_MS {
          kept := kept + [activity[i]];
        }
      }
      assert activity[..|activity|] == activity;
      activity := kept;
    }
  }
}

/** Receiving one phone's request (internal/transfer/server.go), with the link
    to itself. UploadProtocol interleaves the same steps. */
module Receiving {
  import opened Options
  import opened LinkStore

  /** What Save did with a part: its name and size, or an error. */
  datatype Part = Part(name: string, size: nat, saves: bool)
  datatype Saved = Saved(name: string, size: nat)

  function SavedBytes(items: seq<Saved>): nat {
    if items == [] then 0 else SavedBytes(items[..|items| - 1]) + items[|items| - 1].size
  }

  function LogOf(items: seq<Saved>, id: string, now: int): seq<Item> {
    seq(|items|, i requires 0 <= i < |items| => Item(now, id, items[i].name, items[i].size))
  }

  /** The row after items were received on it. */
  function Received(s: Session, items: seq<Saved>): Session {
    s.(files := s.files + |items|, bytes := s.bytes + SavedBytes(items))
  }

  /** When a part is taken: the link and the drive both have room for it. */
  predicate Accepts(s: Session, room: Option<int>, part: Part) {
    CanReserve(s) && part.saves && part.size <= Left(s) && (room.Some? ==> 0 < room.value && part.size <= room.value)
  }

  type Table = map<string, Session>

  /** The table and the log after a part was saved: one more file, and its bytes
      and its log entry together or not at all; charged says which. */
  predicate Taken(before: Table, log: seq<Item>, after: Table, logged: seq<Item>,
                  id: string, item: Item, charged: bool) {
    && id in before
    && after == before[id := if charged then Charged(Reserved(before[id]), item.size) else Reserved(before[id])]
    && logged == if charged then log + [item] else log
  }

  /** After a part was not saved: nothing changed, or a claim is left over. */
  predicate NotTaken(before: Table, log: seq<Item>, after: Table, logged: seq<Item>, id: string, leftOver: bool) {
    && logged == log
    && if leftOver then id in before && CanReserve(before[id]) && after == before[id := Reserved(before[id])]
       else after == before
  }

  /** saveOne. room is the drive's free space above the reserve, when known. A
      saved part is always accounted a file, and its bytes and log entry
      together; with a reliable database it is charged exactly if accepted, and
      a part that is not saved leaves no trace on the link. */
  method SaveOne(store: Store, id: string, now: int, room: Option<int>, part: Part)
    returns (r: Option<Saved>, ghost exact: bool)
    requires id in store.sessions ==> 0 <= store.sessions[id].files
    modifies store
    ensures r.Some? ==> id in old(store.sessions) && Accepts(old(store.sessions)[id], room, part)
                        && r.value == Saved(part.name, part.size)
    ensures r.Some? ==>
              Taken(old(store.sessions), old(store.activity), store.sessions, store.activity,
                    id, Item(now, id, part.name, part.size), exact)
    ensures r.None? ==> NotTaken(old(store.sessions), old(store.activity), store.sessions, store.activity, id, !exact)
    ensures store.reliable ==>
              exact && (r.Some? <==> id in old(store.sessions) && Accepts(old(store.sessions)[id], room, part))
  {
    var ok := store.Reserve(id);
    if !ok {
      return None, store.sessions == old(store.sessions);
    }
    ReleaseUndoesReserve(old(store.sessions)[id]);
    var left := store.Remaining(id);
    if left.None? {
      store.Release(id);
      return None, store.sessions == old(store.sessions);
    }
    var limit := left.value;
    if room.Some? {
      if room.value <= 0 {
        store.Release(id);
        return None, store.sessions == old(store.sessions);
      }
      if room.value < limit {
        limit := room.value;
      }
    }
    if !part.saves || part.size > limit {
      store.Release(id);
      return None, store.sessions == old(store.sessions);
    }
    var err := store.Record(id, now, part.name, part.size);
    return Some(Saved(part.name, part.size)), |store.activity| > |old(store.activity)|;
  }

  /** A row after items were received on it, at most extra more files claimed,
      and at most their bytes charged. */
  predicate Between(before: Session, after: Session, items: seq<Saved>, extra: nat) {
    && after == before.(files := after.files, bytes := after.bytes)
    && before.files + |items| <= after.files <= before.files + |items| + extra
    && before.bytes <= after.bytes <= before.bytes + SavedBytes(items)
    && (before.files <= before.maxFiles ==> after.files <= after.maxFiles)
    && (before.bytes <= before.maxBytes ==> after.bytes <= after.maxBytes)
  }

  lemma TakenStep(first: Session, row: Session, next: Session, items: seq<Saved>, item: Saved)
    requires Between(first, row, items, 0) && CanReserve(row) && item.size <= Left(row)
    requires next == Reserved(row) || next == Charged(Reserved(row), item.size)
    ensures Between(first, next, items + [item], 0)
    ensures next == Charged(Reserved(row), item.size) && row == Received(first, items) ==>
              next == Received(first, items + [item])
  {
    assert (items + [item])[..|items|] == items;
  }

  lemma LogStep(items: seq<Saved>, item: Saved, id: string, now: int)
    ensures LogOf(items + [item], id, now) == LogOf(items, id, now) + [Item(now, id, item.name, item.size)]
  {
  }

  /** receive: the file parts in order until one fails; the free space is read
      anew for each. The parts reported saved are always accounted, alone the
      link never exceeds its limits, and no other link is touched; with a
      reliable database the link is charged for exactly the saved parts. */
  method Receive(store: Store, id: string, now: int, rooms: seq<Option<int>>, parts: seq<Part>)
    returns (saved: seq<Saved>, complete: bool)
    requires id in store.sessions && 0 <= store.sessions[id].files && |rooms| == |parts|
    modifies store
    ensures |saved| <= |parts| && complete == (|saved| == |parts|)
    ensures forall i :: 0 <= i < |saved| ==> saved[i] == Saved(parts[i].name, parts[i].size)
    ensures id in store.sessions && store.sessions == old(store.sessions)[id := store.sessions[id]]
    ensures Between(old(store.sessions)[id], store.sessions[id], saved, if complete then 0 else 1)
    ensures store.reliable ==>
              && store.sessions[id] == Received(old(store.sessions)[id], saved)
              && store.activity == old(store.activity) + LogOf(saved, id, now)
              && (!complete ==> !Accepts(Received(old(store.sessions)[id], saved), rooms[|saved|], parts[|saved|]))
  {
    saved := [];
    ghost var first := store.sessions[id];
    for i := 0 to |parts|
      invariant |saved| == i
      invariant forall k :: 0 <= k < i ==> saved[k] == Saved(parts[k].name, parts[k].size)
      invariant id in store.sessions && store.sessions == old(store.sessions)[id := store.sessions[id]]
      invariant Between(first, store.sessions[id], saved, 0)
      invariant store.reliable ==> store.sessions[id] == Received(first, saved)
      invariant store.reliable ==> store.activity == old(store.activity) + LogOf(saved, id, now)
    {
      ghost var row := store.sessions[id];
      var r, exact := SaveOne(store, id, now, rooms[i], parts[i]);
      if r.None? {
        return saved, false;
      }
      TakenStep(first, row, store.sessions[id], saved, r.value);
      LogStep(saved, r.value, id, now);
      saved := saved + [r.value];
    }
    return saved, true;
  }
}
