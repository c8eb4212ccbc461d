/** The destination folder of an upload and the publishing of one finished
    temporary file into it (internal/transfer/save.go). The folder is a map
    from names to inodes; the two kernel primitives never replace a name. */
module Publish {
  import opened Names
  import Sets

  type Inode = nat
  type Entries = map<string, Inode>

  datatype Errno = Ok | Exists | Unsupported | TooManyLinks | Fault
  datatype Error = NoSafePublish | NoFreeName | Failed
  datatype Outcome = Published(name: string) | Refused(error: Error)

  const ATTEMPTS := 10000

  /** What a successful renameat2(RENAME_NOREPLACE) and linkat() leave. */
  function Renamed(e: Entries, from: string, to: string): Entries
    requires from in e
  {
    (e - {from})[to := e[from]]
  }

  function Linked(e: Entries, from: string, to: string): Entries
    requires from in e
  {
    e[to := e[from]]
  }

  /** The first n candidates of name. */
  function Tried(name: string, n: nat): set<string> {
    if n == 0 then {} else Tried(name, n - 1) + {Candidate(name, n - 1)}
  }

  lemma {:induction false} TriedCount(e: Entries, name: string, n: nat)
    requires forall i :: 0 <= i < n ==> Candidate(name, i) in e
    ensures |Tried(name, n)| == n && Tried(name, n) <= e.Keys
  {
    if n > 0 {
      TriedCount(e, name, n - 1);
      LaterIsNew(name, n - 1, n - 1);
    }
  }

  lemma {:induction false} LaterIsNew(name: string, n: nat, i: nat)
    requires n <= i
    ensures Candidate(name, i) !in Tried(name, n)
  {
    if n > 0 {
      LaterIsNew(name, n - 1, i);
      if Candidate(name, i) == Candidate(name, n - 1) {
        CandidateInjective(name, i, n - 1);
      }
    }
  }

  /** Pigeonhole: a folder with fewer entries than attempts has room. */
  lemma SomeCandidateIsFree(e: Entries, name: string, n: nat)
    requires |e| < n
    ensures exists i :: 0 <= i < n && Candidate(name, i) !in e
  {
    if forall i :: 0 <= i < n ==> Candidate(name, i) in e {
      TriedCount(e, name, n);
      Sets.SubsetCount(Tried(name, n), e.Keys);
    }
  }

  /** i is the smallest index whose candidate is free. */
  predicate FirstFree(e: Entries, name: string, i: nat) {
    Candidate(name, i) !in e && forall j :: 0 <= j < i ==> Candidate(name, j) in e
  }

  class Folder {
    var entries: Entries
    const renames: bool  // the filesystem has RENAME_NOREPLACE
    const links: bool    // the filesystem has hard links
    const reliable: bool // no I/O error occurs

    constructor (entries: Entries, renames: bool, links: bool, reliable: bool)
      ensures this.entries == entries && this.renames == renames && this.links == links && this.reliable == reliable
    {
      this.entries, this.renames, this.links, this.reliable := entries, renames, links, reliable;
    }

    method RenameNoReplace(from: string, to: string) returns (e: Errno)
      requires from in entries
      modifies this
      ensures e == Ok ==> to !in old(entries) && entries == Renamed(old(entries), from, to)
      ensures e != Ok ==> entries == old(entries)
      ensures e == Exists ==> to in entries
      ensures e == Unsupported && reliable ==> !renames
      ensures e == TooManyLinks || e == Fault ==> !reliable
      ensures !renames ==> e != Ok && e != Exists
    {
      if !reliable {
        if * { return Fault; }
        if * { return Unsupported; }
      }
      if !renames { return Unsupported; }
      if to in entries { return Exists; }
      entries := Renamed(entries, from, to);
      return Ok;
    }

    method LinkNoReplace(from: string, to: string) returns (e: Errno)
      requires from in entries
      modifies this
      ensures e == Ok ==> to !in old(entries) && entries == Linked(old(entries), from, to)
      ensures e != Ok ==> entries == old(entries)
      ensures e == Exists ==> to in entries
      ensures e == Unsupported && reliable ==> !links
      ensures e == TooManyLinks || e == Fault ==> !reliable
      ensures !links ==> e != Ok && e != Exists
    {
      if !reliable {
        if * { return Fault; }
        if * { return TooManyLinks; }
        if * { return Unsupported; }
      }
      if !links { return Unsupported; }
      if to in entries { return Exists; }
      entries := Linked(entries, from, to);
      return Ok;
    }

    /** unlinkat; its error is ignored by the caller. */
    method Unlink(name: string)
      modifies this
      ensures entries == old(entries) - {name} || (!reliable && entries == old(entries))
    {
      if !reliable {
        if * { return; }
      }
      entries := entries - {name};
    }

    /** publish. With the folder to itself it takes the first free name, it
        succeeds whenever the drive has one primitive and fewer than 10000
        entries, and a refusal leaves every entry alone. */
    method Publish(tmp: string, name: string) returns (r: Outcome)
      requires tmp in entries
      requires forall i :: 0 <= i < ATTEMPTS ==> Candidate(name, i) != tmp
      modifies this
      ensures r.Published? ==>
                exists i :: 0 <= i < ATTEMPTS && FirstFree(old(entries), name, i) && r.name == Candidate(name, i)
      ensures r.Published? ==> r.name in entries && entries[r.name] == old(entries)[tmp]
      ensures r.Published? ==> entries - {tmp} == (old(entries) - {tmp})[r.name := old(entries)[tmp]]
      ensures r.Published? && reliable ==> tmp !in entries
      ensures r.Refused? ==> entries == old(entries)
      ensures reliable && (renames || links) && |old(entries)| < ATTEMPTS ==> r.Published?
      ensures !renames && !links && reliable ==> r == Refused(NoSafePublish)
    {
      var useLink := false;
      for i := 0 to ATTEMPTS
        invariant entries == old(entries)
        invariant forall j :: 0 <= j < i ==> Candidate(name, j) in entries
        invariant useLink && reliable ==> !renames
        invariant i > 0 && reliable ==> renames || links
      {
        var final := Candidate(name, i);
        var err := Ok;
        if !useLink {
          err := RenameNoReplace(tmp, final);
          if err == Unsupported {
            useLink := true;
          }
        }
        if useLink {
          err := LinkNoReplace(tmp, final);
          if err == Ok {
            Unlink(tmp);
          } else if err == Unsupported || err == TooManyLinks {
            return Refused(NoSafePublish);
          }
        }
        if err == Ok {
          assert FirstFree(old(entries), name, i);
          return Published(final);
        } else if err != Exists {
          return Refused(Failed);
        }
      }
      if |entries| < ATTEMPTS {
        SomeCandidateIsFree(entries, name, ATTEMPTS);
      }
      return Refused(NoFreeName);
    }
  }
}
