/** Choosing keys for Vault's shortcuts (internal/shortcuts/custom.go): what may
    be asked for, and which requests collide. */
module Bindings {
  import opened Options
  import opened Text
  import opened Modifiers

  datatype Planned = Planned(id: string, mods: seq<string>, key: string, command: string, description: string)
  datatype Binding = Binding(mods: seq<string>, key: string, dispatcher: string, arg: string, source: string)
  datatype Request = Request(id: string, mods: seq<string>, key: string)
  datatype Status = Available | Conflict | Duplicate | Invalid
  datatype Result = Result(id: string, status: Status, conflicts: seq<Binding>, suggestion: Option<Planned>)

  const MOD_CHOICES := ["SUPER", "SHIFT", "CTRL", "ALT"]

  const OPEN := Planned("open", ["SUPER", "ALT"], "V", "vaultctl open", "Open Vault")
  const UPLOAD := Planned("upload", ["SUPER", "ALT"], "U", "vaultctl upload", "Upload to Vault")
  const DOWNLOAD := Planned("download", ["SUPER", "ALT"], "D", "vaultctl download", "Download from Vault")
  const PLAN := [OPEN, UPLOAD, DOWNLOAD]

  // ---- one request ----

  /** A letter, a digit or F1 to F12. */
  predicate Offered(key: string) {
    || (|key| == 1 && ('A' <= key[0] <= 'Z' || '0' <= key[0] <= '9'))
    || (|key| == 2 && key[0] == 'F' && '1' <= key[1] <= '9')
    || (|key| == 3 && key[0] == 'F' && key[1] == '1' && '0' <= key[2] <= '2')
  }

  function Cleaned(mods: seq<string>): seq<string> { seq(|mods|, i requires 0 <= i < |mods| => KeyOf(mods[i])) }

  function Find(plan: seq<Planned>, id: string): Option<Planned> {
    if plan == [] then None
    else if plan[|plan| - 1].id == id then Some(plan[|plan| - 1])
    else Find(plan[..|plan| - 1], id)
  }

  predicate ModsAllowed(mods: seq<string>) {
    && (forall i :: 0 <= i < |mods| ==> mods[i] in MOD_CHOICES)
    && ("SUPER" in mods || "CTRL" in mods || "ALT" in mods)
  }

  /** The binding a request describes, if it is one Vault offers. */
  function BuildOf(r: Request): Option<Planned> {
    var base, mods, key := Find(PLAN, r.id), Cleaned(r.mods), KeyOf(r.key);
    if base.None? || !ModsAllowed(mods) || !Offered(key) then None
    else Some(base.value.(mods := Listed(MOD_CHOICES, mods), key := key))
  }

  lemma FindExactly(id: string)
    ensures Find(PLAN, id).Some? <==> id in ["open", "upload", "download"]
    ensures Find(PLAN, id).Some? ==> Find(PLAN, id).value.id == id && Find(PLAN, id).value.command == "vaultctl " + id
  {
    assert PLAN[..2] == [OPEN, UPLOAD] && PLAN[..2][..1] == [OPEN] && PLAN[..2][..1][..0] == [];
    assert Find([OPEN], id).Some? <==> id == "open";
    assert Find([OPEN, UPLOAD], id).Some? <==> id == "open" || id == "upload";
  }

  lemma ModsExactly(mods: seq<string>)
    ensures ModsAllowed(Cleaned(mods)) <==>
              && (forall i :: 0 <= i < |mods| ==> KeyOf(mods[i]) in ["SUPER", "SHIFT", "CTRL", "ALT"])
              && exists i :: 0 <= i < |mods| && KeyOf(mods[i]) in ["SUPER", "CTRL", "ALT"]
  {
    var c := Cleaned(mods);
    assert forall i :: 0 <= i < |mods| ==> c[i] == KeyOf(mods[i]);
    if i :| 0 <= i < |mods| && KeyOf(mods[i]) in ["SUPER", "CTRL", "ALT"] {
      assert c[i] in c;
    }
    if n :| n in ["SUPER", "CTRL", "ALT"] && n in c {
      var i :| 0 <= i < |c| && c[i] == n;
      assert KeyOf(mods[i]) in ["SUPER", "CTRL", "ALT"];
    }
  }

  /** Exactly which requests are built: for a known action, with offered
      modifiers, one of them not Shift, and an offered key. */
  lemma {:induction false} BuildExactly(r: Request)
    ensures BuildOf(r).Some? <==>
              && r.id in ["open", "upload", "download"]
              && (forall i :: 0 <= i < |r.mods| ==> KeyOf(r.mods[i]) in ["SUPER", "SHIFT", "CTRL", "ALT"])
              && (exists i :: 0 <= i < |r.mods| && KeyOf(r.mods[i]) in ["SUPER", "CTRL", "ALT"])
              && Key(KeyOf(r.key))
    ensures BuildOf(r).Some? ==> BuildOf(r).value.command == "vaultctl " + r.id
  {
    FindExactly(r.id);
    ModsExactly(r.mods);
    OfferedExactly(KeyOf(r.key));
  }

  const FUNCTION_KEYS := ["F1", "F2", "F3", "F4", "F5", "F6", "F7", "F8", "F9", "F10", "F11", "F12"]

  /** One of the keys in the list Vault shows. */
  predicate Key(k: string) {
    k in FUNCTION_KEYS || (|k| == 1 && (0x41 <= k[0] as int <= 0x5a || 0x30 <= k[0] as int <= 0x39))
  }

  lemma OfferedExactly(k: string)
    ensures Offered(k) <==> Key(k)
  {
    if |k| == 2 && Offered(k) {
      assert FUNCTION_KEYS[k[1] as int - '1' as int] == k;
    }
    if |k| == 3 && Offered(k) {
      assert FUNCTION_KEYS[9 + (k[2] as int - '0' as int)] == k;
    }
  }

  method FindBase(id: string) returns (base: Option<Planned>)
    ensures base == Find(PLAN, id)
  {
    base := None;
    var plan := PLAN;
    for i := 0 to |plan|
      invariant base == Find(plan[..i], id)
    {
      assert plan[..i + 1][..i] == plan[..i];
      if plan[i].id == id {
        base := Some(plan[i]);
      }
    }
    assert plan[..|plan|] == plan;
  }

  method SeenMods(mods: seq<string>, choices: seq<string>) returns (seen: Option<set<string>>)
    ensures seen.Some? <==> forall i :: 0 <= i < |mods| ==> Cleaned(mods)[i] in choices
    ensures seen.Some? ==> forall m :: m in seen.value <==> m in Cleaned(mods)
  {
    var all: set<string> := {};
    for i := 0 to |mods|
      invariant forall j :: 0 <= j < i ==> Cleaned(mods)[j] in choices
      invariant forall m :: m in all <==> exists j :: 0 <= j < i && Cleaned(mods)[j] == m
    {
      var m := KeyOf(mods[i]);
      assert Cleaned(mods)[i] == m;
      var ok := false;
      for c := 0 to |choices|
        invariant ok <==> m in choices[..c]
      {
        assert choices[..c + 1] == choices[..c] + [choices[c]];
        ok := ok || m == choices[c];
      }
      assert choices[..|choices|] == choices;
      if !ok {
        return None;
      }
      all := all + {m};
    }
    seen := Some(all);
  }

  method Choose(choices: seq<string>, seen: set<string>, ghost mods: seq<string>) returns (out: seq<string>)
    requires forall m :: m in seen <==> m in mods
    ensures out == Listed(choices, mods)
  {
    out := [];
    for i := 0 to |choices|
      invariant out + Listed(choices[i..], mods) == Listed(choices, mods)
    {
      assert choices[i..][0] == choices[i] && choices[i..][1..] == choices[i + 1..];
      if choices[i] in seen {
        out := out + [choices[i]];
      }
    }
  }

  method Build(r: Request) returns (p: Option<Planned>)
    ensures p == BuildOf(r)
  {
    var base := FindBase(r.id);
    if base.None? {
      return None;
    }
    var seen := SeenMods(r.mods, MOD_CHOICES);
    if seen.None? {
      return None;
    }
    if "SUPER" !in seen.value && "CTRL" !in seen.value && "ALT" !in seen.value {
      return None;
    }
    var key := ToUpper(TrimSpace(r.key));
    if !Offered(key) {
      return None;
    }
    var mods := Choose(MOD_CHOICES, seen.value, Cleaned(r.mods));
    p := Some(base.value.(mods := mods, key := key));
  }

  // ---- all requests ----

  predicate IsVault(b: Binding) {
    Contains(b.arg, "vaultctl ") || HasSuffix(b.source, "/omarchy-vault.conf")
    || HasSuffix(b.source, "/omarchy_vault.lua")
  }

  lemma {:induction false} ContainsMiddle(a: string, sub: string, b: string)
    ensures Contains(a + sub + b, sub)
  {
    var s := a + sub + b;
    assert s[|a|..|a| + |sub|] == sub;
    assert OccursAt(s, sub, |a|);
  }

  /** A binding that runs vaultctl, at whatever path, is Vault's; one that
      mentions it nowhere and stands in neither of Vault's files is not. */
  lemma {:induction false} VaultExactly(b: Binding, path: string, rest: string)
    ensures b.arg == path + "vaultctl " + rest ==> IsVault(b)
    ensures IsVault(b) ==>
              || (exists i :: OccursAt(b.arg, "vaultctl ", i))
              || HasSuffix(b.source, "/omarchy-vault.conf") || HasSuffix(b.source, "/omarchy_vault.lua")
  {
    ContainsMiddle(path, "vaultctl ", rest);
  }

  predicate Uses(b: Binding, mods: seq<string>, key: string) { SameCombo(mods, key, b.mods, b.key) }

  /** Who has the combination of p. */
  function UsingAs(p: Planned): Binding -> bool { (b: Binding) => Uses(b, p.mods, p.key) }

  /** A binding that is not Vault's is one of these. */
  predicate Taken(existing: seq<Binding>, uses: Binding -> bool) {
    exists i :: 0 <= i < |existing| && !IsVault(existing[i]) && uses(existing[i])
  }

  predicate Same(p: Planned, q: Planned) { SameCombo(p.mods, p.key, q.mods, q.key) }

  /** An earlier request was built with the combination of request i. */
  predicate Repeats(built: seq<Option<Planned>>, i: nat, same: (Planned, Planned) -> bool)
    requires i < |built|
  {
    built[i].Some? && exists j :: 0 <= j < i && built[j].Some? && same(built[i].value, built[j].value)
  }

  function AllBuilt(reqs: seq<Request>): seq<Option<Planned>> {
    seq(|reqs|, i requires 0 <= i < |reqs| => BuildOf(reqs[i]))
  }

  /** The verdict for a request, in terms of what was built before the loop
      that looks for duplicates. */
  function StatusIn(existing: seq<Binding>, built: seq<Option<Planned>>, i: nat, using: Planned -> Binding -> bool,
                    same: (Planned, Planned) -> bool): Status
    requires i < |built|
  {
    if built[i].None? then Invalid
    else if Taken(existing, using(built[i].value)) then Conflict
    else if Repeats(built, i, same) then Duplicate
    else Available
  }

  /** What each verdict means; a conflict with a binding that is not Vault's
      counts before a repetition. */
  lemma StatusExactly(existing: seq<Binding>, built: seq<Option<Planned>>, i: nat, using: Planned -> Binding -> bool,
                      same: (Planned, Planned) -> bool)
    requires i < |built|
    ensures var s := StatusIn(existing, built, i, using, same);
            && (s == Invalid <==> built[i].None?)
            && (s == Conflict <==> built[i].Some? && Taken(existing, using(built[i].value)))
            && (s == Duplicate <==>
                  built[i].Some? && !Taken(existing, using(built[i].value)) && Repeats(built, i, same))
            && (s == Available <==>
                  built[i].Some? && !Taken(existing, using(built[i].value)) && !Repeats(built, i, same))
  {
  }

  predicate SameEntry(a: Binding, b: Binding) {
    a.dispatcher == b.dispatcher && a.arg == b.arg && SameCombo(a.mods, a.key, b.mods, b.key)
  }

  method OthersOf(existing: seq<Binding>) returns (others: seq<Binding>)
    ensures forall i :: 0 <= i < |others| ==> others[i] in existing && !IsVault(others[i])
    ensures forall i :: 0 <= i < |existing| && !IsVault(existing[i]) ==> existing[i] in others
  {
    others := [];
    for i := 0 to |existing|
      invariant forall k :: 0 <= k < |others| ==> others[k] in existing && !IsVault(others[k])
      invariant forall k :: 0 <= k < i && !IsVault(existing[k]) ==> existing[k] in others
    {
      if !IsVault(existing[i]) {
        others := others + [existing[i]];
      }
    }
  }

  predicate Represented(found: seq<Binding>, b: Binding, same: (Binding, Binding) -> bool) {
    exists k :: 0 <= k < |found| && same(found[k], b)
  }

  /** What conflicts, among the bindings of a list: each is one that uses the
      combination, and none that does is missing but for repeats. */
  ghost predicate Conflicting(found: seq<Binding>, others: seq<Binding>, uses: Binding -> bool,
                              same: (Binding, Binding) -> bool) {
    && (forall k :: 0 <= k < |found| ==> uses(found[k]) && found[k] in others)
    && forall i :: 0 <= i < |others| && uses(others[i]) ==> Represented(found, others[i], same)
  }

  method AppendUnique(list: seq<Binding>, b: Binding, same: (Binding, Binding) -> bool) returns (r: seq<Binding>)
    ensures r == if Represented(list, b, same) then list else list + [b]
  {
    for i := 0 to |list|
      invariant forall k :: 0 <= k < i ==> !same(list[k], b)
    {
      if same(list[i], b) {
        return list;
      }
    }
    return list + [b];
  }

  lemma RepresentedMore(before: seq<Binding>, found: seq<Binding>, b: Binding, same: (Binding, Binding) -> bool)
    requires Represented(before, b, same) && before <= found
    ensures Represented(found, b, same)
  {
    var k :| 0 <= k < |before| && same(before[k], b);
    assert found[k] == before[k];
  }

  /** The loop of Conflicts has seen one more binding. */
  lemma OneMore(before: seq<Binding>, found: seq<Binding>, others: seq<Binding>, i: nat, uses: Binding -> bool,
                same: (Binding, Binding) -> bool)
    requires i < |others| && Conflicting(before, others[..i], uses, same) && same(others[i], others[i])
    requires if !uses(others[i]) || Represented(before, others[i], same) then found == before
             else found == before + [others[i]]
    ensures Conflicting(found, others[..i + 1], uses, same)
  {
    var more := others[..i + 1];
    forall k | 0 <= k < |found| ensures uses(found[k]) && found[k] in more {
      if k < |before| {
        assert found[k] == before[k] && before[k] in others[..i];
        var j :| 0 <= j < i && others[..i][j] == before[k];
        assert more[j] == before[k];
      } else {
        assert more[i] == found[k];
      }
    }
    forall k | 0 <= k < |more| && uses(more[k]) ensures Represented(found, more[k], same) {
      if k < i {
        assert more[k] == others[..i][k];
        RepresentedMore(before, found, more[k], same);
      } else if found != before {
        assert found[|before|] == more[k];
      }
    }
  }

  method Conflicts(others: seq<Binding>, uses: Binding -> bool, same: (Binding, Binding) -> bool)
    returns (found: seq<Binding>)
    requires forall b :: same(b, b)
    ensures Conflicting(found, others, uses, same)
  {
    found := [];
    for i := 0 to |others|
      invariant Conflicting(found, others[..i], uses, same)
    {
      ghost var before := found;
      if uses(others[i]) {
        found := AppendUnique(found, others[i], same);
      }
      OneMore(before, found, others, i, uses, same);
    }
    assert others[..|others|] == others;
  }

  const ALTERNATIVES := [["SUPER", "SHIFT"], ["SUPER", "CTRL", "ALT"], ["SUPER", "CTRL", "SHIFT"]]

  /** None of these bindings has a combination. */
  predicate Free(others: seq<Binding>, uses: Binding -> bool) { forall i :: 0 <= i < |others| ==> !uses(others[i]) }

  method IsFree(others: seq<Binding>, uses: Binding -> bool) returns (free: bool)
    ensures free <==> Free(others, uses)
  {
    for i := 0 to |others|
      invariant forall j :: 0 <= j < i ==> !uses(others[j])
    {
      if uses(others[i]) {
        return false;
      }
    }
    return true;
  }

  /** The first free alternative, if there is one. */
  method Suggest(p: Planned, alternatives: seq<seq<string>>, others: seq<Binding>,
                 using: seq<string> -> Binding -> bool) returns (s: Option<Planned>)
    ensures s.None? ==> forall a :: 0 <= a < |alternatives| ==> !Free(others, using(alternatives[a]))
    ensures s.Some? ==>
              exists a :: 0 <= a < |alternatives| && FirstFree(alternatives, a, others, using)
                          && s.value == p.(mods := alternatives[a])
  {
    for a := 0 to |alternatives|
      invariant forall x :: 0 <= x < a ==> !Free(others, using(alternatives[x]))
    {
      var free := IsFree(others, using(alternatives[a]));
      if free {
        assert FirstFree(alternatives, a, others, using);
        return Some(p.(mods := alternatives[a]));
      }
    }
    return None;
  }

  predicate FirstFree(alternatives: seq<seq<string>>, a: int, others: seq<Binding>,
                      using: seq<string> -> Binding -> bool) {
    && 0 <= a < |alternatives| && Free(others, using(alternatives[a]))
    && forall x :: 0 <= x < a ==> !Free(others, using(alternatives[x]))
  }

  lemma TakenExactly(existing: seq<Binding>, others: seq<Binding>, uses: Binding -> bool)
    requires forall i :: 0 <= i < |others| ==> others[i] in existing && !IsVault(others[i])
    requires forall i :: 0 <= i < |existing| && !IsVault(existing[i]) ==> existing[i] in others
    ensures Taken(existing, uses) <==> !Free(others, uses)
  {
    if i :| 0 <= i < |existing| && !IsVault(existing[i]) && uses(existing[i]) {
      var k :| 0 <= k < |others| && others[k] == existing[i];
      assert uses(others[k]);
    }
    if k :| 0 <= k < |others| && uses(others[k]) {
      var i :| 0 <= i < |existing| && existing[i] == others[k];
      assert uses(existing[i]);
    }
  }

  /** What is said of one request before duplicates are looked for. */
  ghost predicate FirstVerdict(r: Result, p: Option<Planned>, others: seq<Binding>, using: Planned -> Binding -> bool,
                               same: (Binding, Binding) -> bool) {
    match p
    case None => r.status == Invalid
    case Some(p) =>
      && Conflicting(r.conflicts, others, using(p), same)
      && r.status == (if Free(others, using(p)) then Available else Conflict)
  }

  method Verdict(id: string, p: Option<Planned>, others: seq<Binding>, using: Planned -> Binding -> bool,
                 same: (Binding, Binding) -> bool) returns (r: Result)
    requires forall b :: same(b, b)
    ensures r.id == id && FirstVerdict(r, p, others, using, same)
    ensures r.suggestion.Some? ==> p.Some? && r.status == Conflict && Free(others, using(r.suggestion.value))
                                   && r.suggestion.value == p.value.(mods := r.suggestion.value.mods)
  {
    if p.None? {
      return Result(id, Invalid, [], None);
    }
    var conflicts := Conflicts(others, using(p.value), same);
    if |conflicts| > 0 {
      assert using(p.value)(conflicts[0]);
      var s := Suggest(p.value, ALTERNATIVES, others, mods => using(p.value.(mods := mods)));
      return Result(id, Conflict, conflicts, s);
    }
    return Result(id, Available, [], None);
  }

  method MarkDuplicates(first: seq<Result>, built: seq<Option<Planned>>, same: (Planned, Planned) -> bool)
    returns (out: seq<Result>)
    requires |first| == |built|
    requires forall i :: 0 <= i < |first| ==> first[i].status != Duplicate
    ensures |out| == |first|
    ensures forall i :: 0 <= i < |out| ==>
              out[i] == if first[i].status == Available && Repeats(built, i, same)
                        then first[i].(status := Duplicate) else first[i]
  {
    out := first;
    for i := 0 to |first|
      invariant |out| == |first|
      invariant forall k :: 0 <= k < i ==>
                  out[k] == if first[k].status == Available && Repeats(built, k, same)
                            then first[k].(status := Duplicate) else first[k]
      invariant forall k :: i <= k < |first| ==> out[k] == first[k]
    {
      ghost var before := out;
      for j := 0 to i
        invariant |out| == |first|
        invariant forall k :: 0 <= k < |first| && k != i ==> out[k] == before[k]
        invariant out[i] == if first[i].status == Available && built[i].Some?
                               && exists k :: 0 <= k < j && built[k].Some? && same(built[i].value, built[k].value)
                            then first[i].(status := Duplicate) else first[i]
      {
        if built[i].Some? && built[j].Some? && out[i].status == Available && same(built[i].value, built[j].value) {
          out := out[i := out[i].(status := Duplicate)];
        }
      }
    }
  }

  method FirstPass(reqs: seq<Request>, others: seq<Binding>, using: Planned -> Binding -> bool,
                   same: (Binding, Binding) -> bool)
    returns (first: seq<Result>, built: seq<Option<Planned>>)
    requires forall b :: same(b, b)
    ensures built == AllBuilt(reqs) && |first| == |reqs|
    ensures forall k :: 0 <= k < |reqs| ==> first[k].id == reqs[k].id
    ensures forall k :: 0 <= k < |first| ==> FirstVerdict(first[k], built[k], others, using, same)
    ensures forall k :: 0 <= k < |first| && first[k].suggestion.Some? ==> Free(others, using(first[k].suggestion.value))
  {
    first, built := [], [];
    for i := 0 to |reqs|
      invariant |first| == i && built == AllBuilt(reqs[..i])
      invariant forall k :: 0 <= k < i ==> first[k].id == reqs[k].id
      invariant forall k :: 0 <= k < i ==> FirstVerdict(first[k], built[k], others, using, same)
      invariant forall k :: 0 <= k < i && first[k].suggestion.Some? ==> Free(others, using(first[k].suggestion.value))
    {
      var p := Build(reqs[i]);
      var r := Verdict(reqs[i].id, p, others, using, same);
      AllBuiltStep(reqs, i);
      first, built := first + [r], built + [p];
    }
    assert reqs[..|reqs|] == reqs;
  }

  lemma AllBuiltStep(reqs: seq<Request>, i: nat)
    requires i < |reqs|
    ensures AllBuilt(reqs[..i + 1]) == AllBuilt(reqs[..i]) + [BuildOf(reqs[i])]
  {
  }

  /** The conflicts of a request are bindings in the way, and every binding in
      the way is one of them or the same action again. */
  ghost predicate Reported(found: seq<Binding>, existing: seq<Binding>, uses: Binding -> bool,
                           entry: (Binding, Binding) -> bool) {
    && (forall k :: 0 <= k < |found| ==> uses(found[k]) && found[k] in existing && !IsVault(found[k]))
    && forall i :: 0 <= i < |existing| && !IsVault(existing[i]) && uses(existing[i]) ==>
           Represented(found, existing[i], entry)
  }

  lemma ConflictingIsReported(found: seq<Binding>, existing: seq<Binding>, others: seq<Binding>, uses: Binding -> bool,
                              entry: (Binding, Binding) -> bool)
    requires forall i :: 0 <= i < |others| ==> others[i] in existing && !IsVault(others[i])
    requires forall i :: 0 <= i < |existing| && !IsVault(existing[i]) ==> existing[i] in others
    requires Conflicting(found, others, uses, entry)
    ensures Reported(found, existing, uses, entry)
  {
    forall k | 0 <= k < |found| ensures found[k] in existing && !IsVault(found[k]) {
      var i :| 0 <= i < |others| && others[i] == found[k];
    }
    forall i | 0 <= i < |existing| && !IsVault(existing[i]) && uses(existing[i])
      ensures Represented(found, existing[i], entry)
    {
      var k :| 0 <= k < |others| && others[k] == existing[i];
      assert uses(others[k]);
    }
  }

  /** Every request has its verdict and its conflicts, and a suggestion is
      free. */
  ghost predicate Checked(existing: seq<Binding>, built: seq<Option<Planned>>, out: seq<Result>,
                          using: Planned -> Binding -> bool, same: (Planned, Planned) -> bool,
                          entry: (Binding, Binding) -> bool) {
    && |out| == |built|
    && (forall i :: 0 <= i < |out| && built[i].Some? ==>
         Reported(out[i].conflicts, existing, using(built[i].value), entry))
    && (forall i :: 0 <= i < |out| ==> out[i].status == StatusIn(existing, built, i, using, same))
    && forall i :: 0 <= i < |out| && out[i].suggestion.Some? ==> !Taken(existing, using(out[i].suggestion.value))
  }

  method CheckAll(existing: seq<Binding>, reqs: seq<Request>) returns (out: seq<Result>)
    ensures Checked(existing, AllBuilt(reqs), out, UsingAs, Same, SameEntry)
    ensures forall i :: 0 <= i < |out| ==> out[i].id == reqs[i].id
  {
    forall b ensures SameEntry(b, b) {
    }
    out := CheckWith(existing, reqs, UsingAs, Same, SameEntry);
  }

  /** CheckAll for any idea of equal combinations. */
  method CheckWith(existing: seq<Binding>, reqs: seq<Request>, using: Planned -> Binding -> bool,
                   same: (Planned, Planned) -> bool, entry: (Binding, Binding) -> bool) returns (out: seq<Result>)
    requires forall b :: entry(b, b)
    ensures Checked(existing, AllBuilt(reqs), out, using, same, entry)
    ensures forall i :: 0 <= i < |out| ==> out[i].id == reqs[i].id
  {
    var others := OthersOf(existing);
    var first, built := FirstPass(reqs, others, using, entry);
    out := MarkDuplicates(first, built, same);
    forall i | 0 <= i < |out| ensures out[i].status == StatusIn(existing, built, i, using, same) {
      if built[i].Some? {
        TakenExactly(existing, others, using(built[i].value));
      }
    }
    forall i | 0 <= i < |out| && built[i].Some?
      ensures Reported(out[i].conflicts, existing, using(built[i].value), entry)
    {
      ConflictingIsReported(out[i].conflicts, existing, others, using(built[i].value), entry);
    }
    forall i | 0 <= i < |out| && out[i].suggestion.Some? ensures !Taken(existing, using(out[i].suggestion.value)) {
      TakenExactly(existing, others, using(out[i].suggestion.value));
    }
  }

  /** Each is one Vault offers, none has the combination of a binding that is
      not Vault's, and no two have the same. */
  ghost predicate AllDifferent(existing: seq<Binding>, built: seq<Option<Planned>>, using: Planned -> Binding -> bool,
                               same: (Planned, Planned) -> bool) {
    && (forall i :: 0 <= i < |built| ==> built[i].Some? && !Taken(existing, using(built[i].value)))
    && (forall i, j :: 0 <= j < i < |built| && built[i].Some? && built[j].Some? ==>
         !same(built[i].value, built[j].value))
  }

  /** Every request is available exactly when all are different, and free. */
  lemma AllAvailableExactly(existing: seq<Binding>, built: seq<Option<Planned>>, out: seq<Result>,
                            using: Planned -> Binding -> bool, same: (Planned, Planned) -> bool,
                            entry: (Binding, Binding) -> bool)
    requires Checked(existing, built, out, using, same, entry)
    ensures (forall i :: 0 <= i < |out| ==> out[i].status == Available) <==> AllDifferent(existing, built, using, same)
  {
    forall i | 0 <= i < |built|
      ensures out[i].status == Available <==>
                built[i].Some? && !Taken(existing, using(built[i].value)) && !Repeats(built, i, same)
    {
    }
  }
}
