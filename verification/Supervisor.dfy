/** The file-service supervisor (internal/files/manager.go): callers of
    SetWanted, the one-slot wake channel, the supervise loop and the processes
    it starts, interleaved at every mutex section and channel operation. */
module Supervisor {

  datatype Proc = Alive(killed: bool) | Dead

  /** A started process with its own one-slot exit channel. The waiter goroutine
      sends one token there after the process has died; waitHealthy receives a
      token and puts it back; the loop receives the last one for good. tokens is
      what the channel holds, received and putBack count what the loop did. */
  datatype Child = Child(proc: Proc, sent: bool, tokens: nat, received: nat, putBack: nat)

  const CAPACITY := 1

  /** The next thing the supervise loop does. */
  datatype Pc =
    | LoopHead          // ctx.Err()
    | ReadWish          // m.wanted() at the top of the loop
    | IdleWait          // blocked: ctx.Done or wake, while unwanted
    | Prepare           // initprovider runs to completion
    | Launch            // cmd.Start
    | HealthWait        // waitHealthy: exited, ctx.Done or timer
    | PutBack           // waitHealthy: exited <- err
    | DrainUnhealthy    // blocked: <-exited after stop()
    | Ready             // OnReady
    | RunWait           // blocked: waitWhileRunning's select
    | RereadWish        // waitWhileRunning: wake received, m.wanted() next
    | DrainUnwanted     // blocked: <-exited after stop(), then loop
    | DrainDone         // blocked: <-exited after stop(), then return
    | Backoff           // blocked: sleep's select
    | Returned

  /** read: the last value m.wanted() gave the loop. pending: callers that
      changed the wish and have not reached the wake channel yet. children are
      all processes ever started; the loop looks after the last. */
  datatype State = State(
    want: bool, slot: bool, pending: nat, done: bool,
    pc: Pc, read: bool, initialised: bool, children: seq<Child>)

  datatype Action =
    | SetWish(want: bool)       // SetWanted's mutex section
    | Signal                    // SetWanted's non-blocking send
    | Cancel                    // ctx ends
    | ProcExits(i: nat)
    | WaiterSends(i: nat)
    | Loop(choice: Choice)

  /** Which way a select or a fallible call goes. */
  datatype Choice = Go | OnDone | OnWake | OnToken | OnTimer | Fails

  const INIT := State(false, false, 0, false, LoopHead, false, false, [])

  function Last(s: State): Child
    requires s.children != []
  {
    s.children[|s.children| - 1]
  }

  function WithLast(s: State, c: Child): State
    requires s.children != []
  {
    s.(children := s.children[|s.children| - 1 := c])
  }

  /** SIGTERM, then a kill after ten seconds. */
  function Killed(c: Child): Child {
    if c.proc.Alive? then c.(proc := Alive(true)) else c
  }

  /** stop() of the process looked after. */
  function Stopped(s: State): State {
    if s.children == [] then s else WithLast(s, Killed(Last(s)))
  }

  /** The end of ctx reaches every process. */
  function AllKilled(cs: seq<Child>): seq<Child> { seq(|cs|, i requires 0 <= i < |cs| => Killed(cs[i])) }

  /** A receive needs a token in the channel, a send an empty slot. */
  predicate CanReceive(s: State) { s.children != [] && Last(s).tokens > 0 }
  predicate CanSend(c: Child) { c.tokens < CAPACITY }

  function Received(s: State): State
    requires CanReceive(s)
  {
    WithLast(s, Last(s).(tokens := Last(s).tokens - 1, received := Last(s).received + 1))
  }

  predicate LoopEnabled(s: State, c: Choice) {
    match s.pc
    case LoopHead => c == Go
    case ReadWish => c == Go
    case IdleWait => (c == OnDone && s.done) || (c == OnWake && s.slot)
    case Prepare => c == Go || c == Fails
    case Launch => c == Go || c == Fails
    case HealthWait => (c == OnToken && CanReceive(s)) || (c == OnDone && s.done) || c == Go || c == OnTimer
    case PutBack => c == Go && s.children != [] && CanSend(Last(s))
    case DrainUnhealthy => c == OnToken && CanReceive(s)
    case Ready => c == Go
    case RunWait => (c == OnToken && CanReceive(s)) || (c == OnWake && s.slot) || (c == OnDone && s.done)
    case RereadWish => c == Go
    case DrainUnwanted => c == OnToken && CanReceive(s)
    case DrainDone => c == OnToken && CanReceive(s)
    case Backoff => (c == OnDone && s.done) || (c == OnWake && s.slot) || c == OnTimer
    case Returned => false
  }

  predicate Enabled(s: State, a: Action) {
    match a
    case SetWish(_) => true
    case Signal => s.pending > 0
    case Cancel => true
    case ProcExits(i) => i < |s.children| && s.children[i].proc.Alive?
    case WaiterSends(i) => i < |s.children| && s.children[i].proc.Dead? && !s.children[i].sent && CanSend(s.children[i])
    case Loop(c) => LoopEnabled(s, c)
  }

  function LoopStep(s: State, c: Choice): State
    requires LoopEnabled(s, c)
  {
    match s.pc
    case LoopHead => s.(pc := if s.done then Returned else ReadWish)
    case ReadWish => s.(read := s.want, pc := if !s.want then IdleWait else if s.initialised then Launch else Prepare)
    case IdleWait => if c == OnDone then s.(pc := Returned) else s.(slot := false, pc := LoopHead)
    case Prepare => if c == Fails then s.(pc := Backoff) else s.(initialised := true, pc := Launch)
    case Launch => if c == Fails then s.(pc := Backoff)
                   else s.(children := s.children + [Child(Alive(s.done), false, 0, 0, 0)], pc := HealthWait)
    case HealthWait =>
      (match c
       case OnToken => Received(s).(pc := PutBack)
       case Go => s.(pc := Ready) // /healthz answered
       case _ => Stopped(s).(pc := DrainUnhealthy)) // cancelled, or 30 seconds passed
    case PutBack =>
      WithLast(s, Last(s).(tokens := Last(s).tokens + 1, putBack := Last(s).putBack + 1)).(pc := DrainUnhealthy)
    case DrainUnhealthy => Received(s).(pc := Backoff)
    case Ready => s.(pc := RunWait)
    case RunWait =>
      (match c
       case OnToken => Received(s).(pc := if s.done then Returned else Backoff)
       case OnWake => s.(slot := false, pc := RereadWish)
       case _ => Stopped(s).(pc := DrainDone))
    case RereadWish => if s.want then s.(read := true, pc := RunWait)
                       else Stopped(s).(read := false, pc := DrainUnwanted)
    case DrainUnwanted => Received(s).(pc := if s.done then Returned else LoopHead)
    case DrainDone => Received(s).(pc := Returned)
    case Backoff =>
      (match c
       case OnDone => s.(pc := Returned)
       case OnWake => s.(slot := false, pc := LoopHead)
       case _ => s.(pc := LoopHead))
  }

  function Apply(s: State, a: Action): State
    requires Enabled(s, a)
  {
    match a
    case SetWish(want) => s.(want := want, pending := if s.want != want then s.pending + 1 else s.pending)
    case Signal => s.(slot := true, pending := s.pending - 1)
    case Cancel => s.(done := true, children := AllKilled(s.children))
    case ProcExits(i) => s.(children := s.children[i := s.children[i].(proc := Dead)])
    case WaiterSends(i) =>
      s.(children := s.children[i := s.children[i].(sent := true, tokens := s.children[i].tokens + 1)])
    case Loop(c) => LoopStep(s, c)
  }

  // ---- invariants ----

  predicate AboutToRead(pc: Pc) { pc.LoopHead? || pc.ReadWish? || pc.RereadWish? }
  predicate Blocked(pc: Pc) { pc.IdleWait? || pc.HealthWait? || pc.RunWait? || pc.Backoff? || Draining(pc) }
  predicate Serving(pc: Pc) { pc.HealthWait? || pc.Ready? || pc.RunWait? }
  predicate Draining(pc: Pc) { pc.DrainUnhealthy? || pc.DrainUnwanted? || pc.DrainDone? }

  /** No lost wake-up. */
  predicate WakeInv(s: State) {
    AboutToRead(s.pc) || s.pc.Returned? || s.want == s.read || s.slot || s.pending > 0
  }

  /** What the loop is doing matches the wish it last read. */
  predicate ReadInv(s: State) {
    && (s.pc == IdleWait ==> !s.read)
    && ((s.pc.Prepare? || s.pc.Launch? || s.pc.PutBack? || s.pc.DrainUnhealthy? || s.pc.Backoff?
         || Serving(s.pc)) ==> s.read)
  }

  function Bit(b: bool): nat { if b then 1 else 0 }

  /** The channel's balance: what it holds and what was received is what was
      sent and what was put back. The waiter sends only after the end. */
  predicate Balanced(c: Child) {
    && c.tokens + c.received == Bit(c.sent) + c.putBack
    && (c.sent ==> c.proc.Dead?)
  }

  /** The loop has received the token for good, or still owes that. */
  predicate Collected(c: Child) { c.received == c.putBack + 1 }
  predicate Owed(c: Child) { c.received == c.putBack }

  /** The loop is looking after a process. */
  predicate Looking(pc: Pc) { Serving(pc) || pc.RereadWish? || Draining(pc) }

  predicate Balances(s: State) { forall i :: 0 <= i < |s.children| ==> Balanced(s.children[i]) }

  /** Every process but the last is collected, and the last one exactly unless
      the loop is looking after it. */
  predicate StageInv(s: State) {
    && (forall i :: 0 <= i < |s.children| - 1 ==> Collected(s.children[i]))
    && (Looking(s.pc) || s.pc.PutBack? ==> s.children != [])
    && (s.children != [] ==> if Looking(s.pc) then Owed(Last(s)) else Collected(Last(s)))
  }

  /** A process is told to stop before the loop waits for its end. */
  predicate ToldInv(s: State) {
    s.children != [] && (Draining(s.pc) || s.done) ==> Last(s).proc != Alive(false)
  }

  predicate ChildInv(s: State) { Balances(s) && StageInv(s) && ToldInv(s) }

  predicate Inv(s: State) { WakeInv(s) && ReadInv(s) && ChildInv(s) }

  lemma WakeStep(s: State, c: Choice)
    requires WakeInv(s) && LoopEnabled(s, c)
    ensures WakeInv(LoopStep(s, c))
  {
  }

  lemma ReadStep(s: State, c: Choice)
    requires ReadInv(s) && LoopEnabled(s, c)
    ensures ReadInv(LoopStep(s, c))
  {
  }

  /** What the loop makes of the process it looks after fits where it goes. */
  predicate Fits(pc: Pc, done: bool, c: Child) {
    && Balanced(c)
    && (if Looking(pc) then Owed(c) else Collected(c))
    && (Draining(pc) || done ==> c.proc != Alive(false))
  }

  lemma LastChanged(s: State, t: State, c: Child)
    requires ChildInv(s) && s.children != [] && t.children == s.children[|s.children| - 1 := c] && Fits(t.pc, t.done, c)
    ensures ChildInv(t)
  {
  }

  lemma OneMore(s: State, t: State, c: Child)
    requires ChildInv(s) && !Looking(s.pc) && t.children == s.children + [c] && Fits(t.pc, t.done, c)
    ensures ChildInv(t)
  {
    forall i | 0 <= i < |t.children| - 1 ensures Collected(t.children[i]) && Balanced(t.children[i]) {
      assert t.children[i] == s.children[i];
    }
  }

  /** The loop only moves on; it does nothing to a process. */
  predicate Quiet(pc: Pc) { pc.LoopHead? || pc.ReadWish? || pc.IdleWait? || pc.Prepare? || pc.Ready? || pc.Backoff? }

  lemma QuietStep(s: State, c: Choice)
    requires ChildInv(s) && LoopEnabled(s, c) && Quiet(s.pc)
    ensures ChildInv(LoopStep(s, c))
  {
    if Idle(s.pc) {
      IdleEffect(s, c);
    } else {
      QuietEffect(s, c);
    }
    SameChildren(s, LoopStep(s, c));
  }

  predicate Idle(pc: Pc) { pc.LoopHead? || pc.ReadWish? || pc.IdleWait? }

  /** A step to a place where nothing is drained or put back. */
  predicate Untouched(s: State, t: State) {
    t.children == s.children && t.done == s.done && (Looking(t.pc) <==> Looking(s.pc))
    && !Draining(t.pc) && !t.pc.PutBack?
  }

  lemma IdleEffect(s: State, c: Choice)
    requires LoopEnabled(s, c) && Idle(s.pc)
    ensures Untouched(s, LoopStep(s, c))
  {
  }

  lemma QuietEffect(s: State, c: Choice)
    requires LoopEnabled(s, c) && (s.pc.Prepare? || s.pc.Ready? || s.pc.Backoff?)
    ensures Untouched(s, LoopStep(s, c))
  {
  }

  lemma SameChildren(s: State, t: State)
    requires ChildInv(s) && Untouched(s, t)
    ensures ChildInv(t)
  {
  }

  lemma LaunchStep(s: State, c: Choice)
    requires ChildInv(s) && LoopEnabled(s, c) && s.pc.Launch?
    ensures ChildInv(LoopStep(s, c))
  {
    if c != Fails {
      OneMore(s, LoopStep(s, c), Child(Alive(s.done), false, 0, 0, 0));
    }
  }

  lemma HealthStep(s: State, c: Choice)
    requires ChildInv(s) && LoopEnabled(s, c) && s.pc.HealthWait?
    ensures ChildInv(LoopStep(s, c))
  {
    assert Balanced(Last(s));
    LastChanged(s, LoopStep(s, c), Last(LoopStep(s, c)));
  }

  /** Putting back the token of a process that died while starting. */
  lemma PutBackStep(s: State, c: Choice)
    requires ChildInv(s) && LoopEnabled(s, c) && s.pc.PutBack?
    ensures ChildInv(LoopStep(s, c))
  {
    CollectedIsDead(Last(s));
    LastChanged(s, LoopStep(s, c), Last(LoopStep(s, c)));
  }

  lemma DrainStep(s: State, c: Choice)
    requires ChildInv(s) && LoopEnabled(s, c) && Draining(s.pc)
    ensures ChildInv(LoopStep(s, c))
  {
    assert Balanced(Last(s));
    LastChanged(s, LoopStep(s, c), Last(LoopStep(s, c)));
  }

  lemma RunningStep(s: State, c: Choice)
    requires ChildInv(s) && LoopEnabled(s, c) && (s.pc.RunWait? || s.pc.RereadWish?)
    ensures ChildInv(LoopStep(s, c))
  {
    assert Balanced(Last(s));
    LastChanged(s, LoopStep(s, c), Last(LoopStep(s, c)));
  }

  lemma ChildStep(s: State, c: Choice)
    requires ChildInv(s) && LoopEnabled(s, c)
    ensures ChildInv(LoopStep(s, c))
  {
    match s.pc
    case Launch => LaunchStep(s, c);
    case HealthWait => HealthStep(s, c);
    case PutBack => PutBackStep(s, c);
    case DrainUnhealthy => DrainStep(s, c);
    case DrainUnwanted => DrainStep(s, c);
    case DrainDone => DrainStep(s, c);
    case RunWait => RunningStep(s, c);
    case RereadWish => RunningStep(s, c);
    case _ => QuietStep(s, c);
  }

  lemma OthersStep(s: State, a: Action)
    requires Inv(s) && Enabled(s, a) && !a.Loop?
    ensures Inv(Apply(s, a))
  {
  }

  lemma Step(s: State, a: Action)
    requires Inv(s) && Enabled(s, a)
    ensures Inv(Apply(s, a))
  {
    match a
    case Loop(c) =>
      WakeStep(s, c);
      ReadStep(s, c);
      ChildStep(s, c);
    case _ => OthersStep(s, a);
  }

  predicate Possible(s: State, run: seq<Action>)
    decreases |run|
  {
    run == [] || (Enabled(s, run[0]) && Possible(Apply(s, run[0]), run[1..]))
  }

  function After(s: State, run: seq<Action>): State
    requires Possible(s, run)
    decreases |run|
  {
    if run == [] then s else After(Apply(s, run[0]), run[1..])
  }

  lemma {:induction false} RunKeeps(s: State, run: seq<Action>)
    requires Possible(s, run) && Inv(s)
    ensures Inv(After(s, run))
    decreases |run|
  {
    if run != [] {
      Step(s, run[0]);
      RunKeeps(Apply(s, run[0]), run[1..]);
    }
  }

  /** No lost wake-up, in every interleaving: a blocked supervisor whose wish
      changed has a full wake slot or a caller about to fill it. */
  lemma NoLostWakeUp(run: seq<Action>)
    requires Possible(INIT, run)
    ensures var t := After(INIT, run);
            Blocked(t.pc) && t.want != t.read ==> t.slot || t.pending > 0
  {
    RunKeeps(INIT, run);
  }

  /** So once every caller is through and the slot is empty, the supervisor
      waits where the wish says: idle only while unwanted, beside a running or
      restarting service only while wanted. */
  lemma QuietSupervisorObeys(run: seq<Action>)
    requires Possible(INIT, run)
    ensures var t := After(INIT, run);
            t.pending == 0 && !t.slot ==>
              (t.pc == IdleWait ==> !t.want) && (t.pc.HealthWait? || t.pc.RunWait? || t.pc.Backoff? ==> t.want)
  {
    RunKeeps(INIT, run);
  }

  function Living(cs: seq<Child>): nat {
    if cs == [] then 0 else Living(cs[..|cs| - 1]) + Bit(cs[|cs| - 1].proc.Alive?)
  }

  /** A collected process is dead and its waiter through: its channel is empty
      and nothing will be sent there again. */
  lemma CollectedIsDead(c: Child)
    requires Balanced(c) && Collected(c)
    ensures c.proc.Dead? && c.sent && c.tokens == 0
  {
  }

  lemma {:induction false} AllCollectedAreDead(cs: seq<Child>)
    requires forall i :: 0 <= i < |cs| ==> Balanced(cs[i]) && Collected(cs[i])
    ensures Living(cs) == 0
  {
    if cs != [] {
      AllCollectedAreDead(cs[..|cs| - 1]);
    }
  }

  lemma LivingIsLast(s: State)
    requires ChildInv(s)
    ensures Living(s.children) == if s.children == [] then 0 else Bit(Last(s).proc.Alive?)
  {
    if s.children != [] {
      AllCollectedAreDead(s.children[..|s.children| - 1]);
    }
  }

  /** At most one of all processes ever started is alive. None is, and no waiter
      is left behind, while the loop is not looking after one: at its head, while
      idle, beside initprovider, while backing off, and after its return. */
  lemma {:induction false} AtMostOneChild(run: seq<Action>)
    requires Possible(INIT, run)
    ensures var t := After(INIT, run);
            && Living(t.children) <= 1
            && (!Looking(t.pc) ==>
                  Living(t.children) == 0
                  && forall i :: 0 <= i < |t.children| ==> t.children[i].sent && t.children[i].tokens == 0)
  {
    RunKeeps(INIT, run);
    var t := After(INIT, run);
    LivingIsLast(t);
    forall i | !Looking(t.pc) && 0 <= i < |t.children| ensures t.children[i].sent && t.children[i].tokens == 0 {
      CollectedIsDead(t.children[i]);
    }
  }

  // ---- the exit channel ----

  /** In every interleaving each process's channel keeps its balance and its
      capacity. */
  lemma {:induction false} ChannelIsBalanced(run: seq<Action>, i: nat)
    requires Possible(INIT, run) && i < |After(INIT, run).children|
    ensures var c := After(INIT, run).children[i];
            && c.tokens + c.received - c.putBack == Bit(c.sent)
            && c.tokens <= CAPACITY && c.putBack <= c.received <= c.putBack + 1
  {
    RunKeeps(INIT, run);
    assert Balanced(After(INIT, run).children[i]);
  }

  /** No send on the exit channel finds the slot full: neither the put-back of
      waitHealthy nor the waiter of any process, however late it comes. */
  lemma {:induction false} SendsNeverBlock(run: seq<Action>)
    requires Possible(INIT, run)
    ensures var t := After(INIT, run);
            && (t.pc == PutBack ==> Enabled(t, Loop(Go)))
            && forall i :: 0 <= i < |t.children| && t.children[i].proc.Dead? && !t.children[i].sent ==>
                   Enabled(t, WaiterSends(i))
  {
    RunKeeps(INIT, run);
    var t := After(INIT, run);
    forall i | 0 <= i < |t.children| && t.children[i].proc.Dead? && !t.children[i].sent ensures CanSend(t.children[i]) {
      ChannelIsBalanced(run, i);
    }
    if t.pc == PutBack {
      CollectedIsDead(Last(t));
    }
  }

  // ---- every blocking receive on the exit channel can complete ----

  /** Steps the process and its waiter still need before the token is there. */
  function Distance(c: Child): nat { if c.proc.Alive? then 2 else if c.sent then 0 else 1 }

  /** The process was told to stop; it and its waiter can take those steps,
      each brings the token closer, and once it is there the receive can
      happen. */
  ghost predicate CanComplete(t: State) {
    var i := |t.children| - 1;
    && t.children != [] && Last(t).proc != Alive(false)
    && (Distance(Last(t)) == 2 ==> Enabled(t, ProcExits(i)) && Distance(Last(Apply(t, ProcExits(i)))) == 1)
    && (Distance(Last(t)) == 1 ==> Enabled(t, WaiterSends(i)) && Distance(Last(Apply(t, WaiterSends(i)))) == 0)
    && (Distance(Last(t)) == 0 ==> Enabled(t, Loop(OnToken)))
  }

  lemma DrainingCompletes(t: State)
    requires Inv(t) && Draining(t.pc)
    ensures CanComplete(t)
  {
    assert Balanced(Last(t));
  }

  /** The loop stays where it is, and the token no further away. */
  ghost predicate KeepsClose(t: State, u: State) {
    u.pc == t.pc && t.children != [] && u.children != [] && Distance(Last(u)) <= Distance(Last(t))
  }

  lemma OthersKeepClose(t: State, a: Action)
    requires Inv(t) && Draining(t.pc) && Enabled(t, a) && !a.Loop?
    ensures KeepsClose(t, Apply(t, a))
  {
  }

  /** The supervisor is blocked on the exit channel: the process has been told
      to stop; either the token is there, or the process or its waiter has a
      step that brings it closer; and nobody else's step moves it away. */
  lemma {:induction false} DrainCanComplete(run: seq<Action>, a: Action)
    requires Possible(INIT, run) && Draining(After(INIT, run).pc) && Enabled(After(INIT, run), a)
    ensures CanComplete(After(INIT, run))
    ensures !a.Loop? ==> KeepsClose(After(INIT, run), Apply(After(INIT, run), a))
  {
    RunKeeps(INIT, run);
    DrainingCompletes(After(INIT, run));
    if !a.Loop? {
      OthersKeepClose(After(INIT, run), a);
    }
  }

  // ---- what the loop does for the wish ----

  /** It ends and drains for the end only when cancelled; a process is told to
      stop only then or by the loop that waits for it; and the database is
      prepared before the first process, once. */
  predicate GoalInv(s: State) {
    && (s.pc.Returned? || s.pc.DrainDone? ==> s.done)
    && (s.children != [] && Last(s).proc == Alive(true) ==> s.done || Draining(s.pc))
    && (s.pc.Launch? || s.children != [] ==> s.initialised)
    && (s.pc.Prepare? ==> !s.initialised)
  }

  lemma GoalDrain(s: State, c: Choice)
    requires Inv(s) && GoalInv(s) && LoopEnabled(s, c) && (Draining(s.pc) || s.pc.PutBack?)
    ensures GoalInv(LoopStep(s, c))
  {
    Step(s, Loop(c));
    if !Looking(LoopStep(s, c).pc) {
      CollectedIsDead(Last(LoopStep(s, c)));
    }
  }

  lemma GoalWatch(s: State, c: Choice)
    requires Inv(s) && GoalInv(s) && LoopEnabled(s, c) && (s.pc.RunWait? || s.pc.HealthWait? || s.pc.RereadWish?)
    ensures GoalInv(LoopStep(s, c))
  {
    assert Balanced(Last(s));
  }

  lemma GoalStep(s: State, c: Choice)
    requires Inv(s) && GoalInv(s) && LoopEnabled(s, c)
    ensures GoalInv(LoopStep(s, c))
  {
    if Draining(s.pc) || s.pc.PutBack? {
      GoalDrain(s, c);
    } else if s.pc.RunWait? || s.pc.HealthWait? || s.pc.RereadWish? {
      GoalWatch(s, c);
    }
  }

  lemma GoalOthers(s: State, a: Action)
    requires GoalInv(s) && Enabled(s, a) && !a.Loop?
    ensures GoalInv(Apply(s, a))
  {
  }

  lemma {:induction false} GoalKeeps(s: State, run: seq<Action>)
    requires Possible(s, run) && Inv(s) && GoalInv(s)
    ensures Inv(After(s, run)) && GoalInv(After(s, run)) && (s.initialised ==> After(s, run).initialised)
    decreases |run|
  {
    if run != [] {
      Step(s, run[0]);
      if run[0].Loop? {
        GoalStep(s, run[0].choice);
      } else {
        GoalOthers(s, run[0]);
      }
      GoalKeeps(Apply(s, run[0]), run[1..]);
    }
  }

  /** In every interleaving the loop returns only when cancelled, and no process
      is started before the database is prepared, which is done until it
      succeeds and then never again. */
  lemma {:induction false} OnlyCancelEnds(run: seq<Action>)
    requires Possible(INIT, run)
    ensures var t := After(INIT, run);
            && (t.pc == Returned ==> t.done)
            && (t.children != [] ==> t.initialised)
            && (t.pc == Prepare ==> !t.initialised)
  {
    GoalKeeps(INIT, run);
  }

  /** The service runs: the loop watches a process that nobody told to stop. */
  predicate Up(s: State) {
    (s.pc.RunWait? || s.pc.RereadWish?) && s.children != [] && Last(s).proc == Alive(false)
  }

  /** On the way up, or up: idle, pausing, or past that with a live process. */
  predicate Rising(s: State) {
    && s.want && !s.done && !Draining(s.pc) && !s.pc.PutBack? && !s.pc.Returned?
    && (Serving(s.pc) || s.pc.RereadWish? ==> s.children != [] && Last(s).proc == Alive(false))
  }

  /** The wish stays, nothing fails, no time-out, no process dies. */
  predicate Favourable(s: State, a: Action) {
    match a
    case SetWish(want) => want
    case Signal => true
    case Loop(c) => c != Fails && !(s.pc.HealthWait? && c == OnTimer)
    case _ => false
  }

  /** Own steps of the loop until the service runs. */
  function StepsUp(pc: Pc): nat {
    match pc
    case IdleWait => 7
    case Backoff => 7
    case LoopHead => 6
    case ReadWish => 5
    case Prepare => 4
    case Launch => 3
    case HealthWait => 2
    case Ready => 1
    case _ => 0
  }

  /** Every own step is one closer, and none leaves again. */
  lemma RisingStep(s: State, a: Action)
    requires Inv(s) && Rising(s) && Enabled(s, a) && Favourable(s, a)
    ensures Rising(Apply(s, a))
    ensures StepsUp(Apply(s, a).pc) <= if a.Loop? && StepsUp(s.pc) > 0 then StepsUp(s.pc) - 1 else StepsUp(s.pc)
  {
    if s.children != [] {
      assert Balanced(Last(s));
    }
  }

  /** And one is always possible; an idle loop is woken. */
  lemma RisingIsEnabled(s: State)
    requires Inv(s) && Rising(s) && !Up(s)
    ensures var c := if s.pc.IdleWait? then OnWake else if s.pc.Backoff? then OnTimer else Go;
            && Favourable(s, Loop(c))
            && if s.pc.IdleWait? && !s.slot then Enabled(s, Signal) && Enabled(Apply(s, Signal), Loop(c))
               else Enabled(s, Loop(c))
  {
  }

  predicate FavourableRun(s: State, run: seq<Action>)
    requires Possible(s, run)
    decreases |run|
  {
    run == [] || (Favourable(s, run[0]) && FavourableRun(Apply(s, run[0]), run[1..]))
  }

  function LoopSteps(run: seq<Action>): nat {
    if run == [] then 0 else LoopSteps(run[1..]) + if run[0].Loop? then 1 else 0
  }

  lemma {:induction false} RisingRun(s: State, run: seq<Action>)
    requires Possible(s, run) && FavourableRun(s, run) && Inv(s) && Rising(s) && LoopSteps(run) >= StepsUp(s.pc)
    ensures Rising(After(s, run)) && StepsUp(After(s, run).pc) == 0
    decreases |run|
  {
    if run != [] {
      Step(s, run[0]);
      RisingStep(s, run[0]);
      RisingRun(Apply(s, run[0]), run[1..]);
    }
  }

  /** A wanted service is started: from every reachable state on the way, in
      every interleaving where nothing fails and the wish stays, the loop has
      it running after at most seven steps of its own, and keeps it so. */
  lemma {:induction false} WantedServiceStarts(run: seq<Action>, more: seq<Action>)
    requires Possible(INIT, run) && Rising(After(INIT, run))
    requires Possible(After(INIT, run), more) && FavourableRun(After(INIT, run), more)
    requires LoopSteps(more) >= StepsUp(After(INIT, run).pc)
    ensures Up(After(After(INIT, run), more))
  {
    RunKeeps(INIT, run);
    RisingRun(After(INIT, run), more);
  }

  /** What is left to be done for the wish: a service running if wanted, no
      loop left if cancelled, else an idle loop. */
  predicate Obeyed(s: State) {
    if s.done then s.pc.Returned? else if s.want then Up(s) else s.pc.IdleWait?
  }

  /** Nobody wishes or cancels, and nothing fails. */
  predicate Own(a: Action) { !a.SetWish? && !a.Cancel? && a != Loop(Fails) }

  /** A next step towards that; out of a process that has ended, through its
      token. */
  function Next(s: State): Action {
    var i := |s.children| - 1;
    var ended := s.children != [] && Last(s).proc.Dead?;
    match s.pc
    case IdleWait => if s.done then Loop(OnDone) else if s.slot then Loop(OnWake) else Signal
    case Backoff => if s.done then Loop(OnDone) else Loop(OnTimer)
    case HealthWait =>
      if s.done then Loop(OnDone)
      else if !ended then Loop(Go)
      else TokenStep(s)
    case RunWait =>
      if s.done then Loop(OnDone)
      else if s.want then TokenStep(s)
      else if s.slot then Loop(OnWake)
      else Signal
    case DrainUnhealthy => TokenStep(s)
    case DrainUnwanted => TokenStep(s)
    case DrainDone => TokenStep(s)
    case _ => Loop(Go)
  }

  /** The end of the process, its waiter's send, or the receive. */
  function TokenStep(s: State): Action {
    var i := |s.children| - 1;
    if s.children == [] || Distance(Last(s)) == 0 then Loop(OnToken)
    else if Distance(Last(s)) == 2 then ProcExits(i)
    else WaiterSends(i)
  }

  function Waits(b: bool): nat { if b then 0 else 1 }

  /** Steps until the wish is obeyed, at most. */
  function Far(s: State): nat {
    var d := if s.children == [] then 0 else Distance(Last(s));
    if Obeyed(s) then 0
    else if s.done then FarFromEnd(s.pc, d)
    else if s.want then FarFromUp(s, d)
    else FarFromIdle(s, d)
  }

  function FarFromEnd(pc: Pc, d: nat): nat {
    match pc
    case LoopHead => 1
    case IdleWait => 1
    case Backoff => 1
    case PutBack => 6
    case RunWait => 6
    case RereadWish => 7
    case Ready => 7
    case HealthWait => 7
    case Launch => 8
    case Prepare => 9
    case ReadWish => 10
    case _ => 2 + d
  }

  function FarFromUp(s: State, d: nat): nat {
    var ended := s.children != [] && Last(s).proc.Dead?;
    match s.pc
    case IdleWait => 7 + Waits(s.slot)
    case Backoff => 7
    case LoopHead => 6
    case ReadWish => 5
    case Prepare => 4
    case Launch => 3
    case HealthWait => if ended then 14 + d else 2
    case Ready => if ended then 13 + d else 1
    case PutBack => 12
    case RereadWish => 13 + d
    case RunWait => 8 + d
    case _ => 8 + d
  }

  function FarFromIdle(s: State, d: nat): nat {
    match s.pc
    case ReadWish => 1
    case LoopHead => 2
    case Backoff => 3
    case PutBack => 8
    case RereadWish => 8
    case RunWait => 9 + Waits(s.slot)
    case Ready => 11
    case HealthWait => 12 + d
    case Launch => 15
    case Prepare => 16
    case _ => 4 + d
  }

  /** The step can happen and is closer. */
  ghost predicate Closer(s: State, a: Action) {
    Own(a) && Enabled(s, a) && Far(Apply(s, a)) < Far(s) && Apply(s, a).want == s.want && Apply(s, a).done == s.done
  }

  /** Beside a process, not waiting for its end; away from one. */
  predicate Watching(pc: Pc) { pc.HealthWait? || pc.RunWait? || pc.RereadWish? || pc.Ready? }
  predicate Moving(pc: Pc) { !Watching(pc) && !Draining(pc) && !pc.PutBack? }

  lemma WatchToEnd(s: State)
    requires Inv(s) && GoalInv(s) && s.done && !Obeyed(s) && Watching(s.pc)
    ensures Closer(s, Next(s))
  {
    assert Balanced(Last(s));
  }

  lemma MoveToEnd(s: State)
    requires Inv(s) && GoalInv(s) && s.done && !Obeyed(s) && Moving(s.pc)
    ensures Closer(s, Next(s))
  {
  }

  lemma WatchToUp(s: State)
    requires Inv(s) && GoalInv(s) && !s.done && s.want && !Obeyed(s) && Watching(s.pc)
    ensures Closer(s, Next(s))
  {
    assert Balanced(Last(s));
  }

  lemma MoveToUp(s: State)
    requires Inv(s) && GoalInv(s) && !s.done && s.want && !Obeyed(s) && Moving(s.pc)
    ensures Closer(s, Next(s))
  {
  }

  lemma WatchToIdle(s: State)
    requires Inv(s) && GoalInv(s) && !s.done && !s.want && !Obeyed(s) && Watching(s.pc)
    ensures Closer(s, Next(s))
  {
    assert Balanced(Last(s));
  }

  lemma MoveToIdle(s: State)
    requires Inv(s) && GoalInv(s) && !s.done && !s.want && !Obeyed(s) && Moving(s.pc)
    ensures Closer(s, Next(s))
  {
  }

  lemma DrainCloser(s: State)
    requires Inv(s) && GoalInv(s) && Draining(s.pc)
    ensures Closer(s, Next(s))
  {
    assert Balanced(Last(s));
  }

  lemma PutBackCloser(s: State)
    requires Inv(s) && GoalInv(s) && s.pc.PutBack?
    ensures Closer(s, Next(s))
  {
    CollectedIsDead(Last(s));
  }

  lemma NextIsCloser(s: State)
    requires Inv(s) && GoalInv(s) && !Obeyed(s)
    ensures Closer(s, Next(s))
  {
    if Draining(s.pc) {
      DrainCloser(s);
    } else if s.pc.PutBack? {
      PutBackCloser(s);
    } else if Watching(s.pc) {
      if s.done { WatchToEnd(s); } else if s.want { WatchToUp(s); } else { WatchToIdle(s); }
    } else {
      if s.done { MoveToEnd(s); } else if s.want { MoveToUp(s); } else { MoveToIdle(s); }
    }
  }

  /** A run of such steps that ends with the wish obeyed. */
  ghost predicate Obeys(s: State, run: seq<Action>) {
    && Possible(s, run) && (forall i :: 0 <= i < |run| ==> Own(run[i]))
    && Obeyed(After(s, run)) && After(s, run).want == s.want && After(s, run).done == s.done
  }

  lemma {:induction false} PathToObeyed(s: State) returns (run: seq<Action>)
    requires Inv(s) && GoalInv(s)
    ensures Obeys(s, run) && |run| <= Far(s)
    decreases Far(s)
  {
    if Obeyed(s) {
      run := [];
    } else {
      var a := Next(s);
      NextIsCloser(s);
      GoalKeeps(s, [a]);
      assert After(s, [a]) == After(Apply(s, a), []) == Apply(s, a);
      var rest := PathToObeyed(Apply(s, a));
      run := [a] + rest;
      assert run[1..] == rest;
    }
  }

  /** From every reachable state the wish can be obeyed, with nobody wishing
      anew and nothing failing: a wanted service comes to run whatever became of
      the last process, an unwanted one is stopped and the loop idle, and a
      cancelled loop returns; in 18 steps at most. */
  lemma {:induction false} WishCanBeObeyed(run: seq<Action>) returns (more: seq<Action>)
    requires Possible(INIT, run)
    ensures Obeys(After(INIT, run), more) && |more| <= 18
  {
    GoalKeeps(INIT, run);
    more := PathToObeyed(After(INIT, run));
  }

  // ---- trouble ----

  /** How often the loop leaves a pause, or stops a process for the wish. */
  function Pauses(s: State, run: seq<Action>): nat
    requires Possible(s, run)
    decreases |run|
  {
    if run == [] then 0
    else Pauses(Apply(s, run[0]), run[1..]) + Bit(Pause(s, run[0]))
  }

  /** Nothing can be started before the next of these. */
  predicate Spent(pc: Pc) { Looking(pc) || pc.PutBack? || pc.Backoff? || pc.Returned? }

  /** Processes started, and whether one more may be. */
  function Starts(s: State): nat { |s.children| + Bit(!Spent(s.pc)) }

  predicate Pause(s: State, a: Action) { a.Loop? && (s.pc.Backoff? || s.pc.DrainUnwanted?) }

  lemma SpentStep(s: State, c: Choice)
    requires LoopEnabled(s, c) && Spent(s.pc)
    ensures Starts(LoopStep(s, c)) <= Starts(s) + Bit(Pause(s, Loop(c)))
  {
  }

  lemma UnspentStep(s: State, c: Choice)
    requires LoopEnabled(s, c) && !Spent(s.pc)
    ensures Starts(LoopStep(s, c)) <= Starts(s)
  {
  }

  lemma StartsStep(s: State, a: Action)
    requires Enabled(s, a)
    ensures Starts(Apply(s, a)) <= Starts(s) + Bit(Pause(s, a))
  {
    if a.Loop? {
      if Spent(s.pc) {
        SpentStep(s, a.choice);
      } else {
        UnspentStep(s, a.choice);
      }
    }
  }

  lemma {:induction false} StartsRun(s: State, run: seq<Action>)
    requires Possible(s, run)
    ensures Starts(After(s, run)) <= Starts(s) + Pauses(s, run)
    decreases |run|
  {
    if run != [] {
      StartsStep(s, run[0]);
      StartsRun(Apply(s, run[0]), run[1..]);
    }
  }

  /** A process that keeps failing is not started without a pause in between:
      in every interleaving the processes started number at most one more than
      the pauses and the stops for the wish. */
  lemma StartsArePaused(run: seq<Action>)
    requires Possible(INIT, run)
    ensures |After(INIT, run).children| <= 1 + Pauses(INIT, run)
  {
    StartsRun(INIT, run);
  }

  /** A process that does not answer is not served: only an answer leads on from
      waiting for it, and after a time-out it has been told to stop. */
  lemma {:induction false} NoAnswerNoService(run: seq<Action>, c: Choice)
    requires Possible(INIT, run) && After(INIT, run).pc == HealthWait && c != Go
    requires LoopEnabled(After(INIT, run), c)
    ensures var t := Apply(After(INIT, run), Loop(c));
            t.children != [] && Last(t).proc != Alive(false) && (Draining(t.pc) || t.pc == PutBack)
  {
    RunKeeps(INIT, run);
    assert Balanced(Last(After(INIT, run)));
  }

  // ---- the caller's side ----

  class Manager {
    var want: bool
    var wake: bool // the one slot of the wake channel

    constructor ()
      ensures !want && !wake
    {
      want, wake := false, false;
    }

    /** SetWanted with the manager to itself: a change always leaves the slot
        full, a repetition touches nothing. It is the protocol's SetWish,
        followed by Signal when the wish changed. */
    method SetWanted(w: bool)
      modifies this
      ensures want == w && wake == (old(wake) || old(want) != w)
      ensures forall s: State :: s.want == old(want) && s.slot == old(wake) && s.pending == 0 ==>
                var t := Apply(s, SetWish(w));
                t.want == want && (if t.pending > 0 then Apply(t, Signal).slot else t.slot) == wake
    {
      var changed := want != w;
      want := w;
      if changed {
        if !wake {
          wake := true;
        }
      }
    }
  }
}
