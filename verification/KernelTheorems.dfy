/** The promises of the synchronisation primitives and the scheduler, for every run. */
module KernelTheorems {
  import opened Common
  import opened KernelModel
  import opened KernelSched
  import opened KernelLock
  import opened KernelSema
  import opened KernelWait
  import opened KernelSignal
  import opened KernelRuns

  // ---------------------------------------------------------------- the scheduler

  /** A thread other than the idle thread is ready exactly when it is on the ready list, and then once;
      a thread on a wait list is blocked, is on no other list, and is on it once. */
  lemma ListsAreExclusive(states: seq<State>, events: seq<Event>, i: nat, t: Tid)
    requires IsRun(states, events) && i < |states| && t in states[i].status && t != IDLE
    ensures var st := states[i];
            && (st.status[t] == Ready <==> t in st.ready) && NoDup(st.ready)
            && (st.status[t] == Running <==> t == st.cur)
            && (st.status[t] == Blocked <==> exists s :: s in st.semas && t in st.semas[s].waiters)
            && (forall s, r :: s in st.semas && r in st.semas ==>
                  t in st.semas[s].waiters && t in st.semas[r].waiters ==> s == r)
            && (forall s :: s in st.semas ==> NoDup(st.semas[s].waiters))
  {
    Reachable(states, events, i);
    var st := states[i];
    if st.status[t] == Blocked { assert OnItsWaitList(t, st.code, st.semas); }
  }

  /** How many of the first j events gave the processor away. */
  ghost function Switches(states: seq<State>, events: seq<Event>, j: nat): nat
    requires j <= |events| <= |states|
  {
    if j == 0 then 0 else Switches(states, events, j - 1) + if Schedules(states[j - 1], events[j - 1]) then 1 else 0
  }

  ghost predicate StepAt(states: seq<State>, events: seq<Event>, i: int)
    requires 0 <= i < |events| && |states| == |events| + 1
  {
    Enabled(states[i], events[i]) && states[i + 1] == Next(states[i], events[i])
  }

  ghost predicate Steps(states: seq<State>, events: seq<Event>)
  {
    |states| == |events| + 1 && forall i :: 0 <= i < |events| ==> StepAt(states, events, i)
  }

  /** One event moves a ready thread up one place if it schedules, and leaves its place alone if not. */
  lemma ReadyMoves(st: State, e: Event, k: nat)
    requires Enabled(st, e) && k < |st.ready|
    ensures Schedules(st, e) && k == 0 ==> Next(st, e).cur == st.ready[0]
    ensures Schedules(st, e) && k > 0 ==> |Next(st, e).ready| >= k && Next(st, e).ready[k - 1] == st.ready[k]
    ensures !Schedules(st, e) ==> |Next(st, e).ready| > k && Next(st, e).ready[k] == st.ready[k]
  {
    if e.Run? { ReadyRun(st, Code(st)[0], Code(st)[1..], k); }
  }

  lemma ReadyRun(st: State, op: Op, rest: seq<Op>, k: nat)
    requires Known(st, op) && k < |st.ready| && Code(st) != [] && op == Code(st)[0]
    ensures var st' := Exec(st, op, rest);
            && (Schedules(st, Run) && k == 0 ==> st'.cur == st.ready[0])
            && (Schedules(st, Run) && k > 0 ==> |st'.ready| >= k && st'.ready[k - 1] == st.ready[k])
            && (!Schedules(st, Run) ==> |st'.ready| > k && st'.ready[k] == st.ready[k])
  {
  }

  lemma PlaceAfter(states: seq<State>, events: seq<Event>, k: nat, j: nat)
    requires Steps(states, events) && 0 < j <= |events|
    ensures var n, n' := Switches(states, events, j - 1), Switches(states, events, j);
            && n <= n' <= n + 1
            && (k < |states[j - 1].ready| && n' > n && k == 0 ==> states[j].cur == states[j - 1].ready[0])
            && (k < |states[j - 1].ready| && n' > n && k > 0 ==>
              |states[j].ready| >= k && states[j].ready[k - 1] == states[j - 1].ready[k])
            && (k < |states[j - 1].ready| && n' == n ==>
              |states[j].ready| > k && states[j].ready[k] == states[j - 1].ready[k])
  {
    assert StepAt(states, events, j - 1);
    if k < |states[j - 1].ready| { ReadyMoves(states[j - 1], events[j - 1], k); }
  }

  /** Bounded wait: the thread at position k of the ready list is still waiting after k calls of
      schedule and is the one the next call switches to. */
  lemma {:induction false} BoundedWait(states: seq<State>, events: seq<Event>, k: nat, j: nat)
    requires Steps(states, events) && k < |states[0].ready| && j <= |events|
    ensures var n := Switches(states, events, j);
            && (n <= k ==> k - n < |states[j].ready| && states[j].ready[k - n] == states[0].ready[k])
            && (j > 0 && n == k + 1 && Switches(states, events, j - 1) == k ==> states[j].cur == states[0].ready[k])
  {
    if j > 0 {
      BoundedWait(states, events, k, j - 1);
      PlaceAfter(states, events, Max(k - Switches(states, events, j - 1), 0), j);
    }
  }

  // ---------------------------------------------------------------- assertions

  /** Some thread is there to switch to. */
  ghost predicate CanSwitch(st: State) { st.ready != [] || (st.idle.Some? && st.idle.value in st.status) }

  ghost predicate WakesBlocked(st: State, s: SemaId)
  {
    s in st.semas && (st.semas[s].waiters != [] ==>
      st.semas[s].waiters[0] in st.status && st.status[st.semas[s].waiters[0]] == Blocked)
  }

  /** The kernel's own assertions inside a step: thread_unblock finds a blocked thread; lock_acquire is
      not called by the holder; lock_release and the condition variables are used by the holder. */
  ghost predicate StepAsserts(st: State, op: Op)
  {
    match op
    case Down(s) => !(s.OfLock? && Holds(st, s.lock))
    case Up(s) => WakesBlocked(st, s)
    case ClearHolder(l) => Holds(st, l)
    case Register(c, l, w) => Holds(st, l)
    case Signal(c, l) => Holds(st, l)
    case Broadcast(c, l, goal) => Holds(st, l)
    case _ => true
  }

  lemma WakesBlockedInv(st: State, s: SemaId)
    requires WaitersBlocked(st.status, st.code, st.semas) && s in st.semas
    ensures WakesBlocked(st, s)
  {
    if st.semas[s].waiters != [] { assert st.semas[s].waiters[0] in st.semas[s].waiters; }
  }

  lemma StepAssertsInv(st: State)
    requires Inv(st) && Code(st) != []
    ensures StepAsserts(st, Code(st)[0])
  {
    var code := st.code[st.cur];
    var op := code[0];
    assert RefsOk(st, code) && RefOk(st, op);
    if op.Up? {
      WakesBlockedInv(st, op.s);
    } else if op.Down? && op.s.OfLock? {
      assert op.s.lock in st.locks;
      assert Legal(code, op.s.lock, PhaseOf(st.locks[op.s.lock], st.cur));
    } else if op.ClearHolder? || op.Register? || op.Signal? || op.Broadcast? {
      assert Legal(code, op.l, PhaseOf(st.locks[op.l], st.cur));
    }
  }

  /** No assertion of the kernel fires in any run: whatever step comes next finds what it expects,
      and a thread that gives the processor away always has a successor. */
  lemma NoPanic(states: seq<State>, events: seq<Event>, i: nat)
    requires IsRun(states, events) && i < |events|
    ensures var st := states[i];
            && (events[i].Run? ==> StepAsserts(st, Code(st)[0]))
            && (events[i].Irq? ==> WakesBlocked(st, Plain(events[i].n)))
            && (Schedules(st, events[i]) && !events[i].Yield? ==> CanSwitch(st))
  {
    Reachable(states, events, i);
    var st := states[i];
    if events[i].Run? { StepAssertsInv(st); }
    if events[i].Irq? { WakesBlockedInv(st, Plain(events[i].n)); }
    if st.idle == None && st.cur != IDLE {
      assert st.status[IDLE] == Ready by { assert st.code[IDLE] != [IdleLoop]; }
      assert IDLE in st.ready;
    }
  }

  /** A thread inside an operation can always take its next step: no operation is stuck on a
      semaphore, lock or condition variable that does not exist. */
  lemma NeverStuck(states: seq<State>, events: seq<Event>, i: nat)
    requires IsRun(states, events) && i < |states| && Code(states[i]) != []
    ensures Enabled(states[i], Run)
  {
    Reachable(states, events, i);
    var st := states[i];
    var code := st.code[st.cur];
    var op := code[0];
    assert RefsOk(st, code) && RefOk(st, op);
    if (op.Down? || op.Retry?) && op.s.Waiter? {
      var w := op.s.w;
      assert UsesOwn(code, st.cur, st.owner) && UsesItsOwn(op, st.cur, st.owner) && Uses(op, w);
      assert WaitsInOrder(code, w, StageOf(st.semas, w));
    }
  }

  // ---------------------------------------------------------------- semaphores

  /** Units are conserved, and a wakeup is never lost: if threads wait while units are free, at least
      as many woken threads are on their way, each of them ready or running. */
  lemma NoLostWakeup(states: seq<State>, events: seq<Event>, i: nat, s: SemaId)
    requires IsRun(states, events) && i < |states| && s in states[i].semas
    ensures var st, m := states[i], states[i].semas[s];
            && m.downs <= m.init + m.ups && m.value == (m.init + m.ups - m.downs) % TWO32
            && (m.waiters != [] ==> m.value <= |Woken(st.code, m.waiters, s)|)
            && (m.waiters != [] && m.value > 0 ==>
                  exists t :: t in Woken(st.code, m.waiters, s) && (t in st.ready || t == st.cur))
  {
    Reachable(states, events, i);
    var st := states[i];
    if st.semas[s].waiters != [] && st.semas[s].value > 0 {
      var t := FreeUnitIsComing(st, s);
      assert t in Woken(st.code, st.semas[s].waiters, s);
    }
  }

  // ---------------------------------------------------------------- locks

  /** The unit of a lock is in its semaphore or with exactly one thread, and a recorded holder is that thread. */
  lemma MutualExclusion(states: seq<State>, events: seq<Event>, i: nat, l: nat)
    requires IsRun(states, events) && i < |states| && l in states[i].locks
    ensures var st, k := states[i], states[i].locks[l];
            && OfLock(l) in st.semas && st.semas[OfLock(l)].value + |k.inside| == 1
            && (k.holder.Some? ==> k.inside == {k.holder.value})
  {
    Reachable(states, events, i);
    var k := states[i].locks[l];
    if k.holder.Some? { InsideIsSole(k, states[i].semas[OfLock(l)].value, k.holder.value); }
  }

  // ---------------------------------------------------------------- condition variables

  lemma WaitedHolds(st: State)
    requires LockInv(st) && RefsInv(st) && st.cur in st.code && Code(st) != [] && Code(st)[0].Waited?
    ensures Holds(st, Code(st)[0].l)
  {
    var code, op := st.code[st.cur], Code(st)[0];
    assert RefsOk(st, code) && RefOk(st, op);
    assert Legal(code, op.l, PhaseOf(st.locks[op.l], st.cur));
  }

  lemma WaitedPassed(st: State)
    requires WaitInv(st) && st.cur in st.code && Code(st) != [] && Code(st)[0].Waited?
    ensures var w := Code(st)[0].w;
            Waiter(w) in st.semas && st.semas[Waiter(w)].downs > 0 && st.semas[Waiter(w)].init == 0
  {
    var code, op := st.code[st.cur], Code(st)[0];
    assert UsesOwn(code, st.cur, st.owner) && UsesItsOwn(op, st.cur, st.owner) && Uses(op, op.w);
    assert WaitsInOrder(code, op.w, StageOf(st.semas, op.w));
  }

  lemma UpperAwaits(st: State, t: Tid, w: nat)
    requires SignalInv(st) && t in Uppers(st.code, w)
    ensures Awaiting(st.semas, w)
  {
    assert UpHead(st.code[t]);
  }

  lemma UppedIsSettled(st: State, w: nat)
    requires SignalInv(st) && Waiter(w) in st.semas && st.semas[Waiter(w)].ups == 1
    ensures !Listed(st.conds, w) && Uppers(st.code, w) == {}
  {
    assert !Awaiting(st.semas, w);
    forall t | t in Uppers(st.code, w) ensures false { UpperAwaits(st, t, w); }
  }

  /** condvar_wait returns only with the lock held and after its own semaphore was upped, exactly once;
      nothing still refers to that semaphore. */
  lemma WaitReturns(states: seq<State>, events: seq<Event>, i: nat)
    requires IsRun(states, events) && i < |states| && Code(states[i]) != [] && Code(states[i])[0].Waited?
    ensures var st, op := states[i], Code(states[i])[0];
            && Holds(st, op.l) && Waiter(op.w) in st.semas && st.semas[Waiter(op.w)].ups == 1
            && !Listed(st.conds, op.w) && Uppers(st.code, op.w) == {} && st.semas[Waiter(op.w)].waiters == []
  {
    Reachable(states, events, i);
    var st, w := states[i], Code(states[i])[0].w;
    WaitedHolds(st);
    WaitedPassed(st);
    assert Conserves(st.semas[Waiter(w)]);
    NobodyAsleep(st, w);
    UppedIsSettled(st, w);
  }

  lemma UnitIsThere(m: Sema)
    requires Conserves(m) && m.init == 0 && m.ups == 1
    ensures m.value + m.downs == 1
  {
  }

  /** Only its owner sleeps on a waiter's semaphore, and not after it was upped. */
  lemma NobodyAsleep(st: State, w: nat)
    requires Inv(st) && Waiter(w) in st.semas && st.semas[Waiter(w)].ups == 1
    ensures st.semas[Waiter(w)].waiters == []
  {
    var s := Waiter(w);
    if st.semas[s].waiters != [] {
      var t := SleeperIsOwner(st, w);
      UnitIsThere(st.semas[s]);
      var u := FreeUnitIsComing(st, s);
      OwnerRetries(st, u, w);
    }
  }

  lemma SleeperIsOwner(st: State, w: nat) returns (t: Tid)
    requires SchedInv(st) && WaitInv(st) && Waiter(w) in st.semas && st.semas[Waiter(w)].waiters != []
    ensures t in st.semas[Waiter(w)].waiters && w < |st.owner| && t == st.owner[w]
    ensures st.semas[Waiter(w)].downs == 0 && st.semas[Waiter(w)].init == 0
  {
    t := st.semas[Waiter(w)].waiters[0];
    assert t in st.semas[Waiter(w)].waiters;
    OwnerRetries(st, t, w);
  }

  /** A thread in semaphore_down on a waiter's semaphore is its owner and has not got past it. */
  lemma OwnerRetries(st: State, t: Tid, w: nat)
    requires WaitInv(st) && t in st.code && st.code[t] != [] && st.code[t][0] == Retry(Waiter(w))
    ensures w < |st.owner| && t == st.owner[w] && StageOf(st.semas, w) == Pending
  {
    assert UsesOwn(st.code[t], t, st.owner) && UsesItsOwn(st.code[t][0], t, st.owner) && Uses(st.code[t][0], w);
    assert WaitsInOrder(st.code[t], w, StageOf(st.semas, w));
  }

  /** A waiter is on its list before the lock is released, and from then on its wakeup is never lost:
      it is listed, or a signaller is about to up it, or it was upped and finds its unit. */
  lemma SignalIsNotLost(states: seq<State>, events: seq<Event>, i: nat, w: nat)
    requires IsRun(states, events) && i < |states| && Waiter(w) in states[i].semas
    ensures var st, m := states[i], states[i].semas[Waiter(w)];
            && m.ups <= 1
            && (m.ups == 0 ==> Listed(st.conds, w) || exists t :: Uppers(st.code, w) == {t})
            && (m.ups == 0 ==> !(Listed(st.conds, w) && Uppers(st.code, w) != {}))
            && (m.ups == 1 ==> m.waiters == [] && m.value + m.downs == 1)
  {
    Reachable(states, events, i);
    var st := states[i];
    assert st.semas[Waiter(w)].init == 0;
    if st.semas[Waiter(w)].ups == 1 {
      UnitIsThere(st.semas[Waiter(w)]);
      NobodyAsleep(st, w);
    } else {
      AwaitedOnce(st, w);
    }
  }

  lemma AwaitedOnce(st: State, w: nat)
    requires SignalInv(st) && Awaiting(st.semas, w)
    ensures Listed(st.conds, w) || exists t :: Uppers(st.code, w) == {t}
    ensures !(Listed(st.conds, w) && Uppers(st.code, w) != {})
  {
    if Uppers(st.code, w) != {} {
      var t :| t in Uppers(st.code, w);
      SoleUpperIs(st, t);
    }
  }

  lemma SoleUpperIs(st: State, t: Tid)
    requires SignalInv(st) && t in st.code && UpHead(st.code[t])
    ensures Uppers(st.code, UpTarget(st.code[t])) == {t}
  {
  }

  /** Waiters are released in the order they registered. */
  lemma SignalsAreFifo(states: seq<State>, events: seq<Event>, i: nat, c: nat)
    requires IsRun(states, events) && i < |states| && c in states[i].conds
    ensures var k := states[i].conds[c]; k.registered == k.released + k.waiters
  {
    Reachable(states, events, i);
  }

  /** A signal with waiters releases the longest-registered one and no other. */
  lemma SignalReleasesFirst(st: State)
    requires Inv(st) && Enabled(st, Run) && Code(st)[0].Signal? && st.conds[Code(st)[0].c].waiters != []
    ensures var c, st' := Code(st)[0].c, Next(st, Run);
            var w := st.conds[c].registered[|st.conds[c].released|];
            && st'.conds[c].released == st.conds[c].released + [w]
            && Uppers(st'.code, w) == {st.cur} && w !in st'.conds[c].waiters
            && (forall v :: v != w ==> (v in st'.conds[c].waiters <==> v in st.conds[c].waiters))
  {
    var c := Code(st)[0].c;
    var k := st.conds[c];
    assert k.registered == k.released + k.waiters;
    PopLists(st.conds, c);
    RunCode(st);
    InvKeeps(st, Run);
    SoleUpperIs(Next(st, Run), st.cur);
  }

  /** When condvar_broadcast finds the list empty, every waiter present at the call was upped. */
  lemma BroadcastReleasedAll(states: seq<State>, events: seq<Event>, i: nat)
    requires IsRun(states, events) && i < |states| && Code(states[i]) != [] && Code(states[i])[0].Broadcast?
    requires WaitersOf(states[i], Code(states[i])[0].c) == []
    ensures forall w :: w in Code(states[i])[0].goal ==>
              Waiter(w) in states[i].semas && states[i].semas[Waiter(w)].ups == 1
  {
    Reachable(states, events, i);
    var st := states[i];
    var code := st.code[st.cur];
    assert GoalsMet(st, code);
    forall w | w in code[0].goal ensures Waiter(w) in st.semas && st.semas[Waiter(w)].ups == 1 {
      assert GoalMet(st, code, code[0].c, w);
    }
  }

  /** The steps a broadcasting thread still has to take. */
  ghost function BroadcastWork(st: State, code: seq<Op>): nat
  {
    if code == [] then 0
    else if code[0].Broadcast? then 3 * |WaitersOf(st, code[0].c)| + 1
    else if |code| > 1 && code[1].Broadcast? then 3 * |WaitersOf(st, code[1].c)| + if code[0].Signal? then 0 else 2
    else 0
  }

  ghost predicate Broadcasting(code: seq<Op>)
  {
    code != [] && (code[0].Broadcast? || (|code| > 1 && code[1].Broadcast?))
  }

  /** A broadcasting thread stays where it is while the processor does something else. */
  lemma PausedBroadcast(st: State, e: Event)
    requires Inv(st) && Enabled(st, e) && Broadcasting(st.code[st.cur]) && !e.Run?
    ensures st.cur in Next(st, e).code
    ensures BroadcastWork(Next(st, e), Next(st, e).code[st.cur]) == BroadcastWork(st, st.code[st.cur])
  {
    var code := st.code[st.cur];
    assert Next(st, e).code[st.cur] == code;
    ListAfter(st, e, if code[0].Broadcast? then code[0].c else code[1].c);
  }

  /** condvar_broadcast terminates: each step of its own thread leaves one less to take, and no step of
      any other thread or interrupt adds any. */
  lemma BroadcastTerminates(st: State, e: Event, t: Tid)
    requires Inv(st) && Enabled(st, e) && t in st.code && Broadcasting(st.code[t])
    ensures t in Next(st, e).code
    ensures var before, after := BroadcastWork(st, st.code[t]), BroadcastWork(Next(st, e), Next(st, e).code[t]);
            if t == st.cur && e.Run? then after == before - 1 else after == before
  {
    if t != st.cur {
      OthersBroadcast(st, e, t);
    } else if e.Run? {
      OwnBroadcast(st);
    } else {
      PausedBroadcast(st, e);
    }
  }

  lemma OwnBroadcast(st: State)
    requires Inv(st) && Enabled(st, Run) && Broadcasting(st.code[st.cur])
    ensures st.cur in Next(st, Run).code
    ensures BroadcastWork(Next(st, Run), Next(st, Run).code[st.cur]) == BroadcastWork(st, st.code[st.cur]) - 1
  {
    var code := st.code[st.cur];
    assert RefsOk(st, code) && RefOk(st, code[0]) && SignalShape(code) && LoopHasWaiter(st, code);
    if code[0].Broadcast? { LoopStep(st); } else { InnerStep(st); }
  }

  lemma KeepsThread(st: State, e: Event, t: Tid)
    requires Enabled(st, e) && st.cur in st.code && t in st.code
    requires st.code[t] != [] && t != st.cur && st.tids !in st.code
    ensures t in Next(st, e).code && Next(st, e).code[t] == st.code[t]
  {
    if e.Run? { RunCode(st); }
  }

  lemma OthersBroadcast(st: State, e: Event, t: Tid)
    requires Inv(st) && Enabled(st, e) && t in st.code && t != st.cur && Broadcasting(st.code[t])
    ensures t in Next(st, e).code && BroadcastWork(Next(st, e), Next(st, e).code[t]) == BroadcastWork(st, st.code[t])
  {
    KeepsThread(st, e, t);
    OthersKeepList(st, e, t, if st.code[t][0].Broadcast? then 0 else 1);
  }

  lemma LoopStep(st: State)
    requires SignalInv(st) && Enabled(st, Run) && st.cur in st.code
    requires Code(st)[0].Broadcast? && Code(st)[0].c in st.conds
    ensures st.cur in Next(st, Run).code
    ensures BroadcastWork(Next(st, Run), Next(st, Run).code[st.cur]) == BroadcastWork(st, st.code[st.cur]) - 1
  {
    var op, rest := Code(st)[0], Code(st)[1..];
    assert st.code[st.cur] == [op] + rest && SignalShape([op] + rest);
    TailShape(op, rest);
    RunCode(st);
    ListAfter(st, Run, op.c);
  }

  lemma InnerStep(st: State)
    requires SignalInv(st) && Enabled(st, Run) && st.cur in st.code
    requires |Code(st)| > 1 && Code(st)[1].Broadcast? && !Code(st)[0].Broadcast?
    requires Code(st)[0].Signal? ==> st.conds[Code(st)[0].c].waiters != []
    ensures st.cur in Next(st, Run).code
    ensures BroadcastWork(Next(st, Run), Next(st, Run).code[st.cur]) == BroadcastWork(st, st.code[st.cur]) - 1
  {
    var op, rest := Code(st)[0], Code(st)[1..];
    assert st.code[st.cur] == [op] + rest && SignalShape([op] + rest);
    TailShape(op, rest);
    RunCode(st);
    if !op.Signal? { ListAfter(st, Run, rest[0].c); }
  }
}
