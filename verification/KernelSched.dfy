/** The scheduler invariant: who is on which list (threads/thread.c, threads/semaphore.c). */
module KernelSched {
  import opened Common
  import opened KernelModel

  /** No thread is marked running. */
  ghost predicate AllParked(status: map<Tid, Status>) { forall t :: t in status ==> status[t] != Running }

  /** The ready list holds each ready thread once, except that the idle thread is never on it. */
  ghost predicate ReadyOk(status: map<Tid, Status>, ready: seq<Tid>, idle: Option<Tid>)
  {
    && NoDup(ready)
    && (forall t :: t in ready ==> t in status && status[t] == Ready && idle != Some(t))
    && (forall t :: t in status && status[t] == Ready && idle != Some(t) ==> t in ready)
  }

  /** A thread on a wait list is blocked inside semaphore_down on that semaphore. */
  ghost predicate WaitersBlocked(status: map<Tid, Status>, code: map<Tid, seq<Op>>, semas: map<SemaId, Sema>)
  {
    forall s, t :: s in semas && t in semas[s].waiters ==>
      t in status && status[t] == Blocked && t != IDLE && t in code && code[t] != [] && code[t][0] == Retry(s)
  }

  ghost predicate WaitersOnce(semas: map<SemaId, Sema>) { forall s :: s in semas ==> NoDup(semas[s].waiters) }

  ghost predicate OnItsWaitList(t: Tid, code: map<Tid, seq<Op>>, semas: map<SemaId, Sema>)
  {
    t in code && code[t] != [] && code[t][0].Retry? && code[t][0].s in semas && t in semas[code[t][0].s].waiters
  }

  /** No blocked thread is forgotten: it is on a wait list, or it is the idle thread at rest. */
  ghost predicate BlockedWait(status: map<Tid, Status>, code: map<Tid, seq<Op>>, semas: map<SemaId, Sema>)
  {
    forall t :: t in status && status[t] == Blocked ==>
      if t == IDLE then t in code && code[t] == [IdleLoop] else OnItsWaitList(t, code, semas)
  }

  ghost predicate IdleOk(code: map<Tid, seq<Op>>, idle: Option<Tid>, semas: map<SemaId, Sema>)
  {
    && IDLE_STARTED in semas && IDLE in code
    && if idle == None then code[IDLE] == [SetIdle, Up(IDLE_STARTED), IdleLoop]
       else idle == Some(IDLE) && (code[IDLE] == [Up(IDLE_STARTED), IdleLoop] || code[IDLE] == [IdleLoop])
  }

  /** Client threads never execute the idle thread's steps, and only resume semaphore_down at its head. */
  ghost predicate ClientOps(code: seq<Op>)
  {
    forall i :: 0 <= i < |code| ==> !code[i].SetIdle? && !code[i].IdleLoop? && (code[i].Retry? ==> i == 0)
  }

  ghost predicate CodeOk(code: map<Tid, seq<Op>>) { forall t :: t in code && t != IDLE ==> ClientOps(code[t]) }

  ghost predicate TidsOk(st: State)
  {
    && st.status.Keys == st.code.Keys && IDLE in st.status && st.tids >= 2
    && forall t :: t in st.status ==> t < st.tids
  }

  ghost predicate Lists(st: State)
  {
    && TidsOk(st) && CodeOk(st.code) && IdleOk(st.code, st.idle, st.semas)
    && ReadyOk(st.status, st.ready, st.idle)
    && WaitersBlocked(st.status, st.code, st.semas) && WaitersOnce(st.semas)
    && BlockedWait(st.status, st.code, st.semas)
  }

  ghost predicate SchedInv(st: State)
  {
    && Lists(st)
    && st.cur in st.status && st.status[st.cur] == Running
    && (forall t :: t in st.status && t != st.cur ==> st.status[t] != Running)
  }

  // ---------------------------------------------------------------- giving the processor away

  /** There is always a thread to switch to: the idle pointer is only missing while the idle thread
      is still waiting for its first turn. */
  lemma NextExists(st: State)
    requires Lists(st) && AllParked(st.status)
    ensures st.ready == [] ==> st.idle == Some(IDLE)
    ensures NextThread(st) in st.status && (NextThread(st) in st.ready || NextThread(st) == IDLE)
  {
    if st.idle == None {
      assert st.status[IDLE] == Ready;
      assert IDLE in st.ready;
    }
  }

  lemma PickNext(status: map<Tid, Status>, ready: seq<Tid>, idle: Option<Tid>)
    requires ReadyOk(status, ready, idle)
    ensures ready == [] && idle.Some? ==> ReadyOk(status[idle.value := Running], [], idle)
    ensures ready != [] ==> ReadyOk(status[ready[0] := Running], ready[1..], idle)
  {
    if ready != [] { assert ready == [ready[0]] + ready[1..]; }
  }

  /** What is true of blocked threads and waiters stays true when threads that are neither come, go or change state. */
  lemma OthersMove(status: map<Tid, Status>, code: map<Tid, seq<Op>>, semas: map<SemaId, Sema>,
                   status': map<Tid, Status>, code': map<Tid, seq<Op>>)
    requires WaitersBlocked(status, code, semas) && BlockedWait(status, code, semas)
    requires forall u :: (u in status' && status'[u] == Blocked) <==> (u in status && status[u] == Blocked)
    requires forall u :: u in status && status[u] == Blocked && u in code ==> u in code' && code'[u] == code[u]
    ensures WaitersBlocked(status', code', semas) && BlockedWait(status', code', semas)
  {
    forall u | u in status' && status'[u] == Blocked
      ensures if u == IDLE then u in code' && code'[u] == [IdleLoop] else OnItsWaitList(u, code', semas)
    {
      assert u in status && status[u] == Blocked;
    }
  }

  lemma ScheduleKeeps(st: State)
    requires Lists(st) && AllParked(st.status)
    ensures SchedInv(Schedule(st))
  {
    NextExists(st);
    PickNext(st.status, st.ready, st.idle);
    var next, st' := NextThread(st), Schedule(st);
    if next == IDLE && st.status[next] == Blocked {
      IdleIsUp(st.status, st.code, st.semas, st'.status);
    } else {
      OthersMove(st.status, st.code, st.semas, st'.status, st'.code);
    }
  }

  /** The idle thread, blocked on no semaphore, may simply run. */
  lemma IdleIsUp(status: map<Tid, Status>, code: map<Tid, seq<Op>>, semas: map<SemaId, Sema>, status': map<Tid, Status>)
    requires WaitersBlocked(status, code, semas) && BlockedWait(status, code, semas)
    requires status' == status[IDLE := Running]
    ensures WaitersBlocked(status', code, semas) && BlockedWait(status', code, semas)
  {
    forall s, t | s in semas && t in semas[s].waiters
      ensures t in status' && status'[t] == Blocked && t != IDLE && t in code && code[t] != [] && code[t][0] == Retry(s)
    {
      assert t in status && status[t] == Blocked && t != IDLE;
    }
    forall u | u in status' && status'[u] == Blocked
      ensures if u == IDLE then u in code && code[u] == [IdleLoop] else OnItsWaitList(u, code, semas)
    {
      assert u in status && status[u] == Blocked;
    }
  }

  /** The running thread puts itself at the end of a wait list. */
  lemma AddWaiter(status: map<Tid, Status>, code: map<Tid, seq<Op>>, semas: map<SemaId, Sema>, t: Tid, s: SemaId,
                  rest: seq<Op>,
                  status': map<Tid, Status>, code': map<Tid, seq<Op>>, semas': map<SemaId, Sema>)
    requires WaitersBlocked(status, code, semas) && WaitersOnce(semas) && BlockedWait(status, code, semas)
    requires t in status && status[t] == Running && t != IDLE && s in semas
    requires semas' == semas[s := semas[s].(waiters := semas[s].waiters + [t])]
    requires status' == status[t := Blocked] && code' == code[t := [Retry(s)] + rest]
    ensures WaitersBlocked(status', code', semas') && WaitersOnce(semas') && BlockedWait(status', code', semas')
  {
    assert t !in semas[s].waiters;
    forall u | u in status' && status'[u] == Blocked
      ensures if u == IDLE then u in code' && code'[u] == [IdleLoop] else OnItsWaitList(u, code', semas')
    {
      if u != t { assert u in status && status[u] == Blocked; }
    }
    forall r, u | r in semas' && u in semas'[r].waiters
      ensures u in status' && status'[u] == Blocked && u != IDLE
      ensures u in code' && code'[u] != [] && code'[u][0] == Retry(r)
    {
      assert u != t ==> u in semas[r].waiters;
      assert t !in semas[r].waiters;
    }
  }

  /** A client thread's steps are replaced, a semaphore is changed, statuses of known threads change. */
  lemma NewCode(st: State, st': State)
    requires TidsOk(st) && CodeOk(st.code) && IdleOk(st.code, st.idle, st.semas)
    requires st'.status.Keys == st.status.Keys && st'.idle == st.idle
    requires st'.tids == st.tids && st.semas.Keys <= st'.semas.Keys
    requires st.cur != IDLE && st.cur in st.code && st.cur in st'.code
    requires st'.code == st.code[st.cur := st'.code[st.cur]]
    requires ClientOps(st'.code[st.cur])
    ensures TidsOk(st') && CodeOk(st'.code) && IdleOk(st'.code, st'.idle, st'.semas)
  {
  }

  lemma SameCode(st: State, st': State)
    requires TidsOk(st) && CodeOk(st.code) && IdleOk(st.code, st.idle, st.semas)
    requires st'.status.Keys == st.status.Keys && st'.idle == st.idle
    requires st'.tids == st.tids && st.semas.Keys <= st'.semas.Keys
    requires st'.code == st.code
    ensures TidsOk(st') && CodeOk(st'.code) && IdleOk(st'.code, st'.idle, st'.semas)
  {
  }

  lemma RunnerStops(status: map<Tid, Status>, ready: seq<Tid>, idle: Option<Tid>, t: Tid)
    requires ReadyOk(status, ready, idle) && t in status && status[t] == Running
    ensures ReadyOk(status[t := Blocked], ready, idle)
  {
  }

  lemma BlockKeeps(st: State, s: SemaId, rest: seq<Op>)
    requires SchedInv(st) && s in st.semas && st.cur != IDLE && ClientOps([Retry(s)] + rest)
    ensures SchedInv(Sleep(st, s, rest))
  {
    var semas' := st.semas[s := st.semas[s].(waiters := st.semas[s].waiters + [st.cur])];
    var parked := st.(semas := semas', status := st.status[st.cur := Blocked],
      code := st.code[st.cur := [Retry(s)] + rest]);
    AddWaiter(st.status, st.code, st.semas, st.cur, s, rest, parked.status, parked.code, semas');
    RunnerStops(st.status, st.ready, st.idle, st.cur);
    NewCode(st, parked);
    ScheduleKeeps(parked);
  }

  lemma AppendReady(status: map<Tid, Status>, ready: seq<Tid>, idle: Option<Tid>, t: Tid)
    requires ReadyOk(status, ready, idle) && t in status && status[t] != Ready && idle != Some(t)
    ensures ReadyOk(status[t := Ready], ready + [t], idle)
  {
    assert t !in ready;
  }

  lemma YieldKeeps(st: State)
    requires SchedInv(st)
    ensures SchedInv(YieldCpu(st))
  {
    if st.idle != Some(st.cur) { AppendReady(st.status, st.ready, st.idle, st.cur); }
    OthersMove(st.status, st.code, st.semas, st.status[st.cur := Ready], st.code);
    ScheduleKeeps(Yielded(st));
  }

  ghost function Yielded(st: State): State
  {
    st.(status := st.status[st.cur := Ready],
       ready := if st.idle == Some(st.cur) then st.ready else st.ready + [st.cur])
  }

  lemma IdleBlockKeeps(st: State)
    requires SchedInv(st) && Code(st) != [] && Code(st)[0] == IdleLoop
    ensures SchedInv(Block(st))
  {
    assert st.cur == IDLE;
    var parked := st.(status := st.status[st.cur := Blocked]);
    assert BlockedWait(parked.status, parked.code, parked.semas);
    ScheduleKeeps(parked);
  }

  lemma RunnerGone(status: map<Tid, Status>, ready: seq<Tid>, idle: Option<Tid>, t: Tid)
    requires ReadyOk(status, ready, idle) && t in status && status[t] == Running
    ensures ReadyOk(status - {t}, ready, idle)
  {
  }

  lemma ExitKeeps(st: State)
    requires SchedInv(st) && st.cur != IDLE
    ensures SchedInv(ExitThread(st))
  {
    var parked := st.(status := st.status - {st.cur}, code := st.code - {st.cur});
    RunnerGone(st.status, st.ready, st.idle, st.cur);
    OthersMove(st.status, st.code, st.semas, parked.status, parked.code);
    ScheduleKeeps(parked);
  }

  lemma SpawnKeeps(st: State)
    requires SchedInv(st)
    ensures SchedInv(SpawnThread(st))
  {
    var st' := SpawnThread(st);
    AppendReady(st.status[st.tids := Blocked], st.ready, st.idle, st.tids);
    OthersMove(st.status, st.code, st.semas, st'.status, st'.code);
    SpawnTids(st);
  }

  lemma SpawnTids(st: State)
    requires TidsOk(st) && CodeOk(st.code) && IdleOk(st.code, st.idle, st.semas)
    ensures var st' := SpawnThread(st); TidsOk(st') && CodeOk(st'.code) && IdleOk(st'.code, st'.idle, st'.semas)
  {
  }

  // ---------------------------------------------------------------- staying on the processor

  /** Only counters changed, or semaphores with no waiters were added. */
  ghost predicate SameWaiters(semas: map<SemaId, Sema>, semas': map<SemaId, Sema>)
  {
    && (forall s :: s in semas ==> s in semas' && semas'[s].waiters == semas[s].waiters)
    && (forall s :: s in semas' && s !in semas ==> semas'[s].waiters == [])
  }

  /** The scheduler does not look at locks, condition variables or client bookkeeping. */
  ghost predicate SameSched(st: State, st': State)
  {
    && st'.status == st.status && st'.ready == st.ready && st'.cur == st.cur && st'.idle == st.idle
    && st'.code == st.code && st'.tids == st.tids
  }

  lemma SemasKeep(st: State, st': State)
    requires SchedInv(st) && SameSched(st, st') && SameWaiters(st.semas, st'.semas)
    ensures SchedInv(st')
  {
    assert WaitersOnce(st'.semas);
    assert forall t :: OnItsWaitList(t, st.code, st.semas) ==> OnItsWaitList(t, st.code, st'.semas);
  }

  lemma ContinueKeeps(st: State, rest: seq<Op>)
    requires SchedInv(st) && st.cur != IDLE && ClientOps(rest)
    ensures SchedInv(Continue(st, rest))
  {
    OthersMove(st.status, st.code, st.semas, st.status, st.code[st.cur := rest]);
    NewCode(st, Continue(st, rest));
  }

  lemma IdleContinueKeeps(st: State)
    requires SchedInv(st) && st.cur == IDLE && Code(st) != [IdleLoop]
    ensures SchedInv(Continue(st.(idle := Some(IDLE)), Code(st)[1..]))
  {
    var st' := Continue(st.(idle := Some(IDLE)), Code(st)[1..]);
    assert WaitersBlocked(st'.status, st'.code, st'.semas);
    assert BlockedWait(st'.status, st'.code, st'.semas);
    assert IDLE !in st.ready;
  }

  lemma DropFirstWaiter(status: map<Tid, Status>, code: map<Tid, seq<Op>>, semas: map<SemaId, Sema>, s: SemaId)
    requires WaitersBlocked(status, code, semas) && WaitersOnce(semas) && BlockedWait(status, code, semas)
    requires s in semas && semas[s].waiters != []
    ensures var semas' := semas[s := semas[s].(waiters := semas[s].waiters[1..])];
            var status' := status[semas[s].waiters[0] := Ready];
            WaitersBlocked(status', code, semas') && WaitersOnce(semas') && BlockedWait(status', code, semas')
  {
    var m := semas[s];
    var t, semas' := m.waiters[0], semas[s := m.(waiters := m.waiters[1..])];
    var status' := status[t := Ready];
    assert m.waiters == [t] + semas'[s].waiters;
    assert t in m.waiters && t !in semas'[s].waiters;
    forall u | u in status' && status'[u] == Blocked
      ensures if u == IDLE then u in code && code[u] == [IdleLoop] else OnItsWaitList(u, code, semas')
    {
      StillWaits(status, code, semas, s, u);
    }
  }

  lemma StillWaits(status: map<Tid, Status>, code: map<Tid, seq<Op>>, semas: map<SemaId, Sema>, s: SemaId, u: Tid)
    requires BlockedWait(status, code, semas) && s in semas && semas[s].waiters != []
    requires u in status && status[u] == Blocked && u != semas[s].waiters[0]
    ensures var semas' := semas[s := semas[s].(waiters := semas[s].waiters[1..])];
            if u == IDLE then u in code && code[u] == [IdleLoop] else OnItsWaitList(u, code, semas')
  {
    var m := semas[s];
    assert m.waiters == [m.waiters[0]] + m.waiters[1..];
  }

  lemma FirstWaiter(st: State, s: SemaId)
    requires SchedInv(st) && s in st.semas && st.semas[s].waiters != []
    ensures var t := st.semas[s].waiters[0];
            t in st.status && st.status[t] == Blocked && st.idle != Some(t) && t != st.cur
  {
    assert st.semas[s].waiters[0] in st.semas[s].waiters;
  }

  /** Taking the first waiter off a wait list and making it ready; the thread unblocked was blocked. */
  lemma WakeKeeps(st: State, s: SemaId)
    requires SchedInv(st) && s in st.semas && st.semas[s].waiters != []
    ensures var m := st.semas[s];
            && m.waiters[0] in st.status && st.status[m.waiters[0]] == Blocked
            && SchedInv(Unblock(st.(semas := st.semas[s := m.(waiters := m.waiters[1..])]), m.waiters[0]))
  {
    var m := st.semas[s];
    FirstWaiter(st, s);
    DropFirstWaiter(st.status, st.code, st.semas, s);
    AppendReady(st.status, st.ready, st.idle, m.waiters[0]);
    SameCode(st, Unblock(st.(semas := st.semas[s := m.(waiters := m.waiters[1..])]), m.waiters[0]));
  }

  // ---------------------------------------------------------------- every step

  /** The unit is counted off, the thread not yet moved on. */
  ghost function Taken(st: State, s: SemaId): State
    requires s in st.semas && st.semas[s].value > 0
  {
    st.(semas := st.semas[s := st.semas[s].(value := st.semas[s].value - 1, downs := st.semas[s].downs + 1)],
        locks := Enter(st.locks, s, st.cur))
  }

  lemma TakenKeeps(st: State, s: SemaId)
    requires SchedInv(st) && s in st.semas && st.semas[s].value > 0
    ensures SchedInv(Taken(st, s)) && Taken(st, s).cur == st.cur
    ensures forall rest :: TakeOne(st, s, rest) == Continue(Taken(st, s), rest)
  {
    SemasKeep(st, Taken(st, s));
  }

  lemma TakeKeeps(st: State, s: SemaId, rest: seq<Op>)
    requires SchedInv(st) && s in st.semas && st.semas[s].value > 0 && st.cur != IDLE && ClientOps(rest)
    ensures SchedInv(TakeOne(st, s, rest))
  {
    TakenKeeps(st, s);
    ContinueKeeps(Taken(st, s), rest);
  }

  lemma DownKeeps(st: State, s: SemaId, rest: seq<Op>)
    requires SchedInv(st) && s in st.semas && st.cur != IDLE && ClientOps([Retry(s)] + rest)
    ensures SchedInv(DownOnce(st, s, rest))
  {
    if st.semas[s].value == 0 {
      BlockKeeps(st, s, rest);
    } else {
      assert ClientOps(rest) by { assert forall i :: 0 <= i < |rest| ==> rest[i] == ([Retry(s)] + rest)[i + 1]; }
      TakeKeeps(st, s, rest);
    }
  }

  lemma PostUpKeeps(st: State, s: SemaId)
    requires SchedInv(st) && s in st.semas
    ensures SchedInv(PostUp(st, s))
    ensures PostUp(st, s).cur == st.cur && PostUp(st, s).code == st.code && PostUp(st, s).idle == st.idle
  {
    var m := st.semas[s];
    if m.waiters != [] {
      WakeKeeps(st, s);
      var woken := Unblock(st.(semas := st.semas[s := m.(waiters := m.waiters[1..])]), m.waiters[0]);
      SemasKeep(woken, PostUp(st, s));
    } else {
      SemasKeep(st, PostUp(st, s));
    }
  }

  /** A waiter's semaphore is new when it is initialised. */
  ghost predicate FreshRegister(st: State)
  {
    Code(st) != [] && Code(st)[0].Register? ==> Waiter(Code(st)[0].w) !in st.semas
  }

  ghost predicate NoRetry(code: seq<Op>) { forall i :: 0 <= i < |code| ==> !code[i].Retry? }

  lemma TailOps(op: Op, rest: seq<Op>)
    requires ClientOps([op] + rest)
    ensures ClientOps(rest) && NoRetry(rest) && !op.SetIdle? && !op.IdleLoop?
    ensures forall s :: ClientOps([Retry(s)] + rest)
  {
    assert ([op] + rest)[0] == op;
    assert forall i :: 0 <= i < |rest| ==> rest[i] == ([op] + rest)[i + 1];
  }

  lemma BroadcastOps(op: Op, c: nat, l: nat, rest: seq<Op>)
    requires op.Broadcast? && ClientOps(rest) && NoRetry(rest)
    ensures ClientOps([Signal(c, l), op] + rest)
  {
  }

  lemma ClientRunKeeps(st: State, op: Op, rest: seq<Op>)
    requires SchedInv(st) && st.cur != IDLE && Code(st) == [op] + rest && Known(st, op) && FreshRegister(st)
    ensures SchedInv(Exec(st, op, rest))
  {
    TailOps(op, rest);
    match op
    case Down(s) => DownKeeps(st, s, rest);
    case Retry(s) => DownKeeps(st, s, rest);
    case Up(s) => PostUpKeeps(st, s); ContinueKeeps(PostUp(st, s), rest);
    case SetHolder(l) => ContinueKeeps(SetLockHolder(st, l, Some(st.cur)), rest);
    case ClearHolder(l) => ContinueKeeps(SetLockHolder(st, l, None), rest);
    case Register(c, l, w) =>
      SemasKeep(st, RegisterWaiter(st, c, w));
      ContinueKeeps(RegisterWaiter(st, c, w), rest);
    case Waited(l, w) => ContinueKeeps(st, rest);
    case Signal(c, l) => PopKeeps(st, c, rest);
    case Broadcast(c, l, goal) =>
      if st.conds[c].waiters == [] {
        ContinueKeeps(st, rest);
      } else {
        BroadcastOps(op, c, l, rest);
        ContinueKeeps(st, [Signal(c, l), op] + rest);
      }
    case SetIdle =>
    case IdleLoop =>
  }

  lemma PopKeeps(st: State, c: nat, rest: seq<Op>)
    requires SchedInv(st) && st.cur != IDLE && c in st.conds && ClientOps(rest) && NoRetry(rest)
    ensures SchedInv(if st.conds[c].waiters == [] then Continue(st, rest)
                     else Continue(PopWaiter(st, c), [Up(Waiter(st.conds[c].waiters[0]))] + rest))
  {
    if st.conds[c].waiters == [] {
      ContinueKeeps(st, rest);
    } else {
      ContinueKeeps(PopWaiter(st, c), [Up(Waiter(st.conds[c].waiters[0]))] + rest);
    }
  }

  lemma IdleRunKeeps(st: State)
    requires SchedInv(st) && st.cur == IDLE
    ensures Code(st) != [] && Known(st, Code(st)[0]) && SchedInv(Exec(st, Code(st)[0], Code(st)[1..]))
  {
    var op, rest := Code(st)[0], Code(st)[1..];
    if op == IdleLoop {
      IdleBlockKeeps(st);
    } else if op == SetIdle {
      IdleContinueKeeps(st);
    } else {
      PostUpKeeps(st, IDLE_STARTED);
      IdleContinueKeeps(PostUp(st, IDLE_STARTED));
      assert Exec(st, op, rest) == Continue(PostUp(st, IDLE_STARTED).(idle := Some(IDLE)), rest);
    }
  }

  lemma SchedKeeps(st: State, e: Event)
    requires SchedInv(st) && Enabled(st, e) && FreshRegister(st)
    ensures SchedInv(Next(st, e))
  {
    match e
    case Run =>
      if st.cur == IDLE { IdleRunKeeps(st); }
      else { ClientRunKeeps(st, Code(st)[0], Code(st)[1..]); }
    case Yield => YieldKeeps(st);
    case Irq(n) => PostUpKeeps(st, Plain(n));
    case Exit => ExitKeeps(st);
    case Spawn => SpawnKeeps(st);
    case CallDown(n) => ContinueKeeps(st, [Down(Plain(n))]);
    case CallUp(n) => ContinueKeeps(st, [Up(Plain(n))]);
    case CallAcquire(l) => ContinueKeeps(st, AcquireCode(l));
    case CallRelease(l) => ContinueKeeps(st, ReleaseCode(l));
    case CallWait(c) => ContinueKeeps(st.(owner := st.owner + [st.cur]), WaitCode(c, st.conds[c].lock, |st.owner|));
    case CallSignal(c) => ContinueKeeps(st, [Signal(c, st.conds[c].lock)]);
    case CallBroadcast(c) => ContinueKeeps(st, [Broadcast(c, st.conds[c].lock, st.conds[c].waiters)]);
  }

  lemma SchedInit(st: State)
    requires Init(st)
    ensures SchedInv(st)
  {
    assert st.code[MAIN] == [Down(IDLE_STARTED)];
  }
}
