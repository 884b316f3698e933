/** Semaphores conserve units and lose no wakeup (threads/semaphore.c). */
module KernelSema {
  import opened Common
  import opened KernelModel
  import opened KernelSched

  /** The value is the initial value plus the completed ups minus the completed downs, as an unsigned word. */
  ghost predicate Conserves(m: Sema)
  {
    m.downs <= m.init + m.ups && m.value == (m.init + m.ups - m.downs) % TWO32
  }

  /** The threads woken from the wait list of s that have not retried yet. */
  ghost function Woken(code: map<Tid, seq<Op>>, waiters: seq<Tid>, s: SemaId): set<Tid>
  {
    set t | t in code && code[t] != [] && code[t][0] == Retry(s) && t !in waiters
  }

  /** While threads wait, every free unit is matched by a woken thread on its way to take it. */
  ghost predicate Covered(code: map<Tid, seq<Op>>, m: Sema, s: SemaId)
  {
    m.waiters != [] ==> m.value <= |Woken(code, m.waiters, s)|
  }

  ghost predicate SemaInv(st: State)
  {
    forall s :: s in st.semas ==> Conserves(st.semas[s]) && Covered(st.code, st.semas[s], s)
  }

  lemma UpCounts(m: Sema, m': Sema)
    requires Conserves(m) && m'.init == m.init && m'.ups == m.ups + 1 && m'.downs == m.downs
    requires m'.value == (m.value + 1) % TWO32
    ensures Conserves(m') && m'.value <= m.value + 1
  {
  }

  lemma DownCounts(m: Sema)
    requires Conserves(m) && m.value > 0
    ensures Conserves(m.(value := m.value - 1, downs := m.downs + 1))
  {
    assert m.downs != m.init + m.ups;
  }

  ghost predicate NotRetrying(code: seq<Op>, s: SemaId) { code == [] || code[0] != Retry(s) }

  /** A step that neither enters nor leaves the retry of s leaves its woken threads as they were. */
  lemma SameWoken(code: map<Tid, seq<Op>>, t: Tid, next: seq<Op>, waiters: seq<Tid>, s: SemaId)
    requires (t in code ==> NotRetrying(code[t], s)) && NotRetrying(next, s)
    ensures Woken(code[t := next], waiters, s) == Woken(code, waiters, s)
  {
  }

  lemma MovesOn(st: State, next: seq<Op>)
    requires SemaInv(st) && st.cur in st.code
    requires forall s :: NotRetrying(st.code[st.cur], s) && NotRetrying(next, s)
    ensures SemaInv(Continue(st, next))
  {
    forall s | s in st.semas
      ensures Covered(st.code[st.cur := next], st.semas[s], s)
    {
      SameWoken(st.code, st.cur, next, st.semas[s].waiters, s);
    }
  }

  lemma OwnUnit(code: map<Tid, seq<Op>>, t: Tid, next: seq<Op>, m: Sema, m': Sema, s: SemaId)
    requires Covered(code, m, s) && t in code && code[t] != [] && t !in m.waiters && NotRetrying(next, s)
    requires m'.waiters == m.waiters && m'.value == m.value - 1
    ensures Covered(code[t := next], m', s)
  {
    assert Woken(code[t := next], m.waiters, s) == Woken(code, m.waiters, s) - {t};
  }

  /** A thread that takes a unit, overtaking the woken ones or being one of them. */
  lemma TakesUnit(st: State, s: SemaId, op: Op, rest: seq<Op>)
    requires SchedInv(st) && SemaInv(st) && s in st.semas && st.semas[s].value > 0
    requires st.code[st.cur] == [op] + rest && (op == Down(s) || op == Retry(s)) && NoRetry(rest)
    ensures SemaInv(DownOnce(st, s, rest))
  {
    var st', m := DownOnce(st, s, rest), st.semas[s];
    DownCounts(m);
    assert st.cur !in m.waiters;
    forall r | r in st'.semas
      ensures Conserves(st'.semas[r]) && Covered(st'.code, st'.semas[r], r)
    {
      if r == s {
        OwnUnit(st.code, st.cur, rest, m, st'.semas[s], s);
      } else {
        SameWoken(st.code, st.cur, rest, st.semas[r].waiters, r);
      }
    }
  }

  lemma WaitsAgain(st: State, s: SemaId, op: Op, rest: seq<Op>)
    requires SchedInv(st) && SemaInv(st) && s in st.semas && st.semas[s].value == 0
    requires st.code[st.cur] == [op] + rest && (op == Down(s) || op == Retry(s))
    ensures SemaInv(DownOnce(st, s, rest))
  {
    var st' := DownOnce(st, s, rest);
    forall r | r in st'.semas
      ensures Conserves(st'.semas[r]) && Covered(st'.code, st'.semas[r], r)
    {
      if r != s { SameWoken(st.code, st.cur, [Retry(s)] + rest, st.semas[r].waiters, r); }
    }
  }

  /** The thread taken off the wait list joins the woken ones. */
  lemma WokenGrows(st: State, s: SemaId)
    requires SchedInv(st) && s in st.semas && st.semas[s].waiters != []
    ensures var ws := st.semas[s].waiters;
            Woken(st.code, ws[1..], s) == Woken(st.code, ws, s) + {ws[0]} && ws[0] !in Woken(st.code, ws, s)
  {
    var ws := st.semas[s].waiters;
    assert ws == [ws[0]] + ws[1..];
    assert ws[0] in ws && ws[0] !in ws[1..];
  }

  lemma PostedCovered(st: State, s: SemaId, m': Sema)
    requires SchedInv(st) && SemaInv(st) && s in st.semas
    requires m'.waiters == (if st.semas[s].waiters == [] then [] else st.semas[s].waiters[1..])
    requires m'.value <= st.semas[s].value + 1
    ensures Covered(st.code, m', s)
  {
    if st.semas[s].waiters != [] { WokenGrows(st, s); }
  }

  lemma PostUpCovers(st: State, s: SemaId)
    requires SchedInv(st) && SemaInv(st) && s in st.semas
    ensures SemaInv(PostUp(st, s))
  {
    var st' := PostUp(st, s);
    UpCounts(st.semas[s], st'.semas[s]);
    PostedCovered(st, s, st'.semas[s]);
    forall r | r in st'.semas ensures Conserves(st'.semas[r]) && Covered(st'.code, st'.semas[r], r) {
      if r != s { assert st'.semas[r] == st.semas[r] && st'.code == st.code; }
    }
  }

  lemma AddFresh(st: State, c: nat, w: nat)
    requires SemaInv(st) && c in st.conds && Waiter(w) !in st.semas
    ensures SemaInv(RegisterWaiter(st, c, w))
  {
  }

  lemma ClientRunSema(st: State, op: Op, rest: seq<Op>)
    requires SchedInv(st) && SemaInv(st) && st.cur != IDLE && st.code[st.cur] == [op] + rest
    requires Known(st, op) && FreshRegister(st)
    ensures SemaInv(Exec(st, op, rest))
  {
    TailOps(op, rest);
    assert ([op] + rest)[0] == op;
    match op
    case Down(s) => if st.semas[s].value > 0 { TakesUnit(st, s, op, rest); } else { WaitsAgain(st, s, op, rest); }
    case Retry(s) => if st.semas[s].value > 0 { TakesUnit(st, s, op, rest); } else { WaitsAgain(st, s, op, rest); }
    case Up(s) => PostUpCovers(st, s); MovesOn(PostUp(st, s), rest);
    case SetHolder(l) => MovesOn(SetLockHolder(st, l, Some(st.cur)), rest);
    case ClearHolder(l) => MovesOn(SetLockHolder(st, l, None), rest);
    case Register(c, l, w) => AddFresh(st, c, w); MovesOn(RegisterWaiter(st, c, w), rest);
    case Waited(l, w) => MovesOn(st, rest);
    case Signal(c, l) =>
      if st.conds[c].waiters == [] { MovesOn(st, rest); }
      else { MovesOn(PopWaiter(st, c), [Up(Waiter(st.conds[c].waiters[0]))] + rest); }
    case Broadcast(c, l, goal) =>
      if st.conds[c].waiters == [] { MovesOn(st, rest); } else { MovesOn(st, [Signal(c, l), op] + rest); }
    case SetIdle =>
    case IdleLoop =>
  }

  lemma IdleRunSema(st: State)
    requires SchedInv(st) && SemaInv(st) && st.cur == IDLE
    ensures Code(st) != [] && Known(st, Code(st)[0]) && SemaInv(Exec(st, Code(st)[0], Code(st)[1..]))
  {
    var op, rest := Code(st)[0], Code(st)[1..];
    if op == SetIdle {
      MovesOn(st.(idle := Some(IDLE)), rest);
    } else if op.Up? {
      PostUpCovers(st, IDLE_STARTED);
      MovesOn(PostUp(st, IDLE_STARTED), rest);
    }
  }

  lemma LeavesCpu(st: State)
    requires SemaInv(st) && st.cur in st.code && st.code[st.cur] == []
    ensures SemaInv(ExitThread(st))
  {
    forall s | s in st.semas
      ensures Covered(st.code - {st.cur}, st.semas[s], s)
    {
      assert Woken(st.code - {st.cur}, st.semas[s].waiters, s) == Woken(st.code, st.semas[s].waiters, s);
    }
  }

  lemma NewThread(st: State)
    requires SemaInv(st) && st.tids !in st.code
    ensures SemaInv(SpawnThread(st))
  {
    forall s | s in st.semas
      ensures Covered(st.code[st.tids := []], st.semas[s], s)
    {
      SameWoken(st.code, st.tids, [], st.semas[s].waiters, s);
    }
  }

  lemma SemaKeeps(st: State, e: Event)
    requires SchedInv(st) && SemaInv(st) && Enabled(st, e) && FreshRegister(st)
    ensures SemaInv(Next(st, e))
  {
    match e
    case Run =>
      if st.cur == IDLE { IdleRunSema(st); }
      else {
        assert st.code[st.cur] == [Code(st)[0]] + Code(st)[1..];
        ClientRunSema(st, Code(st)[0], Code(st)[1..]);
      }
    case Yield =>
    case Irq(n) => PostUpCovers(st, Plain(n));
    case Exit => LeavesCpu(st);
    case Spawn => NewThread(st);
    case CallDown(n) => MovesOn(st, [Down(Plain(n))]);
    case CallUp(n) => MovesOn(st, [Up(Plain(n))]);
    case CallAcquire(l) => MovesOn(st, AcquireCode(l));
    case CallRelease(l) => MovesOn(st, ReleaseCode(l));
    case CallWait(c) => MovesOn(st.(owner := st.owner + [st.cur]), WaitCode(c, st.conds[c].lock, |st.owner|));
    case CallSignal(c) => MovesOn(st, [Signal(c, st.conds[c].lock)]);
    case CallBroadcast(c) => MovesOn(st, [Broadcast(c, st.conds[c].lock, st.conds[c].waiters)]);
  }

  lemma SemaInit(st: State)
    requires Init(st)
    ensures SemaInv(st)
  {
  }

  /** A free unit that threads are waiting for has a thread coming for it: ready to run, or running. */
  lemma FreeUnitIsComing(st: State, s: SemaId) returns (t: Tid)
    requires SchedInv(st) && SemaInv(st) && s in st.semas && st.semas[s].value > 0 && st.semas[s].waiters != []
    ensures t in st.code && st.code[t] != [] && st.code[t][0] == Retry(s) && t !in st.semas[s].waiters
    ensures t in st.ready || t == st.cur
  {
    var ws := Woken(st.code, st.semas[s].waiters, s);
    assert ws != {};
    t :| t in ws;
    assert !OnItsWaitList(t, st.code, st.semas);
  }
}
