/** What holds in every reachable state of the kernel, and along every run. */
module KernelRuns {
  import opened KernelModel
  import opened KernelSched
  import opened KernelLock
  import opened KernelSema
  import opened KernelWait
  import opened KernelSignal

  // ---------------------------------------------------------------- references

  ghost predicate RefOk(st: State, op: Op)
  {
    match op
    case Down(s) => s.Waiter? || s in st.semas
    case Retry(s) => s.Waiter? || s in st.semas
    case Up(s) => s in st.semas
    case SetHolder(l) => l in st.locks
    case ClearHolder(l) => l in st.locks
    case Register(c, l, w) => c in st.conds && st.conds[c].lock == l
    case Waited(l, w) => l in st.locks
    case Signal(c, l) => c in st.conds && st.conds[c].lock == l
    case Broadcast(c, l, goal) => c in st.conds && st.conds[c].lock == l
    case _ => true
  }

  ghost predicate RefsOk(st: State, code: seq<Op>) { forall i :: 0 <= i < |code| ==> RefOk(st, code[i]) }

  ghost predicate RefsInv(st: State)
  {
    && (forall t :: t in st.code ==> RefsOk(st, st.code[t]))
    && (forall c :: c in st.conds ==> st.conds[c].lock in st.locks)
    && (forall l :: l in st.locks ==> OfLock(l) in st.semas)
  }

  /** Nothing named is ever taken away. */
  ghost predicate Grows(st: State, st': State)
  {
    && st.semas.Keys <= st'.semas.Keys && st.locks.Keys == st'.locks.Keys && st.conds.Keys == st'.conds.Keys
    && (forall c :: c in st.conds ==> st'.conds[c].lock == st.conds[c].lock)
    && (forall w: nat :: Waiter(w) in st.semas && !(Code(st) != [] && Code(st)[0].Register? && Code(st)[0].w == w) ==>
          st.semas[Waiter(w)].ups <= st'.semas[Waiter(w)].ups)
  }

  lemma ExecGrows(st: State, op: Op, rest: seq<Op>)
    requires Known(st, op) && Code(st) != [] && op == Code(st)[0]
    ensures Grows(st, Exec(st, op, rest))
  {
  }

  lemma NextGrows(st: State, e: Event)
    requires Enabled(st, e)
    ensures Grows(st, Next(st, e))
  {
    if e.Run? { ExecGrows(st, Code(st)[0], Code(st)[1..]); }
  }

  /** The steps a thread has left after taking one. */
  ghost function NextCode(st: State, op: Op, rest: seq<Op>): seq<Op>
    requires Known(st, op)
  {
    match op
    case Down(s) => if st.semas[s].value == 0 then [Retry(s)] + rest else rest
    case Retry(s) => if st.semas[s].value == 0 then [Retry(s)] + rest else rest
    case Signal(c, l) => if st.conds[c].waiters == [] then rest else [Up(Waiter(st.conds[c].waiters[0]))] + rest
    case Broadcast(c, l, goal) =>
      if st.conds[c].waiters == [] then rest else [Signal(c, l), Broadcast(c, l, goal)] + rest
    case IdleLoop => [IdleLoop] + rest
    case _ => rest
  }

  lemma ExecCode(st: State, op: Op, rest: seq<Op>)
    requires Known(st, op) && st.cur in st.code && st.code[st.cur] == [op] + rest
    ensures Exec(st, op, rest).code == st.code[st.cur := NextCode(st, op, rest)]
  {
    if op.Up? {
      assert PostUp(st, op.s).code == st.code && PostUp(st, op.s).cur == st.cur;
    }
  }

  lemma RunCode(st: State)
    requires Enabled(st, Run) && st.cur in st.code
    ensures Next(st, Run).code == st.code[st.cur := NextCode(st, Code(st)[0], Code(st)[1..])]
  {
    assert st.code[st.cur] == [Code(st)[0]] + Code(st)[1..];
    ExecCode(st, Code(st)[0], Code(st)[1..]);
  }

  /** Only the running thread's code changes, apart from a thread created or gone. */
  lemma OthersCode(st: State, e: Event, t: Tid)
    requires Enabled(st, e) && st.cur in st.code && t != st.cur && t in Next(st, e).code && (e.Spawn? ==> t != st.tids)
    ensures t in st.code && Next(st, e).code[t] == st.code[t]
  {
    if e.Run? { RunCode(st); }
  }

  lemma RefGrows(st: State, st': State, code: seq<Op>)
    requires Grows(st, st') && RefsOk(st, code)
    ensures RefsOk(st', code)
  {
    forall i | 0 <= i < |code| ensures RefOk(st', code[i]) {
      assert RefOk(st, code[i]);
    }
  }

  lemma RefsKeep(st: State, e: Event)
    requires RefsInv(st) && SignalInv(st) && Enabled(st, e) && st.cur in st.code && st.tids !in st.code
    ensures RefsInv(Next(st, e))
  {
    var st' := Next(st, e);
    NextGrows(st, e);
    forall t | t in st'.code ensures RefsOk(st', st'.code[t]) {
      if t == st.cur {
        assert RefsOk(st, st.code[t]);
        if e.Run? { OwnRefs(st); } else { CallRefs(st, e); }
        RefGrows(st, st', st'.code[t]);
      } else if e.Spawn? && t == st.tids {
        assert st'.code[t] == [];
      } else {
        OthersCode(st, e, t);
        RefGrows(st, st', st.code[t]);
      }
    }
  }

  lemma CallRefs(st: State, e: Event)
    requires RefsInv(st) && Enabled(st, e) && !e.Run? && st.cur in st.code && st.cur in Next(st, e).code
    requires e.Spawn? ==> st.cur != st.tids
    ensures RefsOk(st, Next(st, e).code[st.cur])
  {
    assert RefsOk(st, st.code[st.cur]);
  }

  lemma OwnRefs(st: State)
    requires RefsInv(st) && SignalInv(st) && Enabled(st, Run) && st.cur in st.code
    ensures st.cur in Next(st, Run).code && RefsOk(st, Next(st, Run).code[st.cur])
  {
    var op, rest := Code(st)[0], Code(st)[1..];
    RunCode(st);
    assert RefsOk(st, st.code[st.cur]);
    assert RefOk(st, op);
    assert RefsOk(st, rest) by {
      assert forall i :: 0 <= i < |rest| ==> rest[i] == st.code[st.cur][i + 1];
    }
    if op.Signal? && st.conds[op.c].waiters != [] {
      assert Awaiting(st.semas, st.conds[op.c].waiters[0]);
    }
  }

  // ---------------------------------------------------------------- broadcasts

  function WaitersOf(st: State, c: nat): seq<nat> { if c in st.conds then st.conds[c].waiters else [] }

  /** A waiter a broadcast has to release is still listed, being upped by the broadcaster, or upped. */
  ghost predicate GoalMet(st: State, code: seq<Op>, c: nat, w: nat)
  {
    || w in WaitersOf(st, c)
    || (UpHead(code) && UpTarget(code) == w)
    || (Waiter(w) in st.semas && st.semas[Waiter(w)].ups >= 1)
  }

  ghost predicate GoalsMet(st: State, code: seq<Op>)
  {
    forall i, w :: 0 <= i < |code| && code[i].Broadcast? && w in code[i].goal ==> GoalMet(st, code, code[i].c, w)
  }

  /** Inside the loop of condvar_broadcast there is somebody to signal. */
  ghost predicate LoopHasWaiter(st: State, code: seq<Op>)
  {
    |code| > 1 && code[0].Signal? && code[1].Broadcast? ==> WaitersOf(st, code[1].c) != []
  }

  ghost predicate GoalsInv(st: State)
  {
    forall t :: t in st.code ==> GoalsMet(st, st.code[t]) && LoopHasWaiter(st, st.code[t])
  }

  ghost predicate Inv(st: State)
  {
    SchedInv(st) && LockInv(st) && SemaInv(st) && WaitInv(st) && SignalInv(st) && RefsInv(st) && GoalsInv(st)
  }

  /** A thread in condvar_broadcast holds the lock throughout. */
  lemma BroadcasterHolds(code: seq<Op>, i: nat, p: Phase)
    requires i < |code| && code[i].Broadcast? && SignalShape(code) && Legal(code, code[i].l, p)
    ensures p == Holding
  {
    if i == 1 { assert code[1..][0] == code[1]; }
  }

  lemma HolderIsOne(st: State, l: nat, t: Tid, u: Tid)
    requires l in st.locks && PhaseOf(st.locks[l], t) == Holding && PhaseOf(st.locks[l], u) == Holding
    ensures t == u
  {
  }

  /** While a thread broadcasts, nobody else registers on or signals the same condition variable. */
  lemma ListIsOurs(st: State, t: Tid, i: nat)
    requires Inv(st) && t in st.code && i < |st.code[t]| && st.code[t][i].Broadcast? && t != st.cur
    requires Code(st) != [] && (Code(st)[0].Register? || Code(st)[0].Signal?)
    ensures Code(st)[0].c != st.code[t][i].c
  {
    var b, op := st.code[t][i], Code(st)[0];
    assert RefOk(st, b) && RefOk(st, op) by {
      assert RefsOk(st, st.code[t]) && RefsOk(st, st.code[st.cur]);
    }
    assert SignalShape(st.code[t]);
    var k := st.locks[b.l];
    assert Legal(st.code[t], b.l, PhaseOf(k, t)) && Legal(st.code[st.cur], b.l, PhaseOf(k, st.cur));
    BroadcasterHolds(st.code[t], i, PhaseOf(k, t));
    if op.c == b.c { HolderIsOne(st, b.l, t, st.cur); }
  }

  /** Others never take a waiter off the list of a broadcaster, nor put one on it. */
  lemma OthersKeepList(st: State, e: Event, t: Tid, i: nat)
    requires Inv(st) && Enabled(st, e) && t in st.code && t != st.cur
    requires i < |st.code[t]| && st.code[t][i].Broadcast?
    ensures WaitersOf(Next(st, e), st.code[t][i].c) == WaitersOf(st, st.code[t][i].c)
  {
    if e.Run? && (Code(st)[0].Register? || Code(st)[0].Signal?) { ListIsOurs(st, t, i); }
    ListAfter(st, e, st.code[t][i].c);
  }

  lemma ListAfter(st: State, e: Event, c: nat)
    requires Enabled(st, e)
    requires e.Run? && (Code(st)[0].Register? || Code(st)[0].Signal?) ==> Code(st)[0].c != c
    ensures WaitersOf(Next(st, e), c) == WaitersOf(st, c)
  {
    if e.Run? { RunConds(st, Code(st)[0], Code(st)[1..], c); }
  }

  lemma RunConds(st: State, op: Op, rest: seq<Op>, c: nat)
    requires Known(st, op) && ((op.Register? || op.Signal?) ==> op.c != c)
    ensures WaitersOf(Exec(st, op, rest), c) == WaitersOf(st, c)
  {
  }

  /** Counts of ups only grow: a waiter's semaphore is initialised once. */
  lemma UpsGrow(st: State, e: Event, w: nat)
    requires Inv(st) && Enabled(st, e) && Waiter(w) in st.semas
    ensures Waiter(w) in Next(st, e).semas && st.semas[Waiter(w)].ups <= Next(st, e).semas[Waiter(w)].ups
  {
    NextGrows(st, e);
    RegisterIsFresh(st);
  }

  lemma RegisterIsFresh(st: State)
    requires Inv(st)
    ensures Code(st) != [] && Code(st)[0].Register? ==> Waiter(Code(st)[0].w) !in st.semas
    ensures FreshRegister(st)
  {
    if Code(st) != [] && Code(st)[0].Register? {
      var w := Code(st)[0].w;
      assert UsesOwn(st.code[st.cur], st.cur, st.owner);
      assert UsesItsOwn(Code(st)[0], st.cur, st.owner) && Uses(Code(st)[0], w);
      assert WaitsInOrder(st.code[st.cur], w, StageOf(st.semas, w));
    }
  }

  lemma GoalStays(st: State, e: Event, t: Tid, i: nat, w: nat)
    requires Inv(st) && Enabled(st, e) && t in st.code && t != st.cur
    requires i < |st.code[t]| && st.code[t][i].Broadcast? && w in st.code[t][i].goal
    ensures GoalMet(Next(st, e), st.code[t], st.code[t][i].c, w)
  {
    assert GoalsMet(st, st.code[t]);
    OthersKeepList(st, e, t, i);
    NextGrows(st, e);
    if Waiter(w) in st.semas { UpsGrow(st, e, w); }
  }

  /** Going round the loop. */
  lemma LoopGoal(st: State, op: Op, rest: seq<Op>, i: nat, w: nat)
    requires SignalShape([op] + rest) && Known(st, op) && op.Broadcast? && GoalsMet(st, [op] + rest)
    requires var next := NextCode(st, op, rest); i < |next| && next[i].Broadcast? && w in next[i].goal
    ensures NextCode(st, op, rest)[i] == op
    ensures GoalMet(Exec(st, op, rest), NextCode(st, op, rest), op.c, w)
  {
    TailShape(op, rest);
    assert NextCode(st, op, rest) == [Signal(op.c, op.l), op];
    assert ([op] + rest)[0].Broadcast? && GoalMet(st, [op] + rest, op.c, w);
    RunConds(st, op, rest, op.c);
  }

  /** Popping a waiter makes it the one being upped. */
  lemma PopGoal(st: State, op: Op, b: Op, w: nat)
    requires Known(st, op) && op.Signal? && b.Broadcast? && b.c == op.c && w in b.goal && GoalsMet(st, [op, b])
    ensures GoalMet(Exec(st, op, [b]), NextCode(st, op, [b]), b.c, w)
  {
    assert [op, b][1] == b && GoalMet(st, [op, b], b.c, w);
    var ws := st.conds[op.c].waiters;
    if ws != [] { assert ws == [ws[0]] + ws[1..]; }
  }

  /** Upping the waiter settles it. */
  lemma UpGoal(st: State, op: Op, b: Op, w: nat)
    requires Known(st, op) && op.Up? && op.s.Waiter? && b.Broadcast? && w in b.goal && GoalsMet(st, [op, b])
    ensures GoalMet(Exec(st, op, [b]), [b], b.c, w)
  {
    assert [op, b][1] == b && GoalMet(st, [op, b], b.c, w);
  }

  /** The broadcaster's own step moves each goal one stage on. */
  lemma OwnGoal(st: State, i: nat, w: nat)
    requires Inv(st) && Enabled(st, Run) && st.cur in st.code
    requires var next := NextCode(st, Code(st)[0], Code(st)[1..]); i < |next| && next[i].Broadcast? && w in next[i].goal
    ensures var next := NextCode(st, Code(st)[0], Code(st)[1..]); GoalMet(Next(st, Run), next, next[i].c, w)
  {
    var code := st.code[st.cur];
    var op, rest := code[0], code[1..];
    assert code == [op] + rest && SignalShape(code) && GoalsMet(st, code);
    if op.Broadcast? {
      LoopGoal(st, op, rest, i, w);
    } else {
      var b := LastIsBroadcast(st, op, rest, i);
      assert rest == [b] && [op] + rest == [op, b];
      if op.Signal? { PopGoal(st, op, b, w); } else { UpGoal(st, op, b, w); }
    }
  }

  lemma LastIsBroadcast(st: State, op: Op, rest: seq<Op>, i: nat) returns (b: Op)
    requires Known(st, op) && SignalShape([op] + rest) && !op.Broadcast?
    requires var next := NextCode(st, op, rest); i < |next| && next[i].Broadcast?
    ensures rest == [b] && b == NextCode(st, op, rest)[i] && b.Broadcast?
    ensures (op.Signal? && op.c == b.c) || (op.Up? && op.s.Waiter?)
  {
    TailShape(op, rest);
    b := NextCode(st, op, rest)[i];
  }

  lemma LoopKeepsWaiter(st: State, e: Event, t: Tid)
    requires Inv(st) && Enabled(st, e) && t in Next(st, e).code
    ensures LoopHasWaiter(Next(st, e), Next(st, e).code[t])
  {
    if t == st.cur {
      if e.Run? { LoopEntered(st); } else { LoopUntouched(st, e); }
    } else if !(e.Spawn? && t == st.tids) {
      OthersCode(st, e, t);
      if |st.code[t]| > 1 && st.code[t][1].Broadcast? { OthersKeepList(st, e, t, 1); }
    }
  }

  lemma LoopUntouched(st: State, e: Event)
    requires Enabled(st, e) && !e.Run? && st.cur in st.code
    requires st.cur in Next(st, e).code && LoopHasWaiter(st, st.code[st.cur])
    requires e.Spawn? ==> st.cur != st.tids
    ensures LoopHasWaiter(Next(st, e), Next(st, e).code[st.cur])
  {
  }

  lemma LoopEntered(st: State)
    requires SignalInv(st) && Enabled(st, Run) && st.cur in st.code
    ensures st.cur in Next(st, Run).code && LoopHasWaiter(Next(st, Run), Next(st, Run).code[st.cur])
  {
    var op, rest := Code(st)[0], Code(st)[1..];
    assert st.code[st.cur] == [op] + rest;
    TailShape(op, rest);
    RunCode(st);
    if op.Broadcast? { RunConds(st, op, rest, op.c); }
  }

  lemma GoalsKeep(st: State, e: Event)
    requires Inv(st) && Enabled(st, e)
    ensures GoalsInv(Next(st, e))
  {
    var st' := Next(st, e);
    forall t | t in st'.code ensures LoopHasWaiter(st', st'.code[t]) { LoopKeepsWaiter(st, e, t); }
    forall t | t in st'.code ensures GoalsMet(st', st'.code[t]) {
      if e.Spawn? && t == st.tids {
        assert st'.code[t] == [];
      } else if t != st.cur {
        OthersCode(st, e, t);
        forall i, w | 0 <= i < |st'.code[t]| && st'.code[t][i].Broadcast? && w in st'.code[t][i].goal
          ensures GoalMet(st', st'.code[t], st'.code[t][i].c, w)
        {
          GoalStays(st, e, t, i, w);
        }
      } else if e.Run? {
        RunCode(st);
        forall i, w | 0 <= i < |st'.code[t]| && st'.code[t][i].Broadcast? && w in st'.code[t][i].goal
          ensures GoalMet(st', st'.code[t], st'.code[t][i].c, w)
        {
          OwnGoal(st, i, w);
        }
      } else {
        CallGoals(st, e);
      }
    }
  }

  lemma SameGoals(st: State, st': State, code: seq<Op>)
    requires GoalsMet(st, code) && st'.conds == st.conds && st'.semas == st.semas
    ensures GoalsMet(st', code)
  {
    forall i, w | 0 <= i < |code| && code[i].Broadcast? && w in code[i].goal
      ensures GoalMet(st', code, code[i].c, w)
    {
      assert GoalMet(st, code, code[i].c, w);
    }
  }

  lemma CallGoals(st: State, e: Event)
    requires Inv(st) && Enabled(st, e) && !e.Run? && st.cur in Next(st, e).code
    ensures GoalsMet(Next(st, e), Next(st, e).code[st.cur])
  {
    assert GoalsMet(st, st.code[st.cur]);
    match e
    case Irq(n) => IrqGoals(st, n);
    case Yield => SameGoals(st, Next(st, e), st.code[st.cur]);
    case Spawn => SameGoals(st, Next(st, e), st.code[st.cur]);
    case Exit =>
    case _ => NewCallGoals(st, e);
  }

  lemma NewCallGoals(st: State, e: Event)
    requires Enabled(st, e) && !e.Run? && !e.Irq? && !e.Yield? && !e.Spawn? && !e.Exit?
    ensures GoalsMet(Next(st, e), Next(st, e).code[st.cur])
  {
  }

  lemma IrqGoals(st: State, n: nat)
    requires Inv(st) && Plain(n) in st.semas
    ensures GoalsMet(PostUp(st, Plain(n)), st.code[st.cur]) && PostUp(st, Plain(n)).code == st.code
  {
    assert GoalsMet(st, st.code[st.cur]);
    PostUpQuiet(st, Plain(n));
  }

  // ---------------------------------------------------------------- the invariant

  lemma RefsInit(st: State)
    requires Init(st)
    ensures RefsInv(st) && GoalsInv(st)
  {
  }

  lemma InvInit(st: State)
    requires Init(st)
    ensures Inv(st)
  {
    RefsInit(st);
    SchedInit(st);
    LockInit(st);
    SemaInit(st);
    WaitInit(st);
    SignalInit(st);
  }

  lemma InvKeeps(st: State, e: Event)
    requires Inv(st) && Enabled(st, e)
    ensures Inv(Next(st, e))
  {
    RegisterIsFresh(st);
    SchedKeeps(st, e);
    LockKeeps(st, e);
    SemaKeeps(st, e);
    WaitKeeps(st, e);
    SignalKeeps(st, e);
    RefsKeep(st, e);
    GoalsKeep(st, e);
  }

  lemma StepOf(states: seq<State>, events: seq<Event>, i: nat)
    requires IsRun(states, events) && 0 < i < |states|
    ensures Enabled(states[i - 1], events[i - 1]) && states[i] == Next(states[i - 1], events[i - 1])
  {
  }

  /** Every state of every run satisfies the invariant. */
  lemma {:induction false} Reachable(states: seq<State>, events: seq<Event>, i: nat)
    requires IsRun(states, events) && i < |states|
    ensures Inv(states[i])
  {
    if i == 0 {
      InvInit(states[0]);
    } else {
      Reachable(states, events, i - 1);
      StepOf(states, events, i);
      InvKeeps(states[i - 1], events[i - 1]);
    }
  }
}
