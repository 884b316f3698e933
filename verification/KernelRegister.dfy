/** A thread inside condvar_wait is registered from the moment it may let go of the lock until it returns
    (threads/condvar.c). */
module KernelRegister {
  import opened Common
  import opened KernelModel
  import opened KernelLock
  import opened KernelSignal
  import opened KernelRuns

  /** Waiter w is set up, and listed on a condition variable of lock l or popped off it. */
  ghost predicate Registered(st: State, l: nat, w: nat)
  {
    Waiter(w) in st.semas &&
    exists c :: c in st.conds && st.conds[c].lock == l && w in st.conds[c].registered
  }

  ghost predicate AtRegister(code: seq<Op>) { code != [] && code[0].Register? }

  /** The registration is the first step of a wait and of nothing else. */
  ghost predicate RegistersFirst(code: seq<Op>)
  {
    && (forall i :: 0 < i < |code| ==> !code[i].Register?)
    && (AtRegister(code) ==> code == WaitCode(code[0].c, code[0].l, code[0].w))
  }

  /** Past the registration, a wait that will return is registered. */
  ghost predicate WaitsRegistered(st: State, code: seq<Op>)
  {
    !AtRegister(code) ==> forall i :: 0 <= i < |code| && code[i].Waited? ==> Registered(st, code[i].l, code[i].w)
  }

  ghost predicate CodeRegistered(st: State, code: seq<Op>) { RegistersFirst(code) && WaitsRegistered(st, code) }

  ghost predicate RegisterInv(st: State) { forall t :: t in st.code ==> CodeRegistered(st, st.code[t]) }

  /** The registrations are never taken back. */
  ghost predicate Remembers(st: State, st': State)
  {
    && st.semas.Keys <= st'.semas.Keys && st.conds.Keys <= st'.conds.Keys
    && (forall c :: c in st.conds ==> st'.conds[c].lock == st.conds[c].lock)
    && (forall c, w :: c in st.conds && w in st.conds[c].registered ==> w in st'.conds[c].registered)
  }

  lemma ExecRemembers(st: State, op: Op, rest: seq<Op>)
    requires Known(st, op)
    ensures Remembers(st, Exec(st, op, rest))
  {
  }

  lemma NextRemembers(st: State, e: Event)
    requires Enabled(st, e)
    ensures Remembers(st, Next(st, e))
  {
    if e.Run? { ExecRemembers(st, Code(st)[0], Code(st)[1..]); }
  }

  lemma StaysRegistered(st: State, st': State, code: seq<Op>)
    requires Remembers(st, st') && CodeRegistered(st, code)
    ensures CodeRegistered(st', code)
  {
  }

  /** What is left after a step other than the registration holds no returns that were not there. */
  lemma LaterSteps(st: State, op: Op, rest: seq<Op>)
    requires Known(st, op) && !op.Register? && CodeRegistered(st, [op] + rest)
    ensures CodeRegistered(st, NextCode(st, op, rest))
  {
    var code, code' := [op] + rest, NextCode(st, op, rest);
    assert code[0] == op && forall i :: 0 <= i < |rest| ==> rest[i] == code[i + 1];
    forall i | 0 <= i < |code'|
      ensures !code'[i].Register? && (code'[i].Waited? ==> Registered(st, code'[i].l, code'[i].w))
    {
      assert code'[i] in rest || !code'[i].Waited?;
    }
  }

  /** The registration itself. */
  lemma NowRegistered(st: State, c: nat, l: nat, w: nat)
    requires c in st.conds && st.conds[c].lock == l
    ensures CodeRegistered(RegisterWaiter(st, c, w), WaitCode(c, l, w)[1..])
  {
    var st', code := RegisterWaiter(st, c, w), WaitCode(c, l, w)[1..];
    assert st'.conds[c].registered[|st.conds[c].registered|] == w;
    assert Registered(st', l, w);
    assert code == [ClearHolder(l), Up(OfLock(l)), Down(Waiter(w)), Down(OfLock(l)), SetHolder(l), Waited(l, w)];
  }

  lemma RunRegisters(st: State)
    requires RegisterInv(st) && RefsInv(st) && Enabled(st, Run) && st.cur in st.code
    ensures CodeRegistered(Next(st, Run), Next(st, Run).code[st.cur])
  {
    var op, rest := Code(st)[0], Code(st)[1..];
    var code, st' := st.code[st.cur], Next(st, Run);
    assert code == [op] + rest;
    RunCode(st);
    NextRemembers(st, Run);
    if op.Register? {
      assert RefsOk(st, code) && RefOk(st, op);
      NowRegistered(st, op.c, op.l, op.w);
      assert rest == WaitCode(op.c, op.l, op.w)[1..];
      StaysRegistered(RegisterWaiter(st, op.c, op.w), st', rest);
    } else {
      LaterSteps(st, op, rest);
      StaysRegistered(st, st', NextCode(st, op, rest));
    }
  }

  lemma CallRegisters(st: State, e: Event)
    requires RegisterInv(st) && Enabled(st, e) && !e.Run? && st.cur in st.code && st.cur in Next(st, e).code
    ensures CodeRegistered(Next(st, e), Next(st, e).code[st.cur])
  {
    NextRemembers(st, e);
    StaysRegistered(st, Next(st, e), st.code[st.cur]);
  }

  lemma RegisterKeeps(st: State, e: Event)
    requires Inv(st) && RegisterInv(st) && Enabled(st, e)
    ensures RegisterInv(Next(st, e))
  {
    var st' := Next(st, e);
    NextRemembers(st, e);
    forall t | t in st'.code ensures CodeRegistered(st', st'.code[t]) {
      if e.Spawn? && t == st.tids {
        assert st'.code[t] == [];
      } else if t != st.cur {
        OthersCode(st, e, t);
        StaysRegistered(st, st', st.code[t]);
      } else if e.Run? {
        RunRegisters(st);
      } else {
        CallRegisters(st, e);
      }
    }
  }

  lemma {:induction false} RegisterReachable(states: seq<State>, events: seq<Event>, i: nat)
    requires IsRun(states, events) && i < |states|
    ensures RegisterInv(states[i])
  {
    if i > 0 {
      RegisterReachable(states, events, i - 1);
      Reachable(states, events, i - 1);
      StepOf(states, events, i);
      RegisterKeeps(states[i - 1], events[i - 1]);
    }
  }

  lemma OneReturn(c: nat, l: nat, w: nat, k: nat)
    requires k < |WaitCode(c, l, w)| && WaitCode(c, l, w)[k].Waited?
    ensures WaitCode(c, l, w)[k].l == l
  {
  }

  lemma HoldsAtRegister(st: State, t: Tid)
    requires LockInv(st) && t in st.code && AtRegister(st.code[t]) && st.code[t][0].l in st.locks
    ensures st.locks[st.code[t][0].l].holder == Some(t)
  {
    var l := st.code[t][0].l;
    assert Legal(st.code[t], l, PhaseOf(st.locks[l], t));
  }

  lemma ListedOrPopped(st: State, l: nat, w: nat)
    requires SignalInv(st) && Registered(st, l, w)
    ensures exists c ::
              c in st.conds && st.conds[c].lock == l && (w in st.conds[c].waiters || w in st.conds[c].released)
  {
    var c :| c in st.conds && st.conds[c].lock == l && w in st.conds[c].registered;
    assert st.conds[c].registered == st.conds[c].released + st.conds[c].waiters;
  }

  /** Registered before released: in every reachable state a thread inside condvar_wait is either still to register,
      holding the lock, or has its waiter set up and listed, or popped by a signal. */
  lemma RegisteredBeforeRelease(states: seq<State>, events: seq<Event>, i: nat, t: Tid, k: nat)
    requires IsRun(states, events) && i < |states| && t in states[i].code && k < |states[i].code[t]|
    requires states[i].code[t][k].Waited?
    ensures var st, code := states[i], states[i].code[t];
            var l, w := code[k].l, code[k].w;
            if AtRegister(code) then l in st.locks && st.locks[l].holder == Some(t)
            else Waiter(w) in st.semas &&
                 exists c ::
                   c in st.conds && st.conds[c].lock == l && (w in st.conds[c].waiters || w in st.conds[c].released)
  {
    Reachable(states, events, i);
    RegisterReachable(states, events, i);
    var st, code := states[i], states[i].code[t];
    var l, w := code[k].l, code[k].w;
    assert CodeRegistered(st, code) && RefsOk(st, code) && RefOk(st, code[k]);
    if AtRegister(code) {
      OneReturn(code[0].c, code[0].l, code[0].w, k);
      HoldsAtRegister(st, t);
    } else {
      assert Registered(st, l, w);
      ListedOrPopped(st, l, w);
    }
  }
}
