/** What the other events of the kernel do, field by field (threads/thread.c, threads/semaphore.c). */
module KernelSteps {
  import opened Common
  import opened KernelModel
  import opened KernelSched
  import opened KernelLock
  import opened KernelRuns

  /** The threads in line for the processor when the running one gives it away, or the idle thread alone. */
  function InLine(queue: seq<Tid>, idle: Option<Tid>): seq<Tid>
  {
    if queue != [] then queue else if idle.Some? then [idle.value] else []
  }

  /** The first in line runs, the line moves up, and no other thread's state changes except that of who left. */
  ghost predicate HandsOver(st: State, st': State, queue: seq<Tid>, left: map<Tid, Status>)
  {
    && InLine(queue, st.idle) != [] && st'.cur == InLine(queue, st.idle)[0]
    && st'.ready == (if queue == [] then [] else queue[1..])
    && st'.status == left[st'.cur := Running] && st'.idle == st.idle
  }

  /** The running thread goes to the end of the line, unless it is the idle thread, and the first one runs. */
  lemma YieldMeans(st: State)
    requires Inv(st) && (st.code[st.cur] == [] || !st.code[st.cur][0].Retry?)
    ensures Enabled(st, Yield)
    ensures var queue := if st.cur == IDLE && st.idle.Some? then st.ready else st.ready + [st.cur];
            HandsOver(st, Next(st, Yield), queue, st.status[st.cur := Ready])
    ensures var st' := Next(st, Yield); st' == st.(cur := st'.cur, ready := st'.ready, status := st'.status)
  {
    IdleIs(st);
  }

  lemma IdleIs(st: State)
    requires SchedInv(st)
    ensures st.idle == None || st.idle == Some(IDLE)
    ensures st.cur == IDLE || st.ready != [] || st.idle.Some?
  {
    if st.idle == None && st.cur != IDLE {
      assert st.status[IDLE] == Ready by { assert st.code[IDLE] != [IdleLoop]; }
      assert IDLE in st.ready;
    }
  }

  /** The thread and its steps are gone, and the first in line runs. */
  lemma ExitMeans(st: State)
    requires Inv(st) && st.cur != IDLE && st.code[st.cur] == []
    ensures Enabled(st, Exit)
    ensures var st' := Next(st, Exit);
            && HandsOver(st, st', st.ready, st.status - {st.cur}) && st'.cur != st.cur
            && st'.code == st.code - {st.cur} && st'.tids == st.tids
            && st'.semas == st.semas && st'.locks == st.locks && st'.conds == st.conds && st'.owner == st.owner
  {
    IdleIs(st);
    if st.ready != [] { assert st.ready[0] in st.ready; }
  }

  /** A thread with a number never used before is at the end of the line, in client code. */
  lemma SpawnMeans(st: State)
    requires Inv(st) && st.cur != IDLE && st.code[st.cur] == []
    ensures Enabled(st, Spawn)
    ensures var t, st' := st.tids, Next(st, Spawn);
            && t !in st.status && st'.tids == t + 1 && st'.status == st.status[t := Ready] &&
              st'.code == st.code[t := []]
            && st'.ready == st.ready + [t] && st'.cur == st.cur && st'.idle == st.idle
            && st'.semas == st.semas && st'.locks == st.locks && st'.conds == st.conds && st'.owner == st.owner
  {
  }

  /** A unit more, and the first waiter, if any, off the list and at the end of the line. */
  ghost predicate Gives(st: State, st': State, s: SemaId)
  {
    && s in st.semas && s in st'.semas
    && st'.semas[s].value == (st.semas[s].value + 1) % TWO32 && st'.semas[s].ups == st.semas[s].ups + 1
    && st'.semas[s].downs == st.semas[s].downs && st'.cur == st.cur
    && (forall r :: r in st.semas && r != s ==> r in st'.semas && st'.semas[r] == st.semas[r])
    && var ws := st.semas[s].waiters;
       if ws == [] then st'.semas[s].waiters == [] && st'.ready == st.ready && st'.status == st.status
       else
         && st'.semas[s].waiters == ws[1..] && st'.ready == st.ready + [ws[0]]
         && st'.status == st.status[ws[0] := Ready]
  }

  lemma IrqMeans(st: State, n: nat)
    requires Plain(n) in st.semas && (Code(st) == [] || !Code(st)[0].Retry?)
    ensures Enabled(st, Irq(n))
    ensures Gives(st, Next(st, Irq(n)), Plain(n)) && Next(st, Irq(n)).code == st.code
  {
  }

  lemma UpMeans(st: State)
    requires Enabled(st, Run) && Code(st)[0].Up?
    ensures Gives(st, Next(st, Run), Code(st)[0].s)
  {
  }

  /** With a unit to take the running thread takes it and goes on. */
  lemma TakeMeans(st: State)
    requires Enabled(st, Run) && (Code(st)[0].Down? || Code(st)[0].Retry?) && st.semas[Code(st)[0].s].value > 0
    ensures var s, st', t := Code(st)[0].s, Next(st, Run), st.cur;
            var m := st.semas[s];
            && st'.semas == st.semas[s := Sema(m.value - 1, m.waiters, m.init, m.ups, m.downs + 1)]
            && st'.cur == t && st'.code == st.code[t := st.code[t][1..]] && st'.status == st.status &&
              st'.ready == st.ready
  {
  }

  /** Without one it is the last on the wait list, sleeps, and will look again. */
  lemma SleepMeans(st: State)
    requires Inv(st) && Enabled(st, Run) && (Code(st)[0].Down? || Code(st)[0].Retry?)
    requires st.semas[Code(st)[0].s].value == 0
    ensures var s, st', t := Code(st)[0].s, Next(st, Run), st.cur;
            var m := st.semas[s];
            && st'.semas == st.semas[s := Sema(0, m.waiters + [t], m.init, m.ups, m.downs)]
            && st'.code == st.code[t := [Retry(s)] + st.code[t][1..]]
            && HandsOver(st, st', st.ready, st.status[t := Blocked])
  {
    IdleIs(st);
    ClientSleeps(st);
  }

  lemma ClientSleeps(st: State)
    requires SchedInv(st) && Code(st) != [] && (Code(st)[0].Down? || Code(st)[0].Retry?)
    ensures st.cur != IDLE
  {
  }

  /** The idle thread records itself, and later blocks without being on any list. */
  lemma IdleMeans(st: State)
    requires Inv(st) && Enabled(st, Run)
    ensures Code(st)[0].SetIdle? ==> Next(st, Run).idle == Some(st.cur) && Next(st, Run).cur == st.cur
    ensures Code(st)[0].IdleLoop? ==>
              HandsOver(st, Next(st, Run), st.ready, st.status[st.cur := Blocked]) && Next(st, Run).semas == st.semas
  {
    if Code(st)[0].IdleLoop? { IdleAtRest(st); }
  }

  lemma IdleAtRest(st: State)
    requires SchedInv(st) && Code(st) != [] && Code(st)[0].IdleLoop?
    ensures st.cur == IDLE && st.idle == Some(IDLE)
  {
  }

  /** In client code a thread may make every call whose assertions hold: it may take a lock it does not hold, release
      one it holds, and use a condition variable whose lock it holds. */
  lemma MayCall(st: State, n: nat, l: nat, c: nat)
    requires st.cur in st.code && st.code[st.cur] == [] && st.cur != IDLE
    ensures Plain(n) in st.semas ==> Enabled(st, CallDown(n)) && Enabled(st, CallUp(n))
    ensures l in st.locks ==> (Enabled(st, CallAcquire(l)) <==> st.locks[l].holder != Some(st.cur))
    ensures l in st.locks ==> (Enabled(st, CallRelease(l)) <==> st.locks[l].holder == Some(st.cur))
    ensures c in st.conds && st.conds[c].lock in st.locks ==>
              var mine := st.locks[st.conds[c].lock].holder == Some(st.cur);
              && (Enabled(st, CallWait(c)) <==> mine) && (Enabled(st, CallSignal(c)) <==> mine)
              && (Enabled(st, CallBroadcast(c)) <==> mine)
  {
  }
}
