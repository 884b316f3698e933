/** The kernel's data structures updated in place: threads and waiters on linked lists, each operation proved
    against the machine of KernelModel. */
module Kernel {
  import opened Common
  import opened KernelModel
  import opened KernelList
  import opened KernelSched
  import opened KernelSignal
  import opened KernelRuns
  import opened KernelTheorems
  import opened KernelCalls

  class Machine {
    const links: Links
    var status: map<Tid, Status>
    var code: map<Tid, seq<Op>>
    var current: Tid
    var idleThread: Option<Tid>
    var nextTid: nat
    var values: map<SemaId, nat>
    var holders: map<nat, Option<Tid>>
    var owner: seq<Tid>
    var lockOf: map<nat, nat>      // the lock each condition variable's users hold
    ghost var st: State             // what the fields above and the lists stand for

    ghost predicate Valid()
      reads this, links
    {
      && links.Valid() && Shows(links.lists, st)
      && status == st.status && code == st.code && current == st.cur && idleThread == st.idle && nextTid == st.tids &&
        owner == st.owner
      && ValuesAre(values, st.semas) && HoldersAre(holders, st.locks) && LocksAre(lockOf, st.conds)
    }

    /** thread_init and thread_start, up to the wait for the idle thread. */
    constructor Boot()
      ensures Valid() && st == Booted() && fresh(links)
    {
      links := new Links();
      status, code := map[MAIN := Running, IDLE := Ready], Booted().code;
      current, idleThread, nextTid, owner := MAIN, None, 2, [];
      values, holders, lockOf := map[IDLE_STARTED := 0], map[], map[];
      st := Booted();
      new;
      links.Init(ReadyList);
      links.PushBack(ReadyList, ThreadElem(IDLE));
      links.Init(SemaWaiters(IDLE_STARTED));
      assert [] + [ThreadElem(IDLE)] == [ThreadElem(IDLE)];
      BootedShows(links.lists);
    }

    /** semaphore_init */
    method SemaphoreInit(s: SemaId, value: nat)
      requires Valid() && s !in st.semas
      modifies this, links
      ensures Valid() && st == SemaAdded(old(st), s, value)
    {
      ShowsInit(links.lists, st, s, value);
      links.Init(SemaWaiters(s));
      values := values[s := value];
      st := SemaAdded(st, s, value);
    }

    /** lock_init */
    method LockInit(l: nat)
      requires Valid() && OfLock(l) !in st.semas && l !in st.locks
      modifies this, links
      ensures Valid() && st == LockAdded(old(st), l)
    {
      SemaphoreInit(OfLock(l), 1);
      holders := holders[l := None];
      st := st.(locks := st.locks[l := Lock(None, {})]);
    }

    /** condvar_init */
    method CondvarInit(c: nat, l: nat)
      requires Valid() && c !in st.conds
      modifies this, links
      ensures Valid() && st == CondAdded(old(st), c, l)
    {
      ShowsCond(links.lists, st, c, Cond(l, [], [], []));
      links.Init(CondWaiters(c));
      lockOf := lockOf[c := l];
      st := CondAdded(st, c, l);
    }

    // -------------------------------------------------------------- threads

    /** list_pop_front on the ready list, or the idle thread. */
    method NextThreadToRun() returns (next: Tid)
      requires Valid() && (st.ready != [] || st.idle.Some?)
      modifies this`st, links
      ensures Valid() && next == NextThread(old(st))
      ensures st == old(st).(ready := if old(st).ready == [] then [] else old(st).ready[1..])
    {
      var empty := links.Empty(ReadyList);
      if empty {
        next := idleThread.value;
      } else {
        ThreadsTail(st.ready);
        ShowsReady(links.lists, st, st.ready[1..]);
        var front := links.PopFront(ReadyList);
        next := front.t;
        st := st.(ready := st.ready[1..]);
      }
    }

    /** The running thread's status has been changed already; thread_schedule_tail marks the next one running. */
    method SwitchThreads()
      requires Valid() && (st.ready != [] || st.idle.Some?)
      modifies this, links
      ensures Valid() && st == Schedule(old(st))
    {
      var next := NextThreadToRun();
      current := next;
      status := status[current := Running];
      st := st.(cur := next, status := st.status[next := Running]);
    }

    method ThreadBlock()
      requires Valid() && (st.ready != [] || st.idle.Some?)
      modifies this, links
      ensures Valid() && st == Block(old(st))
    {
      status := status[current := Blocked];
      st := st.(status := st.status[st.cur := Blocked]);
      SwitchThreads();
    }

    method ThreadUnblock(t: Tid)
      requires Valid() && t in status && status[t] == Blocked && OnNone(links.lists, ThreadElem(t))
      modifies this, links
      ensures Valid() && st == Unblock(old(st), t)
    {
      PushReady(t);
      status := status[t := Ready];
      st := st.(status := st.status[t := Ready]);
    }

    method PushReady(t: Tid)
      requires Valid() && OnNone(links.lists, ThreadElem(t))
      modifies this`st, links
      ensures Valid() && st == old(st).(ready := old(st).ready + [t])
    {
      ThreadsPush(st.ready, t);
      ShowsReady(links.lists, st, st.ready + [t]);
      links.PushBack(ReadyList, ThreadElem(t));
      st := st.(ready := st.ready + [t]);
    }

    method ThreadYield()
      requires Valid() && (st.idle == Some(st.cur) || OnNone(links.lists, ThreadElem(st.cur)))
      modifies this, links
      ensures Valid() && st == YieldCpu(old(st))
    {
      if idleThread != Some(current) { PushReady(current); }
      status := status[current := Ready];
      st := st.(status := st.status[st.cur := Ready]);
      SwitchThreads();
    }

    method ThreadExit()
      requires Valid() && (st.ready != [] || st.idle.Some?)
      modifies this, links
      ensures Valid() && st == ExitThread(old(st))
    {
      status := status - {current};
      code := code - {current};
      st := st.(status := st.status - {st.cur}, code := st.code - {st.cur});
      SwitchThreads();
    }

    /** No identifier without a page for the thread. */
    method ThreadCreate(page: bool) returns (tid: Option<Tid>)
      requires Valid() && OnNone(links.lists, ThreadElem(st.tids))
      modifies this, links
      ensures Valid() && tid == (if page then Some(old(st).tids) else None)
      ensures st == if page then SpawnThread(old(st)) else old(st)
    {
      if !page { return None; }
      tid := Some(nextTid);
      status, code, nextTid := status[nextTid := Blocked], code[nextTid := []], nextTid + 1;
      st := st.(status := st.status[st.tids := Blocked], code := st.code[st.tids := []], tids := st.tids + 1);
      ThreadUnblock(tid.value);
    }

    // -------------------------------------------------------------- semaphores and locks

    method Sleepers(s: SemaId)
      requires Valid() && s in st.semas && OnNone(links.lists, ThreadElem(st.cur))
      modifies this`st, links
      ensures Valid()
      ensures var m := old(st).semas[s];
              st == old(st).(semas := old(st).semas[s := m.(waiters := m.waiters + [old(st).cur])])
    {
      var m := st.semas[s];
      ThreadsPush(m.waiters, current);
      ShowsSema(links.lists, st, s, m.(waiters := m.waiters + [current]));
      links.PushBack(SemaWaiters(s), ThreadElem(current));
      st := st.(semas := st.semas[s := m.(waiters := m.waiters + [current])]);
    }

    /** One turn of the loop in semaphore_down: take a unit, or join the waiters and block.  True if the
        unit was taken, so that the loop is left. */
    method SemaphoreDownTurn(s: SemaId, rest: seq<Op>) returns (taken: bool)
      requires Valid() && s in st.semas && st.cur in st.code && (st.ready != [] || st.idle.Some?)
      requires OnNone(links.lists, ThreadElem(st.cur))
      modifies this, links
      ensures Valid() && (taken <==> old(st).semas[s].value > 0) && st == DownOnce(old(st), s, rest)
    {
      taken := values[s] > 0;
      if taken {
        TakeUnit(s, rest);
      } else {
        Sleepers(s);
        ContinueWith([Retry(s)] + rest);
        ThreadBlock();
      }
    }

    method TakeUnit(s: SemaId, rest: seq<Op>)
      requires Valid() && s in st.semas && st.semas[s].value > 0
      modifies this
      ensures Valid() && st == TakeOne(old(st), s, rest)
    {
      ghost var m := st.semas[s];
      ShowsSema(links.lists, st, s, m.(value := m.value - 1, downs := m.downs + 1));
      EnterHolders(holders, st.locks, s, st.cur);
      values := values[s := values[s] - 1];
      code := code[current := rest];
      st := TakeOne(st, s, rest);
    }

    method SemaphoreUp(s: SemaId)
      requires Valid() && WakesBlocked(st, s)
      modifies this, links
      ensures Valid() && st == PostUp(old(st), s)
    {
      var empty := links.Empty(SemaWaiters(s));
      UpIs(st, s);
      if !empty {
        var t := PopSleeper(s);
        ThreadUnblock(t);
      }
      CountUnit(s);
    }

    method PopSleeper(s: SemaId) returns (t: Tid)
      requires Valid() && s in st.semas && st.semas[s].waiters != []
      modifies this`st, links
      ensures Valid() && t == old(st).semas[s].waiters[0] && OnNone(links.lists, ThreadElem(t))
      ensures st == Popped(old(st), s)
    {
      ghost var m := st.semas[s];
      ThreadsTail(m.waiters);
      ShowsSema(links.lists, st, s, m.(waiters := m.waiters[1..]));
      var front := links.PopFront(SemaWaiters(s));
      t := front.t;
      st := Popped(st, s);
    }

    method CountUnit(s: SemaId)
      requires Valid() && s in st.semas
      modifies this
      ensures Valid() && st == Counted(old(st), s)
    {
      ghost var m := st.semas[s];
      ShowsSema(links.lists, st, s, m.(value := (m.value + 1) % TWO32, ups := m.ups + 1));
      LeaveHolders(holders, st.locks, s, st.cur);
      values := values[s := (values[s] + 1) % TWO32];
      st := Counted(st, s);
    }

    // -------------------------------------------------------------- condition variables

    /** semaphore_init on the waiter, then list_push_back on the condition variable. */
    method CondvarRegister(c: nat, w: nat)
      requires Valid() && c in st.conds && Waiter(w) !in st.semas && Unregistered(st, w)
      modifies this, links
      ensures Valid() && st == RegisterWaiter(old(st), c, w)
    {
      SemaphoreInit(Waiter(w), 0);
      WaiterUnlisted(links.lists, st, w);
      ListWaiter(c, w);
    }

    method ListWaiter(c: nat, w: nat)
      requires Valid() && c in st.conds && OnNone(links.lists, WaiterElem(w))
      modifies this`st, links
      ensures Valid()
      ensures var k := old(st).conds[c];
              st == old(st).(conds := old(st).conds[c := k.(waiters := k.waiters + [w],
                registered := k.registered + [w])])
    {
      ghost var k := st.conds[c];
      WaitersPush(k.waiters, w);
      ShowsCond(links.lists, st, c, k.(waiters := k.waiters + [w], registered := k.registered + [w]));
      links.PushBack(CondWaiters(c), WaiterElem(w));
      st := st.(conds := st.conds[c := k.(waiters := k.waiters + [w], registered := k.registered + [w])]);
    }

    method CondvarPop(c: nat) returns (w: nat)
      requires Valid() && c in st.conds && st.conds[c].waiters != []
      modifies this`st, links
      ensures Valid() && w == old(st).conds[c].waiters[0] && st == PopWaiter(old(st), c)
    {
      ghost var k := st.conds[c];
      WaitersTail(k.waiters);
      ShowsCond(links.lists, st, c, k.(waiters := k.waiters[1..], released := k.released + [k.waiters[0]]));
      var front := links.PopFront(CondWaiters(c));
      w := front.w;
      st := PopWaiter(st, c);
    }

    // -------------------------------------------------------------- steps

    method ContinueWith(rest: seq<Op>)
      requires Valid()
      modifies this`code, this`st
      ensures Valid() && st == Continue(old(st), rest)
    {
      code := code[current := rest];
      st := Continue(st, rest);
    }

    /** lock_acquire and lock_release assign the holder outside the semaphore operation. */
    method AssignHolder(l: nat, h: Option<Tid>, rest: seq<Op>)
      requires Valid() && l in st.locks
      modifies this
      ensures Valid() && st == Continue(SetLockHolder(old(st), l, h), rest)
    {
      holders := holders[l := h];
      st := SetLockHolder(st, l, h);
      ContinueWith(rest);
    }

    /** idle, on its first turn */
    method RecordIdle(rest: seq<Op>)
      requires Valid()
      modifies this`idleThread, this`code, this`st
      ensures Valid() && st == Continue(old(st).(idle := Some(old(st).cur)), rest)
    {
      idleThread, st := Some(current), st.(idle := Some(st.cur));
      ContinueWith(rest);
    }

    method ExecuteCondvar(op: Op, rest: seq<Op>)
      requires Valid() && Demands(links.lists, st, op) && (op.Register? || op.Signal? || op.Broadcast?)
      modifies this, links
      ensures Valid() && st == Exec(old(st), op, rest)
    {
      match op
      case Register(c, l, w) => CondvarRegister(c, w); ContinueWith(rest);
      case Signal(c, l) =>
        var empty := links.Empty(CondWaiters(c));
        if empty {
          ContinueWith(rest);
        } else {
          var w := CondvarPop(c);
          ContinueWith([Up(Waiter(w))] + rest);
        }
      case Broadcast(c, l, goal) =>
        var empty := links.Empty(CondWaiters(c));
        ContinueWith(if empty then rest else [Signal(c, l), op] + rest);
    }

    method Execute(op: Op, rest: seq<Op>)
      requires Valid() && Demands(links.lists, st, op) && st.cur in st.code
      modifies this, links
      ensures Valid() && st == Exec(old(st), op, rest)
    {
      match op
      case Down(s) => var _ := SemaphoreDownTurn(s, rest);
      case Retry(s) => var _ := SemaphoreDownTurn(s, rest);
      case Up(s) => SemaphoreUp(s); ContinueWith(rest);
      case SetHolder(l) => AssignHolder(l, Some(current), rest);
      case ClearHolder(l) => AssignHolder(l, None, rest);
      case Waited(l, w) => ContinueWith(rest);
      case SetIdle => RecordIdle(rest);
      case IdleLoop => ThreadBlock();
      case _ => ExecuteCondvar(op, rest);
    }

    /** The running thread takes its next step; the invariant makes every step's demands hold. */
    method RunStep()
      requires Valid() && Inv(st) && Enabled(st, Run)
      modifies this, links
      ensures Valid() && st == Next(old(st), Run) && Inv(st)
    {
      InvKeeps(st, Run);
      StepDemands(links.lists, st);
      Execute(code[current][0], code[current][1..]);
    }

    /** The waiters of a condition variable, in order. */
    method WaitersAt(c: nat) returns (ws: seq<nat>)
      requires Valid() && c in st.conds
      ensures ws == st.conds[c].waiters
    {
      var elements := links.Elements(CondWaiters(c));
      ws := seq(|elements|, k requires 0 <= k < |elements| => if elements[k].WaiterElem? then elements[k].w else 0);
    }

    /** The steps that a call by the running thread lays out. */
    method StepsFor(e: Event) returns (code: seq<Op>)
      requires Valid() && Enabled(st, e) && IsCall(e)
      ensures code == StepsOf(e, st)
    {
      match e
      case CallDown(n) => code := [Down(Plain(n))];
      case CallUp(n) => code := [Up(Plain(n))];
      case CallAcquire(l) => code := [Down(OfLock(l)), SetHolder(l)];
      case CallRelease(l) => code := [ClearHolder(l), Up(OfLock(l))];
      case CallWait(c) => code := WaitCode(c, lockOf[c], |owner|);
      case CallSignal(c) => code := [Signal(c, lockOf[c])];
      case CallBroadcast(c) =>
        var goal := WaitersAt(c);
        code := [Broadcast(c, lockOf[c], goal)];
    }

    /** The running thread's client code makes a call. */
    method Begin(e: Event)
      requires Valid() && Inv(st) && Enabled(st, e) && IsCall(e)
      modifies this
      ensures Valid() && st == Next(old(st), e) && Inv(st)
    {
      InvKeeps(st, e);
      BeginIs(st, e);
      var steps := StepsFor(e);
      LayOut(steps, e.CallWait?);
    }

    method LayOut(steps: seq<Op>, wait: bool)
      requires Valid()
      modifies this`owner, this`code, this`st
      ensures Valid()
      ensures st == Continue(if wait then old(st).(owner := old(st).owner + [old(st).cur]) else old(st), steps)
    {
      if wait { owner, st := owner + [current], st.(owner := st.owner + [st.cur]); }
      ContinueWith(steps);
    }

    /** An event that is no step of the running thread and starts no operation. */
    method Disturb(e: Event)
      requires Valid() && Inv(st) && Enabled(st, e) && (e.Yield? || e.Irq? || e.Exit? || e.Spawn?)
      modifies this, links
      ensures Valid() && st == Next(old(st), e) && Inv(st)
    {
      InvKeeps(st, e);
      DisturbDemands(links.lists, st, e);
      match e
      case Yield => ThreadYield();
      case Irq(n) => SemaphoreUp(Plain(n));
      case Exit => ThreadExit();
      case Spawn => var _ := ThreadCreate(true);
    }
  }

  // ---------------------------------------------------------------- what the lists show

  ghost function Threads(ts: seq<Tid>): seq<Node> { seq(|ts|, i requires 0 <= i < |ts| => ThreadElem(ts[i])) }

  ghost function Waiters(ws: seq<nat>): seq<Node> { seq(|ws|, i requires 0 <= i < |ws| => WaiterElem(ws[i])) }

  lemma ThreadsPush(ts: seq<Tid>, t: Tid)
    ensures Threads(ts + [t]) == Threads(ts) + [ThreadElem(t)]
  {
  }

  lemma ThreadsTail(ts: seq<Tid>)
    ensures ts != [] ==> Threads(ts[1..]) == Threads(ts)[1..]
  {
  }

  lemma WaitersPush(ws: seq<nat>, w: nat)
    ensures Waiters(ws + [w]) == Waiters(ws) + [WaiterElem(w)]
  {
  }

  lemma WaitersTail(ws: seq<nat>)
    ensures ws != [] ==> Waiters(ws[1..]) == Waiters(ws)[1..]
  {
  }

  ghost predicate HasList(st: State, l: ListId)
  {
    match l
    case ReadyList => true
    case SemaWaiters(s) => s in st.semas
    case CondWaiters(c) => c in st.conds
  }

  ghost function ListOf(st: State, l: ListId): seq<Node>
    requires HasList(st, l)
  {
    match l
    case ReadyList => Threads(st.ready)
    case SemaWaiters(s) => Threads(st.semas[s].waiters)
    case CondWaiters(c) => Waiters(st.conds[c].waiters)
  }

  /** There is a list for every list of the model, it holds the same elements in the same
      order, and there is no other. */
  ghost predicate Shows(lists: map<ListId, seq<Node>>, st: State)
  {
    (forall l :: HasList(st, l) ==> l in lists && lists[l] == ListOf(st, l)) &&
      (forall l :: l in lists ==> HasList(st, l))
  }

  lemma ShowsReady(lists: map<ListId, seq<Node>>, st: State, ready: seq<Tid>)
    requires Shows(lists, st)
    ensures Shows(lists[ReadyList := Threads(ready)], st.(ready := ready))
  {
  }

  lemma ShowsSema(lists: map<ListId, seq<Node>>, st: State, s: SemaId, m: Sema)
    requires Shows(lists, st)
    ensures Shows(lists[SemaWaiters(s) := Threads(m.waiters)], st.(semas := st.semas[s := m]))
    ensures s in st.semas && m.waiters == st.semas[s].waiters ==> Shows(lists, st.(semas := st.semas[s := m]))
  {
  }

  lemma ShowsInit(lists: map<ListId, seq<Node>>, st: State, s: SemaId, value: nat)
    requires Shows(lists, st)
    ensures Shows(lists[SemaWaiters(s) := []], st.(semas := st.semas[s := Sema(value, [], value, 0, 0)]))
  {
    assert Threads([]) == [];
    ShowsSema(lists, st, s, Sema(value, [], value, 0, 0));
  }

  lemma ShowsCond(lists: map<ListId, seq<Node>>, st: State, c: nat, k: Cond)
    requires Shows(lists, st)
    ensures Shows(lists[CondWaiters(c) := Waiters(k.waiters)], st.(conds := st.conds[c := k]))
  {
  }

  ghost predicate ValuesAre(values: map<SemaId, nat>, semas: map<SemaId, Sema>)
  {
    values.Keys == semas.Keys && forall s :: s in semas ==> values[s] == semas[s].value
  }

  ghost predicate HoldersAre(holders: map<nat, Option<Tid>>, locks: map<nat, Lock>)
  {
    holders.Keys == locks.Keys && forall l :: l in locks ==> holders[l] == locks[l].holder
  }

  ghost predicate LocksAre(lockOf: map<nat, nat>, conds: map<nat, Cond>)
  {
    lockOf.Keys == conds.Keys && forall c :: c in conds ==> lockOf[c] == conds[c].lock
  }

  lemma EnterHolders(holders: map<nat, Option<Tid>>, locks: map<nat, Lock>, s: SemaId, t: Tid)
    requires HoldersAre(holders, locks)
    ensures HoldersAre(holders, Enter(locks, s, t))
  {
  }

  lemma LeaveHolders(holders: map<nat, Option<Tid>>, locks: map<nat, Lock>, s: SemaId, t: Tid)
    requires HoldersAre(holders, locks)
    ensures HoldersAre(holders, Leave(locks, s, t))
  {
  }

  // ---------------------------------------------------------------- the parts of an operation

  /** semaphore_up, after list_pop_front. */
  ghost function Popped(st: State, s: SemaId): State
    requires s in st.semas && st.semas[s].waiters != []
  {
    st.(semas := st.semas[s := st.semas[s].(waiters := st.semas[s].waiters[1..])])
  }

  /** The increment in semaphore_up. */
  ghost function Counted(st: State, s: SemaId): State
    requires s in st.semas
  {
    var m := st.semas[s];
    st.(semas := st.semas[s := m.(value := (m.value + 1) % TWO32, ups := m.ups + 1)],
      locks := Leave(st.locks, s, st.cur))
  }

  /** The parts in their order make up the whole. */
  lemma UpIs(st: State, s: SemaId)
    requires s in st.semas
    ensures st.semas[s].waiters == [] ==> PostUp(st, s) == Counted(st, s)
    ensures st.semas[s].waiters != [] ==> PostUp(st, s) == Counted(Unblock(Popped(st, s), st.semas[s].waiters[0]), s)
  {
    var m := st.semas[s];
    assert m.waiters != [] ==> PostUp(st, s).semas == Counted(Unblock(Popped(st, s), m.waiters[0]), s).semas;
  }

  lemma BeginIs(st: State, e: Event)
    requires Enabled(st, e) && IsCall(e)
    ensures Next(st, e) == Continue(if e.CallWait? then st.(owner := st.owner + [st.cur]) else st, StepsOf(e, st))
  {
  }

  /** Where thread_start leaves the machine. */
  function Booted(): State
  {
    State(map[MAIN := Running, IDLE := Ready],
      map[MAIN := [Down(IDLE_STARTED)], IDLE := [SetIdle, Up(IDLE_STARTED), IdleLoop]],
          [IDLE], MAIN, None, 2, map[IDLE_STARTED := Sema(0, [], 0, 0, 0)], map[], map[], [])
  }

  lemma BootedShows(lists: map<ListId, seq<Node>>)
    requires lists == map[ReadyList := [ThreadElem(IDLE)], SemaWaiters(IDLE_STARTED) := []]
    ensures Shows(lists, Booted())
  {
    assert Threads([IDLE]) == [ThreadElem(IDLE)] && Threads([]) == [];
  }

  ghost function SemaAdded(st: State, s: SemaId, value: nat): State
  {
    st.(semas := st.semas[s := Sema(value, [], value, 0, 0)])
  }

  ghost function LockAdded(st: State, l: nat): State
  {
    SemaAdded(st, OfLock(l), 1).(locks := st.locks[l := Lock(None, {})])
  }

  ghost function CondAdded(st: State, c: nat, l: nat): State { st.(conds := st.conds[c := Cond(l, [], [], [])]) }

  lemma SemaStarts(st: State, n: nat, value: nat)
    requires Init(st) && Plain(n) !in st.semas && value < TWO32
    ensures Init(SemaAdded(st, Plain(n), value))
  {
  }

  lemma LockStarts(st: State, l: nat)
    requires Init(st) && l !in st.locks
    ensures OfLock(l) !in st.semas && Init(LockAdded(st, l))
  {
  }

  lemma CondStarts(st: State, c: nat, l: nat)
    requires Init(st) && c !in st.conds && l in st.locks
    ensures Init(CondAdded(st, c, l))
  {
  }

  /** Every machine that is booted and then given semaphores, locks and condition variables starts a run. */
  lemma StartsRun(st: State, n: nat, value: nat, l: nat, c: nat)
    ensures Init(Booted())
    ensures Init(st) && Plain(n) !in st.semas && value < TWO32 ==> Init(SemaAdded(st, Plain(n), value))
    ensures Init(st) && l !in st.locks ==> Init(LockAdded(st, l))
    ensures Init(st) && c !in st.conds && l in st.locks ==> Init(CondAdded(st, c, l))
  {
    if Init(st) && Plain(n) !in st.semas && value < TWO32 { SemaStarts(st, n, value); }
    if Init(st) && l !in st.locks { LockStarts(st, l); }
    if Init(st) && c !in st.conds && l in st.locks { CondStarts(st, c, l); }
  }

  // ---------------------------------------------------------------- what the steps ask

  /** What the methods above ask of the state before a step. */
  ghost predicate Demands(lists: map<ListId, seq<Node>>, st: State, op: Op)
  {
    && Known(st, op)
    && (op.Down? || op.Retry? || op.IdleLoop? ==> st.ready != [] || st.idle.Some?)
    && (op.Down? || op.Retry? ==> OnNone(lists, ThreadElem(st.cur)))
    && (op.Up? ==> WakesBlocked(st, op.s))
    && (op.Register? ==> Waiter(op.w) !in st.semas && Unregistered(st, op.w))
  }

  lemma NotWaiting(st: State, s: SemaId, t: Tid)
    requires SchedInv(st) && s in st.semas && (t in st.status ==> st.status[t] == Running)
    ensures t !in st.semas[s].waiters
  {
  }

  /** A thread that is neither ready nor blocked is on no list, and so its element is free to be linked. */
  lemma Unlisted(lists: map<ListId, seq<Node>>, st: State, t: Tid)
    requires Shows(lists, st) && Inv(st) && (t in st.status ==> st.status[t] == Running)
    ensures OnNone(lists, ThreadElem(t))
  {
    assert t !in st.ready;
    forall l | l in lists ensures ThreadElem(t) !in lists[l] {
      assert HasList(st, l) && lists[l] == ListOf(st, l);
      if l.SemaWaiters? { NotWaiting(st, l.s, t); }
    }
  }

  /** The waiter is on no condition variable. */
  ghost predicate Unregistered(st: State, w: nat) { forall c :: c in st.conds ==> w !in st.conds[c].waiters }

  /** A waiter that is still to be registered is on none. */
  lemma NotRegistered(st: State, w: nat)
    requires SignalInv(st) && Waiter(w) !in st.semas
    ensures Unregistered(st, w)
  {
    assert !Awaiting(st.semas, w);
  }

  /** So its element is on no list. */
  lemma WaiterUnlisted(lists: map<ListId, seq<Node>>, st: State, w: nat)
    requires Shows(lists, st) && Unregistered(st, w)
    ensures OnNone(lists, WaiterElem(w))
  {
    forall l | l in lists ensures WaiterElem(w) !in lists[l] {
      assert HasList(st, l) && lists[l] == ListOf(st, l);
      if l.CondWaiters? { assert w !in st.conds[l.c].waiters; }
    }
  }

  lemma SomeoneNext(st: State)
    requires Inv(st)
    ensures st.cur == IDLE || st.ready != [] || st.idle.Some?
  {
    if st.idle == None && st.cur != IDLE {
      assert st.status[IDLE] == Ready by { assert st.code[IDLE] != [IdleLoop]; }
      assert IDLE in st.ready;
    }
  }

  /** They follow from the invariant. */
  lemma StepDemands(lists: map<ListId, seq<Node>>, st: State)
    requires Inv(st) && Enabled(st, Run) && Shows(lists, st)
    ensures st.cur in st.code && Demands(lists, st, Code(st)[0])
  {
    var op := Code(st)[0];
    SomeoneNext(st);
    if op.Up? { WakesBlockedInv(st, op.s); }
    if op.Down? || op.Retry? { Unlisted(lists, st, st.cur); }
    if op.Register? {
      RegisterIsFresh(st);
      NotRegistered(st, op.w);
    }
  }

  lemma DisturbDemands(lists: map<ListId, seq<Node>>, st: State, e: Event)
    requires Inv(st) && Enabled(st, e) && Shows(lists, st)
    ensures OnNone(lists, ThreadElem(st.cur)) && OnNone(lists, ThreadElem(st.tids))
    ensures e.Exit? ==> st.ready != [] || st.idle.Some?
    ensures e.Irq? ==> WakesBlocked(st, Plain(e.n))
  {
    SomeoneNext(st);
    Unlisted(lists, st, st.cur);
    Unlisted(lists, st, st.tids);
    if e.Irq? { WakesBlockedInv(st, Plain(e.n)); }
  }
}
