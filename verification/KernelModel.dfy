/** The kernel's threads, semaphores, locks and condition variables as one machine of atomic steps.

    A step is what runs with interrupts disabled, or one access to a shared list or pointer that a
    lock protects.  Each thread carries the steps it still has to take inside the operation it
    called (`code`); an empty `code` is a thread running client code. */
module KernelModel {
  import opened Common

  type Tid = nat

  datatype Status = Running | Ready | Blocked

  /** A semaphore is the client's own, the one inside a lock, or the one on the stack of a waiter. */
  datatype SemaId = Plain(n: nat) | OfLock(lock: nat) | Waiter(w: nat)

  datatype Op =
    | Down(s: SemaId)          // semaphore_down, first test of the value
    | Retry(s: SemaId)         // semaphore_down, back in the loop after thread_block
    | Up(s: SemaId)            // semaphore_up
    | SetHolder(l: nat)        // lock_acquire, after semaphore_down
    | ClearHolder(l: nat)      // lock_release, before semaphore_up
    | Register(c: nat, l: nat, w: nat)            // condvar_wait, semaphore_init and list_push_back
    | Waited(l: nat, w: nat)                      // condvar_wait, about to return
    | Signal(c: nat, l: nat)                      // condvar_signal, list_pop_front
    | Broadcast(c: nat, l: nat, goal: seq<nat>)   // condvar_broadcast, loop test; goal: the waiters at the call
    | SetIdle                  // idle, recording itself
    | IdleLoop                 // idle, thread_block

  /** init, ups and downs count what happened to the semaphore since it was initialised. */
  datatype Sema = Sema(value: nat, waiters: seq<Tid>, init: nat, ups: nat, downs: nat)

  /** inside: the threads between the end of semaphore_down and the increment in semaphore_up. */
  datatype Lock = Lock(holder: Option<Tid>, inside: set<Tid>)

  /** registered and released log the waiters pushed on and popped off the list. */
  datatype Cond = Cond(lock: nat, waiters: seq<nat>, registered: seq<nat>, released: seq<nat>)

  datatype State = State(
    status: map<Tid, Status>, code: map<Tid, seq<Op>>,
    ready: seq<Tid>, cur: Tid, idle: Option<Tid>, tids: nat,
    semas: map<SemaId, Sema>, locks: map<nat, Lock>, conds: map<nat, Cond>,
    owner: seq<Tid>)           // owner[w]: the thread whose stack holds waiter semaphore w

  const MAIN: Tid := 0
  const IDLE: Tid := 1
  const IDLE_STARTED: SemaId := Plain(0)

  // ---------------------------------------------------------------- the scheduler

  /** The thread at the front of the ready list, or the idle thread.  The last case is the null
      idle pointer, which the scheduler invariant excludes. */
  function NextThread(st: State): Tid
  {
    if st.ready != [] then st.ready[0] else if st.idle.Some? then st.idle.value else st.cur
  }

  function Schedule(st: State): State
  {
    var next := NextThread(st);
    st.(ready := if st.ready == [] then [] else st.ready[1..], cur := next, status := st.status[next := Running])
  }

  function Block(st: State): State
  {
    Schedule(st.(status := st.status[st.cur := Blocked]))
  }

  function Unblock(st: State, t: Tid): State
  {
    st.(ready := st.ready + [t], status := st.status[t := Ready])
  }

  function YieldCpu(st: State): State
  {
    Schedule(st.(status := st.status[st.cur := Ready],
                 ready := if st.idle == Some(st.cur) then st.ready else st.ready + [st.cur]))
  }

  /** The dying thread is unlinked and, once another thread runs, its page is freed. */
  function ExitThread(st: State): State
  {
    Schedule(st.(status := st.status - {st.cur}, code := st.code - {st.cur}))
  }

  function SpawnThread(st: State): State
  {
    Unblock(st.(status := st.status[st.tids := Blocked], code := st.code[st.tids := []], tids := st.tids + 1), st.tids)
  }

  // ---------------------------------------------------------------- semaphores and locks

  function Continue(st: State, rest: seq<Op>): State { st.(code := st.code[st.cur := rest]) }

  function Enter(locks: map<nat, Lock>, s: SemaId, t: Tid): map<nat, Lock>
  {
    if s.OfLock? && s.lock in locks then locks[s.lock := locks[s.lock].(inside := locks[s.lock].inside + {t})]
      else locks
  }

  function Leave(locks: map<nat, Lock>, s: SemaId, t: Tid): map<nat, Lock>
  {
    if s.OfLock? && s.lock in locks then locks[s.lock := locks[s.lock].(inside := locks[s.lock].inside - {t})]
      else locks
  }

  /** The running thread joins the wait list and sleeps; it will look at the value again when it wakes. */
  function Sleep(st: State, s: SemaId, rest: seq<Op>): State
    requires s in st.semas
  {
    var m := st.semas[s];
    Block(Continue(st.(semas := st.semas[s := m.(waiters := m.waiters + [st.cur])]), [Retry(s)] + rest))
  }

  function TakeOne(st: State, s: SemaId, rest: seq<Op>): State
    requires s in st.semas && st.semas[s].value > 0
  {
    var m := st.semas[s];
    Continue(st.(semas := st.semas[s := m.(value := m.value - 1, downs := m.downs + 1)],
                 locks := Enter(st.locks, s, st.cur)), rest)
  }

  /** One turn of the loop in semaphore_down by the running thread. */
  function DownOnce(st: State, s: SemaId, rest: seq<Op>): State
    requires s in st.semas
  {
    if st.semas[s].value == 0 then Sleep(st, s, rest) else TakeOne(st, s, rest)
  }

  /** semaphore_up: wake the first waiter, if any, and count one unit more. */
  function PostUp(st: State, s: SemaId): State
    requires s in st.semas
  {
    var m := st.semas[s];
    var woken := if m.waiters == [] then st else Unblock(st, m.waiters[0]);
    woken.(semas := st.semas[s := m.(value := (m.value + 1) % TWO32, ups := m.ups + 1,
                                     waiters := if m.waiters == [] then [] else m.waiters[1..])],
           locks := Leave(st.locks, s, st.cur))
  }

  function SetLockHolder(st: State, l: nat, h: Option<Tid>): State
    requires l in st.locks
  {
    st.(locks := st.locks[l := st.locks[l].(holder := h)])
  }

  // ---------------------------------------------------------------- condition variables

  function RegisterWaiter(st: State, c: nat, w: nat): State
    requires c in st.conds
  {
    var k := st.conds[c];
    st.(semas := st.semas[Waiter(w) := Sema(0, [], 0, 0, 0)],
        conds := st.conds[c := k.(waiters := k.waiters + [w], registered := k.registered + [w])])
  }

  function PopWaiter(st: State, c: nat): State
    requires c in st.conds && st.conds[c].waiters != []
  {
    var k := st.conds[c];
    st.(conds := st.conds[c := k.(waiters := k.waiters[1..], released := k.released + [k.waiters[0]])])
  }

  // ---------------------------------------------------------------- steps

  /** Everything an operation names exists. */
  predicate Known(st: State, op: Op)
  {
    match op
    case Down(s) => s in st.semas
    case Retry(s) => s in st.semas
    case Up(s) => s in st.semas
    case SetHolder(l) => l in st.locks
    case ClearHolder(l) => l in st.locks
    case Register(c, l, w) => c in st.conds
    case Signal(c, l) => c in st.conds
    case Broadcast(c, l, goal) => c in st.conds
    case _ => true
  }

  /** The running thread takes the next step of the operation it is in. */
  function Exec(st: State, op: Op, rest: seq<Op>): State
    requires Known(st, op)
  {
    match op
    case Down(s) => DownOnce(st, s, rest)
    case Retry(s) => DownOnce(st, s, rest)
    case Up(s) => Continue(PostUp(st, s), rest)
    case SetHolder(l) => Continue(SetLockHolder(st, l, Some(st.cur)), rest)
    case ClearHolder(l) => Continue(SetLockHolder(st, l, None), rest)
    case Register(c, l, w) => Continue(RegisterWaiter(st, c, w), rest)
    case Waited(l, w) => Continue(st, rest)
    case Signal(c, l) =>
      if st.conds[c].waiters == [] then Continue(st, rest)
      else Continue(PopWaiter(st, c), [Up(Waiter(st.conds[c].waiters[0]))] + rest)
    case Broadcast(c, l, goal) =>
      if st.conds[c].waiters == [] then Continue(st, rest)
      else Continue(st, [Signal(c, l), Broadcast(c, l, goal)] + rest)
    case SetIdle => Continue(st.(idle := Some(st.cur)), rest)
    case IdleLoop => Block(st)
  }

  datatype Event =
    | Run                      // the running thread takes its next step
    | Yield                    // the timer preempts it, or it yields
    | Irq(n: nat)              // an interrupt handler ups a client semaphore
    | Exit | Spawn
    | CallDown(n: nat) | CallUp(n: nat)
    | CallAcquire(l: nat) | CallRelease(l: nat)
    | CallWait(c: nat) | CallSignal(c: nat) | CallBroadcast(c: nat)

  function Code(st: State): seq<Op> { if st.cur in st.code then st.code[st.cur] else [] }

  /** A thread resumed inside semaphore_down still has interrupts disabled. */
  predicate IntrOn(st: State) { Code(st) == [] || !Code(st)[0].Retry? }

  predicate InClient(st: State) { st.cur != IDLE && Code(st) == [] }

  predicate Holds(st: State, l: nat) { l in st.locks && st.locks[l].holder == Some(st.cur) }

  /** What the interrupt state and the assertions at the head of each operation ask of the caller. */
  predicate Enabled(st: State, e: Event)
  {
    match e
    case Run => Code(st) != [] && Known(st, Code(st)[0])
    case Yield => IntrOn(st)
    case Irq(n) => IntrOn(st) && Plain(n) in st.semas
    case Exit => InClient(st)
    case Spawn => InClient(st)
    case CallDown(n) => InClient(st) && Plain(n) in st.semas
    case CallUp(n) => InClient(st) && Plain(n) in st.semas
    case CallAcquire(l) => InClient(st) && l in st.locks && !Holds(st, l)
    case CallRelease(l) => InClient(st) && Holds(st, l)
    case CallWait(c) => InClient(st) && c in st.conds && Holds(st, st.conds[c].lock)
    case CallSignal(c) => InClient(st) && c in st.conds && Holds(st, st.conds[c].lock)
    case CallBroadcast(c) => InClient(st) && c in st.conds && Holds(st, st.conds[c].lock)
  }

  function AcquireCode(l: nat): seq<Op> { [Down(OfLock(l)), SetHolder(l)] }

  function ReleaseCode(l: nat): seq<Op> { [ClearHolder(l), Up(OfLock(l))] }

  function WaitCode(c: nat, l: nat, w: nat): seq<Op>
  {
    [Register(c, l, w)] + ReleaseCode(l) + [Down(Waiter(w))] + AcquireCode(l) + [Waited(l, w)]
  }

  function Next(st: State, e: Event): State
    requires Enabled(st, e)
  {
    match e
    case Run => Exec(st, Code(st)[0], Code(st)[1..])
    case Yield => YieldCpu(st)
    case Irq(n) => PostUp(st, Plain(n))
    case Exit => ExitThread(st)
    case Spawn => SpawnThread(st)
    case CallDown(n) => Continue(st, [Down(Plain(n))])
    case CallUp(n) => Continue(st, [Up(Plain(n))])
    case CallAcquire(l) => Continue(st, AcquireCode(l))
    case CallRelease(l) => Continue(st, ReleaseCode(l))
    case CallWait(c) => Continue(st.(owner := st.owner + [st.cur]), WaitCode(c, st.conds[c].lock, |st.owner|))
    case CallSignal(c) => Continue(st, [Signal(c, st.conds[c].lock)])
    case CallBroadcast(c) => Continue(st, [Broadcast(c, st.conds[c].lock, st.conds[c].waiters)])
  }

  /** The event gives the processor away. */
  predicate Schedules(st: State, e: Event)
  {
    match e
    case Run =>
      Code(st) != [] && (Code(st)[0] == IdleLoop ||
      ((Code(st)[0].Down? || Code(st)[0].Retry?) && Code(st)[0].s in st.semas && st.semas[Code(st)[0].s].value == 0))
    case Yield => true
    case Exit => true
    case _ => false
  }

  /** thread_start has created the idle thread and the main thread is about to wait for it.
      Every client semaphore, lock and condition variable is freshly initialised. */
  ghost predicate Init(st: State)
  {
    && st.status == map[MAIN := Running, IDLE := Ready]
    && st.code == map[MAIN := [Down(IDLE_STARTED)], IDLE := [SetIdle, Up(IDLE_STARTED), IdleLoop]]
    && st.ready == [IDLE] && st.cur == MAIN && st.idle == None && st.tids == 2 && st.owner == []
    && IDLE_STARTED in st.semas && st.semas[IDLE_STARTED].value == 0
    && (forall s :: s in st.semas ==>
      !s.Waiter? && st.semas[s] == Sema(st.semas[s].init, [], st.semas[s].init, 0, 0) && st.semas[s].init < TWO32)
    && (forall l :: l in st.locks ==>
      st.locks[l] == Lock(None, {}) && OfLock(l) in st.semas && st.semas[OfLock(l)].init == 1)
    && (forall l :: OfLock(l) in st.semas ==> l in st.locks)
    && (forall c :: c in st.conds ==> st.conds[c].lock in st.locks && st.conds[c] == Cond(st.conds[c].lock, [], [], []))
  }

  /** A run: each state follows from the one before by an enabled event. */
  ghost predicate IsRun(states: seq<State>, events: seq<Event>)
  {
    |states| == |events| + 1 && Init(states[0]) &&
    forall i :: 0 <= i < |events| ==> Enabled(states[i], events[i]) && states[i + 1] == Next(states[i], events[i])
  }
}
