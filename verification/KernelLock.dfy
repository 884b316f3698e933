/** Locks built on semaphores exclude (threads/lock.c). */
module KernelLock {
  import opened Common
  import opened KernelModel

  /** Where a thread stands with respect to one lock.  Between is the short stretch after the
      semaphore was decremented and before it is incremented again in which the thread is not
      (or no longer) the recorded holder. */
  datatype Phase = Outside | Between | Holding

  function PhaseOf(k: Lock, t: Tid): Phase
  {
    if t !in k.inside then Outside else if k.holder == Some(t) then Holding else Between
  }

  /** The pending steps treat lock l properly when started in the given phase: they down its
      semaphore only from outside, up it only after clearing the holder, and touch the wait list of
      a condition variable only while holding the lock that protects it. */
  ghost predicate Legal(code: seq<Op>, l: nat, p: Phase)
    decreases |code|
  {
    if code == [] then p != Between else
      var rest := code[1..];
      match code[0]
      case Down(s) =>
        if s == OfLock(l) then p == Outside && Legal(rest, l, Between) else p != Between && Legal(rest, l, p)
      case Retry(s) =>
        if s == OfLock(l) then p == Outside && Legal(rest, l, Between) else p != Between && Legal(rest, l, p)
      case Up(s) =>
        if s == OfLock(l) then p == Between && Legal(rest, l, Outside) else p != Between && Legal(rest, l, p)
      case SetHolder(k) => if k == l then p == Between && Legal(rest, l, Holding) else p != Between && Legal(rest, l, p)
      case ClearHolder(k) =>
        if k == l then p == Holding && Legal(rest, l, Between) else p != Between && Legal(rest, l, p)
      case Register(c, k, w) => p != Between && (k == l ==> p == Holding) && Legal(rest, l, p)
      case Waited(k, w) => p != Between && (k == l ==> p == Holding) && Legal(rest, l, p)
      case Signal(c, k) => p != Between && (k == l ==> p == Holding) && Legal(rest, l, p)
      case Broadcast(c, k, goal) => p != Between && (k == l ==> p == Holding) && Legal(rest, l, p)
      case _ => p != Between && Legal(rest, l, p)
  }

  /** One unit, either in the semaphore or with the one thread inside. */
  ghost predicate OneUnit(k: Lock, value: nat)
  {
    value + |k.inside| == 1 && (k.holder.Some? ==> k.holder.value in k.inside)
  }

  ghost predicate UnitsOk(locks: map<nat, Lock>, semas: map<SemaId, Sema>)
  {
    forall l :: l in locks ==> OfLock(l) in semas && OneUnit(locks[l], semas[OfLock(l)].value)
  }

  ghost predicate CodesLegal(code: map<Tid, seq<Op>>, locks: map<nat, Lock>)
  {
    forall t, l :: t in code && l in locks ==> Legal(code[t], l, PhaseOf(locks[l], t))
  }

  /** Thread identifiers are never reused, so a stale one is never inside a lock by accident. */
  ghost predicate InsideOld(locks: map<nat, Lock>, tids: nat)
  {
    forall l, t :: l in locks && t in locks[l].inside ==> t < tids
  }

  ghost predicate LocksOfSemas(locks: map<nat, Lock>, semas: map<SemaId, Sema>)
  {
    forall l :: OfLock(l) in semas ==> l in locks
  }

  ghost predicate LockInv(st: State)
  {
    UnitsOk(st.locks, st.semas) && LocksOfSemas(st.locks, st.semas) && CodesLegal(st.code, st.locks) &&
      InsideOld(st.locks, st.tids)
  }

  // ---------------------------------------------------------------- one thread moves

  lemma InsideIsSole(k: Lock, value: nat, t: Tid)
    requires OneUnit(k, value)
    ensures t in k.inside ==> k.inside == {t} && value == 0
    ensures value > 0 ==> k.inside == {}
  {
    if t in k.inside {
      assert |k.inside - {t}| == 0;
    }
  }

  lemma LegalHead(op: Op, rest: seq<Op>, l: nat, p: Phase)
    ensures ([op] + rest)[0] == op && ([op] + rest)[1..] == rest
  {
  }

  /** The running thread's steps changed and at most its own phase with respect to each lock. */
  lemma OneMoves(code: map<Tid, seq<Op>>, locks: map<nat, Lock>, locks': map<nat, Lock>, t: Tid, next: seq<Op>)
    requires CodesLegal(code, locks) && locks'.Keys == locks.Keys
    requires forall l, u :: l in locks && u != t ==> PhaseOf(locks'[l], u) == PhaseOf(locks[l], u)
    requires forall l :: l in locks ==> Legal(next, l, PhaseOf(locks'[l], t))
    ensures CodesLegal(code[t := next], locks')
  {
  }

  /** Steps that change no lock. */
  lemma Plainly(st: State, next: seq<Op>)
    requires LockInv(st) && (forall l :: l in st.locks ==> Legal(next, l, PhaseOf(st.locks[l], st.cur)))
    ensures CodesLegal(st.code[st.cur := next], st.locks)
  {
    OneMoves(st.code, st.locks, st.locks, st.cur, next);
  }

  ghost predicate Moving(st: State, op: Op, rest: seq<Op>)
  {
    LockInv(st) && st.cur in st.code && st.cur < st.tids && st.code[st.cur] == [op] + rest && Known(st, op)
  }

  lemma HeadLegal(st: State, op: Op, rest: seq<Op>, l: nat)
    requires Moving(st, op, rest) && l in st.locks
    ensures Legal([op] + rest, l, PhaseOf(st.locks[l], st.cur))
    ensures ([op] + rest)[0] == op && ([op] + rest)[1..] == rest
  {
    LegalHead(op, rest, l, Outside);
  }

  lemma TakeUnitAt(st: State, s: SemaId, op: Op, rest: seq<Op>, l: nat)
    requires Moving(st, op, rest) && (op == Down(s) || op == Retry(s)) && st.semas[s].value > 0 && l in st.locks
    ensures var k', value := Enter(st.locks, s, st.cur)[l], st.semas[OfLock(l)].value;
            && Legal(rest, l, PhaseOf(k', st.cur)) && OneUnit(k', if s == OfLock(l) then value - 1 else value)
            && (forall u :: u != st.cur ==> PhaseOf(k', u) == PhaseOf(st.locks[l], u))
            && (forall u :: u in k'.inside ==> u in st.locks[l].inside || u == st.cur)
  {
    HeadLegal(st, op, rest, l);
    if s == OfLock(l) {
      InsideIsSole(st.locks[l], st.semas[s].value, st.cur);
      assert Enter(st.locks, s, st.cur)[l].inside == {st.cur};
    }
  }

  lemma TakeUnitCodes(st: State, s: SemaId, op: Op, rest: seq<Op>)
    requires Moving(st, op, rest) && (op == Down(s) || op == Retry(s)) && st.semas[s].value > 0
    ensures CodesLegal(st.code[st.cur := rest], Enter(st.locks, s, st.cur))
  {
    var locks' := Enter(st.locks, s, st.cur);
    forall l | l in st.locks
      ensures Legal(rest, l, PhaseOf(locks'[l], st.cur))
      ensures forall u :: u != st.cur ==> PhaseOf(locks'[l], u) == PhaseOf(st.locks[l], u)
    {
      TakeUnitAt(st, s, op, rest, l);
    }
    OneMoves(st.code, st.locks, locks', st.cur, rest);
  }

  /** Taking the unit of a lock's semaphore moves the thread inside; nobody else was there. */
  lemma TakeUnit(st: State, s: SemaId, op: Op, rest: seq<Op>)
    requires Moving(st, op, rest) && (op == Down(s) || op == Retry(s)) && st.semas[s].value > 0
    ensures LockInv(DownOnce(st, s, rest))
  {
    TakeUnitCodes(st, s, op, rest);
    var st' := DownOnce(st, s, rest);
    forall l | l in st.locks
      ensures OneUnit(st'.locks[l], st'.semas[OfLock(l)].value)
      ensures forall u :: u in st'.locks[l].inside ==> u in st.locks[l].inside || u == st.cur
    {
      TakeUnitAt(st, s, op, rest, l);
    }
  }

  /** A thread that finds no unit is where it was, one step further into semaphore_down. */
  lemma FindNoUnit(st: State, s: SemaId, op: Op, rest: seq<Op>)
    requires Moving(st, op, rest) && (op == Down(s) || op == Retry(s)) && st.semas[s].value == 0
    ensures LockInv(DownOnce(st, s, rest))
  {
    forall l | l in st.locks
      ensures Legal([Retry(s)] + rest, l, PhaseOf(st.locks[l], st.cur))
    {
      HeadLegal(st, op, rest, l);
      LegalHead(Retry(s), rest, l, Outside);
    }
    Plainly(st, [Retry(s)] + rest);
    var st' := DownOnce(st, s, rest);
    assert st'.code == st.code[st.cur := [Retry(s)] + rest] && st'.locks == st.locks;
    assert UnitsOk(st'.locks, st'.semas);
  }

  lemma PostPlain(st: State, s: SemaId)
    requires LockInv(st) && s in st.semas && !s.OfLock?
    ensures LockInv(PostUp(st, s))
    ensures PostUp(st, s).code == st.code && PostUp(st, s).locks == st.locks
    ensures PostUp(st, s).tids == st.tids && PostUp(st, s).cur == st.cur
  {
    var st' := PostUp(st, s);
    assert forall l :: l in st.locks ==> st'.semas[OfLock(l)] == st.semas[OfLock(l)];
  }

  /** Giving the unit back takes the thread out of the lock. */
  lemma ReturnUnit(st: State, k: nat, rest: seq<Op>)
    requires Moving(st, Up(OfLock(k)), rest)
    ensures LockInv(Continue(PostUp(st, OfLock(k)), rest))
  {
    var s, op := OfLock(k), Up(OfLock(k));
    var st' := PostUp(st, s);
    forall l | l in st.locks
      ensures Legal(rest, l, PhaseOf(st'.locks[l], st.cur)) && OneUnit(st'.locks[l], st'.semas[OfLock(l)].value)
      ensures forall u :: u != st.cur ==> PhaseOf(st'.locks[l], u) == PhaseOf(st.locks[l], u)
      ensures forall u :: u in st'.locks[l].inside ==> u in st.locks[l].inside
    {
      HeadLegal(st, op, rest, l);
      if l == k {
        InsideIsSole(st.locks[l], st.semas[s].value, st.cur);
        assert st'.locks[l].inside == {};
      }
    }
    OneMoves(st.code, st.locks, st'.locks, st.cur, rest);
  }

  /** Recording or clearing the holder happens inside the lock. */
  lemma ChangeHolder(st: State, k: nat, op: Op, rest: seq<Op>, h: Option<Tid>)
    requires Moving(st, op, rest) && (if h.Some? then op == SetHolder(k) && h == Some(st.cur) else op == ClearHolder(k))
    ensures LockInv(Continue(SetLockHolder(st, k, h), rest))
  {
    var locks' := SetLockHolder(st, k, h).locks;
    forall l | l in st.locks
      ensures Legal(rest, l, PhaseOf(locks'[l], st.cur)) && OneUnit(locks'[l], st.semas[OfLock(l)].value)
      ensures forall u :: u != st.cur ==> PhaseOf(locks'[l], u) == PhaseOf(st.locks[l], u)
    {
      HeadLegal(st, op, rest, l);
      if l == k { InsideIsSole(st.locks[l], st.semas[OfLock(l)].value, st.cur); }
    }
    OneMoves(st.code, st.locks, locks', st.cur, rest);
  }

  /** Steps on condition variables leave every lock alone. */
  lemma CondStep(st: State, op: Op, rest: seq<Op>)
    requires Moving(st, op, rest) && (op.Register? || op.Waited? || op.Signal? || op.Broadcast? || op.SetIdle?)
    ensures LockInv(Exec(st, op, rest))
  {
    var st' := Exec(st, op, rest);
    forall l | l in st.locks
      ensures Legal(st'.code[st.cur], l, PhaseOf(st.locks[l], st.cur))
    {
      HeadLegal(st, op, rest, l);
      CondCodes(op, rest, l, PhaseOf(st.locks[l], st.cur));
    }
    Plainly(st, st'.code[st.cur]);
    CondSame(st, op, rest);
  }

  lemma CondSame(st: State, op: Op, rest: seq<Op>)
    requires Known(st, op) && (op.Register? || op.Waited? || op.Signal? || op.Broadcast? || op.SetIdle?)
    ensures var st' := Exec(st, op, rest);
            && st'.locks == st.locks && st'.tids == st.tids && st'.code.Keys == st.code.Keys + {st.cur}
            && (forall l :: OfLock(l) in st'.semas <==> OfLock(l) in st.semas)
            && (forall l :: OfLock(l) in st.semas ==> st'.semas[OfLock(l)] == st.semas[OfLock(l)])
  {
  }

  lemma CondCodes(op: Op, rest: seq<Op>, l: nat, p: Phase)
    requires op.Register? || op.Waited? || op.Signal? || op.Broadcast? || op.SetIdle?
    requires Legal([op] + rest, l, p)
    ensures Legal(rest, l, p)
    ensures forall w :: Legal([Up(Waiter(w))] + rest, l, p)
    ensures op.Broadcast? ==> Legal([Signal(op.c, op.l), op] + rest, l, p)
  {
    assert ([op] + rest)[1..] == rest;
    forall w ensures Legal([Up(Waiter(w))] + rest, l, p) {
      assert ([Up(Waiter(w))] + rest)[1..] == rest;
    }
    if op.Broadcast? {
      assert ([Signal(op.c, op.l), op] + rest)[1..] == [op] + rest;
    }
  }

  // ---------------------------------------------------------------- every step

  lemma RunLock(st: State, op: Op, rest: seq<Op>)
    requires Moving(st, op, rest)
    ensures LockInv(Exec(st, op, rest))
  {
    match op
    case Down(s) => if st.semas[s].value > 0 { TakeUnit(st, s, op, rest); } else { FindNoUnit(st, s, op, rest); }
    case Retry(s) => if st.semas[s].value > 0 { TakeUnit(st, s, op, rest); } else { FindNoUnit(st, s, op, rest); }
    case Up(s) =>
      if s.OfLock? {
        ReturnUnit(st, s.lock, rest);
      } else {
        UpElsewhere(st, s, rest);
      }
    case SetHolder(l) => ChangeHolder(st, l, op, rest, Some(st.cur));
    case ClearHolder(l) => ChangeHolder(st, l, op, rest, None);
    case IdleLoop =>
    case _ => CondStep(st, op, rest);
  }

  lemma UpElsewhere(st: State, s: SemaId, rest: seq<Op>)
    requires Moving(st, Up(s), rest) && !s.OfLock?
    ensures LockInv(Continue(PostUp(st, s), rest))
  {
    PostPlain(st, s);
    forall l | l in st.locks
      ensures Legal(rest, l, PhaseOf(st.locks[l], st.cur))
    {
      HeadLegal(st, Up(s), rest, l);
    }
    Plainly(PostUp(st, s), rest);
  }

  lemma ClientLegal(l: nat, p: Phase)
    requires p != Between
    ensures forall n :: Legal([Down(Plain(n))], l, p) && Legal([Up(Plain(n))], l, p)
    ensures forall k :: (k == l ==> p == Outside) ==> Legal(AcquireCode(k), l, p)
    ensures forall k :: (k == l ==> p == Holding) ==> Legal(ReleaseCode(k), l, p)
    ensures forall c, k :: (k == l ==> p == Holding) ==> Legal([Signal(c, k)], l, p)
    ensures forall c, k, g :: (k == l ==> p == Holding) ==> Legal([Broadcast(c, k, g)], l, p)
  {
    assert Legal([], l, Outside) && Legal([], l, Holding);
    forall c, k | k == l ==> p == Holding ensures Legal([Signal(c, k)], l, p) {
      assert [Signal(c, k)][1..] == [];
    }
    forall c, k, g | k == l ==> p == Holding ensures Legal([Broadcast(c, k, g)], l, p) {
      assert [Broadcast(c, k, g)][1..] == [];
    }
    forall k | k == l ==> p == Outside ensures Legal(AcquireCode(k), l, p) {
      LegalHead(Down(OfLock(k)), [SetHolder(k)], l, p);
    }
    forall k | k == l ==> p == Holding ensures Legal(ReleaseCode(k), l, p) {
      LegalHead(ClearHolder(k), [Up(OfLock(k))], l, p);
    }
  }

  lemma AgainLegal(l: nat, p: Phase, k: nat, w: nat)
    requires p != Between && (k == l ==> p == Holding)
    ensures Legal(AcquireCode(k) + [Waited(k, w)], l, if k == l then Outside else p)
  {
    var tail := [Waited(k, w)];
    assert Legal(tail, l, p);
    LegalHead(SetHolder(k), tail, l, p);
    assert Legal([SetHolder(k)] + tail, l, if k == l then Between else p);
    assert AcquireCode(k) + tail == [Down(OfLock(k))] + ([SetHolder(k)] + tail);
    LegalHead(Down(OfLock(k)), [SetHolder(k)] + tail, l, p);
  }

  /** condvar_wait releases the lock, sleeps outside it, and comes back holding it. */
  lemma WaitLegal(l: nat, p: Phase, c: nat, k: nat, w: nat)
    requires p != Between && (k == l ==> p == Holding)
    ensures Legal(WaitCode(c, k, w), l, p)
  {
    var out := if k == l then Outside else p;
    var again := AcquireCode(k) + [Waited(k, w)];
    AgainLegal(l, p, k, w);
    var asleep := [Down(Waiter(w))] + again;
    LegalHead(Down(Waiter(w)), again, l, p);
    assert Legal(asleep, l, out);
    LegalHead(Up(OfLock(k)), asleep, l, p);
    LegalHead(ClearHolder(k), [Up(OfLock(k))] + asleep, l, p);
    LegalHead(Register(c, k, w), [ClearHolder(k)] + ([Up(OfLock(k))] + asleep), l, p);
    assert WaitCode(c, k, w) == [Register(c, k, w)] + ([ClearHolder(k)] + ([Up(OfLock(k))] + asleep));
  }

  lemma CallLock(st: State, e: Event)
    requires LockInv(st) && InClient(st) && st.cur in st.code && Enabled(st, e)
    requires e.CallDown? || e.CallUp? || e.CallAcquire? || e.CallRelease? || e.CallWait? || e.CallSignal? ||
             e.CallBroadcast?
    ensures LockInv(Next(st, e))
  {
    var next := Next(st, e).code[st.cur];
    forall l | l in st.locks
      ensures Legal(next, l, PhaseOf(st.locks[l], st.cur))
    {
      assert Legal(st.code[st.cur], l, PhaseOf(st.locks[l], st.cur));
      ClientLegal(l, PhaseOf(st.locks[l], st.cur));
      if e.CallWait? { WaitLegal(l, PhaseOf(st.locks[l], st.cur), e.c, st.conds[e.c].lock, |st.owner|); }
    }
    Plainly(st, next);
  }

  lemma LockKeeps(st: State, e: Event)
    requires LockInv(st) && Enabled(st, e) && st.cur in st.code && st.cur < st.tids
    ensures LockInv(Next(st, e))
  {
    match e
    case Run =>
      assert st.code[st.cur] == [Code(st)[0]] + Code(st)[1..];
      RunLock(st, Code(st)[0], Code(st)[1..]);
    case Yield =>
    case Irq(n) => PostPlain(st, Plain(n));
    case Exit =>
    case Spawn => SpawnLock(st);
    case _ => CallLock(st, e);
  }

  lemma SpawnLock(st: State)
    requires LockInv(st)
    ensures LockInv(SpawnThread(st))
  {
    OneMoves(st.code, st.locks, st.locks, st.tids, []);
  }

  lemma LockInit(st: State)
    requires Init(st)
    ensures LockInv(st)
  {
    forall t, l | t in st.code && l in st.locks
      ensures Legal(st.code[t], l, PhaseOf(st.locks[l], t))
    {
      assert st.locks[l].inside == {};
      ClientLegal(l, Outside);
      IdleLegal(l);
    }
  }

  lemma IdleLegal(l: nat)
    ensures Legal([SetIdle, Up(IDLE_STARTED), IdleLoop], l, Outside)
  {
    assert Legal([], l, Outside);
    assert Legal([IdleLoop], l, Outside);
    LegalHead(Up(IDLE_STARTED), [IdleLoop], l, Outside);
    assert Legal([Up(IDLE_STARTED), IdleLoop], l, Outside);
    LegalHead(SetIdle, [Up(IDLE_STARTED), IdleLoop], l, Outside);
  }
}
