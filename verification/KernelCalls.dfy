/** What a call has done by the time it returns: lock_acquire, lock_release, semaphore_down, semaphore_up, condvar_wait,
    condvar_signal and condvar_broadcast, over whole runs with other threads and interrupts in between. */
module KernelCalls {
  import opened Common
  import opened KernelModel
  import opened KernelSched
  import opened KernelLock
  import opened KernelSema
  import opened KernelWait
  import opened KernelSignal
  import opened KernelRuns
  import opened KernelRegister

  predicate IsCall(e: Event)
  {
    e.CallDown? || e.CallUp? || e.CallAcquire? || e.CallRelease? || e.CallWait? || e.CallSignal? || e.CallBroadcast?
  }

  /** State j is the first after state i in which thread t runs client code. */
  ghost predicate ReturnsAt(states: seq<State>, i: nat, j: nat, t: Tid)
  {
    && i < j < |states| && states[j].cur == t && Code(states[j]) == []
    && forall m :: i < m < j ==> !(states[m].cur == t && Code(states[m]) == [])
  }

  /** Thread t makes the call at step i and returns from it in state j. */
  ghost predicate Calls(states: seq<State>, events: seq<Event>, i: nat, j: nat, t: Tid)
  {
    i < |events| < |states| && IsCall(events[i]) && states[i].cur == t && ReturnsAt(states, i, j, t)
  }

  /** An enabled event in a state that satisfies the invariant. */
  ghost predicate Sound(st: State, e: Event, st': State) { Inv(st) && Enabled(st, e) && st' == Next(st, e) }

  ghost predicate SoundAt(states: seq<State>, events: seq<Event>, m: int)
    requires 0 <= m < |events| < |states|
  {
    Sound(states[m], events[m], states[m + 1])
  }

  ghost predicate AllSound(states: seq<State>, events: seq<Event>)
  {
    |states| == |events| + 1 && forall m :: 0 <= m < |events| ==> SoundAt(states, events, m)
  }

  /** Every run is such. */
  lemma RunIsSound(states: seq<State>, events: seq<Event>)
    requires IsRun(states, events)
    ensures AllSound(states, events)
  {
    forall m | 0 <= m < |events| ensures SoundAt(states, events, m) { StepIsSound(states, events, m); }
  }

  lemma StepIsSound(states: seq<State>, events: seq<Event>, m: nat)
    requires IsRun(states, events) && m < |events|
    ensures |states| == |events| + 1 && SoundAt(states, events, m)
  {
    Reachable(states, events, m);
    StepOf(states, events, m + 1);
  }

  lemma SoundStep(states: seq<State>, events: seq<Event>, m: nat, st: State, e: Event, st': State)
    requires AllSound(states, events) && 0 < m < |states| && st == states[m - 1] && e == events[m - 1]
    requires st' == states[m]
    ensures Sound(st, e, st')
  {
    assert SoundAt(states, events, m - 1);
  }

  // ---------------------------------------------------------------- what a call is for

  /** How often the caller takes a unit of semaphore s. */
  function DownsBy(e: Event, st: State, s: SemaId): nat
  {
    match e
    case CallDown(n) => if s == Plain(n) then 1 else 0
    case CallAcquire(l) => if s == OfLock(l) then 1 else 0
    case CallWait(c) => if c in st.conds && (s == OfLock(st.conds[c].lock) || s == Waiter(|st.owner|)) then 1 else 0
    case _ => 0
  }

  /** How often the caller ups semaphore s, with the waiters there were at the call. */
  function UpsBy(e: Event, st: State, s: SemaId): nat
  {
    match e
    case CallUp(n) => if s == Plain(n) then 1 else 0
    case CallRelease(l) => if s == OfLock(l) then 1 else 0
    case CallWait(c) => if c in st.conds && s == OfLock(st.conds[c].lock) then 1 else 0
    case CallSignal(c) => if WaitersOf(st, c) != [] && s == Waiter(WaitersOf(st, c)[0]) then 1 else 0
    case CallBroadcast(c) => if s.Waiter? && s.w in WaitersOf(st, c) then 1 else 0
    case _ => 0
  }

  /** Whether the caller holds lock l afterwards. */
  predicate HoldsAfter(e: Event, l: nat, held: bool)
  {
    if e == CallAcquire(l) then true else if e == CallRelease(l) then false else held
  }

  /** The waiters of c that are left, when the caller holds its lock throughout. */
  function WaitersAfter(e: Event, c: nat, ws: seq<nat>): seq<nat>
  {
    if e == CallBroadcast(c) then [] else if e == CallSignal(c) && ws != [] then ws[1..] else ws
  }

  ghost predicate Lowered(st: State, st': State, s: SemaId)
  {
    s in st.semas && s in st'.semas && st'.semas[s].downs == st.semas[s].downs + 1
  }

  ghost predicate Raised(st: State, st': State, s: SemaId)
  {
    s in st.semas && s in st'.semas && st'.semas[s].ups == st.semas[s].ups + 1
  }

  /** The step is thread t's own. */
  predicate Own(st: State, e: Event, t: Tid) { e.Run? && st.cur == t }

  /** The units of s that thread t itself took in steps i to j. */
  ghost function OwnDowns(states: seq<State>, events: seq<Event>, t: Tid, s: SemaId, i: nat, j: nat): nat
    requires j <= |events| < |states|
  {
    if j <= i then 0
    else OwnDowns(states, events, t, s, i, j - 1) +
         if Own(states[j - 1], events[j - 1], t) && Lowered(states[j - 1], states[j], s) then 1 else 0
  }

  /** The ups of s that thread t itself did in steps i to j. */
  ghost function OwnUps(states: seq<State>, events: seq<Event>, t: Tid, s: SemaId, i: nat, j: nat): nat
    requires j <= |events| < |states|
  {
    if j <= i then 0
    else OwnUps(states, events, t, s, i, j - 1) +
         if Own(states[j - 1], events[j - 1], t) && Raised(states[j - 1], states[j], s) then 1 else 0
  }

  // ---------------------------------------------------------------- what pending steps still have to do

  /** Steps on semaphores and holders only, after a registration perhaps. */
  ghost predicate Simple(code: seq<Op>)
  {
    forall i :: 0 <= i < |code| ==>
      (code[i].Down? || code[i].Retry? || code[i].Up? || code[i].SetHolder? || code[i].ClearHolder? || code[i].Waited?
       || (code[i].Register? && i == 0))
  }

  /** The steps inside condvar_signal or condvar_broadcast on c. */
  ghost predicate Signalling(code: seq<Op>, c: nat)
  {
    || (|code| == 1 && ((code[0].Signal? && code[0].c == c) || UpHead(code) || (code[0].Broadcast? && code[0].c == c)))
    || (|code| == 2 && code[1].Broadcast? && code[1].c == c && ((code[0].Signal? && code[0].c == c) || UpHead(code)))
  }

  function DownsLeft(code: seq<Op>, s: SemaId): nat
  {
    if code == [] then 0
    else (if code[0] == Down(s) || code[0] == Retry(s) then 1 else 0) + DownsLeft(code[1..], s)
  }

  function UpsIn(code: seq<Op>, s: SemaId): nat
  {
    if code == [] then 0 else (if code[0] == Up(s) then 1 else 0) + UpsIn(code[1..], s)
  }

  /** The ups that the steps of condvar_signal or condvar_broadcast will do, as the list of waiters stands. */
  ghost function SignalsLeft(ws: seq<nat>, code: seq<Op>, s: SemaId): nat
  {
    if code == [] then 0
    else if code[|code| - 1].Broadcast? then
      (if code[0] == Up(s) then 1 else 0) + (if s.Waiter? && s.w in ws then 1 else 0)
    else if code[0].Signal? then
      (if ws != [] && s == Waiter(ws[0]) then 1 else 0)
    else (if code[0] == Up(s) then 1 else 0)
  }

  ghost function ListLeft(ws: seq<nat>, code: seq<Op>): seq<nat>
  {
    if code == [] then ws
    else if code[|code| - 1].Broadcast? then []
    else if code[0].Signal? && ws != [] then ws[1..]
    else ws
  }

  function WillHold(code: seq<Op>, l: nat, held: bool): bool
  {
    if code == [] then held
    else if code[0] == SetHolder(l) then WillHold(code[1..], l, true)
    else if code[0] == ClearHolder(l) then WillHold(code[1..], l, false)
    else WillHold(code[1..], l, held)
  }

  // ---------------------------------------------------------------- the caller's own steps

  lemma Tails(op: Op, rest: seq<Op>, s: SemaId, l: nat, held: bool)
    ensures DownsLeft([op] + rest, s) == (if op == Down(s) || op == Retry(s) then 1 else 0) + DownsLeft(rest, s)
    ensures UpsIn([op] + rest, s) == (if op == Up(s) then 1 else 0) + UpsIn(rest, s)
    ensures WillHold([op] + rest, l, held) ==
              WillHold(rest, l, if op == SetHolder(l) then true else if op == ClearHolder(l) then false else held)
  {
    assert ([op] + rest)[1..] == rest;
  }

  lemma SimpleTail(op: Op, rest: seq<Op>)
    requires Simple([op] + rest)
    ensures Simple(rest) && Simple([Retry(IDLE_STARTED)] + rest) && forall s :: Simple([Retry(s)] + rest)
    ensures ([op] + rest)[0] == op
  {
    assert ([op] + rest)[0] == op;
    assert forall i :: 0 <= i < |rest| ==> rest[i] == ([op] + rest)[i + 1];
  }

  /** A step of the caller takes a unit exactly if that leaves one less to take. */
  lemma OwnDown(st: State, op: Op, rest: seq<Op>, s: SemaId)
    requires Known(st, op) && st.cur in st.code && st.code[st.cur] == [op] + rest && Simple([op] + rest)
    requires op.Register? ==> Waiter(op.w) !in st.semas
    ensures DownsLeft([op] + rest, s) ==
              DownsLeft(NextCode(st, op, rest), s) + if Lowered(st, Exec(st, op, rest), s) then 1 else 0
  {
    SimpleTail(op, rest);
    Tails(op, rest, s, 0, false);
    if op.Down? || op.Retry? { Tails(Retry(op.s), rest, s, 0, false); }
  }

  lemma OwnUp(st: State, op: Op, rest: seq<Op>, s: SemaId)
    requires Known(st, op) && st.cur in st.code && st.code[st.cur] == [op] + rest && Simple([op] + rest)
    requires op.Register? ==> Waiter(op.w) !in st.semas
    ensures UpsIn([op] + rest, s) ==
              UpsIn(NextCode(st, op, rest), s) + if Raised(st, Exec(st, op, rest), s) then 1 else 0
  {
    SimpleTail(op, rest);
    Tails(op, rest, s, 0, false);
    if op.Down? || op.Retry? { Tails(Retry(op.s), rest, s, 0, false); }
  }

  /** A waiter leaves the list, is upped next, and is not on the list any more. */
  lemma OwnSignal(st: State, op: Op, rest: seq<Op>, c: nat, s: SemaId)
    requires Known(st, op) && st.cur in st.code && st.code[st.cur] == [op] + rest && Signalling([op] + rest, c)
    requires c in st.conds && NoDup(st.conds[c].waiters) && LoopHasWaiter(st, [op] + rest)
    ensures var st', next := Exec(st, op, rest), NextCode(st, op, rest);
            && (next == [] || Signalling(next, c))
            && SignalsLeft(WaitersOf(st, c), [op] + rest, s) ==
                 SignalsLeft(WaitersOf(st', c), next, s) + (if Raised(st, st', s) then 1 else 0)
            && ListLeft(WaitersOf(st, c), [op] + rest) == ListLeft(WaitersOf(st', c), next)
  {
    assert ([op] + rest)[0] == op && (rest != [] ==> ([op] + rest)[1] == rest[0] && rest == [rest[0]]);
    SignalExec(st, op, rest, c, s);
    SignalOps(st, op, rest, c, s);
  }

  /** The code alone, with the list as the step leaves it. */
  lemma SignalOps(st: State, op: Op, rest: seq<Op>, c: nat, s: SemaId)
    requires Known(st, op) && Signalling([op] + rest, c) && ([op] + rest)[0] == op && (rest == [] || rest == [rest[0]])
    requires c in st.conds && NoDup(st.conds[c].waiters) && LoopHasWaiter(st, [op] + rest)
    ensures var ws, next := st.conds[c].waiters, NextCode(st, op, rest);
            var ws' := if op.Signal? && ws != [] then ws[1..] else ws;
            && (next == [] || Signalling(next, c)) && ListLeft(ws, [op] + rest) == ListLeft(ws', next)
            && SignalsLeft(ws, [op] + rest, s) == SignalsLeft(ws', next, s) + (if op == Up(s) then 1 else 0)
  {
    var ws := st.conds[c].waiters;
    if rest == [] { assert [op] + rest == [op]; } else { assert [op] + rest == [op, rest[0]]; }
    if ws != [] { assert ws == [ws[0]] + ws[1..]; }
  }

  /** The ups and the list after one step of a signalling thread. */
  lemma SignalExec(st: State, op: Op, rest: seq<Op>, c: nat, s: SemaId)
    requires Known(st, op) && c in st.conds
    requires UpHead([op]) || (op.Signal? && op.c == c) || (op.Broadcast? && op.c == c)
    ensures Raised(st, Exec(st, op, rest), s) <==> op == Up(s)
    ensures WaitersOf(Exec(st, op, rest), c) ==
              if op.Signal? && WaitersOf(st, c) != [] then WaitersOf(st, c)[1..] else WaitersOf(st, c)
  {
  }

  lemma OwnHold(st: State, op: Op, rest: seq<Op>, l: nat)
    requires Known(st, op) && st.cur in st.code && st.code[st.cur] == [op] + rest && l in st.locks
    ensures l in Exec(st, op, rest).locks
    ensures WillHold([op] + rest, l, st.locks[l].holder == Some(st.cur)) ==
              WillHold(NextCode(st, op, rest), l, Exec(st, op, rest).locks[l].holder == Some(st.cur))
  {
    Tails(op, rest, IDLE_STARTED, l, st.locks[l].holder == Some(st.cur));
    var held := Exec(st, op, rest).locks[l].holder == Some(st.cur);
    match op
    case Down(x) => Tails(Retry(x), rest, IDLE_STARTED, l, held);
    case Retry(x) => Tails(Retry(x), rest, IDLE_STARTED, l, held);
    case Signal(c, k) =>
      if st.conds[c].waiters != [] { Tails(Up(Waiter(st.conds[c].waiters[0])), rest, IDLE_STARTED, l, held); }
    case Broadcast(c, k, goal) => LoopHold(op, rest, l, held);
    case IdleLoop => Tails(op, rest, IDLE_STARTED, l, held);
    case _ =>
  }

  lemma LoopHold(op: Op, rest: seq<Op>, l: nat, held: bool)
    requires op.Broadcast?
    ensures WillHold([Signal(op.c, op.l), op] + rest, l, held) == WillHold(rest, l, held)
  {
    Tails(op, rest, IDLE_STARTED, l, held);
    Tails(Signal(op.c, op.l), [op] + rest, IDLE_STARTED, l, held);
    assert [Signal(op.c, op.l), op] + rest == [Signal(op.c, op.l)] + ([op] + rest);
  }

  // ---------------------------------------------------------------- everybody else's steps

  /** Who runs a step on lock l is recorded as its holder, or on the way to be. */
  lemma OnlyHolder(st: State, op: Op, l: nat, t: Tid)
    requires LockInv(st) && Code(st) != [] && Code(st)[0] == op && t != st.cur && l in st.locks
    requires st.locks[l].holder == Some(t)
    ensures op != SetHolder(l) && op != ClearHolder(l)
    ensures (op.Register? || op.Signal?) ==> op.l != l
  {
    var k := st.locks[l];
    assert Legal(st.code[st.cur], l, PhaseOf(k, st.cur));
    InsideIsSole(k, st.semas[OfLock(l)].value, t);
  }

  lemma OthersHold(st: State, e: Event, l: nat, t: Tid)
    requires Inv(st) && Enabled(st, e) && l in st.locks && !Own(st, e, t)
    ensures l in Next(st, e).locks
    ensures Next(st, e).locks[l].holder == Some(t) <==> st.locks[l].holder == Some(t)
  {
    if e.Run? {
      if st.locks[l].holder == Some(t) { OnlyHolder(st, Code(st)[0], l, t); }
      HolderAfter(st, Code(st)[0], Code(st)[1..], l);
    }
  }

  lemma HolderAfter(st: State, op: Op, rest: seq<Op>, l: nat)
    requires Known(st, op) && l in st.locks
    ensures l in Exec(st, op, rest).locks
    ensures Exec(st, op, rest).locks[l].holder ==
              if op == SetHolder(l) then Some(st.cur) else if op == ClearHolder(l) then None else st.locks[l].holder
  {
  }

  /** Nobody else touches the waiters of a condition variable whose lock thread t holds. */
  lemma OthersList(st: State, e: Event, c: nat, t: Tid)
    requires Inv(st) && Enabled(st, e) && c in st.conds && !Own(st, e, t)
    requires st.conds[c].lock in st.locks && st.locks[st.conds[c].lock].holder == Some(t)
    ensures WaitersOf(Next(st, e), c) == WaitersOf(st, c)
  {
    if e.Run? {
      OnlyHolder(st, Code(st)[0], st.conds[c].lock, t);
      assert RefsOk(st, st.code[st.cur]) && RefOk(st, Code(st)[0]);
    }
    ListAfter(st, e, c);
  }

  lemma OthersSteps(st: State, e: Event, t: Tid)
    requires Inv(st) && Enabled(st, e) && t in st.code && st.code[t] != [] && !Own(st, e, t)
    ensures t in Next(st, e).code && Next(st, e).code[t] == st.code[t]
  {
    if t == st.cur {
      assert e.Yield? || e.Irq?;
    } else {
      if e.Run? { RunCode(st); }
      OthersCode(st, e, t);
    }
  }

  // ---------------------------------------------------------------- one step of a call

  ghost predicate Shape(e: Event, code: seq<Op>)
  {
    match e
    case CallSignal(c) => code == [] || Signalling(code, c)
    case CallBroadcast(c) => code == [] || Signalling(code, c)
    case _ => Simple(code)
  }

  ghost function UpsLeft(e: Event, st: State, code: seq<Op>, s: SemaId): nat
  {
    match e
    case CallSignal(c) => SignalsLeft(WaitersOf(st, c), code, s)
    case CallBroadcast(c) => SignalsLeft(WaitersOf(st, c), code, s)
    case _ => UpsIn(code, s)
  }

  /** The call names what exists, and the caller of condvar_signal and condvar_broadcast has the lock. */
  ghost predicate Keeps(call: Event, st: State, t: Tid)
  {
    call.CallSignal? || call.CallBroadcast? ==>
      call.c in st.conds && st.conds[call.c].lock in st.locks && st.locks[st.conds[call.c].lock].holder == Some(t)
  }

  lemma KeepsOn(call: Event, st: State, e: Event, t: Tid)
    requires Inv(st) && Enabled(st, e) && t in st.code && st.code[t] != [] && Shape(call, st.code[t])
    requires Keeps(call, st, t)
    ensures Keeps(call, Next(st, e), t)
  {
    if call.CallSignal? || call.CallBroadcast? {
      NextGrows(st, e);
      var l := st.conds[call.c].lock;
      if Own(st, e, t) { SignallerHolds(st, call.c, l); } else { OthersHold(st, e, l, t); }
    }
  }

  lemma SignallerHolds(st: State, c: nat, l: nat)
    requires Enabled(st, Run) && Signalling(Code(st), c) && l in st.locks && st.locks[l].holder == Some(st.cur)
    ensures l in Next(st, Run).locks && Next(st, Run).locks[l].holder == Some(st.cur)
  {
    HolderAfter(st, Code(st)[0], Code(st)[1..], l);
  }

  /** Only the caller's own step can be the last of the call, and it is then still running. */
  lemma ShapeKeeps(call: Event, st: State, e: Event, t: Tid)
    requires Inv(st) && Enabled(st, e) && t in st.code && st.code[t] != [] && Shape(call, st.code[t])
    requires Keeps(call, st, t)
    ensures t in Next(st, e).code && Shape(call, Next(st, e).code[t])
    ensures Next(st, e).code[t] == [] ==> Own(st, e, t) && Next(st, e).cur == t
  {
    if Own(st, e, t) {
      ListReady(call, st, t);
      OwnShape(call, st, Code(st)[0], Code(st)[1..]);
      RunCode(st);
    } else {
      OthersSteps(st, e, t);
    }
  }

  lemma OwnShape(call: Event, st: State, op: Op, rest: seq<Op>)
    requires Known(st, op) && st.cur in st.code && st.code[st.cur] == [op] + rest && Shape(call, [op] + rest)
    requires GoodList(call, st, st.cur)
    ensures Shape(call, NextCode(st, op, rest))
    ensures NextCode(st, op, rest) == [] ==> Exec(st, op, rest).cur == st.cur
  {
    assert ([op] + rest)[0] == op;
    if call.CallSignal? || call.CallBroadcast? {
      OwnSignal(st, op, rest, call.c, IDLE_STARTED);
    } else {
      SimpleTail(op, rest);
    }
    StaysOn(st, op, rest);
  }

  lemma StaysOn(st: State, op: Op, rest: seq<Op>)
    requires Known(st, op)
    ensures NextCode(st, op, rest) == [] ==> Exec(st, op, rest).cur == st.cur
  {
  }

  lemma StepDowns(call: Event, st: State, e: Event, t: Tid, s: SemaId)
    requires Inv(st) && Enabled(st, e) && t in st.code && st.code[t] != [] && Shape(call, st.code[t])
    ensures t in Next(st, e).code
    ensures DownsLeft(st.code[t], s) ==
              DownsLeft(Next(st, e).code[t], s) + if Own(st, e, t) && Lowered(st, Next(st, e), s) then 1 else 0
  {
    if Own(st, e, t) {
      RegisterIsFresh(st);
      CallerDown(call, st, s);
    } else {
      OthersSteps(st, e, t);
    }
  }

  lemma CallerDown(call: Event, st: State, s: SemaId)
    requires Enabled(st, Run) && st.cur in st.code && Shape(call, st.code[st.cur]) && FreshRegister(st)
    ensures st.cur in Next(st, Run).code
    ensures DownsLeft(st.code[st.cur], s) ==
              DownsLeft(Next(st, Run).code[st.cur], s) + if Lowered(st, Next(st, Run), s) then 1 else 0
  {
    var op, rest := Code(st)[0], Code(st)[1..];
    assert st.code[st.cur] == [op] + rest;
    RunCode(st);
    if call.CallSignal? || call.CallBroadcast? { NoDowns(st, op, rest, call.c, s); } else { OwnDown(st, op, rest, s); }
  }

  lemma NoDowns(st: State, op: Op, rest: seq<Op>, c: nat, s: SemaId)
    requires Known(st, op) && st.cur in st.code && st.code[st.cur] == [op] + rest && Signalling([op] + rest, c)
    ensures DownsLeft([op] + rest, s) == 0 && DownsLeft(NextCode(st, op, rest), s) == 0
    ensures !Lowered(st, Exec(st, op, rest), s)
  {
    assert ([op] + rest)[0] == op && (rest != [] ==> ([op] + rest)[1] == rest[0] && rest == [rest[0]]);
    NoDownsIn([op] + rest, s);
    NoDownsIn(NextCode(st, op, rest), s);
  }

  lemma {:induction false} NoDownsIn(code: seq<Op>, s: SemaId)
    requires forall i :: 0 <= i < |code| ==> !code[i].Down? && !code[i].Retry?
    ensures DownsLeft(code, s) == 0
  {
    if code != [] { NoDownsIn(code[1..], s); }
  }

  lemma StepUps(call: Event, st: State, e: Event, t: Tid, s: SemaId)
    requires Inv(st) && Enabled(st, e) && t in st.code && st.code[t] != [] && Shape(call, st.code[t])
    requires Keeps(call, st, t)
    ensures t in Next(st, e).code
    ensures UpsLeft(call, st, st.code[t], s) ==
              UpsLeft(call, Next(st, e), Next(st, e).code[t], s) +
              if Own(st, e, t) && Raised(st, Next(st, e), s) then 1 else 0
  {
    if Own(st, e, t) {
      RegisterIsFresh(st);
      ListReady(call, st, t);
      CallerUp(call, st, s);
    } else {
      OthersSteps(st, e, t);
      if call.CallSignal? || call.CallBroadcast? { OthersList(st, e, call.c, t); }
    }
  }

  /** What condvar_signal and condvar_broadcast find on their list. */
  ghost predicate GoodList(call: Event, st: State, t: Tid)
  {
    (call.CallSignal? || call.CallBroadcast?) && t in st.code ==>
      call.c in st.conds && NoDup(st.conds[call.c].waiters) && LoopHasWaiter(st, st.code[t])
  }

  lemma ListReady(call: Event, st: State, t: Tid)
    requires SignalInv(st) && GoalsInv(st) && Keeps(call, st, t)
    ensures GoodList(call, st, t)
  {
  }

  lemma CallerUp(call: Event, st: State, s: SemaId)
    requires Enabled(st, Run) && st.cur in st.code && Shape(call, st.code[st.cur]) && FreshRegister(st)
    requires GoodList(call, st, st.cur)
    ensures st.cur in Next(st, Run).code
    ensures UpsLeft(call, st, st.code[st.cur], s) ==
              UpsLeft(call, Next(st, Run), Next(st, Run).code[st.cur], s) +
              if Raised(st, Next(st, Run), s) then 1 else 0
  {
    var op, rest := Code(st)[0], Code(st)[1..];
    assert st.code[st.cur] == [op] + rest;
    RunCode(st);
    if call.CallSignal? || call.CallBroadcast? { OwnSignal(st, op, rest, call.c, s); } else { OwnUp(st, op, rest, s); }
  }

  lemma StepHold(st: State, e: Event, t: Tid, l: nat)
    requires Inv(st) && Enabled(st, e) && t in st.code && st.code[t] != [] && l in st.locks
    ensures t in Next(st, e).code && l in Next(st, e).locks
    ensures WillHold(st.code[t], l, st.locks[l].holder == Some(t)) ==
              WillHold(Next(st, e).code[t], l, Next(st, e).locks[l].holder == Some(t))
  {
    if Own(st, e, t) {
      CallerHold(st, l);
    } else {
      OthersSteps(st, e, t);
      OthersHold(st, e, l, t);
    }
  }

  lemma CallerHold(st: State, l: nat)
    requires Enabled(st, Run) && st.cur in st.code && l in st.locks
    ensures st.cur in Next(st, Run).code && l in Next(st, Run).locks
    ensures WillHold(st.code[st.cur], l, st.locks[l].holder == Some(st.cur)) ==
              WillHold(Next(st, Run).code[st.cur], l, Next(st, Run).locks[l].holder == Some(st.cur))
  {
    assert st.code[st.cur] == [Code(st)[0]] + Code(st)[1..];
    RunCode(st);
    OwnHold(st, Code(st)[0], Code(st)[1..], l);
  }

  lemma CallerList(call: Event, st: State)
    requires Enabled(st, Run) && st.cur in st.code && Shape(call, st.code[st.cur]) && GoodList(call, st, st.cur)
    requires call.CallSignal? || call.CallBroadcast?
    ensures st.cur in Next(st, Run).code
    ensures ListLeft(WaitersOf(st, call.c), st.code[st.cur]) ==
              ListLeft(WaitersOf(Next(st, Run), call.c), Next(st, Run).code[st.cur])
  {
    assert st.code[st.cur] == [Code(st)[0]] + Code(st)[1..];
    RunCode(st);
    OwnSignal(st, Code(st)[0], Code(st)[1..], call.c, IDLE_STARTED);
  }

  lemma StepList(call: Event, st: State, e: Event, t: Tid)
    requires Inv(st) && Enabled(st, e) && t in st.code && st.code[t] != [] && Shape(call, st.code[t])
    requires Keeps(call, st, t)
    requires call.CallSignal? || call.CallBroadcast?
    ensures t in Next(st, e).code
    ensures ListLeft(WaitersOf(st, call.c), st.code[t]) == ListLeft(WaitersOf(Next(st, e), call.c), Next(st, e).code[t])
  {
    if Own(st, e, t) {
      ListReady(call, st, t);
      CallerList(call, st);
    } else {
      OthersSteps(st, e, t);
      OthersList(st, e, call.c, t);
    }
  }

  // ---------------------------------------------------------------- the first step of a call

  lemma LockAgain(l: nat, w: nat, s: SemaId, k: nat, held: bool)
    ensures var code := [Down(OfLock(l)), SetHolder(l), Waited(l, w)];
            && DownsLeft(code, s) == (if s == OfLock(l) then 1 else 0) && UpsIn(code, s) == 0
            && WillHold(code, k, held) == if k == l then true else held
  {
    var a := [Waited(l, w)];
    var b := [SetHolder(l)] + a;
    assert a == [Waited(l, w)] + [] && [Down(OfLock(l)), SetHolder(l), Waited(l, w)] == [Down(OfLock(l))] + b;
    Tails(Down(OfLock(l)), b, s, k, held);
    Tails(SetHolder(l), a, s, k, held);
    Tails(Waited(l, w), [], s, k, if k == l then true else held);
  }

  lemma WaitSteps(c: nat, l: nat, w: nat, s: SemaId, k: nat, held: bool)
    ensures DownsLeft(WaitCode(c, l, w), s) == (if s == Waiter(w) then 1 else 0) + (if s == OfLock(l) then 1 else 0)
    ensures UpsIn(WaitCode(c, l, w), s) == if s == OfLock(l) then 1 else 0
    ensures WillHold(WaitCode(c, l, w), k, held) == if k == l then true else held
  {
    var d := [Down(OfLock(l)), SetHolder(l), Waited(l, w)];
    var f := [Down(Waiter(w))] + d;
    var g := [Up(OfLock(l))] + f;
    var h := [ClearHolder(l)] + g;
    assert WaitCode(c, l, w) == [Register(c, l, w)] + h;
    var out := if k == l then false else held;
    Tails(Register(c, l, w), h, s, k, held);
    Tails(ClearHolder(l), g, s, k, held);
    Tails(Up(OfLock(l)), f, s, k, out);
    Tails(Down(Waiter(w)), d, s, k, out);
    LockAgain(l, w, s, k, out);
  }

  lemma OneStep(a: Op, s: SemaId, k: nat, held: bool)
    ensures DownsLeft([a], s) == if a == Down(s) || a == Retry(s) then 1 else 0
    ensures UpsIn([a], s) == if a == Up(s) then 1 else 0
    ensures WillHold([a], k, held) == if a == SetHolder(k) then true else if a == ClearHolder(k) then false else held
  {
    assert [a] == [a] + [];
    Tails(a, [], s, k, held);
  }

  lemma TwoSteps(a: Op, b: Op, s: SemaId, k: nat, held: bool)
    ensures DownsLeft([a, b], s) == DownsLeft([a], s) + DownsLeft([b], s)
    ensures UpsIn([a, b], s) == UpsIn([a], s) + UpsIn([b], s)
    ensures WillHold([a, b], k, held) == WillHold([b], k, WillHold([a], k, held))
  {
    assert [a, b] == [a] + [b];
    Tails(a, [b], s, k, held);
    OneStep(a, s, k, held);
    OneStep(b, s, k, WillHold([a], k, held));
  }

  /** The steps a call begins with. */
  ghost function StepsOf(e: Event, st: State): seq<Op>
    requires IsCall(e) && Enabled(st, e)
  {
    match e
    case CallDown(n) => [Down(Plain(n))]
    case CallUp(n) => [Up(Plain(n))]
    case CallAcquire(l) => [Down(OfLock(l)), SetHolder(l)]
    case CallRelease(l) => [ClearHolder(l), Up(OfLock(l))]
    case CallWait(c) => WaitCode(c, st.conds[c].lock, |st.owner|)
    case CallSignal(c) => [Signal(c, st.conds[c].lock)]
    case CallBroadcast(c) => [Broadcast(c, st.conds[c].lock, st.conds[c].waiters)]
  }

  lemma Begins(st: State, e: Event)
    requires Enabled(st, e) && IsCall(e)
    ensures var st' := Next(st, e);
            st.cur in st'.code && st'.code[st.cur] == StepsOf(e, st) && st'.cur == st.cur && st'.locks == st.locks &&
              st'.conds == st.conds
  {
  }

  lemma StepsDowns(e: Event, st: State, s: SemaId)
    requires IsCall(e) && Enabled(st, e)
    ensures DownsLeft(StepsOf(e, st), s) == DownsBy(e, st, s)
  {
    match e
    case CallDown(n) => OneStep(Down(Plain(n)), s, 0, false);
    case CallUp(n) => OneStep(Up(Plain(n)), s, 0, false);
    case CallAcquire(k) =>
      TwoSteps(Down(OfLock(k)), SetHolder(k), s, 0, false);
      OneStep(Down(OfLock(k)), s, 0, false);
      OneStep(SetHolder(k), s, 0, false);
    case CallRelease(k) =>
      TwoSteps(ClearHolder(k), Up(OfLock(k)), s, 0, false);
      OneStep(ClearHolder(k), s, 0, false);
      OneStep(Up(OfLock(k)), s, 0, false);
    case CallWait(c) => WaitSteps(c, st.conds[c].lock, |st.owner|, s, 0, false);
    case CallSignal(c) => OneStep(Signal(c, st.conds[c].lock), s, 0, false);
    case CallBroadcast(c) => OneStep(Broadcast(c, st.conds[c].lock, st.conds[c].waiters), s, 0, false);
  }

  lemma StepsUps(e: Event, st: State, s: SemaId)
    requires IsCall(e) && Enabled(st, e)
    ensures UpsLeft(e, st, StepsOf(e, st), s) == UpsBy(e, st, s)
  {
    match e
    case CallDown(n) => OneStep(Down(Plain(n)), s, 0, false);
    case CallUp(n) => OneStep(Up(Plain(n)), s, 0, false);
    case CallAcquire(k) =>
      TwoSteps(Down(OfLock(k)), SetHolder(k), s, 0, false);
      OneStep(Down(OfLock(k)), s, 0, false);
      OneStep(SetHolder(k), s, 0, false);
    case CallRelease(k) =>
      TwoSteps(ClearHolder(k), Up(OfLock(k)), s, 0, false);
      OneStep(ClearHolder(k), s, 0, false);
      OneStep(Up(OfLock(k)), s, 0, false);
    case CallWait(c) => WaitSteps(c, st.conds[c].lock, |st.owner|, s, 0, false);
    case CallSignal(c) =>
    case CallBroadcast(c) =>
  }

  lemma StepsHold(e: Event, st: State, l: nat)
    requires IsCall(e) && Enabled(st, e) && l in st.locks
    ensures var held := st.locks[l].holder == Some(st.cur); WillHold(StepsOf(e, st), l, held) == HoldsAfter(e, l, held)
  {
    var s, held := IDLE_STARTED, st.locks[l].holder == Some(st.cur);
    match e
    case CallDown(n) => OneStep(Down(Plain(n)), s, l, held);
    case CallUp(n) => OneStep(Up(Plain(n)), s, l, held);
    case CallAcquire(k) =>
      TwoSteps(Down(OfLock(k)), SetHolder(k), s, l, held);
      OneStep(Down(OfLock(k)), s, l, held);
      OneStep(SetHolder(k), s, l, held);
    case CallRelease(k) =>
      TwoSteps(ClearHolder(k), Up(OfLock(k)), s, l, held);
      OneStep(ClearHolder(k), s, l, held);
      OneStep(Up(OfLock(k)), s, l, WillHold([ClearHolder(k)], l, held));
    case CallWait(c) => WaitSteps(c, st.conds[c].lock, |st.owner|, s, l, held);
    case CallSignal(c) => OneStep(Signal(c, st.conds[c].lock), s, l, held);
    case CallBroadcast(c) => OneStep(Broadcast(c, st.conds[c].lock, st.conds[c].waiters), s, l, held);
  }

  lemma StepsShape(e: Event, st: State)
    requires IsCall(e) && Enabled(st, e)
    ensures StepsOf(e, st) != [] && Shape(e, StepsOf(e, st))
  {
  }

  lemma StepsKeep(e: Event, st: State)
    requires IsCall(e) && Enabled(st, e) && RefsInv(st)
    ensures Keeps(e, st, st.cur)
  {
  }

  lemma StepsList(e: Event, st: State)
    requires Enabled(st, e) && (e.CallSignal? || e.CallBroadcast?)
    ensures ListLeft(WaitersOf(st, e.c), StepsOf(e, st)) == WaitersAfter(e, e.c, WaitersOf(st, e.c))
  {
  }

  // ---------------------------------------------------------------- from the call to the return

  /** Thread t is in the call, or has just done its last step. */
  ghost predicate Amid(call: Event, st: State, t: Tid)
  {
    t in st.code && Shape(call, st.code[t]) && Keeps(call, st, t)
  }

  lemma AmidFirst(st: State, e: Event, st': State, t: Tid)
    requires Sound(st, e, st') && IsCall(e) && t == st.cur
    ensures Amid(e, st', t) && st'.code[t] != []
  {
    Begins(st, e);
    StepsShape(e, st);
    StepsKeep(e, st);
  }

  lemma AmidNext(call: Event, st: State, e: Event, st': State, t: Tid)
    requires Sound(st, e, st') && Amid(call, st, t) && st.code[t] != []
    ensures Amid(call, st', t) && (st'.code[t] == [] ==> st'.cur == t)
  {
    ShapeKeeps(call, st, e, t);
    KeepsOn(call, st, e, t);
  }

  lemma NotBefore(states: seq<State>, i: nat, j: nat, t: Tid, m: nat)
    requires ReturnsAt(states, i, j, t) && i < m <= j
    ensures states[m].cur == t && t in states[m].code && states[m].code[t] == [] ==> m == j
    ensures m == j && t in states[m].code ==> states[m].code[t] == []
  {
  }

  /** States m - 1 and m of a run, and the event between them. */
  ghost predicate Around(states: seq<State>, events: seq<Event>, m: nat, st: State, e: Event, st': State)
  {
    AllSound(states, events) && 0 < m < |states| && st == states[m - 1] && e == events[m - 1] && st' == states[m]
  }

  lemma AmidBegins(states: seq<State>, events: seq<Event>, m: nat, st: State, e: Event, st': State)
    requires Around(states, events, m, st, e, st') && IsCall(e)
    ensures Amid(e, st', st.cur) && st'.code[st.cur] != []
  {
    SoundStep(states, events, m, st, e, st');
    AmidFirst(st, e, st', st.cur);
  }

  lemma AmidGoesOn(states: seq<State>, events: seq<Event>, m: nat, st: State, e: Event, st': State, call: Event, t: Tid)
    requires Around(states, events, m, st, e, st') && Amid(call, st, t) && st.code[t] != []
    ensures Amid(call, st', t) && (st'.code[t] == [] ==> st'.cur == t)
  {
    SoundStep(states, events, m, st, e, st');
    AmidNext(call, st, e, st', t);
  }

  /** Between the call and the return the thread has steps of the call left, and at the return it has none. */
  lemma {:induction false} Midway(states: seq<State>, events: seq<Event>, i: nat, j: nat, t: Tid, m: nat, st': State)
    requires AllSound(states, events) && Calls(states, events, i, j, t) && i < m <= j && st' == states[m]
    ensures Amid(events[i], st', t) && (st'.code[t] == [] <==> m == j)
  {
    var st, e := states[m - 1], events[m - 1];
    NotBefore(states, i, j, t, m);
    if m == i + 1 {
      AmidBegins(states, events, m, st, e, st');
    } else {
      Midway(states, events, i, j, t, m - 1, st);
      AmidGoesOn(states, events, m, st, e, st', events[i], t);
    }
  }

  // ---------------------------------------------------------------- counting along the way

  lemma DownsBegin(states: seq<State>, events: seq<Event>, m: nat, st: State, e: Event, st': State, s: SemaId)
    requires Around(states, events, m, st, e, st') && IsCall(e) && st.cur in st'.code
    ensures OwnDowns(states, events, st.cur, s, m - 1, m) == 0 && DownsLeft(st'.code[st.cur], s) == DownsBy(e, st, s)
  {
    SoundStep(states, events, m, st, e, st');
    Begins(st, e);
    StepsDowns(e, st, s);
    assert OwnDowns(states, events, st.cur, s, m - 1, m - 1) == 0;
  }

  lemma DownsGoOn(states: seq<State>, events: seq<Event>, m: nat, st: State, e: Event, st': State, call: Event, t: Tid,
                  s: SemaId)
    requires Around(states, events, m, st, e, st') && Amid(call, st, t) && st.code[t] != [] && t in st'.code
    ensures DownsLeft(st.code[t], s) ==
              DownsLeft(st'.code[t], s) + if Own(st, e, t) && Lowered(st, st', s) then 1 else 0
  {
    SoundStep(states, events, m, st, e, st');
    StepDowns(call, st, e, t, s);
  }

  lemma {:induction false} DownsSoFar(states: seq<State>, events: seq<Event>, i: nat, j: nat, t: Tid, s: SemaId, m: nat,
                                      st': State)
    requires AllSound(states, events) && Calls(states, events, i, j, t) && i < m <= j && st' == states[m]
    requires t in st'.code
    ensures OwnDowns(states, events, t, s, i, m) + DownsLeft(st'.code[t], s) == DownsBy(events[i], states[i], s)
  {
    var st, e := states[m - 1], events[m - 1];
    if m == i + 1 {
      DownsBegin(states, events, m, st, e, st', s);
    } else {
      Midway(states, events, i, j, t, m - 1, st);
      DownsSoFar(states, events, i, j, t, s, m - 1, st);
      DownsGoOn(states, events, m, st, e, st', events[i], t, s);
    }
  }

  lemma UpsBegin(states: seq<State>, events: seq<Event>, m: nat, st: State, e: Event, st': State, s: SemaId)
    requires Around(states, events, m, st, e, st') && IsCall(e) && st.cur in st'.code
    ensures OwnUps(states, events, st.cur, s, m - 1, m) == 0 && UpsLeft(e, st', st'.code[st.cur], s) == UpsBy(e, st, s)
  {
    SoundStep(states, events, m, st, e, st');
    Begins(st, e);
    StepsUps(e, st, s);
    assert OwnUps(states, events, st.cur, s, m - 1, m - 1) == 0;
  }

  lemma UpsGoOn(states: seq<State>, events: seq<Event>, m: nat, st: State, e: Event, st': State, call: Event, t: Tid,
                s: SemaId)
    requires Around(states, events, m, st, e, st') && Amid(call, st, t) && st.code[t] != [] && t in st'.code
    ensures UpsLeft(call, st, st.code[t], s) ==
              UpsLeft(call, st', st'.code[t], s) + if Own(st, e, t) && Raised(st, st', s) then 1 else 0
  {
    SoundStep(states, events, m, st, e, st');
    StepUps(call, st, e, t, s);
  }

  lemma {:induction false} UpsSoFar(states: seq<State>, events: seq<Event>, i: nat, j: nat, t: Tid, s: SemaId, m: nat,
                                    st': State)
    requires AllSound(states, events) && Calls(states, events, i, j, t) && i < m <= j && st' == states[m]
    requires t in st'.code
    ensures OwnUps(states, events, t, s, i, m) + UpsLeft(events[i], st', st'.code[t], s) ==
            UpsBy(events[i], states[i], s)
  {
    var st, e := states[m - 1], events[m - 1];
    if m == i + 1 {
      UpsBegin(states, events, m, st, e, st', s);
    } else {
      Midway(states, events, i, j, t, m - 1, st);
      UpsSoFar(states, events, i, j, t, s, m - 1, st);
      UpsGoOn(states, events, m, st, e, st', events[i], t, s);
    }
  }

  // ---------------------------------------------------------------- holders and waiters along the way

  ghost predicate HeldBy(st: State, l: nat, t: Tid) { l in st.locks && st.locks[l].holder == Some(t) }

  lemma HoldBegins(states: seq<State>, events: seq<Event>, m: nat, st: State, e: Event, st': State, l: nat)
    requires Around(states, events, m, st, e, st') && IsCall(e) && st.cur in st'.code && l in st.locks
    ensures l in st'.locks
    ensures WillHold(st'.code[st.cur], l, HeldBy(st', l, st.cur)) == HoldsAfter(e, l, HeldBy(st, l, st.cur))
  {
    SoundStep(states, events, m, st, e, st');
    Begins(st, e);
    StepsHold(e, st, l);
  }

  lemma HoldGoesOn(states: seq<State>, events: seq<Event>, m: nat, st: State, e: Event, st': State, t: Tid, l: nat)
    requires Around(states, events, m, st, e, st') && t in st.code && st.code[t] != [] && t in st'.code && l in st.locks
    ensures l in st'.locks && WillHold(st.code[t], l, HeldBy(st, l, t)) == WillHold(st'.code[t], l, HeldBy(st', l, t))
  {
    SoundStep(states, events, m, st, e, st');
    StepHold(st, e, t, l);
  }

  lemma {:induction false} HoldSoFar(states: seq<State>, events: seq<Event>, i: nat, j: nat, t: Tid, l: nat, m: nat,
                                     st': State)
    requires AllSound(states, events) && Calls(states, events, i, j, t) && i < m <= j && st' == states[m]
    requires t in st'.code
    requires l in states[i].locks
    ensures l in st'.locks
    ensures WillHold(st'.code[t], l, HeldBy(st', l, t)) == HoldsAfter(events[i], l, HeldBy(states[i], l, t))
  {
    var st, e := states[m - 1], events[m - 1];
    if m == i + 1 {
      HoldBegins(states, events, m, st, e, st', l);
    } else {
      Midway(states, events, i, j, t, m - 1, st);
      HoldSoFar(states, events, i, j, t, l, m - 1, st);
      HoldGoesOn(states, events, m, st, e, st', t, l);
    }
  }

  lemma ListBegins(states: seq<State>, events: seq<Event>, m: nat, st: State, e: Event, st': State)
    requires Around(states, events, m, st, e, st') && (e.CallSignal? || e.CallBroadcast?) && st.cur in st'.code
    ensures ListLeft(WaitersOf(st', e.c), st'.code[st.cur]) == WaitersAfter(e, e.c, WaitersOf(st, e.c))
  {
    SoundStep(states, events, m, st, e, st');
    Begins(st, e);
    StepsList(e, st);
  }

  lemma ListGoesOn(states: seq<State>, events: seq<Event>, m: nat, st: State, e: Event, st': State, call: Event, t: Tid)
    requires Around(states, events, m, st, e, st') && Amid(call, st, t) && st.code[t] != [] && t in st'.code
    requires call.CallSignal? || call.CallBroadcast?
    ensures ListLeft(WaitersOf(st, call.c), st.code[t]) == ListLeft(WaitersOf(st', call.c), st'.code[t])
  {
    SoundStep(states, events, m, st, e, st');
    StepList(call, st, e, t);
  }

  lemma {:induction false} ListSoFar(states: seq<State>, events: seq<Event>, i: nat, j: nat, t: Tid, m: nat, st': State)
    requires AllSound(states, events) && Calls(states, events, i, j, t) && i < m <= j && st' == states[m]
    requires t in st'.code
    requires events[i].CallSignal? || events[i].CallBroadcast?
    ensures var c := events[i].c;
            ListLeft(WaitersOf(st', c), st'.code[t]) == WaitersAfter(events[i], c, WaitersOf(states[i], c))
  {
    var st, e := states[m - 1], events[m - 1];
    if m == i + 1 {
      ListBegins(states, events, m, st, e, st');
    } else {
      Midway(states, events, i, j, t, m - 1, st);
      ListSoFar(states, events, i, j, t, m - 1, st);
      ListGoesOn(states, events, m, st, e, st', events[i], t);
    }
  }

  // ---------------------------------------------------------------- at the return

  /** By its return a call has taken and upped exactly what it is for: over the whole run, whoever runs in between. */
  lemma CallCounts(states: seq<State>, events: seq<Event>, i: nat, j: nat, t: Tid, s: SemaId)
    requires IsRun(states, events) && Calls(states, events, i, j, t)
    ensures OwnDowns(states, events, t, s, i, j) == DownsBy(events[i], states[i], s)
    ensures OwnUps(states, events, t, s, i, j) == UpsBy(events[i], states[i], s)
  {
    RunIsSound(states, events);
    Midway(states, events, i, j, t, j, states[j]);
    DownsSoFar(states, events, i, j, t, s, j, states[j]);
    UpsSoFar(states, events, i, j, t, s, j, states[j]);
  }

  /** It returns with the lock acquired held, the lock released not, and every other lock as at the call. */
  lemma CallHolds(states: seq<State>, events: seq<Event>, i: nat, j: nat, t: Tid, l: nat)
    requires IsRun(states, events) && Calls(states, events, i, j, t) && l in states[i].locks
    ensures l in states[j].locks
    ensures HeldBy(states[j], l, t) <==> HoldsAfter(events[i], l, HeldBy(states[i], l, t))
  {
    RunIsSound(states, events);
    Midway(states, events, i, j, t, j, states[j]);
    HoldSoFar(states, events, i, j, t, l, j, states[j]);
  }

  /** A signal takes the first waiter off the list, a broadcast all of them, whatever happens in between. */
  lemma CallEmpties(states: seq<State>, events: seq<Event>, i: nat, j: nat, t: Tid)
    requires IsRun(states, events) && Calls(states, events, i, j, t)
    requires (events[i].CallSignal? || events[i].CallBroadcast?)
    ensures var c := events[i].c; WaitersOf(states[j], c) == WaitersAfter(events[i], c, WaitersOf(states[i], c))
  {
    RunIsSound(states, events);
    Midway(states, events, i, j, t, j, states[j]);
    ListSoFar(states, events, i, j, t, j, states[j]);
  }

  // ---------------------------------------------------------------- call by call

  /** lock_acquire returns with the lock: the caller is its holder and nobody else is inside. */
  lemma AcquireReturns(states: seq<State>, events: seq<Event>, i: nat, j: nat, t: Tid, l: nat)
    requires IsRun(states, events) && Calls(states, events, i, j, t) && events[i] == CallAcquire(l)
    requires l in states[i].locks
    ensures HeldBy(states[j], l, t) && states[j].locks[l].inside == {t}
    ensures OfLock(l) in states[j].semas && states[j].semas[OfLock(l)].value == 0
  {
    CallHolds(states, events, i, j, t, l);
    Reachable(states, events, j);
    HolderAlone(states[j], l, t);
  }

  lemma HolderAlone(st: State, l: nat, t: Tid)
    requires LockInv(st) && HeldBy(st, l, t)
    ensures st.locks[l].inside == {t} && OfLock(l) in st.semas && st.semas[OfLock(l)].value == 0
  {
    InsideIsSole(st.locks[l], st.semas[OfLock(l)].value, t);
  }

  /** The lock has its unit back, no holder, and nobody inside. */
  ghost predicate Free(st: State, l: nat)
  {
    && l in st.locks && st.locks[l].holder == None && st.locks[l].inside == {}
    && OfLock(l) in st.semas && st.semas[OfLock(l)].value == 1
  }

  ghost predicate Releasing(st: State, t: Tid, l: nat)
  {
    t in st.code && l in st.locks &&
    (st.code[t] == [ClearHolder(l), Up(OfLock(l))] || st.code[t] == [Up(OfLock(l))] ||
      (st.code[t] == [] && Free(st, l)))
  }

  lemma ReleaseStep(st: State, e: Event, st': State, t: Tid, l: nat)
    requires Sound(st, e, st') && Releasing(st, t, l) && st.code[t] != []
    ensures Releasing(st', t, l)
  {
    if Own(st, e, t) {
      RunCode(st);
      if st.code[t] == [ClearHolder(l), Up(OfLock(l))] {
        assert st.code[t][1..] == [Up(OfLock(l))];
      } else {
        assert st.code[t][1..] == [];
        UnitComesBack(st, l);
      }
    } else {
      OthersSteps(st, e, t);
      OthersHold(st, e, l, t);
    }
  }

  lemma UnitComesBack(st: State, l: nat)
    requires Inv(st) && l in st.locks && st.cur in st.code && st.code[st.cur] == [Up(OfLock(l))]
    ensures OfLock(l) in st.semas && Free(Exec(st, Up(OfLock(l)), []), l)
  {
    assert Legal(st.code[st.cur], l, PhaseOf(st.locks[l], st.cur));
    LastUnit(st, l);
  }

  lemma LastUnit(st: State, l: nat)
    requires l in st.locks && OfLock(l) in st.semas && PhaseOf(st.locks[l], st.cur) == Between
    requires OneUnit(st.locks[l], st.semas[OfLock(l)].value)
    ensures Free(Exec(st, Up(OfLock(l)), []), l)
  {
    InsideIsSole(st.locks[l], st.semas[OfLock(l)].value, st.cur);
    assert st.locks[l].inside - {st.cur} == {};
  }

  lemma ReleaseBegins(states: seq<State>, events: seq<Event>, m: nat, st: State, e: Event, st': State, l: nat)
    requires Around(states, events, m, st, e, st') && e == CallRelease(l)
    ensures Releasing(st', st.cur, l)
  {
    SoundStep(states, events, m, st, e, st');
    Begins(st, e);
  }

  lemma ReleaseGoesOn(states: seq<State>, events: seq<Event>, m: nat, st: State, e: Event, st': State, t: Tid, l: nat)
    requires Around(states, events, m, st, e, st') && Releasing(st, t, l) && st.code[t] != []
    ensures Releasing(st', t, l)
  {
    SoundStep(states, events, m, st, e, st');
    ReleaseStep(st, e, st', t, l);
  }

  lemma {:induction false} ReleaseSoFar(states: seq<State>, events: seq<Event>, i: nat, j: nat, t: Tid, l: nat, m: nat,
                                        st': State)
    requires AllSound(states, events) && Calls(states, events, i, j, t) && i < m <= j && st' == states[m]
    requires events[i] == CallRelease(l)
    ensures Releasing(st', t, l)
  {
    var st, e := states[m - 1], events[m - 1];
    if m == i + 1 {
      ReleaseBegins(states, events, m, st, e, st', l);
    } else {
      Midway(states, events, i, j, t, m - 1, st);
      ReleaseSoFar(states, events, i, j, t, l, m - 1, st);
      ReleaseGoesOn(states, events, m, st, e, st', t, l);
    }
  }

  /** lock_release returns with the lock free, before anybody it woke can have taken it. */
  lemma ReleaseReturns(states: seq<State>, events: seq<Event>, i: nat, j: nat, t: Tid, l: nat)
    requires IsRun(states, events) && Calls(states, events, i, j, t) && events[i] == CallRelease(l)
    ensures Free(states[j], l)
  {
    RunIsSound(states, events);
    Midway(states, events, i, j, t, j, states[j]);
    ReleaseSoFar(states, events, i, j, t, l, j, states[j]);
  }

  /** Waiter w is still to register on c, or has; and is still to take its unit, or has. */
  ghost predicate Awaits(st: State, t: Tid, c: nat, w: nat)
  {
    && t in st.code && c in st.conds
    && ((AtRegister(st.code[t]) && st.code[t][0].c == c && st.code[t][0].w == w) || w in st.conds[c].registered)
    && (Down(Waiter(w)) in st.code[t] || Retry(Waiter(w)) in st.code[t] ||
        (Waiter(w) in st.semas && st.semas[Waiter(w)].downs > 0))
  }

  /** Units taken are never given back, and a waiter registered stays so on record. */
  lemma WaitGrows(st: State, e: Event, c: nat, w: nat)
    requires Inv(st) && Enabled(st, e) && c in st.conds
    ensures c in Next(st, e).conds && (w in st.conds[c].registered ==> w in Next(st, e).conds[c].registered)
    ensures Waiter(w) in st.semas ==> Waiter(w) in Next(st, e).semas
    ensures Waiter(w) in st.semas ==> st.semas[Waiter(w)].downs <= Next(st, e).semas[Waiter(w)].downs
  {
    NextRemembers(st, e);
    RegisterIsFresh(st);
    if e.Run? && Waiter(w) in st.semas { DownsGrow(st, Code(st)[0], Code(st)[1..], Waiter(w)); }
  }

  lemma DownsGrow(st: State, op: Op, rest: seq<Op>, s: SemaId)
    requires Known(st, op) && s in st.semas && (op.Register? ==> Waiter(op.w) != s)
    ensures s in Exec(st, op, rest).semas && st.semas[s].downs <= Exec(st, op, rest).semas[s].downs
  {
  }

  lemma WaitStep(st: State, e: Event, st': State, t: Tid, c: nat, w: nat)
    requires Sound(st, e, st') && Awaits(st, t, c, w) && st.code[t] != [] && Simple(st.code[t])
    ensures Awaits(st', t, c, w)
  {
    WaitGrows(st, e, c, w);
    if Own(st, e, t) {
      var op, rest := Code(st)[0], Code(st)[1..];
      assert st.code[t] == [op] + rest;
      RunCode(st);
      OwnWait(st, op, rest, c, w);
    } else {
      OthersSteps(st, e, t);
    }
  }

  lemma OwnWait(st: State, op: Op, rest: seq<Op>, c: nat, w: nat)
    requires Known(st, op) && Awaits(st, st.cur, c, w) && st.code[st.cur] == [op] + rest && Simple([op] + rest)
    ensures (op.Register? && op.c == c && op.w == w) || w in st.conds[c].registered
    ensures op.Register? && op.c == c && op.w == w ==>
              c in Exec(st, op, rest).conds && w in Exec(st, op, rest).conds[c].registered
    ensures Down(Waiter(w)) in NextCode(st, op, rest) || Retry(Waiter(w)) in NextCode(st, op, rest)
            || (Waiter(w) in st.semas && st.semas[Waiter(w)].downs > 0)
            || (Waiter(w) in Exec(st, op, rest).semas && Exec(st, op, rest).semas[Waiter(w)].downs > 0)
  {
    var code, st' := [op] + rest, Exec(st, op, rest);
    assert code[0] == op;
    if op.Register? && op.c == c && op.w == w {
      assert st'.conds[c].registered[|st.conds[c].registered|] == w;
    }
    if op == Down(Waiter(w)) || op == Retry(Waiter(w)) {
      assert st.semas[Waiter(w)].value == 0 ==> NextCode(st, op, rest)[0] == Retry(Waiter(w));
    } else if Down(Waiter(w)) in code {
      assert Down(Waiter(w)) in rest;
      InNext(st, op, rest, Down(Waiter(w)));
    } else if Retry(Waiter(w)) in code {
      assert Retry(Waiter(w)) in rest;
      InNext(st, op, rest, Retry(Waiter(w)));
    }
  }

  lemma InNext(st: State, op: Op, rest: seq<Op>, later: Op)
    requires Known(st, op) && later in rest
    ensures later in NextCode(st, op, rest)
  {
  }

  lemma WaitBegins(states: seq<State>, events: seq<Event>, m: nat, st: State, e: Event, st': State, c: nat)
    requires Around(states, events, m, st, e, st') && e == CallWait(c)
    ensures Awaits(st', st.cur, c, |st.owner|)
  {
    SoundStep(states, events, m, st, e, st');
    Begins(st, e);
    var code := StepsOf(e, st);
    assert code[0] == Register(c, st.conds[c].lock, |st.owner|) && code[3] == Down(Waiter(|st.owner|));
  }

  lemma WaitGoesOn(states: seq<State>, events: seq<Event>, m: nat, st: State, e: Event, st': State, t: Tid, c: nat,
                   w: nat)
    requires Around(states, events, m, st, e, st') && Awaits(st, t, c, w) && st.code[t] != [] && Simple(st.code[t])
    ensures Awaits(st', t, c, w)
  {
    SoundStep(states, events, m, st, e, st');
    WaitStep(st, e, st', t, c, w);
  }

  lemma {:induction false} WaitSoFar(states: seq<State>, events: seq<Event>, i: nat, j: nat, t: Tid, c: nat, m: nat,
                                     st': State)
    requires AllSound(states, events) && Calls(states, events, i, j, t) && i < m <= j && st' == states[m]
    requires events[i] == CallWait(c)
    ensures Awaits(st', t, c, |states[i].owner|)
  {
    var st, e := states[m - 1], events[m - 1];
    if m == i + 1 {
      WaitBegins(states, events, m, st, e, st', c);
    } else {
      Midway(states, events, i, j, t, m - 1, st);
      WaitSoFar(states, events, i, j, t, c, m - 1, st);
      WaitGoesOn(states, events, m, st, e, st', t, c, |states[i].owner|);
    }
  }

  lemma TakenWasUpped(st: State, w: nat)
    requires Inv(st) && Waiter(w) in st.semas && st.semas[Waiter(w)].downs > 0
    ensures st.semas[Waiter(w)].ups == 1
  {
    assert Conserves(st.semas[Waiter(w)]);
  }

  /** condvar_wait returns with the lock held again; the waiter it set up was registered on c and upped once. */
  lemma WaitReturnsUpped(states: seq<State>, events: seq<Event>, i: nat, j: nat, t: Tid, c: nat)
    requires IsRun(states, events) && Calls(states, events, i, j, t) && events[i] == CallWait(c) && c in states[i].conds
    requires states[i].conds[c].lock in states[i].locks && HeldBy(states[i], states[i].conds[c].lock, t)
    ensures var w := |states[i].owner|;
            && Waiter(w) !in states[i].semas && Waiter(w) in states[j].semas && states[j].semas[Waiter(w)].ups == 1
            && c in states[j].conds && w in states[j].conds[c].registered && w !in states[j].conds[c].waiters
    ensures HeldBy(states[j], states[i].conds[c].lock, t)
  {
    RunIsSound(states, events);
    var w := |states[i].owner|;
    CallHolds(states, events, i, j, t, states[i].conds[c].lock);
    Midway(states, events, i, j, t, j, states[j]);
    WaitSoFar(states, events, i, j, t, c, j, states[j]);
    Reachable(states, events, j);
    TakenWasUpped(states[j], w);
    UppedIsOff(states[j], c, w);
    Reachable(states, events, i);
    NotYetBorn(states[i]);
  }

  lemma NotYetBorn(st: State)
    requires WaitInv(st)
    ensures Waiter(|st.owner|) !in st.semas
  {
  }

  lemma UppedIsOff(st: State, c: nat, w: nat)
    requires SignalInv(st) && c in st.conds && Waiter(w) in st.semas && st.semas[Waiter(w)].ups > 0
    ensures w !in st.conds[c].waiters
  {
    assert !Awaiting(st.semas, w);
  }

  /** condvar_signal has upped the waiter that was first at the call, and it alone has left the list. */
  lemma SignalReturns(states: seq<State>, events: seq<Event>, i: nat, j: nat, t: Tid, c: nat)
    requires IsRun(states, events) && Calls(states, events, i, j, t) && events[i] == CallSignal(c)
    ensures var ws := WaitersOf(states[i], c);
            if ws == [] then WaitersOf(states[j], c) == []
            else WaitersOf(states[j], c) == ws[1..] && OwnUps(states, events, t, Waiter(ws[0]), i, j) == 1
  {
    CallEmpties(states, events, i, j, t);
    var ws := WaitersOf(states[i], c);
    if ws != [] { CallCounts(states, events, i, j, t, Waiter(ws[0])); }
  }

  /** condvar_broadcast has upped every waiter present at the call, each once. */
  lemma BroadcastReturns(states: seq<State>, events: seq<Event>, i: nat, j: nat, t: Tid, c: nat)
    requires IsRun(states, events) && Calls(states, events, i, j, t) && events[i] == CallBroadcast(c)
    ensures WaitersOf(states[j], c) == []
    ensures forall w :: w in WaitersOf(states[i], c) ==> OwnUps(states, events, t, Waiter(w), i, j) == 1
  {
    CallEmpties(states, events, i, j, t);
    forall w | w in WaitersOf(states[i], c) ensures OwnUps(states, events, t, Waiter(w), i, j) == 1 {
      CallCounts(states, events, i, j, t, Waiter(w));
    }
  }

  /** semaphore_down has taken one unit and semaphore_up has given one. */
  lemma SemaphoreReturns(states: seq<State>, events: seq<Event>, i: nat, j: nat, t: Tid, n: nat)
    requires IsRun(states, events) && Calls(states, events, i, j, t)
    ensures events[i] == CallDown(n) ==> OwnDowns(states, events, t, Plain(n), i, j) == 1
    ensures events[i] == CallUp(n) ==> OwnUps(states, events, t, Plain(n), i, j) == 1
  {
    CallCounts(states, events, i, j, t, Plain(n));
  }
}
