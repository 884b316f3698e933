/** First-come-first-served and round-robin scheduling of a simulated processor (Assignment5/scheduler.c). */
module SimModel {
  import opened Common

  type Tid = nat

  /** ready: the next thread to run first.  ticks: ticks_on_cpu.  The rest is history: who is in an I/O queue, who has
      exited, who has ever entered and left the ready list, how long the current thread has really run since it was
      dispatched or given another quantum, and what ticks was then. */
  datatype Sim = Sim(roundRobin: bool, quantum: nat, current: Option<Tid>, ready: seq<Tid>, ticks: nat,
                     waiting: set<Tid>, exited: set<Tid>, entered: seq<Tid>, left: seq<Tid>, ran: nat, inherited: nat)

  datatype Event = Ready | Exec(t: Tid) | Block | Exit | Complete(t: Tid)

  // ---------------------------------------------------------------- callbacks

  function Enqueue(s: Sim, t: Tid): Sim { s.(ready := s.ready + [t], entered := s.entered + [t]) }

  /** The front of the ready list goes to the processor. */
  function TakeNext(s: Sim): Sim
    requires s.ready != []
  {
    s.(current := Some(s.ready[0]), ready := s.ready[1..], left := s.left + [s.ready[0]], ticks := 0, ran := 0,
      inherited := 0)
  }

  /** sim_ready: at the end of a quantum the current thread goes to the back of the ready list, or on with a new
      quantum. */
  function SimReady(s: Sim): Sim
  {
    if !s.roundRobin then s
    else
      var s' := if s.ticks < s.quantum then s
                else if s.ready == [] then s.(ticks := 0, ran := 0, inherited := 0)
                else if s.current.Some? then TakeNext(Enqueue(s, s.current.value))
                else s;
      if s'.current.Some? then s'.(ticks := s'.ticks + 1, ran := s'.ran + 1) else s'
  }

  /** sys_exec */
  function SysExec(s: Sim, t: Tid): Sim
  {
    if s.current.None? then s.(current := Some(t), ticks := 0, ran := 0, inherited := 0) else Enqueue(s, t)
  }

  /** The processor is given up: the next ready thread gets it, if there is one. */
  function GiveUp(s: Sim): Sim
  {
    if s.ready == [] then s.(current := None) else TakeNext(s)
  }

  /** sys_read and sys_write by the current thread. */
  function SysBlock(s: Sim): Sim
    requires s.current.Some?
  {
    GiveUp(s.(waiting := s.waiting + {s.current.value}))
  }

  /** sys_exit by the current thread. */
  function SysExit(s: Sim): Sim
    requires s.current.Some?
  {
    GiveUp(s.(exited := s.exited + {s.current.value}))
  }

  /** io_complete: on an idle processor the thread starts without a new quantum. */
  function IoComplete(s: Sim, t: Tid): Sim
  {
    var s' := s.(waiting := s.waiting - {t});
    if s.current.None? then s'.(current := Some(t), ran := 0, inherited := s.ticks) else Enqueue(s', t)
  }

  /** The simulator's side of the contract. */
  predicate Enabled(s: Sim, e: Event)
  {
    match e
    case Ready => true
    case Exec(t) => !Known(s, t)
    case Block => s.current.Some?
    case Exit => s.current.Some?
    case Complete(t) => t in s.waiting
  }

  predicate Known(s: Sim, t: Tid) { s.current == Some(t) || t in s.ready || t in s.waiting || t in s.exited }

  function Next(s: Sim, e: Event): Sim
    requires Enabled(s, e)
  {
    match e
    case Ready => SimReady(s)
    case Exec(t) => SysExec(s, t)
    case Block => SysBlock(s)
    case Exit => SysExit(s)
    case Complete(t) => IoComplete(s, t)
  }

  // ---------------------------------------------------------------- invariant

  ghost predicate Inv(s: Sim)
  {
    // the processor is not idle while a thread is ready
    && (s.current.None? ==> s.ready == [])
    // every thread is in one place, once
    && NoDup(s.ready)
    && (forall t :: t in s.ready ==> s.current != Some(t) && t !in s.waiting && t !in s.exited)
    && (s.current.Some? ==> s.current.value !in s.waiting && s.current.value !in s.exited)
    && s.waiting !! s.exited
    // threads leave the ready list in the order they entered
    && s.entered == s.left + s.ready
    // and ticks_on_cpu counts what the thread inherited and what it ran itself
    && (s.current.Some? && s.roundRobin ==> s.ticks == s.inherited + s.ran)
  }

  ghost predicate InQuantum(s: Sim) { s.ticks <= s.quantum }

  function Init(roundRobin: bool, quantum: nat): Sim { Sim(roundRobin, quantum, None, [], 0, {}, {}, [], [], 0, 0) }

  lemma EnqueueKeeps(s: Sim, t: Tid)
    requires Inv(s) && s.current.Some? && s.current != Some(t) && t !in s.ready && t !in s.waiting && t !in s.exited
    ensures Inv(Enqueue(s, t))
  {
    assert s.entered + [t] == s.left + (s.ready + [t]);
  }

  lemma GiveUpKeeps(s: Sim, s': Sim)
    requires Inv(s) && s.current.Some? && s' == s.(waiting := s'.waiting, exited := s'.exited)
    requires s'.waiting !! s'.exited && s'.waiting + s'.exited <= s.waiting + s.exited + {s.current.value}
    ensures Inv(GiveUp(s'))
  {
    if s.ready != [] {
      assert s.ready == [s.ready[0]] + s.ready[1..];
      assert s.left + s.ready == (s.left + [s.ready[0]]) + s.ready[1..];
    }
  }

  lemma RotateKeeps(s: Sim)
    requires Inv(s) && s.current.Some? && s.ready != []
    ensures Inv(TakeNext(Enqueue(s, s.current.value)))
  {
    var q := Enqueue(s, s.current.value);
    assert q.entered == s.left + (s.ready + [s.current.value]);
    assert q.ready == [q.ready[0]] + q.ready[1..];
    assert s.left + q.ready == (s.left + [q.ready[0]]) + q.ready[1..];
    assert forall t :: t in q.ready[1..] ==> t in s.ready || t == s.current.value;
  }

  lemma NextKeeps(s: Sim, e: Event)
    requires Inv(s) && Enabled(s, e)
    ensures Inv(Next(s, e)) && Next(s, e).quantum == s.quantum && Next(s, e).roundRobin == s.roundRobin
    ensures s.quantum >= 1 && InQuantum(s) ==> InQuantum(Next(s, e))
  {
    match e
    case Ready =>
      if s.roundRobin && s.ticks >= s.quantum && s.ready != [] { RotateKeeps(s); }
    case Exec(t) =>
      if s.current.Some? { EnqueueKeeps(s, t); }
    case Block => GiveUpKeeps(s, s.(waiting := s.waiting + {s.current.value}));
    case Exit => GiveUpKeeps(s, s.(exited := s.exited + {s.current.value}));
    case Complete(t) =>
      if s.current.Some? { EnqueueKeeps(s.(waiting := s.waiting - {t}), t); }
  }

  lemma TakeNextKnows(s: Sim, t: Tid)
    requires s.ready != [] && (t in s.ready || t in s.waiting || t in s.exited)
    ensures Known(TakeNext(s), t)
  {
    assert s.ready == [s.ready[0]] + s.ready[1..];
  }

  lemma GiveUpKnows(s: Sim, t: Tid)
    requires t in s.ready || t in s.waiting || t in s.exited
    ensures Known(GiveUp(s), t)
  {
    if s.ready != [] { TakeNextKnows(s, t); }
  }

  /** No thread disappears: it stays known, and only a call to sys_exit takes it out of running, ready and waiting. */
  lemma NothingLost(s: Sim, e: Event, t: Tid)
    requires Inv(s) && Enabled(s, e) && Known(s, t)
    ensures Known(Next(s, e), t)
    ensures t in Next(s, e).exited <==> t in s.exited || (e.Exit? && s.current == Some(t))
    ensures t in Next(s, e).waiting <==> (t in s.waiting && e != Complete(t)) || (e.Block? && s.current == Some(t))
  {
    match e
    case Ready =>
      if s.roundRobin && s.ticks >= s.quantum && s.ready != [] {
        TakeNextKnows(Enqueue(s, s.current.value), t);
      }
    case Block => GiveUpKnows(s.(waiting := s.waiting + {s.current.value}), t);
    case Exit => GiveUpKnows(s.(exited := s.exited + {s.current.value}), t);
    case _ =>
  }

  // ---------------------------------------------------------------- runs

  ghost predicate IsRun(states: seq<Sim>, events: seq<Event>)
  {
    |states| == |events| + 1 && (exists rr, q :: states[0] == Init(rr, q)) &&
    forall i :: 0 <= i < |events| ==> Step(states[i], events[i], states[i + 1])
  }

  ghost predicate Step(s: Sim, e: Event, s': Sim) { Enabled(s, e) && s' == Next(s, e) }

  /** In every state of every run the invariant holds, and with a quantum of at least one ticks_on_cpu never exceeds
      it. */
  lemma {:induction false} Reachable(states: seq<Sim>, events: seq<Event>, i: nat)
    requires IsRun(states, events) && i < |states|
    ensures Inv(states[i]) && states[i].quantum == states[0].quantum && states[i].roundRobin == states[0].roundRobin
    ensures states[0].quantum >= 1 ==> InQuantum(states[i])
  {
    if i > 0 {
      Reachable(states, events, i - 1);
      assert Step(states[i - 1], events[i - 1], states[i]);
      NextKeeps(states[i - 1], events[i - 1]);
    }
  }

  /** With a quantum of zero the bound is broken at the first tick of a running thread. */
  lemma ZeroQuantum(t: Tid)
    ensures var s := SimReady(SysExec(Init(true, 0), t)); s.ticks == 1 && !InQuantum(s)
  {
  }

  // ---------------------------------------------------------------- fairness

  /** A thread is preempted after a full quantum exactly when it inherited no ticks from the thread before it. */
  lemma PreemptedAfter(s: Sim)
    requires Inv(s) && s.roundRobin && InQuantum(s) && s.ready != [] && SimReady(s).current != s.current
    ensures s.ran == s.quantum - s.inherited && (s.ran == s.quantum <==> s.inherited == 0)
  {
  }

  /** Ticks are inherited in one case only: a thread whose I/O completes on an idle processor. */
  lemma InheritsWhen(s: Sim, e: Event)
    requires Inv(s) && Enabled(s, e)
    ensures var s' := Next(s, e);
            s'.current.Some? && s'.current != s.current ==>
              s'.inherited == (if e.Complete? && s.current.None? then s.ticks else 0)
  {
  }

  /** With a quantum of 3, a thread that comes back from I/O to an idle processor is preempted after a single tick. */
  lemma ShortQuantum()
    ensures var a := SysBlock(SimReady(SimReady(SysExec(Init(true, 3), 1))));
            var b := SysExec(IoComplete(a, 1), 2);
            var c := SimReady(b);
            SimReady(c).current == Some(2) && c.current == Some(1) && c.ran == 1
  {
    var a := SysBlock(SimReady(SimReady(SysExec(Init(true, 3), 1))));
    assert a.current == None && a.ticks == 2;
  }

  /** How many more calls of sim_ready a thread at position k of the ready list can see. */
  function Patience(s: Sim, k: nat): int { k * s.quantum + s.quantum - s.ticks }

  /** A step moves a ready thread to the processor or forward, and each clock tick uses up its patience. */
  lemma StepForward(s: Sim, e: Event, k: nat) returns (k': nat)
    requires Inv(s) && InQuantum(s) && s.roundRobin && s.quantum >= 1
    requires Enabled(s, e) && k < |s.ready| && s.ready[k] in Next(s, e).ready
    ensures k' < |Next(s, e).ready| && Next(s, e).ready[k'] == s.ready[k]
    ensures Patience(Next(s, e), k') <= Patience(s, k) - (if e.Ready? then 1 else 0)
  {
    var s' := Next(s, e);
    var t := s.ready[k];
    var moved := e.Block? || e.Exit? || (e.Ready? && s.ticks >= s.quantum);
    k' := if moved && k > 0 then k - 1 else k;
    if moved {
      if k == 0 { FirstLeaves(s, e); } else { OneLess(k, s.quantum); }
    }
  }

  lemma OneLess(k: nat, q: nat)
    requires k > 0
    ensures k * q == (k - 1) * q + q
  {
  }

  lemma FirstLeaves(s: Sim, e: Event)
    requires Inv(s) && s.roundRobin && Enabled(s, e) && s.ready != []
    requires e.Block? || e.Exit? || (e.Ready? && s.ticks >= s.quantum)
    ensures s.ready[0] !in Next(s, e).ready
  {
    assert s.ready == [s.ready[0]] + s.ready[1..];
  }

  /** The clock ticks among the events from i to j. */
  function Ticks(events: seq<Event>, i: nat, j: nat): nat
    requires i <= j <= |events|
    decreases j
  {
    if i == j then 0 else Ticks(events, i, j - 1) + if events[j - 1].Ready? then 1 else 0
  }

  /** A thread at position k of the ready list is on the processor within k + 1 quanta,
      counted in calls of sim_ready. */
  lemma BoundedWait(states: seq<Sim>, events: seq<Event>, i: nat, j: nat, k: nat)
    requires IsRun(states, events) && states[0].roundRobin && states[0].quantum >= 1
    requires i <= j < |states| && k < |states[i].ready|
    requires forall m :: i <= m <= j ==> states[i].ready[k] in states[m].ready
    ensures Ticks(events, i, j) <= (k + 1) * states[0].quantum
  {
    var k' := WaitUpTo(states, events, i, j, k);
    Reachable(states, events, i);
    Reachable(states, events, j);
    PatienceBounds(states[j], k');
    PatienceBounds(states[i], k);
  }

  lemma PatienceBounds(s: Sim, k: nat)
    requires InQuantum(s)
    ensures 0 <= Patience(s, k) <= (k + 1) * s.quantum
  {
    OneLess(k + 1, s.quantum);
  }

  lemma {:induction false} WaitUpTo(states: seq<Sim>, events: seq<Event>, i: nat, j: nat, k: nat) returns (k': nat)
    requires IsRun(states, events) && states[0].roundRobin && states[0].quantum >= 1
    requires i <= j < |states| && k < |states[i].ready|
    requires forall m :: i <= m <= j ==> states[i].ready[k] in states[m].ready
    ensures k' < |states[j].ready| && states[j].ready[k'] == states[i].ready[k]
    ensures Patience(states[j], k') <= Patience(states[i], k) - Ticks(events, i, j)
  {
    if i == j {
      k' := k;
    } else {
      var p := WaitUpTo(states, events, i, j - 1, k);
      Reachable(states, events, j - 1);
      assert Step(states[j - 1], events[j - 1], states[j]);
      k' := StepForward(states[j - 1], events[j - 1], p);
    }
  }
}
