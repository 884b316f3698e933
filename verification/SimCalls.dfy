/** What each callback of the simulated scheduler does, field by field (Assignment5/scheduler.c). */
module SimCalls {
  import opened Common
  import opened SimModel

  /** Nothing but who runs, who is ready, the ticks and the history has changed. */
  ghost predicate Elsewhere(s: Sim, s': Sim)
  {
    s'.roundRobin == s.roundRobin && s'.quantum == s.quantum && s'.waiting == s.waiting && s'.exited == s.exited
  }

  /** sys_exec runs the new thread at once on an idle processor and otherwise puts it behind all that are ready. */
  lemma ExecMeans(s: Sim, t: Tid)
    requires Inv(s) && !Known(s, t)
    ensures Enabled(s, Exec(t))
    ensures var s' := Next(s, Exec(t));
            && Known(s', t) && Elsewhere(s, s')
            && (s.current == None ==> s'.current == Some(t) && s'.ticks == 0 && s'.ready == s.ready)
            && (s.current != None ==> s'.current == s.current && s'.ticks == s.ticks && s'.ready == s.ready + [t])
  {
  }

  /** io_complete does the same for a thread that was waiting, except that it leaves the ticks as they are. */
  lemma CompleteMeans(s: Sim, t: Tid)
    requires Inv(s) && t in s.waiting
    ensures Enabled(s, Complete(t))
    ensures var s' := Next(s, Complete(t));
            && Known(s', t) && s'.waiting == s.waiting - {t} && s'.exited == s.exited && s'.ticks == s.ticks
            && s'.roundRobin == s.roundRobin && s'.quantum == s.quantum
            && (s.current == None ==> s'.current == Some(t) && s'.ready == s.ready)
            && (s.current != None ==> s'.current == s.current && s'.ready == s.ready + [t])
  {
  }

  /** The first ready thread runs with no ticks spent, or nobody does. */
  ghost predicate Vacated(s: Sim, s': Sim)
  {
    && (s.ready == [] ==> s'.current == None && s'.ready == [] && s'.ticks == s.ticks)
    && (s.ready != [] ==> s'.current == Some(s.ready[0]) && s'.ready == s.ready[1..] && s'.ticks == 0)
    && s'.roundRobin == s.roundRobin && s'.quantum == s.quantum
  }

  /** sys_read and sys_write: the running thread waits for its device. */
  lemma BlockMeans(s: Sim)
    requires s.current.Some?
    ensures Enabled(s, Block)
    ensures Vacated(s, Next(s, Block)) && Next(s, Block).exited == s.exited
    ensures Next(s, Block).waiting == s.waiting + {s.current.value}
  {
  }

  /** sys_exit: the running thread is done. */
  lemma ExitMeans(s: Sim)
    requires s.current.Some?
    ensures Enabled(s, Exit)
    ensures Vacated(s, Next(s, Exit)) && Next(s, Exit).waiting == s.waiting
    ensures Next(s, Exit).exited == s.exited + {s.current.value}
  {
  }

  /** sim_ready: nothing under first come first served; under round robin a tick, and at the end of a quantum the
      running thread goes behind all that are ready and the first of them runs, or it goes on with a new quantum. */
  lemma ReadyMeans(s: Sim)
    requires Inv(s)
    ensures Enabled(s, Ready)
    ensures !s.roundRobin ==> Next(s, Ready) == s
    ensures s.roundRobin ==>
              var s', over := Next(s, Ready), s.ticks >= s.quantum;
              && Elsewhere(s, s')
              && (s.current == None ==> s'.current == None && s'.ready == [] && s'.ticks == if over then 0 else s.ticks)
              && (s.current != None && !over ==>
                s'.current == s.current && s'.ready == s.ready && s'.ticks == s.ticks + 1)
              && (s.current != None && over && s.ready == [] ==>
                s'.current == s.current && s'.ready == [] && s'.ticks == 1)
              && (s.current != None && over && s.ready != [] ==>
                    s'.current == Some(s.ready[0]) && s'.ready == s.ready[1..] + [s.current.value] && s'.ticks == 1)
  {
  }

  /** The threads there are: those there were, and one more after sys_exec alone. */
  lemma WhoIsKnown(s: Sim, e: Event, t: Tid)
    requires Inv(s) && Enabled(s, e)
    ensures Known(Next(s, e), t) <==> Known(s, t) || e == Exec(t)
  {
    if Known(s, t) { NothingLost(s, e, t); }
    match e
    case Exec(u) => ExecMeans(s, u);
    case Complete(u) => CompleteMeans(s, u);
    case Block => BlockMeans(s); Vacancy(s, Next(s, e), t);
    case Exit => ExitMeans(s); Vacancy(s, Next(s, e), t);
    case Ready => ReadyMeans(s);
  }

  lemma Vacancy(s: Sim, s': Sim, t: Tid)
    requires Vacated(s, s')
    ensures s'.current == Some(t) || t in s'.ready ==> t in s.ready
  {
  }
}
