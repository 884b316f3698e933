/** The callbacks of the scheduler over the linked list (Assignment5/scheduler.c), proved against SimModel. */
module SimScheduler {
  import opened Common
  import SimModel
  import SimCalls
  import opened ThreadList

  class Scheduler {
    const roundRobin: bool
    const quan: nat
    var current: Option<nat>
    const readyList: List
    var ticksOnCpu: nat
    ghost var history: SimModel.Sim

    /** The ready list is linked the other way round: the newest thread is its first node. */
    ghost function View(): SimModel.Sim
      reads this, readyList
    {
      history.(roundRobin := roundRobin, quantum := quan, current := current, ready := Backwards(readyList.Threads()),
        ticks := ticksOnCpu)
    }

    ghost predicate Valid()
      reads this, readyList, readyList.nodes
    {
      readyList.Valid() && SimModel.Inv(View())
    }

    /** scheduler */
    constructor (roundRobin: bool, quantum: nat)
      ensures Valid() && View() == SimModel.Init(roundRobin, quantum) && fresh(readyList)
    {
      this.roundRobin, quan, current, ticksOnCpu := roundRobin, quantum, None, 0;
      readyList := new List();
      history := SimModel.Init(roundRobin, quantum);
    }

    /** A thread goes to the back of the ready list. */
    method PutReady(t: nat)
      requires readyList.Valid()
      modifies this`history, readyList
      ensures readyList.Valid() && View() == SimModel.Enqueue(old(View()), t)
      ensures readyList.Threads() == [t] + old(readyList.Threads())
      ensures |readyList.nodes| > 0 && fresh(readyList.nodes[0]) && readyList.nodes[1..] == old(readyList.nodes)
    {
      readyList.InsertBeginning(t);
      history := history.(entered := history.entered + [t]);
    }

    /** The front of the ready list is dispatched with a new quantum. */
    method DispatchFront()
      requires readyList.Valid() && readyList.nodes != []
      modifies this, readyList, readyList.nodes
      ensures View().ready == old(View()).ready[1..]
      ensures readyList.Valid() && old(View()).ready != [] && View() == SimModel.TakeNext(old(View()))
    {
      var t := readyList.TakeFront();
      BackwardsSnoc(readyList.Threads(), t);
      current := Some(t);
      ticksOnCpu := 0;
      history := history.(left := history.left + [t], ran := 0, inherited := 0);
    }

    /** The current thread goes to the back of the ready list and the front one takes its place. */
    method Rotate()
      requires readyList.Valid() && current.Some?
      modifies this, readyList, readyList.nodes
      ensures readyList.Valid() && View() == SimModel.TakeNext(SimModel.Enqueue(old(View()), old(current.value)))
    {
      PutReady(current.value);
      assert forall n :: n in readyList.nodes ==> n == readyList.nodes[0] || n in readyList.nodes[1..];
      DispatchFront();
    }

    /** sim_ready */
    method SimReady()
      requires Valid()
      modifies this, readyList, readyList.nodes
      ensures Valid() && View() == SimModel.Next(old(View()), SimModel.Ready)
    {
      SimModel.NextKeeps(View(), SimModel.Ready);
      if roundRobin {
        var empty := readyList.IsEmpty();
        if empty {
          if ticksOnCpu >= quan {
            ticksOnCpu := 0;
            history := history.(ran := 0, inherited := 0);
          }
        } else if ticksOnCpu >= quan {
          Rotate();
        }
        if current != None {
          ticksOnCpu := ticksOnCpu + 1;
          history := history.(ran := history.ran + 1);
        }
      }
    }

    /** sys_exec */
    method SysExec(t: nat)
      requires Valid() && SimModel.Enabled(View(), SimModel.Exec(t))
      modifies this, readyList
      ensures Valid() && View() == SimModel.Next(old(View()), SimModel.Exec(t))
      ensures old(current) == None ==>
                current == Some(t) && ticksOnCpu == 0 && readyList.Threads() == old(readyList.Threads())
      ensures old(current) != None ==>
                current == old(current) && ticksOnCpu == old(ticksOnCpu) &&
                  readyList.Threads() == [t] + old(readyList.Threads())
    {
      SimModel.NextKeeps(View(), SimModel.Exec(t));
      if current == None {
        current := Some(t);
        ticksOnCpu := 0;
        history := history.(ran := 0, inherited := 0);
      } else {
        PutReady(t);
      }
    }

    /** The next ready thread, if there is one, gets the processor. */
    method GiveUp()
      requires readyList.Valid()
      modifies this, readyList, readyList.nodes
      ensures readyList.Valid() && View() == SimModel.GiveUp(old(View()))
    {
      current := None;
      var empty := readyList.IsEmpty();
      if !empty { DispatchFront(); }
    }

    /** sys_read and sys_write, whose scheduling is the same */
    method SysBlock()
      requires Valid() && SimModel.Enabled(View(), SimModel.Block)
      modifies this, readyList, readyList.nodes
      ensures Valid() && View() == SimModel.Next(old(View()), SimModel.Block)
    {
      SimModel.NextKeeps(View(), SimModel.Block);
      history := history.(waiting := history.waiting + {current.value});
      GiveUp();
    }

    /** sys_exit */
    method SysExit()
      requires Valid() && SimModel.Enabled(View(), SimModel.Exit)
      modifies this, readyList, readyList.nodes
      ensures Valid() && View() == SimModel.Next(old(View()), SimModel.Exit)
    {
      SimModel.NextKeeps(View(), SimModel.Exit);
      history := history.(exited := history.exited + {current.value});
      GiveUp();
    }

    /** io_complete */
    method IoComplete(t: nat)
      requires Valid() && SimModel.Enabled(View(), SimModel.Complete(t))
      modifies this, readyList
      ensures Valid() && View() == SimModel.Next(old(View()), SimModel.Complete(t))
      ensures ticksOnCpu == old(ticksOnCpu)
      ensures old(current) == None ==> current == Some(t) && readyList.Threads() == old(readyList.Threads())
      ensures old(current) != None ==> current == old(current) && readyList.Threads() == [t] + old(readyList.Threads())
    {
      SimModel.NextKeeps(View(), SimModel.Complete(t));
      history := history.(waiting := history.waiting - {t});
      if current == None {
        current := Some(t);
        history := history.(ran := 0, inherited := ticksOnCpu);
      } else {
        PutReady(t);
      }
    }
  }

  ghost function Backwards(s: seq<nat>): (r: seq<nat>)
    ensures |r| == |s| && forall i :: 0 <= i < |s| ==> r[i] == s[|s| - 1 - i]
  {
    if s == [] then [] else Backwards(s[1..]) + [s[0]]
  }

  lemma BackwardsSnoc(s: seq<nat>, t: nat)
    ensures Backwards(s + [t]) == [t] + Backwards(s)
  {
  }
}
