/** Every registered waiter is on exactly one list, or about to be upped, or upped once (threads/condvar.c). */
module KernelSignal {
  import opened Common
  import opened KernelModel

  /** The next step ups a waiter. */
  ghost predicate UpHead(code: seq<Op>) { code != [] && code[0].Up? && code[0].s.Waiter? }

  ghost function UpTarget(code: seq<Op>): nat
    requires UpHead(code)
  {
    code[0].s.w
  }

  /** The threads about to up waiter semaphore w. */
  ghost function Uppers(code: map<Tid, seq<Op>>, w: nat): set<Tid> 
  {
    set t | t in code && UpHead(code[t]) && UpTarget(code[t]) == w
  }

  /** Registered and not yet upped. */
  ghost predicate Awaiting(semas: map<SemaId, Sema>, w: nat) { Waiter(w) in semas && semas[Waiter(w)].ups == 0 }

  ghost predicate Listed(conds: map<nat, Cond>, w: nat) { exists c :: c in conds && w in conds[c].waiters }

  ghost predicate ListsOk(conds: map<nat, Cond>)
  {
    && (forall c :: c in conds ==>
      NoDup(conds[c].waiters) && conds[c].registered == conds[c].released + conds[c].waiters)
    && (forall c, c', w: nat :: c in conds && c' in conds && w in conds[c].waiters && w in conds[c'].waiters ==>
      c == c')
  }

  ghost predicate ListedAwait(conds: map<nat, Cond>, semas: map<SemaId, Sema>, code: map<Tid, seq<Op>>)
  {
    forall c, w: nat :: c in conds && w in conds[c].waiters ==> Awaiting(semas, w) && Uppers(code, w) == {}
  }

  ghost predicate SoleUpper(semas: map<SemaId, Sema>, code: map<Tid, seq<Op>>)
  {
    forall t :: t in code && UpHead(code[t]) ==>
      Awaiting(semas, UpTarget(code[t])) && Uppers(code, UpTarget(code[t])) == {t}
  }

  ghost predicate NotLost(conds: map<nat, Cond>, semas: map<SemaId, Sema>, code: map<Tid, seq<Op>>)
  {
    forall w: nat :: Awaiting(semas, w) ==> Listed(conds, w) || Uppers(code, w) != {}
  }

  ghost predicate UppedOnce(semas: map<SemaId, Sema>)
  {
    forall w: nat :: Waiter(w) in semas ==> semas[Waiter(w)].ups <= 1
  }

  /** condvar_signal ups a waiter in its very next step; condvar_broadcast is a loop around condvar_signal. */
  ghost predicate SignalShape(code: seq<Op>)
  {
    forall i :: 0 <= i < |code| ==>
      && (code[i].Up? && code[i].s.Waiter? ==> i == 0)
      && (code[i].Broadcast? ==> i == |code| - 1 && i <= 1)
      && (code[i].Broadcast? && i == 1 ==> code[0] == Signal(code[1].c, code[1].l) || UpHead(code))
  }

  ghost predicate Shapes(code: map<Tid, seq<Op>>) { forall t :: t in code ==> SignalShape(code[t]) }

  ghost predicate SignalInv(st: State)
  {
    && ListsOk(st.conds) && ListedAwait(st.conds, st.semas, st.code) && SoleUpper(st.semas, st.code)
    && NotLost(st.conds, st.semas, st.code) && UppedOnce(st.semas) && Shapes(st.code)
  }

  // ---------------------------------------------------------------- one thread moves

  lemma SameUppers(code: map<Tid, seq<Op>>, t: Tid, next: seq<Op>, w: nat)
    requires (t in code ==> !UpHead(code[t])) && !UpHead(next)
    ensures Uppers(code[t := next], w) == Uppers(code, w)
  {
  }

  ghost predicate SameUps(semas: map<SemaId, Sema>, semas': map<SemaId, Sema>)
  {
    forall w: nat :: (Waiter(w) in semas <==> Waiter(w) in semas') &&
      (Waiter(w) in semas ==> semas[Waiter(w)].ups == semas'[Waiter(w)].ups)
  }

  /** A step that signals nobody. */
  lemma Quietly(st: State, next: seq<Op>, semas': map<SemaId, Sema>)
    requires SignalInv(st) && st.cur in st.code && !UpHead(st.code[st.cur]) && !UpHead(next) && SignalShape(next)
    requires SameUps(st.semas, semas')
    ensures SignalInv(Continue(st.(semas := semas'), next))
  {
    forall w: nat
      ensures Uppers(st.code[st.cur := next], w) == Uppers(st.code, w)
      ensures Awaiting(semas', w) <==> Awaiting(st.semas, w)
    {
      SameUppers(st.code, st.cur, next, w);
    }
  }

  ghost predicate At(st: State, op: Op, rest: seq<Op>)
  {
    SignalInv(st) && st.cur in st.code && st.code[st.cur] == [op] + rest && Known(st, op)
  }

  lemma TailShape(op: Op, rest: seq<Op>)
    requires SignalShape([op] + rest)
    ensures ([op] + rest)[0] == op
    ensures !UpHead(rest) && SignalShape(rest)
    ensures rest != [] && rest[0].Broadcast? ==>
            |rest| == 1 && (op == Signal(rest[0].c, rest[0].l) || (op.Up? && op.s.Waiter?))
    ensures op.Broadcast? ==> rest == []
    ensures !op.Signal? && !(op.Up? && op.s.Waiter?) ==> forall i :: 0 <= i < |rest| ==> !rest[i].Broadcast?
    ensures forall i :: 0 <= i < |rest| ==> !(rest[i].Up? && rest[i].s.Waiter?) && (rest[i].Broadcast? ==> i == 0)
  {
    assert ([op] + rest)[0] == op;
    assert forall i :: 0 <= i < |rest| ==> rest[i] == ([op] + rest)[i + 1];
  }

  lemma NotSignalled(st: State, w: nat)
    requires SignalInv(st) && !Awaiting(st.semas, w)
    ensures Uppers(st.code, w) == {} && forall d :: d in st.conds ==> w !in st.conds[d].waiters
  {
  }

  /** A fresh waiter goes to the end of the list. */
  lemma RegisterSignals(st: State, op: Op, rest: seq<Op>)
    requires At(st, op, rest) && op.Register? && Waiter(op.w) !in st.semas
    ensures SignalInv(Continue(RegisterWaiter(st, op.c, op.w), rest))
  {
    var w, c := op.w, op.c;
    var st' := RegisterWaiter(st, c, w);
    TailShape(op, rest);
    assert !Awaiting(st.semas, w);
    NotSignalled(st, w);
    RegisterLists(st.conds, c, w);
    assert Awaiting(st'.semas, w);
    forall v: nat | Awaiting(st'.semas, v) ensures Listed(st'.conds, v) || Uppers(st.code, v) != {} {
      StaysListed(st.conds, c, w, v);
    }
    forall d, v: nat | d in st'.conds && v in st'.conds[d].waiters
      ensures Awaiting(st'.semas, v) && Uppers(st.code, v) == {}
    {
      if v != w { assert v in st.conds[d].waiters && Awaiting(st.semas, v); }
    }
    assert SignalInv(st');
    Quietly(st', rest, st'.semas);
  }

  lemma StaysListed(conds: map<nat, Cond>, c: nat, w: nat, v: nat)
    requires c in conds
    ensures v == w || Listed(conds, v) ==>
      Listed(conds[c := conds[c].(waiters := conds[c].waiters + [w], registered := conds[c].registered + [w])], v)
  {
    var conds' := conds[c := conds[c].(waiters := conds[c].waiters + [w], registered := conds[c].registered + [w])];
    if v == w {
      assert w in conds'[c].waiters;
    } else if Listed(conds, v) {
      var d :| d in conds && v in conds[d].waiters;
      assert v in conds'[d].waiters;
    }
  }

  lemma RegisterLists(conds: map<nat, Cond>, c: nat, w: nat)
    requires ListsOk(conds) && c in conds && forall d :: d in conds ==> w !in conds[d].waiters
    ensures ListsOk(conds[c := conds[c].(waiters := conds[c].waiters + [w], registered := conds[c].registered + [w])])
  {
  }

  lemma PopLists(conds: map<nat, Cond>, c: nat)
    requires ListsOk(conds) && c in conds && conds[c].waiters != []
    ensures var k := conds[c];
            ListsOk(conds[c := k.(waiters := k.waiters[1..], released := k.released + [k.waiters[0]])])
    ensures forall w :: w in conds[c].waiters <==> w == conds[c].waiters[0] || w in conds[c].waiters[1..]
    ensures conds[c].waiters[0] !in conds[c].waiters[1..]
  {
    var k := conds[c];
    assert k.waiters == [k.waiters[0]] + k.waiters[1..];
    assert k.released + k.waiters == (k.released + [k.waiters[0]]) + k.waiters[1..];
  }

  /** Popping a waiter makes the signaller its one upper. */
  lemma PopSignals(st: State, op: Op, rest: seq<Op>)
    requires At(st, op, rest) && op.Signal? && st.conds[op.c].waiters != []
    ensures SignalInv(Continue(PopWaiter(st, op.c), [Up(Waiter(st.conds[op.c].waiters[0]))] + rest))
  {
    var c := op.c;
    var w := st.conds[c].waiters[0];
    var next := [Up(Waiter(w))] + rest;
    var code', conds' := st.code[st.cur := next], PopWaiter(st, c).conds;
    TailShape(op, rest);
    PopLists(st.conds, c);
    assert SignalShape(next);
    assert w in st.conds[c].waiters;
    forall v: nat ensures Uppers(code', v) == if v == w then {st.cur} else Uppers(st.code, v) {
      assert next[0] == Up(Waiter(w));
    }
    PopNotLost(st, c, code');
    assert ListedAwait(conds', st.semas, code');
  }

  lemma PopNotLost(st: State, c: nat, code': map<Tid, seq<Op>>)
    requires SignalInv(st) && c in st.conds && st.conds[c].waiters != []
    requires forall v: nat :: Uppers(code', v) == if v == st.conds[c].waiters[0] then {st.cur} else Uppers(st.code, v)
    ensures NotLost(PopWaiter(st, c).conds, st.semas, code')
  {
    var w, conds' := st.conds[c].waiters[0], PopWaiter(st, c).conds;
    PopLists(st.conds, c);
    forall v: nat | Awaiting(st.semas, v) ensures Listed(conds', v) || Uppers(code', v) != {} {
      if v == w {
        assert st.cur in Uppers(code', v);
      } else if Listed(st.conds, v) {
        var d :| d in st.conds && v in st.conds[d].waiters;
        assert v in conds'[d].waiters;
      }
    }
  }

  lemma UppersAfterUp(code: map<Tid, seq<Op>>, t: Tid, w: nat, rest: seq<Op>)
    requires t in code && UpHead(code[t]) && UpTarget(code[t]) == w && !UpHead(rest) && Uppers(code, w) == {t}
    ensures forall v: nat :: Uppers(code[t := rest], v) == if v == w then {} else Uppers(code, v)
  {
    var code' := code[t := rest];
    forall v: nat ensures Uppers(code', v) == if v == w then {} else Uppers(code, v) {
      if v == w {
        assert forall u :: u in Uppers(code', w) ==> u in Uppers(code, w);
        assert Uppers(code', w) == {};
      } else {
        assert t !in Uppers(code, v);
        assert Uppers(code', v) == Uppers(code, v);
      }
    }
  }

  /** The up that a signal owes its waiter is delivered, once. */
  lemma UpSignals(st: State, w: nat, rest: seq<Op>)
    requires At(st, Up(Waiter(w)), rest)
    ensures SignalInv(Continue(PostUp(st, Waiter(w)), rest))
  {
    var op := Up(Waiter(w));
    var semas', code' := PostUp(st, Waiter(w)).semas, st.code[st.cur := rest];
    TailShape(op, rest);
    UppersAfterUp(st.code, st.cur, w, rest);
    assert forall v: nat :: v != w ==> (Awaiting(semas', v) <==> Awaiting(st.semas, v));
    assert forall c :: c in st.conds ==> w !in st.conds[c].waiters;
    assert PostUp(st, Waiter(w)).conds == st.conds && PostUp(st, Waiter(w)).code == st.code;
  }

  lemma PostUpQuiet(st: State, s: SemaId)
    requires SignalInv(st) && s in st.semas && !s.Waiter?
    ensures SignalInv(PostUp(st, s))
    ensures SameUps(st.semas, PostUp(st, s).semas)
    ensures PostUp(st, s).code == st.code && PostUp(st, s).cur == st.cur && PostUp(st, s).conds == st.conds
  {
    assert forall w: nat :: Awaiting(PostUp(st, s).semas, w) <==> Awaiting(st.semas, w);
  }

  // ---------------------------------------------------------------- every step

  lemma LoopAgain(st: State, op: Op, rest: seq<Op>)
    requires At(st, op, rest) && op.Broadcast? && st.conds[op.c].waiters != []
    ensures SignalInv(Exec(st, op, rest))
  {
    TailShape(op, rest);
    assert [Signal(op.c, op.l), op] + rest == [Signal(op.c, op.l), op];
    Quietly(st, [Signal(op.c, op.l), op] + rest, st.semas);
  }

  /** Steps that touch no condition variable and no waiter's count of ups. */
  lemma PlainRun(st: State, op: Op, rest: seq<Op>)
    requires At(st, op, rest) && (op.Down? || op.Retry?)
    ensures SignalInv(Exec(st, op, rest))
  {
    TailShape(op, rest);
    if st.semas[op.s].value == 0 { SleepQuiet(st, op, rest); } else { TakeQuiet(st, op, rest); }
  }

  lemma SleepQuiet(st: State, op: Op, rest: seq<Op>)
    requires At(st, op, rest) && (op.Down? || op.Retry?)
    ensures SignalInv(Sleep(st, op.s, rest))
  {
    TailShape(op, rest);
    var st' := Sleep(st, op.s, rest);
    Quietly(st, st'.code[st.cur], st'.semas);
  }

  lemma TakeQuiet(st: State, op: Op, rest: seq<Op>)
    requires At(st, op, rest) && (op.Down? || op.Retry?) && st.semas[op.s].value > 0
    ensures SignalInv(TakeOne(st, op.s, rest))
  {
    TailShape(op, rest);
    Quietly(st, rest, TakeOne(st, op.s, rest).semas);
  }

  lemma UpElsewhere(st: State, op: Op, rest: seq<Op>)
    requires At(st, op, rest) && op.Up? && !op.s.Waiter?
    ensures SignalInv(Exec(st, op, rest))
  {
    TailShape(op, rest);
    PostUpQuiet(st, op.s);
    Quietly(st, rest, PostUp(st, op.s).semas);
  }

  lemma QuietRun(st: State, op: Op, rest: seq<Op>)
    requires At(st, op, rest) && !op.Register? && !op.IdleLoop? && !op.Up? && !op.Down? && !op.Retry?
    requires op.Signal? || op.Broadcast? ==> st.conds[op.c].waiters == []
    ensures SignalInv(Exec(st, op, rest))
  {
    TailShape(op, rest);
    Quietly(st, rest, st.semas);
  }

  lemma RunSignals(st: State, op: Op, rest: seq<Op>)
    requires At(st, op, rest) && (op.Register? ==> Waiter(op.w) !in st.semas)
    ensures SignalInv(Exec(st, op, rest))
  {
    if op.Register? {
      RegisterSignals(st, op, rest);
    } else if op.Signal? && st.conds[op.c].waiters != [] {
      PopSignals(st, op, rest);
    } else if op.Up? && op.s.Waiter? {
      UpSignals(st, op.s.w, rest);
    } else if op.Broadcast? && st.conds[op.c].waiters != [] {
      LoopAgain(st, op, rest);
    } else if op.Up? {
      UpElsewhere(st, op, rest);
    } else if op.Down? || op.Retry? {
      PlainRun(st, op, rest);
    } else if !op.IdleLoop? {
      QuietRun(st, op, rest);
    }
  }

  lemma CallsQuiet(st: State, e: Event)
    requires SignalInv(st) && InClient(st) && st.cur in st.code && Enabled(st, e)
    requires !e.Run? && !e.Yield? && !e.Irq? && !e.Exit? && !e.Spawn?
    ensures SignalInv(Next(st, e))
  {
    var next := Next(st, e).code[st.cur];
    Quietly(st, next, st.semas);
  }

  lemma SpawnQuiet(st: State)
    requires SignalInv(st) && st.tids !in st.code
    ensures SignalInv(SpawnThread(st))
  {
    assert forall w :: Uppers(st.code[st.tids := []], w) == Uppers(st.code, w);
  }

  lemma ExitQuiet(st: State)
    requires SignalInv(st) && st.cur in st.code && st.code[st.cur] == []
    ensures SignalInv(ExitThread(st))
  {
    assert forall w :: Uppers(st.code - {st.cur}, w) == Uppers(st.code, w);
  }

  lemma SignalKeeps(st: State, e: Event)
    requires SignalInv(st) && Enabled(st, e) && st.cur in st.code && st.tids !in st.code
    requires Code(st) != [] && Code(st)[0].Register? ==> Waiter(Code(st)[0].w) !in st.semas
    ensures SignalInv(Next(st, e))
  {
    match e
    case Run =>
      assert st.code[st.cur] == [Code(st)[0]] + Code(st)[1..];
      RunSignals(st, Code(st)[0], Code(st)[1..]);
    case Yield =>
    case Irq(n) => PostUpQuiet(st, Plain(n));
    case Exit => ExitQuiet(st);
    case Spawn => SpawnQuiet(st);
    case _ => CallsQuiet(st, e);
  }

  lemma SignalInit(st: State)
    requires Init(st)
    ensures SignalInv(st)
  {
  }
}
