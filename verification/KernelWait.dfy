/** The life of a waiter's semaphore inside condvar_wait (threads/condvar.c). */
module KernelWait {
  import opened KernelModel

  /** Before initialisation, while its thread has not yet got past it, and after. */
  datatype Stage = Unborn | Pending | Passed

  function StageOf(semas: map<SemaId, Sema>, w: nat): Stage
  {
    if Waiter(w) !in semas then Unborn else if semas[Waiter(w)].downs == 0 then Pending else Passed
  }

  /** The pending steps initialise w once, wait on it once, and return only after that. */
  ghost predicate WaitsInOrder(code: seq<Op>, w: nat, p: Stage)
    decreases |code|
  {
    code == [] ||
    var rest := code[1..];
    match code[0]
    case Register(c, l, v) => if v == w then p == Unborn && WaitsInOrder(rest, w, Pending) else WaitsInOrder(rest, w, p)
    case Down(s) => if s == Waiter(w) then p == Pending && WaitsInOrder(rest, w, Passed) else WaitsInOrder(rest, w, p)
    case Retry(s) => if s == Waiter(w) then p == Pending && WaitsInOrder(rest, w, Passed) else WaitsInOrder(rest, w, p)
    case Waited(l, v) => (v == w ==> p == Passed) && WaitsInOrder(rest, w, p)
    case _ => WaitsInOrder(rest, w, p)
  }

  /** The step uses waiter semaphore w as its owner does. */
  predicate Uses(op: Op, w: nat)
  {
    match op
    case Register(c, l, v) => v == w
    case Down(s) => s == Waiter(w)
    case Retry(s) => s == Waiter(w)
    case Waited(l, v) => v == w
    case _ => false
  }

  ghost predicate UsesItsOwn(op: Op, t: Tid, owner: seq<Tid>)
  {
    forall w: nat :: Uses(op, w) ==> w < |owner| && owner[w] == t
  }

  ghost predicate UsesOwn(code: seq<Op>, t: Tid, owner: seq<Tid>)
  {
    forall i :: 0 <= i < |code| ==> UsesItsOwn(code[i], t, owner)
  }

  ghost predicate OwnersOnly(code: map<Tid, seq<Op>>, owner: seq<Tid>)
  {
    forall t :: t in code ==> UsesOwn(code[t], t, owner)
  }

  ghost predicate InOrder(code: map<Tid, seq<Op>>, semas: map<SemaId, Sema>, owner: seq<Tid>)
  {
    forall w :: 0 <= w < |owner| && owner[w] in code ==> WaitsInOrder(code[owner[w]], w, StageOf(semas, w))
  }

  ghost predicate BornOwned(semas: map<SemaId, Sema>, owner: seq<Tid>)
  {
    forall w: nat :: Waiter(w) in semas ==> w < |owner| && semas[Waiter(w)].init == 0
  }

  ghost predicate OwnersOld(owner: seq<Tid>, tids: nat) { forall w :: 0 <= w < |owner| ==> owner[w] < tids }

  ghost predicate WaitInv(st: State)
  {
    && OwnersOnly(st.code, st.owner) && InOrder(st.code, st.semas, st.owner)
    && BornOwned(st.semas, st.owner) && OwnersOld(st.owner, st.tids)
  }

  // ---------------------------------------------------------------- one thread moves

  lemma Rest(op: Op, rest: seq<Op>)
    ensures ([op] + rest)[0] == op && ([op] + rest)[1..] == rest
  {
  }

  lemma UsesOwnTail(op: Op, rest: seq<Op>, t: Tid, owner: seq<Tid>)
    requires UsesOwn([op] + rest, t, owner)
    ensures UsesItsOwn(op, t, owner) && UsesOwn(rest, t, owner)
  {
    assert ([op] + rest)[0] == op;
    assert forall i :: 0 <= i < |rest| ==> rest[i] == ([op] + rest)[i + 1];
  }

  /** Only the stages of the running thread's own waiters change. */
  lemma OwnerMoves(st: State, next: seq<Op>, semas': map<SemaId, Sema>)
    requires WaitInv(st) && st.cur in st.code && UsesOwn(next, st.cur, st.owner) && BornOwned(semas', st.owner)
    requires forall w :: 0 <= w < |st.owner| && st.owner[w] != st.cur ==> StageOf(semas', w) == StageOf(st.semas, w)
    requires forall w :: 0 <= w < |st.owner| && st.owner[w] == st.cur ==> WaitsInOrder(next, w, StageOf(semas', w))
    ensures WaitInv(Continue(st.(semas := semas'), next))
  {
  }

  ghost predicate AtStep(st: State, op: Op, rest: seq<Op>)
  {
    WaitInv(st) && st.cur in st.code && st.code[st.cur] == [op] + rest && Known(st, op)
  }

  lemma FactsAt(st: State, op: Op, rest: seq<Op>)
    requires AtStep(st, op, rest)
    ensures UsesOwn(rest, st.cur, st.owner)
    ensures UsesItsOwn(op, st.cur, st.owner)
    ensures forall w :: 0 <= w < |st.owner| && st.owner[w] == st.cur ==>
            WaitsInOrder([op] + rest, w, StageOf(st.semas, w))
    ensures ([op] + rest)[0] == op && ([op] + rest)[1..] == rest
  {
    Rest(op, rest);
    UsesOwnTail(op, rest, st.cur, st.owner);
  }

  /** Steps other than condvar_wait's own leave every stage alone. */
  lemma SkipsOver(op: Op, rest: seq<Op>, w: nat, p: Stage)
    requires WaitsInOrder([op] + rest, w, p) && (Uses(op, w) ==> op.Waited?)
    ensures WaitsInOrder(rest, w, p)
  {
    Rest(op, rest);
  }

  lemma Prepend(op: Op, rest: seq<Op>, w: nat, p: Stage)
    requires WaitsInOrder(rest, w, p) && !Uses(op, w)
    ensures WaitsInOrder([op] + rest, w, p)
  {
    Rest(op, rest);
  }

  ghost predicate SameStages(semas: map<SemaId, Sema>, semas': map<SemaId, Sema>)
  {
    forall w: nat :: (Waiter(w) in semas <==> Waiter(w) in semas') &&
      (Waiter(w) in semas ==>
        semas[Waiter(w)].downs == semas'[Waiter(w)].downs && semas[Waiter(w)].init == semas'[Waiter(w)].init)
  }

  lemma SameStagesMoves(st: State, op: Op, rest: seq<Op>, next: seq<Op>, semas': map<SemaId, Sema>)
    requires AtStep(st, op, rest) && SameStages(st.semas, semas') && UsesOwn(next, st.cur, st.owner)
    requires forall w, p :: WaitsInOrder([op] + rest, w, p) ==> WaitsInOrder(next, w, p)
    ensures WaitInv(Continue(st.(semas := semas'), next))
  {
    FactsAt(st, op, rest);
    assert forall w :: StageOf(semas', w) == StageOf(st.semas, w);
    OwnerMoves(st, next, semas');
  }

  lemma NoUnit(st: State, s: SemaId, op: Op, rest: seq<Op>)
    requires AtStep(st, op, rest) && (op == Down(s) || op == Retry(s)) && st.semas[s].value == 0
    ensures WaitInv(DownOnce(st, s, rest))
  {
    var semas' := st.semas[s := st.semas[s].(waiters := st.semas[s].waiters + [st.cur])];
    FactsAt(st, op, rest);
    Rest(Retry(s), rest);
    assert UsesItsOwn(Retry(s), st.cur, st.owner) by {
      forall w: nat | Uses(Retry(s), w) ensures w < |st.owner| && st.owner[w] == st.cur { assert Uses(op, w); }
    }
    forall w, p | WaitsInOrder([op] + rest, w, p) ensures WaitsInOrder([Retry(s)] + rest, w, p) {
      Rest(op, rest);
    }
    SameStagesMoves(st, op, rest, [Retry(s)] + rest, semas');
  }

  lemma GotUnit(st: State, s: SemaId, op: Op, rest: seq<Op>)
    requires AtStep(st, op, rest) && (op == Down(s) || op == Retry(s)) && st.semas[s].value > 0
    ensures WaitInv(DownOnce(st, s, rest))
  {
    var m := st.semas[s];
    var semas' := st.semas[s := m.(value := m.value - 1, downs := m.downs + 1)];
    FactsAt(st, op, rest);
    if s.Waiter? { assert Uses(op, s.w); }
    forall w | 0 <= w < |st.owner| && st.owner[w] == st.cur
      ensures WaitsInOrder(rest, w, StageOf(semas', w))
    {
      if s != Waiter(w) { SkipsOver(op, rest, w, StageOf(st.semas, w)); }
    }
    OwnerMoves(st, rest, semas');
  }

  lemma RegisterMoves(st: State, op: Op, rest: seq<Op>)
    requires AtStep(st, op, rest) && op.Register?
    ensures Waiter(op.w) !in st.semas
    ensures WaitInv(Continue(RegisterWaiter(st, op.c, op.w), rest))
  {
    var semas' := st.semas[Waiter(op.w) := Sema(0, [], 0, 0, 0)];
    FactsAt(st, op, rest);
    assert Uses(op, op.w);
    assert WaitsInOrder([op] + rest, op.w, StageOf(st.semas, op.w));
    forall w | 0 <= w < |st.owner| && st.owner[w] == st.cur
      ensures WaitsInOrder(rest, w, StageOf(semas', w))
    {
      if op.w != w { SkipsOver(op, rest, w, StageOf(st.semas, w)); }
    }
    OwnerMoves(st, rest, semas');
  }

  lemma PostUpStages(st: State, s: SemaId)
    requires s in st.semas
    ensures SameStages(st.semas, PostUp(st, s).semas)
    ensures PostUp(st, s).code == st.code && PostUp(st, s).owner == st.owner && PostUp(st, s).tids == st.tids
  {
  }

  /** The remaining steps use no waiter as its owner does. */
  lemma OtherMoves(st: State, op: Op, rest: seq<Op>)
    requires AtStep(st, op, rest) && !op.Register? && !op.Down? && !op.Retry? && !op.IdleLoop?
    ensures WaitInv(Exec(st, op, rest))
  {
    var st' := Exec(st, op, rest);
    if op.Up? { PostUpStages(st, op.s); }
    var next := st'.code[st.cur];
    FactsAt(st, op, rest);
    NextUsesOwn(st, op, rest);
    forall w, p | WaitsInOrder([op] + rest, w, p) ensures WaitsInOrder(next, w, p) {
      SkipsOver(op, rest, w, p);
      if op.Signal? && st.conds[op.c].waiters != [] { Prepend(Up(Waiter(st.conds[op.c].waiters[0])), rest, w, p); }
      if op.Broadcast? && st.conds[op.c].waiters != [] {
        Prepend(Signal(op.c, op.l), [op] + rest, w, p);
        assert next == [Signal(op.c, op.l)] + ([op] + rest);
      }
    }
    SameStagesMoves(st, op, rest, next, st'.semas);
  }

  lemma NextUsesOwn(st: State, op: Op, rest: seq<Op>)
    requires AtStep(st, op, rest) && !op.Register? && !op.Down? && !op.Retry? && !op.IdleLoop?
    ensures st.cur in Exec(st, op, rest).code && UsesOwn(Exec(st, op, rest).code[st.cur], st.cur, st.owner)
  {
    FactsAt(st, op, rest);
  }

  lemma RunWait(st: State, op: Op, rest: seq<Op>)
    requires AtStep(st, op, rest)
    ensures WaitInv(Exec(st, op, rest))
  {
    match op
    case Down(s) => if st.semas[s].value > 0 { GotUnit(st, s, op, rest); } else { NoUnit(st, s, op, rest); }
    case Retry(s) => if st.semas[s].value > 0 { GotUnit(st, s, op, rest); } else { NoUnit(st, s, op, rest); }
    case Register(c, l, w) => RegisterMoves(st, op, rest);
    case IdleLoop =>
    case _ => OtherMoves(st, op, rest);
  }

  // ---------------------------------------------------------------- every step

  lemma NewWait(st: State, c: nat)
    requires WaitInv(st) && Enabled(st, CallWait(c)) && st.cur in st.code && st.cur < st.tids
    ensures WaitInv(Next(st, CallWait(c)))
  {
    var w, l := |st.owner|, st.conds[c].lock;
    var code, owner' := WaitCode(c, l, w), st.owner + [st.cur];
    var st' := Next(st, CallWait(c));
    assert Waiter(w) !in st.semas;
    WaitCodeInOrder(c, l, w);
    forall v | 0 <= v < |owner'| && owner'[v] in st'.code
      ensures WaitsInOrder(st'.code[owner'[v]], v, StageOf(st.semas, v))
    {
      if owner'[v] != st.cur { assert st.owner[v] in st.code; }
    }
    forall t | t in st'.code ensures UsesOwn(st'.code[t], t, owner') {
      if t != st.cur { UsesOwnGrows(st.code[t], t, st.owner, owner'); }
    }
  }

  lemma UsesOwnGrows(code: seq<Op>, t: Tid, owner: seq<Tid>, owner': seq<Tid>)
    requires UsesOwn(code, t, owner) && owner <= owner'
    ensures UsesOwn(code, t, owner')
  {
    forall i | 0 <= i < |code| ensures UsesItsOwn(code[i], t, owner') {
      assert UsesItsOwn(code[i], t, owner);
    }
  }

  lemma WaitCodeInOrder(c: nat, l: nat, w: nat)
    ensures WaitsInOrder(WaitCode(c, l, w), w, Unborn)
    ensures forall v, p :: v != w ==> WaitsInOrder(WaitCode(c, l, w), v, p)
    ensures forall v: nat, i :: 0 <= i < |WaitCode(c, l, w)| && Uses(WaitCode(c, l, w)[i], v) ==> v == w
  {
    var after := [Down(OfLock(l)), SetHolder(l), Waited(l, w)];
    var asleep := [Down(Waiter(w))] + after;
    var releasing := [ClearHolder(l), Up(OfLock(l))] + asleep;
    assert WaitCode(c, l, w) == [Register(c, l, w)] + releasing;
    forall v, p | v == w ==> p == Passed ensures WaitsInOrder(after, v, p) {
      Prepend(SetHolder(l), [Waited(l, w)], v, p);
      assert [SetHolder(l)] + [Waited(l, w)] == [SetHolder(l), Waited(l, w)];
      Prepend(Down(OfLock(l)), [SetHolder(l), Waited(l, w)], v, p);
      assert after == [Down(OfLock(l))] + [SetHolder(l), Waited(l, w)];
    }
    Rest(Down(Waiter(w)), after);
    forall v, p | v == w ==> p == Pending ensures WaitsInOrder(releasing, v, p) {
      assert WaitsInOrder(asleep, v, p);
      Prepend(Up(OfLock(l)), asleep, v, p);
      Prepend(ClearHolder(l), [Up(OfLock(l))] + asleep, v, p);
      assert releasing == [ClearHolder(l)] + ([Up(OfLock(l))] + asleep);
    }
    Rest(Register(c, l, w), releasing);
  }

  lemma CallsWait(st: State, e: Event)
    requires WaitInv(st) && InClient(st) && st.cur in st.code && Enabled(st, e)
    requires e.CallDown? || e.CallUp? || e.CallAcquire? || e.CallRelease? || e.CallSignal? || e.CallBroadcast?
    ensures WaitInv(Next(st, e))
  {
    var next := Next(st, e).code[st.cur];
    assert UsesOwn(next, st.cur, st.owner);
    forall w, p ensures WaitsInOrder(next, w, p) {
      assert WaitsInOrder([], w, p);
      if |next| == 2 { assert next[1..][1..] == []; } else { assert next[1..] == []; }
    }
    OwnerMoves(st, next, st.semas);
  }

  lemma WaitKeeps(st: State, e: Event)
    requires WaitInv(st) && Enabled(st, e) && st.cur in st.code && st.cur < st.tids
    ensures WaitInv(Next(st, e))
  {
    match e
    case Run =>
      assert st.code[st.cur] == [Code(st)[0]] + Code(st)[1..];
      RunWait(st, Code(st)[0], Code(st)[1..]);
    case Yield =>
    case Irq(n) => PostUpStages(st, Plain(n));
    case Exit =>
    case Spawn =>
    case CallWait(c) => NewWait(st, c);
    case _ => CallsWait(st, e);
  }

  lemma WaitInit(st: State)
    requires Init(st)
    ensures WaitInv(st)
  {
  }
}
