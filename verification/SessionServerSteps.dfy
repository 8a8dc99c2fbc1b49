/** Each step of SessionServer keeps each part of the invariant. */
module SessionServerSteps {
  import opened Sequences
  import opened SessionServer
  import opened SessionServerInvariant

  // ---------------------------------------------------------- sequence facts

  lemma {:induction false} RemoveFacts<T>(xs: seq<T>, x: T)
    requires Distinct(xs)
    ensures Distinct(Remove(xs, x))
    ensures forall y :: y in Remove(xs, x) <==> y in xs && y != x
  {
    var i := IndexOf(xs, x);
    var r := Remove(xs, x);
    if i < |xs| {
      assert forall k :: 0 <= k < |r| ==> r[k] == if k < i then xs[k] else xs[k+1];
      forall y | y in xs && y != x
        ensures y in r
      {
        var k :| 0 <= k < |xs| && xs[k] == y;
        assert r[if k < i then k else k - 1] == y;
      }
    }
  }

  lemma {:induction false} RemoveFirst<T>(xs: seq<T>, x: T)
    requires xs != [] && xs[0] == x
    ensures Remove(xs, x) == xs[1..]
  {
  }

  /** The deleting loop of server_finalize: the saved element is the new head, and its successor follows it. */
  lemma {:induction false} NextOfFirst(xs: seq<Fd>)
    ensures NextOf(xs, At(xs, 0)) == At(xs, 1)
  {
  }

  // ------------------------------------------------------------ worker steps

  predicate WorkerMoves(st: State, t: nat, c: Ctx, pc: WorkerPc)
  {
    && t < |st.workers| == |st.ctx| && WorkerEnabled(st.workers[t], st.ctx[t], st.sessionsMutex)
    && c == WorkerCtx(st.workers[t], st.ctx[t], t) && pc == WorkerNext(st, t)
  }

  lemma {:induction false} WorkerThread(st: State, t: nat, c: Ctx, pc: WorkerPc)
    requires WorkerMoves(st, t, c, pc) && ThreadsOk(st.ctx, st.workers, st.disp)
    ensures CtxMutexOk(c.mutex, pc, st.disp, t) && FlagsOk(c, pc, st.disp, t)
  {
  }

  lemma {:induction false} WorkerSessions(st: State, t: nat, c: Ctx, pc: WorkerPc)
    requires WorkerMoves(st, t, c, pc) && SessionsMutexOk(st.sessionsMutex, st.workers, st.disp)
    ensures SessionsMutexOk(WorkerSessionsMutex(st.workers[t], st.sessionsMutex, t), st.workers[t := pc], st.disp)
  {
  }

  lemma {:induction false} WorkerBatches(st: State, t: nat, c: Ctx, pc: WorkerPc)
    requires WorkerMoves(st, t, c, pc) && BatchesOk(st.workers, st.order, st.pool)
    ensures BatchesOk(st.workers[t := pc], st.order, WorkerPool(st.workers[t], st.order, st.pool, t))
  {
    assert BatchOk(st.workers[t], t, st.order, st.pool);
    var pool' := WorkerPool(st.workers[t], st.order, st.pool, t);
    var workers' := st.workers[t := pc];
    forall u | 0 <= u < |st.workers|
      ensures BatchOk(workers'[u], u, st.order, pool')
    {
      assert BatchOk(st.workers[u], u, st.order, st.pool);
    }
  }

  lemma {:induction false} ScanWakes(st: State, t: nat, c: Ctx, pc: WorkerPc)
    requires WorkerMoves(st, t, c, pc) && PoolOk(st.order, st.pool, |st.ctx|) && st.workers[t].WScan?
    requires WakeOk(st.ctx, st.workers, st.disp, st.order, st.pool)
    ensures WakeOk(st.ctx, st.workers[t := pc], st.disp, st.order, WorkerPool(st.workers[t], st.order, st.pool, t))
  {
    var was, order, pool' := st.workers[t], st.order, WorkerPool(st.workers[t], st.order, st.pool, t);
    forall x | x in pool' && pool'[x].ready && pool'[x].thread < |st.ctx|
      ensures st.ctx[pool'[x].thread].shouldWake || Flushing(st.disp, x)
              || WillScan(st.workers[t := pc][pool'[x].thread], order, x)
    {
      assert st.pool[x] == pool'[x];
      if was.pos < |order| {
        SuffixStep(order, was.pos, x);
      }
    }
  }

  lemma {:induction false} SuffixStep<T>(xs: seq<T>, pos: nat, x: T)
    requires pos < |xs|
    ensures x in xs[pos..] <==> x == xs[pos] || x in xs[pos+1..]
  {
    assert xs[pos..] == [xs[pos]] + xs[pos+1..];
  }

  lemma {:induction false} WorkerWakes(st: State, t: nat, c: Ctx, pc: WorkerPc)
    requires WorkerMoves(st, t, c, pc) && PoolOk(st.order, st.pool, |st.ctx|)
    requires WakeOk(st.ctx, st.workers, st.disp, st.order, st.pool)
    ensures WakeOk(st.ctx[t := c], st.workers[t := pc], st.disp, st.order,
                   WorkerPool(st.workers[t], st.order, st.pool, t))
  {
    var was := st.workers[t];
    if was.WScan? {
      ScanWakes(st, t, c, pc);
      assert st.ctx[t := c] == st.ctx;
    } else if was.WLockSessions? {
      assert st.order[0..] == st.order;
    }
  }

  lemma {:induction false} WorkerKeepsInv(st: State, t: nat)
    requires Inv(st) && Enabled(st, WorkerStep(t))
    ensures Inv(WorkerApply(st, t))
  {
    var st' := WorkerApply(st, t);
    var c, pc := st'.ctx[t], st'.workers[t];
    WorkerThread(st, t, c, pc);
    WorkerSessions(st, t, c, pc);
    WorkerBatches(st, t, c, pc);
    WorkerWakes(st, t, c, pc);
    assert st'.pool.Keys == st.pool.Keys;
    assert forall s :: s in st.pool ==> st'.pool[s].thread == st.pool[s].thread;
  }

  // -------------------------------------------------------- dispatcher steps

  predicate DispatcherMoves(st: State, d: DispatcherPc)
  {
    && |st.ctx| == |st.workers| > 0
    && DispatcherEnabled(st.disp, st.sessionsMutex, st.ctx, st.workers) && d == DispatcherNext(st)
  }

  lemma {:induction false} DispatcherRange(st: State, d: DispatcherPc)
    requires DispatcherMoves(st, d) && InRange(st.disp, |st.ctx|) && PoolOk(st.order, st.pool, |st.ctx|)
    ensures InRange(d, |st.ctx|)
  {
  }

  lemma {:induction false} DispatcherCtxMutex(st: State, d: DispatcherPc, t: nat)
    requires DispatcherMoves(st, d) && InRange(st.disp, |st.ctx|) && t < |st.ctx|
    requires CtxMutexOk(st.ctx[t].mutex, st.workers[t], st.disp, t) && FlagsOk(st.ctx[t], st.workers[t], st.disp, t)
    ensures CtxMutexOk(DispatcherCtx(st.disp, st.ctx[t], t).mutex, DispatcherWorker(st.disp, st.workers[t], t), d, t)
  {
  }

  lemma {:induction false} DispatcherFlags(st: State, d: DispatcherPc, t: nat)
    requires DispatcherMoves(st, d) && InRange(st.disp, |st.ctx|) && t < |st.ctx|
    requires FlagsOk(st.ctx[t], st.workers[t], st.disp, t)
    ensures FlagsOk(DispatcherCtx(st.disp, st.ctx[t], t), DispatcherWorker(st.disp, st.workers[t], t), d, t)
  {
  }

  lemma {:induction false} DispatcherSessions(st: State, st': State)
    requires DispatcherMoves(st, st'.disp) && st' == DispatcherApply(st)
    requires SessionsMutexOk(st.sessionsMutex, st.workers, st.disp) && ThreadsOk(st.ctx, st.workers, st.disp)
    ensures SessionsMutexOk(st'.sessionsMutex, st'.workers, st'.disp)
  {
  }

  lemma {:induction false} DispatcherPoolOk(st: State, d: DispatcherPc)
    requires DispatcherMoves(st, d) && InRange(st.disp, |st.ctx|) && PoolOk(st.order, st.pool, |st.ctx|)
    requires PoolMatchesHash(st.pool, st.hash, st.objects, st.disp)
    ensures PoolOk(DispatcherOrder(st.disp, st.order), DispatcherPool(st.disp, st.pool), |st.ctx|)
  {
    if st.disp.Drop? && st.disp.drop.DDelete? {
      RemoveFacts(st.order, st.disp.s);
    }
  }

  lemma {:induction false} DispatcherOrderOk(st: State)
    requires OrderOk(st.hashOrder, st.hash) && LocalsOk(st.disp, st.hash, st.objects, st.pool)
    ensures OrderOk(DispatcherHashOrder(st.disp, st.hashOrder), DispatcherHash(st.disp, st.hash, |st.objects|))
  {
    if st.disp.Drop? && st.disp.drop.DUnhash? {
      RemoveFacts(st.hashOrder, st.disp.fd);
    }
  }

  lemma {:induction false} DispatcherHashOk(st: State)
    requires HashOk(st.hash, st.objects)
    ensures HashOk(DispatcherHash(st.disp, st.hash, |st.objects|), DispatcherObjects(st.disp, st.objects))
  {
  }

  /** Which sessions are live after the dispatcher's step. */
  lemma {:induction false} DispatcherLive(st: State, st': State)
    requires DispatcherMoves(st, st'.disp) && st' == DispatcherApply(st)
    requires HashOk(st.hash, st.objects)
    requires LocalsOk(st.disp, st.hash, st.objects, st.pool)
    ensures forall s :: Live(st'.hash, st'.objects, s) <==>
              (Live(st.hash, st.objects, s) && !(st.disp.Drop? && st.disp.drop.DUnhash? && st.disp.s == s))
              || (st.disp.Conn? && st.disp.conn.CCreate? && s == |st.objects|)
  {
  }

  lemma {:induction false} DispatcherPoolHash(st: State, st': State, s: Session)
    requires DispatcherMoves(st, st'.disp) && st' == DispatcherApply(st)
    requires HashOk(st.hash, st.objects)
    requires s in st.pool <==> Live(st.hash, st.objects, s) && !Connecting(st.disp, s) && !Dropping(st.disp, s)
    requires LocalsOk(st.disp, st.hash, st.objects, st.pool)
    ensures s in st'.pool <==> Live(st'.hash, st'.objects, s) && !Connecting(st'.disp, s) && !Dropping(st'.disp, s)
  {
    DispatcherLive(st, st');
  }

  lemma {:induction false} DispatcherPollerHash(st: State, st': State)
    requires DispatcherMoves(st, st'.disp) && st' == DispatcherApply(st)
    requires PollerMatchesHash(st.poller, st.hash, st.disp)
    requires LocalsOk(st.disp, st.hash, st.objects, st.pool)
    ensures PollerMatchesHash(st'.poller, st'.hash, st'.disp)
  {
  }

  lemma {:induction false} DispatcherCounts(st: State, st': State)
    requires DispatcherMoves(st, st'.disp) && st' == DispatcherApply(st)
    requires HashOk(st.hash, st.objects) && CountsOk(st.hash, st.objects, st.disp)
    requires LocalsOk(st.disp, st.hash, st.objects, st.pool)
    ensures CountsOk(st'.hash, st'.objects, st'.disp)
  {
    hide LeastPopulated, Load, IndexOf, Remove, DispatcherCtx, DispatcherWorker, DispatcherOrder;
    hide DispatcherHashOrder, DispatcherPool, DispatcherPoller;
    DispatcherLive(st, st');
  }

  lemma {:induction false} DispatcherLocals(st: State, st': State)
    requires DispatcherMoves(st, st'.disp) && st' == DispatcherApply(st)
    requires HashOk(st.hash, st.objects)
    requires PoolMatchesHash(st.pool, st.hash, st.objects, st.disp)
    requires LocalsOk(st.disp, st.hash, st.objects, st.pool)
    ensures LocalsOk(st'.disp, st'.hash, st'.objects, st'.pool)
  {
    hide LeastPopulated, Load, IndexOf, Remove, DispatcherCtx, DispatcherWorker, DispatcherOrder, DispatcherHashOrder;
    DispatcherLive(st, st');
  }

  lemma {:induction false} DropLoop(d: DispatcherPc, hashOrder: seq<Fd>, pool: map<Session, Entry>)
    requires d.Drop? && LoopOk(d, hashOrder)
    ensures LoopOk(DropNext(d, pool, hashOrder), DispatcherHashOrder(d, hashOrder))
  {
    hide Remove, IndexOf, NextOf;
    NextOfFirst(hashOrder);
    if d.drop.DUnhash? && d.ret.ToLoop? {
      RemoveFirst(hashOrder, d.fd);
    }
  }

  lemma {:induction false} FinLoop(d: DispatcherPc, hashOrder: seq<Fd>, hash: map<Fd, Session>)
    requires d.Fin? && LoopOk(d, hashOrder) && OrderOk(hashOrder, hash)
    ensures LoopOk(FinNext(d, hashOrder, hash), hashOrder)
  {
    if d.el.Some? {
      assert hashOrder[0] == d.el.value;
      assert hashOrder[0] in hash;
    }
  }

  lemma {:induction false} DispatcherLoop(st: State)
    requires |st.ctx| > 0 && OrderOk(st.hashOrder, st.hash) && LoopOk(st.disp, st.hashOrder)
    ensures LoopOk(DispatcherNext(st), DispatcherHashOrder(st.disp, st.hashOrder))
  {
    if st.disp.Drop? {
      DropLoop(st.disp, st.hashOrder, st.pool);
    } else if st.disp.Fin? {
      FinLoop(st.disp, st.hashOrder, st.hash);
    }
  }

  lemma {:induction false} DispatcherBatches(st: State, st': State)
    requires DispatcherMoves(st, st'.disp) && st' == DispatcherApply(st)
    requires SessionsMutexOk(st.sessionsMutex, st.workers, st.disp)
    requires LocalsOk(st.disp, st.hash, st.objects, st.pool)
    requires PoolMatchesHash(st.pool, st.hash, st.objects, st.disp)
    requires BatchesOk(st.workers, st.order, st.pool)
    ensures BatchesOk(st'.workers, st'.order, st'.pool)
  {
    forall u | 0 <= u < |st.workers|
      ensures BatchOk(st'.workers[u], u, st'.order, st'.pool)
    {
      assert BatchOk(st.workers[u], u, st.order, st.pool);
    }
  }

  lemma {:induction false} DispatcherWakes(st: State, st': State)
    requires DispatcherMoves(st, st'.disp) && st' == DispatcherApply(st)
    requires SessionsMutexOk(st.sessionsMutex, st.workers, st.disp)
    requires LocalsOk(st.disp, st.hash, st.objects, st.pool)
    requires PoolMatchesHash(st.pool, st.hash, st.objects, st.disp)
    requires WakeOk(st.ctx, st.workers, st.disp, st.order, st.pool)
    ensures WakeOk(st'.ctx, st'.workers, st'.disp, st'.order, st'.pool)
  {
  }

  lemma {:induction false} DispatcherKeepsInv(st: State)
    requires Inv(st) && Enabled(st, DispatcherStep)
    ensures Inv(DispatcherApply(st))
  {
    var st' := DispatcherApply(st);
    DispatcherRange(st, st'.disp);
    forall t | 0 <= t < |st.ctx|
      ensures CtxMutexOk(st'.ctx[t].mutex, st'.workers[t], st'.disp, t) &&
                FlagsOk(st'.ctx[t], st'.workers[t], st'.disp, t)
    {
      DispatcherCtxMutex(st, st'.disp, t);
      DispatcherFlags(st, st'.disp, t);
    }
    DispatcherSessions(st, st');
    DispatcherPoolOk(st, st'.disp);
    DispatcherOrderOk(st);
    DispatcherHashOk(st);
    forall s: Session
      ensures s in st'.pool <==> Live(st'.hash, st'.objects, s) && !Connecting(st'.disp, s) && !Dropping(st'.disp, s)
    {
      DispatcherPoolHash(st, st', s);
    }
    DispatcherPollerHash(st, st');
    DispatcherCounts(st, st');
    DispatcherLocals(st, st');
    DispatcherLoop(st);
    DispatcherBatches(st, st');
    DispatcherWakes(st, st');
  }

  // ------------------------------------------------------------------- runs

  lemma {:induction false} InitialInv(st: State)
    requires Initial(st)
    ensures Inv(st)
  {
  }

  lemma {:induction false} SpuriousWakeKeepsInv(st: State, t: nat)
    requires Inv(st) && Enabled(st, SpuriousWake(t))
    ensures Inv(Apply(st, SpuriousWake(t)))
  {
    assert BatchOk(st.workers[t], t, st.order, st.pool);
  }

  lemma {:induction false} EventKeepsInv(st: State, l: Label)
    requires Inv(st) && Enabled(st, l) && st.disp.Idle? && !l.SpuriousWake? && !l.WorkerStep?
    ensures Inv(Apply(st, l))
  {
    var st' := Apply(st, l);
    assert st' == st.(disp := st'.disp);
    forall t | 0 <= t < |st.ctx|
      ensures CtxMutexOk(st'.ctx[t].mutex, st'.workers[t], st'.disp, t) &&
                FlagsOk(st'.ctx[t], st'.workers[t], st'.disp, t)
    {
      assert CtxMutexOk(st.ctx[t].mutex, st.workers[t], st.disp, t) && FlagsOk(st.ctx[t], st.workers[t], st.disp, t);
    }
  }

  lemma {:induction false} StepKeepsInv(st: State, l: Label)
    requires Inv(st) && Enabled(st, l)
    ensures Inv(Apply(st, l))
  {
    match l
    case WorkerStep(t) => WorkerKeepsInv(st, t);
    case DispatcherStep => DispatcherKeepsInv(st);
    case SpuriousWake(t) => SpuriousWakeKeepsInv(st, t);
    case _ => EventKeepsInv(st, l);
  }

  /** Every state of every run satisfies the invariant. */
  lemma {:induction false} RunKeepsInv(states: seq<State>, labels: seq<Label>, k: nat)
    requires Run(states, labels) && Initial(states[0]) && k < |states|
    ensures Inv(states[k])
  {
    if k == 0 {
      InitialInv(states[0]);
    } else {
      RunKeepsInv(states, labels, k - 1);
      StepKeepsInv(states[k-1], labels[k-1]);
    }
  }
}
