/**
 What the invariant of SessionServer gives in every state of every run: wake-ups are not
 lost, sessions outlive their processing, the three tables agree, and nothing deadlocks.
 */
module SessionServerSafety {
  import opened SessionServer
  import opened SessionServerInvariant
  import opened SessionServerSteps

  // -------------------------------------------------------------- wake-ups

  /** A ready session is owed a scan by its worker, unless the dispatcher is still between marking
      it and setting should_wake; and its worker sleeps only while a signal is on its way. */
  lemma {:induction false} NoLostWakeUp(states: seq<State>, labels: seq<Label>, k: nat, x: Session)
    requires Run(states, labels) && Initial(states[0]) && k < |states|
    requires x in states[k].pool && states[k].pool[x].ready
    ensures var st := states[k]; var t := st.pool[x].thread;
            t < |st.ctx| == |st.workers|
            && (st.ctx[t].shouldWake || WillScan(st.workers[t], st.order, x) || Flushing(st.disp, x))
            && (st.workers[t].WAsleep? ==> Flushing(st.disp, x) || SignalPending(st.disp, t))
            && (st.disp.Idle? ==> !st.workers[t].WAsleep?)
  {
    RunKeepsInv(states, labels, k);
  }

  // -------------------------------------------------------------- lifetime

  /** The session a worker is about to process, or is processing. */
  predicate Serving(pc: WorkerPc, s: Session)
  {
    (pc.WCheck? || pc.WServe?) && pc.todo != [] && pc.todo[0] == s
  }

  /** While a worker processes s it holds the session mutex, s belongs to it, s is in the pool and in the
      session hash, s has been neither finalised nor freed nor closed, no other thread is inside the
      mutex, and the lookup at the head of server_process_session succeeds. */
  lemma {:induction false} ProcessedSessionsAreAlive(states: seq<State>, labels: seq<Label>, k: nat, t: nat, s: Session)
    requires Run(states, labels) && Initial(states[0]) && k < |states|
    requires t < |states[k].workers| && Serving(states[k].workers[t], s)
    ensures var st := states[k];
            && st.sessionsMutex == HeldBy(Worker(t))
            && s in st.pool && st.pool[s].thread == t
            && s < |st.objects| && st.objects[s].fd in st.hash && st.hash[st.objects[s].fd] == s
            && st.objects[s] == Object(st.objects[s].fd, 0, 0, 0)
            && Active(st.hash, st.objects, s)
            && (forall u :: 0 <= u < |st.workers| && u != t ==> !HoldsSessions(st.workers[u]))
            && !DispHoldsSessions(st.disp)
  {
    RunKeepsInv(states, labels, k);
    var st := states[k];
    assert BatchOk(st.workers[t], t, st.order, st.pool);
    assert s in Batch(st.workers[t]);
    assert CountOk(st.objects[s], Live(st.hash, st.objects, s), st.disp, s);
  }

  // ------------------------------------------------------------- the tables

  /** Between events the session hash, the pool and the poller name the same connections, one session for
      each fd, and exactly the sessions that have not been finalised. */
  lemma {:induction false} ThreeViewsAgree(states: seq<State>, labels: seq<Label>, k: nat)
    requires Run(states, labels) && Initial(states[0]) && k < |states| && states[k].disp.Idle?
    ensures var st := states[k];
            && st.poller == st.hash.Keys
            && (forall fd :: fd in st.hash ==> st.hash[fd] in st.pool)
            && (forall f, g :: f in st.hash && g in st.hash && st.hash[f] == st.hash[g] ==> f == g)
            && (forall s :: 0 <= s < |st.objects| ==>
                  if s in st.pool
                  then Live(st.hash, st.objects, s) && st.objects[s] == Object(st.objects[s].fd, 0, 0, 0)
                  else st.objects[s] == Object(st.objects[s].fd, 1, 1, 1))
  {
    RunKeepsInv(states, labels, k);
    var st := states[k];
    forall s | 0 <= s < |st.objects|
      ensures if s in st.pool then Live(st.hash, st.objects, s) && st.objects[s] == Object(st.objects[s].fd, 0, 0, 0)
              else st.objects[s] == Object(st.objects[s].fd, 1, 1, 1)
    {
      assert CountOk(st.objects[s], Live(st.hash, st.objects, s), st.disp, s);
    }
    assert forall fd :: fd in st.poller <==> fd in st.hash.Keys;
    assert forall fd :: fd in st.hash ==> Live(st.hash, st.objects, st.hash[fd]);
  }

  /** Once spool_destroy begins, the deleting loop of server_finalize has finalised, freed and closed every
      session ever created exactly once, and all three tables are empty. */
  lemma {:induction false} FinalizeReleasesEachSessionOnce(states: seq<State>, labels: seq<Label>, k: nat)
    requires Run(states, labels) && Initial(states[0]) && k < |states|
    requires states[k].disp.Stop? || states[k].disp.Done?
    ensures var st := states[k];
            && st.hash == map[] && st.pool == map[] && st.poller == {} && st.order == []
            && forall s :: 0 <= s < |st.objects| ==> st.objects[s] == Object(st.objects[s].fd, 1, 1, 1)
  {
    RunKeepsInv(states, labels, k);
    var st := states[k];
    StopTablesEmpty(st);
    forall s | 0 <= s < |st.objects|
      ensures st.objects[s] == Object(st.objects[s].fd, 1, 1, 1)
    {
      assert CountOk(st.objects[s], Live(st.hash, st.objects, s), st.disp, s);
    }
  }

  lemma {:induction false} EmptyOrHasMember<T>(xs: seq<T>)
    ensures xs == [] || exists x :: x in xs
  {
    if xs != [] {
      assert xs[0] in xs;
    }
  }

  lemma {:induction false} StopTablesEmpty(st: State)
    requires Inv(st) && (st.disp.Stop? || st.disp.Done?)
    ensures st.hash == map[] && st.pool == map[] && st.poller == {} && st.order == []
  {
    assert st.hashOrder == [];
    assert forall fd :: fd !in st.hash;
    assert forall fd :: fd !in st.poller;
    assert forall s :: s !in st.pool;
    EmptyOrHasMember(st.order);
  }

  // ------------------------------------------------------------- deadlock

  /** No thread waits for the session mutex while it holds a context mutex. */
  lemma {:induction false} LockOrder(states: seq<State>, labels: seq<Label>, k: nat, t: nat)
    requires Run(states, labels) && Initial(states[0]) && k < |states| && t < |states[k].ctx|
    ensures var st := states[k];
            && (WantsSessions(st.disp) ==> st.ctx[t].mutex != HeldBy(Dispatcher))
            && (forall u :: 0 <= u < |st.workers| && st.workers[u].WLockSessions? ==>
                  st.ctx[t].mutex != HeldBy(Worker(u)))
  {
    RunKeepsInv(states, labels, k);
    assert CtxMutexOk(states[k].ctx[t].mutex, states[k].workers[t], states[k].disp, t);
  }

  /** Thread th has a step to take now. */
  predicate CanMove(st: State, th: Thread)
    requires |st.ctx| == |st.workers|
  {
    match th
    case Dispatcher => Enabled(st, DispatcherStep)
    case Worker(t) => Enabled(st, WorkerStep(t))
  }

  /** Thread th is in the middle of something: it does not sleep, has not exited and is not waiting for events. */
  predicate Busy(st: State, th: Thread)
  {
    match th
    case Dispatcher => !st.disp.Idle? && !st.disp.Done?
    case Worker(t) => t < |st.workers| && !st.workers[t].WAsleep? && !st.workers[t].WExited?
  }

  /** The thread that th waits for, when th cannot move: the holder of the mutex it wants, or the worker it joins. */
  function WaitsFor(st: State, th: Thread): Option<Thread>
    requires |st.ctx| == |st.workers|
  {
    match th
    case Worker(t) =>
      if t >= |st.ctx| then None
      else if st.workers[t].WLockSessions? then Holder(st.sessionsMutex)
      else Holder(st.ctx[t].mutex)
    case Dispatcher =>
      if WantsSessions(st.disp) then Holder(st.sessionsMutex)
      else if WantedCtx(st.disp).Some? && WantedCtx(st.disp).value < |st.ctx| then
        Holder(st.ctx[WantedCtx(st.disp).value].mutex)
      else if st.disp.Stop? then Some(Worker(st.disp.i))
      else None
  }

  function Holder(m: Mutex): Option<Thread>
  {
    if m.HeldBy? then Some(m.who) else None
  }

  /** A worker that holds a mutex can always move. */
  lemma {:induction false} HoldersMove(st: State, t: nat)
    requires Inv(st) && t < |st.ctx|
    requires st.sessionsMutex == HeldBy(Worker(t)) || st.ctx[t].mutex == HeldBy(Worker(t))
    ensures CanMove(st, Worker(t))
  {
    assert CtxMutexOk(st.ctx[t].mutex, st.workers[t], st.disp, t);
  }

  /** A blocked dispatcher waits for a worker, and a blocked worker for a worker that can move or for the dispatcher. */
  lemma {:induction false} WorkerWaits(st: State, t: nat)
    requires Inv(st) && t < |st.workers| && Busy(st, Worker(t)) && !CanMove(st, Worker(t))
    ensures WaitsFor(st, Worker(t)).Some?
    ensures var th := WaitsFor(st, Worker(t)).value; th == Dispatcher || CanMove(st, th)
    ensures WaitsFor(st, Worker(t)) == Some(Dispatcher) ==>
              Busy(st, Dispatcher) && !(st.disp.Stop? && st.disp.stop.JWait?)
  {
  }

  lemma {:induction false} DispatcherWaits(st: State)
    requires Inv(st) && Busy(st, Dispatcher) && !CanMove(st, Dispatcher)
    ensures WaitsFor(st, Dispatcher).Some? && WaitsFor(st, Dispatcher).value.Worker?
    ensures var th := WaitsFor(st, Dispatcher).value; Busy(st, th)
    ensures !(st.disp.Stop? && st.disp.stop.JWait?) ==> CanMove(st, WaitsFor(st, Dispatcher).value)
  {
    var d := st.disp;
    if WantsSessions(d) {
      if st.sessionsMutex.HeldBy? && st.sessionsMutex.who.Worker? {
        HoldersMove(st, st.sessionsMutex.who.id);
      }
    } else {
      var t := if WantedCtx(d).Some? then WantedCtx(d).value else d.i;
      assert CtxMutexOk(st.ctx[t].mutex, st.workers[t], d, t) && FlagsOk(st.ctx[t], st.workers[t], d, t);
      if st.ctx[t].mutex == HeldBy(Worker(t)) {
        HoldersMove(st, t);
      }
    }
  }

  /** No deadlock: a thread in the middle of something can move, or waits for a thread that can move, or waits
      for a thread that waits for one that can, or joins a worker of one of these kinds. */
  lemma {:induction false} NoDeadlock(states: seq<State>, labels: seq<Label>, k: nat, th: Thread)
    requires Run(states, labels) && Initial(states[0]) && k < |states| && Busy(states[k], th)
    ensures |states[k].ctx| == |states[k].workers| && Unblocks(states[k], th, 3)
  {
    RunKeepsInv(states, labels, k);
    BusyUnblocks(states[k], th);
  }

  /** Following WaitsFor from th at most n times ends at a thread that can move. */
  predicate Unblocks(st: State, th: Thread, n: nat)
    requires |st.ctx| == |st.workers|
    decreases n
  {
    CanMove(st, th) || (n > 0 && WaitsFor(st, th).Some? && Unblocks(st, WaitsFor(st, th).value, n - 1))
  }

  lemma {:induction false} BusyUnblocks(st: State, th: Thread)
    requires Inv(st) && Busy(st, th)
    ensures Unblocks(st, th, 3)
  {
    if th.Worker? {
      WorkerUnblocks(st, th.id);
    } else if !CanMove(st, Dispatcher) {
      DispatcherWaits(st);
      var w := WaitsFor(st, Dispatcher).value.id;
      if !CanMove(st, Worker(w)) {
        WorkerWaits(st, w);
        var th2 := WaitsFor(st, Worker(w)).value;
        assert CanMove(st, th2);
        assert Unblocks(st, th2, 1);
        assert Unblocks(st, Worker(w), 2);
      }
      assert Unblocks(st, Worker(w), 2);
    }
  }

  lemma {:induction false} WorkerUnblocks(st: State, t: nat)
    requires Inv(st) && Busy(st, Worker(t))
    ensures Unblocks(st, Worker(t), 3)
  {
    if !CanMove(st, Worker(t)) {
      WorkerWaits(st, t);
      var th := WaitsFor(st, Worker(t)).value;
      if th.Dispatcher? && !CanMove(st, th) {
        DispatcherWaits(st);
        assert Unblocks(st, WaitsFor(st, th).value, 1);
      }
      assert Unblocks(st, th, 2);
    }
  }
}
