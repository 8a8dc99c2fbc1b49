/**
 The invariant of every run of SessionServer, part by part.
 */
module SessionServerInvariant {
  import opened Sequences
  import opened SessionServer

  // ------------------------------------------------------- who holds what

  predicate HoldsSessions(pc: WorkerPc)
  {
    pc.WScan? || pc.WCheck? || pc.WServe? || pc.WUnlockSessions?
  }

  predicate HoldsCtx(pc: WorkerPc)
  {
    pc.WTestWake? || pc.WConsume? || pc.WUnlockCtx?
  }

  predicate DispHoldsSessions(d: DispatcherPc)
  {
    || (d.Conn? && (d.conn.CInsert? || d.conn.CUnlock?))
    || (d.Flush? && (d.flush.FMark? || d.flush.FUnlock?))
    || (d.Drop? && (d.drop.DFind? || d.drop.DLockCtx? || d.drop.DDelete? || d.drop.DUnlockCtx? || d.drop.DUnlock?))
    || (d.Stop? && (d.stop.SLockCtx? || d.stop.SClear? || d.stop.SFlag? || d.stop.SUnlockCtx? || d.stop.SUnlock?))
  }

  predicate DispHoldsCtx(d: DispatcherPc, t: nat)
  {
    || (d.Flush? && (d.flush.FWake? || d.flush.FSignal? || d.flush.FUnlockCtx?) && d.t == t)
    || (d.Drop? && (d.drop.DDelete? || d.drop.DUnlockCtx?) && d.t == t)
    || (d.Stop? && d.i == t
        && (d.stop.SClear? || d.stop.SFlag? || d.stop.SUnlockCtx? || d.stop.JSignal? || d.stop.JUnlock?))
  }

  // ------------------------------------------- how far spool_destroy has come

  /** spool_destroy has flagged every thread and is joining them, or is done. */
  predicate AllFlagged(d: DispatcherPc)
  {
    d.Done? || (d.Stop? && (d.stop.SUnlock? || InJoin(d.stop) || d.stop.SDestroy?))
  }

  predicate InJoin(pc: StopPc)
  {
    pc.JLock? || pc.JSignal? || pc.JUnlock? || pc.JWait? || pc.JDestroy?
  }

  /** thread_running[t] has been cleared. */
  predicate Cleared(d: DispatcherPc, t: nat)
  {
    || AllFlagged(d)
    || (d.Stop? && (d.stop.SLockCtx? || d.stop.SClear?) && t < d.i)
    || (d.Stop? && (d.stop.SFlag? || d.stop.SUnlockCtx?) && t <= d.i)
  }

  /** should_wake of t has been set for the last time. */
  predicate Flagged(d: DispatcherPc, t: nat)
  {
    Cleared(d, t) && !(d.Stop? && d.stop.SFlag? && t == d.i)
  }

  /** The mutex and condition variable of t have been destroyed. */
  predicate Torn(d: DispatcherPc, t: nat)
  {
    d.Done? || (d.Stop? && (d.stop.SDestroy? || (InJoin(d.stop) && t < d.i)))
  }

  /** t has been joined. */
  predicate Joined(d: DispatcherPc, t: nat)
  {
    Torn(d, t) || (d.Stop? && d.stop.JDestroy? && t == d.i)
  }

  /** The dispatcher has still to signal t. */
  predicate SignalPending(d: DispatcherPc, t: nat)
  {
    || (d.Flush? && d.flush.FSignal? && d.t == t)
    || (Flagged(d, t) && !Torn(d, t)
        && !(d.Stop? && t == d.i && (d.stop.JUnlock? || d.stop.JWait? || d.stop.JDestroy?)))
  }

  /** A worker that has cleared should_wake and has not come back to the top of its loop for another round. */
  predicate PastConsume(pc: WorkerPc)
  {
    pc.WUnlockCtx? || pc.WLockSessions? || HoldsSessions(pc) || pc.WTest? || pc.WExited?
  }

  // ------------------------------------------------------------ the parts

  /** The dispatcher's thread index is in range. */
  predicate InRange(d: DispatcherPc, n: nat)
  {
    (d.Conn? || d.Flush? || d.Drop? ==> d.t < n) && (d.Stop? ==> d.i < n)
  }

  /** The session mutex is held by exactly the thread whose program counter says so. */
  ghost predicate SessionsMutexOk(m: Mutex, workers: seq<WorkerPc>, d: DispatcherPc)
  {
    && (forall t :: 0 <= t < |workers| ==> (HoldsSessions(workers[t]) <==> m == HeldBy(Worker(t))))
    && (DispHoldsSessions(d) <==> m == HeldBy(Dispatcher))
    && (m.HeldBy? && m.who.Worker? ==> m.who.id < |workers|)
    && (m.Destroyed? <==> d.Done?)
  }

  /** So is the context mutex of thread t, and no other worker ever holds it. */
  predicate CtxMutexOk(m: Mutex, pc: WorkerPc, d: DispatcherPc, t: nat)
  {
    && (HoldsCtx(pc) <==> m == HeldBy(Worker(t)))
    && (DispHoldsCtx(d, t) <==> m == HeldBy(Dispatcher))
    && (m.HeldBy? ==> m.who == Dispatcher || m.who == Worker(t))
    && (m.Destroyed? <==> Torn(d, t))
  }

  /** thread_running, should_wake and sleep of thread t, in shutdown and outside it. */
  predicate FlagsOk(c: Ctx, pc: WorkerPc, d: DispatcherPc, t: nat)
  {
    && (c.running <==> !Cleared(d, t))
    && (pc.WExited? ==> !c.running)
    && (pc.WConsume? ==> c.shouldWake)
    && (Flagged(d, t) ==> c.shouldWake || PastConsume(pc))
    && (pc.WAsleep? && c.shouldWake ==> SignalPending(d, t))
    && (Joined(d, t) ==> pc.WExited?)
  }

  ghost predicate ThreadsOk(ctx: seq<Ctx>, workers: seq<WorkerPc>, d: DispatcherPc)
  {
    && |ctx| == |workers| > 0
    && InRange(d, |ctx|)
    && forall t :: 0 <= t < |workers| ==>
         CtxMutexOk(ctx[t].mutex, workers[t], d, t) && FlagsOk(ctx[t], workers[t], d, t)
  }

  /** The session map of the pool. */
  ghost predicate PoolOk(order: seq<Session>, pool: map<Session, Entry>, n: nat)
  {
    && Distinct(order)
    && (forall s :: s in order <==> s in pool)
    && (forall s :: s in pool ==> pool[s].thread < n)
  }

  /** s is the session that the session hash gives for its own fd. */
  predicate Live(hash: map<Fd, Session>, objects: seq<Object>, s: Session)
  {
    s < |objects| && objects[s].fd in hash && hash[objects[s].fd] == s
  }

  /** Sessions in the session hash that the dispatcher has not put into the pool yet. */
  predicate Connecting(d: DispatcherPc, s: Session)
  {
    d.Conn? && d.s == s && (d.conn.CPick? || d.conn.CLock? || d.conn.CInsert?)
  }

  /** Sessions in the session hash that the dispatcher has already taken out of the pool. */
  predicate Dropping(d: DispatcherPc, s: Session)
  {
    d.Drop? && d.s == s
    && (d.drop.DUnlockCtx? || d.drop.DUnlock? || d.drop.DFinalise? || d.drop.DFree? || d.drop.DUnhash?)
  }

  /** fds polled without a session in the session hash. */
  predicate PollOnly(d: DispatcherPc, fd: Fd)
  {
    (d.Conn? && d.conn.CCreate? && d.fd == fd) || (d.Drop? && d.drop.DUnpoll? && d.fd == fd)
  }

  /** The session hash's iteration order names each fd once. */
  ghost predicate OrderOk(hashOrder: seq<Fd>, hash: map<Fd, Session>)
  {
    Distinct(hashOrder) && forall fd :: fd in hashOrder <==> fd in hash
  }

  /** The session hash: one live session per fd. */
  ghost predicate HashOk(hash: map<Fd, Session>, objects: seq<Object>)
  {
    forall fd :: fd in hash ==> hash[fd] < |objects| && objects[hash[fd]].fd == fd
  }

  /** The pool and the session hash, and how they differ in the middle of a handler. */
  ghost predicate PoolMatchesHash(pool: map<Session, Entry>, hash: map<Fd, Session>, objects: seq<Object>,
          d: DispatcherPc)
  {
    forall s :: s in pool <==> Live(hash, objects, s) && !Connecting(d, s) && !Dropping(d, s)
  }

  /** The poller and the session hash, likewise. */
  ghost predicate PollerMatchesHash(poller: set<Fd>, hash: map<Fd, Session>, d: DispatcherPc)
  {
    forall fd :: fd in poller <==> fd in hash || PollOnly(d, fd)
  }

  /** What the dispatcher's local variables name. */
  predicate LocalsOk(d: DispatcherPc, hash: map<Fd, Session>, objects: seq<Object>, pool: map<Session, Entry>)
  {
    match d
    case Conn(pc, fd, s, t) =>
      && (pc.CPoll? || pc.CCreate? ==> fd !in hash)
      && (pc.CPick? || pc.CLock? || pc.CInsert? ==> Live(hash, objects, s))
    case Flush(pc, s, t) =>
      Live(hash, objects, s) && (!pc.FFind? ==> s in pool && pool[s].thread == t)
    case Drop(pc, s, fd, t, ret) =>
      && s < |objects| && objects[s].fd == fd
      && (if pc.DUnpoll? || pc.DClose? then fd !in hash else Live(hash, objects, s))
      && (pc.DLockCtx? || pc.DDelete? ==> s in pool && pool[s].thread == t)
    case _ => true
  }

  /** server_finalize: the loop is at the head of what is left of the session hash, and has saved its successor. */
  predicate LoopOk(d: DispatcherPc, hashOrder: seq<Fd>)
  {
    match d
    case Drop(pc, s, fd, t, ret) =>
      ret.ToLoop? ==>
        if pc.DUnpoll? || pc.DClose? then ret.tmp == At(hashOrder, 0)
        else At(hashOrder, 0) == Some(fd) && ret.tmp == At(hashOrder, 1)
    case Fin(el, tmp) => el == At(hashOrder, 0) && tmp == At(hashOrder, 1)
    case Stop(_, _) => hashOrder == []
    case Done => hashOrder == []
    case _ => true
  }

  /** How often session s has been finalised, freed and closed. */
  predicate CountOk(o: Object, live: bool, d: DispatcherPc, s: Session)
  {
    var mine := d.Drop? && d.s == s;
    && o.finalised == (if live && !(mine && (d.drop.DFree? || d.drop.DUnhash?)) then 0 else 1)
    && o.freed == (if live && !(mine && d.drop.DUnhash?) then 0 else 1)
    && o.closed == (if live || (mine && (d.drop.DUnpoll? || d.drop.DClose?)) then 0 else 1)
  }

  ghost predicate CountsOk(hash: map<Fd, Session>, objects: seq<Object>, d: DispatcherPc)
  {
    forall s :: 0 <= s < |objects| ==> CountOk(objects[s], Live(hash, objects, s), d, s)
  }

  /** The sessions a worker has collected and not finished yet. */
  function Batch(pc: WorkerPc): seq<Session>
  {
    match pc
    case WScan(_, batch) => batch
    case WCheck(todo) => todo
    case WServe(todo) => todo
    case _ => []
  }

  /** Collected sessions are in the pool and belong to the worker that collected them. */
  ghost predicate BatchOk(pc: WorkerPc, t: nat, order: seq<Session>, pool: map<Session, Entry>)
  {
    && (forall x :: x in Batch(pc) ==> x in pool && pool[x].thread == t)
    && (pc.WScan? ==> pc.pos <= |order|)
    && (pc.WServe? ==> pc.todo != [])
  }

  ghost predicate BatchesOk(workers: seq<WorkerPc>, order: seq<Session>, pool: map<Session, Entry>)
  {
    forall t :: 0 <= t < |workers| ==> BatchOk(workers[t], t, order, pool)
  }

  /** should_wake has been consumed, and x has not been passed by the scan that follows. */
  predicate WillScan(pc: WorkerPc, order: seq<Session>, x: Session)
  {
    pc.WUnlockCtx? || pc.WLockSessions? || (pc.WScan? && pc.pos <= |order| && x in order[pc.pos..])
  }

  /** Inside spool_flush_session(x), ready is set and should_wake is not set yet. */
  predicate Flushing(d: DispatcherPc, x: Session)
  {
    d.Flush? && d.s == x && (d.flush.FUnlock? || d.flush.FLockCtx? || d.flush.FWake?)
  }

  /** A ready session is owed a scan, by its worker or by the dispatcher. */
  ghost predicate WakeOk(ctx: seq<Ctx>, workers: seq<WorkerPc>, d: DispatcherPc, order: seq<Session>,
                         pool: map<Session, Entry>)
    requires |ctx| == |workers|
  {
    forall x :: x in pool && pool[x].ready && pool[x].thread < |ctx| ==>
      || ctx[pool[x].thread].shouldWake
      || WillScan(workers[pool[x].thread], order, x)
      || Flushing(d, x)
  }

  ghost predicate Inv(st: State)
  {
    && ThreadsOk(st.ctx, st.workers, st.disp)
    && SessionsMutexOk(st.sessionsMutex, st.workers, st.disp)
    && PoolOk(st.order, st.pool, |st.ctx|)
    && OrderOk(st.hashOrder, st.hash)
    && HashOk(st.hash, st.objects)
    && PoolMatchesHash(st.pool, st.hash, st.objects, st.disp)
    && PollerMatchesHash(st.poller, st.hash, st.disp)
    && LocalsOk(st.disp, st.hash, st.objects, st.pool)
    && LoopOk(st.disp, st.hashOrder)
    && CountsOk(st.hash, st.objects, st.disp)
    && BatchesOk(st.workers, st.order, st.pool)
    && WakeOk(st.ctx, st.workers, st.disp, st.order, st.pool)
  }
}
