/**
 The multithreaded server as a labelled step system: the dispatcher thread of
 src/server/server.c, the session pool of src/server/spool/spool.c and one program
 counter per worker thread. One step is one lock operation, one shared read or write,
 one hash operation or one callback; every interleaving of steps is a run.

 Sessions are named by the order of their creation, so an address reused by the
 allocator is a new name. The environment chooses the events and the accepted fds.
 */
module SessionServer {
  import opened Sequences

  type Fd = int
  type Session = nat

  datatype Option<+T> = None | Some(value: T)

  datatype Thread = Dispatcher | Worker(id: nat)
  datatype Mutex = Free | HeldBy(who: Thread) | Destroyed

  /** ThreadContext together with the thread_running flag of the same thread. */
  datatype Ctx = Ctx(mutex: Mutex, shouldWake: bool, running: bool)

  /** SessionThread: the owner of a session and its ready flag. */
  datatype Entry = Entry(thread: nat, ready: bool)

  /** The memory of a session object: its fd, and how often it has been finalised, freed
      and had its socket closed. */
  datatype Object = Object(fd: Fd, finalised: nat, freed: nat, closed: nat)

  datatype WorkerPc =
    | WTest                         // reads thread_running
    | WLockCtx                      // wants the context mutex
    | WTestWake                     // reads should_wake
    | WAsleep                       // inside pthread_cond_wait, mutex released
    | WWoken                        // woken, wants the context mutex back
    | WConsume                      // clears should_wake
    | WUnlockCtx
    | WLockSessions                 // wants the session mutex
    | WScan(pos: nat, batch: seq<Session>)
    | WCheck(todo: seq<Session>)    // calls server_process_session, looks the session up
    | WServe(todo: seq<Session>)    // receives, runs the callback and sends
    | WUnlockSessions
    | WExited

  /** Where handle_disconnect returns to: the event loop, or the next element of server_finalize. */
  datatype Return = ToIdle | ToLoop(tmp: Option<Fd>)

  /** handle_new_connection and spool_add_session. */
  datatype ConnPc = CPoll | CCreate | CPick | CLock | CInsert | CUnlock

  /** handle_new_data and spool_flush_session. */
  datatype FlushPc = FFind | FLock | FMark | FUnlock | FLockCtx | FWake | FSignal | FUnlockCtx

  /** handle_disconnect and spool_remove_session. */
  datatype DropPc =
    | DLock | DFind | DLockCtx | DDelete | DUnlockCtx | DUnlock
    | DFinalise | DFree | DUnhash | DUnpoll | DClose

  /** spool_destroy: flag every thread, then join every thread. */
  datatype StopPc =
    | SLock | SLockCtx | SClear | SFlag | SUnlockCtx | SUnlock
    | JLock | JSignal | JUnlock | JWait | JDestroy | SDestroy

  /** The dispatcher's position and local variables; a local not assigned yet is 0. */
  datatype DispatcherPc =
    | Idle
    | Conn(conn: ConnPc, fd: Fd, s: Session, t: nat)
    | Flush(flush: FlushPc, s: Session, t: nat)
    | Drop(drop: DropPc, s: Session, fd: Fd, t: nat, ret: Return)
    | Fin(el: Option<Fd>, tmp: Option<Fd>)    // server_finalize: the deleting HASH_ITER
    | Stop(stop: StopPc, i: nat)
    | Done

  datatype State = State(
    sessionsMutex: Mutex,
    ctx: seq<Ctx>,
    workers: seq<WorkerPc>,
    disp: DispatcherPc,
    order: seq<Session>,            // session_thread_map: iteration order and contents
    pool: map<Session, Entry>,
    peak: nat,                      // largest number of sessions the pool has held
    hashOrder: seq<Fd>,             // session_hash: iteration order and contents
    hash: map<Fd, Session>,
    poller: set<Fd>,                // client fds being polled
    objects: seq<Object>)           // every session ever created

  // ---------------------------------------------------------------- workers

  predicate WorkerEnabled(pc: WorkerPc, c: Ctx, sessionsMutex: Mutex)
  {
    match pc
    case WLockCtx => c.mutex.Free?
    case WWoken => c.mutex.Free?
    case WLockSessions => sessionsMutex.Free?
    case WAsleep => false
    case WExited => false
    case _ => true
  }

  /** The entry at pos is a ready session of thread t: the test of the collecting loop. */
  predicate Collects(t: nat, pos: nat, order: seq<Session>, pool: map<Session, Entry>)
  {
    pos < |order| && order[pos] in pool && pool[order[pos]].ready && pool[order[pos]].thread == t
  }

  /** The lookup at the head of server_process_session: by the session's fd only. */
  predicate Active(hash: map<Fd, Session>, objects: seq<Object>, s: Session)
  {
    s < |objects| && objects[s].fd in hash
  }

  /** Control flow of thread_function and of the calls it makes. */
  function WorkerNext(st: State, t: nat): WorkerPc
    requires t < |st.workers| == |st.ctx|
  {
    match st.workers[t]
    case WTest => if st.ctx[t].running then WLockCtx else WExited
    case WLockCtx => WTestWake
    case WTestWake => if st.ctx[t].shouldWake then WConsume else WAsleep
    case WAsleep => WWoken
    case WWoken => WTestWake
    case WConsume => WUnlockCtx
    case WUnlockCtx => WLockSessions
    case WLockSessions => WScan(0, [])
    case WScan(pos, batch) =>
      if pos >= |st.order| then WCheck(batch)
      else WScan(pos + 1, if Collects(t, pos, st.order, st.pool) then batch + [st.order[pos]] else batch)
    case WCheck(todo) =>
      if todo == [] then WUnlockSessions
      else if Active(st.hash, st.objects, todo[0]) then WServe(todo)
      else WCheck(todo[1..])
    case WServe(todo) => WCheck(if todo == [] then [] else todo[1..])
    case WUnlockSessions => WTest
    case WExited => WExited
  }

  /** What the step at pc of worker t does to its context. pthread_cond_wait releases the mutex as it sleeps. */
  function WorkerCtx(pc: WorkerPc, c: Ctx, t: nat): Ctx
  {
    match pc
    case WLockCtx => c.(mutex := HeldBy(Worker(t)))
    case WWoken => c.(mutex := HeldBy(Worker(t)))
    case WTestWake => if c.shouldWake then c else c.(mutex := Free)
    case WConsume => c.(shouldWake := false)
    case WUnlockCtx => c.(mutex := Free)
    case _ => c
  }

  /** What the step at pc of worker t does to the session mutex. */
  function WorkerSessionsMutex(pc: WorkerPc, m: Mutex, t: nat): Mutex
  {
    match pc
    case WLockSessions => HeldBy(Worker(t))
    case WUnlockSessions => Free
    case _ => m
  }

  /** A collected session stops being ready. */
  function WorkerPool(pc: WorkerPc, order: seq<Session>, pool: map<Session, Entry>, t: nat): map<Session, Entry>
  {
    if pc.WScan? && Collects(t, pc.pos, order, pool) then
      pool[order[pc.pos] := pool[order[pc.pos]].(ready := false)]
    else pool
  }

  function WorkerApply(st: State, t: nat): State
    requires t < |st.workers| == |st.ctx|
  {
    var pc := st.workers[t];
    st.(workers := st.workers[t := WorkerNext(st, t)],
        ctx := st.ctx[t := WorkerCtx(pc, st.ctx[t], t)],
        sessionsMutex := WorkerSessionsMutex(pc, st.sessionsMutex, t),
        pool := WorkerPool(pc, st.order, st.pool, t))
  }

  // ------------------------------------------------------------- dispatcher

  function Load(order: seq<Session>, pool: map<Session, Entry>, t: nat): nat
  {
    if order == [] then 0
    else Load(order[..|order|-1], pool, t)
         + (var x := order[|order|-1]; if x in pool && pool[x].thread == t then 1 else 0)
  }

  /** The first of threads 0..n-1 with the smallest load (cpool_least_populated_thread). */
  function LeastPopulated(order: seq<Session>, pool: map<Session, Entry>, n: nat): (t: nat)
    requires n > 0
    ensures t < n
    ensures forall u :: 0 <= u < n ==> Load(order, pool, t) <= Load(order, pool, u)
    ensures forall u :: 0 <= u < t ==> Load(order, pool, t) < Load(order, pool, u)
  {
    if n == 1 then 0
    else
      var m := LeastPopulated(order, pool, n - 1);
      if Load(order, pool, n - 1) < Load(order, pool, m) then n - 1 else m
  }

  function At(xs: seq<Fd>, i: nat): Option<Fd>
  {
    if i < |xs| then Some(xs[i]) else None
  }

  /** The element after fd in the session hash (hh.next). */
  function NextOf(xs: seq<Fd>, fd: Option<Fd>): Option<Fd>
  {
    if fd.None? then None else At(xs, IndexOf(xs, fd.value) + 1)
  }

  /** The context mutex that the step at d locks. */
  function WantedCtx(d: DispatcherPc): Option<nat>
  {
    if (d.Flush? && d.flush.FLockCtx?) || (d.Drop? && d.drop.DLockCtx?) then Some(d.t)
    else if d.Stop? && (d.stop.SLockCtx? || d.stop.JLock?) then Some(d.i)
    else None
  }

  /** The step at d locks the session mutex. */
  predicate WantsSessions(d: DispatcherPc)
  {
    (d.Conn? && d.conn.CLock?) || (d.Flush? && d.flush.FLock?) || (d.Drop? && d.drop.DLock?)
    || (d.Stop? && d.stop.SLock?)
  }

  /** The step at d unlocks the session mutex. */
  predicate UnlocksSessions(d: DispatcherPc)
  {
    (d.Conn? && d.conn.CUnlock?) || (d.Flush? && d.flush.FUnlock?) || (d.Drop? && d.drop.DUnlock?)
    || (d.Stop? && d.stop.SUnlock?)
  }

  predicate DispatcherEnabled(d: DispatcherPc, sessionsMutex: Mutex, ctx: seq<Ctx>, workers: seq<WorkerPc>)
  {
    && !d.Idle? && !d.Done?
    && (WantsSessions(d) ==> sessionsMutex.Free?)
    && (WantedCtx(d).Some? ==> WantedCtx(d).value < |ctx| && ctx[WantedCtx(d).value].mutex.Free?)
    && (d.Stop? && d.stop.JWait? ==> d.i < |workers| && workers[d.i].WExited?)
  }

  /** Control flow of the dispatcher. */
  function ConnNext(d: DispatcherPc, objects: seq<Object>, order: seq<Session>, pool: map<Session, Entry>, n: nat)
    : DispatcherPc
    requires d.Conn? && n > 0
  {
    match d.conn
    case CPoll => d.(conn := CCreate)
    case CCreate => d.(conn := CPick, s := |objects|)
    case CPick => d.(conn := CLock, t := LeastPopulated(order, pool, n))
    case CLock => d.(conn := CInsert)
    case CInsert => d.(conn := CUnlock)
    case CUnlock => Idle
  }

  function FlushNext(d: DispatcherPc, pool: map<Session, Entry>): DispatcherPc
    requires d.Flush?
  {
    match d.flush
    case FFind => if d.s in pool then Flush(FLock, d.s, pool[d.s].thread) else Idle
    case FLock => d.(flush := FMark)
    case FMark => d.(flush := FUnlock)
    case FUnlock => d.(flush := FLockCtx)
    case FLockCtx => d.(flush := FWake)
    case FWake => d.(flush := FSignal)
    case FSignal => d.(flush := FUnlockCtx)
    case FUnlockCtx => Idle
  }

  function DropNext(d: DispatcherPc, pool: map<Session, Entry>, hashOrder: seq<Fd>): DispatcherPc
    requires d.Drop?
  {
    match d.drop
    case DLock => d.(drop := DFind)
    case DFind => if d.s in pool then d.(drop := DLockCtx, t := pool[d.s].thread) else d.(drop := DUnlock)
    case DLockCtx => d.(drop := DDelete)
    case DDelete => d.(drop := DUnlockCtx)
    case DUnlockCtx => d.(drop := DUnlock)
    case DUnlock => d.(drop := DFinalise)
    case DFinalise => d.(drop := DFree)
    case DFree => d.(drop := DUnhash)
    case DUnhash => d.(drop := DUnpoll)
    case DUnpoll => d.(drop := DClose)
    case DClose => if d.ret.ToIdle? then Idle else Fin(d.ret.tmp, NextOf(hashOrder, d.ret.tmp))
  }

  function FinNext(d: DispatcherPc, hashOrder: seq<Fd>, hash: map<Fd, Session>): DispatcherPc
    requires d.Fin?
  {
    if d.el.None? then Stop(SLock, 0)
    else if d.el.value in hash then Drop(DLock, hash[d.el.value], d.el.value, 0, ToLoop(d.tmp))
    else Fin(d.tmp, NextOf(hashOrder, d.tmp))
  }

  function StopNext(d: DispatcherPc, n: nat): DispatcherPc
    requires d.Stop?
  {
    match d.stop
    case SLock => Stop(SLockCtx, 0)
    case SLockCtx => d.(stop := SClear)
    case SClear => d.(stop := SFlag)
    case SFlag => d.(stop := SUnlockCtx)
    case SUnlockCtx => if d.i + 1 < n then Stop(SLockCtx, d.i + 1) else Stop(SUnlock, 0)
    case SUnlock => Stop(JLock, 0)
    case JLock => d.(stop := JSignal)
    case JSignal => d.(stop := JUnlock)
    case JUnlock => d.(stop := JWait)
    case JWait => d.(stop := JDestroy)
    case JDestroy => if d.i + 1 < n then Stop(JLock, d.i + 1) else Stop(SDestroy, 0)
    case SDestroy => Done
  }

  function DispatcherNext(st: State): DispatcherPc
    requires |st.ctx| > 0
  {
    match st.disp
    case Idle => Idle
    case Conn(_, _, _, _) => ConnNext(st.disp, st.objects, st.order, st.pool, |st.ctx|)
    case Flush(_, _, _) => FlushNext(st.disp, st.pool)
    case Drop(_, _, _, _, _) => DropNext(st.disp, st.pool, st.hashOrder)
    case Fin(_, _) => FinNext(st.disp, st.hashOrder, st.hash)
    case Stop(_, _) => StopNext(st.disp, |st.ctx|)
    case Done => Done
  }

  /** What the dispatcher's step at d does to the session mutex. */
  function DispatcherSessionsMutex(d: DispatcherPc, m: Mutex): Mutex
  {
    if WantsSessions(d) then HeldBy(Dispatcher)
    else if UnlocksSessions(d) then Free
    else if d.Stop? && d.stop.SDestroy? then Destroyed
    else m
  }

  /** What the dispatcher's step at d does to the context of thread t. */
  function DispatcherCtx(d: DispatcherPc, c: Ctx, t: nat): Ctx
  {
    if WantedCtx(d) == Some(t) then c.(mutex := HeldBy(Dispatcher))
    else if d.Flush? && d.t == t then
      (match d.flush
       case FWake => c.(shouldWake := true)
       case FUnlockCtx => c.(mutex := Free)
       case _ => c)
    else if d.Drop? && d.t == t && d.drop.DUnlockCtx? then c.(mutex := Free)
    else if d.Stop? && d.i == t then
      (match d.stop
       case SClear => c.(running := false)
       case SFlag => c.(shouldWake := true)
       case SUnlockCtx => c.(mutex := Free)
       case JUnlock => c.(mutex := Free)
       case JDestroy => c.(mutex := Destroyed)
       case _ => c)
    else c
  }

  /** pthread_cond_signal wakes thread t if it sleeps; otherwise the signal is lost. */
  function DispatcherWorker(d: DispatcherPc, pc: WorkerPc, t: nat): WorkerPc
  {
    if pc.WAsleep? && ((d.Flush? && d.flush.FSignal? && d.t == t) || (d.Stop? && d.stop.JSignal? && d.i == t))
    then WWoken else pc
  }

  function DispatcherOrder(d: DispatcherPc, order: seq<Session>): seq<Session>
  {
    if d.Conn? && d.conn.CInsert? then order + [d.s]
    else if d.Drop? && d.drop.DDelete? then Remove(order, d.s)
    else order
  }

  function DispatcherPool(d: DispatcherPc, pool: map<Session, Entry>): map<Session, Entry>
  {
    if d.Conn? && d.conn.CInsert? then pool[d.s := Entry(d.t, false)]
    else if d.Drop? && d.drop.DDelete? then pool - {d.s}
    else if d.Flush? && d.flush.FMark? && d.s in pool then pool[d.s := pool[d.s].(ready := true)]
    else pool
  }

  function DispatcherHashOrder(d: DispatcherPc, hashOrder: seq<Fd>): seq<Fd>
  {
    if d.Conn? && d.conn.CCreate? then hashOrder + [d.fd]
    else if d.Drop? && d.drop.DUnhash? then Remove(hashOrder, d.fd)
    else hashOrder
  }

  function DispatcherHash(d: DispatcherPc, hash: map<Fd, Session>, created: nat): map<Fd, Session>
  {
    if d.Conn? && d.conn.CCreate? then hash[d.fd := created]
    else if d.Drop? && d.drop.DUnhash? then hash - {d.fd}
    else hash
  }

  function DispatcherPoller(d: DispatcherPc, poller: set<Fd>): set<Fd>
  {
    if d.Conn? && d.conn.CPoll? then poller + {d.fd}
    else if d.Drop? && d.drop.DUnpoll? then poller - {d.fd}
    else poller
  }

  function DispatcherObjects(d: DispatcherPc, objects: seq<Object>): seq<Object>
  {
    if d.Conn? && d.conn.CCreate? then objects + [Object(d.fd, 0, 0, 0)]
    else if d.Drop? && d.s < |objects| then
      var o := objects[d.s];
      (match d.drop
       case DFinalise => objects[d.s := o.(finalised := o.finalised + 1)]
       case DFree => objects[d.s := o.(freed := o.freed + 1)]
       case DClose => objects[d.s := o.(closed := o.closed + 1)]
       case _ => objects)
    else objects
  }

  function Max(a: nat, b: nat): nat
  {
    if a < b then b else a
  }

  function DispatcherApply(st: State): State
    requires |st.ctx| == |st.workers| > 0
  {
    var d := st.disp;
    var order := DispatcherOrder(d, st.order);
    State(DispatcherSessionsMutex(d, st.sessionsMutex),
          seq(|st.ctx|, t requires 0 <= t < |st.ctx| => DispatcherCtx(d, st.ctx[t], t)),
          seq(|st.workers|, t requires 0 <= t < |st.workers| => DispatcherWorker(d, st.workers[t], t)),
          DispatcherNext(st),
          order, DispatcherPool(d, st.pool), Max(st.peak, |order|),
          DispatcherHashOrder(d, st.hashOrder), DispatcherHash(d, st.hash, |st.objects|),
          DispatcherPoller(d, st.poller), DispatcherObjects(d, st.objects))
  }

  // ------------------------------------------------------------------ runs

  /** What happens next: a thread moves, a sleeper wakes for no reason, or the poller reports an event. */
  datatype Label =
    | WorkerStep(t: nat)
    | SpuriousWake(t: nat)
    | DispatcherStep
    | NewConnection(fd: Fd)
    | NewData(fd: Fd)
    | Disconnected(fd: Fd)
    | Finalize

  predicate Enabled(st: State, l: Label)
  {
    && |st.ctx| == |st.workers| > 0
    && match l
       case WorkerStep(t) => t < |st.workers| && WorkerEnabled(st.workers[t], st.ctx[t], st.sessionsMutex)
       case SpuriousWake(t) => t < |st.workers| && st.workers[t].WAsleep?
       case DispatcherStep => DispatcherEnabled(st.disp, st.sessionsMutex, st.ctx, st.workers)
       case NewConnection(fd) => st.disp.Idle? && fd !in st.poller   // accept returns an fd that is not open
       case _ => st.disp.Idle?
  }

  function Apply(st: State, l: Label): State
    requires Enabled(st, l)
  {
    match l
    case WorkerStep(t) => WorkerApply(st, t)
    case SpuriousWake(t) => st.(workers := st.workers[t := WWoken])
    case DispatcherStep => DispatcherApply(st)
    case NewConnection(fd) => st.(disp := Conn(CPoll, fd, 0, 0))
    case NewData(fd) => if fd in st.hash then st.(disp := Flush(FFind, st.hash[fd], 0)) else st
    case Disconnected(fd) => if fd in st.hash then st.(disp := Drop(DLock, st.hash[fd], fd, 0, ToIdle)) else st
    case Finalize => st.(disp := Fin(At(st.hashOrder, 0), At(st.hashOrder, 1)))
  }

  /** The state after server_initialize with n > 0 threads. */
  predicate Initial(st: State)
  {
    && |st.ctx| == |st.workers| > 0
    && (forall t :: 0 <= t < |st.ctx| ==> st.ctx[t] == Ctx(Free, false, true))
    && (forall t :: 0 <= t < |st.workers| ==> st.workers[t] == WTest)
    && st.sessionsMutex == Free && st.disp == Idle
    && st.order == [] && st.pool == map[] && st.peak == 0
    && st.hashOrder == [] && st.hash == map[] && st.poller == {} && st.objects == []
  }

  /** Any interleaving: states[k+1] is the outcome of labels[k] in states[k]. */
  ghost predicate Run(states: seq<State>, labels: seq<Label>)
  {
    && |states| == |labels| + 1
    && forall k :: 0 <= k < |labels| ==> Enabled(states[k], labels[k]) && states[k+1] == Apply(states[k], labels[k])
  }
}
