/**
 What handling an event comes to: the tables when the dispatcher is idle again, in every interleaving with the
 workers, and how soon that is.
 */
module SessionServerEvents {
  import opened Sequences
  import opened SessionServer
  import opened SessionServerInvariant
  import opened SessionServerSteps
  import opened SessionServerSafety

  predicate IsEvent(l: Label)
  {
    l.NewConnection? || l.NewData? || l.Disconnected?
  }

  /** The session hash and the objects when the dispatcher has handled event l, which found hash0 and objects0. */
  ghost predicate Handled(l: Label, hash0: map<Fd, Session>, objects0: seq<Object>, hash: map<Fd, Session>,
                          objects: seq<Object>)
  {
    && |objects| == |objects0| + (if l.NewConnection? then 1 else 0)
    && (forall s :: 0 <= s < |objects0| ==> objects[s].fd == objects0[s].fd)
    && match l
       case NewConnection(fd) => hash == hash0[fd := |objects0|] && objects[|objects0|].fd == fd
       case Disconnected(fd) => hash == hash0 - {fd}
       case _ => hash == hash0
  }

  /** The same while the dispatcher is at d, on its way. */
  ghost predicate Handling(d: DispatcherPc, l: Label, hash0: map<Fd, Session>, objects0: seq<Object>,
                           hash: map<Fd, Session>, objects: seq<Object>)
  {
    && |objects| >= |objects0| && (forall s :: 0 <= s < |objects0| ==> objects[s].fd == objects0[s].fd)
    && match l
       case NewConnection(fd) =>
         && d.Conn? && d.fd == fd
         && (if d.conn.CPoll? || d.conn.CCreate? then hash == hash0 && |objects| == |objects0|
             else Handled(l, hash0, objects0, hash, objects))
       case NewData(fd) => fd in hash0 && d.Flush? && d.s == hash0[fd] && Handled(l, hash0, objects0, hash, objects)
       case Disconnected(fd) =>
         && fd in hash0 && d.Drop? && d.s == hash0[fd] && d.fd == fd && d.ret.ToIdle?
         && (if d.drop.DUnpoll? || d.drop.DClose? then Handled(l, hash0, objects0, hash, objects)
             else hash == hash0 && |objects| == |objects0|)
       case _ => false
  }

  ghost predicate HandlingOrDone(d: DispatcherPc, l: Label, hash0: map<Fd, Session>, objects0: seq<Object>,
                                 hash: map<Fd, Session>, objects: seq<Object>)
  {
    if d.Idle? then Handled(l, hash0, objects0, hash, objects) else Handling(d, l, hash0, objects0, hash, objects)
  }

  lemma {:induction false} ConnHandles(d: DispatcherPc, l: Label, hash0: map<Fd, Session>, objects0: seq<Object>,
                                       hash: map<Fd, Session>, objects: seq<Object>, order: seq<Session>,
                                       pool: map<Session, Entry>, n: nat)
    requires n > 0 && l.NewConnection? && Handling(d, l, hash0, objects0, hash, objects)
    ensures HandlingOrDone(ConnNext(d, objects, order, pool, n), l, hash0, objects0,
                           DispatcherHash(d, hash, |objects|), DispatcherObjects(d, objects))
  {
    hide LeastPopulated, Load;
  }

  lemma {:induction false} FlushHandles(d: DispatcherPc, l: Label, hash0: map<Fd, Session>, objects0: seq<Object>,
                                        hash: map<Fd, Session>, objects: seq<Object>, pool: map<Session, Entry>)
    requires l.NewData? && Handling(d, l, hash0, objects0, hash, objects) && d.s in pool
    ensures HandlingOrDone(FlushNext(d, pool), l, hash0, objects0,
                           DispatcherHash(d, hash, |objects|), DispatcherObjects(d, objects))
  {
  }

  lemma {:induction false} DropHandles(d: DispatcherPc, l: Label, hash0: map<Fd, Session>, objects0: seq<Object>,
                                       hash: map<Fd, Session>, objects: seq<Object>, pool: map<Session, Entry>,
                                       hashOrder: seq<Fd>)
    requires l.Disconnected? && Handling(d, l, hash0, objects0, hash, objects)
    ensures HandlingOrDone(DropNext(d, pool, hashOrder), l, hash0, objects0,
                           DispatcherHash(d, hash, |objects|), DispatcherObjects(d, objects))
  {
    hide NextOf;
  }

  lemma {:induction false} DispatcherHandles(l: Label, st0: State, st: State, st': State)
    requires Inv(st) && Enabled(st, DispatcherStep) && st' == DispatcherApply(st)
    requires Handling(st.disp, l, st0.hash, st0.objects, st.hash, st.objects)
    ensures HandlingOrDone(st'.disp, l, st0.hash, st0.objects, st'.hash, st'.objects)
  {
    HandlesWhat(st.disp, l, st0.hash, st0.objects, st.hash, st.objects);
    hide HandlingOrDone, Handling, DispatcherHash, DispatcherObjects, ConnNext, FlushNext, DropNext;
    match l
    case NewConnection(_) =>
      ConnHandles(st.disp, l, st0.hash, st0.objects, st.hash, st.objects, st.order, st.pool, |st.ctx|);
    case NewData(_) =>
      FlushFinds(st);
      FlushHandles(st.disp, l, st0.hash, st0.objects, st.hash, st.objects, st.pool);
    case _ => DropHandles(st.disp, l, st0.hash, st0.objects, st.hash, st.objects, st.pool, st.hashOrder);
  }

  lemma {:induction false} HandlesWhat(d: DispatcherPc, l: Label, hash0: map<Fd, Session>, objects0: seq<Object>,
                                       hash: map<Fd, Session>, objects: seq<Object>)
    requires Handling(d, l, hash0, objects0, hash, objects)
    ensures IsEvent(l)
    ensures if l.NewConnection? then d.Conn? else if l.NewData? then d.Flush? else d.Drop?
  {
  }

  lemma {:induction false} FlushFinds(st: State)
    requires Inv(st) && st.disp.Flush?
    ensures st.disp.s in st.pool
  {
  }

  lemma {:induction false} EventHandles(st: State, l: Label, st': State)
    requires Inv(st) && st.disp.Idle? && IsEvent(l) && Enabled(st, l) && st' == Apply(st, l)
    ensures HandlingOrDone(st'.disp, l, st.hash, st.objects, st'.hash, st'.objects)
  {
  }

  lemma {:induction false} StepHandles(l: Label, st0: State, st: State, step: Label, st': State)
    requires Inv(st) && Enabled(st, step) && st' == Apply(st, step) && !st.disp.Idle?
    requires Handling(st.disp, l, st0.hash, st0.objects, st.hash, st.objects)
    ensures HandlingOrDone(st'.disp, l, st0.hash, st0.objects, st'.hash, st'.objects)
  {
    if step.DispatcherStep? {
      DispatcherHandles(l, st0, st, st');
    }
  }

  /** The dispatcher is idle in no state between i and j. */
  ghost predicate NotIdleBetween(states: seq<State>, i: nat, j: nat)
  {
    j <= |states| && forall k :: i < k < j ==> !states[k].disp.Idle?
  }

  lemma {:induction false} HandlingInRun(states: seq<State>, labels: seq<Label>, i: nat, j: nat)
    requires Run(states, labels) && Initial(states[0]) && i < j < |states| && NotIdleBetween(states, i, j)
    requires states[i].disp.Idle? && IsEvent(labels[i])
    ensures var st0, st := states[i], states[j];
            HandlingOrDone(st.disp, labels[i], st0.hash, st0.objects, st.hash, st.objects)
    decreases j
  {
    hide Handled, Handling, Inv, Apply, Enabled;
    RunKeepsInv(states, labels, j - 1);
    assert Enabled(states[j-1], labels[j-1]) && states[j-1+1] == Apply(states[j-1], labels[j-1]);
    if j == i + 1 {
      EventHandles(states[i], labels[i], states[j]);
    } else {
      HandlingInRun(states, labels, i, j - 1);
      StepHandles(labels[i], states[i], states[j-1], labels[j-1], states[j]);
    }
  }

  // ------------------------------------------------- the orders of the tables

  /** How the iteration orders of the pool and of the session hash have changed when the dispatcher, handling l, is
      at d, or idle again. */
  ghost predicate Orders(d: DispatcherPc, l: Label, st0: State, order: seq<Session>, hashOrder: seq<Fd>)
  {
    match l
    case NewConnection(fd) =>
      var x, polled := |st0.objects|, d.Conn? && (d.conn.CPoll? || d.conn.CCreate?);
      && (d.Conn? && !polled ==> d.s == x)
      && hashOrder == (if polled then st0.hashOrder else st0.hashOrder + [fd])
      && order == (if d.Idle? || (d.Conn? && d.conn.CUnlock?) then st0.order + [x] else st0.order)
    case Disconnected(fd) =>
      if fd !in st0.hash then order == st0.order && hashOrder == st0.hashOrder
      else
        && hashOrder == (if d.Idle? || (d.Drop? && (d.drop.DUnpoll? || d.drop.DClose?)) then Remove(st0.hashOrder, fd)
                         else st0.hashOrder)
        && order == (if d.Drop? && (d.drop.DLock? || d.drop.DFind? || d.drop.DLockCtx? || d.drop.DDelete?)
                     then st0.order else Remove(st0.order, st0.hash[fd]))
    case _ => order == st0.order && hashOrder == st0.hashOrder
  }

  lemma {:induction false} DropFinds(st: State)
    requires Inv(st) && st.disp.Drop? && st.disp.drop.DFind?
    ensures st.disp.s in st.pool
  {
  }

  lemma {:induction false} ConnOrders(d: DispatcherPc, l: Label, st0: State, order: seq<Session>, hashOrder: seq<Fd>,
                                      objects: seq<Object>, pool: map<Session, Entry>, n: nat)
    requires n > 0 && l.NewConnection? && d.Conn? && d.fd == l.fd && Orders(d, l, st0, order, hashOrder)
    requires d.conn.CCreate? ==> |objects| == |st0.objects|
    ensures Orders(ConnNext(d, objects, order, pool, n), l, st0,
                   DispatcherOrder(d, order), DispatcherHashOrder(d, hashOrder))
  {
    hide LeastPopulated, Load;
  }

  lemma {:induction false} DropOrders(d: DispatcherPc, l: Label, st0: State, order: seq<Session>, hashOrder: seq<Fd>,
                                      pool: map<Session, Entry>)
    requires l.Disconnected? && l.fd in st0.hash && d.Drop? && d.fd == l.fd && d.s == st0.hash[l.fd] && d.ret.ToIdle?
    requires Orders(d, l, st0, order, hashOrder) && (d.drop.DFind? ==> d.s in pool)
    ensures Orders(DropNext(d, pool, hashOrder), l, st0, DispatcherOrder(d, order), DispatcherHashOrder(d, hashOrder))
  {
    hide Remove, NextOf;
  }

  lemma {:induction false} FlushOrders(d: DispatcherPc, l: Label, st0: State, order: seq<Session>, hashOrder: seq<Fd>,
                                       d': DispatcherPc)
    requires l.NewData? && d.Flush? && Orders(d, l, st0, order, hashOrder)
    ensures Orders(d', l, st0, DispatcherOrder(d, order), DispatcherHashOrder(d, hashOrder))
  {
  }

  lemma {:induction false} DispatcherOrders(l: Label, st0: State, st: State, st': State)
    requires Inv(st) && Enabled(st, DispatcherStep) && st' == DispatcherApply(st)
    requires Handling(st.disp, l, st0.hash, st0.objects, st.hash, st.objects)
    requires Orders(st.disp, l, st0, st.order, st.hashOrder)
    ensures Orders(st'.disp, l, st0, st'.order, st'.hashOrder)
  {
    hide Orders, DispatcherOrder, DispatcherHashOrder, ConnNext, FlushNext, DropNext, DispatcherCtx, DispatcherWorker;
    HandlesWhat(st.disp, l, st0.hash, st0.objects, st.hash, st.objects);
    if l.NewConnection? {
      ConnOrders(st.disp, l, st0, st.order, st.hashOrder, st.objects, st.pool, |st.ctx|);
    } else if l.NewData? {
      FlushOrders(st.disp, l, st0, st.order, st.hashOrder, st'.disp);
    } else {
      if st.disp.drop.DFind? {
        DropFinds(st);
      }
      DropOrders(st.disp, l, st0, st.order, st.hashOrder, st.pool);
    }
  }

  lemma {:induction false} EventOrders(l: Label, st: State, st': State)
    requires st.disp.Idle? && IsEvent(l) && Enabled(st, l) && st' == Apply(st, l)
    ensures Orders(st'.disp, l, st, st'.order, st'.hashOrder)
  {
  }

  lemma {:induction false} StepOrders(l: Label, st0: State, st: State, step: Label, st': State)
    requires Inv(st) && Enabled(st, step) && st' == Apply(st, step) && !st.disp.Idle?
    requires Handling(st.disp, l, st0.hash, st0.objects, st.hash, st.objects)
    requires Orders(st.disp, l, st0, st.order, st.hashOrder)
    ensures Orders(st'.disp, l, st0, st'.order, st'.hashOrder)
  {
    hide Orders, Handling, Inv;
    if step.DispatcherStep? {
      DispatcherOrders(l, st0, st, st');
    }
  }

  lemma {:induction false} OrdersInRun(states: seq<State>, labels: seq<Label>, i: nat, j: nat)
    requires Run(states, labels) && Initial(states[0]) && i < j < |states| && NotIdleBetween(states, i, j)
    requires states[i].disp.Idle? && IsEvent(labels[i])
    ensures Orders(states[j].disp, labels[i], states[i], states[j].order, states[j].hashOrder)
    decreases j
  {
    hide Orders, Handled, Handling, Inv, Apply, Enabled;
    assert Enabled(states[j-1], labels[j-1]) && states[j-1+1] == Apply(states[j-1], labels[j-1]);
    if j == i + 1 {
      EventOrders(labels[i], states[i], states[j]);
    } else {
      OrdersInRun(states, labels, i, j - 1);
      HandlingInRun(states, labels, i, j - 1);
      RunKeepsInv(states, labels, j - 1);
      StepOrders(labels[i], states[i], states[j-1], labels[j-1], states[j]);
    }
  }

  // ------------------------------------------------------------ possible runs

  /** There is a run for every number of threads, and every idle state of a run takes any event, a new connection on
      any fd that is not polled. A sleeping worker may wake for no reason at any time. */
  lemma {:induction false} AnythingMayHappen(states: seq<State>, labels: seq<Label>, k: nat, fd: Fd, n: nat)
    requires n > 0 && Run(states, labels) && Initial(states[0]) && k < |states|
    ensures exists st :: Initial(st) && |st.workers| == n
    ensures var st := states[k];
            && (st.disp.Idle? ==>
                  Enabled(st, NewData(fd)) && Enabled(st, Disconnected(fd)) && Enabled(st, Finalize)
                  && (fd !in st.poller ==> Enabled(st, NewConnection(fd))))
            && (forall t :: 0 <= t < |st.workers| && st.workers[t].WAsleep? ==> Enabled(st, SpuriousWake(t)))
  {
    RunKeepsInv(states, labels, k);
    var st := State(Free, seq(n, _ => Ctx(Free, false, true)), seq(n, _ => WTest), Idle,
                    [], map[], 0, [], map[], {}, []);
    assert Initial(st);
  }

  // ------------------------------------------------- what each event comes to

  /** When the dispatcher is idle again after a new connection, its fd is polled and has a new session in the session
      hash and in the pool, and nothing else has changed. */
  lemma {:induction false} ConnectionIsSetUp(states: seq<State>, labels: seq<Label>, i: nat, j: nat, fd: Fd)
    requires Run(states, labels) && Initial(states[0]) && i < j < |states| && NotIdleBetween(states, i, j)
    requires states[i].disp.Idle? && labels[i] == NewConnection(fd) && states[j].disp.Idle?
    ensures var st0, st := states[i], states[j]; var x := |st0.objects|;
            && fd !in st0.hash && st.hash == st0.hash[fd := x] && |st.objects| == x + 1
            && st.objects[x] == Object(fd, 0, 0, 0) && x !in st0.pool
            && st.poller == st0.poller + {fd} && st.pool.Keys == st0.pool.Keys + {x}
            && st.hashOrder == st0.hashOrder + [fd] && st.order == st0.order + [x]
  {
    OrdersInRun(states, labels, i, j);
    HandlingInRun(states, labels, i, j);
    ThreeViewsAgree(states, labels, i);
    ThreeViewsAgree(states, labels, j);
    assert Enabled(states[i], labels[i]);
    PoolIsHash(states, labels, i);
    PoolIsHash(states, labels, j);
  }

  /** When the dispatcher is idle again after a disconnection, the fd is in no table, its session has been finalised,
      freed and closed, and nothing else has changed. */
  lemma {:induction false} ConnectionIsReleased(states: seq<State>, labels: seq<Label>, i: nat, j: nat, fd: Fd)
    requires Run(states, labels) && Initial(states[0]) && i < j < |states| && NotIdleBetween(states, i, j)
    requires states[i].disp.Idle? && labels[i] == Disconnected(fd) && states[j].disp.Idle?
    ensures var st0, st := states[i], states[j];
            && st.hash == st0.hash - {fd} && |st.objects| == |st0.objects| && st.poller == st0.poller - {fd}
            && (if fd in st0.hash
                then st.pool.Keys == st0.pool.Keys - {st0.hash[fd]} && st0.hash[fd] < |st.objects|
                     && st.objects[st0.hash[fd]] == Object(fd, 1, 1, 1)
                     && st.hashOrder == Remove(st0.hashOrder, fd) && st.order == Remove(st0.order, st0.hash[fd])
                else st.pool.Keys == st0.pool.Keys && st.hashOrder == st0.hashOrder && st.order == st0.order)
  {
    hide Remove, Run, Live, Inv;
    OrdersInRun(states, labels, i, j);
    HandlingInRun(states, labels, i, j);
    ThreeViewsAgree(states, labels, i);
    ThreeViewsAgree(states, labels, j);
    PoolIsHash(states, labels, i);
    PoolIsHash(states, labels, j);
    PoolAfterRelease(states[i], states[j], fd);
  }

  lemma {:induction false} PoolAfterRelease(st0: State, st: State, fd: Fd)
    requires forall g :: g in st0.hash ==> st0.hash[g] < |st0.objects| && st0.objects[st0.hash[g]].fd == g
    requires (forall s :: s in st0.pool <==> Live(st0.hash, st0.objects, s))
             && forall s :: s in st.pool <==> Live(st.hash, st.objects, s)
    requires st.hash == st0.hash - {fd} && |st.objects| == |st0.objects|
    requires forall s :: 0 <= s < |st0.objects| ==> st.objects[s].fd == st0.objects[s].fd
    ensures st.pool.Keys == if fd in st0.hash then st0.pool.Keys - {st0.hash[fd]} else st0.pool.Keys
    ensures fd in st0.hash ==> st0.hash[fd] !in st.pool
  {
    forall s: Session
      ensures s in st.pool <==> s in st0.pool && !(fd in st0.hash && s == st0.hash[fd])
    {
      assert s in st0.pool <==> Live(st0.hash, st0.objects, s);
    }
  }

  /** Between events the pool holds the sessions that the session hash gives for their fds. */
  lemma {:induction false} PoolIsHash(states: seq<State>, labels: seq<Label>, k: nat)
    requires Run(states, labels) && Initial(states[0]) && k < |states| && states[k].disp.Idle?
    ensures var st := states[k];
            && (forall fd :: fd in st.hash ==> st.hash[fd] < |st.objects| && st.objects[st.hash[fd]].fd == fd)
            && (forall s :: s in st.pool <==> Live(st.hash, st.objects, s))
  {
    RunKeepsInv(states, labels, k);
  }

  // ------------------------------------------------------------- new data

  /** The dispatcher is inside spool_flush_session(x) and has not marked it yet. */
  predicate ToMark(d: DispatcherPc, x: Session)
  {
    d.Flush? && d.s == x && (d.flush.FFind? || d.flush.FLock? || d.flush.FMark?)
  }

  lemma {:induction false} MarkStep(st: State, x: Session, step: Label, st': State)
    requires Inv(st) && Enabled(st, step) && st' == Apply(st, step) && ToMark(st.disp, x)
    ensures ToMark(st'.disp, x) || (x in st'.pool && st'.pool[x].ready)
  {
    FlushFinds(st);
  }

  lemma {:induction false} MarkedInRun(states: seq<State>, labels: seq<Label>, i: nat, j: nat, x: Session)
    requires Run(states, labels) && Initial(states[0]) && i <= j < |states| && ToMark(states[i].disp, x)
    ensures ToMark(states[j].disp, x) || exists k :: i < k <= j && x in states[k].pool && states[k].pool[x].ready
    decreases j
  {
    hide ToMark, Inv, Apply, Enabled;
    if i < j {
      MarkedInRun(states, labels, i, j - 1, x);
      if ToMark(states[j-1].disp, x) {
        RunKeepsInv(states, labels, j - 1);
        assert Enabled(states[j-1], labels[j-1]) && states[j-1+1] == Apply(states[j-1], labels[j-1]);
        MarkStep(states[j-1], x, labels[j-1], states[j]);
      }
    }
  }

  /** Before the dispatcher is idle again after new data on an fd, its session is ready in the pool, whatever the
      workers do; and no connection has changed. */
  lemma {:induction false} DataIsFlushed(states: seq<State>, labels: seq<Label>, i: nat, j: nat, fd: Fd)
    requires Run(states, labels) && Initial(states[0]) && i < j < |states| && NotIdleBetween(states, i, j)
    requires states[i].disp.Idle? && labels[i] == NewData(fd) && states[j].disp.Idle? && fd in states[i].hash
    ensures var x := states[i].hash[fd];
            && (exists k :: i < k <= j && x in states[k].pool && states[k].pool[x].ready)
            && states[j].hash == states[i].hash && states[j].pool.Keys == states[i].pool.Keys
            && states[j].hashOrder == states[i].hashOrder && states[j].order == states[i].order
  {
    OrdersInRun(states, labels, i, j);
    HandlingInRun(states, labels, i, j);
    PoolIsHash(states, labels, i);
    PoolIsHash(states, labels, j);
    assert Enabled(states[i], labels[i]) && states[i+1] == Apply(states[i], labels[i]);
    MarkedInRun(states, labels, i + 1, j, states[i].hash[fd]);
  }

  // -------------------------------------------------- how soon it is handled

  /** Steps the dispatcher has left until it is idle again, or begins spool_destroy; m fds are in the session hash. */
  function Remaining(d: DispatcherPc, m: nat): int
  {
    match d
    case Conn(pc, _, _, _) =>
      (match pc case CPoll => 6 case CCreate => 5 case CPick => 4 case CLock => 3 case CInsert => 2 case CUnlock => 1)
    case Flush(pc, _, _) =>
      (match pc
       case FFind => 8 case FLock => 7 case FMark => 6 case FUnlock => 5
       case FLockCtx => 4 case FWake => 3 case FSignal => 2 case FUnlockCtx => 1)
    case Drop(pc, _, _, _, ret) =>
      var after := if ret.ToIdle? then 0 else if pc.DUnpoll? || pc.DClose? then 12 * m + 1 else 12 * m - 11;
      after + (match pc
               case DLock => 11 case DFind => 10 case DLockCtx => 9 case DDelete => 8 case DUnlockCtx => 7
               case DUnlock => 6 case DFinalise => 5 case DFree => 4 case DUnhash => 3
               case DUnpoll => 2 case DClose => 1)
    case Fin(_, _) => 12 * m + 1
    case _ => 0
  }

  predicate OnTheWay(d: DispatcherPc)
  {
    !d.Idle? && !d.Stop? && !d.Done?
  }

  lemma {:induction false} DropRemains(d: DispatcherPc, pool: map<Session, Entry>, hashOrder: seq<Fd>)
    requires d.Drop? && LoopOk(d, hashOrder) && (d.drop.DUnhash? ==> d.fd in hashOrder)
    ensures 0 <= Remaining(DropNext(d, pool, hashOrder), |DispatcherHashOrder(d, hashOrder)|)
            < Remaining(d, |hashOrder|)
  {
    hide IndexOf, Remove, NextOf;
    if d.drop.DUnhash? {
      RemoveShortens(hashOrder, d.fd);
    }
  }

  lemma {:induction false} FinRemains(d: DispatcherPc, hash: map<Fd, Session>, hashOrder: seq<Fd>)
    requires d.Fin? && LoopOk(d, hashOrder) && OrderOk(hashOrder, hash)
    ensures 0 <= Remaining(FinNext(d, hashOrder, hash), |hashOrder|) < Remaining(d, |hashOrder|)
  {
    if d.el.Some? {
      assert hashOrder[0] == d.el.value && hashOrder[0] in hash;
    }
  }

  lemma {:induction false} DispatcherRemains(st: State)
    requires |st.ctx| > 0 && OnTheWay(st.disp) && LoopOk(st.disp, st.hashOrder) && OrderOk(st.hashOrder, st.hash)
    requires LocalsOk(st.disp, st.hash, st.objects, st.pool)
    ensures 0 <= Remaining(DispatcherNext(st), |DispatcherHashOrder(st.disp, st.hashOrder)|)
            < Remaining(st.disp, |st.hashOrder|)
  {
    hide LeastPopulated, Load, IndexOf, Remove, NextOf, LoopOk;
    if st.disp.Drop? {
      DropRemains(st.disp, st.pool, st.hashOrder);
    } else if st.disp.Fin? {
      FinRemains(st.disp, st.hash, st.hashOrder);
    }
  }

  lemma {:induction false} StepRemains(st: State, step: Label, st': State)
    requires Inv(st) && Enabled(st, step) && st' == Apply(st, step) && OnTheWay(st.disp)
    ensures 0 <= Remaining(st'.disp, |st'.hashOrder|)
            <= Remaining(st.disp, |st.hashOrder|) - (if step.DispatcherStep? then 1 else 0)
  {
    hide Remaining, DispatcherNext, WorkerNext, WorkerCtx, WorkerPool, DispatcherCtx, DispatcherWorker;
    DispatcherRemains(st);
  }

  lemma {:induction false} RemoveShortens<T>(xs: seq<T>, x: T)
    requires x in xs
    ensures |Remove(xs, x)| == |xs| - 1
  {
  }

  function Turns(labels: seq<Label>): nat
  {
    if labels == [] then 0 else Turns(labels[..|labels|-1]) + (if labels[|labels|-1].DispatcherStep? then 1 else 0)
  }

  lemma {:induction false} TurnsAddUp(states: seq<State>, labels: seq<Label>, i: nat, j: nat)
    requires Run(states, labels) && Initial(states[0]) && i <= j < |states|
    requires forall k :: i <= k < j ==> OnTheWay(states[k].disp)
    requires 0 <= Remaining(states[i].disp, |states[i].hashOrder|)
    ensures 0 <= Turns(labels[i..j]) + Remaining(states[j].disp, |states[j].hashOrder|)
              <= Remaining(states[i].disp, |states[i].hashOrder|)
    ensures 0 <= Remaining(states[j].disp, |states[j].hashOrder|)
    decreases j
  {
    hide Remaining, Inv, Apply, Enabled;
    if i < j {
      TurnsAddUp(states, labels, i, j - 1);
      RunKeepsInv(states, labels, j - 1);
      assert Enabled(states[j-1], labels[j-1]) && states[j-1+1] == Apply(states[j-1], labels[j-1]);
      StepRemains(states[j-1], labels[j-1], states[j]);
      assert labels[i..j][..j-i-1] == labels[i..j-1];
    }
  }

  lemma {:induction false} EventRemains(st: State, l: Label, st': State)
    requires Inv(st) && st.disp.Idle? && Enabled(st, l) && st' == Apply(st, l)
    ensures IsEvent(l) ==> 0 <= Remaining(st'.disp, |st'.hashOrder|) <= 11
    ensures l.Finalize? ==> OnTheWay(st'.disp) && Remaining(st'.disp, |st'.hashOrder|) == 12 * |st.hashOrder| + 1
  {
  }

  /** An event is handled within 11 steps of the dispatcher, and server_finalize comes to spool_destroy within 12 steps
      for each connection and one more. */
  lemma {:induction false} HandlersReturn(states: seq<State>, labels: seq<Label>, i: nat, j: nat)
    requires Run(states, labels) && Initial(states[0]) && i < j < |states| && states[i].disp.Idle?
    requires IsEvent(labels[i]) || labels[i].Finalize?
    requires forall k :: i < k < j ==> OnTheWay(states[k].disp)
    ensures Turns(labels[i+1..j]) <= if labels[i].Finalize? then 12 * |states[i].hashOrder| + 1 else 11
  {
    RunKeepsInv(states, labels, i);
    assert Enabled(states[i], labels[i]) && states[i+1] == Apply(states[i], labels[i]);
    EventRemains(states[i], labels[i], states[i+1]);
    TurnsAddUp(states, labels, i + 1, j);
  }

  // ------------------------------------------------------------ finalization

  /** server_finalize and everything after it. */
  predicate Ending(d: DispatcherPc)
  {
    d.Fin? || (d.Drop? && d.ret.ToLoop?) || d.Stop? || d.Done?
  }

  /** After Finalize the dispatcher never goes back to events: it is in server_finalize until it has come to
      spool_destroy, for which at most 12 steps for each connection and one more are left. */
  lemma {:induction false} FinalizeLeadsToStop(states: seq<State>, labels: seq<Label>, i: nat, j: nat)
    requires Run(states, labels) && Initial(states[0]) && i < j < |states|
    requires states[i].disp.Idle? && labels[i] == Finalize
    ensures Ending(states[j].disp)
    ensures !states[j].disp.Stop? && !states[j].disp.Done? ==> Turns(labels[i+1..j]) <= 12 * |states[i].hashOrder|
    decreases j
  {
    StaysEnding(states, labels, i, j);
    if !states[j].disp.Stop? && !states[j].disp.Done? {
      forall k | i < k < j
        ensures OnTheWay(states[k].disp)
      {
        StaysEnding(states, labels, i, k);
        if states[k].disp.Stop? || states[k].disp.Done? {
          NoWayBack(states, labels, k, j);
        }
      }
      RunKeepsInv(states, labels, i);
      RunKeepsInv(states, labels, j);
      assert Enabled(states[i], labels[i]) && states[i+1] == Apply(states[i], labels[i]);
      EventRemains(states[i], labels[i], states[i+1]);
      TurnsAddUp(states, labels, i + 1, j);
      EndingRemains(states[j]);
    }
  }

  lemma {:induction false} EndingRemains(st: State)
    requires Inv(st) && Ending(st.disp) && OnTheWay(st.disp)
    ensures Remaining(st.disp, |st.hashOrder|) > 0
  {
  }

  lemma {:induction false} EndingStep(st: State, step: Label, st': State)
    requires Ending(st.disp) && Enabled(st, step) && st' == Apply(st, step)
    ensures Ending(st'.disp)
  {
    hide LeastPopulated, Load, IndexOf, Remove, NextOf, DispatcherCtx, DispatcherWorker, DispatcherOrder, WorkerNext;
  }

  lemma {:induction false} StaysEnding(states: seq<State>, labels: seq<Label>, i: nat, j: nat)
    requires Run(states, labels) && Initial(states[0]) && i < j < |states|
    requires states[i].disp.Idle? && labels[i] == Finalize
    ensures Ending(states[j].disp)
    decreases j
  {
    hide Apply, Enabled, Ending;
    assert Enabled(states[j-1], labels[j-1]) && states[j-1+1] == Apply(states[j-1], labels[j-1]);
    if j > i + 1 {
      StaysEnding(states, labels, i, j - 1);
      EndingStep(states[j-1], labels[j-1], states[j]);
    } else {
      BeginsEnding(states[i]);
    }
  }

  lemma {:induction false} BeginsEnding(st: State)
    requires Enabled(st, Finalize)
    ensures Ending(Apply(st, Finalize).disp)
  {
  }

  lemma {:induction false} NoWayBack(states: seq<State>, labels: seq<Label>, i: nat, j: nat)
    requires Run(states, labels) && Initial(states[0]) && i <= j < |states|
    requires states[i].disp.Stop? || states[i].disp.Done?
    ensures states[j].disp.Stop? || states[j].disp.Done?
    decreases j
  {
    hide Apply, Enabled;
    if i < j {
      NoWayBack(states, labels, i, j - 1);
      assert Enabled(states[j-1], labels[j-1]) && states[j-1+1] == Apply(states[j-1], labels[j-1]);
      StopsStopping(states[j-1], labels[j-1]);
    }
  }

  lemma {:induction false} StopsStopping(st: State, step: Label)
    requires (st.disp.Stop? || st.disp.Done?) && Enabled(st, step)
    ensures Apply(st, step).disp.Stop? || Apply(st, step).disp.Done?
  {
  }
}
