/**
 From new data to service: a session on which data has arrived is processed by its worker within a bounded number of
 that worker's own steps, in every interleaving, unless it is disconnected before.
 */
module SessionServerServing {
  import opened Sequences
  import opened SessionServer
  import opened SessionServerInvariant
  import opened SessionServerSteps
  import opened SessionServerService
  import opened SessionServerLoad
  import opened SessionServerEvents

  /** The worker at pc is processing x: past the active check of server_process_session. */
  predicate BeingServed(pc: WorkerPc, x: Session)
  {
    pc.WServe? && pc.todo != [] && pc.todo[0] == x
  }

  // -------------------------------------------------- a collected session

  /** Steps the worker at pc has left until it processes x, which it has collected, with n sessions in the pool. */
  function StepsToServe(pc: WorkerPc, x: Session, n: nat): int
  {
    match pc
    case WScan(pos, batch) => n - pos + 2 + 2 * IndexOf(batch, x)
    case WCheck(todo) => 2 * IndexOf(todo, x) + 1
    case WServe(todo) => 2 * IndexOf(todo, x)
    case _ => 0
  }

  /** A worker has collected no more sessions than it has passed. */
  predicate Fits(pc: WorkerPc, n: nat)
  {
    match pc
    case WScan(pos, batch) => |batch| <= pos <= n
    case WCheck(todo) => |todo| <= n
    case WServe(todo) => |todo| <= n
    case _ => true
  }

  lemma {:induction false} IndexAfterFirst<T>(xs: seq<T>, x: T)
    requires x in xs && xs[0] != x
    ensures x in xs[1..] && IndexOf(xs, x) == IndexOf(xs[1..], x) + 1
  {
  }

  lemma {:induction false} HeadIsActive(st: State, t: nat)
    requires Inv(st) && t < |st.workers| && st.workers[t].WCheck? && st.workers[t].todo != []
    ensures Active(st.hash, st.objects, st.workers[t].todo[0])
  {
    assert BatchOk(st.workers[t], t, st.order, st.pool);
    assert st.workers[t].todo[0] in Batch(st.workers[t]);
  }

  /** A step of a worker that has collected x brings it closer to x, and does not lose x. */
  lemma {:induction false} BatchStep(st: State, x: Session, t: nat, pc: WorkerPc)
    requires Inv(st) && t < |st.workers| == |st.ctx| && x in Batch(st.workers[t]) && !BeingServed(st.workers[t], x)
    requires pc == WorkerNext(st, t)
    ensures x in Batch(pc) && 0 <= StepsToServe(pc, x, |st.order|) < StepsToServe(st.workers[t], x, |st.order|)
  {
    hide IndexOf;
    assert BatchOk(st.workers[t], t, st.order, st.pool);
    match st.workers[t]
    case WScan(pos, batch) =>
      if pos < |st.order| {
        IndexAfterAppend(batch, x, st.order[pos]);
      }
    case WCheck(todo) => HeadIsActive(st, t);
    case WServe(todo) => IndexAfterFirst(todo, x);
    case _ =>
  }

  /** The dispatcher and the other workers leave a worker alone that has collected sessions, and the order it scans. */
  lemma {:induction false} BatchWaits(st: State, t: nat, l: Label, st': State)
    requires Inv(st) && t < |st.workers| && Batch(st.workers[t]) != [] && l != WorkerStep(t)
    requires Enabled(st, l) && st' == Apply(st, l)
    ensures st'.workers[t] == st.workers[t] && st'.order == st.order
  {
  }

  lemma {:induction false} CollectedInRun(states: seq<State>, labels: seq<Label>, i: nat, j: nat, t: nat, x: Session)
    requires Run(states, labels) && Initial(states[0]) && i <= j < |states|
    requires t < |states[i].workers| && x in Batch(states[i].workers[t])
    requires forall k :: i <= k < j && t < |states[k].workers| ==> !BeingServed(states[k].workers[t], x)
    ensures t < |states[j].workers| && x in Batch(states[j].workers[t])
    decreases j
  {
    hide BeingServed, Inv, Apply, Enabled, Batch;
    if i < j {
      CollectedInRun(states, labels, i, j - 1, t, x);
      CollectedStep(states, labels, j - 1, t, x);
    }
  }

  lemma {:induction false} CollectedStep(states: seq<State>, labels: seq<Label>, k: nat, t: nat, x: Session)
    requires Run(states, labels) && Initial(states[0]) && k + 1 < |states|
    requires t < |states[k].workers| && x in Batch(states[k].workers[t]) && !BeingServed(states[k].workers[t], x)
    ensures t < |states[k+1].workers| && x in Batch(states[k+1].workers[t])
  {
    hide BeingServed;
    RunKeepsInv(states, labels, k);
    assert Enabled(states[k], labels[k]) && states[k+1] == Apply(states[k], labels[k]);
    if labels[k] == WorkerStep(t) {
      BatchStep(states[k], x, t, states[k+1].workers[t]);
    } else {
      BatchWaits(states[k], t, labels[k], states[k+1]);
    }
  }

  /** A worker that has collected x processes it before it unlocks the session mutex. */
  lemma {:induction false} CollectedSessionsAreServed(states: seq<State>, labels: seq<Label>, i: nat, j: nat, t: nat,
                                                      x: Session)
    requires Run(states, labels) && Initial(states[0]) && i <= j < |states|
    requires t < |states[i].workers| && x in Batch(states[i].workers[t])
    requires t < |states[j].workers| && states[j].workers[t].WUnlockSessions?
    ensures exists k :: i <= k < j && t < |states[k].workers| && BeingServed(states[k].workers[t], x)
  {
    if forall k :: i <= k < j && t < |states[k].workers| ==> !BeingServed(states[k].workers[t], x) {
      CollectedInRun(states, labels, i, j, t, x);
    }
  }

  // ------------------------------------------------------- a ready session

  /** Worker t has x in hand, or will collect it without any further help but a signal. */
  predicate Pending(st: State, x: Session, t: nat)
  {
    && t < |st.workers| == |st.ctx| && x in st.pool && st.pool[x].thread == t
    && (x in Batch(st.workers[t]) || Owed(st, x))
  }

  /** A bound on the steps that worker t has left until it processes x, as long as the pool never holds more than
      peak sessions. */
  function Distance(st: State, x: Session, t: nat, peak: nat): int
    requires Pending(st, x, t)
  {
    if x in Batch(st.workers[t]) then StepsToServe(st.workers[t], x, |st.order|)
    else ServiceSteps(st, x) + 3 * peak + 3
  }

  lemma {:induction false} FitsStep(st: State, t: nat)
    requires Inv(st) && t < |st.workers| && Fits(st.workers[t], |st.order|)
    ensures Fits(WorkerNext(st, t), |st.order|)
  {
    assert BatchOk(st.workers[t], t, st.order, st.pool);
  }

  lemma {:induction false} FitsWaits(st: State, t: nat, l: Label, st': State)
    requires Inv(st) && t < |st.workers| && Fits(st.workers[t], |st.order|) && l != WorkerStep(t)
    requires Enabled(st, l) && st' == Apply(st, l)
    ensures t < |st'.workers| && Fits(st'.workers[t], |st'.order|)
  {
  }

  lemma {:induction false} FitsAnyStep(st: State, t: nat, l: Label, st': State)
    requires Inv(st) && t < |st.workers| && Fits(st.workers[t], |st.order|) && Enabled(st, l) && st' == Apply(st, l)
    ensures t < |st'.workers| && Fits(st'.workers[t], |st'.order|)
  {
    hide Fits, Inv;
    if l == WorkerStep(t) {
      FitsStep(st, t);
    } else {
      FitsWaits(st, t, l, st');
    }
  }

  lemma {:induction false} SameWorkers(st: State, l: Label)
    requires Enabled(st, l)
    ensures |Apply(st, l).workers| == |st.workers|
  {
  }

  lemma {:induction false} FitsInRun(states: seq<State>, labels: seq<Label>, k: nat, t: nat)
    requires Run(states, labels) && Initial(states[0]) && k < |states| && t < |states[k].workers|
    ensures Fits(states[k].workers[t], |states[k].order|)
    decreases k
  {
    if k > 0 {
      hide Fits, Inv, Apply, Enabled;
      assert Enabled(states[k-1], labels[k-1]) && states[k-1+1] == Apply(states[k-1], labels[k-1]);
      SameWorkers(states[k-1], labels[k-1]);
      FitsInRun(states, labels, k - 1, t);
      RunKeepsInv(states, labels, k - 1);
      FitsAnyStep(states[k-1], t, labels[k-1], states[k]);
    }
  }

  lemma {:induction false} IndexBelow<T>(xs: seq<T>, x: T)
    requires x in xs
    ensures IndexOf(xs, x) < |xs|
  {
  }

  /** Where the bound starts. */
  lemma {:induction false} DistanceBound(st: State, x: Session, t: nat, peak: nat)
    requires Inv(st) && Pending(st, x, t) && Fits(st.workers[t], |st.order|) && |st.order| <= peak
    ensures 0 <= Distance(st, x, t, peak) <= 7 * peak + 12
  {
    hide IndexOf;
    assert BatchOk(st.workers[t], t, st.order, st.pool);
    if x in Batch(st.workers[t]) {
      IndexBelow(Batch(st.workers[t]), x);
    } else {
      IndexBelow(st.order, x);
      OwedIsPositive(st, x);
    }
  }

  lemma {:induction false} ReadyStays(st: State, x: Session, l: Label, st': State)
    requires Inv(st) && x in st.pool && x in st'.pool && Enabled(st, l) && st' == Apply(st, l)
    ensures st'.pool[x].thread == st.pool[x].thread
    ensures st.pool[x].ready && l != WorkerStep(st.pool[x].thread) ==> st'.pool[x].ready
  {
    hide LeastPopulated, Load, IndexOf, Remove, DispatcherCtx, DispatcherWorker, DispatcherOrder, DispatcherNext;
    hide WorkerNext, WorkerCtx;
  }

  /** Collecting x, whose place in the batch is then no further than the scan. */
  lemma {:induction false} CollectStep(st: State, x: Session, t: nat, peak: nat, st': State)
    requires Inv(st) && Owed(st, x) && t == st.pool[x].thread && x !in Batch(st.workers[t])
    requires Fits(st.workers[t], |st.order|) && |st.order| <= peak
    requires Enabled(st, WorkerStep(t)) && st' == WorkerApply(st, t) && x in Batch(st'.workers[t])
    ensures StepsToServe(st'.workers[t], x, |st'.order|) <= 3 * peak + 3
  {
    hide IndexOf;
    IndexBelow(Batch(st'.workers[t]), x);
    FitsStep(st, t);
  }

  lemma {:induction false} OwedStep(st: State, x: Session, t: nat, peak: nat, l: Label, st': State)
    requires Inv(st) && Pending(st, x, t) && x !in Batch(st.workers[t]) && x in st'.pool
    requires Fits(st.workers[t], |st.order|) && |st.order| <= peak && Enabled(st, l) && st' == Apply(st, l)
    ensures Pending(st', x, t)
    ensures Distance(st', x, t, peak) <= Distance(st, x, t, peak) - (if l == WorkerStep(t) then 1 else 0)
  {
    hide Inv, ServiceSteps, StepsToServe, Fits;
    ReadyStays(st, x, l, st');
    OwedIsPositive(st, x);
    if l == WorkerStep(t) {
      OwnStep(st, x, t, st');
      if x in Batch(st'.workers[t]) {
        CollectStep(st, x, t, peak, st');
      }
    } else {
      AnyStep(st, x, l, st');
      StillNotCollected(st, x, t, l, st');
    }
  }

  lemma {:induction false} StillNotCollected(st: State, x: Session, t: nat, l: Label, st': State)
    requires |st.workers| == |st.ctx| && t < |st.workers| && x !in Batch(st.workers[t]) && l != WorkerStep(t)
    requires Enabled(st, l) && st' == Apply(st, l)
    ensures t < |st'.workers| && x !in Batch(st'.workers[t])
  {
  }

  lemma {:induction false} InHandStep(st: State, x: Session, t: nat, peak: nat, l: Label, st': State)
    requires Inv(st) && Pending(st, x, t) && x in Batch(st.workers[t]) && !BeingServed(st.workers[t], x)
    requires x in st'.pool && Enabled(st, l) && st' == Apply(st, l)
    ensures Pending(st', x, t)
    ensures Distance(st', x, t, peak) <= Distance(st, x, t, peak) - (if l == WorkerStep(t) then 1 else 0)
  {
    hide Inv, StepsToServe, BeingServed, Owed, Batch;
    ReadyStays(st, x, l, st');
    if l == WorkerStep(t) {
      BatchStep(st, x, t, st'.workers[t]);
    } else {
      BatchWaits(st, t, l, st');
    }
  }

  ghost predicate Nears(st: State, x: Session, t: nat, peak: nat, l: Label, st': State)
  {
    && Pending(st, x, t) && Pending(st', x, t)
    && Distance(st', x, t, peak) <= Distance(st, x, t, peak) - (if l == WorkerStep(t) then 1 else 0)
  }

  lemma {:induction false} NearsInRun(states: seq<State>, labels: seq<Label>, k: nat, x: Session, t: nat, peak: nat)
    requires Run(states, labels) && Initial(states[0]) && k + 1 < |states| && Pending(states[k], x, t)
    requires x in states[k+1].pool && !BeingServed(states[k].workers[t], x) && |states[k].order| <= peak
    ensures Nears(states[k], x, t, peak, labels[k], states[k+1])
  {
    hide Inv, Apply, Distance, BeingServed, Fits;
    RunKeepsInv(states, labels, k);
    FitsInRun(states, labels, k, t);
    assert Enabled(states[k], labels[k]) && states[k+1] == Apply(states[k], labels[k]);
    if x in Batch(states[k].workers[t]) {
      InHandStep(states[k], x, t, peak, labels[k], states[k+1]);
    } else {
      OwedStep(states[k], x, t, peak, labels[k], states[k+1]);
    }
  }

  lemma {:induction false} DistanceAddsUp(states: seq<State>, labels: seq<Label>, i: nat, j: nat, x: Session, t: nat,
                                          peak: nat)
    requires Run(states, labels) && Initial(states[0]) && i <= j < |states| && Pending(states[i], x, t)
    requires forall k :: i <= k <= j ==> x in states[k].pool && |states[k].order| <= peak
    requires forall k :: i <= k < j && t < |states[k].workers| ==> !BeingServed(states[k].workers[t], x)
    ensures Pending(states[j], x, t)
    ensures OwnSteps(labels[i..j], t) + Distance(states[j], x, t, peak) <= Distance(states[i], x, t, peak)
    decreases j
  {
    hide Pending, Distance, BeingServed, Run;
    if i < j {
      DistanceAddsUp(states, labels, i, j - 1, x, t, peak);
      assert t < |states[j-1].workers| by { WorkerOfPending(states[j-1], x, t); }
      NearsInRun(states, labels, j - 1, x, t, peak);
      RunIsLong(states, labels);
      OwnStepsNext(labels, i, j, t);
    } else {
      RunIsLong(states, labels);
      assert labels[i..j] == [];
    }
  }

  lemma {:induction false} WorkerOfPending(st: State, x: Session, t: nat)
    requires Pending(st, x, t)
    ensures t < |st.workers|
  {
  }

  lemma {:induction false} RunIsLong(states: seq<State>, labels: seq<Label>)
    requires Run(states, labels)
    ensures |states| == |labels| + 1
  {
  }

  lemma {:induction false} OwnStepsNext(labels: seq<Label>, i: nat, j: nat, t: nat)
    requires i < j <= |labels|
    ensures OwnSteps(labels[i..j], t) == OwnSteps(labels[i..j-1], t) + if labels[j-1] == WorkerStep(t) then 1 else 0
  {
    assert labels[i..j][..j-i-1] == labels[i..j-1];
  }

  lemma {:induction false} OwnStepsShrink(labels: seq<Label>, i: nat, k: nat, j: nat, t: nat)
    requires i <= k <= j <= |labels|
    ensures OwnSteps(labels[k..j], t) <= OwnSteps(labels[i..j], t)
    decreases j
  {
    if k < j {
      OwnStepsNext(labels, i, j, t);
      OwnStepsNext(labels, k, j, t);
      OwnStepsShrink(labels, i, k, j - 1, t);
    }
  }

  /** While worker t has not processed x, which it has in hand or is owed to collect, it takes at most 7P + 12 steps,
      P being the largest number of sessions the pool has held. */
  lemma {:induction false} PendingIsServed(states: seq<State>, labels: seq<Label>, i: nat, j: nat, x: Session, t: nat)
    requires Run(states, labels) && Initial(states[0]) && i <= j < |states| && Pending(states[i], x, t)
    requires forall k :: i <= k <= j ==> x in states[k].pool
    requires forall k :: i <= k < j && t < |states[k].workers| ==> !BeingServed(states[k].workers[t], x)
    ensures OwnSteps(labels[i..j], t) <= 7 * states[j].peak + 12
  {
    hide Pending, Distance, BeingServed, Inv, Fits;
    var peak := states[j].peak;
    PeakIsAttained(states, labels, j);
    DistanceAddsUp(states, labels, i, j, x, t, peak);
    RunKeepsInv(states, labels, i);
    RunKeepsInv(states, labels, j);
    WorkerOfPending(states[i], x, t);
    WorkerOfPending(states[j], x, t);
    FitsInRun(states, labels, i, t);
    FitsInRun(states, labels, j, t);
    DistanceBound(states[i], x, t, peak);
    DistanceBound(states[j], x, t, peak);
  }

  /** A flushed session is processed, or removed, within 7P + 12 steps of its own worker. */
  lemma {:induction false} FlushedSessionsAreServed(states: seq<State>, labels: seq<Label>, i: nat, j: nat, x: Session)
    requires Run(states, labels) && Initial(states[0]) && i <= j < |states| && Owed(states[i], x)
    requires forall k :: i <= k <= j ==> x in states[k].pool
    requires OwnSteps(labels[i..j], states[i].pool[x].thread) > 7 * states[j].peak + 12
    ensures exists k :: i <= k < j && states[i].pool[x].thread < |states[k].workers|
                        && BeingServed(states[k].workers[states[i].pool[x].thread], x)
  {
    var t := states[i].pool[x].thread;
    if forall k :: i <= k < j && t < |states[k].workers| ==> !BeingServed(states[k].workers[t], x) {
      PendingIsServed(states, labels, i, j, x, t);
    }
  }

  // ------------------------------------------------------ from data to service

  lemma {:induction false} ReadyOrInHandStep(st: State, x: Session, t: nat, l: Label, st': State)
    requires Inv(st) && x in st.pool && x in st'.pool && st.pool[x] == Entry(t, true)
    requires Enabled(st, l) && st' == Apply(st, l)
    ensures st'.pool[x] == Entry(t, true) || Pending(st', x, t)
  {
    ReadyStays(st, x, l, st');
    if l == WorkerStep(t) {
      NotReadyIsInHand(st, x, t, st');
    }
  }

  lemma {:induction false} NotReadyIsInHand(st: State, x: Session, t: nat, st': State)
    requires Inv(st) && x in st.pool && st.pool[x] == Entry(t, true)
    requires Enabled(st, WorkerStep(t)) && st' == WorkerApply(st, t)
    ensures x in st'.pool && st'.pool[x].thread == t && (st'.pool[x].ready || x in Batch(st'.workers[t]))
  {
  }

  /** From a state in which x is ready to one in which the dispatcher is idle. */
  lemma {:induction false} PendingByIdle(states: seq<State>, labels: seq<Label>, i: nat, j: nat, x: Session, t: nat)
    requires Run(states, labels) && Initial(states[0]) && i <= j < |states|
    requires forall k :: i <= k <= j ==> x in states[k].pool
    requires states[i].pool[x] == Entry(t, true)
    ensures states[j].pool[x] == Entry(t, true) || exists k :: i <= k <= j && Pending(states[k], x, t)
    decreases j
  {
    hide Inv, Pending, Apply, Enabled;
    if i < j {
      PendingByIdle(states, labels, i, j - 1, x, t);
      if states[j-1].pool[x] == Entry(t, true) {
        RunKeepsInv(states, labels, j - 1);
        assert Enabled(states[j-1], labels[j-1]) && states[j-1+1] == Apply(states[j-1], labels[j-1]);
        ReadyOrInHandStep(states[j-1], x, t, labels[j-1], states[j]);
      }
    }
  }

  lemma {:induction false} ReadyAtIdleIsOwed(st: State, x: Session, t: nat)
    requires Inv(st) && st.disp.Idle? && x in st.pool && st.pool[x] == Entry(t, true)
    ensures Pending(st, x, t)
  {
  }

  lemma {:induction false} ThreadStays(states: seq<State>, labels: seq<Label>, i: nat, j: nat, x: Session)
    requires Run(states, labels) && Initial(states[0]) && i <= j < |states|
    requires forall k :: i <= k <= j ==> x in states[k].pool
    ensures states[j].pool[x].thread == states[i].pool[x].thread
    decreases j
  {
    hide Inv, Apply, Enabled;
    if i < j {
      ThreadStays(states, labels, i, j - 1, x);
      RunKeepsInv(states, labels, j - 1);
      assert Enabled(states[j-1], labels[j-1]) && states[j-1+1] == Apply(states[j-1], labels[j-1]);
      ReadyStays(states[j-1], x, labels[j-1], states[j]);
    }
  }

  /** New data on an fd is answered: after state i, in which the dispatcher is told of it, and state j, in which it is
      idle again, the fd's worker processes its session before it has taken more than 7P + 12 steps since j, unless the
      session is removed. */
  lemma {:induction false} DataIsServed(states: seq<State>, labels: seq<Label>, i: nat, j: nat, m: nat, fd: Fd)
    requires Run(states, labels) && Initial(states[0]) && i < j <= m < |states| && NotIdleBetween(states, i, j)
    requires states[i].disp.Idle? && labels[i] == NewData(fd) && states[j].disp.Idle? && fd in states[i].hash
    requires forall k :: i <= k <= m ==> states[i].hash[fd] in states[k].pool
    requires OwnSteps(labels[j..m], states[i].pool[states[i].hash[fd]].thread) > 7 * states[m].peak + 12
    ensures var x := states[i].hash[fd]; var t := states[i].pool[x].thread;
            exists k :: i < k < m && t < |states[k].workers| && BeingServed(states[k].workers[t], x)
  {
    hide Pending, BeingServed, Inv, Run;
    var x := states[i].hash[fd];
    var t := states[i].pool[x].thread;
    DataIsFlushed(states, labels, i, j, fd);
    RunIsLong(states, labels);
    var a :| i < a <= j && x in states[a].pool && states[a].pool[x].ready;
    ThreadStays(states, labels, i, a, x);
    PendingByIdle(states, labels, a, j, x, t);
    RunKeepsInv(states, labels, j);
    if states[j].pool[x] == Entry(t, true) {
      ReadyAtIdleIsOwed(states[j], x, t);
    }
    var b :| a <= b <= j && Pending(states[b], x, t);
    OwnStepsShrink(labels, b, j, m, t);
    if forall k :: b <= k < m && t < |states[k].workers| ==> !BeingServed(states[k].workers[t], x) {
      PendingIsServed(states, labels, b, m, x, t);
    }
  }

  // ------------------------------------------------------- no service without data

  /** A worker adds x to the sessions it is going to process. */
  predicate Collected(st: State, l: Label, st': State, x: Session)
  {
    l.WorkerStep? && l.t < |st.workers| && l.t < |st'.workers|
    && Batch(st'.workers[l.t]) == Batch(st.workers[l.t]) + [x]
  }

  /** The dispatcher is told of new data for x. */
  predicate Reported(st: State, l: Label, x: Session)
  {
    l.NewData? && l.fd in st.hash && st.hash[l.fd] == x
  }

  function One(b: bool): nat
  {
    if b then 1 else 0
  }

  function CollectedTimes(states: seq<State>, labels: seq<Label>, x: Session, k: nat): nat
    requires k < |states| == |labels| + 1
  {
    if k == 0 then 0
    else CollectedTimes(states, labels, x, k - 1) + One(Collected(states[k-1], labels[k-1], states[k], x))
  }

  function ReportedTimes(states: seq<State>, labels: seq<Label>, x: Session, k: nat): nat
    requires k < |states| == |labels| + 1
  {
    if k == 0 then 0 else ReportedTimes(states, labels, x, k - 1) + One(Reported(states[k-1], labels[k-1], x))
  }

  predicate IsReady(st: State, x: Session)
  {
    x in st.pool && st.pool[x].ready
  }

  lemma {:induction false} TimesStep(st: State, l: Label, st': State, x: Session)
    requires Inv(st) && Enabled(st, l) && st' == Apply(st, l)
    ensures One(Collected(st, l, st', x)) + One(IsReady(st', x)) + One(ToMark(st'.disp, x))
            <= One(IsReady(st, x)) + One(ToMark(st.disp, x)) + One(Reported(st, l, x))
  {
    match l
    case WorkerStep(t) => WorkerTimes(st, t, st', x);
    case DispatcherStep => DispatcherTimes(st, st', x);
    case _ =>
  }

  lemma {:induction false} WorkerTimes(st: State, t: nat, st': State, x: Session)
    requires Inv(st) && Enabled(st, WorkerStep(t)) && st' == WorkerApply(st, t)
    ensures One(Collected(st, WorkerStep(t), st', x)) + One(IsReady(st', x)) <= One(IsReady(st, x))
  {
    var batch, batch' := Batch(st.workers[t]), Batch(st'.workers[t]);
    if Collected(st, WorkerStep(t), st', x) {
      assert |batch'| == |batch| + 1 && batch'[|batch|] == x;
    }
  }

  lemma {:induction false} DispatcherTimes(st: State, st': State, x: Session)
    requires Inv(st) && Enabled(st, DispatcherStep) && st' == DispatcherApply(st)
    ensures One(IsReady(st', x)) + One(ToMark(st'.disp, x)) <= One(IsReady(st, x)) + One(ToMark(st.disp, x))
  {
    hide LeastPopulated, Load, IndexOf, Remove, DispatcherCtx, DispatcherWorker, DispatcherOrder, DispatcherHash;
    hide DispatcherHashOrder, DispatcherPoller, DispatcherObjects;
  }

  /** In every run each session has been collected at most as often as the dispatcher has been told of data for it, and
      less often while it is ready or about to be. */
  lemma {:induction false} NoServiceWithoutData(states: seq<State>, labels: seq<Label>, k: nat, x: Session)
    requires Run(states, labels) && Initial(states[0]) && k < |states|
    ensures CollectedTimes(states, labels, x, k) + One(IsReady(states[k], x)) + One(ToMark(states[k].disp, x))
            <= ReportedTimes(states, labels, x, k)
    decreases k
  {
    if k > 0 {
      hide Collected, Reported, IsReady, ToMark, Inv, Apply, Enabled, One;
      NoServiceWithoutData(states, labels, k - 1, x);
      RunKeepsInv(states, labels, k - 1);
      assert Enabled(states[k-1], labels[k-1]) && states[k-1+1] == Apply(states[k-1], labels[k-1]);
      TimesStep(states[k-1], labels[k-1], states[k], x);
    }
  }
}
