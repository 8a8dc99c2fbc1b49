/**
 Every wake-up is answered: a session that has been flushed is collected by its own worker
 within a bounded number of that worker's steps, whatever all the other threads do.
 */
module SessionServerService {
  import opened Sequences
  import opened SessionServer
  import opened SessionServerInvariant
  import opened SessionServerSteps

  /** x is ready and its worker will scan for it without any further help but a signal. */
  predicate Owed(st: State, x: Session)
  {
    && x in st.pool && st.pool[x].ready && st.pool[x].thread < |st.ctx| == |st.workers|
    && (st.ctx[st.pool[x].thread].shouldWake || WillScan(st.workers[st.pool[x].thread], st.order, x))
  }

  /** Steps the worker at pc has left until its scan passes position at of an order of n sessions. */
  function StepsLeft(pc: WorkerPc, at: nat, n: nat): int
  {
    match pc
    case WScan(pos, batch) => if pos <= at then at - pos + 1 else at + 10 + 3 * (n - pos) + 2 * |batch|
    case WLockSessions => at + 2
    case WUnlockCtx => at + 3
    case WConsume => at + 4
    case WTestWake => at + 5
    case WLockCtx => at + 6
    case WWoken => at + 6
    case WAsleep => at + 6
    case WTest => at + 7
    case WUnlockSessions => at + 8
    case WServe(todo) => at + 8 + 2 * |todo|
    case WCheck(todo) => at + 9 + 2 * |todo|
    case WExited => 0
  }

  function ServiceSteps(st: State, x: Session): int
    requires Owed(st, x)
  {
    StepsLeft(st.workers[st.pool[x].thread], IndexOf(st.order, x), |st.order|)
  }

  // ---------------------------------------------------- where x stands in line

  lemma {:induction false} IndexAfterAppend<T>(xs: seq<T>, x: T, y: T)
    requires x in xs
    ensures IndexOf(xs + [y], x) == IndexOf(xs, x)
  {
    if xs[0] != x {
      assert (xs + [y])[1..] == xs[1..] + [y];
      IndexAfterAppend(xs[1..], x, y);
    }
  }

  lemma {:induction false} IndexAfterRemove<T>(xs: seq<T>, x: T, y: T)
    requires Distinct(xs) && x in xs && x != y
    ensures x in Remove(xs, y) && IndexOf(Remove(xs, y), x) <= IndexOf(xs, x)
  {
    hide IndexOf;
    RemoveFacts(xs, y);
    var i, k := IndexOf(xs, y), IndexOf(xs, x);
    if i < |xs| {
      IndexUnique(Remove(xs, y), x, if k < i then k else k - 1);
    }
  }

  lemma {:induction false} SuffixMember<T>(xs: seq<T>, x: T, pos: nat)
    requires Distinct(xs) && pos <= |xs| && x in xs
    ensures x in xs[pos..] <==> pos <= IndexOf(xs, x)
  {
    var k := IndexOf(xs, x);
    if pos <= k {
      assert xs[pos..][k - pos] == x;
    } else {
      assert forall j :: 0 <= j < |xs| - pos ==> xs[pos..][j] == xs[pos + j] != x;
    }
  }

  // ------------------------------------------------------------------ steps

  lemma {:induction false} OwnScanStep(st: State, x: Session, t: nat, pc: WorkerPc, pool: map<Session, Entry>)
    requires PoolOk(st.order, st.pool, |st.ctx|) && x in st.pool && st.pool[x] == Entry(t, true)
    requires t < |st.workers| == |st.ctx| && st.workers[t].WScan? && st.workers[t].pos <= |st.order|
    requires pc == WorkerNext(st, t) && pool == WorkerPool(st.workers[t], st.order, st.pool, t)
    ensures x in pool && pool[x].thread == t
    ensures !pool[x].ready ==> x in Batch(pc)
    ensures pool[x].ready ==>
              StepsLeft(pc, IndexOf(st.order, x), |st.order|)
              < StepsLeft(st.workers[t], IndexOf(st.order, x), |st.order|)
    ensures pool[x].ready && WillScan(st.workers[t], st.order, x) ==> WillScan(pc, st.order, x)
  {
    hide IndexOf;
    var pos, at := st.workers[t].pos, IndexOf(st.order, x);
    if pos < |st.order| {
      SuffixMember(st.order, x, pos);
      SuffixMember(st.order, x, pos + 1);
      IndexUnique(st.order, st.order[pos], pos);
    }
  }

  /** The worker's own step brings it closer to x, or collects x. */
  lemma {:induction false} OwnStep(st: State, x: Session, t: nat, st': State)
    requires Inv(st) && Owed(st, x) && t == st.pool[x].thread
    requires Enabled(st, WorkerStep(t)) && st' == WorkerApply(st, t)
    ensures x in st'.pool && st'.pool[x].thread == t
    ensures if st'.pool[x].ready then Owed(st', x) && ServiceSteps(st', x) < ServiceSteps(st, x)
            else x in Batch(st'.workers[t])
  {
    var c, pc := st.ctx[t], st.workers[t];
    assert BatchOk(pc, t, st.order, st.pool);
    if pc.WScan? {
      OwnScanStep(st, x, t, st'.workers[t], st'.pool);
    } else {
      NotStopping(st, x);
      OwnOtherStep(st, x, t, st'.ctx[t], st'.workers[t]);
    }
  }

  lemma {:induction false} NotStopping(st: State, x: Session)
    requires Inv(st) && x in st.pool
    ensures !st.disp.Stop? && !st.disp.Done?
  {
  }

  lemma {:induction false} OwnOtherStep(st: State, x: Session, t: nat, c: Ctx, pc: WorkerPc)
    requires Owed(st, x) && t == st.pool[x].thread && WorkerMoves(st, t, c, pc) && !st.workers[t].WScan?
    requires PoolOk(st.order, st.pool, |st.ctx|) && FlagsOk(st.ctx[t], st.workers[t], st.disp, t)
    requires BatchOk(st.workers[t], t, st.order, st.pool) && !st.disp.Stop? && !st.disp.Done?
    ensures StepsLeft(pc, IndexOf(st.order, x), |st.order|) < StepsLeft(st.workers[t], IndexOf(st.order, x), |st.order|)
    ensures c.shouldWake || WillScan(pc, st.order, x)
  {
    SuffixMember(st.order, x, 0);
  }

  lemma {:induction false} OtherWorkerStep(st: State, x: Session, u: nat, st': State)
    requires Inv(st) && Owed(st, x) && u != st.pool[x].thread
    requires Enabled(st, WorkerStep(u)) && st' == WorkerApply(st, u)
    ensures Owed(st', x) && ServiceSteps(st', x) == ServiceSteps(st, x) && st'.pool[x].thread == st.pool[x].thread
  {
  }

  /** The dispatcher only moves sessions forward in line, and moves none while a worker scans. */
  lemma {:induction false} DispatcherOrderStep(st: State, x: Session, t: nat)
    requires PoolOk(st.order, st.pool, |st.ctx|) && SessionsMutexOk(st.sessionsMutex, st.workers, st.disp)
    requires x in st.pool && t < |st.workers|
    requires x in DispatcherPool(st.disp, st.pool)
    ensures IndexOf(DispatcherOrder(st.disp, st.order), x) <= IndexOf(st.order, x)
    ensures HoldsSessions(st.workers[t]) ==> DispatcherOrder(st.disp, st.order) == st.order
  {
    var d := st.disp;
    if d.Conn? && d.conn.CInsert? {
      IndexAfterAppend(st.order, x, d.s);
    } else if d.Drop? && d.drop.DDelete? {
      IndexAfterRemove(st.order, x, d.s);
    }
  }

  lemma {:induction false} FewerStepsLeft(pc: WorkerPc, pc': WorkerPc, at: nat, at': nat, n: nat, n': nat)
    requires pc' == pc || (pc.WAsleep? && pc'.WWoken?)
    requires at' <= at && (pc.WScan? ==> at' == at && n' == n)
    ensures StepsLeft(pc', at', n') <= StepsLeft(pc, at, n)
  {
  }

  /** The dispatcher's steps never push x further away; only its removal ends the debt. */
  lemma {:induction false} DispatcherServiceStep(st: State, x: Session, st': State)
    requires PoolOk(st.order, st.pool, |st.ctx|) && SessionsMutexOk(st.sessionsMutex, st.workers, st.disp)
    requires PoolMatchesHash(st.pool, st.hash, st.objects, st.disp)
    requires Owed(st, x) && st' == DispatcherApply(st) && x in st'.pool
    ensures Owed(st', x) && ServiceSteps(st', x) <= ServiceSteps(st, x) && st'.pool[x].thread == st.pool[x].thread
  {
    hide IndexOf, LeastPopulated, Load, Remove, StepsLeft, DispatcherNext;
    var t := st.pool[x].thread;
    DispatcherOrderStep(st, x, t);
    FewerStepsLeft(st.workers[t], st'.workers[t], IndexOf(st.order, x), IndexOf(st'.order, x), |st.order|, |st'.order|);
  }

  /** No step of another thread and no event delays the worker's way to x. */
  lemma {:induction false} AnyStep(st: State, x: Session, l: Label, st': State)
    requires Inv(st) && Owed(st, x) && Enabled(st, l) && st' == Apply(st, l)
    requires x in st'.pool && st'.pool[x].ready
    ensures Owed(st', x) && st'.pool[x].thread == st.pool[x].thread
    ensures ServiceSteps(st', x) <= ServiceSteps(st, x) - (if l == WorkerStep(st.pool[x].thread) then 1 else 0)
  {
    match l
    case WorkerStep(u) =>
      if u == st.pool[x].thread {
        OwnStep(st, x, u, st');
      } else {
        OtherWorkerStep(st, x, u, st');
      }
    case DispatcherStep => DispatcherServiceStep(st, x, st');
    case _ =>
  }

  function OwnSteps(labels: seq<Label>, t: nat): nat
  {
    if labels == [] then 0
    else OwnSteps(labels[..|labels|-1], t) + (if labels[|labels|-1] == WorkerStep(t) then 1 else 0)
  }

  ghost predicate Approaches(st: State, x: Session, t: nat, l: Label, st': State)
  {
    && Owed(st, x) && Owed(st', x) && st.pool[x].thread == st'.pool[x].thread == t
    && 0 < ServiceSteps(st', x) <= ServiceSteps(st, x) - (if l == WorkerStep(t) then 1 else 0)
  }

  lemma {:induction false} OwedIsPositive(st: State, x: Session)
    requires Inv(st) && Owed(st, x)
    ensures ServiceSteps(st, x) > 0
  {
    var t := st.pool[x].thread;
    assert FlagsOk(st.ctx[t], st.workers[t], st.disp, t);
    assert BatchOk(st.workers[t], t, st.order, st.pool);
    NotStopping(st, x);
  }

  lemma {:induction false} ApproachesInRun(states: seq<State>, labels: seq<Label>, i: nat, k: nat, x: Session)
    requires Run(states, labels) && Initial(states[0]) && i <= k < |labels| && Owed(states[i], x)
    requires forall m :: i <= m <= k + 1 ==> x in states[m].pool && states[m].pool[x].ready
    ensures Approaches(states[k], x, states[i].pool[x].thread, labels[k], states[k+1])
    decreases k
  {
    if i < k {
      ApproachesInRun(states, labels, i, k - 1, x);
    }
    RunKeepsInv(states, labels, k);
    RunKeepsInv(states, labels, k + 1);
    AnyStep(states[k], x, labels[k], states[k+1]);
    OwedIsPositive(states[k+1], x);
  }

  lemma {:induction false} ApproachesAddUp(states: seq<State>, labels: seq<Label>, i: nat, j: nat, x: Session, t: nat)
    requires i <= j < |states| == |labels| + 1 && Owed(states[i], x) && states[i].pool[x].thread == t
    requires forall k :: i <= k < j ==> Approaches(states[k], x, t, labels[k], states[k+1])
    ensures Owed(states[j], x)
    ensures OwnSteps(labels[i..j], t) + ServiceSteps(states[j], x) <= ServiceSteps(states[i], x)
    decreases j
  {
    hide ServiceSteps, Owed;
    if i < j {
      ApproachesAddUp(states, labels, i, j - 1, x, t);
      assert Approaches(states[j-1], x, t, labels[j-1], states[j-1+1]);
      assert labels[i..j][..j-i-1] == labels[i..j-1];
    }
  }

  /** While x stays in the pool and ready, its worker takes fewer than ServiceSteps steps: after that many of
      its own steps, in any interleaving, x has been collected (or the dispatcher has removed it). */
  lemma {:induction false} ReadySessionsAreCollected(states: seq<State>, labels: seq<Label>, i: nat, j: nat, x: Session)
    requires Run(states, labels) && Initial(states[0]) && i < j < |states| && Owed(states[i], x)
    requires forall k :: i <= k <= j ==> x in states[k].pool && states[k].pool[x].ready
    ensures OwnSteps(labels[i..j], states[i].pool[x].thread) < ServiceSteps(states[i], x)
  {
    var t := states[i].pool[x].thread;
    forall k | i <= k < j
      ensures Approaches(states[k], x, t, labels[k], states[k+1])
    {
      ApproachesInRun(states, labels, i, k, x);
    }
    assert Approaches(states[j-1], x, t, labels[j-1], states[j-1+1]);
    ApproachesAddUp(states, labels, i, j, x, t);
  }
}
