/**
 Progress: spool_destroy ends with every worker joined, in every interleaving, and a ready
 session is collected after a bounded number of its worker's own steps.
 */
module SessionServerProgress {
  import opened Sequences
  import opened SessionServer
  import opened SessionServerInvariant
  import opened SessionServerSteps
  import opened SessionServerSafety

  // --------------------------------------------------------------- shutdown

  /** Steps worker t can still take after the tables are empty, were it never woken again: the rest of this
      round, and one more round if should_wake is set. */
  function WorkerRank(pc: WorkerPc, flag: bool): nat
  {
    (match pc
     case WExited => 0
     case WAsleep => 0
     case WConsume => 0
     case WTestWake => 1
     case WLockCtx => 2
     case WWoken => 2
     case WTest => 3
     case WUnlockSessions => 4
     case WCheck(_) => 5
     case WServe(_) => 5
     case WScan(_, _) => 6
     case WLockSessions => 7
     case WUnlockCtx => 8) + (if flag then 9 else 0)
  }

  lemma {:induction false} SumUpdate(xs: seq<nat>, i: nat, x: nat)
    requires i < |xs|
    ensures Sum(xs[i := x]) == Sum(xs) - xs[i] + x
  {
    var m := |xs| - 1;
    if i == m {
      assert xs[i := x][..m] == xs[..m];
    } else {
      assert xs[i := x][..m] == xs[..m][i := x];
      SumUpdate(xs[..m], i, x);
    }
  }

  lemma {:induction false} SumBound(xs: seq<nat>, bound: nat)
    requires forall i :: 0 <= i < |xs| ==> xs[i] <= bound
    ensures Sum(xs) <= bound * |xs|
  {
    if xs != [] {
      SumBound(xs[..|xs|-1], bound);
      assert bound * |xs| == bound * (|xs| - 1) + bound;
    }
  }

  function Ranks(workers: seq<WorkerPc>, ctx: seq<Ctx>): seq<nat>
    requires |workers| == |ctx|
  {
    seq(|workers|, t requires 0 <= t < |workers| => WorkerRank(workers[t], ctx[t].shouldWake))
  }

  /** Steps the dispatcher has left in spool_destroy, with the work each of them can give to a worker: setting
      should_wake pays for a round, a signal for waking up. */
  function StopRank(d: DispatcherPc, n: nat): int
  {
    if !d.Stop? then 0
    else
      (match d.stop
       case SLock => 20 * n + 3
       case SLockCtx => 13 * (n - d.i) + 7 * n + 2
       case SClear => 13 * (n - d.i) + 7 * n + 1
       case SFlag => 13 * (n - d.i) + 7 * n
       case SUnlockCtx => 13 * (n - d.i) + 7 * n - 10
       case SUnlock => 7 * n + 2
       case JLock => 7 * (n - d.i) + 1
       case JSignal => 7 * (n - d.i)
       case JUnlock => 7 * (n - d.i) - 3
       case JWait => 7 * (n - d.i) - 4
       case JDestroy => 7 * (n - d.i) - 5
       case SDestroy => 1)
  }

  function Rank(st: State): int
    requires |st.workers| == |st.ctx|
  {
    StopRank(st.disp, |st.ctx|) + Sum(Ranks(st.workers, st.ctx))
  }

  /** Changing one thread changes the sum by that thread's change. */
  lemma {:induction false} RankAt(st: State, st': State, t: nat)
    requires |st.workers| == |st.ctx| == |st'.workers| == |st'.ctx| && t < |st.workers|
    requires forall u :: 0 <= u < |st.workers| && u != t ==>
               st'.workers[u] == st.workers[u] && st'.ctx[u].shouldWake == st.ctx[u].shouldWake
    ensures Sum(Ranks(st'.workers, st'.ctx)) - Sum(Ranks(st.workers, st.ctx))
            == WorkerRank(st'.workers[t], st'.ctx[t].shouldWake) - WorkerRank(st.workers[t], st.ctx[t].shouldWake)
  {
    var xs, ys := Ranks(st.workers, st.ctx), Ranks(st'.workers, st'.ctx);
    assert ys == xs[t := ys[t]];
    SumUpdate(xs, t, ys[t]);
  }

  lemma {:induction false} WorkerRankDrops(st: State, t: nat, st': State)
    requires Inv(st) && (st.disp.Stop? || st.disp.Done?) && Enabled(st, WorkerStep(t)) && st' == WorkerApply(st, t)
    ensures WorkerRank(st'.workers[t], st'.ctx[t].shouldWake) < WorkerRank(st.workers[t], st.ctx[t].shouldWake)
  {
    StopTablesEmpty(st);
    assert BatchOk(st.workers[t], t, st.order, st.pool);
    EmptyOrHasMember(Batch(st.workers[t]));
    assert CtxMutexOk(st.ctx[t].mutex, st.workers[t], st.disp, t);
    assert FlagsOk(st.ctx[t], st.workers[t], st.disp, t);
  }

  /** One step in spool_destroy, and what it gives to the worker it is about. */
  lemma {:induction false} StopStepDrops(d: DispatcherPc, n: nat, c: Ctx, pc: WorkerPc)
    requires d.Stop? && d.i < n
    ensures StopRank(StopNext(d, n), n) + WorkerRank(DispatcherWorker(d, pc, d.i), DispatcherCtx(d, c, d.i).shouldWake)
            < StopRank(d, n) + WorkerRank(pc, c.shouldWake)
  {
  }

  ghost predicate UsesRank(st: State, l: Label, st': State)
  {
    && |st.workers| == |st.ctx| == |st'.workers| == |st'.ctx|
    && Rank(st') <= (if l.SpuriousWake? then Rank(st) + 2 else Rank(st) - 1)
  }

  lemma {:induction false} DispatcherUsesRank(st: State, st': State)
    requires InRange(st.disp, |st.ctx|) && |st.ctx| == |st.workers| && st.disp.Stop? && st' == DispatcherApply(st)
    ensures UsesRank(st, DispatcherStep, st')
  {
    StopStepDrops(st.disp, |st.ctx|, st.ctx[st.disp.i], st.workers[st.disp.i]);
    RankAt(st, st', st.disp.i);
  }

  lemma {:induction false} WorkerUsesRank(st: State, t: nat, st': State)
    requires Inv(st) && (st.disp.Stop? || st.disp.Done?) && Enabled(st, WorkerStep(t)) && st' == WorkerApply(st, t)
    ensures UsesRank(st, WorkerStep(t), st')
  {
    WorkerRankDrops(st, t, st');
    RankAt(st, st', t);
  }

  lemma {:induction false} SpuriousUsesRank(st: State, t: nat, st': State)
    requires |st.workers| == |st.ctx| && t < |st.workers| && st.workers[t].WAsleep?
    requires st' == st.(workers := st.workers[t := WWoken])
    ensures UsesRank(st, SpuriousWake(t), st')
  {
    RankAt(st, st', t);
  }

  /** Every step of the shutdown uses up rank, except that a worker woken for no reason costs two. */
  lemma {:induction false} ShutdownStep(st: State, l: Label, st': State)
    requires Inv(st) && (st.disp.Stop? || st.disp.Done?) && Enabled(st, l) && st' == Apply(st, l)
    ensures (st'.disp.Stop? || st'.disp.Done?) && UsesRank(st, l, st')
  {
    match l
    case WorkerStep(t) => WorkerUsesRank(st, t, st');
    case SpuriousWake(t) => SpuriousUsesRank(st, t, st');
    case DispatcherStep => DispatcherUsesRank(st, st');
    case _ =>
  }

  function SpuriousWakes(labels: seq<Label>): nat
  {
    if labels == [] then 0
    else SpuriousWakes(labels[..|labels|-1]) + (if labels[|labels|-1].SpuriousWake? then 1 else 0)
  }

  lemma {:induction false} StopGoesOn(states: seq<State>, labels: seq<Label>, i: nat, k: nat)
    requires Run(states, labels) && Initial(states[0]) && i <= k < |labels|
    requires states[i].disp.Stop? || states[i].disp.Done?
    ensures states[k+1].disp.Stop? || states[k+1].disp.Done?
    ensures UsesRank(states[k], labels[k], states[k+1])
    decreases k
  {
    if i < k {
      StopGoesOn(states, labels, i, k - 1);
    }
    RunKeepsInv(states, labels, k);
    ShutdownStep(states[k], labels[k], states[k+1]);
  }

  lemma {:induction false} StopUsesRank(states: seq<State>, labels: seq<Label>, i: nat, j: nat)
    requires Run(states, labels) && Initial(states[0]) && i <= j < |states| && states[i].disp.Stop?
    ensures forall k :: i <= k < j ==> UsesRank(states[k], labels[k], states[k+1])
  {
    forall k | i <= k < j
      ensures UsesRank(states[k], labels[k], states[k+1])
    {
      StopGoesOn(states, labels, i, k);
    }
  }

  lemma {:induction false} RankAddsUp(states: seq<State>, labels: seq<Label>, i: nat, j: nat)
    requires i <= j < |states| == |labels| + 1 && |states[i].workers| == |states[i].ctx|
    requires forall k :: i <= k < j ==> UsesRank(states[k], labels[k], states[k+1])
    ensures |states[j].workers| == |states[j].ctx|
    ensures Rank(states[j]) + (j - i) <= Rank(states[i]) + 3 * SpuriousWakes(labels[i..j])
    decreases j
  {
    hide Rank;
    if i < j {
      RankAddsUp(states, labels, i, j - 1);
      assert UsesRank(states[j-1], labels[j-1], states[j-1+1]);
      assert labels[i..j][..j-i-1] == labels[i..j-1];
    }
  }

  lemma {:induction false} RankBounds(st: State)
    requires Inv(st)
    ensures |st.workers| == |st.ctx| && 0 <= Rank(st)
    ensures st.disp == Stop(SLock, 0) ==> Rank(st) <= 37 * |st.ctx| + 3
  {
    SumBound(Ranks(st.workers, st.ctx), 17);
    if st.disp.Stop? {
      assert 13 * (|st.ctx| - st.disp.i) >= 13 && 7 * (|st.ctx| - st.disp.i) >= 7;
    }
  }

  /** spool_destroy on n threads is over within 37n + 3 steps of all threads together, plus three for every
      time a worker wakes up for no reason, whatever the interleaving. */
  lemma {:induction false} ShutdownIsBounded(states: seq<State>, labels: seq<Label>, i: nat, j: nat)
    requires Run(states, labels) && Initial(states[0]) && i <= j < |states|
    requires states[i].disp == Stop(SLock, 0)
    ensures j - i <= 37 * |states[i].ctx| + 3 + 3 * SpuriousWakes(labels[i..j])
  {
    RunKeepsInv(states, labels, i);
    RunKeepsInv(states, labels, j);
    RankBounds(states[i]);
    RankBounds(states[j]);
    StopUsesRank(states, labels, i, j);
    RankAddsUp(states, labels, i, j);
  }

  /** It never stops short: until every worker has exited, every join has returned and everything is
      destroyed, some thread can take a step. */
  lemma {:induction false} ShutdownCompletes(states: seq<State>, labels: seq<Label>, k: nat)
    requires Run(states, labels) && Initial(states[0]) && k < |states|
    requires states[k].disp.Stop? || states[k].disp.Done?
    ensures |states[k].workers| == |states[k].ctx|
    ensures var st := states[k];
            if st.disp.Done?
            then st.sessionsMutex == Destroyed
                 && (forall t :: 0 <= t < |st.workers| ==> st.workers[t].WExited? && st.ctx[t].mutex == Destroyed)
            else exists th :: CanMove(st, th)
  {
    RunKeepsInv(states, labels, k);
    var st := states[k];
    if st.disp.Done? {
      forall t | 0 <= t < |st.workers|
        ensures st.workers[t].WExited? && st.ctx[t].mutex == Destroyed
      {
        assert CtxMutexOk(st.ctx[t].mutex, st.workers[t], st.disp, t) && FlagsOk(st.ctx[t], st.workers[t], st.disp, t);
      }
    } else {
      BusyUnblocks(st, Dispatcher);
      UnblocksMeansMove(st, Dispatcher, 3);
    }
  }

  lemma {:induction false} UnblocksMeansMove(st: State, th: Thread, n: nat)
    requires |st.ctx| == |st.workers| && Unblocks(st, th, n)
    ensures exists u :: CanMove(st, u)
    decreases n
  {
    if !CanMove(st, th) {
      UnblocksMeansMove(st, WaitsFor(st, th).value, n - 1);
    }
  }
}
