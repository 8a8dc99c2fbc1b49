/** How evenly spool_add_session spreads sessions over the threads, in every run. */
module SessionServerLoad {
  import opened Sequences
  import opened SessionServer
  import opened SessionServerInvariant
  import opened SessionServerSteps

  const SIZE_MAX: nat := 0xFFFF_FFFF_FFFF_FFFF

  // ------------------------------------------------------ counting sessions

  lemma {:induction false} LoadFrame(order: seq<Session>, pool: map<Session, Entry>, pool': map<Session, Entry>, t: nat)
    requires forall x :: x in order ==> x in pool && x in pool' && pool'[x].thread == pool[x].thread
    ensures Load(order, pool', t) == Load(order, pool, t)
  {
    if order != [] {
      assert order[|order|-1] in order;
      LoadFrame(order[..|order|-1], pool, pool', t);
    }
  }

  lemma {:induction false} LoadConcat(a: seq<Session>, b: seq<Session>, pool: map<Session, Entry>, t: nat)
    ensures Load(a + b, pool, t) == Load(a, pool, t) + Load(b, pool, t)
  {
    if b == [] {
      assert a + b == a;
    } else {
      assert (a + b)[..|a+b|-1] == a + b[..|b|-1];
      LoadConcat(a, b[..|b|-1], pool, t);
    }
  }

  lemma {:induction false} LoadAfterAdd(order: seq<Session>, pool: map<Session, Entry>, s: Session, e: Entry, t: nat)
    requires s !in order && forall x :: x in order ==> x in pool
    ensures Load(order + [s], pool[s := e], t) == Load(order, pool, t) + (if e.thread == t then 1 else 0)
  {
    assert (order + [s])[..|order|] == order;
    LoadFrame(order, pool, pool[s := e], t);
  }

  lemma {:induction false} LoadAfterRemove(order: seq<Session>, pool: map<Session, Entry>, s: Session, t: nat)
    requires Distinct(order) && forall x :: x in order ==> x in pool
    ensures Load(Remove(order, s), pool - {s}, t) <= Load(order, pool, t)
  {
    RemoveFacts(order, s);
    LoadFrame(Remove(order, s), pool, pool - {s}, t);
    var i := IndexOf(order, s);
    if i < |order| {
      LoadWithout(order, pool, i, t);
    }
  }

  lemma {:induction false} LoadWithout(order: seq<Session>, pool: map<Session, Entry>, i: nat, t: nat)
    requires i < |order|
    ensures Load(order[..i] + order[i+1..], pool, t) <= Load(order, pool, t)
  {
    LoadConcat(order[..i], order[i+1..], pool, t);
    LoadConcat(order[..i+1], order[i+1..], pool, t);
    assert order[..i+1] + order[i+1..] == order;
    assert order[..i+1][..i] == order[..i];
  }

  function TotalLoad(order: seq<Session>, pool: map<Session, Entry>, n: nat): nat
  {
    if n == 0 then 0 else TotalLoad(order, pool, n - 1) + Load(order, pool, n - 1)
  }

  lemma {:induction false} TotalOfLast(order: seq<Session>, pool: map<Session, Entry>, n: nat)
    requires order != [] && order[|order|-1] in pool
    ensures TotalLoad(order, pool, n)
            == TotalLoad(order[..|order|-1], pool, n) + (if pool[order[|order|-1]].thread < n then 1 else 0)
  {
    if n > 0 {
      TotalOfLast(order, pool, n - 1);
    }
  }

  lemma {:induction false} TotalOfNone(pool: map<Session, Entry>, n: nat)
    ensures TotalLoad([], pool, n) == 0
  {
    if n > 0 {
      TotalOfNone(pool, n - 1);
    }
  }

  /** Every session belongs to exactly one thread. */
  lemma {:induction false} TotalIsSize(order: seq<Session>, pool: map<Session, Entry>, n: nat)
    requires forall x :: x in order ==> x in pool && pool[x].thread < n
    ensures TotalLoad(order, pool, n) == |order|
  {
    if order == [] {
      TotalOfNone(pool, n);
    } else {
      assert order[|order|-1] in order;
      TotalOfLast(order, pool, n);
      TotalIsSize(order[..|order|-1], pool, n);
    }
  }

  lemma {:induction false} SmallestTimesThreads(order: seq<Session>, pool: map<Session, Entry>, n: nat, m: nat)
    requires forall u :: 0 <= u < n ==> m <= Load(order, pool, u)
    ensures n * m <= TotalLoad(order, pool, n)
  {
    if n > 0 {
      SmallestTimesThreads(order, pool, n - 1, m);
      assert n * m == (n - 1) * m + m;
    }
  }

  /** p / n, rounded up. */
  function Ceiling(p: nat, n: nat): nat
    requires n > 0
  {
    if p == 0 then 0 else if p <= n then 1 else 1 + Ceiling(p - n, n)
  }

  lemma {:induction false} CeilingRoundsUp(p: nat, n: nat)
    requires n > 0
    ensures p <= n * Ceiling(p, n) < p + n
  {
    if p > n {
      CeilingRoundsUp(p - n, n);
      assert n * Ceiling(p, n) == n * Ceiling(p - n, n) + n;
    }
  }

  lemma {:induction false} CeilingMonotone(p: nat, q: nat, n: nat)
    requires n > 0 && p <= q
    ensures Ceiling(p, n) <= Ceiling(q, n)
  {
    if q > n && p > n {
      CeilingMonotone(p - n, q - n, n);
    }
  }

  /** n threads with m sessions each, and one session more. */
  lemma {:induction false} CeilingExceeds(size: nat, n: nat, m: nat)
    requires n > 0 && n * m <= size
    ensures m + 1 <= Ceiling(size + 1, n)
  {
    if m > 0 {
      assert n * m == n * (m - 1) + n;
      CeilingExceeds(size - n, n, m - 1);
    }
  }

  // ---------------------------------------------- cpool_least_populated_thread

  /** Counts with one pass over the map, then takes the first smallest count. */
  method LeastPopulatedThread(order: seq<Session>, pool: map<Session, Entry>, n: nat) returns (minThread: nat)
    requires n > 0 && |order| < SIZE_MAX
    requires forall x :: x in order ==> x in pool && pool[x].thread < n
    ensures minThread == LeastPopulated(order, pool, n)
  {
    var countPerThread := new nat[n](_ => 0);
    assert order[..0] == [];
    for k := 0 to |order|
      invariant forall t :: 0 <= t < n ==> countPerThread[t] == Load(order[..k], pool, t)
    {
      assert order[k] in order;
      assert order[..k+1][..k] == order[..k];
      var t := pool[order[k]].thread;
      countPerThread[t] := countPerThread[t] + 1;
    }
    assert order[..|order|] == order;
    forall t | 0 <= t < n
      ensures countPerThread[t] < SIZE_MAX
    {
      LoadAtMostSize(order, pool, t);
    }
    var minSz := SIZE_MAX;
    minThread := 0;
    for i := 0 to n
      invariant if i == 0 then minSz == SIZE_MAX
                else minThread == LeastPopulated(order, pool, i) && minSz == Load(order, pool, minThread)
    {
      if countPerThread[i] < minSz {
        minThread, minSz := i, countPerThread[i];
      }
    }
  }

  lemma {:induction false} LoadAtMostSize(order: seq<Session>, pool: map<Session, Entry>, t: nat)
    ensures Load(order, pool, t) <= |order|
  {
    if order != [] {
      LoadAtMostSize(order[..|order|-1], pool, t);
    }
  }

  // -------------------------------------------------------------- invariants

  /** No thread owns more than the peak number of sessions divided by n, rounded up. */
  ghost predicate LoadOk(order: seq<Session>, pool: map<Session, Entry>, peak: nat, n: nat)
  {
    n > 0 && |order| <= peak && forall t :: 0 <= t < n ==> Load(order, pool, t) <= Ceiling(peak, n)
  }

  /** The thread picked for a new session is still a least loaded one when the session is inserted. */
  ghost predicate PickOk(order: seq<Session>, pool: map<Session, Entry>, d: DispatcherPc, n: nat)
  {
    d.Conn? && (d.conn.CLock? || d.conn.CInsert?) ==>
      d.t < n && forall u :: 0 <= u < n ==> Load(order, pool, d.t) <= Load(order, pool, u)
  }

  /** No session has been dropped yet. */
  ghost predicate NoneDropped(created: nat, pool: map<Session, Entry>, d: DispatcherPc)
  {
    forall s :: 0 <= s < created ==> s in pool || Connecting(d, s)
  }

  ghost predicate Balanced(order: seq<Session>, pool: map<Session, Entry>, n: nat)
  {
    forall t, u :: 0 <= t < n && 0 <= u < n ==> Load(order, pool, t) <= Load(order, pool, u) + 1
  }

  ghost predicate SpreadOk(st: State)
  {
    && LoadOk(st.order, st.pool, st.peak, |st.ctx|)
    && PickOk(st.order, st.pool, st.disp, |st.ctx|)
    && (NoneDropped(|st.objects|, st.pool, st.disp) ==> Balanced(st.order, st.pool, |st.ctx|))
  }

  lemma {:induction false} LeastFits(order: seq<Session>, pool: map<Session, Entry>, n: nat, t: nat)
    requires PoolOk(order, pool, n) && t < n
    requires forall u :: 0 <= u < n ==> Load(order, pool, t) <= Load(order, pool, u)
    ensures Load(order, pool, t) + 1 <= Ceiling(|order| + 1, n)
  {
    TotalIsSize(order, pool, n);
    SmallestTimesThreads(order, pool, n, Load(order, pool, t));
    CeilingExceeds(|order|, n, Load(order, pool, t));
  }

  /** Adding a session to a least loaded thread keeps the bound, and keeps the loads within one of each other. */
  lemma {:induction false} AddKeepsLoad(order: seq<Session>, pool: map<Session, Entry>, peak: nat, n: nat,
          s: Session, t: nat)
    requires PoolOk(order, pool, n) && s !in pool && t < n
    requires LoadOk(order, pool, peak, n)
    requires forall u :: 0 <= u < n ==> Load(order, pool, t) <= Load(order, pool, u)
    ensures LoadOk(order + [s], pool[s := Entry(t, false)], Max(peak, |order| + 1), n)
    ensures Balanced(order, pool, n) ==> Balanced(order + [s], pool[s := Entry(t, false)], n)
  {
    var order', pool' := order + [s], pool[s := Entry(t, false)];
    LeastFits(order, pool, n, t);
    CeilingMonotone(peak, Max(peak, |order| + 1), n);
    CeilingMonotone(|order| + 1, Max(peak, |order| + 1), n);
    forall u | 0 <= u < n
      ensures Load(order', pool', u) == Load(order, pool, u) + (if t == u then 1 else 0)
    {
      LoadAfterAdd(order, pool, s, Entry(t, false), u);
    }
  }

  lemma {:induction false} RemoveKeepsLoad(order: seq<Session>, pool: map<Session, Entry>, peak: nat, n: nat,
          s: Session)
    requires PoolOk(order, pool, n) && LoadOk(order, pool, peak, n)
    ensures LoadOk(Remove(order, s), pool - {s}, Max(peak, |Remove(order, s)|), n)
  {
    forall u | 0 <= u < n
      ensures Load(Remove(order, s), pool - {s}, u) <= Load(order, pool, u)
    {
      LoadAfterRemove(order, pool, s, u);
    }
  }

  lemma {:induction false} ReadyKeepsLoad(order: seq<Session>, pool: map<Session, Entry>, pool': map<Session, Entry>,
          n: nat)
    requires PoolOk(order, pool, n) && pool'.Keys == pool.Keys
    requires forall x :: x in pool ==> pool'[x].thread == pool[x].thread
    ensures forall u :: Load(order, pool', u) == Load(order, pool, u)
  {
    forall u
      ensures Load(order, pool', u) == Load(order, pool, u)
    {
      LoadFrame(order, pool, pool', u);
    }
  }

  /** A step that leaves the order of the pool alone. */
  lemma {:induction false} OtherStepKeepsSpread(st: State, st': State)
    requires PoolOk(st.order, st.pool, |st.ctx|) && SpreadOk(st) && |st'.ctx| == |st.ctx| > 0
    requires st'.order == st.order && st'.peak == st.peak && st'.pool.Keys == st.pool.Keys
    requires forall x :: x in st.pool ==> st'.pool[x].thread == st.pool[x].thread
    requires st'.disp.Conn? && (st'.disp.conn.CLock? || st'.disp.conn.CInsert?) ==>
               st.disp.Conn? && ((st.disp.conn.CPick? && st'.disp.t == LeastPopulated(st.order, st.pool, |st.ctx|))
                                 || ((st.disp.conn.CLock? || st.disp.conn.CInsert?) && st'.disp.t == st.disp.t))
    requires NoneDropped(|st'.objects|, st'.pool, st'.disp) ==> NoneDropped(|st.objects|, st.pool, st.disp)
    ensures SpreadOk(st')
  {
    ReadyKeepsLoad(st.order, st.pool, st'.pool, |st.ctx|);
  }

  lemma {:induction false} DropKeepsSpread(st: State, st': State)
    requires PoolOk(st.order, st.pool, |st.ctx|) && SpreadOk(st) && |st.ctx| == |st.workers| > 0
    requires st.disp.Drop? && st.disp.drop.DDelete? && st.disp.s < |st.objects| && st' == DispatcherApply(st)
    ensures SpreadOk(st')
  {
    RemoveKeepsLoad(st.order, st.pool, st.peak, |st.ctx|, st.disp.s);
    assert st.disp.s !in st'.pool;
  }

  lemma {:induction false} InsertKeepsSpread(st: State, st': State)
    requires PoolOk(st.order, st.pool, |st.ctx|) && SpreadOk(st) && |st'.ctx| == |st.ctx|
    requires st.disp.Conn? && st.disp.conn.CInsert? && st.disp.s !in st.pool && st'.disp == st.disp.(conn := CUnlock)
    requires st'.order == st.order + [st.disp.s] && st'.pool == st.pool[st.disp.s := Entry(st.disp.t, false)]
    requires st'.peak == Max(st.peak, |st.order| + 1) && st'.objects == st.objects
    ensures SpreadOk(st')
  {
    AddKeepsLoad(st.order, st.pool, st.peak, |st.ctx|, st.disp.s, st.disp.t);
    assert forall r :: r in st'.pool ==> r in st.pool || Connecting(st.disp, r);
  }

  lemma {:induction false} DispatcherKeepsSpread(st: State, st': State)
    requires PoolOk(st.order, st.pool, |st.ctx|) && PoolMatchesHash(st.pool, st.hash, st.objects, st.disp)
    requires LocalsOk(st.disp, st.hash, st.objects, st.pool)
    requires SpreadOk(st) && Enabled(st, DispatcherStep) && st' == DispatcherApply(st)
    ensures SpreadOk(st')
  {
    if st.disp.Conn? && st.disp.conn.CInsert? {
      InsertKeepsSpread(st, st');
    } else if st.disp.Drop? && st.disp.drop.DDelete? {
      DropKeepsSpread(st, st');
    } else {
      OtherStepKeepsSpread(st, st');
    }
  }

  lemma {:induction false} StepKeepsSpread(st: State, l: Label, st': State)
    requires Inv(st) && SpreadOk(st) && Enabled(st, l) && st' == Apply(st, l)
    ensures SpreadOk(st')
  {
    if l.DispatcherStep? {
      DispatcherKeepsSpread(st, st');
    } else {
      OtherStepKeepsSpread(st, st');
    }
  }

  lemma {:induction false} RunKeepsSpread(states: seq<State>, labels: seq<Label>, k: nat)
    requires Run(states, labels) && Initial(states[0]) && k < |states|
    ensures SpreadOk(states[k])
  {
    if k > 0 {
      RunKeepsSpread(states, labels, k - 1);
      RunKeepsInv(states, labels, k - 1);
      StepKeepsSpread(states[k-1], labels[k-1], states[k]);
    }
  }

  /** In every run no thread ever owns more than ceil(P / n) sessions, P being the largest number of
      sessions the pool has held so far; and until a session is dropped, loads differ by at most one. */
  lemma {:induction false} LoadIsBounded(states: seq<State>, labels: seq<Label>, k: nat, t: nat)
    requires Run(states, labels) && Initial(states[0]) && k < |states| && t < |states[k].ctx|
    ensures var st := states[k]; Load(st.order, st.pool, t) <= Ceiling(st.peak, |st.ctx|)
    ensures var st := states[k];
            NoneDropped(|st.objects|, st.pool, st.disp) ==>
              forall u :: 0 <= u < |st.ctx| ==> Load(st.order, st.pool, t) <= Load(st.order, st.pool, u) + 1
  {
    RunKeepsSpread(states, labels, k);
  }

  /** The recorded peak is attained: it is the size of the pool in some earlier state of the run. */
  lemma {:induction false} PeakIsAttained(states: seq<State>, labels: seq<Label>, k: nat)
    requires Run(states, labels) && Initial(states[0]) && k < |states|
    ensures exists i :: 0 <= i <= k && |states[i].order| == states[k].peak
    ensures forall i :: 0 <= i <= k ==> |states[i].order| <= states[k].peak
  {
    if k > 0 {
      PeakIsAttained(states, labels, k - 1);
      assert Enabled(states[k-1], labels[k-1]) && states[k] == Apply(states[k-1], labels[k-1]);
      if states[k].peak == states[k-1].peak {
        var i :| 0 <= i <= k - 1 && |states[i].order| == states[k-1].peak;
        assert |states[i].order| == states[k].peak;
      } else {
        assert |states[k].order| == states[k].peak;
      }
    }
  }
}
