/**
 The restart rules of src/watchdog/watchdog.c. What the operating system answers is an input: the pid that
 starting a service returns, whether a process still runs and with which status it ended, and the clock.
 */
module Watchdog {
  const PID_NOT_RUNNING: int := -1
  const NON_RECOVERABLE_ERROR: int := 57
  const MAX_ATTEMPTS: int := 10
  const SEC_TO_RESET_ATTEMPTS: int := 10

  datatype Task = Task(programIdx: nat, pid: int, recentAttempts: int, lastAttempt: int)

  /** What the operating system answers about one service in one step. */
  datatype Answers = Answers(newPid: int, startTime: int, alive: bool, status: int, now: int)

  // ------------------------------------------------ one service, one step

  predicate WillStart(t: Task)
  {
    t.pid == PID_NOT_RUNNING && t.recentAttempts < MAX_ATTEMPTS
  }

  /** start_task_if_stopped starts the service and counts the attempt. */
  predicate Counts(t: Task, a: Answers)
  {
    WillStart(t) && a.newPid != 0
  }

  function Started(t: Task, a: Answers): Task
  {
    if t.pid != PID_NOT_RUNNING then t
    else if t.recentAttempts == MAX_ATTEMPTS then t.(recentAttempts := MAX_ATTEMPTS + 1)
    else if t.recentAttempts > MAX_ATTEMPTS then t
    else if a.newPid == 0 then t.(pid := 0)
    else t.(pid := a.newPid, lastAttempt := a.startTime, recentAttempts := t.recentAttempts + 1)
  }

  /** os_process_still_running has no process to ask about when the pid is PID_NOT_RUNNING. */
  predicate StillRunning(pid: int, a: Answers)
  {
    pid != PID_NOT_RUNNING && a.alive
  }

  function ExitStatus(pid: int, a: Answers): int
  {
    if pid == PID_NOT_RUNNING then 0 else a.status
  }

  function Marked(t: Task, a: Answers): Task
  {
    if StillRunning(t.pid, a) then t
    else if ExitStatus(t.pid, a) == NON_RECOVERABLE_ERROR then
      t.(pid := PID_NOT_RUNNING, recentAttempts := MAX_ATTEMPTS)
    else t.(pid := PID_NOT_RUNNING)
  }

  function Reset(t: Task, now: int): Task
  {
    if t.recentAttempts >= MAX_ATTEMPTS && now - t.lastAttempt > SEC_TO_RESET_ATTEMPTS then t.(recentAttempts := 0)
    else t
  }

  /** What one step means for one service. */
  function StepTask(t: Task, a: Answers): Task
  {
    Reset(Marked(Started(t, a), a), a.now)
  }

  // --------------------------------------------------------- the three loops

  class Supervisor {
    const tasks: array<Task>

    /** watchdog_init, at the given times. */
    constructor (times: seq<int>)
      ensures fresh(tasks) && tasks.Length == |times|
      ensures forall i :: 0 <= i < |times| ==> tasks[i] == Task(i, PID_NOT_RUNNING, 0, times[i])
    {
      tasks := new Task[|times|](i requires 0 <= i < |times| => Task(i, PID_NOT_RUNNING, 0, times[i]));
    }

    /** start_task_if_stopped. */
    method StartTaskIfStopped(i: nat, a: Answers)
      requires i < tasks.Length
      modifies tasks
      ensures tasks[..] == old(tasks[..])[i := Started(old(tasks[i]), a)]
    {
      if tasks[i].pid == PID_NOT_RUNNING {
        if tasks[i].recentAttempts == MAX_ATTEMPTS {
          tasks[i] := tasks[i].(recentAttempts := tasks[i].recentAttempts + 1);
        } else if tasks[i].recentAttempts < MAX_ATTEMPTS {
          tasks[i] := tasks[i].(pid := a.newPid);
          if tasks[i].pid == 0 {
            return;
          }
          tasks[i] := tasks[i].(lastAttempt := a.startTime);
          tasks[i] := tasks[i].(recentAttempts := tasks[i].recentAttempts + 1);
        }
      }
    }

    /** mark_task_as_terminated_if_dead. */
    method MarkTaskAsTerminatedIfDead(i: nat, a: Answers)
      requires i < tasks.Length
      modifies tasks
      ensures tasks[..] == old(tasks[..])[i := Marked(old(tasks[i]), a)]
    {
      var status := ExitStatus(tasks[i].pid, a);
      if !StillRunning(tasks[i].pid, a) {
        tasks[i] := tasks[i].(pid := PID_NOT_RUNNING);
        if status == NON_RECOVERABLE_ERROR {
          tasks[i] := tasks[i].(recentAttempts := MAX_ATTEMPTS);
        }
      }
    }

    /** watchdog_step: its three loops do to each service what a step of its own would do, whatever happens to the
        others. */
    method Step(answers: seq<Answers>, now: int)
      requires |answers| == tasks.Length && forall i :: 0 <= i < |answers| ==> answers[i].now == now
      modifies tasks
      ensures forall i :: 0 <= i < tasks.Length ==> tasks[i] == StepTask(old(tasks[i]), answers[i])
    {
      ghost var was := tasks[..];
      for i := 0 to tasks.Length
        invariant forall j :: 0 <= j < tasks.Length ==>
                    tasks[..][j] == if j < i then Started(was[j], answers[j]) else was[j]
      {
        StartTaskIfStopped(i, answers[i]);
      }
      for i := 0 to tasks.Length
        invariant forall j :: 0 <= j < tasks.Length ==>
                    tasks[..][j] == var t := Started(was[j], answers[j]); if j < i then Marked(t, answers[j]) else t
      {
        MarkTaskAsTerminatedIfDead(i, answers[i]);
      }
      for i := 0 to tasks.Length
        invariant forall j :: 0 <= j < tasks.Length ==>
                    tasks[j] == var t := Marked(Started(was[j], answers[j]), answers[j]);
                                if j < i then Reset(t, now) else t
      {
        if tasks[i].recentAttempts >= MAX_ATTEMPTS && now - tasks[i].lastAttempt > SEC_TO_RESET_ATTEMPTS {
          tasks[i] := tasks[i].(recentAttempts := 0);
        }
      }
    }
  }

  // --------------------------------------------------------- whole runs

  /** The service after a run of steps. */
  function After(t: Task, run: seq<Answers>): Task
  {
    if run == [] then t else StepTask(After(t, run[..|run|-1]), run[|run|-1])
  }

  /** Step k of the run starts the service. */
  predicate StartsAt(t: Task, run: seq<Answers>, k: int)
  {
    0 <= k < |run| && WillStart(After(t, run[..k]))
  }

  /** Step k starts it, and the attempt is counted. */
  predicate CountedAt(t: Task, run: seq<Answers>, k: int)
  {
    0 <= k < |run| && Counts(After(t, run[..k]), run[k])
  }

  predicate Fresh(t: Task)
  {
    t.pid == PID_NOT_RUNNING && t.recentAttempts == 0
  }

  predicate Bounded(t: Task)
  {
    0 <= t.recentAttempts <= 11 && (t.recentAttempts == 11 ==> t.pid == PID_NOT_RUNNING)
  }

  /** Attempts stay within 0..11, and a service with 11 attempts does not run. */
  lemma {:induction false} AttemptsAreBounded(t: Task, run: seq<Answers>)
    requires Bounded(t)
    ensures Bounded(After(t, run)) && After(t, run).programIdx == t.programIdx
  {
    if run != [] {
      AttemptsAreBounded(t, run[..|run|-1]);
    }
  }

  lemma {:induction false} AfterLast(t: Task, run: seq<Answers>, hi: nat)
    requires 0 < hi <= |run|
    ensures After(t, run[..hi]) == StepTask(After(t, run[..hi-1]), run[hi-1])
  {
    assert run[..hi][..hi-1] == run[..hi-1];
  }

  // ------------------------------------------ one process at a time

  /** The process that was started has been found dead in one of the steps lo, ..., hi - 1. */
  ghost predicate FoundDead(run: seq<Answers>, lo: int, hi: int)
  {
    exists k :: 0 <= lo <= k < hi <= |run| && !run[k].alive
  }

  lemma {:induction false} RunsUntilFoundDead(t: Task, run: seq<Answers>, lo: nat, hi: nat)
    requires lo < hi <= |run| && StartsAt(t, run, lo) && run[lo].newPid != PID_NOT_RUNNING && !FoundDead(run, lo, hi)
    ensures After(t, run[..hi]).pid == run[lo].newPid
    decreases hi - lo
  {
    assert run[hi-1].alive;
    assert run[..hi][..hi-1] == run[..hi-1];
    if lo < hi - 1 {
      RunsUntilFoundDead(t, run, lo, hi - 1);
    }
  }

  /** Between two starts of a service the process of the first has been found dead, unless there was none. */
  lemma {:induction false} OneProcessAtATime(t: Task, run: seq<Answers>, k: nat, l: nat)
    requires k < l && StartsAt(t, run, k) && StartsAt(t, run, l)
    ensures run[k].newPid == PID_NOT_RUNNING || FoundDead(run, k, l)
  {
    if run[k].newPid != PID_NOT_RUNNING && !FoundDead(run, k, l) {
      RunsUntilFoundDead(t, run, k, l);
    }
  }

  // ------------------------------------------- what happens to a service

  /** The service runs in step l, and is found dead at its end. */
  predicate DiesIn(t: Task, run: seq<Answers>, l: int)
  {
    0 <= l < |run| && Started(After(t, run[..l]), run[l]).pid != PID_NOT_RUNNING && !run[l].alive
  }

  /** A service that dies is started again by the very next step, unless it was started for the tenth time or ended with
      status 57; and even then if it was last started more than 10 seconds before. */
  lemma {:induction false} DeathIsFollowedByStart(t: Task, run: seq<Answers>, l: nat)
    requires Bounded(t) && l + 1 < |run| && DiesIn(t, run, l)
    ensures var u := Started(After(t, run[..l]), run[l]);
            StartsAt(t, run, l + 1) <==>
              (run[l].status != 57 && u.recentAttempts < 10) || run[l].now - u.lastAttempt > 10
  {
    AfterLast(t, run, l + 1);
    AttemptsAreBounded(t, run[..l]);
  }

  /** While its process lives the service is left alone, but that attempts 10 become 0 in time. */
  lemma {:induction false} LivesOn(t: Task, run: seq<Answers>, k: nat, l: nat)
    requires Bounded(t) && k <= l < |run| && StartsAt(t, run, k) && run[k].newPid != 0
    requires run[k].newPid != PID_NOT_RUNNING && After(t, run[..k]).recentAttempts < 9
    requires forall m :: k <= m < l ==> run[m].alive
    ensures var u := Started(After(t, run[..l]), run[l]);
            u == After(t, run[..k]).(pid := run[k].newPid, lastAttempt := run[k].startTime,
                                     recentAttempts := After(t, run[..k]).recentAttempts + 1)
    decreases l
  {
    AttemptsAreBounded(t, run[..k]);
    if k < l {
      LivesOn(t, run, k, l - 1);
      AfterLast(t, run, l);
    }
  }

  /** A service that was started with fewer than nine attempts, lived until some later step and then died of anything
      but the non-recoverable error is started again by the step after that. */
  lemma {:induction false} DeadServicesAreRestarted(t: Task, run: seq<Answers>, k: nat, l: nat)
    requires Bounded(t) && k <= l && l + 1 < |run| && StartsAt(t, run, k) && run[k].newPid != 0
    requires run[k].newPid != PID_NOT_RUNNING && After(t, run[..k]).recentAttempts < 9
    requires (forall m :: k <= m < l ==> run[m].alive) && !run[l].alive && run[l].status != 57
    ensures StartsAt(t, run, l + 1)
  {
    LivesOn(t, run, k, l);
    DeathIsFollowedByStart(t, run, l);
  }

  // --------------------------------------------------- the rate limit

  /** The clock never runs backwards. */
  ghost predicate Monotone(run: seq<Answers>)
  {
    && (forall k :: 0 <= k < |run| ==> run[k].startTime <= run[k].now)
    && (forall k, l :: 0 <= k < l < |run| ==> run[k].now <= run[l].startTime)
  }

  /** How many of the steps lo, ..., hi - 1 start the service and count it. */
  function CountedStarts(t: Task, run: seq<Answers>, lo: nat, hi: nat): (n: nat)
    requires lo <= hi <= |run|
    ensures n <= hi - lo
    decreases hi - lo
  {
    if lo == hi then 0 else CountedStarts(t, run, lo, hi - 1) + if CountedAt(t, run, hi - 1) then 1 else 0
  }

  /** A step that ends at most 10 seconds after since does not lose any of n attempts counted since then. */
  lemma {:induction false} StepCounts(t: Task, a: Answers, since: int, n: nat)
    requires Bounded(t) && n <= MAX_ATTEMPTS && n <= t.recentAttempts
    requires since <= a.startTime && a.now - since <= SEC_TO_RESET_ATTEMPTS
    requires since <= t.lastAttempt || Counts(t, a)
    ensures var u, m := StepTask(t, a), n + if Counts(t, a) then 1 else 0;
            m <= u.recentAttempts && m <= MAX_ATTEMPTS && since <= u.lastAttempt
  {
  }

  /** As long as no reset is due since step k, each counted start adds to the attempts. */
  lemma {:induction false} AttemptsGrow(t: Task, run: seq<Answers>, k: nat, hi: nat)
    requires Bounded(t) && Monotone(run) && k < hi <= |run| && CountedAt(t, run, k)
    requires run[hi-1].now - run[k].startTime <= SEC_TO_RESET_ATTEMPTS
    ensures CountedStarts(t, run, k, hi) <= After(t, run[..hi]).recentAttempts
    ensures CountedStarts(t, run, k, hi) <= MAX_ATTEMPTS && run[k].startTime <= After(t, run[..hi]).lastAttempt
    decreases hi - k
  {
    hide StepTask, After, Bounded;
    AfterLast(t, run, hi);
    AttemptsAreBounded(t, run[..hi-1]);
    BoundedAttempts(After(t, run[..hi-1]));
    if k < hi - 1 {
      assert run[hi-2].now <= run[hi-1].startTime <= run[hi-1].now;
      assert run[k].now <= run[hi-1].startTime;
      AttemptsGrow(t, run, k, hi - 1);
    }
    StepCounts(After(t, run[..hi-1]), run[hi-1], run[k].startTime, CountedStarts(t, run, k, hi - 1));
  }

  lemma {:induction false} BoundedAttempts(t: Task)
    requires Bounded(t)
    ensures 0 <= t.recentAttempts
  {
  }

  /** Any 11 counted starts of a service span more than 10 seconds. */
  lemma {:induction false} RateLimit(t: Task, run: seq<Answers>, k: nat, l: nat)
    requires Bounded(t) && Monotone(run) && k <= l && CountedAt(t, run, k) && CountedAt(t, run, l)
    requires CountedStarts(t, run, k, l + 1) > 10
    ensures run[l].startTime - run[k].startTime > 10
  {
    assert k < l && run[l-1].now <= run[l].startTime;
    if run[l-1].now - run[k].startTime <= SEC_TO_RESET_ATTEMPTS {
      AttemptsGrow(t, run, k, l);
    }
  }

  // ---------------------------------------- starts that are not counted

  function Starts(t: Task, run: seq<Answers>, lo: nat, hi: nat): nat
    requires lo <= hi <= |run|
    decreases hi - lo
  {
    if lo == hi then 0 else Starts(t, run, lo, hi - 1) + if StartsAt(t, run, hi - 1) then 1 else 0
  }

  ghost predicate RateLimited(t: Task, run: seq<Answers>)
  {
    forall k: nat, l: nat {:trigger Starts(t, run, k, l + 1)} ::
      k <= l && StartsAt(t, run, k) && StartsAt(t, run, l) && Starts(t, run, k, l + 1) > 10 ==>
        run[l].startTime - run[k].startTime > 10
  }

  /** Whenever the run starts the service, starting it does not return 0. */
  ghost predicate NoStartReturnsZero(t: Task, run: seq<Answers>)
  {
    forall k :: 0 <= k < |run| && StartsAt(t, run, k) ==> run[k].newPid != 0
  }

  lemma {:induction false} EveryStartCounts(t: Task, run: seq<Answers>, lo: nat, hi: nat)
    requires lo <= hi <= |run| && NoStartReturnsZero(t, run)
    ensures Starts(t, run, lo, hi) == CountedStarts(t, run, lo, hi)
    decreases hi - lo
  {
    if lo < hi {
      EveryStartCounts(t, run, lo, hi - 1);
    }
  }

  /** Any 11 starts of a service span more than 10 seconds in a run in which no start returns 0. */
  lemma {:induction false} StartsAreLimited(t: Task, run: seq<Answers>)
    requires Bounded(t) && Monotone(run) && NoStartReturnsZero(t, run)
    ensures RateLimited(t, run)
  {
    forall k: nat, l: nat | k <= l && StartsAt(t, run, k) && StartsAt(t, run, l)
                            && Starts(t, run, k, l + 1) > 10
      ensures run[l].startTime - run[k].startTime > 10
    {
      EveryStartCounts(t, run, k, l + 1);
      RateLimit(t, run, k, l);
    }
  }

  /** n steps in the same second, in each of which starting the service returns 0 and nothing runs afterwards. */
  function Futile(n: nat): seq<Answers>
  {
    seq(n, _ => Answers(0, 0, false, 0, 0))
  }

  lemma {:induction false} FutileStarts(t: Task, n: nat, k: nat)
    requires Fresh(t) && k <= n
    ensures After(t, Futile(n)[..k]) == t && Starts(t, Futile(n), 0, k) == k
  {
    if k > 0 {
      assert Futile(n)[..k][..k-1] == Futile(n)[..k-1];
      FutileStarts(t, n, k - 1);
    }
  }

  lemma {:induction false} FutileStartsAreNotLimited(t: Task)
    requires Fresh(t)
    ensures Monotone(Futile(11)) && !RateLimited(t, Futile(11))
  {
    var run := Futile(11);
    FutileStarts(t, 11, 0);
    FutileStarts(t, 11, 10);
    FutileStarts(t, 11, 11);
    assert StartsAt(t, run, 0) && StartsAt(t, run, 10) && Starts(t, run, 0, 10 + 1) > 10;
  }

  /** Starting the service returns one of the given pids. */
  ghost predicate StartsReturn(run: seq<Answers>, pids: iset<int>)
  {
    forall k :: 0 <= k < |run| ==> run[k].newPid in pids
  }

  /** Whatever pids starting the service may return, the starts are limited in every run exactly when 0 is not one
      of them. */
  lemma {:induction false} LimitedUnlessStartReturnsZero(t: Task, pids: iset<int>)
    requires Fresh(t)
    ensures (forall run: seq<Answers> :: Monotone(run) && StartsReturn(run, pids) ==> RateLimited(t, run))
            <==> 0 !in pids
  {
    hide RateLimited, Monotone;
    if 0 !in pids {
      forall run: seq<Answers> | Monotone(run) && StartsReturn(run, pids)
        ensures RateLimited(t, run)
      {
        StartsAreLimited(t, run);
      }
    } else {
      assert StartsReturn(Futile(11), pids);
      FutileStartsAreNotLimited(t);
    }
  }

  // ------------------------------------------------------- giving up

  predicate GaveUp(t: Task)
  {
    t.pid == PID_NOT_RUNNING && t.recentAttempts >= MAX_ATTEMPTS
  }

  /** The service ends with the non-recoverable status in a step that begins with t. */
  predicate EndsNonRecoverably(t: Task, a: Answers)
  {
    var u := Started(t, a);
    !StillRunning(u.pid, a) && ExitStatus(u.pid, a) == NON_RECOVERABLE_ERROR
  }

  /** A service that ended with the non-recoverable status is given up, but for the reset of the same step. */
  lemma {:induction false} NonRecoverableGivesUp(t: Task, a: Answers)
    requires EndsNonRecoverably(t, a)
    ensures GaveUp(StepTask(t, a)) <==> a.now - StepTask(t, a).lastAttempt <= SEC_TO_RESET_ATTEMPTS
  {
  }

  lemma {:induction false} StaysGivenUp(t: Task, run: seq<Answers>)
    requires GaveUp(t) && forall k :: 0 <= k < |run| ==> run[k].now - t.lastAttempt <= SEC_TO_RESET_ATTEMPTS
    ensures GaveUp(After(t, run)) && After(t, run) == t.(recentAttempts := After(t, run).recentAttempts)
  {
    if run != [] {
      StaysGivenUp(t, run[..|run|-1]);
    }
  }

  /** The attempt that is refused is counted once, whatever state of giving up the service was in. */
  lemma {:induction false} GivenUpHasElevenAttempts(t: Task, run: seq<Answers>)
    requires GaveUp(t) && Bounded(t) && run != []
    requires forall k :: 0 <= k < |run| ==> run[k].now - t.lastAttempt <= SEC_TO_RESET_ATTEMPTS
    ensures After(t, run).recentAttempts == 11 && After(t, run).pid == PID_NOT_RUNNING
  {
    var init := run[..|run|-1];
    StaysGivenUp(t, init);
    AttemptsAreBounded(t, init);
  }

  /** How long giving up lasts, whether the service died too often or of a non-recoverable error: the service is not
      started again as long as no step but possibly the last one ends more than 10 seconds after the last attempt,
      and it is started again otherwise. */
  lemma {:induction false} GivesUpForTenSeconds(t: Task, run: seq<Answers>)
    requires GaveUp(t)
    ensures (forall k :: 0 <= k < |run| ==> !StartsAt(t, run, k))
            <==> (forall k :: 0 <= k < |run| - 1 ==> run[k].now - t.lastAttempt <= SEC_TO_RESET_ATTEMPTS)
  {
    if forall k :: 0 <= k < |run| - 1 ==> run[k].now - t.lastAttempt <= SEC_TO_RESET_ATTEMPTS {
      forall k | 0 <= k < |run|
        ensures !StartsAt(t, run, k)
      {
        StaysGivenUp(t, run[..k]);
      }
    } else {
      var k := FirstLate(t, run);
      StaysGivenUp(t, run[..k]);
      assert run[..k+1][..k] == run[..k];
      assert StartsAt(t, run, k + 1);
    }
  }

  /** The first late step gives a service that was given up all its attempts back. */
  lemma {:induction false} LateStepStartsAfresh(t: Task, run: seq<Answers>)
    requires GaveUp(t) && run != [] && run[|run|-1].now - t.lastAttempt > 10
    requires forall k :: 0 <= k < |run| - 1 ==> run[k].now - t.lastAttempt <= 10
    ensures After(t, run) == t.(recentAttempts := 0)
  {
    StaysGivenUp(t, run[..|run|-1]);
  }

  lemma {:induction false} FirstLate(t: Task, run: seq<Answers>) returns (k: nat)
    requires exists k :: 0 <= k < |run| - 1 && run[k].now - t.lastAttempt > SEC_TO_RESET_ATTEMPTS
    ensures k < |run| - 1 && run[k].now - t.lastAttempt > SEC_TO_RESET_ATTEMPTS
    ensures forall j :: 0 <= j < k ==> run[j].now - t.lastAttempt <= SEC_TO_RESET_ATTEMPTS
  {
    k := 0;
    while run[k].now - t.lastAttempt <= SEC_TO_RESET_ATTEMPTS
      invariant k < |run| - 1 && forall j :: 0 <= j < k ==> run[j].now - t.lastAttempt <= SEC_TO_RESET_ATTEMPTS
      decreases |run| - k
    {
      k := k + 1;
    }
  }

  // -------------------------------------------------- non-recoverable errors

  lemma {:induction false} AfterFirst(t: Task, run: seq<Answers>)
    requires run != []
    ensures After(t, run) == After(StepTask(t, run[0]), run[1..])
  {
    if |run| > 1 {
      AfterFirst(t, run[..|run|-1]);
      assert run[..|run|-1][1..] == run[1..][..|run|-2];
    }
  }

  lemma {:induction false} StartsAfterFirst(t: Task, run: seq<Answers>, k: nat)
    requires 0 < k < |run|
    ensures StartsAt(t, run, k) <==> StartsAt(StepTask(t, run[0]), run[1..], k - 1)
  {
    AfterFirst(t, run[..k]);
    assert run[..k][1..] == run[1..][..k-1];
  }

  /** How long a service stays down that ends with the non-recoverable status in the first step of a run: it is not
      started again as long as no step but possibly the last one ends more than 10 seconds after its last start, and
      it is started again otherwise. */
  lemma {:induction false} NonRecoverableStaysDown(t: Task, run: seq<Answers>)
    requires run != [] && EndsNonRecoverably(t, run[0])
    ensures var last := StepTask(t, run[0]).lastAttempt;
            (forall k :: 1 <= k < |run| ==> !StartsAt(t, run, k))
            <==> (forall k :: 0 <= k < |run| - 1 ==> run[k].now - last <= SEC_TO_RESET_ATTEMPTS)
  {
    var u, rest := StepTask(t, run[0]), run[1..];
    forall k | 1 <= k < |run|
      ensures StartsAt(t, run, k) <==> StartsAt(u, rest, k - 1)
    {
      StartsAfterFirst(t, run, k);
    }
    NonRecoverableGivesUp(t, run[0]);
    if run[0].now - u.lastAttempt <= SEC_TO_RESET_ATTEMPTS {
      GivesUpForTenSeconds(u, rest);
      assert forall k :: 0 <= k < |rest| ==> rest[k] == run[k+1];
      assert forall k :: 0 <= k < |rest| ==> (StartsAt(t, run, k + 1) <==> StartsAt(u, rest, k));
    } else if |run| > 1 {
      assert StartsAt(u, rest, 0) && StartsAt(t, run, 1);
    }
  }

  /** And so it happens: started in step 0 at time 0, ended with the non-recoverable status, left alone in step 1,
      and started again in step 2. */
  lemma {:induction false} NonRecoverableIsRestarted(t: Task, a: Answers, b: Answers, c: Answers)
    requires Fresh(t)
    requires a == Answers(7, 0, false, NON_RECOVERABLE_ERROR, 0) && b == Answers(8, 11, false, 0, 11)
    requires c == Answers(8, 11, true, 0, 11)
    ensures Monotone([a, b, c]) && StartsAt(t, [a, b, c], 0) && EndsNonRecoverably(t, a)
    ensures !StartsAt(t, [a, b, c], 1) && StartsAt(t, [a, b, c], 2)
  {
    var run := [a, b, c];
    assert run[..0] == [] && run[..1] == [a] && run[..2] == [a, b];
    assert [a][..0] == [] && [a, b][..1] == [a];
    assert After(t, [a]) == StepTask(t, a);
    assert After(t, [a, b]) == StepTask(StepTask(t, a), b);
  }

  // ------------------------------------------------------ the reported state

  datatype Status = Running | Stopped | GivenUp

  /** watchdog_program_state. */
  function ProgramStatus(t: Task): Status
  {
    if t.recentAttempts >= MAX_ATTEMPTS then GivenUp
    else if t.pid == PID_NOT_RUNNING then Stopped
    else Running
  }

  /** Stopped is reported exactly when the next step gives the service a new pid; and whether it runs is reported
      rightly except while its tenth attempt runs. */
  lemma {:induction false} ReportedState(t: Task, run: seq<Answers>, a: Answers)
    requires Bounded(t) && a.newPid != PID_NOT_RUNNING
    ensures var u := After(t, run);
            && (ProgramStatus(u) == Stopped <==> Started(u, a).pid != u.pid)
            && ((ProgramStatus(u) == Running <==> u.pid != PID_NOT_RUNNING)
                <==> !(u.recentAttempts == MAX_ATTEMPTS && u.pid != PID_NOT_RUNNING))
  {
    AttemptsAreBounded(t, run);
  }

  /** n steps in the same second, each of which starts the service and finds it dead. */
  function Crashes(n: nat): seq<Answers>
  {
    seq(n, _ => Answers(7, 0, false, 1, 0))
  }

  lemma {:induction false} CrashesCount(t: Task, n: nat)
    requires Fresh(t) && n < MAX_ATTEMPTS
    ensures After(t, Crashes(n)).pid == PID_NOT_RUNNING && After(t, Crashes(n)).recentAttempts == n
  {
    if n > 0 {
      assert Crashes(n)[..n-1] == Crashes(n - 1);
      CrashesCount(t, n - 1);
    }
  }

  /** And so it happens: nine starts whose processes die, a tenth whose process lives, and the service is reported
      as given up. */
  lemma {:induction false} TenthAttemptIsReportedGivenUp(t: Task)
    requires Fresh(t)
    ensures var run := Crashes(9) + [Answers(7, 0, true, 0, 0)];
            Monotone(run) && After(t, run).pid == 7 && ProgramStatus(After(t, run)) == GivenUp
  {
    var run := Crashes(9) + [Answers(7, 0, true, 0, 0)];
    CrashesCount(t, 9);
    assert run[..9] == Crashes(9);
  }
}
