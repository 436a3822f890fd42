/** The pool cannot get stuck: while it runs a waiting job can always be pulled, and once it is being
    destroyed it can always be destroyed completely. */
module ThreadPoolProgress {
  import opened Common
  import opened ThreadPool
  import opened ThreadPoolInvariant

  /** A step that is neither a spurious wake-up nor a decision of an idle submitter. */
  ghost predicate Quiet(s: State, t: State) {
    || (s.main != Idle && MainStep(s, t, false))
    || exists i: nat :: WorkerStep(s, t, i) && !s.pcs[i].Sleeping?
  }

  ghost predicate QuietAt(run: seq<State>, k: nat)
    requires k < |run| - 1
  {
    Quiet(run[k], run[k + 1])
  }

  /** An execution in which nothing is submitted and no sleeper wakes without a signal. */
  ghost predicate QuietExecution(run: seq<State>) {
    && |run| > 0
    && (forall k :: 0 <= k < |run| - 1 ==> QuietAt(run, k))
  }

  lemma QuietIsExecution(run: seq<State>)
    requires QuietExecution(run)
    ensures Execution(run)
  {
    forall k | 0 <= k < |run| - 1
      ensures NextAt(run, k)
    {
      assert QuietAt(run, k);
    }
  }

  function Left(pc: PC): nat {
    match pc
    case PostLock(_) => 4
    case PostSet(_) => 3
    case PostUnlock(_) => 2
    case PullUnlock(_) => 1
    case _ => 0
  }

  function MainLeft(m: MainPC): nat {
    match m
    case PushBody(_) => 5
    case PushPostLock => 4
    case PushPostSet => 3
    case PushPostUnlock => 2
    case PushUnlock => 1
    case _ => 0
  }

  /** The steps the holder of `rwmutex` makes before it releases it, when it is not pulling. */
  function RwLeft(s: State): nat {
    match s.sh.rw
    case Nobody => 0
    case Main => MainLeft(s.main)
    case Worker(i) => if i < |s.pcs| then Left(s.pcs[i]) else 0
  }

  function Awakened(pcs: seq<PC>): (r: seq<PC>)
    ensures |r| == |pcs|
    ensures forall k :: 0 <= k < |pcs| ==> r[k] == if pcs[k] == Sleeping then Woken else pcs[k]
  {
    seq(|pcs|, k requires 0 <= k < |pcs| => if pcs[k] == Sleeping then Woken else pcs[k])
  }

  function Woke(pcs: seq<PC>, wake: Wake): (r: seq<PC>)
    ensures Wakes(pcs, r, wake)
  {
    if wake == NoOne then pcs
    else
      assert forall k :: 0 <= k < |pcs| && pcs[k] == Sleeping ==> Awakened(pcs)[k] == Woken;
      Awakened(pcs)
  }

  /** The state after worker `i` has moved. */
  function AfterWorker(s: State, i: nat): (t: State)
    requires i < |s.pcs| && WorkerMove(i, s.pcs[i], s.sh).Moves?
    ensures WorkerStep(s, t, i)
  {
    var o := WorkerMove(i, s.pcs[i], s.sh);
    State(Woke(s.pcs[i := o.pc], o.wake), s.main, o.sh)
  }

  function AfterMain(s: State): (t: State)
    requires MainMove(s.main, s.sh, false).Moves?
    ensures MainStep(s, t, false)
  {
    var o := MainMove(s.main, s.sh, false);
    State(Woke(s.pcs, o.wake), o.pc, o.sh)
  }

  /** A worker whose next step brings the pull nearer: the holder of the semaphore mutex, the holder
      of `rwmutex`, a committed worker, or any worker that is not asleep. */
  lemma Helper(s: State) returns (i: nat)
    requires Inv(s) && s.sh.keepalive && s.sh.queue != [] && |s.pcs| > 0
    requires s.sh.rw != Main || s.sh.sem.Worker?
    ensures i < |s.pcs| && !s.pcs[i].Sleeping? && WorkerMove(i, s.pcs[i], s.sh).Moves?
  {
    InvParts(s);
    if s.sh.sem.Worker? {
      i := s.sh.sem.i;
    } else if s.sh.rw.Worker? {
      i := s.sh.rw.i;
    } else if SomeCommitted(s.pcs) {
      i :| i < |s.pcs| && Committed(s.pcs[i]);
    } else if exists k :: 0 <= k < |s.pcs| && AboutToTest(s.pcs[k]) {
      i :| i < |s.pcs| && AboutToTest(s.pcs[i]);
    } else {
      i := 0;
      assert !s.pcs[0].Sleeping?;
    }
  }

  lemma WorkerComesNearer(i: nat, pc: PC, sh: Shared)
    requires sh.keepalive && !pc.Sleeping? && !pc.PullBody? && !pc.Exit? && !pc.Done?
    ensures var o := WorkerMove(i, pc, sh);
            o.Moves? ==>
              && o.sh.queue == sh.queue && o.sh.pulled == sh.pulled && o.sh.keepalive
              && (HoldsRw(pc) ==> (Left(o.pc) < Left(pc)))
              && (!HoldsRw(pc) ==> o.wake == NoOne && Left(o.pc) == 0 && StepsToPull(o.pc) < StepsToPull(pc))
  {
  }

  lemma WorkerProgress(s: State, t: State, i: nat)
    requires Inv(s) && s.sh.keepalive && WorkerStep(s, t, i)
    requires !s.pcs[i].Sleeping? && !s.pcs[i].PullBody?
    ensures t.sh.queue == s.sh.queue && t.sh.pulled == s.sh.pulled && t.sh.keepalive && |t.pcs| == |s.pcs|
    ensures RwLeft(t) < RwLeft(s) || (RwLeft(t) == RwLeft(s) && Sum(Distance, t.pcs) < Sum(Distance, s.pcs))
  {
    InvParts(s);
    var o := WorkerMove(i, s.pcs[i], s.sh);
    WorkerComesNearer(i, s.pcs[i], s.sh);
    WorkerRw(i, s.pcs[i], s.sh);
    assert s.pcs[i := o.pc][i] == o.pc == t.pcs[i];
    if !HoldsRw(s.pcs[i]) {
      SumWorkerStep(Distance, s, t, i);
      assert t.pcs == s.pcs[i := o.pc];
    }
  }

  lemma MainProgress(s: State, t: State)
    requires Inv(s) && s.sh.keepalive && s.sh.queue != [] && s.sh.rw == Main && MainStep(s, t, false)
    ensures t.sh.queue != [] && t.sh.queue[0] == s.sh.queue[0]
    ensures t.sh.pulled == s.sh.pulled && t.sh.keepalive && |t.pcs| == |s.pcs|
    ensures RwLeft(t) < RwLeft(s)
  {
    InvParts(s);
  }

  /** The front job has been pulled, or that has come nearer. */
  ghost predicate PullNearer(s: State, t: State)
    requires s.sh.queue != []
  {
    || t.sh.pulled == s.sh.pulled + [s.sh.queue[0]]
    || (&& t.sh.keepalive && |t.pcs| == |s.pcs| && t.sh.pulled == s.sh.pulled
        && t.sh.queue != [] && t.sh.queue[0] == s.sh.queue[0]
        && (RwLeft(t) < RwLeft(s) || (RwLeft(t) == RwLeft(s) && Sum(Distance, t.pcs) < Sum(Distance, s.pcs))))
  }

  lemma PullsFront(i: nat, pc: PC, sh: Shared)
    requires pc.PullBody? && sh.queue != [] && WorkerMove(i, pc, sh).Moves?
    ensures WorkerMove(i, pc, sh).sh.pulled == sh.pulled + [sh.queue[0]]
  {
  }

  lemma HelperStep(s: State, i: nat) returns (t: State)
    requires Inv(s) && s.sh.keepalive && s.sh.queue != []
    requires i < |s.pcs| && !s.pcs[i].Sleeping? && WorkerMove(i, s.pcs[i], s.sh).Moves?
    ensures Quiet(s, t) && PullNearer(s, t)
  {
    t := AfterWorker(s, i);
    if s.pcs[i].PullBody? {
      PullsFront(i, s.pcs[i], s.sh);
    } else {
      WorkerProgress(s, t, i);
    }
  }

  /** While a job waits, some thread can bring its pull nearer. */
  lemma PullStep(s: State) returns (t: State)
    requires Inv(s) && s.sh.keepalive && s.sh.queue != [] && |s.pcs| > 0
    ensures Quiet(s, t) && PullNearer(s, t) && Inv(t)
  {
    if s.sh.rw == Main && !s.sh.sem.Worker? {
      MainCanMove(s);
      t := AfterMain(s);
      MainProgress(s, t);
    } else {
      var i := Helper(s);
      t := HelperStep(s, i);
    }
    QuietIsNext(s, t);
    InvStep(s, t);
  }

  lemma MainCanMove(s: State)
    requires Inv(s) && s.sh.keepalive && s.sh.rw == Main && !s.sh.sem.Worker?
    ensures s.main != Idle && MainMove(s.main, s.sh, false).Moves?
  {
    InvParts(s);
  }

  /** In every state the pool can reach before it is destroyed, with a job waiting and at least one
      worker, some finite continuation in which nothing is submitted, and no worker relies on a spurious
      wake-up, pulls the job at the front. */
  lemma {:induction false} FrontJobCanBePulled(s: State) returns (run: seq<State>)
    requires Inv(s) && s.sh.keepalive && s.sh.queue != [] && |s.pcs| > 0
    ensures QuietExecution(run) && run[0] == s
    ensures run[|run| - 1].sh.pulled == s.sh.pulled + [s.sh.queue[0]]
    decreases RwLeft(s), Sum(Distance, s.pcs)
  {
    var t := PullStep(s);
    var rest := [t];
    if t.sh.pulled != s.sh.pulled + [s.sh.queue[0]] {
      rest := FrontJobCanBePulled(t);
    }
    run := [s] + rest;
    Prepend(s, rest);
  }

  lemma Prepend(s: State, rest: seq<State>)
    requires QuietExecution(rest) && Quiet(s, rest[0])
    ensures QuietExecution([s] + rest)
  {
    var run := [s] + rest;
    forall k | 0 <= k < |run| - 1
      ensures QuietAt(run, k)
    {
      if k > 0 {
        assert QuietAt(rest, k - 1);
      }
    }
  }

  // ----- Shutdown

  /** The steps of the submitter until the semaphore is set for all workers. */
  function KillLeft(m: MainPC): nat {
    match m
    case KillPostUnlock => 4
    case KillTest => 3
    case KillPostLock => 2
    case KillPostSet => 1
    case _ => 0
  }

  /** How far the pool is from letting a waiting worker take the semaphore. */
  function RouseLeft(s: State): nat {
    if s.sh.v == 1 then
      (match s.main case KillPostSet => 2 case KillPostUnlock => 1 case _ => 0) + Indicator(!s.sh.sem.Worker?)
    else 10 + 2 * KillLeft(s.main) + Indicator(s.sh.sem.Worker?)
  }

  /** How far the submitter is from noticing that all workers have left. */
  function NoticeLeft(m: MainPC): nat {
    match m
    case KillPostLock => 4
    case KillPostSet => 3
    case KillPostUnlock => 2
    case KillTest => 1
    case _ => 0
  }

  function ClearLeft(s: State): nat {
    2 * |s.sh.queue| + Indicator(s.main.ClearFree?) + Indicator(!s.main.Destroyed?)
  }

  function ExitSum(s: State): nat { Sum(ExitDistance, s.pcs) }

  /** What a schedule brings down within one phase and with the workers where they are. */
  function PhaseLeft(s: State): nat {
    if Clearing(s.main) then ClearLeft(s)
    else if ExitSum(s) == 0 then NoticeLeft(s.main)
    else RouseLeft(s)
  }

  /** The pool comes nearer to its end. */
  ghost predicate Nearer(s: State, t: State) {
    || (Killing(s.main) && Clearing(t.main))
    || (Killing(s.main) == Killing(t.main) && ExitSum(t) < ExitSum(s))
    || (Killing(s.main) == Killing(t.main) && ExitSum(t) == ExitSum(s) && PhaseLeft(t) < PhaseLeft(s))
  }

  /** Before the semaphore, a worker waits. */
  predicate Waits(pc: PC) { pc.WaitLock? || pc.WaitTest? || pc.Sleeping? || pc.Woken? }

  lemma WorkerLeaves(i: nat, pc: PC, sh: Shared)
    requires !sh.keepalive && !pc.Sleeping?
    ensures var o := WorkerMove(i, pc, sh);
            o.Moves? ==>
              && !o.sh.keepalive
              && StepsToExit(o.pc) <= StepsToExit(pc)
              && (!Waits(pc) || (pc.WaitTest? && sh.v == 1) ==> StepsToExit(o.pc) < StepsToExit(pc))
  {
  }

  /** A worker that is not waiting, or that finds the semaphore set, moves towards its end. */
  lemma LeaverNearer(s: State, t: State, i: nat)
    requires Inv(s) && Killing(s.main) && WorkerStep(s, t, i)
    requires !Waits(s.pcs[i]) || (s.pcs[i].WaitTest? && s.sh.v == 1)
    ensures Nearer(s, t)
  {
    InvParts(s);
    WorkerLeaves(i, s.pcs[i], s.sh);
    SumWorkerStep(ExitDistance, s, t, i);
  }

  /** A waiting worker locks the semaphore mutex while the semaphore is set, or gives it up. */
  lemma WaiterNearer(s: State, t: State, i: nat)
    requires Inv(s) && Killing(s.main) && WorkerStep(s, t, i) && !s.pcs[i].Sleeping?
    requires if s.sh.v == 1 then s.pcs[i].WaitLock? || s.pcs[i].Woken? else s.pcs[i].WaitTest?
    ensures Nearer(s, t)
  {
    InvParts(s);
    SumWorkerStep(ExitDistance, s, t, i);
    SumZero(ExitDistance, s.pcs);
    assert s.sh.v == 0 || s.sh.v == 1;
  }

  lemma SubmitterNearer(s: State, t: State)
    requires Inv(s) && Killing(s.main) && MainStep(s, t, false)
    requires ExitSum(s) == 0 || s.sh.v == 0 || s.main.KillPostSet? || s.main.KillPostUnlock?
    ensures Nearer(s, t)
  {
    InvParts(s);
    SumWakes(ExitDistance, s.pcs, t.pcs, MainMove(s.main, s.sh, false).wake);
    if ExitSum(s) == 0 {
      LastLeft(s);
      NoticeNearer(s.main, s.sh);
    } else {
      RouseNearer(s.main, s.sh);
      StillLeaving(s);
    }
  }

  /** When the distances are used up all workers have left, and otherwise not. */
  lemma LastLeft(s: State)
    requires Counters(s) && ExitSum(s) == 0
    ensures s.sh.alive == 0
  {
    SumZero(ExitDistance, s.pcs);
    SumZero(AliveCount, s.pcs);
    forall k | 0 <= k < |s.pcs|
      ensures Value(AliveCount, s.pcs[k]) == 0
    {
      assert Value(ExitDistance, s.pcs[k]) == 0;
    }
  }

  lemma StillLeaving(s: State)
    requires Counters(s) && ExitSum(s) > 0
    ensures s.sh.alive != 0
  {
    SumZero(ExitDistance, s.pcs);
    SumZero(AliveCount, s.pcs);
  }

  lemma NoticeNearer(m: MainPC, sh: Shared)
    requires Killing(m) && sh.alive == 0
    ensures var o := MainMove(m, sh, false);
            o.Moves? ==> Clearing(o.pc) || (Killing(o.pc) && NoticeLeft(o.pc) < NoticeLeft(m))
  {
  }

  lemma RouseNearer(m: MainPC, sh: Shared)
    requires Killing(m) && (MainHoldsSem(m) ==> sh.sem == Main)
    ensures var o := MainMove(m, sh, false);
            o.Moves? && sh.alive != 0 ==>
              && Killing(o.pc) && (o.sh.sem.Worker? <==> sh.sem.Worker?)
              && o.sh.v == (if m.KillPostSet? then 1 else sh.v)
              && (m.KillPostSet? <==> o.pc.KillPostUnlock?) && (m.KillPostUnlock? ==> o.pc.KillTest?)
              && (m.KillPostUnlock? || m.KillTest? || m.KillPostLock? ==> KillLeft(o.pc) < KillLeft(m))
  {
  }

  ghost predicate LeavesNow(s: State, i: nat)
    requires i < |s.pcs|
  {
    && (!Waits(s.pcs[i]) || (s.pcs[i].WaitTest? && s.sh.v == 1))
    && WorkerMove(i, s.pcs[i], s.sh).Moves?
  }

  ghost predicate RousedNow(s: State, i: nat)
    requires i < |s.pcs|
  {
    && (if s.sh.v == 1 then s.pcs[i].WaitLock? || s.pcs[i].Woken? else s.pcs[i].WaitTest?)
    && WorkerMove(i, s.pcs[i], s.sh).Moves?
  }

  /** The holder of the semaphore mutex, or else of `rwmutex`. */
  lemma HolderLeaves(s: State) returns (i: nat)
    requires Mutexes(s) && s.sh.sem != Main && (s.sh.sem.Worker? || s.sh.rw.Worker?)
    ensures i < |s.pcs| && (LeavesNow(s, i) || RousedNow(s, i))
  {
    i := if s.sh.sem.Worker? then s.sh.sem.i else s.sh.rw.i;
  }

  /** With the semaphore set and both mutexes free, one that is awake. */
  lemma AwakeLeaves(s: State) returns (i: nat)
    requires SleepersSignalled(s) && s.sh.sem == Nobody && s.sh.rw == Nobody && s.sh.v == 1 && ExitSum(s) > 0
    requires forall k: nat :: k < |s.pcs| ==> !LeavesNow(s, k)
    ensures i < |s.pcs| && RousedNow(s, i)
  {
    SumZero(ExitDistance, s.pcs);
    i :| i < |s.pcs| && Value(ExitDistance, s.pcs[i]) != 0;
    if s.pcs[i].Sleeping? {
      i :| i < |s.pcs| && AboutToTest(s.pcs[i]);
    }
    assert !LeavesNow(s, i);
  }

  /** A worker that brings the end nearer: the holder of a mutex, a worker that need not wait, or, when
      the semaphore is set, one that is awake. */
  lemma Leaver(s: State) returns (i: nat)
    requires Inv(s) && Killing(s.main) && s.sh.sem != Main && ExitSum(s) > 0
    requires s.sh.sem.Worker? || s.sh.rw.Worker? || s.sh.v == 1 || exists k: nat :: k < |s.pcs| && LeavesNow(s, k)
    ensures i < |s.pcs| && (LeavesNow(s, i) || RousedNow(s, i))
  {
    InvParts(s);
    if s.sh.sem.Worker? || s.sh.rw.Worker? {
      i := HolderLeaves(s);
    } else if exists k: nat :: k < |s.pcs| && LeavesNow(s, k) {
      i :| i < |s.pcs| && LeavesNow(s, i);
    } else {
      i := AwakeLeaves(s);
    }
  }

  /** While workers remain, one of them or the submitter can move the pool towards its end. */
  lemma ShutdownStep(s: State) returns (t: State)
    requires Inv(s) && Killing(s.main)
    ensures Quiet(s, t) && Nearer(s, t)
  {
    InvParts(s);
    if s.sh.sem != Main && ExitSum(s) > 0
       && (s.sh.sem.Worker? || s.sh.rw.Worker? || s.sh.v == 1 || exists k: nat :: k < |s.pcs| && LeavesNow(s, k)) {
      var i := Leaver(s);
      t := AfterWorker(s, i);
      if LeavesNow(s, i) {
        LeaverNearer(s, t, i);
      } else {
        WaiterNearer(s, t, i);
      }
    } else {
      SubmitterCanMove(s);
      t := AfterMain(s);
      SubmitterNearer(s, t);
    }
  }

  lemma SubmitterCanMove(s: State)
    requires Inv(s) && Killing(s.main) && (s.sh.sem.Worker? ==> ExitSum(s) == 0)
    ensures MainMove(s.main, s.sh, false).Moves?
  {
    InvParts(s);
    SumZero(ExitDistance, s.pcs);
  }

  lemma ClearingNearer(s: State, t: State)
    requires Inv(s) && Clearing(s.main) && MainStep(s, t, false)
    ensures Nearer(s, t) && Clearing(t.main)
  {
    InvParts(s);
    SumWakes(ExitDistance, s.pcs, t.pcs, MainMove(s.main, s.sh, false).wake);
  }

  lemma Ending(s: State)
    requires Inv(s) && !s.sh.keepalive
    ensures Killing(s.main) || Clearing(s.main)
  {
    InvParts(s);
  }

  /** A shutdown cannot hang: from every state the pool can reach once `thpool_destroy` has begun, some
      finite continuation, without spurious wake-ups, destroys it. */
  lemma {:induction false} ShutdownCompletes(s: State) returns (run: seq<State>)
    requires Inv(s) && !s.sh.keepalive
    ensures QuietExecution(run) && run[0] == s && run[|run| - 1].main == Destroyed
    decreases Killing(s.main), ExitSum(s), PhaseLeft(s)
  {
    Ending(s);
    if s.main == Destroyed {
      run := [s];
      return;
    }
    var t: State;
    if Clearing(s.main) {
      t := AfterMain(s);
      ClearingNearer(s, t);
    } else {
      t := ShutdownStep(s);
    }
    assert Quiet(s, t);
    QuietIsNext(s, t);
    InvStep(s, t);
    StaysDown(s, t);
    var rest := ShutdownCompletes(t);
    run := [s] + rest;
    Prepend(s, rest);
  }

  lemma QuietIsNext(s: State, t: State)
    requires Quiet(s, t)
    ensures Next(s, t)
  {
  }

  lemma WorkerKeepsFlag(i: nat, pc: PC, sh: Shared)
    ensures var o := WorkerMove(i, pc, sh); o.Moves? ==> o.sh.keepalive == sh.keepalive
  {
  }

  lemma StaysDown(s: State, t: State)
    requires !s.sh.keepalive && Quiet(s, t)
    ensures !t.sh.keepalive
  {
    if i: nat :| WorkerStep(s, t, i) {
      WorkerKeepsFlag(i, s.pcs[i], s.sh);
    }
  }

  /** The two results for the states of executions. */
  lemma NoDeadlock(run: seq<State>, k: nat) returns (rest: seq<State>)
    requires Execution(run) && Init(run[0]) && k < |run|
    requires run[k].sh.keepalive ==> run[k].sh.queue != [] && |run[k].pcs| > 0
    ensures QuietExecution(rest) && Execution(rest) && rest[0] == run[k]
    ensures run[k].sh.keepalive ==> rest[|rest| - 1].sh.pulled == run[k].sh.pulled + [run[k].sh.queue[0]]
    ensures !run[k].sh.keepalive ==> rest[|rest| - 1].main == Destroyed
  {
    ReachableInv(run, k);
    if run[k].sh.keepalive {
      rest := FrontJobCanBePulled(run[k]);
    } else {
      rest := ShutdownCompletes(run[k]);
    }
    QuietIsExecution(rest);
  }
}
