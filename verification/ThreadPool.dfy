/** The thread pool of import/thpool.c as an interleaving of atomic steps: any number of workers
    running `thread_do` and one thread that submits jobs and finally destroys the pool.

    Between two steps of a thread every other thread may move.  A step is one mutex operation, one
    access to a flag or a counter, or a region that runs under the `rwmutex`; the queue is the
    sequence that `JobQueue.Queue` represents.  Jobs are named by their order of submission. */
module ThreadPool {
  import opened Common

  datatype Owner = Nobody | Worker(i: nat) | Main

  /** Where a worker is in `thread_do` and the calls it makes. */
  datatype PC =
    | Top                       // test of threads_keepalive in the loop head
    | WaitLock                  // bsem_wait: about to lock the semaphore
    | WaitTest                  // holds the semaphore mutex, about to test v
    | Sleeping                  // blocked in pthread_cond_wait
    | Woken                     // has left the condition variable, about to lock again
    | WaitUnlock                // has set v to 0, still holds the semaphore mutex
    | Recheck                   // second test of threads_keepalive
    | Enter                     // num_threads_working ++
    | PullLock                  // jobqueue_pull: about to lock rwmutex
    | PullBody                  // holds rwmutex
    | PostLock(job: nat)        // holds rwmutex, jobs remain, owes a post
    | PostSet(job: nat)         // holds both mutexes
    | PostUnlock(job: nat)      // holds both mutexes, has posted
    | PullUnlock(pulled: Option<nat>)
    | Running(job: nat)
    | FreeJob(job: nat)
    | Leave                     // num_threads_working --
    | Exit                      // num_threads_alive --
    | Done

  /** Where the submitting thread is. */
  datatype MainPC =
    | Idle
    | PushLock(job: nat)
    | PushBody(job: nat)
    | PushPostLock
    | PushPostSet
    | PushPostUnlock
    | PushUnlock
    | KillTest                  // thpool_destroy: test of num_threads_alive
    | KillPostLock
    | KillPostSet
    | KillPostUnlock
    | ClearTest                 // jobqueue_clear: test of len
    | ClearFree(job: nat)
    | Destroyed

  /** The fields of the pool, with the history of the jobs. */
  datatype Shared = Shared(
    queue: seq<nat>,
    v: int,
    rw: Owner,
    sem: Owner,
    keepalive: bool,
    alive: int,
    working: int,
    pushed: seq<nat>,
    pulled: seq<nat>,
    ran: seq<nat>,
    freed: seq<nat>,
    cleared: seq<nat>)

  datatype State = State(pcs: seq<PC>, main: MainPC, sh: Shared)

  ghost predicate Init(s: State) {
    && (forall i :: 0 <= i < |s.pcs| ==> s.pcs[i] == Top)
    && s.main == Idle
    && s.sh == Shared([], 0, Nobody, Nobody, true, |s.pcs|, 0, [], [], [], [], [])
  }

  /** Whom a step wakes on the condition variable. */
  datatype Wake = NoOne | Signal | Broadcast

  /** `pthread_cond_signal` wakes at least one sleeper if there is any, `pthread_cond_broadcast` all
      of them; no other thread moves. */
  ghost predicate Wakes(before: seq<PC>, after: seq<PC>, wake: Wake) {
    && |after| == |before|
    && (forall k :: 0 <= k < |before| ==> after[k] == before[k] || (before[k] == Sleeping && after[k] == Woken))
    && match wake
       case NoOne => after == before
       case Signal =>
         (exists k :: 0 <= k < |before| && before[k] == Sleeping) ==> exists k :: 0 <= k < |after| && after[k] == Woken
       case Broadcast => forall k :: 0 <= k < |after| ==> after[k] != Sleeping
  }

  /** What a thread's next step does: it may be blocked on a mutex. */
  datatype Outcome<L> = Blocked | Moves(pc: L, sh: Shared, wake: Wake)

  /** The next step of worker `i` at `pc`.  A sleeper may also wake up spuriously. */
  function WorkerMove(i: nat, pc: PC, sh: Shared): Outcome<PC> {
    match pc
    case Top => Moves(if sh.keepalive then WaitLock else Exit, sh, NoOne)
    case WaitLock => if sh.sem == Nobody then Moves(WaitTest, sh.(sem := Worker(i)), NoOne) else Blocked
    case WaitTest =>
      if sh.v != 1 then Moves(Sleeping, sh.(sem := Nobody), NoOne)
      else Moves(WaitUnlock, sh.(v := 0), NoOne)
    case Sleeping => Moves(Woken, sh, NoOne)
    case Woken => if sh.sem == Nobody then Moves(WaitTest, sh.(sem := Worker(i)), NoOne) else Blocked
    case WaitUnlock => Moves(Recheck, sh.(sem := Nobody), NoOne)
    case Recheck => Moves(if sh.keepalive then Enter else Top, sh, NoOne)
    case Enter => Moves(PullLock, sh.(working := sh.working + 1), NoOne)
    case PullLock => if sh.rw == Nobody then Moves(PullBody, sh.(rw := Worker(i)), NoOne) else Blocked
    case PullBody =>
      if sh.queue == [] then Moves(PullUnlock(None), sh, NoOne)
      else
        var j := sh.queue[0];
        Moves(if |sh.queue| == 1 then PullUnlock(Some(j)) else PostLock(j),
              sh.(queue := sh.queue[1..], pulled := sh.pulled + [j]), NoOne)
    case PostLock(j) => if sh.sem == Nobody then Moves(PostSet(j), sh.(sem := Worker(i)), NoOne) else Blocked
    case PostSet(j) => Moves(PostUnlock(j), sh.(v := 1), Signal)
    case PostUnlock(j) => Moves(PullUnlock(Some(j)), sh.(sem := Nobody), NoOne)
    case PullUnlock(o) => Moves(if o.Some? then Running(o.value) else Leave, sh.(rw := Nobody), NoOne)
    case Running(j) => Moves(FreeJob(j), sh.(ran := sh.ran + [j]), NoOne)
    case FreeJob(j) => Moves(Leave, sh.(freed := sh.freed + [j]), NoOne)
    case Leave => Moves(Top, sh.(working := sh.working - 1), NoOne)
    case Exit => Moves(Done, sh.(alive := sh.alive - 1), NoOne)
    case Done => Blocked
  }

  /** The next step of the submitting thread; `destroy` is its choice when it is idle.  Clearing the
      queue pulls without interference, since every worker has left by then. */
  function MainMove(m: MainPC, sh: Shared, destroy: bool): Outcome<MainPC> {
    match m
    case Idle =>
      if destroy then Moves(KillTest, sh.(keepalive := false), NoOne) else Moves(PushLock(|sh.pushed|), sh, NoOne)
    case PushLock(j) => if sh.rw == Nobody then Moves(PushBody(j), sh.(rw := Main), NoOne) else Blocked
    case PushBody(j) => Moves(PushPostLock, sh.(queue := sh.queue + [j], pushed := sh.pushed + [j]), NoOne)
    case PushPostLock => if sh.sem == Nobody then Moves(PushPostSet, sh.(sem := Main), NoOne) else Blocked
    case PushPostSet => Moves(PushPostUnlock, sh.(v := 1), Signal)
    case PushPostUnlock => Moves(PushUnlock, sh.(sem := Nobody), NoOne)
    case PushUnlock => Moves(Idle, sh.(rw := Nobody), NoOne)
    case KillTest => Moves(if sh.alive == 0 then ClearTest else KillPostLock, sh, NoOne)
    case KillPostLock => if sh.sem == Nobody then Moves(KillPostSet, sh.(sem := Main), NoOne) else Blocked
    case KillPostSet => Moves(KillPostUnlock, sh.(v := 1), Broadcast)
    case KillPostUnlock => Moves(KillTest, sh.(sem := Nobody), NoOne)
    case ClearTest =>
      if sh.queue == [] then Moves(Destroyed, sh.(v := 0), NoOne)
      else Moves(ClearFree(sh.queue[0]),
                 sh.(queue := sh.queue[1..], pulled := sh.pulled + [sh.queue[0]],
                     v := if |sh.queue| > 1 then 1 else sh.v), NoOne)
    case ClearFree(j) => Moves(ClearTest, sh.(cleared := sh.cleared + [j]), NoOne)
    case Destroyed => Blocked
  }

  ghost predicate WorkerStep(s: State, t: State, i: nat) {
    && i < |s.pcs|
    && var o := WorkerMove(i, s.pcs[i], s.sh);
       && o.Moves? && t.main == s.main && t.sh == o.sh
       && Wakes(s.pcs[i := o.pc], t.pcs, o.wake)
  }

  ghost predicate MainStep(s: State, t: State, destroy: bool) {
    var o := MainMove(s.main, s.sh, destroy);
    && o.Moves? && t.main == o.pc && t.sh == o.sh
    && Wakes(s.pcs, t.pcs, o.wake)
  }

  ghost predicate Next(s: State, t: State) {
    (exists destroy :: MainStep(s, t, destroy)) || (exists i: nat :: WorkerStep(s, t, i))
  }

  ghost predicate Execution(run: seq<State>) {
    && |run| > 0
    && (forall k :: 0 <= k < |run| - 1 ==> NextAt(run, k))
  }

  ghost predicate NextAt(run: seq<State>, k: nat)
    requires k < |run| - 1
  {
    Next(run[k], run[k + 1])
  }
}

/** The inductive invariant. */
module ThreadPoolInvariant {
  import opened Common
  import opened ThreadPool

  predicate HoldsRw(pc: PC) { pc.PullBody? || pc.PostLock? || pc.PostSet? || pc.PostUnlock? || pc.PullUnlock? }

  predicate HoldsSem(pc: PC) { pc.WaitTest? || pc.WaitUnlock? || pc.PostSet? || pc.PostUnlock? }

  predicate MainHoldsRw(m: MainPC) {
    m.PushBody? || m.PushPostLock? || m.PushPostSet? || m.PushPostUnlock? || m.PushUnlock?
  }

  predicate MainHoldsSem(m: MainPC) {
    m.PushPostSet? || m.PushPostUnlock? || m.KillPostSet? || m.KillPostUnlock?
  }

  /** Each mutex is held by exactly the thread that is inside a region it protects. */
  ghost predicate Mutexes(s: State) { RwHeld(s) && SemHeld(s) }

  ghost predicate RwHeld(s: State) {
    && (forall k :: 0 <= k < |s.pcs| ==> (s.sh.rw == Worker(k) <==> HoldsRw(s.pcs[k])))
    && (s.sh.rw == Main <==> MainHoldsRw(s.main))
    && (s.sh.rw.Worker? ==> s.sh.rw.i < |s.pcs|)
  }

  ghost predicate SemHeld(s: State) {
    && (forall k :: 0 <= k < |s.pcs| ==> (s.sh.sem == Worker(k) <==> HoldsSem(s.pcs[k])))
    && (s.sh.sem == Main <==> MainHoldsSem(s.main))
    && (s.sh.sem.Worker? ==> s.sh.sem.i < |s.pcs|)
  }

  predicate Killing(m: MainPC) { m.KillTest? || m.KillPostLock? || m.KillPostSet? || m.KillPostUnlock? }

  predicate Clearing(m: MainPC) { m.ClearTest? || m.ClearFree? || m.Destroyed? }

  /** The phases of the pool: workers leave only after the flag has been cleared, and the queue is
      cleared only after all of them have left. */
  ghost predicate Phases(s: State) {
    && (s.sh.keepalive <==> !Killing(s.main) && !Clearing(s.main))
    && (s.sh.keepalive ==> forall k :: 0 <= k < |s.pcs| ==> !s.pcs[k].Exit? && !s.pcs[k].Done?)
    && (Clearing(s.main) ==> forall k :: 0 <= k < |s.pcs| ==> s.pcs[k].Done?)
    && (s.main.Destroyed? ==> s.sh.queue == [])
    && (s.sh.v == 0 || s.sh.v == 1)
  }

  /** A worker that has taken the semaphore and not yet finished its pull. */
  predicate Committed(pc: PC) {
    pc.WaitUnlock? || pc.Recheck? || pc.Enter? || pc.PullLock? || pc.PullBody? || pc.PostLock? || pc.PostSet?
  }

  ghost predicate SomeCommitted(pcs: seq<PC>) {
    exists k :: 0 <= k < |pcs| && Committed(pcs[k])
  }

  /** The submitter has linked a job and not yet posted. */
  predicate MainOwesPost(m: MainPC) { m.PushPostLock? || m.PushPostSet? }

  /** A job is never left behind: the semaphore says so, or some thread is bound to act on it. */
  ghost predicate NoLostWakeup(s: State) {
    s.sh.keepalive && s.sh.queue != [] ==> s.sh.v == 1 || MainOwesPost(s.main) || SomeCommitted(s.pcs)
  }

  predicate AboutToTest(pc: PC) { pc.Woken? || pc.WaitTest? }

  /** While the semaphore is set and workers sleep on it, a worker that was woken has yet to test it. */
  ghost predicate SleepersSignalled(s: State) {
    s.sh.v == 1 && (exists k :: 0 <= k < |s.pcs| && s.pcs[k].Sleeping?) ==>
      exists k :: 0 <= k < |s.pcs| && AboutToTest(s.pcs[k])
  }

  /** The queue is the part of the submissions not yet pulled, in order of submission. */
  ghost predicate Fifo(m: MainPC, sh: Shared) {
    && sh.pushed == sh.pulled + sh.queue
    && (forall k :: 0 <= k < |sh.pushed| ==> sh.pushed[k] == k)
    && (m.PushLock? ==> m.job == |sh.pushed|)
    && (m.PushBody? ==> m.job == |sh.pushed|)
  }

  /** The numbers the invariant adds up over the workers. */
  datatype Quantity = AliveCount | WorkingCount | Distance | ExitDistance | HeldCount(job: nat) | RanCount(job: nat)

  /** The job a worker has pulled and not yet freed. */
  function HeldJob(pc: PC): Option<nat> {
    match pc
    case PostLock(j) => Some(j)
    case PostSet(j) => Some(j)
    case PostUnlock(j) => Some(j)
    case PullUnlock(o) => o
    case Running(j) => Some(j)
    case FreeJob(j) => Some(j)
    case _ => None
  }

  predicate Works(pc: PC) {
    HoldsRw(pc) || pc.PullLock? || pc.Running? || pc.FreeJob? || pc.Leave?
  }

  /** An upper bound of the steps a worker still makes before its next pull, when it is not blocked. */
  function StepsToPull(pc: PC): nat {
    match pc
    case PullBody => 0
    case PullLock => 1
    case Enter => 2
    case Recheck => 3
    case WaitUnlock => 4
    case Sleeping => 4
    case WaitTest => 5
    case Woken => 6
    case WaitLock => 6
    case Top => 7
    case Leave => 8
    case FreeJob(_) => 9
    case Running(_) => 10
    case PullUnlock(_) => 11
    case PostUnlock(_) => 12
    case PostSet(_) => 13
    case PostLock(_) => 14
    case Exit => 0
    case Done => 0
  }

  /** The same for its last step once it may no longer go on; all of `bsem_wait` before the semaphore
      is taken counts alike. */
  function StepsToExit(pc: PC): nat {
    match pc
    case Done => 0
    case Exit => 1
    case Top => 2
    case Recheck => 3
    case Leave => 3
    case WaitUnlock => 4
    case FreeJob(_) => 4
    case WaitLock => 5
    case WaitTest => 5
    case Sleeping => 5
    case Woken => 5
    case Running(_) => 5
    case PullUnlock(_) => 6
    case PostUnlock(_) => 7
    case PostSet(_) => 8
    case PostLock(_) => 9
    case PullBody => 10
    case PullLock => 11
    case Enter => 12
  }

  function Value(q: Quantity, pc: PC): nat {
    match q
    case AliveCount => Indicator(!pc.Done?)
    case WorkingCount => Indicator(Works(pc))
    case Distance => StepsToPull(pc)
    case ExitDistance => StepsToExit(pc)
    case HeldCount(j) => Indicator(HeldJob(pc) == Some(j))
    case RanCount(j) => Indicator(pc == FreeJob(j))
  }

  function Sum(q: Quantity, pcs: seq<PC>): nat {
    if pcs == [] then 0 else Sum(q, pcs[..|pcs| - 1]) + Value(q, pcs[|pcs| - 1])
  }

  ghost predicate Counters(s: State) {
    s.sh.alive == Sum(AliveCount, s.pcs) && s.sh.working == Sum(WorkingCount, s.pcs)
  }

  function MainHeld(m: MainPC, j: nat): nat { Indicator(m == ClearFree(j)) }

  /** A pulled job is, exactly once, in the hands of one thread, freed after its run, or freed unrun;
      and it has run if and only if it has been freed after a run or is about to be. */
  ghost predicate ExactlyOnce(s: State, j: nat) {
    && multiset(s.sh.pulled)[j] == Sum(HeldCount(j), s.pcs) + MainHeld(s.main, j)
                                   + multiset(s.sh.freed)[j] + multiset(s.sh.cleared)[j]
    && multiset(s.sh.ran)[j] == Sum(RanCount(j), s.pcs) + multiset(s.sh.freed)[j]
  }

  datatype Part = MutexPart | PhasePart | WakePart | SleeperPart | OrderPart | CountPart | JobPart

  ghost predicate Holds(s: State, part: Part) {
    match part
    case MutexPart => Mutexes(s)
    case PhasePart => Phases(s)
    case WakePart => NoLostWakeup(s)
    case SleeperPart => SleepersSignalled(s)
    case OrderPart => Fifo(s.main, s.sh)
    case CountPart => Counters(s)
    case JobPart => forall j: nat :: ExactlyOnce(s, j)
  }

  /** What each part means comes into a proof only where the part is mentioned. */
  ghost predicate Inv(s: State) {
    forall part :: Holds(s, part)
  }

  lemma InvParts(s: State)
    requires Inv(s)
    ensures Mutexes(s) && Phases(s) && NoLostWakeup(s) && SleepersSignalled(s) && Fifo(s.main, s.sh) && Counters(s)
    ensures forall j: nat :: ExactlyOnce(s, j)
  {
    assert Holds(s, MutexPart) && Holds(s, PhasePart) && Holds(s, WakePart) && Holds(s, SleeperPart);
    assert Holds(s, OrderPart) && Holds(s, CountPart) && Holds(s, JobPart);
  }

  lemma {:induction false} SumUpdate(q: Quantity, pcs: seq<PC>, i: nat, pc: PC)
    requires i < |pcs|
    ensures Sum(q, pcs[i := pc]) == Sum(q, pcs) - Value(q, pcs[i]) + Value(q, pc)
    ensures Sum(q, pcs) >= Value(q, pcs[i])
  {
    var n := |pcs| - 1;
    if i < n {
      SumUpdate(q, pcs[..n], i, pc);
      assert pcs[i := pc][..n] == pcs[..n][i := pc];
    } else {
      assert pcs[i := pc][..n] == pcs[..n];
    }
  }

  lemma {:induction false} SumSame(q: Quantity, a: seq<PC>, b: seq<PC>)
    requires |a| == |b| && forall k :: 0 <= k < |a| ==> Value(q, a[k]) == Value(q, b[k])
    ensures Sum(q, a) == Sum(q, b)
  {
    if a != [] {
      SumSame(q, a[..|a| - 1], b[..|b| - 1]);
    }
  }

  lemma WakingCounts(q: Quantity, pc: PC)
    requires q != Distance && pc == Sleeping
    ensures Value(q, pc) == Value(q, Woken)
  {
  }

  /** Waking sleepers changes no sum but the distance to the next pull. */
  lemma SumWakes(q: Quantity, a: seq<PC>, b: seq<PC>, wake: Wake)
    requires Wakes(a, b, wake) && q != Distance
    ensures Sum(q, a) == Sum(q, b)
  {
    forall k | 0 <= k < |a|
      ensures Value(q, a[k]) == Value(q, b[k])
    {
      if a[k] == Sleeping { WakingCounts(q, a[k]); }
    }
    SumSame(q, a, b);
  }

  lemma {:induction false} SumZero(q: Quantity, pcs: seq<PC>)
    ensures Sum(q, pcs) == 0 <==> forall k :: 0 <= k < |pcs| ==> Value(q, pcs[k]) == 0
  {
    if pcs != [] {
      SumZero(q, pcs[..|pcs| - 1]);
    }
  }

  lemma {:induction false} SumTop(pcs: seq<PC>)
    requires forall i :: 0 <= i < |pcs| ==> pcs[i] == Top
    ensures Sum(AliveCount, pcs) == |pcs| && Sum(WorkingCount, pcs) == 0
  {
    if pcs != [] {
      SumTop(pcs[..|pcs| - 1]);
    }
  }

  lemma InitInv(s: State)
    requires Init(s)
    ensures Inv(s)
  {
    SumTop(s.pcs);
    forall j: nat
      ensures ExactlyOnce(s, j)
    {
      SumZero(HeldCount(j), s.pcs);
      SumZero(RanCount(j), s.pcs);
    }
  }

  // ----- Mutual exclusion

  /** How a step of a thread treats a mutex it holds (`held`) before and (`held'`) after. */
  predicate MutexMove(me: Owner, held: bool, before: Owner, held': bool, after: Owner) {
    && (held <==> before == me)
    && (held' <==> after == me)
    && (before == after || (before == me && after == Nobody) || (before == Nobody && after == me))
  }

  lemma WorkerRw(i: nat, pc: PC, sh: Shared)
    requires sh.rw == Worker(i) <==> HoldsRw(pc)
    ensures var o := WorkerMove(i, pc, sh);
            o.Moves? ==> MutexMove(Worker(i), HoldsRw(pc), sh.rw, HoldsRw(o.pc), o.sh.rw)
  {
  }

  lemma WorkerSem(i: nat, pc: PC, sh: Shared)
    requires sh.sem == Worker(i) <==> HoldsSem(pc)
    ensures var o := WorkerMove(i, pc, sh);
            o.Moves? ==> MutexMove(Worker(i), HoldsSem(pc), sh.sem, HoldsSem(o.pc), o.sh.sem)
  {
  }

  lemma MainRw(m: MainPC, sh: Shared, destroy: bool)
    requires sh.rw == Main <==> MainHoldsRw(m)
    ensures var o := MainMove(m, sh, destroy);
            o.Moves? ==> MutexMove(Main, MainHoldsRw(m), sh.rw, MainHoldsRw(o.pc), o.sh.rw)
  {
  }

  lemma MainSem(m: MainPC, sh: Shared, destroy: bool)
    requires sh.sem == Main <==> MainHoldsSem(m)
    ensures var o := MainMove(m, sh, destroy);
            o.Moves? ==> MutexMove(Main, MainHoldsSem(m), sh.sem, MainHoldsSem(o.pc), o.sh.sem)
  {
  }

  /** A mutex stays with the threads inside its regions when one thread moves as `MutexMove` says and
      nobody else enters or leaves a region. */
  lemma RegionsStep(in0: seq<bool>, in1: seq<bool>, main0: bool, main1: bool, before: Owner, after: Owner, me: Owner)
    requires |in0| == |in1| && (me == Main || (me.Worker? && me.i < |in0|))
    requires forall k :: 0 <= k < |in0| ==> (before == Worker(k) <==> in0[k])
    requires before == Main <==> main0
    requires before.Worker? ==> before.i < |in0|
    requires me != Main ==> main1 == main0
    requires forall k :: 0 <= k < |in0| && me != Worker(k) ==> in1[k] == in0[k]
    requires var h0, h1 := (if me == Main then main0 else in0[me.i]), (if me == Main then main1 else in1[me.i]);
             MutexMove(me, h0, before, h1, after)
    ensures forall k :: 0 <= k < |in1| ==> (after == Worker(k) <==> in1[k])
    ensures after == Main <==> main1
    ensures after.Worker? ==> after.i < |in1|
  {
  }

  function RwHolders(pcs: seq<PC>): (r: seq<bool>)
    ensures |r| == |pcs| && forall k :: 0 <= k < |pcs| ==> r[k] == HoldsRw(pcs[k])
  {
    seq(|pcs|, k requires 0 <= k < |pcs| => HoldsRw(pcs[k]))
  }

  function SemHolders(pcs: seq<PC>): (r: seq<bool>)
    ensures |r| == |pcs| && forall k :: 0 <= k < |pcs| ==> r[k] == HoldsSem(pcs[k])
  {
    seq(|pcs|, k requires 0 <= k < |pcs| => HoldsSem(pcs[k]))
  }

  lemma MainRwStep(s: State, t: State, destroy: bool)
    requires RwHeld(s) && MainStep(s, t, destroy)
    ensures RwHeld(t)
  {
    MainRw(s.main, s.sh, destroy);
    RegionsStep(RwHolders(s.pcs), RwHolders(t.pcs), MainHoldsRw(s.main), MainHoldsRw(t.main), s.sh.rw, t.sh.rw, Main);
  }

  lemma MainSemStep(s: State, t: State, destroy: bool)
    requires SemHeld(s) && MainStep(s, t, destroy)
    ensures SemHeld(t)
  {
    MainSem(s.main, s.sh, destroy);
    RegionsStep(SemHolders(s.pcs), SemHolders(t.pcs), MainHoldsSem(s.main), MainHoldsSem(t.main), s.sh.sem, t.sh.sem,
                Main);
  }

  /** A step of worker `i` leaves every other worker inside or outside each region. */
  lemma OthersStay(s: State, t: State, i: nat, k: nat)
    requires WorkerStep(s, t, i) && k < |s.pcs| && k != i
    ensures |t.pcs| == |s.pcs|
    ensures HoldsRw(t.pcs[k]) == HoldsRw(s.pcs[k]) && HoldsSem(t.pcs[k]) == HoldsSem(s.pcs[k])
  {
    var o := WorkerMove(i, s.pcs[i], s.sh);
    assert s.pcs[i := o.pc][k] == s.pcs[k];
  }

  lemma MoverMoves(s: State, t: State, i: nat)
    requires WorkerStep(s, t, i)
    ensures |t.pcs| == |s.pcs| && t.pcs[i] == WorkerMove(i, s.pcs[i], s.sh).pc
  {
    var o := WorkerMove(i, s.pcs[i], s.sh);
    assert s.pcs[i := o.pc][i] == o.pc;
  }

  lemma WorkerRwStep(s: State, t: State, i: nat)
    requires RwHeld(s) && WorkerStep(s, t, i)
    ensures RwHeld(t)
  {
    WorkerRw(i, s.pcs[i], s.sh);
    MoverMoves(s, t, i);
    forall k | 0 <= k < |s.pcs| && k != i
      ensures HoldsRw(t.pcs[k]) == HoldsRw(s.pcs[k])
    {
      OthersStay(s, t, i, k);
    }
    RegionsStep(RwHolders(s.pcs), RwHolders(t.pcs), MainHoldsRw(s.main), MainHoldsRw(t.main), s.sh.rw, t.sh.rw,
                Worker(i));
  }

  lemma WorkerSemStep(s: State, t: State, i: nat)
    requires SemHeld(s) && WorkerStep(s, t, i)
    ensures SemHeld(t)
  {
    WorkerSem(i, s.pcs[i], s.sh);
    MoverMoves(s, t, i);
    forall k | 0 <= k < |s.pcs| && k != i
      ensures HoldsSem(t.pcs[k]) == HoldsSem(s.pcs[k])
    {
      OthersStay(s, t, i, k);
    }
    RegionsStep(SemHolders(s.pcs), SemHolders(t.pcs), MainHoldsSem(s.main), MainHoldsSem(t.main), s.sh.sem, t.sh.sem,
                Worker(i));
  }

  lemma MutexesStep(s: State, t: State)
    requires Mutexes(s) && Next(s, t)
    ensures Mutexes(t)
  {
    if destroy :| MainStep(s, t, destroy) {
      MainRwStep(s, t, destroy);
      MainSemStep(s, t, destroy);
    } else {
      var i: nat :| WorkerStep(s, t, i);
      WorkerRwStep(s, t, i);
      WorkerSemStep(s, t, i);
    }
  }

  // ----- Phases

  lemma PhasesStep(s: State, t: State)
    requires Phases(s) && Counters(s) && Next(s, t)
    ensures Phases(t)
  {
    if destroy :| MainStep(s, t, destroy) {
      SumZero(AliveCount, s.pcs);
      assert Sum(AliveCount, s.pcs) == 0 ==> forall k :: 0 <= k < |s.pcs| ==> Value(AliveCount, s.pcs[k]) == 0;
      MainPhases(s.main, s.sh, destroy);
    } else {
      var i: nat :| WorkerStep(s, t, i);
      WorkerPhases(i, s.pcs[i], s.sh);
    }
  }

  lemma WorkerPhases(i: nat, pc: PC, sh: Shared)
    ensures var o := WorkerMove(i, pc, sh);
            o.Moves? ==>
              && pc != Done
              && o.sh.keepalive == sh.keepalive
              && (sh.keepalive && !pc.Exit? ==> !o.pc.Exit? && !o.pc.Done?)
              && (o.sh.v == sh.v || o.sh.v == 0 || o.sh.v == 1)
  {
  }

  lemma MainPhases(m: MainPC, sh: Shared, destroy: bool)
    ensures var o := MainMove(m, sh, destroy);
            o.Moves? ==>
              && (o.sh.keepalive ==> sh.keepalive)
              && (sh.keepalive && !Killing(m) && !Clearing(m)
                 ==> (o.sh.keepalive <==> !Killing(o.pc) && !Clearing(o.pc)))
              && (!sh.keepalive && (Killing(m) || Clearing(m)) ==> !o.sh.keepalive && (Killing(o.pc) || Clearing(o.pc)))
              && (Clearing(o.pc) ==> Clearing(m) || sh.alive == 0)
              && (Clearing(o.pc) ==> o.wake == NoOne)
              && (o.pc.Destroyed? ==> o.sh.queue == [])
              && (o.sh.v == sh.v || o.sh.v == 0 || o.sh.v == 1)
  {
  }

  // ----- No lost wake-up

  lemma WorkerWakeups(i: nat, pc: PC, sh: Shared)
    ensures var o := WorkerMove(i, pc, sh);
            o.Moves? ==>
              && o.sh.keepalive == sh.keepalive
              && (o.sh.v == 1 || Committed(o.pc) || !o.sh.keepalive || o.sh.queue == []
                  || (!Committed(pc) && o.sh.v == sh.v && o.sh.queue == sh.queue))
  {
  }

  lemma MainWakeups(m: MainPC, sh: Shared, destroy: bool)
    requires sh.keepalive <==> !Killing(m) && !Clearing(m)
    ensures var o := MainMove(m, sh, destroy);
            o.Moves? && o.sh.keepalive ==>
              && sh.keepalive
              && (o.sh.v == 1 || MainOwesPost(o.pc) || (!MainOwesPost(m) && o.sh.v == sh.v && o.sh.queue == sh.queue))
  {
  }

  lemma NoLostWakeupStep(s: State, t: State)
    requires Phases(s) && NoLostWakeup(s) && Next(s, t)
    ensures NoLostWakeup(t)
  {
    if destroy :| MainStep(s, t, destroy) {
      MainWakeups(s.main, s.sh, destroy);
      if k :| 0 <= k < |s.pcs| && Committed(s.pcs[k]) {
        assert Committed(t.pcs[k]);
      }
    } else {
      var i: nat :| WorkerStep(s, t, i);
      WorkerWakeups(i, s.pcs[i], s.sh);
      if Committed(t.pcs[i]) {
        assert SomeCommitted(t.pcs);
      } else if !Committed(s.pcs[i]) && SomeCommitted(s.pcs) {
        var k :| 0 <= k < |s.pcs| && Committed(s.pcs[k]);
        assert Committed(t.pcs[k]);
      }
    }
  }

  // ----- Sleepers are signalled

  lemma WorkerSignals(i: nat, pc: PC, sh: Shared)
    ensures var o := WorkerMove(i, pc, sh);
            o.Moves? && o.sh.v == 1 ==>
              && (sh.v == 1 || o.wake == Signal)
              && !o.pc.Sleeping?
              && (AboutToTest(pc) ==> AboutToTest(o.pc))
              && (o.wake == NoOne || o.wake == Signal)
  {
  }

  lemma MainSignals(m: MainPC, sh: Shared, destroy: bool)
    requires !Clearing(m)
    ensures var o := MainMove(m, sh, destroy);
            o.Moves? && o.sh.v == 1 ==> sh.v == 1 || o.wake != NoOne
  {
  }

  lemma SleepersSignalledStep(s: State, t: State)
    requires Phases(s) && SleepersSignalled(s) && Next(s, t)
    ensures SleepersSignalled(t)
  {
    if t.sh.v == 1 && exists k :: 0 <= k < |t.pcs| && t.pcs[k].Sleeping? {
      var z :| 0 <= z < |t.pcs| && t.pcs[z].Sleeping?;
      if destroy :| MainStep(s, t, destroy) {
        assert s.pcs[z].Sleeping?;
        MainSignals(s.main, s.sh, destroy);
        if s.sh.v == 1 {
          var k :| 0 <= k < |s.pcs| && AboutToTest(s.pcs[k]);
          assert AboutToTest(t.pcs[k]);
        } else {
          assert s.pcs[z] == Sleeping;
          var k :| 0 <= k < |t.pcs| && t.pcs[k] == Woken;
          assert AboutToTest(t.pcs[k]);
        }
      } else {
        var i: nat :| WorkerStep(s, t, i);
        var o := WorkerMove(i, s.pcs[i], s.sh);
        WorkerSignals(i, s.pcs[i], s.sh);
        assert s.pcs[i := o.pc][z] == Sleeping && s.pcs[z].Sleeping?;
        if s.sh.v == 1 {
          var k :| 0 <= k < |s.pcs| && AboutToTest(s.pcs[k]);
          assert AboutToTest(t.pcs[k]);
        } else {
          var k :| 0 <= k < |t.pcs| && t.pcs[k] == Woken;
          assert AboutToTest(t.pcs[k]);
        }
      }
    }
  }

  // ----- Order

  lemma WorkerFifo(i: nat, pc: PC, m: MainPC, sh: Shared)
    requires Fifo(m, sh)
    ensures var o := WorkerMove(i, pc, sh);
            o.Moves? ==> Fifo(m, o.sh)
  {
  }

  lemma MainFifo(m: MainPC, sh: Shared, destroy: bool)
    requires Fifo(m, sh)
    ensures var o := MainMove(m, sh, destroy);
            o.Moves? ==> Fifo(o.pc, o.sh)
  {
  }

  lemma FifoStep(s: State, t: State)
    requires Fifo(s.main, s.sh) && Next(s, t)
    ensures Fifo(t.main, t.sh)
  {
    if destroy :| MainStep(s, t, destroy) {
      MainFifo(s.main, s.sh, destroy);
    } else {
      var i: nat :| WorkerStep(s, t, i);
      WorkerFifo(i, s.pcs[i], s.main, s.sh);
    }
  }

  // ----- Counting

  lemma WorkerCounts(i: nat, pc: PC, sh: Shared)
    ensures var o := WorkerMove(i, pc, sh);
            o.Moves? ==>
              && o.sh.alive - sh.alive == Indicator(!o.pc.Done?) - Indicator(!pc.Done?)
              && o.sh.working - sh.working == Indicator(Works(o.pc)) - Indicator(Works(pc))
  {
  }

  /** Jobs pulled and not freed, less the one a worker holds. */
  function Unheld(sh: Shared, pc: PC, j: nat): int {
    multiset(sh.pulled)[j] - multiset(sh.freed)[j] - Indicator(HeldJob(pc) == Some(j))
  }

  lemma WorkerHeldPull(i: nat, pc: PC, sh: Shared, j: nat)
    requires pc.PullBody?
    ensures var o := WorkerMove(i, pc, sh); o.Moves? ==> Unheld(o.sh, o.pc, j) == Unheld(sh, pc, j)
  {
  }

  lemma WorkerHeldFree(i: nat, pc: PC, sh: Shared, j: nat)
    requires pc.FreeJob?
    ensures var o := WorkerMove(i, pc, sh); o.Moves? ==> Unheld(o.sh, o.pc, j) == Unheld(sh, pc, j)
  {
  }

  lemma WorkerHeldSame(i: nat, pc: PC, sh: Shared)
    requires !pc.PullBody? && !pc.FreeJob?
    ensures var o := WorkerMove(i, pc, sh);
            o.Moves? ==> o.sh.pulled == sh.pulled && o.sh.freed == sh.freed && HeldJob(o.pc) == HeldJob(pc)
  {
  }

  lemma WorkerHeld(i: nat, pc: PC, sh: Shared, j: nat)
    ensures var o := WorkerMove(i, pc, sh); o.Moves? ==> Unheld(o.sh, o.pc, j) == Unheld(sh, pc, j)
  {
    if pc.PullBody? {
      WorkerHeldPull(i, pc, sh, j);
    } else if pc.FreeJob? {
      WorkerHeldFree(i, pc, sh, j);
    } else {
      WorkerHeldSame(i, pc, sh);
    }
  }

  lemma WorkerClearsNone(i: nat, pc: PC, sh: Shared)
    ensures var o := WorkerMove(i, pc, sh); o.Moves? ==> o.sh.cleared == sh.cleared
  {
  }

  lemma WorkerRan(i: nat, pc: PC, sh: Shared, j: nat)
    ensures var o := WorkerMove(i, pc, sh);
            o.Moves? ==>
              multiset(o.sh.ran)[j] - multiset(o.sh.freed)[j] - Indicator(o.pc == FreeJob(j))
              == multiset(sh.ran)[j] - multiset(sh.freed)[j] - Indicator(pc == FreeJob(j))
  {
  }

  /** Jobs pulled and neither freed nor cleared, less the one the submitter holds. */
  function MainUnheld(sh: Shared, m: MainPC, j: nat): int {
    multiset(sh.pulled)[j] - multiset(sh.freed)[j] - multiset(sh.cleared)[j] - MainHeld(m, j)
  }

  lemma MainHistoryPull(m: MainPC, sh: Shared, destroy: bool, j: nat)
    requires m.ClearTest?
    ensures var o := MainMove(m, sh, destroy); o.Moves? ==> MainUnheld(o.sh, o.pc, j) == MainUnheld(sh, m, j)
  {
  }

  lemma MainHistoryClear(m: MainPC, sh: Shared, destroy: bool, j: nat)
    requires m.ClearFree?
    ensures var o := MainMove(m, sh, destroy); o.Moves? ==> MainUnheld(o.sh, o.pc, j) == MainUnheld(sh, m, j)
  {
  }

  lemma MainHistorySame(m: MainPC, sh: Shared, destroy: bool)
    requires !m.ClearTest? && !m.ClearFree?
    ensures var o := MainMove(m, sh, destroy);
            o.Moves? ==> o.sh.pulled == sh.pulled && o.sh.cleared == sh.cleared && !o.pc.ClearFree?
  {
  }

  lemma MainRunsNone(m: MainPC, sh: Shared, destroy: bool)
    ensures var o := MainMove(m, sh, destroy); o.Moves? ==> o.sh.ran == sh.ran && o.sh.freed == sh.freed
  {
  }

  lemma MainHistory(m: MainPC, sh: Shared, destroy: bool, j: nat)
    ensures var o := MainMove(m, sh, destroy); o.Moves? ==> MainUnheld(o.sh, o.pc, j) == MainUnheld(sh, m, j)
  {
    if m.ClearTest? {
      MainHistoryPull(m, sh, destroy, j);
    } else if m.ClearFree? {
      MainHistoryClear(m, sh, destroy, j);
    } else {
      MainHistorySame(m, sh, destroy);
      MainRunsNone(m, sh, destroy);
    }
  }

  lemma SumWorkerStep(q: Quantity, s: State, t: State, i: nat)
    requires WorkerStep(s, t, i)
    requires q != Distance || WorkerMove(i, s.pcs[i], s.sh).wake == NoOne
    ensures var o := WorkerMove(i, s.pcs[i], s.sh);
            Sum(q, t.pcs) == Sum(q, s.pcs) - Value(q, s.pcs[i]) + Value(q, o.pc)
  {
    var o := WorkerMove(i, s.pcs[i], s.sh);
    SumUpdate(q, s.pcs, i, o.pc);
    if q != Distance {
      SumWakes(q, s.pcs[i := o.pc], t.pcs, o.wake);
    }
  }

  lemma MainKeepsCounters(m: MainPC, sh: Shared, destroy: bool)
    ensures var o := MainMove(m, sh, destroy); o.Moves? ==> o.sh.alive == sh.alive && o.sh.working == sh.working
  {
  }

  lemma MainCountersStep(s: State, t: State, destroy: bool)
    requires Counters(s) && MainStep(s, t, destroy)
    ensures Counters(t)
  {
    MainKeepsCounters(s.main, s.sh, destroy);
    SumWakes(AliveCount, s.pcs, t.pcs, MainMove(s.main, s.sh, destroy).wake);
    SumWakes(WorkingCount, s.pcs, t.pcs, MainMove(s.main, s.sh, destroy).wake);
  }

  lemma WorkerCountersStep(s: State, t: State, i: nat)
    requires Counters(s) && WorkerStep(s, t, i)
    ensures Counters(t)
  {
    WorkerCounts(i, s.pcs[i], s.sh);
    SumWorkerStep(AliveCount, s, t, i);
    SumWorkerStep(WorkingCount, s, t, i);
  }

  lemma CountersStep(s: State, t: State)
    requires Counters(s) && Next(s, t)
    ensures Counters(t)
  {
    if destroy :| MainStep(s, t, destroy) {
      MainCountersStep(s, t, destroy);
    } else {
      var i: nat :| WorkerStep(s, t, i);
      WorkerCountersStep(s, t, i);
    }
  }

  lemma MainExactlyOnceStep(s: State, t: State, destroy: bool, j: nat)
    requires ExactlyOnce(s, j) && MainStep(s, t, destroy)
    ensures ExactlyOnce(t, j)
  {
    MainHistory(s.main, s.sh, destroy, j);
    MainRunsNone(s.main, s.sh, destroy);
    SumWakes(HeldCount(j), s.pcs, t.pcs, MainMove(s.main, s.sh, destroy).wake);
    SumWakes(RanCount(j), s.pcs, t.pcs, MainMove(s.main, s.sh, destroy).wake);
  }

  lemma WorkerExactlyOnceStep(s: State, t: State, i: nat, j: nat)
    requires ExactlyOnce(s, j) && WorkerStep(s, t, i)
    ensures ExactlyOnce(t, j)
  {
    WorkerHeld(i, s.pcs[i], s.sh, j);
    WorkerClearsNone(i, s.pcs[i], s.sh);
    WorkerRan(i, s.pcs[i], s.sh, j);
    SumWorkerStep(HeldCount(j), s, t, i);
    SumWorkerStep(RanCount(j), s, t, i);
  }

  lemma ExactlyOnceStep(s: State, t: State, j: nat)
    requires ExactlyOnce(s, j) && Next(s, t)
    ensures ExactlyOnce(t, j)
  {
    if destroy :| MainStep(s, t, destroy) {
      MainExactlyOnceStep(s, t, destroy, j);
    } else {
      var i: nat :| WorkerStep(s, t, i);
      WorkerExactlyOnceStep(s, t, i, j);
    }
  }

  lemma InvStep(s: State, t: State)
    requires Inv(s) && Next(s, t)
    ensures Inv(t)
  {
    InvParts(s);
    MutexesStep(s, t);
    PhasesStep(s, t);
    NoLostWakeupStep(s, t);
    SleepersSignalledStep(s, t);
    FifoStep(s, t);
    CountersStep(s, t);
    forall j: nat
      ensures ExactlyOnce(t, j)
    {
      ExactlyOnceStep(s, t, j);
    }
  }

  lemma {:induction false} ReachableInv(run: seq<State>, k: nat)
    requires Execution(run) && Init(run[0]) && k < |run|
    ensures Inv(run[k])
  {
    if k == 0 {
      InitInv(run[0]);
    } else {
      ReachableInv(run, k - 1);
      ExecutionStep(run, k - 1);
      InvStep(run[k - 1], run[k]);
    }
  }

  lemma ExecutionStep(run: seq<State>, k: nat)
    requires Execution(run) && k + 1 < |run|
    ensures Next(run[k], run[k + 1])
  {
    assert NextAt(run, k);
  }
}

/** What the invariant gives for every execution. */
module ThreadPoolTheorems {
  import opened ThreadPool
  import opened ThreadPoolInvariant

  /** Until the pool is destroyed a non-empty queue means that the semaphore is set, or that a worker
      has passed `bsem_wait` and not yet finished its pull, or that the submitter still owes its post;
      and a set semaphore with sleeping workers means that a woken worker has yet to test it. */
  lemma NoWakeupIsLost(run: seq<State>, k: nat)
    requires Execution(run) && Init(run[0]) && k < |run|
    ensures NoLostWakeup(run[k]) && SleepersSignalled(run[k])
  {
    ReachableInv(run, k);
    InvParts(run[k]);
  }

  /** `bsem_post_all` leaves no worker asleep: until it has released the semaphore mutex none sleeps. */
  lemma {:induction false} AllAwake(run: seq<State>, k: nat)
    requires Execution(run) && Init(run[0]) && k < |run|
    ensures run[k].main.KillPostUnlock? ==> forall i :: 0 <= i < |run[k].pcs| ==> !run[k].pcs[i].Sleeping?
  {
    if k > 0 {
      AllAwake(run, k - 1);
      ReachableInv(run, k - 1);
      ExecutionStep(run, k - 1);
      AllAwakeStep(run[k - 1], run[k]);
    }
  }

  lemma AllAwakeStep(s: State, t: State)
    requires Inv(s) && Next(s, t)
    requires s.main.KillPostUnlock? ==> forall i :: 0 <= i < |s.pcs| ==> !s.pcs[i].Sleeping?
    ensures t.main.KillPostUnlock? ==> forall i :: 0 <= i < |t.pcs| ==> !t.pcs[i].Sleeping?
  {
    InvParts(s);
    if i: nat :| WorkerStep(s, t, i) {
      FallsAsleep(i, s.pcs[i], s.sh);
      assert forall k :: 0 <= k < |t.pcs| && k != i ==> s.pcs[i := WorkerMove(i, s.pcs[i], s.sh).pc][k] == s.pcs[k];
    }
  }

  lemma FallsAsleep(i: nat, pc: PC, sh: Shared)
    ensures var o := WorkerMove(i, pc, sh); o.Moves? && o.pc.Sleeping? ==> HoldsSem(pc)
  {
  }

  /** At most one thread is inside a region protected by the same mutex: while a worker is, neither
      another worker nor the submitter is. */
  lemma MutualExclusion(run: seq<State>, k: nat, i: nat)
    requires Execution(run) && Init(run[0]) && k < |run| && i < |run[k].pcs|
    ensures var s := run[k];
            HoldsRw(s.pcs[i]) ==>
              !MainHoldsRw(s.main) && forall j :: 0 <= j < |s.pcs| && HoldsRw(s.pcs[j]) ==> j == i
    ensures var s := run[k];
            HoldsSem(s.pcs[i]) ==>
              !MainHoldsSem(s.main) && forall j :: 0 <= j < |s.pcs| && HoldsSem(s.pcs[j]) ==> j == i
  {
    ReachableInv(run, k);
    InvParts(run[k]);
  }

  /** Jobs are pulled in the order of submission, each at most once, and the queue holds the rest. */
  lemma PulledInOrder(run: seq<State>, k: nat)
    requires Execution(run) && Init(run[0]) && k < |run|
    ensures var sh := run[k].sh;
            && sh.pushed == seq(|sh.pushed|, n => n)
            && sh.pulled == seq(|sh.pulled|, n => n)
            && sh.pushed == sh.pulled + sh.queue
  {
    ReachableInv(run, k);
    InvParts(run[k]);
    var sh := run[k].sh;
    assert forall n :: 0 <= n < |sh.pulled| ==> sh.pulled[n] == sh.pushed[n] == n;
  }

  lemma {:induction false} CountInOrder(q: seq<nat>, j: nat)
    requires forall n :: 0 <= n < |q| ==> q[n] == n
    ensures multiset(q)[j] == if j < |q| then 1 else 0
  {
    if q != [] {
      var r := q[..|q| - 1];
      CountInOrder(r, j);
      assert q == r + [q[|q| - 1]];
    }
  }

  /** No job runs twice or is freed twice; a job freed after its run has run and is not cleared, a
      job cleared from the queue never runs. */
  lemma RunAndFreedAtMostOnce(run: seq<State>, k: nat, j: nat)
    requires Execution(run) && Init(run[0]) && k < |run|
    ensures var sh := run[k].sh;
            && multiset(sh.ran)[j] + multiset(sh.cleared)[j] <= 1
            && multiset(sh.freed)[j] + multiset(sh.cleared)[j] <= 1
            && multiset(sh.freed)[j] <= multiset(sh.ran)[j]
            && (j in sh.ran || j in sh.cleared ==> j < |sh.pulled|)
  {
    ReachableInv(run, k);
    InvParts(run[k]);
    var s := run[k];
    assert ExactlyOnce(s, j);
    assert forall n :: 0 <= n < |s.sh.pulled| ==> s.sh.pulled[n] == s.sh.pushed[n] == n;
    CountInOrder(s.sh.pulled, j);
    RanIsHeld(s.pcs, j);
  }

  lemma {:induction false} RanIsHeld(pcs: seq<PC>, j: nat)
    ensures Sum(RanCount(j), pcs) <= Sum(HeldCount(j), pcs)
  {
    if pcs != [] {
      RanIsHeld(pcs[..|pcs| - 1], j);
    }
  }

  /** Once the pool is destroyed every submitted job has been run and then freed, or freed unrun by
      `jobqueue_clear`: exactly one of the two, exactly once. */
  lemma EveryJobAccountedFor(run: seq<State>, k: nat, j: nat)
    requires Execution(run) && Init(run[0]) && k < |run|
    requires run[k].main == Destroyed && j < |run[k].sh.pushed|
    ensures var sh := run[k].sh;
            && multiset(sh.freed)[j] + multiset(sh.cleared)[j] == 1
            && multiset(sh.ran)[j] == multiset(sh.freed)[j]
  {
    ReachableInv(run, k);
    InvParts(run[k]);
    var s := run[k];
    assert ExactlyOnce(s, j);
    assert s.sh.pulled == s.sh.pushed;
    CountInOrder(s.sh.pulled, j);
    SumZero(HeldCount(j), s.pcs);
    SumZero(RanCount(j), s.pcs);
  }
}
