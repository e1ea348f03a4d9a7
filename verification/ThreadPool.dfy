/** The thread pool of src/thpool.c as a machine whose steps are its critical sections, with any
    number of worker threads, threads that add work, and threads inside `thpool_wait`. The pool is
    kept alive (`threads_keepalive`); waking up for no reason is allowed everywhere. */
module ThreadPool {
  import opened Common
  import opened Threads

  datatype Job = Job(routine: nat, arg: nat)

  /** Where a worker is in `thread_do`. `i` is the job's place in the order of arrival. */
  datatype Worker =
    | Idle                          // about to enter bsem_wait
    | Asleep                        // inside pthread_cond_wait
    | Signalled                     // woken, has not run yet
    | Token                         // took the semaphore
    | Counted                       // counted itself as working
    | Posting(i: nat, job: Job)     // pulled with more left: still holds rwmutex
    | Running(i: nat, job: Job)
    | Done                          // before it counts itself out

  /** Where a thread is in `thpool_wait`; `mark` is how many jobs had been added at the call. */
  datatype Waiter =
    | Out
    | Reading(mark: nat)            // holds thcount_lock, about to read len
    | SawEmpty(mark: nat)           // read len == 0, about to read num_threads_working
    | Going(mark: nat)              // about to sleep
    | Sleeping(mark: nat)
    | Woken(mark: nat)
    | Gone(mark: nat)               // returned

  /** Who is between changing the queue and posting, with rwmutex locked. */
  datatype Holder = Free | Pushing | Pulling(w: nat)

  /** `lock` is the waiter holding thcount_lock. The last three are history: every job added, how
      many of them were pulled, and the ones that have run, in the order they finished. */
  datatype Pool = Pool(queue: seq<Job>, rw: Holder, v: bool, workers: seq<Worker>, working: int,
                       waiters: seq<Waiter>, lock: Option<nat>,
                       pushed: seq<Job>, pulled: nat, ran: seq<nat>)

  datatype Action =
    | PushAppend(job: Job)
    | PushPost(wake: Option<nat>)
    | Try(w: nat)
    | CountIn(w: nat)
    | Pull(w: nat)
    | PullPost(w: nat, wake: Option<nat>)
    | RunJob(w: nat)
    | CountOut(w: nat, wake: Option<nat>)
    | Spurious(w: nat)
    | Enter(k: nat)
    | ReadLen(k: nat)
    | ReadWorking(k: nat)
    | Sleep(k: nat)
    | SpuriousWait(k: nat)

  /** Signalling a condition variable wakes one sleeper if there is any. */
  predicate MayWake(ws: seq<Worker>, wake: Option<nat>) {
    match wake
    case None => forall w :: 0 <= w < |ws| ==> ws[w] != Asleep
    case Some(w) => w < |ws| && ws[w] == Asleep
  }

  function Wake(ws: seq<Worker>, wake: Option<nat>): seq<Worker>
    requires MayWake(ws, wake)
  {
    if wake.None? then ws else ws[wake.value := Signalled]
  }

  predicate MayWakeWaiter(ks: seq<Waiter>, wake: Option<nat>) {
    match wake
    case None => forall k :: 0 <= k < |ks| ==> !ks[k].Sleeping?
    case Some(k) => k < |ks| && ks[k].Sleeping?
  }

  function WakeWaiter(ks: seq<Waiter>, wake: Option<nat>): seq<Waiter>
    requires MayWakeWaiter(ks, wake)
  {
    if wake.None? then ks else ks[wake.value := Woken(ks[wake.value].mark)]
  }

  predicate Is(s: Pool, w: nat, at: Worker) { w < |s.workers| && s.workers[w] == at }

  predicate Can(s: Pool, a: Action) {
    match a
    case PushAppend(_) => s.rw == Free
    case PushPost(wake) => s.rw == Pushing && MayWake(s.workers, wake)
    case Try(w) => Is(s, w, Idle) || Is(s, w, Signalled)
    case CountIn(w) => Is(s, w, Token) && s.lock == None
    case Pull(w) => Is(s, w, Counted) && s.rw == Free
    case PullPost(w, wake) => w < |s.workers| && s.workers[w].Posting? && MayWake(s.workers, wake)
    case RunJob(w) => w < |s.workers| && s.workers[w].Running?
    case CountOut(w, wake) =>
      Is(s, w, Done) && s.lock == None && if s.working == 1 then MayWakeWaiter(s.waiters, wake) else wake == None
    case Spurious(w) => Is(s, w, Asleep)
    case Enter(k) =>
      k < |s.waiters| && s.lock == None && (s.waiters[k].Out? || s.waiters[k].Gone? || s.waiters[k].Woken?)
    case ReadLen(k) => k < |s.waiters| && s.waiters[k].Reading?
    case ReadWorking(k) => k < |s.waiters| && s.waiters[k].SawEmpty?
    case Sleep(k) => k < |s.waiters| && s.waiters[k].Going?
    case SpuriousWait(k) => k < |s.waiters| && s.waiters[k].Sleeping?
  }

  function Next(s: Pool, a: Action): Pool
    requires Can(s, a)
  {
    match a
    case PushAppend(job) => s.(queue := s.queue + [job], pushed := s.pushed + [job], rw := Pushing)
    case PushPost(wake) => s.(v := true, workers := Wake(s.workers, wake), rw := Free)
    case Try(w) => s.(v := false, workers := s.workers[w := if s.v then Token else Asleep])
    case CountIn(w) => s.(working := s.working + 1, workers := s.workers[w := Counted])
    case Pull(w) =>
      if s.queue == [] then s.(workers := s.workers[w := Done])
      else
        var job, more := s.queue[0], |s.queue| > 1;
        s.(queue := s.queue[1..], pulled := s.pulled + 1,
           workers := s.workers[w := if more then Posting(s.pulled, job) else Running(s.pulled, job)],
           rw := if more then Pulling(w) else Free)
    case PullPost(w, wake) =>
      var me := s.workers[w];
      s.(v := true, workers := Wake(s.workers, wake)[w := Running(me.i, me.job)], rw := Free)
    case RunJob(w) => s.(ran := s.ran + [s.workers[w].i], workers := s.workers[w := Done])
    case CountOut(w, wake) =>
      s.(working := s.working - 1, workers := s.workers[w := Idle],
         waiters := if s.working == 1 then WakeWaiter(s.waiters, wake) else s.waiters)
    case Spurious(w) => s.(workers := s.workers[w := Signalled])
    case Enter(k) =>
      var mark := if s.waiters[k].Woken? then s.waiters[k].mark else |s.pushed|;
      s.(lock := Some(k), waiters := s.waiters[k := Reading(mark)])
    case ReadLen(k) =>
      var mark := s.waiters[k].mark;
      s.(waiters := s.waiters[k := if s.queue != [] then Going(mark) else SawEmpty(mark)])
    case ReadWorking(k) =>
      var mark := s.waiters[k].mark;
      if s.working != 0 then s.(waiters := s.waiters[k := Going(mark)])
      else s.(waiters := s.waiters[k := Gone(mark)], lock := None)
    case Sleep(k) => s.(waiters := s.waiters[k := Sleeping(s.waiters[k].mark)], lock := None)
    case SpuriousWait(k) => s.(waiters := s.waiters[k := Woken(s.waiters[k].mark)])
  }

  function Init(workers: nat, waiters: nat): Pool {
    Pool([], Free, false, seq(workers, _ => Idle), 0, seq(waiters, _ => Out), None, [], 0, [])
  }

  // ---------- The invariant ----------

  function Busy(w: Worker): nat {
    if w == Counted || w.Posting? || w.Running? || w == Done then 1 else 0
  }

  /** The locks belong to the threads that are inside their critical sections. */
  ghost predicate Locks(s: Pool) { QueueLock(s) && CountLock(s) }

  ghost predicate QueueLock(s: Pool) {
    && (forall w :: 0 <= w < |s.workers| ==> (s.workers[w].Posting? <==> s.rw == Pulling(w)))
    && (s.rw.Pulling? ==> s.rw.w < |s.workers|)
  }

  ghost predicate CountLock(s: Pool) {
    && (forall k :: 0 <= k < |s.waiters| ==> (Inside(s.waiters[k]) <==> s.lock == Some(k)))
    && (s.lock.Some? ==> s.lock.value < |s.waiters|)
  }

  predicate Inside(k: Waiter) { k.Reading? || k.SawEmpty? || k.Going? }

  ghost predicate SomeWorker(s: Pool, a: Worker, b: Worker) {
    exists w :: 0 <= w < |s.workers| && (s.workers[w] == a || s.workers[w] == b)
  }

  /** A binary semaphore standing in for a counter: a job in the queue has somebody coming for it. */
  ghost predicate Tokens(s: Pool) {
    && (s.queue != [] ==> s.v || s.rw != Free || SomeWorker(s, Token, Counted))
    && (s.v && SomeWorker(s, Asleep, Asleep) ==> SomeWorker(s, Signalled, Signalled))
  }

  predicate Held(w: Worker) { w.Posting? || w.Running? }

  /** What a worker holds is a job that left the queue and has not run. */
  ghost predicate Holding(s: Pool) {
    s.pulled <= |s.pushed| && forall w :: 0 <= w < |s.workers| && Held(s.workers[w]) ==>
      s.workers[w].i < s.pulled && s.workers[w].job == s.pushed[s.workers[w].i] && s.workers[w].i !in s.ran
  }

  ghost predicate Apart(s: Pool) {
    forall w, x :: 0 <= w < x < |s.workers| && Held(s.workers[w]) && Held(s.workers[x]) ==>
      s.workers[w].i != s.workers[x].i
  }

  ghost predicate Once(s: Pool) {
    && (forall a, b :: 0 <= a < b < |s.ran| ==> s.ran[a] != s.ran[b])
    && (forall a :: 0 <= a < |s.ran| ==> s.ran[a] < s.pulled)
  }

  /** Jobs leave in the order they arrived, and each that left is held by one worker or has run once. */
  ghost predicate Jobs(s: Pool) {
    && s.pulled <= |s.pushed| && s.queue == s.pushed[s.pulled..]
    && Holding(s) && Apart(s) && Once(s)
    && (forall i :: 0 <= i < s.pulled ==> i in s.ran || InHand(s, i))
  }

  ghost predicate InHand(s: Pool, i: nat) {
    exists w :: 0 <= w < |s.workers| && Held(s.workers[w]) && s.workers[w].i == i
  }

  ghost predicate Working(s: Pool) { s.working == Sum(s.workers, Busy) }

  ghost predicate AllRan(s: Pool, n: nat) { forall i :: 0 <= i < n ==> i in s.ran }

  ghost predicate Waits(s: Pool) {
    forall k :: 0 <= k < |s.waiters| ==>
      match s.waiters[k]
      case Out => true
      case Reading(m) => m <= |s.pushed|
      case SawEmpty(m) => m <= s.pulled
      case Going(m) => m <= |s.pushed| && (s.queue != [] || s.working > 0)
      case Sleeping(m) => m <= |s.pushed|
      case Woken(m) => m <= |s.pushed|
      case Gone(m) => AllRan(s, m)
  }

  /** With a single waiter, its sleep is never pointless. */
  ghost predicate OneWaiter(s: Pool) {
    |s.waiters| == 1 && s.waiters[0].Sleeping? ==> s.queue != [] || s.working > 0
  }

  ghost predicate Inv(s: Pool) {
    Locks(s) && Tokens(s) && Jobs(s) && Working(s) && Waits(s) && OneWaiter(s)
  }

  lemma LocksKept(s: Pool, a: Action)
    requires Locks(s) && Can(s, a)
    ensures Locks(Next(s, a))
  {
    QueueLockKept(s, a);
    CountLockKept(s, a);
  }

  lemma QueueLockKept(s: Pool, a: Action)
    requires QueueLock(s) && Can(s, a)
    ensures QueueLock(Next(s, a))
  {
  }

  lemma CountLockKept(s: Pool, a: Action)
    requires CountLock(s) && Can(s, a)
    ensures CountLock(Next(s, a))
  {
  }

  lemma TokensKept(s: Pool, a: Action)
    requires Locks(s) && Tokens(s) && Can(s, a)
    ensures Tokens(Next(s, a))
  {
    var t := Next(s, a);
    forall w | 0 <= w < |s.workers| && s.workers[w] == t.workers[w] ensures Is(t, w, s.workers[w]) {}
    assert forall w :: Is(s, w, Asleep) ==> SomeWorker(s, Asleep, Asleep);
  }

  /** The places in which the workers stand as before, or hold nothing. */
  lemma OthersHold(s: Pool, a: Action, w: nat)
    requires Can(s, a) && w < |s.workers| && Held(Next(s, a).workers[w])
    ensures Next(s, a).workers[w] == s.workers[w]
      || (a == Pull(w) && s.queue != []
          && Next(s, a).workers[w].i == s.pulled && Next(s, a).workers[w].job == s.queue[0])
      || (a.PullPost? && a.w == w && s.workers[w].Posting?
          && Next(s, a).workers[w] == Running(s.workers[w].i, s.workers[w].job))
  {
  }

  lemma HoldingKept(s: Pool, a: Action)
    requires Jobs(s) && Can(s, a)
    ensures Holding(Next(s, a))
  {
    var t := Next(s, a);
    assert t.pulled <= |t.pushed|;
    forall w | 0 <= w < |t.workers| && Held(t.workers[w])
      ensures t.workers[w].i < t.pulled && t.workers[w].job == t.pushed[t.workers[w].i] && t.workers[w].i !in t.ran
    {
      OthersHold(s, a, w);
      if a.RunJob? {
        assert w != a.w;
      }
    }
  }

  lemma ApartKept(s: Pool, a: Action)
    requires Jobs(s) && Can(s, a)
    ensures Apart(Next(s, a))
  {
    var t := Next(s, a);
    forall w, x | 0 <= w < x < |t.workers| && Held(t.workers[w]) && Held(t.workers[x])
      ensures t.workers[w].i != t.workers[x].i
    {
      OthersHold(s, a, w);
      OthersHold(s, a, x);
    }
  }

  lemma OnceKept(s: Pool, a: Action)
    requires Jobs(s) && Can(s, a)
    ensures Once(Next(s, a))
  {
    if a.RunJob? {
      assert s.workers[a.w].i < s.pulled && s.workers[a.w].i !in s.ran;
    }
  }

  /** A job that left the queue stays accounted for. */
  lemma StillInHand(s: Pool, a: Action, i: nat)
    requires Can(s, a) && InHand(s, i)
    ensures i in Next(s, a).ran || InHand(Next(s, a), i)
  {
    var t := Next(s, a);
    var w :| 0 <= w < |s.workers| && Held(s.workers[w]) && s.workers[w].i == i;
    if a == RunJob(w) {
      assert t.ran[|s.ran|] == i;
    } else {
      assert Held(t.workers[w]) && t.workers[w].i == i;
    }
  }

  lemma JobsKept(s: Pool, a: Action)
    requires Jobs(s) && Can(s, a)
    ensures Jobs(Next(s, a))
  {
    HoldingKept(s, a);
    ApartKept(s, a);
    OnceKept(s, a);
    AllHeldOrRan(s, a);
  }

  lemma AllHeldOrRan(s: Pool, a: Action)
    requires Jobs(s) && Can(s, a)
    ensures var t := Next(s, a);
      t.pulled <= |t.pushed| && t.queue == t.pushed[t.pulled..]
      && forall i :: 0 <= i < t.pulled ==> i in t.ran || InHand(t, i)
  {
    var t := Next(s, a);
    assert t.queue == t.pushed[t.pulled..];
    forall i | 0 <= i < t.pulled ensures i in t.ran || InHand(t, i) {
      if i == s.pulled {
        assert Held(t.workers[a.w]) && t.workers[a.w].i == i;
      } else if i in s.ran {
        assert i in s.ran + t.ran[|s.ran|..];
        assert t.ran == s.ran + t.ran[|s.ran|..];
      } else {
        StillInHand(s, a, i);
      }
    }
  }

  /** The worker whose own place changes in the step. */
  predicate Moves(a: Action) {
    a.Try? || a.CountIn? || a.Pull? || a.RunJob? || a.CountOut? || a.Spurious?
  }

  lemma WorkingKept(s: Pool, a: Action)
    requires Working(s) && Can(s, a)
    ensures Working(Next(s, a))
    ensures a.Pull? ==> s.working > 0
  {
    var ws, t := s.workers, Next(s, a);
    if Moves(a) {
      assert t.workers == ws[a.w := t.workers[a.w]];
      SumUpdate(ws, Busy, a.w, t.workers[a.w]);
      SumBounds(ws, Busy, a.w);
    } else if a.PushPost? || a.PullPost? {
      if a.wake.Some? { SumUpdate(ws, Busy, a.wake.value, Signalled); }
      if a.PullPost? { SumUpdate(Wake(ws, a.wake), Busy, a.w, t.workers[a.w]); }
    }
  }

  lemma WaitsKept(s: Pool, a: Action)
    requires Inv(s) && Can(s, a)
    ensures Waits(Next(s, a))
  {
    WorkingKept(s, a);
    assert forall x :: x in s.ran ==> x in Next(s, a).ran;
    if a.ReadWorking? && s.working == 0 { NobodyWorks(s, a.k); }
  }

  lemma OneWaiterKept(s: Pool, a: Action)
    requires Inv(s) && Can(s, a)
    ensures OneWaiter(Next(s, a))
  {
    WorkingKept(s, a);
  }

  /** A waiter that saw the queue empty and then nobody working: all its jobs have run. */
  lemma NobodyWorks(s: Pool, k: nat)
    requires Inv(s) && k < |s.waiters| && s.waiters[k].SawEmpty? && s.working == 0
    ensures AllRan(s, s.waiters[k].mark)
  {
    forall i | 0 <= i < s.waiters[k].mark ensures i in s.ran {
      if i !in s.ran {
        var w :| 0 <= w < |s.workers| && Held(s.workers[w]) && s.workers[w].i == i;
        SumBounds(s.workers, Busy, w);
      }
    }
  }

  lemma StepKeepsInv(s: Pool, a: Action)
    requires Inv(s) && Can(s, a)
    ensures Inv(Next(s, a))
  {
    LocksKept(s, a);
    TokensKept(s, a);
    JobsKept(s, a);
    WorkingKept(s, a);
    WaitsKept(s, a);
    OneWaiterKept(s, a);
  }

  // ---------- Runs ----------

  ghost predicate Runs(s: Pool, acts: seq<Action>, t: Pool)
    decreases |acts|
  {
    if acts == [] then s == t else Can(s, acts[0]) && Runs(Next(s, acts[0]), acts[1..], t)
  }

  lemma SameThreads(s: Pool, a: Action)
    requires Can(s, a)
    ensures |Next(s, a).workers| == |s.workers| && |Next(s, a).waiters| == |s.waiters|
  {
  }

  lemma {:induction false} RunsKeep(s: Pool, acts: seq<Action>, t: Pool)
    requires Inv(s) && Runs(s, acts, t)
    ensures Inv(t) && |t.workers| == |s.workers| && |t.waiters| == |s.waiters|
    decreases |acts|
  {
    if acts != [] {
      StepKeepsInv(s, acts[0]);
      SameThreads(s, acts[0]);
      RunsKeep(Next(s, acts[0]), acts[1..], t);
    }
  }

  lemma InitInv(workers: nat, waiters: nat)
    ensures Inv(Init(workers, waiters))
  {
    SumZero(Init(workers, waiters).workers, Busy);
  }

  // ---------- What was handed in, and what was called ----------

  /** The jobs given to `thpool_add_work`, in order. */
  function Given(acts: seq<Action>): seq<Job>
    decreases |acts|
  {
    if acts == [] then [] else GivenBy(acts[0]) + Given(acts[1..])
  }

  function GivenBy(a: Action): seq<Job> { if a.PushAppend? then [a.job] else [] }

  /** The jobs whose routines were called, in the order the calls ended. */
  ghost function Called(s: Pool, acts: seq<Action>, t: Pool): seq<Job>
    requires Runs(s, acts, t)
    decreases |acts|
  {
    if acts == [] then [] else CalledBy(s, acts[0]) + Called(Next(s, acts[0]), acts[1..], t)
  }

  function CalledBy(s: Pool, a: Action): seq<Job>
    requires Can(s, a)
  {
    if a.RunJob? then [s.workers[a.w].job] else []
  }

  lemma {:induction false} PushedIsGiven(s: Pool, acts: seq<Action>, t: Pool)
    requires Runs(s, acts, t)
    ensures t.pushed == s.pushed + Given(acts)
    decreases |acts|
  {
    if acts != [] {
      PushedMore(s, acts[0]);
      PushedIsGiven(Next(s, acts[0]), acts[1..], t);
      Assoc(s.pushed, GivenBy(acts[0]), Given(acts[1..]));
    }
  }

  lemma PushedMore(s: Pool, a: Action)
    requires Can(s, a)
    ensures Next(s, a).pushed == s.pushed + GivenBy(a)
  {
  }

  lemma Assoc(a: seq<Job>, b: seq<Job>, c: seq<Job>)
    ensures (a + b) + c == a + (b + c)
  {
  }

  ghost predicate Below(places: seq<nat>, n: nat) { forall i :: 0 <= i < |places| ==> places[i] < n }

  /** The jobs at some places in the order of arrival. */
  ghost function At(jobs: seq<Job>, places: seq<nat>): seq<Job>
    requires Below(places, |jobs|)
  {
    seq(|places|, i requires 0 <= i < |places| => jobs[places[i]])
  }

  lemma {:induction false} RanIsCalled(s: Pool, acts: seq<Action>, t: Pool)
    requires Inv(s) && Runs(s, acts, t)
    ensures Inv(t) && At(t.pushed, t.ran) == At(s.pushed, s.ran) + Called(s, acts, t)
    decreases |acts|
  {
    if acts != [] {
      StepKeepsInv(s, acts[0]);
      RanMore(s, acts[0]);
      RanIsCalled(Next(s, acts[0]), acts[1..], t);
    }
  }

  lemma RanMore(s: Pool, a: Action)
    requires Inv(s) && Can(s, a)
    ensures var z := Next(s, a);
      Inv(z) && At(z.pushed, z.ran) == At(s.pushed, s.ran) + CalledBy(s, a)
  {
    StepKeepsInv(s, a);
    PushedMore(s, a);
    var z := Next(s, a);
    var was, now := At(s.pushed, s.ran), At(z.pushed, z.ran);
    assert forall i :: 0 <= i < |s.ran| ==> z.ran[i] == s.ran[i] && now[i] == was[i];
  }

  lemma PlaceOf(places: seq<nat>, x: nat) returns (p: nat)
    requires x in places
    ensures p < |places| && places[p] == x
  {
    p :| 0 <= p < |places| && places[p] == x;
  }

  function Without(places: seq<nat>, p: nat): seq<nat>
    requires p < |places|
  {
    places[..p] + places[p + 1..]
  }

  ghost predicate Covering(places: seq<nat>, n: nat) { forall i: nat :: i < n ==> i in places }

  ghost predicate NoneTwice(places: seq<nat>) { forall a, b :: 0 <= a < b < |places| ==> places[a] != places[b] }

  lemma Remove(jobs: seq<Job>, places: seq<nat>, p: nat)
    requires Below(places, |jobs|) && p < |places|
    ensures Below(Without(places, p), |jobs|)
    ensures multiset(At(jobs, places)) == multiset(At(jobs, Without(places, p))) + multiset{jobs[places[p]]}
  {
    var all := At(jobs, places);
    assert At(jobs, Without(places, p)) == all[..p] + all[p + 1..];
    assert all == all[..p] + [all[p]] + all[p + 1..];
  }

  lemma StillCovering(places: seq<nat>, p: nat, n: nat)
    requires n > 0 && p < |places| && places[p] == n - 1 && Covering(places, n)
    ensures Covering(Without(places, p), n - 1)
  {
    forall i: nat | i < n - 1 ensures i in Without(places, p) {
      var j := PlaceOf(places, i);
      assert Without(places, p)[if j < p then j else j - 1] == i;
    }
  }

  lemma StillNoneTwice(places: seq<nat>, p: nat, n: nat)
    requires n > 0 && p < |places| && places[p] == n - 1 && NoneTwice(places) && Below(places, n)
    ensures NoneTwice(Without(places, p)) && Below(Without(places, p), n - 1)
  {
    var rest := Without(places, p);
    forall i | 0 <= i < |rest| ensures rest[i] < n - 1 {
      assert rest[i] == places[if i < p then i else i + 1];
    }
  }

  lemma LastOf(jobs: seq<Job>, n: nat)
    requires 0 < n <= |jobs|
    ensures multiset(jobs[..n]) == multiset(jobs[..n - 1]) + multiset{jobs[n - 1]}
  {
    assert jobs[..n] == jobs[..n - 1] + [jobs[n - 1]];
  }

  /** Where the first `n` places have come up, so have the first `n` jobs. */
  lemma {:induction false} Covers(jobs: seq<Job>, places: seq<nat>, n: nat)
    requires n <= |jobs| && Below(places, |jobs|) && Covering(places, n)
    ensures multiset(jobs[..n]) <= multiset(At(jobs, places))
    decreases n
  {
    if n > 0 {
      var p := PlaceOf(places, n - 1);
      StillCovering(places, p, n);
      Remove(jobs, places, p);
      Covers(jobs, Without(places, p), n - 1);
      LastOf(jobs, n);
    }
  }

  lemma NotBelowZero(places: seq<nat>)
    requires places != []
    ensures !Below(places, 0)
  {
    assert places[0] >= 0;
  }

  /** And where no place has come up twice and no other has, nothing else has. */
  lemma {:induction false} CoversAll(jobs: seq<Job>, places: seq<nat>, n: nat)
    requires n <= |jobs| && Below(places, n) && Covering(places, n) && NoneTwice(places)
    ensures multiset(jobs[..n]) == multiset(At(jobs, places))
    decreases n
  {
    if n > 0 {
      var p := PlaceOf(places, n - 1);
      StillCovering(places, p, n);
      StillNoneTwice(places, p, n);
      Remove(jobs, places, p);
      CoversAll(jobs, Without(places, p), n - 1);
      LastOf(jobs, n);
    } else if places != [] {
      NotBelowZero(places);
    }
  }

  /** For every run: jobs leave in the order they were given to `thpool_add_work`, and every job that
      left is in the hands of exactly one worker or has run, never both and never twice; and the
      routines called are those of the jobs that have run. */
  lemma JobsConserved(workers: nat, waiters: nat, acts: seq<Action>, t: Pool)
    requires Runs(Init(workers, waiters), acts, t)
    ensures t.pushed == Given(acts) && t.pulled <= |t.pushed| && t.pushed == t.pushed[..t.pulled] + t.queue
    ensures Below(t.ran, |t.pushed|) && Called(Init(workers, waiters), acts, t) == At(Given(acts), t.ran)
    ensures forall i :: 0 <= i < |t.pushed| ==> (i < t.pulled <==> i in t.ran || InHand(t, i))
    ensures forall i :: i in t.ran ==> !InHand(t, i)
    ensures forall a, b :: 0 <= a < b < |t.ran| ==> t.ran[a] != t.ran[b]
    ensures forall w, x :: 0 <= w < x < |t.workers| && Held(t.workers[w]) && Held(t.workers[x]) ==>
      t.workers[w].i != t.workers[x].i
  {
    InitInv(workers, waiters);
    RunsKeep(Init(workers, waiters), acts, t);
    PushedIsGiven(Init(workers, waiters), acts, t);
    RanIsCalled(Init(workers, waiters), acts, t);
  }

  // ---------- No job is stranded ----------

  /** A step of the pool itself: no new job, no new call of `thpool_wait`, no needless wakeup. */
  predicate Internal(s: Pool, a: Action) {
    Can(s, a) && !a.PushAppend? && !a.Spurious? && !a.SpuriousWait? && (a.Enter? ==> s.waiters[a.k].Woken?)
  }

  ghost predicate RunsAlone(s: Pool, acts: seq<Action>, t: Pool)
    decreases |acts|
  {
    if acts == [] then s == t else Internal(s, acts[0]) && RunsAlone(Next(s, acts[0]), acts[1..], t)
  }

  function Load(w: Worker): nat {
    match w
    case Asleep => 0
    case Idle => 1
    case Signalled => 1
    case Done => 6
    case Running(_, _) => 7
    case Counted => 8
    case Token => 9
    case Posting(_, _) => 18
  }

  function Steps(k: Waiter): nat {
    match k
    case Woken(_) => 4
    case Reading(_) => 3
    case SawEmpty(_) => 2
    case Going(_) => 1
    case _ => 0
  }

  /** An upper bound on what the pool can still do by itself. */
  ghost function Rank(s: Pool): nat {
    11 * |s.queue| + (if s.v then 9 else 0) + (if s.rw.Pushing? then 11 else 0)
    + Sum(s.workers, Load) + Sum(s.waiters, Steps)
  }

  lemma WakeLoad(ws: seq<Worker>, wake: Option<nat>)
    requires MayWake(ws, wake)
    ensures Sum(Wake(ws, wake), Load) <= Sum(ws, Load) + 1
  {
    if wake.Some? { SumUpdate(ws, Load, wake.value, Signalled); }
  }

  lemma WakeSteps(ks: seq<Waiter>, wake: Option<nat>)
    requires MayWakeWaiter(ks, wake)
    ensures Sum(WakeWaiter(ks, wake), Steps) <= Sum(ks, Steps) + 4
  {
    if wake.Some? { SumUpdate(ks, Steps, wake.value, Woken(ks[wake.value].mark)); }
  }

  lemma WorkerMoves(s: Pool, a: Action)
    requires Internal(s, a) && Moves(a)
    ensures Rank(Next(s, a)) < Rank(s)
  {
    var ws, t := s.workers, Next(s, a);
    assert t.workers == ws[a.w := t.workers[a.w]];
    SumUpdate(ws, Load, a.w, t.workers[a.w]);
    if a.CountOut? && s.working == 1 { WakeSteps(s.waiters, a.wake); }
  }

  lemma PostMoves(s: Pool, a: Action)
    requires Internal(s, a) && (a.PushPost? || a.PullPost?)
    ensures Rank(Next(s, a)) < Rank(s)
  {
    WakeLoad(s.workers, a.wake);
    if a.PullPost? { SumUpdate(Wake(s.workers, a.wake), Load, a.w, Next(s, a).workers[a.w]); }
  }

  lemma RankDrops(s: Pool, a: Action)
    requires Internal(s, a)
    ensures Rank(Next(s, a)) < Rank(s)
  {
    var t := Next(s, a);
    if Moves(a) {
      WorkerMoves(s, a);
    } else if a.PushPost? || a.PullPost? {
      PostMoves(s, a);
    } else {
      assert t.waiters == s.waiters[a.k := t.waiters[a.k]];
      SumUpdate(s.waiters, Steps, a.k, t.waiters[a.k]);
    }
  }

  lemma {:induction false} RunsAloneShort(s: Pool, acts: seq<Action>, t: Pool)
    requires Inv(s) && RunsAlone(s, acts, t)
    ensures Inv(t) && |t.workers| == |s.workers| && t.pushed == s.pushed && |acts| + Rank(t) <= Rank(s)
    decreases |acts|
  {
    if acts != [] {
      StepKeepsInv(s, acts[0]);
      SameThreads(s, acts[0]);
      RankDrops(s, acts[0]);
      RunsAloneShort(Next(s, acts[0]), acts[1..], t);
    }
  }

  ghost predicate Stuck(s: Pool) { forall a :: !Internal(s, a) }

  /** Nothing left to do: queue and hands empty, and each job added has run. */
  ghost predicate Settled(s: Pool) {
    && s.queue == [] && s.working == 0
    && (forall w :: 0 <= w < |s.workers| ==> s.workers[w] == Asleep)
    && AllRan(s, |s.pushed|)
    && (|s.waiters| == 1 ==> s.waiters[0].Out? || s.waiters[0].Gone?)
  }

  lemma SomeWake(ws: seq<Worker>) returns (wake: Option<nat>)
    ensures MayWake(ws, wake)
  {
    if w :| 0 <= w < |ws| && ws[w] == Asleep {
      wake := Some(w);
    } else {
      wake := None;
    }
  }

  lemma SomeWakeWaiter(ks: seq<Waiter>) returns (wake: Option<nat>)
    ensures MayWakeWaiter(ks, wake)
  {
    if k :| 0 <= k < |ks| && ks[k].Sleeping? {
      wake := Some(k);
    } else {
      wake := None;
    }
  }

  lemma StuckUnlocked(s: Pool)
    requires Locks(s) && Stuck(s)
    ensures s.rw == Free && s.lock == None
  {
    var wake := SomeWake(s.workers);
    assert !Internal(s, PushPost(wake));
    assert !Internal(s, PullPost(if s.rw.Pulling? then s.rw.w else 0, wake));
    var k := if s.lock.Some? then s.lock.value else 0;
    assert !Internal(s, ReadLen(k)) && !Internal(s, ReadWorking(k)) && !Internal(s, Sleep(k));
  }

  lemma StuckAsleep(s: Pool, w: nat)
    requires Locks(s) && Stuck(s) && w < |s.workers|
    ensures s.workers[w] == Asleep
  {
    StuckUnlocked(s);
    var wake := SomeWakeWaiter(s.waiters);
    assert !Internal(s, Try(w)) && !Internal(s, CountIn(w)) && !Internal(s, Pull(w)) && !Internal(s, RunJob(w));
    assert !Internal(s, CountOut(w, if s.working == 1 then wake else None));
  }

  lemma StuckIsSettled(s: Pool)
    requires Inv(s) && |s.workers| > 0 && Stuck(s)
    ensures Settled(s)
  {
    StuckUnlocked(s);
    forall w | 0 <= w < |s.workers| ensures s.workers[w] == Asleep { StuckAsleep(s, w); }
    assert s.workers[0] == Asleep;
    SumZero(s.workers, Busy);
    if |s.waiters| == 1 {
      assert !Internal(s, Enter(0));
    }
  }

  lemma {:induction false} AloneRuns(s: Pool, acts: seq<Action>, t: Pool)
    requires RunsAlone(s, acts, t)
    ensures Runs(s, acts, t) && Given(acts) == []
    decreases |acts|
  {
    if acts != [] { AloneRuns(Next(s, acts[0]), acts[1..], t); }
  }

  /** From any moment of any run, with at least one worker: left to itself the pool takes a bounded
      number of steps, and when it can take no more, the routines called are those of the jobs given to
      `thpool_add_work`, each as often as it was given. */
  lemma EveryJobRuns(workers: nat, waiters: nat, before: seq<Action>, s: Pool, acts: seq<Action>, t: Pool)
    requires workers > 0 && Runs(Init(workers, waiters), before, s) && RunsAlone(s, acts, t)
    ensures |acts| <= Rank(s)
    ensures Runs(s, acts, t)
    ensures Stuck(t) ==> Settled(t)
    ensures Stuck(t) ==>
      multiset(Called(Init(workers, waiters), before, s) + Called(s, acts, t)) == multiset(Given(before))
  {
    InitInv(workers, waiters);
    RunsKeep(Init(workers, waiters), before, s);
    RunsAloneShort(s, acts, t);
    AloneRuns(s, acts, t);
    CalledSoFar(Init(workers, waiters), before, s, acts, t);
    if Stuck(t) {
      StuckIsSettled(t);
      CoversAll(t.pushed, t.ran, |t.pushed|);
      assert t.pushed[..|t.pushed|] == t.pushed;
    }
  }

  lemma CalledSoFar(s0: Pool, before: seq<Action>, s: Pool, acts: seq<Action>, t: Pool)
    requires Inv(s0) && s0.pushed == [] && s0.ran == [] && Runs(s0, before, s) && Runs(s, acts, t)
    ensures s.pushed == Given(before) && t.pushed == Given(before) + Given(acts)
    ensures Below(t.ran, |t.pushed|) && At(t.pushed, t.ran) == Called(s0, before, s) + Called(s, acts, t)
  {
    GivenSoFar(s0, before, s);
    PushedIsGiven(s, acts, t);
    RanIsCalled(s0, before, s);
    RanIsCalled(s, acts, t);
    AtNone(s0.pushed, Called(s0, before, s));
  }

  lemma GivenSoFar(s0: Pool, before: seq<Action>, s: Pool)
    requires s0.pushed == [] && Runs(s0, before, s)
    ensures s.pushed == Given(before)
  {
    PushedIsGiven(s0, before, s);
    EmptyFront(Given(before));
  }

  lemma EmptyFront(jobs: seq<Job>)
    ensures [] + jobs == jobs
  {
  }

  lemma AtNone(jobs: seq<Job>, called: seq<Job>)
    ensures At(jobs, []) + called == called
  {
  }

  // ---------- thpool_wait ----------

  predicate Since(k: Waiter, n: nat) { !k.Out? && k.mark >= n }

  lemma {:induction false} MarkKept(s: Pool, acts: seq<Action>, t: Pool, k: nat, n: nat)
    requires Inv(s) && Runs(s, acts, t) && k < |s.waiters| && Since(s.waiters[k], n) && n <= |s.pushed|
    ensures Inv(t) && k < |t.waiters| && Since(t.waiters[k], n)
    decreases |acts|
  {
    if acts != [] {
      StepKeepsInv(s, acts[0]);
      MarkStep(s, acts[0], k, n);
      MarkKept(Next(s, acts[0]), acts[1..], t, k, n);
    }
  }

  lemma MarkStep(s: Pool, a: Action, k: nat, n: nat)
    requires Can(s, a) && k < |s.waiters| && Since(s.waiters[k], n) && n <= |s.pushed|
    ensures var t := Next(s, a); k < |t.waiters| && Since(t.waiters[k], n) && n <= |t.pushed|
  {
  }

  lemma RunsWithFirst(s: Pool, a: Action, acts: seq<Action>, t: Pool)
    requires Can(s, a) && Runs(Next(s, a), acts, t)
    ensures Runs(s, [a] + acts, t)
  {
    assert ([a] + acts)[1..] == acts;
  }

  /** In every run, when a call of `thpool_wait` has returned, the routine of every job given before the
      call has been called, each as often as it was given. */
  lemma WaitIsSound(workers: nat, waiters: nat, before: seq<Action>, s: Pool, k: nat, acts: seq<Action>, t: Pool)
    requires Runs(Init(workers, waiters), before, s) && Can(s, Enter(k)) && !s.waiters[k].Woken?
    requires Runs(Next(s, Enter(k)), acts, t) && k < |t.waiters| && t.waiters[k].Gone?
    ensures Runs(s, [Enter(k)] + acts, t)
    ensures multiset(Given(before)) <=
      multiset(Called(Init(workers, waiters), before, s) + Called(s, [Enter(k)] + acts, t))
  {
    InitInv(workers, waiters);
    RunsKeep(Init(workers, waiters), before, s);
    RanSince(s, k, acts, t);
    RunsWithFirst(s, Enter(k), acts, t);
    CalledSoFar(Init(workers, waiters), before, s, [Enter(k)] + acts, t);
    Covers(t.pushed, t.ran, |s.pushed|);
    assert t.pushed[..|s.pushed|] == Given(before);
  }

  lemma RanSince(s: Pool, k: nat, acts: seq<Action>, t: Pool)
    requires Inv(s) && Can(s, Enter(k)) && !s.waiters[k].Woken?
    requires Runs(Next(s, Enter(k)), acts, t) && k < |t.waiters| && t.waiters[k].Gone?
    ensures Covering(t.ran, |s.pushed|)
  {
    StepKeepsInv(s, Enter(k));
    MarkKept(Next(s, Enter(k)), acts, t, k, |s.pushed|);
  }

  /** Nothing queued, nobody working, no post to come. */
  ghost predicate Dry(s: Pool) {
    && s.queue == [] && s.rw == Free && !s.v && s.working == 0
    && forall w :: 0 <= w < |s.workers| ==> s.workers[w] in {Idle, Asleep, Signalled}
  }

  /** A waiter left asleep on a dry pool stays asleep until somebody adds work again. */
  lemma LeftAsleep(s: Pool, a: Action, k: nat)
    requires Dry(s) && Can(s, a) && !a.PushAppend? && !a.SpuriousWait?
    requires k < |s.waiters| && s.waiters[k].Sleeping?
    ensures Dry(Next(s, a)) && Next(s, a).waiters[k] == s.waiters[k]
  {
  }

  ghost predicate MissesWakeup(workers: nat, waiters: nat) {
    exists acts: seq<Action>, t: Pool, k: nat ::
      Runs(Init(workers, waiters), acts, t) && Dry(t) && k < |t.waiters| && t.waiters[k].Sleeping?
  }

  lemma {:induction false} RunsOn(s: Pool, acts: seq<Action>, t: Pool, a: Action)
    requires Runs(s, acts, t) && Can(t, a)
    ensures Runs(s, acts + [a], Next(t, a))
    decreases |acts|
  {
    if acts != [] {
      RunsOn(Next(s, acts[0]), acts[1..], t, a);
      assert (acts + [a])[1..] == acts[1..] + [a];
    } else {
      assert (acts + [a])[1..] == [];
    }
  }

  /** Somebody asleep in `thpool_wait` can be left there for good if and only if there are two of
      them: the signal goes to one only. */
  lemma MissesWakeupExactly(workers: nat, waiters: nat)
    requires workers > 0
    ensures MissesWakeup(workers, waiters) <==> waiters >= 2
  {
    if waiters >= 2 {
      TwoWaiters(workers, waiters);
    } else if MissesWakeup(workers, waiters) {
      var acts: seq<Action>, t: Pool, k: nat :|
        Runs(Init(workers, waiters), acts, t) && Dry(t) && k < |t.waiters| && t.waiters[k].Sleeping?;
      InitInv(workers, waiters);
      RunsKeep(Init(workers, waiters), acts, t);
    }
  }

  lemma Extend(s: Pool, acts: seq<Action>, t: Pool, a: Action) returns (more: seq<Action>, u: Pool)
    requires Runs(s, acts, t) && Can(t, a)
    ensures Runs(s, more, u) && u == Next(t, a)
  {
    RunsOn(s, acts, t, a);
    more, u := acts + [a], Next(t, a);
  }

  /** One job, two waiters that see it queued, and one worker that runs it. */
  lemma TwoWaiters(workers: nat, waiters: nat)
    requires workers > 0 && waiters >= 2
    ensures MissesWakeup(workers, waiters)
  {
    var s0 := Init(workers, waiters);
    var acts: seq<Action>, t := [], s0;
    acts, t := Extend(s0, acts, t, PushAppend(Job(0, 0)));
    acts, t := Extend(s0, acts, t, PushPost(None));
    acts, t := AsleepOn(s0, acts, t, 0);
    acts, t := AsleepOn(s0, acts, t, 1);
    acts, t := ServeOne(s0, acts, t);
    assert Dry(t) && t.waiters[1].Sleeping?;
  }

  /** Worker 0 runs the only job and wakes waiter 0. */
  lemma ServeOne(s: Pool, acts: seq<Action>, t: Pool) returns (more: seq<Action>, u: Pool)
    requires Runs(s, acts, t) && |t.queue| == 1 && t.rw == Free && t.v && t.working == 0 && t.lock == None
    requires |t.workers| > 0 && forall w :: 0 <= w < |t.workers| ==> t.workers[w] == Idle
    requires |t.waiters| > 0 && t.waiters[0].Sleeping?
    ensures Runs(s, more, u) && Dry(u) && u.waiters == t.waiters[0 := Woken(t.waiters[0].mark)]
  {
    more, u := Extend(s, acts, t, Try(0));
    more, u := Extend(s, more, u, CountIn(0));
    more, u := Extend(s, more, u, Pull(0));
    more, u := Extend(s, more, u, RunJob(0));
    more, u := Extend(s, more, u, CountOut(0, Some(0)));
  }

  /** A waiter that enters while a job is queued goes to sleep. */
  lemma AsleepOn(s: Pool, acts: seq<Action>, t: Pool, k: nat) returns (more: seq<Action>, u: Pool)
    requires Runs(s, acts, t) && k < |t.waiters| && t.waiters[k].Out? && t.lock == None && t.queue != []
    ensures Runs(s, more, u) && u == t.(waiters := t.waiters[k := Sleeping(|t.pushed|)])
  {
    more, u := Extend(s, acts, t, Enter(k));
    more, u := Extend(s, more, u, ReadLen(k));
    more, u := Extend(s, more, u, Sleep(k));
  }
}
