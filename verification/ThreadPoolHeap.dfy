/** The code of src/thpool.c: the linked job queue, changed in place, and each critical section of the
    pool, proved to take one step of the machine in `ThreadPool`. */
module ThreadPoolHeap {
  import opened Common
  import opened Threads
  import opened ThreadPool

  /** `struct job`: `prev` is the job behind this one. */
  class JobNode {
    const job: Job
    var prev: JobNode?

    constructor (job: Job)
      ensures this.job == job && prev == null
    {
      this.job := job;
      prev := null;
    }
  }

  ghost function JobsOf(nodes: seq<JobNode>): seq<Job> { seq(|nodes|, i requires 0 <= i < |nodes| => nodes[i].job) }

  class JobQueue {
    var front: JobNode?
    var rear: JobNode?
    var len: nat
    var hasJobs: bool   // the value of the semaphore has_jobs
    ghost var nodes: seq<JobNode>

    ghost predicate Valid()
      reads this, nodes
    {
      && len == |nodes|
      && (len == 0 ==> front == null && rear == null)
      && (len > 0 ==> front == nodes[0] && rear == nodes[len - 1] && nodes[len - 1].prev == null)
      && (forall i :: 0 <= i < len - 1 ==> nodes[i].prev == nodes[i + 1])
      && (forall i, j :: 0 <= i < j < len ==> nodes[i] != nodes[j])
    }

    ghost function Contents(): seq<Job>
      reads this
    {
      JobsOf(nodes)
    }

    constructor ()
      ensures Valid() && nodes == [] && !hasJobs
    {
      front, rear, len, hasJobs, nodes := null, null, 0, false, [];
    }

    /** `jobqueue_push` up to its call of `bsem_post`. */
    method Push(newjob: JobNode)
      requires Valid() && newjob !in nodes
      modifies this, newjob`prev, nodes
      ensures Valid() && nodes == old(nodes) + [newjob] && hasJobs == old(hasJobs)
      ensures Contents() == old(Contents()) + [newjob.job]
    {
      newjob.prev := null;
      if len == 0 {
        front := newjob;
        rear := newjob;
      } else {
        rear.prev := newjob;
        rear := newjob;
      }
      len := len + 1;
      nodes := nodes + [newjob];
    }

    /** `jobqueue_pull` up to its call of `bsem_post`; `more` says whether that call follows. */
    method Pull() returns (job: JobNode?, more: bool)
      requires Valid()
      modifies this
      ensures Valid() && hasJobs == old(hasJobs)
      ensures old(nodes) == [] ==> job == null && nodes == [] && !more
      ensures old(nodes) != [] ==>
        (job == old(nodes)[0] && nodes == old(nodes)[1..] && more == (nodes != [])
         && Contents() == old(Contents())[1..] && job.job == old(Contents())[0])
    {
      job := front;
      more := false;
      if len == 0 {
      } else if len == 1 {
        front := null;
        rear := null;
        len := 0;
        nodes := nodes[1..];
      } else {
        front := job.prev;
        len := len - 1;
        more := true;
        nodes := nodes[1..];
      }
    }

    /** `jobqueue_clear` */
    method Clear()
      requires Valid()
      modifies this
      ensures Valid() && Contents() == [] && !hasJobs
    {
      while len > 0
        invariant Valid()
        decreases len
      {
        var _, _ := Pull();
      }
      front := null;
      rear := null;
      hasJobs := false;
      len := 0;
    }
  }

  /** `thpool_`. Where each thread is, and the history, are kept in `state`. */
  class ThPool {
    const jobqueue: JobQueue
    var numThreadsWorking: int
    ghost var state: Pool

    ghost predicate Valid()
      reads this, jobqueue, jobqueue.nodes
    {
      && jobqueue.Valid() && jobqueue.Contents() == state.queue
      && jobqueue.hasJobs == state.v && numThreadsWorking == state.working
      && Inv(state)
    }

    constructor (ghost workers: nat, ghost waiters: nat)
      ensures Valid() && state == Init(workers, waiters) && fresh(jobqueue)
    {
      var q := new JobQueue();
      jobqueue := q;
      numThreadsWorking := 0;
      state := Init(workers, waiters);
      new;
      InitInv(workers, waiters);
    }

    /** `thpool_add_work` up to its post. */
    method AddWork(newjob: JobNode)
      requires Valid() && newjob !in jobqueue.nodes && Can(state, PushAppend(newjob.job))
      modifies this`state, jobqueue, newjob`prev, jobqueue.nodes
      ensures Valid() && state == Next(old(state), PushAppend(newjob.job))
    {
      StepKeepsInv(state, PushAppend(newjob.job));
      jobqueue.Push(newjob);
      state := Next(state, PushAppend(newjob.job));
    }

    /** `bsem_post`, by whoever has just changed the queue. */
    method Post(ghost a: Action)
      requires Valid() && (a.PushPost? || a.PullPost?) && Can(state, a)
      modifies this`state, jobqueue`hasJobs
      ensures Valid() && state == Next(old(state), a)
    {
      StepKeepsInv(state, a);
      jobqueue.hasJobs := true;
      state := Next(state, a);
    }

    /** One pass of `bsem_wait`: takes the token, or goes to sleep. */
    method TryToken(ghost w: nat) returns (taken: bool)
      requires Valid() && Can(state, Try(w))
      modifies this`state, jobqueue`hasJobs
      ensures Valid() && state == Next(old(state), Try(w)) && (taken <==> state.workers[w] == Token)
    {
      StepKeepsInv(state, Try(w));
      taken := jobqueue.hasJobs;
      if taken {
        jobqueue.hasJobs := false;
      }
      state := Next(state, Try(w));
    }

    method StartWorking(ghost w: nat)
      requires Valid() && Can(state, CountIn(w))
      modifies this
      ensures Valid() && state == Next(old(state), CountIn(w))
    {
      StepKeepsInv(state, CountIn(w));
      numThreadsWorking := numThreadsWorking + 1;
      state := Next(state, CountIn(w));
    }

    /** A worker pulls; it runs what it gets, after a post if more are left. */
    method PullJob(ghost w: nat) returns (job: JobNode?, post: bool)
      requires Valid() && Can(state, ThreadPool.Pull(w))
      modifies this, jobqueue
      ensures Valid() && state == Next(old(state), ThreadPool.Pull(w))
      ensures job == null <==> state.workers[w] == Done
      ensures job != null ==> Held(state.workers[w]) && state.workers[w].job == job.job
      ensures post <==> state.workers[w].Posting?
    {
      StepKeepsInv(state, ThreadPool.Pull(w));
      job, post := jobqueue.Pull();
      state := Next(state, ThreadPool.Pull(w));
    }

    /** The end of a round; `signal` says whether `threads_all_idle` is signalled. */
    method StopWorking(ghost w: nat, ghost wake: Option<nat>) returns (signal: bool)
      requires Valid() && Can(state, CountOut(w, wake))
      modifies this
      ensures Valid() && state == Next(old(state), CountOut(w, wake))
      ensures signal <==> old(state.working) == 1
    {
      StepKeepsInv(state, CountOut(w, wake));
      numThreadsWorking := numThreadsWorking - 1;
      signal := numThreadsWorking == 0;
      state := Next(state, CountOut(w, wake));
    }

    /** The test of the loop in `thpool_wait`: length first, then the working threads. */
    method LenIsZero(ghost k: nat) returns (zero: bool)
      requires Valid() && Can(state, ReadLen(k))
      modifies this`state
      ensures Valid() && state == Next(old(state), ReadLen(k)) && (zero <==> state.waiters[k].SawEmpty?)
    {
      StepKeepsInv(state, ReadLen(k));
      zero := jobqueue.len == 0;
      state := Next(state, ReadLen(k));
    }

    method NobodyWorks(ghost k: nat) returns (leave: bool)
      requires Valid() && Can(state, ReadWorking(k))
      modifies this`state
      ensures Valid() && state == Next(old(state), ReadWorking(k)) && (leave <==> state.waiters[k].Gone?)
    {
      StepKeepsInv(state, ReadWorking(k));
      leave := numThreadsWorking == 0;
      state := Next(state, ReadWorking(k));
    }
  }
}
