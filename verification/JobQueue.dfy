/** The job queue of import/thpool.c: a singly linked list through the `prev` links of the jobs, with
    a front, a rear and a counter. */
module JobQueue {

  class Job {
    var prev: Job?
    /** Identifies the submission: function, argument and priority are not interpreted. */
    const id: nat

    constructor (id: nat)
      ensures this.id == id && prev == null
    {
      this.id := id;
      prev := null;
    }
  }

  class Queue {
    var front: Job?
    var rear: Job?
    var len: int
    ghost var jobs: seq<Job>

    /** `front`, the `prev` links, `rear` and `len` represent exactly the sequence `jobs`. */
    ghost predicate Valid()
      reads this, jobs
    {
      && len == |jobs|
      && (jobs == [] ==> front == null && rear == null)
      && (jobs != [] ==> front == jobs[0] && rear == jobs[|jobs| - 1] && jobs[|jobs| - 1].prev == null)
      && (forall i :: 0 <= i < |jobs| - 1 ==> jobs[i].prev == jobs[i + 1])
      && (forall i, j :: 0 <= i < j < |jobs| ==> jobs[i] != jobs[j])
    }

    constructor ()
      ensures Valid() && jobs == []
    {
      front := null;
      rear := null;
      len := 0;
      jobs := [];
    }

    method Push(newJob: Job)
      requires Valid() && newJob !in jobs
      modifies this, newJob, jobs
      ensures Valid() && jobs == old(jobs) + [newJob]
      ensures forall j <- old(jobs) :: j != old(rear) ==> j.prev == old(j.prev)
    {
      newJob.prev := null;
      if len == 0 {
        front := newJob;
        rear := newJob;
      } else {
        rear.prev := newJob;
        rear := newJob;
      }
      len := len + 1;
      jobs := jobs + [newJob];
    }

    /** Removes the front job; an empty queue yields no job and is left alone.  `post` tells whether
        the semaphore has to be posted again. */
    method Pull() returns (job: Job?, post: bool)
      requires Valid()
      modifies this
      ensures Valid()
      ensures old(jobs) == [] ==> job == null && jobs == []
      ensures old(jobs) != [] ==> job == old(jobs)[0] && jobs == old(jobs)[1..]
      ensures post <==> jobs != []
    {
      job := front;
      post := false;
      if len == 0 {
      } else if len == 1 {
        front := null;
        rear := null;
        len := 0;
        jobs := [];
      } else {
        front := job.prev;
        len := len - 1;
        jobs := jobs[1..];
        post := true;
      }
    }

    /** Pulls until the counter is zero; the jobs are returned in the order they are freed. */
    method Clear() returns (ghost freed: seq<Job>)
      requires Valid()
      modifies this
      ensures Valid() && jobs == [] && freed == old(jobs)
    {
      freed := [];
      while len != 0
        invariant Valid() && freed + jobs == old(jobs)
        decreases |jobs|
      {
        var job, post := Pull();
        freed := freed + [job];
      }
      front := null;
      rear := null;
      len := 0;
    }
  }
}
