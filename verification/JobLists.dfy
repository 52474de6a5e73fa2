/** The linked lists of the worker pool and the stretches of `network/nw_job.c` that change them. */
module JobLists {
  import opened JobPool

  /** `nw_job_entry`. */
  class Entry {
    const job: Job
    var next: Entry?
    var prev: Entry?

    constructor (job: Job)
      ensures this.job == job
    {
      this.job, next, prev := job, null, null;
    }
  }

  /** A doubly linked list with a counter, as the request list and the reply list are. */
  class JobList {
    var head: Entry?
    var tail: Entry?
    var count: int
    ghost var spine: seq<Entry>

    ghost predicate Valid()
      reads this, spine
    {
      && count == |spine|
      && (if spine == [] then head == null && tail == null
          else head == spine[0] && tail == spine[|spine| - 1] && head.prev == null && tail.next == null)
      && (forall i :: 0 <= i < |spine| - 1 ==> spine[i].next == spine[i + 1])
      && (forall i :: 0 < i < |spine| ==> spine[i].prev == spine[i - 1])
      && (forall i, j :: 0 <= i < j < |spine| ==> spine[i] != spine[j])
    }

    constructor ()
      ensures Valid() && spine == []
    {
      head, tail, count, spine := null, null, 0, [];
    }

    lemma Counted()
      requires Valid()
      ensures count == |spine|
    {
    }

    method Append(entry: Entry)
      requires Valid() && entry !in spine
      modifies this, spine, entry
      ensures Valid() && spine == old(spine) + [entry] && count == old(count) + 1
    {
      if tail != null {
        entry.prev, entry.next := tail, null;
        tail.next := entry;
        tail := entry;
      } else {
        entry.prev, entry.next := null, null;
        head, tail := entry, entry;
      }
      count := count + 1;
      spine := spine + [entry];
    }

    method TakeHead() returns (entry: Entry)
      requires Valid() && spine != []
      modifies this, spine
      ensures Valid() && entry == old(spine[0]) && spine == old(spine[1..]) && count == old(count) - 1
      ensures entry !in spine
    {
      entry := head;
      assert |spine| > 1 ==> entry.next == spine[1];
      head := entry.next;
      if head != null {
        assert |spine| > 1;
        head.prev := null;
      } else {
        tail := null;
      }
      count := count - 1;
      spine := spine[1..];
    }
  }

  function Jobs(entries: seq<Entry>): (jobs: seq<Job>)
    ensures |jobs| == |entries| && forall i :: 0 <= i < |jobs| ==> jobs[i] == entries[i].job
  {
    seq(|entries|, i requires 0 <= i < |entries| => entries[i].job)
  }

  /** `nw_job`. Each method is what one thread does between taking and leaving the lock, or to the pipe; `pool` is
    the state of the step system and `out` the entry that each worker is at. */
  class NwJob {
    const request: JobList
    const reply: JobList
    const capacity: nat
    var pipe: nat
    ghost var pool: Pool
    ghost var out: map<nat, Entry>

    ghost predicate Valid()
      reads this, request, request.spine, reply, reply.spine
    {
      && request != reply && request.Valid() && reply.Valid()
      && Jobs(request.spine) == pool.request && request.count == pool.requestCount
      && Jobs(reply.spine) == pool.reply && reply.count == pool.replyCount
      && pipe == pool.pipe
      && (forall i, j :: 0 <= i < |request.spine| && 0 <= j < |reply.spine| ==> request.spine[i] != reply.spine[j])
      && (forall w: nat :: w in out <==> w < |pool.workers| && pool.workers[w].Running?)
      && (forall w :: w in out ==>
            out[w].job == pool.workers[w].job && out[w] !in request.spine && out[w] !in reply.spine)
      && (forall v, w :: v in out && w in out && v != w ==> out[v] != out[w])
    }

    constructor (threads: nat, capacity: nat)
      ensures Valid() && fresh(request) && fresh(reply) && this.capacity == capacity && pool == Start(threads)
    {
      request := new JobList();
      reply := new JobList();
      this.capacity, pipe, pool, out := capacity, 0, Start(threads), map[];
    }

    /** `nw_job_add`; `woken` are the threads that the signal wakes. */
    method Add(job: Job, ghost woken: set<nat>)
      requires Valid() && job == pool.added && Enabled(pool, JobPool.Add(woken))
      modifies this, request, request.spine
      ensures Valid() && pool == Next(old(pool), JobPool.Add(woken), capacity)
    {
      hide JobList.Valid;
      var entry := new Entry(job);
      request.Append(entry);
      assert Jobs(request.spine) == pool.request + [job];
      pool := Next(pool, JobPool.Add(woken), capacity);
    }

    /** Worker `w` has the lock and looks at the request list: no entry means that it goes to wait. */
    method Look(ghost w: nat) returns (entry: Entry?)
      requires Valid() && Enabled(pool, JobPool.Look(w))
      modifies this, request, request.spine
      ensures Valid() && pool == Next(old(pool), JobPool.Look(w), capacity)
      ensures entry == if pool.workers[w] == Waiting then null else out[w]
    {
      hide JobList.Valid;
      request.Counted();
      entry := null;
      if request.count != 0 {
        entry := request.TakeHead();
        assert Jobs(request.spine) == pool.request[1..];
        out := out[w := entry];
      }
      pool := Next(pool, JobPool.Look(w), capacity);
    }

    /** Worker `w` has the lock again after its job. */
    method Done(ghost w: nat, entry: Entry)
      requires Valid() && Enabled(pool, JobPool.Done(w)) && out[w] == entry
      modifies this, reply, reply.spine, entry
      ensures Valid() && pool == Next(old(pool), JobPool.Done(w), capacity)
    {
      hide JobList.Valid;
      reply.Append(entry);
      assert Jobs(reply.spine) == pool.reply + [entry.job];
      out := map v | v in out && v != w :: out[v];
      pool := Next(pool, JobPool.Done(w), capacity);
    }

    /** Worker `w` writes to the pipe, which may be full. */
    method Write(ghost w: nat)
      requires Valid() && Enabled(pool, JobPool.Write(w))
      modifies this
      ensures Valid() && pool == Next(old(pool), JobPool.Write(w), capacity)
    {
      hide JobList.Valid;
      if pipe < capacity { pipe := pipe + 1; }
      pool := Next(pool, JobPool.Write(w), capacity);
    }

    /** The first loop of `on_can_read`, turn by turn: one byte, or a failure that ends the loop. */
    method Read(fails: bool) returns (ret: int)
      requires Valid() && Enabled(pool, JobPool.Read(fails))
      modifies this
      ensures Valid() && pool == Next(old(pool), JobPool.Read(fails), capacity)
      ensures ret < 0 <==> pool.main == Draining
    {
      hide JobList.Valid;
      if pipe == 0 || fails {
        ret := -1;
      } else {
        ret, pipe := 1, pipe - 1;
      }
      pool := Next(pool, JobPool.Read(fails), capacity);
    }

    /** The second loop of `on_can_read`, under the lock: the next reply, or none, which ends the loop. */
    method Pop() returns (entry: Entry?)
      requires Valid() && Enabled(pool, JobPool.Pop)
      modifies this, reply, reply.spine
      ensures Valid() && pool == Next(old(pool), JobPool.Pop, capacity)
      ensures entry == null <==> pool.main == Idle
      ensures entry != null ==> pool.main == Finishing(entry.job)
    {
      hide JobList.Valid;
      reply.Counted();
      entry := null;
      if reply.count != 0 {
        entry := reply.TakeHead();
        assert Jobs(reply.spine) == pool.reply[1..];
      }
      pool := Next(pool, JobPool.Pop, capacity);
    }
  }
}