/** The thread pool of threadpool.rs: a channel of messages shared by a fixed
    number of workers. A message is a job (`Some(job)`) or the shutdown sentinel
    (`None`). Each worker loops: it takes the message at the front of the
    channel, runs the job, or leaves the loop on the sentinel.

    A job's effect is not modelled: running a job appends it to the log `ran`.
    Workers are anonymous here: every worker takes the front message, so the
    order of `ran` is the order of the channel whichever worker takes which job. */
module ThreadPools {

  datatype Msg<J> = Job(job: J) | Shutdown

  /** The jobs of a sequence of messages, in order. */
  function Jobs<J>(q: seq<Msg<J>>): seq<J>
  {
    if q == [] then []
    else (if q[0].Job? then [q[0].job] else []) + Jobs(q[1..])
  }

  /** The number of sentinels in a sequence of messages. */
  function Sentinels<J>(q: seq<Msg<J>>): nat
  {
    if q == [] then 0
    else (if q[0].Shutdown? then 1 else 0) + Sentinels(q[1..])
  }

  /** No job follows a sentinel. */
  ghost predicate SentinelsLast<J>(q: seq<Msg<J>>)
  {
    forall i, j :: 0 <= i < j < |q| && q[i].Shutdown? ==> q[j].Shutdown?
  }

  lemma {:induction false} JobsAppend<J>(a: seq<Msg<J>>, b: seq<Msg<J>>)
    ensures Jobs(a + b) == Jobs(a) + Jobs(b)
  {
    if a == [] {
      assert a + b == b;
    } else {
      assert (a + b)[0] == a[0] && (a + b)[1..] == a[1..] + b;
      JobsAppend(a[1..], b);
    }
  }

  lemma {:induction false} SentinelsAppend<J>(a: seq<Msg<J>>, b: seq<Msg<J>>)
    ensures Sentinels(a + b) == Sentinels(a) + Sentinels(b)
  {
    if a == [] {
      assert a + b == b;
    } else {
      assert (a + b)[0] == a[0] && (a + b)[1..] == a[1..] + b;
      SentinelsAppend(a[1..], b);
    }
  }

  /** A channel holding jobs only has no sentinel, and one job per message. */
  lemma {:induction false} OnlyJobs<J>(q: seq<Msg<J>>)
    requires forall i :: 0 <= i < |q| ==> q[i].Job?
    ensures Sentinels(q) == 0 && |Jobs(q)| == |q|
  {
    if q != [] {
      OnlyJobs(q[1..]);
    }
  }

  /** In a sequence of sentinels only, every message counts as a sentinel. */
  lemma {:induction false} OnlySentinelsCounted<J>(q: seq<Msg<J>>)
    requires forall i :: 0 <= i < |q| ==> q[i].Shutdown?
    ensures Sentinels(q) == |q|
  {
    if q != [] {
      OnlySentinelsCounted(q[1..]);
    }
  }

  /** The channel while `drop` joins its `n` workers, of which `live` are still
      in their loop: one sentinel per live worker, all sentinels behind the jobs,
      no job left once some worker has left its loop, and every submitted job
      either run or still queued, in order. */
  ghost predicate Draining<J>(queue: seq<Msg<J>>, ran: seq<J>, submitted: seq<J>, live: nat, n: nat)
  {
    && ran + Jobs(queue) == submitted
    && Sentinels(queue) == live <= n
    && SentinelsLast(queue)
    && (live < n ==> forall i :: 0 <= i < |queue| ==> queue[i].Shutdown?)
  }

  /** A worker's turn while draining keeps the channel draining: a job is
      taken only while no worker has left, and a sentinel is taken only when no
      job is left. */
  lemma DrainingReceive<J>(queue: seq<Msg<J>>, ran: seq<J>, submitted: seq<J>, live: nat, n: nat)
    requires Draining(queue, ran, submitted, live, n) && live > 0
    ensures queue != []
    ensures queue[0].Job? ==> Draining(queue[1..], ran + [queue[0].job], submitted, live, n) && live == n
    ensures queue[0].Shutdown? ==> Draining(queue[1..], ran, submitted, live - 1, n)
  {
    assert queue != [];
    var q := queue[1..];
    if queue[0].Shutdown? {
      assert forall i :: 0 <= i < |q| ==> q[i] == queue[i + 1];
    }
  }

  class ThreadPool<J> {
    /** The number of workers `new` was given. */
    ghost const size: nat
    /** The messages sent and not yet received, front first. */
    var queue: seq<Msg<J>>
    /** The join handles of the workers, as worker numbers. */
    var workers: seq<nat>
    /** How many workers are still in their receive loop. */
    var live: nat
    /** The jobs workers have taken and run, in the order they took them. */
    var ran: seq<J>
    /** Every job passed to `execute`, in order. */
    ghost var submitted: seq<J>

    /** The state between calls: every worker is in its loop, the channel holds
        jobs only, and every submitted job has either run or is still queued, in
        submission order. */
    ghost predicate Valid()
      reads this
    {
      && live == |workers|
      && (forall i :: 0 <= i < |queue| ==> queue[i].Job?)
      && ran + Jobs(queue) == submitted
    }

    /** `ThreadPool::new(n)`: n workers, all receiving from one empty channel. */
    constructor (n: nat)
      ensures Valid()
      ensures size == n && |workers| == n && live == n
      ensures queue == [] && ran == [] && submitted == []
    {
      var handles: seq<nat> := [];
      for w := 0 to n
        invariant |handles| == w
      {
        handles := handles + [w];
      }
      size := n;
      queue, workers, live, ran, submitted := [], handles, n, [], [];
    }

    /** `execute`: the job goes to the back of the channel; the caller does not
        wait for a worker. */
    method Execute(job: J)
      requires Valid()
      modifies this
      ensures Valid()
      ensures queue == old(queue) + [Job(job)] && submitted == old(submitted) + [job]
      ensures workers == old(workers) && live == old(live) && ran == old(ran)
    {
      JobsAppend(queue, [Job(job)]);
      queue := queue + [Job(job)];
      submitted := submitted + [job];
    }

    /** One turn of a worker's loop: take the front message; run a job (it is
        consumed, so it runs once), or leave the loop on a sentinel. A worker
        blocks on an empty channel, hence the precondition. */
    method Receive()
      requires live > 0 && queue != []
      modifies this
      ensures queue == old(queue)[1..] && workers == old(workers) && submitted == old(submitted)
      ensures old(queue)[0].Job? ==> ran == old(ran) + [old(queue)[0].job] && live == old(live)
      ensures old(queue)[0].Shutdown? ==> ran == old(ran) && live == old(live) - 1
      ensures old(Valid()) ==> Valid()
    {
      var message := queue[0];
      queue := queue[1..];
      match message {
        case Job(job) => ran := ran + [job];
        case Shutdown => live := live - 1;
      }
    }

    /** `drop`: one sentinel per worker, after every job already sent; then each
        handle is popped and joined. Joining a worker is modelled as that worker
        receiving until it takes a sentinel. With at least one worker, every job
        ever submitted has run exactly once, in submission order, when `drop` returns. */
    method Drop()
      requires Valid()
      modifies this
      ensures Valid()
      ensures workers == [] && live == 0 && submitted == old(submitted)
      ensures |old(workers)| > 0 ==> queue == [] && ran == submitted
      ensures |old(workers)| == 0 ==> queue == old(queue) && ran == old(ran)
    {
      var n := |workers|;
      OnlyJobs(queue);
      for i := 0 to n
        invariant ran + Jobs(queue) == submitted
        invariant Sentinels(queue) == i && SentinelsLast(queue)
        invariant queue == old(queue) + seq(i, _ => Shutdown)
        invariant live == |workers| == n && ran == old(ran) && workers == old(workers)
        invariant submitted == old(submitted)
      {
        JobsAppend(queue, [Shutdown]);
        SentinelsAppend(queue, [Shutdown]);
        queue := queue + [Shutdown];
      }
      assert Draining(queue, ran, submitted, live, n);
      while |workers| > 0
        invariant Draining(queue, ran, submitted, live, n) && live == |workers|
        invariant n == 0 ==> queue == old(queue) && ran == old(ran)
        invariant submitted == old(submitted)
      {
        workers := workers[..|workers| - 1];
        var before := live;
        ghost var joining := workers;
        while live == before
          invariant Draining(queue, ran, submitted, live, n) && submitted == old(submitted)
          invariant live == before || live == before - 1
          invariant workers == joining
          decreases |queue|
        {
          DrainingReceive(queue, ran, submitted, live, n);
          Receive();
        }
      }
      if n > 0 {
        OnlySentinelsCounted(queue);
      }
    }
  }
}
