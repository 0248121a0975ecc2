/** The admission counters of the thread-per-task strategy (multi.rs): one total
    counter, one counter of feed tasks and one counter per site, each with a
    ceiling. This module gives their values and transitions as functions, and
    schedules of acquisitions and releases as traces; the class that holds the
    counters is `Multi.ThreadCount`.

    A wait loop `while *count > MAX - 1 { wait }` becomes the precondition of
    an acquisition: in a trace, an acquisition happens only once its wait is over. */
module Gate {
  import opened Common

  const MAX_THREADS_FEEDS: nat := 5
  const MAX_THREADS_SITES: nat := 10
  const MAX_THREADS_TOTAL: nat := 18

  /** One counter: the total, the feed counter, or the counter of one site. */
  datatype Slot = Total | Feeds | Site(host: string)

  /** The values of all counters. A site that never acquired has no entry. */
  datatype Counters = Counters(total: nat, feeds: nat, sites: map<string, nat>)

  /** The counters as `process_feed_file` creates them. */
  const IDLE := Counters(0, 0, map[])

  /** The value of the counter of `s`; a site without an entry counts 0, as
      `entry(..).or_insert(0)` reads it. */
  function Count(c: Counters, s: Slot): nat
  {
    match s
    case Total => c.total
    case Feeds => c.feeds
    case Site(h) => if h in c.sites then c.sites[h] else 0
  }

  function Ceiling(s: Slot): nat
  {
    match s
    case Total => MAX_THREADS_TOTAL
    case Feeds => MAX_THREADS_FEEDS
    case Site(_) => MAX_THREADS_SITES
  }

  /** The guard of the wait loops: `count > MAX - 1`. */
  predicate MustWait(c: Counters, s: Slot)
  {
    Count(c, s) > Ceiling(s) - 1
  }

  ghost predicate WithinCeilings(c: Counters)
  {
    forall s :: Count(c, s) <= Ceiling(s)
  }

  /** Acquiring `s` once its wait is over: only that counter goes up, by one,
      and stays within its ceiling; a site gets its entry if it had none. */
  function Acquire(c: Counters, s: Slot): (r: Counters)
    requires !MustWait(c, s)
    ensures Count(r, s) == Count(c, s) + 1 <= Ceiling(s)
    ensures forall o :: o != s ==> Count(r, o) == Count(c, o)
    ensures r.sites.Keys == if s.Site? then c.sites.Keys + {s.host} else c.sites.Keys
  {
    match s
    case Total => c.(total := c.total + 1)
    case Feeds => c.(feeds := c.feeds + 1)
    case Site(h) => c.(sites := c.sites[h := Count(c, s) + 1])
  }

  /** Releasing `s`: only that counter goes down, by one. A site keeps its entry. */
  function Release(c: Counters, s: Slot): (r: Counters)
    requires Count(c, s) > 0
    ensures Count(r, s) == Count(c, s) - 1
    ensures forall o :: o != s ==> Count(r, o) == Count(c, o)
    ensures r.sites.Keys == c.sites.Keys
  {
    match s
    case Total => c.(total := c.total - 1)
    case Feeds => c.(feeds := c.feeds - 1)
    case Site(h) => c.(sites := c.sites[h := c.sites[h] - 1])
  }

  // ---------------------------------------------------------------------------
  // Schedules

  datatype Event = Acq(slot: Slot) | Rel(slot: Slot)

  /** One event, or `None` when it cannot happen: an acquisition whose wait is
      not over, or a release of a counter that is 0. */
  function Apply(c: Counters, e: Event): Option<Counters>
  {
    match e
    case Acq(s) => if MustWait(c, s) then None else Some(Acquire(c, s))
    case Rel(s) => if Count(c, s) == 0 then None else Some(Release(c, s))
  }

  /** A schedule of events from `c`, or `None` if some event cannot happen. */
  function Run(c: Counters, t: seq<Event>): Option<Counters>
  {
    if t == [] then Some(c)
    else match Run(c, t[..|t| - 1])
      case None => None
      case Some(d) => Apply(d, t[|t| - 1])
  }

  /** Acquisitions of `s` in `t` minus its releases. */
  function Net(t: seq<Event>, s: Slot): int
  {
    (multiset(t)[Acq(s)] as int) - multiset(t)[Rel(s)]
  }

  /** After any schedule, each counter has moved by exactly its net number of
      acquisitions, whatever the order of the events. */
  lemma {:induction false} RunTally(c: Counters, t: seq<Event>)
    requires Run(c, t).Some?
    ensures forall s :: Count(Run(c, t).value, s) == Count(c, s) + Net(t, s)
  {
    if t != [] {
      var init := t[..|t| - 1];
      RunTally(c, init);
      assert t == init + [t[|t| - 1]];
      assert multiset(t) == multiset(init) + multiset{t[|t| - 1]};
    }
  }

  /** Every prefix of a schedule that can happen can happen. */
  lemma {:induction false} RunPrefix(c: Counters, t: seq<Event>, k: nat)
    requires Run(c, t).Some? && k <= |t|
    ensures Run(c, t[..k]).Some?
  {
    if k < |t| {
      var init := t[..|t| - 1];
      assert t[..k] == init[..k];
      RunPrefix(c, init, k);
    } else {
      assert t[..k] == t;
    }
  }

  /** Counters that start within their ceilings stay within them after every
      step of every schedule: total at most 18, feeds at most 5, each site at most 10. */
  lemma {:induction false} RunWithinCeilings(c: Counters, t: seq<Event>, k: nat)
    requires WithinCeilings(c) && Run(c, t).Some? && k <= |t|
    ensures Run(c, t[..k]).Some? && WithinCeilings(Run(c, t[..k]).value)
  {
    RunPrefix(c, t, k);
    if k > 0 {
      var u := t[..k];
      assert u[..k - 1] == t[..k - 1];
      RunWithinCeilings(c, t, k - 1);
    }
  }

  // ---------------------------------------------------------------------------
  // Tasks

  /** A spawned task: a feed task, or an article task counted under a site key. */
  datatype Task = FeedTask | ArticleTask(site: string)

  /** The counter a task holds besides the total. */
  function Scoped(k: Task): Slot
  {
    match k
    case FeedTask => Feeds
    case ArticleTask(h) => Site(h)
  }

  /** The acquisitions before a task is spawned: the total slot first, then the
      scoped one (multi.rs:67-81 for feeds, 140-156 for articles). */
  function Admission(k: Task): seq<Event>
  {
    [Acq(Total), Acq(Scoped(k))]
  }

  /** The releases at the end of a task (multi.rs:92-102 and 176-186). */
  function Completion(k: Task): seq<Event>
  {
    [Rel(Total), Rel(Scoped(k))]
  }

  function Admissions(ks: seq<Task>): multiset<Event>
  {
    if ks == [] then multiset{} else Admissions(ks[..|ks| - 1]) + multiset(Admission(ks[|ks| - 1]))
  }

  function Completions(ks: seq<Task>): multiset<Event>
  {
    if ks == [] then multiset{} else Completions(ks[..|ks| - 1]) + multiset(Completion(ks[|ks| - 1]))
  }

  /** How many of the tasks `ks` hold the counter `s` while they run. */
  function Holders(ks: seq<Task>, s: Slot): nat
  {
    if ks == [] then 0
    else Holders(ks[..|ks| - 1], s) + if s == Total || s == Scoped(ks[|ks| - 1]) then 1 else 0
  }

  /** The admission of one task acquires the total and its scoped counter once
      each, and releases nothing. */
  lemma AdmissionCount(k: Task, s: Slot)
    ensures multiset(Admission(k))[Acq(s)] == (if s == Total || s == Scoped(k) then 1 else 0)
    ensures multiset(Admission(k))[Rel(s)] == 0
  {
    assert multiset(Admission(k)) == multiset{Acq(Total)} + multiset{Acq(Scoped(k))};
  }

  /** The completion of one task releases the total and its scoped counter once
      each, and acquires nothing. */
  lemma CompletionCount(k: Task, s: Slot)
    ensures multiset(Completion(k))[Rel(s)] == (if s == Total || s == Scoped(k) then 1 else 0)
    ensures multiset(Completion(k))[Acq(s)] == 0
  {
    assert multiset(Completion(k)) == multiset{Rel(Total)} + multiset{Rel(Scoped(k))};
  }

  lemma {:induction false} AdmissionsCount(ks: seq<Task>, s: Slot)
    ensures Admissions(ks)[Acq(s)] == Holders(ks, s) && Admissions(ks)[Rel(s)] == 0
  {
    if ks != [] {
      AdmissionsCount(ks[..|ks| - 1], s);
      AdmissionCount(ks[|ks| - 1], s);
    }
  }

  lemma {:induction false} CompletionsCount(ks: seq<Task>, s: Slot)
    ensures Completions(ks)[Rel(s)] == Holders(ks, s) && Completions(ks)[Acq(s)] == 0
  {
    if ks != [] {
      CompletionsCount(ks[..|ks| - 1], s);
      CompletionCount(ks[|ks| - 1], s);
    }
  }

  /** In any schedule made of the complete lifecycles of the tasks `finished`
      and the admissions of the tasks `running`, interleaved in any order, each
      counter exceeds its starting value by the number of running tasks that hold it. */
  lemma {:induction false} InFlightTally(c: Counters, t: seq<Event>, finished: seq<Task>, running: seq<Task>)
    requires multiset(t) == Admissions(finished) + Completions(finished) + Admissions(running)
    requires Run(c, t).Some?
    ensures forall s :: Count(Run(c, t).value, s) == Count(c, s) + Holders(running, s)
  {
    RunTally(c, t);
    forall s ensures Net(t, s) == Holders(running, s) {
      LifecyclesNet(t, finished, running, s);
    }
  }

  lemma LifecyclesNet(t: seq<Event>, finished: seq<Task>, running: seq<Task>, s: Slot)
    requires multiset(t) == Admissions(finished) + Completions(finished) + Admissions(running)
    ensures Net(t, s) == Holders(running, s)
  {
    AdmissionsCount(finished, s);
    CompletionsCount(finished, s);
    AdmissionsCount(running, s);
  }

  /** Once every task has completed normally, every counter is back to its
      starting value: each task released exactly what it acquired. */
  lemma {:induction false} CompletedTasksRestoreCounters(c: Counters, t: seq<Event>, finished: seq<Task>)
    requires multiset(t) == Admissions(finished) + Completions(finished)
    requires Run(c, t).Some?
    ensures forall s :: Count(Run(c, t).value, s) == Count(c, s)
  {
    assert Admissions([]) == multiset{};
    InFlightTally(c, t, finished, []);
  }

  /** From idle counters, at no point are more than 18 tasks running, more than
      5 feed tasks, or more than 10 article tasks of one site. */
  lemma {:induction false} RunningTasksWithinCeilings(t: seq<Event>, finished: seq<Task>, running: seq<Task>)
    requires multiset(t) == Admissions(finished) + Completions(finished) + Admissions(running)
    requires Run(IDLE, t).Some?
    ensures forall s :: Holders(running, s) <= Ceiling(s)
  {
    InFlightTally(IDLE, t, finished, running);
    RunWithinCeilings(IDLE, t, |t|);
    assert t[..|t|] == t;
  }

  // ---------------------------------------------------------------------------
  // Tasks that fail

  /** The events of a task whose body fails, as the source is written: the
      `unwrap` at multi.rs:90 (or 167) panics and the releases after it never
      run, so the task keeps its admission for good. */
  function AbortedLifecycle(k: Task): seq<Event>
  {
    Admission(k)
  }

  /** Tasks that abort while holding slots are enough to block a slot for good:
      once they hold as many slots of `s` as its ceiling, the counter of `s`
      never drops below the ceiling, whatever the other tasks do (complete, still
      run, or abort too), so every later
      admission that needs `s` waits forever. Five feed tasks whose `process_feed`
      fails block the seed loop; ten article tasks of one site whose
      `process_article` fails block that site; eighteen aborted tasks of any
      kind block everything. */
  lemma {:induction false} AbortedTasksBlockAdmission(t: seq<Event>, finished: seq<Task>, running: seq<Task>, aborted: seq<Task>, s: Slot)
    requires multiset(t) == Admissions(finished) + Completions(finished) + Admissions(running) + Admissions(aborted)
    requires Holders(aborted, s) >= Ceiling(s)
    requires Run(IDLE, t).Some?
    ensures MustWait(Run(IDLE, t).value, s)
  {
    RunTally(IDLE, t);
    AdmissionsCount(finished, s);
    CompletionsCount(finished, s);
    AdmissionsCount(running, s);
    AdmissionsCount(aborted, s);
    assert Net(t, s) == Holders(running, s) + Holders(aborted, s);
  }

  /** One more event after a schedule. */
  lemma RunSnoc(c: Counters, t: seq<Event>, e: Event)
    ensures Run(c, t + [e]) == if Run(c, t).None? then None else Apply(Run(c, t).value, e)
  {
    assert (t + [e])[..|t|] == t;
  }

  /** A feed task that aborts after `k < 5` others did raises the total and the
      feed counter to `k + 1`. */
  lemma AbortedFeedTaskStep(t: seq<Event>, k: nat)
    requires k < MAX_THREADS_FEEDS && Run(IDLE, t) == Some(Counters(k, k, map[]))
    ensures Run(IDLE, t + AbortedLifecycle(FeedTask)) == Some(Counters(k + 1, k + 1, map[]))
  {
    var c0, c1, c2 := Counters(k, k, map[]), Counters(k + 1, k, map[]), Counters(k + 1, k + 1, map[]);
    assert Apply(c0, Acq(Total)) == Some(c1) by {
      assert !MustWait(c0, Total) && Acquire(c0, Total) == c1;
    }
    assert Apply(c1, Acq(Feeds)) == Some(c2) by {
      assert !MustWait(c1, Feeds) && Acquire(c1, Feeds) == c2;
    }
    RunSnoc(IDLE, t, Acq(Total));
    RunSnoc(IDLE, t + [Acq(Total)], Acq(Feeds));
    assert AbortedLifecycle(FeedTask) == [Acq(Total), Acq(Feeds)];
    assert t + [Acq(Total)] + [Acq(Feeds)] == t + [Acq(Total), Acq(Feeds)];
  }

  /** Such a schedule exists: five aborted feed tasks in a row. */
  lemma FiveAbortedFeedTasks()
    ensures var a := AbortedLifecycle(FeedTask);
      var t := a + a + a + a + a;
      Run(IDLE, t).Some? && MustWait(Run(IDLE, t).value, Feeds)
  {
    var a := AbortedLifecycle(FeedTask);
    assert [] + a == a;
    AbortedFeedTaskStep([], 0);
    AbortedFeedTaskStep(a, 1);
    AbortedFeedTaskStep(a + a, 2);
    AbortedFeedTaskStep(a + a + a, 3);
    AbortedFeedTaskStep(a + a + a + a, 4);
  }
}
