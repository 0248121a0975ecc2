/** The thread-per-task strategy of multi.rs: the counters every spawn must get
    past, and the loops that decide what to spawn.

    The counters live in a class whose methods change them in place, each as the
    corresponding `Gate` function says. A wait on a condition variable is the
    precondition of the acquisition that follows it. One iteration of each loop
    is a method of its own, valid under every schedule of the other threads; the
    seed loop as a whole is run under one schedule, in which a waiting loop
    resumes once the oldest running feed task completes. All schedules of
    acquisitions and releases are the traces of `Gate`. */
module Multi {
  import opened Common
  import opened Gate
  import opened Selection

  /** `ThreadCount`: the feed counter, the per-site counters and the total. Each
      sits behind its own lock and condition variable in the source. */
  class ThreadCount {
    var feedsCount: nat
    var sitesCount: map<string, nat>
    var totalCount: nat

    function Snapshot(): Counters
      reads this
    {
      Counters(totalCount, feedsCount, sitesCount)
    }

    ghost predicate Valid()
      reads this
    {
      WithinCeilings(Snapshot())
    }

    /** The counters as `process_feed_file` creates them: all zero, no site. */
    constructor ()
      ensures Valid() && Snapshot() == IDLE
    {
      feedsCount, sitesCount, totalCount := 0, map[], 0;
    }

    /** Wait while the total exceeds `MAX_THREADS_TOTAL - 1`, then add one
        (multi.rs:68-72, 141-145). */
    method AcquireTotal()
      requires Valid() && !MustWait(Snapshot(), Total)
      modifies this
      ensures Valid() && Snapshot() == Acquire(old(Snapshot()), Total)
    {
      totalCount := totalCount + 1;
    }

    /** Wait while the feed counter exceeds `MAX_THREADS_FEEDS - 1`, then add
        one (multi.rs:76-80). */
    method AcquireFeed()
      requires Valid() && !MustWait(Snapshot(), Feeds)
      modifies this
      ensures Valid() && Snapshot() == Acquire(old(Snapshot()), Feeds)
    {
      feedsCount := feedsCount + 1;
    }

    /** Give an unseen site the entry 0, wait while its counter exceeds
        `MAX_THREADS_SITES - 1`, then add one to that entry only
        (multi.rs:149-155). */
    method AcquireSite(site: string)
      requires Valid() && !MustWait(Snapshot(), Site(site))
      modifies this
      ensures Valid() && Snapshot() == Acquire(old(Snapshot()), Site(site))
    {
      if site !in sitesCount {
        sitesCount := sitesCount[site := 0];
      }
      sitesCount := sitesCount[site := sitesCount[site] + 1];
    }

    /** Subtract one from the total (multi.rs:93-95, 177-179). */
    method ReleaseTotal()
      requires Valid() && Count(Snapshot(), Total) > 0
      modifies this
      ensures Valid() && Snapshot() == Release(old(Snapshot()), Total)
    {
      totalCount := totalCount - 1;
    }

    /** Subtract one from the feed counter (multi.rs:99-101). */
    method ReleaseFeed()
      requires Valid() && Count(Snapshot(), Feeds) > 0
      modifies this
      ensures Valid() && Snapshot() == Release(old(Snapshot()), Feeds)
    {
      feedsCount := feedsCount - 1;
    }

    /** Subtract one from the counter of `site`; its entry stays in the map
        (multi.rs:183-185). */
    method ReleaseSite(site: string)
      requires Valid() && Count(Snapshot(), Site(site)) > 0
      modifies this
      ensures Valid() && Snapshot() == Release(old(Snapshot()), Site(site))
    {
      sitesCount := sitesCount[site := sitesCount[site] - 1];
    }
  }

  /** Before a feed task is spawned: a total slot, then a feed slot (multi.rs:67-81). */
  method AdmitFeedTask(tc: ThreadCount)
    requires tc.Valid() && !MustWait(tc.Snapshot(), Total) && !MustWait(tc.Snapshot(), Feeds)
    modifies tc
    ensures tc.Valid() && Run(old(tc.Snapshot()), Admission(FeedTask)) == Some(tc.Snapshot())
    ensures tc.Snapshot() == old(tc.Snapshot()).(total := old(tc.totalCount) + 1, feeds := old(tc.feedsCount) + 1)
  {
    ghost var c := tc.Snapshot();
    tc.AcquireTotal();
    tc.AcquireFeed();
    assert Admission(FeedTask)[..1] == [Acq(Total)];
    assert Run(c, [Acq(Total)]) == Some(Acquire(c, Total));
  }

  /** The end of a feed task: release the total slot, then the feed slot
      (multi.rs:92-102). */
  method CompleteFeedTask(tc: ThreadCount)
    requires tc.Valid() && Count(tc.Snapshot(), Total) > 0 && Count(tc.Snapshot(), Feeds) > 0
    modifies tc
    ensures tc.Valid() && Run(old(tc.Snapshot()), Completion(FeedTask)) == Some(tc.Snapshot())
    ensures tc.Snapshot() == old(tc.Snapshot()).(total := old(tc.totalCount) - 1, feeds := old(tc.feedsCount) - 1)
  {
    ghost var c := tc.Snapshot();
    tc.ReleaseTotal();
    tc.ReleaseFeed();
    assert Completion(FeedTask)[..1] == [Rel(Total)];
    assert Run(c, [Rel(Total)]) == Some(Release(c, Total));
  }

  /** Before an article task is spawned: a total slot, then a slot of its site
      (multi.rs:140-156). */
  method AdmitArticleTask(tc: ThreadCount, site: string)
    requires tc.Valid() && !MustWait(tc.Snapshot(), Total) && !MustWait(tc.Snapshot(), Site(site))
    modifies tc
    ensures tc.Valid() && Run(old(tc.Snapshot()), Admission(ArticleTask(site))) == Some(tc.Snapshot())
  {
    ghost var c := tc.Snapshot();
    tc.AcquireTotal();
    tc.AcquireSite(site);
    assert Admission(ArticleTask(site))[..1] == [Acq(Total)];
    assert Run(c, [Acq(Total)]) == Some(Acquire(c, Total));
  }

  /** The end of an article task: release the total slot, then the slot of the
      same site key it was admitted under (multi.rs:176-186). */
  method CompleteArticleTask(tc: ThreadCount, site: string)
    requires tc.Valid() && Count(tc.Snapshot(), Total) > 0 && Count(tc.Snapshot(), Site(site)) > 0
    modifies tc
    ensures tc.Valid() && Run(old(tc.Snapshot()), Completion(ArticleTask(site))) == Some(tc.Snapshot())
  {
    ghost var c := tc.Snapshot();
    tc.ReleaseTotal();
    tc.ReleaseSite(site);
    assert Completion(ArticleTask(site))[..1] == [Rel(Total)];
    assert Run(c, [Rel(Total)]) == Some(Release(c, Total));
  }

  /** One iteration of the seed loop of `process_feed_file` (multi.rs:56-106):
      `abort` when the function returns `UrlError` here, the feed URL when a feed
      task is spawned. The wait for slots applies only to an entry that gets a
      task. A skipped entry changes no counter; a new URL is inserted into the
      seen-set before the slots are taken. */
  method FeedIteration(tc: ThreadCount, seen: SeenUrls, item: Item) returns (abort: bool, spawned: Option<string>)
    requires tc.Valid()
    requires !Malformed(item) && !seen.Contains(item.link.value) ==>
      !MustWait(tc.Snapshot(), Total) && !MustWait(tc.Snapshot(), Feeds)
    modifies tc, seen
    ensures tc.Valid()
    ensures FeedStep(FeedSelection([], old(seen.urls), false), item)
         == FeedSelection(if spawned.Some? then [spawned.value] else [], seen.urls, abort)
    ensures spawned.Some? ==> Run(old(tc.Snapshot()), Admission(FeedTask)) == Some(tc.Snapshot())
    ensures spawned.Some? ==> tc.Snapshot() == old(tc.Snapshot()).(total := old(tc.totalCount) + 1, feeds := old(tc.feedsCount) + 1)
    ensures spawned.None? ==> tc.Snapshot() == old(tc.Snapshot())
  {
    abort, spawned := false, None;
    if item.link.None? || item.title.None? {
      abort := true;
      return;
    }
    var url := item.link.value;
    if seen.Contains(url) {
      return;
    }
    seen.Insert(url);
    AdmitFeedTask(tc);
    spawned := Some(url);
  }

  /** One iteration of the article loop of `process_feed` for the feed at
      `feedUrl` (multi.rs:125-190): `abort` when the feed URL does not parse,
      the article and its site key (the feed's host) when an article task is
      spawned. An item without a link or a title, or a feed URL without a host,
      skips the item and changes nothing. */
  method ArticleIteration(tc: ThreadCount, seen: SeenUrls, feedUrl: string, parse: string -> ParsedUrl, item: Item)
    returns (abort: bool, spawned: Option<ArticleRef>)
    requires tc.Valid()
    requires parse(feedUrl).Parsed? && parse(feedUrl).host.Some? && item.link.Some? && item.title.Some?
             && !seen.Contains(item.link.value) ==>
      !MustWait(tc.Snapshot(), Total) && !MustWait(tc.Snapshot(), Site(parse(feedUrl).host.value))
    modifies tc, seen
    ensures tc.Valid()
    ensures ArticleStep(ArticleSelection([], old(seen.urls), false), feedUrl, parse, item)
         == ArticleSelection(if spawned.Some? then [spawned.value] else [], seen.urls, abort)
    ensures spawned.Some? ==> Run(old(tc.Snapshot()), Admission(ArticleTask(spawned.value.site))) == Some(tc.Snapshot())
    ensures spawned.None? ==> tc.Snapshot() == old(tc.Snapshot())
  {
    abort, spawned := false, None;
    var parsed := parse(feedUrl);
    if parsed.ParseFailed? {
      abort := true;
      return;
    }
    if item.link.None? || parsed.host.None? || item.title.None? {
      return;
    }
    var url, site, title := item.link.value, parsed.host.value, item.title.value;
    if seen.Contains(url) {
      return;
    }
    seen.Insert(url);
    AdmitArticleTask(tc, site);
    spawned := Some(ArticleRef(url, site, title));
  }

  /** The waits at multi.rs:67-81 under the schedule in which the oldest of the
      `inFlight` running feed tasks completes whenever the seed loop would wait.
      Only feed tasks are running, so both waits end once fewer than five feed
      tasks run; `left` of them are still running. */
  method WaitForFeedSlot(tc: ThreadCount, inFlight: nat) returns (left: nat)
    requires tc.Valid() && tc.Snapshot() == Counters(inFlight, inFlight, map[])
    modifies tc
    ensures tc.Valid() && tc.Snapshot() == Counters(left, left, map[])
    ensures left == if inFlight < MAX_THREADS_FEEDS then inFlight else MAX_THREADS_FEEDS - 1
    ensures !MustWait(tc.Snapshot(), Total) && !MustWait(tc.Snapshot(), Feeds)
  {
    left := inFlight;
    while MustWait(tc.Snapshot(), Feeds)
      invariant left <= inFlight && tc.Valid() && tc.Snapshot() == Counters(left, left, map[])
      invariant inFlight < MAX_THREADS_FEEDS ==> left == inFlight
      invariant inFlight >= MAX_THREADS_FEEDS ==> left >= MAX_THREADS_FEEDS - 1
      decreases left
    {
      CompleteFeedTask(tc);
      left := left - 1;
    }
  }

  /** The join loop at multi.rs:107-109: every running feed task completes and
      releases its slots, so every counter is back to zero. */
  method JoinFeedTasks(tc: ThreadCount, inFlight: nat)
    requires tc.Valid() && tc.Snapshot() == Counters(inFlight, inFlight, map[])
    modifies tc
    ensures tc.Valid() && tc.Snapshot() == IDLE
  {
    var left := inFlight;
    while left > 0
      invariant tc.Valid() && tc.Snapshot() == Counters(left, left, map[])
    {
      CompleteFeedTask(tc);
      left := left - 1;
    }
  }

  /** `process_feed_file` (multi.rs:42-111) on the entries of the seed file,
      under one schedule of the other threads: when the seed loop must wait for
      a feed slot, the oldest running feed task completes and releases its
      slots; the feed tasks' own work is not run here (see `ArticleIteration`).
      `handles` are the feed tasks spawned, in file order, one per new feed URL.
      On success every handle has been joined and every counter is back to
      zero. On `UrlError` the loop returns at once: `running`, the tasks not yet
      finished, are left unjoined and still hold their slots. */
  method ProcessFeedFile(items: seq<Item>)
    returns (result: Outcome, tc: ThreadCount, seen: SeenUrls, handles: seq<string>, running: seq<string>)
    ensures var s := SelectFeeds(items, {});
      && result == (if s.failed then Err(UrlError) else Ok)
      && seen.urls == s.seen
      && handles == s.dispatched
    ensures tc.Valid() && |running| <= |handles| && |running| <= MAX_THREADS_FEEDS
    ensures running == handles[|handles| - |running|..]
    ensures tc.Snapshot() == Counters(|running|, |running|, map[])
    ensures result == Ok ==> running == [] && tc.Snapshot() == IDLE
    ensures fresh(tc) && fresh(seen)
  {
    tc := new ThreadCount();
    seen := new SeenUrls();
    result, handles := Ok, [];
    var done := 0;
    var i := 0;
    ghost var sel := FeedSelection([], {}, false);
    assert items[..0] == [];
    while i < |items|
      invariant 0 <= i <= |items|
      invariant sel == SelectFeeds(items[..i], {}) && !sel.failed
      invariant seen.urls == sel.seen && handles == sel.dispatched
      invariant 0 <= done <= |handles| && |handles| - done <= MAX_THREADS_FEEDS
      invariant tc.Valid() && tc.Snapshot() == Counters(|handles| - done, |handles| - done, map[])
      invariant fresh(tc) && fresh(seen)
    {
      var item := items[i];
      SelectFeedsNext(items, i, {});
      FeedStepFrom(sel, item);
      if !Malformed(item) && !seen.Contains(item.link.value) {
        var left := WaitForFeedSlot(tc, |handles| - done);
        done := |handles| - left;
      }
      var abort, spawned := FeedIteration(tc, seen, item);
      if abort {
        SelectFeedsStopsAtFailure(items[..i + 1], items[i + 1..], {});
        assert items[..i + 1] + items[i + 1..] == items;
        result, running := Err(UrlError), handles[done..];
        return;
      }
      if spawned.Some? {
        handles := handles + [spawned.value];
        sel := FeedSelection(sel.dispatched + [spawned.value], seen.urls, false);
      } else {
        assert sel.dispatched + [] == sel.dispatched;
        sel := sel.(seen := seen.urls);
      }
      i := i + 1;
    }
    assert items[..i] == items;
    JoinFeedTasks(tc, |handles| - done);
    running := [];
  }
}
