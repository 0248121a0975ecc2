/** The thread-pool strategy of pooled.rs: the same selection as multi.rs, but a
    feed or an article is handed to a pool of fixed size instead of a thread of
    its own, so no counter is needed: a pool never runs more jobs at once than
    it has workers.

    A job is identified with what its closure captures: a job of the feed pool
    is the URL of the feed it processes, a job of the site pool is the article
    (link, site key, title) it indexes. What a job does when it runs (fetching a
    feed, extracting an article's words, adding them to the index) is not part
    of the job. */
module Pooled {
  import opened Common
  import opened Selection
  import opened ThreadPools

  /** The sizes of the two pools. */
  const SIZE_FEEDS_POOL: nat := 3
  const SIZE_SITES_POOL: nat := 20

  /** `process_feed_file` (pooled.rs:20-53) on the entries of the seed file.
      Both pools are created first; one feed job is submitted per new feed URL,
      in file order, and the first entry without a link or a title ends the loop
      with `UrlError`. On either exit the feed pool is dropped, which waits for
      every submitted feed job to run. The site pool is returned still running:
      it is shared with the feed jobs and lives as long as they do. */
  method ProcessFeedFile(items: seq<Item>)
    returns (result: Outcome, feedsPool: ThreadPool<string>, sitesPool: ThreadPool<ArticleRef>, seen: SeenUrls)
    ensures var s := SelectFeeds(items, {});
      && result == (if s.failed then Err(UrlError) else Ok)
      && seen.urls == s.seen
      && feedsPool.submitted == s.dispatched
    ensures feedsPool.size == SIZE_FEEDS_POOL && sitesPool.size == SIZE_SITES_POOL
    ensures feedsPool.Valid() && feedsPool.workers == [] && feedsPool.queue == []
    ensures feedsPool.ran == feedsPool.submitted
    ensures sitesPool.Valid() && |sitesPool.workers| == SIZE_SITES_POOL && sitesPool.live == SIZE_SITES_POOL
    ensures sitesPool.queue == [] && sitesPool.submitted == []
    ensures fresh(feedsPool) && fresh(sitesPool) && fresh(seen)
  {
    feedsPool := new ThreadPool(SIZE_FEEDS_POOL);
    sitesPool := new ThreadPool(SIZE_SITES_POOL);
    seen := new SeenUrls();
    result := Ok;
    var i := 0;
    ghost var sel := FeedSelection([], {}, false);
    assert items[..0] == [];
    while i < |items|
      invariant 0 <= i <= |items|
      invariant sel == SelectFeeds(items[..i], {}) && !sel.failed
      invariant seen.urls == sel.seen && feedsPool.submitted == sel.dispatched
      invariant feedsPool.Valid() && |feedsPool.workers| == SIZE_FEEDS_POOL
      invariant sitesPool.Valid() && |sitesPool.workers| == SIZE_SITES_POOL && sitesPool.live == SIZE_SITES_POOL
      invariant sitesPool.queue == [] && sitesPool.submitted == []
      invariant fresh(feedsPool) && fresh(sitesPool) && fresh(seen)
    {
      var item := items[i];
      SelectFeedsNext(items, i, {});
      if item.link.None? || item.title.None? {
        SelectFeedsStopsAtFailure(items[..i + 1], items[i + 1..], {});
        assert items[..i + 1] + items[i + 1..] == items;
        result := Err(UrlError);
        feedsPool.Drop();
        return;
      }
      var url := item.link.value;
      if !seen.Contains(url) {
        seen.Insert(url);
        feedsPool.Execute(url);
        sel := FeedSelection(sel.dispatched + [url], sel.seen + {url}, false);
      }
      i := i + 1;
    }
    assert items[..i] == items;
    feedsPool.Drop();
  }

  /** One iteration of the article loop of `process_feed` (pooled.rs:67-98):
      `abort` when the feed URL does not parse; otherwise an item with a link
      and a title whose link is new is inserted into the seen-set and its
      article, under the feed URL's host, is submitted to the site pool. Any
      other item changes nothing. */
  method ArticleIteration(seen: SeenUrls, sitesPool: ThreadPool<ArticleRef>, feedUrl: string, parse: string -> ParsedUrl, item: Item)
    returns (abort: bool, submitted: Option<ArticleRef>)
    requires sitesPool.Valid()
    modifies seen, sitesPool
    ensures ArticleStep(ArticleSelection([], old(seen.urls), false), feedUrl, parse, item)
         == ArticleSelection(if submitted.Some? then [submitted.value] else [], seen.urls, abort)
    ensures sitesPool.Valid()
    ensures submitted.None? ==> sitesPool.queue == old(sitesPool.queue) && sitesPool.submitted == old(sitesPool.submitted)
    ensures submitted.Some? ==> sitesPool.queue == old(sitesPool.queue) + [Job(submitted.value)]
    ensures submitted.Some? ==> sitesPool.submitted == old(sitesPool.submitted) + [submitted.value]
    ensures sitesPool.workers == old(sitesPool.workers) && sitesPool.live == old(sitesPool.live)
    ensures sitesPool.ran == old(sitesPool.ran)
  {
    abort, submitted := false, None;
    var parsed := parse(feedUrl);
    if parsed.ParseFailed? {
      abort := true;
      return;
    }
    if item.link.None? || parsed.host.None? || item.title.None? {
      return;
    }
    var url := item.link.value;
    if seen.Contains(url) {
      return;
    }
    seen.Insert(url);
    var article := ArticleRef(url, parsed.host.value, item.title.value);
    sitesPool.Execute(article);
    submitted := Some(article);
  }

  /** `process_feed` (pooled.rs:57-100) for the feed at `feedUrl`, whose fetch
      yields `feed`: `FetchError` when it could not be fetched or read; otherwise
      one article job is submitted to the site pool per new article link, in
      feed order, each under the feed URL's host. The feed URL is parsed for
      every item, so it fails with `UrlParseError` only when the feed has an
      item. Nothing else of the site pool changes and nothing runs. */
  method ProcessFeedJob(feedUrl: string, parse: string -> ParsedUrl, feed: Option<seq<Item>>,
                        seen: SeenUrls, sitesPool: ThreadPool<ArticleRef>)
    returns (result: Outcome)
    requires sitesPool.Valid()
    modifies seen, sitesPool
    ensures feed.None? ==> result == Err(FetchError) && seen.urls == old(seen.urls)
    ensures feed.None? ==> sitesPool.submitted == old(sitesPool.submitted)
    ensures feed.Some? ==> var s := SelectArticles(feedUrl, parse, feed.value, old(seen.urls));
      && result == (if s.failed then Err(UrlParseError) else Ok)
      && seen.urls == s.seen
      && sitesPool.submitted == old(sitesPool.submitted) + s.dispatched
    ensures sitesPool.Valid()
    ensures sitesPool.workers == old(sitesPool.workers) && sitesPool.live == old(sitesPool.live)
    ensures sitesPool.ran == old(sitesPool.ran)
  {
    if feed.None? {
      return Err(FetchError);
    }
    var items := feed.value;
    ghost var seen0 := seen.urls;
    ghost var submitted0 := sitesPool.submitted;
    result := Ok;
    var i := 0;
    ghost var sel := ArticleSelection([], seen0, false);
    assert items[..0] == [];
    while i < |items|
      invariant 0 <= i <= |items|
      invariant sel == SelectArticles(feedUrl, parse, items[..i], seen0) && !sel.failed
      invariant seen.urls == sel.seen && sitesPool.submitted == submitted0 + sel.dispatched
      invariant sitesPool.Valid()
      invariant sitesPool.workers == old(sitesPool.workers) && sitesPool.live == old(sitesPool.live)
      invariant sitesPool.ran == old(sitesPool.ran)
    {
      var item := items[i];
      SelectArticlesNext(feedUrl, parse, items, i, seen0);
      ArticleStepFrom(sel, feedUrl, parse, item);
      var abort, article := ArticleIteration(seen, sitesPool, feedUrl, parse, item);
      if abort {
        SelectArticlesUnparsableFeed(feedUrl, parse, items, seen0);
        SelectArticlesUnparsableFeed(feedUrl, parse, items[..i], seen0);
        return Err(UrlParseError);
      }
      if article.Some? {
        sel := ArticleSelection(sel.dispatched + [article.value], seen.urls, false);
      } else {
        assert sel.dispatched + [] == sel.dispatched;
        sel := sel.(seen := seen.urls);
      }
      i := i + 1;
    }
    assert items[..i] == items;
  }
}
