/** The selection logic of the crawl loops, shared word for word by multi.rs and
    pooled.rs: which seed entries become feed tasks and which feed items become
    article tasks, with one seen-set of URLs for both levels.

    Each loop is specified by a function over a prefix of its input, so that a
    loop that has handled `items[..i]` is described by `Select...(items[..i], ...)`.
    The dispatch itself (spawning with counters, or submitting to a pool) is
    modelled in the Multi and Pooled modules. */
module Selection {
  import opened Common

  /** The state of the seed-level loop: feed URLs dispatched so far, in order, the
      seen-set, and whether the loop has returned `UrlError`. */
  datatype FeedSelection = FeedSelection(dispatched: seq<string>, seen: set<string>, failed: bool)

  /** A seed entry the loop refuses: it lacks a link or a title. */
  predicate Malformed(item: Item)
  {
    item.link.None? || item.title.None?
  }

  /** One iteration of the seed-level loop. */
  function FeedStep(s: FeedSelection, item: Item): FeedSelection
  {
    if s.failed then s
    else if Malformed(item) then s.(failed := true)
    else if item.link.value in s.seen then s
    else FeedSelection(s.dispatched + [item.link.value], s.seen + {item.link.value}, false)
  }

  /** The seed-level loop run over `items`, starting from the seen-set `seen`. */
  function SelectFeeds(items: seq<Item>, seen: set<string>): FeedSelection
  {
    if items == [] then FeedSelection([], seen, false)
    else FeedStep(SelectFeeds(items[..|items| - 1], seen), items[|items| - 1])
  }

  /** The state of the article-level loop of one feed. */
  datatype ArticleSelection = ArticleSelection(dispatched: seq<ArticleRef>, seen: set<string>, failed: bool)

  /** One iteration of the article-level loop of the feed at `feedUrl`. The feed
      URL is parsed anew for every item; a parse failure ends the whole feed, a
      missing link, host or title skips the item. */
  function ArticleStep(s: ArticleSelection, feedUrl: string, parse: string -> ParsedUrl, item: Item): ArticleSelection
  {
    if s.failed then s
    else match parse(feedUrl)
      case ParseFailed => s.(failed := true)
      case Parsed(host) =>
        if item.link.None? || host.None? || item.title.None? then s
        else if item.link.value in s.seen then s
        else ArticleSelection(s.dispatched + [ArticleRef(item.link.value, host.value, item.title.value)],
                              s.seen + {item.link.value}, false)
  }

  /** The article-level loop of the feed at `feedUrl` run over `items`. */
  function SelectArticles(feedUrl: string, parse: string -> ParsedUrl, items: seq<Item>, seen: set<string>): ArticleSelection
  {
    if items == [] then ArticleSelection([], seen, false)
    else ArticleStep(SelectArticles(feedUrl, parse, items[..|items| - 1], seen), feedUrl, parse, items[|items| - 1])
  }

  /** What one iteration of the seed-level loop does: it fails on a malformed
      entry and stays failed, and it dispatches the entry's link exactly when
      the loop has not failed, the entry is well formed and its link is new. A
      dispatched link joins the seen-set; nothing else changes. */
  lemma FeedStepMeaning(s: FeedSelection, item: Item)
    ensures var r := FeedStep(s, item);
      && (r.failed <==> s.failed || Malformed(item))
      && s.dispatched <= r.dispatched && |r.dispatched| <= |s.dispatched| + 1
      && (|r.dispatched| == |s.dispatched| + 1 <==> !s.failed && !Malformed(item) && item.link.value !in s.seen)
      && (|r.dispatched| == |s.dispatched| + 1 ==>
            r.dispatched[|s.dispatched|] == item.link.value && r.seen == s.seen + {item.link.value})
      && (|r.dispatched| == |s.dispatched| ==> r.seen == s.seen)
  {
  }

  /** What one iteration of the article-level loop does. The feed URL is parsed
      before the item's own fields are looked at, so a parse failure fails the
      feed whatever the item holds. An article is dispatched exactly when the
      loop has not failed, the item is complete, the feed URL has a host and the
      link is new; it carries the item's link and title under the feed's host,
      and its link joins the seen-set. Nothing else changes. */
  lemma ArticleStepMeaning(s: ArticleSelection, feedUrl: string, parse: string -> ParsedUrl, item: Item)
    ensures var r := ArticleStep(s, feedUrl, parse, item);
      && (r.failed <==> s.failed || parse(feedUrl).ParseFailed?)
      && s.dispatched <= r.dispatched && |r.dispatched| <= |s.dispatched| + 1
      && (|r.dispatched| == |s.dispatched| + 1 <==>
            && !s.failed && parse(feedUrl).Parsed? && parse(feedUrl).host.Some?
            && item.link.Some? && item.title.Some? && item.link.value !in s.seen)
      && (|r.dispatched| == |s.dispatched| + 1 ==>
            && parse(feedUrl).Parsed? && parse(feedUrl).host.Some? && item.link.Some? && item.title.Some?
            && r.dispatched[|s.dispatched|] == ArticleRef(item.link.value, parse(feedUrl).host.value, item.title.value)
            && r.seen == s.seen + {item.link.value})
      && (|r.dispatched| == |s.dispatched| ==> r.seen == s.seen)
  {
  }

  /** The seed-level loop over `items`: the seen-set only grows, and at most one
      feed is dispatched per entry. */
  lemma {:induction false} SelectFeedsBounds(items: seq<Item>, seen: set<string>)
    ensures seen <= SelectFeeds(items, seen).seen
    ensures |SelectFeeds(items, seen).dispatched| <= |items|
  {
    if items != [] {
      SelectFeedsBounds(items[..|items| - 1], seen);
    }
  }

  /** The article-level loop over `items`: the seen-set only grows, at most one
      article is dispatched per item, and the feed fails only when it has an
      item and its URL does not parse. */
  lemma {:induction false} SelectArticlesBounds(feedUrl: string, parse: string -> ParsedUrl, items: seq<Item>, seen: set<string>)
    ensures var r := SelectArticles(feedUrl, parse, items, seen);
      && seen <= r.seen
      && |r.dispatched| <= |items|
      && (r.failed ==> |items| > 0 && parse(feedUrl).ParseFailed?)
  {
    if items != [] {
      SelectArticlesBounds(feedUrl, parse, items[..|items| - 1], seen);
    }
  }

  /** The loop over one more item is one more step. */
  lemma SelectFeedsNext(items: seq<Item>, i: nat, seen: set<string>)
    requires i < |items|
    ensures SelectFeeds(items[..i + 1], seen) == FeedStep(SelectFeeds(items[..i], seen), items[i])
  {
    assert items[..i + 1][..i] == items[..i];
  }

  lemma SelectArticlesNext(feedUrl: string, parse: string -> ParsedUrl, items: seq<Item>, i: nat, seen: set<string>)
    requires i < |items|
    ensures SelectArticles(feedUrl, parse, items[..i + 1], seen)
         == ArticleStep(SelectArticles(feedUrl, parse, items[..i], seen), feedUrl, parse, items[i])
  {
    assert items[..i + 1][..i] == items[..i];
  }

  /** A step from any state that has not failed does what the same step does
      from an empty state with the same seen-set, after what was dispatched. */
  lemma FeedStepFrom(s: FeedSelection, item: Item)
    requires !s.failed
    ensures var r := FeedStep(FeedSelection([], s.seen, false), item);
      FeedStep(s, item) == FeedSelection(s.dispatched + r.dispatched, r.seen, r.failed)
  {
    assert s.dispatched + [] == s.dispatched;
  }

  lemma ArticleStepFrom(s: ArticleSelection, feedUrl: string, parse: string -> ParsedUrl, item: Item)
    requires !s.failed
    ensures var r := ArticleStep(ArticleSelection([], s.seen, false), feedUrl, parse, item);
      ArticleStep(s, feedUrl, parse, item) == ArticleSelection(s.dispatched + r.dispatched, r.seen, r.failed)
  {
    assert s.dispatched + [] == s.dispatched;
  }

  /** The links of a sequence of selected articles. */
  function Urls(articles: seq<ArticleRef>): (r: seq<string>)
    ensures |r| == |articles|
    ensures forall k :: 0 <= k < |articles| ==> r[k] == articles[k].url
  {
    if articles == [] then [] else Urls(articles[..|articles| - 1]) + [articles[|articles| - 1].url]
  }

  lemma UrlsSnoc(articles: seq<ArticleRef>, a: ArticleRef)
    ensures Urls(articles + [a]) == Urls(articles) + [a.url]
  {
    assert (articles + [a])[..|articles|] == articles;
  }

  /** Appending a value that does not occur keeps a sequence free of repeats. */
  lemma DistinctSnoc<T>(s: seq<T>, x: T)
    requires Distinct(s) && x !in s
    ensures Distinct(s + [x])
  {
  }

  /** Two sequences free of repeats, the first inside `s` and the second
      outside it, concatenate to a sequence free of repeats. */
  lemma DistinctConcat<T>(a: seq<T>, b: seq<T>, s: set<T>)
    requires Distinct(a) && Distinct(b)
    requires forall u :: u in a ==> u in s
    requires forall u :: u in b ==> u !in s
    ensures Distinct(a + b)
  {
    var c := a + b;
    forall i, j | 0 <= i < j < |c| ensures c[i] != c[j] {
      if j < |a| {
        assert c[i] == a[i] && c[j] == a[j];
      } else if i < |a| {
        assert c[i] == a[i] && a[i] in a;
        assert c[j] == b[j - |a|] && b[j - |a|] in b;
      } else {
        assert c[i] == b[i - |a|] && c[j] == b[j - |a|];
      }
    }
  }

  // ---------------------------------------------------------------------------
  // Seed level

  /** The seed loop returns `UrlError` exactly when some entry lacks a link or a title. */
  lemma {:induction false} SelectFeedsFailsFast(items: seq<Item>, seen: set<string>)
    ensures SelectFeeds(items, seen).failed <==> exists i :: 0 <= i < |items| && Malformed(items[i])
  {
    if items != [] {
      var init := items[..|items| - 1];
      SelectFeedsFailsFast(init, seen);
      if SelectFeeds(init, seen).failed {
        var i :| 0 <= i < |init| && Malformed(init[i]);
        assert items[i] == init[i];
      } else {
        if exists i :: 0 <= i < |items| && Malformed(items[i]) {
          var i :| 0 <= i < |items| && Malformed(items[i]);
          if i < |init| {
            assert init[i] == items[i];
          }
        }
      }
    }
  }

  /** Once the seed loop has failed, no later entry changes anything: no later
      entry is dispatched and nothing more is inserted into the seen-set. */
  lemma {:induction false} SelectFeedsStopsAtFailure(items: seq<Item>, more: seq<Item>, seen: set<string>)
    requires SelectFeeds(items, seen).failed
    ensures SelectFeeds(items + more, seen) == SelectFeeds(items, seen)
  {
    if more == [] {
      assert items + more == items;
    } else {
      var init := more[..|more| - 1];
      SelectFeedsStopsAtFailure(items, init, seen);
      assert (items + more)[..|items + more| - 1] == items + init;
    }
  }

  /** Each feed URL is dispatched at most once, never one that was already seen,
      and the seen-set grows by exactly the dispatched URLs. */
  lemma {:induction false} SelectFeedsDispatchesOnce(items: seq<Item>, seen: set<string>)
    ensures var r := SelectFeeds(items, seen);
      && Distinct(r.dispatched)
      && (forall u :: u in r.dispatched ==> u !in seen)
      && r.seen == seen + set u | u in r.dispatched
  {
    if items != [] {
      SelectFeedsDispatchesOnce(items[..|items| - 1], seen);
    }
  }

  /** Every dispatched URL is the link of some seed entry. */
  lemma {:induction false} SelectFeedsDispatchesSeedLinks(items: seq<Item>, seen: set<string>)
    ensures forall u :: u in SelectFeeds(items, seen).dispatched ==>
      exists i :: 0 <= i < |items| && items[i].link == Some(u)
  {
    if items != [] {
      var init := items[..|items| - 1];
      SelectFeedsDispatchesSeedLinks(init, seen);
      forall u | u in SelectFeeds(items, seen).dispatched
        ensures exists i :: 0 <= i < |items| && items[i].link == Some(u)
      {
        if u in SelectFeeds(init, seen).dispatched {
          var i :| 0 <= i < |init| && init[i].link == Some(u);
          assert items[i] == init[i];
        } else {
          assert items[|items| - 1].link == Some(u);
        }
      }
    }
  }

  /** When the seed loop completes, the link of every entry is in the seen-set:
      it was either seen before the run or dispatched by it. So every distinct
      feed URL of the seed file gets exactly one task. */
  lemma {:induction false} SelectFeedsCoversSeedLinks(items: seq<Item>, seen: set<string>)
    requires !SelectFeeds(items, seen).failed
    ensures forall i :: 0 <= i < |items| ==> items[i].link.Some? && items[i].link.value in SelectFeeds(items, seen).seen
  {
    if items != [] {
      var init := items[..|items| - 1];
      SelectFeedsCoversSeedLinks(init, seen);
      forall i | 0 <= i < |items|
        ensures items[i].link.Some? && items[i].link.value in SelectFeeds(items, seen).seen
      {
        if i < |init| {
          assert items[i] == init[i];
        }
      }
    }
  }

  /** Feeds are dispatched in seed-file order: what the loop has dispatched after
      the first `k` entries is a prefix of what it dispatches in the end. */
  lemma {:induction false} SelectFeedsInFileOrder(items: seq<Item>, seen: set<string>, k: nat)
    requires k <= |items|
    ensures SelectFeeds(items[..k], seen).dispatched <= SelectFeeds(items, seen).dispatched
  {
    if k < |items| {
      var init := items[..|items| - 1];
      assert items[..k] == init[..k];
      SelectFeedsInFileOrder(init, seen, k);
    } else {
      assert items[..k] == items;
    }
  }

  // ---------------------------------------------------------------------------
  // Article level

  /** An unparsable feed URL fails the whole feed if the feed has any item at
      all (the URL is parsed inside the loop), and nothing is dispatched. */
  lemma {:induction false} SelectArticlesUnparsableFeed(feedUrl: string, parse: string -> ParsedUrl, items: seq<Item>, seen: set<string>)
    requires parse(feedUrl) == ParseFailed
    ensures SelectArticles(feedUrl, parse, items, seen) == ArticleSelection([], seen, |items| > 0)
  {
    if items != [] {
      SelectArticlesUnparsableFeed(feedUrl, parse, items[..|items| - 1], seen);
    }
  }

  /** A feed URL without a host skips every item: nothing is dispatched, nothing
      is inserted, and the feed does not fail. */
  lemma {:induction false} SelectArticlesHostlessFeed(feedUrl: string, parse: string -> ParsedUrl, items: seq<Item>, seen: set<string>)
    requires parse(feedUrl) == Parsed(None)
    ensures SelectArticles(feedUrl, parse, items, seen) == ArticleSelection([], seen, false)
  {
    if items != [] {
      SelectArticlesHostlessFeed(feedUrl, parse, items[..|items| - 1], seen);
    }
  }

  /** The site key of every dispatched article is the host of the feed URL, not
      of the article's own link, and each article comes from an item with that
      link and that title. */
  lemma {:induction false} SelectArticlesSiteIsFeedHost(feedUrl: string, parse: string -> ParsedUrl, items: seq<Item>, seen: set<string>)
    ensures forall a :: a in SelectArticles(feedUrl, parse, items, seen).dispatched ==>
      && parse(feedUrl) == Parsed(Some(a.site))
      && exists i :: 0 <= i < |items| && items[i].link == Some(a.url) && items[i].title == Some(a.title)
  {
    if items != [] {
      var init := items[..|items| - 1];
      SelectArticlesSiteIsFeedHost(feedUrl, parse, init, seen);
      forall a | a in SelectArticles(feedUrl, parse, items, seen).dispatched
        ensures exists i :: 0 <= i < |items| && items[i].link == Some(a.url) && items[i].title == Some(a.title)
      {
        if a in SelectArticles(feedUrl, parse, init, seen).dispatched {
          var i :| 0 <= i < |init| && init[i].link == Some(a.url) && init[i].title == Some(a.title);
          assert items[i] == init[i];
        } else {
          assert items[|items| - 1].link == Some(a.url);
        }
      }
    }
  }

  /** Each article URL is dispatched at most once, never one already seen (as a
      feed or as an article), and the seen-set grows by exactly the dispatched links. */
  lemma {:induction false} SelectArticlesDispatchesOnce(feedUrl: string, parse: string -> ParsedUrl, items: seq<Item>, seen: set<string>)
    ensures var r := SelectArticles(feedUrl, parse, items, seen);
      && Distinct(Urls(r.dispatched))
      && (forall a :: a in r.dispatched ==> a.url !in seen)
      && r.seen == seen + set a | a in r.dispatched :: a.url
  {
    if items != [] {
      var init := items[..|items| - 1];
      SelectArticlesDispatchesOnce(feedUrl, parse, init, seen);
      ArticleStepDispatchesOnce(SelectArticles(feedUrl, parse, init, seen), feedUrl, parse, items[|items| - 1], seen);
    }
  }

  /** The article selection `s` has dispatched no link twice and none of `seen`,
      and its seen-set is `seen` plus the dispatched links. */
  ghost predicate DispatchedOnceSince(s: ArticleSelection, seen: set<string>)
  {
    && Distinct(Urls(s.dispatched))
    && (forall a :: a in s.dispatched ==> a.url !in seen)
    && s.seen == seen + set a | a in s.dispatched :: a.url
  }

  lemma ArticleStepDispatchesOnce(s: ArticleSelection, feedUrl: string, parse: string -> ParsedUrl, item: Item, seen: set<string>)
    requires DispatchedOnceSince(s, seen)
    ensures DispatchedOnceSince(ArticleStep(s, feedUrl, parse, item), seen)
  {
    var r := ArticleStep(s, feedUrl, parse, item);
    if !s.failed && parse(feedUrl).Parsed? && parse(feedUrl).host.Some? && item.link.Some? && item.title.Some?
       && item.link.value !in s.seen {
      var a := ArticleRef(item.link.value, parse(feedUrl).host.value, item.title.value);
      assert r == ArticleSelection(s.dispatched + [a], s.seen + {a.url}, false);
      SnocDispatchedOnce(s.dispatched, a, seen);
    } else {
      assert r.dispatched == s.dispatched && r.seen == s.seen;
    }
  }

  lemma SnocDispatchedOnce(d: seq<ArticleRef>, a: ArticleRef, seen: set<string>)
    requires Distinct(Urls(d)) && (forall b :: b in d ==> b.url !in seen)
    requires a.url !in seen + set b | b in d :: b.url
    ensures Distinct(Urls(d + [a])) && (forall b :: b in d + [a] ==> b.url !in seen)
    ensures (set b | b in d + [a] :: b.url) == (set b | b in d :: b.url) + {a.url}
  {
    UrlsSnoc(d, a);
    DistinctSnoc(Urls(d), a.url);
  }

  /** When the feed URL has a host and the feed does not fail, the link of every
      item that has a link and a title ends up in the seen-set. */
  lemma {:induction false} SelectArticlesCoversCompleteItems(feedUrl: string, parse: string -> ParsedUrl, items: seq<Item>, seen: set<string>)
    requires parse(feedUrl).Parsed? && parse(feedUrl).host.Some?
    ensures !SelectArticles(feedUrl, parse, items, seen).failed
    ensures forall i :: 0 <= i < |items| && items[i].link.Some? && items[i].title.Some? ==>
      items[i].link.value in SelectArticles(feedUrl, parse, items, seen).seen
  {
    if items != [] {
      var init := items[..|items| - 1];
      SelectArticlesCoversCompleteItems(feedUrl, parse, init, seen);
      forall i | 0 <= i < |items| && items[i].link.Some? && items[i].title.Some?
        ensures items[i].link.value in SelectArticles(feedUrl, parse, items, seen).seen
      {
        if i < |init| {
          assert items[i] == init[i];
        }
      }
    }
  }

  /** Articles are dispatched in feed order. */
  lemma {:induction false} SelectArticlesInFeedOrder(feedUrl: string, parse: string -> ParsedUrl, items: seq<Item>, seen: set<string>, k: nat)
    requires k <= |items|
    ensures SelectArticles(feedUrl, parse, items[..k], seen).dispatched <= SelectArticles(feedUrl, parse, items, seen).dispatched
  {
    if k < |items| {
      var init := items[..|items| - 1];
      assert items[..k] == init[..k];
      SelectArticlesInFeedOrder(feedUrl, parse, init, seen, k);
    } else {
      assert items[..k] == items;
    }
  }

  // ---------------------------------------------------------------------------
  // Both levels over one seen-set

  /** One run of a selection loop against the shared seen-set: the seed loop, or
      the article loop of one feed. A run over a single item is one iteration, so
      a sequence of passes can interleave the loops of different tasks item by item. */
  datatype Pass = SeedPass(items: seq<Item>) | FeedPass(feedUrl: string, items: seq<Item>)

  /** The URLs a pass dispatches and the seen-set it leaves. */
  function PassResult(p: Pass, parse: string -> ParsedUrl, seen: set<string>): (seq<string>, set<string>)
  {
    match p
    case SeedPass(items) =>
      var r := SelectFeeds(items, seen); (r.dispatched, r.seen)
    case FeedPass(feedUrl, items) =>
      var r := SelectArticles(feedUrl, parse, items, seen); (Urls(r.dispatched), r.seen)
  }

  /** The passes run one after another, threading the seen-set: every URL
      dispatched, in dispatch order, and the final seen-set. */
  function RunPasses(passes: seq<Pass>, parse: string -> ParsedUrl, seen: set<string>): (seq<string>, set<string>)
  {
    if passes == [] then ([], seen)
    else
      var (before, mid) := RunPasses(passes[..|passes| - 1], parse, seen);
      var (last, after) := PassResult(passes[|passes| - 1], parse, mid);
      (before + last, after)
  }

  /** One pass dispatches URLs free of repeats, none already seen, and adds
      exactly them to the seen-set. */
  lemma PassDispatchesOnce(p: Pass, parse: string -> ParsedUrl, seen: set<string>)
    ensures var (urls, seen') := PassResult(p, parse, seen);
      && Distinct(urls)
      && (forall u :: u in urls ==> u !in seen)
      && seen' == seen + set u | u in urls
  {
    match p {
      case SeedPass(items) => SelectFeedsDispatchesOnce(items, seen);
      case FeedPass(feedUrl, items) =>
        SelectArticlesDispatchesOnce(feedUrl, parse, items, seen);
        var r := SelectArticles(feedUrl, parse, items, seen);
        assert (set a | a in r.dispatched :: a.url) == set u | u in Urls(r.dispatched);
    }
  }

  /** Because feeds and articles share one seen-set, no URL is dispatched twice
      across the two levels, however the passes of the tasks are interleaved. */
  lemma {:induction false} SharedSeenSetDispatchesOnce(passes: seq<Pass>, parse: string -> ParsedUrl, seen: set<string>)
    ensures var (urls, seen') := RunPasses(passes, parse, seen);
      && Distinct(urls)
      && (forall u :: u in urls ==> u !in seen)
      && seen' == seen + set u | u in urls
  {
    if passes != [] {
      var init := passes[..|passes| - 1];
      SharedSeenSetDispatchesOnce(init, parse, seen);
      var (before, mid) := RunPasses(init, parse, seen);
      var (last, after) := PassResult(passes[|passes| - 1], parse, mid);
      PassDispatchesOnce(passes[|passes| - 1], parse, mid);
      DistinctConcat(before, last, mid);
      assert (set u | u in before + last) == (set u | u in before) + (set u | u in last);
    }
  }
}
