# RSS-Indexer concurrency core, modelled in Dafny

RSS-Indexer reads a seed RSS file. The seed file lists feeds, each feed lists
articles, and every article's words are added to a shared index. Two concurrent
strategies do this crawl, and this project models both, together with the
thread pool one of them uses:

- **multi.rs** spawns one thread per feed and one per article. Three kinds of
  counters limit how many threads run at once:
  - all threads together, at most 18;
  - feed threads, at most 5;
  - article threads per site, at most 10.
  A spawn first waits on a condition variable until its counters are below
  their ceilings. A thread that finishes releases what it acquired.
- **pooled.rs** hands the same work to two thread pools: 3 workers for feeds
  and 20 for articles.
- **threadpool.rs** is the pool itself. It is a FIFO channel of messages: a
  job, or a `None` sentinel telling one worker to stop. `drop` sends one
  sentinel per worker and then joins every worker.

Both strategies share one selection logic (module `Selection`).

- **Seed entries.** A seed entry without a link or a title aborts the whole
  run with `UrlError`.
- **Feed items.** An item without a link or a title is skipped, and so is
  every item when the feed URL has no host. A feed URL that fails to parse is
  an error for the whole feed, but only if the feed has at least one item,
  because the URL is parsed inside the loop.
- **Deduplication.** Feed URLs and article URLs go into one shared seen-set,
  so no URL is handed out twice across the two levels.
- **Site key.** An article is counted and indexed under the host of its
  *feed's* URL, not under the host of its own link.

The modules are:

- `Common`: the shared values, and the seen-set as a class (`SeenUrls`).
- `Selection`: both selection loops as functions over a prefix of their
  input, with their properties as lemmas.
- `Gate`: the counters as values, their acquire and release transitions, and
  traces of acquisitions and releases in any interleaving. The lemmas are
  about every such schedule: the ceilings always hold, tasks that complete
  return the counters to their starting values, and tasks that fail keep
  their slots.
- `Multi`: the counters as a class updated in place (`ThreadCount`), the
  admission and completion of a task, one iteration of each spawn loop, and
  the seed loop as a whole.
- `ThreadPools`: the pool as a class holding the channel, the join handles,
  the number of live workers and the log of jobs run.
- `Pooled`: the two submission loops over the pools.

Two external operations are inputs to the model:

- the RSS items of the seed file and of each fetched feed;
- `Url::parse`, as a function `parse` from a string to a parse failure or a
  parsed URL with an optional host.

## Model

| member | source | states |
|---|---|---|
| `Common.SeenUrls.constructor` | RSS-Indexer/src/multi.rs:47 | the shared seen-set starts empty |
| `Common.SeenUrls.Insert` | RSS-Indexer/src/multi.rs:64 | inserting a URL adds exactly that URL to the seen-set |
| `Gate.Acquire` | RSS-Indexer/src/multi.rs:67-81 | once its wait `count > MAX - 1` is over, an acquisition raises exactly one counter by one and leaves it within its ceiling; every other counter, including other sites' counters, is unchanged; an unseen site gets an entry (`or_insert(0)`, lines 149-155) |
| `Gate.Release` | RSS-Indexer/src/multi.rs:92-102 | a release lowers exactly one counter by one; every other counter is unchanged; a site keeps its entry (lines 183-185) |
| `Gate.RunTally` | RSS-Indexer/src/multi.rs:34-38 | after any feasible interleaving of acquisitions and releases, each counter has moved by its acquisitions minus its releases, whatever the order |
| `Gate.RunWithinCeilings` | RSS-Indexer/src/multi.rs:14-16 | from counters within their ceilings, every step of every schedule keeps total ≤ 18, feeds ≤ 5 and each site ≤ 10 |
| `Gate.InFlightTally` | RSS-Indexer/src/multi.rs:140-186 | with tasks admitted total-then-scoped and completed by releasing the same two slots, each counter exceeds its start by exactly the number of running tasks that hold it, in any interleaving |
| `Gate.CompletedTasksRestoreCounters` | RSS-Indexer/src/multi.rs:92-102 | once every task has completed normally, every counter is back to its starting value: each task released exactly what it acquired (feeds: total and feeds; articles: total and the same site key) |
| `Gate.RunningTasksWithinCeilings` | RSS-Indexer/src/multi.rs:67-81 | from idle counters, at no point do more than 18 tasks run, more than 5 feed tasks, or more than 10 article tasks of one site |
| `Gate.AbortedTasksBlockAdmission` | RSS-Indexer/src/multi.rs:88-103 | tasks that stop before their releases and hold as many slots of a counter as its ceiling make every later admission on that counter wait, whatever the other tasks do: complete, keep running, or abort too, in any interleaving |
| `Gate.FiveAbortedFeedTasks` | RSS-Indexer/src/multi.rs:90 | five feed tasks that fail in a row leave the feed counter at 5: the next feed admission must wait |
| `Multi.ThreadCount.constructor` | RSS-Indexer/src/multi.rs:50-54 | the counters start at zero with no site entry |
| `Multi.ThreadCount.AcquireTotal` | RSS-Indexer/src/multi.rs:68-72 | callable only when the total is below 18; raises the total by one, keeps all ceilings |
| `Multi.ThreadCount.AcquireFeed` | RSS-Indexer/src/multi.rs:76-80 | callable only when the feed counter is below 5; raises it by one, keeps all ceilings |
| `Multi.ThreadCount.AcquireSite` | RSS-Indexer/src/multi.rs:149-155 | gives an unseen site the entry 0, is callable only when that site is below 10, raises that entry only |
| `Multi.ThreadCount.ReleaseTotal` | RSS-Indexer/src/multi.rs:93-95 | lowers the total by one |
| `Multi.ThreadCount.ReleaseFeed` | RSS-Indexer/src/multi.rs:99-101 | lowers the feed counter by one |
| `Multi.ThreadCount.ReleaseSite` | RSS-Indexer/src/multi.rs:183-185 | lowers the counter of that site only; the entry stays |
| `Multi.AdmitFeedTask` | RSS-Indexer/src/multi.rs:67-81 | the counters change exactly as the schedule "total, then feeds" does |
| `Multi.CompleteFeedTask` | RSS-Indexer/src/multi.rs:92-102 | the counters change exactly as the schedule "release total, then feeds" does |
| `Multi.AdmitArticleTask` | RSS-Indexer/src/multi.rs:140-156 | the counters change exactly as the schedule "total, then the site" does |
| `Multi.CompleteArticleTask` | RSS-Indexer/src/multi.rs:176-186 | the counters change exactly as the schedule "release total, then the same site" does |
| `Multi.FeedIteration` | RSS-Indexer/src/multi.rs:56-106 | one seed entry is handled as the seed selection step says: a missing link or title returns `UrlError`; a seen URL changes no counter; a new URL is inserted into the seen-set, then admitted (total, then feeds), then spawned |
| `Multi.ArticleIteration` | RSS-Indexer/src/multi.rs:125-190 | one feed item is handled as the article selection step says: an unparsable feed URL returns the error, an incomplete item or a hostless feed URL is skipped, a seen link changes nothing; a new link is inserted, admitted under the feed's host, then spawned |
| `Multi.WaitForFeedSlot` | RSS-Indexer/src/multi.rs:67-81 | under the schedule in which the oldest running feed task completes whenever the seed loop would wait, the wait ends with fewer than 5 feed tasks and fewer than 18 tasks running, and no more tasks complete than needed |
| `Multi.JoinFeedTasks` | RSS-Indexer/src/multi.rs:107-109 | joining every running feed task returns every counter to zero |
| `Multi.ProcessFeedFile` | RSS-Indexer/src/multi.rs:42-111 | returns `UrlError` exactly when some seed entry lacks a link or title; spawns one feed task per new feed URL in file order; on success all handles are joined and every counter is back to zero; on error the unfinished tasks are left unjoined and still hold their slots |
| `Selection.FeedStepMeaning` | RSS-Indexer/src/multi.rs:56-64 | one iteration of the seed loop (`FeedStep`): an entry lacking a link or a title (`Malformed`) fails the loop for good; the entry's link is dispatched exactly when the loop has not failed, the entry is well formed and the link is not in the seen-set; a dispatched link is appended after the earlier ones and joins the seen-set, and nothing else changes |
| `Selection.SelectFeedsBounds` | RSS-Indexer/src/pooled.rs:31-39 | the seed loop over a whole file (`SelectFeeds`, the iteration applied entry by entry) only adds to the seen-set and dispatches at most one feed per entry |
| `Selection.ArticleStepMeaning` | RSS-Indexer/src/multi.rs:125-135 | one iteration of the article loop (`ArticleStep`): `Url::parse` of the feed URL is evaluated before the item's fields are matched, so a parse failure fails the feed whatever the item holds; an article is dispatched exactly when the loop has not failed, the item has a link and a title, the feed URL has a host and the link is new; it carries the item's link and title under the feed's host, and its link joins the seen-set; nothing else changes |
| `Selection.SelectArticlesBounds` | RSS-Indexer/src/pooled.rs:67-77 | the article loop over a whole feed (`SelectArticles`) only adds to the seen-set, dispatches at most one article per item, and fails only when the feed has an item and its URL does not parse |
| `Selection.SelectFeedsFailsFast` | RSS-Indexer/src/multi.rs:57-58 | the seed loop fails if and only if some entry lacks a link or a title |
| `Selection.SelectFeedsStopsAtFailure` | RSS-Indexer/src/pooled.rs:31-33 | once the seed loop has failed, later entries dispatch nothing and insert nothing |
| `Selection.SelectFeedsDispatchesOnce` | RSS-Indexer/src/multi.rs:60-64 | dispatched feed URLs are pairwise distinct and none was seen before; the seen-set grows by exactly the dispatched URLs |
| `Selection.SelectFeedsDispatchesSeedLinks` | RSS-Indexer/src/pooled.rs:31-46 | every dispatched feed URL is the link of some seed entry |
| `Selection.SelectFeedsCoversSeedLinks` | RSS-Indexer/src/pooled.rs:35-39 | when the seed loop completes, every entry's link is in the seen-set, so every distinct feed URL got a task or was seen already |
| `Selection.SelectFeedsInFileOrder` | RSS-Indexer/src/pooled.rs:31-49 | feeds are dispatched in seed-file order: what is dispatched after the first k entries is a prefix of the final dispatch list |
| `Selection.SelectArticlesUnparsableFeed` | RSS-Indexer/src/multi.rs:126 | an unparsable feed URL dispatches nothing and fails the feed exactly when the feed has an item |
| `Selection.SelectArticlesHostlessFeed` | RSS-Indexer/src/pooled.rs:68-71 | a feed URL without a host skips every item: nothing is dispatched or inserted, and the feed does not fail |
| `Selection.SelectArticlesSiteIsFeedHost` | RSS-Indexer/src/multi.rs:126-129 | every dispatched article's site key is the feed URL's host, and its URL and title are those of one item |
| `Selection.SelectArticlesDispatchesOnce` | RSS-Indexer/src/pooled.rs:73-77 | dispatched article URLs are pairwise distinct and none was seen before (as a feed or an article); the seen-set grows by exactly them |
| `Selection.SelectArticlesCoversCompleteItems` | RSS-Indexer/src/multi.rs:125-135 | with a parsed feed URL that has a host, the feed does not fail and every item with a link and a title ends with its link in the seen-set |
| `Selection.SelectArticlesInFeedOrder` | RSS-Indexer/src/pooled.rs:67-98 | articles are dispatched in feed order |
| `Selection.SharedSeenSetDispatchesOnce` | RSS-Indexer/src/multi.rs:85-90 | because feed and article loops share one seen-set, no URL is dispatched twice across both levels, however the loops of the tasks interleave item by item |
| `ThreadPools.DrainingReceive` | RSS-Indexer/src/threadpool.rs:63-69 | while `drop` joins the workers, a worker's turn keeps the channel consistent: a job is taken only while no worker has left, and a sentinel only when no job is left |
| `ThreadPools.ThreadPool.constructor` | RSS-Indexer/src/threadpool.rs:31-46 | `new(n)` has exactly n workers, all in their loop, and an empty channel |
| `ThreadPools.ThreadPool.Execute` | RSS-Indexer/src/threadpool.rs:50-56 | the job is appended to the back of the channel; nothing runs and no worker changes |
| `ThreadPools.ThreadPool.Receive` | RSS-Indexer/src/threadpool.rs:37-43 | a worker takes the front message: a job is removed and run once, a sentinel makes that worker leave its loop |
| `ThreadPools.ThreadPool.Drop` | RSS-Indexer/src/threadpool.rs:62-70 | when `drop` returns, no worker is left and, with at least one worker, every job ever submitted has run exactly once, in submission order, and the channel is empty |
| `Pooled.ProcessFeedFile` | RSS-Indexer/src/pooled.rs:20-53 | creates the feed pool with 3 workers and the site pool with 20 (`size`); returns `UrlError` exactly when some seed entry lacks a link or title; the feed jobs submitted are exactly the selected feed URLs, in file order; on either exit the feed pool is dropped and every submitted feed job has run, once and in order |
| `Pooled.ArticleIteration` | RSS-Indexer/src/pooled.rs:67-98 | one feed item is handled as the article selection step says: an unparsable feed URL returns the error, an incomplete item or a hostless feed URL is skipped, a seen link changes nothing; a new link is inserted and its article, under the feed's host, goes to the back of the site pool's channel |
| `Pooled.ProcessFeedJob` | RSS-Indexer/src/pooled.rs:57-100 | a feed that cannot be fetched returns `FetchError` and changes nothing; otherwise the article jobs submitted to the site pool are exactly the selected articles, in feed order, under the feed's host, and the seen-set becomes the selection's; the result is `UrlParseError` exactly when the selection fails; the site pool's workers are untouched and no job runs |

## Left out

- Threads, mutexes, condition variables, `notify_one` wake-ups and `join` are not modelled as such. A wait loop is the precondition of the acquisition after it. Interleavings are the traces of `Gate`.
- The seen-set is checked and then inserted under two separate lock acquisitions (multi.rs:60/64 and 131/135, pooled.rs:35/39 and 73/77). Here the check and the insert happen together. In the source, two tasks can both pass the check for the same URL and both dispatch it. `Selection.SharedSeenSetDispatchesOnce` holds only for the atomic version.
- Multi.ArticleIteration: the article loop of multi.rs's `process_feed` is modelled one iteration at a time. A whole run of it would need other threads to release site and total slots. Not modelled: the fetch of the feed (lines 121-123), the join loop at lines 191-193, and the early return on a parse error. The URL parsed at line 126 is the feed URL, the same on every iteration, so that return can only happen at the first item, before any article thread is spawned (`Selection.SelectArticlesUnparsableFeed`: nothing is dispatched).
- Multi.ProcessFeedFile: runs the seed loop under one schedule. When the loop waits, the oldest running feed task completes. The feed tasks' own work is not run, so in this model they spawn no article tasks.
- The panics are not modelled, except as the finding below. These are the `unwrap` calls at multi.rs:90 and 167, the joins at multi.rs:108 and 192, the job bodies at pooled.rs:48 and 95, and threadpool.rs:38, 55, 64 and 68. A panicking pool job kills its worker. `ThreadPools.ThreadPool.Drop` assumes no job panics.
- ThreadPools.ThreadPool.Execute: with zero workers, the receiver is dropped when `new` returns, so `execute` panics on the closed channel (threadpool.rs:55). This model appends the job instead. `drop` on such a pool sends nothing and returns, as `ThreadPools.ThreadPool.Drop` states; the "every job ran" guarantee is stated only for pools with at least one worker.
- Workers are anonymous. Whichever worker takes a message, the log `ran` is in channel order. Which thread runs which job is not modelled.
- Running a job is appending it to the log `ran`. What the job does is not modelled: `process_feed` for a feed job, `process_article` and `ArticleIndex::add` for an article job. A job is identified with what its closure captures: a feed job is its feed URL, and an article job is its article (URL, site key and title). `Article::new`, `process_article` and `ArticleIndex` are in a module that is not part of this model.
- Pooled.ProcessFeedFile: the site pool is returned still running and empty. In the source it is shared with the feed jobs through an `Arc` and is dropped, draining its channel, when the last reference goes: inside the last feed job to finish, or at the end of `process_feed_file`. Feed jobs do not run `process_feed` against it here, so nothing reaches it from this method; `Pooled.ProcessFeedJob` models what a feed job submits.
- Opening and reading the seed file, the HTTP fetch and RSS parsing are inputs. The seed file's items are passed in. `Pooled.ProcessFeedJob` receives the fetched feed's items, or `None` when the fetch or the parse failed.
- `Url::parse` and `host_str` are a function parameter `parse`.
- The error type's own module is not part of this model. `UrlParseError` and `FetchError` stand for the variants that a URL parse error and a fetch or RSS error convert into.
- Counters are `u32` in the source. Every counter stays within its ceiling and every release follows its acquisition, so wrap-around cannot occur. Release is required to find a positive counter.
- The `println!` logging is left out.

## Findings

| source | as written | input that shows it | evidently intended | confidence | as-written member | corrected member |
|---|---|---|---|---|---|---|
| RSS-Indexer/src/multi.rs:90 | `process_feed(..).unwrap()` panics when `process_feed` returns an error. The releases at lines 92-102 are then skipped, so a failed feed task keeps its total slot and its feed slot for good. The unwrap at line 167 does the same to an article task: the releases of its total slot (lines 177-179) and of its site slot (lines 183-185) are skipped. | A seed file with six distinct feed links whose first five feeds cannot be fetched. The five feed tasks panic, the feed counter stays at 5, and the seed loop waits at line 77 forever before spawning the sixth. | A task releases its slots on every exit path. A failed feed only ends that task. | not executed | `Gate.FiveAbortedFeedTasks` | `Gate.CompletedTasksRestoreCounters` |
