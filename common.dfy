/** Values shared by both crawl strategies (the thread-per-task strategy of
    multi.rs and the thread-pool strategy of pooled.rs). */
module Common {

  datatype Option<T> = None | Some(value: T)

  /** The errors the core raises or propagates with `?`. `UrlError` is raised
      for a seed entry without a link or a title; `UrlParseError` stands for the
      variant a failed `Url::parse` converts into; `FetchError` stands for any
      error of fetching a feed over HTTP or reading its bytes as RSS. */
  datatype RssIndexError = UrlError | UrlParseError | FetchError

  /** What `process_feed_file` and `process_feed` return. */
  datatype Outcome = Ok | Err(error: RssIndexError)

  /** An RSS item as the core sees it: an optional link and an optional title. */
  datatype Item = Item(link: Option<string>, title: Option<string>)

  /** The result of `Url::parse` on a feed URL: a parse failure, or a parsed URL
      with an optional host (`host_str()`). */
  datatype ParsedUrl = ParseFailed | Parsed(host: Option<string>)

  /** An article selected for processing: its link, the site key it is counted
      and indexed under, and its title. */
  datatype ArticleRef = ArticleRef(url: string, site: string, title: string)

  /** True when no two positions of `s` hold the same value. */
  predicate Distinct<T(==)>(s: seq<T>)
  {
    forall i, j :: 0 <= i < j < |s| ==> s[i] != s[j]
  }

  /** The set of URLs seen so far, feeds and articles alike, shared by every
      task of a run (`Arc<Mutex<HashSet<String>>>`). The lock is not modelled:
      a membership test and the insert that follows it happen together here. */
  class SeenUrls {
    var urls: set<string>

    /** The set `process_feed_file` starts with: empty. */
    constructor ()
      ensures urls == {}
    {
      urls := {};
    }

    predicate Contains(url: string)
      reads this
    {
      url in urls
    }

    method Insert(url: string)
      modifies this
      ensures urls == old(urls) + {url}
    {
      urls := urls + {url};
    }
  }
}
