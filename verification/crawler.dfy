/** The crawl engine: a FIFO frontier of URLs, the set of URLs already
    visited, the growing list of extracted articles and the checkpoints
    written along the way, advanced one loop iteration at a time. */
module Crawler {
  import opened Options
  import opened UrlFilter
  import opened Html
  import opened Extraction

  /** A checkpoint is written whenever the article count is a multiple of
      this. */
  const SAVE_INTERVAL: nat := 5

  /** The run stops once this many articles have been collected. */
  const MAX_ARTICLES: nat := 2000

  /** The crawler's collaborators, which the model leaves uninterpreted: the
      download of a URL (`None` for a network error, a timeout or an error
      status), the HTML parser, and URL resolution of an `href` against the
      page it appears on. */
  datatype Env = Env(
    fetch: string -> Option<string>,
    parse: string -> Page,
    urljoin: (string, string) -> string
  )

  /** The crawler's state between two loop iterations. `queue`, `visited` and
      `articles` are the program's own variables; the other fields are logs
      of what the program did: every snapshot written to the output file,
      every URL handed to the downloader, every URL taken from and put into
      the queue, each oldest first. */
  datatype CrawlState = CrawlState(
    queue: seq<string>,
    visited: set<string>,
    articles: seq<Article>,
    saves: seq<seq<Article>>,
    fetched: seq<string>,
    dequeued: seq<string>,
    enqueued: seq<string>
  )

  /** The state at the top of the loop: the seeds are enqueued, nothing else
      has happened. */
  function Init(): (s: CrawlState)
    ensures s.queue == s.enqueued == BASE_URLS
    ensures s.visited == {} && s.articles == [] && s.saves == []
  {
    CrawlState(BASE_URLS, {}, [], [], [], [], BASE_URLS)
  }

  /** The loop guard: the queue is not empty and fewer than the maximum
      number of articles have been collected. */
  predicate Running(s: CrawlState) {
    |s.queue| > 0 && |s.articles| < MAX_ARTICLES
  }

  /** The page body, when the download succeeded with a non-empty body; an
      empty body is skipped exactly like a failed download. */
  function Body(env: Env, url: string): (r: Option<string>)
    ensures r.Some? <==> env.fetch(url).Some? && env.fetch(url).value != ""
    ensures r.Some? ==> r == env.fetch(url)
  {
    match env.fetch(url)
    case Some(b) => if b == "" then None else Some(b)
    case None => None
  }

  /** The record the crawler keeps for a URL it visits: only when the
      download succeeded, the URL itself passes the article gate, and the
      page parses. */
  function Harvest(env: Env, url: string): (r: Option<Article>)
    ensures r.Some? ==> Body(env, url).Some? && IsArticleUrl(url) && r.value.url == url
    ensures r.Some? <==> Body(env, url).Some? && IsArticleUrl(url)
                         && !Malformed(env.parse(Body(env, url).value))
  {
    match Body(env, url)
    case Some(body) => if IsArticleUrl(url) then ParseArticle(url, env.parse(body)) else None
    case None => None
  }

  /** Every `href` of a page resolved against the page's URL. */
  function Resolve(env: Env, base: string, hrefs: seq<string>): (r: seq<string>)
    ensures |r| == |hrefs|
    ensures forall k :: 0 <= k < |hrefs| ==> r[k] == env.urljoin(base, hrefs[k])
  {
    seq(|hrefs|, k requires 0 <= k < |hrefs| => env.urljoin(base, hrefs[k]))
  }

  /** A resolved link goes into the queue when it has not been visited and
      passes the article gate. */
  predicate Offerable(visited: set<string>, u: string) {
    u !in visited && IsArticleUrl(u)
  }

  /** The links of a page that go into the queue, in document order,
      duplicates kept. */
  function Discover(links: seq<string>, visited: set<string>): (r: seq<string>)
    ensures |r| <= |links|
    ensures forall u :: u in r <==> u in links && Offerable(visited, u)
    ensures (forall k :: 0 <= k < |links| ==> Offerable(visited, links[k])) ==> r == links
  {
    if |links| == 0 then []
    else
      var rest := Discover(links[1..], visited);
      assert forall u :: u in links <==> u == links[0] || u in links[1..];
      if Offerable(visited, links[0]) then [links[0]] + rest else rest
  }

  /** A single link is queued exactly when it is offerable. */
  lemma DiscoverOne(u: string, visited: set<string>)
    ensures Discover([u], visited) == if Offerable(visited, u) then [u] else []
  {
    assert [u][1..] == [];
  }

  /** Discovery runs link by link: the links queued from two consecutive runs
      of links are those of the first run followed by those of the second, so
      order and duplicates of the page's links carry over to the queue. */
  lemma {:induction false} DiscoverAppend(a: seq<string>, b: seq<string>, visited: set<string>)
    ensures Discover(a + b, visited) == Discover(a, visited) + Discover(b, visited)
  {
    if |a| == 0 {
      assert a + b == b;
    } else {
      assert (a + b)[1..] == a[1..] + b;
      DiscoverAppend(a[1..], b, visited);
    }
  }

  /** One iteration of the crawl loop. The head of the queue is taken off;
      a URL visited before is dropped without further work. Otherwise the
      URL is marked visited and then downloaded. When the download yields a
      body, the page's record is appended if there is one, every link of
      the page that is offerable is put at the back of the queue, and the
      article list is saved if its length is a multiple of the interval. */
  function Step(env: Env, s: CrawlState): (s': CrawlState)
    requires Running(s)
    ensures s'.dequeued == s.dequeued + [s.queue[0]]
    ensures s'.visited == s.visited + {s.queue[0]}
    ensures s.queue[0] in s.visited ==> s'.fetched == s.fetched
    ensures s.queue[0] !in s.visited ==> s'.fetched == s.fetched + [s.queue[0]]
    ensures s.enqueued <= s'.enqueued
    ensures s'.queue == s.queue[1..] + s'.enqueued[|s.enqueued|..]
    ensures forall u :: u in s'.enqueued[|s.enqueued|..] ==> Offerable(s'.visited, u)
    ensures s.queue[0] !in s.visited && Body(env, s.queue[0]).Some?
            ==> s'.enqueued[|s.enqueued|..]
                == Discover(Resolve(env, s.queue[0], env.parse(Body(env, s.queue[0]).value).hrefs), s'.visited)
    ensures s.queue[0] in s.visited || Body(env, s.queue[0]).None? ==> s'.enqueued == s.enqueued
    ensures s.queue[0] !in s.visited && Harvest(env, s.queue[0]).Some?
            ==> s'.articles == s.articles + [Harvest(env, s.queue[0]).value]
    ensures s.queue[0] in s.visited || Harvest(env, s.queue[0]).None? ==> s'.articles == s.articles
    ensures s.queue[0] !in s.visited && Body(env, s.queue[0]).Some? && |s'.articles| % SAVE_INTERVAL == 0
            ==> s'.saves == s.saves + [s'.articles]
    ensures !(s.queue[0] !in s.visited && Body(env, s.queue[0]).Some? && |s'.articles| % SAVE_INTERVAL == 0)
            ==> s'.saves == s.saves
  {
    var url := s.queue[0];
    var rest := s.queue[1..];
    var s1 := s.(queue := rest, dequeued := s.dequeued + [url]);
    if url in s.visited then
      assert s.enqueued[|s.enqueued|..] == [];
      s1
    else
      var s2 := s1.(visited := s.visited + {url}, fetched := s.fetched + [url]);
      match Body(env, url)
      case None =>
        assert s.enqueued[|s.enqueued|..] == [];
        s2
      case Some(body) =>
        var page := env.parse(body);
        var record := if IsArticleUrl(url) then ParseArticle(url, page) else None;
        var articles := if record.Some? then s.articles + [record.value] else s.articles;
        var found := Discover(Resolve(env, url, page.hrefs), s2.visited);
        assert (s.enqueued + found)[|s.enqueued|..] == found;
        var s3 := s2.(articles := articles, queue := rest + found, enqueued := s.enqueued + found);
        if |articles| % SAVE_INTERVAL == 0 then s3.(saves := s.saves + [articles]) else s3
  }
}
