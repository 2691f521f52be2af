# A verified model of the news-site crawler

This project models, in Dafny, the crawl engine of a small Python crawler
(`second.py`) that collects articles from three Czech news sites. The model
has three parts.

* **Frontier and run loop.** The state holds a FIFO queue of URLs, the set of
  visited URLs, the append-only list of extracted articles, and the
  checkpoints saved so far. One loop iteration is the pure function
  `Crawler.Step`, and `CrawlRun.Run` repeats it. The state also logs every
  URL downloaded, dequeued and enqueued. These logs record what the program
  did; they are not program variables. They let the contracts state
  at-most-once download, FIFO order and the pattern gate.
* **Article extraction.** `Extraction.ParseArticle` maps a parsed page
  (`Html.Page`: the elements the extractor looks up) to a record, or to no
  record when a `KeyError` aborts the page.
* **Substring pattern test.** `TextOps.Contains` and `UrlFilter.IsArticleUrl`
  model `any(pattern in url for pattern in ARTICLE_PATTERNS)`.

The downloader, the HTML parser and `urljoin` are uninterpreted. They are
the three fields of `Crawler.Env`. A save appends a snapshot of the article
list to the state's `saves` log.

Modules: `Options` (optional values), `TextOps` (strip, `get_text`, join,
substring), `UrlFilter` (seeds, patterns, gate), `Html` (page model, meta
lookup), `Extraction` (fields and records), `Crawler` (state and one loop
iteration) and `CrawlRun` (invariant, bounded run, end-of-run guarantees).

Some behaviour of the code is easy to misread. The model follows the code:

* A checkpoint is written after every successful download whose article
  count is then a multiple of 5. This includes a count of 0, and it repeats
  while the count stays on a multiple. It is not limited to the moment an
  extraction reaches a positive multiple.
* A download that returns an empty body counts as a failure (`if not html`).
  The URL is still marked visited, and there is no link discovery and no
  checkpoint.
* `get_text(strip=True)` strips each text fragment of an element and joins
  the fragments with no separator. White space between fragments is removed
  too, not only at the ends.
* None of the three seed URLs passes the article gate. Seed pages are
  downloaded only for their links and never yield a record.

## Model

| member | source | states |
|---|---|---|
| TextOps.Strip | second.py:38 | the stripped text has no white space at either end, and the input is that text padded with white space only |
| TextOps.StripUnique | second.py:38 | a string without edge white space that the input pads with white space is exactly the stripped input |
| TextOps.StripIdempotent | second.py:38 | stripping an already stripped text changes nothing |
| TextOps.GetText | second.py:57 | text read with `strip=True` never starts or ends with white space, even across several fragments |
| TextOps.GetTextOne | second.py:38 | the text of a single fragment is that fragment stripped |
| TextOps.GetTextAppend | second.py:57 | the text of consecutive fragments is their stripped texts joined with no separator |
| TextOps.JoinSplitRoundTrip | second.py:63 | when no piece holds a space, splitting the space-joined text gives back the pieces in order |
| TextOps.JoinEmptyAmbiguous | second.py:63 | joined content is the empty string both for no paragraphs and for one empty paragraph |
| TextOps.ContainsIff | second.py:107 | the computed `pattern in url` holds exactly when the pattern occurs at some index of the URL |
| UrlFilter.MatchesAnyIff | second.py:107 | the short-circuit `any` over the patterns holds exactly when some pattern occurs somewhere in the URL |
| UrlFilter.SeedsAreNotArticleUrls | second.py:8-11 | none of the three seed URLs contains any of the article patterns |
| Html.FindMeta | second.py:42-47 | a found meta tag is one of the page's tags and carries the attribute value looked up |
| Html.FindMetaNone | second.py:43 | the meta lookup finds nothing exactly when no tag carries the attribute value |
| Html.FindMetaFirst | second.py:42-47 | the meta lookup returns the first matching tag in document order, whatever tags follow it |
| Extraction.ContentOf | second.py:42 | indexing `content` succeeds exactly when the meta tag carries the attribute, and raises `KeyError` otherwise |
| Extraction.Title | second.py:38 | the title never has white space at either end |
| Extraction.Comments | second.py:54-57 | the comment count text never has white space at either end |
| Extraction.ParseArticle | second.py:34-80 | the page yields no record exactly when the chosen meta tag lacks `content` or the time element lacks `datetime`; otherwise the record has the visited URL, the heading text or the title sentinel, the category from the fallback chain, the anchor text or "0", the image count, the joined paragraphs, and the `datetime` value or the date sentinel |
| Extraction.FirstPresent | second.py:41-51 | the result is the first present source of the chain, or the fallback when every source is absent |
| Extraction.CategoryIsFirstPresent | second.py:41-51 | the category is the first present source of meta name=category, meta property=article:section, meta name=section, div.category, else "Neznámá kategorie" |
| Extraction.CategoryMetaWins | second.py:41-43 | when the first name=category meta tag has content, that content is the category, whatever other category sources the page has |
| Extraction.MissingContentAborts | second.py:36-80 | a first name=category meta tag without `content` makes the whole page yield no record, even when a later source has a value |
| Extraction.MissingDatetimeAborts | second.py:66-80 | a time element without `datetime` makes the whole page yield no record |
| Extraction.SentinelRecord | second.py:36-77 | a page with no heading, no time element, no category container, no comment anchor and no meta tag named category or section or with property article:section yields a record whose fields are the sentinels, apart from the image count and the content; other meta tags do not matter |
| Extraction.ContentRoundTrip | second.py:63 | the content keeps one piece per paragraph in document order; with no spaces inside the paragraphs, splitting it gives back the paragraph texts |
| Crawler.Init | second.py:90-91 | a run starts with exactly the three seeds queued, nothing visited, no articles and no saves |
| Crawler.Body | second.py:100-102 | a page is processed only when its download succeeded with a non-empty body |
| Crawler.Harvest | second.py:100-110 | a record is kept for a URL only when its download succeeded, the URL itself passes the article gate and the page is not malformed; the record's URL is the visited URL |
| Crawler.Resolve | second.py:114-115 | every href of the page is resolved against the current page URL, one result per href |
| Crawler.Discover | second.py:114-117 | a link is queued exactly when it is among the page's resolved links, is unvisited and passes the article gate; when every link qualifies, all are queued in document order |
| Crawler.DiscoverOne | second.py:115-117 | a single resolved link is queued exactly when it is unvisited and passes the article gate |
| Crawler.DiscoverAppend | second.py:114-117 | the links queued from two consecutive runs of links are those of the first run followed by those of the second, so document order and duplicates carry over to the queue |
| Crawler.Step | second.py:93-122 | one iteration: the head URL is dequeued and marked visited, and downloaded only if it was not visited before; on a usable body the record is appended exactly when `Harvest` yields one, links are discovered whatever the extraction outcome, and the list is saved exactly when its length is a multiple of 5; the queue stays FIFO and every new entry is unvisited and article-shaped |
| CrawlRun.InitInv | second.py:87-91 | the crawl invariant holds once the seeds are enqueued |
| CrawlRun.StepQueueInv | second.py:90-117 | each iteration keeps "dequeued, then queued" equal to "enqueued", with the seeds first and every later entry article-shaped |
| CrawlRun.StepVisitInv | second.py:94-100 | each iteration keeps the download log free of repeats and equal, as a set, to the visited set and to the dequeued URLs |
| CrawlRun.StepArticlesInv | second.py:93-110 | each iteration keeps at most 2000 records, each record the one its visited URL yields, and no URL with two records |
| CrawlRun.StepSavesMonotone | second.py:110-121 | each iteration keeps every checkpoint a prefix of the article list, a multiple of 5 long, and a prefix of every later checkpoint |
| CrawlRun.StepPreservesInv | second.py:93-122 | one loop iteration preserves the whole crawl invariant |
| CrawlRun.Run | second.py:93-122 | a bounded run preserves the invariant and only extends the state; it stops early only when the queue is empty or the cap is reached |
| CrawlRun.Finish | second.py:124-125 | the final save writes the whole article list and changes nothing else |
| CrawlRun.CrawlGuarantees | second.py:87-126 | at the end of a run no URL was downloaded twice, only seeds and article-shaped URLs were downloaded, there are at most 2000 records, each one from its own URL, every checkpoint is a prefix of every later one, and the last save is the whole list |
| CrawlRun.FetchedEligible | second.py:90-117 | only seeds and article-shaped URLs are ever downloaded |
| CrawlRun.NonArticlePageResaves | second.py:107-121 | a downloaded page that is not article-shaped adds no record, and the unchanged list is saved again when its length is a multiple of 5 |
| CrawlRun.FirstSeedCheckpointsEmpty | second.py:90-121 | the first iteration of a run saves an empty snapshot as soon as the first seed's page downloads |

## Left out

- HTTP retrieval (`fetch_html`, second.py:24-32) is the uninterpreted `Env.fetch`. Timeouts, status codes and network errors are all just `None`.
- HTML parsing is out of scope. `Env.parse` turns a body into a `Page`, and a `Page` already holds the first `h1`, `time`, category container and comment anchor, plus every meta tag, `img`, `p` and `a href`. Class matching for `div.category` and the comment anchor belongs to the parser.
- `urljoin` is the uninterpreted `Env.urljoin`.
- CrawlRun.CrawlGuarantees: in the model `urljoin`, the parser and `save_to_json` never raise. In the source the link loop and the checkpoint (second.py:114-121) sit outside any `try`. A `ValueError` from `urljoin` on a malformed href, or an `OSError` from a save, ends `crawl()` at once, so the final save at second.py:125 does not run and records gathered since the last checkpoint are lost. The guarantee that the last save is the whole list holds only for runs where none of these raise.
- `save_to_json` (second.py:82-85) is modelled as appending a snapshot to `saves`. JSON encoding, file writing and reading the file back are not modelled.
- `print` logging is not modelled; it only affects the console.
- Termination of a whole crawl is not proved. Links can name unboundedly many URLs, so `CrawlRun.Run` takes a fuel bound on the number of loop iterations. `CrawlRun.Run` states that it stops early only on the loop guard.
- `parse_article` catches every exception. In the model the only failures are the two missing-attribute lookups, since nothing else in the function can raise on a parsed page.
