/** The crawl as a whole: the invariant every loop iteration preserves, the
    bounded run of the loop, and what the run guarantees at its end. */
module CrawlRun {
  import opened Options
  import opened UrlFilter
  import opened Extraction
  import opened Crawler

  predicate NoDup(xs: seq<string>) {
    forall i, j :: 0 <= i < j < |xs| ==> xs[i] != xs[j]
  }

  /** Every checkpoint is a prefix of the article list, holds a multiple of
      the interval, and each checkpoint is a prefix of every later one. */
  ghost predicate SavesMonotone(saves: seq<seq<Article>>, articles: seq<Article>) {
    && (forall k :: 0 <= k < |saves| ==> saves[k] <= articles && |saves[k]| % SAVE_INTERVAL == 0)
    && (forall k, l :: 0 <= k < l < |saves| ==> saves[k] <= saves[l])
  }

  /** The queue is first in, first out; the seeds come first and every
      later entry passed the article gate. */
  ghost predicate QueueInv(s: CrawlState) {
    && s.dequeued + s.queue == s.enqueued
    && |BASE_URLS| <= |s.enqueued| && s.enqueued[..|BASE_URLS|] == BASE_URLS
    && (forall k :: |BASE_URLS| <= k < |s.enqueued| ==> IsArticleUrl(s.enqueued[k]))
  }

  /** Each URL was downloaded at most once, and the visited set is exactly
      the set of URLs downloaded, which is the set of URLs dequeued. */
  ghost predicate VisitInv(s: CrawlState) {
    && NoDup(s.fetched)
    && (forall u :: u in s.visited <==> u in s.fetched)
    && (forall u :: u in s.dequeued <==> u in s.fetched)
  }

  /** The cap holds, every record is the one its visited URL yields, and no
      URL has two records. */
  ghost predicate ArticlesInv(env: Env, s: CrawlState) {
    && |s.articles| <= MAX_ARTICLES
    && (forall i :: 0 <= i < |s.articles| ==>
          s.articles[i].url in s.visited && Harvest(env, s.articles[i].url) == Some(s.articles[i]))
    && (forall i, j :: 0 <= i < j < |s.articles| ==> s.articles[i].url != s.articles[j].url)
  }

  /** What holds between any two iterations of the crawl loop. */
  ghost predicate Inv(env: Env, s: CrawlState) {
    QueueInv(s) && VisitInv(s) && ArticlesInv(env, s) && SavesMonotone(s.saves, s.articles)
  }

  lemma InitInv(env: Env)
    ensures Inv(env, Init())
  {
  }

  lemma StepSavesMonotone(env: Env, s: CrawlState)
    requires Running(s) && SavesMonotone(s.saves, s.articles)
    ensures SavesMonotone(Step(env, s).saves, Step(env, s).articles)
  {
  }

  /** Taking the head off the queue and appending new entries keeps
      "dequeued, then queued" equal to "enqueued". */
  lemma FifoStep(d: seq<string>, q: seq<string>, e: seq<string>, f: seq<string>)
    requires d + q == e && |q| > 0
    ensures (d + [q[0]]) + (q[1..] + f) == e + f
  {
  }

  lemma {:induction false} StepQueueInv(env: Env, s: CrawlState)
    requires Running(s) && QueueInv(s)
    ensures QueueInv(Step(env, s))
  {
    var s' := Step(env, s);
    var found := s'.enqueued[|s.enqueued|..];
    assert s'.enqueued == s.enqueued + found;
    FifoStep(s.dequeued, s.queue, s.enqueued, found);
    assert s'.enqueued[..|BASE_URLS|] == s.enqueued[..|BASE_URLS|];
    forall k | |BASE_URLS| <= k < |s'.enqueued|
      ensures IsArticleUrl(s'.enqueued[k])
    {
      if k >= |s.enqueued| {
        assert s'.enqueued[k] == found[k - |s.enqueued|];
        assert s'.enqueued[k] in found;
      } else {
        assert s'.enqueued[k] == s.enqueued[k];
      }
    }
  }

  lemma {:induction false} StepVisitInv(env: Env, s: CrawlState)
    requires Running(s) && VisitInv(s)
    ensures VisitInv(Step(env, s))
  {
  }

  lemma {:induction false} StepArticlesInv(env: Env, s: CrawlState)
    requires Running(s) && ArticlesInv(env, s)
    ensures ArticlesInv(env, Step(env, s))
  {
    var s' := Step(env, s);
    var url := s.queue[0];
    if url !in s.visited && Harvest(env, url).Some? {
      assert s'.articles == s.articles + [Harvest(env, url).value];
      forall i | 0 <= i < |s.articles|
        ensures s.articles[i].url != url
      {
      }
    }
  }

  /** One loop iteration preserves the invariant. */
  lemma StepPreservesInv(env: Env, s: CrawlState)
    requires Running(s) && Inv(env, s)
    ensures Inv(env, Step(env, s))
  {
    StepQueueInv(env, s);
    StepVisitInv(env, s);
    StepArticlesInv(env, s);
    StepSavesMonotone(env, s);
  }

  /** Every part of the state that only grows has grown from `s` to `r`. */
  ghost predicate Extends(s: CrawlState, r: CrawlState) {
    && s.articles <= r.articles
    && s.saves <= r.saves
    && s.fetched <= r.fetched
    && s.dequeued <= r.dequeued
    && s.enqueued <= r.enqueued
    && s.visited <= r.visited
  }

  lemma ExtendsTrans(a: CrawlState, b: CrawlState, c: CrawlState)
    requires Extends(a, b) && Extends(b, c)
    ensures Extends(a, c)
  {
  }

  /** The crawl loop run for at most `fuel` iterations. It stops early only
      when the loop guard fails, and every iteration takes one URL off the
      queue. */
  function Run(env: Env, s: CrawlState, fuel: nat): (r: CrawlState)
    requires Inv(env, s)
    ensures Inv(env, r)
    ensures Extends(s, r)
    ensures |r.dequeued| <= |s.dequeued| + fuel
    ensures Running(r) ==> |r.dequeued| == |s.dequeued| + fuel
    decreases fuel
  {
    if fuel == 0 || !Running(s) then s
    else
      var s' := Step(env, s);
      StepPreservesInv(env, s);
      var r := Run(env, s', fuel - 1);
      ExtendsTrans(s, s', r);
      r
  }

  /** The final, unconditional save after the loop. */
  function Finish(s: CrawlState): (r: CrawlState)
    ensures r.saves == s.saves + [s.articles]
    ensures r.(saves := s.saves) == s
  {
    s.(saves := s.saves + [s.articles])
  }

  /** A whole run from the seeds, with at most `fuel` loop iterations. */
  function Crawl(env: Env, fuel: nat): CrawlState
  {
    InitInv(env);
    Finish(Run(env, Init(), fuel))
  }

  /** What a run guarantees at its end. */
  lemma CrawlGuarantees(env: Env, fuel: nat)
    ensures var r := Crawl(env, fuel);
      // no URL is downloaded twice, and only seeds or article-shaped URLs are
      && NoDup(r.fetched)
      && (forall i :: 0 <= i < |r.fetched| ==> Eligible(r.fetched[i]))
      // the cap holds
      && |r.articles| <= MAX_ARTICLES
      // each record comes from its own visited URL
      && (forall i :: 0 <= i < |r.articles| ==> Harvest(env, r.articles[i].url) == Some(r.articles[i]))
      && (forall i, j :: 0 <= i < j < |r.articles| ==> r.articles[i].url != r.articles[j].url)
      // every snapshot extends the ones before it, and the last is the whole list
      && (forall k, l :: 0 <= k < l < |r.saves| ==> r.saves[k] <= r.saves[l])
      && |r.saves| >= 1 && r.saves[|r.saves| - 1] == r.articles
  {
    InitInv(env);
    var s := Run(env, Init(), fuel);
    FetchedEligible(s);
    FinalSaveMonotone(s.saves, s.articles);
  }

  /** Only seeds and article-shaped URLs are ever downloaded. */
  lemma FetchedEligible(s: CrawlState)
    requires QueueInv(s) && VisitInv(s)
    ensures forall i :: 0 <= i < |s.fetched| ==> Eligible(s.fetched[i])
  {
    forall i | 0 <= i < |s.fetched|
      ensures Eligible(s.fetched[i])
    {
      var u := s.fetched[i];
      assert u in s.dequeued;
      var k :| 0 <= k < |s.dequeued| && s.dequeued[k] == u;
      assert s.enqueued[k] == u;
      if k < |BASE_URLS| {
        assert s.enqueued[..|BASE_URLS|][k] == u;
      }
    }
  }

  /** Appending the whole list as the final snapshot keeps the snapshots
      ordered by the prefix relation. */
  lemma FinalSaveMonotone(saves: seq<seq<Article>>, articles: seq<Article>)
    requires SavesMonotone(saves, articles)
    ensures forall k, l :: 0 <= k < l < |saves + [articles]| ==> (saves + [articles])[k] <= (saves + [articles])[l]
  {
  }

  /** A downloaded page that is not article-shaped adds no record, and the
      unchanged list is saved again whenever its length is a multiple of the
      interval. */
  lemma NonArticlePageResaves(env: Env, s: CrawlState)
    requires Running(s) && s.queue[0] !in s.visited && Body(env, s.queue[0]).Some?
    requires !IsArticleUrl(s.queue[0]) && |s.articles| % SAVE_INTERVAL == 0
    ensures Step(env, s).articles == s.articles
    ensures Step(env, s).saves == s.saves + [s.articles]
  {
  }

  /** The checkpoint fires at an article count of zero as well: the first
      iteration, on the first seed (which is not article-shaped), writes an
      empty snapshot as soon as that seed's page downloads. */
  lemma FirstSeedCheckpointsEmpty(env: Env, s: CrawlState)
    requires s == Init() && Body(env, BASE_URLS[0]).Some?
    ensures Running(s)
    ensures Step(env, s).saves == [[]]
    ensures Step(env, s).articles == []
  {
    SeedsAreNotArticleUrls();
    NonArticlePageResaves(env, s);
  }
}
