/** The crawler's fixed configuration of seed sites and the pattern gate that
    decides which URLs are "article-shaped". */
module UrlFilter {
  import opened TextOps

  /** The three news sites every run starts from. */
  const BASE_URLS: seq<string> := ["https://www.novinky.cz", "https://www.idnes.cz", "https://www.ctk.cz"]

  /** Substrings that mark a URL as an article page. */
  const ARTICLE_PATTERNS: seq<string> := ["novinky.cz/clanek", "idnes.cz/", "ctk.cz/"]

  /** `any(pattern in url for pattern in patterns)`, scanning the patterns in
      order and stopping at the first hit. */
  predicate MatchesAny(url: string, patterns: seq<string>)
    decreases |patterns|
  {
    |patterns| > 0 && (Contains(url, patterns[0]) || MatchesAny(url, patterns[1..]))
  }

  /** The short-circuiting scan holds exactly when some pattern occurs in the
      URL at some position. */
  lemma {:induction false} MatchesAnyIff(url: string, patterns: seq<string>)
    ensures MatchesAny(url, patterns) <==> exists k, i :: 0 <= k < |patterns| && OccursAt(url, patterns[k], i)
    decreases |patterns|
  {
    if |patterns| > 0 {
      ContainsIff(url, patterns[0]);
      MatchesAnyIff(url, patterns[1..]);
      if k, i :| 0 <= k < |patterns| && OccursAt(url, patterns[k], i) {
        if k > 0 {
          assert patterns[1..][k - 1] == patterns[k];
        }
      }
      if k, i :| 0 <= k < |patterns| - 1 && OccursAt(url, patterns[1..][k], i) {
        assert OccursAt(url, patterns[k + 1], i);
      }
    }
  }

  /** The article gate applied both to the current page and to every
      discovered link. */
  predicate IsArticleUrl(url: string) {
    MatchesAny(url, ARTICLE_PATTERNS)
  }

  /** Which URLs may ever stand in the queue: a seed, or an article-shaped
      URL. */
  predicate Eligible(url: string) {
    url in BASE_URLS || IsArticleUrl(url)
  }

  lemma {:induction false} NoStartNoMatch(s: string, pat: string)
    requires |pat| > 0
    requires forall i :: 0 <= i && i + |pat| <= |s| ==> s[i] != pat[0]
    ensures !Contains(s, pat)
    decreases |s|
  {
    if |s| > 0 {
      assert !(pat <= s) by {
        if |pat| <= |s| { assert s[0] != pat[0]; }
      }
      NoStartNoMatch(s[1..], pat);
    }
  }

  /** None of the seed URLs passes the article gate (each lacks the trailing
      path the patterns demand), so the seed pages are fetched only for
      their links and never yield a record. */
  lemma SeedsAreNotArticleUrls()
    ensures forall k :: 0 <= k < |BASE_URLS| ==> !IsArticleUrl(BASE_URLS[k])
  {
    forall k, p | 0 <= k < |BASE_URLS| && 0 <= p < |ARTICLE_PATTERNS|
      ensures !Contains(BASE_URLS[k], ARTICLE_PATTERNS[p])
    {
      NoStartNoMatch(BASE_URLS[k], ARTICLE_PATTERNS[p]);
    }
    forall k | 0 <= k < |BASE_URLS|
      ensures !IsArticleUrl(BASE_URLS[k])
    {
      var u := BASE_URLS[k];
      assert !Contains(u, ARTICLE_PATTERNS[0]) && !Contains(u, ARTICLE_PATTERNS[1]) && !Contains(u, ARTICLE_PATTERNS[2]);
      assert ARTICLE_PATTERNS[1..][1..][1..] == [];
    }
  }
}
