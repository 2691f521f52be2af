/** Article field extraction: from one parsed page to one record, or to no
    record when an attribute the extractor indexes is missing. */
module Extraction {
  import opened Options
  import opened TextOps
  import opened Html

  /** Sentinels written in place of a field the page does not provide. */
  const UNKNOWN_TITLE: string := "Nezn\U{e1}m\U{fd} nadpis"
  const UNKNOWN_CATEGORY: string := "Nezn\U{e1}m\U{e1} kategorie"
  const UNKNOWN_DATE: string := "Nezn\U{e1}m\U{e9} datum"
  const NO_COMMENTS: string := "0"

  /** One extracted article, with the seven keys of the saved JSON object. */
  datatype Article = Article(
    url: string,
    title: string,
    category: string,
    comments: string,
    images: nat,
    content: string,
    date: string
  )

  /** Reading an attribute off an element: its value, or the `KeyError` that
      indexing a missing attribute raises. */
  datatype Field = Ok(value: string) | KeyError(key: string)

  /** `tag["content"]` on a meta tag. */
  function ContentOf(m: MetaTag): (r: Field)
    ensures r.Ok? <==> m.content.Some?
  {
    match m.content
    case Some(c) => Ok(c)
    case None => KeyError("content")
  }

  /** The heading text, stripped, or the sentinel. */
  function Title(p: Page): (r: string)
    ensures NoEdgeSpace(r)
  {
    match p.h1
    case Some(t) => GetText(t)
    case None => UNKNOWN_TITLE
  }

  /** The meta tag the category chain settles on, if any: the first tag
      with `name="category"`, else the first with
      `property="article:section"`, else the first with `name="section"`;
      each lookup is tried only when every earlier one found nothing. */
  function SelectedMeta(p: Page): Option<MetaTag> {
    var byCategory := FindMeta(p.metas, ByName("category"));
    var bySection := FindMeta(p.metas, ByProperty("article:section"));
    if byCategory.Some? then byCategory
    else if bySection.Some? then bySection
    else FindMeta(p.metas, ByName("section"))
  }

  /** The category chain: the selected meta tag's `content`, else the text of
      the category container, else the sentinel. */
  function Category(p: Page): Field {
    match SelectedMeta(p)
    case Some(m) => ContentOf(m)
    case None =>
      match p.categoryDiv
      case Some(t) => Ok(GetText(t))
      case None => Ok(UNKNOWN_CATEGORY)
  }

  /** The comment anchor's text, stripped, or "0". */
  function Comments(p: Page): (r: string)
    ensures NoEdgeSpace(r)
  {
    match p.commentLink
    case Some(t) => GetText(t)
    case None => NO_COMMENTS
  }

  /** The stripped text of every paragraph, in document order. */
  function ParagraphTexts(ps: seq<Text>): (r: seq<string>)
    ensures |r| == |ps|
    ensures forall i :: 0 <= i < |ps| ==> r[i] == GetText(ps[i])
  {
    seq(|ps|, i requires 0 <= i < |ps| => GetText(ps[i]))
  }

  function Content(p: Page): string {
    JoinSpace(ParagraphTexts(p.paragraphs))
  }

  /** `soup.find("time")["datetime"]` when there is a time element. */
  function Date(p: Page): Field {
    match p.time
    case Some(t) => (match t.datetime case Some(d) => Ok(d) case None => KeyError("datetime"))
    case None => Ok(UNKNOWN_DATE)
  }

  /** The page raises `KeyError` during extraction: the chosen meta tag has no
      `content`, or the first time element has no `datetime`. */
  predicate Malformed(p: Page) {
    || (SelectedMeta(p).Some? && SelectedMeta(p).value.content.None?)
    || (p.time.Some? && p.time.value.datetime.None?)
  }

  /** `a` holds the fields the page supplies for `url`: each field is read
      from its element when the page has one and is the sentinel otherwise,
      and the category is the selected meta tag's content, else the category
      container's text, else the sentinel. */
  ghost predicate ResolvedFrom(url: string, p: Page, a: Article) {
    && a.url == url
    && a.title == (if p.h1.Some? then GetText(p.h1.value) else UNKNOWN_TITLE)
    && (SelectedMeta(p).Some? ==> Some(a.category) == SelectedMeta(p).value.content)
    && (SelectedMeta(p).None? && p.categoryDiv.Some? ==> a.category == GetText(p.categoryDiv.value))
    && (SelectedMeta(p).None? && p.categoryDiv.None? ==> a.category == UNKNOWN_CATEGORY)
    && a.comments == (if p.commentLink.Some? then GetText(p.commentLink.value) else NO_COMMENTS)
    && a.images == p.images
    && a.content == JoinSpace(ParagraphTexts(p.paragraphs))
    && (p.time.Some? ==> Some(a.date) == p.time.value.datetime)
    && (p.time.None? ==> a.date == UNKNOWN_DATE)
  }

  /** The record built from one page. Any `KeyError` aborts the whole record;
      otherwise every field is resolved from the page or set to its
      sentinel. */
  function ParseArticle(url: string, p: Page): (r: Option<Article>)
    ensures r.None? <==> Malformed(p)
    ensures r.Some? ==> ResolvedFrom(url, p, r.value)
  {
    var category := Category(p);
    var date := Date(p);
    if category.KeyError? || date.KeyError? then None
    else Some(Article(url, Title(p), category.value, Comments(p), p.images, Content(p), date.value))
  }

  /** Source `k` is present and every earlier source is absent. */
  predicate FirstSomeAt(sources: seq<Option<Field>>, k: int) {
    0 <= k < |sources| && sources[k].Some? && forall j :: 0 <= j < k ==> sources[j].None?
  }

  /** The first present source of a chain of lookups, each `None` when its
      element is absent; `fallback` when every source is absent. */
  function FirstPresent(sources: seq<Option<Field>>, fallback: string): (r: Field)
    ensures (forall k :: 0 <= k < |sources| ==> sources[k].None?) ==> r == Ok(fallback)
    ensures forall k :: FirstSomeAt(sources, k) ==> r == sources[k].value
  {
    if |sources| == 0 then Ok(fallback)
    else if sources[0].Some? then sources[0].value
    else
      var r := FirstPresent(sources[1..], fallback);
      assert forall k :: FirstSomeAt(sources, k) ==> FirstSomeAt(sources[1..], k - 1);
      r
  }

  /** A meta lookup as a category source: absent when no tag matches,
      otherwise the tag's `content`, or the `KeyError` for a tag without it. */
  function MetaSource(metas: seq<MetaTag>, key: MetaKey): Option<Field> {
    match FindMeta(metas, key)
    case Some(m) => Some(ContentOf(m))
    case None => None
  }

  /** The four category sources in priority order. */
  function CategorySources(p: Page): (r: seq<Option<Field>>)
    ensures |r| == 4
  {
    [ MetaSource(p.metas, ByName("category")),
      MetaSource(p.metas, ByProperty("article:section")),
      MetaSource(p.metas, ByName("section")),
      match p.categoryDiv case Some(t) => Some(Ok(GetText(t))) case None => None ]
  }

  /** The nested conditional of the extractor is the first-present rule over
      the four sources, with the unknown-category sentinel as the fallback. */
  lemma CategoryIsFirstPresent(p: Page)
    ensures Category(p) == FirstPresent(CategorySources(p), UNKNOWN_CATEGORY)
  {
    var s := CategorySources(p);
    var r := FirstPresent(s, UNKNOWN_CATEGORY);
    if s[0].Some? {
      assert r == s[0].value;
    } else if s[1].Some? {
      assert r == s[1].value;
    } else if s[2].Some? {
      assert r == s[2].value;
    } else if s[3].Some? {
      assert r == s[3].value;
    } else {
      assert r == Ok(UNKNOWN_CATEGORY);
    }
  }

  /** First match wins: when the first `name="category"` meta tag carries a
      content, that content is the category, whatever `article:section` or
      `section` tags and category containers the page also has. */
  lemma CategoryMetaWins(p: Page, i: int, c: string)
    requires 0 <= i < |p.metas| && p.metas[i].name == Some("category") && p.metas[i].content == Some(c)
    requires forall j :: 0 <= j < i ==> p.metas[j].name != Some("category")
    ensures Category(p) == Ok(c)
    ensures forall url :: ParseArticle(url, p).Some? ==> ParseArticle(url, p).value.category == c
  {
    FindMetaFirst(p.metas, ByName("category"), i);
  }

  /** A `name="category"` meta tag without `content` aborts the whole page,
      even when a later source of the chain could have supplied a category. */
  lemma MissingContentAborts(url: string, p: Page, i: int)
    requires 0 <= i < |p.metas| && p.metas[i].name == Some("category") && p.metas[i].content.None?
    requires forall j :: 0 <= j < i ==> p.metas[j].name != Some("category")
    ensures ParseArticle(url, p).None?
  {
    FindMetaFirst(p.metas, ByName("category"), i);
  }

  /** A time element without `datetime` aborts the whole page. */
  lemma MissingDatetimeAborts(url: string, p: Page)
    requires p.time == Some(TimeTag(None))
    ensures ParseArticle(url, p).None?
  {
  }

  /** A page with no heading, no time element, no category markers and no
      comment anchor still yields a record: every field but the image count
      and the content is its sentinel. Meta tags with any other name or
      property do not matter. */
  lemma SentinelRecord(url: string, p: Page)
    requires p.h1.None? && p.time.None? && p.categoryDiv.None? && p.commentLink.None?
    requires forall i :: 0 <= i < |p.metas| ==>
               p.metas[i].name != Some("category") && p.metas[i].name != Some("section")
               && p.metas[i].property != Some("article:section")
    ensures ParseArticle(url, p)
            == Some(Article(url, UNKNOWN_TITLE, UNKNOWN_CATEGORY, NO_COMMENTS, p.images, Content(p), UNKNOWN_DATE))
  {
    FindMetaNone(p.metas, ByName("category"));
    FindMetaNone(p.metas, ByProperty("article:section"));
    FindMetaNone(p.metas, ByName("section"));
  }

  /** The content keeps one piece per paragraph: when no paragraph text holds a
      space, splitting the content on spaces gives back the paragraph texts in
      document order. */
  lemma ContentRoundTrip(url: string, p: Page)
    requires |p.paragraphs| >= 1
    requires forall i :: 0 <= i < |p.paragraphs| ==> NoSpaceChar(GetText(p.paragraphs[i]))
    ensures ParseArticle(url, p).Some? ==> SplitSpace(ParseArticle(url, p).value.content) == ParagraphTexts(p.paragraphs)
  {
    JoinSplitRoundTrip(ParagraphTexts(p.paragraphs));
  }
}
