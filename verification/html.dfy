/** The parsed page as the crawler queries it. HTML parsing itself belongs to
    the parsing library and is not modelled: a `Page` records only the
    elements the crawler looks up, each as the library's `find` or
    `find_all` would return it. */
module Html {
  import opened Options
  import opened TextOps

  /** A `<meta>` tag with the three attributes the crawler reads; an
      attribute the tag does not carry is `None`. */
  datatype MetaTag = MetaTag(name: Option<string>, property: Option<string>, content: Option<string>)

  /** The attribute filter of a `find("meta", {attribute: value})` call. */
  datatype MetaKey = ByName(name: string) | ByProperty(property: string)

  /** A `<time>` element; `datetime` is `None` when the attribute is absent. */
  datatype TimeTag = TimeTag(datetime: Option<string>)

  datatype Page = Page(
    h1: Option<Text>,             // text of the first <h1>, if any
    metas: seq<MetaTag>,          // every <meta> tag, in document order
    categoryDiv: Option<Text>,    // text of the first <div class="category">, if any
    commentLink: Option<Text>,    // text of the first comment-count anchor, if any
    images: nat,                  // how many <img> elements the page has
    paragraphs: seq<Text>,        // text of every <p>, in document order
    time: Option<TimeTag>,        // the first <time>, if any
    hrefs: seq<string>            // the href of every <a href=...>, in document order
  )

  predicate MetaMatches(m: MetaTag, key: MetaKey) {
    match key
    case ByName(v) => m.name == Some(v)
    case ByProperty(v) => m.property == Some(v)
  }

  /** `soup.find("meta", {attribute: value})`: the first meta tag in document
      order whose attribute equals the value, or `None` if there is none. */
  function FindMeta(metas: seq<MetaTag>, key: MetaKey): (r: Option<MetaTag>)
    ensures r.Some? ==> r.value in metas && MetaMatches(r.value, key)
  {
    if |metas| == 0 then None
    else if MetaMatches(metas[0], key) then Some(metas[0])
    else FindMeta(metas[1..], key)
  }

  /** The lookup finds nothing exactly when no tag matches. */
  lemma {:induction false} FindMetaNone(metas: seq<MetaTag>, key: MetaKey)
    ensures FindMeta(metas, key).None? <==> forall i :: 0 <= i < |metas| ==> !MetaMatches(metas[i], key)
  {
    if |metas| > 0 && !MetaMatches(metas[0], key) {
      FindMetaNone(metas[1..], key);
      assert forall i :: 0 < i < |metas| ==> metas[i] == metas[1..][i - 1];
    }
  }

  /** Whichever tag sits first among the matches is the one the lookup
      returns, whatever follows it. */
  lemma {:induction false} FindMetaFirst(metas: seq<MetaTag>, key: MetaKey, i: int)
    requires 0 <= i < |metas| && MetaMatches(metas[i], key)
    requires forall j :: 0 <= j < i ==> !MetaMatches(metas[j], key)
    ensures FindMeta(metas, key) == Some(metas[i])
  {
    if i > 0 {
      assert !MetaMatches(metas[0], key);
      assert forall j :: 0 <= j < i - 1 ==> metas[1..][j] == metas[j + 1];
      FindMetaFirst(metas[1..], key, i - 1);
    }
  }
}
