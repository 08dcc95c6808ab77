/**
 * Image handling of the feed server (server/fetch-news.mjs): the candidate
 * image URLs of a feed item and the choice among them, the generated
 * fallback images, and the merge that never replaces a good stored image
 * by a worse incoming one.
 */
module Images {
  import opened Wrappers
  import opened Text
  import opened Lists

  /** The fields of a parsed feed item that the pipeline reads; a missing
      field is "". `groupThumbnails` are the `media:group` thumbnail URLs in
      document order. */
  datatype Item = Item(
    title: string, link: string, guid: string,
    contentSnippet: string, summary: string, content: string,
    contentEncoded: string, description: string,
    enclosureUrl: string, mediaContentUrl: string, mediaThumbnailUrl: string,
    groupThumbnails: seq<string>)

  /** The foreign parts of image extraction: `resolve(u, base)` is `new
      URL(u, base).href`, `None` when it throws; `scrape(html)` is the raw
      list of image URLs cheerio finds in an HTML fragment (meta tags, then
      `img` sources, then JSON-LD images). */
  datatype Scraper = Scraper(resolve: (string, string) -> Option<string>, scrape: string -> seq<string>)

  // ---------------------------------------------------------------------
  // Candidates
  // ---------------------------------------------------------------------

  /** A candidate that survives the `typeof u === "string" &&
      u.startsWith("http")` filter. */
  predicate IsHttp(c: Option<string>) {
    c.Some? && StartsWith(c.value, "http")
  }

  /** `urls.map(absoluteUrl)` over a list of raw URLs. */
  function ResolveAll(urls: seq<string>, base: string, sc: Scraper): (r: seq<Option<string>>)
    ensures |r| == |urls|
    ensures forall i :: 0 <= i < |urls| ==> r[i] == sc.resolve(urls[i], base)
    decreases |urls|
  {
    if urls == [] then [] else [sc.resolve(urls[0], base)] + ResolveAll(urls[1..], base, sc)
  }

  /** `extractHtmlImages`: nothing for an empty fragment, else the scraped
      URLs made absolute, keeping those that start with "http". */
  function HtmlImages(html: string, base: string, sc: Scraper): (r: seq<Option<string>>)
    ensures forall i :: 0 <= i < |r| ==> IsHttp(r[i])
    ensures html == [] ==> r == []
  {
    if html == [] then [] else Filter(ResolveAll(sc.scrape(html), base, sc), IsHttp)
  }

  /** The candidate list of `extractImageUrl`, in its order: enclosure,
      media:content, media:thumbnail, the media:group thumbnails, then the
      images of the content, description and summary HTML. */
  function Candidates(item: Item, sc: Scraper): seq<Option<string>> {
    var base := item.link;
    (if item.enclosureUrl != [] then [sc.resolve(item.enclosureUrl, base)] else [])
    + (if item.mediaContentUrl != [] then [sc.resolve(item.mediaContentUrl, base)] else [])
    + (if item.mediaThumbnailUrl != [] then [sc.resolve(item.mediaThumbnailUrl, base)] else [])
    + ResolveAll(NonEmpty(item.groupThumbnails), base, sc)
    + HtmlImages(item.content, base, sc)
    + HtmlImages(item.description, base, sc)
    + HtmlImages(item.summary, base, sc)
  }

  // ---------------------------------------------------------------------
  // What looks like an image
  // ---------------------------------------------------------------------

  const ImageExtensions: seq<string> := [".png", ".jpg", ".jpeg", ".gif", ".webp", ".svg", ".avif"]
  const FormatHints: seq<string> := ["jpg", "jpeg", "png", "webp", "avif"]

  /** `/\.(png|jpe?g|gif|webp|svg|avif)$/i`. */
  predicate HasImageExtension(url: string) {
    exists k :: 0 <= k < |ImageExtensions| && EndsWith(Lower(url), ImageExtensions[k])
  }

  /** `s` starts with the format `f` followed by a word boundary. */
  predicate FormatWordAt(s: string, f: string) {
    StartsWith(s, f) && (|s| == |f| || !IsWordChar(s[|f|]))
  }

  /** `s` starts with `fm=` or `format=` and an image format. */
  predicate HintAt(s: string) {
    || (StartsWith(s, "fm=") && exists k :: 0 <= k < |FormatHints| && FormatWordAt(s[3..], FormatHints[k]))
    || (StartsWith(s, "format=") && exists k :: 0 <= k < |FormatHints| && FormatWordAt(s[7..], FormatHints[k]))
  }

  /** `/[?&](fm|format)=(jpg|jpeg|png|webp|avif)\b/i` finds a match in the
      lower-cased `s`. */
  predicate HasFormatHintIn(s: string)
    decreases |s|
  {
    s != [] && (((s[0] == '?' || s[0] == '&') && HintAt(s[1..])) || HasFormatHintIn(s[1..]))
  }

  predicate IsImageLike(url: string) {
    HasImageExtension(url) || HasFormatHintIn(Lower(url))
  }

  /** A candidate that the final choice accepts. */
  predicate IsImageCandidate(c: Option<string>) {
    IsHttp(c) && IsImageLike(c.value)
  }

  /** `extractImageUrl`: the candidates, de-duplicated, filtered to "http"
      URLs and then to image-like ones, and the first of those. */
  function ExtractImageUrl(item: Item, sc: Scraper): (r: Option<string>)
  {
    var unique := Filter(Dedup(Candidates(item, sc)), IsHttp);
    var valid := Filter(unique, (c: Option<string>) => c.Some? && IsImageLike(c.value));
    if valid != [] then valid[0] else None
  }

  /** The chosen image is the first candidate, in candidate order, that is
      an "http" URL that looks like an image; there is none exactly when no
      candidate qualifies. */
  lemma ExtractImageUrlIsFirst(item: Item, sc: Scraper)
    ensures Find(Candidates(item, sc), IsImageCandidate).None? ==> ExtractImageUrl(item, sc).None?
    ensures Find(Candidates(item, sc), IsImageCandidate).Some? ==>
      ExtractImageUrl(item, sc) == Find(Candidates(item, sc), IsImageCandidate).value
    ensures var r := ExtractImageUrl(item, sc);
      r.Some? ==> StartsWith(r.value, "http") && IsImageLike(r.value)
  {
    var cs := Candidates(item, sc);
    var unique := Filter(Dedup(cs), IsHttp);
    var valid := Filter(unique, (c: Option<string>) => c.Some? && IsImageLike(c.value));
    FilterFilterFind(Dedup(cs), IsHttp, (c: Option<string>) => c.Some? && IsImageLike(c.value), IsImageCandidate);
    FindDedup(cs, IsImageCandidate);
  }

  /** Filtering by `f` and then by `g` and taking the first is finding the
      first element satisfying both. */
  lemma {:induction false} FilterFilterFind<T(!new)>(s: seq<T>, f: T -> bool, g: T -> bool, h: T -> bool)
    requires forall x :: h(x) <==> f(x) && g(x)
    ensures var v := Filter(Filter(s, f), g);
      (v == [] <==> Find(s, h).None?) && (v != [] ==> Find(s, h) == Some(v[0]))
    decreases |s|
  {
    if s != [] {
      FilterFilterFind(s[1..], f, g, h);
    }
  }

  // ---------------------------------------------------------------------
  // Article image
  // ---------------------------------------------------------------------

  /** `resolveArticleImage`: the feed's own image, else the generated one
      (`generated` is what image generation returned, `None` when it failed
      or was not configured), else nothing. */
  function ResolveArticleImage(item: Item, sc: Scraper, generated: Option<string>): (r: Option<string>)
    ensures ExtractImageUrl(item, sc).Some? ==> r == ExtractImageUrl(item, sc)
    ensures r.None? <==> ExtractImageUrl(item, sc).None? && generated.None?
  {
    var existing := ExtractImageUrl(item, sc);
    if existing.Some? then existing else generated
  }

  // ---------------------------------------------------------------------
  // Fallback images (defined in the server but not used by it)
  // ---------------------------------------------------------------------

  const FeaturedStem := "https://source.unsplash.com/featured"
  const FeaturedBase := FeaturedStem + "/"

  const FallbackTopics: seq<string> := ["?technology", "?ai", "?news", "?innovation"]

  /** `FALLBACK_NEWS_IMAGES`: the Unsplash featured URLs of four topics. */
  const FallbackNewsImages: seq<string> :=
    [FeaturedBase + FallbackTopics[0], FeaturedBase + FallbackTopics[1],
     FeaturedBase + FallbackTopics[2], FeaturedBase + FallbackTopics[3]]

  /** `selectFallbackImage`: chosen by the trimmed length of title and base
      together (1 when that is 0), modulo the four images. */
  function SelectFallbackImage(title: string, base: string): (url: string)
    ensures url in FallbackNewsImages
  {
    var n := |Trim(title + base)|;
    FallbackNewsImages[(if n == 0 then 1 else n) % |FallbackNewsImages|]
  }

  /** `isGeneratedFallback`: missing, an Unsplash featured URL, or one of the
      fallback images. */
  predicate IsGeneratedFallback(url: Option<string>) {
    url.None? || url.value == [] || StartsWith(url.value, FeaturedStem)
      || url.value in FallbackNewsImages
  }

  // ---------------------------------------------------------------------
  // Merge protection
  // ---------------------------------------------------------------------

  /** `isRenderableImageUrl` of the merge step: a value that, trimmed, is
      not empty, not "null" or "undefined", and is a data image or an
      http(s) URL. */
  predicate IsRenderableImageUrl(value: Option<string>) {
    value.Some? &&
    var url := Trim(value.value);
    && url != [] && url != "null" && url != "undefined"
    && (StartsWith(url, "data:image/") || StartsWith(url, "https://") || StartsWith(url, "http://"))
  }

  /** `isGenericFallbackUrl`: a non-empty value that, trimmed, is an Unsplash
      featured URL. */
  predicate IsGenericFallbackUrl(value: Option<string>) {
    value.Some? && value.value != [] &&
    var url := Trim(value.value);
    StartsWith(url, FeaturedBase) || StartsWith(url, "http://source.unsplash.com/featured/")
  }

  /** An image worth keeping. */
  predicate IsGoodImage(value: Option<string>) {
    IsRenderableImageUrl(value) && !IsGenericFallbackUrl(value)
  }

  /** Every fallback image the server can select is a generated fallback and
      a generic one, so the merge never prefers it to a stored image. */
  lemma SelectedFallbackIsGeneric(title: string, base: string)
    ensures IsGeneratedFallback(Some(SelectFallbackImage(title, base)))
    ensures IsGenericFallbackUrl(Some(SelectFallbackImage(title, base)))
    ensures !IsGoodImage(Some(SelectFallbackImage(title, base)))
  {
    var n := |Trim(title + base)|;
    FallbackImageIsGeneric((if n == 0 then 1 else n) % |FallbackNewsImages|);
  }

  lemma FallbackImageIsGeneric(i: nat)
    requires i < |FallbackNewsImages|
    ensures var url := Some(FallbackNewsImages[i]);
      IsGeneratedFallback(url) && IsGenericFallbackUrl(url) && !IsGoodImage(url)
  {
    var topic := FallbackTopics[i];
    assert FallbackNewsImages[i] == FeaturedBase + topic;
    assert topic != [] && topic[|topic| - 1] in "yisn";
    FeaturedUrl(topic);
  }

  /** A featured URL of a topic is trimmed and starts with the featured
      prefix. */
  lemma FeaturedUrl(topic: string)
    requires topic != [] && !IsSpace(topic[|topic| - 1])
    ensures var url := FeaturedBase + topic;
      Trim(url) == url && StartsWith(url, FeaturedBase) && StartsWith(url, FeaturedStem)
  {
    var url := FeaturedBase + topic;
    StartsWithAppend(FeaturedBase, topic);
    StartsWithAppend(FeaturedStem, "/");
    StartsWithTrans(url, FeaturedBase, FeaturedStem);
    assert url[0] == 'h';
    assert url[|url| - 1] == topic[|topic| - 1];
    TrimOfTrimmed(url);
  }

  /** The image stored with an article after the merge: the stored one when
      it is good and the incoming one is not renderable or is a generic
      fallback, else the incoming one. */
  function MergeImage(existing: Option<string>, incoming: Option<string>): (r: Option<string>)
    ensures r == existing || r == incoming
    ensures IsGoodImage(r) <==> IsGoodImage(existing) || IsGoodImage(incoming)
    ensures IsGoodImage(incoming) ==> r == incoming
    ensures !IsGoodImage(existing) ==> r == incoming
  {
    if IsGoodImage(existing) && (!IsRenderableImageUrl(incoming) || IsGenericFallbackUrl(incoming))
    then existing else incoming
  }

  /** The rows `(source_url, image_url)` already stored, folded into a map
      where a later row for the same URL wins; rows without a URL are
      skipped. */
  function RowsMap(rows: seq<(string, Option<string>)>): (m: map<string, Option<string>>)
    decreases |rows|
  {
    if rows == [] then map[]
    else
      var m := RowsMap(rows[..|rows| - 1]);
      var row := rows[|rows| - 1];
      if row.0 != [] then m[row.0 := row.1] else m
  }

  /** A URL is in the map exactly when some row carries it, and it maps to
      the image of the last such row. */
  lemma {:induction false} RowsMapLastWins(rows: seq<(string, Option<string>)>, url: string)
    ensures url in RowsMap(rows) <==> url != [] && exists i :: 0 <= i < |rows| && rows[i].0 == url
    ensures url in RowsMap(rows) ==>
      exists i :: 0 <= i < |rows| && rows[i].0 == url && RowsMap(rows)[url] == rows[i].1
        && forall j :: i < j < |rows| ==> rows[j].0 != url
    decreases |rows|
  {
    if rows != [] {
      var init := rows[..|rows| - 1];
      RowsMapLastWins(init, url);
      assert forall i :: 0 <= i < |init| ==> init[i] == rows[i];
      if url in RowsMap(init) && rows[|rows| - 1].0 != url {
        var i :| 0 <= i < |init| && init[i].0 == url && RowsMap(init)[url] == init[i].1
          && forall j :: i < j < |init| ==> init[j].0 != url;
        assert forall j :: i < j < |rows| ==> rows[j].0 != url;
      }
    }
  }

  /** The loop that fills `existingImageMap` from the stored rows. */
  method ExistingImageMap(rows: seq<(string, Option<string>)>) returns (m: map<string, Option<string>>)
    ensures m == RowsMap(rows)
  {
    m := map[];
    var i := 0;
    while i < |rows|
      invariant 0 <= i <= |rows|
      invariant m == RowsMap(rows[..i])
    {
      assert rows[..i + 1][..i] == rows[..i];
      if rows[i].0 != [] {
        m := m[rows[i].0 := rows[i].1];
      }
      i := i + 1;
    }
    assert rows[..|rows|] == rows;
  }

  /** The stored image for a URL, `undefined` when there is none. */
  function StoredImage(m: map<string, Option<string>>, url: string): Option<string> {
    if url in m then m[url] else None
  }
}
