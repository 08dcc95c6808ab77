/**
 * The article pipeline of the feed server (server/fetch-news.mjs): one feed
 * item becomes an article record or is skipped, the feeds of a run are
 * selected and read in order until the article cap is reached, and the
 * collected articles are merged with the images already stored.
 */
module Ingest {
  import opened Wrappers
  import opened Text
  import opened Lists
  import opened Registry
  import Editorial
  import opened Images

  /** The row upserted for one article. */
  datatype Record = Record(
    title: string, summary: string, category: Option<string>, source: string,
    sourceUrl: string, imageUrl: Option<string>, importanceScore: int,
    isFeatured: bool, publishedAt: string)

  /** What `buildArticleRecord` comes to for one item: an article, `null`,
      or a rejection (a date that cannot be converted throws). */
  datatype Outcome = Built(record: Record) | Skipped | Failed

  /** The foreign calls the pipeline makes for an item: `sanitize` is
      `sanitizeText`; `editorial` is what the editorial step returns for the
      article; `generated` is the generated image for an item, if any;
      `isoDate` is `toIsoDate`, `None` when the date is invalid and the
      conversion throws. */
  datatype Services = Services(
    sanitize: string -> string,
    editorial: Editorial.Article -> Editorial.EditorialPackage,
    scraper: Scraper,
    generated: Item -> Option<string>,
    isoDate: Item -> Option<string>)

  const PodcastMinWordCount := 10
  const TitleLimit := 200

  /** The word floor of a feed: 10 for podcasts and YouTube feeds, else the
      default of the content filter. */
  function MinWordCountFor(kind: SourceType): int {
    if kind == Podcast || kind == YoutubeChannel || kind == YoutubePlaylist then PodcastMinWordCount
    else Editorial.DefaultMinWordCount
  }

  /** The lowest importance an article of a feed may have. */
  function MinImportanceFor(feed: Feed): int {
    if feed.isResearch then 5 else 6
  }

  /** `item.link || item.guid || null`. */
  function SourceUrlOf(item: Item): string {
    if item.link != [] then item.link else item.guid
  }

  function FirstNonEmpty(a: string, b: string, c: string): string {
    if a != [] then a else if b != [] then b else c
  }

  /** The cleaned texts of an item: title, snippet and body. */
  datatype Texts = Texts(title: string, snippet: string, body: string)

  /** The title (or "No title"), the first of snippet, summary and content
      (or "No summary available"), and the first of encoded content,
      content, summary and description, each sanitized. */
  function TextsOf(item: Item, sanitize: string -> string): (t: Texts)
    ensures t.title != [] && t.snippet != []
  {
    var titleText := sanitize(item.title);
    var snippetText := sanitize(FirstNonEmpty(item.contentSnippet, item.summary, item.content));
    Texts(
      if titleText != [] then titleText else "No title",
      if snippetText != [] then snippetText else "No summary available",
      sanitize(FirstNonEmpty(item.contentEncoded, item.content, FirstNonEmpty(item.summary, item.description, ""))))
  }

  /** A record as `buildArticleRecord` leaves it. */
  predicate Gated(r: Record) {
    && r.sourceUrl != [] && r.sourceUrl != "#"
    && |r.title| <= TitleLimit
    && r.importanceScore >= 5
    && (r.isFeatured <==> r.importanceScore >= 9)
  }

  /** The part of `buildArticleRecord` after the content filter let the item
      through: the editorial package, the importance gate, the image and
      the date. */
  function Publish(item: Item, feed: Feed, sv: Services, t: Texts, sourceUrl: string): (out: Outcome)
    requires sourceUrl != [] && sourceUrl != "#"
    ensures out.Built? ==>
      && Gated(out.record)
      && out.record.sourceUrl == sourceUrl
      && out.record.importanceScore >= MinImportanceFor(feed)
      && out.record.source == feed.name && out.record.category == feed.category
  {
    var category := if feed.category.Some? then feed.category.value else "";
    var pkg := sv.editorial(Editorial.Article(t.title, t.snippet, t.body, feed.name, category));
    var summary := FirstNonEmpty(pkg.content, pkg.formattedSummary, t.snippet);
    var score := Editorial.ImportanceScore(t.title, summary, feed.name);
    if score < MinImportanceFor(feed) then Skipped
    else Dated(item, feed, sv, t.title, summary, sourceUrl, score)
  }

  /** The record of an item that passed the importance gate, once its
      image is resolved and its date converted. */
  function Dated(item: Item, feed: Feed, sv: Services, title: string, summary: string, sourceUrl: string,
                 score: int): (out: Outcome)
    requires sourceUrl != [] && sourceUrl != "#" && score >= MinImportanceFor(feed)
    ensures out.Built? || out == Failed
    ensures out.Built? ==>
      && Gated(out.record)
      && out.record.sourceUrl == sourceUrl
      && out.record.importanceScore == score
      && out.record.source == feed.name && out.record.category == feed.category
  {
    var image := ResolveArticleImage(item, sv.scraper, sv.generated(item));
    match sv.isoDate(item)
    case None => Failed
    case Some(date) =>
      Built(Record(Prefix(title, TitleLimit), summary, feed.category, feed.name,
                   sourceUrl, image, score, score >= 9, date))
  }

  /** `buildArticleRecord`: an item without a usable link is skipped, so is
      one the content filter rejects (with the feed's word floor) or whose
      importance is below the feed's bar; a date that cannot be converted
      fails the item. */
  function BuildArticleRecord(item: Item, feed: Feed, sv: Services): (out: Outcome)
    ensures out.Built? ==>
      && Gated(out.record)
      && out.record.sourceUrl == SourceUrlOf(item)
      && out.record.importanceScore >= MinImportanceFor(feed)
      && out.record.source == feed.name && out.record.category == feed.category
    ensures SourceUrlOf(item) == [] || SourceUrlOf(item) == "#" ==> out == Skipped
    ensures !out.Skipped? ==>
      var t := TextsOf(item, sv.sanitize);
      Editorial.ApplyContentFilters(t.title, t.snippet, t.body, Some(MinWordCountFor(feed.kind))) == Editorial.Allowed
  {
    var sourceUrl := SourceUrlOf(item);
    if sourceUrl == [] || sourceUrl == "#" then Skipped
    else
      var t := TextsOf(item, sv.sanitize);
      var verdict := Editorial.ApplyContentFilters(t.title, t.snippet, t.body, Some(MinWordCountFor(feed.kind)));
      if verdict != Editorial.Allowed then Skipped
      else Publish(item, feed, sv, t, sourceUrl)
  }

  /** Every item of a research feed clears the importance bar, since every
      score is at least 5; only the other feeds lose items to it. */
  lemma ResearchFeedsPassImportance(title: string, summary: string, feed: Feed)
    requires feed.isResearch
    ensures Editorial.ImportanceScore(title, summary, feed.name) >= MinImportanceFor(feed)
  {
  }

  /** A podcast or YouTube item is held to a floor of 10 words, any other to
      40. */
  lemma WordFloors(kind: SourceType)
    ensures Editorial.EffectiveMinWordCount(Some(MinWordCountFor(kind))) ==
      if kind in {Podcast, YoutubeChannel, YoutubePlaylist} then 10 else 40
  {
  }

  // ---------------------------------------------------------------------
  // One feed
  // ---------------------------------------------------------------------

  const ItemsPerFeed := 15

  /** The records of a feed's items, `build` being how one item of the
      feed is turned into an article: `None` when one of them fails (the
      whole `Promise.all` rejects and the feed contributes nothing), else
      the built records in item order. */
  function BuildAll(items: seq<Item>, build: Item -> Outcome): (r: Option<seq<Record>>)
    ensures r.Some? ==> |r.value| <= |items|
    ensures r.None? <==> exists i :: 0 <= i < |items| && build(items[i]).Failed?
    ensures r.Some? ==> forall k :: 0 <= k < |r.value| ==> exists i :: 0 <= i < |items| && build(items[i]) == Built(r.value[k])
    decreases |items|
  {
    if items == [] then Some([])
    else
      var rest := BuildAll(items[1..], build);
      assert forall i :: 1 <= i < |items| ==> items[i] == items[1..][i - 1];
      match build(items[0])
      case Failed => None
      case Skipped => rest
      case Built(rec) => if rest.Some? then Some([rec] + rest.value) else None
  }

  /** What one feed adds to the run: its items are fetched (`fetch`, `None`
      when the request, the response or the parse throws) and the first 15
      of them are built. */
  function FeedArticles(feed: Feed, fetch: Feed -> Option<seq<Item>>, build: (Item, Feed) -> Outcome): Option<seq<Record>> {
    match fetch(feed)
    case None => None
    case Some(items) => BuildAll(Take(items, ItemsPerFeed), (it: Item) => build(it, feed))
  }

  /** The number of items a feed counts as fetched. */
  function FetchedCount(feed: Feed, fetch: Feed -> Option<seq<Item>>): nat {
    if fetch(feed).Some? then |Take(fetch(feed).value, ItemsPerFeed)| else 0
  }

  // ---------------------------------------------------------------------
  // The run
  // ---------------------------------------------------------------------

  /** A feed read over RSS: its URL starts with "http". */
  predicate IsRssFeed(f: Feed) {
    f.url.Some? && StartsWith(f.url.value, "http")
  }

  /** A feed read through a research platform's API. */
  predicate IsApiFeed(f: Feed) {
    f.kind == ResearchPlatformApi
  }

  /** The feeds of a run: those with an "http" feed URL, then the research
      API feeds, each group in list order, at most `maxSources` of them. The
      RSS feed before which `k` RSS feeds come sits at position `k`, the API
      feed before which `k` API feeds come right after all RSS feeds, as long
      as the position is within the cut. */
  function SelectFeeds(feeds: seq<Feed>, maxSources: nat): (r: seq<Feed>)
    ensures |r| == Min(maxSources, CountIf(feeds, IsRssFeed) + CountIf(feeds, IsApiFeed))
    ensures forall i :: 0 <= i < |r| ==> IsRssFeed(r[i]) || IsApiFeed(r[i])
    ensures forall j {:trigger CountIf(feeds[..j], IsRssFeed)} ::
      0 <= j < |feeds| && IsRssFeed(feeds[j]) && CountIf(feeds[..j], IsRssFeed) < |r| ==>
        r[CountIf(feeds[..j], IsRssFeed)] == feeds[j]
    ensures forall j {:trigger CountIf(feeds[..j], IsApiFeed)} ::
      0 <= j < |feeds| && IsApiFeed(feeds[j]) && CountIf(feeds, IsRssFeed) + CountIf(feeds[..j], IsApiFeed) < |r| ==>
        r[CountIf(feeds, IsRssFeed) + CountIf(feeds[..j], IsApiFeed)] == feeds[j]
  {
    var rss := Filter(feeds, IsRssFeed);
    var api := Filter(feeds, IsApiFeed);
    FilterExactly(feeds, IsRssFeed);
    FilterExactly(feeds, IsApiFeed);
    TakeConcatSelections(feeds, rss, api, maxSources, IsRssFeed, IsApiFeed);
    Take(rss + api, maxSources)
  }

  /** `getMaxSourcesPerRun`: 2 in a self-test, else the configured number
      (30 by default). */
  function MaxSourcesPerRun(selfTest: bool, configured: nat): nat {
    if selfTest then 2 else configured
  }

  /** The article cap of a run: 5 in a self-test, none otherwise. */
  function MaxArticles(selfTest: bool): Option<nat> {
    if selfTest then Some(5) else None
  }

  predicate Full(cap: Option<nat>, have: nat) {
    cap.Some? && have >= cap.value
  }

  /** The records collected from `feeds` onto `acc`: a feed is read only
      while the cap is not reached, adds nothing when it fails, and adds
      its records cut to the room left. */
  function Collect(feeds: seq<Feed>, acc: seq<Record>, cap: Option<nat>,
                   fetch: Feed -> Option<seq<Item>>, build: (Item, Feed) -> Outcome): seq<Record>
    decreases |feeds|
  {
    if feeds == [] || Full(cap, |acc|) then acc
    else Collect(feeds[1..], Append(acc, FeedArticles(feeds[0], fetch, build), cap), cap, fetch, build)
  }

  /** `acc.push(...added.slice(0, cap - acc.length))`, nothing for a failed
      feed. */
  function Append(acc: seq<Record>, added: Option<seq<Record>>, cap: Option<nat>): (r: seq<Record>)
    requires !Full(cap, |acc|)
    ensures |acc| <= |r| && r[..|acc|] == acc
    ensures cap.Some? ==> |r| <= cap.value
    ensures forall k :: |acc| <= k < |r| ==> added.Some? && r[k] in added.value
  {
    if added.None? then acc
    else if cap.None? then acc + added.value
    else
      var r := acc + Take(added.value, cap.value - |acc|);
      assert forall k :: |acc| <= k < |r| ==> r[k] == added.value[k - |acc|];
      r
  }

  /** The cap holds, and the records there at the start stay in front. */
  lemma {:induction false} CollectBounded(feeds: seq<Feed>, acc: seq<Record>, cap: Option<nat>,
                                          fetch: Feed -> Option<seq<Item>>, build: (Item, Feed) -> Outcome)
    requires cap.Some? ==> |acc| <= cap.value
    ensures var all := Collect(feeds, acc, cap, fetch, build);
      && (cap.Some? ==> |all| <= cap.value)
      && |acc| <= |all| && all[..|acc|] == acc
    decreases |feeds|
  {
    if feeds != [] && !Full(cap, |acc|) {
      var next := Append(acc, FeedArticles(feeds[0], fetch, build), cap);
      CollectBounded(feeds[1..], next, cap, fetch, build);
      var all := Collect(feeds, acc, cap, fetch, build);
      assert all[..|acc|] == all[..|next|][..|acc|];
    }
  }

  /** Every collected record that was not there at the start was built from
      an item of one of the feeds. */
  lemma {:induction false} CollectFromFeeds(feeds: seq<Feed>, acc: seq<Record>, cap: Option<nat>,
                                            fetch: Feed -> Option<seq<Item>>, build: (Item, Feed) -> Outcome,
                                            k: nat)
    requires |acc| <= k < |Collect(feeds, acc, cap, fetch, build)|
    ensures exists f, it :: 0 <= f < |feeds| && build(it, feeds[f]) == Built(Collect(feeds, acc, cap, fetch, build)[k])
    decreases |feeds|
  {
    var all := Collect(feeds, acc, cap, fetch, build);
    var next := Append(acc, FeedArticles(feeds[0], fetch, build), cap);
    assert feeds != [] && !Full(cap, |acc|);
    CollectBounded(feeds[1..], next, cap, fetch, build);
    if k < |next| {
      var added := FeedArticles(feeds[0], fetch, build);
      assert all[k] == next[k];
      var j :| 0 <= j < |added.value| && added.value[j] == next[k];
      var items := Take(fetch(feeds[0]).value, ItemsPerFeed);
      var i :| 0 <= i < |items| && build(items[i], feeds[0]) == Built(added.value[j]);
    } else {
      CollectFromFeeds(feeds[1..], next, cap, fetch, build, k);
      var f, it :| 0 <= f < |feeds[1..]| && build(it, feeds[1..][f]) == Built(all[k]);
      assert feeds[f + 1] == feeds[1..][f];
    }
  }

  /** Every article a run collects is a record `buildArticleRecord` built
      for an item of one of the feeds, so it passed the gates. */
  lemma CollectedArticlesAreGated(feeds: seq<Feed>, cap: Option<nat>, fetch: Feed -> Option<seq<Item>>, sv: Services, k: nat)
    requires k < |Collect(feeds, [], cap, fetch, Builder(sv))|
    ensures Gated(Collect(feeds, [], cap, fetch, Builder(sv))[k])
  {
    CollectFromFeeds(feeds, [], cap, fetch, Builder(sv), k);
  }

  /** `buildArticleRecord` with the run's services. */
  function Builder(sv: Services): (Item, Feed) -> Outcome {
    (it: Item, f: Feed) => BuildArticleRecord(it, f, sv)
  }

  /** The loop of `fetchNews` over the selected feeds: stop once the cap is
      reached, skip a feed that fails, and append the records of the others
      up to the cap. Also counts the items fetched. */
  method FetchArticles(feeds: seq<Feed>, cap: Option<nat>, fetch: Feed -> Option<seq<Item>>,
                       build: (Item, Feed) -> Outcome)
    returns (articles: seq<Record>, fetched: nat)
    ensures articles == Collect(feeds, [], cap, fetch, build)
    ensures cap.Some? ==> |articles| <= cap.value
  {
    articles := [];
    fetched := 0;
    var i := 0;
    CollectBounded(feeds, [], cap, fetch, build);
    while i < |feeds|
      invariant 0 <= i <= |feeds|
      invariant cap.Some? ==> |articles| <= cap.value
      invariant Collect(feeds[i..], articles, cap, fetch, build) == Collect(feeds, [], cap, fetch, build)
    {
      if Full(cap, |articles|) {
        break;
      }
      assert feeds[i..][1..] == feeds[i + 1..];
      fetched := fetched + FetchedCount(feeds[i], fetch);
      articles := Append(articles, FeedArticles(feeds[i], fetch, build), cap);
      i := i + 1;
    }
  }

  /** An article after the merge with the stored images: only its image may
      change, as `MergeImage` decides. */
  function MergeStored(stored: map<string, Option<string>>, a: Record): (r: Record)
    ensures r == a.(imageUrl := r.imageUrl)
    ensures r.imageUrl == MergeImage(StoredImage(stored, a.sourceUrl), a.imageUrl)
  {
    a.(imageUrl := MergeImage(StoredImage(stored, a.sourceUrl), a.imageUrl))
  }

  /** `fetchNews` up to the upsert: the selected feeds are read under the
      article cap of the run, and each collected article is merged with the
      image stored for its URL. */
  method FetchNews(feeds: seq<Feed>, selfTest: bool, configuredSources: nat,
                   fetch: Feed -> Option<seq<Item>>, sv: Services,
                   storedRows: seq<(string, Option<string>)>)
    returns (merged: seq<Record>)
    ensures var collected := Collect(SelectFeeds(feeds, MaxSourcesPerRun(selfTest, configuredSources)), [],
                                     MaxArticles(selfTest), fetch, Builder(sv));
      && |merged| == |collected|
      && (selfTest ==> |merged| <= 5)
      && forall k :: 0 <= k < |merged| ==> merged[k] == MergeStored(RowsMap(storedRows), collected[k])
  {
    var selected := SelectFeeds(feeds, MaxSourcesPerRun(selfTest, configuredSources));
    var collected, _ := FetchArticles(selected, MaxArticles(selfTest), fetch, Builder(sv));
    var stored := ExistingImageMap(storedRows);
    merged := seq(|collected|, k requires 0 <= k < |collected| => MergeStored(stored, collected[k]));
  }
}
