# scratch.news-ai in Dafny

A Dafny model of the logic of the scratch.news-ai news site. The site
collects AI news from RSS feeds, screens and scores the articles, attaches
images, stores the articles in Supabase and shows them in a React client.
The model covers these parts:

- **The feed job** (`server/fetch-news.mjs`):
  - the source registry (TSV parsing, de-duplication by name, source
    classification, category inference, slugs, YouTube feed URLs);
  - the editorial gates (importance score, content filters, summary
    formatting, the bounded retry of the editorial model call with its
    deterministic fallback);
  - image extraction and the "never downgrade" image merge;
  - the article record builder with its per-feed thresholds;
  - the capped collection loop;
  - the per-IP rate limiter and the subscription validation of the HTTP
    server.
- **The image backfill script** (`server/backfill-article-images.mjs`):
  title cleaning, tokenising, keyword ranking, search queries, photo
  scoring and selection, the provider loop that ends with a category
  fallback, and the counting loop over the articles.
- **The image diagnostics script** (`server/diagnose-images.mjs`) and the
  **source listing script** (`server/list-sources.mjs`).
- **The older aggregation edge function**
  (`supabase/functions/aggregate-ai-news/index.ts`): its sanitising, item
  validation and truncation, per-feed and per-run caps, and publishing
  gate.
- **The client**: the search normaliser (`src/lib/search.ts`), the news
  card's reading time and bookmark toggle, the image element's fallback
  state, the hero carousel's index, the category bar and the home page
  layout.

Pure code is modelled as functions with lemmas about them. Code that
updates state is modelled as methods proved against those functions:
- loops that accumulate (feed lists, collection, counting, backfill) are
  `while` loops with invariants;
- state updated in place (the rate limiter, the bookmark button, the
  image element, the carousel) is a `class` whose methods state the
  whole new state.

The network, the database, the language model, HTML parsing, JSON
parsing, URL resolution and the clock are parameters of the operations
that use them. They are function-typed oracles that return a value or
`None` for a failure.

Files:
- `wrappers.dfy`: `Option` and `Result`.
- `text.dfy`: JavaScript string operations (the `\s` class, ASCII lower
  case, trim, whitespace collapse, split).
- `lists.dfy`: filters, first-occurrence de-duplication, a stable ranking.
- One module per source file or component: `registry.dfy`, `server.dfy`,
  `editorial.dfy`, `images.dfy`, `ingest.dfy` (the feed job),
  `backfill.dfy`, `diagnose.dfy`, `listsources.dfy`, `aggregate.dfy`,
  `search.dfy`, `newscard.dfy`, `newsimage.dfy`, `carousel.dfy`,
  `categorynav.dfy`, `homepage.dfy`.

## Model

| member | source | states |
|---|---|---|
| Registry.ParseTsvRow | server/fetch-news.mjs:76-94 | the three columns of a registry row (tab-separated, else split on runs of two or more white-space characters) come back trimmed |
| Registry.ParseTsvRowOfColumns | server/fetch-news.mjs:76-85 | a line made of three tab-free, trimmed columns joined by tabs parses to exactly those columns |
| Registry.SourceLines | server/fetch-news.mjs:98-101 | the TSV splits into lines on `\n` or `\r\n`, each right-trimmed, and blank lines are dropped |
| Registry.CandidateSources | server/fetch-news.mjs:103-110 | every data row kept has a name and a main URL |
| Registry.FirstByName | server/fetch-news.mjs:112-121 | de-duplication by name keeps at most as many sources as given |
| Registry.FirstByNameCovers | server/fetch-news.mjs:112-121 | after de-duplication names are distinct, every kept source is one of the input, and the set of names is unchanged |
| Registry.FirstByNameKeepsFirst | server/fetch-news.mjs:113-116 | each kept source is the first source of the input with that name |
| Registry.FirstByNameSnoc | server/fetch-news.mjs:113-119 | one more source is ignored when its name was seen, and appended otherwise |
| Registry.KeepFirstByName | server/fetch-news.mjs:112-121 | the loop over the sources with a name map returns the de-duplicated list |
| Registry.LoadAiSources | server/fetch-news.mjs:96-122 | a missing header or one without "name" is an error; otherwise the result is the usable rows, first occurrence of each name |
| Registry.ClassifySourceType | server/fetch-news.mjs:124-143 | the source type is decided by the lower-cased URLs, rule by rule in the order of the code, with `rss_website` as the default |
| Registry.InferArticleCategory | server/fetch-news.mjs:145-165 | the category is Research, Business or Technology; research platforms give Research, Reddit gives Business only for "datascience", podcasts never Research |
| Registry.EnsureCategory | server/fetch-news.mjs:46-52 | a configured category is kept; any other falls back to the first configured one |
| Registry.SafeIdFromName | server/fetch-news.mjs:171-177 | the id is at most 80 characters, has no two dashes in a row and does not start with a dash |
| Registry.SafeIdOfWords | server/fetch-news.mjs:171-177 | a name made of lower-case letter and digit words separated by single spaces gets the id that joins those words with dashes, when that fits in 80 characters |
| Registry.DasherizeWords | server/fetch-news.mjs:172-174 | lower-casing and dasherizing words of lower-case letters and digits separated by single spaces joins them with dashes |
| Registry.Dasherize | server/fetch-news.mjs:174 | a non-empty text gives a non-empty result, which starts with a dash exactly when the text starts with a character other than a-z and 0-9 |
| Registry.DasherizeDashed | server/fetch-news.mjs:174 | the result holds only a-z, 0-9 and dashes, and never two dashes in a row |
| Registry.DasherizeSlugRun | server/fetch-news.mjs:174 | a run of a-z and 0-9 characters is kept as it is |
| Registry.DasherizeGapRun | server/fetch-news.mjs:174 | a non-empty run of other characters becomes exactly one dash |
| Registry.DasherizeAppend | server/fetch-news.mjs:174 | dasherizing two texts that do not meet between two other characters gives the two results one after the other, so runs are replaced independently |
| Registry.StripEdgeDashes | server/fetch-news.mjs:175 | one leading and one trailing dash are removed, leaving no dash at either end |
| Registry.IdRun | server/fetch-news.mjs:208 | the longest prefix of id characters (letters, digits, `_`, `-`) |
| Registry.IdRunOf | server/fetch-news.mjs:208 | an id followed by a non-id character is read back exactly |
| Registry.PlaylistMatch | server/fetch-news.mjs:208-211 | a `list=` parameter match yields a non-empty id of id characters |
| Registry.PlaylistMatchOf | server/fetch-news.mjs:208-211 | the playlist id after `?list=` is found again |
| Registry.ChannelMatch | server/fetch-news.mjs:213-216 | a `/channel/` match yields an id that starts with "UC" and has more |
| Registry.ResolveYoutubeRssUrl | server/fetch-news.mjs:205-238 | an empty URL gives nothing; a playlist id wins over a channel id, which wins over the channel id read from the page; the page gives a feed exactly when it yields a channel id, and that feed is the channel feed URL for it |
| Registry.LookupFeedUrl | server/fetch-news.mjs:377-392 | the feed URL is the registry's, else the cached one when it starts with "http", else the resolved one, which is then cached |
| Registry.BuildFeedList | server/fetch-news.mjs:365-409 | one feed per source, each the feed the source describes; the cache only gains resolved entries and is marked dirty exactly when it changed |
| Registry.NextFeed | server/fetch-news.mjs:371-404 | one step of the feed loop gives the feed its source describes under the original cache, keeps the cache consistent with resolution and reports a change only when the cache differs from the original |
| Server.ResolveRequestIp | server/fetch-news.mjs:239-248 | a non-empty forwarded-for string gives its text up to the first comma, trimmed; an array gives its first element; otherwise the request address, then the socket address, then "unknown" |
| Server.Step | server/fetch-news.mjs:255-262 | a client's bucket restarts when its window has run out and then counts the request |
| Server.RateLimiter.constructor | server/fetch-news.mjs:250-251 | a limiter starts with no buckets |
| Server.RateLimiter.Hit | server/fetch-news.mjs:252-272 | only the requesting client's bucket changes, and the request is refused exactly when its count exceeds the maximum |
| Server.Replay | server/fetch-news.mjs:252-272 | replaying a client's requests lets through no more than were sent |
| Server.OneWindow | server/fetch-news.mjs:257-266 | within one window the count grows by one per request and only requests up to the maximum pass |
| Server.FreshClientWithinWindow | server/fetch-news.mjs:250-272 | a new client gets at most `max` requests through in one window |
| Server.SanitizeSourceTag | server/fetch-news.mjs:289-293 | the tag is trimmed and holds no line break and none of `<>"'` and the backtick |
| Server.ValidateSubscription | server/fetch-news.mjs:1370-1390 | refused exactly when the trimmed, lower-cased email is not 5 to 255 characters of the email pattern; accepted emails are stored lower-cased with the source tag |
| Server.SourceTag | server/fetch-news.mjs:1387-1389 | the stored tag is null or a non-empty sanitized text of at most 100 characters; a missing or blank tag is null |
| Server.MissingEmail | server/fetch-news.mjs:1371-1377 | a missing or blank email is refused with "Email is required." |
| ListSources.ParseTsvRow | server/list-sources.mjs:10-17 | the three tab-separated columns come back trimmed |
| ListSources.ParseTsvRowAgrees | server/list-sources.mjs:10-17 | on a line with at least two tabs the report reads the same columns as the feed server |
| ListSources.ClassifySourceType | server/list-sources.mjs:19-61 | the type is the first rule that fires, or `rss_website` |
| ListSources.ClassifiersAgree | server/list-sources.mjs:19-61 | the report's classifier and the feed server's agree on every source |
| ListSources.RuleTests | server/list-sources.mjs:23-59 | each table rule fires exactly on the URL tests of the matching branch |
| ListSources.SourceRows | server/list-sources.mjs:64-67 | the rows are the non-empty lines after the first, each parsed, one row per line and in line order |
| ListSources.LoadSources | server/list-sources.mjs:63-68 | the sources are exactly the rows with a name and a main URL, all of them and in row order |
| ListSources.DuplicatesKept | server/list-sources.mjs:63-68 | two usable rows with the same name both become sources, in row order: nothing is de-duplicated |
| ListSources.CountSources | server/list-sources.mjs:70-80 | the count map holds exactly the types that occur, each with its number of sources, and the missing-feed count is that of sources with no feed that need one |
| ListSources.CountsSumToTotal | server/list-sources.mjs:74-80 | the per-type counts add up to the number of sources |
| Server.JoinLines | server/fetch-news.mjs:291 | replacing line-break runs with one space leaves no line break and adds no character other than a space |
| Editorial.MatchCount | server/fetch-news.mjs:467-469 | the number of important keywords found is at most the number of keywords |
| Editorial.ImportanceScore | server/fetch-news.mjs:463-477 | the score is 5 to 12; 10 or more needs at least three keyword matches; without a prestigious source it is at most 10 |
| Editorial.MatchCountExtend | server/fetch-news.mjs:467-469 | more text never matches fewer keywords |
| Editorial.ScoreMonotone | server/fetch-news.mjs:463-477 | a longer summary never lowers the score |
| Editorial.PrestigeBonus | server/fetch-news.mjs:473-475 | a prestigious source adds exactly 2 over any other source |
| Editorial.NoKeywordScore | server/fetch-news.mjs:463-477 | text without any keyword scores 5, or 7 from a prestigious source |
| Editorial.EffectiveMinWordCount | server/fetch-news.mjs:1028-1031 | the word floor is the caller's positive count, else 40 |
| Editorial.PhraseEnd | server/fetch-news.mjs:1052-1062 | a topic's words, separated by white space, matched from a position end inside the text |
| Editorial.TopicFrom | server/fetch-news.mjs:1052-1062 | a topic is found from a position exactly when it occurs at some later position between word boundaries |
| Editorial.MatchesTopic | server/fetch-news.mjs:1052-1062 | only a non-blank topic can match |
| Editorial.TopicNeedsBoundaries | server/fetch-news.mjs:1057-1061 | a one-word topic that fills the whole text matches only when the text is that word, so "war" is not found in "forward" |
| Editorial.Screen | server/fetch-news.mjs:1033-1071 | text below the floor is rejected for its word count; otherwise text with no AI signal for that; otherwise the first banned pattern in list order that the text holds, then the first banned topic; text is allowed exactly when it reaches the floor, has an AI signal and no banned pattern or topic |
| Editorial.ApplyContentFilters | server/fetch-news.mjs:1024-1072 | on the joined, lower-cased title, summary and body: the same verdicts in the same order as Screen, naming the first banned pattern, then the first banned topic, the text holds |
| Editorial.ClampText | server/fetch-news.mjs:872-876 | the result is at most 800 characters and unchanged when it fits; otherwise it ends in "..." after the first 797 characters with their surrounding whitespace trimmed |
| Editorial.FormatEditorialSummary | server/fetch-news.mjs:878-895 | the summary is at most 800 characters, empty with no blocks, and the clamped sentences when they are the only block |
| Editorial.LeadSentences | server/fetch-news.mjs:903 | the first two non-empty pieces of the text cut at each full stop, in order, repeats kept: as many as there are such pieces up to two, the one with `k` non-empty pieces before it in position `k` |
| Editorial.FallbackText | server/fetch-news.mjs:898-901 | the text summarised is the sanitized snippet, else the sanitized body, else the title, whichever first is non-empty, else "Summary unavailable"; never empty |
| Editorial.FallbackPackage | server/fetch-news.mjs:897-917 | the summary is the clamped join of the fallback text's first two sentences, or the clamped text itself when it has none; it is non-empty and at most 800 characters, with the title as headline and no content, keywords or highlights |
| Editorial.CleanJsonText | server/fetch-news.mjs:969-974 | the cleaned reply is trimmed and is the trimmed reply when it does not start with a code fence |
| Editorial.CloseFence | server/fetch-news.mjs:973 | after a closing fence at the very end is dropped the reply is trimmed |
| Editorial.CleanFencedReply | server/fetch-news.mjs:969-974 | a reply fenced with a language tag cleans to its trimmed payload |
| Editorial.EmptyInputPackage | server/fetch-news.mjs:920-929 | summary and content are both the sanitized snippet, else the sanitized body, else the sanitized title, the first that is non-empty before sanitizing; the title is the headline, with no keywords or highlights |
| Editorial.PackageFromReply | server/fetch-news.mjs:979-995 | the content is the reply's body, or a built report when the body is missing; the headline falls back to the title; keywords are the tags |
| Editorial.Attempt | server/fetch-news.mjs:960-995 | an attempt yields a package exactly when the model answered and its cleaned reply parsed |
| Editorial.RetryFromOutcome | server/fetch-news.mjs:959-1016 | at most three attempts; every attempt before the last failed; the fallback is used exactly when all of them failed |
| Editorial.Backoff | server/fetch-news.mjs:996-1013 | the sleeps start at 1000 ms and double each time |
| Editorial.GenerateEditorialPackage | server/fetch-news.mjs:919-1017 | with no text the package is built without the model; otherwise the first package of up to three attempts, or the fallback, with a doubling sleep after each failed attempt but the last |
| Editorial.UnfencePayload | server/fetch-news.mjs:973 | removing the opening fence with its language tag and the closing fence leaves exactly the trimmed payload |
| Images.ResolveAll | server/fetch-news.mjs:636-638 | each collected URL is resolved against the item link, in order |
| Images.HtmlImages | server/fetch-news.mjs:600-639 | an empty HTML field gives no URLs, and every URL kept starts with "http" |
| Images.ExtractImageUrlIsFirst | server/fetch-news.mjs:660-695 | the chosen image is the first candidate, in candidate order, that starts with "http" and has an image extension or format hint; there is none exactly when no candidate qualifies |
| Images.ResolveArticleImage | server/fetch-news.mjs:784-798 | an image found in the item wins; the generated image is used only when there is none; nothing only when both are missing |
| Images.SelectFallbackImage | server/fetch-news.mjs:575-581 | the fallback is one of the four featured images |
| Images.SelectedFallbackIsGeneric | server/fetch-news.mjs:575-589 | every selected fallback counts as generated and as generic, so it is never a good image |
| Images.FallbackImageIsGeneric | server/fetch-news.mjs:545-550 | each of the four fallback images is a generated, generic fallback |
| Images.MergeImage | server/fetch-news.mjs:1326-1344 | the merged image is the stored or the incoming one; it is good exactly when either is; a good incoming image always wins, and the stored one is kept only when it is good |
| Images.RowsMapLastWins | server/fetch-news.mjs:1301-1305 | a URL is in the stored-image map exactly when some row with a non-empty URL carries it, mapped to the image of its last such row |
| Images.ExistingImageMap | server/fetch-news.mjs:1287-1306 | the loop over the stored rows builds that map |
| Ingest.TextsOf | server/fetch-news.mjs:1081-1097 | the cleaned title and snippet are never empty ("No title", "No summary available") |
| Ingest.Publish | server/fetch-news.mjs:1117-1159 | a record built after the filter keeps the item's link, clears the feed's importance bar, has a title of at most 200 characters and is featured exactly when its score is 9 or more |
| Ingest.Dated | server/fetch-news.mjs:1141-1159 | once the importance bar is cleared the item is built, or fails when its date cannot be converted; a built record is gated, keeps the link and the score, and carries the feed's name and category |
| Ingest.BuildArticleRecord | server/fetch-news.mjs:1080-1160 | an item without a link, or with "#", is skipped; an item that is not skipped passed the content filter with the feed's word floor; a built record is gated and carries the feed's name and category |
| Ingest.ResearchFeedsPassImportance | server/fetch-news.mjs:1138-1141 | a research feed's bar of 5 is met by every score |
| Ingest.WordFloors | server/fetch-news.mjs:1099 | podcast and YouTube items need 10 words, all others 40 |
| Ingest.BuildAll | server/fetch-news.mjs:1256-1262 | a feed's items fail together when one of them fails; otherwise the kept records are built from its items, no more of them than items |
| Ingest.SelectFeeds | server/fetch-news.mjs:1172-1177 | the "http" feeds in list order, then the research API feeds in list order, cut to the allowed number: the length is the smaller of the cap and the two counts added, and each such feed sits at its position in that concatenation |
| Ingest.Append | server/fetch-news.mjs:1220 | adding a feed's records keeps the earlier records in front, takes only the feed's records and never passes the cap |
| Ingest.CollectBounded | server/fetch-news.mjs:1207-1270 | the collected articles never exceed the cap and keep what was there at the start |
| Ingest.CollectFromFeeds | server/fetch-news.mjs:1207-1270 | every collected article was built from an item of one of the feeds |
| Ingest.CollectedArticlesAreGated | server/fetch-news.mjs:1207-1270 | every article a run collects passed the link, filter and importance gates |
| Ingest.FetchArticles | server/fetch-news.mjs:1207-1270 | the loop over the selected feeds collects exactly the capped articles |
| Ingest.MergeStored | server/fetch-news.mjs:1326-1344 | merging changes only an article's image, to the merge of the stored and incoming images |
| Ingest.FetchNews | server/fetch-news.mjs:1162-1345 | the run merges each collected article of the selected feeds with its stored image, at most five in a self-test |
| Backfill.CategoryFallbackFor | server/backfill-article-images.mjs:41-58 | every category image is on the curated Unsplash host; a category without its own photo gets the generic one |
| Backfill.BeforeBreak | server/backfill-article-images.mjs:174 | the title up to its first dash, colon, bar or other break character |
| Backfill.CleanTitle | server/backfill-article-images.mjs:172-176 | the cleaned title is trimmed, single-spaced and free of quotes and backticks |
| Backfill.CleanTitleDropsSubtitle | server/backfill-article-images.mjs:174 | a title that does not open with a break keeps no break character, so the subtitle is gone |
| Backfill.Tokenize | server/backfill-article-images.mjs:178-183 | every token is lower-case letters and digits, longer than two characters and not a stopword |
| Backfill.RankingShape | server/backfill-article-images.mjs:201-203 | the ranking holds each distinct token once, the more frequent first |
| Backfill.TopThenFocusShape | server/backfill-article-images.mjs:205-219 | from a ranking without repeats: no repeats, at most ten, the top eight first, focus words after them |
| Backfill.KeywordsShape | server/backfill-article-images.mjs:185-220 | the keywords have no repeats, number at most ten, start with the article's most frequent tokens and continue with AI focus words |
| Backfill.AggregateKeywords | server/backfill-article-images.mjs:185-220 | the counting loop, the sort and the two append loops compute those keywords |
| Backfill.CountTokens | server/backfill-article-images.mjs:193-199 | the frequency map counts every token, and its keys keep first-seen order |
| Backfill.FirstEight | server/backfill-article-images.mjs:205-211 | the loop keeps the first eight ranked tokens |
| Backfill.AddMissing | server/backfill-article-images.mjs:213-217 | appending the focus words not yet present de-duplicates the joined list |
| Backfill.SearchCandidates | server/backfill-article-images.mjs:223-233 | five phrasings from the clean title, the category and the keywords |
| Backfill.BuildSearchQueries | server/backfill-article-images.mjs:222-239 | the first four distinct non-empty normalised phrasings, in the order they first appear: at most four distinct, non-empty, trimmed and single-spaced queries, each one of the phrasings, ordered by first occurrence, and a non-empty phrasing is left out only when four queries were kept and all of them occur before it |
| Backfill.CleanCandidates | server/backfill-article-images.mjs:235-238 | of trimmed, single-spaced phrasings, the first four distinct non-empty ones are kept, in the order they first appear; a non-empty phrasing missing from the result means four were kept, all occurring before it |
| Backfill.CleanQueriesInOrder | server/backfill-article-images.mjs:235-238 | dropping empty phrasings, removing repeats and keeping four keeps the order of first occurrences and leaves a non-empty phrasing out only after four earlier ones |
| Backfill.KeywordHalfPoints | server/backfill-article-images.mjs:274-280 | a found keyword earns 1 point, or 2 from six characters on, and a keyword under two characters nothing (in half-points) |
| Backfill.BonusHalfPoints | server/backfill-article-images.mjs:282-305 | the category, technology and current-events topics add, a generic tag and a copy-space alt text subtract, between -2 and 3.5 points |
| Backfill.PhotoScore | server/backfill-article-images.mjs:270-308 | a photo without vocabulary scores 0; otherwise the score is bounded by the keyword points and the bonuses |
| Backfill.ScorePhotoForArticle | server/backfill-article-images.mjs:270-308 | the keyword loop and the adjustments compute that score |
| Backfill.BestIndex | server/backfill-article-images.mjs:311-319 | the first position of a highest score |
| Backfill.SelectRelevantPhoto | server/backfill-article-images.mjs:310-324 | the chosen photo has the highest score, the first among equals, and at least the minimum; none is chosen exactly when every photo scores below it |
| Backfill.PixabayTags | server/backfill-article-images.mjs:366-371 | the comma-separated tags come back with non-empty, trimmed, comma-free titles |
| Backfill.TrimPieces | server/backfill-article-images.mjs:368-369 | each comma-free piece of the tag list, trimmed, one for one |
| Backfill.TagsOf | server/backfill-article-images.mjs:370-371 | no more tags than titles, each with a non-empty, trimmed, comma-free title |
| Backfill.PixabayTagsOfJoin | server/backfill-article-images.mjs:366-371 | non-empty trimmed titles joined by commas read back as exactly those tags, in order |
| Backfill.NormalizePixabayPhoto | server/backfill-article-images.mjs:373-393 | a Pixabay hit becomes a photo with its tags as texts and no topics, and has a URL unless the hit has none |
| Backfill.TryQuery | server/backfill-article-images.mjs:425-474 | one query asks Unsplash, then Pixabay; a photo found carries the query and a score of at least the minimum; a rate limit once seen stays |
| Backfill.ResolveFrom | server/backfill-article-images.mjs:422-506 | a photo found names one of the queries and scores at least the relevance threshold; otherwise the result is exactly the category image, whose URL is never empty; once rate-limited the flag stays set |
| Backfill.ResolveFromFirstFound | server/backfill-article-images.mjs:422-506 | a photo found is the one query `k` finds, tried with the rate-limit flag the earlier queries left, after every earlier query found nothing |
| Backfill.FallbackOnlyWhenNothingFound | server/backfill-article-images.mjs:498-505 | the category image is used exactly when no query found a photo |
| Backfill.ResolveImageUrl | server/backfill-article-images.mjs:422-506 | the image found and the rate-limit flag are those of the specification `Resolve`: the article's queries tried in order with its keywords, the first photo ending the search |
| Backfill.TryQueries | server/backfill-article-images.mjs:426-496 | the loop over the queries stops at the first photo found |
| Backfill.FeedFallbacksAreBackfilled | server/backfill-article-images.mjs:508-510 | every placeholder image the feed job stores matches the backfill filter |
| Backfill.CategoryFallbackIsFinal | server/backfill-article-images.mjs:508-510 | a category image never matches the filter again |
| Backfill.Resolve | server/backfill-article-images.mjs:422-506 | the resolution of one article has a URL unless a provider's photo lacks one |
| Backfill.UpdatedFrom | server/backfill-article-images.mjs:547-571 | a run updates no more articles than it processes |
| Backfill.UpdatedWhenNothingFound | server/backfill-article-images.mjs:498-571 | when every configured search comes back empty, failed or rate-limited, every article gets its category image, so a run updates exactly the articles whose update succeeds |
| Backfill.BackfillImages | server/backfill-article-images.mjs:537-577 | with at least one provider key, every article is processed, and the updates counted are those whose resolution had a URL and whose update succeeded |
| Backfill.BestAbove | server/backfill-article-images.mjs:311-322 | the chosen index has the highest score, comes first among equal scores, and reaches the minimum; none is chosen exactly when every score is below it |
| Backfill.CleanQueries | server/backfill-article-images.mjs:235-238 | normalising, dropping empty phrasings, removing repeats and keeping four gives distinct, non-empty, trimmed, single-spaced queries taken from the phrasings |
| Diagnose.RenderableAgrees | server/diagnose-images.mjs:42-51 | the script's renderability test is the one the feed job's merge step uses |
| Diagnose.GenericFallbackAgrees | server/diagnose-images.mjs:37-57 | the script's generic-fallback test is the one the merge step uses |
| Diagnose.GenericIsRenderable | server/diagnose-images.mjs:37-57 | a generic fallback URL is renderable |
| Diagnose.CheckRow | server/diagnose-images.mjs:96-116 | a data image is reported without a request; any other URL by the answer to its request |
| Diagnose.Diagnose | server/diagnose-images.mjs:59-118 | every loaded row is counted; the broken and fallback lists hold only broken and generic rows; the examples are the first fifteen broken rows; remote checks cover at most 25 rows and only when enabled |
| Diagnose.DiagnoseListsInOrder | server/diagnose-images.mjs:71-73 | the broken list holds every non-renderable row and the fallback list every generic row, each in row order |
| Diagnose.DiagnoseRemoteInOrder | server/diagnose-images.mjs:90-117 | with remote checks on, the first 25 renderable rows are checked, in row order |
| Diagnose.BrokenAndFallbacksDisjoint | server/diagnose-images.mjs:72-73 | no row is both broken and a generic fallback |
| Aggregate.Sanitize | supabase/functions/aggregate-ai-news/index.ts:79-86 | sanitize as written: the result holds at most 1000 characters and no angle bracket |
| Aggregate.SanitizeRebuildsProtocol | supabase/functions/aggregate-ai-news/index.ts:82 | the single `javascript:` pass turns "javajavascript:script:" into "javascript:", so the output still holds the protocol |
| Aggregate.SanitizeStrict | supabase/functions/aggregate-ai-news/index.ts:79-86 | sanitize as intended: at most 1000 characters, no angle bracket, no `javascript:` and no `on…=` handler anywhere in the result |
| Aggregate.StrictAgrees | supabase/functions/aggregate-ai-news/index.ts:79-86 | on text where one pass of each removal finds nothing to rebuild, the intended sanitiser returns exactly what the written one returns |
| Aggregate.StripJs | supabase/functions/aggregate-ai-news/index.ts:82 | the case-insensitive `javascript:` removal never lengthens the text |
| Aggregate.StripJsShrinks | supabase/functions/aggregate-ai-news/index.ts:82 | when the protocol occurs in the text, the removal makes it strictly shorter |
| Aggregate.StripJsOfClean | supabase/functions/aggregate-ai-news/index.ts:82 | text holding no occurrence of the protocol passes unchanged |
| Aggregate.HandlerLength | supabase/functions/aggregate-ai-news/index.ts:83 | a match of `on\w+\s*=` at the start is at least four characters long and ends with '=' |
| Aggregate.StripHandlers | supabase/functions/aggregate-ai-news/index.ts:83 | the event-handler removal never lengthens the text |
| Aggregate.Scrub | supabase/functions/aggregate-ai-news/index.ts:82-83 | repeating both removals until nothing shrinks yields text with neither pattern, no longer than the input |
| Aggregate.ScrubFixpoint | supabase/functions/aggregate-ai-news/index.ts:82-83 | when one round of both removals removes nothing, the text holds neither the protocol nor a handler |
| Aggregate.StripTags | supabase/functions/aggregate-ai-news/index.ts:109 | the `<[^>]*>` removal never lengthens the text |
| Aggregate.StripTagsNoTag | supabase/functions/aggregate-ai-news/index.ts:109 | after the removal no '<' is followed anywhere by a '>' |
| Aggregate.StripTagsPlain | supabase/functions/aggregate-ai-news/index.ts:109 | text without '<' passes unchanged |
| Aggregate.StripEntities | supabase/functions/aggregate-ai-news/index.ts:110 | the `&[^;]+;` removal never lengthens the text |
| Aggregate.StripEntitiesPlain | supabase/functions/aggregate-ai-news/index.ts:110 | text without '&' passes unchanged |
| Aggregate.HttpUrlPrefix | supabase/functions/aggregate-ai-news/index.ts:103-120 | cutting an http(s) URL to 500 characters (any length of at least nine) keeps it an http(s) URL |
| Aggregate.CleanDescription | supabase/functions/aggregate-ai-news/index.ts:107-116 | the stored description holds at most 300 characters and no angle bracket; on text without tags and entities it is the sanitised text cut at 300 |
| Aggregate.CleanDescriptionStrict | supabase/functions/aggregate-ai-news/index.ts:107-116 | with the intended sanitiser the description also holds no protocol and no handler |
| Aggregate.Accept | supabase/functions/aggregate-ai-news/index.ts:97-121 | an item is kept exactly when its title is non-empty and its trimmed link is an http(s) URL; the article holds the title cut at 200, the description, the item's date or the current time trimmed, and an image exactly when the trimmed image URL is http(s) |
| Aggregate.ParseItem | supabase/functions/aggregate-ai-news/index.ts:91-122 | as written: an item is kept exactly when its sanitised title is non-empty and its trimmed link is an http(s) URL; a kept article is valid for its feed, its title is the sanitised title cut at 200, its date is the item's date or the current time, trimmed, and it has an image exactly when the trimmed image URL is http(s) |
| Aggregate.ParseItemKeepsProtocol | supabase/functions/aggregate-ai-news/index.ts:79-122 | an item titled "javajavascript:script:" with an https link is kept with the title "javascript:" |
| Aggregate.ParseItemStrict | supabase/functions/aggregate-ai-news/index.ts:91-122 | with the intended sanitiser: kept under the same condition, valid for its feed, and no protocol or handler in title or description |
| Aggregate.KeptArticles | supabase/functions/aggregate-ai-news/index.ts:88-123 | the item loop keeps at most one article per item and every kept article is valid for the feed (bounded fields without angle brackets, an http(s) link) |
| Aggregate.KeptArticlesMembers | supabase/functions/aggregate-ai-news/index.ts:88-123 | an article is kept exactly when some item parses to it |
| Aggregate.FeedArticles | supabase/functions/aggregate-ai-news/index.ts:48-131 | a feed yields at most five articles, each valid for the feed, and none when the fetch failed |
| Aggregate.ParseRssFeed | supabase/functions/aggregate-ai-news/index.ts:48-131 | the loop returns nothing on a failed fetch or a document over five million characters, otherwise the first five kept articles in item order |
| Aggregate.AllArticlesValid | supabase/functions/aggregate-ai-news/index.ts:147-151 | the feed loop gathers at most five articles per feed, each valid for one of the feeds |
| Aggregate.GatherFeeds | supabase/functions/aggregate-ai-news/index.ts:147-151 | the feed loop appends each feed's articles in feed order |
| Aggregate.ToNewsItem | supabase/functions/aggregate-ai-news/index.ts:242-252 | the row takes the model's headline, summary and category when non-empty and the article's otherwise (summary cut to 200 characters), the article's source and link, the article image or the default one, and is featured exactly when importance is at least nine |
| Aggregate.ProcessArticle | supabase/functions/aggregate-ai-news/index.ts:214-256 | an article becomes a row exactly when the model replied, the cleaned reply parses, the analysis says publish with importance at least seven and the date converts; any failure skips the article |
| Aggregate.PublishedRows | supabase/functions/aggregate-ai-news/index.ts:211-257 | the article loop yields at most one row per article, each coming from one of them, with importance at least seven and featured exactly from nine |
| Aggregate.FencedReplyIsRead | supabase/functions/aggregate-ai-news/index.ts:201-207 | a reply wrapped in a code fence with a language tag is read as the payload inside it |
| Aggregate.AnalyseArticles | supabase/functions/aggregate-ai-news/index.ts:211-257 | the article loop collects the rows of the publishable articles in article order |
| Aggregate.AggregateAiNews | supabase/functions/aggregate-ai-news/index.ts:133-298 | the run ends with "no articles" when no feed gave one, "nothing to add" when no analysed article was publishable, and otherwise inserts exactly the rows of the first twenty articles, reporting whether the insert failed |
| Aggregate.RunBounds | supabase/functions/aggregate-ai-news/index.ts:147-211 | a run gathers at most twenty-five articles and inserts at most twenty rows, never more than the articles gathered |
| Search.NormalizeSearchQuery | src/lib/search.ts:11-23 | normalizeSearchQuery as written: a blank query gives "", and the result holds at most 120 characters, no reserved character and no run of two whitespace characters |
| Search.NormalizeWords | src/lib/search.ts:11-23 | for a query of at most 120 characters the result has exactly the words of the query read with reserved characters as separators, in order, each free of reserved characters |
| Search.ReplacedTrimWords | src/lib/search.ts:14-18 | trimming before the replacement adds or removes no word |
| Search.CollapseAndCut | src/lib/search.ts:19-20 | collapsing whitespace and cutting at 120 characters leaves no double space and brings back no reserved character |
| Search.NormalizeSearchQueryTrimmed | src/lib/search.ts:11-23 | the normaliser as its sample expects: the same guarantees, and in addition no surrounding whitespace |
| Search.NormalizeSpacedWords | src/lib/search.ts:14-20 | two plain words separated by any run of whitespace and reserved characters, with only whitespace around them, come out as the two words joined by one space |
| Search.NormalizeReservedEnds | src/lib/search.ts:14-20 | with reserved characters at both ends, the code as written keeps a space at each end while the trim-last version returns the words joined by one space |
| Search.CommaSample | src/lib/search.test-snippet.ts:4 | "  OpenAI,,,, GPT-5 " normalises to "OpenAI GPT-5", as the sample expects |
| Search.ReservedEndsSample | src/lib/search.test-snippet.ts:5 | "%weird_query(_)" normalises to " weird query " as written and to the expected "weird query" in the trim-last version |
| NewsCard.WordCountIsWords | src/components/NewsCard.tsx:23 | `trim().split(/\s+/).length` is the number of words of a text with a word in it, and 1 for a blank text |
| NewsCard.ReadingTime | src/components/NewsCard.tsx:21-25 | the reading time is at least one minute, one for an empty text, and otherwise the least number of whole minutes in which the word count can be read at 200 words a minute |
| NewsCard.ReadingTimeOfWords | src/components/NewsCard.tsx:21-25 | for a text with words, the reading time is the word count over 200, rounded up |
| NewsCard.ReadingTimeOfBlank | src/components/NewsCard.tsx:21-25 | a blank, non-empty summary still reads in one minute |
| NewsCard.StoredIds | src/components/NewsCard.tsx:30-60 | a missing storage entry reads as the empty list, and reading fails exactly when the entry does not parse |
| NewsCard.IsBookmarked | src/components/NewsCard.tsx:28-35 | an article is bookmarked exactly when its id is in the parsed list; false when the entry is missing or does not parse |
| NewsCard.Toggled | src/components/NewsCard.tsx:61-63 | un-bookmarking removes every occurrence of the id and keeps every other id; bookmarking appends the id |
| NewsCard.ToggledKeepsOrder | src/components/NewsCard.tsx:62 | removal works piecewise over a concatenation, so the other ids keep their order |
| NewsCard.ToggledAbsent | src/components/NewsCard.tsx:62 | removing an id that is not stored leaves the list unchanged |
| NewsCard.ToggleRoundTrip | src/components/NewsCard.tsx:61-63 | bookmarking an article and then removing the bookmark restores the stored list |
| NewsCard.BookmarkButton.constructor | src/components/NewsCard.tsx:50-54 | after mounting, the displayed flag agrees with the storage |
| NewsCard.BookmarkButton.Toggle | src/components/NewsCard.tsx:56-69 | a toggle stores the toggled list and flips the flag when the entry parses and the write succeeds, changes nothing otherwise, and keeps the flag in step with the storage |
| NewsImage.NormalizedSrc | src/components/NewsImage.tsx:8 | the normalised source is the trimmed string, or "" when the source is not a string |
| NewsImage.RenderableSrcExactly | src/components/NewsImage.tsx:10-15 | a source is renderable exactly when it starts with "data:image/", "https://" or "http://"; "", "null" and "undefined" are refused |
| NewsImage.HttpsIsRenderable | src/components/NewsImage.tsx:14 | every https URL is renderable |
| NewsImage.RenderableSrcAgrees | src/components/NewsImage.tsx:10-15 | on trimmed text the client's test agrees with the server's renderability tests |
| NewsImage.NormalizedRenderableAgrees | src/components/NewsImage.tsx:8-15 | testing the normalised source is the server's test on the raw source |
| NewsImage.DefaultFallback | src/components/NewsImage.tsx:22-34 | the default fallback is one of the six Unsplash pictures |
| NewsImage.DefaultFallbackByLength | src/components/NewsImage.tsx:31-34 | alternative texts whose lengths agree modulo six get the same picture |
| NewsImage.DefaultFallbackRenderable | src/components/NewsImage.tsx:22-34 | every default fallback passes the renderability test |
| NewsImage.ImageView.constructor | src/components/NewsImage.tsx:8-18 | the first render marks a non-renderable source as failed and nothing as loaded |
| NewsImage.ImageView.SetSrc | src/components/NewsImage.tsx:36-39 | a changed normalised source re-derives the failure flag and clears the loaded flag; an unchanged one changes nothing |
| NewsImage.ImageView.HandleError | src/components/NewsImage.tsx:41-45 | a load error marks the image as failed and changes nothing else |
| NewsImage.ImageView.HandleLoad | src/components/NewsImage.tsx:55 | a load marks the image as loaded and changes nothing else |
| NewsImage.ImageView.EffectiveSrc | src/components/NewsImage.tsx:47 | the shown URL is the source while it has not failed, else the caller's fallback, else the default one |
| NewsImage.EffectiveSrcRenderable | src/components/NewsImage.tsx:17-47 | when the caller's fallback is absent or renderable, the element is always handed a renderable URL |
| Carousel.RoundDiv | src/components/HeroCarousel.tsx:15 | `Math.round(n / d)` is the whole number nearest to n/d, halves rounded up |
| Carousel.EstimateReadMinutes | src/components/HeroCarousel.tsx:12-17 | four minutes for a missing or empty text; otherwise the rounded piece count over 180 when that exceeds three, and three exactly when it does not |
| Carousel.EstimateOfWords | src/components/HeroCarousel.tsx:14-15 | for a trimmed summary the estimate uses its word count, and fewer than 630 words give the three-minute floor |
| Carousel.JsRem | src/components/HeroCarousel.tsx:27-36 | JavaScript's `%`: for a non-negative dividend the remainder lies in [0, n), for a negative one it takes the dividend's sign |
| Carousel.GoToIndex | src/components/HeroCarousel.tsx:34-37 | the wrapped index lies in [0, n) whenever next + n is non-negative, is next for an in-range index, 0 past the end and n - 1 before the start |
| Carousel.AdvanceIndex | src/components/HeroCarousel.tsx:27 | the timer moves to the next slide and wraps from the last to the first |
| Carousel.ArrowsUndo | src/components/HeroCarousel.tsx:83-90 | the back arrow undoes the forward arrow and the other way round |
| Carousel.ArrowIsAdvance | src/components/HeroCarousel.tsx:27-90 | the forward arrow and the timer make the same move |
| Carousel.Slides.Current | src/components/HeroCarousel.tsx:22-32 | the hero exists exactly when the index is within the slides, and is the slide at the index |
| Carousel.Slides.constructor | src/components/HeroCarousel.tsx:20-21 | the slides are the first four hero articles and the index starts at 0 |
| Carousel.Slides.SetHeroArticles | src/components/HeroCarousel.tsx:21 | new hero articles recompute the slides and keep the index |
| Carousel.Slides.GoTo | src/components/HeroCarousel.tsx:34-37 | with no slides nothing changes; otherwise the index becomes the wrapped target and stays valid |
| Carousel.Slides.Next | src/components/HeroCarousel.tsx:89-95 | the forward arrow moves to the wrapped next index and a slide is always shown afterwards |
| Carousel.Slides.Previous | src/components/HeroCarousel.tsx:82-88 | the back arrow moves to the wrapped previous index and a slide is always shown afterwards |
| Carousel.Slides.Tick | src/components/HeroCarousel.tsx:24-30 | with two slides or more the timer advances the index, and a slide is shown afterwards; with fewer nothing changes |
| Carousel.Spotlight | src/components/HeroCarousel.tsx:101 | the spotlight shows the first three spotlight articles, or all of them when there are fewer |
| CategoryNav.AllCategories | src/constants/categories.ts:8 | "All" comes first, then the configured article categories |
| CategoryNav.SourceList | src/components/CategoryNav.tsx:12 | the supplied categories when non-empty, otherwise the default list; never empty |
| CategoryNav.Items | src/components/CategoryNav.tsx:12-14 | the buttons show each category of the source list exactly once, and no other |
| CategoryNav.ItemsFirstOccurrence | src/components/CategoryNav.tsx:13 | a repeated category adds no button, a new one adds a button at the end |
| CategoryNav.ItemsOfDistinct | src/components/CategoryNav.tsx:12-14 | a list without repeats is shown as it is |
| CategoryNav.Selected | src/components/CategoryNav.tsx:11 | the selected category defaults to "All" |
| CategoryNav.Buttons | src/components/CategoryNav.tsx:20-33 | one button per item, in order, highlighted exactly when it is the selected category, disabled exactly when there is no handler |
| CategoryNav.AtMostOneSelected | src/components/CategoryNav.tsx:25-28 | at most one button is highlighted, and one is exactly when the selected category is among the items |
| CategoryNav.Click | src/components/CategoryNav.tsx:23-24 | a click reports the button's category exactly when there is a handler and the button is enabled |
| HomePage.OrEmpty | src/pages/Index.tsx:36-40 | an absent article list is sliced as the empty list |
| HomePage.ElementAt | src/pages/Index.tsx:38 | the feature article exists exactly when the list has an eighth article, and is that article |
| HomePage.SectionAt | src/pages/Index.tsx:42-46 | section i carries the i-th title and at most six articles, and is non-empty exactly when the remaining articles reach position 6i |
| HomePage.AllSections | src/pages/Index.tsx:42-46 | one section per title, in title order |
| HomePage.Sections | src/pages/Index.tsx:42-47 | at most five sections are shown, each with one to six articles |
| HomePage.PageLayout | src/pages/Index.tsx:36-49 | at most four hero, three spotlight, three highlight and ten trending articles, and everything empty while the list is missing |
| HomePage.LayoutPartition | src/pages/Index.tsx:36-40 | hero, spotlight, feature, highlights and the remaining articles, in that order, are the whole list, each article once |
| HomePage.TrendingOverlapsSpotlight | src/pages/Index.tsx:37-49 | the first two trending articles are the last two spotlight articles |
| HomePage.SectionsEmptyFrom | src/pages/Index.tsx:45-47 | once a section is empty, every later one is too |
| HomePage.SectionCount | src/pages/Index.tsx:42-47 | a section is shown exactly for each started run of six remaining articles, up to five |
| HomePage.SectionsArePrefix | src/pages/Index.tsx:47 | dropping empty sections keeps exactly the first SectionCount sections, in title order |
| HomePage.NoSectionsWithoutArticles | src/pages/Index.tsx:40-47 | with no remaining articles no section is shown |
| HomePage.SectionsCover | src/pages/Index.tsx:42-47 | the shown sections hold the first thirty remaining articles, in order, each once |

## Left out

- Network and database: RSS fetching, Supabase reads, upserts and inserts, Unsplash and Pixabay searches, Hugging Face image generation and the language-model requests are function parameters. Their HTTP status and logging plumbing is not modelled.
- HTML and XML parsing: cheerio in `sanitizeText` and in `extractHtmlImages`, the `rss-parser` items, the regular expressions that cut an RSS document into items, `he` entity decoding and `new URL(u, base)` resolution are parameters. Only the order and filtering around them is modelled.
- `JSON.parse` is a parameter that returns a value or fails. A reply that parses to something other than the expected object is not distinguished from a failed parse.
- Time: `Date.now`, `new Date(...)`, the backoff sleeps, the `setInterval` auto-fetch and its in-progress guard, and the carousel's seven-second timer are left out. Their effect is modelled as explicit parameters (the clock of the rate limiter, the delay sequence of the retry loop, one `Tick` per timer firing).
- Concurrency: the `Promise.all` fan-out over the items of a feed is modelled as a sequential map over the items, in order.
- Floating point: `scoreSentence`, `selectTopSentences` and `extractTopKeywords` in `server/fetch-news.mjs` are not part of this model, because they rank by floating-point weights and the core does not use their results. Hugging Face guidance and size parsing are left out for the same reason.
- Backfill.PhotoScore: the score is modelled in half-points, i.e. doubled, so that the 1.5 bonus stays an integer. The threshold and the ranking are doubled to match.
- Text.Lower: lower-casing is ASCII only. JavaScript's `toLowerCase` also maps non-ASCII letters, some of them to ASCII: the Kelvin sign U+212A becomes "k", and U+0130 becomes "i" followed by a combining dot, which also lengthens the text. Every rule built on lower-casing inherits the gap. `Backfill.Tokenize` reads "\u212Aeras" as "keras" in the code but as "eras" in the model. `Registry.SafeIdFromName`, the keyword and topic matches of `Editorial.Screen` and `Editorial.ApplyContentFilters`, the ranking signals of `Editorial.ScoreText`, the rules of `ListSources`, the e-mail normalisation of `Server` and the extension test of `Images` can differ in the same way on such letters.
- Text.Prefix: strings are sequences of code points, while JavaScript's `length` and `slice` count UTF-16 code units, and a character outside the Basic Multilingual Plane is two of them. Every length cap is therefore counted in code points, not code units. This covers the 1000-character sanitiser cut, the 200-character title, the 500-character link and image URL, the 300-character description, the 5,000,000-character feed limit, the 800/797 summary clamp of `Editorial.ClampText`, the 120-character cut of `Search.NormalizeSearchQuery` and the 200-character summary fallback. On text with such characters the model can keep more than the code does.
- NewsImage.DefaultFallback: the fallback picture is chosen by `alt.length`, which the model counts in code points rather than UTF-16 code units.
- Backfill.CategoryFallbackFor: a JavaScript object lookup also finds inherited keys such as "constructor". The model treats only the listed categories as keys.
- `shared/article-categories.json` is not part of this model. The configured categories are a parameter wherever the code reads them.
- The `metrics` counters and the console output of the feed job, the diagnostics script and the listing script are not modelled, except the counts and lists those scripts print.
- React rendering, routing, toasts and the storage plumbing are left out. The components are modelled through the values and state they compute.
- Registry.SafeIdFromName: the whole id is stated for names made of words of lower-case letters and digits separated by single spaces (`Registry.SafeIdOfWords`). For other names the contract gives the shape of the id, and the run-by-run lemmas about `Registry.Dasherize` give its pieces; no single lemma states the id of an arbitrary name.
- Search.NormalizeSearchQuery: the word-for-word guarantee, `Search.NormalizeWords`, covers queries of at most 120 characters. For a longer query the contracts state the cap, the absence of reserved characters and the single spacing, but not which words survive the cut.
- Carousel.EstimateReadMinutes: the model returns the number of minutes, not the "<m> min read" text.
- `server/fetch-news.js` is a superseded revision that does not parse, and is not modelled.
- The remaining scripts (`server/check-supabase-table.mjs`, `scripts/self-test.mjs`, the `generate-post` edge function, the OpenRouter test scripts) are thin wrappers over external services and are not modelled.

## Findings

| source | as written | input that shows it | evidently intended | confidence | as-written member | corrected member |
|---|---|---|---|---|---|---|
| supabase/functions/aggregate-ai-news/index.ts:79-86 | `sanitize` removes `javascript:` and `on…=` in a single pass each, so removing an inner occurrence can join the text around it into a new one | the title "javajavascript:script:" sanitises to "javascript:" | the sanitised text holds no `javascript:` and no event handler | not executed | Aggregate.SanitizeRebuildsProtocol | Aggregate.SanitizeStrict |
| src/lib/search.ts:14-20 | the query is trimmed before reserved characters become spaces, so a reserved character at either end leaves a space there | "%weird_query(_)" normalises to " weird query " | "weird query", the result the sample at src/lib/search.test-snippet.ts:5 expects | not executed | Search.ReservedEndsSample | Search.NormalizeSearchQueryTrimmed |

`Aggregate.ParseItem` keeps the sanitiser as written, and `Aggregate.ParseItemKeepsProtocol` shows a feed item that comes through it with the protocol in its title. `Aggregate.ParseItemStrict` is the item parser with the corrected sanitiser. `Aggregate.StrictAgrees` shows that the corrected sanitiser returns the same as the written one whenever a single pass finds nothing to rebuild. For the search normaliser, `Search.NormalizeSearchQuery` keeps the behaviour as written and `Search.NormalizeReservedEnds` proves the difference in general.

## Notes

These consequences of the code, proved in the model, are not defects:
- Research feeds always pass the importance gate, because their bar of 5 is the lowest possible score (`Ingest.ResearchFeedsPassImportance`).
- The carousel keeps its index when the hero articles change. The index can then point past the new slides, and the carousel renders nothing until the next timer tick wraps it (`Carousel.Slides.SetHeroArticles`).
- The bookmark toggle trusts the displayed flag. If another card changed the storage in the meantime, bookmarking can append an id that is already stored (`NewsCard.Toggled`).
