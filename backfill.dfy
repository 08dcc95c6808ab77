/**
 * The image backfill job (server/backfill-article-images.mjs): the
 * keywords and search queries built from a stored article, the relevance
 * score of a stock photo, the choice of the best photo, and the
 * query-by-query search over Unsplash and Pixabay that always ends with a
 * category image. Scores are kept in half-points so that the 1.5 bonus is
 * an integer.
 */
module Backfill {
  import opened Wrappers
  import opened Text
  import opened Lists
  import Images

  /** A stored article; a missing column is "". */
  datatype StoredArticle = StoredArticle(title: string, summary: string, category: string, source: string)

  // ---------------------------------------------------------------------
  // Category fallback
  // ---------------------------------------------------------------------

  /** The host of every curated image. */
  const CuratedHost := "https://images.unsplash.com/"

  const CropQuery := "?w=1200&q=80&auto=format&fit=crop"

  const GenericFallbackImage := CuratedHost + ("photo-1558494949-ef527443d01d" + CropQuery)

  /** The curated photo of a category, if it has one. */
  function CuratedPhoto(category: string): Option<string> {
    if category == "Technology" then Some("photo-1518779578993-ec3579fee39f")
    else if category == "Research" then Some("photo-1559757175-5700dde67538")
    else if category == "Business" then Some("photo-1454165205744-3b78555e5572")
    else if category == "Robotics" then Some("photo-1581092580497-e0d23cbdf1dc")
    else if category == "Tools" || category == "AI Tools" then Some("photo-1555066931-4365d14bab8c")
    else None
  }

  /** `categoryFallbackFor`: the curated image of Technology, Research,
      Business, Robotics, Tools and AI Tools (the last two share one), else
      the generic one; all of them on the curated host. */
  function CategoryFallbackFor(category: string): (url: string)
    ensures StartsWith(url, CuratedHost)
    ensures CuratedPhoto(category).None? ==> url == GenericFallbackImage
  {
    var photo := CuratedPhoto(category);
    var path := (if photo.Some? then photo.value else "photo-1558494949-ef527443d01d") + CropQuery;
    StartsWithAppend(CuratedHost, path);
    CuratedHost + path
  }

  // ---------------------------------------------------------------------
  // Titles and tokens
  // ---------------------------------------------------------------------

  /** The characters of the class `[-â€“:|]` in `cleanTitle`, taken one by
      one: the hyphen, 'â', '€', '“', the colon and the bar. */
  predicate IsTitleBreak(c: char) {
    c == '-' || c == 'â' || c == '€' || c == '“' || c == ':' || c == '|'
  }

  predicate IsQuote(c: char) {
    c == '"' || c == '\'' || c == '`'
  }

  /** The text before the first title break. */
  function BeforeBreak(s: string): (r: string)
    ensures |r| <= |s| && r == s[..|r|]
    ensures forall i :: 0 <= i < |r| ==> !IsTitleBreak(r[i])
    ensures |r| < |s| ==> IsTitleBreak(s[|r|])
    decreases |s|
  {
    if s == [] || IsTitleBreak(s[0]) then [] else [s[0]] + BeforeBreak(s[1..])
  }

  /** `cleanTitle`: the part before the first break (the whole title when
      that part is empty), without quotes, whitespace-normalised. */
  function CleanTitle(title: string): (r: string)
    ensures IsTrimmed(r) && SingleSpaced(r)
    ensures forall i :: 0 <= i < |r| ==> !IsQuote(r[i])
  {
    if title == [] then []
    else
      var unquoted := RemoveChars(Headline(title), IsQuote);
      NormalizeKeeps(unquoted, IsQuote);
      NormalizeWhitespace(unquoted)
  }

  /** The text `cleanTitle` keeps of a non-empty title. */
  function Headline(title: string): string {
    var head := BeforeBreak(title);
    if head != [] then head else title
  }

  /** A title that does not open with a break loses everything from its
      first break on: the subtitle after a dash, colon or bar is gone. */
  lemma CleanTitleDropsSubtitle(title: string)
    requires title != [] && !IsTitleBreak(title[0])
    ensures forall i :: 0 <= i < |CleanTitle(title)| ==> !IsTitleBreak(CleanTitle(title)[i])
  {
    var unquoted := RemoveChars(Headline(title), IsQuote);
    NormalizeKeeps(unquoted, IsTitleBreak);
  }

  /** Normalising whitespace introduces no character of a kind `bad` that
      is not a whitespace character. */
  lemma NormalizeKeeps(s: string, bad: char -> bool)
    requires forall c :: bad(c) ==> !IsSpace(c)
    requires forall i :: 0 <= i < |s| ==> !bad(s[i])
    ensures forall i :: 0 <= i < |NormalizeWhitespace(s)| ==> !bad(NormalizeWhitespace(s)[i])
  {
  }

  const Stopwords: set<string> := {
    "the", "and", "for", "are", "with", "that", "this", "from", "have", "has",
    "will", "about", "into", "their", "they", "them", "its", "been", "was", "were",
    "while", "where", "when", "your", "our", "you", "but", "can", "just", "than",
    "also", "any", "each", "other", "more", "over", "after", "before", "under", "between",
    "which", "would", "should", "could", "how", "who", "what", "why", "because", "during",
    "including", "across", "among", "once", "both", "being", "per", "such", "very", "via",
    "every", "still", "many", "much", "new", "latest"
  }

  predicate IsTokenChar(c: char) {
    ('a' <= c <= 'z') || ('0' <= c <= '9')
  }

  /** A token `tokenize` may produce. */
  predicate IsToken(t: string) {
    |t| > 2 && t !in Stopwords && forall i :: 0 <= i < |t| ==> IsTokenChar(t[i])
  }

  predicate AllTokens(ts: seq<string>) {
    forall k :: 0 <= k < |ts| ==> IsToken(ts[k])
  }

  lemma AllTokensAppend(a: seq<string>, b: seq<string>)
    requires AllTokens(a) && AllTokens(b)
    ensures AllTokens(a + b)
  {
    assert forall k :: 0 <= k < |a + b| ==> (a + b)[k] == if k < |a| then a[k] else b[k - |a|];
  }

  /** `tokenize`: lower-case, every character outside `[a-z0-9\s]` becomes
      a space, split at whitespace, and keep the words longer than two
      characters that are not stopwords. */
  function Tokenize(text: string): (tokens: seq<string>)
    ensures AllTokens(tokens)
  {
    var plain := ReplaceChars(Lower(text), (c: char) => !IsTokenChar(c) && !IsSpace(c), ' ');
    WordsKeep(plain, IsTokenChar);
    var words := Words(plain);
    Filter(words, (w: string) => |w| > 2 && w !in Stopwords)
  }

  // ---------------------------------------------------------------------
  // Keywords
  // ---------------------------------------------------------------------

  const AiFocusKeywords: seq<string> := [
    "ai", "artificial intelligence", "machine learning", "technology", "robotics", "automation",
    "data center", "semiconductor", "chip", "research", "enterprise", "software"
  ]

  /** The tokens of title, summary, category and source, in that order. */
  function ArticleTokens(a: StoredArticle): (tokens: seq<string>)
    ensures AllTokens(tokens)
  {
    var t1, t2, t3, t4 := Tokenize(a.title), Tokenize(a.summary), Tokenize(a.category), Tokenize(a.source);
    AllTokensAppend(t1, t2);
    AllTokensAppend(t1 + t2, t3);
    AllTokensAppend(t1 + t2 + t3, t4);
    t1 + t2 + t3 + t4
  }

  /** How often each token occurs. */
  function Frequency(tokens: seq<string>): string -> int {
    (t: string) => Count(tokens, t)
  }

  /** The tokens by descending frequency, ties in first-seen order. */
  function Ranking(tokens: seq<string>): seq<string> {
    RankBy(Dedup(tokens), Frequency(tokens))
  }

  /** The ranking holds every distinct token once, the more frequent
      first. */
  lemma RankingShape(tokens: seq<string>)
    ensures var r := Ranking(tokens);
      && Distinct(r)
      && (forall t :: t in r <==> t in tokens)
      && forall i, j :: 0 <= i < j < |r| ==> Count(tokens, r[i]) >= Count(tokens, r[j])
  {
    var r := Ranking(tokens);
    RankByDistinct(Dedup(tokens), Frequency(tokens));
    RankByRanked(Dedup(tokens), Frequency(tokens));
    assert forall t :: t in r <==> t in multiset(Dedup(tokens));
  }

  /** The first eight ranked words, then the focus words not among them,
      ten at most. */
  function TopThenFocus(ranked: seq<string>, focus: seq<string>): seq<string> {
    Take(Dedup(Take(ranked, 8) + focus), 10)
  }

  /** From a ranking without repeats: no repeats, at most ten, the top of
      the ranking (eight at most) first and focus words after it. */
  lemma TopThenFocusShape(ranked: seq<string>, focus: seq<string>)
    requires Distinct(ranked)
    ensures var ks := TopThenFocus(ranked, focus);
      var top := Take(ranked, 8);
      && Distinct(ks) && |ks| <= 10
      && |top| <= |ks| && ks[..|top|] == top
      && forall i :: |top| <= i < |ks| ==> ks[i] in focus && ks[i] !in top
  {
    var top := Take(ranked, 8);
    assert Distinct(top);
    var all := Dedup(top + focus);
    DedupKeepsPrefix(top, focus);
    var ks := Take(all, 10);
    assert ks[..|top|] == all[..|top|];
    assert forall j :: 0 <= j < |top| ==> all[j] == top[j];
    forall i | |top| <= i < |ks|
      ensures ks[i] in focus && ks[i] !in top
    {
      assert all[i] in top + focus;
    }
  }

  /** The keywords of `aggregateKeywords`. */
  function Keywords(a: StoredArticle): seq<string> {
    TopThenFocus(Ranking(ArticleTokens(a)), AiFocusKeywords)
  }

  /** The keywords have no repeats and number at most ten; the (at most
      eight) most frequent tokens of the article come first, and the rest
      are AI focus keywords. */
  lemma KeywordsShape(a: StoredArticle)
    ensures var ks := Keywords(a);
      var top := Take(Ranking(ArticleTokens(a)), 8);
      && Distinct(ks) && |ks| <= 10
      && |top| <= |ks| && ks[..|top|] == top
      && (forall t :: t in top ==> IsToken(t))
      && forall i :: |top| <= i < |ks| ==> ks[i] in AiFocusKeywords && ks[i] !in top
  {
    var tokens := ArticleTokens(a);
    RankingShape(tokens);
    TopThenFocusShape(Ranking(tokens), AiFocusKeywords);
  }

  /** `aggregateKeywords`: the token counts are gathered in a map whose keys
      keep their first-seen order, the keys are ranked by count, the first
      eight are taken, the focus keywords not yet present are appended, and
      the list is cut to ten. */
  method AggregateKeywords(a: StoredArticle) returns (keywords: seq<string>)
    ensures keywords == Keywords(a)
  {
    var tokens := ArticleTokens(a);
    var freq, order := CountTokens(tokens);
    var score := (t: string) => if t in freq then freq[t] else 0;
    var ranked := RankBy(order, score);
    assert ranked == Ranking(tokens) && Distinct(ranked) by {
      RankByScores(order, score, Frequency(tokens));
      RankingShape(tokens);
    }
    var top := FirstEight(ranked);
    keywords := AddMissing(top, AiFocusKeywords);
    keywords := Take(keywords, 10);
  }

  /** The frequency map of the tokens, and its keys in insertion order. */
  method CountTokens<T(==,!new)>(tokens: seq<T>) returns (freq: map<T, int>, order: seq<T>)
    ensures order == Dedup(tokens)
    ensures forall t :: t in freq <==> t in tokens
    ensures forall t :: t in freq ==> freq[t] == Count(tokens, t)
  {
    freq := map[];
    order := [];
    var i := 0;
    while i < |tokens|
      invariant 0 <= i <= |tokens|
      invariant Tally(freq, order, tokens[..i])
    {
      var t := tokens[i];
      TallyStep(freq, order, tokens, i);
      var count := if t in freq then freq[t] + 1 else 1;
      if t !in freq {
        order := order + [t];
      }
      freq := freq[t := count];
      i := i + 1;
    }
    assert tokens[..i] == tokens;
  }

  /** `freq` counts every element of `s` and `order` lists its keys in
      first-seen order. */
  ghost predicate Tally<T(!new)>(freq: map<T, int>, order: seq<T>, s: seq<T>) {
    && order == Dedup(s)
    && (forall t :: t in freq <==> t in s)
    && (forall t :: t in freq ==> freq[t] == Count(s, t))
  }

  /** Counting the next token bumps its entry, or adds it with count one
      at the end of the key order. */
  lemma TallyStep<T(!new)>(freq: map<T, int>, order: seq<T>, tokens: seq<T>, i: nat)
    requires i < |tokens| && Tally(freq, order, tokens[..i])
    ensures var t := tokens[i];
      Tally(freq[t := if t in freq then freq[t] + 1 else 1], if t in freq then order else order + [t], tokens[..i + 1])
  {
    var t := tokens[i];
    var order' := if t in freq then order else order + [t];
    assert order' == Dedup(tokens[..i + 1]) by {
      PrefixSnoc(tokens, i);
      DedupSnoc(tokens[..i], t);
    }
    var freq' := freq[t := if t in freq then freq[t] + 1 else 1];
    assert forall u :: u in freq' <==> u in tokens[..i + 1] by {
      PrefixSnoc(tokens, i);
    }
    TallyCounts(freq, tokens, i);
  }

  lemma TallyCounts<T(!new)>(freq: map<T, int>, tokens: seq<T>, i: nat)
    requires i < |tokens|
    requires forall t :: t in freq ==> freq[t] == Count(tokens[..i], t)
    requires tokens[i] in freq <==> tokens[i] in tokens[..i]
    ensures var t := tokens[i]; var counted := freq[t := if t in freq then freq[t] + 1 else 1];
      forall u :: u in counted ==> counted[u] == Count(tokens[..i + 1], u)
  {
    var t := tokens[i];
    var counted := freq[t := if t in freq then freq[t] + 1 else 1];
    forall u | u in counted
      ensures counted[u] == Count(tokens[..i + 1], u)
    {
      CountStep(tokens, i, u);
    }
  }

  lemma PrefixSnoc<T>(tokens: seq<T>, i: nat)
    requires i < |tokens|
    ensures tokens[..i + 1] == tokens[..i] + [tokens[i]]
    ensures forall t :: t in tokens[..i + 1] <==> t in tokens[..i] || t == tokens[i]
  {
  }

  lemma CountStep<T>(tokens: seq<T>, i: nat, t: T)
    requires i < |tokens|
    ensures Count(tokens[..i + 1], t) == Count(tokens[..i], t) + (if t == tokens[i] then 1 else 0)
  {
    assert tokens[..i + 1][..i] == tokens[..i];
  }

  /** The ranked words are copied, skipping ones already copied, until
      eight are there. */
  method FirstEight(ranked: seq<string>) returns (top: seq<string>)
    requires Distinct(ranked)
    ensures top == Take(ranked, 8)
  {
    top := [];
    var j := 0;
    while j < |ranked|
      invariant 0 <= j <= |ranked| && j < 8
      invariant top == ranked[..j]
    {
      if ranked[j] !in top {
        top := top + [ranked[j]];
      } else {
        assert false;
      }
      assert top == ranked[..j + 1];
      if |top| >= 8 {
        break;
      }
      j := j + 1;
    }
  }

  /** Appends each word of `extra` that is not there yet. */
  method AddMissing(words: seq<string>, extra: seq<string>) returns (r: seq<string>)
    requires Distinct(words)
    ensures r == Dedup(words + extra)
  {
    AddMissingStart(words, extra);
    r := words;
    var k := 0;
    while k < |extra|
      invariant 0 <= k <= |extra|
      invariant r == Dedup(words + extra[..k])
    {
      AddMissingStep(words, extra, k);
      if extra[k] !in r {
        r := r + [extra[k]];
      }
      k := k + 1;
    }
    assert extra[..k] == extra;
  }

  lemma AddMissingStart(words: seq<string>, extra: seq<string>)
    requires Distinct(words)
    ensures Dedup(words + extra[..0]) == words
  {
    DedupOfDistinct(words);
    assert words + extra[..0] == words;
  }

  /** One more word of `extra` is appended exactly when it is not there. */
  lemma AddMissingStep(words: seq<string>, extra: seq<string>, k: nat)
    requires k < |extra|
    ensures var r := Dedup(words + extra[..k]);
      Dedup(words + extra[..k + 1]) == if extra[k] in r then r else r + [extra[k]]
  {
    assert words + extra[..k + 1] == (words + extra[..k]) + [extra[k]];
    DedupSnoc(words + extra[..k], extra[k]);
  }

  // ---------------------------------------------------------------------
  // Search queries
  // ---------------------------------------------------------------------

  const MaxQueriesPerArticle := 4

  /** The five phrasings `buildSearchQueries` tries, before clean-up. */
  function SearchCandidates(a: StoredArticle, keywords: seq<string>): (raw: seq<string>)
    ensures |raw| == 5
  {
    var compact := Join(Take(keywords, 3), " ");
    var broader := Join(Take(keywords, 5), " ");
    var title := CleanTitle(a.title);
    var category := Lower(a.category);
    [title + " " + compact, title + " " + category, category + " " + compact,
     broader + " " + category, compact + " artificial intelligence"]
  }

  /** Each text whitespace-normalised. */
  function NormalizeAll(raw: seq<string>): (r: seq<string>)
    ensures |r| == |raw|
    ensures forall i :: 0 <= i < |r| ==> r[i] == NormalizeWhitespace(raw[i])
    ensures forall i :: 0 <= i < |r| ==> IsTrimmed(r[i]) && SingleSpaced(r[i])
  {
    seq(|raw|, i requires 0 <= i < |raw| => NormalizeWhitespace(raw[i]))
  }

  /** A usable search query: not empty, trimmed, single-spaced. */
  predicate IsQuery(q: string) {
    q != [] && IsTrimmed(q) && SingleSpaced(q)
  }

  /** `buildSearchQueries`: the candidate phrasings whitespace-normalised,
      the empty ones dropped, de-duplicated, four at most. */
  function BuildSearchQueries(a: StoredArticle, keywords: seq<string>): (queries: seq<string>)
    ensures |queries| <= MaxQueriesPerArticle
    ensures Distinct(queries)
    ensures forall i :: 0 <= i < |queries| ==> IsQuery(queries[i])
    ensures forall i :: 0 <= i < |queries| ==> queries[i] in NormalizeAll(SearchCandidates(a, keywords))
    ensures var normalized := NormalizeAll(SearchCandidates(a, keywords));
      forall i, j :: 0 <= i < j < |queries| ==> FirstIndex(normalized, queries[i]) < FirstIndex(normalized, queries[j])
    ensures var normalized := NormalizeAll(SearchCandidates(a, keywords));
      forall y :: y in normalized && y != [] && y !in queries ==>
        |queries| == MaxQueriesPerArticle &&
        forall i :: 0 <= i < |queries| ==> FirstIndex(normalized, queries[i]) < FirstIndex(normalized, y)
  {
    CleanCandidates(NormalizeAll(SearchCandidates(a, keywords)))
  }

  /** The non-empty texts of `normalized`, de-duplicated, four at most:
      the first four distinct ones, in the order they first appear. */
  function CleanCandidates(normalized: seq<string>): (queries: seq<string>)
    requires forall i :: 0 <= i < |normalized| ==> IsTrimmed(normalized[i]) && SingleSpaced(normalized[i])
    ensures |queries| <= MaxQueriesPerArticle
    ensures Distinct(queries)
    ensures forall i :: 0 <= i < |queries| ==> IsQuery(queries[i]) && queries[i] in normalized
    ensures forall i, j :: 0 <= i < j < |queries| ==> FirstIndex(normalized, queries[i]) < FirstIndex(normalized, queries[j])
    ensures forall y :: y in normalized && y != [] && y !in queries ==>
      |queries| == MaxQueriesPerArticle &&
      forall i :: 0 <= i < |queries| ==> FirstIndex(normalized, queries[i]) < FirstIndex(normalized, y)
  {
    var queries := Take(Dedup(NonEmpty(normalized)), MaxQueriesPerArticle);
    CleanQueries(normalized, queries);
    CleanQueriesInOrder(normalized, queries);
    queries
  }

  lemma CleanQueries(normalized: seq<string>, queries: seq<string>)
    requires forall i :: 0 <= i < |normalized| ==> IsTrimmed(normalized[i]) && SingleSpaced(normalized[i])
    requires queries == Take(Dedup(NonEmpty(normalized)), MaxQueriesPerArticle)
    ensures Distinct(queries)
    ensures forall i :: 0 <= i < |queries| ==> IsQuery(queries[i]) && queries[i] in normalized
  {
    var candidates := NonEmpty(normalized);
    CandidateQueries(normalized);
    var unique := Dedup(candidates);
    KeepAll(candidates, unique, (q: string) => QueryFrom(q, normalized));
    TakeQueries(unique, normalized);
  }

  /** The kept queries follow the first occurrences of the texts, and a
      non-empty text is missing only when four earlier ones were kept. */
  lemma CleanQueriesInOrder(normalized: seq<string>, queries: seq<string>)
    requires queries == Take(Dedup(NonEmpty(normalized)), MaxQueriesPerArticle)
    ensures forall i :: 0 <= i < |queries| ==> queries[i] in normalized
    ensures forall i, j :: 0 <= i < j < |queries| ==> FirstIndex(normalized, queries[i]) < FirstIndex(normalized, queries[j])
    ensures forall y :: y in normalized && y != [] && y !in queries ==>
      |queries| == MaxQueriesPerArticle &&
      forall i :: 0 <= i < |queries| ==> FirstIndex(normalized, queries[i]) < FirstIndex(normalized, y)
  {
    CleanQueriesOrdered(normalized, queries);
    forall y | y in normalized && y != [] && y !in queries
      ensures |queries| == MaxQueriesPerArticle
      ensures forall i :: 0 <= i < |queries| ==> FirstIndex(normalized, queries[i]) < FirstIndex(normalized, y)
    {
      CleanQueriesComplete(normalized, queries, y);
    }
  }

  lemma CleanQueriesOrdered(normalized: seq<string>, queries: seq<string>)
    requires queries == Take(Dedup(NonEmpty(normalized)), MaxQueriesPerArticle)
    ensures forall i :: 0 <= i < |queries| ==> queries[i] in normalized
    ensures forall i, j :: 0 <= i < j < |queries| ==> FirstIndex(normalized, queries[i]) < FirstIndex(normalized, queries[j])
  {
    var unique := Dedup(NonEmpty(normalized));
    DedupOrder(NonEmpty(normalized));
    forall i | 0 <= i < |queries|
      ensures queries[i] == unique[i] && queries[i] in NonEmpty(normalized) && queries[i] in normalized
    {
      assert queries[i] == unique[i];
    }
    forall i, j | 0 <= i < j < |queries|
      ensures FirstIndex(normalized, queries[i]) < FirstIndex(normalized, queries[j])
    {
      NonEmptyOrder(normalized, unique[i], unique[j]);
    }
  }

  lemma CleanQueriesComplete(normalized: seq<string>, queries: seq<string>, y: string)
    requires queries == Take(Dedup(NonEmpty(normalized)), MaxQueriesPerArticle)
    requires y in normalized && y != [] && y !in queries
    ensures |queries| == MaxQueriesPerArticle
    ensures forall i :: 0 <= i < |queries| ==>
      queries[i] in normalized && FirstIndex(normalized, queries[i]) < FirstIndex(normalized, y)
  {
    var unique := Dedup(NonEmpty(normalized));
    NonEmptyKeeps(normalized, y);
    var m := TakeMissing(unique, MaxQueriesPerArticle, y);
    DedupOrder(NonEmpty(normalized));
    forall i | 0 <= i < |queries|
      ensures queries[i] in normalized && FirstIndex(normalized, queries[i]) < FirstIndex(normalized, y)
    {
      assert queries[i] == unique[i];
      NonEmptyOrder(normalized, unique[i], y);
    }
  }

  /** Dropping the empty texts keeps the order of first occurrences of the
      others. */
  lemma {:induction false} NonEmptyOrder(s: seq<string>, x: string, y: string)
    requires x in NonEmpty(s) && y in NonEmpty(s)
    requires FirstIndex(NonEmpty(s), x) < FirstIndex(NonEmpty(s), y)
    ensures x in s && y in s && FirstIndex(s, x) < FirstIndex(s, y)
    decreases |s|
  {
    var h, t := s[0], s[1..];
    assert x != [] && y != [];
    if h == [] {
      assert NonEmpty(s) == NonEmpty(t);
      NonEmptyOrder(t, x, y);
    } else {
      assert NonEmpty(s) == [h] + NonEmpty(t);
      assert y != h;
      if x != h {
        NonEmptyOrder(t, x, y);
      }
    }
  }

  predicate QueryFrom(q: string, normalized: seq<string>) {
    IsQuery(q) && q in normalized
  }

  lemma CandidateQueries(normalized: seq<string>)
    requires forall i :: 0 <= i < |normalized| ==> IsTrimmed(normalized[i]) && SingleSpaced(normalized[i])
    ensures forall i :: 0 <= i < |NonEmpty(normalized)| ==> QueryFrom(NonEmpty(normalized)[i], normalized)
  {
    KeepAll(normalized, NonEmpty(normalized), (q: string) => IsTrimmed(q) && SingleSpaced(q));
  }

  lemma TakeQueries(unique: seq<string>, normalized: seq<string>)
    requires Distinct(unique)
    requires forall i :: 0 <= i < |unique| ==> QueryFrom(unique[i], normalized)
    ensures Distinct(Take(unique, MaxQueriesPerArticle))
    ensures forall i :: 0 <= i < |Take(unique, MaxQueriesPerArticle)| ==> QueryFrom(Take(unique, MaxQueriesPerArticle)[i], normalized)
  {
    var queries := Take(unique, MaxQueriesPerArticle);
    assert forall i :: 0 <= i < |queries| ==> queries[i] == unique[i];
  }

  /** Whatever holds of every element of `s` holds of every element of a
      list drawn from `s`. */
  lemma KeepAll<T>(s: seq<T>, r: seq<T>, p: T -> bool)
    requires forall i :: 0 <= i < |s| ==> p(s[i])
    requires forall x :: x in r ==> x in s
    ensures forall i :: 0 <= i < |r| ==> p(r[i])
  {
    forall i | 0 <= i < |r|
      ensures p(r[i])
    {
      assert r[i] in r;
      var j :| 0 <= j < |s| && s[j] == r[i];
    }
  }

  // ---------------------------------------------------------------------
  // Photo relevance
  // ---------------------------------------------------------------------

  /** A photo tag: its `title` and the title of its `source`. */
  datatype Tag = Tag(title: string, sourceTitle: string)

  /** A stock photo as both providers are brought to: texts, tags, topic
      submissions (name and status, in object order) and the image URL
      (`urls.regular || urls.full`). */
  datatype Photo = Photo(
    description: string, altDescription: string, locationName: string, userName: string,
    tags: seq<Tag>, topics: seq<(string, string)>, url: string)

  const GenericTags: set<string> := {
    "abstract", "background", "wallpaper", "texture", "pattern", "gradient", "design",
    "creative", "illustration", "art", "sunset", "landscape", "nature", "flower", "sky",
    "beach", "forest"
  }

  function TagLabels(tags: seq<Tag>): (r: seq<string>)
    ensures |r| == |tags|
    decreases |tags|
  {
    if tags == [] then []
    else [if tags[0].title != [] then tags[0].title else tags[0].sourceTitle] + TagLabels(tags[1..])
  }

  /** The names of the approved topics with '-' and '_' read as spaces. */
  function ApprovedTopicLabels(topics: seq<(string, string)>): seq<string>
    decreases |topics|
  {
    if topics == [] then []
    else
      var rest := ApprovedTopicLabels(topics[1..]);
      if topics[0].1 == "approved" then [ReplaceChars(topics[0].0, (c: char) => c == '-' || c == '_', ' ')] + rest
      else rest
  }

  /** The status of the first topic called `name`. */
  function TopicStatus(topics: seq<(string, string)>, name: string): string
    decreases |topics|
  {
    if topics == [] then "" else if topics[0].0 == name then topics[0].1 else TopicStatus(topics[1..], name)
  }

  /** `buildPhotoVocabulary`: the photo's texts, tag labels and approved
      topics, joined, lower-cased and whitespace-normalised. */
  function Vocabulary(p: Photo): string {
    var parts := [p.description, p.altDescription, p.locationName, p.userName]
      + TagLabels(p.tags) + ApprovedTopicLabels(p.topics);
    NormalizeWhitespace(Lower(Join(NonEmpty(parts), " ")))
  }

  predicate HasGenericTag(p: Photo) {
    exists i :: 0 <= i < |p.tags| && Lower(p.tags[i].title) in GenericTags
  }

  /** The half-points one keyword earns: 4 for a found keyword of six or
      more characters, 2 for a shorter found one, nothing for a keyword of
      fewer than two characters. */
  function KeywordHalfPoints(vocabulary: string, keyword: string): (pts: nat)
    ensures pts <= 4
  {
    var normalized := Lower(keyword);
    if |normalized| < 2 || !Contains(vocabulary, normalized) then 0
    else if |normalized| >= 6 then 4 else 2
  }

  /** The half-points of a list of keywords. */
  function KeywordsHalfPoints(vocabulary: string, keywords: seq<string>): (pts: nat)
    ensures pts <= 4 * |keywords|
    decreases |keywords|
  {
    if keywords == [] then 0
    else KeywordsHalfPoints(vocabulary, keywords[..|keywords| - 1]) + KeywordHalfPoints(vocabulary, keywords[|keywords| - 1])
  }

  /** The half-points of everything but the keywords: 2 for the category,
      3 for an approved technology topic, 2 for an approved current-events
      topic, minus 2 for a generic tag and minus 2 for an alt text about
      copy space or a background. */
  function BonusHalfPoints(p: Photo, vocabulary: string, category: string): (pts: int)
    ensures -4 <= pts <= 7
  {
    var alt := Lower(p.altDescription);
    (if category != [] && Contains(vocabulary, Lower(category)) then 2 else 0)
    + (if TopicStatus(p.topics, "technology") == "approved" then 3 else 0)
    + (if TopicStatus(p.topics, "current-events") == "approved" then 2 else 0)
    - (if HasGenericTag(p) then 2 else 0)
    - (if Contains(alt, "copy space") || Contains(alt, "background") then 2 else 0)
  }

  /** `scorePhotoForArticle`, doubled: 0 for a photo without vocabulary,
      else the keyword points plus the bonuses. */
  function PhotoScore(p: Photo, category: string, keywords: seq<string>): (score: int)
    ensures Vocabulary(p) == [] ==> score == 0
    ensures -4 <= score <= 4 * |keywords| + 7
  {
    var vocabulary := Vocabulary(p);
    if vocabulary == [] then 0
    else KeywordsHalfPoints(vocabulary, keywords) + BonusHalfPoints(p, vocabulary, category)
  }

  /** The score accumulated keyword by keyword, then adjusted. */
  method ScorePhotoForArticle(p: Photo, category: string, keywords: seq<string>) returns (score: int)
    ensures score == PhotoScore(p, category, keywords)
  {
    var vocabulary := Vocabulary(p);
    if vocabulary == [] {
      return 0;
    }
    score := KeywordPoints(vocabulary, keywords);
    score := score + BonusHalfPoints(p, vocabulary, category);
  }

  /** The keyword loop of `scorePhotoForArticle`. */
  method KeywordPoints(vocabulary: string, keywords: seq<string>) returns (score: int)
    ensures score == KeywordsHalfPoints(vocabulary, keywords)
  {
    score := 0;
    var i := 0;
    while i < |keywords|
      invariant 0 <= i <= |keywords|
      invariant score == KeywordsHalfPoints(vocabulary, keywords[..i])
    {
      assert keywords[..i + 1][..i] == keywords[..i];
      score := score + KeywordHalfPoints(vocabulary, keywords[i]);
      i := i + 1;
    }
    assert keywords[..i] == keywords;
  }

  /** `MIN_RELEVANCE_SCORE`, 1, in half-points. */
  const MinRelevance := 2

  /** The first position of a largest score: what a stable descending sort
      puts first. */
  function BestIndex(scores: seq<int>): (b: nat)
    requires scores != []
    ensures b < |scores|
    ensures forall j :: 0 <= j < |scores| ==> scores[j] <= scores[b]
    ensures forall j :: 0 <= j < b ==> scores[j] < scores[b]
    decreases |scores|
  {
    if |scores| == 1 then 0
    else
      var b := BestIndex(scores[..|scores| - 1]);
      if scores[|scores| - 1] > scores[b] then |scores| - 1 else b
  }

  /** The position of the first largest score, when that score reaches
      `min`. */
  function BestAbove<T>(items: seq<T>, score: T -> int, min: int): (r: Option<nat>)
    ensures r.Some? ==> r.value < |items| && score(items[r.value]) >= min
    ensures r.Some? ==> forall j :: 0 <= j < |items| ==> score(items[j]) <= score(items[r.value])
    ensures r.Some? ==> forall j :: 0 <= j < r.value ==> score(items[j]) < score(items[r.value])
    ensures r.None? <==> forall j :: 0 <= j < |items| ==> score(items[j]) < min
  {
    if items == [] then None
    else
      var scores := seq(|items|, j requires 0 <= j < |items| => score(items[j]));
      assert forall j :: 0 <= j < |items| ==> scores[j] == score(items[j]);
      var b := BestIndex(scores);
      if scores[b] >= min then Some(b) else None
  }

  /** A chosen photo, its position among the results and its score. */
  datatype Choice = Choice(index: nat, photo: Photo, score: int)

  /** `selectRelevantPhoto`: the best-scoring photo, the earliest among
      equals, when it scores at least the minimum. */
  function SelectRelevantPhoto(photos: seq<Photo>, category: string, keywords: seq<string>): (r: Option<Choice>)
    ensures r.Some? ==>
      && r.value.index < |photos| && r.value.photo == photos[r.value.index]
      && r.value.score == PhotoScore(r.value.photo, category, keywords) >= MinRelevance
      && (forall j :: 0 <= j < |photos| ==> PhotoScore(photos[j], category, keywords) <= r.value.score)
      && (forall j :: 0 <= j < r.value.index ==> PhotoScore(photos[j], category, keywords) < r.value.score)
    ensures r.None? <==> forall j :: 0 <= j < |photos| ==> PhotoScore(photos[j], category, keywords) < MinRelevance
  {
    var b := BestAbove(photos, (p: Photo) => PhotoScore(p, category, keywords), MinRelevance);
    if b.Some? then Some(Choice(b.value, photos[b.value], PhotoScore(photos[b.value], category, keywords))) else None
  }

  // ---------------------------------------------------------------------
  // Provider loop
  // ---------------------------------------------------------------------

  /** What an Unsplash search comes back with. */
  datatype UnsplashAnswer = Photos(results: seq<Photo>) | RateLimitHit | RequestFailed

  /** A Pixabay search hit; a missing field is "". */
  datatype PixabayHit = PixabayHit(
    tags: string, user: string,
    largeImageUrl: string, webformatUrl: string, fullHdUrl: string, previewUrl: string)

  /** `normalizePixabayTags`: the comma-separated tags, trimmed, the empty
      ones dropped. */
  function PixabayTags(tags: string): (r: seq<Tag>)
    ensures forall k :: 0 <= k < |r| ==> r[k].title != [] && IsTagTitle(r[k].title)
  {
    TagsOf(TrimPieces(SplitOn(tags, ',')))
  }

  /** Trimmed and free of the comma that separated it from the others. */
  predicate IsTagTitle(t: string) {
    IsTrimmed(t) && ',' !in t
  }

  predicate NotComma(c: char) {
    c != ','
  }

  /** Each comma-free piece, trimmed. */
  function TrimPieces(parts: seq<string>): (r: seq<string>)
    requires forall k :: 0 <= k < |parts| ==> ',' !in parts[k]
    ensures |r| == |parts|
    ensures forall k :: 0 <= k < |r| ==> IsTagTitle(r[k])
    decreases |parts|
  {
    if parts == [] then []
    else
      TrimmedTagPiece(parts[0]);
      [Trim(parts[0])] + TrimPieces(parts[1..])
  }

  /** A tag for each title that is not empty, in order. */
  function TagsOf(titles: seq<string>): (r: seq<Tag>)
    requires forall k :: 0 <= k < |titles| ==> IsTagTitle(titles[k])
    ensures |r| <= |titles|
    ensures forall k :: 0 <= k < |r| ==> r[k].title != [] && IsTagTitle(r[k].title)
    decreases |titles|
  {
    if titles == [] then []
    else
      var rest := TagsOf(titles[1..]);
      if titles[0] == [] then rest else [Tag(titles[0], "")] + rest
  }

  lemma TrimmedTagPiece(part: string)
    requires ',' !in part
    ensures IsTagTitle(Trim(part))
  {
    assert AllChars(part, NotComma);
    TrimKeeps(part, NotComma);
  }

  /** Non-empty tag titles joined by commas read back as exactly those
      tags, in order. */
  lemma {:induction false} PixabayTagsOfJoin(titles: seq<string>)
    requires titles != []
    requires forall k :: 0 <= k < |titles| ==> titles[k] != [] && IsTagTitle(titles[k])
    ensures PixabayTags(Join(titles, ",")) == seq(|titles|, k requires 0 <= k < |titles| => Tag(titles[k], ""))
    decreases |titles|
  {
    var t := titles[0];
    TrimOfTrimmed(t);
    if |titles| == 1 {
      SplitOnNone(t, ',');
    } else {
      var rest := titles[1..];
      assert Join(titles, ",") == t + [','] + Join(rest, ",");
      SplitOnCons(t, Join(rest, ","), ',');
      var pieces := SplitOn(Join(rest, ","), ',');
      assert ([t] + pieces)[1..] == pieces;
      var trimmed := TrimPieces(pieces);
      assert TrimPieces([t] + pieces) == [t] + trimmed;
      assert ([t] + trimmed)[1..] == trimmed;
      PixabayTagsOfJoin(rest);
    }
  }

  /** The first non-empty of four texts, else "". */
  function FirstOf(a: string, b: string, c: string, d: string): (r: string)
    ensures r in {a, b, c, d, ""}
    ensures r == [] <==> a == [] && b == [] && c == [] && d == []
  {
    if a != [] then a else if b != [] then b else if c != [] then c else d
  }

  /** `normalizePixabayPhoto`: the tags stand for description and alt text,
      the user for location and author, there are no topics, and the image is
      `urls.regular || urls.full`, which is the first of the large, web,
      full-HD and preview URLs that is there. */
  function NormalizePixabayPhoto(hit: PixabayHit): (p: Photo)
    ensures p.topics == [] && p.description == hit.tags && p.userName == hit.user
    ensures p.url == [] <==> hit.largeImageUrl == [] && hit.webformatUrl == [] && hit.fullHdUrl == [] && hit.previewUrl == []
  {
    var regular := FirstOf(hit.largeImageUrl, hit.webformatUrl, hit.fullHdUrl, hit.previewUrl);
    var full := FirstOf(hit.fullHdUrl, hit.largeImageUrl, hit.webformatUrl, hit.previewUrl);
    Photo(hit.tags, hit.tags, hit.user, hit.user, PixabayTags(hit.tags), [], if regular != [] then regular else full)
  }

  /** The image providers: which keys are configured and what each search
      returns (`pixabay` is `None` when the request fails). */
  datatype Providers = Providers(
    unsplashKey: bool, pixabayKey: bool,
    unsplash: string -> UnsplashAnswer, pixabay: string -> Option<seq<PixabayHit>>)

  datatype Provider = Unsplash | Pixabay | CategoryFallback

  /** The image found for an article, with the query and the score (in
      half-points) that found it. */
  datatype Resolution = Resolution(url: string, query: string, score: int, provider: Provider)

  /** One query: Unsplash first (skipped without a key or once it has
      reported its rate limit, which it keeps reporting for the run), then
      Pixabay when it has a key. Also returns whether Unsplash is now known
      to be rate-limited. */
  function TryQuery(q: string, a: StoredArticle, keywords: seq<string>, pv: Providers, limited: bool): (r: (Option<Resolution>, bool))
    ensures limited ==> r.1
    ensures r.0.Some? ==> r.0.value.query == q && r.0.value.score >= MinRelevance && r.0.value.provider != CategoryFallback
  {
    var answer := if !pv.unsplashKey || limited then Photos([]) else pv.unsplash(q);
    var nowLimited := limited || answer.RateLimitHit?;
    var fromUnsplash := if answer.Photos? then SelectRelevantPhoto(answer.results, a.category, keywords) else None;
    if fromUnsplash.Some? then
      (Some(Resolution(fromUnsplash.value.photo.url, q, fromUnsplash.value.score, Unsplash)), nowLimited)
    else if !pv.pixabayKey then (None, nowLimited)
    else
      var hits := pv.pixabay(q);
      var photos := if hits.Some? then seq(|hits.value|, k requires 0 <= k < |hits.value| => NormalizePixabayPhoto(hits.value[k])) else [];
      var fromPixabay := SelectRelevantPhoto(photos, a.category, keywords);
      if fromPixabay.Some? then
        (Some(Resolution(fromPixabay.value.photo.url, q, fromPixabay.value.score, Pixabay)), nowLimited)
      else (None, nowLimited)
  }

  /** The image of the category, when no query found a photo. */
  function FallbackResolution(a: StoredArticle): Resolution {
    Resolution(CategoryFallbackFor(a.category), "category-fallback", 0, CategoryFallback)
  }

  /** The queries from the first on, in order, until one finds a photo. */
  function ResolveFrom(queries: seq<string>, a: StoredArticle, keywords: seq<string>, pv: Providers, limited: bool): (r: (Resolution, bool))
    ensures limited ==> r.1
    ensures r.0.provider == CategoryFallback <==> r.0 == FallbackResolution(a)
    ensures r.0.provider != CategoryFallback ==> r.0.query in queries && r.0.score >= MinRelevance
    ensures r.0.url != [] || r.0.provider != CategoryFallback
    decreases |queries|
  {
    if queries == [] then (FallbackResolution(a), limited)
    else
      var step := TryQuery(queries[0], a, keywords, pv, limited);
      if step.0.Some? then (step.0.value, step.1)
      else ResolveFrom(queries[1..], a, keywords, pv, step.1)
  }

  /** The search from query `i` on tries that query first. */
  lemma ResolveStep(queries: seq<string>, i: nat, a: StoredArticle, keywords: seq<string>, pv: Providers, limited: bool)
    requires i < |queries|
    ensures ResolveFrom(queries[i..], a, keywords, pv, limited) ==
      var step := TryQuery(queries[i], a, keywords, pv, limited);
      if step.0.Some? then (step.0.value, step.1) else ResolveFrom(queries[i + 1..], a, keywords, pv, step.1)
  {
    assert queries[i..][1..] == queries[i + 1..];
  }

  /** The category image is used exactly when no query found a photo. */
  lemma {:induction false} FallbackOnlyWhenNothingFound(queries: seq<string>, a: StoredArticle, keywords: seq<string>,
                                                        pv: Providers, limited: bool)
    ensures ResolveFrom(queries, a, keywords, pv, limited).0.provider == CategoryFallback <==>
      NothingFound(queries, a, keywords, pv, limited)
    decreases |queries|
  {
    if queries != [] {
      var step := TryQuery(queries[0], a, keywords, pv, limited);
      FallbackOnlyWhenNothingFound(queries[1..], a, keywords, pv, step.1);
    }
  }

  /** No query of the list, tried in order, finds a photo. */
  predicate NothingFound(queries: seq<string>, a: StoredArticle, keywords: seq<string>, pv: Providers, limited: bool)
    decreases |queries|
  {
    queries == [] ||
    var step := TryQuery(queries[0], a, keywords, pv, limited);
    step.0.None? && NothingFound(queries[1..], a, keywords, pv, step.1)
  }

  /** The rate-limit flag once the queries, tried in order, have all found
      nothing. */
  function LimitedAfter(queries: seq<string>, a: StoredArticle, keywords: seq<string>, pv: Providers, limited: bool): bool
    decreases |queries|
  {
    if queries == [] then limited
    else LimitedAfter(queries[1..], a, keywords, pv, TryQuery(queries[0], a, keywords, pv, limited).1)
  }

  /** A photo found comes from the first query that finds one: query `k`,
      tried with the flag the earlier queries left, after all of them found
      nothing. */
  lemma {:induction false} ResolveFromFirstFound(queries: seq<string>, a: StoredArticle, keywords: seq<string>,
                                                 pv: Providers, limited: bool) returns (k: nat)
    ensures var r := ResolveFrom(queries, a, keywords, pv, limited).0;
      r.provider != CategoryFallback ==>
        && k < |queries|
        && NothingFound(queries[..k], a, keywords, pv, limited)
        && TryQuery(queries[k], a, keywords, pv, LimitedAfter(queries[..k], a, keywords, pv, limited)).0 == Some(r)
    decreases |queries|
  {
    k := 0;
    var r := ResolveFrom(queries, a, keywords, pv, limited).0;
    if queries != [] && r.provider != CategoryFallback {
      var step := TryQuery(queries[0], a, keywords, pv, limited);
      if step.0.Some? {
        assert queries[..0] == [];
      } else {
        var rest := queries[1..];
        assert r == ResolveFrom(rest, a, keywords, pv, step.1).0;
        var j := ResolveFromFirstFound(rest, a, keywords, pv, step.1);
        k := j + 1;
        if j < |rest| {
          FirstFoundShift(queries, j, a, keywords, pv, limited);
        }
      }
    }
  }

  /** Trying the first query without success and then `rest[..j]` is
      trying `queries[..j + 1]`. */
  lemma FirstFoundShift(queries: seq<string>, j: nat, a: StoredArticle, keywords: seq<string>, pv: Providers, limited: bool)
    requires j < |queries| - 1
    requires TryQuery(queries[0], a, keywords, pv, limited).0.None?
    ensures var flag := TryQuery(queries[0], a, keywords, pv, limited).1;
      && queries[j + 1] == queries[1..][j]
      && NothingFound(queries[..j + 1], a, keywords, pv, limited) == NothingFound(queries[1..][..j], a, keywords, pv, flag)
      && LimitedAfter(queries[..j + 1], a, keywords, pv, limited) == LimitedAfter(queries[1..][..j], a, keywords, pv, flag)
  {
    var pre := queries[..j + 1];
    assert pre[0] == queries[0] && pre[1..] == queries[1..][..j];
  }

  /** `resolveImageUrl`: keywords and queries from the article, then the
      queries in order; `limited` is the run's Unsplash rate-limit flag,
      which the search may set. */
  method ResolveImageUrl(a: StoredArticle, pv: Providers, limited: bool)
    returns (r: Resolution, nowLimited: bool)
    ensures (r, nowLimited) == Resolve(a, pv, limited)
  {
    var keywords := AggregateKeywords(a);
    var queries := BuildSearchQueries(a, keywords);
    r, nowLimited := TryQueries(queries, a, keywords, pv, limited);
  }

  /** The loop over the queries: the first photo found ends it. */
  method TryQueries(queries: seq<string>, a: StoredArticle, keywords: seq<string>, pv: Providers, limited: bool)
    returns (r: Resolution, nowLimited: bool)
    ensures (r, nowLimited) == ResolveFrom(queries, a, keywords, pv, limited)
  {
    nowLimited := limited;
    var i := 0;
    while i < |queries|
      invariant 0 <= i <= |queries|
      invariant ResolveFrom(queries[i..], a, keywords, pv, nowLimited) == ResolveFrom(queries, a, keywords, pv, limited)
    {
      ResolveStep(queries, i, a, keywords, pv, nowLimited);
      var step := TryQuery(queries[i], a, keywords, pv, nowLimited);
      nowLimited := step.1;
      if step.0.Some? {
        return step.0.value, nowLimited;
      }
      i := i + 1;
    }
    r := FallbackResolution(a);
  }

  // ---------------------------------------------------------------------
  // Articles to backfill
  // ---------------------------------------------------------------------

  /** The filter of `fetchArticlesNeedingImages`: no image, an empty one, a
      `data:` URI or an Unsplash featured URL (both compared without regard
      to case), or a relative path. */
  predicate NeedsBackfill(imageUrl: Option<string>) {
    || imageUrl.None?
    || imageUrl.value == []
    || StartsWith(Lower(imageUrl.value), "data:")
    || StartsWith(Lower(imageUrl.value), Images.FeaturedBase)
    || StartsWith(imageUrl.value, "/")
  }

  /** Every placeholder the feed job stores is picked up by the backfill. */
  lemma FeedFallbacksAreBackfilled(i: nat)
    requires i < |Images.FallbackNewsImages|
    ensures NeedsBackfill(Some(Images.FallbackNewsImages[i]))
  {
    var topic := Images.FallbackTopics[i];
    var url := Images.FeaturedBase + topic;
    assert Images.FallbackNewsImages[i] == url;
    LowerAppend(Images.FeaturedBase, topic);
    assert Lower(Images.FeaturedBase) == Images.FeaturedBase;
    StartsWithAppend(Images.FeaturedBase, Lower(topic));
  }

  /** The category images the backfill falls back to are final: a later
      run does not pick the article up again. */
  lemma CategoryFallbackIsFinal(category: string)
    ensures !NeedsBackfill(Some(CategoryFallbackFor(category)))
  {
    var url := CategoryFallbackFor(category);
    assert url[..|CuratedHost|] == CuratedHost;
    assert url[0] == 'h' && url[8] == 'i' by {
      assert url[..|CuratedHost|][0] == url[0] && url[..|CuratedHost|][8] == url[8];
    }
    var low := Lower(url);
    NotStartsWithAt(low, "data:", 0);
    assert Images.FeaturedBase[8] == 's';
    NotStartsWithAt(low, Images.FeaturedBase, 8);
    NotStartsWithAt(url, "/", 0);
  }

  /** The image `resolveImageUrl` finds for an article, and the rate-limit
      flag after it. */
  function Resolve(a: StoredArticle, pv: Providers, limited: bool): (r: (Resolution, bool))
    ensures limited ==> r.1
    ensures r.0.url != [] || r.0.provider != CategoryFallback
  {
    ResolveFrom(BuildSearchQueries(a, Keywords(a)), a, Keywords(a), pv, limited)
  }

  /** The number of articles a run updates, from the first given on, with
      the rate-limit flag as it stands before them: an article counts when
      its image has a URL and storing it (`update`) succeeds. */
  function UpdatedFrom(articles: seq<StoredArticle>, pv: Providers, update: (StoredArticle, string) -> bool,
                       limited: bool): (n: nat)
    ensures n <= |articles|
    decreases |articles|
  {
    if articles == [] then 0
    else
      var r := Resolve(articles[0], pv, limited);
      (if r.0.url != [] && update(articles[0], r.0.url) then 1 else 0)
        + UpdatedFrom(articles[1..], pv, update, r.1)
  }

  /** Providers that find no photo for any query: each configured search
      answers with no result, fails or reports its rate limit. */
  ghost predicate FindsNothing(pv: Providers) {
    && (pv.unsplashKey ==> forall q :: !pv.unsplash(q).Photos? || pv.unsplash(q).results == [])
    && (pv.pixabayKey ==> forall q :: pv.pixabay(q).None? || pv.pixabay(q).value == [])
  }

  /** When no search finds a photo every article gets its category image,
      so the run updates exactly the articles whose update succeeds. */
  lemma {:induction false} UpdatedWhenNothingFound(articles: seq<StoredArticle>, pv: Providers,
                                                   update: (StoredArticle, string) -> bool, limited: bool)
    requires FindsNothing(pv)
    ensures UpdatedFrom(articles, pv, update, limited) ==
      |Filter(articles, (a: StoredArticle) => update(a, CategoryFallbackFor(a.category)))|
    decreases |articles|
  {
    if articles != [] {
      ResolveWhenNothingFound(articles[0], pv, limited);
      UpdatedWhenNothingFound(articles[1..], pv, update, Resolve(articles[0], pv, limited).1);
    }
  }

  /** When no search finds a photo an article gets its category image. */
  lemma ResolveWhenNothingFound(a: StoredArticle, pv: Providers, limited: bool)
    requires FindsNothing(pv)
    ensures Resolve(a, pv, limited).0 == FallbackResolution(a)
  {
    var queries := BuildSearchQueries(a, Keywords(a));
    NothingFoundWhenEmpty(queries, a, Keywords(a), pv, limited);
    FallbackOnlyWhenNothingFound(queries, a, Keywords(a), pv, limited);
  }

  /** When every search comes back empty no query finds a photo. */
  lemma {:induction false} NothingFoundWhenEmpty(queries: seq<string>, a: StoredArticle, keywords: seq<string>,
                                                 pv: Providers, limited: bool)
    requires FindsNothing(pv)
    ensures NothingFound(queries, a, keywords, pv, limited)
    decreases |queries|
  {
    if queries != [] {
      NothingFoundWhenEmpty(queries[1..], a, keywords, pv, TryQuery(queries[0], a, keywords, pv, limited).1);
    }
  }

  /** `backfillImages`: every article is processed; an article is updated
      when its resolution has a URL and the update (`update`) succeeds. The
      script stops before the run unless at least one provider key is set. */
  method BackfillImages(articles: seq<StoredArticle>, pv: Providers, update: (StoredArticle, string) -> bool)
    returns (processed: nat, updated: nat)
    requires pv.unsplashKey || pv.pixabayKey
    ensures processed == |articles|
    ensures updated == UpdatedFrom(articles, pv, update, false)
  {
    processed := 0;
    updated := 0;
    var limited := false;
    var i := 0;
    while i < |articles|
      invariant 0 <= i <= |articles|
      invariant processed == i
      invariant updated + UpdatedFrom(articles[i..], pv, update, limited) == UpdatedFrom(articles, pv, update, false)
    {
      processed := processed + 1;
      var r, nowLimited := ResolveImageUrl(articles[i], pv, limited);
      UpdatedStep(articles, i, pv, update, limited, r, nowLimited);
      if r.url != [] && update(articles[i], r.url) {
        updated := updated + 1;
      }
      limited := nowLimited;
      i := i + 1;
    }
  }

  /** The article at `i` adds one update when its resolution has a URL
      that is stored, and hands its rate-limit flag to the rest. */
  lemma UpdatedStep(articles: seq<StoredArticle>, i: nat, pv: Providers, update: (StoredArticle, string) -> bool,
                    limited: bool, r: Resolution, nowLimited: bool)
    requires i < |articles| && (r, nowLimited) == Resolve(articles[i], pv, limited)
    ensures UpdatedFrom(articles[i..], pv, update, limited) ==
      (if r.url != [] && update(articles[i], r.url) then 1 else 0) + UpdatedFrom(articles[i + 1..], pv, update, nowLimited)
  {
    assert articles[i..][1..] == articles[i + 1..];
  }
}
