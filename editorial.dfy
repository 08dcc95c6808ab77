/**
 * The editorial gates of the feed server (server/fetch-news.mjs): the
 * importance score, the content filter, summary clamping and formatting,
 * the fallback editorial package, the cleaning of a model reply before it
 * is parsed as JSON, and the bounded retry loop around the language-model
 * call.
 */
module Editorial {
  import opened Wrappers
  import opened Text
  import opened Lists

  // ---------------------------------------------------------------------
  // Importance score
  // ---------------------------------------------------------------------

  /** `IMPORTANT_KEYWORDS`, all lower-case already, so lower-casing them as
      the score does changes nothing. */
  const ImportantKeywords: seq<string> := [
    "openai", "google", "microsoft", "meta", "anthropic", "deepmind", "nvidia",
    "gpt", "chatgpt", "gemini", "claude", "copilot", "bard",
    "breakthrough", "launch", "release", "announces", "unveils", "acquisition",
    "research", "model", "algorithm", "neural network", "machine learning",
    "regulation", "policy", "lawsuit", "controversy", "ethics", "safety",
    "funding", "investment", "billion", "million", "ipo", "partnership"
  ]

  const PrestigiousSources: seq<string> :=
    ["MIT Technology Review", "TechCrunch AI", "Reuters Technology", "VentureBeat AI"]

  /** The number of `keywords` that occur in `text`. */
  function MatchCount(text: string, keywords: seq<string>): (n: nat)
    ensures n <= |keywords|
  {
    MatchesFrom(text, keywords, 0)
  }

  /** The number of `keywords` from index `i` on that occur in `text`. */
  function MatchesFrom(text: string, keywords: seq<string>, i: nat): (n: nat)
    requires i <= |keywords|
    ensures n <= |keywords| - i
    decreases |keywords| - i
  {
    if i == |keywords| then 0
    else (if Contains(text, keywords[i]) then 1 else 0) + MatchesFrom(text, keywords, i + 1)
  }

  /** The text the score searches: title and summary joined by a space,
      lower-cased. */
  function ScoreText(title: string, summary: string): string {
    Lower(title + " " + summary)
  }

  /** `calculateImportanceScore`: 5, plus one per important keyword found
      (at most 5), plus 2 for a prestigious source. */
  function ImportanceScore(title: string, summary: string, source: string): (score: int)
    ensures 5 <= score <= 12
    ensures score >= 10 ==> MatchCount(ScoreText(title, summary), ImportantKeywords) >= 3
    ensures source !in PrestigiousSources ==> score <= 10
  {
    var matches := MatchCount(ScoreText(title, summary), ImportantKeywords);
    5 + Min(matches, 5) + (if source in PrestigiousSources then 2 else 0)
  }

  /** A keyword found in a text is still found once more text follows. */
  lemma MatchCountExtend(a: string, b: string, keywords: seq<string>)
    ensures MatchCount(a, keywords) <= MatchCount(a + b, keywords)
  {
    MatchesFromExtend(a, b, keywords, 0);
  }

  lemma {:induction false} MatchesFromExtend(a: string, b: string, keywords: seq<string>, i: nat)
    requires i <= |keywords|
    ensures MatchesFrom(a, keywords, i) <= MatchesFrom(a + b, keywords, i)
    decreases |keywords| - i
  {
    if i < |keywords| {
      if Contains(a, keywords[i]) {
        ContainsExtend(a, b, keywords[i]);
      }
      MatchesFromExtend(a, b, keywords, i + 1);
    }
  }

  /** Appending to the summary never lowers the score. */
  lemma ScoreMonotone(title: string, summary: string, more: string, source: string)
    ensures ImportanceScore(title, summary, source) <= ImportanceScore(title, summary + more, source)
  {
    ScoreTextExtend(title, summary, more, ImportantKeywords);
  }

  lemma ScoreTextExtend(title: string, summary: string, more: string, keywords: seq<string>)
    ensures MatchCount(ScoreText(title, summary), keywords) <= MatchCount(ScoreText(title, summary + more), keywords)
  {
    assert title + " " + (summary + more) == (title + " " + summary) + more;
    LowerAppend(title + " " + summary, more);
    MatchCountExtend(ScoreText(title, summary), Lower(more), keywords);
  }

  /** The prestige bonus is exactly 2 points. */
  lemma PrestigeBonus(title: string, summary: string, p: string, q: string)
    requires p in PrestigiousSources && q !in PrestigiousSources
    ensures ImportanceScore(title, summary, p) == ImportanceScore(title, summary, q) + 2
  {
  }

  /** With no keyword found the score is the base, 5 or 7. */
  lemma {:induction false} NoKeywordScore(title: string, summary: string, source: string)
    requires forall k :: 0 <= k < |ImportantKeywords| ==> !Contains(ScoreText(title, summary), ImportantKeywords[k])
    ensures ImportanceScore(title, summary, source) == if source in PrestigiousSources then 7 else 5
  {
    NoMatches(ScoreText(title, summary), ImportantKeywords);
  }

  lemma NoMatches(text: string, keywords: seq<string>)
    requires forall k :: 0 <= k < |keywords| ==> !Contains(text, keywords[k])
    ensures MatchCount(text, keywords) == 0
  {
    NoMatchesFrom(text, keywords, 0);
  }

  lemma {:induction false} NoMatchesFrom(text: string, keywords: seq<string>, i: nat)
    requires i <= |keywords|
    requires forall k :: i <= k < |keywords| ==> !Contains(text, keywords[k])
    ensures MatchesFrom(text, keywords, i) == 0
    decreases |keywords| - i
  {
    if i < |keywords| {
      NoMatchesFrom(text, keywords, i + 1);
    }
  }

  // ---------------------------------------------------------------------
  // Content filter
  // ---------------------------------------------------------------------

  const DefaultMinWordCount := 40

  const AiSignals: seq<string> := [
    "ai", "artificial intelligence", "machine learning", "deep learning", "neural", "llm",
    "large language model", "generative", "transformer", "computer vision",
    "reinforcement learning", "diffusion", "robotics"
  ]

  /** The banned patterns `/sponsored/i`, `/giveaway/i`, `/advertorial/i`;
      tested against lower-cased text they are plain substrings. */
  const BannedPatterns: seq<string> := ["sponsored", "giveaway", "advertorial"]

  const BannedTopics: seq<string> := [
    "war", "armed conflict", "gaza", "israel", "palestine", "ukraine", "russia",
    "iran", "north korea", "terror", "weapon", "missile"
  ]

  datatype RejectReason =
    | InsufficientWordCount
    | MissingAiSignal
    | BannedPattern(pattern: string)
    | BannedTopic(topic: string)

  datatype Verdict = Allowed | Rejected(reason: RejectReason)

  /** The word floor: the caller's count when it is a positive number, else
      40 (None stands for a value that is not a finite number). */
  function EffectiveMinWordCount(minWordCount: Option<int>): (floor: int)
    ensures floor > 0
    ensures minWordCount.Some? && minWordCount.value > 0 ==> floor == minWordCount.value
    ensures !(minWordCount.Some? && minWordCount.value > 0) ==> floor == DefaultMinWordCount
  {
    if minWordCount.Some? && minWordCount.value > 0 then minWordCount.value else DefaultMinWordCount
  }

  /** Whether a `\W` (or either end of the text) sits right before `p`. */
  predicate BoundaryBefore(text: string, p: nat)
    requires p <= |text|
  {
    p == 0 || !IsWordChar(text[p - 1])
  }

  /** Whether a `\W` (or the end of the text) sits right at `q`. */
  predicate BoundaryAfter(text: string, q: nat)
    requires q <= |text|
  {
    q == |text| || !IsWordChar(text[q])
  }

  /** Where the words of a topic, separated by `\s+`, end when matched from
      position `p`; None when they do not match there. */
  function PhraseEnd(text: string, p: nat, parts: seq<string>): (q: Option<nat>)
    requires p <= |text|
    requires parts != []
    ensures q.Some? ==> p <= q.value <= |text|
    decreases |parts|
  {
    var w := parts[0];
    if !StartsWith(text[p..], w) then None
    else
      var e := p + |w|;
      if |parts| == 1 then Some(e)
      else
        var afterSpace := |text| - |TrimStart(text[e..])|;
        if afterSpace == e then None
        else PhraseEnd(text, afterSpace, parts[1..])
  }

  /** The topic phrase occurs at `p` with a non-word character or an end of
      the text on both sides. */
  predicate TopicAt(text: string, parts: seq<string>, p: nat)
    requires p <= |text| && parts != []
  {
    BoundaryBefore(text, p)
    && var q := PhraseEnd(text, p, parts);
       q.Some? && BoundaryAfter(text, q.value)
  }

  /** The regular expression `(?:^|\W)part\s+part…(?:\W|$)` tested from
      position `p` onwards. */
  function TopicFrom(text: string, parts: seq<string>, p: nat): (found: bool)
    requires p <= |text| && parts != []
    ensures found <==> exists i :: p <= i <= |text| && TopicAt(text, parts, i)
    decreases |text| - p
  {
    if TopicAt(text, parts, p) then true
    else if p == |text| then false
    else TopicFrom(text, parts, p + 1)
  }

  /** `matchesTopic`: the trimmed, lower-cased topic, split into words,
      occurs as a whole-word phrase of the text. */
  function MatchesTopic(text: string, topic: string): (found: bool)
    ensures found ==> Trim(topic) != []
  {
    var normalized := Lower(Trim(topic));
    var parts := Words(normalized);
    if normalized == [] || parts == [] then false else TopicFrom(text, parts, 0)
  }

  /** A single-word topic never matches inside a longer word: in a text made
      of word characters only it matches nothing but the topic itself, so
      "forward" does not trigger "war". */
  lemma TopicNeedsBoundaries(text: string, w: string)
    requires forall i :: 0 <= i < |text| ==> IsWordChar(text[i])
    requires w != [] && forall i :: 0 <= i < |w| ==> IsWordChar(w[i])
    requires TopicFrom(text, [w], 0)
    ensures text == w
  {
    var p :| 0 <= p <= |text| && TopicAt(text, [w], p);
    assert p == 0;
    var q := PhraseEnd(text, 0, [w]);
    assert q == Some(|w|);
    assert text[..|w|] == w;
  }

  /** The text the filter reads: the present parts joined by spaces,
      lower-cased. */
  function FilterText(title: string, summary: string, body: string): string {
    Lower(Join(NonEmpty([title, summary, body]), " "))
  }

  /** Some pattern of `patterns` occurs in the text. */
  predicate MentionsPattern(text: string, patterns: seq<string>) {
    exists k :: 0 <= k < |patterns| && Contains(text, patterns[k])
  }

  /** Some topic of `topics` occurs in the text as a whole word. */
  predicate MentionsTopic(text: string, topics: seq<string>) {
    exists k :: 0 <= k < |topics| && MatchesTopic(text, topics[k])
  }

  predicate MentionsBannedPattern(text: string) {
    MentionsPattern(text, BannedPatterns)
  }

  predicate MentionsBannedTopic(text: string) {
    MentionsTopic(text, BannedTopics)
  }

  /** `p` is the first pattern of the list, in list order, that occurs in
      the text. */
  predicate FirstPattern(text: string, patterns: seq<string>, p: string) {
    exists k :: 0 <= k < |patterns| && patterns[k] == p && Contains(text, p)
      && forall j :: 0 <= j < k ==> !Contains(text, patterns[j])
  }

  /** `t` is the first topic of the list, in list order, that the text
      matches as a whole-word phrase. */
  predicate FirstTopic(text: string, topics: seq<string>, t: string) {
    exists k :: 0 <= k < |topics| && topics[k] == t && MatchesTopic(text, t)
      && forall j :: 0 <= j < k ==> !MatchesTopic(text, topics[j])
  }

  /** The rules applied in order to the filter text with a given floor, AI
      signals, banned patterns and banned topics: the first rule that fails
      is the one reported. */
  function Screen(text: string, wordCount: nat, floor: int,
                  signals: seq<string>, patterns: seq<string>, topics: seq<string>): (v: Verdict)
    ensures wordCount < floor ==> v == Rejected(InsufficientWordCount)
    ensures wordCount >= floor && !ContainsAny(text, signals) ==> v == Rejected(MissingAiSignal)
    ensures wordCount >= floor && ContainsAny(text, signals) && MentionsPattern(text, patterns) ==>
      v.Rejected? && v.reason.BannedPattern? && FirstPattern(text, patterns, v.reason.pattern)
    ensures (wordCount >= floor && ContainsAny(text, signals) && !MentionsPattern(text, patterns)
             && MentionsTopic(text, topics)) ==>
      v.Rejected? && v.reason.BannedTopic? && FirstTopic(text, topics, v.reason.topic)
    ensures v == Allowed <==>
      wordCount >= floor && ContainsAny(text, signals) && !MentionsPattern(text, patterns) && !MentionsTopic(text, topics)
  {
    if wordCount < floor then Rejected(InsufficientWordCount)
    else if !ContainsAny(text, signals) then Rejected(MissingAiSignal)
    else match Find(patterns, p => Contains(text, p))
      case Some(p) => Rejected(BannedPattern(p))
      case None =>
        match Find(topics, t => MatchesTopic(text, t))
        case Some(t) => Rejected(BannedTopic(t))
        case None => Allowed
  }

  /** `applyContentFilters`: the word floor, then an AI signal, then the
      banned patterns, then the banned topics; the first rule that fails
      decides, and text below the floor is rejected whatever it says. */
  function ApplyContentFilters(title: string, summary: string, body: string, minWordCount: Option<int>): (v: Verdict)
    ensures var text := FilterText(title, summary, body);
      |Words(text)| < EffectiveMinWordCount(minWordCount) ==> v == Rejected(InsufficientWordCount)
    ensures var text := FilterText(title, summary, body);
      |Words(text)| >= EffectiveMinWordCount(minWordCount) && !ContainsAny(text, AiSignals) ==>
      v == Rejected(MissingAiSignal)
    ensures var text := FilterText(title, summary, body);
      (|Words(text)| >= EffectiveMinWordCount(minWordCount) && ContainsAny(text, AiSignals)
       && MentionsBannedPattern(text)) ==>
      v.Rejected? && v.reason.BannedPattern? && FirstPattern(text, BannedPatterns, v.reason.pattern)
    ensures var text := FilterText(title, summary, body);
      (|Words(text)| >= EffectiveMinWordCount(minWordCount) && ContainsAny(text, AiSignals)
       && !MentionsBannedPattern(text) && MentionsBannedTopic(text)) ==>
      v.Rejected? && v.reason.BannedTopic? && FirstTopic(text, BannedTopics, v.reason.topic)
    ensures v == Allowed <==>
      var text := FilterText(title, summary, body);
      && |Words(text)| >= EffectiveMinWordCount(minWordCount)
      && ContainsAny(text, AiSignals) && !MentionsBannedPattern(text) && !MentionsBannedTopic(text)
  {
    var text := FilterText(title, summary, body);
    Screen(text, |Words(text)|, EffectiveMinWordCount(minWordCount), AiSignals, BannedPatterns, BannedTopics)
  }

  // ---------------------------------------------------------------------
  // Summary text
  // ---------------------------------------------------------------------

  const SummaryCharLimit := 800

  /** `h` is `text[..n]` with the whitespace at both of its ends removed:
      an infix of it, trimmed, with only whitespace before and after. */
  ghost predicate TrimmedHead(text: string, n: nat, h: string)
    requires n <= |text|
  {
    && IsTrimmed(h)
    && exists a: nat ::
         && a + |h| <= n && text[a..a + |h|] == h
         && AllChars(text[..a], IsSpace) && AllChars(text[a + |h|..n], IsSpace)
  }

  /** `clampText` with its default limit: a text over 800 characters is cut
      to its first 797, trimmed, and given "..."; a shorter one is kept. */
  function ClampText(text: string): (r: string)
    ensures |r| <= SummaryCharLimit
    ensures |text| <= SummaryCharLimit ==> r == text
    ensures |text| > SummaryCharLimit ==>
      && EndsWith(r, "...")
      && TrimmedHead(text, SummaryCharLimit - 3, r[..|r| - 3])
  {
    if text == [] then []
    else if |text| <= SummaryCharLimit then text
    else
      var cut := text[..SummaryCharLimit - 3];
      ClampedHead(text, cut);
      Trim(cut) + "..."
  }

  /** A slice of a prefix is the same slice of the whole text. */
  lemma SliceOfPrefix(text: string, n: nat, i: nat, j: nat)
    requires i <= j <= n <= |text|
    ensures text[..n][i..j] == text[i..j]
  {
  }

  /** The trimmed head of the cut text, with "..." after it. */
  lemma ClampedHead(text: string, cut: string)
    requires |text| > SummaryCharLimit && cut == text[..SummaryCharLimit - 3]
    ensures var r := Trim(cut) + "...";
      && EndsWith(r, "...") && r[..|r| - 3] == Trim(cut)
      && TrimmedHead(text, SummaryCharLimit - 3, Trim(cut))
  {
    var a := TrimDropsSpace(cut);
    var h := Trim(cut);
    SliceOfPrefix(text, SummaryCharLimit - 3, a, a + |h|);
    SliceOfPrefix(text, SummaryCharLimit - 3, 0, a);
    SliceOfPrefix(text, SummaryCharLimit - 3, a + |h|, SummaryCharLimit - 3);
    var r := h + "...";
    assert r[|r| - 3..] == "...";
  }

  /** `formatEditorialSummary`: the non-empty blocks (sentences; key points;
      topics; why it matters) separated by blank lines, clamped. */
  function FormatEditorialSummary(sentences: seq<string>, highlights: seq<string>,
                                  keywords: seq<string>, narrative: string): (r: string)
    ensures |r| <= SummaryCharLimit
    ensures sentences == [] && highlights == [] && keywords == [] && narrative == [] ==> r == []
    ensures highlights == [] && keywords == [] && narrative == [] ==>
      r == ClampText(Join(sentences, " "))
  {
    var blocks :=
      (if sentences != [] then [Join(sentences, " ")] else [])
      + (if highlights != [] then ["Key Points:\n- " + Join(highlights, "\n- ")] else [])
      + (if keywords != [] then ["Topics: " + Join(keywords, ", ")] else [])
      + (if narrative != [] then ["Why it matters: " + narrative] else []);
    ClampText(Join(blocks, "\n\n"))
  }

  lemma {:induction false} JoinNonEmpty(parts: seq<string>, sep: string)
    requires parts != [] && parts[0] != []
    ensures Join(parts, sep) != []
  {
  }

  /** What the editorial step hands back. `content` is "" when the package
      has none. */
  datatype EditorialPackage = EditorialPackage(
    formattedSummary: string, content: string, keywords: seq<string>,
    highlights: seq<string>, headline: string)

  /** A piece that survives dropping the empty ones. */
  predicate IsNonEmptyText(piece: string) {
    piece != []
  }

  /** `NonEmpty` is the filter on non-empty pieces. */
  lemma {:induction false} NonEmptyIsFilter(parts: seq<string>)
    ensures NonEmpty(parts) == Filter(parts, IsNonEmptyText)
    decreases |parts|
  {
    if parts != [] {
      NonEmptyIsFilter(parts[1..]);
    }
  }

  /** The first two non-empty pieces of `text` cut at each full stop, in
      order: the non-empty piece before which `k` non-empty pieces come is
      the `k`-th of the result, for `k` below 2. */
  function LeadSentences(text: string): (r: seq<string>)
    ensures |r| <= 2
    ensures forall k :: 0 <= k < |r| ==> r[k] != [] && '.' !in r[k]
    ensures |r| == Min(2, CountIf(SplitOn(text, '.'), IsNonEmptyText))
    ensures var pieces := SplitOn(text, '.');
      forall j :: 0 <= j < |pieces| && IsNonEmptyText(pieces[j]) && CountIf(pieces[..j], IsNonEmptyText) < |r| ==>
        r[CountIf(pieces[..j], IsNonEmptyText)] == pieces[j]
  {
    var split := SplitOn(text, '.');
    var pieces := NonEmpty(split);
    NonEmptyIsFilter(split);
    FilterExactly(split, IsNonEmptyText);
    assert forall k :: 0 <= k < |pieces| ==> pieces[k] in split;
    Take(pieces, 2)
  }

  /** The text the fallback summarises: the sanitized snippet, else the
      sanitized body, else the title, whichever first is non-empty, else
      "Summary unavailable". `sanitize` is the HTML-to-text cleaner. */
  function FallbackText(title: string, snippet: string, body: string, sanitize: string -> string): (f: string)
    ensures f != []
    ensures sanitize(snippet) != [] ==> f == sanitize(snippet)
    ensures sanitize(snippet) == [] && sanitize(body) != [] ==> f == sanitize(body)
    ensures sanitize(snippet) == [] && sanitize(body) == [] && title != [] ==> f == title
    ensures sanitize(snippet) == [] && sanitize(body) == [] && title == [] ==> f == "Summary unavailable"
  {
    var s := sanitize(snippet);
    var b := sanitize(body);
    if s != [] then s else if b != [] then b else if title != [] then title else "Summary unavailable"
  }

  /** `buildFallbackEditorialPackage`: the fallback text summarised by its
      first two sentences, or by the whole text when it has no non-empty
      sentence. The summary is never empty and the package has no content,
      keywords or highlights. */
  function FallbackPackage(title: string, snippet: string, body: string, sanitize: string -> string): (pkg: EditorialPackage)
    ensures pkg.formattedSummary != [] && |pkg.formattedSummary| <= SummaryCharLimit
    ensures pkg.headline == title && pkg.content == [] && pkg.keywords == [] && pkg.highlights == []
    ensures var f := FallbackText(title, snippet, body, sanitize);
      LeadSentences(f) != [] ==> pkg.formattedSummary == ClampText(Join(LeadSentences(f), " "))
    ensures var f := FallbackText(title, snippet, body, sanitize);
      LeadSentences(f) == [] ==> pkg.formattedSummary == ClampText(f)
  {
    var fallback := FallbackText(title, snippet, body, sanitize);
    var lead := LeadSentences(fallback);
    var sentences := if lead != [] then lead else [fallback];
    JoinNonEmpty(sentences, " ");
    EditorialPackage(FormatEditorialSummary(sentences, [], [], ""), "", [], [], title)
  }


  /** Drops the leading ASCII letters (`[a-zA-Z]*`). */
  function DropLetters(s: string): (r: string)
    ensures |r| <= |s| && r == s[|s| - |r|..]
    ensures r != [] ==> !IsAsciiLetter(r[0])
    decreases |s|
  {
    if s != [] && IsAsciiLetter(s[0]) then DropLetters(s[1..]) else s
  }

  /** The cleaning before `JSON.parse`: the reply is trimmed and, when it
      starts with a code fence, the fence with its language tag and the
      whitespace after it go, a closing fence at the very end goes, and the
      rest is trimmed again. */
  function CleanJsonText(reply: string): (r: string)
    ensures IsTrimmed(r)
    ensures !StartsWith(Trim(reply), "```") ==> r == Trim(reply)
  {
    var clean := Trim(reply);
    if StartsWith(clean, "```") then Unfence(clean[3..]) else clean
  }

  /** What follows an opening fence, without the language tag, the
      whitespace after it, a closing fence at the end, and surrounding
      whitespace. */
  function Unfence(afterFence: string): (r: string)
    ensures IsTrimmed(r)
  {
    CloseFence(TrimStart(DropLetters(afterFence)))
  }

  /** Drops a closing fence at the very end, then trims. */
  function CloseFence(unfenced: string): (r: string)
    ensures IsTrimmed(r)
  {
    var closed := if EndsWith(unfenced, "```") then unfenced[..|unfenced| - 3] else unfenced;
    Trim(closed)
  }

  /** A fenced payload comes back exactly as it went in, whatever the
      language tag. */
  lemma CleanFencedReply(lang: string, payload: string)
    requires forall i :: 0 <= i < |lang| ==> IsAsciiLetter(lang[i])
    requires IsTrimmed(payload)
    ensures CleanJsonText("```" + (lang + ("\n" + (payload + "\n```")))) == payload
  {
    var afterFence := lang + ("\n" + (payload + "\n```"));
    CleanFenced(afterFence);
    UnfencePayload(lang, payload);
  }

  /** A reply that starts with a fence and ends with a backtick is cleaned
      by unfencing what follows the fence. */
  lemma CleanFenced(afterFence: string)
    requires afterFence != [] && afterFence[|afterFence| - 1] == '`'
    ensures CleanJsonText("```" + afterFence) == Unfence(afterFence)
  {
    var reply := "```" + afterFence;
    assert reply[0] == '`' && reply[|reply| - 1] == '`';
    TrimOfTrimmed(reply);
    StartsWithAppend("```", afterFence);
  }

  lemma UnfencePayload(lang: string, payload: string)
    requires forall i :: 0 <= i < |lang| ==> IsAsciiLetter(lang[i])
    requires IsTrimmed(payload)
    ensures Unfence(lang + ("\n" + (payload + "\n```"))) == payload
  {
    FenceOpening(lang, payload + "\n```");
    UnfenceTail(payload);
  }

  /** Past the opening fence, its language tag and the newline, what is left
      is the payload with its closing fence. */
  lemma FenceOpening(lang: string, tail: string)
    requires forall i :: 0 <= i < |lang| ==> IsAsciiLetter(lang[i])
    ensures TrimStart(DropLetters(lang + ("\n" + tail))) == TrimStart(tail)
  {
    DropLettersOf(lang, "\n" + tail);
    TrimStartCons('\n', tail);
  }

  /** The part after the opening fence and its newline cleans to the
      payload. */
  lemma UnfenceTail(payload: string)
    requires IsTrimmed(payload)
    ensures CloseFence(TrimStart(payload + "\n```")) == payload
  {
    if payload == [] {
      assert payload + "\n```" == "\n```";
      BareClosingFence();
    } else {
      FencedPayload(payload);
    }
  }

  /** An empty payload leaves only the closing fence, which goes. */
  lemma BareClosingFence()
    ensures CloseFence(TrimStart("\n```")) == []
  {
    TrimStartCons('\n', "```");
    TrimStartOfTrimmed("```");
    assert "```"[..0] == [];
  }

  lemma FencedPayload(payload: string)
    requires IsTrimmed(payload) && payload != []
    ensures CloseFence(TrimStart(payload + "\n```")) == payload
  {
    var tail := payload + "\n```";
    assert tail[0] == payload[0];
    TrimStartOfTrimmed(tail);
    FenceEnd(payload);
    TrimNewline(payload);
  }

  lemma FenceEnd(payload: string)
    ensures var tail := payload + "\n```";
      EndsWith(tail, "```") && tail[..|tail| - 3] == payload + "\n"
  {
    var tail := payload + "\n```";
    assert tail[|tail| - 3..] == "```";
  }

  lemma TrimNewline(payload: string)
    requires IsTrimmed(payload) && payload != []
    ensures Trim(payload + "\n") == payload
  {
    var t := payload + "\n";
    TrimStartOfTrimmed(t);
    assert TrimEnd(t) == TrimEnd(payload) by {
      assert t[..|t| - 1] == payload;
    }
    TrimEndOfTrimmed(payload);
  }

  lemma {:induction false} DropLettersOf(lang: string, rest: string)
    requires forall i :: 0 <= i < |lang| ==> IsAsciiLetter(lang[i])
    requires rest == [] || !IsAsciiLetter(rest[0])
    ensures DropLetters(lang + rest) == rest
    decreases |lang|
  {
    if lang == [] {
      assert lang + rest == rest;
    } else {
      assert (lang + rest)[1..] == lang[1..] + rest;
      DropLettersOf(lang[1..], rest);
    }
  }

  // ---------------------------------------------------------------------
  // The language-model call and its retries
  // ---------------------------------------------------------------------

  /** The fields of a parsed model reply that the package reads; a field the
      reply lacks is "" (or `None` for `highlights`, whose mere presence
      matters). */
  datatype Reply = Reply(
    articleBody: string, shortSummary: string, summary: string,
    highlights: Option<seq<string>>, tags: seq<string>, headline: string)

  /** The article the package is about; `snippet` and `body` are the raw
      feed texts. */
  datatype Article = Article(title: string, snippet: string, body: string, source: string, category: string)

  const MaxRetries := 3
  const BaseDelayMs := 1000

  /** `[snippet, body].filter(Boolean).join(' ').trim()`. */
  function Combined(a: Article): string {
    Trim(Join(NonEmpty([a.snippet, a.body]), " "))
  }

  /** The package returned without any model call when there is no text:
      the sanitized first non-empty of snippet, body and title. */
  function EmptyInputPackage(a: Article, sanitize: string -> string): (pkg: EditorialPackage)
    ensures pkg.keywords == [] && pkg.highlights == [] && pkg.headline == a.title
    ensures pkg.formattedSummary == pkg.content
    ensures a.snippet != [] ==> pkg.content == sanitize(a.snippet)
    ensures a.snippet == [] && a.body != [] ==> pkg.content == sanitize(a.body)
    ensures a.snippet == [] && a.body == [] ==> pkg.content == sanitize(a.title)
  {
    var text := sanitize(if a.snippet != [] then a.snippet else if a.body != [] then a.body else a.title);
    EditorialPackage(text, text, [], [], a.title)
  }

  /** `highlights.map(h => `- ${h}`).join('\n')`. */
  function Bullets(hs: seq<string>): (r: string)
    ensures hs != [] ==> StartsWith(r, "- ")
    decreases |hs|
  {
    if hs == [] then []
    else if |hs| == 1 then "- " + hs[0]
    else ("- " + hs[0]) + ("\n" + Bullets(hs[1..]))
  }

  /** The package built from a parsed reply: the article body, or when the
      reply has none a body assembled from the short summary, the
      highlights and a "Why it matters" paragraph naming the source. */
  function PackageFromReply(p: Reply, a: Article): (pkg: EditorialPackage)
    ensures p.articleBody != [] ==> pkg.content == p.articleBody
    ensures p.articleBody == [] ==>
      EndsWith(pkg.content, "### Why it matters\n" + ReportsOn(a))
    ensures pkg.content != []
    ensures pkg.headline == (if p.headline != [] then p.headline else a.title)
    ensures pkg.formattedSummary ==
      (if p.shortSummary != [] then p.shortSummary else p.summary)
    ensures pkg.keywords == p.tags
    ensures pkg.highlights == (if p.highlights.Some? then p.highlights.value else [])
  {
    var why := "### Why it matters\n" + ReportsOn(a);
    var bullets := if p.highlights.Some? then "## Key Highlights\n" + Bullets(p.highlights.value) else "";
    var content :=
      if p.articleBody != [] then p.articleBody
      else (p.shortSummary + "\n\n" + bullets + "\n\n") + why;
    assert p.articleBody == [] ==> content[|content| - |why|..] == why;
    EditorialPackage(
      if p.shortSummary != [] then p.shortSummary else p.summary,
      content,
      p.tags,
      if p.highlights.Some? then p.highlights.value else [],
      if p.headline != [] then p.headline else a.title)
  }

  /** The narrative sentence of an assembled body. */
  function ReportsOn(a: Article): string {
    a.source + " reports on developments in " + (if a.category != [] then a.category else "AI technology") + "."
  }

  /** What attempt `k` yields: the package, when the model answered
      (`llm(k)`) and its cleaned reply parsed (`parse`); `None` when either
      threw. */
  function Attempt(a: Article, k: nat, llm: nat -> Option<string>, parse: string -> Option<Reply>): (r: Option<EditorialPackage>)
    ensures r.Some? <==> llm(k).Some? && parse(CleanJsonText(llm(k).value)).Some?
  {
    match llm(k)
    case None => None
    case Some(reply) =>
      match parse(CleanJsonText(reply))
      case None => None
      case Some(p) => Some(PackageFromReply(p, a))
  }

  /** The attempts of one article, as a function of the attempt number. */
  function Attempts(a: Article, llm: nat -> Option<string>, parse: string -> Option<Reply>): nat -> Option<EditorialPackage> {
    (k: nat) => Attempt(a, k, llm, parse)
  }

  /** The outcome of the attempts from `k` on: the first package an attempt
      yields, with the number of that attempt, or `fallback` after the last
      attempt. */
  function RetryFrom(outcome: nat -> Option<EditorialPackage>, fallback: EditorialPackage, k: nat): (r: (EditorialPackage, nat))
    requires 1 <= k <= MaxRetries
    decreases MaxRetries - k
  {
    match outcome(k)
    case Some(pkg) => (pkg, k)
    case None => if k == MaxRetries then (fallback, k) else RetryFrom(outcome, fallback, k + 1)
  }

  /** The attempts made from `k` on number at most three in all; the last
      one made is the first that succeeds, every earlier one failed, and
      the fallback is used exactly when every attempt failed. */
  lemma {:induction false} RetryFromOutcome(outcome: nat -> Option<EditorialPackage>, fallback: EditorialPackage, k: nat)
    requires 1 <= k <= MaxRetries
    ensures k <= RetryFrom(outcome, fallback, k).1 <= MaxRetries
    ensures forall j :: k <= j < RetryFrom(outcome, fallback, k).1 ==> outcome(j).None?
    ensures outcome(RetryFrom(outcome, fallback, k).1).Some? ==>
      RetryFrom(outcome, fallback, k).0 == outcome(RetryFrom(outcome, fallback, k).1).value
    ensures outcome(RetryFrom(outcome, fallback, k).1).None? <==>
      forall j :: k <= j <= MaxRetries ==> outcome(j).None?
    ensures outcome(RetryFrom(outcome, fallback, k).1).None? ==> RetryFrom(outcome, fallback, k).0 == fallback
    decreases MaxRetries - k
  {
    if outcome(k).None? && k < MaxRetries {
      RetryFromOutcome(outcome, fallback, k + 1);
    }
  }

  /** The backoff sleeps before attempts 2, 3, ...: 1000 ms doubled each
      time. */
  function Backoff(n: nat): (delays: seq<nat>)
    ensures |delays| == n
    ensures n > 0 ==> delays[0] == BaseDelayMs
    ensures forall i :: 0 < i < n ==> delays[i] == 2 * delays[i - 1]
  {
    if n == 0 then [] else Backoff(n - 1) + [BaseDelayMs * Pow2(n - 1)]
  }

  function Pow2(e: nat): (p: nat)
    ensures p >= 1
  {
    if e == 0 then 1 else 2 * Pow2(e - 1)
  }

  /** `generateAIEditorialPackage`: with no snippet or body text the package
      is built from what there is, without calling the model; otherwise up
      to three attempts are made, sleeping 1000 and then 2000 ms after a
      failed attempt that is not the last, and the first package obtained
      is returned, or the fallback package when all three fail. The sleeps
      are returned rather than taken. */
  method GenerateEditorialPackage(a: Article, llm: nat -> Option<string>, parse: string -> Option<Reply>,
                                  sanitize: string -> string)
    returns (pkg: EditorialPackage, attempts: nat, delays: seq<nat>)
    ensures Combined(a) == [] ==> pkg == EmptyInputPackage(a, sanitize) && attempts == 0 && delays == []
    ensures Combined(a) != [] ==>
      && (pkg, attempts) == RetryFrom(Attempts(a, llm, parse), FallbackPackage(a.title, a.snippet, a.body, sanitize), 1)
      && 1 <= attempts <= MaxRetries
      && delays == Backoff(attempts - 1)
  {
    if Combined(a) == [] {
      return EmptyInputPackage(a, sanitize), 0, [];
    }
    var outcome := Attempts(a, llm, parse);
    var fallback := FallbackPackage(a.title, a.snippet, a.body, sanitize);
    var attempt := 1;
    delays := [];
    while attempt <= MaxRetries
      invariant 1 <= attempt <= MaxRetries
      invariant RetryFrom(outcome, fallback, attempt) == RetryFrom(outcome, fallback, 1)
      invariant delays == Backoff(attempt - 1)
      decreases MaxRetries - attempt
    {
      var result := outcome(attempt);
      if result.Some? {
        return result.value, attempt, delays;
      }
      if attempt == MaxRetries {
        return fallback, attempt, delays;
      }
      delays := delays + [BaseDelayMs * Pow2(attempt - 1)];
      attempt := attempt + 1;
    }
    assert false;
  }
}
