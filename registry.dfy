/**
 * The source registry of the feed server: parsing the tab-separated source
 * list, classifying each source by its URLs, inferring the article category
 * of the feed, building the feed id and resolving YouTube feed URLs
 * (server/fetch-news.mjs).
 */
module Registry {
  import opened Wrappers
  import opened Text
  import opened Lists

  /** One row of the source list; a missing column is "". */
  datatype Source = Source(name: string, mainUrl: string, rssUrl: string)

  /** `line.split(/\s{2,}/)`: the pieces between runs of two or more
      whitespace characters (a lone space stays inside its piece). */
  function SplitWide(s: string): (r: seq<string>)
    ensures |r| >= 1
    decreases |s|
  {
    if s == [] then [[]]
    else if |s| >= 2 && IsSpace(s[0]) && IsSpace(s[1]) then
      var rest := TrimStart(s);
      assert |rest| < |s| by { assert TrimStart(s) == TrimStart(s[1..]); }
      [[]] + SplitWide(rest)
    else
      var rest := SplitWide(s[1..]);
      [[s[0]] + rest[0]] + rest[1..]
  }

  function TrimAll(parts: seq<string>): (r: seq<string>)
    ensures |r| == |parts|
    ensures forall k :: 0 <= k < |r| ==> r[k] == Trim(parts[k])
  {
    seq(|parts|, k requires 0 <= k < |parts| => Trim(parts[k]))
  }

  /** `parseTsvRow`: three or more tab-separated parts are taken as the
      columns; otherwise the line is split on runs of two or more spaces.
      Every column is trimmed and a missing one is "". */
  function ParseTsvRow(line: string): (src: Source)
    ensures IsTrimmed(src.name) && IsTrimmed(src.mainUrl) && IsTrimmed(src.rssUrl)
  {
    var parts := SplitOn(line, '\t');
    if |parts| >= 3 then
      Source(Trim(parts[0]), Trim(parts[1]), Trim(parts[2]))
    else
      var alt := TrimAll(SplitWide(line));
      Source(Trim(At(alt, 0)), Trim(At(alt, 1)), Trim(At(alt, 2)))
  }

  /** A row written as three trimmed, tab-free columns joined by tabs parses
      back to those columns. */
  lemma ParseTsvRowOfColumns(a: string, b: string, c: string)
    requires '\t' !in a && '\t' !in b && '\t' !in c
    requires IsTrimmed(a) && IsTrimmed(b) && IsTrimmed(c)
    ensures ParseTsvRow(a + "\t" + b + "\t" + c) == Source(a, b, c)
  {
    var line := a + "\t" + b + "\t" + c;
    var tail := b + ['\t'] + c;
    assert line == a + ['\t'] + tail;
    SplitOnCons(a, tail, '\t');
    SplitOnCons(b, c, '\t');
    SplitOnNone(c, '\t');
    var parts := SplitOn(line, '\t');
    assert parts == [a] + ([b] + [c]);
    assert parts[0] == a && parts[1] == b && parts[2] == c;
    TrimOfTrimmed(a);
    TrimOfTrimmed(b);
    TrimOfTrimmed(c);
  }

  /** `text.split(/\r?\n/)`: lines separated by "\n" or "\r\n". */
  function SplitLines(s: string): (r: seq<string>)
    ensures |r| >= 1
    decreases |s|
  {
    if s == [] then [[]]
    else if s[0] == '\n' then [[]] + SplitLines(s[1..])
    else if |s| >= 2 && s[0] == '\r' && s[1] == '\n' then [[]] + SplitLines(s[2..])
    else
      var rest := SplitLines(s[1..]);
      [[s[0]] + rest[0]] + rest[1..]
  }

  function TrimEndAll(parts: seq<string>): (r: seq<string>)
    ensures |r| == |parts|
    ensures forall k :: 0 <= k < |r| ==> r[k] == TrimEnd(parts[k])
  {
    seq(|parts|, k requires 0 <= k < |parts| => TrimEnd(parts[k]))
  }

  /** A source row is used when it has a name and a main URL. */
  predicate IsUsable(src: Source) {
    src.name != [] && src.mainUrl != []
  }

  function ParseRows(rows: seq<string>): (r: seq<Source>)
    ensures |r| == |rows|
    ensures forall k :: 0 <= k < |r| ==> r[k] == ParseTsvRow(rows[k])
  {
    seq(|rows|, k requires 0 <= k < |rows| => ParseTsvRow(rows[k]))
  }

  /** The non-empty, right-trimmed lines of the source list. */
  function SourceLines(tsv: string): (lines: seq<string>)
    ensures forall k :: 0 <= k < |lines| ==> lines[k] != []
  {
    NonEmpty(TrimEndAll(SplitLines(tsv)))
  }

  /** The header is valid when there is one and it mentions "name". */
  predicate HasValidHeader(lines: seq<string>) {
    |lines| > 0 && Contains(Lower(lines[0]), "name")
  }

  /** The usable rows after the header, before duplicate names are dropped. */
  function CandidateSources(lines: seq<string>): (r: seq<Source>)
    requires |lines| > 0
    ensures forall k :: 0 <= k < |r| ==> IsUsable(r[k])
  {
    Filter(ParseRows(lines[1..]), IsUsable)
  }

  function Names(s: seq<Source>): (r: seq<string>)
    ensures |r| == |s|
    ensures forall k :: 0 <= k < |s| ==> r[k] == s[k].name
  {
    seq(|s|, k requires 0 <= k < |s| => s[k].name)
  }

  /** The first source of every name, in order of first appearance. */
  function FirstByName(s: seq<Source>): (r: seq<Source>)
    ensures |r| <= |s|
    decreases |s|
  {
    if s == [] then []
    else
      var init := s[..|s| - 1];
      var last := s[|s| - 1];
      var d := FirstByName(init);
      if last.name in Names(init) then d else d + [last]
  }

  /** The kept sources come from the list, every name of the list is kept,
      and no name is kept twice. */
  lemma {:induction false} FirstByNameCovers(s: seq<Source>)
    ensures Distinct(Names(FirstByName(s)))
    ensures forall k :: 0 <= k < |FirstByName(s)| ==> FirstByName(s)[k] in s
    ensures forall n :: n in Names(s) <==> n in Names(FirstByName(s))
    decreases |s|
  {
    if s != [] {
      var init := s[..|s| - 1];
      var last := s[|s| - 1];
      FirstByNameCovers(init);
      var d := FirstByName(init);
      assert s == init + [last];
      assert Names(s) == Names(init) + [last.name];
      if last.name !in Names(init) {
        assert Names(d + [last]) == Names(d) + [last.name];
      }
    }
  }

  /** Every source kept is the first in the list with its name. */
  lemma {:induction false} FirstByNameKeepsFirst(s: seq<Source>, k: nat)
    requires k < |FirstByName(s)|
    ensures exists i :: 0 <= i < |s| && s[i] == FirstByName(s)[k] && FirstByName(s)[k].name !in Names(s[..i])
    decreases |s|
  {
    var init := s[..|s| - 1];
    var last := s[|s| - 1];
    var d := FirstByName(init);
    assert forall j :: 0 <= j < |init| ==> init[j] == s[j];
    if k < |d| {
      FirstByNameKeepsFirst(init, k);
      var i :| 0 <= i < |init| && init[i] == d[k] && d[k].name !in Names(init[..i]);
      assert init[..i] == s[..i];
    } else {
      assert FirstByName(s)[k] == last;
      assert s[..|s| - 1] == init;
    }
  }

  /** Appending a source keeps it exactly when its name is new. */
  lemma FirstByNameSnoc(s: seq<Source>, x: Source)
    ensures FirstByName(s + [x]) ==
      if x.name in Names(FirstByName(s)) then FirstByName(s) else FirstByName(s) + [x]
  {
    assert (s + [x])[..|s + [x]| - 1] == s;
    FirstByNameCovers(s);
  }

  /** The de-duplication loop of `loadAiSources`: each source is stored in
      an insertion-ordered map under its name unless the name is already
      there, and the map's values are returned in insertion order. */
  method KeepFirstByName(sources: seq<Source>) returns (values: seq<Source>)
    ensures values == FirstByName(sources)
  {
    var byName: map<string, Source> := map[];
    var order: seq<string> := [];
    var i := 0;
    assert sources[..0] == [];
    while i < |sources|
      invariant 0 <= i <= |sources|
      invariant IndexedBy(byName, order, FirstByName(sources[..i]))
    {
      var src := sources[i];
      TakeSnoc(sources, i);
      FirstByNameSnoc(sources[..i], src);
      KeepStep(byName, order, FirstByName(sources[..i]), src);
      if src.name !in byName {
        byName := byName[src.name := src];
        order := order + [src.name];
      }
      i := i + 1;
    }
    assert sources[..i] == sources;
    values := seq(|order|, k requires 0 <= k < |order| => byName[order[k]]);
    assert values == FirstByName(sources);
  }

  /** The insertion-ordered map of the loop: `order` lists the names of
      `kept` and `byName` takes each of them to its source. */
  ghost predicate IndexedBy(byName: map<string, Source>, order: seq<string>, kept: seq<Source>) {
    && order == Names(kept)
    && (forall n :: n in byName <==> n in order)
    && (forall k :: 0 <= k < |order| ==> order[k] in byName && byName[order[k]] == kept[k])
  }

  /** A source is new exactly when the map lacks its name, and storing it
      keeps the map in step with the kept list. */
  lemma KeepStep(byName: map<string, Source>, order: seq<string>, kept: seq<Source>, src: Source)
    requires IndexedBy(byName, order, kept)
    ensures src.name in byName <==> src.name in Names(kept)
    ensures src.name !in byName ==> IndexedBy(byName[src.name := src], order + [src.name], kept + [src])
  {
    if src.name !in byName {
      assert Names(kept + [src]) == Names(kept) + [src.name];
    }
  }

  /** `loadAiSources`: the header must be present and mention "name"
      (otherwise it throws); the usable rows after it are kept, the first
      row of every name winning. */
  method LoadAiSources(tsv: string) returns (r: Result<seq<Source>>)
    ensures r.Failure? <==> !HasValidHeader(SourceLines(tsv))
    ensures r.Success? ==> r.value == FirstByName(CandidateSources(SourceLines(tsv)))
  {
    var lines := SourceLines(tsv);
    if |lines| == 0 || !Contains(Lower(lines[0]), "name") {
      return Failure("Invalid TSV header");
    }
    var values := KeepFirstByName(CandidateSources(lines));
    return Success(values);
  }

  /** The source types, in the order the classifier tries them. */
  datatype SourceType =
    | YoutubePlaylist | YoutubeChannel | CommunityReddit | ResearchPlatformApi
    | ResearchPlatform | Newsletter | Podcast | CompanyBlog | RssWebsite

  const ResearchMarkers: seq<string> :=
    ["arxiv.org", "paperswithcode.com", "jmlr.org", "mlr.press", "distill.pub"]
  const CompanyBlogMarkers: seq<string> :=
    ["openai.com", "deepmind.com", "ai.meta.com", "huggingface.co/blog",
     "blogs.microsoft.com", "aws.amazon.com/blogs", "developer.nvidia.com", "research.ibm.com"]

  predicate IsNewsletterUrl(main: string, rss: string) {
    Contains(main, "substack.com") || Contains(rss, "beehiiv.com") || Contains(main, "beehiiv.com")
  }

  predicate IsPodcastUrl(main: string, rss: string) {
    || Contains(rss, "/podcast") || Contains(main, "/podcast") || Contains(main, "ai-podcast")
    || Contains(rss, "feeds.blubrry.com") || Contains(rss, "changelog.com")
  }

  /** `classifySourceType`: a first-match chain of substring tests on the
      lower-cased main and feed URLs. A youtube.com page is a playlist
      exactly when it holds "playlist?list=", and a source no rule fires
      for is a plain website. */
  function ClassifySourceType(src: Source): (t: SourceType)
    ensures var main := Lower(src.mainUrl);
      (t.YoutubePlaylist? || t.YoutubeChannel?) <==> Contains(main, "youtube.com")
    ensures t.YoutubePlaylist? <==>
      Contains(Lower(src.mainUrl), "youtube.com") && Contains(Lower(src.mainUrl), "playlist?list=")
    ensures var main := Lower(src.mainUrl); var rss := Lower(src.rssUrl);
      t.RssWebsite? <==>
        && !Contains(main, "youtube.com") && !Contains(main, "reddit.com")
        && !Contains(main, "huggingface.co/models") && !ContainsAny(main, ResearchMarkers)
        && !IsNewsletterUrl(main, rss) && !IsPodcastUrl(main, rss)
        && !ContainsAny(main, CompanyBlogMarkers)
  {
    var main := Lower(src.mainUrl);
    var rss := Lower(src.rssUrl);
    if Contains(main, "youtube.com") then
      (if Contains(main, "playlist?list=") then YoutubePlaylist else YoutubeChannel)
    else if Contains(main, "reddit.com") then CommunityReddit
    else if Contains(main, "huggingface.co/models") then ResearchPlatformApi
    else if ContainsAny(main, ResearchMarkers) then ResearchPlatform
    else if IsNewsletterUrl(main, rss) then Newsletter
    else if IsPodcastUrl(main, rss) then Podcast
    else if ContainsAny(main, CompanyBlogMarkers) then CompanyBlog
    else RssWebsite
  }

  const Research := "Research"
  const Business := "Business"
  const Technology := "Technology"

  const BusinessNameMarkers: seq<string> := ["business", "trends", "analytics"]
  const BusinessSiteMarkers: seq<string> :=
    ["forrester.com", "marketingaiinstitute.com", "oecd.ai", "partnershiponai.org"]
  const ResearchNameMarkers: seq<string> :=
    ["stanford", "bair", "mila", "ieee", "mit", "distill", "jmlr", "pmlr"]

  /** `inferArticleCategory`: research platforms are Research; Reddit is
      Business only for a "datascience" name; a podcast is Business only
      for a "business" name or an emerj.com site; other sources are tested
      against business and then research markers, Technology being the
      default. */
  function InferArticleCategory(t: SourceType, src: Source): (c: string)
    ensures c == Research || c == Business || c == Technology
    ensures t.ResearchPlatform? || t.ResearchPlatformApi? ==> c == Research
    ensures t.CommunityReddit? ==> (c == Business <==> Contains(Lower(src.name), "datascience"))
    ensures t.CommunityReddit? ==> c != Technology
    ensures t.Podcast? ==>
      (c == Business <==> Contains(Lower(src.name), "business") || Contains(Lower(src.mainUrl), "emerj.com"))
    ensures t.Podcast? ==> c != Research
  {
    var name := Lower(src.name);
    var main := Lower(src.mainUrl);
    if t.ResearchPlatform? || t.ResearchPlatformApi? then Research
    else if t.CommunityReddit? then
      (if Contains(name, "datascience") then Business else Research)
    else if t.Podcast? then
      (if Contains(name, "business") || Contains(main, "emerj.com") then Business else Technology)
    else if ContainsAny(name, BusinessNameMarkers) || ContainsAny(main, BusinessSiteMarkers) then Business
    else if ContainsAny(name, ResearchNameMarkers) then Research
    else Technology
  }

  /** `ensureCategory`: a configured category is kept; any other falls back
      to the first configured category (undefined when none is configured). */
  function EnsureCategory(configured: seq<string>, c: string): (r: Option<string>)
    ensures c in configured ==> r == Some(c)
    ensures c !in configured && |configured| > 0 ==> r == Some(configured[0])
    ensures r.None? <==> |configured| == 0
    ensures r.Some? ==> r.value in configured
  {
    if c in configured then Some(c)
    else if |configured| > 0 then Some(configured[0])
    else None
  }

  /** `isResearchSource`. */
  predicate IsResearchSource(t: SourceType, category: Option<string>) {
    t.ResearchPlatform? || t.ResearchPlatformApi? || category == Some(Research)
  }

  /** Characters kept by `safeIdFromName`: `[a-z0-9]`. */
  predicate IsSlugChar(c: char) {
    ('a' <= c <= 'z') || IsDigit(c)
  }

  /** Drops the leading run of characters that are not slug characters. */
  function DropNonSlug(s: string): (r: string)
    ensures |r| <= |s| && r == s[|s| - |r|..]
    ensures r != [] ==> IsSlugChar(r[0])
    decreases |s|
  {
    if s != [] && !IsSlugChar(s[0]) then DropNonSlug(s[1..]) else s
  }

  /** No two adjacent dashes, and nothing but slug characters and dashes. */
  ghost predicate IsDashed(s: string) {
    && (forall i :: 0 <= i < |s| ==> IsSlugChar(s[i]) || s[i] == '-')
    && (forall i :: 0 <= i < |s| - 1 ==> !(s[i] == '-' && s[i + 1] == '-'))
  }

  lemma DashedCons(c: char, t: string)
    requires IsDashed(t) && (IsSlugChar(c) || c == '-')
    requires c == '-' ==> t == [] || t[0] != '-'
    ensures IsDashed([c] + t)
  {
    var u := [c] + t;
    forall i | 0 <= i < |u| - 1
      ensures !(u[i] == '-' && u[i + 1] == '-')
    {
      if i > 0 {
        assert u[i] == t[i - 1] && u[i + 1] == t[i];
      }
    }
  }

  /** `replace(/[^a-z0-9]+/g, '-')`: every maximal run of other characters
      becomes one dash. */
  function Dasherize(s: string): (r: string)
    ensures s != [] ==> r != [] && (r[0] == '-' <==> !IsSlugChar(s[0]))
    decreases |s|
  {
    if s == [] then []
    else if !IsSlugChar(s[0]) then ['-'] + Dasherize(DropNonSlug(s))
    else [s[0]] + Dasherize(s[1..])
  }

  /** What dasherizing leaves is slug characters and single dashes. */
  lemma {:induction false} DasherizeDashed(s: string)
    ensures IsDashed(Dasherize(s))
    decreases |s|
  {
    if s != [] {
      if !IsSlugChar(s[0]) {
        DasherizeDashed(DropNonSlug(s));
        DashedCons('-', Dasherize(DropNonSlug(s)));
      } else {
        DasherizeDashed(s[1..]);
        DashedCons(s[0], Dasherize(s[1..]));
      }
    }
  }

  /** Characters that `[^a-z0-9]` matches. */
  predicate IsGapChar(c: char) {
    !IsSlugChar(c)
  }

  /** A run of slug characters passes through unchanged. */
  lemma {:induction false} DasherizeSlugRun(s: string)
    requires AllChars(s, IsSlugChar)
    ensures Dasherize(s) == s
    decreases |s|
  {
    if s != [] {
      assert AllChars(s[1..], IsSlugChar);
      DasherizeSlugRun(s[1..]);
      assert s == [s[0]] + s[1..];
    }
  }

  /** A non-empty run of other characters becomes exactly one dash. */
  lemma DasherizeGapRun(s: string)
    requires s != [] && AllChars(s, IsGapChar)
    ensures Dasherize(s) == "-"
  {
    DropNonSlugAll(s);
  }

  lemma {:induction false} DropNonSlugAll(s: string)
    requires AllChars(s, IsGapChar)
    ensures DropNonSlug(s) == []
    decreases |s|
  {
    if s != [] {
      assert AllChars(s[1..], IsGapChar);
      DropNonSlugAll(s[1..]);
    }
  }

  /** Skipping the leading gap of `a + b`: it ends inside `a` when `a` holds
      a slug character, else it goes on into `b`. */
  lemma {:induction false} DropNonSlugAppend(a: string, b: string)
    ensures DropNonSlug(a) != [] ==> DropNonSlug(a + b) == DropNonSlug(a) + b
    ensures DropNonSlug(a) == [] ==> DropNonSlug(a + b) == DropNonSlug(b)
    decreases |a|
  {
    if a == [] {
      assert a + b == b;
    } else {
      assert (a + b)[0] == a[0];
      if !IsSlugChar(a[0]) {
        assert (a + b)[1..] == a[1..] + b;
        DropNonSlugAppend(a[1..], b);
      }
    }
  }

  /** Dasherizing works run by run: a text splits into two parts that are
      dasherized separately wherever the split does not fall inside a run
      of gap characters. */
  lemma {:induction false} DasherizeAppend(a: string, b: string)
    requires a == [] || b == [] || IsSlugChar(a[|a| - 1]) || IsSlugChar(b[0])
    ensures Dasherize(a + b) == Dasherize(a) + Dasherize(b)
    decreases |a|, 1
  {
    if a == [] {
      assert a + b == b;
    } else if b == [] {
      assert a + b == a;
    } else if IsSlugChar(a[0]) {
      DasherizeAppendSlug(a, b);
    } else if DropNonSlug(a) == [] {
      DasherizeWholeGap(a, b);
    } else {
      DasherizeGapTail(a, b);
    }
  }

  lemma {:induction false} DasherizeAppendSlug(a: string, b: string)
    requires a != [] && b != [] && IsSlugChar(a[0])
    requires IsSlugChar(a[|a| - 1]) || IsSlugChar(b[0])
    ensures Dasherize(a + b) == Dasherize(a) + Dasherize(b)
    decreases |a|, 0
  {
    LastOfTail(a, b);
    DasherizeAppend(a[1..], b);
    SlugConsAppend(a[0], a[1..], b);
  }

  lemma LastOfTail(a: string, b: string)
    requires a != []
    ensures a[1..] == [] || a[1..][|a[1..]| - 1] == a[|a| - 1]
    ensures a == [a[0]] + a[1..] && a + b == [a[0]] + (a[1..] + b)
  {
  }

  /** A slug character in front of two parts that dasherize separately
      stays in front of the first. */
  lemma SlugConsAppend(c: char, t: string, b: string)
    requires IsSlugChar(c)
    requires Dasherize(t + b) == Dasherize(t) + Dasherize(b)
    ensures Dasherize([c] + (t + b)) == Dasherize([c] + t) + Dasherize(b)
  {
    DasherizeSlugStep(c, t);
    DasherizeSlugStep(c, t + b);
    ConsAssoc(c, Dasherize(t), Dasherize(b));
  }

  lemma ConsAssoc(c: char, p: string, q: string)
    ensures [c] + (p + q) == ([c] + p) + q
  {
  }

  /** A gap before a slug character of `a` becomes one dash, and the rest
      of `a` is dasherized with `b`. */
  lemma {:induction false} DasherizeGapTail(a: string, b: string)
    requires a != [] && b != [] && !IsSlugChar(a[0]) && DropNonSlug(a) != []
    requires IsSlugChar(a[|a| - 1]) || IsSlugChar(b[0])
    ensures Dasherize(a + b) == Dasherize(a) + Dasherize(b)
    decreases |a|, 0
  {
    var d := DropNonSlug(a);
    DropNonSlugAppend(a, b);
    assert d[|d| - 1] == a[|a| - 1] by {
      assert d == a[|a| - |d|..];
    }
    DasherizeAppend(d, b);
    GapConsAppend(a, b, d);
  }

  /** The gap at the head of `a` becomes one dash in front of the two
      separately dasherized parts. */
  lemma GapConsAppend(a: string, b: string, d: string)
    requires a != [] && !IsSlugChar(a[0]) && d == DropNonSlug(a) && DropNonSlug(a + b) == d + b
    requires Dasherize(d + b) == Dasherize(d) + Dasherize(b)
    ensures Dasherize(a + b) == Dasherize(a) + Dasherize(b)
  {
    GapSteps(a, b);
    ConsAssoc('-', Dasherize(d), Dasherize(b));
  }

  lemma GapSteps(a: string, b: string)
    requires a != [] && !IsSlugChar(a[0])
    ensures Dasherize(a) == "-" + Dasherize(DropNonSlug(a))
    ensures Dasherize(a + b) == "-" + Dasherize(DropNonSlug(a + b))
  {
    assert (a + b)[0] == a[0];
    DasherizeGapStep(a);
    DasherizeGapStep(a + b);
  }

  /** A gap-only `a` before a slug character becomes one dash. */
  lemma DasherizeWholeGap(a: string, b: string)
    requires a != [] && b != [] && !IsSlugChar(a[0]) && DropNonSlug(a) == []
    requires IsSlugChar(a[|a| - 1]) || IsSlugChar(b[0])
    ensures Dasherize(a + b) == Dasherize(a) + Dasherize(b)
  {
    DropNonSlugTail(a);
    GapOnlyDash(a);
    GapBeforeSlug(a, b);
  }

  lemma GapOnlyDash(a: string)
    requires a != [] && !IsSlugChar(a[0]) && DropNonSlug(a) == []
    ensures Dasherize(a) == "-"
  {
    DasherizeGapStep(a);
  }

  lemma GapBeforeSlug(a: string, b: string)
    requires a != [] && b != [] && !IsSlugChar(a[0]) && DropNonSlug(a) == [] && IsSlugChar(b[0])
    ensures Dasherize(a + b) == "-" + Dasherize(b)
  {
    DropNonSlugAppend(a, b);
    assert (a + b)[0] == a[0];
    DasherizeGapStep(a + b);
  }

  lemma DasherizeSlugStep(c: char, t: string)
    requires IsSlugChar(c)
    ensures Dasherize([c] + t) == [c] + Dasherize(t)
  {
    assert ([c] + t)[1..] == t;
  }

  lemma DasherizeGapStep(s: string)
    requires s != [] && !IsSlugChar(s[0])
    ensures Dasherize(s) == "-" + Dasherize(DropNonSlug(s))
  {
  }

  /** Skipping the whole of `a` means its last character is a gap. */
  lemma {:induction false} DropNonSlugTail(a: string)
    requires a != [] && DropNonSlug(a) == []
    ensures !IsSlugChar(a[|a| - 1])
    decreases |a|
  {
    if |a| > 1 {
      assert a[1..][|a| - 2] == a[|a| - 1];
      DropNonSlugTail(a[1..]);
    }
  }

  /** `replace(/(^-|-$)/g, '')`: one leading and one trailing dash go. */
  function StripEdgeDashes(s: string): (r: string)
    ensures IsDashed(s) ==> IsDashed(r) && (r == [] || r[0] != '-') && (r == [] || r[|r| - 1] != '-')
  {
    var a := if s != [] && s[0] == '-' then s[1..] else s;
    var b := if a != [] && a[|a| - 1] == '-' then a[..|a| - 1] else a;
    assert IsDashed(s) ==> IsDashed(b) by {
      if IsDashed(s) {
        assert IsDashed(a);
      }
    }
    b
  }

  /** `safeIdFromName`: the lower-cased name with every run of characters
      other than `[a-z0-9]` turned into one dash, a leading and a trailing
      dash removed, cut to 80 characters. */
  function SafeIdFromName(name: string): (id: string)
    ensures |id| <= 80
    ensures IsDashed(id)
    ensures id == [] || id[0] != '-'
  {
    var d := Dasherize(Lower(name));
    assert IsDashed(d) by { DasherizeDashed(Lower(name)); }
    var r := Prefix(StripEdgeDashes(d), 80);
    assert forall i :: 0 <= i < |r| ==> r[i] == StripEdgeDashes(Dasherize(Lower(name)))[i];
    r
  }
  /** Letters and digits are their own lower case. */
  lemma LowerSlug(w: string)
    requires AllChars(w, IsSlugChar)
    ensures Lower(w) == w
  {
    assert forall i :: 0 <= i < |w| ==> Lower(w)[i] == w[i];
  }

  /** Words of lower-case letters and digits joined by single spaces
      dasherize to the same words joined by dashes. */
  lemma {:induction false} DasherizeWords(words: seq<string>)
    requires words != []
    requires forall k :: 0 <= k < |words| ==> words[k] != [] && AllChars(words[k], IsSlugChar)
    ensures Dasherize(Lower(Join(words, " "))) == Join(words, "-")
    ensures var j := Join(words, "-"); j != [] && IsSlugChar(j[0]) && IsSlugChar(j[|j| - 1])
    decreases |words|
  {
    var w := words[0];
    LowerSlug(w);
    if |words| == 1 {
      DasherizeSlugRun(w);
    } else {
      var rest := words[1..];
      DasherizeWords(rest);
      DasherizeWordStep(w, Join(rest, " "), Join(rest, "-"));
      var j := Join(rest, "-");
      assert Join(words, " ") == w + " " + Join(rest, " ");
      assert Join(words, "-") == w + "-" + j;
      assert (w + "-" + j)[0] == w[0];
      assert (w + "-" + j)[|w + "-" + j| - 1] == j[|j| - 1];
    }
  }

  /** One more word in front: its space becomes a dash. */
  lemma DasherizeWordStep(w: string, rest: string, dashed: string)
    requires w != [] && AllChars(w, IsSlugChar)
    requires Dasherize(Lower(rest)) == dashed && dashed != [] && IsSlugChar(dashed[0])
    ensures Dasherize(Lower(w + " " + rest)) == w + "-" + dashed
  {
    var l := Lower(rest);
    assert l != [] && IsSlugChar(l[0]);
    LowerWordSpace(w, rest);
    DasherizeWordSpace(w, l, dashed);
  }

  /** Lower-casing leaves the word and the space alone. */
  lemma LowerWordSpace(w: string, rest: string)
    requires AllChars(w, IsSlugChar)
    ensures Lower(w + " " + rest) == w + (" " + Lower(rest))
  {
    LowerSlug(w);
    LowerAppend(w + " ", rest);
    LowerAppend(w, " ");
  }

  /** The word, then one dash for the space, then the dasherized rest. */
  lemma DasherizeWordSpace(w: string, l: string, dashed: string)
    requires w != [] && AllChars(w, IsSlugChar)
    requires l != [] && IsSlugChar(l[0]) && Dasherize(l) == dashed
    ensures Dasherize(w + (" " + l)) == w + "-" + dashed
  {
    DasherizeAppend(w, " " + l);
    DasherizeSlugRun(w);
    DasherizeSpaceFirst(l);
    AppendAssoc(w, "-", dashed);
  }

  /** A space before a slug character becomes one dash. */
  lemma DasherizeSpaceFirst(l: string)
    requires l != [] && IsSlugChar(l[0])
    ensures Dasherize(" " + l) == "-" + Dasherize(l)
  {
    var s := " " + l;
    assert s[0] == ' ' && s[1..] == l;
    assert DropNonSlug(s) == l;
    DasherizeGapStep(s);
  }

  lemma AppendAssoc(x: string, y: string, z: string)
    ensures x + (y + z) == x + y + z
  {
  }

  /** A name of lower-case words of letters and digits, separated by single
      spaces and at most 80 characters long, becomes those words joined by
      dashes. */
  lemma SafeIdOfWords(words: seq<string>)
    requires words != []
    requires forall k :: 0 <= k < |words| ==> words[k] != [] && AllChars(words[k], IsSlugChar)
    requires |Join(words, "-")| <= 80
    ensures SafeIdFromName(Join(words, " ")) == Join(words, "-")
  {
    DasherizeWords(words);
  }


  /** Characters of a YouTube playlist or channel id: `[a-zA-Z0-9_-]`. */
  predicate IsIdChar(c: char) {
    IsAsciiLetter(c) || IsDigit(c) || c == '_' || c == '-'
  }

  /** The longest prefix of `s` made of id characters (the greedy
      `[a-zA-Z0-9_-]+`). */
  function IdRun(s: string): (r: string)
    ensures |r| <= |s| && r == s[..|r|]
    ensures forall i :: 0 <= i < |r| ==> IsIdChar(r[i])
    ensures |r| < |s| ==> !IsIdChar(s[|r|])
    decreases |s|
  {
    if s == [] || !IsIdChar(s[0]) then [] else [s[0]] + IdRun(s[1..])
  }

  lemma {:induction false} IdRunOf(id: string, rest: string)
    requires forall i :: 0 <= i < |id| ==> IsIdChar(id[i])
    requires rest == [] || !IsIdChar(rest[0])
    ensures IdRun(id + rest) == id
    decreases |id|
  {
    if id == [] {
      assert id + rest == rest;
    } else {
      assert (id + rest)[1..] == id[1..] + rest;
      IdRunOf(id[1..], rest);
    }
  }

  /** The capture of `/[?&]list=([a-zA-Z0-9_-]+)/` at its leftmost match. */
  function PlaylistMatch(url: string): (r: Option<string>)
    ensures r.Some? ==> r.value != [] && forall i :: 0 <= i < |r.value| ==> IsIdChar(r.value[i])
    decreases |url|
  {
    if url == [] then None
    else if (url[0] == '?' || url[0] == '&') && StartsWith(url[1..], "list=") && IdRun(url[6..]) != [] then
      Some(IdRun(url[6..]))
    else PlaylistMatch(url[1..])
  }

  /** The playlist id is found again in a URL that carries it as the first
      query parameter `list`. */
  lemma {:induction false} PlaylistMatchOf(base: string, id: string, rest: string)
    requires '?' !in base && '&' !in base
    requires id != [] && forall i :: 0 <= i < |id| ==> IsIdChar(id[i])
    requires rest == [] || !IsIdChar(rest[0])
    ensures PlaylistMatch(base + "?list=" + id + rest) == Some(id)
    decreases |base|
  {
    var url := base + "?list=" + id + rest;
    if base == [] {
      assert url == "?list=" + (id + rest);
      assert url[1..][..5] == "list=";
      assert url[6..] == id + rest;
      IdRunOf(id, rest);
    } else {
      assert url[1..] == base[1..] + "?list=" + id + rest;
      PlaylistMatchOf(base[1..], id, rest);
    }
  }

  /** The capture of `/\/channel\/(UC[a-zA-Z0-9_-]+)/` at its leftmost
      match. */
  function ChannelMatch(url: string): (r: Option<string>)
    ensures r.Some? ==> |r.value| > 2 && StartsWith(r.value, "UC")
    decreases |url|
  {
    if url == [] then None
    else if StartsWith(url, "/channel/UC") && IdRun(url[11..]) != [] then
      Some("UC" + IdRun(url[11..]))
    else ChannelMatch(url[1..])
  }

  const PlaylistFeedBase := "https://www.youtube.com/feeds/videos.xml?playlist_id="
  const ChannelFeedBase := "https://www.youtube.com/feeds/videos.xml?channel_id="

  /** `resolveYoutubeRssUrl`: a playlist id in the URL gives the playlist
      feed; otherwise a channel id in the URL gives the channel feed;
      otherwise the channel id scraped from the fetched page does
      (`htmlChannelId`, None when the fetch fails or finds none). An empty
      URL resolves to nothing. */
  function ResolveYoutubeRssUrl(mainUrl: string, htmlChannelId: string -> Option<string>): (r: Option<string>)
    ensures mainUrl == [] ==> r.None?
    ensures mainUrl != [] && PlaylistMatch(mainUrl).Some? ==>
      r == Some(PlaylistFeedBase + PlaylistMatch(mainUrl).value)
    ensures mainUrl != [] && PlaylistMatch(mainUrl).None? && ChannelMatch(mainUrl).Some? ==>
      r == Some(ChannelFeedBase + ChannelMatch(mainUrl).value)
    ensures mainUrl != [] && PlaylistMatch(mainUrl).None? && ChannelMatch(mainUrl).None? ==>
      && (r.Some? <==> htmlChannelId(mainUrl).Some?)
      && (r.Some? ==> r.value == ChannelFeedBase + htmlChannelId(mainUrl).value)
    ensures r.Some? ==> StartsWith(r.value, "https://www.youtube.com/feeds/videos.xml?")
  {
    if mainUrl == [] then None
    else match PlaylistMatch(mainUrl)
      case Some(id) => Some(PlaylistFeedBase + id)
      case None =>
        match ChannelMatch(mainUrl)
        case Some(id) => Some(ChannelFeedBase + id)
        case None =>
          match htmlChannelId(mainUrl)
          case Some(id) => Some(ChannelFeedBase + id)
          case None => None
  }

  /** One entry of the feed list. */
  datatype Feed = Feed(
    id: string, name: string, kind: SourceType, mainUrl: string,
    url: Option<string>, category: Option<string>, sourceCategory: string,
    isResearch: bool)

  const SourceCategory := "AI"

  /** A cache entry is used when it is a string starting with "http". */
  predicate IsCachedFeed(cache: map<string, string>, key: string) {
    key in cache && StartsWith(cache[key], "http")
  }

  /** The feed URL of a source: its own feed URL if it has one; for a
      YouTube source without one, the cached URL, else the resolved one. */
  function FeedUrl(src: Source, t: SourceType, cache: map<string, string>,
                   htmlChannelId: string -> Option<string>): Option<string>
  {
    if src.rssUrl != [] then Some(src.rssUrl)
    else if !(t.YoutubeChannel? || t.YoutubePlaylist?) then None
    else if IsCachedFeed(cache, src.mainUrl) then Some(cache[src.mainUrl])
    else ResolveYoutubeRssUrl(src.mainUrl, htmlChannelId)
  }

  /** The feed built for one source, resolving against the cache as it was
      when the list was started. */
  function FeedFor(src: Source, configured: seq<string>, cache: map<string, string>,
                   htmlChannelId: string -> Option<string>): Feed
  {
    var t := ClassifySourceType(src);
    var category := EnsureCategory(configured, InferArticleCategory(t, src));
    Feed(SafeIdFromName(src.name), src.name, t, src.mainUrl,
         FeedUrl(src, t, cache, htmlChannelId), category, SourceCategory,
         IsResearchSource(t, category))
  }

  /** What the feed list keeps true of the cache: entries that were valid
      at the start are untouched, and every other entry is what resolving
      its key yields. */
  ghost predicate CacheAgrees(cache0: map<string, string>, cache: map<string, string>,
                        htmlChannelId: string -> Option<string>) {
    && (forall k :: IsCachedFeed(cache0, k) ==> k in cache && cache[k] == cache0[k])
    && (forall k :: k in cache && !(k in cache0 && cache[k] == cache0[k]) ==>
          ResolveYoutubeRssUrl(k, htmlChannelId) == Some(cache[k]))
  }

  /** The feed URL step of `buildFeedList` for one source, reading and
      writing the cache. */
  method LookupFeedUrl(src: Source, t: SourceType, cache: map<string, string>,
                       ghost cache0: map<string, string>, htmlChannelId: string -> Option<string>)
    returns (feedUrl: Option<string>, cache': map<string, string>, changed: bool)
    requires CacheAgrees(cache0, cache, htmlChannelId)
    ensures CacheAgrees(cache0, cache', htmlChannelId)
    ensures feedUrl == FeedUrl(src, t, cache0, htmlChannelId)
    ensures changed ==> cache' != cache0
    ensures !changed ==> cache' == cache
  {
    cache' := cache;
    changed := false;
    feedUrl := if src.rssUrl != [] then Some(src.rssUrl) else None;
    if (t.YoutubeChannel? || t.YoutubePlaylist?) && feedUrl.None? {
      if IsCachedFeed(cache, src.mainUrl) {
        feedUrl := Some(cache[src.mainUrl]);
      } else {
        var resolved := ResolveYoutubeRssUrl(src.mainUrl, htmlChannelId);
        if resolved.Some? {
          feedUrl := resolved;
          assert !IsCachedFeed(cache0, src.mainUrl);
          assert StartsWith(resolved.value, "http") by {
            var base := "https://www.youtube.com/feeds/videos.xml?";
            assert base[0] == 'h' && base[1] == 't' && base[2] == 't' && base[3] == 'p';
            assert base[..4] == "http";
            StartsWithTrans(resolved.value, "https://www.youtube.com/feeds/videos.xml?", "http");
          }
          cache' := cache[src.mainUrl := resolved.value];
          assert src.mainUrl !in cache0 || cache'[src.mainUrl] != cache0[src.mainUrl];
          changed := true;
        }
      }
    }
  }

  /** The feed of one source, looking its URL up in the cache. */
  method NextFeed(src: Source, configured: seq<string>, cache: map<string, string>,
                  ghost cache0: map<string, string>, htmlChannelId: string -> Option<string>)
    returns (feed: Feed, cache': map<string, string>, changed: bool)
    requires CacheAgrees(cache0, cache, htmlChannelId)
    ensures CacheAgrees(cache0, cache', htmlChannelId)
    ensures feed == FeedFor(src, configured, cache0, htmlChannelId)
    ensures changed ==> cache' != cache0
    ensures !changed ==> cache' == cache
  {
    var t := ClassifySourceType(src);
    var category := EnsureCategory(configured, InferArticleCategory(t, src));
    var feedUrl;
    feedUrl, cache', changed := LookupFeedUrl(src, t, cache, cache0, htmlChannelId);
    feed := Feed(SafeIdFromName(src.name), src.name, t, src.mainUrl, feedUrl,
                 category, SourceCategory, IsResearchSource(t, category));
  }

  /** `buildFeedList`: one feed per source, in order. YouTube sources without
      a feed URL are looked up in the cache and, failing that, resolved, the
      result being written back; `dirty` records whether the cache changed.
      Valid entries are never overwritten and every new entry is what
      resolving its key yields, so each feed is the one the original cache
      determines. */
  method BuildFeedList(sources: seq<Source>, configured: seq<string>, cache0: map<string, string>,
                       htmlChannelId: string -> Option<string>)
    returns (feeds: seq<Feed>, cache: map<string, string>, dirty: bool)
    ensures |feeds| == |sources|
    ensures forall i :: 0 <= i < |sources| ==> feeds[i] == FeedFor(sources[i], configured, cache0, htmlChannelId)
    ensures CacheAgrees(cache0, cache, htmlChannelId)
    ensures dirty <==> cache != cache0
  {
    cache := cache0;
    dirty := false;
    feeds := [];
    for i := 0 to |sources|
      invariant |feeds| == i
      invariant forall j :: 0 <= j < i ==> feeds[j] == FeedFor(sources[j], configured, cache0, htmlChannelId)
      invariant CacheAgrees(cache0, cache, htmlChannelId)
      invariant dirty <==> cache != cache0
    {
      var feed, changed;
      feed, cache, changed := NextFeed(sources[i], configured, cache, cache0, htmlChannelId);
      dirty := dirty || changed;
      FeedsSnoc(feeds, feed, sources, configured, cache0, htmlChannelId);
      feeds := feeds + [feed];
    }
  }

  /** Appending the feed of the next source keeps the list in step. */
  lemma FeedsSnoc(feeds: seq<Feed>, feed: Feed, sources: seq<Source>, configured: seq<string>,
                  cache0: map<string, string>, htmlChannelId: string -> Option<string>)
    requires |feeds| < |sources|
    requires forall j :: 0 <= j < |feeds| ==> feeds[j] == FeedFor(sources[j], configured, cache0, htmlChannelId)
    requires feed == FeedFor(sources[|feeds|], configured, cache0, htmlChannelId)
    ensures forall j :: 0 <= j < |feeds| + 1 ==> (feeds + [feed])[j] == FeedFor(sources[j], configured, cache0, htmlChannelId)
  {
  }
}
