/**
 * The source-list report (server/list-sources.mjs): its own tab-only row
 * parser, its copy of the source classifier, the loader without
 * de-duplication, and the counting pass over the loaded sources.
 */
module ListSources {
  import opened Wrappers
  import opened Text
  import opened Lists
  import Registry

  type Source = Registry.Source
  type SourceType = Registry.SourceType

  /** `parseTsvRow` of the report: the line is split on tabs only, every
      column is trimmed and a missing one is "". */
  function ParseTsvRow(line: string): (src: Source)
    ensures IsTrimmed(src.name) && IsTrimmed(src.mainUrl) && IsTrimmed(src.rssUrl)
  {
    var parts := SplitOn(line, '\t');
    Registry.Source(Trim(At(parts, 0)), Trim(At(parts, 1)), Trim(At(parts, 2)))
  }

  /** On a line with at least two tabs the report reads the same columns as
      the server. */
  lemma ParseTsvRowAgrees(line: string)
    requires |SplitOn(line, '\t')| >= 3
    ensures ParseTsvRow(line) == Registry.ParseTsvRow(line)
  {
  }

  /** One rule of the classifier: it fires when the main URL contains all of
      `mainAll` and either the main URL contains one of `mainAny` or the feed
      URL contains one of `feedAny`. */
  datatype Rule = Rule(kind: SourceType, mainAll: seq<string>, mainAny: seq<string>, feedAny: seq<string>)

  predicate AllIn(s: string, markers: seq<string>) {
    forall k :: 0 <= k < |markers| ==> Contains(s, markers[k])
  }

  predicate Fires(r: Rule, main: string, rss: string) {
    AllIn(main, r.mainAll) && (ContainsAny(main, r.mainAny) || ContainsAny(rss, r.feedAny))
  }

  /** The rules of the report's `classifySourceType`, in the order its
      `if` chain tries them. */
  const Rules: seq<Rule> := [
    Rule(Registry.YoutubePlaylist, ["youtube.com"], ["playlist?list="], []),
    Rule(Registry.YoutubeChannel, [], ["youtube.com"], []),
    Rule(Registry.CommunityReddit, [], ["reddit.com"], []),
    Rule(Registry.ResearchPlatformApi, [], ["huggingface.co/models"], []),
    Rule(Registry.ResearchPlatform, [], Registry.ResearchMarkers, []),
    Rule(Registry.Newsletter, [], ["substack.com", "beehiiv.com"], ["beehiiv.com"]),
    Rule(Registry.Podcast, [], ["/podcast", "ai-podcast"], ["/podcast", "feeds.blubrry.com", "changelog.com"]),
    Rule(Registry.CompanyBlog, [], Registry.CompanyBlogMarkers, [])
  ]

  /** The kind of the first rule that fires, or a plain website. */
  function FirstFiring(rules: seq<Rule>, main: string, rss: string): (t: SourceType)
    ensures t.RssWebsite? || exists k :: 0 <= k < |rules| && rules[k].kind == t && Fires(rules[k], main, rss)
    decreases |rules|
  {
    if rules == [] then Registry.RssWebsite
    else if Fires(rules[0], main, rss) then rules[0].kind
    else
      var t := FirstFiring(rules[1..], main, rss);
      assert forall k :: 1 <= k < |rules| ==> rules[k] == rules[1..][k - 1];
      t
  }

  /** `classifySourceType` of the report, read as a table of rules tried in
      order on the lower-cased URLs. */
  function ClassifySourceType(src: Source): (t: SourceType)
    ensures t.RssWebsite? || exists k :: 0 <= k < |Rules| && Rules[k].kind == t
  {
    FirstFiring(Rules, Lower(src.mainUrl), Lower(src.rssUrl))
  }

  /** What each rule of the table tests, in the server's terms. */
  lemma RuleTests(main: string, rss: string)
    ensures Fires(Rules[0], main, rss) <==> Contains(main, "youtube.com") && Contains(main, "playlist?list=")
    ensures Fires(Rules[1], main, rss) <==> Contains(main, "youtube.com")
    ensures Fires(Rules[2], main, rss) <==> Contains(main, "reddit.com")
    ensures Fires(Rules[3], main, rss) <==> Contains(main, "huggingface.co/models")
    ensures Fires(Rules[4], main, rss) <==> ContainsAny(main, Registry.ResearchMarkers)
    ensures Fires(Rules[5], main, rss) <==> Registry.IsNewsletterUrl(main, rss)
    ensures Fires(Rules[6], main, rss) <==> Registry.IsPodcastUrl(main, rss)
    ensures Fires(Rules[7], main, rss) <==> ContainsAny(main, Registry.CompanyBlogMarkers)
  {
    var yt: seq<string> := ["youtube.com"];
    var pl: seq<string> := ["playlist?list="];
    var rd: seq<string> := ["reddit.com"];
    var hf: seq<string> := ["huggingface.co/models"];
    assert yt[0] == "youtube.com" && pl[0] == "playlist?list=";
    assert rd[0] == "reddit.com" && hf[0] == "huggingface.co/models";
    var m: seq<string> := ["substack.com", "beehiiv.com"];
    var f: seq<string> := ["beehiiv.com"];
    assert m[0] == "substack.com" && m[1] == "beehiiv.com" && f[0] == "beehiiv.com";
    var pm: seq<string> := ["/podcast", "ai-podcast"];
    var pf: seq<string> := ["/podcast", "feeds.blubrry.com", "changelog.com"];
    assert pm[0] == "/podcast" && pm[1] == "ai-podcast";
    assert pf[0] == "/podcast" && pf[1] == "feeds.blubrry.com" && pf[2] == "changelog.com";
  }

  lemma FirstFiringStep(rules: seq<Rule>, main: string, rss: string)
    requires rules != []
    ensures FirstFiring(rules, main, rss) ==
      if Fires(rules[0], main, rss) then rules[0].kind else FirstFiring(rules[1..], main, rss)
  {
  }

  /** The report and the server classify every source alike. */
  lemma ClassifiersAgree(src: Source)
    ensures ClassifySourceType(src) == Registry.ClassifySourceType(src)
  {
    var main := Lower(src.mainUrl);
    var rss := Lower(src.rssUrl);
    RuleTests(main, rss);
    var r0 := Rules;
    var r1 := r0[1..];
    var r2 := r1[1..];
    var r3 := r2[1..];
    var r4 := r3[1..];
    var r5 := r4[1..];
    var r6 := r5[1..];
    var r7 := r6[1..];
    FirstFiringStep(r0, main, rss);
    FirstFiringStep(r1, main, rss);
    FirstFiringStep(r2, main, rss);
    FirstFiringStep(r3, main, rss);
    FirstFiringStep(r4, main, rss);
    FirstFiringStep(r5, main, rss);
    FirstFiringStep(r6, main, rss);
    FirstFiringStep(r7, main, rss);
    assert r7[1..] == [];
  }

  /** The rows `loadSources` parses: the non-empty lines (not
      right-trimmed) after the first one. */
  function SourceRows(tsv: string): (rows: seq<Source>)
    ensures var lines := NonEmpty(Registry.SplitLines(tsv));
      && |rows| == Max(0, |lines| - 1)
      && forall k :: 0 <= k < |rows| ==> rows[k] == ParseTsvRow(lines[k + 1])
  {
    var lines := NonEmpty(Registry.SplitLines(tsv));
    var rest := Drop(lines, 1);
    seq(|rest|, k requires 0 <= k < |rest| => ParseTsvRow(rest[k]))
  }

  /** `loadSources`: every row with a name and a main URL, in row order;
      duplicate names are not dropped. Row `j` of `SourceRows`, when
      usable, is source number `CountIf(rows[..j], IsUsable)`, and there
      are exactly as many sources as usable rows. */
  function LoadSources(tsv: string): (sources: seq<Source>)
    ensures var rows := SourceRows(tsv);
      && |sources| == CountIf(rows, Registry.IsUsable)
      && (forall k :: 0 <= k < |sources| ==> Registry.IsUsable(sources[k]))
      && forall j :: 0 <= j < |rows| && Registry.IsUsable(rows[j]) ==>
           CountIf(rows[..j], Registry.IsUsable) < |sources|
           && sources[CountIf(rows[..j], Registry.IsUsable)] == rows[j]
  {
    var rows := SourceRows(tsv);
    FilterExactly(rows, Registry.IsUsable);
    Filter(rows, Registry.IsUsable)
  }

  /** Two usable rows with the same name both become sources, in row
      order: the report does not de-duplicate. */
  lemma DuplicatesKept(tsv: string, i: nat, j: nat)
    requires i < j < |SourceRows(tsv)|
    requires Registry.IsUsable(SourceRows(tsv)[i]) && Registry.IsUsable(SourceRows(tsv)[j])
    requires SourceRows(tsv)[i].name == SourceRows(tsv)[j].name
    ensures exists a, b ::
      && 0 <= a < b < |LoadSources(tsv)|
      && LoadSources(tsv)[a] == SourceRows(tsv)[i] && LoadSources(tsv)[b] == SourceRows(tsv)[j]
  {
    var rows := SourceRows(tsv);
    FilterKeepsOrder(rows, Registry.IsUsable, i, j);
    var a, b := CountIf(rows[..i], Registry.IsUsable), CountIf(rows[..j], Registry.IsUsable);
    assert LoadSources(tsv)[a] == rows[i] && LoadSources(tsv)[b] == rows[j];
  }

  /** The number of sources the report classifies as `t`. */
  function CountOfType(sources: seq<Source>, t: SourceType): (n: nat)
    ensures n <= |sources|
    decreases |sources|
  {
    if sources == [] then 0
    else (if ClassifySourceType(sources[0]) == t then 1 else 0) + CountOfType(sources[1..], t)
  }

  /** A source is missing a feed URL when it has none and its type is not
      one whose feed is derived (YouTube) or fetched from an API. */
  predicate MissingRss(src: Source) {
    var t := ClassifySourceType(src);
    src.rssUrl == [] && !t.YoutubeChannel? && !t.YoutubePlaylist? && !t.ResearchPlatformApi?
  }

  function CountMissing(sources: seq<Source>): (n: nat)
    ensures n <= |sources|
    decreases |sources|
  {
    if sources == [] then 0
    else (if MissingRss(sources[0]) then 1 else 0) + CountMissing(sources[1..])
  }

  lemma {:induction false} CountOfTypeSnoc(s: seq<Source>, x: Source, t: SourceType)
    ensures CountOfType(s + [x], t) == CountOfType(s, t) + (if ClassifySourceType(x) == t then 1 else 0)
    decreases |s|
  {
    if s == [] {
      assert [x][1..] == [];
    } else {
      assert (s + [x])[1..] == s[1..] + [x];
      CountOfTypeSnoc(s[1..], x, t);
    }
  }

  lemma {:induction false} CountMissingSnoc(s: seq<Source>, x: Source)
    ensures CountMissing(s + [x]) == CountMissing(s) + (if MissingRss(x) then 1 else 0)
    decreases |s|
  {
    if s == [] {
      assert [x][1..] == [];
    } else {
      assert (s + [x])[1..] == s[1..] + [x];
      CountMissingSnoc(s[1..], x);
    }
  }

  /** The counting loop of the report: a map from type to the number of
      sources of that type (types with no source are absent), and the number
      of sources missing a feed URL. */
  method CountSources(sources: seq<Source>) returns (counts: map<SourceType, nat>, missingRss: nat)
    ensures forall t :: t in counts <==> CountOfType(sources, t) > 0
    ensures forall t :: t in counts ==> counts[t] == CountOfType(sources, t)
    ensures missingRss == CountMissing(sources)
  {
    counts := map[];
    missingRss := 0;
    for i := 0 to |sources|
      invariant CountsAre(counts, sources[..i])
      invariant missingRss == CountMissing(sources[..i])
    {
      var src := sources[i];
      TakeSnoc(sources, i);
      CountStep(counts, sources[..i], src);
      CountMissingSnoc(sources[..i], src);
      var t := ClassifySourceType(src);
      var before := if t in counts then counts[t] else 0;
      counts := counts[t := before + 1];
      if MissingRss(src) {
        missingRss := missingRss + 1;
      }
    }
    assert sources[..|sources|] == sources;
  }

  /** `counts` holds, for each type with a source in `s`, how many there are. */
  predicate CountsAre(counts: map<SourceType, nat>, s: seq<Source>) {
    && (forall t :: t in counts <==> CountOfType(s, t) > 0)
    && (forall t :: t in counts ==> counts[t] == CountOfType(s, t))
  }

  /** Counting one more source bumps the entry of its type. */
  lemma CountStep(counts: map<SourceType, nat>, s: seq<Source>, x: Source)
    requires CountsAre(counts, s)
    ensures var t := ClassifySourceType(x);
      CountsAre(counts[t := (if t in counts then counts[t] else 0) + 1], s + [x])
  {
    forall u {
      CountOfTypeSnoc(s, x, u);
    }
  }

  const AllTypes: seq<SourceType> := [
    Registry.YoutubePlaylist, Registry.YoutubeChannel, Registry.CommunityReddit,
    Registry.ResearchPlatformApi, Registry.ResearchPlatform, Registry.Newsletter,
    Registry.Podcast, Registry.CompanyBlog, Registry.RssWebsite
  ]

  /** The sum of the per-type counts over `ts`. */
  function SumCounts(sources: seq<Source>, ts: seq<SourceType>): nat
    decreases |ts|
  {
    if ts == [] then 0 else SumCounts(sources, ts[..|ts| - 1]) + CountOfType(sources, ts[|ts| - 1])
  }

  function Occurrences(ts: seq<SourceType>, t: SourceType): nat
    decreases |ts|
  {
    if ts == [] then 0 else Occurrences(ts[..|ts| - 1], t) + (if ts[|ts| - 1] == t then 1 else 0)
  }

  lemma {:induction false} SumCountsCons(sources: seq<Source>, ts: seq<SourceType>)
    requires sources != []
    ensures SumCounts(sources, ts) ==
      Occurrences(ts, ClassifySourceType(sources[0])) + SumCounts(sources[1..], ts)
    decreases |ts|
  {
    if ts != [] {
      SumCountsCons(sources, ts[..|ts| - 1]);
    }
  }

  lemma OccurrencesOfAllTypes(t: SourceType)
    ensures Occurrences(AllTypes, t) == 1
  {
    AllTypesDistinct();
    OccurrencesOfDistinct(AllTypes, t);
  }

  /** The position of each type in `AllTypes`. */
  function TypeIndex(t: SourceType): nat {
    match t
    case YoutubePlaylist => 0
    case YoutubeChannel => 1
    case CommunityReddit => 2
    case ResearchPlatformApi => 3
    case ResearchPlatform => 4
    case Newsletter => 5
    case Podcast => 6
    case CompanyBlog => 7
    case RssWebsite => 8
  }

  /** `AllTypes` lists no type twice. */
  lemma AllTypesDistinct()
    ensures forall i, j :: 0 <= i < j < |AllTypes| ==> AllTypes[i] != AllTypes[j]
  {
    forall i | 0 <= i < |AllTypes|
      ensures TypeIndex(AllTypes[i]) == i
    {
      // one case per index of the literal
      if i == 0 {
      } else if i == 1 {
      } else if i == 2 {
      } else if i == 3 {
      } else if i == 4 {
      } else if i == 5 {
      } else if i == 6 {
      } else if i == 7 {
      } else {
        assert i == 8;
      }
    }
  }

  /** In a list without repeats a value occurs once if it is there at
      all. */
  lemma {:induction false} OccurrencesOfDistinct(ts: seq<SourceType>, t: SourceType)
    requires forall i, j :: 0 <= i < j < |ts| ==> ts[i] != ts[j]
    ensures Occurrences(ts, t) == if t in ts then 1 else 0
    decreases |ts|
  {
    if ts != [] {
      var init := ts[..|ts| - 1];
      OccurrencesOfDistinct(init, t);
      assert ts == init + [ts[|ts| - 1]];
      if ts[|ts| - 1] == t {
        assert t !in init;
      }
    }
  }

  /** The per-type counts add up to the number of loaded sources. */
  lemma {:induction false} CountsSumToTotal(sources: seq<Source>)
    ensures SumCounts(sources, AllTypes) == |sources|
    decreases |sources|
  {
    if sources == [] {
      SumCountsEmpty(AllTypes);
    } else {
      SumCountsCons(sources, AllTypes);
      OccurrencesOfAllTypes(ClassifySourceType(sources[0]));
      CountsSumToTotal(sources[1..]);
    }
  }

  lemma {:induction false} SumCountsEmpty(ts: seq<SourceType>)
    ensures SumCounts([], ts) == 0
    decreases |ts|
  {
    if ts != [] {
      SumCountsEmpty(ts[..|ts| - 1]);
    }
  }
}
