/**
 * The home page (src/pages/Index.tsx): how the fetched article list is cut
 * into the hero carousel, the spotlight column, the feature cluster, five
 * category sections and the trending sidebar.
 */
module HomePage {
  import opened Wrappers
  import opened Lists

  const CategoryTitles: seq<string> :=
    ["AI Tools", "Robotics", "ML Research", "Generative Models", "Startup Pulse"]
  const SectionSize := 6

  datatype Section<T> = Section(title: string, articles: seq<T>)

  datatype Layout<T> = Layout(
    hero: seq<T>,
    spotlight: seq<T>,
    feature: Option<T>,
    highlights: seq<T>,
    remaining: seq<T>,
    sections: seq<Section<T>>,
    trending: seq<T>)

  /** `articles?.slice(...) ?? []` slices an absent list as an empty one. */
  function OrEmpty<T>(articles: Option<seq<T>>): (r: seq<T>)
    ensures articles.None? ==> r == []
    ensures articles.Some? ==> r == articles.value
  {
    if articles.Some? then articles.value else []
  }

  /** `articles?.[i]`. */
  function ElementAt<T>(s: seq<T>, i: nat): (r: Option<T>)
    ensures r.Some? <==> i < |s|
    ensures r.Some? ==> r.value == s[i]
  {
    if i < |s| then Some(s[i]) else None
  }

  /** Category section `i`: its title and the `i`-th run of six remaining
      articles. */
  function SectionAt<T>(remaining: seq<T>, i: nat): (sec: Section<T>)
    requires i < |CategoryTitles|
    ensures sec.title == CategoryTitles[i]
    ensures |sec.articles| <= SectionSize
    ensures sec.articles != [] <==> i * SectionSize < |remaining|
  {
    Section(CategoryTitles[i], Slice(remaining, i * SectionSize, i * SectionSize + SectionSize))
  }

  /** One section per title, before empty ones are dropped. */
  function AllSections<T>(remaining: seq<T>): (all: seq<Section<T>>)
    ensures |all| == |CategoryTitles|
    ensures forall i :: 0 <= i < |all| ==> all[i] == SectionAt(remaining, i)
  {
    seq(|CategoryTitles|, i requires 0 <= i < |CategoryTitles| => SectionAt(remaining, i))
  }

  /** `categorySections`: the sections that received articles. */
  function Sections<T(!new)>(remaining: seq<T>): (r: seq<Section<T>>)
    ensures |r| <= |CategoryTitles|
    ensures forall i :: 0 <= i < |r| ==> r[i].articles != [] && |r[i].articles| <= SectionSize
  {
    Filter(AllSections(remaining), (sec: Section<T>) => sec.articles != [])
  }

  /** The page layout for the fetched articles, or for none while they are
      missing. */
  function PageLayout<T(!new)>(articles: Option<seq<T>>): (l: Layout<T>)
    ensures articles.None? ==>
              l.hero == [] && l.spotlight == [] && l.feature.None? && l.highlights == []
              && l.remaining == [] && l.sections == [] && l.trending == []
    ensures |l.hero| <= 4 && |l.spotlight| <= 3 && |l.highlights| <= 3 && |l.trending| <= 10
  {
    var a := OrEmpty(articles);
    var remaining := Drop(a, 11);
    var l := Layout(Slice(a, 0, 4), Slice(a, 4, 7), ElementAt(a, 7), Slice(a, 8, 11),
                    remaining, Sections(remaining), Slice(a, 5, 15));
    assert articles.None? ==> l.sections == [] by {
      if articles.None? {
        NoSectionsWithoutArticles(remaining);
      }
    }
    l
  }

  // ---------------------------------------------------------------------
  // Properties of the layout
  // ---------------------------------------------------------------------

  lemma SliceJoin<T>(s: seq<T>, a: nat, b: nat, c: nat)
    requires a <= b <= c
    ensures Slice(s, a, b) + Slice(s, b, c) == Slice(s, a, c)
  {
  }

  lemma SliceAll<T>(s: seq<T>, a: nat)
    ensures Slice(s, 0, a) + Drop(s, a) == s
  {
  }

  /** Hero, spotlight, feature, highlights and the remaining articles are
      consecutive and together the whole list, each article once. */
  lemma LayoutPartition<T(!new)>(articles: seq<T>)
    ensures var l := PageLayout(Some(articles));
      l.hero + l.spotlight + (if l.feature.Some? then [l.feature.value] else []) + l.highlights + l.remaining
        == articles
  {
    var a := articles;
    SliceJoin(a, 0, 4, 7);
    SliceJoin(a, 0, 7, 8);
    SliceJoin(a, 0, 8, 11);
    SliceAll(a, 11);
    assert (if ElementAt(a, 7).Some? then [ElementAt(a, 7).value] else []) == Slice(a, 7, 8);
  }

  /** The trending list starts inside the spotlight: its first two articles
      are the last two spotlight ones. */
  lemma TrendingOverlapsSpotlight<T(!new)>(articles: seq<T>)
    requires |articles| >= 7
    ensures var l := PageLayout(Some(articles));
      l.trending[..2] == l.spotlight[1..]
  {
  }

  /** A section is empty exactly from some point on. */
  lemma SectionsEmptyFrom<T>(remaining: seq<T>, i: nat, j: nat)
    requires i <= j < |CategoryTitles|
    requires SectionAt(remaining, i).articles == []
    ensures SectionAt(remaining, j).articles == []
  {
  }

  /** The number of sections shown: one per started run of six remaining
      articles, at most five. */
  function SectionCount<T>(remaining: seq<T>): (k: nat)
    ensures k <= |CategoryTitles|
    ensures forall i :: 0 <= i < |CategoryTitles| ==> (i < k <==> i * SectionSize < |remaining|)
  {
    Min(|CategoryTitles|, (|remaining| + SectionSize - 1) / SectionSize)
  }

  /** The sections shown are the first ones, in title order: dropping the
      empty ones only cuts off the tail. */
  lemma SectionsArePrefix<T(!new)>(remaining: seq<T>)
    ensures Sections(remaining) == AllSections(remaining)[..SectionCount(remaining)]
  {
    var all := AllSections(remaining);
    FilterPrefix(all, (sec: Section<T>) => sec.articles != [], SectionCount(remaining));
  }

  lemma NoSectionsWithoutArticles<T(!new)>(remaining: seq<T>)
    requires remaining == []
    ensures Sections(remaining) == []
  {
    SectionsArePrefix(remaining);
  }

  /** The sections hold the first thirty remaining articles, in order, each
      once. */
  lemma SectionsCover<T(!new)>(remaining: seq<T>)
    ensures FlatMap(Sections(remaining), (sec: Section<T>) => sec.articles) == Take(remaining, 30)
  {
    var all := AllSections(remaining);
    var k := SectionCount(remaining);
    SectionsArePrefix(remaining);
    SectionsJoin(remaining, k);
    assert Slice(remaining, 0, k * SectionSize) == Take(remaining, 30);
  }

  lemma {:induction false} SectionsJoin<T>(remaining: seq<T>, j: nat)
    requires j <= |CategoryTitles|
    ensures FlatMap(AllSections(remaining)[..j], (sec: Section<T>) => sec.articles)
         == Slice(remaining, 0, j * SectionSize)
  {
    var f := (sec: Section<T>) => sec.articles;
    var all := AllSections(remaining);
    if j > 0 {
      SectionsJoin(remaining, j - 1);
      TakeSnoc(all, j - 1);
      FlatMapSnoc(all[..j - 1], all[j - 1], f);
      SliceJoin(remaining, 0, (j - 1) * SectionSize, j * SectionSize);
    }
  }

  /** A filter that keeps a prefix and drops the rest returns the prefix. */
  lemma {:induction false} FilterPrefix<T(!new)>(s: seq<T>, f: T -> bool, k: nat)
    requires k <= |s|
    requires forall i :: 0 <= i < k ==> f(s[i])
    requires forall i :: k <= i < |s| ==> !f(s[i])
    ensures Filter(s, f) == s[..k]
    decreases |s|
  {
    if s != [] {
      if k > 0 {
        FilterPrefix(s[1..], f, k - 1);
        assert s[..k] == [s[0]] + s[1..][..k - 1];
      } else {
        FilterPrefix(s[1..], f, 0);
      }
    }
  }
}
