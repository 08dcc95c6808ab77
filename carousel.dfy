/**
 * The hero carousel of the home page (src/components/HeroCarousel.tsx):
 * up to four slides with a current index that the arrows move and a timer
 * advances, a spotlight column of up to three articles, and a read-time
 * estimate for the summary on the current slide.
 */
module Carousel {
  import opened Wrappers
  import opened Text
  import opened Lists

  const MaxSlides := 4
  const MaxSpotlight := 3

  // ---------------------------------------------------------------------
  // Read-time estimate
  // ---------------------------------------------------------------------

  const ReadWordsPerMinute := 180
  const MinReadMinutes := 3
  const DefaultReadMinutes := 4

  /** `Math.round(n / d)` for a non-negative `n`: the nearest whole number,
      halves rounded up. */
  function RoundDiv(n: nat, d: nat): (q: nat)
    requires d > 0
    ensures 2 * n < (2 * q + 1) * d
    ensures (2 * q - 1) * d <= 2 * n
  {
    (2 * n + d) / (2 * d)
  }

  /** `estimateReadTime`, as the number of minutes in "<m> min read": 4 for
      a missing or empty text, otherwise the word count over 180, rounded,
      but never below 3. The text is split as it is, without trimming. */
  function EstimateReadMinutes(text: Option<string>): (minutes: nat)
    ensures minutes >= MinReadMinutes
    ensures text.None? || text == Some([]) ==> minutes == DefaultReadMinutes
    ensures text.Some? && text.value != [] && minutes > MinReadMinutes ==>
              minutes == RoundDiv(SplitPieceCount(text.value), ReadWordsPerMinute)
    ensures text.Some? && text.value != [] ==>
              (minutes == MinReadMinutes <==> RoundDiv(SplitPieceCount(text.value), ReadWordsPerMinute) <= MinReadMinutes)
  {
    if text.None? || text.value == [] then DefaultReadMinutes
    else Max(MinReadMinutes, RoundDiv(SplitPieceCount(text.value), ReadWordsPerMinute))
  }

  /** For a trimmed summary the estimate counts its words; short summaries
      (under 630 words) get the 3-minute floor. */
  lemma EstimateOfWords(text: string)
    requires text != [] && IsTrimmed(text)
    ensures EstimateReadMinutes(Some(text)) == Max(MinReadMinutes, RoundDiv(|Words(text)|, ReadWordsPerMinute))
    ensures |Words(text)| < 630 ==> EstimateReadMinutes(Some(text)) == MinReadMinutes
  {
    SplitPieceCountIsWords(text);
  }

  // ---------------------------------------------------------------------
  // Slide index
  // ---------------------------------------------------------------------

  /** JavaScript's `%` on integers: the remainder takes the sign of the
      dividend. */
  function JsRem(a: int, b: int): (r: int)
    requires b > 0
    ensures a >= 0 ==> 0 <= r < b && r == a % b
    ensures a < 0 ==> -b < r <= 0 && -r == (-a) % b
  {
    if a >= 0 then a % b else -((-a) % b)
  }

  /** `goTo`: the index `(next + n) % n` for `n` slides. */
  function GoToIndex(next: int, n: nat): (i: int)
    requires n > 0
    ensures next + n >= 0 ==> 0 <= i < n
    ensures 0 <= next < n ==> i == next
    ensures next == n ==> i == 0
    ensures next == -1 ==> i == n - 1
  {
    LapRemainder(next + n, n);
    JsRem(next + n, n)
  }

  /** The remainder of a position at most two laps round. */
  lemma LapRemainder(x: int, n: int)
    requires n > 0
    ensures 0 <= x < n ==> x % n == x
    ensures n <= x < 2 * n ==> x % n == x - n
    ensures x == 2 * n ==> x % n == 0
  {
    if n <= x < 2 * n {
      assert x == 1 * n + (x - n);
    } else if x == 2 * n {
      assert x == 2 * n + 0;
    }
  }

  /** The timer's step `(prev + 1) % n`. */
  function AdvanceIndex(prev: int, n: nat): (i: int)
    requires n > 0
    ensures 0 <= prev < n - 1 ==> i == prev + 1
    ensures prev == n - 1 ==> i == 0
    ensures prev >= -1 ==> 0 <= i < n
  {
    JsRem(prev + 1, n)
  }

  /** The back arrow undoes the forward arrow, and the other way round. */
  lemma ArrowsUndo(i: int, n: nat)
    requires n > 0 && 0 <= i < n
    ensures GoToIndex(GoToIndex(i + 1, n) - 1, n) == i
    ensures GoToIndex(GoToIndex(i - 1, n) + 1, n) == i
  {
  }

  /** The forward arrow and the timer make the same move. */
  lemma ArrowIsAdvance(i: int, n: nat)
    requires n > 0 && 0 <= i < n
    ensures GoToIndex(i + 1, n) == AdvanceIndex(i, n)
  {
  }

  /** The carousel's state: its slides (the first four hero articles) and
      the current index. */
  class Slides<T> {
    var slides: seq<T>
    var index: int

    predicate Valid()
      reads this
    {
      |slides| <= MaxSlides && (slides == [] || 0 <= index < |slides|)
    }

    /** `slides[index]`; nothing when the index is past the end, in which
        case the component renders nothing. */
    function Current(): (hero: Option<T>)
      reads this
      ensures hero.Some? <==> 0 <= index < |slides|
      ensures hero.Some? ==> hero.value == slides[index]
    {
      if 0 <= index < |slides| then Some(slides[index]) else None
    }

    constructor (heroArticles: seq<T>)
      ensures slides == Take(heroArticles, MaxSlides) && index == 0
      ensures Valid()
    {
      slides := Take(heroArticles, MaxSlides);
      index := 0;
    }

    /** New hero articles: the slides are recomputed and the index is kept,
        so it may point past the new slides; the component then renders
        nothing until a timer tick wraps it (with two slides or more). */
    method SetHeroArticles(heroArticles: seq<T>)
      modifies this
      ensures slides == Take(heroArticles, MaxSlides) && index == old(index)
    {
      slides := Take(heroArticles, MaxSlides);
    }

    /** `goTo(next)`: nothing with no slides, otherwise the wrapped index. */
    method GoTo(next: int)
      modifies this
      ensures slides == old(slides)
      ensures old(slides) == [] ==> index == old(index)
      ensures old(slides) != [] ==> index == GoToIndex(next, |slides|)
      ensures old(Valid()) && next + |slides| >= 0 ==> Valid()
    {
      if |slides| > 0 {
        index := GoToIndex(next, |slides|);
      }
    }

    /** The next-story arrow. */
    method Next()
      modifies this
      ensures slides == old(slides)
      ensures old(slides) != [] ==> index == GoToIndex(old(index) + 1, |slides|)
      ensures old(Valid()) ==> Valid() && (slides != [] ==> Current().Some?)
    {
      GoTo(index + 1);
    }

    /** The previous-story arrow. */
    method Previous()
      modifies this
      ensures slides == old(slides)
      ensures old(slides) != [] ==> index == GoToIndex(old(index) - 1, |slides|)
      ensures old(Valid()) ==> Valid() && (slides != [] ==> Current().Some?)
    {
      GoTo(index - 1);
    }

    /** One tick of the timer, which only runs with at least two slides. */
    method Tick()
      modifies this
      ensures slides == old(slides)
      ensures |slides| < 2 ==> index == old(index)
      ensures |slides| >= 2 ==> index == AdvanceIndex(old(index), |slides|)
      ensures old(Valid()) ==> Valid()
      ensures |slides| >= 2 && old(index) >= 0 ==> Current().Some?
    {
      if |slides| >= 2 {
        index := AdvanceIndex(index, |slides|);
      }
    }
  }

  /** The spotlight column: the first three spotlight articles. */
  function Spotlight<T>(spotlightArticles: seq<T>): (shown: seq<T>)
    ensures |shown| <= MaxSpotlight && |shown| <= |spotlightArticles|
    ensures forall i :: 0 <= i < |shown| ==> shown[i] == spotlightArticles[i]
    ensures |spotlightArticles| >= MaxSpotlight ==> |shown| == MaxSpotlight
  {
    Take(spotlightArticles, MaxSpotlight)
  }
}
