/**
 * The image element of the client (src/components/NewsImage.tsx): it
 * shows the given source when that looks renderable and has not failed to
 * load, and a fallback picture otherwise.
 */
module NewsImage {
  import opened Wrappers
  import opened Text
  import Images
  import Diagnose

  /** `typeof src === "string" ? src.trim() : ""`; a source that is not a
      string is None. */
  function NormalizedSrc(src: Option<string>): (r: string)
    ensures IsTrimmed(r)
    ensures src.None? ==> r == []
    ensures src.Some? ==> r == Trim(src.value)
  {
    match src
    case None => []
    case Some(s) => Trim(s)
  }

  /** `isRenderableImageSrc`. */
  predicate IsRenderableImageSrc(value: string) {
    if value == [] then false
    else if value == "null" || value == "undefined" then false
    else if StartsWith(value, "data:image/") then true
    else StartsWith(value, "https://") || StartsWith(value, "http://")
  }

  /** The placeholders are refused and the three accepted schemes are
      accepted; nothing else is. */
  lemma RenderableSrcExactly(value: string)
    ensures IsRenderableImageSrc(value) <==>
              StartsWith(value, "data:image/") || StartsWith(value, "https://") || StartsWith(value, "http://")
    ensures value == [] || value == "null" || value == "undefined" ==> !IsRenderableImageSrc(value)
  {
    if value == "undefined" {
      assert value[..8][0] == 'u';
    }
  }

  /** Every https URL passes the test. */
  lemma HttpsIsRenderable(url: string)
    requires StartsWith(url, "https://")
    ensures IsRenderableImageSrc(url)
  {
    assert url[..8][0] == 'h';
  }

  /** On a trimmed text the client's test is the one the diagnostics script
      and the feed job's merge step use on the server. */
  lemma RenderableSrcAgrees(value: string)
    requires IsTrimmed(value)
    ensures IsRenderableImageSrc(value) == Diagnose.IsValidRenderableImageUrl(Some(value))
    ensures IsRenderableImageSrc(value) == Images.IsRenderableImageUrl(Some(value))
  {
    TrimOfTrimmed(value);
    Diagnose.RenderableAgrees(Some(value));
  }

  /** The element tests what it will show: the normalised source. */
  lemma NormalizedRenderableAgrees(src: string)
    ensures IsRenderableImageSrc(NormalizedSrc(Some(src))) == Diagnose.IsValidRenderableImageUrl(Some(src))
  {
  }

  const PhotoBase := "https://images.unsplash.com/"

  /** `techFallbacks`, each below the Unsplash image host. */
  const TechFallbackPhotos: seq<string> := [
    "photo-1620712943543-bcc4628c6757?w=1200&q=80",
    "photo-1677442136019-21780ecad995?w=1200&q=80",
    "photo-1485827404703-89b55fcc595e?w=1200&q=80",
    "photo-1614741118887-7a4ee193a5fa?w=1200&q=80",
    "photo-1550751827-4bd374c3f58b?w=1200&q=80",
    "photo-1451187580459-43490279c0fa?w=1200&q=80"
  ]

  /** `defaultFallback`: picked by the length of the alternative text (an
      absent one counts as length 0). */
  function DefaultFallback(alt: string): (url: string)
    ensures exists k :: 0 <= k < |TechFallbackPhotos| && url == PhotoBase + TechFallbackPhotos[k]
  {
    PhotoBase + TechFallbackPhotos[|alt| % |TechFallbackPhotos|]
  }

  /** Two alternative texts of the same length get the same picture, and
      the six pictures take turns as the length grows. */
  lemma DefaultFallbackByLength(alt1: string, alt2: string)
    requires |alt1| % 6 == |alt2| % 6
    ensures DefaultFallback(alt1) == DefaultFallback(alt2)
  {
  }

  /** Every default fallback is itself renderable. */
  lemma DefaultFallbackRenderable(alt: string)
    ensures IsRenderableImageSrc(DefaultFallback(alt))
  {
    var photo := TechFallbackPhotos[|alt| % |TechFallbackPhotos|];
    StartsWithAppend(PhotoBase, photo);
    assert StartsWith(PhotoBase, "https://");
    StartsWithTrans(PhotoBase + photo, PhotoBase, "https://");
    HttpsIsRenderable(PhotoBase + photo);
  }

  /** One rendered image: the normalised source, the caller's fallback
      ("" when none is given), the alternative text, and the `error` and
      `loaded` states. */
  class ImageView {
    var src: string
    const fallbackSrc: string
    const alt: string
    var error: bool
    var loaded: bool

    /** A source that is not renderable is always shown as failed. */
    predicate Valid()
      reads this
    {
      IsTrimmed(src) && (!IsRenderableImageSrc(src) ==> error)
    }

    /** The first render: `error` starts as the negated renderability of
        the normalised source, and nothing has loaded. */
    constructor (src: Option<string>, alt: string, fallbackSrc: string)
      ensures this.src == NormalizedSrc(src) && this.alt == alt && this.fallbackSrc == fallbackSrc
      ensures error == !IsRenderableImageSrc(this.src) && !loaded
      ensures Valid()
    {
      this.src := NormalizedSrc(src);
      this.alt := alt;
      this.fallbackSrc := fallbackSrc;
      error := !IsRenderableImageSrc(NormalizedSrc(src));
      loaded := false;
    }

    /** A new `src` prop: when the normalised source changes, the effect
        re-derives `error` and clears `loaded`; otherwise nothing runs. */
    method SetSrc(newSrc: Option<string>)
      modifies this
      ensures src == NormalizedSrc(newSrc)
      ensures src != old(src) ==> error == !IsRenderableImageSrc(src) && !loaded
      ensures src == old(src) ==> error == old(error) && loaded == old(loaded)
      ensures old(Valid()) ==> Valid()
    {
      var normalized := NormalizedSrc(newSrc);
      if normalized != src {
        src := normalized;
        error := !IsRenderableImageSrc(normalized);
        loaded := false;
      }
    }

    /** `handleError`: a failed load marks the image as failed; a failed
        image stays failed. */
    method HandleError()
      modifies this
      ensures error
      ensures src == old(src) && loaded == old(loaded)
      ensures old(Valid()) ==> Valid()
    {
      if !error {
        error := true;
      }
    }

    /** `onLoad`. */
    method HandleLoad()
      modifies this
      ensures loaded
      ensures src == old(src) && error == old(error)
      ensures old(Valid()) ==> Valid()
    {
      loaded := true;
    }

    /** `effectiveSrc`: the source while it has not failed, else the
        caller's fallback, else the default one. */
    function EffectiveSrc(): (url: string)
      reads this
      ensures !error ==> url == src
      ensures error && fallbackSrc != [] ==> url == fallbackSrc
      ensures error && fallbackSrc == [] ==> url == DefaultFallback(alt)
    {
      if error then (if fallbackSrc != [] then fallbackSrc else DefaultFallback(alt))
      else src
    }

    /** The pulsing placeholder shows while a good source is loading. */
    predicate ShowsPlaceholder()
      reads this
    {
      !loaded && !error
    }
  }

  /** The element is never handed a source that is not renderable, unless
      the caller's own fallback is one. */
  lemma EffectiveSrcRenderable(v: ImageView)
    requires v.Valid()
    requires v.fallbackSrc == [] || IsRenderableImageSrc(v.fallbackSrc)
    ensures IsRenderableImageSrc(v.EffectiveSrc())
  {
    if v.error && v.fallbackSrc == [] {
      DefaultFallbackRenderable(v.alt);
    }
  }
}
