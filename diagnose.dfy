/**
 * The image diagnosis script (server/diagnose-images.mjs): its own copies
 * of the renderability and generic-fallback tests, the split of recent
 * rows into broken ones and generic fallbacks, and the bounded lists it
 * prints and checks remotely.
 */
module Diagnose {
  import opened Wrappers
  import opened Text
  import opened Lists
  import Images

  const SecureFallbackPrefix := "https://source.unsplash.com/featured/"
  const PlainFallbackPrefix := "http://source.unsplash.com/featured/"

  /** `FALLBACK_PREFIXES`. */
  const FallbackPrefixes: seq<string> := [SecureFallbackPrefix, PlainFallbackPrefix]

  /** `isValidRenderableImageUrl`: nothing, a blank value and the texts
      "null" and "undefined" are not renderable; otherwise the trimmed value
      must be a data image or an http(s) URL, so relative and protocol-less
      paths are not. */
  function IsValidRenderableImageUrl(value: Option<string>): bool {
    if value.None? then false
    else
      var url := Trim(value.value);
      if url == [] then false
      else if url == "null" || url == "undefined" then false
      else if StartsWith(url, "data:image/") then true
      else StartsWith(url, "https://") || StartsWith(url, "http://")
  }

  /** `isGenericFallbackUrl`: a non-empty value whose trimmed text starts
      with one of the fallback prefixes. */
  function IsGenericFallbackUrl(value: Option<string>): bool {
    if value.None? || value.value == [] then false
    else
      var url := Trim(value.value);
      exists k :: 0 <= k < |FallbackPrefixes| && StartsWith(url, FallbackPrefixes[k])
  }

  /** The script's renderability test is the one the feed job's merge step
      uses. */
  lemma RenderableAgrees(value: Option<string>)
    ensures IsValidRenderableImageUrl(value) == Images.IsRenderableImageUrl(value)
  {
  }

  /** The script's fallback test is the one the feed job's merge step
      uses. */
  lemma GenericFallbackAgrees(value: Option<string>)
    ensures IsGenericFallbackUrl(value) == Images.IsGenericFallbackUrl(value)
  {
    if value.Some? && value.value != [] {
      FallbackPrefixAgrees(Trim(value.value));
    }
  }

  lemma FallbackPrefixAgrees(url: string)
    ensures (exists k :: 0 <= k < |FallbackPrefixes| && StartsWith(url, FallbackPrefixes[k])) <==>
      StartsWith(url, Images.FeaturedBase) || StartsWith(url, "http://source.unsplash.com/featured/")
  {
    assert SecureFallbackPrefix == Images.FeaturedBase;
    if StartsWith(url, SecureFallbackPrefix) {
      assert StartsWith(url, FallbackPrefixes[0]);
    } else if StartsWith(url, PlainFallbackPrefix) {
      assert StartsWith(url, FallbackPrefixes[1]);
    }
  }

  /** A generic fallback is renderable. */
  lemma GenericIsRenderable(value: Option<string>)
    requires IsGenericFallbackUrl(value)
    ensures IsValidRenderableImageUrl(value)
  {
    var url := Trim(value.value);
    var k :| 0 <= k < |FallbackPrefixes| && StartsWith(url, FallbackPrefixes[k]);
    if k == 0 {
      assert StartsWith(SecureFallbackPrefix, "https://");
      StartsWithTrans(url, SecureFallbackPrefix, "https://");
    } else {
      assert StartsWith(PlainFallbackPrefix, "http://");
      StartsWithTrans(url, PlainFallbackPrefix, "http://");
    }
    assert |url| > 8;
  }

  /** A recent article as the script loads it. */
  datatype Row = Row(id: string, title: string, category: string, source: string, imageUrl: Option<string>)

  /** The outcome of one remote check: a data URI is reported good without
      a request; any other URL by the HEAD request (`probe` says whether it
      answered with an image; a failed request counts as a bad answer). */
  datatype Check = DataUri(row: Row) | Remote(row: Row, ok: bool)

  /** What the script reports. */
  datatype Report = Report(
    checked: nat, broken: seq<Row>, fallbacks: seq<Row>, examples: seq<Row>, remote: seq<Check>)

  const MaxExamples := 15
  const MaxRemoteChecks := 25

  function IsRenderable(row: Row): bool { IsValidRenderableImageUrl(row.imageUrl) }

  function IsBroken(row: Row): bool { !IsRenderable(row) }

  function IsFallback(row: Row): bool { IsGenericFallbackUrl(row.imageUrl) }

  /** One remote check of a renderable row. */
  function CheckRow(row: Row, probe: string -> bool): (c: Check)
    requires row.imageUrl.Some?
    ensures c.row == row
    ensures c.DataUri? <==> StartsWith(Trim(row.imageUrl.value), "data:image/")
    ensures c.Remote? ==> c.ok == probe(Trim(row.imageUrl.value))
  {
    var url := Trim(row.imageUrl.value);
    if StartsWith(url, "data:image/") then DataUri(row) else Remote(row, probe(url))
  }

  /** The remote checks of the candidate rows, in order. */
  function Checks(candidates: seq<Row>, probe: string -> bool): (cs: seq<Check>)
    requires forall i :: 0 <= i < |candidates| ==> candidates[i].imageUrl.Some?
    ensures |cs| == |candidates|
    ensures forall i :: 0 <= i < |cs| ==> cs[i] == CheckRow(candidates[i], probe)
  {
    seq(|candidates|, i requires 0 <= i < |candidates| => CheckRow(candidates[i], probe))
  }

  /** `diagnose`: every loaded row is checked; the broken rows and the
      generic fallbacks are listed, fifteen broken rows are shown, and with
      remote checks on, the first twenty-five renderable rows are checked.
      `DiagnoseListsInOrder` and `DiagnoseRemoteInOrder` place every row in
      its list. */
  function Diagnose(rows: seq<Row>, remote: bool, probe: string -> bool): (r: Report)
    ensures r.checked == |rows|
    ensures forall i :: 0 <= i < |r.broken| ==> r.broken[i] in rows && IsBroken(r.broken[i])
    ensures forall i :: 0 <= i < |r.fallbacks| ==> r.fallbacks[i] in rows && IsFallback(r.fallbacks[i])
    ensures |r.examples| == Min(MaxExamples, |r.broken|) && r.examples == r.broken[..|r.examples|]
    ensures !remote ==> r.remote == []
    ensures |r.remote| <= MaxRemoteChecks
    ensures forall i :: 0 <= i < |r.remote| ==>
      r.remote[i].row in rows && IsRenderable(r.remote[i].row) && r.remote[i] == CheckRow(r.remote[i].row, probe)
  {
    var broken := Filter(rows, IsBroken);
    var fallbacks := Filter(rows, IsFallback);
    var candidates := if remote then Take(Filter(rows, IsRenderable), MaxRemoteChecks) else [];
    Report(|rows|, broken, fallbacks, Take(broken, MaxExamples), Checks(candidates, probe))
  }

  /** The broken rows and the fallbacks are listed in row order, all of
      them: row `j` of a kind is entry number `CountIf(rows[..j], kind)` of
      its list, and each list is as long as its kind is common. */
  lemma DiagnoseListsInOrder(rows: seq<Row>, remote: bool, probe: string -> bool)
    ensures var r := Diagnose(rows, remote, probe);
      && |r.broken| == CountIf(rows, IsBroken)
      && (forall j :: 0 <= j < |rows| && IsBroken(rows[j]) ==>
            CountIf(rows[..j], IsBroken) < |r.broken| && r.broken[CountIf(rows[..j], IsBroken)] == rows[j])
      && |r.fallbacks| == CountIf(rows, IsFallback)
      && (forall j :: 0 <= j < |rows| && IsFallback(rows[j]) ==>
            CountIf(rows[..j], IsFallback) < |r.fallbacks| && r.fallbacks[CountIf(rows[..j], IsFallback)] == rows[j])
  {
    FilterExactly(rows, IsBroken);
    FilterExactly(rows, IsFallback);
  }

  /** With remote checks on, the first twenty-five renderable rows are
      checked in row order: renderable row `j` is check number
      `CountIf(rows[..j], IsRenderable)` when that is below 25. */
  lemma DiagnoseRemoteInOrder(rows: seq<Row>, probe: string -> bool)
    ensures var r := Diagnose(rows, true, probe);
      && |r.remote| == Min(MaxRemoteChecks, CountIf(rows, IsRenderable))
      && forall j :: 0 <= j < |rows| && IsRenderable(rows[j]) && CountIf(rows[..j], IsRenderable) < MaxRemoteChecks ==>
           CountIf(rows[..j], IsRenderable) < |r.remote|
           && r.remote[CountIf(rows[..j], IsRenderable)] == CheckRow(rows[j], probe)
  {
    FilterExactly(rows, IsRenderable);
    var candidates := Take(Filter(rows, IsRenderable), MaxRemoteChecks);
    assert Diagnose(rows, true, probe).remote == Checks(candidates, probe);
  }

  /** No row is both broken and a generic fallback, so the two lists the
      script reports never share a row. */
  lemma BrokenAndFallbacksDisjoint(rows: seq<Row>, remote: bool, probe: string -> bool)
    ensures var r := Diagnose(rows, remote, probe);
      forall i, j :: 0 <= i < |r.broken| && 0 <= j < |r.fallbacks| ==> r.broken[i] != r.fallbacks[j]
  {
    var r := Diagnose(rows, remote, probe);
    forall i, j | 0 <= i < |r.broken| && 0 <= j < |r.fallbacks|
      ensures r.broken[i] != r.fallbacks[j]
    {
      if IsGenericFallbackUrl(r.fallbacks[j].imageUrl) {
        GenericIsRenderable(r.fallbacks[j].imageUrl);
      }
    }
  }
}
