/**
 * The older aggregation edge function
 * (supabase/functions/aggregate-ai-news/index.ts): its regex-based
 * sanitising of feed text, the validation and truncation of each feed item,
 * the per-feed and per-run caps, and the gate that decides which analysed
 * articles are published.
 */
module Aggregate {
  import opened Wrappers
  import opened Text
  import opened Lists
  import Editorial

  predicate IsAngle(c: char) { c == '<' || c == '>' }

  /** No angle bracket anywhere in `s`. */
  predicate NoAngle(s: string) {
    forall i :: 0 <= i < |s| ==> !IsAngle(s[i])
  }

  lemma NoAngleInfix(s: string, a: nat, b: nat)
    requires a <= b <= |s| && NoAngle(s)
    ensures NoAngle(s[a..b])
  {
    assert forall i :: 0 <= i < b - a ==> s[a..b][i] == s[a + i];
  }

  // ---------------------------------------------------------------------
  // Case-insensitive matching
  // ---------------------------------------------------------------------

  /** `s` starts with the lower-case pattern `pat`, ignoring ASCII case (the
      `i` flag of a regular expression without the `u` flag). */
  predicate StartsWithCI(s: string, pat: string) {
    |pat| <= |s| && forall i :: 0 <= i < |pat| ==> LowerChar(s[i]) == pat[i]
  }

  lemma StartsWithCIPrefix(t: string, u: string, pat: string)
    requires |t| <= |u| && t == u[..|t|]
    requires StartsWithCI(t, pat)
    ensures StartsWithCI(u, pat)
  {
    assert forall i :: 0 <= i < |pat| ==> t[i] == u[i];
  }

  // ---------------------------------------------------------------------
  // The `javascript:` pass
  // ---------------------------------------------------------------------

  const JsProtocol := "javascript:"

  /** `replace(/javascript:/gi, '')`: one left-to-right pass removing every
      non-overlapping occurrence. */
  function StripJs(s: string): (r: string)
    ensures |r| <= |s|
    decreases |s|
  {
    if s == [] then []
    else if StartsWithCI(s, JsProtocol) then StripJs(s[|JsProtocol|..])
    else [s[0]] + StripJs(s[1..])
  }

  /** The pass only removes characters. */
  lemma {:induction false} StripJsNoAngle(s: string)
    requires NoAngle(s)
    ensures NoAngle(StripJs(s))
    decreases |s|
  {
    if s != [] {
      if StartsWithCI(s, JsProtocol) {
        NoAngleInfix(s, |JsProtocol|, |s|);
        StripJsNoAngle(s[|JsProtocol|..]);
      } else {
        NoAngleInfix(s, 1, |s|);
        StripJsNoAngle(s[1..]);
      }
    }
  }

  /** No occurrence of the protocol starts anywhere in `s`. */
  predicate NoJs(s: string)
    decreases |s|
  {
    !StartsWithCI(s, JsProtocol) && (s == [] || NoJs(s[1..]))
  }

  lemma {:induction false} StripJsShrinks(s: string)
    requires !NoJs(s)
    ensures |StripJs(s)| < |s|
    decreases |s|
  {
    if !StartsWithCI(s, JsProtocol) {
      StripJsShrinks(s[1..]);
    }
  }

  lemma {:induction false} StripJsOfClean(s: string)
    requires NoJs(s)
    ensures StripJs(s) == s
    decreases |s|
  {
    if s != [] {
      StripJsOfClean(s[1..]);
    }
  }

  /** A text shorter than the protocol passes unchanged. */
  lemma {:induction false} ShortIsNoJs(s: string)
    requires |s| < |JsProtocol|
    ensures NoJs(s)
    decreases |s|
  {
    if s != [] {
      ShortIsNoJs(s[1..]);
    }
  }

  /** A character at which no occurrence starts is kept. */
  lemma StripJsCons(c: char, s: string)
    requires !StartsWithCI([c] + s, JsProtocol)
    ensures StripJs([c] + s) == [c] + StripJs(s)
  {
    assert ([c] + s)[1..] == s;
  }

  // ---------------------------------------------------------------------
  // The event-handler pass
  // ---------------------------------------------------------------------

  /** The length of the leading run of characters satisfying `p` (`\w+`
      and `\s*` are greedy). */
  function Run(s: string, p: char -> bool): (n: nat)
    ensures n <= |s|
    ensures forall i :: 0 <= i < n ==> p(s[i])
    ensures n < |s| ==> !p(s[n])
    decreases |s|
  {
    if s != [] && p(s[0]) then 1 + Run(s[1..], p) else 0
  }

  /** The length of a match of `/on\w+\s*=/i` at the start of `s`: "on" in
      any case, the longest run of word characters (at least one), the
      whitespace after it and an equals sign. A shorter word run cannot
      match, since a word character is neither whitespace nor '='. */
  function HandlerLength(s: string): (n: Option<nat>)
    ensures n.Some? ==> 4 <= n.value <= |s| && s[n.value - 1] == '='
  {
    if |s| < 2 || LowerChar(s[0]) != 'o' || LowerChar(s[1]) != 'n' then None
    else
      var w := Run(s[2..], IsWordChar);
      if w == 0 then None
      else
        var e := 2 + w + Run(s[2 + w..], IsSpace);
        if e < |s| && s[e] == '=' then Some(e + 1) else None
  }

  /** `replace(/on\w+\s*=/gi, '')`: one left-to-right pass. */
  function StripHandlers(s: string): (r: string)
    ensures |r| <= |s|
    decreases |s|
  {
    if s == [] then []
    else
      var n := HandlerLength(s);
      if n.Some? then StripHandlers(s[n.value..])
      else [s[0]] + StripHandlers(s[1..])
  }

  /** The pass only removes characters. */
  lemma {:induction false} StripHandlersNoAngle(s: string)
    requires NoAngle(s)
    ensures NoAngle(StripHandlers(s))
    decreases |s|
  {
    if s != [] {
      var n := HandlerLength(s);
      if n.Some? {
        NoAngleInfix(s, n.value, |s|);
        StripHandlersNoAngle(s[n.value..]);
      } else {
        NoAngleInfix(s, 1, |s|);
        StripHandlersNoAngle(s[1..]);
      }
    }
  }

  /** No handler pattern starts anywhere in `s`. */
  predicate NoHandler(s: string)
    decreases |s|
  {
    HandlerLength(s).None? && (s == [] || NoHandler(s[1..]))
  }

  lemma {:induction false} StripHandlersShrinks(s: string)
    requires !NoHandler(s)
    ensures |StripHandlers(s)| < |s|
    decreases |s|
  {
    if HandlerLength(s).None? {
      StripHandlersShrinks(s[1..]);
    }
  }

  lemma {:induction false} StripHandlersOfClean(s: string)
    requires NoHandler(s)
    ensures StripHandlers(s) == s
    decreases |s|
  {
    if s != [] {
      StripHandlersOfClean(s[1..]);
    }
  }

  /** Text without the letter o has no handler pattern. */
  lemma {:induction false} NoOIsNoHandler(s: string)
    requires forall i :: 0 <= i < |s| ==> LowerChar(s[i]) != 'o'
    ensures NoHandler(s)
    decreases |s|
  {
    if s != [] {
      NoOIsNoHandler(s[1..]);
    }
  }

  // ---------------------------------------------------------------------
  // Sanitising
  // ---------------------------------------------------------------------


  const SanitizeLimit := 1000

  /** `sanitize` as written: angle brackets go, then one pass removes
      `javascript:`, then one pass removes event handlers, then the text is
      trimmed and cut to 1000 characters. */
  function Sanitize(str: string): (r: string)
    ensures |r| <= SanitizeLimit
    ensures NoAngle(r)
  {
    var removed := RemoveChars(str, IsAngle);
    var passed := StripHandlers(StripJs(removed));
    StripJsNoAngle(removed);
    StripHandlersNoAngle(StripJs(removed));
    var t := Trim(passed);
    TrimSlice(passed);
    NoAngleInfix(passed, |passed| - |TrimStart(passed)|, |passed| - |TrimStart(passed)| + |t|);
    var r := Prefix(t, SanitizeLimit);
    NoAngleInfix(t, 0, |r|);
    r
  }

  /** A single pass can put the protocol back together: removing the inner
      occurrence of "javajavascript:script:" joins its two halves. */
  lemma SanitizeRebuildsProtocol(head: string, tail: string)
    requires head == "java" && tail == "script:"
    ensures Sanitize(head + JsProtocol + tail) == JsProtocol
    ensures !NoJs(Sanitize(head + JsProtocol + tail))
  {
    var s := head + JsProtocol + tail;
    RebuildInputHasNoAngle(head, tail);
    NoDrop(s, IsAngle);
    StripJsRebuilds(head, tail);
    ProtocolFacts();
    StripHandlersOfClean(JsProtocol);
    TrimOfTrimmed(JsProtocol);
  }

  lemma RebuildInputHasNoAngle(head: string, tail: string)
    requires head == "java" && tail == "script:"
    ensures NoAngle(head + JsProtocol + tail)
  {
    var s := head + JsProtocol + tail;
    assert forall i :: 0 <= i < 4 ==> s[i] == head[i];
    assert forall i :: 4 <= i < 15 ==> s[i] == JsProtocol[i - 4];
    assert forall i :: 15 <= i < |s| ==> s[i] == tail[i - 15];
  }

  /** The protocol matches itself, holds no handler pattern and has no
      surrounding whitespace. */
  lemma ProtocolFacts()
    ensures !NoJs(JsProtocol) && NoHandler(JsProtocol) && IsTrimmed(JsProtocol)
  {
    ProtocolLower(JsProtocol, []);
    assert JsProtocol + [] == JsProtocol;
    NoOIsNoHandler(JsProtocol);
  }

  /** The protocol is written in lower case, so it matches itself. */
  lemma ProtocolLower(p: string, rest: string)
    requires p == JsProtocol
    ensures StartsWithCI(p + rest, JsProtocol) && (p + rest)[|JsProtocol|..] == rest
  {
    assert forall i :: 0 <= i < |p| ==> (p + rest)[i] == p[i];
  }

  lemma HeadMismatch(h: string, b: string)
    requires h != [] && LowerChar(h[0]) != JsProtocol[0]
    ensures !StartsWithCI(h + b, JsProtocol)
  {
    assert (h + b)[0] == h[0];
  }

  /** The one pass removes the inner occurrence and keeps the rest. */
  lemma StripJsRebuilds(head: string, tail: string)
    requires head == "java" && tail == "script:"
    ensures StripJs(head + JsProtocol + tail) == head + tail == JsProtocol
  {
    var b := JsProtocol + tail;
    ProtocolThenTail(tail);
    HeadMatchesNowhere(head, b);
    StripJsFromStart(head, b, tail);
    Assoc(head, JsProtocol, tail);
    JoinIsProtocol(head, tail);
  }

  lemma ProtocolThenTail(tail: string)
    requires tail == "script:"
    ensures StripJs(JsProtocol + tail) == tail
  {
    ProtocolLower(JsProtocol, tail);
    ShortIsNoJs(tail);
    StripJsOfClean(tail);
  }

  /** No occurrence of the protocol starts inside "java" in front of it. */
  lemma HeadMatchesNowhere(head: string, b: string)
    requires head == "java" && b == JsProtocol + "script:"
    ensures forall j :: 0 <= j < |head| ==> !StartsWithCI(head[j..] + b, JsProtocol)
  {
    HeadMismatch(head[3..], b);
    HeadMismatch(head[2..], b);
    HeadMismatch(head[1..], b);
    assert (head[0..] + b)[4] == JsProtocol[0];
  }

  lemma StripJsFromStart(head: string, b: string, tail: string)
    requires forall j :: 0 <= j < |head| ==> !StartsWithCI(head[j..] + b, JsProtocol)
    requires StripJs(b) == tail
    ensures StripJs(head + b) == head + tail
  {
    StripJsFrom(head, 0, b, tail);
    assert head[0..] == head;
  }

  lemma JoinIsProtocol(head: string, tail: string)
    requires head == "java" && tail == "script:"
    ensures head + tail == JsProtocol
  {
  }

  /** Text in front of which no occurrence starts passes unchanged. */
  lemma {:induction false} StripJsFrom(head: string, k: nat, b: string, tail: string)
    requires k <= |head|
    requires forall j :: k <= j < |head| ==> !StartsWithCI(head[j..] + b, JsProtocol)
    requires StripJs(b) == tail
    ensures StripJs(head[k..] + b) == head[k..] + tail
    decreases |head| - k
  {
    if k == |head| {
      assert head[k..] + b == b && head[k..] + tail == tail;
    } else {
      StripJsFrom(head, k + 1, b, tail);
      StripJsStep(head, k, b, tail);
    }
  }

  /** Stepping back over a character at which no occurrence starts. */
  lemma StripJsStep(head: string, k: nat, b: string, tail: string)
    requires k < |head|
    requires !StartsWithCI(head[k..] + b, JsProtocol)
    requires StripJs(head[k + 1..] + b) == head[k + 1..] + tail
    ensures StripJs(head[k..] + b) == head[k..] + tail
  {
    var h := head[k..];
    assert h[1..] == head[k + 1..];
    ConsSplit(h, b);
    ConsSplit(h, tail);
    StripJsCons(h[0], h[1..] + b);
  }

  lemma {:induction false} NoDrop(s: string, drop: char -> bool)
    requires forall i :: 0 <= i < |s| ==> !drop(s[i])
    ensures RemoveChars(s, drop) == s
    decreases |s|
  {
    if s != [] {
      NoDrop(s[1..], drop);
    }
  }

  /** Both removals repeated until neither finds anything. */
  function Scrub(s: string): (r: string)
    ensures NoJs(r) && NoHandler(r)
    ensures |r| <= |s|
    decreases |s|
  {
    var t := StripHandlers(StripJs(s));
    if |t| == |s| then
      ScrubFixpoint(s);
      s
    else Scrub(t)
  }

  lemma {:induction false} ScrubNoAngle(s: string)
    requires NoAngle(s)
    ensures NoAngle(Scrub(s))
    decreases |s|
  {
    StripJsNoAngle(s);
    StripHandlersNoAngle(StripJs(s));
    var t := StripHandlers(StripJs(s));
    if |t| != |s| {
      ScrubNoAngle(t);
    }
  }

  /** When one round of both removals shortens nothing, the text holds
      neither pattern. */
  lemma ScrubFixpoint(s: string)
    requires |StripHandlers(StripJs(s))| == |s|
    ensures NoJs(s) && NoHandler(s)
  {
    if !NoJs(s) { StripJsShrinks(s); }
    StripJsOfClean(s);
    if !NoHandler(s) { StripHandlersShrinks(s); }
  }

  /** `sanitize` as intended: the two removals are repeated until the text
      holds neither pattern, so the result holds neither. */
  function SanitizeStrict(str: string): (r: string)
    ensures |r| <= SanitizeLimit
    ensures NoAngle(r)
    ensures NoJs(r) && NoHandler(r)
  {
    var removed := RemoveChars(str, IsAngle);
    var scrubbed := Scrub(removed);
    ScrubNoAngle(removed);
    TrimClean(scrubbed);
    PrefixAllClean(Trim(scrubbed), SanitizeLimit);
    Prefix(Trim(scrubbed), SanitizeLimit)
  }

  /** Neither an angle bracket nor either pattern. */
  predicate AllClean(s: string) {
    NoAngle(s) && NoJs(s) && NoHandler(s)
  }

  lemma InfixAllClean(s: string, a: nat, b: nat)
    requires a <= b <= |s| && AllClean(s)
    ensures AllClean(s[a..b])
  {
    InfixClean(s, a, b);
    NoAngleInfix(s, a, b);
  }

  lemma TrimClean(s: string)
    requires AllClean(s)
    ensures AllClean(Trim(s))
  {
    forall a, b | 0 <= a <= b <= |s|
      ensures AllClean(s[a..b])
    {
      InfixAllClean(s, a, b);
    }
    TrimInfixClosed(s, AllClean);
  }

  lemma PrefixAllClean(s: string, n: nat)
    requires AllClean(s)
    ensures AllClean(Prefix(s, n))
  {
    InfixAllClean(s, 0, |Prefix(s, n)|);
    assert s[0..|Prefix(s, n)|] == Prefix(s, n);
  }

  /** On text in which one pass finds nothing to rebuild, the strict
      version agrees with the one as written. */
  lemma StrictAgrees(str: string)
    requires NoJs(RemoveChars(str, IsAngle)) && NoHandler(RemoveChars(str, IsAngle))
    ensures SanitizeStrict(str) == Sanitize(str)
  {
    var s := RemoveChars(str, IsAngle);
    StripJsOfClean(s);
    StripHandlersOfClean(s);
  }

  /** Any infix of a clean text is clean. */
  lemma InfixClean(s: string, a: nat, b: nat)
    requires a <= b <= |s|
    requires NoJs(s) && NoHandler(s)
    ensures NoJs(s[a..b]) && NoHandler(s[a..b])
  {
    SuffixClean(s, a);
    InfixAsPrefix(s, a, b);
    PrefixClean(s[a..], b - a);
  }

  lemma {:induction false} SuffixClean(s: string, a: nat)
    requires a <= |s|
    requires NoJs(s) && NoHandler(s)
    ensures NoJs(s[a..]) && NoHandler(s[a..])
    decreases a
  {
    if a > 0 {
      SuffixClean(s[1..], a - 1);
      assert s[1..][a - 1..] == s[a..];
    }
  }

  lemma {:induction false} PrefixClean(s: string, k: nat)
    requires k <= |s|
    requires NoJs(s) && NoHandler(s)
    ensures NoJs(s[..k]) && NoHandler(s[..k])
    decreases k
  {
    if k > 0 {
      var t := s[..k];
      if StartsWithCI(t, JsProtocol) {
        StartsWithCIPrefix(t, s, JsProtocol);
      }
      if HandlerLength(t).Some? {
        HandlerLengthPrefix(t, s);
      }
      PrefixClean(s[1..], k - 1);
      assert t[1..] == s[1..][..k - 1];
    }
  }

  /** A handler match at the start of `t` is one at the start of any text
      `t` begins. */
  lemma HandlerLengthPrefix(t: string, u: string)
    requires |t| <= |u| && t == u[..|t|]
    requires HandlerLength(t).Some?
    ensures HandlerLength(u) == HandlerLength(t)
  {
    HandlerLengthParts(t);
    var w := Run(t[2..], IsWordChar);
    var sp := Run(t[2 + w..], IsSpace);
    HandlerPartsAgree(t, u, w, sp);
    HandlerLengthOf(u, w, sp);
  }

  /** The parts of a handler match at the start of `t` are the parts of
      one at the start of any text `t` begins. */
  lemma HandlerPartsAgree(t: string, u: string, w: nat, sp: nat)
    requires |t| <= |u| && t == u[..|t|]
    requires |t| >= 2 && LowerChar(t[0]) == 'o' && LowerChar(t[1]) == 'n'
    requires 0 < w == Run(t[2..], IsWordChar) && sp == Run(t[2 + w..], IsSpace)
    requires 2 + w + sp < |t| && t[2 + w + sp] == '='
    ensures |u| >= 2 && LowerChar(u[0]) == 'o' && LowerChar(u[1]) == 'n'
    ensures w == Run(u[2..], IsWordChar) && sp == Run(u[2 + w..], IsSpace)
    ensures 2 + w + sp < |u| && u[2 + w + sp] == '='
  {
    RunsAgree(t, u, 2, IsWordChar);
    RunsAgree(t, u, 2 + w, IsSpace);
    assert u[0] == t[0] && u[1] == t[1] && u[2 + w + sp] == t[2 + w + sp];
  }

  /** A run that ends inside `t` ends at the same place in any text `t`
      begins. */
  lemma RunsAgree(t: string, u: string, k: nat, p: char -> bool)
    requires |t| <= |u| && t == u[..|t|] && k <= |t|
    requires Run(t[k..], p) < |t| - k
    ensures Run(u[k..], p) == Run(t[k..], p)
  {
    SuffixOfPrefix(t, u, k);
    RunPrefix(t[k..], u[k..], p);
  }

  /** What a handler match at the start of `s` consists of. */
  lemma HandlerLengthParts(s: string)
    requires HandlerLength(s).Some?
    ensures |s| >= 2 && LowerChar(s[0]) == 'o' && LowerChar(s[1]) == 'n'
    ensures var w := Run(s[2..], IsWordChar);
      var sp := Run(s[2 + w..], IsSpace);
      w > 0 && 2 + w + sp < |s| && s[2 + w + sp] == '=' && HandlerLength(s) == Some(3 + w + sp)
  {
  }

  lemma HandlerLengthOf(s: string, w: nat, sp: nat)
    requires |s| >= 2 && LowerChar(s[0]) == 'o' && LowerChar(s[1]) == 'n'
    requires 0 < w == Run(s[2..], IsWordChar)
    requires sp == Run(s[2 + w..], IsSpace)
    requires 2 + w + sp < |s| && s[2 + w + sp] == '='
    ensures HandlerLength(s) == Some(3 + w + sp)
  {
  }

  lemma {:induction false} RunPrefix(t: string, u: string, p: char -> bool)
    requires |t| <= |u| && t == u[..|t|]
    requires Run(t, p) < |t|
    ensures Run(u, p) == Run(t, p)
    decreases |t|
  {
    if t != [] && p(t[0]) {
      assert t[1..] == u[1..][..|t| - 1];
      RunPrefix(t[1..], u[1..], p);
    }
  }

  // ---------------------------------------------------------------------
  // Markup and entity stripping
  // ---------------------------------------------------------------------

  /** `replace(/<[^>]*>/g, '')`: a '<' followed somewhere by a '>' starts a
      tag that runs to the first '>'; a '<' with no '>' after it stays. */
  function StripTags(s: string): (r: string)
    ensures |r| <= |s|
    decreases |s|
  {
    if s == [] then []
    else if s[0] == '<' && '>' in s[1..] then StripTags(s[1 + IndexOf(s[1..], '>') + 1..])
    else [s[0]] + StripTags(s[1..])
  }

  /** Stripping never adds a character. */
  lemma {:induction false} StripTagsLacks(s: string, c: char)
    requires c !in s
    ensures c !in StripTags(s)
    decreases |s|
  {
    if s != [] {
      if s[0] == '<' && '>' in s[1..] {
        StripTagsLacks(s[1 + IndexOf(s[1..], '>') + 1..], c);
      } else {
        StripTagsLacks(s[1..], c);
      }
    }
  }

  /** After stripping, no '<' is followed by a '>': nothing tag-shaped is
      left. */
  predicate NoTag(s: string)
    decreases |s|
  {
    s == [] || ((s[0] == '<' ==> '>' !in s[1..]) && NoTag(s[1..]))
  }

  lemma {:induction false} StripTagsNoTag(s: string)
    ensures NoTag(StripTags(s))
    decreases |s|
  {
    if s != [] {
      if s[0] == '<' && '>' in s[1..] {
        StripTagsNoTag(s[1 + IndexOf(s[1..], '>') + 1..]);
      } else {
        StripTagsNoTag(s[1..]);
        if s[0] == '<' {
          StripTagsLacks(s[1..], '>');
        }
        assert ([s[0]] + StripTags(s[1..]))[1..] == StripTags(s[1..]);
      }
    }
  }

  /** Text without '<' passes unchanged. */
  lemma {:induction false} StripTagsPlain(s: string)
    requires '<' !in s
    ensures StripTags(s) == s
    decreases |s|
  {
    if s != [] {
      assert '<' !in s[1..];
      StripTagsPlain(s[1..]);
    }
  }

  /** `replace(/&[^;]+;/g, '')`: an '&', at least one character other
      than ';', and the first ';' after them form an entity. */
  function StripEntities(s: string): (r: string)
    ensures |r| <= |s|
    decreases |s|
  {
    if s == [] then []
    else if s[0] == '&' && |s| >= 2 && s[1] != ';' && ';' in s[2..] then
      StripEntities(s[2 + IndexOf(s[2..], ';') + 1..])
    else [s[0]] + StripEntities(s[1..])
  }

  /** Text without '&' passes unchanged. */
  lemma {:induction false} StripEntitiesPlain(s: string)
    requires '&' !in s
    ensures StripEntities(s) == s
    decreases |s|
  {
    if s != [] {
      assert '&' !in s[1..];
      StripEntitiesPlain(s[1..]);
    }
  }

  // ---------------------------------------------------------------------
  // Feed items
  // ---------------------------------------------------------------------

  /** `/^https?:\/\/.+/i`: "http://" or "https://" in any case, then a
      character that `.` matches. */
  predicate IsHttpUrl(s: string) {
    (StartsWithCI(s, "http://") && |s| > 7 && !IsLineTerminator(s[7]))
    || (StartsWithCI(s, "https://") && |s| > 8 && !IsLineTerminator(s[8]))
  }

  /** Cutting a URL to a length of at least nine keeps it a URL. */
  lemma HttpUrlPrefix(s: string, n: nat)
    requires n >= 9
    ensures IsHttpUrl(s) ==> IsHttpUrl(Prefix(s, n))
  {
    var r := Prefix(s, n);
    assert |r| >= 9 || r == s;
    assert forall i :: 0 <= i < |r| ==> r[i] == s[i];
  }

  /** One feed of `RSS_FEEDS`. */
  datatype Feed = Feed(name: string, url: string, category: string)

  const RssFeeds: seq<Feed> := [
    Feed("TechCrunch AI", "https://techcrunch.com/tag/artificial-intelligence/feed/", "Technology"),
    Feed("VentureBeat AI", "https://venturebeat.com/category/ai/feed/", "Technology"),
    Feed("MIT Technology Review", "https://www.technologyreview.com/topic/artificial-intelligence/feed", "Research"),
    Feed("Ars Technica AI", "https://arstechnica.com/tag/artificial-intelligence/feed/", "Technology"),
    Feed("AI News", "https://www.artificialintelligence-news.com/feed/", "Technology")
  ]

  /** What the regular expressions capture from one `<item>` block; a
      capture that is missing or empty is "". */
  datatype RawItem = RawItem(title: string, link: string, description: string, pubDate: string, imageUrl: string)

  /** `RSSArticle`. */
  datatype RssArticle = RssArticle(
    title: string, link: string, description: string, pubDate: string,
    source: string, category: string, imageUrl: Option<string>)

  const MaxTitle := 200
  const MaxLink := 500
  const MaxDescription := 300
  const MaxImageUrl := 500

  /** The description text: tags, then entities, then the sanitising, cut
      to 300 characters when the article is pushed. */
  function CleanDescription(raw: string): (r: string)
    ensures |r| <= MaxDescription && NoAngle(r)
    ensures '<' !in raw && '&' !in raw ==> r == Prefix(Sanitize(raw), MaxDescription)
  {
    var d := Sanitize(StripEntities(StripTags(raw)));
    var r := Prefix(d, MaxDescription);
    NoAngleInfix(d, 0, |r|);
    assert '<' !in raw && '&' !in raw ==> d == Sanitize(raw) by {
      if '<' !in raw && '&' !in raw {
        StripTagsPlain(raw);
        StripEntitiesPlain(raw);
      }
    }
    r
  }

  /** The description as the corrected sanitiser would leave it. */
  function CleanDescriptionStrict(raw: string): (r: string)
    ensures |r| <= MaxDescription && NoAngle(r) && NoJs(r) && NoHandler(r)
  {
    var d := SanitizeStrict(StripEntities(StripTags(raw)));
    var r := Prefix(d, MaxDescription);
    InfixClean(d, 0, |r|);
    NoAngleInfix(d, 0, |r|);
    r
  }

  /** What an accepted article promises: bounded fields without angle
      brackets, an http(s) link and image, and the feed's name and
      category. */
  predicate ValidArticle(a: RssArticle, feed: Feed) {
    && 0 < |a.title| <= MaxTitle && NoAngle(a.title)
    && |a.link| <= MaxLink && IsHttpUrl(a.link)
    && |a.description| <= MaxDescription && NoAngle(a.description)
    && (a.imageUrl.Some? ==> |a.imageUrl.value| <= MaxImageUrl && IsHttpUrl(a.imageUrl.value))
    && a.source == feed.name && a.category == feed.category
  }

  /** The body of the item loop once the title and the description are
      sanitised: the item is kept when the title is not empty and the
      trimmed link is an http(s) URL; `now` stands for
      `new Date().toISOString()`, used when the item has no date. */
  function Accept(title: string, description: string, raw: RawItem, feed: Feed, now: string): (r: Option<RssArticle>)
    requires NoAngle(title) && |description| <= MaxDescription && NoAngle(description)
    ensures r.Some? <==> title != [] && IsHttpUrl(Trim(raw.link))
    ensures r.Some? ==> ValidArticle(r.value, feed)
    ensures r.Some? ==> r.value.title == Prefix(title, MaxTitle) && r.value.description == description
    ensures r.Some? ==> r.value.pubDate == Trim(if raw.pubDate != [] then raw.pubDate else now)
    ensures r.Some? ==> (r.value.imageUrl.Some? <==> IsHttpUrl(Trim(raw.imageUrl)))
  {
    var link := Trim(raw.link);
    var image := Trim(raw.imageUrl);
    if title != [] && link != [] && IsHttpUrl(link) then
      var t := Prefix(title, MaxTitle);
      NoAngleInfix(title, 0, |t|);
      HttpUrlPrefix(link, MaxLink);
      HttpUrlPrefix(image, MaxImageUrl);
      Some(RssArticle(
        t, Prefix(link, MaxLink), description,
        Trim(if raw.pubDate != [] then raw.pubDate else now),
        feed.name, feed.category,
        if image != [] && IsHttpUrl(image) then Some(Prefix(image, MaxImageUrl)) else None))
    else None
  }

  /** The item loop's body as written: title and description go through
      the single-pass `sanitize`. */
  function ParseItem(raw: RawItem, feed: Feed, now: string): (r: Option<RssArticle>)
    ensures r.Some? <==> Sanitize(raw.title) != [] && IsHttpUrl(Trim(raw.link))
    ensures r.Some? ==> ValidArticle(r.value, feed)
    ensures r.Some? ==> r.value.title == Prefix(Sanitize(raw.title), MaxTitle)
    ensures r.Some? ==> r.value.pubDate == Trim(if raw.pubDate != [] then raw.pubDate else now)
    ensures r.Some? ==> (r.value.imageUrl.Some? <==> IsHttpUrl(Trim(raw.imageUrl)))
  {
    Accept(Sanitize(raw.title), CleanDescription(raw.description), raw, feed, now)
  }

  /** An item titled "javajavascript:script:" with an http(s) link is kept,
      and its stored title is the protocol itself. */
  lemma ParseItemKeepsProtocol(raw: RawItem, feed: Feed, now: string)
    requires raw.title == "javajavascript:script:" && raw.link == "https://example.org/a"
    ensures ParseItem(raw, feed, now).Some?
    ensures ParseItem(raw, feed, now).value.title == JsProtocol
  {
    assert raw.title == "java" + JsProtocol + "script:";
    SanitizeRebuildsProtocol("java", "script:");
    SampleLinkIsHttp(raw.link);
  }

  /** The sample link is an http(s) URL once trimmed. */
  lemma SampleLinkIsHttp(link: string)
    requires link == "https://example.org/a"
    ensures IsHttpUrl(Trim(link))
  {
    TrimOfTrimmed(link);
    assert StartsWithCI(link, "https://") by {
      forall i | 0 <= i < 8
        ensures LowerChar(link[i]) == "https://"[i]
      {
        assert link[i] == "https://"[i];
      }
    }
  }

  /** The item loop's body with the corrected sanitiser: a kept article's
      title and description hold neither `javascript:` nor a handler. */
  function ParseItemStrict(raw: RawItem, feed: Feed, now: string): (r: Option<RssArticle>)
    ensures r.Some? <==> SanitizeStrict(raw.title) != [] && IsHttpUrl(Trim(raw.link))
    ensures r.Some? ==> ValidArticle(r.value, feed)
    ensures r.Some? ==> NoJs(r.value.title) && NoHandler(r.value.title)
    ensures r.Some? ==> NoJs(r.value.description) && NoHandler(r.value.description)
  {
    var title := SanitizeStrict(raw.title);
    var r := Accept(title, CleanDescriptionStrict(raw.description), raw, feed, now);
    if r.Some? then InfixClean(title, 0, |r.value.title|); r else r
  }

  /** `parseItem` for one feed, at the time `now`. */
  function ItemParser(feed: Feed, now: string): RawItem -> Option<RssArticle> {
    (item: RawItem) => ParseItem(item, feed, now)
  }

  /** The articles the item loop pushes, in item order. */
  function KeptArticles(items: seq<RawItem>, feed: Feed, now: string): (r: seq<RssArticle>)
    ensures |r| <= |items|
    ensures forall i :: 0 <= i < |r| ==> ValidArticle(r[i], feed)
  {
    var parse := ItemParser(feed, now);
    var r := FilterMap(items, parse);
    assert forall i :: 0 <= i < |r| ==> ValidArticle(r[i], feed) by {
      forall i | 0 <= i < |r|
        ensures ValidArticle(r[i], feed)
      {
        FilterMapMembers(items, parse, r[i]);
        var j :| 0 <= j < |items| && parse(items[j]) == Some(r[i]);
      }
    }
    r
  }

  /** An article is kept exactly when some item parses to it. */
  lemma KeptArticlesMembers(items: seq<RawItem>, feed: Feed, now: string, a: RssArticle)
    ensures a in KeptArticles(items, feed, now) <==> exists i :: 0 <= i < |items| && ParseItem(items[i], feed, now) == Some(a)
  {
    FilterMapMembers(items, ItemParser(feed, now), a);
  }

  const MaxFeedLength := 5000000
  const MaxPerFeed := 5

  /** What `parseRSSFeed` returns: nothing when the fetch failed (`fetched`
      is `None`) or the document is longer than five million characters,
      otherwise the first five kept articles. `extract` stands for the
      regular expressions that cut the document into items. */
  function FeedArticles(fetched: Option<string>, extract: string -> seq<RawItem>, feed: Feed, now: string): (r: seq<RssArticle>)
    ensures |r| <= MaxPerFeed
    ensures forall i :: 0 <= i < |r| ==> ValidArticle(r[i], feed)
    ensures fetched.None? ==> r == []
  {
    if fetched.None? || |fetched.value| > MaxFeedLength then []
    else Take(KeptArticles(extract(fetched.value), feed, now), MaxPerFeed)
  }

  /** `parseRSSFeed`: the item loop pushes each accepted article. */
  method ParseRssFeed(fetched: Option<string>, extract: string -> seq<RawItem>, feed: Feed, now: string)
    returns (articles: seq<RssArticle>)
    ensures articles == FeedArticles(fetched, extract, feed, now)
  {
    if fetched.None? || |fetched.value| > MaxFeedLength {
      return [];
    }
    var kept := Collect(extract(fetched.value), ItemParser(feed, now));
    articles := Take(kept, MaxPerFeed);
  }

  /** Every article gathered from `feeds`, feed by feed. `fetch` stands for
      the request of a feed's URL. */
  function AllArticles(feeds: seq<Feed>, fetch: string -> Option<string>, extract: string -> seq<RawItem>, now: string)
    : (r: seq<RssArticle>)
  {
    FlatMap(feeds, (feed: Feed) => FeedArticles(fetch(feed.url), extract, feed, now))
  }

  /** At most five articles per feed, each valid for the feed it came
      from. */
  lemma AllArticlesValid(feeds: seq<Feed>, fetch: string -> Option<string>, extract: string -> seq<RawItem>, now: string)
    ensures var all := AllArticles(feeds, fetch, extract, now);
      && |all| <= MaxPerFeed * |feeds|
      && forall a :: a in all ==> exists k :: 0 <= k < |feeds| && ValidArticle(a, feeds[k])
  {
    var f := (feed: Feed) => FeedArticles(fetch(feed.url), extract, feed, now);
    assert forall j :: 0 <= j < |feeds| ==> |f(feeds[j])| <= MaxPerFeed by {
      forall j | 0 <= j < |feeds|
        ensures |f(feeds[j])| <= MaxPerFeed
      {
        assert f(feeds[j]) == FeedArticles(fetch(feeds[j].url), extract, feeds[j], now);
      }
    }
    FlatMapLength(feeds, f, MaxPerFeed);
    forall a | a in FlatMap(feeds, f)
      ensures exists k :: 0 <= k < |feeds| && ValidArticle(a, feeds[k])
    {
      FlatMapMembers(feeds, f, a);
      var k :| 0 <= k < |feeds| && a in f(feeds[k]);
      var got := FeedArticles(fetch(feeds[k].url), extract, feeds[k], now);
      assert f(feeds[k]) == got;
      var i :| 0 <= i < |got| && got[i] == a;
      assert ValidArticle(got[i], feeds[k]);
    }
  }

  // ---------------------------------------------------------------------
  // Analysis and publishing
  // ---------------------------------------------------------------------

  /** The fields of the parsed model reply that the handler reads; a
      missing text is "" and a missing flag false. */
  datatype Analysis = Analysis(summary: string, importance: int, category: string, shouldPublish: bool, headline: string)

  /** A row for `news_articles`. */
  datatype NewsItem = NewsItem(
    title: string, summary: string, category: string, source: string, sourceUrl: string,
    imageUrl: string, importance: int, featured: bool, publishedAt: string)

  const MinImportance := 7
  const FeaturedImportance := 9
  const MaxAnalysed := 20
  const MaxSummaryFallback := 200
  const DefaultImage := "https://images.unsplash.com/photo-1677442136019-21780ecad995?w=800&h=600&fit=crop"

  predicate Publishable(an: Analysis) {
    an.shouldPublish && an.importance >= MinImportance
  }

  /** The row built for a publishable analysis; `publishedAt` is the
      article's date in ISO form. */
  function ToNewsItem(a: RssArticle, an: Analysis, publishedAt: string): (item: NewsItem)
    ensures item.title == (if an.headline != [] then an.headline else a.title)
    ensures item.summary == (if an.summary != [] then an.summary else Prefix(a.description, MaxSummaryFallback))
    ensures item.category == (if an.category != [] then an.category else a.category)
    ensures item.source == a.source && item.sourceUrl == a.link && item.publishedAt == publishedAt
    ensures item.imageUrl == (if a.imageUrl.Some? && a.imageUrl.value != [] then a.imageUrl.value else DefaultImage)
    ensures item.importance == an.importance && (item.featured <==> an.importance >= FeaturedImportance)
  {
    NewsItem(
      if an.headline != [] then an.headline else a.title,
      if an.summary != [] then an.summary else Prefix(a.description, MaxSummaryFallback),
      if an.category != [] then an.category else a.category,
      a.source, a.link,
      if a.imageUrl.Some? && a.imageUrl.value != [] then a.imageUrl.value else DefaultImage,
      an.importance, an.importance >= FeaturedImportance, publishedAt)
  }

  /** One pass of the article loop. `llm` is the model's reply, `None` when
      the key is missing, the request failed or the reply had no content;
      `parse` is `JSON.parse`, `None` when it throws; `isoDate` is
      `new Date(d).toISOString()`, `None` when the date is invalid. Any of
      these failing skips the article. */
  function ProcessArticle(a: RssArticle, llm: RssArticle -> Option<string>,
                          parse: string -> Option<Analysis>, isoDate: string -> Option<string>): (r: Option<NewsItem>)
    ensures r.Some? <==>
      && llm(a).Some?
      && parse(Editorial.CleanJsonText(llm(a).value)).Some?
      && Publishable(parse(Editorial.CleanJsonText(llm(a).value)).value)
      && isoDate(a.pubDate).Some?
    ensures r.Some? ==>
      r.value == ToNewsItem(a, parse(Editorial.CleanJsonText(llm(a).value)).value, isoDate(a.pubDate).value)
  {
    var reply := llm(a);
    if reply.None? then None
    else
      var an := parse(Editorial.CleanJsonText(reply.value));
      if an.None? || !Publishable(an.value) then None
      else
        var date := isoDate(a.pubDate);
        if date.None? then None else Some(ToNewsItem(a, an.value, date.value))
  }

  /** The rows the article loop collects, in article order. */
  function Published(articles: seq<RssArticle>, llm: RssArticle -> Option<string>,
                     parse: string -> Option<Analysis>, isoDate: string -> Option<string>): (r: seq<NewsItem>)
  {
    FilterMap(articles, Processor(llm, parse, isoDate))
  }

  /** The analysis of one article, with the model, the reply parser and the
      date conversion fixed. */
  function Processor(llm: RssArticle -> Option<string>, parse: string -> Option<Analysis>,
                     isoDate: string -> Option<string>): RssArticle -> Option<NewsItem> {
    (a: RssArticle) => ProcessArticle(a, llm, parse, isoDate)
  }

  /** Every row comes from one of the articles, at most one per article,
      and is publishable: importance at least seven, featured exactly from
      nine. */
  lemma PublishedRows(articles: seq<RssArticle>, llm: RssArticle -> Option<string>,
                      parse: string -> Option<Analysis>, isoDate: string -> Option<string>)
    ensures var r := Published(articles, llm, parse, isoDate);
      && |r| <= |articles|
      && forall item: NewsItem :: item in r ==>
        && item.importance >= MinImportance && (item.featured <==> item.importance >= FeaturedImportance)
        && exists j :: 0 <= j < |articles| && ProcessArticle(articles[j], llm, parse, isoDate) == Some(item)
  {
    var f := Processor(llm, parse, isoDate);
    forall item: NewsItem | item in FilterMap(articles, f)
      ensures item.importance >= MinImportance && (item.featured <==> item.importance >= FeaturedImportance)
      ensures exists j :: 0 <= j < |articles| && ProcessArticle(articles[j], llm, parse, isoDate) == Some(item)
    {
      FilterMapMembers(articles, f, item);
      var j :| 0 <= j < |articles| && f(articles[j]) == Some(item);
    }
  }

  /** A reply wrapped in a code fence is read as the payload inside it. */
  lemma FencedReplyIsRead(a: RssArticle, llm: RssArticle -> Option<string>, parse: string -> Option<Analysis>,
                          isoDate: string -> Option<string>, lang: string, payload: string)
    requires forall i :: 0 <= i < |lang| ==> IsAsciiLetter(lang[i])
    requires IsTrimmed(payload)
    requires llm(a) == Some("```" + (lang + ("\n" + (payload + "\n```"))))
    ensures ProcessArticle(a, llm, parse, isoDate).Some? <==>
      parse(payload).Some? && Publishable(parse(payload).value) && isoDate(a.pubDate).Some?
  {
    Editorial.CleanFencedReply(lang, payload);
  }

  /** What a run of the function ends with. */
  datatype Outcome =
    | NoArticles         // no feed gave an article
    | NothingToAdd       // no analysed article was publishable
    | Added(items: seq<NewsItem>)
    | InsertFailed(items: seq<NewsItem>)

  /** The request handler: gather the five feeds, analyse the first twenty
      articles, and insert the rows (`insert` says whether the insert
      succeeded). */
  method AggregateAiNews(fetch: string -> Option<string>, extract: string -> seq<RawItem>, now: string,
                         llm: RssArticle -> Option<string>, parse: string -> Option<Analysis>,
                         isoDate: string -> Option<string>, insert: seq<NewsItem> -> bool)
    returns (out: Outcome)
    ensures var all := AllArticles(RssFeeds, fetch, extract, now);
      var items := Published(Take(all, MaxAnalysed), llm, parse, isoDate);
      out == if all == [] then NoArticles
             else if items == [] then NothingToAdd
             else if insert(items) then Added(items)
             else InsertFailed(items)
  {
    var all := GatherFeeds(RssFeeds, fetch, extract, now);
    if all == [] {
      return NoArticles;
    }
    var items := AnalyseArticles(Take(all, MaxAnalysed), llm, parse, isoDate);
    if items == [] {
      return NothingToAdd;
    }
    out := if insert(items) then Added(items) else InsertFailed(items);
  }

  /** The feed loop: each feed's articles are appended in turn. */
  method GatherFeeds(feeds: seq<Feed>, fetch: string -> Option<string>, extract: string -> seq<RawItem>, now: string)
    returns (all: seq<RssArticle>)
    ensures all == AllArticles(feeds, fetch, extract, now)
  {
    all := [];
    ghost var perFeed := (feed: Feed) => FeedArticles(fetch(feed.url), extract, feed, now);
    var f := 0;
    while f < |feeds|
      invariant 0 <= f <= |feeds|
      invariant all == FlatMap(feeds[..f], perFeed)
    {
      var feed := feeds[f];
      var articles := ParseRssFeed(fetch(feed.url), extract, feed, now);
      FlatMapSnoc(feeds[..f], feed, perFeed);
      TakeSnoc(feeds, f);
      all := all + articles;
      f := f + 1;
    }
    assert feeds[..f] == feeds;
  }

  /** The article loop, run by `Collect`: each publishable analysis becomes
      a row, in article order. */
  method AnalyseArticles(batch: seq<RssArticle>, llm: RssArticle -> Option<string>,
                         parse: string -> Option<Analysis>, isoDate: string -> Option<string>)
    returns (items: seq<NewsItem>)
    ensures items == Published(batch, llm, parse, isoDate)
  {
    items := Collect(batch, Processor(llm, parse, isoDate));
  }

  /** A run inserts at most twenty rows, every one of them publishable, and
      at most one per gathered article. */
  lemma RunBounds(fetch: string -> Option<string>, extract: string -> seq<RawItem>, now: string,
                  llm: RssArticle -> Option<string>, parse: string -> Option<Analysis>,
                  isoDate: string -> Option<string>)
    ensures var all := AllArticles(RssFeeds, fetch, extract, now);
      var items := Published(Take(all, MaxAnalysed), llm, parse, isoDate);
      |all| <= MaxPerFeed * |RssFeeds| && |items| <= MaxAnalysed && |items| <= |all|
  {
    AllArticlesValid(RssFeeds, fetch, extract, now);
    PublishedRows(Take(AllArticles(RssFeeds, fetch, extract, now), MaxAnalysed), llm, parse, isoDate);
  }
}
