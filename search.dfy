/**
 * The client's search normaliser (src/lib/search.ts): a query is trimmed,
 * the characters that Supabase filters reserve become spaces, whitespace
 * runs collapse to one space, and the result is cut to 120 characters.
 */
module Search {
  import opened Text

  /** `[%_,()'"]`. */
  predicate IsReserved(c: char) {
    c == '%' || c == '_' || c == ',' || c == '(' || c == ')' || c == '\'' || c == '"'
  }

  const MaxQueryLength := 120

  /** `normalizeSearchQuery` as written: the trim comes before the
      replacement, so reserved characters at either end leave a space
      there. */
  function NormalizeSearchQuery(query: string): (r: string)
    ensures Trim(query) == [] ==> r == []
    ensures |r| <= MaxQueryLength
    ensures forall i :: 0 <= i < |r| ==> !IsReserved(r[i])
    ensures SingleSpaced(r)
  {
    if query == [] then []
    else
      var trimmed := Trim(query);
      if trimmed == [] then []
      else
        var replaced := ReplaceChars(trimmed, IsReserved, ' ');
        assert AllChars(replaced, IsFree);
        CollapseAndCut(replaced)
  }

  predicate IsFree(c: char) {
    !IsReserved(c)
  }

  /** `.replace(/\s+/g, ' ').slice(0, 120)`, the tail of the chain: it
      leaves no double space and brings back no reserved character. */
  function CollapseAndCut(s: string): (r: string)
    ensures |r| <= MaxQueryLength && SingleSpaced(r)
    ensures AllChars(s, IsFree) ==> AllChars(r, IsFree)
  {
    var c := Collapse(s);
    var r := Prefix(c, MaxQueryLength);
    InfixSingleSpaced(c, 0, |r|);
    assert c[0..|r|] == r;
    if AllChars(s, IsFree) then
      CollapseKeeps(s, IsFree);
      InfixKeeps(c, 0, |r|, IsFree);
      r
    else r
  }

  /** `normalizeSearchQuery` as evidently intended: the same chain with
      the trim applied last, so the result has no surrounding space. */
  function NormalizeSearchQueryTrimmed(query: string): (r: string)
    ensures Trim(query) == [] ==> r == []
    ensures |r| <= MaxQueryLength
    ensures forall i :: 0 <= i < |r| ==> !IsReserved(r[i])
    ensures SingleSpaced(r) && IsTrimmed(r)
  {
    var s := NormalizeSearchQuery(query);
    assert AllChars(s, IsFree);
    TrimKeeps(s, IsFree);
    TrimKeepsSingleSpaced(s);
    Trim(s)
  }

  /** A run of characters the normaliser keeps as they are: no
      whitespace and no reserved character. */
  predicate IsPlainRun(w: string) {
    w != [] && forall i :: 0 <= i < |w| ==> !IsSpace(w[i]) && !IsReserved(w[i])
  }

  /** A run of characters the normaliser turns into whitespace. */
  predicate IsGap(g: string) {
    forall i :: 0 <= i < |g| ==> IsSpace(g[i]) || IsReserved(g[i])
  }

  predicate AllReserved(g: string) {
    forall i :: 0 <= i < |g| ==> IsReserved(g[i])
  }

  predicate AllSpace(g: string) {
    forall i :: 0 <= i < |g| ==> IsSpace(g[i])
  }

  /** Two words separated by any gap, with only whitespace around them,
      come out as the two words joined by one space. */
  lemma NormalizeSpacedWords(query: string, pre: string, a: string, gap: string, b: string, post: string)
    requires AllSpace(pre) && AllSpace(post)
    requires IsPlainRun(a) && IsPlainRun(b) && IsGap(gap) && gap != []
    requires query == pre + a + gap + b + post
    requires |a| + |b| + 1 <= MaxQueryLength
    ensures NormalizeSearchQuery(query) == a + " " + b
  {
    var inner := a + (gap + b);
    Regroup(pre, a, gap, b, post);
    Regroup3(pre, inner, post);
    TrimSpacedWords(pre, a, gap, b, post);
    var spaces := ReplaceChars(gap, IsReserved, ' ');
    ReplaceThree(a, gap, b);
    GapSpaces(gap);
    CollapseThree(a, spaces, b);
    Regroup3(a, " ", b);
    NormalizeSteps(query, inner, a + (spaces + b), a + " " + b);
  }

  /** Two words with reserved characters around and between them: the
      characters at the ends become spaces that the code as written keeps,
      since it trims before it replaces. The version that trims last
      returns the two words joined by one space. */
  lemma NormalizeReservedEnds(query: string, pre: string, a: string, gap: string, b: string, post: string)
    requires AllReserved(pre) && AllReserved(post) && pre != [] && post != []
    requires IsPlainRun(a) && IsPlainRun(b) && IsGap(gap) && gap != []
    requires query == pre + a + gap + b + post
    requires |a| + |b| + 3 <= MaxQueryLength
    ensures NormalizeSearchQuery(query) == " " + a + " " + b + " "
    ensures NormalizeSearchQueryTrimmed(query) == a + " " + b
  {
    var out := " " + a + " " + b + " ";
    ReservedEndsKept(query, pre, a, gap, b, post);
    assert Trim(out) == a + " " + b by {
      Regroup(" ", a, " ", b, " ");
      TrimSpaced(a, b);
    }
  }

  lemma ReservedEndsKept(query: string, pre: string, a: string, gap: string, b: string, post: string)
    requires AllReserved(pre) && AllReserved(post) && pre != [] && post != []
    requires IsPlainRun(a) && IsPlainRun(b) && IsGap(gap) && gap != []
    requires query == pre + a + gap + b + post
    requires |a| + |b| + 3 <= MaxQueryLength
    ensures NormalizeSearchQuery(query) == " " + a + " " + b + " "
  {
    var replaced := ReplaceChars(pre, IsReserved, ' ') + (a + (ReplaceChars(gap, IsReserved, ' ')
                    + (b + ReplaceChars(post, IsReserved, ' '))));
    var out := " " + a + " " + b + " ";
    assert IsTrimmed(query) by {
      Regroup(pre, a, gap, b, post);
      ReservedEndsTrimmed(query, pre, post);
    }
    assert ReplaceChars(query, IsReserved, ' ') == replaced by {
      Regroup(pre, a, gap, b, post);
      ReplaceFive(pre, a, gap, b, post);
    }
    assert Collapse(replaced) == out && |out| <= MaxQueryLength by {
      ReservedCollapsed(pre, a, gap, b, post);
    }
    assert query != [] by {
      Regroup(pre, a, gap, b, post);
    }
    NormalizeTrimmedSteps(query, replaced, out);
  }

  lemma ReservedCollapsed(pre: string, a: string, gap: string, b: string, post: string)
    requires pre != [] && post != [] && gap != []
    requires IsGap(pre) && IsGap(gap) && IsGap(post) && IsPlainRun(a) && IsPlainRun(b)
    ensures Collapse(ReplaceChars(pre, IsReserved, ' ') + (a + (ReplaceChars(gap, IsReserved, ' ')
              + (b + ReplaceChars(post, IsReserved, ' '))))) == " " + a + " " + b + " "
  {
    GapSpaces(pre);
    GapSpaces(gap);
    GapSpaces(post);
    CollapseFive(ReplaceChars(pre, IsReserved, ' '), a, ReplaceChars(gap, IsReserved, ' '), b,
                 ReplaceChars(post, IsReserved, ' '));
    Regroup(" ", a, " ", b, " ");
  }

  lemma TrimSpacedWords(pre: string, a: string, gap: string, b: string, post: string)
    requires AllSpace(pre) && AllSpace(post)
    requires IsPlainRun(a) && IsPlainRun(b)
    ensures Trim(pre + ((a + (gap + b)) + post)) == a + (gap + b)
  {
    var inner := a + (gap + b);
    assert inner[0] == a[0] && inner[|inner| - 1] == b[|b| - 1];
    TrimAround(pre, inner, post);
  }

  lemma ReservedEndsTrimmed(query: string, pre: string, post: string)
    requires AllReserved(pre) && AllReserved(post) && pre != [] && post != []
    requires |pre| + |post| <= |query|
    requires query[..|pre|] == pre && query[|query| - |post|..] == post
    ensures IsTrimmed(query)
  {
    assert query[0] == pre[0];
    assert query[|query| - 1] == post[|post| - 1];
  }

  lemma TrimSpaced(a: string, b: string)
    requires IsPlainRun(a) && IsPlainRun(b)
    ensures Trim(" " + (a + (" " + (b + " ")))) == a + " " + b
  {
    var word := a + " " + b;
    Regroup3(a, " ", b);
    assert " " + (a + (" " + (b + " "))) == " " + (word + " ");
    assert word[0] == a[0] && word[|word| - 1] == b[|b| - 1];
    TrimAround(" ", word, " ");
  }

  lemma ReplaceThree(a: string, gap: string, b: string)
    requires IsPlainRun(a) && IsPlainRun(b)
    ensures ReplaceChars(a + (gap + b), IsReserved, ' ')
         == a + (ReplaceChars(gap, IsReserved, ' ') + b)
  {
    ReplaceKeeps(a, IsReserved);
    ReplaceKeeps(b, IsReserved);
    ReplaceSplit(a, gap + b, IsReserved);
    ReplaceSplit(gap, b, IsReserved);
  }

  lemma ReplaceFive(pre: string, a: string, gap: string, b: string, post: string)
    requires IsPlainRun(a) && IsPlainRun(b)
    ensures ReplaceChars(pre + (a + (gap + (b + post))), IsReserved, ' ')
         == ReplaceChars(pre, IsReserved, ' ') + (a + (ReplaceChars(gap, IsReserved, ' ')
            + (b + ReplaceChars(post, IsReserved, ' '))))
  {
    ReplaceKeeps(a, IsReserved);
    ReplaceKeeps(b, IsReserved);
    ReplaceSplit(pre, a + (gap + (b + post)), IsReserved);
    ReplaceSplit(a, gap + (b + post), IsReserved);
    ReplaceSplit(gap, b + post, IsReserved);
    ReplaceSplit(b, post, IsReserved);
  }

  /** Every character of a gap comes out of the replacement as whitespace. */
  lemma GapSpaces(g: string)
    requires IsGap(g)
    ensures AllSpace(ReplaceChars(g, IsReserved, ' '))
  {
  }

  lemma CollapseThree(a: string, sp: string, b: string)
    requires IsPlainRun(a) && IsPlainRun(b) && AllSpace(sp) && sp != []
    ensures Collapse(a + (sp + b)) == a + (" " + b)
  {
    assert Collapse(b) == b by {
      CollapseWord(b, []);
      assert b + [] == b;
    }
    CollapseSpaces(sp, b);
    CollapseWord(a, sp + b);
  }

  lemma CollapseFive(s1: string, a: string, s2: string, b: string, s3: string)
    requires IsPlainRun(a) && IsPlainRun(b)
    requires AllSpace(s1) && AllSpace(s2) && AllSpace(s3)
    requires s1 != [] && s2 != [] && s3 != []
    ensures Collapse(s1 + (a + (s2 + (b + s3)))) == " " + (a + (" " + (b + " ")))
  {
    assert Collapse(s3) == " " by {
      CollapseSpaces(s3, []);
      assert s3 + [] == s3;
    }
    CollapseWord(b, s3);
    CollapseSpaces(s2, b + s3);
    CollapseWord(a, s2 + (b + s3));
    CollapseSpaces(s1, a + (s2 + (b + s3)));
  }

  lemma Regroup<T>(x: seq<T>, a: seq<T>, y: seq<T>, b: seq<T>, z: seq<T>)
    ensures x + a + y + b + z == x + (a + (y + (b + z)))
    ensures x + a + y + b + z == x + ((a + (y + b)) + z)
    ensures |x + a + y + b + z| == |x| + |a| + |y| + |b| + |z|
    ensures (x + a + y + b + z)[..|x|] == x
    ensures (x + a + y + b + z)[|x + a + y + b + z| - |z|..] == z
  {
  }

  lemma Regroup3<T>(x: seq<T>, a: seq<T>, y: seq<T>)
    ensures x + a + y == x + (a + y)
  {
  }

  /** The first sample: commas between words become one space, and the
      outer spaces are trimmed away. */
  lemma CommaSample(query: string, pre: string, a: string, gap: string, b: string, post: string)
    requires pre == "  " && a == "OpenAI" && gap == ",,,, " && b == "GPT-5" && post == " "
    requires query == pre + a + gap + b + post
    ensures NormalizeSearchQuery(query) == a + " " + b
  {
    Printable(a);
    Printable(b);
    NormalizeSpacedWords(query, pre, a, gap, b, post);
  }

  /** The sample expecting "weird query": the code as written returns
      " weird query ", the version that trims last returns "weird query". */
  lemma ReservedEndsSample(query: string, pre: string, a: string, gap: string, b: string, post: string)
    requires pre == "%" && a == "weird" && gap == "_" && b == "query" && post == "(_)"
    requires query == pre + a + gap + b + post
    ensures NormalizeSearchQuery(query) == " " + a + " " + b + " "
    ensures NormalizeSearchQueryTrimmed(query) == a + " " + b
  {
    Printable(a);
    Printable(b);
    NormalizeReservedEnds(query, pre, a, gap, b, post);
  }

  // ---------------------------------------------------------------------
  // Helpers for the samples
  // ---------------------------------------------------------------------

  /** The normaliser, followed step by step. */
  lemma NormalizeSteps(query: string, trimmed: string, replaced: string, collapsed: string)
    requires Trim(query) == trimmed && trimmed != []
    requires ReplaceChars(trimmed, IsReserved, ' ') == replaced
    requires Collapse(replaced) == collapsed && |collapsed| <= MaxQueryLength
    ensures NormalizeSearchQuery(query) == collapsed
  {
    assert query != [];
  }

  lemma NormalizeTrimmedSteps(query: string, replaced: string, collapsed: string)
    requires IsTrimmed(query) && query != []
    requires ReplaceChars(query, IsReserved, ' ') == replaced
    requires Collapse(replaced) == collapsed && |collapsed| <= MaxQueryLength
    ensures NormalizeSearchQuery(query) == collapsed
  {
    TrimOfTrimmed(query);
    NormalizeSteps(query, query, replaced, collapsed);
  }

  /** Visible ASCII characters are not whitespace. */
  lemma Printable(w: string)
    requires forall i :: 0 <= i < |w| ==> '!' <= w[i] <= '~'
    ensures forall i :: 0 <= i < |w| ==> !IsSpace(w[i])
  {
  }

  /** Text with no reserved character passes the replacement unchanged. */
  lemma ReplaceKeeps(s: string, hit: char -> bool)
    requires forall i :: 0 <= i < |s| ==> !hit(s[i])
    ensures ReplaceChars(s, hit, ' ') == s
  {
  }

  lemma ReplaceSplit(a: string, b: string, hit: char -> bool)
    ensures ReplaceChars(a + b, hit, ' ') == ReplaceChars(a, hit, ' ') + ReplaceChars(b, hit, ' ')
  {
  }

  /** A word passes the collapse unchanged. */
  lemma {:induction false} CollapseWord(w: string, rest: string)
    requires forall i :: 0 <= i < |w| ==> !IsSpace(w[i])
    ensures Collapse(w + rest) == w + Collapse(rest)
    decreases |w|
  {
    if w != [] {
      ConsSplit(w, rest);
      CollapseCons(w[0], w[1..] + rest);
      CollapseWord(w[1..], rest);
      ConsSplit(w, Collapse(rest));
    } else {
      assert w + rest == rest;
    }
  }

  /** A run of spaces before a word becomes one space. */
  lemma CollapseSpaces(sp: string, rest: string)
    requires sp != [] && forall i :: 0 <= i < |sp| ==> IsSpace(sp[i])
    requires rest == [] || !IsSpace(rest[0])
    ensures Collapse(sp + rest) == " " + Collapse(rest)
  {
    SkipSpaces(sp, rest);
    assert (sp + rest)[0] == sp[0];
  }

  lemma {:induction false} SkipSpaces(sp: string, rest: string)
    requires forall i :: 0 <= i < |sp| ==> IsSpace(sp[i])
    requires rest == [] || !IsSpace(rest[0])
    ensures TrimStart(sp + rest) == rest
    decreases |sp|
  {
    if sp == [] {
      assert sp + rest == rest;
      TrimStartOfTrimmed(rest);
    } else {
      assert (sp + rest)[1..] == sp[1..] + rest;
      SkipSpaces(sp[1..], rest);
      assert TrimStart(sp + rest) == TrimStart(sp[1..] + rest);
    }
  }

  /** Trimming removes surrounding whitespace around a trimmed text. */
  lemma TrimAround(pre: string, s: string, post: string)
    requires forall i :: 0 <= i < |pre| ==> IsSpace(pre[i])
    requires forall i :: 0 <= i < |post| ==> IsSpace(post[i])
    requires s != [] && !IsSpace(s[0]) && !IsSpace(s[|s| - 1])
    ensures Trim(pre + (s + post)) == s
  {
    SkipSpaces(pre, s + post);
    assert (s + post)[0] == s[0];
    TrimEndAround(s, post);
    TrimStartOfTrimmed(s);
  }

  lemma {:induction false} TrimEndAround(s: string, post: string)
    requires forall i :: 0 <= i < |post| ==> IsSpace(post[i])
    requires s != [] && !IsSpace(s[|s| - 1])
    ensures TrimEnd(s + post) == s
    decreases |post|
  {
    if post == [] {
      assert s + post == s;
      TrimEndOfTrimmed(s);
    } else {
      var shorter := post[..|post| - 1];
      assert (s + post)[..|s + post| - 1] == s + shorter;
      TrimEndAround(s, shorter);
    }
  }

  /** For a query within the cap, the normaliser keeps exactly the words of
      the query read with every reserved character as a separator: the
      maximal runs of characters that are neither whitespace nor reserved,
      in order, none dropped, none merged and none split. */
  lemma NormalizeWords(query: string)
    requires |query| <= MaxQueryLength
    ensures Words(NormalizeSearchQuery(query)) == Words(ReplaceChars(query, IsReserved, ' '))
    ensures forall k :: 0 <= k < |Words(NormalizeSearchQuery(query))| ==>
      IsPlainRun(Words(NormalizeSearchQuery(query))[k])
  {
    var r := NormalizeSearchQuery(query);
    var rT := ReplaceChars(Trim(query), IsReserved, ' ');
    ReplacedTrimWords(query);
    if Trim(query) != [] {
      assert r == Collapse(rT);
      WordsCollapse(rT);
    }
    assert SpacesOr(r, IsFree);
    WordsKeep(r, IsFree);
  }

  /** The whitespace the trim drops adds no word after the replacement. */
  lemma ReplacedTrimWords(query: string)
    ensures Words(ReplaceChars(query, IsReserved, ' ')) == Words(ReplaceChars(Trim(query), IsReserved, ' '))
  {
    var t := Trim(query);
    var a := TrimDropsSpace(query);
    var pre, post := query[..a], query[a + |t|..];
    assert query == pre + t + post;
    SpacesReplaced(pre);
    SpacesReplaced(post);
    ReplaceAround(pre, t, post);
    WordsAround(ReplaceChars(pre, IsReserved, ' '), ReplaceChars(t, IsReserved, ' '), ReplaceChars(post, IsReserved, ' '));
  }

  lemma ReplaceAround(pre: string, t: string, post: string)
    ensures ReplaceChars(pre + t + post, IsReserved, ' ')
      == ReplaceChars(pre, IsReserved, ' ') + (ReplaceChars(t, IsReserved, ' ') + ReplaceChars(post, IsReserved, ' '))
  {
    ReplaceSplit(pre + t, post, IsReserved);
    ReplaceSplit(pre, t, IsReserved);
  }

  /** Whitespace on either side adds no word. */
  lemma WordsAround(pre: string, t: string, post: string)
    requires AllChars(pre, IsSpace) && AllChars(post, IsSpace)
    ensures Words(pre + (t + post)) == Words(t)
  {
    WordsSpacePrefix(pre, t + post);
    WordsSpaceSuffix(t, post);
  }

  /** Whitespace is never reserved, so it passes the replacement as it is. */
  lemma SpacesReplaced(s: string)
    requires AllChars(s, IsSpace)
    ensures AllChars(ReplaceChars(s, IsReserved, ' '), IsSpace)
  {
  }
}
