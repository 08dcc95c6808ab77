/**
 * String operations of the JavaScript runtime that the news pipeline leans
 * on: the `\s` character class, ASCII case folding, `trim`, `startsWith`,
 * `includes`, `split`, `join` and the `replace(/\s+/g, ' ')` idiom.
 * Strings are modelled as `seq<char>`, one `char` per Unicode code point.
 * JavaScript counts and slices UTF-16 code units instead, so lengths and
 * cuts agree only on text without characters outside the Basic
 * Multilingual Plane.
 */
module Text {

  /** The characters matched by `\s` in a JavaScript regular expression and
      removed by `String.prototype.trim`: WhiteSpace and LineTerminator. */
  predicate IsSpace(c: char) {
    || c == ' ' || c == '\t' || c == '\n' || c == '\r'
    || c == '\U{000B}' || c == '\U{000C}' || c == '\U{00A0}' || c == '\U{1680}'
    || ('\U{2000}' <= c <= '\U{200A}')
    || c == '\U{2028}' || c == '\U{2029}' || c == '\U{202F}' || c == '\U{205F}'
    || c == '\U{3000}' || c == '\U{FEFF}'
  }

  /** The characters that `.` in a regular expression refuses to match. */
  predicate IsLineTerminator(c: char) {
    c == '\n' || c == '\r' || c == '\U{2028}' || c == '\U{2029}'
  }

  predicate IsAsciiLetter(c: char) {
    ('a' <= c <= 'z') || ('A' <= c <= 'Z')
  }

  predicate IsDigit(c: char) {
    '0' <= c <= '9'
  }

  /** `\w`: ASCII letters, digits and the underscore. */
  predicate IsWordChar(c: char) {
    IsAsciiLetter(c) || IsDigit(c) || c == '_'
  }

  function LowerChar(c: char): (d: char)
    ensures 'A' <= c <= 'Z' ==> 'a' <= d <= 'z'
    ensures !('A' <= c <= 'Z') ==> d == c
  {
    if 'A' <= c <= 'Z' then (c as int + 32) as char else c
  }

  /** `toLowerCase`, restricted to the ASCII letters. */
  function Lower(s: string): (r: string)
    ensures |r| == |s|
    ensures forall i :: 0 <= i < |s| ==> r[i] == LowerChar(s[i])
  {
    seq(|s|, i requires 0 <= i < |s| => LowerChar(s[i]))
  }

  lemma LowerAppend(a: string, b: string)
    ensures Lower(a + b) == Lower(a) + Lower(b)
  {
  }

  predicate StartsWith(s: string, p: string) {
    |p| <= |s| && s[..|p|] == p
  }

  predicate EndsWith(s: string, p: string) {
    |p| <= |s| && s[|s| - |p|..] == p
  }

  /** `s.includes(t)`: `t` occurs in `s` at some position. */
  predicate Contains(s: string, t: string)
    decreases |s|
  {
    StartsWith(s, t) || (|s| > 0 && Contains(s[1..], t))
  }

  lemma {:induction false} ContainsAt(s: string, t: string, i: nat)
    requires i + |t| <= |s| && s[i..i + |t|] == t
    ensures Contains(s, t)
  {
    if i > 0 {
      assert s[1..][i - 1..i - 1 + |t|] == t;
      ContainsAt(s[1..], t, i - 1);
    }
  }

  lemma {:induction false} ContainsWitness(s: string, t: string) returns (i: nat)
    requires Contains(s, t)
    ensures i + |t| <= |s| && s[i..i + |t|] == t
    decreases |s|
  {
    if StartsWith(s, t) {
      i := 0;
    } else {
      var j := ContainsWitness(s[1..], t);
      i := j + 1;
      assert s[i..i + |t|] == s[1..][j..j + |t|];
    }
  }

  /** A text that contains `t` still contains it after more text is appended. */
  lemma {:induction false} ContainsExtend(a: string, b: string, t: string)
    requires Contains(a, t)
    ensures Contains(a + b, t)
  {
    var i := ContainsWitness(a, t);
    assert (a + b)[i..i + |t|] == a[i..i + |t|];
    ContainsAt(a + b, t, i);
  }

  /** `markers.some((m) => s.includes(m))`. */
  predicate ContainsAny(s: string, markers: seq<string>) {
    exists k :: 0 <= k < |markers| && Contains(s, markers[k])
  }

  lemma StartsWithAppend(a: string, b: string)
    ensures StartsWith(a + b, a) && (a + b)[|a|..] == b
  {
    assert (a + b)[..|a|] == a;
  }

  /** A string that differs from `p` at a position of `p` does not start
      with `p`. */
  lemma NotStartsWithAt(s: string, p: string, k: nat)
    requires k < |p| && (k >= |s| || s[k] != p[k])
    ensures !StartsWith(s, p)
  {
    if |p| <= |s| {
      assert s[..|p|][k] == s[k];
    }
  }

  lemma StartsWithTrans(s: string, p: string, q: string)
    requires StartsWith(s, p) && StartsWith(p, q)
    ensures StartsWith(s, q)
  {
    assert s[..|q|] == p[..|q|];
  }

  /** `trimStart`: drops the leading run of `\s` characters. */
  function TrimStart(s: string): (r: string)
    ensures |r| <= |s|
    ensures r != [] ==> !IsSpace(r[0])
    decreases |s|
  {
    if s != [] && IsSpace(s[0]) then TrimStart(s[1..]) else s
  }

  /** What `trimStart` keeps is a suffix, and what it drops is whitespace. */
  lemma {:induction false} TrimStartSuffix(s: string)
    ensures TrimStart(s) == s[|s| - |TrimStart(s)|..]
    ensures AllChars(s[..|s| - |TrimStart(s)|], IsSpace)
    decreases |s|
  {
    if s != [] && IsSpace(s[0]) {
      TrimStartSuffix(s[1..]);
      var k := |s| - |TrimStart(s)|;
      assert s[1..][..k - 1] == s[1..k];
      assert s[1..][k - 1..] == s[k..];
      forall i | 0 <= i < k
        ensures IsSpace(s[..k][i])
      {
        if i > 0 {
          assert s[..k][i] == s[1..][..k - 1][i - 1];
        }
      }
    }
  }

  /** `trimEnd`: drops the trailing run of `\s` characters. */
  function TrimEnd(s: string): (r: string)
    ensures |r| <= |s|
    ensures r != [] ==> !IsSpace(r[|r| - 1])
    decreases |s|
  {
    if s != [] && IsSpace(s[|s| - 1]) then TrimEnd(s[..|s| - 1]) else s
  }

  /** What `trimEnd` keeps is a prefix, and what it drops is whitespace. */
  lemma {:induction false} TrimEndPrefix(s: string)
    ensures TrimEnd(s) == s[..|TrimEnd(s)|]
    ensures AllChars(s[|TrimEnd(s)|..], IsSpace)
    decreases |s|
  {
    if s != [] && IsSpace(s[|s| - 1]) {
      var init := s[..|s| - 1];
      TrimEndPrefix(init);
      var k := |TrimEnd(s)|;
      assert init[..k] == s[..k];
      forall i | 0 <= i < |s| - k
        ensures IsSpace(s[k..][i])
      {
        if i < |s| - 1 - k {
          assert s[k..][i] == init[k..][i];
        }
      }
    }
  }

  predicate IsTrimmed(s: string) {
    s != [] ==> !IsSpace(s[0]) && !IsSpace(s[|s| - 1])
  }

  /** `trim`: the infix of `s` left once the leading and the trailing runs
      of `\s` characters are dropped; everything dropped is whitespace. */
  function Trim(s: string): (r: string)
    ensures IsTrimmed(r) && |r| <= |s|
  {
    TrimParts(s);
    TrimEnd(TrimStart(s))
  }

  /** The trimmed text starts where `trimStart` does. */
  lemma TrimSlice(s: string)
    ensures |s| - |TrimStart(s)| + |Trim(s)| <= |s|
    ensures Trim(s) == s[|s| - |TrimStart(s)|..|s| - |TrimStart(s)| + |Trim(s)|]
  {
    TrimParts(s);
  }

  /** Where the trimmed text sits in the text. */
  lemma TrimIsInfix(s: string) returns (a: nat)
    ensures a + |Trim(s)| <= |s| && Trim(s) == s[a..a + |Trim(s)|]
  {
    a := |s| - |TrimStart(s)|;
    TrimParts(s);
  }

  /** `Trim(s)` is what is left of `s` once whitespace is removed from
      both ends: an infix of `s` with only whitespace before and after it. */
  lemma TrimDropsSpace(s: string) returns (a: nat)
    ensures a + |Trim(s)| <= |s| && Trim(s) == s[a..a + |Trim(s)|]
    ensures AllChars(s[..a], IsSpace) && AllChars(s[a + |Trim(s)|..], IsSpace)
  {
    a := |s| - |TrimStart(s)|;
    TrimStartSuffix(s);
    TrimEndPrefix(TrimStart(s));
    TrimParts(s);
    assert s[a + |Trim(s)|..] == TrimStart(s)[|Trim(s)|..];
  }

  /** Trimming adds no character. */
  lemma TrimChars(s: string)
    ensures forall i :: 0 <= i < |Trim(s)| ==> Trim(s)[i] in s
  {
    var a := TrimIsInfix(s);
    forall i | 0 <= i < |Trim(s)|
      ensures Trim(s)[i] in s
    {
      assert Trim(s)[i] == s[a + i];
    }
  }

  /** A property that every infix of `s` has holds of its trimmed text. */
  lemma TrimInfixClosed(s: string, P: string -> bool)
    requires forall a, b :: 0 <= a <= b <= |s| ==> P(s[a..b])
    ensures P(Trim(s))
  {
    var a := TrimIsInfix(s);
    assert P(s[a..a + |Trim(s)|]);
  }

  lemma TrimParts(s: string)
    ensures var k := |s| - |TrimStart(s)|; var r := TrimEnd(TrimStart(s));
      IsTrimmed(r) && k + |r| <= |s| && r == s[k..k + |r|]
  {
    TrimShape(s);
    TrimEndKeepsFirst(TrimStart(s));
  }

  lemma TrimShape(s: string)
    ensures var k := |s| - |TrimStart(s)|;
      k + |TrimEnd(TrimStart(s))| <= |s| && TrimEnd(TrimStart(s)) == s[k..k + |TrimEnd(TrimStart(s))|]
  {
    TrimStartSuffix(s);
    TrimEndPrefix(TrimStart(s));
    InfixOfSuffix(s, TrimStart(s), TrimEnd(TrimStart(s)));
  }

  lemma TrimEndKeepsFirst(t: string)
    requires t == [] || !IsSpace(t[0])
    ensures IsTrimmed(TrimEnd(t))
  {
    var r := TrimEnd(t);
    TrimEndPrefix(t);
    if r != [] {
      assert r[0] == t[..|r|][0];
    }
  }

  lemma InfixOfSuffix<T>(s: seq<T>, t: seq<T>, r: seq<T>)
    requires |t| <= |s| && t == s[|s| - |t|..]
    requires |r| <= |t| && r == t[..|r|]
    ensures r == s[|s| - |t|..|s| - |t| + |r|]
  {
  }

  /** A leading whitespace character is dropped by `trimStart`. */
  lemma TrimStartCons(c: char, t: string)
    requires IsSpace(c)
    ensures TrimStart([c] + t) == TrimStart(t)
  {
    assert ([c] + t)[1..] == t;
  }

  lemma {:induction false} TrimStartOfTrimmed(s: string)
    requires s == [] || !IsSpace(s[0])
    ensures TrimStart(s) == s
  {
  }

  lemma {:induction false} TrimEndOfTrimmed(s: string)
    requires s == [] || !IsSpace(s[|s| - 1])
    ensures TrimEnd(s) == s
  {
  }

  /** Trimming a trimmed string changes nothing. */
  lemma TrimOfTrimmed(s: string)
    requires IsTrimmed(s)
    ensures Trim(s) == s
  {
    TrimStartOfTrimmed(s);
    TrimEndOfTrimmed(s);
  }

  lemma TrimIdempotent(s: string)
    ensures Trim(Trim(s)) == Trim(s)
  {
    TrimOfTrimmed(Trim(s));
  }

  /** A string all of whose characters are whitespace trims to "". */
  lemma {:induction false} TrimStartAllSpace(s: string)
    requires forall i :: 0 <= i < |s| ==> IsSpace(s[i])
    ensures TrimStart(s) == []
    decreases |s|
  {
    if s != [] {
      TrimStartAllSpace(s[1..]);
    }
  }

  /** No whitespace character other than ' ' and no two adjacent whitespace
      characters: what `replace(/\s+/g, ' ')` leaves behind. */
  predicate SingleSpaced(s: string) {
    && (forall i :: 0 <= i < |s| && IsSpace(s[i]) ==> s[i] == ' ')
    && (forall i :: 0 <= i < |s| - 1 ==> !(IsSpace(s[i]) && IsSpace(s[i + 1])))
  }

  /** Prepending one character keeps a string single-spaced when that
      character is a plain space followed by a non-space, or not a space. */
  lemma SingleSpacedCons(c: char, t: string)
    requires SingleSpaced(t)
    requires IsSpace(c) ==> c == ' ' && (t == [] || !IsSpace(t[0]))
    ensures SingleSpaced([c] + t)
  {
    var u := [c] + t;
    forall i | 0 <= i < |u| - 1
      ensures !(IsSpace(u[i]) && IsSpace(u[i + 1]))
    {
      if i > 0 {
        assert u[i] == t[i - 1] && u[i + 1] == t[i];
      }
    }
  }

  /** `replace(/\s+/g, ' ')`: every maximal run of whitespace becomes one
      space. */
  function Collapse(s: string): (r: string)
    ensures |r| <= |s|
    ensures s != [] <==> r != []
    ensures s != [] ==> (IsSpace(r[0]) <==> IsSpace(s[0]))
    ensures SingleSpaced(r)
    decreases |s|
  {
    if s == [] then []
    else if IsSpace(s[0]) then
      var rest := TrimStart(s);
      assert |rest| < |s| by { assert TrimStart(s) == TrimStart(s[1..]); }
      var tail := Collapse(rest);
      SingleSpacedCons(' ', tail);
      [' '] + tail
    else
      var tail := Collapse(s[1..]);
      SingleSpacedCons(s[0], tail);
      [s[0]] + tail
  }

  /** Every character of `s` satisfies `p`. */
  predicate AllChars(s: string, p: char -> bool) {
    forall i :: 0 <= i < |s| ==> p(s[i])
  }

  /** A property of every character of `s` holds of every character of an
      infix of it. */
  lemma InfixKeeps(s: string, a: nat, b: nat, p: char -> bool)
    requires a <= b <= |s| && AllChars(s, p)
    ensures AllChars(s[a..b], p)
  {
    forall i | 0 <= i < b - a
      ensures p(s[a..b][i])
    {
      assert s[a..b][i] == s[a + i];
    }
  }

  lemma SuffixKeeps(s: string, a: nat, p: char -> bool)
    requires a <= |s| && AllChars(s, p)
    ensures AllChars(s[a..], p)
  {
    InfixKeeps(s, a, |s|, p);
    assert s[a..|s|] == s[a..];
  }

  lemma ConsKeeps(c: char, t: string, p: char -> bool)
    requires p(c) && AllChars(t, p)
    ensures AllChars([c] + t, p)
  {
    forall i | 0 <= i < |t| + 1
      ensures p(([c] + t)[i])
    {
      if i > 0 {
        assert ([c] + t)[i] == t[i - 1];
      }
    }
  }

  lemma ConsSplit<T>(s: seq<T>, b: seq<T>)
    requires s != []
    ensures s + b == [s[0]] + (s[1..] + b)
  {
  }

  lemma Assoc<T>(a: seq<T>, b: seq<T>, c: seq<T>)
    ensures a + b + c == a + (b + c)
  {
  }

  /** A suffix of a prefix of `u` is a prefix of the same suffix of `u`. */
  lemma SuffixOfPrefix<T>(t: seq<T>, u: seq<T>, k: nat)
    requires |t| <= |u| && t == u[..|t|] && k <= |t|
    ensures t[k..] == u[k..][..|t| - k]
  {
  }

  lemma InfixAsPrefix<T>(s: seq<T>, a: nat, b: nat)
    requires a <= b <= |s|
    ensures s[a..b] == s[a..][..b - a]
  {
  }

  /** A non-whitespace character passes the collapse unchanged. */
  lemma CollapseCons(c: char, t: string)
    requires !IsSpace(c)
    ensures Collapse([c] + t) == [c] + Collapse(t)
  {
    assert ([c] + t)[1..] == t;
  }

  /** A property of characters that a plain space has and every character
      of `s` has holds of every character of `Collapse(s)`. */
  lemma {:induction false} CollapseKeeps(s: string, p: char -> bool)
    requires p(' ') && AllChars(s, p)
    ensures AllChars(Collapse(s), p)
    decreases |s|
  {
    if s != [] {
      if IsSpace(s[0]) {
        var rest := TrimStart(s);
        assert |rest| < |s| by { assert TrimStart(s) == TrimStart(s[1..]); }
        TrimStartSuffix(s);
        SuffixKeeps(s, |s| - |rest|, p);
        CollapseKeeps(rest, p);
        ConsKeeps(' ', Collapse(rest), p);
      } else {
        SuffixKeeps(s, 1, p);
        CollapseKeeps(s[1..], p);
        ConsKeeps(s[0], Collapse(s[1..]), p);
      }
    }
  }

  /** `replace(/\s+/g, ' ').trim()`, the `normalizeWhitespace` helper. */
  function NormalizeWhitespace(s: string): (r: string)
    ensures IsTrimmed(r) && SingleSpaced(r)
    ensures forall i :: 0 <= i < |r| ==> r[i] == ' ' || r[i] in s
  {
    var c := Collapse(s);
    TrimKeepsSingleSpaced(c);
    CollapseChars(s);
    TrimChars(c);
    Trim(c)
  }

  /** Collapsing adds no character but the space. */
  lemma CollapseChars(s: string)
    ensures forall i :: 0 <= i < |Collapse(s)| ==> Collapse(s)[i] == ' ' || Collapse(s)[i] in s
  {
    var p := (c: char) => c == ' ' || c in s;
    assert AllChars(s, p);
    CollapseKeeps(s, p);
  }

  /** Whitespace runs stay single in every infix of a single-spaced text. */
  lemma InfixSingleSpaced(s: string, a: nat, b: nat)
    requires a <= b <= |s| && SingleSpaced(s)
    ensures SingleSpaced(s[a..b])
  {
    var r := s[a..b];
    forall i | 0 <= i < |r|
      ensures IsSpace(r[i]) ==> r[i] == ' '
    {
      assert r[i] == s[a + i];
    }
    forall i | 0 <= i < |r| - 1
      ensures !(IsSpace(r[i]) && IsSpace(r[i + 1]))
    {
      assert r[i] == s[a + i] && r[i + 1] == s[a + i + 1];
    }
  }

  lemma TrimKeeps(s: string, p: char -> bool)
    requires AllChars(s, p)
    ensures AllChars(Trim(s), p)
  {
    var k := TrimIsInfix(s);
    InfixKeeps(s, k, k + |Trim(s)|, p);
  }

  lemma PrefixKeeps(s: string, n: nat, p: char -> bool)
    requires AllChars(s, p)
    ensures AllChars(Prefix(s, n), p)
  {
    InfixKeeps(s, 0, |Prefix(s, n)|, p);
    assert s[0..|Prefix(s, n)|] == Prefix(s, n);
  }

  lemma TrimKeepsSingleSpaced(s: string)
    requires SingleSpaced(s)
    ensures SingleSpaced(Trim(s))
  {
    var k := TrimIsInfix(s);
    InfixSingleSpaced(s, k, k + |Trim(s)|);
  }

  /** The prefix of `s` before its first whitespace character. */
  function TakeWord(s: string): (w: string)
    ensures |w| <= |s| && w == s[..|w|]
    ensures forall i :: 0 <= i < |w| ==> !IsSpace(w[i])
    ensures |w| < |s| ==> IsSpace(s[|w|])
    decreases |s|
  {
    if s == [] || IsSpace(s[0]) then [] else [s[0]] + TakeWord(s[1..])
  }

  /** A non-empty run of non-whitespace characters. */
  predicate IsWord(w: string) {
    w != [] && forall i :: 0 <= i < |w| ==> !IsSpace(w[i])
  }

  /** `split(/\s+/).filter(Boolean)`: the maximal runs of non-whitespace
      characters, in order. */
  function Words(s: string): (ws: seq<string>)
    ensures forall k :: 0 <= k < |ws| ==> IsWord(ws[k])
    decreases |s|
  {
    var t := TrimStart(s);
    if t == [] then []
    else
      var w := TakeWord(t);
      [w] + Words(t[|w|..])
  }

  /** Every character of every word satisfies `p` when every
      non-whitespace character of the text does. */
  lemma {:induction false} WordsKeep(s: string, p: char -> bool)
    requires SpacesOr(s, p)
    ensures forall k :: 0 <= k < |Words(s)| ==> AllChars(Words(s)[k], p)
    decreases |s|
  {
    var t := TrimStart(s);
    if t != [] {
      SpacesOrInfix(s, |s| - |t|, |s|, p);
      TrimStartSuffix(s);
      assert s[|s| - |t|..|s|] == t;
      FirstWordKeeps(t, p);
      var rest := t[|TakeWord(t)|..];
      WordsKeep(rest, p);
      WordsCons(s);
      forall k | 0 <= k < |Words(s)|
        ensures AllChars(Words(s)[k], p)
      {
        if k > 0 {
          assert Words(s)[k] == Words(rest)[k - 1];
        }
      }
    }
  }

  /** Every character of `s` is whitespace or satisfies `p`. */
  predicate SpacesOr(s: string, p: char -> bool) {
    forall i :: 0 <= i < |s| ==> IsSpace(s[i]) || p(s[i])
  }

  lemma SpacesOrInfix(s: string, a: nat, b: nat, p: char -> bool)
    requires a <= b <= |s| && SpacesOr(s, p)
    ensures SpacesOr(s[a..b], p)
  {
    forall i | 0 <= i < b - a
      ensures IsSpace(s[a..b][i]) || p(s[a..b][i])
    {
      assert s[a..b][i] == s[a + i];
    }
  }

  /** The first word of a text keeps `p`, and so does what follows it. */
  lemma FirstWordKeeps(t: string, p: char -> bool)
    requires SpacesOr(t, p)
    ensures AllChars(TakeWord(t), p) && SpacesOr(t[|TakeWord(t)|..], p)
  {
    var w := TakeWord(t);
    SpacesOrInfix(t, 0, |w|, p);
    assert t[0..|w|] == w;
    SpacesOrInfix(t, |w|, |t|, p);
    assert t[|w|..|t|] == t[|w|..];
  }

  lemma WordsCons(s: string)
    requires TrimStart(s) != []
    ensures Words(s) == [TakeWord(TrimStart(s))] + Words(TrimStart(s)[|TakeWord(TrimStart(s))|..])
  {
  }

  /** A string made only of whitespace has no words. */
  lemma WordsOfAllSpace(s: string)
    requires forall i :: 0 <= i < |s| ==> IsSpace(s[i])
    ensures Words(s) == []
  {
    TrimStartAllSpace(s);
  }

  /** A leading whitespace character separates nothing: it adds no word. */
  lemma WordsSpaceCons(c: char, y: string)
    requires IsSpace(c)
    ensures Words([c] + y) == Words(y)
  {
    TrimStartCons(c, y);
  }

  /** A leading run of whitespace adds no word. */
  lemma {:induction false} WordsSpacePrefix(pre: string, y: string)
    requires AllChars(pre, IsSpace)
    ensures Words(pre + y) == Words(y)
    decreases |pre|
  {
    if pre == [] {
      assert pre + y == y;
    } else {
      assert pre + y == [pre[0]] + (pre[1..] + y);
      WordsSpaceCons(pre[0], pre[1..] + y);
      WordsSpacePrefix(pre[1..], y);
    }
  }

  /** A non-whitespace character either starts a word of its own or joins
      the first word of what follows it. */
  lemma WordsCharCons(c: char, y: string)
    requires !IsSpace(c)
    ensures y == [] || IsSpace(y[0]) ==> Words([c] + y) == [[c]] + Words(y)
    ensures y != [] && !IsSpace(y[0]) ==>
      Words(y) != [] && Words([c] + y) == [[c] + Words(y)[0]] + Words(y)[1..]
  {
    var s := [c] + y;
    assert s[1..] == y;
    assert TakeWord(s) == [c] + TakeWord(y);
    assert s[|TakeWord(s)|..] == y[|TakeWord(y)|..];
    WordsCons(s);
    if y != [] && !IsSpace(y[0]) {
      WordsCons(y);
    }
  }

  /** Dropping the leading whitespace keeps the words. */
  lemma WordsTrimStart(s: string)
    ensures Words(TrimStart(s)) == Words(s)
  {
    TrimStartSuffix(s);
    var k := |s| - |TrimStart(s)|;
    assert s == s[..k] + TrimStart(s);
    WordsSpacePrefix(s[..k], TrimStart(s));
  }

  /** A trailing run of whitespace adds no word. */
  lemma {:induction false} WordsSpaceSuffix(y: string, post: string)
    requires AllChars(post, IsSpace)
    ensures Words(y + post) == Words(y)
    decreases |y|
  {
    if y == [] {
      assert y + post == post;
      WordsOfAllSpace(post);
    } else {
      var c, rest := y[0], y[1..];
      assert y == [c] + rest;
      assert y + post == [c] + (rest + post);
      WordsSpaceSuffix(rest, post);
      if IsSpace(c) {
        WordsSpaceCons(c, rest + post);
        WordsSpaceCons(c, rest);
      } else {
        WordsCharCons(c, rest + post);
        WordsCharCons(c, rest);
      }
    }
  }

  /** Trimming keeps the words. */
  lemma WordsTrim(s: string)
    ensures Words(Trim(s)) == Words(s)
  {
    var t := TrimStart(s);
    WordsTrimStart(s);
    TrimEndPrefix(t);
    var k := |TrimEnd(t)|;
    assert t == TrimEnd(t) + t[k..];
    WordsSpaceSuffix(TrimEnd(t), t[k..]);
  }

  /** Squeezing every whitespace run to one space keeps the words. */
  lemma {:induction false} WordsCollapse(s: string)
    ensures Words(Collapse(s)) == Words(s)
    decreases |s|
  {
    if s != [] {
      if IsSpace(s[0]) {
        var rest := TrimStart(s);
        assert TrimStart(s) == TrimStart(s[1..]);
        WordsCollapse(rest);
        WordsSpaceCons(' ', Collapse(rest));
        WordsTrimStart(s);
      } else {
        var rest := s[1..];
        assert s == [s[0]] + rest;
        WordsCollapse(rest);
        WordsCharCons(s[0], Collapse(rest));
        WordsCharCons(s[0], rest);
      }
    }
  }

  /** The number of maximal whitespace runs in `s`. */
  function SpaceRuns(s: string): nat
    decreases |s|
  {
    if s == [] then 0
    else if IsSpace(s[0]) then
      var rest := TrimStart(s);
      assert |rest| < |s| by { assert TrimStart(s) == TrimStart(s[1..]); }
      1 + SpaceRuns(rest)
    else SpaceRuns(s[1..])
  }

  /** `s.split(/\s+/).length`: one more piece than there are separators. */
  function SplitPieceCount(s: string): nat {
    SpaceRuns(s) + 1
  }

  /** A run of non-whitespace characters adds no separator. */
  lemma {:induction false} SpaceRunsSkipWord(w: string, rest: string)
    requires forall i :: 0 <= i < |w| ==> !IsSpace(w[i])
    ensures SpaceRuns(w + rest) == SpaceRuns(rest)
    decreases |w|
  {
    if w == [] {
      assert w + rest == rest;
    } else {
      assert (w + rest)[1..] == w[1..] + rest;
      SpaceRunsSkipWord(w[1..], rest);
    }
  }

  lemma TakeDrop<T>(s: seq<T>, k: nat)
    requires k <= |s|
    ensures s[..k] + s[k..] == s
  {
  }

  /** Trimming the front keeps a final non-whitespace character. */
  lemma TrimStartKeepsLast(s: string)
    requires s != [] && !IsSpace(s[|s| - 1])
    ensures TrimStart(s) != [] && TrimStart(s)[|TrimStart(s)| - 1] == s[|s| - 1]
  {
  }

  /** On a trimmed, non-empty text, `split(/\s+/)` yields exactly the
      words. */
  lemma {:induction false} SplitPieceCountIsWords(s: string)
    requires s != [] && IsTrimmed(s)
    ensures SplitPieceCount(s) == |Words(s)|
    decreases |s|
  {
    var t := SplitStep(s);
    if t != [] {
      SplitPieceCountIsWords(t);
    }
  }

  /** One word and the separator after it: what remains is a shorter
      trimmed text, or nothing once the last word is taken. */
  lemma SplitStep(s: string) returns (t: string)
    requires s != [] && IsTrimmed(s)
    ensures t != [] ==> IsTrimmed(t) && |t| < |s|
    ensures t == [] ==> SpaceRuns(s) == 0 && |Words(s)| == 1
    ensures t != [] ==> SpaceRuns(s) == 1 + SpaceRuns(t) && |Words(s)| == 1 + |Words(t)|
  {
    FirstWordSplit(s);
    var rest := s[|TakeWord(s)|..];
    if rest == [] {
      t := [];
    } else {
      SkipAfterWord(s);
      t := TrimStart(rest);
    }
  }

  lemma SkipAfterWord(s: string)
    requires s != [] && IsTrimmed(s) && |TakeWord(s)| < |s|
    ensures var rest := s[|TakeWord(s)|..];
      && TrimStart(rest) != [] && IsTrimmed(TrimStart(rest)) && |TrimStart(rest)| < |rest|
      && SpaceRuns(rest) == 1 + SpaceRuns(TrimStart(rest))
      && |Words(rest)| == |Words(TrimStart(rest))|
  {
    AfterFirstWord(s);
    SkipSeparator(s[|TakeWord(s)|..]);
  }

  /** A text that starts with a word: the word is the first of the words,
      and it adds no separator. */
  lemma FirstWordSplit(s: string)
    requires s != [] && !IsSpace(s[0])
    ensures TakeWord(s) != []
    ensures |Words(s)| == 1 + |Words(s[|TakeWord(s)|..])|
    ensures SpaceRuns(s) == SpaceRuns(s[|TakeWord(s)|..])
  {
    var w := TakeWord(s);
    var rest := s[|w|..];
    assert w == [s[0]] + TakeWord(s[1..]);
    TrimStartOfTrimmed(s);
    assert Words(s) == [w] + Words(rest);
    TakeDrop(s, |w|);
    SpaceRunsSkipWord(w, rest);
  }

  /** What follows the first word, when anything does, starts with
      whitespace and ends as the text does. */
  lemma AfterFirstWord(s: string)
    requires |TakeWord(s)| < |s|
    ensures IsSpace(s[|TakeWord(s)|..][0])
    ensures s[|TakeWord(s)|..][|s| - |TakeWord(s)| - 1] == s[|s| - 1]
  {
  }

  /** A text that starts with whitespace and ends without it: the leading
      run is one separator, and the words are as many as after it. */
  lemma SkipSeparator(s: string)
    requires s != [] && IsSpace(s[0]) && !IsSpace(s[|s| - 1])
    ensures TrimStart(s) != [] && IsTrimmed(TrimStart(s)) && |TrimStart(s)| < |s|
    ensures SpaceRuns(s) == 1 + SpaceRuns(TrimStart(s))
    ensures |Words(s)| == |Words(TrimStart(s))|
  {
    var t := TrimStart(s);
    TrimStartKeepsLast(s);
    assert TrimStart(s) == TrimStart(s[1..]);
    TrimStartOfTrimmed(t);
  }

  /** The position of the first `c` in `s`. */
  function IndexOf(s: string, c: char): (k: nat)
    requires c in s
    ensures k < |s| && s[k] == c && c !in s[..k]
    decreases |s|
  {
    if s[0] == c then 0
    else
      var k := 1 + IndexOf(s[1..], c);
      assert s[..k] == [s[0]] + s[1..][..k - 1];
      k
  }

  /** The first piece of a split is the text before the first separator. */
  lemma FirstPiece(s: string, sep: char) returns (k: nat)
    ensures k <= |s| && sep !in s[..k] && (k == |s| || s[k] == sep)
    ensures SplitOn(s, sep)[0] == s[..k]
  {
    if sep in s {
      k := IndexOf(s, sep);
      assert s == s[..k] + [sep] + s[k + 1..];
      SplitOnCons(s[..k], s[k + 1..], sep);
    } else {
      k := |s|;
      assert s[..k] == s;
      SplitOnNone(s, sep);
    }
  }

  /** `s.split(sep)` for a one-character separator: the pieces between
      separators, with empty pieces kept. */
  function SplitOn(s: string, sep: char): (r: seq<string>)
    ensures |r| >= 1
    ensures forall k :: 0 <= k < |r| ==> sep !in r[k]
    decreases |s|
  {
    if s == [] then [[]]
    else if s[0] == sep then [[]] + SplitOn(s[1..], sep)
    else
      var rest := SplitOn(s[1..], sep);
      [[s[0]] + rest[0]] + rest[1..]
  }

  /** A separator-free piece followed by the separator splits off as the
      first piece. */
  lemma {:induction false} SplitOnCons(a: string, b: string, sep: char)
    requires sep !in a
    ensures SplitOn(a + [sep] + b, sep) == [a] + SplitOn(b, sep)
    decreases |a|
  {
    if a == [] {
      assert a + [sep] + b == [sep] + b;
      assert ([sep] + b)[1..] == b;
    } else {
      assert (a + [sep] + b)[1..] == a[1..] + [sep] + b;
      SplitOnCons(a[1..], b, sep);
      assert [a[0]] + a[1..] == a;
    }
  }

  /** A string without the separator is a single piece. */
  lemma {:induction false} SplitOnNone(a: string, sep: char)
    requires sep !in a
    ensures SplitOn(a, sep) == [a]
    decreases |a|
  {
    if a != [] {
      SplitOnNone(a[1..], sep);
      assert [a[0]] + a[1..] == a;
    }
  }

  /** `parts.join(sep)`. */
  function Join(parts: seq<string>, sep: string): string
    decreases |parts|
  {
    if parts == [] then []
    else if |parts| == 1 then parts[0]
    else parts[0] + sep + Join(parts[1..], sep)
  }

  /** `arr[k] || ''`: the element at `k`, or "" past the end. */
  function At(parts: seq<string>, k: nat): string {
    if k < |parts| then parts[k] else ""
  }

  /** Keeps the non-empty strings, as `filter(Boolean)` does. */
  function NonEmpty(parts: seq<string>): (r: seq<string>)
    ensures |r| <= |parts|
    ensures forall k :: 0 <= k < |r| ==> r[k] != [] && r[k] in parts
    decreases |parts|
  {
    if parts == [] then []
    else if parts[0] == [] then NonEmpty(parts[1..])
    else [parts[0]] + NonEmpty(parts[1..])
  }

  /** Every non-empty part survives `NonEmpty`. */
  lemma {:induction false} NonEmptyKeeps(parts: seq<string>, x: string)
    requires x in parts && x != []
    ensures x in NonEmpty(parts)
    decreases |parts|
  {
    if parts[0] != x {
      NonEmptyKeeps(parts[1..], x);
    }
  }

  /** Removes every character for which `drop` holds, as
      `replace(/[...]/g, '')` does. */
  function RemoveChars(s: string, drop: char -> bool): (r: string)
    ensures |r| <= |s|
    ensures forall i :: 0 <= i < |r| ==> !drop(r[i]) && r[i] in s
    decreases |s|
  {
    if s == [] then []
    else if drop(s[0]) then RemoveChars(s[1..], drop)
    else [s[0]] + RemoveChars(s[1..], drop)
  }

  /** Replaces every character for which `hit` holds by `repl`, as
      `replace(/[...]/g, by)` does. */
  function ReplaceChars(s: string, hit: char -> bool, repl: char): (r: string)
    ensures |r| == |s|
    ensures forall i :: 0 <= i < |s| ==> r[i] == (if hit(s[i]) then repl else s[i])
  {
    seq(|s|, i requires 0 <= i < |s| => if hit(s[i]) then repl else s[i])
  }

  /** `s.slice(0, n)`. */
  function Prefix(s: string, n: nat): (r: string)
    ensures |r| <= n && |r| <= |s| && r == s[..|r|]
    ensures |s| <= n ==> r == s
    ensures n < |s| ==> |r| == n
  {
    if |s| <= n then s else s[..n]
  }
}
