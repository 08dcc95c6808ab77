/**
 * Array operations of the JavaScript runtime: `slice`, `filter`,
 * `indexOf`-based de-duplication (and `[...new Set(xs)]`, which keeps the
 * same elements in the same order), and `find`.
 */
module Lists {
  import opened Wrappers

  predicate Distinct<T(==)>(s: seq<T>) {
    forall i, j :: 0 <= i < j < |s| ==> s[i] != s[j]
  }

  function Min(a: int, b: int): int { if a <= b then a else b }

  function Max(a: int, b: int): int { if a <= b then b else a }

  /** `s.slice(0, n)`. */
  function Take<T>(s: seq<T>, n: nat): (r: seq<T>)
    ensures |r| == Min(n, |s|)
    ensures r == s[..|r|]
  {
    if |s| <= n then s else s[..n]
  }

  /** Past the first list, a prefix of a concatenation reads the second. */
  lemma TakeConcatAt<T>(a: seq<T>, b: seq<T>, n: nat, p: nat)
    requires |a| + p < |Take(a + b, n)|
    ensures p < |b| && Take(a + b, n)[|a| + p] == b[p]
  {
  }

  /** The first `n` elements of two selections of `s` one after the other,
      each holding only elements that pass its test, and every element of
      `s` that passes it at the position given by the number passing
      before it: how many there are, that each passes one of the tests,
      and where each element of `s` lands. */
  lemma TakeConcatSelections<T>(s: seq<T>, a: seq<T>, b: seq<T>, n: nat, p: T -> bool, q: T -> bool)
    requires forall i :: 0 <= i < |a| ==> p(a[i])
    requires forall i :: 0 <= i < |b| ==> q(b[i])
    requires forall j {:trigger CountIf(s[..j], p)} :: 0 <= j < |s| && p(s[j]) ==>
      CountIf(s[..j], p) < |a| && a[CountIf(s[..j], p)] == s[j]
    requires forall j {:trigger CountIf(s[..j], q)} :: 0 <= j < |s| && q(s[j]) ==>
      CountIf(s[..j], q) < |b| && b[CountIf(s[..j], q)] == s[j]
    ensures |Take(a + b, n)| == Min(n, |a| + |b|)
    ensures forall i :: 0 <= i < |Take(a + b, n)| ==> p(Take(a + b, n)[i]) || q(Take(a + b, n)[i])
    ensures forall j {:trigger CountIf(s[..j], p)} ::
      0 <= j < |s| && p(s[j]) && CountIf(s[..j], p) < |Take(a + b, n)| ==>
        Take(a + b, n)[CountIf(s[..j], p)] == s[j]
    ensures forall j {:trigger CountIf(s[..j], q)} ::
      0 <= j < |s| && q(s[j]) && |a| + CountIf(s[..j], q) < |Take(a + b, n)| ==>
        Take(a + b, n)[|a| + CountIf(s[..j], q)] == s[j]
  {
    var r := Take(a + b, n);
    forall i | 0 <= i < |r|
      ensures p(r[i]) || q(r[i])
    {
      assert r[i] == (a + b)[i];
    }
    TakeConcatFirstPositions(s, a, b, n, p);
    TakeConcatSecondPositions(s, a, b, n, q);
  }

  /** Positions in the first `n` elements of two selections of `s` one
      after the other: the element before which `k` elements of the first
      selection come sits at `k`. */
  lemma TakeConcatFirstPositions<T>(s: seq<T>, a: seq<T>, b: seq<T>, n: nat, p: T -> bool)
    requires forall j {:trigger CountIf(s[..j], p)} :: 0 <= j < |s| && p(s[j]) ==>
      CountIf(s[..j], p) < |a| && a[CountIf(s[..j], p)] == s[j]
    ensures forall j {:trigger CountIf(s[..j], p)} ::
      0 <= j < |s| && p(s[j]) && CountIf(s[..j], p) < |Take(a + b, n)| ==>
        Take(a + b, n)[CountIf(s[..j], p)] == s[j]
  {
    forall j | 0 <= j < |s| && p(s[j]) && CountIf(s[..j], p) < |Take(a + b, n)|
      ensures Take(a + b, n)[CountIf(s[..j], p)] == s[j]
    {
      TakeConcatFront(a, b, n, CountIf(s[..j], p));
    }
  }

  /** ... and the element before which `k` elements of the second
      selection come sits at `k` past the whole first selection. */
  lemma TakeConcatSecondPositions<T>(s: seq<T>, a: seq<T>, b: seq<T>, n: nat, q: T -> bool)
    requires forall j {:trigger CountIf(s[..j], q)} :: 0 <= j < |s| && q(s[j]) ==>
      CountIf(s[..j], q) < |b| && b[CountIf(s[..j], q)] == s[j]
    ensures forall j {:trigger CountIf(s[..j], q)} ::
      0 <= j < |s| && q(s[j]) && |a| + CountIf(s[..j], q) < |Take(a + b, n)| ==>
        Take(a + b, n)[|a| + CountIf(s[..j], q)] == s[j]
  {
    forall j | 0 <= j < |s| && q(s[j]) && |a| + CountIf(s[..j], q) < |Take(a + b, n)|
      ensures Take(a + b, n)[|a| + CountIf(s[..j], q)] == s[j]
    {
      TakeConcatAt(a, b, n, CountIf(s[..j], q));
    }
  }

  /** Within the first list, a prefix of a concatenation reads the first. */
  lemma TakeConcatFront<T>(a: seq<T>, b: seq<T>, n: nat, k: nat)
    requires k < |a| && k < |Take(a + b, n)|
    ensures Take(a + b, n)[k] == a[k]
  {
  }

  /** An element of `s` that `Take(s, n)` leaves out sits at position `n`
      or later, so `n` elements were taken. */
  lemma TakeMissing<T>(s: seq<T>, n: nat, y: T) returns (m: nat)
    requires y in s && y !in Take(s, n)
    ensures |Take(s, n)| == n && n <= m < |s| && s[m] == y
  {
    m :| 0 <= m < |s| && s[m] == y;
    assert forall i :: 0 <= i < |Take(s, n)| ==> Take(s, n)[i] == s[i];
  }

  /** `s.slice(a, b)` for non-negative bounds: the elements at positions
      `a` up to (excluding) `b` that exist. */
  function Slice<T>(s: seq<T>, a: nat, b: nat): (r: seq<T>)
    ensures |r| == Max(0, Min(b, |s|) - a)
    ensures forall i :: 0 <= i < |r| ==> a + i < |s| && r[i] == s[a + i]
  {
    var lo := Min(a, |s|);
    var hi := Max(lo, Min(b, |s|));
    s[lo..hi]
  }

  /** `s.slice(a)`. */
  function Drop<T>(s: seq<T>, a: nat): (r: seq<T>)
    ensures |r| == Max(0, |s| - a)
    ensures forall i :: 0 <= i < |r| ==> r[i] == s[a + i]
  {
    if a <= |s| then s[a..] else []
  }

  /** `s.filter(f)`: the elements that satisfy `f`, in order. */
  function Filter<T(!new)>(s: seq<T>, f: T -> bool): (r: seq<T>)
    ensures |r| <= |s|
    ensures forall i :: 0 <= i < |r| ==> f(r[i])
    ensures forall x :: x in r <==> x in s && f(x)
    decreases |s|
  {
    if s == [] then []
    else if f(s[0]) then [s[0]] + Filter(s[1..], f)
    else Filter(s[1..], f)
  }

  lemma {:induction false} FilterAppend<T(!new)>(a: seq<T>, b: seq<T>, f: T -> bool)
    ensures Filter(a + b, f) == Filter(a, f) + Filter(b, f)
    decreases |a|
  {
    if a == [] {
      assert a + b == b;
    } else {
      assert (a + b)[1..] == a[1..] + b;
      FilterAppend(a[1..], b, f);
    }
  }

  /** The number of elements of `s` that satisfy `f`. */
  function CountIf<T>(s: seq<T>, f: T -> bool): (n: nat)
    decreases |s|
  {
    if s == [] then 0 else (if f(s[0]) then 1 else 0) + CountIf(s[1..], f)
  }

  lemma {:induction false} CountIfIsFilterLength<T(!new)>(s: seq<T>, f: T -> bool)
    ensures CountIf(s, f) == |Filter(s, f)|
    decreases |s|
  {
    if s != [] {
      CountIfIsFilterLength(s[1..], f);
    }
  }

  /** An element that passes the filter lands right after the elements
      before it that pass: at the position given by their number. */
  lemma FilterAt<T(!new)>(s: seq<T>, f: T -> bool, j: nat)
    requires j < |s| && f(s[j])
    ensures CountIf(s[..j], f) < |Filter(s, f)| && Filter(s, f)[CountIf(s[..j], f)] == s[j]
  {
    var rest := [s[j]] + s[j + 1..];
    assert s == s[..j] + rest;
    assert rest[1..] == s[j + 1..];
    FilterAppend(s[..j], rest, f);
    CountIfIsFilterLength(s[..j], f);
  }

  /** The filter keeps exactly the elements that pass, in order: as many
      as pass, each at the position given by the number passing before
      it. */
  lemma FilterExactly<T(!new)>(s: seq<T>, f: T -> bool)
    ensures |Filter(s, f)| == CountIf(s, f)
    ensures forall j {:trigger CountIf(s[..j], f)} :: 0 <= j < |s| && f(s[j]) ==>
      CountIf(s[..j], f) < |Filter(s, f)| && Filter(s, f)[CountIf(s[..j], f)] == s[j]
  {
    CountIfIsFilterLength(s, f);
    forall j | 0 <= j < |s| && f(s[j])
      ensures CountIf(s[..j], f) < |Filter(s, f)| && Filter(s, f)[CountIf(s[..j], f)] == s[j]
    {
      FilterAt(s, f, j);
    }
  }

  /** Two elements that pass keep their order. */
  lemma FilterKeepsOrder<T(!new)>(s: seq<T>, f: T -> bool, i: nat, j: nat)
    requires i < j < |s| && f(s[i])
    ensures CountIf(s[..i], f) < CountIf(s[..j], f)
  {
    var mid := s[i..j];
    assert s[..j] == s[..i] + mid;
    assert mid[0] == s[i] && mid == [mid[0]] + mid[1..];
    FilterAppend(s[..i], mid, f);
    CountIfIsFilterLength(s[..i], f);
    CountIfIsFilterLength(s[..j], f);
  }

  /** `s.filter((x, i) => s.indexOf(x) === i)`: the first occurrence of
      every element, in order of first appearance. */
  function Dedup<T(==,!new)>(s: seq<T>): (r: seq<T>)
    ensures Distinct(r)
    ensures forall x :: x in r <==> x in s
    ensures |r| <= |s|
    decreases |s|
  {
    if s == [] then []
    else
      var init := s[..|s| - 1];
      var last := s[|s| - 1];
      var d := Dedup(init);
      assert forall i :: 0 <= i < |s| - 1 ==> s[i] == init[i];
      if last in init then d else d + [last]
  }

  /** A list with no repeated element is left as it is. */
  lemma {:induction false} DedupOfDistinct<T(!new)>(s: seq<T>)
    requires Distinct(s)
    ensures Dedup(s) == s
    decreases |s|
  {
    if s != [] {
      var init := s[..|s| - 1];
      DedupOfDistinct(init);
      assert s == init + [s[|s| - 1]];
    }
  }

  lemma DedupIdempotent<T(!new)>(s: seq<T>)
    ensures Dedup(Dedup(s)) == Dedup(s)
  {
    DedupOfDistinct(Dedup(s));
  }

  /** De-duplication commutes with appending an element: the new element is
      kept exactly when it has not been seen. */
  /** The first `i + 1` elements are the first `i` and then the next. */
  lemma TakeSnoc<T>(s: seq<T>, i: nat)
    requires i < |s|
    ensures s[..i + 1] == s[..i] + [s[i]]
  {
  }

  lemma DedupSnoc<T(!new)>(s: seq<T>, x: T)
    ensures Dedup(s + [x]) == if x in s then Dedup(s) else Dedup(s) + [x]
  {
    assert (s + [x])[..|s + [x]| - 1] == s;
  }

  /** The position of the first occurrence of `x` in `s`. */
  function FirstIndex<T(==)>(s: seq<T>, x: T): (k: nat)
    requires x in s
    ensures k < |s| && s[k] == x && x !in s[..k]
  {
    if s[0] == x then 0
    else
      var k := FirstIndex(s[1..], x);
      assert s[..k + 1] == [s[0]] + s[1..][..k];
      k + 1
  }

  /** An occurrence with no `x` before it is the first one. */
  lemma FirstIndexUnique<T>(s: seq<T>, x: T, k: nat)
    requires k < |s| && s[k] == x && x !in s[..k]
    ensures FirstIndex(s, x) == k
  {
    var f := FirstIndex(s, x);
    assert forall i :: 0 <= i < f ==> s[..f][i] == s[i];
    assert forall i :: 0 <= i < k ==> s[..k][i] == s[i];
  }

  lemma FirstIndexSnoc<T>(s: seq<T>, x: T, y: T)
    requires y in s + [x]
    ensures FirstIndex(s + [x], y) == if y in s then FirstIndex(s, y) else |s|
  {
    if y in s {
      var k := FirstIndex(s, y);
      assert (s + [x])[..k] == s[..k];
      FirstIndexUnique(s + [x], y, k);
    } else {
      assert (s + [x])[..|s|] == s;
      FirstIndexUnique(s + [x], y, |s|);
    }
  }

  /** `Dedup` lists the elements in the order of their first occurrences. */
  lemma {:induction false} DedupOrder<T(!new)>(s: seq<T>)
    ensures forall i, j :: 0 <= i < j < |Dedup(s)| ==> FirstIndex(s, Dedup(s)[i]) < FirstIndex(s, Dedup(s)[j])
    decreases |s|
  {
    if s != [] {
      var init, last := s[..|s| - 1], s[|s| - 1];
      assert s == init + [last];
      DedupOrder(init);
      DedupSnoc(init, last);
      var d := Dedup(init);
      forall y | y in d
        ensures FirstIndex(s, y) == FirstIndex(init, y)
      {
        FirstIndexSnoc(init, last, y);
      }
      if last !in init {
        FirstIndexSnoc(init, last, last);
        assert Dedup(s) == d + [last];
      }
    }
  }

  /** `s.find(f)`: the first element satisfying `f`, if any. */
  function Find<T>(s: seq<T>, f: T -> bool): (r: Option<T>)
    ensures r.None? <==> forall i :: 0 <= i < |s| ==> !f(s[i])
    ensures r.Some? ==> exists i :: 0 <= i < |s| && s[i] == r.value && f(s[i]) && forall j :: 0 <= j < i ==> !f(s[j])
    decreases |s|
  {
    if s == [] then None
    else if f(s[0]) then Some(s[0])
    else
      var r := Find(s[1..], f);
      assert forall i :: 1 <= i < |s| ==> s[i] == s[1..][i - 1];
      r
  }

  /** Looking for the first match in the de-duplicated list finds the same
      element as looking in the original list. */
  lemma {:induction false} FindDedup<T(!new)>(s: seq<T>, f: T -> bool)
    ensures Find(Dedup(s), f) == Find(s, f)
    decreases |s|
  {
    if s != [] {
      var init := s[..|s| - 1];
      var last := s[|s| - 1];
      assert s == init + [last];
      FindDedup(init, f);
      FindSnoc(init, last, f);
      if last !in init {
        FindSnoc(Dedup(init), last, f);
      }
    }
  }

  lemma {:induction false} FindSnoc<T>(s: seq<T>, x: T, f: T -> bool)
    ensures Find(s + [x], f) == if Find(s, f).Some? then Find(s, f) else if f(x) then Some(x) else None
    decreases |s|
  {
    if s != [] {
      assert (s + [x])[1..] == s[1..] + [x];
      FindSnoc(s[1..], x, f);
    }
  }

  /** De-duplicating a list that starts with a duplicate-free one keeps
      that one in front. */
  lemma {:induction false} DedupKeepsPrefix<T(!new)>(a: seq<T>, b: seq<T>)
    requires Distinct(a)
    ensures |a| <= |Dedup(a + b)| && Dedup(a + b)[..|a|] == a
    decreases |b|
  {
    if b == [] {
      assert a + b == a;
      DedupOfDistinct(a);
    } else {
      var init := b[..|b| - 1];
      DedupKeepsPrefix(a, init);
      assert a + b == (a + init) + [b[|b| - 1]];
      DedupSnoc(a + init, b[|b| - 1]);
    }
  }

  /** The number of times `x` occurs in `s`. */
  function Count<T(==)>(s: seq<T>, x: T): (n: nat)
    ensures n <= |s|
    ensures n > 0 <==> x in s
    decreases |s|
  {
    if s == [] then 0 else Count(s[..|s| - 1], x) + (if s[|s| - 1] == x then 1 else 0)
  }

  /** Where `x` goes in a list ranked by descending `score`: after every
      element scoring at least as much. */
  function InsertPos<T>(sorted: seq<T>, x: T, score: T -> int): (k: nat)
    ensures k <= |sorted|
    ensures forall i :: 0 <= i < k ==> score(sorted[i]) >= score(x)
    ensures k < |sorted| ==> score(sorted[k]) < score(x)
    decreases |sorted|
  {
    if sorted == [] || score(sorted[0]) < score(x) then 0
    else 1 + InsertPos(sorted[1..], x, score)
  }

  function Insert<T>(sorted: seq<T>, x: T, score: T -> int): seq<T> {
    var k := InsertPos(sorted, x, score);
    sorted[..k] + [x] + sorted[k..]
  }

  /** The stable sort by descending `score` (the comparator
      `(a, b) => score(b) - score(a)`): each element is inserted after the
      ones before it that score at least as much. */
  function RankBy<T>(keys: seq<T>, score: T -> int): (r: seq<T>)
    ensures |r| == |keys|
    ensures multiset(r) == multiset(keys)
    decreases |keys|
  {
    if keys == [] then []
    else
      var init := keys[..|keys| - 1];
      var s := RankBy(init, score);
      var k := InsertPos(s, keys[|keys| - 1], score);
      assert keys == init + [keys[|keys| - 1]];
      assert s == s[..k] + s[k..];
      Insert(s, keys[|keys| - 1], score)
  }

  /** `s` is ordered by descending `score`. */
  predicate Ranked<T>(s: seq<T>, score: T -> int) {
    forall i, j :: 0 <= i < j < |s| ==> score(s[i]) >= score(s[j])
  }

  lemma InsertRanked<T>(s: seq<T>, x: T, score: T -> int)
    requires Ranked(s, score)
    ensures Ranked(Insert(s, x, score), score)
  {
    var k := InsertPos(s, x, score);
    var r := Insert(s, x, score);
    InsertElements(s, x, score);
    forall i, j | 0 <= i < j < |r|
      ensures score(r[i]) >= score(r[j])
    {
      if j < k {
        assert score(s[i]) >= score(s[j]);
      } else if j == k {
        assert score(s[i]) >= score(x);
      } else if i < k {
        assert score(s[i]) >= score(s[j - 1]);
      } else if i == k {
        assert score(s[k]) >= score(s[j - 1]);
      } else {
        assert score(s[i - 1]) >= score(s[j - 1]);
      }
    }
  }

  /** The element of `Insert(s, x, score)` at each index. */
  lemma InsertElements<T>(s: seq<T>, x: T, score: T -> int)
    ensures var k := InsertPos(s, x, score);
      var r := Insert(s, x, score);
      |r| == |s| + 1 && forall i :: 0 <= i < |r| ==> r[i] == if i < k then s[i] else if i == k then x else s[i - 1]
  {
  }

  lemma InsertDistinct<T>(s: seq<T>, x: T, score: T -> int)
    requires Distinct(s) && x !in s
    ensures Distinct(Insert(s, x, score))
  {
    var k := InsertPos(s, x, score);
    var r := Insert(s, x, score);
    assert forall i :: 0 <= i < |r| ==> r[i] == if i < k then s[i] else if i == k then x else s[i - 1];
  }

  /** The ranking is ordered by descending score. */
  lemma {:induction false} RankByRanked<T>(keys: seq<T>, score: T -> int)
    ensures Ranked(RankBy(keys, score), score)
    decreases |keys|
  {
    if keys != [] {
      var init := keys[..|keys| - 1];
      RankByRanked(init, score);
      InsertRanked(RankBy(init, score), keys[|keys| - 1], score);
    }
  }

  /** Ranking keys without repeats gives a ranking without repeats. */
  lemma {:induction false} RankByDistinct<T>(keys: seq<T>, score: T -> int)
    requires Distinct(keys)
    ensures Distinct(RankBy(keys, score))
    decreases |keys|
  {
    if keys != [] {
      var init := keys[..|keys| - 1];
      var x := keys[|keys| - 1];
      assert Distinct(init);
      RankByDistinct(init, score);
      assert x !in init;
      assert x !in multiset(RankBy(init, score));
      InsertDistinct(RankBy(init, score), x, score);
    }
  }

  /** The ranking depends only on the scores of the keys. */
  lemma {:induction false} RankByScores<T>(keys: seq<T>, score: T -> int, score': T -> int)
    requires forall x :: x in keys ==> score(x) == score'(x)
    ensures RankBy(keys, score) == RankBy(keys, score')
    decreases |keys|
  {
    if keys != [] {
      var init := keys[..|keys| - 1];
      var x := keys[|keys| - 1];
      RankByScores(init, score, score');
      var s := RankBy(init, score);
      assert forall y :: y in s ==> y in multiset(init);
      InsertPosScores(s, x, score, score');
    }
  }

  lemma {:induction false} InsertPosScores<T>(sorted: seq<T>, x: T, score: T -> int, score': T -> int)
    requires score(x) == score'(x)
    requires forall y :: y in sorted ==> score(y) == score'(y)
    ensures InsertPos(sorted, x, score) == InsertPos(sorted, x, score')
    decreases |sorted|
  {
    if sorted != [] {
      InsertPosScores(sorted[1..], x, score, score');
    }
  }

  /** The values `f` yields, in order, skipping the elements it yields
      nothing for (a loop that pushes what each element produces). */
  function FilterMap<A, B>(xs: seq<A>, f: A -> Option<B>): (r: seq<B>)
    ensures |r| <= |xs|
    decreases |xs|
  {
    if xs == [] then []
    else
      var y := f(xs[|xs| - 1]);
      FilterMap(xs[..|xs| - 1], f) + (if y.Some? then [y.value] else [])
  }

  lemma FilterMapSnoc<A, B>(xs: seq<A>, x: A, f: A -> Option<B>)
    ensures FilterMap(xs + [x], f) == FilterMap(xs, f) + (if f(x).Some? then [f(x).value] else [])
  {
    assert (xs + [x])[..|xs|] == xs;
  }

  /** The loop that pushes what each element yields, in order. */
  method Collect<A, B>(xs: seq<A>, f: A -> Option<B>) returns (r: seq<B>)
    ensures r == FilterMap(xs, f)
  {
    r := [];
    var i := 0;
    assert xs[..0] == [];
    while i < |xs|
      invariant 0 <= i <= |xs|
      invariant r == FilterMap(xs[..i], f)
    {
      var y := f(xs[i]);
      TakeSnoc(xs, i);
      FilterMapSnoc(xs[..i], xs[i], f);
      if y.Some? {
        r := r + [y.value];
      }
      i := i + 1;
    }
    assert xs[..i] == xs;
  }

  /** A value is produced exactly when some element yields it. */
  lemma {:induction false} FilterMapMembers<A, B>(xs: seq<A>, f: A -> Option<B>, y: B)
    ensures y in FilterMap(xs, f) <==> exists j :: 0 <= j < |xs| && f(xs[j]) == Some(y)
    decreases |xs|
  {
    if xs != [] {
      var init := xs[..|xs| - 1];
      FilterMapMembers(init, f, y);
      if exists j :: 0 <= j < |xs| && f(xs[j]) == Some(y) {
        var j :| 0 <= j < |xs| && f(xs[j]) == Some(y);
        if j < |init| {
          assert f(init[j]) == Some(y);
        }
      }
      if exists j :: 0 <= j < |init| && f(init[j]) == Some(y) {
        var j :| 0 <= j < |init| && f(init[j]) == Some(y);
        assert xs[j] == init[j];
      }
    }
  }

  /** The lists `f` gives for the elements, one after another. */
  function FlatMap<A, B>(xs: seq<A>, f: A -> seq<B>): (r: seq<B>)
    decreases |xs|
  {
    if xs == [] then [] else FlatMap(xs[..|xs| - 1], f) + f(xs[|xs| - 1])
  }

  lemma FlatMapSnoc<A, B>(xs: seq<A>, x: A, f: A -> seq<B>)
    ensures FlatMap(xs + [x], f) == FlatMap(xs, f) + f(x)
  {
    assert (xs + [x])[..|xs|] == xs;
  }

  /** At most `k` from each element gives at most `k` times as many. */
  lemma {:induction false} FlatMapLength<A, B>(xs: seq<A>, f: A -> seq<B>, k: nat)
    requires forall j :: 0 <= j < |xs| ==> |f(xs[j])| <= k
    ensures |FlatMap(xs, f)| <= k * |xs|
    decreases |xs|
  {
    if xs != [] {
      var init := xs[..|xs| - 1];
      assert forall j :: 0 <= j < |init| ==> init[j] == xs[j];
      FlatMapLength(init, f, k);
      assert |FlatMap(xs, f)| == |FlatMap(init, f)| + |f(xs[|xs| - 1])|;
      assert k * |xs| == k * |init| + k;
    }
  }

  /** Every value comes from some element's list. */
  lemma {:induction false} FlatMapMembers<A, B>(xs: seq<A>, f: A -> seq<B>, y: B)
    requires y in FlatMap(xs, f)
    ensures exists j :: 0 <= j < |xs| && y in f(xs[j])
    decreases |xs|
  {
    var init := xs[..|xs| - 1];
    if y in FlatMap(init, f) {
      FlatMapMembers(init, f, y);
      var j :| 0 <= j < |init| && y in f(init[j]);
      assert xs[j] == init[j];
    } else {
      assert y in f(xs[|xs| - 1]);
    }
  }
}
