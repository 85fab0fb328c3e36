/** `Array.prototype.filter`, `map` and stable sorting on sequences. */
module Seqs {

  /** `a` is `b` with some elements left out, order kept. */
  predicate IsSubsequence<T(==)>(a: seq<T>, b: seq<T>)
    decreases |b|
  {
    if |a| == 0 then true
    else if |b| == 0 then false
    else if a[0] == b[0] then IsSubsequence(a[1..], b[1..])
    else IsSubsequence(a, b[1..])
  }

  /** `s.filter(p)` */
  function Filter<T>(s: seq<T>, p: T -> bool): (r: seq<T>)
    ensures |r| <= |s|
    ensures forall x :: x in r ==> x in s && p(x)
    ensures forall x :: x in s && p(x) ==> x in r
  {
    if |s| == 0 then []
    else
      var rest := Filter(s[1..], p);
      assert forall x :: x in s ==> x == s[0] || x in s[1..];
      if p(s[0]) then [s[0]] + rest else rest
  }

  /** The kept elements appear in their original order. */
  lemma {:induction false} FilterIsSubsequence<T>(s: seq<T>, p: T -> bool)
    ensures IsSubsequence(Filter(s, p), s)
  {
    if |s| > 0 {
      FilterIsSubsequence(s[1..], p);
    }
  }

  /** The filter keeps every copy of an element that passes and none of
      one that does not. */
  lemma {:induction false} FilterMultiset<T>(s: seq<T>, p: T -> bool)
    ensures forall x :: multiset(Filter(s, p))[x] == if p(x) then multiset(s)[x] else 0
  {
    if |s| > 0 {
      FilterMultiset(s[1..], p);
      assert s == [s[0]] + s[1..];
      assert multiset(s) == multiset([s[0]]) + multiset(s[1..]);
    }
  }

  lemma {:induction false} SubsequenceRefl<T>(s: seq<T>)
    ensures IsSubsequence(s, s)
  {
    if |s| > 0 { SubsequenceRefl(s[1..]); }
  }

  /** Leaving out a new last element keeps a subsequence. */
  lemma {:induction false} SubsequenceExtend<T>(a: seq<T>, b: seq<T>, x: T)
    requires IsSubsequence(a, b)
    ensures IsSubsequence(a, b + [x])
    decreases |b|
  {
    if |a| > 0 && |b| > 0 {
      assert (b + [x])[1..] == b[1..] + [x];
      if a[0] == b[0] {
        SubsequenceExtend(a[1..], b[1..], x);
      } else {
        SubsequenceExtend(a, b[1..], x);
      }
    }
  }

  /** Keeping a new last element keeps a subsequence. */
  lemma {:induction false} SubsequenceAppend<T>(a: seq<T>, b: seq<T>, x: T)
    requires IsSubsequence(a, b)
    ensures IsSubsequence(a + [x], b + [x])
    decreases |b|
  {
    if |a| == 0 {
      if |b| > 0 {
        assert (b + [x])[1..] == b[1..] + [x];
        SubsequenceAppend(a, b[1..], x);
        assert IsSubsequence(a + [x], (b + [x])[1..]);
      }
    } else {
      assert (a + [x])[1..] == a[1..] + [x];
      assert (b + [x])[1..] == b[1..] + [x];
      if a[0] == b[0] {
        SubsequenceAppend(a[1..], b[1..], x);
      } else {
        SubsequenceAppend(a, b[1..], x);
      }
    }
  }

  /** Every element of a subsequence is an element of the whole. */
  lemma {:induction false} SubsequenceMembers<T>(a: seq<T>, b: seq<T>)
    requires IsSubsequence(a, b)
    ensures forall x :: x in a ==> x in b
    decreases |b|
  {
    if |a| > 0 {
      assert forall x :: x in b[1..] ==> x in b;
      if a[0] == b[0] {
        SubsequenceMembers(a[1..], b[1..]);
        assert forall x :: x in a ==> x == a[0] || x in a[1..];
      } else {
        SubsequenceMembers(a, b[1..]);
      }
    }
  }

  /** A predicate that keeps everything changes nothing. */
  lemma {:induction false} FilterKeepsAll<T>(s: seq<T>, p: T -> bool)
    requires forall x :: x in s ==> p(x)
    ensures Filter(s, p) == s
  {
    if |s| > 0 {
      assert forall x :: x in s[1..] ==> x in s;
      FilterKeepsAll(s[1..], p);
    }
  }

  /** Filtering twice is filtering by the conjunction. */
  lemma {:induction false} FilterFilter<T>(s: seq<T>, p: T -> bool, q: T -> bool)
    ensures Filter(Filter(s, p), q) == Filter(s, x => p(x) && q(x))
  {
    if |s| > 0 {
      FilterFilter(s[1..], p, q);
    }
  }

  // ---- stable sort by a numeric key, largest first ----

  /** Each element's key is at least the next one's. */
  predicate SortedDesc<T>(s: seq<T>, key: T -> real) {
    forall i :: 0 < i < |s| ==> key(s[i - 1]) >= key(s[i])
  }

  /** Sorted neighbours mean sorted pairs. */
  lemma {:induction false} SortedDescPairs<T>(s: seq<T>, key: T -> real, i: int, j: int)
    requires SortedDesc(s, key) && 0 <= i <= j < |s|
    ensures key(s[i]) >= key(s[j])
    decreases j - i
  {
    if i < j {
      SortedDescPairs(s, key, i + 1, j);
    }
  }

  /** Inserts `x` after every element whose key is at least its own, so equal
      keys keep their arrival order. */
  function InsertDesc<T>(s: seq<T>, x: T, key: T -> real): (r: seq<T>)
    requires SortedDesc(s, key)
    ensures SortedDesc(r, key)
    ensures |r| == |s| + 1 && (r[0] == x || (|s| > 0 && r[0] == s[0]))
  {
    if |s| == 0 then [x]
    else if key(s[0]) >= key(x) then [s[0]] + InsertDesc(s[1..], x, key)
    else [x] + s
  }

  /** Insertion adds exactly `x`. */
  lemma {:induction false} InsertDescCount<T>(s: seq<T>, x: T, key: T -> real)
    requires SortedDesc(s, key)
    ensures multiset(InsertDesc(s, x, key)) == multiset(s) + multiset{x}
  {
    if |s| > 0 && key(s[0]) >= key(x) {
      InsertDescCount(s[1..], x, key);
      assert s == [s[0]] + s[1..];
    }
  }

  /** `[...s].sort((a, b) => key(b) - key(a))`: largest key first, and
      stable (`SortDescStable`). */
  function SortDesc<T>(s: seq<T>, key: T -> real): (r: seq<T>)
    ensures SortedDesc(r, key)
    ensures multiset(r) == multiset(s)
    ensures |r| == |s|
  {
    if |s| == 0 then []
    else
      assert s == s[..|s| - 1] + [s[|s| - 1]];
      InsertDescCount(SortDesc(s[..|s| - 1], key), s[|s| - 1], key);
      InsertDesc(SortDesc(s[..|s| - 1], key), s[|s| - 1], key)
  }

  /** The elements whose key is `v`. */
  function KeyIs<T>(key: T -> real, v: real): T -> bool { x => key(x) == v }

  /** `[x]` when `x` has key `v`, else nothing. */
  function IfKey<T>(x: T, key: T -> real, v: real): seq<T> { if key(x) == v then [x] else [] }

  lemma {:induction false} FilterCons<T>(x: T, t: seq<T>, p: T -> bool)
    ensures Filter([x] + t, p) == (if p(x) then [x] else []) + Filter(t, p)
  {
    assert ([x] + t)[0] == x && ([x] + t)[1..] == t;
  }

  lemma {:induction false} FilterSnoc<T>(t: seq<T>, x: T, p: T -> bool)
    ensures Filter(t + [x], p) == Filter(t, p) + (if p(x) then [x] else [])
    decreases |t|
  {
    var xs := if p(x) then [x] else [];
    if |t| == 0 {
      assert t + [x] == [x] + [];
      FilterCons(x, [], p);
    } else {
      var hd := if p(t[0]) then [t[0]] else [];
      var tail := t[1..] + [x];
      assert t + [x] == [t[0]] + tail;
      FilterCons(t[0], tail, p);
      assert Filter(t + [x], p) == hd + Filter(tail, p);
      FilterSnoc(t[1..], x, p);
      assert Filter(tail, p) == Filter(t[1..], p) + xs;
      assert t == [t[0]] + t[1..];
      FilterCons(t[0], t[1..], p);
      assert Filter(t, p) == hd + Filter(t[1..], p);
      AppendAssoc(hd, Filter(t[1..], p), xs);
    }
  }

  /** No element of a descending sequence headed below `v` has key `v`. */
  lemma {:induction false} FilterBelowEmpty<T>(s: seq<T>, key: T -> real, v: real)
    requires SortedDesc(s, key) && |s| > 0 && key(s[0]) < v
    ensures Filter(s, KeyIs(key, v)) == []
  {
    var f := Filter(s, KeyIs(key, v));
    if |f| > 0 {
      assert f[0] in f;
      var i :| 0 <= i < |s| && s[i] == f[0];
      SortedDescPairs(s, key, 0, i);
    }
  }

  lemma FilterHead<T>(s: seq<T>, p: T -> bool)
    requires |s| > 0
    ensures Filter(s, p) == (if p(s[0]) then [s[0]] else []) + Filter(s[1..], p)
  {
  }

  lemma LastSplit<T>(s: seq<T>)
    requires |s| > 0
    ensures s == s[..|s| - 1] + [s[|s| - 1]]
  {
  }

  /** Inserting `x` puts it after every kept element of its own key. */
  lemma {:induction false} InsertDescFilter<T>(s: seq<T>, x: T, key: T -> real, v: real)
    requires SortedDesc(s, key)
    ensures Filter(InsertDesc(s, x, key), KeyIs(key, v)) == Filter(s, KeyIs(key, v)) + IfKey(x, key, v)
  {
    if |s| == 0 {
      FilterCons(x, [], KeyIs(key, v));
    } else if key(s[0]) >= key(x) {
      InsertDescFilter(s[1..], x, key, v);
      FilterBehindHead(InsertDesc(s, x, key), s, InsertDesc(s[1..], x, key), KeyIs(key, v), IfKey(x, key, v));
    } else {
      FilterCons(x, s, KeyIs(key, v));
      if key(x) == v {
        FilterBelowEmpty(s, key, v);
      }
    }
  }

  /** Putting the head of `s` before `rest` adds it before the kept
      elements. */
  lemma FilterBehindHead<T>(r: seq<T>, s: seq<T>, rest: seq<T>, p: T -> bool, tail: seq<T>)
    requires |s| > 0 && r == [s[0]] + rest && Filter(rest, p) == Filter(s[1..], p) + tail
    ensures Filter(r, p) == Filter(s, p) + tail
  {
    var a := if p(s[0]) then [s[0]] else [];
    FilterCons(s[0], rest, p);
    AppendAssoc(a, Filter(s[1..], p), tail);
    FilterHead(s, p);
  }

  lemma AppendAssoc<T>(a: seq<T>, b: seq<T>, c: seq<T>)
    ensures a + (b + c) == (a + b) + c
  {
  }

  /** Stability: the elements of any one key come out in their input order. */
  lemma {:induction false} SortDescStable<T>(s: seq<T>, key: T -> real, v: real)
    ensures Filter(SortDesc(s, key), KeyIs(key, v)) == Filter(s, KeyIs(key, v))
    decreases |s|
  {
    if |s| > 0 {
      var p := KeyIs(key, v);
      var init, last := s[..|s| - 1], s[|s| - 1];
      LastSplit(s);
      FilterSnoc(init, last, p);
      assert Filter(s, p) == Filter(init, p) + IfKey(last, key, v);
      var sortedInit := SortDesc(init, key);
      assert SortDesc(s, key) == InsertDesc(sortedInit, last, key);
      SortDescStable(init, key, v);
      InsertDescFilter(sortedInit, last, key, v);
    }
  }

  // ---- sort by a string key, ascending ----

  /** Code-unit order on strings, as `<` on JavaScript strings. */
  predicate StringLess(a: string, b: string) {
    if |a| == 0 then |b| > 0
    else if |b| == 0 then false
    else if a[0] != b[0] then a[0] < b[0]
    else StringLess(a[1..], b[1..])
  }

  predicate StringLessEq(a: string, b: string) { a == b || StringLess(a, b) }

  lemma {:induction false} StringLessTotal(a: string, b: string)
    ensures StringLess(a, b) || a == b || StringLess(b, a)
  {
    if |a| > 0 && |b| > 0 && a[0] == b[0] {
      StringLessTotal(a[1..], b[1..]);
      if a[1..] == b[1..] {
        assert a == [a[0]] + a[1..] && b == [b[0]] + b[1..];
      }
    }
  }

  lemma {:induction false} StringLessTrans(a: string, b: string, c: string)
    requires StringLess(a, b) && StringLess(b, c)
    ensures StringLess(a, c)
  {
    if |a| > 0 && a[0] == b[0] && b[0] == c[0] {
      StringLessTrans(a[1..], b[1..], c[1..]);
    }
  }

  lemma {:induction false} StringLessIrreflexive(a: string)
    ensures !StringLess(a, a)
  {
    if |a| > 0 {
      StringLessIrreflexive(a[1..]);
    }
  }

  /** Each element's key is at most the next one's. */
  predicate SortedAscByString<T>(s: seq<T>, key: T -> string) {
    forall i :: 0 < i < |s| ==> StringLessEq(key(s[i - 1]), key(s[i]))
  }

  lemma {:induction false} SortedAscPairs<T>(s: seq<T>, key: T -> string, i: int, j: int)
    requires SortedAscByString(s, key) && 0 <= i <= j < |s|
    ensures StringLessEq(key(s[i]), key(s[j]))
    decreases j - i
  {
    if i < j {
      SortedAscPairs(s, key, i + 1, j);
      LessEqTrans(key(s[i]), key(s[i + 1]), key(s[j]));
    }
  }

  function InsertAsc<T>(s: seq<T>, x: T, key: T -> string): (r: seq<T>)
    requires SortedAscByString(s, key)
    ensures SortedAscByString(r, key)
    ensures |r| == |s| + 1 && (r[0] == x || (|s| > 0 && r[0] == s[0]))
  {
    if |s| == 0 then [x]
    else if StringLessEq(key(s[0]), key(x)) then [s[0]] + InsertAsc(s[1..], x, key)
    else
      StringLessTotal(key(s[0]), key(x));
      [x] + s
  }

  lemma {:induction false} InsertAscCount<T>(s: seq<T>, x: T, key: T -> string)
    requires SortedAscByString(s, key)
    ensures multiset(InsertAsc(s, x, key)) == multiset(s) + multiset{x}
  {
    if |s| > 0 && StringLessEq(key(s[0]), key(x)) {
      InsertAscCount(s[1..], x, key);
      assert s == [s[0]] + s[1..];
    }
  }

  lemma LessEqTrans(a: string, b: string, c: string)
    requires StringLessEq(a, b) && StringLessEq(b, c)
    ensures StringLessEq(a, c)
  {
    if StringLess(a, b) && StringLess(b, c) {
      StringLessTrans(a, b, c);
    }
  }

  /** `[...s].sort(([a], [b]) => a.localeCompare(b))`, with the comparison
      taken as code-unit order. */
  function SortAscByString<T>(s: seq<T>, key: T -> string): (r: seq<T>)
    ensures SortedAscByString(r, key)
    ensures multiset(r) == multiset(s)
    ensures |r| == |s|
  {
    if |s| == 0 then []
    else
      assert s == s[..|s| - 1] + [s[|s| - 1]];
      InsertAscCount(SortAscByString(s[..|s| - 1], key), s[|s| - 1], key);
      InsertAsc(SortAscByString(s[..|s| - 1], key), s[|s| - 1], key)
  }
}
