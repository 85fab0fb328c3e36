/** Insertion-ordered string-keyed maps: the plain JavaScript objects the
    source builds with `obj[key] = value` and reads back with
    `Object.keys` / `Object.entries`, which list keys in insertion order. */
module Assoc {
  import opened Wrappers

  type AList<V> = seq<(string, V)>

  function Keys<V>(m: AList<V>): (r: seq<string>)
    ensures |r| == |m| && forall i :: 0 <= i < |m| ==> r[i] == m[i].0
  {
    if |m| == 0 then [] else [m[0].0] + Keys(m[1..])
  }

  function Values<V>(m: AList<V>): (r: seq<V>)
    ensures |r| == |m| && forall i :: 0 <= i < |m| ==> r[i] == m[i].1
  {
    if |m| == 0 then [] else [m[0].1] + Values(m[1..])
  }

  predicate HasKey<V>(m: AList<V>, k: string) { k in Keys(m) }

  /** Every key occurs once, as in a JavaScript object. */
  predicate UniqueKeys<V>(m: AList<V>) {
    forall i, j :: 0 <= i < j < |m| ==> m[i].0 != m[j].0
  }

  /** `obj[k]`: the value stored under `k`, `None` for `undefined`. */
  function Get<V>(m: AList<V>, k: string): (r: Option<V>)
    ensures r.Some? <==> HasKey(m, k)
    ensures r.Some? ==> (k, r.value) in m
  {
    if |m| == 0 then None
    else if m[0].0 == k then Some(m[0].1)
    else
      assert Keys(m) == [m[0].0] + Keys(m[1..]);
      Get(m[1..], k)
  }

  /** `obj[k] ?? d` */
  function GetOr<V>(m: AList<V>, k: string, d: V): V {
    Get(m, k).GetOr(d)
  }

  lemma {:induction false} GetEntry<V>(m: AList<V>, i: nat)
    requires UniqueKeys(m) && i < |m|
    ensures Get(m, m[i].0) == Some(m[i].1)
  {
    if i > 0 {
      assert m[0].0 != m[i].0;
      GetEntry(m[1..], i - 1);
    }
  }

  /** `obj[k] = v`: overwrites in place when `k` is present (its position in
      the key order is kept, see `PutKeys`), otherwise appends. */
  function Put<V>(m: AList<V>, k: string, v: V): (r: AList<V>)
    ensures Get(r, k) == Some(v)
    ensures forall k' :: k' != k ==> Get(r, k') == Get(m, k')
  {
    if |m| == 0 then [(k, v)]
    else if m[0].0 == k then [(k, v)] + m[1..]
    else
      var t := Put(m[1..], k, v);
      assert ([m[0]] + t)[1..] == t;
      [m[0]] + t
  }

  lemma {:induction false} PutKeys<V>(m: AList<V>, k: string, v: V)
    ensures HasKey(m, k) ==> Keys(Put(m, k, v)) == Keys(m)
    ensures !HasKey(m, k) ==> Keys(Put(m, k, v)) == Keys(m) + [k]
  {
    if |m| > 0 && m[0].0 != k {
      PutKeys(m[1..], k, v);
      assert Keys(m) == [m[0].0] + Keys(m[1..]);
      assert Keys(Put(m, k, v)) == [m[0].0] + Keys(Put(m[1..], k, v));
    } else if |m| > 0 {
      assert Keys(Put(m, k, v)) == [k] + Keys(m[1..]);
      assert Keys(m) == [k] + Keys(m[1..]);
    }
  }

  /** A new key is appended at the end. */
  lemma {:induction false} PutNew<V>(m: AList<V>, k: string, v: V)
    requires !HasKey(m, k)
    ensures Put(m, k, v) == m + [(k, v)]
  {
    if |m| > 0 {
      MissingKeyTail(m, k);
      PutNew(m[1..], k, v);
      calc {
        Put(m, k, v);
        [m[0]] + Put(m[1..], k, v);
        [m[0]] + (m[1..] + [(k, v)]);
        { assert m == [m[0]] + m[1..]; }
        m + [(k, v)];
      }
    } else {
      assert m + [(k, v)] == [(k, v)];
    }
  }

  lemma MissingKeyTail<V>(m: AList<V>, k: string)
    requires !HasKey(m, k) && |m| > 0
    ensures m[0].0 != k && !HasKey(m[1..], k)
  {
    assert Keys(m) == [m[0].0] + Keys(m[1..]);
  }

  /** Keys stay unique under `Put`, since the key order only ever gains `k`. */
  lemma PutUnique<V>(m: AList<V>, k: string, v: V)
    requires UniqueKeys(m)
    ensures UniqueKeys(Put(m, k, v))
  {
    var r := Put(m, k, v);
    PutKeys(m, k, v);
    forall i, j | 0 <= i < j < |r| ensures r[i].0 != r[j].0 {
      assert Keys(r)[i] == r[i].0 && Keys(r)[j] == r[j].0;
      if !HasKey(m, k) && j == |m| {
        assert r[i].0 == Keys(m)[i];
      } else {
        assert Keys(r)[i] == Keys(m)[i] && Keys(r)[j] == Keys(m)[j];
      }
    }
  }

  /** `Object.keys(obj).filter(p)`-style restriction of a map to the keys
      satisfying `p`, keeping their order. */
  function Restrict<V(!new)>(m: AList<V>, p: string -> bool): (r: AList<V>)
    ensures |r| <= |m|
    ensures forall e :: e in r <==> e in m && p(e.0)
  {
    if |m| == 0 then []
    else if p(m[0].0) then [m[0]] + Restrict(m[1..], p)
    else Restrict(m[1..], p)
  }

  /** Sum of `f` over the values, in key order (an `Object.values(...).reduce`). */
  function SumBy<V>(m: AList<V>, f: V -> int): int {
    if |m| == 0 then 0 else f(m[0].1) + SumBy(m[1..], f)
  }

  /** The same for a real-valued `f`. */
  function SumReal<V>(m: AList<V>, f: V -> real): real {
    if |m| == 0 then 0.0 else f(m[0].1) + SumReal(m[1..], f)
  }

  /** Overwriting one value changes the sum by exactly the difference. */
  lemma {:induction false} SumByPut<V>(m: AList<V>, k: string, v: V, f: V -> int)
    requires UniqueKeys(m)
    ensures SumBy(Put(m, k, v), f) ==
            SumBy(m, f) + f(v) - (if HasKey(m, k) then f(Get(m, k).value) else 0)
  {
    if |m| > 0 && m[0].0 != k {
      SumByPut(m[1..], k, v, f);
    }
  }

  lemma {:induction false} SumByAppend<V>(a: AList<V>, b: AList<V>, f: V -> int)
    ensures SumBy(a + b, f) == SumBy(a, f) + SumBy(b, f)
  {
    if |a| == 0 {
      assert a + b == b;
    } else {
      SumByAppend(a[1..], b, f);
      assert (a + b)[1..] == a[1..] + b;
    }
  }

  /** Reordering the entries leaves the sum alone. */
  lemma {:induction false} SumByPermutation<V>(a: AList<V>, b: AList<V>, f: V -> int)
    requires multiset(a) == multiset(b)
    ensures SumBy(a, f) == SumBy(b, f)
    decreases |a|
  {
    if |a| > 0 {
      assert a[0] in multiset(b);
      var i :| 0 <= i < |b| && b[i] == a[0];
      var rest := b[..i] + b[i + 1..];
      assert b == b[..i] + ([b[i]] + b[i + 1..]);
      assert multiset(b) == multiset(b[..i]) + multiset{b[i]} + multiset(b[i + 1..]);
      assert a == [a[0]] + a[1..];
      assert multiset(a) == multiset{a[0]} + multiset(a[1..]);
      assert multiset(rest) == multiset(b[..i]) + multiset(b[i + 1..]);
      assert multiset(rest) == multiset(b) - multiset{a[0]};
      assert multiset(a[1..]) == multiset(a) - multiset{a[0]};
      SumByPermutation(a[1..], rest, f);
      SumByAppend(b[..i], [b[i]] + b[i + 1..], f);
      SumByAppend(b[..i], b[i + 1..], f);
    }
  }

  /** A map lists each entry at most once. */
  lemma {:induction false} UniqueKeysMultiplicity<V>(m: AList<V>, e: (string, V))
    requires UniqueKeys(m)
    ensures multiset(m)[e] <= 1
  {
    if |m| > 0 {
      assert m == [m[0]] + m[1..];
      UniqueKeysMultiplicity(m[1..], e);
      if m[0] == e {
        assert e !in m[1..] by {
          forall j | 0 <= j < |m[1..]| ensures m[1..][j] != e {
            assert m[0].0 != m[j + 1].0;
          }
        }
      }
    }
  }

  /** Reordering the entries of a map gives a map. */
  lemma UniqueKeysPermutation<V>(a: AList<V>, b: AList<V>)
    requires multiset(a) == multiset(b) && UniqueKeys(a)
    ensures UniqueKeys(b)
  {
    forall i, j | 0 <= i < j < |b| ensures b[i].0 != b[j].0 {
      UniqueKeysMultiplicity(a, b[i]);
      assert b == b[..j] + [b[j]] + b[j + 1..];
      assert multiset(b) == multiset(b[..j]) + multiset{b[j]} + multiset(b[j + 1..]);
      assert b[i] in b[..j];
      assert b[j] != b[i];
      assert b[i] in multiset(a) && b[j] in multiset(a);
      var x :| 0 <= x < |a| && a[x] == b[i];
      var y :| 0 <= y < |a| && a[y] == b[j];
      assert x != y;
    }
  }
}
