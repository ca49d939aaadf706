/**
  Python's `sorted(xs, key=key, reverse=True)` on integer keys: a stable sort
  into non-increasing key order, where elements with equal keys keep their
  original relative order, and the slice `[:n]` taken of it.
*/
module Ranking {

  ghost predicate SortedDesc<T>(s: seq<T>, key: T -> int) {
    forall i, j :: 0 <= i < j < |s| ==> key(s[i]) >= key(s[j])
  }

  /** The elements of `s` whose key is `k`, in their order in `s`. */
  function WithKey<T>(s: seq<T>, key: T -> int, k: int): seq<T> {
    if s == [] then []
    else (if key(s[0]) == k then [s[0]] else []) + WithKey(s[1..], key, k)
  }

  /** Places `x` in front of the first element whose key is not greater than its own. */
  function Insert<T>(x: T, s: seq<T>, key: T -> int): (r: seq<T>)
    ensures multiset(r) == multiset(s) + multiset{x}
    ensures |r| == |s| + 1
  {
    if s == [] then [x]
    else if key(s[0]) <= key(x) then [x] + s
    else
      assert s == [s[0]] + s[1..];
      [s[0]] + Insert(x, s[1..], key)
  }

  function StableSortDesc<T>(s: seq<T>, key: T -> int): (r: seq<T>)
    ensures multiset(r) == multiset(s)
    ensures |r| == |s|
  {
    if s == [] then []
    else
      assert s == [s[0]] + s[1..];
      Insert(s[0], StableSortDesc(s[1..], key), key)
  }

  /** Python's `s[:n]` for a non-negative `n`. */
  function Take<T>(s: seq<T>, n: nat): (r: seq<T>)
    ensures r <= s
    ensures |r| == if n < |s| then n else |s|
  {
    if n < |s| then s[..n] else s
  }

  lemma {:induction false} InsertSorted<T>(x: T, s: seq<T>, key: T -> int)
    requires SortedDesc(s, key)
    ensures SortedDesc(Insert(x, s, key), key)
    decreases |s|
  {
    if s != [] && key(s[0]) > key(x) {
      InsertSorted(x, s[1..], key);
      var r := Insert(x, s, key);
      var t := Insert(x, s[1..], key);
      assert r == [s[0]] + t;
      forall j | 0 < j < |r|
        ensures key(r[0]) >= key(r[j])
      {
        assert r[j] in multiset(t);
        assert r[j] == x || r[j] in s[1..];
      }
    }
  }

  /** The result is in non-increasing key order. */
  lemma {:induction false} SortIsSorted<T>(s: seq<T>, key: T -> int)
    ensures SortedDesc(StableSortDesc(s, key), key)
    decreases |s|
  {
    if s != [] {
      SortIsSorted(s[1..], key);
      InsertSorted(s[0], StableSortDesc(s[1..], key), key);
    }
  }

  lemma WithKeyCons<T>(x: T, s: seq<T>, key: T -> int, k: int)
    ensures WithKey([x] + s, key, k) == (if key(x) == k then [x] else []) + WithKey(s, key, k)
  {
    assert ([x] + s)[1..] == s;
  }

  /**
    Moving `b` in front of a greater-key `a` does not change any key's
    subsequence, since `a` and `b` never share a key.
  */
  lemma SwapPastGreater<T>(a: T, b: T, rest: seq<T>, ins: seq<T>, key: T -> int, k: int)
    requires key(a) > key(b)
    requires WithKey(ins, key, k) == WithKey([b] + rest, key, k)
    ensures WithKey([a] + ins, key, k) == WithKey([b] + ([a] + rest), key, k)
  {
    WithKeyCons(a, ins, key, k);
    WithKeyCons(b, rest, key, k);
    WithKeyCons(b, [a] + rest, key, k);
    WithKeyCons(a, rest, key, k);
    var ha := if key(a) == k then [a] else [];
    var hb := if key(b) == k then [b] else [];
    var w := WithKey(rest, key, k);
    if key(a) == k {
      assert hb == [];
      assert WithKey([a] + ins, key, k) == ha + w;
    } else {
      assert ha == [];
      assert WithKey([a] + ins, key, k) == hb + w;
    }
  }

  lemma InsertStableStep<T>(x: T, s: seq<T>, key: T -> int, k: int)
    requires s != [] && key(s[0]) > key(x)
    requires WithKey(Insert(x, s[1..], key), key, k) == WithKey([x] + s[1..], key, k)
    ensures WithKey(Insert(x, s, key), key, k) == WithKey([x] + s, key, k)
  {
    var rest := s[1..];
    var ins := Insert(x, rest, key);
    assert Insert(x, s, key) == [s[0]] + ins;
    assert s == [s[0]] + rest;
    SwapPastGreater(s[0], x, rest, ins, key, k);
  }

  lemma {:induction false} InsertStable<T>(x: T, s: seq<T>, key: T -> int, k: int)
    ensures WithKey(Insert(x, s, key), key, k) == WithKey([x] + s, key, k)
    decreases |s|
  {
    if s != [] && key(s[0]) > key(x) {
      InsertStable(x, s[1..], key, k);
      InsertStableStep(x, s, key, k);
    }
  }

  /** Stability: for every key value, the elements with that key appear in their original order. */
  lemma {:induction false} SortIsStable<T>(s: seq<T>, key: T -> int, k: int)
    ensures WithKey(StableSortDesc(s, key), key, k) == WithKey(s, key, k)
    decreases |s|
  {
    if s != [] {
      SortIsStable(s[1..], key, k);
      InsertStable(s[0], StableSortDesc(s[1..], key), key, k);
      WithKeyCons(s[0], StableSortDesc(s[1..], key), key, k);
    }
  }

  lemma {:induction false} WithKeyNonEmpty<T>(s: seq<T>, key: T -> int, i: nat)
    ensures i < |s| ==> WithKey(s, key, key(s[i])) != []
    decreases |s|
  {
    if 0 < i < |s| {
      WithKeyNonEmpty(s[1..], key, i - 1);
    }
  }

  lemma {:induction false} WithKeyBelowHead<T>(s: seq<T>, key: T -> int, k: int)
    ensures SortedDesc(s, key) && s != [] && k > key(s[0]) ==> WithKey(s, key, k) == []
    decreases |s|
  {
    if |s| > 1 {
      WithKeyBelowHead(s[1..], key, k);
    }
  }

  /**
    A sequence in non-increasing key order is determined by its per-key
    subsequences: two such sequences with the same elements of every key,
    in the same order, are equal.
  */
  lemma {:induction false} SortedDeterminedByKeys<T>(a: seq<T>, b: seq<T>, key: T -> int)
    requires SortedDesc(a, key) && SortedDesc(b, key)
    requires forall k :: WithKey(a, key, k) == WithKey(b, key, k)
    ensures a == b
    decreases |a|
  {
    if a != [] {
      WithKeyNonEmpty(a, key, 0);
      WithKeyBelowHead(b, key, key(a[0]));
    }
    if b != [] {
      WithKeyNonEmpty(b, key, 0);
      WithKeyBelowHead(a, key, key(b[0]));
    }
    if a != [] && b != [] {
      var k0 := key(a[0]);
      assert a[0] == WithKey(a, key, k0)[0] == WithKey(b, key, k0)[0] == b[0];
      forall k
        ensures WithKey(a[1..], key, k) == WithKey(b[1..], key, k)
      {
        var h := if key(a[0]) == k then [a[0]] else [];
        assert WithKey(a, key, k) == h + WithKey(a[1..], key, k);
        assert WithKey(b, key, k) == h + WithKey(b[1..], key, k);
        assert WithKey(a[1..], key, k) == (h + WithKey(a[1..], key, k))[|h|..];
        assert WithKey(b[1..], key, k) == (h + WithKey(b[1..], key, k))[|h|..];
      }
      SortedDeterminedByKeys(a[1..], b[1..], key);
      assert a == [a[0]] + a[1..];
      assert b == [b[0]] + b[1..];
    }
  }

  /**
    An independent description of the stable descending sort: any arrangement
    of `s` in non-increasing key order that keeps equal-key elements in their
    original order is exactly `StableSortDesc(s, key)`.
  */
  lemma StableSortCharacterized<T>(s: seq<T>, t: seq<T>, key: T -> int)
    requires SortedDesc(t, key)
    requires forall k :: WithKey(t, key, k) == WithKey(s, key, k)
    ensures t == StableSortDesc(s, key)
  {
    SortIsSorted(s, key);
    forall k
      ensures WithKey(t, key, k) == WithKey(StableSortDesc(s, key), key, k)
    {
      SortIsStable(s, key, k);
    }
    SortedDeterminedByKeys(t, StableSortDesc(s, key), key);
  }

  lemma {:induction false} WithKeyPrefix<T>(a: seq<T>, s: seq<T>, key: T -> int, k: int)
    requires a <= s
    ensures WithKey(a, key, k) <= WithKey(s, key, k)
    decreases |a|
  {
    if a != [] {
      assert a[1..] <= s[1..];
      WithKeyPrefix(a[1..], s[1..], key, k);
    }
  }

  /** A prefix of the sorted sequence keeps, for every key, a prefix of that key's elements. */
  lemma SortedPrefixStable<T>(s: seq<T>, key: T -> int, n: nat)
    ensures forall k :: WithKey(Take(StableSortDesc(s, key), n), key, k) <= WithKey(s, key, k)
  {
    var sorted := StableSortDesc(s, key);
    forall k
      ensures WithKey(Take(sorted, n), key, k) <= WithKey(s, key, k)
    {
      SortIsStable(s, key, k);
      WithKeyPrefix(Take(sorted, n), sorted, key, k);
    }
  }

  /** A prefix of the sorted sequence is drawn from `s`, and nothing left out beats what it holds. */
  lemma SortedPrefixIsTop<T>(s: seq<T>, key: T -> int, n: nat)
    ensures var r := Take(StableSortDesc(s, key), n);
      && multiset(r) <= multiset(s)
      && (forall i, x :: 0 <= i < |r| && x in multiset(s) - multiset(r) ==> key(x) <= key(r[i]))
  {
    var sorted := StableSortDesc(s, key);
    SortIsSorted(s, key);
    var r := Take(sorted, n);
    var rest := sorted[|r|..];
    assert sorted == r + rest;
    assert multiset(sorted) == multiset(r) + multiset(rest);
    forall i, x | 0 <= i < |r| && x in multiset(s) - multiset(r)
      ensures key(x) <= key(r[i])
    {
      assert x in multiset(rest);
      var j :| 0 <= j < |rest| && rest[j] == x;
      assert sorted[|r| + j] == x;
    }
  }

  /**
    `sorted(s, key=key, reverse=True)[:n]`: the `n` (or all, if fewer) elements
    of highest key, best first, equal keys in original order, drawn from `s`
    without repetition; no element left out beats one that was chosen.
  */
  function TopN<T>(s: seq<T>, key: T -> int, n: nat): (r: seq<T>)
    ensures |r| == if n < |s| then n else |s|
    ensures SortedDesc(r, key)
    ensures multiset(r) <= multiset(s)
    ensures forall k :: WithKey(r, key, k) <= WithKey(s, key, k)
    ensures forall i, x :: 0 <= i < |r| && x in multiset(s) - multiset(r) ==> key(x) <= key(r[i])
  {
    SortIsSorted(s, key);
    SortedPrefixStable(s, key, n);
    SortedPrefixIsTop(s, key, n);
    Take(StableSortDesc(s, key), n)
  }

  /**
    The scan of Python's `max(s, key=key)`: from position `i` on, the candidate
    `best` is replaced only by an element with a strictly greater key.
  */
  function MaxFrom<T>(s: seq<T>, key: T -> int, i: nat, best: nat): (k: nat)
    requires best < i <= |s|
    requires forall j :: 0 <= j < i ==> key(s[j]) <= key(s[best])
    requires forall j :: 0 <= j < best ==> key(s[j]) < key(s[best])
    ensures k < |s|
    ensures forall j :: 0 <= j < |s| ==> key(s[j]) <= key(s[k])
    ensures forall j :: 0 <= j < k ==> key(s[j]) < key(s[k])
    decreases |s| - i
  {
    if i == |s| then best
    else MaxFrom(s, key, i + 1, if key(s[i]) > key(s[best]) then i else best)
  }

  /** `max(s, key=key)` as a position: a maximal element, the first one when several tie. */
  function ArgMaxFirst<T>(s: seq<T>, key: T -> int): (k: nat)
    requires |s| > 0
    ensures k < |s|
    ensures forall j :: 0 <= j < |s| ==> key(s[j]) <= key(s[k])
    ensures forall j :: 0 <= j < k ==> key(s[j]) < key(s[k])
  {
    MaxFrom(s, key, 1, 0)
  }

  lemma {:induction false} WithKeyFirst<T>(s: seq<T>, key: T -> int, i: nat)
    requires i < |s|
    requires forall j :: 0 <= j < i ==> key(s[j]) != key(s[i])
    ensures WithKey(s, key, key(s[i])) != [] && WithKey(s, key, key(s[i]))[0] == s[i]
    decreases i
  {
    if i > 0 {
      WithKeyFirst(s[1..], key, i - 1);
    }
  }

  lemma SortHeadHasMaxKey<T>(s: seq<T>, key: T -> int)
    requires |s| > 0
    ensures key(StableSortDesc(s, key)[0]) == key(s[ArgMaxFirst(s, key)])
  {
    var t := StableSortDesc(s, key);
    var k := ArgMaxFirst(s, key);
    SortIsSorted(s, key);
    assert t[0] in multiset(s);
    var q :| 0 <= q < |s| && s[q] == t[0];
    assert s[k] in multiset(t);
    var p :| 0 <= p < |t| && t[p] == s[k];
    assert key(t[0]) >= key(t[p]);
  }

  /**
    The first element of the stable descending order is the element `max`
    returns: the first of the elements with the greatest key.
  */
  lemma SortHeadIsFirstMax<T>(s: seq<T>, key: T -> int)
    requires |s| > 0
    ensures StableSortDesc(s, key)[0] == s[ArgMaxFirst(s, key)]
  {
    var t := StableSortDesc(s, key);
    var k := ArgMaxFirst(s, key);
    SortHeadHasMaxKey(s, key);
    SortIsStable(s, key, key(s[k]));
    WithKeyFirst(s, key, k);
    WithKeyFirst(t, key, 0);
  }
}
