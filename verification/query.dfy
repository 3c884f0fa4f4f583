/**
 * The storage query semantics pagination relies on, over a collection held
 * as a sequence in storage's natural order: filtering (`find(filter)`),
 * counting (`countDocuments(filter)`), sorting by a numeric key descending
 * (`sort({ createdAt: -1 })`), and the `skip`/`limit` window.
 */
module Query {
  import opened Common

  function Min(a: int, b: int): int { if a <= b then a else b }
  function Max(a: int, b: int): int { if a <= b then b else a }
  function Abs(a: int): nat { if a < 0 then -a else a }

  /** `find(filter)`: the documents the filter matches, in natural order. */
  function Select<T>(s: seq<T>, filter: T -> bool): (r: seq<T>)
    ensures |r| <= |s|
    ensures forall i :: 0 <= i < |r| ==> r[i] in s && filter(r[i])
    ensures forall i :: 0 <= i < |s| && filter(s[i]) ==> s[i] in r
  {
    if |s| == 0 then []
    else if filter(s[0]) then [s[0]] + Select(s[1..], filter)
    else Select(s[1..], filter)
  }

  /** `countDocuments(filter)`: the number of documents the filter matches. */
  function CountWhere<T>(s: seq<T>, filter: T -> bool): (n: nat)
    ensures n <= |s|
  {
    if |s| == 0 then 0
    else (if filter(s[0]) then 1 else 0) + CountWhere(s[1..], filter)
  }

  /** The count query and the find query agree on how many documents match. */
  lemma {:induction false} CountIsSelectLength<T>(s: seq<T>, filter: T -> bool)
    ensures CountWhere(s, filter) == |Select(s, filter)|
  {
    if |s| > 0 {
      CountIsSelectLength(s[1..], filter);
    }
  }

  /** Non-increasing in `key` from front to back. */
  predicate SortedDesc<T>(s: seq<T>, key: T -> int) {
    forall i, j :: 0 <= i < j < |s| ==> key(s[i]) >= key(s[j])
  }

  /** Every key in `s` is at most `bound`. */
  predicate KeysAtMost<T>(s: seq<T>, key: T -> int, bound: int) {
    forall i :: 0 <= i < |s| ==> key(s[i]) <= bound
  }

  /** A bound on keys carries over to any sequence with the same elements plus one more in bound. */
  lemma KeysAtMostMultiset<T>(r: seq<T>, s: seq<T>, x: T, key: T -> int, bound: int)
    requires multiset(r) == multiset(s) + multiset{x}
    requires KeysAtMost(s, key, bound) && key(x) <= bound
    ensures KeysAtMost(r, key, bound)
  {
    forall i | 0 <= i < |r|
      ensures key(r[i]) <= bound
    {
      var y := r[i];
      assert y in multiset(r);
      if y != x {
        assert y in multiset(s);
        var k :| 0 <= k < |s| && s[k] == y;
      }
    }
  }

  /** Putting an element in front of a sorted sequence whose keys it bounds keeps it sorted. */
  lemma SortedCons<T>(h: T, t: seq<T>, key: T -> int)
    requires SortedDesc(t, key) && KeysAtMost(t, key, key(h))
    ensures SortedDesc([h] + t, key)
  {
  }

  /** Inserts `x` before the first element whose key does not exceed its own. */
  function InsertDesc<T>(x: T, s: seq<T>, key: T -> int): (r: seq<T>)
    requires SortedDesc(s, key)
    ensures multiset(r) == multiset(s) + multiset{x}
    ensures SortedDesc(r, key)
  {
    if |s| == 0 || key(s[0]) <= key(x) then
      SortedCons(x, s, key);
      [x] + s
    else
      var rest := InsertDesc(x, s[1..], key);
      KeysAtMostMultiset(rest, s[1..], x, key, key(s[0]));
      SortedCons(s[0], rest, key);
      assert s == [s[0]] + s[1..];
      [s[0]] + rest
  }

  /** `sort({ key: -1 })`: a permutation of `s`, sorted by `key` descending. */
  function SortDesc<T>(s: seq<T>, key: T -> int): (r: seq<T>)
    ensures multiset(r) == multiset(s)
    ensures SortedDesc(r, key)
  {
    if |s| == 0 then []
    else
      assert s == [s[0]] + s[1..];
      InsertDesc(s[0], SortDesc(s[1..], key), key)
  }

  /** No two different documents of `s` share a key. */
  predicate DistinctKeys<T(==)>(s: seq<T>, key: T -> int) {
    forall i, j :: 0 <= i < |s| && 0 <= j < |s| && key(s[i]) == key(s[j]) ==> s[i] == s[j]
  }

  /** Distinct keys are a property of the documents, not of their arrangement. */
  lemma DistinctKeysPermutation<T>(a: seq<T>, b: seq<T>, key: T -> int)
    requires multiset(a) == multiset(b) && DistinctKeys(a, key)
    ensures DistinctKeys(b, key)
  {
    forall i, j | 0 <= i < |b| && 0 <= j < |b| && key(b[i]) == key(b[j])
      ensures b[i] == b[j]
    {
      assert b[i] in multiset(a) && b[j] in multiset(a);
      var i' :| 0 <= i' < |a| && a[i'] == b[i];
      var j' :| 0 <= j' < |a| && a[j'] == b[j];
    }
  }

  /** Two sorted permutations of the same documents with distinct keys start with the same one. */
  lemma SortedHeadsAgree<T>(a: seq<T>, b: seq<T>, key: T -> int)
    requires |a| > 0 && |b| > 0
    requires multiset(a) == multiset(b) && DistinctKeys(b, key)
    requires SortedDesc(a, key) && SortedDesc(b, key)
    ensures a[0] == b[0]
  {
    assert a[0] in multiset(b) && b[0] in multiset(a);
    var k :| 0 <= k < |b| && b[k] == a[0];
    var m :| 0 <= m < |a| && a[m] == b[0];
    assert key(a[0]) >= key(a[m]);
    assert key(b[0]) >= key(b[k]);
  }

  lemma DistinctKeysTail<T>(s: seq<T>, key: T -> int)
    requires |s| > 0 && DistinctKeys(s, key)
    ensures DistinctKeys(s[1..], key)
  {
    forall i, j | 0 <= i < |s[1..]| && 0 <= j < |s[1..]| && key(s[1..][i]) == key(s[1..][j])
      ensures s[1..][i] == s[1..][j]
    {
      assert s[1..][i] == s[i + 1] && s[1..][j] == s[j + 1];
    }
  }

  lemma SortedTail<T>(s: seq<T>, key: T -> int)
    requires |s| > 0 && SortedDesc(s, key)
    ensures SortedDesc(s[1..], key)
  {
    forall i, j | 0 <= i < j < |s[1..]|
      ensures key(s[1..][i]) >= key(s[1..][j])
    {
      assert s[1..][i] == s[i + 1] && s[1..][j] == s[j + 1];
    }
  }

  lemma MultisetTail<T>(s: seq<T>)
    requires |s| > 0
    ensures multiset(s[1..]) == multiset(s) - multiset{s[0]}
  {
    assert s == [s[0]] + s[1..];
  }

  /**
   * With distinct keys there is only one newest-first arrangement: two
   * sorted permutations of the same documents are equal.
   */
  lemma {:induction false} SortedUnique<T>(a: seq<T>, b: seq<T>, key: T -> int)
    requires multiset(a) == multiset(b) && DistinctKeys(b, key)
    requires SortedDesc(a, key) && SortedDesc(b, key)
    ensures a == b
    decreases |a|
  {
    assert |a| == |multiset(a)| == |multiset(b)| == |b|;
    if |a| > 0 {
      SortedHeadsAgree(a, b, key);
      MultisetTail(a);
      MultisetTail(b);
      DistinctKeysTail(b, key);
      SortedTail(a, key);
      SortedTail(b, key);
      SortedUnique(a[1..], b[1..], key);
      assert a == [a[0]] + a[1..] && b == [b[0]] + b[1..];
    }
  }

  /** How many documents a window of `limit` keeps out of `available`: 0 means no limit, a negative limit counts by its magnitude. */
  function Taken(available: nat, limit: int): (n: nat)
    ensures n <= available
    ensures limit != 0 ==> n == Min(Abs(limit), available)
  {
    if limit == 0 then available else Min(Abs(limit), available)
  }

  /**
   * `.skip(skip).limit(limit)`: the documents from position `skip` on, at most
   * `limit` of them. Storage rejects a negative skip.
   */
  function Window<T>(s: seq<T>, skip: int, limit: int): (r: Option<seq<T>>)
    ensures r.None? <==> skip < 0
    ensures r.Some? ==> |r.value| == Taken(Max(0, |s| - skip), limit)
    ensures r.Some? ==> forall i :: 0 <= i < |r.value| ==> skip + i < |s| && r.value[i] == s[skip + i]
  {
    if skip < 0 then None
    else
      var start := Min(skip, |s|);
      Some(s[start..start + Taken(|s| - start, limit)])
  }
}
