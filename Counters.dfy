/**
 * `collections.Counter` as the report uses it: `c[k] += 1` on a fresh
 * counter, and `sorted(c.items())`.  A counter is its sequence of
 * (key, count) items in insertion order, which is the order a Python dict
 * keeps; `sorted` is an insertion sort by key.
 */
module Counters {

  type Items<K> = seq<(K, nat)>

  predicate DistinctKeys<K(==), V>(c: seq<(K, V)>)
  {
    forall i, j :: 0 <= i < j < |c| ==> c[i].0 != c[j].0
  }

  /** What every counter built by increments satisfies: no key twice, no count below 1. */
  predicate Valid<K(==)>(c: Items<K>)
  {
    DistinctKeys(c) && forall i :: 0 <= i < |c| ==> c[i].1 >= 1
  }

  function KeySet<K, V>(c: seq<(K, V)>): set<K>
  {
    set i | 0 <= i < |c| :: c[i].0
  }

  /** `c[k]`: the count stored under `k`, and 0 for a missing key. */
  function Count<K(==)>(c: Items<K>, k: K): nat
  {
    if c == [] then 0 else if c[0].0 == k then c[0].1 else Count(c[1..], k)
  }

  /** `sum(c.values())`. */
  function Sum<K>(c: Items<K>): nat
  {
    if c == [] then 0 else c[0].1 + Sum(c[1..])
  }

  lemma KeySetCons<K, V>(x: (K, V), c: seq<(K, V)>)
    ensures KeySet([x] + c) == {x.0} + KeySet(c)
  {
    var s := [x] + c;
    assert s[0] == x;
    forall k | k in KeySet(s) ensures k in {x.0} + KeySet(c) {
      var i :| 0 <= i < |s| && s[i].0 == k;
      if i > 0 {
        assert s[i] == c[i - 1];
      }
    }
    forall k | k in KeySet(c) ensures k in KeySet(s) {
      var i :| 0 <= i < |c| && c[i].0 == k;
      assert s[i + 1].0 == k;
    }
  }

  /**
   * `c[k] += 1`: a present key keeps its place and gains one, a missing key
   * is appended with count 1; the keys grow by `k` and the total by one.
   */
  function Inc<K(==)>(c: Items<K>, k: K): (r: Items<K>)
    ensures KeySet(r) == KeySet(c) + {k}
    ensures Sum(r) == Sum(c) + 1
  {
    if c == [] then
      KeySetCons((k, 1), []);
      [(k, 1)]
    else if c[0].0 == k then
      KeySetCons((k, c[0].1 + 1), c[1..]);
      KeySetCons(c[0], c[1..]);
      assert c == [c[0]] + c[1..];
      [(k, c[0].1 + 1)] + c[1..]
    else
      var rest := Inc(c[1..], k);
      KeySetCons(c[0], rest);
      KeySetCons(c[0], c[1..]);
      assert c == [c[0]] + c[1..];
      [c[0]] + rest
  }

  lemma ValidTail<K>(c: Items<K>)
    requires Valid(c) && c != []
    ensures Valid(c[1..]) && c[0].0 !in KeySet(c[1..])
  {
    forall i, j | 0 <= i < j < |c[1..]| ensures c[1..][i].0 != c[1..][j].0 {
      assert c[1..][i] == c[i + 1] && c[1..][j] == c[j + 1];
    }
    forall j | 0 <= j < |c[1..]| ensures c[1..][j].0 != c[0].0 {
      assert c[1..][j] == c[j + 1];
    }
  }

  /** Increments keep a counter valid: no key twice, no count below 1. */
  lemma {:induction false} IncValid<K>(c: Items<K>, k: K)
    requires Valid(c)
    ensures Valid(Inc(c, k))
  {
    if c != [] {
      ValidTail(c);
      if c[0].0 != k {
        IncValid(c[1..], k);
        var rest := Inc(c[1..], k);
        var r := [c[0]] + rest;
        forall i, j | 0 <= i < j < |r| ensures r[i].0 != r[j].0 {
          if i == 0 {
            assert r[j] == rest[j - 1];
            assert r[j].0 in KeySet(rest);
          } else {
            assert r[i] == rest[i - 1] && r[j] == rest[j - 1];
          }
        }
      } else {
        var r := Inc(c, k);
        forall i, j | 0 <= i < j < |r| ensures r[i].0 != r[j].0 {
          if i == 0 {
            assert r[j] == c[j];
          } else {
            assert r[i] == c[i] && r[j] == c[j];
          }
        }
      }
    }
  }

  /** A key not yet counted is appended at the end, as a dict inserts new keys. */
  lemma {:induction false} IncAppends<K>(c: Items<K>, k: K)
    requires k !in KeySet(c)
    ensures Inc(c, k) == c + [(k, 1)]
  {
    if c != [] {
      KeySetCons(c[0], c[1..]);
      assert c == [c[0]] + c[1..];
      IncAppends(c[1..], k);
    }
  }

  /** `c[k] += 1` adds one to the count of `k` and leaves every other count alone. */
  lemma {:induction false} IncCount<K>(c: Items<K>, k: K, x: K)
    ensures Count(Inc(c, k), x) == Count(c, x) + (if x == k then 1 else 0)
  {
    if c != [] && c[0].0 != k {
      IncCount(c[1..], k, x);
    }
  }

  /** A counter's item stores the count `c[k]` reports for its key. */
  lemma {:induction false} CountOfItem<K>(c: Items<K>, i: nat)
    requires DistinctKeys(c) && i < |c|
    ensures Count(c, c[i].0) == c[i].1
  {
    if i > 0 {
      assert c[0].0 != c[i].0;
      assert c[1..][i - 1] == c[i];
      assert DistinctKeys(c[1..]) by {
        forall a, b | 0 <= a < b < |c[1..]| ensures c[1..][a].0 != c[1..][b].0 {
          assert c[1..][a] == c[a + 1] && c[1..][b] == c[b + 1];
        }
      }
      CountOfItem(c[1..], i - 1);
    }
  }

  /** A strict total order on keys, the order `sorted` compares them by. */
  ghost predicate StrictTotalOrder<K(!new)>(less: (K, K) -> bool)
  {
    && (forall a :: !less(a, a))
    && (forall a, b, c :: less(a, b) && less(b, c) ==> less(a, c))
    && (forall a, b :: a != b ==> less(a, b) || less(b, a))
  }

  /** Strictly ascending by key: hence one item per key. */
  predicate Ascending<K, V>(s: seq<(K, V)>, less: (K, K) -> bool)
  {
    forall i, j :: 0 <= i < j < |s| ==> less(s[i].0, s[j].0)
  }

  /** Inserts `x` after every item whose key is below its key. */
  function Insert<K, V>(x: (K, V), s: seq<(K, V)>, less: (K, K) -> bool): (r: seq<(K, V)>)
    ensures multiset(r) == multiset(s) + multiset{x}
  {
    if s == [] then [x]
    else if less(s[0].0, x.0) then
      assert s == [s[0]] + s[1..];
      [s[0]] + Insert(x, s[1..], less)
    else [x] + s
  }

  /** `sorted(items)`: the same items, ordered by key. */
  function SortByKey<K, V>(s: seq<(K, V)>, less: (K, K) -> bool): (r: seq<(K, V)>)
    ensures multiset(r) == multiset(s)
  {
    if s == [] then []
    else
      assert s == [s[0]] + s[1..];
      Insert(s[0], SortByKey(s[1..], less), less)
  }

  lemma {:induction false} InsertSum<K>(x: (K, nat), s: Items<K>, less: (K, K) -> bool)
    ensures Sum(Insert(x, s, less)) == Sum(s) + x.1
  {
    if s != [] && less(s[0].0, x.0) {
      InsertSum(x, s[1..], less);
      assert ([s[0]] + Insert(x, s[1..], less))[1..] == Insert(x, s[1..], less);
    } else if s != [] {
      assert ([x] + s)[1..] == s;
    }
  }

  lemma {:induction false} SortSum<K>(s: Items<K>, less: (K, K) -> bool)
    ensures Sum(SortByKey(s, less)) == Sum(s)
  {
    if s != [] {
      SortSum(s[1..], less);
      InsertSum(s[0], SortByKey(s[1..], less), less);
    }
  }

  /** Two sequences holding the same items have the same keys. */
  lemma KeySetOfPermutation<K, V>(a: seq<(K, V)>, b: seq<(K, V)>)
    requires multiset(a) == multiset(b)
    ensures KeySet(a) == KeySet(b)
  {
    forall k | k in KeySet(a) ensures k in KeySet(b) {
      var i :| 0 <= i < |a| && a[i].0 == k;
      assert a[i] in multiset(b);
      var j :| 0 <= j < |b| && b[j] == a[i];
    }
    forall k | k in KeySet(b) ensures k in KeySet(a) {
      var j :| 0 <= j < |b| && b[j].0 == k;
      assert b[j] in multiset(a);
      var i :| 0 <= i < |a| && a[i] == b[j];
    }
  }

  /** Putting a key below all keys of an ascending sequence in front keeps it ascending. */
  lemma ConsAscending<K, V>(x: (K, V), s: seq<(K, V)>, less: (K, K) -> bool)
    requires Ascending(s, less)
    requires forall j :: 0 <= j < |s| ==> less(x.0, s[j].0)
    ensures Ascending([x] + s, less)
  {
    var r := [x] + s;
    forall i, j | 0 <= i < j < |r| ensures less(r[i].0, r[j].0) {
      if i == 0 {
        assert r[j] == s[j - 1];
      } else {
        assert r[i] == s[i - 1] && r[j] == s[j - 1];
      }
    }
  }

  lemma AscendingTail<K, V>(s: seq<(K, V)>, less: (K, K) -> bool)
    requires Ascending(s, less) && s != []
    ensures Ascending(s[1..], less)
    ensures forall j :: 0 <= j < |s[1..]| ==> less(s[0].0, s[1..][j].0)
  {
    var tail := s[1..];
    forall i, j | 0 <= i < j < |tail| ensures less(tail[i].0, tail[j].0) {
      assert tail[i] == s[i + 1] && tail[j] == s[j + 1];
    }
    forall j | 0 <= j < |tail| ensures less(s[0].0, tail[j].0) {
      assert tail[j] == s[j + 1];
    }
  }

  /** A key below `x` and below every key of `s` is below every key of `Insert(x, s)`. */
  lemma InsertLowerBound<K, V>(b: K, x: (K, V), s: seq<(K, V)>, less: (K, K) -> bool)
    requires less(b, x.0)
    requires forall j :: 0 <= j < |s| ==> less(b, s[j].0)
    ensures forall j :: 0 <= j < |Insert(x, s, less)| ==> less(b, Insert(x, s, less)[j].0)
  {
    var ins := Insert(x, s, less);
    forall j | 0 <= j < |ins| ensures less(b, ins[j].0) {
      assert ins[j] in multiset(ins);
      if ins[j] != x {
        assert ins[j] in multiset(s);
        var k :| 0 <= k < |s| && s[k] == ins[j];
      }
    }
  }

  lemma {:induction false} InsertAscending<K(!new), V>(x: (K, V), s: seq<(K, V)>, less: (K, K) -> bool)
    requires StrictTotalOrder(less)
    requires Ascending(s, less) && x.0 !in KeySet(s)
    ensures Ascending(Insert(x, s, less), less)
  {
    if s == [] {
    } else if less(s[0].0, x.0) {
      var tail := s[1..];
      AscendingTail(s, less);
      KeySetCons(s[0], tail);
      assert s == [s[0]] + tail;
      InsertAscending(x, tail, less);
      InsertLowerBound(s[0].0, x, tail, less);
      ConsAscending(s[0], Insert(x, tail, less), less);
    } else {
      assert s[0].0 in KeySet(s);
      assert less(x.0, s[0].0);
      forall j | 0 <= j < |s| ensures less(x.0, s[j].0) {
        if j > 0 {
          assert less(s[0].0, s[j].0);
        }
      }
      ConsAscending(x, s, less);
    }
  }

  lemma {:induction false} SortAscending<K(!new), V>(s: seq<(K, V)>, less: (K, K) -> bool)
    requires StrictTotalOrder(less)
    requires DistinctKeys(s)
    ensures Ascending(SortByKey(s, less), less)
  {
    if s != [] {
      var tail := s[1..];
      assert DistinctKeys(tail) by {
        forall i, j | 0 <= i < j < |tail| ensures tail[i].0 != tail[j].0 {
          assert tail[i] == s[i + 1] && tail[j] == s[j + 1];
        }
      }
      SortAscending(tail, less);
      var sorted := SortByKey(tail, less);
      KeySetOfPermutation(sorted, tail);
      assert s[0].0 !in KeySet(tail) by {
        forall i | 0 <= i < |tail| ensures tail[i].0 != s[0].0 {
          assert tail[i] == s[i + 1];
        }
      }
      InsertAscending(s[0], sorted, less);
    }
  }

  /**
   * `sorted(c.items())` on a counter: strictly ascending keys, exactly the
   * counter's items (so one row per key, with the count `c[k]` reports),
   * every count at least 1, and the same total.
   */
  lemma SortedItems<K(!new)>(c: Items<K>, less: (K, K) -> bool)
    requires StrictTotalOrder(less) && Valid(c)
    ensures Ascending(SortByKey(c, less), less)
    ensures multiset(SortByKey(c, less)) == multiset(c)
    ensures KeySet(SortByKey(c, less)) == KeySet(c)
    ensures forall i :: 0 <= i < |SortByKey(c, less)| ==>
      SortByKey(c, less)[i].1 == Count(c, SortByKey(c, less)[i].0) >= 1
    ensures Sum(SortByKey(c, less)) == Sum(c)
  {
    var rows := SortByKey(c, less);
    SortAscending(c, less);
    KeySetOfPermutation(rows, c);
    SortSum(c, less);
    forall i | 0 <= i < |rows| ensures rows[i].1 == Count(c, rows[i].0) >= 1 {
      assert rows[i] in multiset(c);
      var j :| 0 <= j < |c| && c[j] == rows[i];
      CountOfItem(c, j);
    }
  }

  /** In a valid counter a key has a positive count exactly when it is present. */
  lemma CountPositive<K>(c: Items<K>, k: K)
    requires Valid(c)
    ensures Count(c, k) > 0 <==> k in KeySet(c)
  {
    if k in KeySet(c) {
      var i :| 0 <= i < |c| && c[i].0 == k;
      CountOfItem(c, i);
    } else {
      CountAbsent(c, k);
    }
  }

  lemma {:induction false} CountAbsent<K>(c: Items<K>, k: K)
    requires k !in KeySet(c)
    ensures Count(c, k) == 0
  {
    if c != [] {
      KeySetCons(c[0], c[1..]);
      assert c == [c[0]] + c[1..];
      CountAbsent(c[1..], k);
    }
  }

  /** A valid counter is empty exactly when its total is zero. */
  lemma ValidEmptyIffZero<K>(c: Items<K>)
    requires Valid(c)
    ensures c == [] <==> Sum(c) == 0
  {
    if c != [] {
      assert c[0].1 >= 1;
    }
  }
}
