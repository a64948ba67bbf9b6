/**
 * The program's `HashMap<String, _>` / `LinkedHashMap<String, _>` values,
 * modelled as association lists: a sequence of (key, value) entries with
 * distinct keys, in insertion order. `Put` keeps an existing key where it is
 * and appends a new one, which is how `LinkedHashMap.put` orders its keys.
 *
 * `TopN` is the `entrySet().stream().sorted(by value, descending).limit(n)`
 * pipeline used for the top-selling items and the charted customers.
 */
module Assoc {
  import opened Wrappers

  type Entries<V> = seq<(string, V)>

  ghost predicate DistinctKeys<V>(a: Entries<V>) {
    forall i, j :: 0 <= i < j < |a| ==> a[i].0 != a[j].0
  }

  /** `containsKey(k)`. */
  predicate HasKey<V>(a: Entries<V>, k: string) {
    a != [] && (a[0].0 == k || HasKey(a[1..], k))
  }

  lemma {:induction false} HasKeyIndex<V>(a: Entries<V>, k: string)
    ensures HasKey(a, k) <==> exists i :: 0 <= i < |a| && a[i].0 == k
  {
    if a != [] {
      HasKeyIndex(a[1..], k);
      if exists i :: 0 <= i < |a[1..]| && a[1..][i].0 == k {
        var i :| 0 <= i < |a[1..]| && a[1..][i].0 == k;
        assert a[i + 1].0 == k;
      }
      if exists i :: 0 <= i < |a| && a[i].0 == k {
        var i :| 0 <= i < |a| && a[i].0 == k;
        if i > 0 {
          assert a[1..][i - 1].0 == k;
        }
      }
    }
  }

  /** `get(k)`: the value stored under `k`, if any. */
  function Get<V>(a: Entries<V>, k: string): Option<V> {
    if a == [] then None
    else if a[0].0 == k then Some(a[0].1)
    else Get(a[1..], k)
  }

  lemma {:induction false} GetHasKey<V>(a: Entries<V>, k: string)
    ensures Get(a, k).Some? <==> HasKey(a, k)
  {
    if a != [] && a[0].0 != k {
      GetHasKey(a[1..], k);
    }
  }

  /** `getOrDefault(k, d)`. */
  function GetOrDefault<V>(a: Entries<V>, k: string, d: V): V {
    Get(a, k).GetOr(d)
  }

  /** `put(k, v)`: overwrite in place when `k` is present, otherwise append. */
  function Put<V>(a: Entries<V>, k: string, v: V): Entries<V> {
    if a == [] then [(k, v)]
    else if a[0].0 == k then [(k, v)] + a[1..]
    else [a[0]] + Put(a[1..], k, v)
  }

  /** After `put(k, v)`, `get` finds `v` under `k` and the old value under every other key. */
  lemma {:induction false} PutGet<V>(a: Entries<V>, k: string, v: V, k': string)
    ensures Get(Put(a, k, v), k') == if k' == k then Some(v) else Get(a, k')
  {
    if a != [] && a[0].0 != k {
      PutGet(a[1..], k, v, k');
    }
  }

  /** `put` adds `k` to the keys and nothing else. */
  lemma {:induction false} PutHasKey<V>(a: Entries<V>, k: string, v: V, k': string)
    ensures HasKey(Put(a, k, v), k') <==> k' == k || HasKey(a, k')
  {
    if a != [] && a[0].0 != k {
      PutHasKey(a[1..], k, v, k');
      assert Put(a, k, v)[1..] == Put(a[1..], k, v);
    } else if a != [] {
      assert Put(a, k, v)[1..] == a[1..];
    }
  }

  lemma ConsDistinct<V>(x: (string, V), t: Entries<V>)
    requires DistinctKeys(t) && !HasKey(t, x.0)
    ensures DistinctKeys([x] + t)
  {
    HasKeyIndex(t, x.0);
    var r := [x] + t;
    forall i, j | 0 <= i < j < |r| ensures r[i].0 != r[j].0 {
      assert r[j] == t[j - 1];
      if i > 0 {
        assert r[i] == t[i - 1];
      }
    }
  }

  lemma {:induction false} PutKeepsDistinct<V>(a: Entries<V>, k: string, v: V)
    requires DistinctKeys(a)
    ensures DistinctKeys(Put(a, k, v))
  {
    if a == [] {
    } else if a[0].0 == k {
      ConsDistinctTail(a);
      HasKeyIndex(a[1..], k);
      ConsDistinct((k, v), a[1..]);
    } else {
      ConsDistinctTail(a);
      PutKeepsDistinct(a[1..], k, v);
      PutHasKey(a[1..], k, v, a[0].0);
      HasKeyIndex(a[1..], a[0].0);
      ConsDistinct(a[0], Put(a[1..], k, v));
    }
  }

  /** The tail of a list with distinct keys has distinct keys and lacks the head's key. */
  lemma ConsDistinctTail<V>(a: Entries<V>)
    requires a != [] && DistinctKeys(a)
    ensures DistinctKeys(a[1..]) && forall i :: 0 <= i < |a[1..]| ==> a[1..][i].0 != a[0].0
  {
    forall i, j | 0 <= i < j < |a[1..]| ensures a[1..][i].0 != a[1..][j].0 {
      assert a[1..][i] == a[i + 1] && a[1..][j] == a[j + 1];
    }
    forall i | 0 <= i < |a[1..]| ensures a[1..][i].0 != a[0].0 {
      assert a[1..][i] == a[i + 1];
    }
  }

  /** With distinct keys, an entry is what `get` finds under its key. */
  lemma {:induction false} MemberGet<V>(a: Entries<V>, e: (string, V))
    requires DistinctKeys(a) && e in a
    ensures Get(a, e.0) == Some(e.1) && HasKey(a, e.0)
  {
    if a[0] != e {
      ConsDistinctTail(a);
      var j :| 0 <= j < |a| && a[j] == e;
      assert j > 0 && a[1..][j - 1] == e;
      MemberGet(a[1..], e);
    }
  }

  /** `get` finds only what is stored. */
  lemma {:induction false} GetMember<V>(a: Entries<V>, k: string)
    requires Get(a, k).Some?
    ensures (k, Get(a, k).value) in a
  {
    if a[0].0 != k {
      GetMember(a[1..], k);
    }
  }

  /** After `put(k, v)` every entry is `(k, v)` or was there before. */
  lemma {:induction false} PutEntries<V>(a: Entries<V>, k: string, v: V, e: (string, V))
    requires e in Put(a, k, v)
    ensures e == (k, v) || e in a
  {
    if a != [] && a[0].0 != k && e != a[0] {
      assert Put(a, k, v) == [a[0]] + Put(a[1..], k, v);
      PutEntries(a[1..], k, v, e);
    }
  }

  /** `putIfAbsent(k, v)`. */
  function PutIfAbsent<V>(a: Entries<V>, k: string, v: V): Entries<V> {
    if HasKey(a, k) then a else Put(a, k, v)
  }

  /** After `putIfAbsent(k, v)`, `get(k)` finds the old value when there was one, else `v`. */
  lemma PutIfAbsentGet<V>(a: Entries<V>, k: string, v: V, k': string)
    ensures Get(PutIfAbsent(a, k, v), k') == if k' == k && !HasKey(a, k) then Some(v) else Get(a, k')
  {
    GetHasKey(a, k);
    PutGet(a, k, v, k');
  }

  /** The keys, in order: `keySet()` of a `LinkedHashMap`. */
  function Keys<V>(a: Entries<V>): (r: seq<string>)
    ensures |r| == |a| && forall i :: 0 <= i < |a| ==> r[i] == a[i].0
  {
    if a == [] then [] else [a[0].0] + Keys(a[1..])
  }

  /** A key is present exactly when it is among the keys. */
  lemma {:induction false} KeysHasKey<V>(a: Entries<V>, k: string)
    ensures HasKey(a, k) <==> k in Keys(a)
  {
    if a != [] {
      KeysHasKey(a[1..], k);
      assert Keys(a) == [a[0].0] + Keys(a[1..]);
    }
  }

  /** `put` keeps the key order and appends a new key at the end. */
  lemma {:induction false} KeysPut<V>(a: Entries<V>, k: string, v: V)
    ensures Keys(Put(a, k, v)) == if HasKey(a, k) then Keys(a) else Keys(a) + [k]
  {
    if a == [] {
    } else if a[0].0 == k {
      var r := Put(a, k, v);
      assert r[1..] == a[1..];
      assert Keys(r) == [k] + Keys(a[1..]);
    } else {
      KeysPut(a[1..], k, v);
      var r := Put(a, k, v);
      assert r[0] == a[0] && r[1..] == Put(a[1..], k, v);
      assert Keys(r) == [a[0].0] + Keys(Put(a[1..], k, v));
      assert Keys(a) == [a[0].0] + Keys(a[1..]);
    }
  }

  /** The sum of the values. */
  function SumValues(a: Entries<int>): int {
    if a == [] then 0 else a[0].1 + SumValues(a[1..])
  }

  lemma SumPutHead(a: Entries<int>, k: string, v: int)
    requires a != [] && a[0].0 == k
    ensures SumValues(Put(a, k, v)) == SumValues(a) - a[0].1 + v
  {
    var r := Put(a, k, v);
    assert r == [(k, v)] + a[1..];
    assert r[1..] == a[1..];
  }

  lemma SumPutTail(a: Entries<int>, k: string, v: int)
    requires a != [] && a[0].0 != k
    ensures SumValues(Put(a, k, v)) == a[0].1 + SumValues(Put(a[1..], k, v))
  {
    var r := Put(a, k, v);
    assert r == [a[0]] + Put(a[1..], k, v);
    assert r[0] == a[0] && r[1..] == Put(a[1..], k, v);
  }

  /** `put(k, v)` replaces the value stored under `k` (0 when absent) by `v` in the sum. */
  lemma {:induction false} SumPut(a: Entries<int>, k: string, v: int)
    ensures SumValues(Put(a, k, v)) == SumValues(a) - GetOrDefault(a, k, 0) + v
  {
    if a == [] {
      assert Put(a, k, v) == [(k, v)];
    } else if a[0].0 == k {
      SumPutHead(a, k, v);
    } else {
      SumPutTail(a, k, v);
      SumPut(a[1..], k, v);
    }
  }

  /** Summing the values entry by entry, as a loop over `entrySet()` does. */
  lemma {:induction false} SumValuesSnoc(a: Entries<int>, j: nat)
    requires j < |a|
    ensures SumValues(a[..j + 1]) == SumValues(a[..j]) + a[j].1
  {
    if j > 0 {
      assert a[..j + 1][1..] == a[1..][..j];
      assert a[..j][1..] == a[1..][..j - 1];
      SumValuesSnoc(a[1..], j - 1);
    } else {
      assert a[..1] == [a[0]];
    }
  }

  /**
   * `put(k, getOrDefault(k, 0) + x)` adds exactly `x` to the sum of the
   * values: accumulating into the map neither loses nor double-counts.
   */
  lemma SumAccumulate(a: Entries<int>, k: string, x: int)
    ensures SumValues(Put(a, k, GetOrDefault(a, k, 0) + x)) == SumValues(a) + x
  {
    SumPut(a, k, GetOrDefault(a, k, 0) + x);
  }

  // ---------------------------------------------------------------- ranking

  ghost predicate NonIncreasing(s: Entries<int>) {
    forall i, j :: 0 <= i < j < |s| ==> s[i].1 >= s[j].1
  }

  function InsertDesc(x: (string, int), s: Entries<int>): (r: Entries<int>)
    ensures |r| == |s| + 1
    ensures multiset(r) == multiset(s) + multiset{x}
  {
    if s == [] || x.1 >= s[0].1 then [x] + s
    else
      assert s == [s[0]] + s[1..];
      [s[0]] + InsertDesc(x, s[1..])
  }

  ghost predicate AllAtMost(s: Entries<int>, b: int) {
    forall i :: 0 <= i < |s| ==> s[i].1 <= b
  }

  lemma {:induction false} InsertDescAtMost(x: (string, int), s: Entries<int>, b: int)
    requires AllAtMost(s, b) && x.1 <= b
    ensures AllAtMost(InsertDesc(x, s), b)
  {
    if !(s == [] || x.1 >= s[0].1) {
      InsertDescAtMost(x, s[1..], b);
      var t := InsertDesc(x, s[1..]);
      assert InsertDesc(x, s) == [s[0]] + t;
    }
  }

  lemma {:induction false} InsertDescSorted(x: (string, int), s: Entries<int>)
    requires NonIncreasing(s)
    ensures NonIncreasing(InsertDesc(x, s))
  {
    if !(s == [] || x.1 >= s[0].1) {
      InsertDescSorted(x, s[1..]);
      InsertDescAtMost(x, s[1..], s[0].1);
      var t := InsertDesc(x, s[1..]);
      var r := [s[0]] + t;
      forall i, j | 0 <= i < j < |r| ensures r[i].1 >= r[j].1 {
        assert r[j] == t[j - 1];
        if i > 0 {
          assert r[i] == t[i - 1];
        }
      }
    }
  }

  /** The entries sorted by value, largest first (ties in no promised order). */
  function SortDesc(a: Entries<int>): (r: Entries<int>)
    ensures |r| == |a|
    ensures multiset(r) == multiset(a)
  {
    if a == [] then []
    else
      assert a == [a[0]] + a[1..];
      InsertDesc(a[0], SortDesc(a[1..]))
  }

  lemma {:induction false} SortDescSorted(a: Entries<int>)
    ensures NonIncreasing(SortDesc(a))
  {
    if a != [] {
      SortDescSorted(a[1..]);
      InsertDescSorted(a[0], SortDesc(a[1..]));
    }
  }

  function Min(x: int, y: int): int { if x <= y then x else y }

  /** `sorted(descending by value).limit(n)`. */
  function TopN(a: Entries<int>, n: nat): Entries<int> {
    SortDesc(a)[..Min(n, |a|)]
  }

  /**
   * What the stream pipeline promises, up to the order of equal values: at
   * most `n` entries, largest value first, taken from `a`, and nothing left
   * out is larger than anything kept.
   */
  ghost predicate IsTopN(a: Entries<int>, n: nat, top: Entries<int>) {
    && |top| == Min(n, |a|)
    && NonIncreasing(top)
    && multiset(top) <= multiset(a)
    && forall e, t :: e in a && e !in top && t in top ==> e.1 <= t.1
  }

  /** In a non-increasing sequence, whatever lies past a prefix is no larger than what is in it. */
  lemma OutsidePrefix(r: Entries<int>, m: nat, e: (string, int), t: (string, int))
    requires NonIncreasing(r) && m <= |r|
    requires e in r && e !in r[..m] && t in r[..m]
    ensures e.1 <= t.1
  {
    var i :| 0 <= i < |r| && r[i] == e;
    var j :| 0 <= j < m && r[..m][j] == t;
    assert forall k :: 0 <= k < m ==> r[..m][k] == r[k];
    assert r[j] == t;
  }

  lemma PrefixMultiset(r: Entries<int>, m: nat)
    requires m <= |r|
    ensures multiset(r[..m]) <= multiset(r)
  {
    assert r == r[..m] + r[m..];
  }

  lemma TopNIsTopN(a: Entries<int>, n: nat)
    ensures IsTopN(a, n, TopN(a, n))
  {
    var r := SortDesc(a);
    SortDescSorted(a);
    var m := Min(n, |a|);
    var top := r[..m];
    PrefixMultiset(r, m);
    forall e, t | e in a && e !in top && t in top ensures e.1 <= t.1 {
      assert e in multiset(r);
      OutsidePrefix(r, m, e, t);
    }
  }

  lemma {:induction false} DistinctKeysCount(a: Entries<int>, p: (string, int))
    requires DistinctKeys(a)
    ensures multiset(a)[p] <= 1
  {
    if a != [] {
      assert a == [a[0]] + a[1..];
      DistinctKeysCount(a[1..], p);
      if a[0] == p {
        assert p !in a[1..] by {
          forall i | 0 <= i < |a[1..]| ensures a[1..][i] != p {
            assert a[1..][i] == a[i + 1];
          }
        }
      }
    }
  }

  /** Two equal entries at different places count twice. */
  lemma TwiceInMultiset<T>(s: seq<T>, i: nat, j: nat)
    requires i < j < |s| && s[i] == s[j]
    ensures multiset(s)[s[i]] >= 2
  {
    assert s == s[..i] + [s[i]] + s[i + 1..j] + [s[j]] + s[j + 1..];
  }

  /** With distinct keys, an entry is determined by its key. */
  lemma SameKeySameEntry(a: Entries<int>, e: (string, int), f: (string, int))
    requires DistinctKeys(a) && e in a && f in a && e.0 == f.0
    ensures e == f
  {
    var x :| 0 <= x < |a| && a[x] == e;
    var y :| 0 <= y < |a| && a[y] == f;
  }

  /** An item is never listed twice: the kept entries have distinct keys. */
  lemma TopNDistinct(a: Entries<int>, n: nat, top: Entries<int>)
    requires DistinctKeys(a) && IsTopN(a, n, top)
    ensures DistinctKeys(top)
  {
    forall i, j | 0 <= i < j < |top| ensures top[i].0 != top[j].0 {
      if top[i].0 == top[j].0 {
        assert top[i] in multiset(a) && top[j] in multiset(a);
        SameKeySameEntry(a, top[i], top[j]);
        TwiceInMultiset(top, i, j);
        DistinctKeysCount(a, top[i]);
      }
    }
  }
}
