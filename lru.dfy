/**
 * The documented behaviour of the `lru` crate's `LruCache<String, V>`, at the
 * value type both copies of `AppState` store. A cache is the sequence of its
 * entries in recency order: index 0 is the least recently used entry (the one
 * `put` evicts), the last index the most recently used.
 */
module Lru {
  import opened Results
  import opened Templates

  datatype Slot = Slot(key: string, value: CachedTemplate)

  function Keys(s: seq<Slot>): set<string> {
    set x | x in s :: x.key
  }

  /** An `LruCache` holds at most one entry per key. */
  predicate DistinctKeys(s: seq<Slot>) {
    forall i, j :: 0 <= i < j < |s| ==> s[i].key != s[j].key
  }

  /** Position of the entry for `k`, or -1. */
  function IndexOf(s: seq<Slot>, k: string): (i: int)
    ensures -1 <= i < |s|
    ensures 0 <= i ==> s[i].key == k
    ensures i < 0 <==> k !in Keys(s)
  {
    if s == [] then -1
    else if s[|s| - 1].key == k then |s| - 1
    else
      var i := IndexOf(s[..|s| - 1], k);
      assert s == s[..|s| - 1] + [s[|s| - 1]];
      i
  }

  /** `peek`: the value stored for `k`, without touching recency. */
  function Peek(s: seq<Slot>, k: string): Option<CachedTemplate> {
    var i := IndexOf(s, k);
    if i < 0 then None else Some(s[i].value)
  }

  /** `peek(k)` finds a value exactly when `k` is cached, and the value found is the one stored with `k`. */
  lemma PeekCached(s: seq<Slot>, k: string)
    ensures Peek(s, k).Some? <==> k in Keys(s)
    ensures Peek(s, k).Some? ==> Slot(k, Peek(s, k).value) in s
  {
  }

  /** The entries whose key is not in `ks`, in their original order. */
  function WithoutKeys(s: seq<Slot>, ks: set<string>): (r: seq<Slot>)
    ensures |r| <= |s|
  {
    if s == [] then []
    else
      var last := s[|s| - 1];
      assert s == s[..|s| - 1] + [last];
      WithoutKeys(s[..|s| - 1], ks) + (if last.key in ks then [] else [last])
  }

  /** The entries kept are exactly those whose key is not removed. */
  lemma {:induction false} WithoutKeysMembers(s: seq<Slot>, ks: set<string>)
    ensures forall x :: x in WithoutKeys(s, ks) <==> x in s && x.key !in ks
  {
    if s != [] {
      var init, last := s[..|s| - 1], s[|s| - 1];
      assert s == init + [last];
      WithoutKeysMembers(init, ks);
    }
  }

  lemma WithoutKeysKeys(s: seq<Slot>, ks: set<string>)
    ensures Keys(WithoutKeys(s, ks)) == Keys(s) - ks
  {
    WithoutKeysMembers(s, ks);
    var r := WithoutKeys(s, ks);
    forall k | k in Keys(s) - ks ensures k in Keys(r) {
      var x :| x in s && x.key == k;
      assert x in r;
    }
  }

  /** Removing keys none of the entries has changes nothing; removing one that is stored shortens the cache. */
  lemma {:induction false} WithoutKeysNoop(s: seq<Slot>, ks: set<string>)
    ensures Keys(s) !! ks <==> WithoutKeys(s, ks) == s
  {
    if s != [] {
      var init, last := s[..|s| - 1], s[|s| - 1];
      assert s == init + [last];
      WithoutKeysNoop(init, ks);
      assert Keys(s) == Keys(init) + {last.key};
      if WithoutKeys(s, ks) == s {
        assert |WithoutKeys(init, ks)| <= |init|;
        assert last.key !in ks;
        assert WithoutKeys(init, ks) == init;
      }
    }
  }

  lemma {:induction false} WithoutKeysShrinks(s: seq<Slot>, ks: set<string>)
    requires !(Keys(s) !! ks)
    ensures |WithoutKeys(s, ks)| < |s|
  {
    var init, last := s[..|s| - 1], s[|s| - 1];
    assert s == init + [last];
    if last.key !in ks {
      assert Keys(s) == Keys(init) + {last.key};
      WithoutKeysShrinks(init, ks);
    }
  }

  /** `pop(k)`: the entry for `k` is removed, if there is one (the value it returns is not used). */
  function Pop(s: seq<Slot>, k: string): (r: seq<Slot>)
    ensures k !in Keys(r) && Keys(r) <= Keys(s)
    ensures |r| <= |s|
    ensures k in Keys(s) ==> |r| < |s|
  {
    WithoutKeysKeys(s, {k});
    if k in Keys(s) then
      WithoutKeysShrinks(s, {k});
      WithoutKeys(s, {k})
    else WithoutKeys(s, {k})
  }

  /**
   * `get_mut(k)` and `promote(k)`: the entry for `k` becomes the most recently
   * used; the cached keys stay the same, and a missing key changes nothing.
   */
  function Promote(s: seq<Slot>, k: string): (r: seq<Slot>)
    ensures Keys(r) == Keys(s)
    ensures k in Keys(s) ==> r != [] && r[|r| - 1].key == k && Peek(s, k) == Some(r[|r| - 1].value)
    ensures k !in Keys(s) ==> r == s
  {
    var i := IndexOf(s, k);
    if i < 0 then s
    else
      WithoutKeysKeys(s, {k});
      assert Keys(Pop(s, k) + [s[i]]) == Keys(Pop(s, k)) + {k};
      Pop(s, k) + [s[i]]
  }

  /**
   * `demote(k)`: the entry for `k` becomes the least recently used; the cached
   * keys stay the same, and a missing key changes nothing.
   */
  function Demote(s: seq<Slot>, k: string): (r: seq<Slot>)
    ensures Keys(r) == Keys(s)
    ensures k in Keys(s) ==> r != [] && r[0].key == k && Peek(s, k) == Some(r[0].value)
    ensures k !in Keys(s) ==> r == s
  {
    var i := IndexOf(s, k);
    if i < 0 then s
    else
      WithoutKeysKeys(s, {k});
      assert Keys([s[i]] + Pop(s, k)) == {k} + Keys(Pop(s, k));
      [s[i]] + Pop(s, k)
  }

  /**
   * `put(k, v)` on a cache of capacity `cap` (a `NonZeroUsize`): an existing
   * entry is replaced and promoted; a new key is appended as most recent, after
   * evicting the least recently used entry when the cache is full.
   */
  function Put(s: seq<Slot>, cap: nat, k: string, v: CachedTemplate): (r: seq<Slot>)
    requires cap > 0
    ensures r != [] && r[|r| - 1] == Slot(k, v)
    ensures |s| <= cap ==> |r| <= cap
  {
    if k in Keys(s) then Pop(s, k) + [Slot(k, v)]
    else if |s| == cap then s[1..] + [Slot(k, v)]
    else s + [Slot(k, v)]
  }

  /**
   * A put of a cached key, or into a cache that is not full, drops no other
   * entry: the keys grow by `k` alone, and the size grows only for a new key.
   */
  lemma PutKeepsOthers(s: seq<Slot>, cap: nat, k: string, v: CachedTemplate)
    requires cap > 0 && DistinctKeys(s)
    requires k in Keys(s) || |s| < cap
    ensures Keys(Put(s, cap, k, v)) == Keys(s) + {k}
    ensures |Put(s, cap, k, v)| == if k in Keys(s) then |s| else |s| + 1
  {
    var r := Put(s, cap, k, v);
    if k in Keys(s) {
      PopLength(s, k);
      WithoutKeysKeys(s, {k});
      assert r == Pop(s, k) + [Slot(k, v)];
      assert Keys(r) == Keys(Pop(s, k)) + {k};
    } else {
      assert r == s + [Slot(k, v)];
      assert Keys(r) == Keys(s) + {k};
    }
  }

  /** A put of a new key into a cache that is not full appends the entry. */
  lemma PutAppends(s: seq<Slot>, cap: nat, x: Slot)
    requires |s| < cap && x.key !in Keys(s)
    ensures Put(s, cap, x.key, x.value) == s + [x]
  {
  }

  lemma DistinctSnoc(a: seq<Slot>, x: Slot)
    ensures DistinctKeys(a + [x]) <==> DistinctKeys(a) && x.key !in Keys(a)
  {
    var b := a + [x];
    if DistinctKeys(a) && x.key !in Keys(a) {
      forall i, j | 0 <= i < j < |b| ensures b[i].key != b[j].key {
        if j == |a| { assert b[i] in a; }
      }
    }
    if DistinctKeys(b) {
      assert forall i, j :: 0 <= i < j < |a| ==> a[i] == b[i] && a[j] == b[j];
      forall y | y in a ensures y.key != x.key {
        var i :| 0 <= i < |a| && a[i] == y;
        assert b[i] == y && b[|a|] == x;
      }
    }
  }

  lemma {:induction false} WithoutKeysDistinct(s: seq<Slot>, ks: set<string>)
    requires DistinctKeys(s)
    ensures DistinctKeys(WithoutKeys(s, ks))
  {
    if s != [] {
      var init, last := s[..|s| - 1], s[|s| - 1];
      assert s == init + [last];
      DistinctSnoc(init, last);
      WithoutKeysDistinct(init, ks);
      if last.key !in ks {
        WithoutKeysKeys(init, ks);
        DistinctSnoc(WithoutKeys(init, ks), last);
      }
    }
  }

  /** In a cache with one entry per key, `peek(k)` finds exactly the entry stored for `k`. */
  lemma PeekFinds(s: seq<Slot>, k: string, t: CachedTemplate)
    requires DistinctKeys(s)
    ensures Peek(s, k) == Some(t) <==> Slot(k, t) in s
  {
    if Slot(k, t) in s {
      var j :| 0 <= j < |s| && s[j] == Slot(k, t);
      var i := IndexOf(s, k);
      assert i == j;
    }
  }

  lemma PutKeepsDistinct(s: seq<Slot>, cap: nat, k: string, v: CachedTemplate)
    requires cap > 0 && DistinctKeys(s)
    ensures DistinctKeys(Put(s, cap, k, v))
  {
    if k in Keys(s) {
      WithoutKeysDistinct(s, {k});
      WithoutKeysKeys(s, {k});
      DistinctSnoc(Pop(s, k), Slot(k, v));
    } else if |s| == cap {
      assert Keys(s[1..]) <= Keys(s) by {
        forall x | x in s[1..] ensures x in s { }
      }
      DistinctSnoc(s[1..], Slot(k, v));
    } else {
      DistinctSnoc(s, Slot(k, v));
    }
  }

  /**
   * A put of a new key into a full cache evicts exactly the least recently used
   * entry: the others keep their order and the new entry becomes the most recent.
   */
  lemma PutEvictsLeastRecent(s: seq<Slot>, cap: nat, k: string, v: CachedTemplate)
    requires cap > 0 && DistinctKeys(s)
    requires |s| == cap && k !in Keys(s)
    ensures Put(s, cap, k, v) == s[1..] + [Slot(k, v)]
    ensures |Put(s, cap, k, v)| == cap
    ensures Keys(Put(s, cap, k, v)) == Keys(s) - {s[0].key} + {k}
  {
    var r := Put(s, cap, k, v);
    assert s == [s[0]] + s[1..];
    forall y | y in s[1..] ensures y.key != s[0].key {
      var j :| 0 <= j < |s[1..]| && s[1..][j] == y;
      assert s[j + 1] == y;
    }
    assert Keys(s) == {s[0].key} + Keys(s[1..]);
    assert Keys(r) == Keys(s[1..]) + {k};
  }

  /** After `put(k, v)` the cache holds `v` for `k`, and every other key keeps its value or was evicted. */
  lemma PeekAfterPut(s: seq<Slot>, cap: nat, k: string, v: CachedTemplate, j: string)
    requires cap > 0 && DistinctKeys(s)
    ensures Peek(Put(s, cap, k, v), k) == Some(v)
    ensures j != k && j in Keys(Put(s, cap, k, v)) ==> Peek(Put(s, cap, k, v), j) == Peek(s, j)
  {
    var r := Put(s, cap, k, v);
    PutKeepsDistinct(s, cap, k, v);
    if j != k && j in Keys(r) {
      var i := IndexOf(r, j);
      var x := r[i];
      assert x in r;
      assert x in s by {
        if k in Keys(s) {
          WithoutKeysMembers(s, {k});
          assert x in Pop(s, k) || x == Slot(k, v);
        } else if |s| == cap {
          assert i < |s[1..]|;
          assert x == s[1..][i];
        } else {
          assert i < |s|;
        }
      }
      PeekFinds(s, j, x.value);
    }
  }

  /** Two entries of a cache with the same key are the same entry. */
  lemma SameKeySameSlot(s: seq<Slot>, x: Slot, y: Slot)
    requires DistinctKeys(s) && x in s && y in s && x.key == y.key
    ensures x == y
  {
    var i :| 0 <= i < |s| && s[i] == x;
    var j :| 0 <= j < |s| && s[j] == y;
  }

  /** `WithoutKeys` on a cache with one more entry at the most recent end. */
  lemma WithoutKeysSnoc(init: seq<Slot>, last: Slot, ks: set<string>)
    ensures WithoutKeys(init + [last], ks) == WithoutKeys(init, ks) + (if last.key in ks then [] else [last])
  {
    var s := init + [last];
    assert s[..|s| - 1] == init;
  }

  lemma {:induction false} WithoutKeysAppend(a: seq<Slot>, b: seq<Slot>, ks: set<string>)
    ensures WithoutKeys(a + b, ks) == WithoutKeys(a, ks) + WithoutKeys(b, ks)
    decreases |b|
  {
    if b == [] {
      assert a + b == a;
    } else {
      var init, last := b[..|b| - 1], b[|b| - 1];
      var tail := if last.key in ks then [] else [last];
      assert WithoutKeys(a + b, ks) == WithoutKeys(a + init, ks) + tail by {
        assert a + b == (a + init) + [last];
        WithoutKeysSnoc(a + init, last, ks);
      }
      assert WithoutKeys(b, ks) == WithoutKeys(init, ks) + tail by {
        assert b == init + [last];
        WithoutKeysSnoc(init, last, ks);
      }
      WithoutKeysAppend(a, init, ks);
      assert (WithoutKeys(a, ks) + WithoutKeys(init, ks)) + tail
             == WithoutKeys(a, ks) + (WithoutKeys(init, ks) + tail);
    }
  }

  /** Popping `k` after removing the keys `ks` removes `ks + {k}`. */
  lemma {:induction false} PopAfterWithoutKeys(s: seq<Slot>, ks: set<string>, k: string)
    ensures Pop(WithoutKeys(s, ks), k) == WithoutKeys(s, ks + {k})
  {
    if s != [] {
      var init, last := s[..|s| - 1], s[|s| - 1];
      var t1 := if last.key in ks then [] else [last];
      var t2 := if last.key in ks + {k} then [] else [last];
      assert WithoutKeys(s, ks) == WithoutKeys(init, ks) + t1;
      assert WithoutKeys(s, ks + {k}) == WithoutKeys(init, ks + {k}) + t2;
      WithoutKeysAppend(WithoutKeys(init, ks), t1, {k});
      assert WithoutKeys(t1, {k}) == t2 by {
        if t1 != [] {
          assert t1[..0] == [];
        }
      }
      PopAfterWithoutKeys(init, ks, k);
    }
  }

  /** `pop` of each key in turn. */
  function PopAll(s: seq<Slot>, keys: seq<string>): (r: seq<Slot>)
    ensures Keys(r) <= Keys(s) && |r| <= |s|
    ensures Keys(r) !! KeySet(keys)
  {
    if keys == [] then s else Pop(PopAll(s, keys[..|keys| - 1]), keys[|keys| - 1])
  }

  /** One more pop, as one iteration of a loop over `keys` does it. */
  lemma PopAllStep(s: seq<Slot>, keys: seq<string>, i: nat)
    requires i < |keys|
    ensures PopAll(s, keys[..i + 1]) == Pop(PopAll(s, keys[..i]), keys[i])
  {
    assert keys[..i + 1][..i] == keys[..i];
  }

  function KeySet(keys: seq<string>): set<string> {
    set k | k in keys
  }

  /** Popping keys one by one removes exactly the entries with those keys, whatever the order. */
  lemma {:induction false} PopAllIsWithoutKeys(s: seq<Slot>, keys: seq<string>)
    ensures PopAll(s, keys) == WithoutKeys(s, KeySet(keys))
  {
    if keys == [] {
      assert KeySet(keys) == {};
      WithoutKeysNoop(s, {});
    } else {
      var init, last := keys[..|keys| - 1], keys[|keys| - 1];
      assert keys == init + [last];
      assert KeySet(keys) == KeySet(init) + {last};
      PopAllIsWithoutKeys(s, init);
      PopAfterWithoutKeys(s, KeySet(init), last);
    }
  }

  /** Removing a key that is not stored changes nothing. */
  lemma {:induction false} WithoutAbsentKey(s: seq<Slot>, ks: set<string>, k: string)
    requires k !in Keys(s)
    ensures WithoutKeys(s, ks + {k}) == WithoutKeys(s, ks)
  {
    if s != [] {
      var init, last := s[..|s| - 1], s[|s| - 1];
      assert s == init + [last];
      assert Keys(init) <= Keys(s);
      WithoutAbsentKey(init, ks, k);
    }
  }

  /** `pop` of a stored key shortens the cache by exactly one entry. */
  lemma {:induction false} PopLength(s: seq<Slot>, k: string)
    requires DistinctKeys(s) && k in Keys(s)
    ensures |Pop(s, k)| == |s| - 1
  {
    var init, last := s[..|s| - 1], s[|s| - 1];
    assert s == init + [last];
    DistinctSnoc(init, last);
    if last.key == k {
      WithoutKeysNoop(init, {k});
    } else {
      assert k in Keys(init);
      PopLength(init, k);
    }
  }
}
