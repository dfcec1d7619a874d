/**
 * What both copies of `AppState` do to their `LruCache` beyond a single crate
 * call: the hit path of `get_template` (`get_mut`, then a new `last_accessed`)
 * and the age sweep of `clean_old_templates`, stated over the entry sequence
 * of module Lru (least recently used first).
 */
module CacheModel {
  import opened Results
  import opened Templates
  import opened Lru

  // ---------------------------------------------------------------------------
  // get_template's hit path

  /** `get_mut(k)` promotes the entry; the caller then sets its `last_accessed` to `now`. */
  function Touch(s: seq<Slot>, k: string, now: int): (r: seq<Slot>)
    requires k in Keys(s)
    ensures r != [] && r[|r| - 1] == Slot(k, Peek(s, k).value.(lastAccessed := now))
  {
    var p := Promote(s, k);
    p[|p| - 1 := Slot(k, p[|p| - 1].value.(lastAccessed := now))]
  }

  /**
   * A hit keeps the stored content, stamps it with `now` and makes it the most
   * recent entry; the other entries keep their order, and the key set and the
   * size do not change.
   */
  lemma TouchRefreshes(s: seq<Slot>, k: string, now: int)
    requires DistinctKeys(s) && k in Keys(s)
    ensures Peek(s, k).Some?
    ensures Touch(s, k, now) == Pop(s, k) + [Slot(k, CachedTemplate(Peek(s, k).value.content, now))]
    ensures Keys(Touch(s, k, now)) == Keys(s)
    ensures |Touch(s, k, now)| == |s|
    ensures DistinctKeys(Touch(s, k, now))
  {
    var i := IndexOf(s, k);
    var popped := Pop(s, k);
    var x := Slot(k, s[i].value.(lastAccessed := now));
    assert Promote(s, k) == popped + [s[i]];
    assert Touch(s, k, now) == popped + [x];
    assert x == Slot(k, CachedTemplate(Peek(s, k).value.content, now));
    PopLength(s, k);
    WithoutKeysKeys(s, {k});
    WithoutKeysDistinct(s, {k});
    DistinctSnoc(popped, x);
    assert Keys(popped + [x]) == Keys(popped) + {k};
  }

  // ---------------------------------------------------------------------------
  // clean_old_templates

  /** The entries the sweep keeps, in recency order. */
  function LiveSlots(s: seq<Slot>, now: int, maxAge: nat): (r: seq<Slot>)
    ensures |r| <= |s|
  {
    if s == [] then []
    else
      var last := s[|s| - 1];
      assert s == s[..|s| - 1] + [last];
      LiveSlots(s[..|s| - 1], now, maxAge) + (if Expired(last.value, now, maxAge) then [] else [last])
  }

  /** The entries the sweep selects, in recency order. */
  function ExpiredSlots(s: seq<Slot>, now: int, maxAge: nat): (r: seq<Slot>)
    ensures |r| <= |s|
  {
    if s == [] then []
    else
      var last := s[|s| - 1];
      assert s == s[..|s| - 1] + [last];
      ExpiredSlots(s[..|s| - 1], now, maxAge) + (if Expired(last.value, now, maxAge) then [last] else [])
  }

  /** The sweep selects exactly the entries idle for at least `maxAge` and keeps exactly the others. */
  lemma {:induction false} SweepMembers(s: seq<Slot>, now: int, maxAge: nat)
    ensures forall x :: x in ExpiredSlots(s, now, maxAge) <==> x in s && Expired(x.value, now, maxAge)
    ensures forall x :: x in LiveSlots(s, now, maxAge) <==> x in s && !Expired(x.value, now, maxAge)
  {
    if s != [] {
      var init, last := s[..|s| - 1], s[|s| - 1];
      assert s == init + [last];
      SweepMembers(init, now, maxAge);
    }
  }

  /**
   * `keys_to_remove`: the keys of the expired entries in the order `iter()`
   * visits them, most recently used first.
   */
  function MruExpiredKeys(s: seq<Slot>, now: int, maxAge: nat): seq<string> {
    if s == [] then []
    else
      var last := s[|s| - 1];
      (if Expired(last.value, now, maxAge) then [last.key] else []) + MruExpiredKeys(s[..|s| - 1], now, maxAge)
  }

  /** The collected keys are those of the expired entries, listed from the most recent one back. */
  lemma {:induction false} MruExpiredKeysMatch(s: seq<Slot>, now: int, maxAge: nat)
    ensures |MruExpiredKeys(s, now, maxAge)| == |ExpiredSlots(s, now, maxAge)|
    ensures forall j :: 0 <= j < |MruExpiredKeys(s, now, maxAge)| ==>
              MruExpiredKeys(s, now, maxAge)[j]
              == ExpiredSlots(s, now, maxAge)[|ExpiredSlots(s, now, maxAge)| - 1 - j].key
  {
    if s != [] {
      MruExpiredKeysMatch(s[..|s| - 1], now, maxAge);
    }
  }

  /** The loop over `cache.iter()` that collects `keys_to_remove`, most recently used first. */
  method CollectExpiredKeys(s: seq<Slot>, now: int, maxAge: nat) returns (keys: seq<string>)
    ensures keys == MruExpiredKeys(s, now, maxAge)
  {
    keys := [];
    var i := |s|;
    assert s[..i] == s;
    while i > 0
      invariant 0 <= i <= |s|
      invariant keys + MruExpiredKeys(s[..i], now, maxAge) == MruExpiredKeys(s, now, maxAge)
    {
      var slot := s[i - 1];
      assert s[..i][..i - 1] == s[..i - 1];
      if Expired(slot.value, now, maxAge) {
        keys := keys + [slot.key];
      }
      i := i - 1;
    }
  }

  lemma {:induction false} ExpiredSlotsDistinct(s: seq<Slot>, now: int, maxAge: nat)
    requires DistinctKeys(s)
    ensures DistinctKeys(ExpiredSlots(s, now, maxAge))
  {
    if s != [] {
      var init, last := s[..|s| - 1], s[|s| - 1];
      assert s == init + [last];
      DistinctSnoc(init, last);
      ExpiredSlotsDistinct(init, now, maxAge);
      if Expired(last.value, now, maxAge) {
        SweepMembers(init, now, maxAge);
        assert Keys(ExpiredSlots(init, now, maxAge)) <= Keys(init);
        DistinctSnoc(ExpiredSlots(init, now, maxAge), last);
      }
    }
  }

  /** Removing the keys of the expired entries leaves exactly the live entries, in order. */
  lemma {:induction false} LiveIsWithoutExpiredKeys(s: seq<Slot>, now: int, maxAge: nat)
    requires DistinctKeys(s)
    ensures WithoutKeys(s, Keys(ExpiredSlots(s, now, maxAge))) == LiveSlots(s, now, maxAge)
  {
    if s != [] {
      var init, last := s[..|s| - 1], s[|s| - 1];
      var ex, live := ExpiredSlots(init, now, maxAge), LiveSlots(init, now, maxAge);
      var k := Keys(ExpiredSlots(s, now, maxAge));
      assert s == init + [last];
      assert last.key !in Keys(init) by {
        DistinctSnoc(init, last);
      }
      assert Keys(ex) <= Keys(init) by {
        SweepMembers(init, now, maxAge);
      }
      LiveIsWithoutExpiredKeys(init, now, maxAge);
      WithoutKeysSnoc(init, last, k);
      if Expired(last.value, now, maxAge) {
        assert ExpiredSlots(s, now, maxAge) == ex + [last];
        assert LiveSlots(s, now, maxAge) == live;
        assert k == Keys(ex) + {last.key} by {
          assert Keys(ex + [last]) == Keys(ex) + {last.key};
        }
        assert WithoutKeys(init, k) == WithoutKeys(init, Keys(ex)) by {
          WithoutAbsentKey(init, Keys(ex), last.key);
        }
      } else {
        assert ExpiredSlots(s, now, maxAge) == ex;
        assert LiveSlots(s, now, maxAge) == live + [last];
      }
    }
  }

  /** The expired and the live entries together are the entries of the cache. */
  lemma {:induction false} SweepPartitions(s: seq<Slot>, now: int, maxAge: nat)
    ensures multiset(ExpiredSlots(s, now, maxAge)) + multiset(LiveSlots(s, now, maxAge)) == multiset(s)
  {
    if s != [] {
      var init, last := s[..|s| - 1], s[|s| - 1];
      assert s == init + [last];
      SweepPartitions(init, now, maxAge);
    }
  }

  /** In `a` followed by what is left of `s`, the entry for the key of `x` is `x`. */
  lemma FindsAfterRemoved(s: seq<Slot>, a: seq<Slot>, x: Slot)
    requires DistinctKeys(s) && x in s && x.key !in Keys(a)
    ensures 0 <= IndexOf(a + WithoutKeys(s, Keys(a)), x.key)
    ensures (a + WithoutKeys(s, Keys(a)))[IndexOf(a + WithoutKeys(s, Keys(a)), x.key)] == x
  {
    var rest := WithoutKeys(s, Keys(a));
    var t := a + rest;
    WithoutKeysMembers(s, Keys(a));
    assert x in rest;
    assert x in t;
    var i := IndexOf(t, x.key);
    assert t[i] !in a by {
      assert forall y :: y in a ==> y.key in Keys(a);
    }
    assert t[i] in rest;
    SameKeySameSlot(s, t[i], x);
  }

  /**
   * One `demote` of the sweep: with the entries `a` already moved to the
   * least-recent end, demoting the key of `x` puts `x` in front of them and
   * takes it out of the rest.
   */
  lemma DemoteStep(s: seq<Slot>, a: seq<Slot>, x: Slot)
    requires DistinctKeys(s) && x in s && x.key !in Keys(a)
    ensures Demote(a + WithoutKeys(s, Keys(a)), x.key) == [x] + a + WithoutKeys(s, Keys(a) + {x.key})
  {
    var k := x.key;
    var rest := WithoutKeys(s, Keys(a));
    var left := WithoutKeys(s, Keys(a) + {k});
    FindsAfterRemoved(s, a, x);
    assert Demote(a + rest, k) == [x] + Pop(a + rest, k);
    assert Pop(a + rest, k) == a + left by {
      WithoutKeysAppend(a, rest, {k});
      WithoutKeysNoop(a, {k});
      PopAfterWithoutKeys(s, Keys(a), k);
    }
    assert [x] + (a + left) == [x] + a + left;
  }

  /** A key of a cache with one entry per key does not recur later in it. */
  lemma LaterKeysDiffer(s: seq<Slot>, j: nat)
    requires DistinctKeys(s) && j < |s|
    ensures s[j].key !in Keys(s[j + 1..])
    ensures s[j..] == [s[j]] + s[j + 1..]
    ensures Keys(s[j..]) == Keys(s[j + 1..]) + {s[j].key}
  {
    forall y | y in s[j + 1..] ensures y.key != s[j].key {
      var m :| 0 <= m < |s[j + 1..]| && s[j + 1..][m] == y;
      assert s[j + 1 + m] == y;
    }
    assert s[j..] == [s[j]] + s[j + 1..];
  }

  /** An entry whose key is not in `p` can go in front of it without repeating a key. */
  lemma ConsDistinct(x: Slot, p: seq<Slot>)
    requires DistinctKeys(p) && x.key !in Keys(p)
    ensures DistinctKeys([x] + p)
  {
    var t := [x] + p;
    forall i, j | 0 <= i < j < |t| ensures t[i].key != t[j].key {
      assert t[j] == p[j - 1];
      if i == 0 {
        assert p[j - 1] in p ==> p[j - 1].key in Keys(p);
      } else {
        assert t[i] == p[i - 1];
      }
    }
  }

  /** `demote` of a stored key only reorders: same size, still one entry per key. */
  lemma DemoteKeepsEntries(s: seq<Slot>, k: string)
    requires DistinctKeys(s) && k in Keys(s)
    ensures |Demote(s, k)| == |s|
    ensures DistinctKeys(Demote(s, k))
  {
    var x := s[IndexOf(s, k)];
    var p := Pop(s, k);
    assert Demote(s, k) == [x] + p;
    PopLength(s, k);
    WithoutKeysDistinct(s, {k});
    assert x.key !in Keys(p) by {
      WithoutKeysKeys(s, {k});
    }
    ConsDistinct(x, p);
  }

  /**
   * One iteration of the `demote` loop of src/main.rs: with the `i` most
   * recent expired entries already at the least-recent end, demoting the key
   * of the next one puts it in front of them.
   */
  lemma DemoteSweepStep(s: seq<Slot>, ex: seq<Slot>, i: nat)
    requires DistinctKeys(s) && DistinctKeys(ex) && i < |ex|
    requires forall x :: x in ex ==> x in s
    requires DistinctKeys(ex[|ex| - i..] + WithoutKeys(s, Keys(ex[|ex| - i..])))
    ensures ex[|ex| - 1 - i].key in Keys(ex[|ex| - i..] + WithoutKeys(s, Keys(ex[|ex| - i..])))
    ensures Demote(ex[|ex| - i..] + WithoutKeys(s, Keys(ex[|ex| - i..])), ex[|ex| - 1 - i].key)
            == ex[|ex| - 1 - i..] + WithoutKeys(s, Keys(ex[|ex| - 1 - i..]))
    ensures |Demote(ex[|ex| - i..] + WithoutKeys(s, Keys(ex[|ex| - i..])), ex[|ex| - 1 - i].key)|
            == |ex[|ex| - i..] + WithoutKeys(s, Keys(ex[|ex| - i..]))|
    ensures DistinctKeys(ex[|ex| - 1 - i..] + WithoutKeys(s, Keys(ex[|ex| - 1 - i..])))
  {
    var x := ex[|ex| - 1 - i];
    var a := ex[|ex| - i..];
    var cur := a + WithoutKeys(s, Keys(a));
    assert x in ex;
    LaterKeysDiffer(ex, |ex| - 1 - i);
    WithoutKeysMembers(s, Keys(a));
    assert x in WithoutKeys(s, Keys(a));
    assert x in cur ==> x.key in Keys(cur);
    DemoteStep(s, a, x);
    DemoteKeepsEntries(cur, x.key);
  }

  /** Before either sweep loop nothing has been removed or moved. */
  lemma SweepStart(s: seq<Slot>, ex: seq<Slot>)
    ensures WithoutKeys(s, Keys(ex[|ex|..])) == s
    ensures ex[|ex|..] + WithoutKeys(s, Keys(ex[|ex|..])) == s
  {
    assert ex[|ex|..] == [];
    assert Keys([]) == {};
    WithoutKeysNoop(s, {});
  }

  /** The collected keys are the keys of the expired entries. */
  lemma {:induction false} MruExpiredKeySet(s: seq<Slot>, now: int, maxAge: nat)
    ensures KeySet(MruExpiredKeys(s, now, maxAge)) == Keys(ExpiredSlots(s, now, maxAge))
  {
    if s != [] {
      var init, last := s[..|s| - 1], s[|s| - 1];
      MruExpiredKeySet(init, now, maxAge);
      var ex := ExpiredSlots(init, now, maxAge);
      var mk := MruExpiredKeys(init, now, maxAge);
      if Expired(last.value, now, maxAge) {
        assert ExpiredSlots(s, now, maxAge) == ex + [last];
        assert MruExpiredKeys(s, now, maxAge) == [last.key] + mk;
        assert KeySet([last.key] + mk) == KeySet(mk) + {last.key};
        assert Keys(ex + [last]) == Keys(ex) + {last.key};
      } else {
        assert ExpiredSlots(s, now, maxAge) == ex;
        assert MruExpiredKeys(s, now, maxAge) == mk;
      }
    }
  }

  /**
   * The `pop` loop of src/app_state.rs over `keys_to_remove` leaves exactly the
   * live entries, in their order.
   */
  lemma PopSweep(s: seq<Slot>, now: int, maxAge: nat)
    requires DistinctKeys(s)
    ensures PopAll(s, MruExpiredKeys(s, now, maxAge)) == LiveSlots(s, now, maxAge)
    ensures DistinctKeys(LiveSlots(s, now, maxAge))
  {
    PopAllIsWithoutKeys(s, MruExpiredKeys(s, now, maxAge));
    MruExpiredKeySet(s, now, maxAge);
    LiveIsWithoutExpiredKeys(s, now, maxAge);
    WithoutKeysDistinct(s, Keys(ExpiredSlots(s, now, maxAge)));
  }

  /** After either sweep loop every expired key has been handled. */
  lemma SweepDone(s: seq<Slot>, now: int, maxAge: nat)
    requires DistinctKeys(s)
    ensures var ex := ExpiredSlots(s, now, maxAge);
            WithoutKeys(s, Keys(ex[0..])) == LiveSlots(s, now, maxAge)
    ensures DistinctKeys(LiveSlots(s, now, maxAge))
  {
    var ex := ExpiredSlots(s, now, maxAge);
    assert ex[0..] == ex;
    LiveIsWithoutExpiredKeys(s, now, maxAge);
    WithoutKeysDistinct(s, Keys(ex));
  }

  // ---------------------------------------------------------------------------
  // Recency and timestamps

  /** Timestamps never decrease from the least to the most recently used entry. */
  predicate Chronological(s: seq<Slot>) {
    forall i, j :: 0 <= i < j < |s| ==> s[i].value.lastAccessed <= s[j].value.lastAccessed
  }

  /** No entry was touched after `now`. */
  predicate NotAfter(s: seq<Slot>, now: int) {
    forall x :: x in s ==> x.value.lastAccessed <= now
  }

  lemma ChronologicalSnoc(a: seq<Slot>, x: Slot)
    ensures Chronological(a + [x])
            <==> Chronological(a) && forall y :: y in a ==> y.value.lastAccessed <= x.value.lastAccessed
  {
    var b := a + [x];
    if Chronological(b) {
      assert forall i, j :: 0 <= i < j < |a| ==> a[i] == b[i] && a[j] == b[j];
      forall y | y in a ensures y.value.lastAccessed <= x.value.lastAccessed {
        var i :| 0 <= i < |a| && a[i] == y;
        assert b[i] == y && b[|a|] == x;
      }
    }
    if Chronological(a) && forall y :: y in a ==> y.value.lastAccessed <= x.value.lastAccessed {
      forall i, j | 0 <= i < j < |b| ensures b[i].value.lastAccessed <= b[j].value.lastAccessed {
        assert b[i] in a;
      }
    }
  }

  lemma {:induction false} WithoutKeysChronological(s: seq<Slot>, ks: set<string>)
    requires Chronological(s)
    ensures Chronological(WithoutKeys(s, ks))
  {
    if s != [] {
      var init, last := s[..|s| - 1], s[|s| - 1];
      assert s == init + [last];
      ChronologicalSnoc(init, last);
      WithoutKeysChronological(init, ks);
      if last.key !in ks {
        WithoutKeysMembers(init, ks);
        ChronologicalSnoc(WithoutKeys(init, ks), last);
      }
    }
  }

  /**
   * With a clock that never runs backwards, recency order is timestamp order:
   * `put` and a hit keep it, so the entry `put` evicts is always one with the
   * oldest `last_accessed`.
   */
  lemma PutKeepsChronological(s: seq<Slot>, cap: nat, k: string, content: string, now: int)
    requires cap > 0 && Chronological(s) && NotAfter(s, now)
    ensures Chronological(Put(s, cap, k, CachedTemplate(content, now)))
    ensures NotAfter(Put(s, cap, k, CachedTemplate(content, now)), now)
    ensures |s| == cap && k !in Keys(s) ==>
              && Put(s, cap, k, CachedTemplate(content, now)) == s[1..] + [Slot(k, CachedTemplate(content, now))]
              && forall i :: 0 <= i < |s| ==> s[0].value.lastAccessed <= s[i].value.lastAccessed
  {
    var x := Slot(k, CachedTemplate(content, now));
    var base := if k in Keys(s) then Pop(s, k) else if |s| == cap then s[1..] else s;
    assert Put(s, cap, k, x.value) == base + [x];
    WithoutKeysMembers(s, {k});
    assert forall y :: y in base ==> y in s;
    assert Chronological(base) by {
      WithoutKeysChronological(s, {k});
    }
    ChronologicalSnoc(base, x);
  }

  lemma TouchKeepsChronological(s: seq<Slot>, k: string, now: int)
    requires DistinctKeys(s) && k in Keys(s) && Chronological(s) && NotAfter(s, now)
    ensures Chronological(Touch(s, k, now)) && NotAfter(Touch(s, k, now), now)
  {
    TouchRefreshes(s, k, now);
    var x := Slot(k, CachedTemplate(Peek(s, k).value.content, now));
    WithoutKeysChronological(s, {k});
    WithoutKeysMembers(s, {k});
    assert forall y :: y in Pop(s, k) ==> y in s;
    ChronologicalSnoc(Pop(s, k), x);
  }

  /** An entry older than an expired one is expired too. */
  lemma ExpiryIsMonotone(t1: CachedTemplate, t2: CachedTemplate, now: int, maxAge: nat)
    requires t1.lastAccessed <= t2.lastAccessed && Expired(t2, now, maxAge)
    ensures Expired(t1, now, maxAge)
  {
  }

  lemma {:induction false} AllExpired(s: seq<Slot>, now: int, maxAge: nat)
    requires forall i :: 0 <= i < |s| ==> Expired(s[i].value, now, maxAge)
    ensures ExpiredSlots(s, now, maxAge) == s && LiveSlots(s, now, maxAge) == []
  {
    if s != [] {
      AllExpired(s[..|s| - 1], now, maxAge);
      assert s == s[..|s| - 1] + [s[|s| - 1]];
    }
  }

  /**
   * In timestamp order the expired entries already sit at the least-recent end,
   * so moving them there leaves the order as it was.
   */
  lemma {:induction false} ChronologicalPartitionIsIdentity(s: seq<Slot>, now: int, maxAge: nat)
    requires Chronological(s)
    ensures ExpiredSlots(s, now, maxAge) + LiveSlots(s, now, maxAge) == s
  {
    if s != [] {
      var init, last := s[..|s| - 1], s[|s| - 1];
      assert s == init + [last];
      ChronologicalSnoc(init, last);
      if Expired(last.value, now, maxAge) {
        forall i | 0 <= i < |s| ensures Expired(s[i].value, now, maxAge) {
          ExpiryIsMonotone(s[i].value, last.value, now, maxAge);
        }
        AllExpired(s, now, maxAge);
      } else {
        var ex, live := ExpiredSlots(init, now, maxAge), LiveSlots(init, now, maxAge);
        ChronologicalPartitionIsIdentity(init, now, maxAge);
        assert ExpiredSlots(s, now, maxAge) == ex;
        assert LiveSlots(s, now, maxAge) == live + [last];
        assert ex + (live + [last]) == (ex + live) + [last];
      }
    }
  }
}
