/**
 * `AppState` of src/app_state.rs: the template cache the HTTP handlers and
 * the template watcher share. The `LruCache` behind its lock is the field
 * `entries` (least recently used first); every method runs as one atomic
 * step, as it does under the write lock. `Instant::now()` is the parameter
 * `now` and the filesystem read by `read_to_string` is the map `disk`, where a
 * missing path is a failed read.
 */
module AppStateCache {
  import opened Results
  import opened Templates
  import opened Lru
  import opened CacheModel
  import Paths

  /** The `String` errors the cache methods return, by cause. */
  datatype CacheError =
    | ReadFailed(path: string)     // "Failed to read template file ..."
    | ReloadFailed(path: string)   // "Failed to reload template: ..."

  /** Entry capacity `initialize_state` gives the cache. */
  const CacheCapacity: nat := 100

  /** Age after which the periodic sweep drops an entry: one hour, in seconds. */
  const ExpirationSecs: nat := 3600

  class AppState {
    var entries: seq<Slot>
    const capacity: nat
    const templateDir: Paths.Path

    ghost predicate Valid()
      reads this
    {
      0 < capacity && |entries| <= capacity && DistinctKeys(entries)
    }

    /** `AppState::new`: `NonZeroUsize::new(cache_capacity).unwrap()` panics on 0. */
    constructor (cacheCapacity: nat, templateDir: Paths.Path)
      requires cacheCapacity > 0
      ensures Valid()
      ensures entries == [] && capacity == cacheCapacity && this.templateDir == templateDir
    {
      entries := [];
      capacity := cacheCapacity;
      this.templateDir := templateDir;
    }

    /**
     * `get_template(path)`: a hit returns the cached content, refreshes its
     * timestamp and recency and never reads the disk; a miss reads the file
     * and caches it, or fails and leaves the cache as it was.
     */
    method GetTemplate(path: string, now: int, disk: map<string, string>) returns (r: Result<string, CacheError>)
      requires Valid()
      modifies this
      ensures Valid()
      ensures path in Keys(old(entries)) ==>
                && r == Ok(Peek(old(entries), path).value.content)
                && entries == Touch(old(entries), path, now)
      ensures path !in Keys(old(entries)) && path !in disk ==>
                r == Err(ReadFailed(path)) && entries == old(entries)
      ensures path !in Keys(old(entries)) && path in disk ==>
                && r == Ok(disk[path])
                && entries == Put(old(entries), capacity, path, CachedTemplate(disk[path], now))
    {
      if IndexOf(entries, path) >= 0 {
        TouchRefreshes(entries, path, now);
        entries := Promote(entries, path);
        var cached := entries[|entries| - 1];
        entries := entries[|entries| - 1 := Slot(path, cached.value.(lastAccessed := now))];
        r := Ok(cached.value.content);
      } else if path in disk {
        var content := disk[path];
        PutKeepsDistinct(entries, capacity, path, CachedTemplate(content, now));
        entries := Put(entries, capacity, path, CachedTemplate(content, now));
        r := Ok(content);
      } else {
        r := Err(ReadFailed(path));
      }
    }

    /** `insert_template(path, content)`: a `put` stamped with `now`. */
    method InsertTemplate(path: string, content: string, now: int)
      requires Valid()
      modifies this
      ensures Valid()
      ensures entries == Put(old(entries), capacity, path, CachedTemplate(content, now))
    {
      PutKeepsDistinct(entries, capacity, path, CachedTemplate(content, now));
      entries := Put(entries, capacity, path, CachedTemplate(content, now));
    }

    /**
     * `clean_old_templates(max_age)`: collects the keys of the entries idle for
     * at least `max_age`, then pops each of them. Exactly the younger entries
     * remain, in their recency order and with their contents and timestamps.
     */
    method CleanOldTemplates(maxAge: nat, now: int)
      requires Valid()
      modifies this
      ensures Valid()
      ensures entries == LiveSlots(old(entries), now, maxAge)
    {
      var keysToRemove := CollectExpiredKeys(entries, now, maxAge);
      ghost var s := entries;
      for i := 0 to |keysToRemove|
        invariant entries == PopAll(s, keysToRemove[..i])
      {
        PopAllStep(s, keysToRemove, i);
        entries := Pop(entries, keysToRemove[i]);
      }
      assert entries == LiveSlots(s, now, maxAge) && DistinctKeys(entries) by {
        assert keysToRemove[..|keysToRemove|] == keysToRemove;
        PopSweep(s, now, maxAge);
      }
    }

    /**
     * `reload_template(path)`: the watcher's refresh. A successful read is
     * inserted as by `insert_template`; a failed one is an error and the
     * cache is left as it was.
     */
    method ReloadTemplate(path: string, now: int, disk: map<string, string>) returns (r: Result<(), CacheError>)
      requires Valid()
      modifies this
      ensures Valid()
      ensures path in disk ==>
                r == Ok(()) && entries == Put(old(entries), capacity, path, CachedTemplate(disk[path], now))
      ensures path !in disk ==> r == Err(ReloadFailed(path)) && entries == old(entries)
    {
      if path in disk {
        InsertTemplate(path, disk[path], now);
        r := Ok(());
      } else {
        r := Err(ReloadFailed(path));
      }
    }

    /**
     * `remove_template_from_cache(relative_path)`: pops the key. It always
     * succeeds, also when nothing was cached under that key.
     */
    method RemoveTemplateFromCache(relativePath: string) returns (r: Result<(), CacheError>)
      requires Valid()
      modifies this
      ensures Valid()
      ensures r == Ok(())
      ensures entries == Pop(old(entries), relativePath)
      ensures relativePath !in Keys(entries)
      ensures forall x :: x in entries <==> x in old(entries) && x.key != relativePath
      ensures relativePath !in Keys(old(entries)) ==> entries == old(entries)
    {
      WithoutKeysDistinct(entries, {relativePath});
      WithoutKeysKeys(entries, {relativePath});
      WithoutKeysMembers(entries, {relativePath});
      WithoutKeysNoop(entries, {relativePath});
      entries := Pop(entries, relativePath);
      r := Ok(());
    }
  }

  /**
   * `initialize_state(relative_path)`: a cache of 100 entries over the given
   * template directory. Creating the directory and spawning the sweep and
   * watcher tasks are not part of this model.
   */
  method InitializeState(relativePath: Paths.Path) returns (state: AppState)
    ensures fresh(state) && state.Valid()
    ensures state.entries == [] && state.capacity == CacheCapacity && state.templateDir == relativePath
  {
    state := new AppState(CacheCapacity, relativePath);
  }

  /** `clean_template_cache`: one tick of the periodic sweep, with the one-hour limit. */
  method CleanTemplateCache(state: AppState, now: int)
    requires state.Valid()
    modifies state
    ensures state.Valid()
    ensures state.entries == LiveSlots(old(state.entries), now, ExpirationSecs)
  {
    state.CleanOldTemplates(ExpirationSecs, now);
  }

  /**
   * The cache key `convert_mjml` in src/handlers.rs asks for:
   * `"<template_dir>/<name>"`, with the directory displayed in normal form.
   */
  function TemplateKey(templateDir: Paths.Path, name: string): (key: string)
    ensures |key| == |Paths.Display(templateDir)| + 1 + |name|
    ensures key[..|Paths.Display(templateDir)|] == Paths.Display(templateDir)
    ensures key[|Paths.Display(templateDir)|] == '/'
    ensures key[|Paths.Display(templateDir)| + 1..] == name
  {
    Paths.Display(templateDir) + "/" + name
  }

  // ---------------------------------------------------------------------------
  // Call sequences

  /**
   * `insert_template(k, v)` then `get_template(k)`: the second call hits and
   * returns `v`, whatever the disk holds.
   */
  method InsertThenGet(state: AppState, k: string, v: string, t1: int, t2: int, disk: map<string, string>)
    returns (r: Result<string, CacheError>)
    requires state.Valid()
    modifies state
    ensures state.Valid()
    ensures r == Ok(v)
  {
    state.InsertTemplate(k, v, t1);
    PutKeepsDistinct(old(state.entries), state.capacity, k, CachedTemplate(v, t1));
    PeekAfterPut(old(state.entries), state.capacity, k, CachedTemplate(v, t1), k);
    assert k in Keys(state.entries) by {
      assert state.entries[|state.entries| - 1] in state.entries ==> state.entries[|state.entries| - 1].key in Keys(state.entries);
    }
    r := state.GetTemplate(k, t2, disk);
  }

  /**
   * A cache of two: after caching `a` and `b` and reading `a` again, caching
   * `c` evicts `b`, the least recently used entry, and keeps `a`.
   */
  method EvictionOrder(a: string, b: string, c: string, disk: map<string, string>) returns (state: AppState)
    requires a != b && b != c && a != c
    ensures fresh(state) && state.Valid()
    ensures Keys(state.entries) == {a, c}
  {
    state := TwoThenReread(a, b, disk);
    var a2 := Slot(a, CachedTemplate("A", 2));
    var c3 := Slot(c, CachedTemplate("C", 3));
    assert Keys([Slot(b, CachedTemplate("B", 1)), a2]) == {b, a};
    PutEvictsLeastRecent(state.entries, 2, c, c3.value);
    state.InsertTemplate(c, "C", 3);
    assert Keys([a2, c3]) == {a, c};
  }

  /** The first three calls of `EvictionOrder`: `b` is left the least recently used. */
  method TwoThenReread(a: string, b: string, disk: map<string, string>) returns (state: AppState)
    requires a != b
    ensures fresh(state) && state.Valid() && state.capacity == 2
    ensures state.entries == [Slot(b, CachedTemplate("B", 1)), Slot(a, CachedTemplate("A", 2))]
  {
    var a0 := Slot(a, CachedTemplate("A", 0));
    var b1 := Slot(b, CachedTemplate("B", 1));
    TwoPuts(a0, b1);
    TouchFirstOfTwo(a0, b1, 2);
    state := new AppState(2, Paths.Path(false, ["templates"]));
    state.InsertTemplate(a, "A", 0);
    state.InsertTemplate(b, "B", 1);
    var _ := state.GetTemplate(a, 2, disk);
  }

  /** Two puts of distinct keys into an empty cache of two append in order. */
  lemma TwoPuts(x: Slot, y: Slot)
    requires x.key != y.key
    ensures Put([], 2, x.key, x.value) == [x]
    ensures Put([x], 2, y.key, y.value) == [x, y]
  {
    PutAppends([], 2, x);
    assert Keys([x]) == {x.key} by {
      assert x in [x];
    }
    PutAppends([x], 2, y);
  }

  lemma TouchFirstOfTwo(x: Slot, y: Slot, now: int)
    requires x.key != y.key
    ensures x.key in Keys([x, y])
    ensures Touch([x, y], x.key, now) == [y, Slot(x.key, x.value.(lastAccessed := now))]
  {
    assert Keys([x]) == {x.key} && Keys([x, y]) == {x.key, y.key};
    assert [x, y][..1] == [x];
    assert WithoutKeys([x], {x.key}) == [];
    assert WithoutKeys([x, y], {x.key}) == [y];
    assert IndexOf([x, y], x.key) == 0 by {
      assert IndexOf([x, y][..1], x.key) == 0;
    }
  }

  /** With the one-hour limit an entry idle for 61 minutes is dropped and one idle for 59 minutes kept. */
  method HourlySweep(stale: string, recent: string) returns (state: AppState)
    requires stale != recent
    ensures fresh(state) && state.Valid()
    ensures state.entries == [Slot(recent, CachedTemplate("F", 120))]
  {
    var x := Slot(stale, CachedTemplate("S", 0));
    var y := Slot(recent, CachedTemplate("F", 120));
    state := new AppState(CacheCapacity, Paths.Path(false, ["templates"]));
    PutAppends([], CacheCapacity, x);
    state.InsertTemplate(stale, "S", 0);
    assert Keys([x]) == {stale};
    PutAppends([x], CacheCapacity, y);
    state.InsertTemplate(recent, "F", 120);
    HourlyTrace(x, y);
    state.CleanOldTemplates(ExpirationSecs, 61 * 60);
  }

  lemma HourlyTrace(x: Slot, y: Slot)
    requires x.value.lastAccessed == 0 && y.value.lastAccessed == 120
    ensures LiveSlots([x, y], 61 * 60, ExpirationSecs) == [y]
  {
    assert [x, y][..1] == [x];
    assert [x][..0] == [];
  }
}
