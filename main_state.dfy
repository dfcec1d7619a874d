/**
 * The older `AppState` in src/main.rs, the copy the binary is built from. Its
 * cache behaves as the one of src/app_state.rs on `get_template` and
 * `insert_template`, but its age sweep calls `demote` where the newer copy
 * calls `pop`, so the sweep reorders the cache and removes nothing. The
 * `convert_mjml` handler of the same file chooses between a cached template
 * and inline MJML.
 */
module MainState {
  import opened Results
  import opened Templates
  import opened Lru
  import opened CacheModel

  /** Entry capacity of the cache `initialize_state` builds. */
  const CacheCapacity: nat := 100

  /** Idle age after which the sweep demotes an entry: one hour, in seconds. */
  const ExpirationSecs: nat := 3600

  /** The `String` error of `get_template`: the file could not be read. */
  datatype ReadError = ReadFailed(path: string)

  class AppState {
    var entries: seq<Slot>
    const capacity: nat

    ghost predicate Valid()
      reads this
    {
      0 < capacity && |entries| <= capacity && DistinctKeys(entries)
    }

    /** `AppState::new`: the `NonZeroUsize` unwrap panics on a zero capacity. */
    constructor (cacheCapacity: nat)
      requires cacheCapacity > 0
      ensures Valid()
      ensures entries == [] && capacity == cacheCapacity
    {
      entries := [];
      capacity := cacheCapacity;
    }

    /**
     * `get_template(path)`: a hit returns the cached content, refreshes its
     * timestamp and recency and does not read the disk; a miss reads the file
     * and caches it, or fails and leaves the cache as it was.
     */
    method GetTemplate(path: string, now: int, disk: map<string, string>) returns (r: Result<string, ReadError>)
      requires Valid()
      modifies this
      ensures Valid()
      ensures path in Keys(old(entries)) ==>
                && r == Ok(Peek(old(entries), path).value.content)
                && entries == Touch(old(entries), path, now)
      ensures path !in Keys(old(entries)) && path !in disk ==>
                r == Err(ReadFailed(path)) && entries == old(entries)
      ensures path !in Keys(old(entries)) && path in disk ==>
                && r == Ok(disk[path])
                && entries == Put(old(entries), capacity, path, CachedTemplate(disk[path], now))
    {
      if IndexOf(entries, path) >= 0 {
        TouchRefreshes(entries, path, now);
        entries := Promote(entries, path);
        var cached := entries[|entries| - 1];
        entries := entries[|entries| - 1 := Slot(path, cached.value.(lastAccessed := now))];
        r := Ok(cached.value.content);
      } else if path in disk {
        var content := disk[path];
        PutKeepsDistinct(entries, capacity, path, CachedTemplate(content, now));
        entries := Put(entries, capacity, path, CachedTemplate(content, now));
        r := Ok(content);
      } else {
        r := Err(ReadFailed(path));
      }
    }

    /** `insert_template(path, content)`: creates or replaces the entry, stamped with `now`. */
    method InsertTemplate(path: string, content: string, now: int)
      requires Valid()
      modifies this
      ensures Valid()
      ensures entries == Put(old(entries), capacity, path, CachedTemplate(content, now))
      ensures Peek(entries, path) == Some(CachedTemplate(content, now))
    {
      PutKeepsDistinct(entries, capacity, path, CachedTemplate(content, now));
      PeekAfterPut(entries, capacity, path, CachedTemplate(content, now), path);
      entries := Put(entries, capacity, path, CachedTemplate(content, now));
    }

    /**
     * `clean_old_templates(max_age)`: collects the keys of the entries idle for
     * at least `max_age`, most recent first, and demotes each in turn. Every
     * entry stays; the idle ones end up at the least-recent end, the last one
     * demoted (the least recent idle entry) first, so both groups keep their
     * relative order.
     */
    method CleanOldTemplates(maxAge: nat, now: int)
      requires Valid()
      modifies this
      ensures Valid()
      ensures entries == ExpiredSlots(old(entries), now, maxAge) + LiveSlots(old(entries), now, maxAge)
      ensures |entries| == |old(entries)| && Keys(entries) == Keys(old(entries))
    {
      var keysToRemove := CollectExpiredKeys(entries, now, maxAge);
      ghost var s := entries;
      ghost var ex := ExpiredSlots(s, now, maxAge);
      assert |keysToRemove| == |ex| && forall j :: 0 <= j < |ex| ==> keysToRemove[j] == ex[|ex| - 1 - j].key by {
        MruExpiredKeysMatch(s, now, maxAge);
      }
      assert DistinctKeys(ex) && forall x :: x in ex ==> x in s by {
        ExpiredSlotsDistinct(s, now, maxAge);
        SweepMembers(s, now, maxAge);
      }
      assert entries == ex[|ex| - 0..] + WithoutKeys(s, Keys(ex[|ex| - 0..])) by {
        SweepStart(s, ex);
      }
      var i := 0;
      while i < |keysToRemove|
        invariant 0 <= i <= |keysToRemove|
        invariant entries == ex[|ex| - i..] + WithoutKeys(s, Keys(ex[|ex| - i..]))
        invariant DistinctKeys(entries) && |entries| == |s|
      {
        var key := keysToRemove[i];
        DemoteSweepStep(s, ex, i);
        entries := Demote(entries, key);
        i := i + 1;
      }
      assert entries == ex + LiveSlots(s, now, maxAge) by {
        SweepDone(s, now, maxAge);
        assert ex[0..] == ex;
      }
      SweepKeepsEntries(s, now, maxAge);
    }
  }

  /** The sweep only reorders: the same entries, the same number of them, the same keys. */
  lemma SweepKeepsEntries(s: seq<Slot>, now: int, maxAge: nat)
    ensures multiset(ExpiredSlots(s, now, maxAge) + LiveSlots(s, now, maxAge)) == multiset(s)
    ensures |ExpiredSlots(s, now, maxAge) + LiveSlots(s, now, maxAge)| == |s|
    ensures Keys(ExpiredSlots(s, now, maxAge) + LiveSlots(s, now, maxAge)) == Keys(s)
  {
    var t := ExpiredSlots(s, now, maxAge) + LiveSlots(s, now, maxAge);
    SweepPartitions(s, now, maxAge);
    assert |t| == |multiset(t)| == |multiset(s)| == |s|;
    forall x ensures x in t <==> x in s {
      assert x in t <==> multiset(t)[x] > 0;
      assert x in s <==> multiset(s)[x] > 0;
    }
  }

  /**
   * After the sweep the idle entries form the least-recent end of the cache:
   * an entry is idle exactly when it sits before the first live one, so every
   * idle entry is evicted before every entry still in use.
   */
  lemma SweepPutsIdleFirst(s: seq<Slot>, now: int, maxAge: nat)
    ensures var t := ExpiredSlots(s, now, maxAge) + LiveSlots(s, now, maxAge);
            forall i :: 0 <= i < |t| ==>
              (Expired(t[i].value, now, maxAge) <==> i < |ExpiredSlots(s, now, maxAge)|)
  {
    var ex := ExpiredSlots(s, now, maxAge);
    var live := LiveSlots(s, now, maxAge);
    var t := ex + live;
    SweepMembers(s, now, maxAge);
    forall i | 0 <= i < |t| ensures Expired(t[i].value, now, maxAge) <==> i < |ex| {
      if i < |ex| {
        assert t[i] == ex[i];
        assert t[i] in ex;
      } else {
        assert t[i] == live[i - |ex|];
        assert t[i] in live;
      }
    }
  }

  /**
   * `initialize_state`: a cache of 100 entries. The ten-minute sweep task it
   * spawns is `CleanTemplateCache`, called once per tick.
   */
  method InitializeState() returns (state: AppState)
    ensures fresh(state) && state.Valid()
    ensures state.entries == [] && state.capacity == CacheCapacity
  {
    state := new AppState(CacheCapacity);
  }

  /** `clean_template_cache`: one sweep with the one-hour limit. */
  method CleanTemplateCache(state: AppState, now: int)
    requires state.Valid()
    modifies state
    ensures state.Valid()
    ensures state.entries == ExpiredSlots(old(state.entries), now, ExpirationSecs)
                             + LiveSlots(old(state.entries), now, ExpirationSecs)
  {
    state.CleanOldTemplates(ExpirationSecs, now);
  }

  /**
   * The entry that the sweep of src/app_state.rs drops after an idle hour is
   * still cached after this sweep, now as the least recently used entry.
   */
  method IdleEntryStays(stale: string, recent: string) returns (state: AppState)
    requires stale != recent
    ensures fresh(state) && state.Valid()
    ensures state.entries == [Slot(stale, CachedTemplate("S", 0)), Slot(recent, CachedTemplate("F", 120))]
    ensures Expired(state.entries[0].value, 61 * 60, ExpirationSecs)
  {
    var x := Slot(stale, CachedTemplate("S", 0));
    var y := Slot(recent, CachedTemplate("F", 120));
    state := new AppState(CacheCapacity);
    state.InsertTemplate(stale, "S", 0);
    assert state.entries == [x] by {
      PutAppends([], CacheCapacity, x);
    }
    state.InsertTemplate(recent, "F", 120);
    assert state.entries == [x, y] by {
      assert Keys([x]) == {stale} by {
        assert x in [x];
      }
      PutAppends([x], CacheCapacity, y);
    }
    IdleTrace(x, y);
    state.CleanOldTemplates(ExpirationSecs, 61 * 60);
  }

  lemma IdleTrace(x: Slot, y: Slot)
    requires x.value.lastAccessed == 0 && y.value.lastAccessed == 120
    ensures ExpiredSlots([x, y], 61 * 60, ExpirationSecs) == [x]
    ensures LiveSlots([x, y], 61 * 60, ExpirationSecs) == [y]
    ensures ExpiredSlots([x, y], 61 * 60, ExpirationSecs) + LiveSlots([x, y], 61 * 60, ExpirationSecs) == [x, y]
    ensures Expired(x.value, 61 * 60, ExpirationSecs)
  {
    assert [x, y][..1] == [x];
    assert [x][..0] == [];
  }

  // ---------------------------------------------------------------------------
  // convert_mjml: where the MJML comes from

  /** The fields of the request body that choose the MJML (`payload` goes to handlebars). */
  datatype MjmlInput = MjmlInput(mjml: Option<string>, template: Option<string>)

  /** Why a request is answered with an error status. */
  datatype Reason = MissingMjmlInput | TemplateUnreadable(path: string)

  /** The `(StatusCode, String)` error, with the message's cause in place of its text. */
  datatype Rejection = Rejection(status: nat, reason: Reason)

  const BadRequest: nat := 400
  const InternalServerError: nat := 500

  /** The cache key a named template is looked up under: `"./templates/<name>"`. */
  function TemplatePath(name: string): (key: string)
    ensures |key| == |"./templates/"| + |name|
    ensures key[..|"./templates/"|] == "./templates/"
    ensures key[|"./templates/"|..] == name
  {
    "./templates/" + name
  }

  /** Different template names never share a cache key. */
  lemma TemplatePathInjective(a: string, b: string)
    requires TemplatePath(a) == TemplatePath(b)
    ensures a == b
  {
    assert a == TemplatePath(a)[|"./templates/"|..];
  }

  /**
   * The MJML source `convert_mjml` passes to handlebars. A named template wins
   * over inline MJML and is fetched through the cache; a failed fetch is a 500.
   * Without a template name the inline MJML is used, and without either the
   * request is a 400 "Missing MJML input".
   */
  method SelectMjml(state: AppState, input: MjmlInput, now: int, disk: map<string, string>)
    returns (r: Result<string, Rejection>)
    requires state.Valid()
    modifies state
    ensures state.Valid()
    ensures input.template.Some? ==>
              var key := TemplatePath(input.template.value);
              && (key in Keys(old(state.entries)) ==>
                    && r == Ok(Peek(old(state.entries), key).value.content)
                    && state.entries == Touch(old(state.entries), key, now))
              && (key !in Keys(old(state.entries)) && key in disk ==>
                    && r == Ok(disk[key])
                    && state.entries == Put(old(state.entries), state.capacity, key, CachedTemplate(disk[key], now)))
              && (key !in Keys(old(state.entries)) && key !in disk ==>
                    && r == Err(Rejection(InternalServerError, TemplateUnreadable(key)))
                    && state.entries == old(state.entries))
    ensures input.template.None? ==> state.entries == old(state.entries)
    ensures input.template.None? && input.mjml.Some? ==> r == Ok(input.mjml.value)
    ensures input.template.None? && input.mjml.None? ==>
              r == Err(Rejection(BadRequest, MissingMjmlInput))
  {
    match input.template {
      case Some(name) =>
        var key := TemplatePath(name);
        var got := state.GetTemplate(key, now, disk);
        match got {
          case Ok(content) => r := Ok(content);
          case Err(_) => r := Err(Rejection(InternalServerError, TemplateUnreadable(key)));
        }
      case None =>
        match input.mjml {
          case Some(m) => r := Ok(m);
          case None => r := Err(Rejection(BadRequest, MissingMjmlInput));
        }
    }
  }
}
