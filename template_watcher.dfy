/**
 * `watch_templates` of src/template_watcher.rs: file events for `.mjml` files
 * are coalesced in a map from path to kind, the last event for a path winning;
 * a debounce step drains the map and turns each pair into one cache action on
 * the `AppState` of src/app_state.rs. The channel, the 200 ms sleep and the
 * spawned tasks are replaced by explicit `Record`, `Drain` and `Apply` steps.
 */
module TemplateWatcher {
  import opened Results
  import opened Paths
  import opened Templates
  import opened Lru
  import AppStateCache

  /** The `notify` event kinds, without their sub-kinds. */
  datatype EventKind = Any | Access | Create | Modify | Remove | Other

  datatype Event = Event(kind: EventKind, paths: seq<Path>)

  /** The kinds the watcher keeps; every other kind is skipped. */
  predicate Relevant(kind: EventKind) {
    kind == Create || kind == Modify || kind == Remove
  }

  /** What the pending map stores for a relevant kind: Create is folded into Modify. */
  function Stored(kind: EventKind): (k: EventKind)
    requires Relevant(kind)
    ensures k == Modify || k == Remove
    ensures k == Remove <==> kind == Remove
  {
    if kind == Remove then Remove else Modify
  }

  /** Every pending path is a well-formed `.mjml` path mapped to Modify or Remove. */
  predicate PendingValid(m: map<Path, EventKind>) {
    forall p :: p in m ==> IsMjml(p) && WellFormed(p) && (m[p] == Modify || m[p] == Remove)
  }

  // ---------------------------------------------------------------------------
  // Recording events

  /** One path of an event: the body of the `for path in event.paths` loop. */
  function RecordPath(m: map<Path, EventKind>, kind: EventKind, p: Path): map<Path, EventKind> {
    if IsMjml(p) && Relevant(kind) then m[p := Stored(kind)] else m
  }

  /** All paths of one event, in order. */
  function RecordPaths(m: map<Path, EventKind>, kind: EventKind, ps: seq<Path>): map<Path, EventKind> {
    if ps == [] then m
    else RecordPath(RecordPaths(m, kind, ps[..|ps| - 1]), kind, ps[|ps| - 1])
  }

  /** One more path, as one iteration of the `for path` loop handles it. */
  lemma RecordPathsStep(m: map<Path, EventKind>, kind: EventKind, ps: seq<Path>, i: nat)
    requires i < |ps|
    ensures RecordPaths(m, kind, ps[..i + 1]) == RecordPath(RecordPaths(m, kind, ps[..i]), kind, ps[i])
  {
    assert ps[..i + 1][..i] == ps[..i];
  }

  /** A sequence of events received before a drain, in order. */
  function RecordEvents(m: map<Path, EventKind>, events: seq<Event>): map<Path, EventKind> {
    if events == [] then m
    else
      var e := events[|events| - 1];
      RecordPaths(RecordEvents(m, events[..|events| - 1]), e.kind, e.paths)
  }

  /** The kind the last relevant event naming `.mjml` path `p` leaves for it, if any. */
  function LastKind(events: seq<Event>, p: Path): Option<EventKind> {
    if events == [] then None
    else
      var e := events[|events| - 1];
      if p in e.paths && IsMjml(p) && Relevant(e.kind) then Some(Stored(e.kind))
      else LastKind(events[..|events| - 1], p)
  }

  /** One event sets the kind of each of its `.mjml` paths when its kind is relevant, and touches nothing else. */
  lemma {:induction false} RecordPathsEffect(m: map<Path, EventKind>, kind: EventKind, ps: seq<Path>, p: Path)
    ensures p in ps && IsMjml(p) && Relevant(kind) ==>
              p in RecordPaths(m, kind, ps) && RecordPaths(m, kind, ps)[p] == Stored(kind)
    ensures !(p in ps && IsMjml(p) && Relevant(kind)) ==>
              (p in RecordPaths(m, kind, ps) <==> p in m)
              && (p in m ==> RecordPaths(m, kind, ps)[p] == m[p])
  {
    if ps != [] {
      var init, last := ps[..|ps| - 1], ps[|ps| - 1];
      RecordPathsEffect(m, kind, init, p);
      assert ps == init + [last];
      var before := RecordPaths(m, kind, init);
      assert RecordPaths(m, kind, ps) == RecordPath(before, kind, last);
      if p != last {
        assert p in ps <==> p in init;
      }
    }
  }

  /** A skipped kind (Any, Access, Other) leaves the pending map as it was. */
  lemma {:induction false} SkippedKindChangesNothing(m: map<Path, EventKind>, kind: EventKind, ps: seq<Path>)
    requires !Relevant(kind)
    ensures RecordPaths(m, kind, ps) == m
  {
    if ps != [] {
      SkippedKindChangesNothing(m, kind, ps[..|ps| - 1]);
    }
  }

  /** Only well-formed `.mjml` paths ever enter the map, only from the event, and only as Modify or Remove. */
  lemma RecordPathsValid(m: map<Path, EventKind>, kind: EventKind, ps: seq<Path>)
    requires PendingValid(m)
    requires forall i :: 0 <= i < |ps| ==> WellFormed(ps[i])
    ensures PendingValid(RecordPaths(m, kind, ps))
    ensures forall q :: q in RecordPaths(m, kind, ps) ==> q in m || q in ps
  {
    var r := RecordPaths(m, kind, ps);
    forall q | q in r
      ensures IsMjml(q) && WellFormed(q) && (r[q] == Modify || r[q] == Remove)
      ensures q in m || q in ps
    {
      RecordPathsEffect(m, kind, ps, q);
      if q in ps && IsMjml(q) && Relevant(kind) {
        var j :| 0 <= j < |ps| && ps[j] == q;
        assert WellFormed(ps[j]);
      }
    }
  }

  /**
   * Last write wins: after any burst of events, a path holds the kind left by
   * the last relevant event that named it, and paths no such event named keep
   * what they had.
   */
  lemma {:induction false} LastWriteWins(m: map<Path, EventKind>, events: seq<Event>, p: Path)
    ensures LastKind(events, p).Some? ==>
              p in RecordEvents(m, events) && RecordEvents(m, events)[p] == LastKind(events, p).value
    ensures LastKind(events, p).None? ==>
              (p in RecordEvents(m, events) <==> p in m)
              && (p in m ==> RecordEvents(m, events)[p] == m[p])
  {
    if events != [] {
      var e := events[|events| - 1];
      var init := events[..|events| - 1];
      LastWriteWins(m, init, p);
      RecordPathsEffect(RecordEvents(m, init), e.kind, e.paths, p);
    }
  }

  /** Whatever the burst, the map keeps its invariant. */
  lemma {:induction false} RecordEventsValid(m: map<Path, EventKind>, events: seq<Event>)
    requires PendingValid(m)
    requires forall i, j :: 0 <= i < |events| && 0 <= j < |events[i].paths| ==> WellFormed(events[i].paths[j])
    ensures PendingValid(RecordEvents(m, events))
  {
    if events != [] {
      RecordEventsValid(m, events[..|events| - 1]);
      RecordPathsValid(RecordEvents(m, events[..|events| - 1]), events[|events| - 1].kind, events[|events| - 1].paths);
    }
  }

  // ---------------------------------------------------------------------------
  // Draining

  /** Pairs with pairwise different paths, as a drained `HashMap` yields them. */
  predicate DistinctPaths(batch: seq<(Path, EventKind)>) {
    forall i, j :: 0 <= i < j < |batch| ==> batch[i].0 != batch[j].0
  }

  /** `events.drain().collect()`: every pair of the map exactly once, in some order. */
  method Snapshot(m: map<Path, EventKind>) returns (batch: seq<(Path, EventKind)>)
    ensures |batch| == |m|
    ensures forall e :: e in batch <==> e.0 in m && m[e.0] == e.1
    ensures DistinctPaths(batch)
  {
    var rest := m;
    batch := [];
    while rest != map[]
      invariant rest.Keys <= m.Keys
      invariant forall p :: p in rest ==> rest[p] == m[p]
      invariant |batch| + |rest| == |m|
      invariant forall e :: e in batch <==> e.0 in m && e.0 !in rest && m[e.0] == e.1
      invariant DistinctPaths(batch)
      decreases |rest|
    {
      var p :| p in rest;
      forall e | e in batch ensures e.0 != p { }
      batch := batch + [(p, rest[p])];
      assert (rest - {p}).Keys == rest.Keys - {p};
      rest := rest - {p};
    }
  }

  class Watcher {
    var pending: map<Path, EventKind>
    const templateDir: Path

    ghost predicate Valid()
      reads this
    {
      PendingValid(pending)
    }

    constructor (templateDir: Path)
      ensures Valid() && pending == map[] && this.templateDir == templateDir
    {
      pending := map[];
      this.templateDir := templateDir;
    }

    /**
     * One received event: each `.mjml` path is set to Modify (Create or
     * Modify) or Remove; other kinds and other paths are skipped. The watcher
     * reports absolute paths, which are well-formed in normal form.
     */
    method Record(event: Event)
      requires Valid()
      requires forall i :: 0 <= i < |event.paths| ==> WellFormed(event.paths[i])
      modifies this
      ensures Valid()
      ensures pending == RecordPaths(old(pending), event.kind, event.paths)
    {
      ghost var m := pending;
      for i := 0 to |event.paths|
        invariant pending == RecordPaths(old(pending), event.kind, event.paths[..i])
      {
        var path := event.paths[i];
        ghost var before := pending;
        RecordPathsStep(old(pending), event.kind, event.paths, i);
        if IsMjml(path) {
          match event.kind {
            case Create => pending := pending[path := Modify];
            case Modify => pending := pending[path := Modify];
            case Remove => pending := pending[path := Remove];
            case _ =>
          }
        }
        assert pending == RecordPath(before, event.kind, path);
      }
      assert event.paths[..|event.paths|] == event.paths;
      RecordPathsValid(m, event.kind, event.paths);
    }

    /** The debounce task's drain: the pending pairs are returned and the map is emptied. */
    method Drain() returns (batch: seq<(Path, EventKind)>)
      requires Valid()
      modifies this
      ensures Valid() && pending == map[]
      ensures |batch| == |old(pending)|
      ensures forall e :: e in batch <==> e.0 in old(pending) && old(pending)[e.0] == e.1
      ensures DistinctPaths(batch)
    {
      batch := Snapshot(pending);
      pending := map[];
    }
  }

  /** A second drain straight after a first finds nothing. */
  method DrainTwice(w: Watcher) returns (first: seq<(Path, EventKind)>, second: seq<(Path, EventKind)>)
    requires w.Valid()
    modifies w
    ensures w.Valid() && w.pending == map[]
    ensures |first| == |old(w.pending)| && second == []
  {
    first := w.Drain();
    second := w.Drain();
  }

  // ---------------------------------------------------------------------------
  // Dispatching

  /** The cache call a drained pair leads to. */
  datatype Action =
    | ReloadTemplate(path: string)          // `reload_template(&path.display().to_string())`
    | RemoveFromCache(relativePath: string) // `remove_template_from_cache(&relative_path)`

  /**
   * One drained pair. The relative path is resolved first; when that fails
   * the pair is only logged. A modification reloads under the full path, a
   * removal evicts under the relative one.
   */
  function DispatchOne(cwd: Option<Path>, templateDir: Path, p: Path, kind: EventKind): (r: Option<Action>)
    ensures r.Some? <==> GetRelativePath(cwd, templateDir, p).Ok? && Relevant(kind)
    ensures r.Some? ==> (r.value.RemoveFromCache? <==> kind == Remove)
  {
    var rel := GetRelativePath(cwd, templateDir, p);
    if rel.Err? then None
    else if kind == Create || kind == Modify then Some(ReloadTemplate(Display(p)))
    else if kind == Remove then Some(RemoveFromCache(rel.value))
    else None
  }

  function Dispatched(cwd: Option<Path>, templateDir: Path, batch: seq<(Path, EventKind)>): seq<Action> {
    if batch == [] then []
    else
      var last := batch[|batch| - 1];
      Dispatched(cwd, templateDir, batch[..|batch| - 1])
        + match DispatchOne(cwd, templateDir, last.0, last.1) {
            case None => []
            case Some(a) => [a]
          }
  }

  /** The action of one pair, in both directions, for each kind. */
  lemma DispatchOneIff(cwd: Option<Path>, templateDir: Path, p: Path, kind: EventKind, key: string)
    ensures DispatchOne(cwd, templateDir, p, kind) == Some(ReloadTemplate(key))
            <==> (kind == Create || kind == Modify)
                 && GetRelativePath(cwd, templateDir, p).Ok? && key == Display(p)
    ensures DispatchOne(cwd, templateDir, p, kind) == Some(RemoveFromCache(key))
            <==> kind == Remove && GetRelativePath(cwd, templateDir, p) == Ok(key)
    ensures DispatchOne(cwd, templateDir, p, kind).None?
            <==> GetRelativePath(cwd, templateDir, p).Err? || !Relevant(kind)
  {
  }

  /** Every action comes from a drained pair, and there are never more actions than pairs. */
  lemma {:induction false} DispatchedFromBatch(cwd: Option<Path>, templateDir: Path, batch: seq<(Path, EventKind)>)
    ensures |Dispatched(cwd, templateDir, batch)| <= |batch|
    ensures forall a :: a in Dispatched(cwd, templateDir, batch) ==>
              exists e :: e in batch && DispatchOne(cwd, templateDir, e.0, e.1) == Some(a)
  {
    if batch != [] {
      var init := batch[..|batch| - 1];
      var last := batch[|batch| - 1];
      DispatchedFromBatch(cwd, templateDir, init);
      forall a | a in Dispatched(cwd, templateDir, batch)
        ensures exists e :: e in batch && DispatchOne(cwd, templateDir, e.0, e.1) == Some(a)
      {
        if a in Dispatched(cwd, templateDir, init) {
          var e :| e in init && DispatchOne(cwd, templateDir, e.0, e.1) == Some(a);
          assert e in batch;
        } else {
          assert last in batch;
        }
      }
    }
  }

  /** Every drained pair whose path resolves and whose kind is kept leads to its action. */
  lemma {:induction false} DispatchedCoversBatch(cwd: Option<Path>, templateDir: Path, batch: seq<(Path, EventKind)>, i: nat)
    requires i < |batch|
    requires DispatchOne(cwd, templateDir, batch[i].0, batch[i].1).Some?
    ensures DispatchOne(cwd, templateDir, batch[i].0, batch[i].1).value in Dispatched(cwd, templateDir, batch)
  {
    var init := batch[..|batch| - 1];
    if i < |batch| - 1 {
      assert init[i] == batch[i];
      DispatchedCoversBatch(cwd, templateDir, init, i);
    }
  }

  // Keys are read back into paths: an action determines the path it came from.

  /** Reads a displayed path back: a leading `/` marks it absolute, the rest splits into components. */
  function Parse(s: string): Path {
    if |s| > 0 && s[0] == '/' then Path(true, Split(s[1..])) else Path(false, Split(s))
  }

  /** The display of a well-formed path reads back as that path, so two paths never share a display. */
  lemma ParseDisplay(p: Path)
    requires WellFormed(p)
    ensures Parse(Display(p)) == p
  {
    SplitRender(p.parts);
    if p.absolute {
      assert Display(p)[1..] == Render(p.parts);
    }
  }

  /** The path an action was dispatched for, as far as the action itself tells. */
  function Source(cwd: Path, templateDir: Path, a: Action): Path {
    match a
    case ReloadTemplate(path) => Parse(path)
    case RemoveFromCache(rel) => Join(Anchor(cwd, templateDir), Path(false, Split(rel)))
  }

  /** A dispatched action names its path unambiguously. */
  lemma DispatchOneDetermines(cwd: Option<Path>, templateDir: Path, p: Path, kind: EventKind)
    requires WellFormed(p)
    ensures DispatchOne(cwd, templateDir, p, kind).Some? ==>
              cwd.Some? && Source(cwd.value, templateDir, DispatchOne(cwd, templateDir, p, kind).value) == p
  {
    if DispatchOne(cwd, templateDir, p, kind).Some? {
      var a := DispatchOne(cwd, templateDir, p, kind).value;
      if a.ReloadTemplate? {
        ParseDisplay(p);
      } else {
        RelativePathRoundTrip(cwd.value, templateDir, p);
      }
    }
  }

  /**
   * However many events named a path before a drain, the drained batch holds
   * it once, so no cache action is issued twice by one debounce step.
   */
  lemma {:induction false} NoActionTwice(cwd: Option<Path>, templateDir: Path, batch: seq<(Path, EventKind)>, a: Action)
    requires DistinctPaths(batch)
    requires forall i :: 0 <= i < |batch| ==> WellFormed(batch[i].0)
    ensures multiset(Dispatched(cwd, templateDir, batch))[a] <= 1
  {
    if batch != [] {
      var init := batch[..|batch| - 1];
      var last := batch[|batch| - 1];
      assert DistinctPaths(init) && forall i :: 0 <= i < |init| ==> WellFormed(init[i].0) by {
        assert forall i :: 0 <= i < |init| ==> init[i] == batch[i];
      }
      NoActionTwice(cwd, templateDir, init, a);
      if DispatchOne(cwd, templateDir, last.0, last.1) == Some(a) {
        LastActionIsNew(cwd, templateDir, batch, a);
      }
    }
  }

  /** The action of the last pair of a batch with distinct, well-formed paths is issued by no earlier pair. */
  lemma LastActionIsNew(cwd: Option<Path>, templateDir: Path, batch: seq<(Path, EventKind)>, a: Action)
    requires batch != [] && DistinctPaths(batch)
    requires forall i :: 0 <= i < |batch| ==> WellFormed(batch[i].0)
    requires DispatchOne(cwd, templateDir, batch[|batch| - 1].0, batch[|batch| - 1].1) == Some(a)
    ensures a !in Dispatched(cwd, templateDir, batch[..|batch| - 1])
  {
    var init := batch[..|batch| - 1];
    var last := batch[|batch| - 1];
    DispatchOneDetermines(cwd, templateDir, last.0, last.1);
    DispatchedFromBatch(cwd, templateDir, init);
    forall e | e in init ensures DispatchOne(cwd, templateDir, e.0, e.1) != Some(a) {
      var j :| 0 <= j < |init| && init[j] == e;
      assert batch[j] == e;
      DispatchOneDetermines(cwd, templateDir, e.0, e.1);
    }
  }

  method DispatchAll(cwd: Option<Path>, templateDir: Path, batch: seq<(Path, EventKind)>) returns (actions: seq<Action>)
    ensures actions == Dispatched(cwd, templateDir, batch)
  {
    actions := [];
    for i := 0 to |batch|
      invariant actions == Dispatched(cwd, templateDir, batch[..i])
    {
      assert batch[..i + 1][..i] == batch[..i];
      var (path, kind) := batch[i];
      var rel := GetRelativePath(cwd, templateDir, path);
      if rel.Ok? {
        if kind == Create || kind == Modify {
          actions := actions + [ReloadTemplate(Display(path))];
        } else if kind == Remove {
          actions := actions + [RemoveFromCache(rel.value)];
        }
      }
    }
    assert batch[..|batch|] == batch;
  }

  // ---------------------------------------------------------------------------
  // Applying actions to the cache

  /** What one action does to the cache entries; a failed reload changes nothing. */
  function Effect(s: seq<Slot>, cap: nat, a: Action, now: int, disk: map<string, string>): (r: seq<Slot>)
    requires cap > 0
    ensures a.ReloadTemplate? && a.path in disk ==> Peek(r, a.path) == Some(CachedTemplate(disk[a.path], now))
    ensures a.ReloadTemplate? && a.path !in disk ==> r == s
    ensures a.RemoveFromCache? ==> a.relativePath !in Keys(r) && Keys(r) <= Keys(s)
  {
    match a
    case ReloadTemplate(path) =>
      if path in disk then Put(s, cap, path, CachedTemplate(disk[path], now)) else s
    case RemoveFromCache(key) => Pop(s, key)
  }

  function Effects(s: seq<Slot>, cap: nat, actions: seq<Action>, now: int, disk: map<string, string>): seq<Slot>
    requires cap > 0
  {
    if actions == [] then s
    else Effect(Effects(s, cap, actions[..|actions| - 1], now, disk), cap, actions[|actions| - 1], now, disk)
  }

  method Apply(state: AppStateCache.AppState, a: Action, now: int, disk: map<string, string>)
    requires state.Valid()
    modifies state
    ensures state.Valid()
    ensures state.entries == Effect(old(state.entries), state.capacity, a, now, disk)
  {
    match a {
      case ReloadTemplate(path) =>
        var _ := state.ReloadTemplate(path, now, disk);
      case RemoveFromCache(key) =>
        var _ := state.RemoveTemplateFromCache(key);
    }
  }

  /** The spawned cache calls of one batch, taken in the order they were spawned. */
  method ApplyAll(state: AppStateCache.AppState, actions: seq<Action>, now: int, disk: map<string, string>)
    requires state.Valid()
    modifies state
    ensures state.Valid()
    ensures state.entries == Effects(old(state.entries), state.capacity, actions, now, disk)
  {
    for i := 0 to |actions|
      invariant state.Valid()
      invariant state.entries == Effects(old(state.entries), state.capacity, actions[..i], now, disk)
    {
      assert actions[..i + 1][..i] == actions[..i];
      Apply(state, actions[i], now, disk);
    }
    assert actions[..|actions|] == actions;
  }

  /** One debounce step: drain the pending map, dispatch each pair, apply the actions. */
  method Debounce(w: Watcher, state: AppStateCache.AppState, cwd: Option<Path>, now: int, disk: map<string, string>)
    returns (batch: seq<(Path, EventKind)>)
    requires w.Valid() && state.Valid()
    modifies w, state
    ensures w.Valid() && w.pending == map[] && state.Valid()
    ensures forall e :: e in batch <==> e.0 in old(w.pending) && old(w.pending)[e.0] == e.1
    ensures DistinctPaths(batch)
    ensures state.entries == Effects(old(state.entries), state.capacity, Dispatched(cwd, w.templateDir, batch), now, disk)
  {
    batch := w.Drain();
    var actions := DispatchAll(cwd, w.templateDir, batch);
    ApplyAll(state, actions, now, disk);
  }

  // ---------------------------------------------------------------------------
  // The three key schemes

  /** Popping one key leaves what is stored under any other key as it was. */
  lemma PeekAfterPop(s: seq<Slot>, k: string, j: string)
    requires DistinctKeys(s) && j != k
    ensures Peek(Pop(s, k), j) == Peek(s, j)
  {
    WithoutKeysDistinct(s, {k});
    WithoutKeysKeys(s, {k});
    WithoutKeysMembers(s, {k});
    if Peek(s, j).Some? {
      PeekFinds(s, j, Peek(s, j).value);
      PeekFinds(Pop(s, k), j, Peek(s, j).value);
    } else {
      assert j !in Keys(Pop(s, k));
    }
  }

  /**
   * A template `name` in a relative template directory, anchored at an
   * absolute working directory. The handlers cache it under
   * `"<template_dir>/<name>"`; its removal evicts the key `name` and its
   * modification reloads the key `"/<cwd>/<template_dir>/<name>"`, and neither
   * is the handlers' key. So whatever the watcher does, the handlers' entry
   * keeps its old content until it is evicted or ages out.
   */
  lemma WatcherMissesHandlerKey(cwd: Path, templateDir: Path, name: string, kind: EventKind,
                                s: seq<Slot>, cap: nat, now: int, disk: map<string, string>)
    requires cwd.absolute && !templateDir.absolute && WellFormed(templateDir) && templateDir.parts != []
    requires ValidComponent(name)
    requires Relevant(kind) && cap > 0 && DistinctKeys(s)
    ensures var p := Join(Anchor(cwd, templateDir), Path(false, [name]));
            DispatchOne(Some(cwd), templateDir, p, kind).Some?
    ensures var p := Join(Anchor(cwd, templateDir), Path(false, [name]));
            var key := AppStateCache.TemplateKey(templateDir, name);
            var a := DispatchOne(Some(cwd), templateDir, p, kind).value;
            var after := Effect(s, cap, a, now, disk);
            || Peek(after, key) == Peek(s, key)
            || (a.ReloadTemplate? && Peek(after, key) == None)
  {
    var p := Join(Anchor(cwd, templateDir), Path(false, [name]));
    var key := AppStateCache.TemplateKey(templateDir, name);
    UnderDirResolves(cwd, templateDir, [name]);
    var a := DispatchOne(Some(cwd), templateDir, p, kind).value;
    match a {
      case ReloadTemplate(path) =>
        assert path == Display(p) && path[0] == '/';
        assert key[0] != '/';
        if path in disk {
          PutKeepsDistinct(s, cap, path, CachedTemplate(disk[path], now));
          PeekAfterPut(s, cap, path, CachedTemplate(disk[path], now), key);
          var t := Put(s, cap, path, CachedTemplate(disk[path], now));
          if key !in Keys(t) {
            assert IndexOf(t, key) < 0;
          }
        }
      case RemoveFromCache(rel) =>
        assert rel == name;
        assert |key| > |name|;
        PeekAfterPop(s, name, key);
    }
  }
}
