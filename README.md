# MJMLWarp template cache, modelled in Dafny

MJMLWarp serves e-mail HTML rendered from MJML templates. Templates live on
disk, and hot ones are kept in memory. This project models the part that keeps
that memory coherent:

- **The bounded LRU template cache** (`AppState`). Two copies are modelled:
  - the one in `src/app_state.rs`, whose age sweep pops idle entries;
  - the older one in `src/main.rs`, the copy the binary is built from, whose
    age sweep demotes them.
- **The `lru` crate's behaviour** on which both copies rely: `put`, `get_mut`,
  `pop`, `demote`. The crate itself is not part of this model; its documented
  behaviour is written out as functions over the entry sequence.
- **Event coalescing and dispatch of the template watcher** (`watch_templates`
  in `src/template_watcher.rs`), as a state machine:
  - `Record` folds events into the pending map;
  - `Drain` snapshots and clears the map;
  - dispatch turns each drained pair into a reload or a removal;
  - those actions are then applied to the cache.
- **The relative path resolver** `get_relative_path` of `src/utils.rs`.
- **Where `convert_mjml` in `src/main.rs` takes its MJML from**: a cached
  template or the inline field. This includes the cache key it builds.

## Conventions

- A cache is a `seq<Slot>` in recency order: index 0 is the least recently
  used entry, the one `put` evicts. Every method of a cache class is one atomic
  step, as it is under the write lock.
- `Instant::now()` is an integer parameter `now` in seconds.
  `duration_since` saturates at zero, as in Rust.
- The filesystem read by `read_to_string` is a `map<string, string>`. A missing
  key is a failed read.
- A filesystem path is `Paths.Path(absolute, parts)`: the root flag, then
  the named components. Repeated and trailing separators and a leading `./`
  are not represented, so a path is always in normal form. The current
  directory is a parameter, and `None` means `env::current_dir()` failed.

## Behaviour worth knowing

- **The binary's age sweep removes nothing.** `src/app_state.rs:88` pops
  every entry idle for at least the maximum age. `src/main.rs:89`, which is
  compiled into the binary, calls `demote` instead, although the function is
  named `clean_old_templates`. Every entry stays, and the idle ones only move
  to the least-recent end. See `MainState.AppState.CleanOldTemplates` and
  "## Findings".
- **Four key schemes are in use**, two when a request reads a template and
  two when the watcher updates the cache.
  - The handlers look templates up under `"<template_dir>/<name>"`
    (`src/handlers.rs:22`).
  - `src/main.rs` looks them up under `"./templates/<name>"`
    (`src/main.rs:108`).
  - A watcher reload stores under the display of the event's full path.
  - A watcher removal pops the path relative to the template directory.

  `TemplateWatcher.WatcherMissesHandlerKey` shows the consequence. Neither
  watcher action reaches the entry the handlers cached for a template in a
  relative template directory.
- **Eviction is by recency order.** `put` evicts the least recently used
  entry, not the one with the smallest `last_accessed`.
  `CacheModel.PutKeepsChronological` shows that the two agree as long as the
  clock never runs backwards.
- **Each drained pair is handled by its own spawned task**
  (`src/template_watcher.rs:80` and `:96`). The model applies the resulting
  actions one after another, in drain order.

## Model

| member | source | states |
|---|---|---|
| Templates.Elapsed | src/app_state.rs:79 | `now.duration_since(last_accessed)`: the idle time, saturating at zero |
| Templates.Expired | src/app_state.rs:79-80 | the sweep's age test: with a zero limit every entry is idle, otherwise an entry is idle exactly when it was last read at least `max_age` seconds before `now` |
| Lru.IndexOf | src/app_state.rs:47 | where `get_mut` finds a key: -1 exactly when the key is absent, otherwise an index holding that key |
| Lru.PeekCached | src/app_state.rs:47 | a lookup finds a value exactly when the key is cached, and the value found is the one stored with that key |
| Lru.Pop | src/app_state.rs:88 | `pop(k)`: the key is no longer cached, no key is added, and the cache shrinks when the key was cached |
| Lru.Promote | src/app_state.rs:47 | `get_mut(k)` on a hit: the entry found becomes the most recent and the cached keys stay the same; a miss changes nothing |
| Lru.Demote | src/main.rs:89 | `demote(k)`: the entry found becomes the least recent and the cached keys stay the same; a missing key changes nothing |
| Lru.Put | src/app_state.rs:66-69 | `put`: the new entry ends up most recent, and the entry count never rises above the capacity |
| Lru.PutEvictsLeastRecent | src/app_state.rs:55-58 | a put of a new key into a full cache evicts exactly the least recently used entry: the rest keep their order and the capacity is kept |
| Lru.PutKeepsOthers | src/app_state.rs:66-69 | a put of a cached key, or into a cache that is not full, drops no other entry: the keys grow by the put key alone, and the size grows by one only for a new key |
| Lru.PutKeepsDistinct | src/app_state.rs:66-69 | a put never leaves two entries for one key |
| Lru.PeekAfterPut | src/app_state.rs:66-69 | after `put(k, v)` the cache holds `v` for `k`, and every other key still cached keeps its value |
| Lru.PeekFinds | src/app_state.rs:47-49 | in a cache with one entry per key, a lookup finds exactly the entry stored for that key |
| Lru.WithoutKeysMembers | src/app_state.rs:87-89 | removing a set of keys keeps exactly the entries whose key is not in the set |
| Lru.WithoutKeysKeys | src/app_state.rs:106 | the keys left after a removal are the old keys minus the removed ones |
| Lru.WithoutKeysNoop | src/app_state.rs:106 | a removal leaves the cache as it was exactly when none of the removed keys is cached |
| Lru.WithoutKeysShrinks | src/app_state.rs:106 | removing a cached key shortens the cache |
| Lru.WithoutKeysDistinct | src/app_state.rs:106 | a removal keeps one entry per key |
| Lru.WithoutKeysAppend | src/app_state.rs:87-89 | a removal works entry by entry: it distributes over concatenation |
| Lru.PopAfterWithoutKeys | src/app_state.rs:88 | popping one more key removes the union of the keys |
| Lru.PopAllIsWithoutKeys | src/app_state.rs:87-89 | popping keys one at a time, in any order, removes exactly the entries with those keys |
| Lru.PopAll | src/app_state.rs:87-89 | the `for key in keys_to_remove` loop of pops: none of the popped keys is left, no key is added, and the cache never grows |
| Lru.WithoutAbsentKey | src/app_state.rs:88 | popping a key that is not cached changes nothing |
| Lru.PopLength | src/app_state.rs:106 | popping a cached key shortens the cache by exactly one entry |
| Lru.SameKeySameSlot | src/app_state.rs:27 | in a cache with one entry per key, two entries with the same key are the same entry |
| Lru.DistinctSnoc | src/app_state.rs:55-58 | appending an entry keeps one entry per key exactly when its key is new |
| Lru.WithoutKeysSnoc | src/app_state.rs:87-89 | removal applied to one more most-recent entry keeps or drops that entry by its key |
| CacheModel.TouchRefreshes | src/app_state.rs:47-49 | a hit keeps the content, stamps it with `now` and makes it most recent; the other entries keep their order, and the key set and size are unchanged |
| CacheModel.Touch | src/app_state.rs:47-48 | `get_mut` then `last_accessed = now`: the most recent entry afterwards is the stored one for the key, stamped with `now`; `TouchRefreshes` gives the whole result |
| CacheModel.SweepMembers | src/app_state.rs:76-85 | the sweep selects exactly the entries idle for at least `max_age` and keeps exactly the others |
| CacheModel.MruExpiredKeysMatch | src/app_state.rs:76-85 | `keys_to_remove` lists the keys of the expired entries in `iter()` order, most recent first |
| CacheModel.MruExpiredKeySet | src/app_state.rs:76-85 | the collected keys are exactly the keys of the expired entries |
| CacheModel.CollectExpiredKeys | src/app_state.rs:76-85 | the `filter_map` over `iter()` computes the most-recent-first list of expired keys |
| CacheModel.ExpiredSlotsDistinct | src/app_state.rs:76-85 | the expired entries carry distinct keys |
| CacheModel.LiveIsWithoutExpiredKeys | src/app_state.rs:87-89 | removing the keys of the expired entries leaves exactly the live entries, in order |
| CacheModel.PopSweep | src/app_state.rs:87-89 | the pop loop over `keys_to_remove` leaves exactly the live entries, with one entry per key |
| CacheModel.SweepPartitions | src/main.rs:77-90 | the expired and the live entries together are, as a multiset, the entries of the cache |
| CacheModel.FindsAfterRemoved | src/main.rs:89 | in the partly swept cache, the entry found under an expired key is that entry |
| CacheModel.DemoteStep | src/main.rs:89 | one `demote` puts the entry in front of those already demoted and takes it out of the rest |
| CacheModel.DemoteKeepsEntries | src/main.rs:89 | `demote` of a cached key only reorders: same size, still one entry per key |
| CacheModel.DemoteSweepStep | src/main.rs:88-90 | one iteration of the demote loop extends the demoted prefix by the next expired entry |
| CacheModel.SweepStart | src/main.rs:88 | before either sweep loop nothing has been removed or moved |
| CacheModel.SweepDone | src/main.rs:88-90 | once every expired key has been handled, what remains behind the demoted prefix is the live entries |
| CacheModel.LaterKeysDiffer | src/main.rs:88-90 | a key of a cache with one entry per key does not recur later in it |
| CacheModel.ConsDistinct | src/main.rs:89 | an entry with a new key can go at the least-recent end without repeating a key |
| CacheModel.ChronologicalSnoc | src/app_state.rs:66-69 | appending a newest entry keeps timestamp order exactly when it is no older than the rest |
| CacheModel.WithoutKeysChronological | src/app_state.rs:106 | removals keep timestamp order |
| CacheModel.PutKeepsChronological | src/app_state.rs:55-58 | with a clock that never runs backwards, `put` keeps recency order equal to timestamp order, so the entry it evicts has the oldest `last_accessed` |
| CacheModel.TouchKeepsChronological | src/app_state.rs:47-49 | a hit keeps recency order equal to timestamp order |
| CacheModel.ExpiryIsMonotone | src/app_state.rs:79 | an entry older than an expired entry is expired too |
| CacheModel.AllExpired | src/app_state.rs:79 | when every entry is idle, the sweep selects them all and keeps none |
| CacheModel.ChronologicalPartitionIsIdentity | src/main.rs:77-90 | in timestamp order the expired entries already sit at the least-recent end, so the demote sweep leaves the order as it was |
| AppStateCache.AppState.constructor | src/app_state.rs:37-43 | `new` needs a non-zero capacity (the `NonZeroUsize` unwrap) and yields an empty cache |
| AppStateCache.AppState.GetTemplate | src/app_state.rs:45-62 | hit: the stored content, refreshed and promoted, no disk read; miss with a readable file: its content, put as the most recent entry; miss with a failed read: `Err`, cache unchanged |
| AppStateCache.AppState.InsertTemplate | src/app_state.rs:64-70 | a put of the content stamped with `now`; one entry per key and the capacity are kept |
| AppStateCache.AppState.CleanOldTemplates | src/app_state.rs:72-91 | exactly the entries idle for less than `max_age` remain, with their contents, timestamps and relative order |
| AppStateCache.AppState.ReloadTemplate | src/app_state.rs:93-101 | a readable file is inserted as by `insert_template` and gives `Ok`; a failed read gives `Err` with the cache unchanged |
| AppStateCache.AppState.RemoveTemplateFromCache | src/app_state.rs:104-109 | always `Ok`: the key is absent afterwards, every other entry stays, and an absent key leaves the cache as it was |
| AppStateCache.InitializeState | src/app_state.rs:112-128 | a cache of capacity 100 over the given template directory |
| AppStateCache.CleanTemplateCache | src/app_state.rs:182-186 | one sweep tick with the one-hour limit keeps exactly the entries idle for less than 3600 s |
| AppStateCache.TemplateKey | src/handlers.rs:22 | the handlers' key is the displayed template directory, a `/`, then the name, with each part recoverable from the key |
| AppStateCache.InsertThenGet | src/app_state.rs:46-50 | `insert_template(k, v)` followed by `get_template(k)` returns `v`, whatever the disk holds |
| AppStateCache.EvictionOrder | src/app_state.rs:55-58 | with capacity 2: insert A, insert B, read A, insert C leaves A and C cached |
| AppStateCache.TwoThenReread | src/app_state.rs:47-49 | with capacity 2: insert A, insert B, read A leaves B least recent |
| AppStateCache.HourlySweep | src/app_state.rs:182-186 | an entry idle for 61 minutes is dropped and one idle for 59 minutes is kept |
| MainState.AppState.constructor | src/main.rs:39-44 | `new` needs a non-zero capacity and yields an empty cache |
| MainState.AppState.GetTemplate | src/main.rs:46-63 | same three cases as the `src/app_state.rs` copy: refreshed hit, cached miss, or `Err` with the cache unchanged |
| MainState.AppState.InsertTemplate | src/main.rs:65-71 | creates or replaces the entry; afterwards the key maps to the content stamped with `now` |
| MainState.AppState.CleanOldTemplates | src/main.rs:73-92 | the demote loop moves the idle entries, in order, in front of the live ones, which keep their order; size and key set are unchanged |
| MainState.SweepKeepsEntries | src/main.rs:88-90 | the demote sweep only reorders: the same entries as a multiset, the same size, the same keys |
| MainState.SweepPutsIdleFirst | src/main.rs:77-90 | after the demote sweep an entry is idle exactly when it sits before every live entry, so idle entries are evicted first |
| MainState.IdleEntryStays | src/main.rs:88-90 | an entry idle for an hour is still cached after the sweep, now as the least recently used entry |
| MainState.InitializeState | src/main.rs:277-305 | a cache of capacity 100 (`NonZeroUsize::new(100)`) |
| MainState.CleanTemplateCache | src/main.rs:270-275 | one sweep with the one-hour limit |
| MainState.TemplatePath | src/main.rs:108 | the key of a named template is `./templates/` followed by the name, which can be read back from the key |
| MainState.TemplatePathInjective | src/main.rs:108 | different template names never share a cache key |
| MainState.SelectMjml | src/main.rs:106-123 | a named template wins over inline MJML and is fetched through the cache under its key: a hit returns the cached content and refreshes the entry, a readable miss returns the file and caches it, and a failed fetch is a 500 with the cache unchanged; without a name the inline MJML is used and the cache is untouched; with neither field it is a 400 "Missing MJML input" |
| Paths.StripPrefixInvertsJoin | src/utils.rs:13 | `strip_prefix` yields `rest` exactly when joining `rest` back onto the base gives the path |
| Paths.Join | src/utils.rs:8 | `cwd.join(dir)`: the result ends with the components of `dir`, is absolute when either path is, and for a relative `dir` is the components of `cwd` followed by those of `dir` |
| Paths.StripPrefix | src/utils.rs:13 | `strip_prefix` succeeds exactly when the roots agree and the base's components begin the path's, and then the base followed by the rest is the path |
| Paths.Display | src/template_watcher.rs:78 | `display().to_string()` of a well-formed path starts with `/` exactly when the path is absolute, and is non-empty when it has components |
| Paths.SplitRender | src/utils.rs:14 | rendering well-formed components and reading the string back gives the same components |
| Paths.Render | src/utils.rs:14 | `to_string_lossy` of a relative path: the components joined with `/`, starting with the first component's first character; `SplitRender` reads it back |
| Paths.GetRelativePath | src/utils.rs:5-16 | a failed `current_dir` is an error even for an absolute template directory; success means the path lies below the anchored directory |
| Paths.Anchor | src/utils.rs:7-11 | a relative template directory is joined onto the working directory and an absolute one is used unchanged, so the result is absolute whenever the working directory is |
| Paths.UnderDirResolves | src/utils.rs:7-15 | a path below the anchored directory (a relative one joined onto cwd, an absolute one kept) resolves to the rendering of the components below it |
| Paths.ResolvesIffUnderDir | src/utils.rs:13 | resolution succeeds exactly for the paths below the anchored directory |
| Paths.RelativePathRoundTrip | src/utils.rs:13-15 | joining the anchored directory with the returned relative path, read back as components, reconstructs the path |
| Paths.ComponentwisePrefix | src/utils.rs:13-14 | the prefix test is by component: `/t/ab` is not below `/t/a`, and `/t/a` itself resolves to `""` |
| Paths.LastDot | src/template_watcher.rs:39 | the index of the last `.` of a name, or none when it has no `.` |
| Paths.FileName | src/template_watcher.rs:39 | `file_name()`, used by `extension()`: the last component, present exactly when there is one and it is not `..` |
| Paths.ExtensionAfterDot | src/template_watcher.rs:39 | `extension()`, when there is one, has no `.` and is what follows a `.` that is not the first character of the file name |
| Paths.IsMjmlIff | src/template_watcher.rs:39 | the filter `extension() == Some("mjml")` accepts exactly paths whose file name is `<stem>.mjml` with a non-empty stem |
| TemplateWatcher.Stored | src/template_watcher.rs:41-47 | Create and Modify are stored as Modify, and Remove as Remove |
| TemplateWatcher.RecordPathsEffect | src/template_watcher.rs:38-49 | an event sets every one of its `.mjml` paths to its stored kind when the kind is relevant, and leaves every other path as it was |
| TemplateWatcher.SkippedKindChangesNothing | src/template_watcher.rs:48 | Any, Access and Other events leave the pending map unchanged |
| TemplateWatcher.RecordPathsValid | src/template_watcher.rs:38-49 | only well-formed `.mjml` paths from the event enter the map, and only as Modify or Remove |
| TemplateWatcher.LastWriteWins | src/template_watcher.rs:36-51 | after any burst, a path holds the kind of the last relevant event that named it; paths no such event named keep what they had |
| TemplateWatcher.RecordEventsValid | src/template_watcher.rs:36-51 | the pending map keeps its invariant whatever the burst |
| TemplateWatcher.Watcher.constructor | src/template_watcher.rs:33 | the pending map starts empty |
| TemplateWatcher.Watcher.Record | src/template_watcher.rs:38-51 | the `for path` loop updates the pending map as `RecordPaths` specifies and keeps its invariant |
| TemplateWatcher.Snapshot | src/template_watcher.rs:62 | `drain().collect()` yields every pending pair exactly once |
| TemplateWatcher.Watcher.Drain | src/template_watcher.rs:61-62 | the drain returns every pending pair once and leaves the map empty |
| TemplateWatcher.DrainTwice | src/template_watcher.rs:61-62 | a second drain straight after a first yields nothing |
| TemplateWatcher.DispatchOneIff | src/template_watcher.rs:70-105 | a drained Create or Modify reloads under the displayed full path, and a Remove pops the relative path; both only when resolution succeeds, otherwise no action |
| TemplateWatcher.DispatchOne | src/template_watcher.rs:70-106 | a pair leads to an action exactly when its path resolves and its kind is Create, Modify or Remove; the action is a removal exactly for Remove |
| TemplateWatcher.DispatchedFromBatch | src/template_watcher.rs:64-108 | every action comes from a drained pair, and there are never more actions than pairs |
| TemplateWatcher.DispatchedCoversBatch | src/template_watcher.rs:64-108 | every pair whose path resolves leads to its action |
| TemplateWatcher.ParseDisplay | src/template_watcher.rs:78 | the displayed string of a well-formed path reads back as that path |
| TemplateWatcher.DispatchOneDetermines | src/template_watcher.rs:70-97 | the action of a pair determines the pair's path |
| TemplateWatcher.NoActionTwice | src/template_watcher.rs:36-109 | however many events named a path before a drain, one debounce step issues no cache action twice |
| TemplateWatcher.LastActionIsNew | src/template_watcher.rs:61-106 | in a drained batch (one pair per path), the action of the last pair is issued by no earlier pair |
| TemplateWatcher.DispatchAll | src/template_watcher.rs:64-108 | the dispatch loop issues the actions `Dispatched` specifies, in drain order |
| TemplateWatcher.Apply | src/template_watcher.rs:80-100 | an action changes the cache as `reload_template` or `remove_template_from_cache` would, and a failed reload changes nothing |
| TemplateWatcher.Effect | src/template_watcher.rs:80-100 | what one spawned cache call does: a readable reload leaves its key holding the file read at `now`, an unreadable one changes nothing, and a removal leaves its key uncached and adds none |
| TemplateWatcher.ApplyAll | src/template_watcher.rs:64-108 | the spawned cache calls of a batch, taken in spawn order, compose their effects |
| TemplateWatcher.Debounce | src/template_watcher.rs:58-109 | one debounce step empties the pending map and applies to the cache the actions dispatched for exactly the drained pairs |
| TemplateWatcher.PeekAfterPop | src/app_state.rs:106 | popping one key leaves what is stored under every other key as it was |
| TemplateWatcher.WatcherMissesHandlerKey | src/template_watcher.rs:78-97 | for a template in a relative template directory, its Modify or Remove event leads to an action, yet the handlers' key `"<template_dir>/<name>"` keeps its old value (a reload can only leave it absent) |

## Left out

- Timers, `tokio::spawn`, the ten-minute `interval` loop and the 200 ms debounce `sleep`: a sweep is one call with a given `now`, and a debounce is one explicit `Debounce` step.
- The locks (`RwLock`, `Mutex`): each cache method and each watcher step is atomic.
- The notify watcher, its construction, the `channel(16)` bridge with `blocking_send`, and directory creation in `initialize_state`: these are operating-system I/O.
- Logging and the text of error messages: errors are the datatypes `CacheError`, `ReadError`, `RelativePathError` and `Reason`, by cause.
- `to_string_lossy` on non-UTF-8 paths: path components are Dafny strings.
- Rendering with handlebars and mrml, the upload handler, `list_templates`, the axum routing, `src/models.rs` and `src/tests.rs`: none of these changes the cache.
- The payload field of `MjmlInput`: it only feeds handlebars.
- TemplateWatcher.Snapshot: a `HashMap` drains in an unspecified order, so the snapshot picks an arbitrary order and the contract fixes only which pairs appear.
- TemplateWatcher.Debounce: the source calls `current_dir` once per drained pair, whereas the model takes one working directory per batch. It also reads the disk as one snapshot per batch and applies the spawned reloads and removals in spawn order, not concurrently.
- TemplateWatcher.Watcher.Record: requires every event path to be a well-formed component list. The watcher reports absolute paths, and the components of an absolute path after its root contain no `.` and no empty name.
- TemplateWatcher.Apply: a failed reload's `Err` is dropped, as the spawned task only logs it.
- Templates.Elapsed: `Instant` is a whole number of seconds. Sub-second resolution is not modelled.
- Paths.Display: a path is held in normal form, so its display never keeps a leading `./` or a trailing `/` of the string it was built from. A `template_dir` written `./templates` displays here as `templates`, and the handlers' key `TemplateKey` is stated for that normal form.
- The `lru` crate is not part of this model. Its `put`, `get_mut`, `pop`, `demote` and `peek` are modelled from their documented behaviour.

## Findings

| source | as written | input that shows it | evidently intended | confidence | as-written member | corrected member |
|---|---|---|---|---|---|---|
| src/main.rs:88-90 | the age sweep calls `cache.demote(&key)` for each expired key, so no entry leaves the cache | a cache holding an entry last read at 0 and swept at 3660 with the one-hour limit: the entry is still cached afterwards | pop the expired keys, as `src/app_state.rs:87-89` does and as the sweep's purpose ("clean old templates") states | medium, not executed | MainState.IdleEntryStays | AppStateCache.HourlySweep |
