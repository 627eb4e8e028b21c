# recur: path-scoped storage, modelled in Dafny

This project models `RecurringScopedStorage` of recur: a view of a flat,
string-keyed backing container that is scoped down to a key path. The first
key of the path names one entry of the container (the *root entry*); the rest
of the path is a nested key path inside that entry's value. A scope

- materializes its path on `initialize(initializer)`: every segment that is
  not an object gets one (the initializer's object at the scope's own key, an
  empty object above it, chosen by position; the source compares names, see
  Findings), and the root entry is written back;
- reads through the path (`getAll`, `getItem`, `hasItem`);
- mutates by reading the whole root entry, changing it at the path
  (`setItem`, `removeItem`, `clear`) and writing it back. `setItem` and
  `removeItem` skip silently when the root entry is falsy;
- publishes every mutation on a change stream, with the scope's state after
  the write as its snapshot. A snapshot cell follows that stream;
- derives child scopes one key deeper over the same container (`scope`).

Files and modules:

- `values.dfy`, module `Values`: the dynamic `Value` (null, boolean, number,
  string, object) and the key-path operations the scope uses from lodash.
  These are `Get`, `Has`, `SetAt` and `UnsetAt`, with their round-trip and
  frame lemmas.
- `materialize.dfy`, module `Materialize`: the descent `initialize` performs.
  It holds the function `Materialize`, its properties, and `MaterializeSteps`,
  the step-by-step loop proved equal to it. It also holds `MaterializeByName`,
  the descent as the source writes it (see Findings).
- `storage_container.dfy`, module `StorageContainer`: the change kinds and
  the change record, plus the backing container as a `Store` class holding a
  `map<string, Value>`. Scopes share a `Store` by reference.
- `scoped_storage.dfy`, module `RecurringScopedStorage`: each operation as a
  function on the container's entries (`View`, `ItemOf`, `HasItemAt`,
  `Initialized`, `AfterSet`, `AfterRemove`, `AfterClear`), lemmas about them,
  and the class `ScopedStorage`. Its methods are proved to change the store
  exactly as those functions say. They also say which change they append to
  the change stream (`events`) and the snapshot stream (`snapshots`);
  `lastSnapshot` is the snapshot cell.

Modelling choices:

- A missing container entry reads as `Null`, as the container's `getItem`
  returns `null`. An absent result (`undefined`) is `None` of an `Option`;
  a stored `undefined` is not represented (see Left out).
- Readiness is the flag `initialized`. Every read and mutation requires it;
  the source's operations wait on it.
- `initialize` may be called again. It then re-runs the descent with the new
  initializer and seeds the snapshot cell again. Each call also adds one more
  subscription that forwards every change's snapshot onto the snapshot
  stream. The field `feeds` counts them, and a published change pushes its
  snapshot onto `snapshots` once per feed.
- `destroy` sets `destroyed`. Later mutations still write the container, but
  publish nothing, and the snapshot cell keeps its value.
- The default factory is modelled by the object it returns
  (`map<string, Value>`), the same object on every call. Its type in the
  source is an object type.
- The write guard is the code's truthiness test `if (item)`, not the mere
  existence of the root entry, and the model follows the code. A root
  entry of `0`, `""` or `false` counts as missing. With a truthy primitive
  root entry, `setItem`/`removeItem` write it back unchanged (lodash `set`
  and `unset` do nothing on a non-object) and still publish a change.
- `getItem` evaluates `getAll()[key]`. That rejects with a TypeError when the
  scope's state is `undefined` or `null`: `Err(TypeError)`.

## Model

| member | source | states |
|---|---|---|
| `Values.HasIffGet` | src/RecurringScopedStorage.ts:125-127 | the step-by-step own-key test along a path holds exactly when the path is non-empty and lookup along it finds a value |
| `Values.GetAppend` | src/RecurringScopedStorage.ts:183-188 | looking up `p + q` is looking up `p`, then `q` inside what was found; undefined if `p` fails |
| `Values.ObjectsAlongIffGet` | src/RecurringScopedStorage.ts:159-167 | "every node along the path is an object" means every prefix of the path looks up to an object |
| `Values.SetThenGet` | src/RecurringScopedStorage.ts:63 | after assigning at a path of an object, lookup along that path yields the assigned value |
| `Values.SetCreatesObjects` | src/RecurringScopedStorage.ts:63 | assignment leaves an object at every intermediate segment of the path |
| `Values.SetFrame` | src/RecurringScopedStorage.ts:63 | assignment changes nothing at any path that diverges from the assigned one |
| `Values.UnsetThenGet` | src/RecurringScopedStorage.ts:81 | after deleting at a path, lookup along it yields undefined |
| `Values.UnsetFrame` | src/RecurringScopedStorage.ts:81 | deletion changes nothing at any path that diverges from the deleted one |
| `Values.UnsetAbsent` | src/RecurringScopedStorage.ts:81 | deleting where nothing is leaves the value as it was (deletion is idempotent) |
| `Materialize.MaterializeByName` | src/RecurringScopedStorage.ts:157-167 | the descent as written, choosing the initializer by key name: it keeps every key of the root entry and leaves an object at every segment of the path |
| `Materialize.MaterializeIsSetAt` | src/RecurringScopedStorage.ts:159-167 | the corrected, by-position descent equals one assignment at the scope's path: intermediates are created as assignment creates them, and the scope's key gets the existing object or the initializer's |
| `Materialize.MaterializeMakesObjects` | src/RecurringScopedStorage.ts:159-167 | after the corrected, by-position descent every segment of the path is an object |
| `Materialize.MaterializeLeaf` | src/RecurringScopedStorage.ts:162-163 | after the corrected, by-position descent the scope's value is the object already there, or else the initializer's object |
| `Materialize.MaterializeFrame` | src/RecurringScopedStorage.ts:159-167 | the corrected, by-position descent leaves every location off the path untouched |
| `Materialize.MaterializeKeeps` | src/RecurringScopedStorage.ts:162 | the corrected, by-position descent leaves a path that is already all objects exactly as it is |
| `Materialize.MaterializeIdempotent` | src/RecurringScopedStorage.ts:159-167 | running the corrected, by-position descent twice equals running it once |
| `Materialize.ByNameAgrees` | src/RecurringScopedStorage.ts:157-163 | choosing the initializer by key name agrees with choosing it by position whenever the last key names no intermediate segment |
| `Materialize.ByNameCounterexample` | src/RecurringScopedStorage.ts:157-163 | on an empty root, path `[r, a, a]` with initializer `{a: {y: 2}}`: the code leaves the scope seeing `{y: 2}`, the corrected descent the initializer's object |
| `Materialize.MaterializeSteps` | src/RecurringScopedStorage.ts:159-167 | the loop that overwrites each non-object segment while descending, choosing the initializer for the last segment by position, computes the corrected `Materialize` |
| `RecurringScopedStorage.HasItemIffGetItem` | src/RecurringScopedStorage.ts:122-127 | `hasItem(key)` holds exactly when `getItem(key)` yields a value; it is false whenever the scope itself is absent |
| `RecurringScopedStorage.InitializeView` | src/RecurringScopedStorage.ts:149-172 | after `initialize` (with the corrected, by-position descent) the scope sees the object already there, or else the initializer's object, and every path segment is an object in the stored root entry |
| `RecurringScopedStorage.InitializeFresh` | src/RecurringScopedStorage.ts:149-172 | on a container without the root entry, the scope sees exactly the initializer's object after `initialize` with the corrected, by-position descent |
| `RecurringScopedStorage.InitializeIdempotent` | src/RecurringScopedStorage.ts:149-171 | initializing a second time (corrected, by-position descent) leaves the container as the first time did |
| `RecurringScopedStorage.InitializeFrame` | src/RecurringScopedStorage.ts:149-171 | `initialize` (corrected, by-position descent) changes nothing seen by scopes of other root entries, or off the path inside an object root entry |
| `RecurringScopedStorage.SetItemRoundTrip` | src/RecurringScopedStorage.ts:57-64 | with an object root entry, `setItem(k, v)` then `getItem(k)` yields `v`, and `hasItem(k)` holds |
| `RecurringScopedStorage.SetItemFrame` | src/RecurringScopedStorage.ts:60-64 | `setItem` changes nothing seen by any scope whose path diverges from the written location, other root entries included |
| `RecurringScopedStorage.RemoveItemGone` | src/RecurringScopedStorage.ts:75-83 | after `removeItem(k)`, `hasItem(k)` is false and `getItem(k)` yields no value |
| `RecurringScopedStorage.RemoveItemAbsent` | src/RecurringScopedStorage.ts:78-83 | removing a key that is not there writes back the same entries, so removing twice equals removing once |
| `RecurringScopedStorage.RemoveItemFrame` | src/RecurringScopedStorage.ts:78-83 | `removeItem` changes nothing seen by any scope whose path diverges from the removed location |
| `RecurringScopedStorage.ClearView` | src/RecurringScopedStorage.ts:97-106 | after `clear()` the scope sees exactly the initializer's object: always at depth 1, and at depth > 1 when the root entry is an object |
| `RecurringScopedStorage.ClearFrame` | src/RecurringScopedStorage.ts:97-106 | `clear()` changes nothing seen by any scope whose path diverges from the cleared one |
| `RecurringScopedStorage.ScopeView` | src/RecurringScopedStorage.ts:130-135 | the child scope for `key` sees what the parent sees under `key`, and undefined when the parent sees nothing |
| `RecurringScopedStorage.ChildWriteVisible` | src/RecurringScopedStorage.ts:130-135 | a write through a child scope is seen by the parent under `[child, key]`, as both share the root entry |
| `RecurringScopedStorage.ScopedStorage.constructor` | src/RecurringScopedStorage.ts:31-41 | a new scope is not ready, has published nothing, its initializer yields `{}` and its snapshot cell holds `{}` |
| `RecurringScopedStorage.ScopedStorage.LastSnapshot` | src/RecurringScopedStorage.ts:37-49 | the snapshot cell holds the latest value published on the snapshot stream, or `{}` before any |
| `RecurringScopedStorage.ScopedStorage.GetAll` | src/RecurringScopedStorage.ts:183-189 | the root entry itself for a one-key path; otherwise present exactly when every nested key is present |
| `RecurringScopedStorage.ScopedStorage.HasItem` | src/RecurringScopedStorage.ts:122-128 | true exactly when every key of `path[1:] + [key]` is present in the root entry; false when the scope itself is absent |
| `RecurringScopedStorage.ScopedStorage.GetItem` | src/RecurringScopedStorage.ts:51-55 | yields the value under `key` in `getAll()`, present exactly when `hasItem(key)`; rejects, with a TypeError, exactly when the scope is absent or `null` |
| `RecurringScopedStorage.ScopedStorage.Publish` | src/RecurringScopedStorage.ts:176-178 | unless the scope was destroyed, a change goes on the change stream, its snapshot is pushed onto the snapshot stream once per `initialize` call so far (one subscription each), and the snapshot cell ends on it |
| `RecurringScopedStorage.ScopedStorage.Initialize` | src/RecurringScopedStorage.ts:149-181 | stores the initializer, writes back the materialized root entry, seeds the snapshot cell with the scope's new state (unless destroyed), adds one change-to-snapshot feed, becomes ready, and publishes no change |
| `RecurringScopedStorage.ScopedStorage.SetItem` | src/RecurringScopedStorage.ts:57-73 | writes `AfterSet` to the container; publishes an update with the key, the value and the post-write state exactly when the root entry was truthy and the scope is not destroyed |
| `RecurringScopedStorage.ScopedStorage.RemoveItem` | src/RecurringScopedStorage.ts:75-92 | writes `AfterRemove`; publishes a deletion with an undefined value and the post-write state exactly when the root entry was truthy and the scope is not destroyed |
| `RecurringScopedStorage.ScopedStorage.Clear` | src/RecurringScopedStorage.ts:94-114 | writes `AfterClear`; always publishes a clear with key `""`, an undefined value and the post-write state (unless destroyed), even when a nested scope's root was falsy |
| `RecurringScopedStorage.ScopedStorage.Scope` | src/RecurringScopedStorage.ts:130-135 | returns a new, unready scope over `path + [key]` sharing the same container |
| `RecurringScopedStorage.ScopedStorage.Destroy` | src/RecurringScopedStorage.ts:137-140 | marks the scope destroyed and changes nothing else |
| `RecurringScopedStorage.WritesInOrder` | src/RecurringScopedStorage.ts:57-73 | two awaited writes of one key publish two updates in issue order, with snapshots holding the first and then the second value; the snapshot cell ends on the second |

## Left out

- RxJS mechanics: subscriptions, multicast, replay to late subscribers and
  stream completion. The change stream and the snapshot stream are append-only
  logs; `destroy` stops appending.
- The readiness promise and the asynchronous chain. An operation called
  before `initialize` waits forever in the source; here it is excluded by
  `requires initialized`. Every operation runs atomically.
- Interleaving of concurrent operations, and the lost-update race between
  read-modify-write cycles on a shared root entry. The model is sequential.
- Failures of the backing container. Its `getItem` and `setItem` always
  succeed here; the source lets their rejections propagate.
- Aliasing. In the source, `set` and `unset` mutate the object the container
  returned, and snapshots can be live references into the root entry, when
  the container hands out the object it stores. Here values are immutable,
  so a published snapshot never changes afterwards.
- The backing container's implementation (`RecurringStorage`) is not part of
  this model. The container is an abstract `map<string, Value>`. The
  container interface's `attach`, `detach` and `registerOnChange` are out,
  and `CONTAINER_CHANGE` is never published by a scope.
- lodash details outside string-keyed objects: arrays and index-like keys,
  functions counted as objects, the keys `set` refuses to assign
  (`__proto__`, `constructor`, `prototype`), and properties of primitives
  (`"abc".length`). Lookups through a primitive yield undefined here, and
  `getItem` on a primitive scope yields undefined.
- A stored `undefined`, from `setItem(k, undefined)` or an initializer
  object with an `undefined` field. The source then keeps an own key holding
  `undefined`, so `hasItem(k)` holds while `getItem(k)` yields `undefined`,
  and the update carries an `undefined` value. `Value` has no `undefined`, so
  `HasItemIffGetItem` and `Published` do not cover this case.
- Keys naming `Object.prototype` members (`toString`, `constructor`,
  `valueOf`, `hasOwnProperty`, …). In the source, lookups (`get`,
  `obj[key]`, and `res[pathKey]` in `initialize`) see the inherited member,
  while `has` tests own properties only. So `getItem("toString")` yields a
  function while `hasItem("toString")` is false. A segment named
  `constructor` is never created by `initialize`, because the inherited
  `Object` already counts as an object. The model has own properties only,
  so `RecurringScopedStorage.HasItemIffGetItem` and the `Materialize` lemmas
  do not cover such keys.
- Numbers are unbounded integers. Floating point and `NaN` are not modelled.
- A default factory that returns different objects on different calls, or a
  non-object. The factory is its one returned object.
- TypeScript's generic typing of `scope<K>`. One dynamic `Value` type is used.
- `RecurringScopedStorage.ScopedStorage.Initialize`: uses the corrected
  descent `Materialize`, which picks the initializer by position, not the
  source's comparison by key name. The as-written descent is
  `Materialize.MaterializeByName`, and the two agree whenever the last key
  names no intermediate segment (`Materialize.ByNameAgrees`).

## Findings

| source | as written | input that shows it | evidently intended | confidence | as-written member | corrected member |
|---|---|---|---|---|---|---|
| src/RecurringScopedStorage.ts:157-163 | a missing segment gets `initializer()` when its NAME equals the last key of the path, so an intermediate segment named like the last key also gets it | empty container, path `["r", "a", "a"]`, initializer `() => ({a: {y: 2}})`: the intermediate `a` becomes `{a: {y: 2}}`, the last `a` is then already an object, and `getAll()` yields `{y: 2}` instead of the initializer's object | only the last segment (by position) gets `initializer()`, so that a fresh scope sees exactly the initializer's object | medium; not executed | `Materialize.ByNameCounterexample` | `RecurringScopedStorage.InitializeFresh` |
