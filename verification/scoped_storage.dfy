/** A view of the backing container scoped to a key path. The first key of
    the path names one entry of the container (the root entry); the rest is
    a nested key path inside that entry's value. Every mutation reads the
    whole root entry, changes it, and writes it back; each one that goes
    through is published as a change carrying the scope's new state. */
module RecurringScopedStorage {
  import opened Values
  import M = Materialize
  import opened StorageContainer

  /** A scope's path is never empty. */
  type Path = p: seq<string> | |p| > 0 witness [""]

  // ---------------------------------------------------------------------
  // The scope's operations on the container's entries, as functions

  /** What the scope sees: the root entry projected along the nested keys;
      None (`undefined`) when some key on the way is missing. */
  function View(entries: map<string, Value>, path: Path): Option<Value> {
    Get(Lookup(entries, path[0]), path[1..])
  }

  /** `obj[key]` on the scope's state: reading a key of `undefined` or
      `null` rejects with a TypeError. */
  function ItemOf(view: Option<Value>, key: string): Result<Option<Value>> {
    match view
    case None => Err(TypeError)
    case Some(Null) => Err(TypeError)
    case Some(Obj(f)) => Ok(if key in f then Some(f[key]) else None)
    case Some(_) => Ok(None)
  }

  /** Whether `key` exists under the scope, every segment on the way
      included. */
  predicate HasItemAt(entries: map<string, Value>, path: Path, key: string) {
    Has(Lookup(entries, path[0]), path[1..] + [key])
  }

  /** The object the descent of `initialize` starts from: the root entry if
      it is an object, else the initializer's object for a one-key path and
      an empty object otherwise. */
  function StartOf(root: Value, path: Path, init: map<string, Value>): map<string, Value> {
    if root.Obj? then root.fields else if |path| == 1 then init else map[]
  }

  /** The entries after `initialize(init)`. */
  function Initialized(entries: map<string, Value>, path: Path, init: map<string, Value>): map<string, Value> {
    var start := StartOf(Lookup(entries, path[0]), path, init);
    entries[path[0] := Obj(M.Materialize(start, path[1..], init))]
  }

  /** The entries after `setItem(key, x)`: nothing is written when the root
      entry is falsy. */
  function AfterSet(entries: map<string, Value>, path: Path, key: string, x: Value): map<string, Value> {
    var root := Lookup(entries, path[0]);
    if Truthy(root) then entries[path[0] := SetAt(root, path[1..] + [key], x)] else entries
  }

  /** The entries after `removeItem(key)`: nothing is written when the root
      entry is falsy. */
  function AfterRemove(entries: map<string, Value>, path: Path, key: string): map<string, Value> {
    var root := Lookup(entries, path[0]);
    if Truthy(root) then entries[path[0] := UnsetAt(root, path[1..] + [key])] else entries
  }

  /** The entries after `clear()`: a nested scope resets its subtree when
      the root entry is truthy; a one-key scope replaces the root entry. */
  function AfterClear(entries: map<string, Value>, path: Path, init: map<string, Value>): map<string, Value> {
    var root := Lookup(entries, path[0]);
    if |path| > 1 then
      if Truthy(root) then entries[path[0] := SetAt(root, path[1..], Obj(init))] else entries
    else entries[path[0] := Obj(init)]
  }

  /** The value a snapshot cell holds after the given emissions: the latest
      one, or an empty object before any. */
  function Latest(emitted: seq<Option<Value>>): Option<Value> {
    if emitted == [] then Some(Obj(map[])) else emitted[|emitted| - 1]
  }

  /** `n` emissions of the same value, as `n` subscribers forwarding one
      change each push it. */
  function Repeat(x: Option<Value>, n: nat): (r: seq<Option<Value>>)
    ensures |r| == n && forall i :: 0 <= i < n ==> r[i] == x
  {
    if n == 0 then [] else Repeat(x, n - 1) + [x]
  }

  /** The shape of every change the scope itself publishes. */
  predicate Published(c: Change) {
    c.kind != ContainerChange
    && (c.kind == Update <==> c.value.Some?)
    && (c.kind == Cleared ==> c.key == "")
  }

  // ---------------------------------------------------------------------
  // Properties of the operations

  /** `hasItem(key)` holds exactly when `getItem(key)` yields a value. */
  lemma HasItemIffGetItem(entries: map<string, Value>, path: Path, key: string)
    ensures HasItemAt(entries, path, key) <==> ItemOf(View(entries, path), key).Ok? && ItemOf(View(entries, path), key).value.Some?
    ensures View(entries, path).None? ==> !HasItemAt(entries, path, key)
  {
    var root := Lookup(entries, path[0]);
    HasIffGet(root, path[1..] + [key]);
    GetAppend(root, path[1..], [key]);
  }

  /** After `initialize` the scope sees an object: the one that was already
      there, or the initializer's; and every segment of the path is an
      object in the stored root entry. */
  lemma InitializeView(entries: map<string, Value>, path: Path, init: map<string, Value>)
    ensures var before := View(entries, path);
            View(Initialized(entries, path, init), path)
              == Some(if before.Some? && before.value.Obj? then before.value else Obj(init))
    ensures ObjectsAlong(Lookup(Initialized(entries, path, init), path[0]), path[1..])
  {
    var root := Lookup(entries, path[0]);
    var start := StartOf(root, path, init);
    M.MaterializeMakesObjects(start, path[1..], init);
    if |path| > 1 {
      M.MaterializeLeaf(start, path[1..], init);
      if root.Obj? {
        assert Obj(start) == root;
      } else {
        assert Get(Obj(start), path[1..]) == None;
      }
    }
  }

  /** On a container with no root entry, the scope sees exactly the
      initializer's object afterwards. */
  lemma InitializeFresh(entries: map<string, Value>, path: Path, init: map<string, Value>)
    requires path[0] !in entries
    ensures View(Initialized(entries, path, init), path) == Some(Obj(init))
  {
    InitializeView(entries, path, init);
    if |path| > 1 {
      assert Lookup(entries, path[0]) == Null;
    }
  }

  /** Initializing again changes nothing. */
  lemma InitializeIdempotent(entries: map<string, Value>, path: Path, init: map<string, Value>)
    ensures Initialized(Initialized(entries, path, init), path, init) == Initialized(entries, path, init)
  {
    var start := StartOf(Lookup(entries, path[0]), path, init);
    M.MaterializeIdempotent(start, path[1..], init);
  }

  /** `initialize` leaves other entries, and places off the path inside an
      object root entry, as they were. */
  lemma InitializeFrame(entries: map<string, Value>, path: Path, init: map<string, Value>, other: Path)
    requires other[0] != path[0] || (Lookup(entries, path[0]).Obj? && Diverges(path[1..], other[1..]))
    ensures View(Initialized(entries, path, init), other) == View(entries, other)
  {
    if other[0] == path[0] {
      var root := Lookup(entries, path[0]);
      M.MaterializeFrame(root.fields, path[1..], init, other[1..]);
      assert Obj(root.fields) == root;
    }
  }

  /** `setItem(key, x)` on an object root entry, then `getItem(key)`,
      yields `x`; `hasItem(key)` holds. */
  lemma SetItemRoundTrip(entries: map<string, Value>, path: Path, key: string, x: Value)
    requires Lookup(entries, path[0]).Obj?
    ensures ItemOf(View(AfterSet(entries, path, key, x), path), key) == Ok(Some(x))
    ensures HasItemAt(AfterSet(entries, path, key, x), path, key)
  {
    var root := Lookup(entries, path[0]);
    var after := AfterSet(entries, path, key, x);
    var root' := SetAt(root, path[1..] + [key], x);
    assert Lookup(after, path[0]) == root';
    SetThenGet(root, path[1..] + [key], x);
    GetAppend(root', path[1..], [key]);
    HasItemIffGetItem(after, path, key);
  }

  /** `setItem` changes nothing any scope sees whose path diverges from the
      written location, including scopes of other root entries. */
  lemma SetItemFrame(entries: map<string, Value>, path: Path, key: string, x: Value, other: Path)
    requires Diverges(path + [key], other)
    ensures View(AfterSet(entries, path, key, x), other) == View(entries, other)
  {
    if other[0] == path[0] {
      assert (path + [key])[1..] == path[1..] + [key];
      SetFrame(Lookup(entries, path[0]), path[1..] + [key], x, other[1..]);
    }
  }

  /** After `removeItem(key)`, `hasItem(key)` is false and `getItem(key)`
      yields no value. */
  lemma RemoveItemGone(entries: map<string, Value>, path: Path, key: string)
    ensures !HasItemAt(AfterRemove(entries, path, key), path, key)
    ensures var r := ItemOf(View(AfterRemove(entries, path, key), path), key); !(r.Ok? && r.value.Some?)
  {
    var root := Lookup(entries, path[0]);
    var after := AfterRemove(entries, path, key);
    if Truthy(root) {
      assert Lookup(after, path[0]) == UnsetAt(root, path[1..] + [key]);
      UnsetThenGet(root, path[1..] + [key]);
      HasIffGet(UnsetAt(root, path[1..] + [key]), path[1..] + [key]);
    } else {
      assert !root.Obj?;
    }
    HasItemIffGetItem(after, path, key);
  }

  /** Removing an item that is not there writes the same entries back;
      so removing twice is removing once. */
  lemma RemoveItemAbsent(entries: map<string, Value>, path: Path, key: string)
    requires !HasItemAt(entries, path, key)
    ensures AfterRemove(entries, path, key) == entries
  {
    var root := Lookup(entries, path[0]);
    if Truthy(root) {
      HasIffGet(root, path[1..] + [key]);
      UnsetAbsent(root, path[1..] + [key]);
    }
  }

  /** `removeItem` changes nothing any scope sees whose path diverges from
      the removed location. */
  lemma RemoveItemFrame(entries: map<string, Value>, path: Path, key: string, other: Path)
    requires Diverges(path + [key], other)
    ensures View(AfterRemove(entries, path, key), other) == View(entries, other)
  {
    if other[0] == path[0] {
      assert (path + [key])[1..] == path[1..] + [key];
      UnsetFrame(Lookup(entries, path[0]), path[1..] + [key], other[1..]);
    }
  }

  /** After `clear()` the scope sees exactly the initializer's object, for
      a one-key scope always and for a nested one when the root entry is an
      object. */
  lemma ClearView(entries: map<string, Value>, path: Path, init: map<string, Value>)
    requires |path| == 1 || Lookup(entries, path[0]).Obj?
    ensures View(AfterClear(entries, path, init), path) == Some(Obj(init))
  {
    if |path| > 1 {
      SetThenGet(Lookup(entries, path[0]), path[1..], Obj(init));
    }
  }

  /** `clear()` changes nothing any scope sees whose path diverges from the
      cleared one. */
  lemma ClearFrame(entries: map<string, Value>, path: Path, init: map<string, Value>, other: Path)
    requires Diverges(path, other)
    ensures View(AfterClear(entries, path, init), other) == View(entries, other)
  {
    if other[0] == path[0] {
      SetFrame(Lookup(entries, path[0]), path[1..], Obj(init), other[1..]);
    }
  }

  /** The scope of `path + [key]` sees what the scope of `path` sees under
      `key`. */
  lemma ScopeView(entries: map<string, Value>, path: Path, key: string)
    ensures var parent := View(entries, path);
            View(entries, path + [key]) == if parent.Some? then Get(parent.value, [key]) else None
  {
    assert (path + [key])[0] == path[0];
    assert (path + [key])[1..] == path[1..] + [key];
    GetAppend(Lookup(entries, path[0]), path[1..], [key]);
  }

  /** A write through a child scope is seen by its parent: child and parent
      share one root entry. */
  lemma ChildWriteVisible(entries: map<string, Value>, path: Path, child: string, key: string, x: Value)
    requires Lookup(entries, path[0]).Obj?
    ensures var parent := View(AfterSet(entries, path + [child], key, x), path);
            parent.Some? && Get(parent.value, [child, key]) == Some(x)
  {
    var cpath: Path := path + [child];
    var root := Lookup(entries, path[0]);
    assert cpath[0] == path[0];
    assert cpath[1..] + [key] == path[1..] + [child, key];
    SetThenGet(root, path[1..] + [child, key], x);
    GetAppend(SetAt(root, path[1..] + [child, key], x), path[1..], [child, key]);
  }

  // ---------------------------------------------------------------------
  // The scoped storage object

  class ScopedStorage {
    const path: Path
    const store: Store
    /** The default factory's object, used by `initialize` and `clear`. */
    var initializer: map<string, Value>
    /** Readiness: set once `initialize` has written the root entry back. */
    var initialized: bool
    /** Set by `destroy`: the change stream and the snapshot cell are closed. */
    var destroyed: bool
    /** Every change published on the change stream, in order. */
    var events: seq<Change>
    /** Every value published on the snapshot stream, in order. */
    var snapshots: seq<Option<Value>>
    /** The snapshot cell, following the snapshot stream. */
    var lastSnapshot: Option<Value>
    /** How many subscriptions forward each change's snapshot onto the
      snapshot stream: every call of `initialize` adds one. */
    var feeds: nat

    ghost predicate Valid()
      reads this
    {
      (!initialized ==> events == [] && snapshots == [] && feeds == 0)
      && (initialized ==> feeds > 0)
      && lastSnapshot == Latest(snapshots)
      && forall i :: 0 <= i < |events| ==> Published(events[i])
    }

    constructor (path: Path, store: Store)
      ensures Valid()
      ensures this.path == path && this.store == store
      ensures initializer == map[] && !initialized && !destroyed
      ensures events == [] && snapshots == [] && lastSnapshot == Some(Obj(map[])) && feeds == 0
    {
      this.path := path;
      this.store := store;
      initializer := map[];
      initialized := false;
      destroyed := false;
      events := [];
      snapshots := [];
      lastSnapshot := Some(Obj(map[]));
      feeds := 0;
    }

    /** The snapshot cell, readable before readiness. */
    function LastSnapshot(): (r: Option<Value>)
      reads this
      requires Valid()
      ensures snapshots == [] ==> r == Some(Obj(map[]))
      ensures snapshots != [] ==> r == snapshots[|snapshots| - 1]
    {
      lastSnapshot
    }

    /** `getAll()`: the root entry itself for a one-key scope, else present
      exactly when every nested key is. What it holds is characterised by
      the lemmas on `View`: ScopeView (a child scope's view), InitializeView,
      SetItemRoundTrip, RemoveItemGone and ClearView. */
    function GetAll(): (r: Option<Value>)
      reads this, store
      requires initialized
      ensures |path| == 1 ==> r == Some(store.GetItem(path[0]))
      ensures |path| > 1 ==> (r.Some? <==> Has(store.GetItem(path[0]), path[1..]))
    {
      HasIffGet(store.GetItem(path[0]), path[1..]);
      View(store.entries, path)
    }

    /** `hasItem(key)`: every key of the nested path and `key` is present;
      false as soon as the scope itself is absent. */
    function HasItem(key: string): (r: bool)
      reads this, store
      requires initialized
      ensures r <==> Get(store.GetItem(path[0]), path[1..] + [key]).Some?
      ensures GetAll().None? ==> !r
    {
      HasItemIffGetItem(store.entries, path, key);
      HasIffGet(store.GetItem(path[0]), path[1..] + [key]);
      HasItemAt(store.entries, path, key)
    }

    /** `getItem(key)`: `getAll()[key]`, which yields a value exactly when
      `hasItem(key)` holds, and rejects exactly when the scope is absent or
      `null`. */
    function GetItem(key: string): (r: Result<Option<Value>>)
      reads this, store
      requires initialized
      ensures r.Ok? && r.value.Some? <==> HasItem(key)
      ensures r.Ok? && r.value.Some? ==>
                GetAll().Some? && GetAll().value.Obj? && key in GetAll().value.fields
                && GetAll().value.fields[key] == r.value.value
      ensures r.Err? <==> GetAll().None? || GetAll() == Some(Null)
      ensures r.Err? ==> r == Err(TypeError)
    {
      HasItemIffGetItem(store.entries, path, key);
      ItemOf(View(store.entries, path), key)
    }

    /** Publishes a change: it goes on the change stream, and each feed
      pushes its snapshot onto the snapshot stream, unless the scope was
      destroyed. The snapshot cell ends on the change's snapshot. */
    method Publish(change: Change)
      requires Valid() && initialized && Published(change)
      modifies this
      ensures Valid()
      ensures events == if old(destroyed) then old(events) else old(events) + [change]
      ensures snapshots == if old(destroyed) then old(snapshots) else old(snapshots) + Repeat(change.snapshot, feeds)
      ensures lastSnapshot == if old(destroyed) then old(lastSnapshot) else change.snapshot
      ensures initializer == old(initializer) && initialized == old(initialized) && destroyed == old(destroyed)
      ensures feeds == old(feeds)
    {
      if !destroyed {
        events := events + [change];
        snapshots := snapshots + Repeat(change.snapshot, feeds);
        lastSnapshot := change.snapshot;
      }
    }

    /** `initialize(init)`: materializes the path in the root entry, writes
      the root entry back, seeds the snapshot cell, adds one more feed from
      the change stream to the snapshot stream and becomes ready. */
    method Initialize(init: map<string, Value>)
      requires Valid()
      modifies this, store
      ensures Valid() && initialized
      ensures initializer == init && destroyed == old(destroyed) && events == old(events)
      ensures store.entries == Initialized(old(store.entries), path, init)
      ensures snapshots == if destroyed then old(snapshots) else old(snapshots) + [View(store.entries, path)]
      ensures feeds == old(feeds) + 1
    {
      initializer := init;
      var root := store.GetItem(path[0]);
      var item := StartOf(root, path, init);
      item := M.MaterializeSteps(item, path[1..], init);
      store.SetItem(path[0], Obj(item));
      var snapshot := View(store.entries, path);
      if !destroyed {
        snapshots := snapshots + [snapshot];
        lastSnapshot := snapshot;
      }
      feeds := feeds + 1;
      initialized := true;
    }

    /** `setItem(key, value)`: skipped silently when the root entry is
      falsy; otherwise writes and publishes an update. */
    method SetItem(key: string, value: Value)
      requires Valid() && initialized
      modifies this, store
      ensures Valid()
      ensures initializer == old(initializer) && initialized && destroyed == old(destroyed) && feeds == old(feeds)
      ensures store.entries == AfterSet(old(store.entries), path, key, value)
      ensures var fired := Truthy(Lookup(old(store.entries), path[0])) && !destroyed;
              var change := Change(Update, key, Some(value), View(store.entries, path));
              events == (if fired then old(events) + [change] else old(events))
              && snapshots == (if fired then old(snapshots) + Repeat(change.snapshot, feeds) else old(snapshots))
              && lastSnapshot == (if fired then change.snapshot else old(lastSnapshot))
    {
      var item := store.GetItem(path[0]);
      if Truthy(item) {
        item := SetAt(item, path[1..] + [key], value);
        store.SetItem(path[0], item);
        var snapshot := GetAll();
        Publish(Change(Update, key, Some(value), snapshot));
      }
    }

    /** `removeItem(key)`: skipped silently when the root entry is falsy;
      otherwise deletes and publishes a deletion. */
    method RemoveItem(key: string)
      requires Valid() && initialized
      modifies this, store
      ensures Valid()
      ensures initializer == old(initializer) && initialized && destroyed == old(destroyed) && feeds == old(feeds)
      ensures store.entries == AfterRemove(old(store.entries), path, key)
      ensures var fired := Truthy(Lookup(old(store.entries), path[0])) && !destroyed;
              var change := Change(Delete, key, None, View(store.entries, path));
              events == (if fired then old(events) + [change] else old(events))
              && snapshots == (if fired then old(snapshots) + Repeat(change.snapshot, feeds) else old(snapshots))
              && lastSnapshot == (if fired then change.snapshot else old(lastSnapshot))
    {
      var item := store.GetItem(path[0]);
      if Truthy(item) {
        item := UnsetAt(item, path[1..] + [key]);
        store.SetItem(path[0], item);
        var snapshot := GetAll();
        Publish(Change(Delete, key, None, snapshot));
      }
    }

    /** `clear()`: resets the scope to the initializer's object and always
      publishes a clear, even when a nested scope's root entry was falsy. */
    method Clear()
      requires Valid() && initialized
      modifies this, store
      ensures Valid()
      ensures initializer == old(initializer) && initialized && destroyed == old(destroyed) && feeds == old(feeds)
      ensures store.entries == AfterClear(old(store.entries), path, initializer)
      ensures var change := Change(Cleared, "", None, View(store.entries, path));
              events == (if destroyed then old(events) else old(events) + [change])
              && snapshots == (if destroyed then old(snapshots) else old(snapshots) + Repeat(change.snapshot, feeds))
              && lastSnapshot == (if destroyed then old(lastSnapshot) else change.snapshot)
    {
      if |path| > 1 {
        var item := store.GetItem(path[0]);
        if Truthy(item) {
          item := SetAt(item, path[1..], Obj(initializer));
          store.SetItem(path[0], item);
        }
      } else {
        store.SetItem(path[0], Obj(initializer));
      }
      var snapshot := GetAll();
      Publish(Change(Cleared, "", None, snapshot));
    }

    /** `scope(key)`: a new, not yet initialized scope one key deeper over
      the same container. */
    method Scope(key: string) returns (child: ScopedStorage)
      ensures fresh(child) && child.Valid()
      ensures child.path == path + [key] && child.store == store
      ensures !child.initialized && !child.destroyed && child.events == []
    {
      child := new ScopedStorage(path + [key], store);
    }

    /** `destroy()`: closes both streams; the container is untouched. */
    method Destroy()
      requires Valid()
      modifies this
      ensures Valid() && destroyed
      ensures initializer == old(initializer) && initialized == old(initialized) && feeds == old(feeds)
      ensures events == old(events) && snapshots == old(snapshots) && lastSnapshot == old(lastSnapshot)
    {
      destroyed := true;
    }
  }

  /** Two awaited writes of one key through a ready scope with an object
      root entry publish two updates in issue order; their snapshots hold
      the first and then the second value, and the snapshot cell ends on
      the second. */
  method WritesInOrder(s: ScopedStorage, key: string, a: Value, b: Value)
    requires s.Valid() && s.initialized && !s.destroyed
    requires Lookup(s.store.entries, s.path[0]).Obj?
    modifies s, s.store
    ensures s.Valid() && |s.events| == |old(s.events)| + 2
    ensures s.events[..|old(s.events)|] == old(s.events)
    ensures var first := s.events[|s.events| - 2];
            first.kind == Update && first.key == key && ItemOf(first.snapshot, key) == Ok(Some(a))
    ensures var second := s.events[|s.events| - 1];
            second.kind == Update && second.key == key && ItemOf(second.snapshot, key) == Ok(Some(b))
    ensures s.lastSnapshot == s.events[|s.events| - 1].snapshot
  {
    SetItemRoundTrip(s.store.entries, s.path, key, a);
    s.SetItem(key, a);
    assert Lookup(s.store.entries, s.path[0]).Obj?;
    SetItemRoundTrip(s.store.entries, s.path, key, b);
    s.SetItem(key, b);
  }
}
