/** The change record published on a scoped storage's change stream, and
    the backing container as a flat store of string keys. */
module StorageContainer {
  import opened Values

  datatype ChangeType = Delete | Update | Cleared | ContainerChange

  /** One change: its kind, the key changed, the value written (None for
      `undefined`) and the scope's state after the write (None for
      `undefined`). */
  datatype Change = Change(kind: ChangeType, key: string, value: Option<Value>, snapshot: Option<Value>)

  /** The entry under `key`, `null` when there is none. */
  function Lookup(entries: map<string, Value>, key: string): Value {
    if key in entries then entries[key] else Null
  }

  /** The backing container, shared by reference among every scope derived
      from one another. */
  class Store {
    var entries: map<string, Value>

    constructor (entries: map<string, Value>)
      ensures this.entries == entries
    {
      this.entries := entries;
    }

    function GetItem(key: string): Value
      reads this
    {
      Lookup(entries, key)
    }

    method SetItem(key: string, value: Value)
      modifies this
      ensures entries == old(entries)[key := value]
    {
      entries := entries[key := value];
    }
  }
}
