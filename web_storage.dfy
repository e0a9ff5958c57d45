/**
  The host environment: the Web Storage areas (`localStorage`,
  `sessionStorage`, ...) reached as properties of the global object. Each
  area maps slot names to stored documents; a document stands for the JSON
  text of an object whose properties hold values of type `V`.
*/
module WebStorage {
  import opened Wrappers

  /** One storage area, with the three primitives the map uses. */
  class Storage<V> {
    var slots: map<string, map<string, V>>

    constructor (slots: map<string, map<string, V>>)
      ensures this.slots == slots
    {
      this.slots := slots;
    }

    /** `getItem(name)`: `null` (here `None`) for a slot that was never written or was removed. */
    function GetItem(name: string): (doc: Option<map<string, V>>)
      reads this
      ensures doc.Some? <==> name in slots
      ensures doc.Some? ==> doc.value == slots[name]
    {
      if name in slots then Some(slots[name]) else None
    }

    /** `setItem(name, doc)`: overwrites one slot. */
    method SetItem(name: string, doc: map<string, V>)
      modifies this
      ensures slots == old(slots)[name := doc]
    {
      slots := slots[name := doc];
    }

    /** `removeItem(name)`: deletes one slot; no effect on an absent one. */
    method RemoveItem(name: string)
      modifies this
      ensures slots == old(slots) - {name}
    {
      slots := slots - {name};
    }
  }

  /**
    The global object, reduced to its storage properties (`localStorage`,
    `sessionStorage`, ...). Which of them exist is fixed for the lifetime of
    the environment.
  */
  class Global<V> {
    const properties: map<string, Storage<V>>

    constructor (properties: map<string, Storage<V>>)
      ensures this.properties == properties
    {
      this.properties := properties;
    }

    /** `global[name]`: the storage object under a property name, `undefined` when there is none. */
    function Property(name: string): (s: Option<Storage<V>>)
      ensures s.Some? <==> name in properties
      ensures s.Some? ==> s.value == properties[name]
    {
      if name in properties then Some(properties[name]) else None
    }
  }

  /** The global property a strategy names, `strategy + 'Storage'`: "local" names `localStorage`. */
  function PropertyName(strategy: string): (p: string)
    ensures |p| == |strategy| + 7 && p[..|strategy|] == strategy && p[|strategy|..] == "Storage"
  {
    strategy + "Storage"
  }

  /**
    What reading a slot yields: the stored document, or the empty
    object when the slot was never written or has been removed
    (`deserialize(getItem(key)) || {}`, where `getItem` gives `null`).
  */
  function Retrieved<V>(storage: Storage<V>, key: string): (doc: map<string, V>)
    reads storage
    ensures key in storage.slots ==> doc == storage.slots[key]
    ensures key !in storage.slots ==> doc == map[]
  {
    match storage.GetItem(key)
    case Some(stored) => stored
    case None => map[]
  }
}
