/**
  The older revision (`persistentMap`): values are stored raw under their
  keys, with no entry wrapper and no expiry. Storage areas are reached
  through a registry that knows only the strategies "session" and "local".
*/
module Persistent {
  import opened Wrappers
  import opened Js
  import opened WebStorage

  /** The registry's entry for one strategy: `isSupported`, `store` and `retrieve` on `<strategy>Storage`. */
  class Adapter {
    const global: Global<Value>
    const strategy: string

    constructor (global: Global<Value>, strategy: string)
      ensures this.global == global && this.strategy == strategy
    {
      this.global := global;
      this.strategy := strategy;
    }

    /** `isSupported()`: the global object has the strategy's storage property. */
    predicate IsSupported()
      ensures IsSupported() <==> PropertyName(strategy) in global.properties
    {
      global.Property(PropertyName(strategy)).Some?
    }

    function Backend(): Storage<Value>
      requires IsSupported()
    {
      global.properties[PropertyName(strategy)]
    }

    /** The document `retrieve(name)` yields: the slot's, or `{}` when the slot is absent. */
    function Contents(name: string): map<string, Value>
      requires IsSupported()
      reads Backend()
    {
      Retrieved(Backend(), name)
    }

    /**
      `store(name, data)`: overwrites the slot; a falsy `data` (here `None`)
      is written as `{}`.
    */
    method Store(name: string, data: Option<map<string, Value>>)
      requires IsSupported()
      modifies Backend()
      ensures Backend().slots == old(Backend().slots)[name := if data.Some? then data.value else map[]]
    {
      var doc := if data.Some? then data.value else map[];
      Backend().SetItem(name, doc);
    }

    /** `retrieve(name)`: the slot's document, `{}` when the slot is absent. */
    method Retrieve(name: string) returns (doc: map<string, Value>)
      requires IsSupported()
      ensures name in Backend().slots ==> doc == Backend().slots[name]
      ensures name !in Backend().slots ==> doc == map[]
    {
      var stored := Backend().GetItem(name);
      doc := if stored.Some? then stored.value else map[];
    }
  }

  /** The registry `storages`, filled once with an adapter per known strategy. */
  class Registry {
    const storages: map<string, Adapter>

    constructor (global: Global<Value>)
      ensures storages.Keys == {"session", "local"}
      ensures forall s :: s in storages ==> storages[s].global == global && storages[s].strategy == s
    {
      var strategies := ["session", "local"];
      var filled: map<string, Adapter> := map[];
      for i := 0 to |strategies|
        invariant filled.Keys == set j | 0 <= j < i :: strategies[j]
        invariant forall s :: s in filled ==> filled[s].global == global && filled[s].strategy == s
      {
        var adapter := new Adapter(global, strategies[i]);
        filled := filled[strategies[i] := adapter];
      }
      assert strategies[0] == "session" && strategies[1] == "local";
      storages := filled;
    }
  }

  class PersistentMap {
    const name: string
    const storage: Adapter

    /** `init(name, storage)`. */
    constructor (name: string, storage: Adapter)
      ensures this.name == name && this.storage == storage
    {
      this.name := name;
      this.storage := storage;
    }

    /** The adapter's storage area exists, as the factory guarantees. */
    predicate Valid()
    {
      storage.IsSupported()
    }

    function Backend(): Storage<Value>
      requires Valid()
    {
      storage.Backend()
    }

    /** The document every operation starts from. */
    function Contents(): map<string, Value>
      requires Valid()
      reads Backend()
    {
      storage.Contents(name)
    }

    /** `put(key, value)`: rewrites the slot with `value` itself under `key`, every other key unchanged. */
    method Put(key: string, value: Value)
      requires Valid()
      modifies Backend()
      ensures Backend().slots == old(Backend().slots)[name := old(Contents())[key := value]]
      ensures key in Contents() && Contents()[key] == value
      ensures forall k :: k != key ==> (k in Contents() <==> k in old(Contents()))
      ensures forall k :: k != key && k in Contents() ==> Contents()[k] == old(Contents())[k]
    {
      var doc := storage.Retrieve(name);
      doc := doc[key := value];
      storage.Store(name, Some(doc));
    }

    /** `get(key)`: the raw stored value, `undefined` for an absent key. */
    method Get(key: string) returns (r: Option<Value>)
      requires Valid()
      ensures r.Some? <==> key in Contents()
      ensures r.Some? ==> r.value == Contents()[key]
    {
      var doc := storage.Retrieve(name);
      r := if key in doc then Some(doc[key]) else None;
    }

    /** `size()`: the number of keys in the stored document. */
    method Size() returns (n: nat)
      requires Valid()
      ensures n == |Contents()|
    {
      var doc := storage.Retrieve(name);
      var ks := ObjectKeys(doc);
      n := |ks|;
    }

    /** `remove(key)`: rewrites the slot without `key`; no other key changes. */
    method Remove(key: string)
      requires Valid()
      modifies Backend()
      ensures Backend().slots == old(Backend().slots)[name := old(Contents()) - {key}]
      ensures key !in Contents()
    {
      var doc := storage.Retrieve(name);
      doc := doc - {key};
      storage.Store(name, Some(doc));
    }

    /** `clear()`: overwrites the slot with `{}`; unlike the current revision the slot stays. */
    method Clear()
      requires Valid()
      modifies Backend()
      ensures Backend().slots == old(Backend().slots)[name := map[]]
      ensures name in Backend().slots && Contents() == map[]
    {
      storage.Store(name, Some(map[]));
    }
  }

  /** What `persistentMap.create` produces: a handle, `undefined` (after a warning), or a thrown `TypeError`. */
  datatype Created = Handle(handle: PersistentMap) | Undefined | TypeError

  /**
    `persistentMap.create(name, strategy)`: `undefined` without a name;
    otherwise the strategy (default "local") is looked up in the registry:
    an unregistered one dereferences `undefined` and throws, an unavailable
    one yields `undefined`, an available one a fresh handle.
  */
  method Create(registry: Registry, name: Option<string>, strategy: Option<string>) returns (r: Created)
    ensures !TruthyString(name) ==> r == Undefined
    ensures TruthyString(name) && OrElse(strategy, "local") !in registry.storages ==> r == TypeError
    ensures TruthyString(name) && OrElse(strategy, "local") in registry.storages ==>
              (r.Handle? <==> registry.storages[OrElse(strategy, "local")].IsSupported()) && !r.TypeError?
    ensures r.Handle? ==> fresh(r.handle) && r.handle.Valid() && r.handle.name == name.value
                          && r.handle.storage == registry.storages[OrElse(strategy, "local")]
  {
    if !TruthyString(name) {
      return Undefined;
    }
    var chosen := OrElse(strategy, "local");
    if chosen !in registry.storages {
      return TypeError;
    }
    var adapter := registry.storages[chosen];
    if !adapter.IsSupported() {
      return Undefined;
    }
    var handle := new PersistentMap(name.value, adapter);
    r := Handle(handle);
  }

  /** A value put under a key is read back raw, until the key is removed or the map cleared. */
  method RawRoundTrip(m: PersistentMap, key: string, value: Value)
    returns (afterPut: Option<Value>, afterRemove: Option<Value>, sizeAfterClear: nat)
    requires m.Valid()
    modifies m.Backend()
    ensures afterPut == Some(value) && afterRemove == None && sizeAfterClear == 0
  {
    m.Put(key, value);
    afterPut := m.Get(key);
    m.Remove(key);
    afterRemove := m.Get(key);
    m.Clear();
    sizeAfterClear := m.Size();
  }
}
