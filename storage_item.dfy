/**
  The storage adapter of the current revision (`persistedItem`): one named
  slot in one Web Storage area, chosen by a strategy name such as "local" or
  "session". The adapter does not know what the documents mean.
*/
module StorageItem {
  import opened Wrappers
  import opened WebStorage

  /** `getStorage`: the storage area behind a strategy, `None` when the global object has no such property. */
  function GetStorage<V>(global: Global<V>, strategy: string): (s: Option<Storage<V>>)
    ensures s.Some? <==> PropertyName(strategy) in global.properties
    ensures s.Some? ==> s.value == global.properties[PropertyName(strategy)]
  {
    global.Property(PropertyName(strategy))
  }

  /** `isSupported`: the strategy names a storage area that exists. */
  predicate IsSupported<V>(global: Global<V>, strategy: string)
    ensures IsSupported(global, strategy) <==> PropertyName(strategy) in global.properties
  {
    GetStorage(global, strategy).Some?
  }

  /** `retrieve(strategy, key)`: reads and deserialises a slot, `{}` when it is absent. */
  method RetrieveSlot<V>(global: Global<V>, strategy: string, key: string) returns (doc: map<string, V>)
    requires IsSupported(global, strategy)
    ensures key in global.properties[PropertyName(strategy)].slots ==>
              doc == global.properties[PropertyName(strategy)].slots[key]
    ensures key !in global.properties[PropertyName(strategy)].slots ==> doc == map[]
  {
    var storage := GetStorage(global, strategy).value;
    var stored := storage.GetItem(key);
    doc := if stored.Some? then stored.value else map[];
  }

  /** `store(strategy, key, data)`: overwrites the slot with the whole document. */
  method StoreSlot<V>(global: Global<V>, strategy: string, key: string, data: map<string, V>)
    requires IsSupported(global, strategy)
    modifies global.properties[PropertyName(strategy)]
    ensures global.properties[PropertyName(strategy)].slots
         == old(global.properties[PropertyName(strategy)].slots)[key := data]
  {
    var storage := GetStorage(global, strategy).value;
    storage.SetItem(key, data);
  }

  /** `clear(strategy, key)`: removes the slot itself. */
  method ClearSlot<V>(global: Global<V>, strategy: string, key: string)
    requires IsSupported(global, strategy)
    modifies global.properties[PropertyName(strategy)]
    ensures global.properties[PropertyName(strategy)].slots
         == old(global.properties[PropertyName(strategy)].slots) - {key}
  {
    var storage := GetStorage(global, strategy).value;
    storage.RemoveItem(key);
  }

  /** A handle on one slot of one storage area. */
  class Item<V> {
    const global: Global<V>
    const strategy: string
    const key: string

    /** `init`: binds the item to a strategy and a slot name. */
    constructor (global: Global<V>, strategy: string, key: string)
      ensures this.global == global && this.strategy == strategy && this.key == key
    {
      this.global := global;
      this.strategy := strategy;
      this.key := key;
    }

    /** The item's storage area exists; `create` only hands out items for which it does. */
    predicate Valid()
    {
      IsSupported(global, strategy)
    }

    /** The storage area the item reads and writes. */
    function Backend(): Storage<V>
      requires Valid()
    {
      GetStorage(global, strategy).value
    }

    /** The document `retrieve` currently yields. */
    function Contents(): map<string, V>
      requires Valid()
      reads Backend()
    {
      Retrieved(Backend(), key)
    }

    method Retrieve() returns (doc: map<string, V>)
      requires Valid()
      ensures doc == Contents()
    {
      doc := RetrieveSlot(global, strategy, key);
    }

    method Store(data: map<string, V>)
      requires Valid()
      modifies Backend()
      ensures Backend().slots == old(Backend().slots)[key := data]
      ensures Contents() == data
    {
      StoreSlot(global, strategy, key, data);
    }

    method Clear()
      requires Valid()
      modifies Backend()
      ensures Backend().slots == old(Backend().slots) - {key}
      ensures Contents() == map[]
    {
      ClearSlot(global, strategy, key);
    }
  }

  /**
    `persistedItem.create(strategy, key)`: a fresh item when the strategy's
    storage area exists, `undefined` otherwise.
  */
  method Create<V>(global: Global<V>, strategy: string, key: string) returns (item: Option<Item<V>>)
    ensures item.Some? <==> IsSupported(global, strategy)
    ensures item.Some? ==> fresh(item.value) && item.value.Valid()
    ensures item.Some? ==> item.value.global == global && item.value.strategy == strategy && item.value.key == key
  {
    if IsSupported(global, strategy) {
      var created := new Item(global, strategy, key);
      item := Some(created);
    } else {
      item := None;
    }
  }
}
