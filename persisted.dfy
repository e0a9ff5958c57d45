/**
  The map of the current revision (`persistedMap`): a handle on one slot,
  whose document maps keys to entries `{value, expiry}`, with lazy expiry.
  Every operation re-reads the slot; mutations write the whole document back.
*/
module Persisted {
  import opened Wrappers
  import opened Js
  import opened WebStorage
  import opened StorageItem
  import opened Entries

  class PersistedMap {
    const item: Item<Entry>
    /** The map's default TTL in milliseconds (`expiry` in the JavaScript); `None` when none was given. */
    const defaultTtl: Option<int>

    /** `init(persistedItem, expiry)`. */
    constructor (item: Item<Entry>, defaultTtl: Option<int>)
      ensures this.item == item && this.defaultTtl == defaultTtl
    {
      this.item := item;
      this.defaultTtl := defaultTtl;
    }

    /** The item's storage area exists, as the factory guarantees. */
    predicate Valid()
    {
      item.Valid()
    }

    function Backend(): Storage<Entry>
      requires Valid()
    {
      item.Backend()
    }

    /** The blob every operation starts from: the slot's document, or `{}` when the slot is absent. */
    function Contents(): Blob
      requires Valid()
      reads Backend()
    {
      item.Contents()
    }

    /**
      `put(key, value, ttl)` at time `now`: rewrites the slot with the old blob
      in which only `key` now holds the new entry; the other slots of the area
      are untouched.
    */
    method Put(key: string, value: Value, ttl: Option<int>, now: int)
      requires Valid()
      modifies Backend()
      ensures Backend().slots == old(Backend().slots)[item.key := PutEntry(old(Contents()), key, value, ttl, defaultTtl, now)]
      ensures Contents()[key] == CreateEntry(value, EffectiveTtl(ttl, defaultTtl), now)
      ensures forall k :: k != key ==> Lookup(Contents(), k) == Lookup(old(Contents()), k)
    {
      var effective := EffectiveTtl(ttl, defaultTtl);
      var blob := item.Retrieve();
      blob := blob[key := CreateEntry(value, effective, now)];
      item.Store(blob);
    }

    /**
      `get(key)` at time `now`: an expired entry is removed from the slot and
      `undefined` returned; otherwise nothing is written and the stored value,
      or `undefined` for an absent key, is returned.
    */
    method Get(key: string, now: int) returns (r: Option<Value>)
      requires Valid()
      modifies Backend()
      ensures r == ReadValue(old(Contents()), key, now)
      ensures HasEntryExpired(Lookup(old(Contents()), key), now) ==>
                Backend().slots == old(Backend().slots)[item.key := old(Contents()) - {key}]
      ensures !HasEntryExpired(Lookup(old(Contents()), key), now) ==> Backend().slots == old(Backend().slots)
      ensures Contents() == AfterRead(old(Contents()), key, now)
    {
      var blob := item.Retrieve();
      var entry := Lookup(blob, key);
      if HasEntryExpired(entry, now) {
        Remove(key);
        return None;
      }
      r := if entry.Some? then Some(entry.value.value) else None;
    }

    /** `size()`: the number of keys in the stored blob, expired or not. */
    method Size() returns (n: nat)
      requires Valid()
      ensures n == |Contents()|
    {
      var ks := Keys();
      n := |ks|;
    }

    /**
      `remove(key)`: rewrites the slot with the old blob without `key`. The
      slot is written even when the key is absent, which creates it if needed.
    */
    method Remove(key: string)
      requires Valid()
      modifies Backend()
      ensures Backend().slots == old(Backend().slots)[item.key := old(Contents()) - {key}]
      ensures key !in Contents()
    {
      var blob := item.Retrieve();
      blob := blob - {key};
      item.Store(blob);
    }

    /** `clear()`: removes the slot itself, so every later read starts from `{}`. */
    method Clear()
      requires Valid()
      modifies Backend()
      ensures Backend().slots == old(Backend().slots) - {item.key}
      ensures Contents() == map[]
    {
      item.Clear();
    }

    /** `keys()`: every key of the stored blob once, including entries that have expired but were not read. */
    method Keys() returns (ks: seq<string>)
      requires Valid()
      ensures Distinct(ks)
      ensures forall k :: k in ks <==> k in Contents()
      ensures |ks| == |Contents()|
    {
      var blob := item.Retrieve();
      ks := ObjectKeys(blob);
    }
  }

  /** The message of the error thrown for an unavailable storage area; it shows the strategy as the caller passed it. */
  function UnsupportedMessage(strategy: Option<string>): (msg: string)
    ensures strategy.None? ==> msg == "Web storage \"" + "undefined" + "\" is not supported."
    ensures strategy.Some? ==> msg == "Web storage \"" + strategy.value + "\" is not supported."
  {
    "Web storage \"" + Text(strategy) + "\" is not supported."
  }

  /**
    `persistedMap.create(key, strategy, expiry)`: throws without a key, and
    throws when the strategy (default "local") names no storage area;
    otherwise a fresh handle on slot `key` with default TTL `expiry`.
  */
  method Create(global: Global<Entry>, key: Option<string>, strategy: Option<string>, expiry: Option<int>)
    returns (r: Result<PersistedMap, string>)
    ensures !TruthyString(key) ==> r == Failure("You must provide key.")
    ensures TruthyString(key) && !IsSupported(global, OrElse(strategy, "local")) ==> r == Failure(UnsupportedMessage(strategy))
    ensures r.Success? <==> TruthyString(key) && IsSupported(global, OrElse(strategy, "local"))
    ensures r.Success? ==> fresh(r.value) && r.value.Valid() && r.value.defaultTtl == expiry
    ensures r.Success? ==> r.value.item.global == global && r.value.item.key == key.value
                           && r.value.item.strategy == OrElse(strategy, "local")
  {
    if !TruthyString(key) {
      return Failure("You must provide key.");
    }
    var item := StorageItem.Create(global, OrElse(strategy, "local"), key.value);
    if item.None? {
      return Failure(UnsupportedMessage(strategy));
    }
    var handle := new PersistedMap(item.value, expiry);
    r := Success(handle);
  }

  /**
    Two handles created with the same key and strategy are distinct objects
    that share one blob: what one puts, the other gets.
  */
  method SharedBlob(global: Global<Entry>, name: string, key: string, value: Value, now: int)
    returns (first: PersistedMap, second: PersistedMap, r: Option<Value>)
    requires name != "" && IsSupported(global, "local")
    modifies global.properties[PropertyName("local")]
    ensures first != second
    ensures first.item.key == second.item.key == name
    ensures r == Some(value)
  {
    var created := Create(global, Some(name), None, None);
    first := created.value;
    created := Create(global, Some(name), None, None);
    second := created.value;
    first.Put(key, value, None, now);
    r := second.Get(key, now);
  }

  /**
    A map with a ten-minute default TTL: the entry put at `now` is read back
    nine minutes later and has expired eleven minutes later.
  */
  method DefaultTtlScenario(global: Global<Entry>, now: int) returns (early: Option<Value>, late: Option<Value>)
    requires IsSupported(global, "local") && now + 600000 != 0
    modifies global.properties[PropertyName("local")]
    ensures early == Some(Str("bar")) && late == None
  {
    var created := Create(global, Some("test-local-expiry"), Some("local"), Some(600000));
    var m := created.value;
    m.Put("foo", Str("bar"), None, now);
    early := m.Get("foo", now + 540000);
    late := m.Get("foo", now + 660000);
  }
}
