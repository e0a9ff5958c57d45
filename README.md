# persisted-map, modelled in Dafny

A string-keyed map that lives in one serialised document under a named slot
of a browser Web Storage area (`localStorage`, `sessionStorage`). Every
operation except `clear` reads the whole document back from the slot; `put`
and `remove` change the deserialised object and write the whole document
back. `clear` does not read: it removes the slot (current revision) or
overwrites it with `{}` (older revision). Two
revisions are modelled:

- `src/persisted-map.js`, the current one. A storage adapter
  (`persistedItem`, module `StorageItem`) resolves `<strategy>Storage` on
  the global object and reads, overwrites or removes one slot. The map
  (`persistedMap`, module `Persisted`, with its pure expiry logic in module
  `Entries`) stores entries `{value, expiry}` and expires them lazily: `get`
  of an expired entry deletes it from the slot and returns `undefined`.
- `src/persistent-map.js`, the older one (module `Persistent`). Values are
  stored raw, there is no expiry, `clear` writes `{}` instead of removing the
  slot, and a registry knows only the strategies `session` and `local`. The
  factory returns `undefined` instead of throwing, except that a strategy
  other than `session` or `local` raises a `TypeError`.

The host is module `WebStorage`: a `Storage` object per storage area whose
`slots` map slot names to documents, and a `Global` object whose fixed map
of storage properties stands for `window.localStorage` and friends. `Js`
holds the JSON value type, JavaScript truthiness of the arguments the code
tests, and `Object.keys`.

How the model renders JavaScript:

- The current time `Date.now()` is a parameter `now: int` of `put` and `get`.
- An argument that may be `undefined` is an `Option`; a falsy string is
  `None` or `""`, a falsy number `None` or `0`.
- JSON serialisation is the identity: a slot holds the object itself. An
  entry's expiry is `Option<int>`; `None` is the `null` that
  `JSON.stringify` writes for the `NaN` of `Date.now() + undefined`.
- A thrown `Error` is `Failure(message)`; the older factory's three outcomes
  are the datatype `Persistent.Created`.

Quirks kept because the code has them:

- `put`'s effective TTL is `ttl || this.expiry`, so a per-call TTL of 0
  falls back to the map default (`Entries.ZeroTtlFallsBackToDefault`).
- Without any TTL the stored expiry is `null` and the entry never expires.
- The expiry test is `expiry && expiry < now`. An entry whose expiry equals
  `now` is still live, and a stored expiry of exactly 0 never expires
  (`Entries.ExpiryWindow`).
- `size()` and `keys()` count expired entries that were not yet read.
- `remove` of an absent key still writes the slot, creating it as `{}`.
- The "not supported" message shows the strategy as passed, so an omitted
  strategy is reported as `"undefined"` although `"local"` was tried
  (`Persisted.UnsupportedMessage`).

Behaviour that is easy to misread:

- The `expiry` field is written as `null`, not omitted, when no TTL applies.
- An entry with deadline `t0 + T` is still returned by a read at exactly
  `t0 + T`.
- The default strategy is `local`.
- `retrieve` does not catch a parse error.

## Model

| member | source | states |
|---|---|---|
| `StorageItem.GetStorage` | src/persisted-map.js:27-33 | the storage area behind a strategy is the global property named strategy + "Storage"; absent (unsupported) exactly when the global object lacks it |
| `StorageItem.IsSupported` | src/persisted-map.js:31-33 | a strategy is supported exactly when the global object has the property strategy + "Storage" |
| `WebStorage.PropertyName` | src/persisted-map.js:28 | the property looked up is the strategy followed by the suffix "Storage" |
| `WebStorage.Retrieved` | src/persisted-map.js:35-38 | a slot reads as its stored document, and as the empty object when it was never written or was removed |
| `StorageItem.RetrieveSlot` | src/persisted-map.js:35-38 | `retrieve` returns the slot's document, `{}` for an absent slot |
| `StorageItem.StoreSlot` | src/persisted-map.js:40-43 | `store` overwrites exactly that slot of that area with the whole document |
| `StorageItem.ClearSlot` | src/persisted-map.js:45-48 | `clear` removes the slot itself and no other |
| `StorageItem.Item.constructor` | src/persisted-map.js:51-54 | `init` binds the item to its strategy and slot name |
| `StorageItem.Item.Retrieve` | src/persisted-map.js:55-57 | the item reads the document of its own slot |
| `StorageItem.Item.Store` | src/persisted-map.js:58-60 | the item overwrites its own slot; a later read yields the stored document |
| `StorageItem.Item.Clear` | src/persisted-map.js:61-63 | the item removes its own slot; a later read yields `{}` |
| `StorageItem.Create` | src/persisted-map.js:67-74 | an item is returned exactly when the strategy's storage area exists, and it is fresh and bound to that strategy and key |
| `Entries.HasEntryExpired` | src/persisted-map.js:83-85 | an expired entry exists and has a timestamp strictly before `now`; an entry whose expiry is null, exactly 0 or exactly `now` is never expired |
| `Entries.EffectiveTtl` | src/persisted-map.js:101 | the effective TTL is the per-call TTL or the map default; the per-call one whenever it is truthy; none exactly when the per-call TTL is falsy and there is no default |
| `Entries.PutEntry` | src/persisted-map.js:100-105 | the blob `put` writes back has the old keys plus `key`, and `key` holds the given value |
| `Entries.AfterRead` | src/persisted-map.js:106-116 | the blob after `get` is unchanged or lacks exactly `key`; it changes only when `get` misses; every other key keeps its entry |
| `Entries.CreateEntry` | src/persisted-map.js:87-92 | the entry keeps the value; its expiry lies exactly the TTL after `now`, and is null exactly when there is no TTL |
| `Entries.ReadValue` | src/persisted-map.js:106-116 | `get` yields a value exactly when the key is present and its entry has not expired, and then it is the stored value |
| `Entries.PutReplacesOnlyItsKey` | src/persisted-map.js:100-105 | `put` adds its key, stores the given value under it, grows the key count by one exactly when the key was new, and leaves every other key and entry as it was |
| `Entries.ZeroTtlFallsBackToDefault` | src/persisted-map.js:101 | a per-call TTL of 0 writes the same blob as no per-call TTL |
| `Entries.PerCallTtlOverridesDefault` | src/persisted-map.js:101 | a truthy per-call TTL sets the expiry to `now + ttl` whatever the map default is |
| `Entries.RoundTripWithoutTtl` | src/persisted-map.js:83-92 | with no effective TTL, `get` after `put` returns the value at any later time and writes nothing |
| `Entries.ExpiryWindow` | src/persisted-map.js:83-92 | with effective TTL `t`, `get` after `put` at `now` returns the value iff the read time is at most `now + t` or that deadline is 0 |
| `Entries.NegativeTtlExpiresAtOnce` | src/persisted-map.js:83-92 | a negative effective TTL, per call or by default (deadline not 0), makes the next `get` miss and drop the key, leaving the blob as it was before the `put` minus that key |
| `Entries.ReadDropsExactlyExpired` | src/persisted-map.js:106-116 | `get` changes the blob iff the key's entry has expired; it then removes that key alone and misses; other keys keep their entries |
| `Entries.ReadIsIdempotent` | src/persisted-map.js:106-116 | a second `get` at the same time returns the same result and changes nothing more |
| `Entries.ExpiryIsPermanent` | src/persisted-map.js:83-85 | an expired entry stays expired at every later time |
| `Entries.RemoveThenRead` | src/persisted-map.js:120-124 | after `remove(k)`, `get(k)` misses; removing an absent key leaves the entries unchanged; other keys keep their entries |
| `Entries.PutAllFrame` | specs/persisted-map.spec.js:62-66 | keys not among a batch of puts keep their entries |
| `Entries.PutAllKeys` | specs/persisted-map.spec.js:163-170 | a batch of puts adds exactly the batch's keys to the blob |
| `Entries.PutAllSize` | specs/persisted-map.spec.js:114-119 | a batch of puts with distinct new keys grows the key count by the batch's length |
| `Entries.PutAllRoundTrip` | specs/persisted-map.spec.js:106-109 | without a default TTL, every key of a batch with distinct keys reads back its own value at any later time |
| `Entries.RemoveAllMisses` | specs/persisted-map.spec.js:136-141 | removing keys one by one removes exactly those keys, and each then misses |
| `Persisted.PersistedMap.constructor` | src/persisted-map.js:95-98 | `init` binds the map to its item and default TTL |
| `Persisted.PersistedMap.Put` | src/persisted-map.js:100-105 | the map's slot becomes the old blob with only `key` replaced by the new entry; other slots are untouched |
| `Persisted.PersistedMap.Get` | src/persisted-map.js:106-116 | returns what `ReadValue` says; writes the blob without the key iff that key's entry expired, and writes nothing otherwise |
| `Persisted.PersistedMap.Size` | src/persisted-map.js:117-119 | the count of raw keys in the stored blob, expired ones included |
| `Persisted.PersistedMap.Remove` | src/persisted-map.js:120-124 | the slot becomes the old blob without `key`, written even when the key was absent |
| `Persisted.PersistedMap.Clear` | src/persisted-map.js:125-127 | the slot is removed; the blob then reads as `{}` |
| `Persisted.PersistedMap.Keys` | src/persisted-map.js:128-131 | every key of the stored blob exactly once, and nothing else |
| `Js.ObjectKeys` | src/persisted-map.js:130 | `Object.keys`: no key twice, exactly the object's keys, as many as the object has |
| `Persisted.UnsupportedMessage` | src/persisted-map.js:146 | the error message shows the strategy as passed, and an omitted strategy as the text "undefined" |
| `Persisted.Create` | src/persisted-map.js:135-153 | throws "You must provide key." iff the key is falsy; otherwise throws 'Web storage "<strategy>" is not supported.' iff the strategy (default "local") names no storage area; otherwise returns a fresh valid handle on slot `key` with the given default TTL |
| `Persisted.SharedBlob` | specs/persisted-map.spec.js:22-26 | two handles created with the same name are distinct objects on the same slot, and a value put through one is read through the other |
| `Persisted.DefaultTtlScenario` | specs/persisted-map.spec.js:185-198 | with a ten-minute default TTL the entry is read back after nine minutes and is gone after eleven |
| `Persistent.Adapter.IsSupported` | src/persistent-map.js:17-19 | the registry's support check agrees with the current revision's: the global object has the property strategy + "Storage" |
| `Persistent.Adapter.constructor` | src/persistent-map.js:16-27 | a registry entry is bound to the global object and its strategy |
| `Persistent.Adapter.Store` | src/persistent-map.js:20-23 | overwrites the slot with the document, or with `{}` when the document is falsy |
| `Persistent.Adapter.Retrieve` | src/persistent-map.js:24-26 | the slot's document, `{}` when the slot is absent |
| `Persistent.Registry.constructor` | src/persistent-map.js:15-28 | the registry holds exactly the strategies "session" and "local", each adapter bound to its own strategy |
| `Persistent.PersistentMap.constructor` | src/persistent-map.js:32-35 | `init` binds the map to its name and adapter |
| `Persistent.PersistentMap.Put` | src/persistent-map.js:36-40 | the slot becomes the old document with the raw value under `key`; other keys unchanged |
| `Persistent.PersistentMap.Get` | src/persistent-map.js:41-44 | returns the raw stored value iff the key is present, `undefined` otherwise |
| `Persistent.PersistentMap.Size` | src/persistent-map.js:45-48 | the number of keys in the stored document |
| `Persistent.PersistentMap.Remove` | src/persistent-map.js:49-53 | the slot becomes the old document without `key` |
| `Persistent.PersistentMap.Clear` | src/persistent-map.js:54-56 | the slot is overwritten with `{}` and still exists; the map is then empty |
| `Persistent.Create` | src/persistent-map.js:61-76 | `undefined` for a falsy name; otherwise a `TypeError` iff the strategy (default "local") is not registered, `undefined` iff its storage area is missing, else a fresh valid handle on that name and adapter |
| `Persistent.RawRoundTrip` | src/persistent-map.js:36-56 | a raw value put is read back, misses after `remove`, and `size()` is 0 after `clear` |

## Left out

- `serialize`/`deserialize` (`JSON.stringify`/`JSON.parse`) are the identity on values; JSON text, non-integer numbers and values JSON cannot represent (`undefined`, functions, `NaN` as a value) are not modelled.
- A slot holding text the code did not write is not modelled: slots hold only documents of the shape the revision writes. The code does not catch a `JSON.parse` error, so there is no corrupt-slot recovery to model.
- Keys that name properties inherited from `Object.prototype` (such as `toString` or `__proto__`) behave as ordinary keys here; in JavaScript the older revision's `get` of such an absent key returns the inherited property.
- `Js.ObjectKeys` and `Persisted.PersistedMap.Keys`: do not state the order of the keys. `Object.keys` lists integer-like keys in ascending order and then the other keys in creation order, but the model's document is an unordered `map` that keeps no insertion history. Only the key set, its length and the absence of duplicates are stated.
- TTL arguments (per call and default) are integers or `undefined`. `null`, strings and `NaN` are not modelled. In JavaScript a `null` default makes `Date.now() + null` equal to `now`, so the entry expires 1 ms later, where the model's `None` never expires. A string TTL is concatenated, not added.
- The storage areas themselves (`localStorage`, `sessionStorage`) are the `WebStorage` classes; quota errors on `setItem` and eviction by the browser are not modelled.
- Which storage properties the global object has is fixed when the environment is built, so an area cannot disappear after a handle was created.
- Concurrent writers (other tabs, interleaved read-modify-write cycles) and the lost updates they cause are not modelled: every operation here runs to completion on its own.
- `console.warn` output of the older factory is not modelled; only its `undefined` result is.
- The module wrappers and the `Object.create`/`init` prototype plumbing become classes whose constructors play `init`.
