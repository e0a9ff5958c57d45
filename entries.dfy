/**
  The entries of the current revision and its lazy expiry, on values: what
  `put`, `get` and `remove` do to the deserialised blob, and the properties
  that follow.
*/
module Entries {
  import opened Wrappers
  import opened Js

  /**
    One stored entry `{value, expiry}`. `expiry` is an absolute time in
    milliseconds; `None` is the `null` that `JSON.stringify` writes for the
    `NaN` of `Date.now() + undefined`. The field is never omitted.
  */
  datatype Entry = Entry(value: Value, expiry: Option<int>)

  /** The deserialised document of one map: key to entry. */
  type Blob = map<string, Entry>

  /** `expiry || this.expiry`: the per-call TTL when it is truthy, the map's default otherwise. */
  function EffectiveTtl(ttl: Option<int>, fallback: Option<int>): (eff: Option<int>)
    ensures eff == ttl || eff == fallback
    ensures TruthyNumber(ttl) ==> eff == ttl
    ensures eff.None? <==> !TruthyNumber(ttl) && fallback.None?
  {
    if TruthyNumber(ttl) then ttl else fallback
  }

  /** `createEntry(value, ttl)` at time `now`: the expiry lies `ttl` after `now`, or is `null` without a TTL. */
  function CreateEntry(value: Value, ttl: Option<int>, now: int): (e: Entry)
    ensures e.value == value
    ensures e.expiry.Some? <==> ttl.Some?
    ensures ttl.Some? ==> e.expiry.value - now == ttl.value
  {
    Entry(value, if ttl.Some? then Some(now + ttl.value) else None)
  }

  /**
    `hasEntryExpired(entry)` at time `now`: the entry exists, its timestamp
    is truthy (not `null`, not 0) and lies strictly before `now`.
  */
  predicate HasEntryExpired(entry: Option<Entry>, now: int)
    ensures HasEntryExpired(entry, now) ==> entry.Some? && entry.value.expiry.Some? && entry.value.expiry.value < now
    ensures entry.Some? && entry.value.expiry.None? ==> !HasEntryExpired(entry, now)
    ensures entry.Some? && entry.value.expiry == Some(0) ==> !HasEntryExpired(entry, now)
    ensures entry.Some? && entry.value.expiry == Some(now) ==> !HasEntryExpired(entry, now)
  {
    entry.Some? && TruthyNumber(entry.value.expiry) && entry.value.expiry.value < now
  }

  /** `map[key]`: the entry under a key, `undefined` when there is none. */
  function Lookup(b: Blob, key: string): Option<Entry>
  {
    if key in b then Some(b[key]) else None
  }

  /** The blob `put(key, value, ttl)` writes back, on a map whose default TTL is `fallback`. */
  function PutEntry(b: Blob, key: string, value: Value, ttl: Option<int>, fallback: Option<int>, now: int): (r: Blob)
    ensures r.Keys == b.Keys + {key}
    ensures r[key].value == value
  {
    b[key := CreateEntry(value, EffectiveTtl(ttl, fallback), now)]
  }

  /** What `get(key)` returns at time `now`: the stored value of a live entry, `undefined` otherwise. */
  function ReadValue(b: Blob, key: string, now: int): (r: Option<Value>)
    ensures r.Some? <==> key in b && !HasEntryExpired(Some(b[key]), now)
    ensures r.Some? ==> r.value == b[key].value
  {
    var entry := Lookup(b, key);
    if HasEntryExpired(entry, now) then None
    else if entry.Some? then Some(entry.value.value)
    else None
  }

  /** The blob after `get(key)` at time `now`: an expired entry is removed, otherwise nothing is written. */
  function AfterRead(b: Blob, key: string, now: int): (r: Blob)
    ensures r == b || r == b - {key}
    ensures r != b ==> ReadValue(b, key, now).None?
    ensures forall k :: k != key ==> Lookup(r, k) == Lookup(b, k)
  {
    if HasEntryExpired(Lookup(b, key), now) then b - {key} else b
  }

  /** `put` replaces the entry under its key and leaves every other key and entry as it was. */
  lemma PutReplacesOnlyItsKey(b: Blob, key: string, value: Value, ttl: Option<int>, fallback: Option<int>, now: int)
    ensures PutEntry(b, key, value, ttl, fallback, now).Keys == b.Keys + {key}
    ensures |PutEntry(b, key, value, ttl, fallback, now)| == if key in b then |b| else |b| + 1
    ensures PutEntry(b, key, value, ttl, fallback, now)[key].value == value
    ensures forall k :: k in b && k != key ==> PutEntry(b, key, value, ttl, fallback, now)[k] == b[k]
  {
  }

  /** A per-call TTL of 0 is falsy, so it behaves exactly like no per-call TTL. */
  lemma ZeroTtlFallsBackToDefault(b: Blob, key: string, value: Value, fallback: Option<int>, now: int)
    ensures PutEntry(b, key, value, Some(0), fallback, now) == PutEntry(b, key, value, None, fallback, now)
  {
  }

  /** A truthy per-call TTL wins: the map's default plays no part. */
  lemma PerCallTtlOverridesDefault(b: Blob, key: string, value: Value, ttl: Option<int>, fallback1: Option<int>, fallback2: Option<int>, now: int)
    requires TruthyNumber(ttl)
    ensures PutEntry(b, key, value, ttl, fallback1, now) == PutEntry(b, key, value, ttl, fallback2, now)
    ensures PutEntry(b, key, value, ttl, fallback1, now)[key].expiry == Some(now + ttl.value)
  {
  }

  /**
    Without an effective TTL the entry never expires: `get` returns the value
    at every later time and writes nothing.
  */
  lemma RoundTripWithoutTtl(b: Blob, key: string, value: Value, ttl: Option<int>, fallback: Option<int>, now: int, later: int)
    requires !TruthyNumber(ttl) && fallback.None?
    ensures ReadValue(PutEntry(b, key, value, ttl, fallback, now), key, later) == Some(value)
    ensures AfterRead(PutEntry(b, key, value, ttl, fallback, now), key, later) == PutEntry(b, key, value, ttl, fallback, now)
  {
  }

  /**
    With an effective TTL `t`, the entry written at `now` is live up to and
    including `now + t` and gone afterwards, except that a deadline of exactly
    0 is falsy and never passes.
  */
  lemma ExpiryWindow(b: Blob, key: string, value: Value, ttl: Option<int>, fallback: Option<int>, now: int, later: int)
    requires EffectiveTtl(ttl, fallback).Some?
    ensures var deadline := now + EffectiveTtl(ttl, fallback).value;
            ReadValue(PutEntry(b, key, value, ttl, fallback, now), key, later)
              == if later <= deadline || deadline == 0 then Some(value) else None
  {
  }

  /**
    A negative effective TTL, per call or by default, expires the entry at
    once: the very next `get` misses and drops it.
  */
  lemma NegativeTtlExpiresAtOnce(b: Blob, key: string, value: Value, ttl: Option<int>, fallback: Option<int>, now: int)
    requires EffectiveTtl(ttl, fallback).Some? && EffectiveTtl(ttl, fallback).value < 0
    requires now + EffectiveTtl(ttl, fallback).value != 0
    ensures ReadValue(PutEntry(b, key, value, ttl, fallback, now), key, now) == None
    ensures AfterRead(PutEntry(b, key, value, ttl, fallback, now), key, now) == b - {key}
  {
  }

  /** `get` writes exactly when the entry under the key has expired, and then drops that key alone and misses. */
  lemma ReadDropsExactlyExpired(b: Blob, key: string, now: int)
    ensures AfterRead(b, key, now) != b <==> HasEntryExpired(Lookup(b, key), now)
    ensures HasEntryExpired(Lookup(b, key), now) ==> AfterRead(b, key, now) == b - {key} && ReadValue(b, key, now) == None
    ensures forall k :: k != key ==> Lookup(AfterRead(b, key, now), k) == Lookup(b, k)
  {
  }

  /** A second `get` at the same time returns the same and writes nothing more. */
  lemma ReadIsIdempotent(b: Blob, key: string, now: int)
    ensures ReadValue(AfterRead(b, key, now), key, now) == ReadValue(b, key, now)
    ensures AfterRead(AfterRead(b, key, now), key, now) == AfterRead(b, key, now)
  {
  }

  /** Once expired, an entry stays expired as time goes on. */
  lemma ExpiryIsPermanent(entry: Option<Entry>, now: int, later: int)
    requires HasEntryExpired(entry, now) && now <= later
    ensures HasEntryExpired(entry, later)
  {
  }

  /** After `remove(key)` the key misses; removing an absent key changes no entry; other keys keep their entries. */
  lemma RemoveThenRead(b: Blob, key: string, now: int)
    ensures ReadValue(b - {key}, key, now) == None
    ensures key !in b ==> b - {key} == b
    ensures forall k :: k != key ==> Lookup(b - {key}, k) == Lookup(b, k)
  {
  }

  /** No key occurs twice among the items. */
  predicate DistinctKeys(items: seq<(string, Value)>)
  {
    Distinct(KeySeq(items))
  }

  /** The items' keys, in order. */
  function KeySeq(items: seq<(string, Value)>): (ks: seq<string>)
    ensures |ks| == |items| && forall i :: 0 <= i < |items| ==> ks[i] == items[i].0
  {
    seq(|items|, i requires 0 <= i < |items| => items[i].0)
  }

  /** The keys of the items. */
  function KeysOf(items: seq<(string, Value)>): set<string>
  {
    set i | 0 <= i < |items| :: items[i].0
  }

  /** `put(key, value)` of each item in turn, without per-call TTL, all at time `now`. */
  function PutAll(b: Blob, items: seq<(string, Value)>, fallback: Option<int>, now: int): Blob
    decreases |items|
  {
    if items == [] then b
    else PutAll(PutEntry(b, items[0].0, items[0].1, None, fallback, now), items[1..], fallback, now)
  }

  /** `remove(key)` of each key in turn. */
  function RemoveAll(b: Blob, keys: seq<string>): Blob
    decreases |keys|
  {
    if keys == [] then b else RemoveAll(b - {keys[0]}, keys[1..])
  }

  /** Keys not among the items keep their entries through a sequence of puts. */
  lemma {:induction false} PutAllFrame(b: Blob, items: seq<(string, Value)>, fallback: Option<int>, now: int, k: string)
    requires k !in KeysOf(items)
    ensures Lookup(PutAll(b, items, fallback, now), k) == Lookup(b, k)
    decreases |items|
  {
    if items != [] {
      assert items[0].0 in KeysOf(items);
      assert KeysOf(items[1..]) <= KeysOf(items) by {
        forall j | 0 <= j < |items[1..]| ensures items[1..][j].0 in KeysOf(items) {
          assert items[1..][j] == items[j + 1];
        }
      }
      PutAllFrame(PutEntry(b, items[0].0, items[0].1, None, fallback, now), items[1..], fallback, now, k);
    }
  }

  /** A sequence of puts adds exactly the items' keys. */
  lemma {:induction false} PutAllKeys(b: Blob, items: seq<(string, Value)>, fallback: Option<int>, now: int)
    ensures PutAll(b, items, fallback, now).Keys == b.Keys + KeysOf(items)
    decreases |items|
  {
    if items != [] {
      var b' := PutEntry(b, items[0].0, items[0].1, None, fallback, now);
      PutAllKeys(b', items[1..], fallback, now);
      assert KeysOf(items) == {items[0].0} + KeysOf(items[1..]) by {
        forall k | k in KeysOf(items) ensures k in {items[0].0} + KeysOf(items[1..]) {
          var i :| 0 <= i < |items| && items[i].0 == k;
          if i > 0 { assert items[1..][i - 1] == items[i]; }
        }
        forall k | k in KeysOf(items[1..]) ensures k in KeysOf(items) {
          var i :| 0 <= i < |items[1..]| && items[1..][i].0 == k;
          assert items[1..][i] == items[i + 1];
        }
      }
    }
  }

  /** Putting items with distinct new keys grows the blob by exactly their number: `size()` counts them all. */
  lemma PutAllSize(b: Blob, items: seq<(string, Value)>, fallback: Option<int>, now: int)
    requires DistinctKeys(items)
    requires forall i :: 0 <= i < |items| ==> items[i].0 !in b
    ensures |PutAll(b, items, fallback, now)| == |b| + |items|
  {
    PutAllKeys(b, items, fallback, now);
    DistinctKeysCount(items);
    assert b.Keys !! KeysOf(items);
    assert |b.Keys + KeysOf(items)| == |b.Keys| + |KeysOf(items)|;
  }

  /** Distinct keys are as many as the items. */
  lemma {:induction false} DistinctKeysCount(items: seq<(string, Value)>)
    requires DistinctKeys(items)
    ensures |KeysOf(items)| == |items|
    decreases |items|
  {
    if items != [] {
      DistinctKeysCount(items[1..]);
      var rest := KeysOf(items[1..]);
      assert KeysOf(items) == {items[0].0} + rest by {
        forall k | k in KeysOf(items) ensures k in {items[0].0} + rest {
          var i :| 0 <= i < |items| && items[i].0 == k;
          if i > 0 { assert items[1..][i - 1] == items[i]; }
        }
        forall k | k in rest ensures k in KeysOf(items) {
          var i :| 0 <= i < |items[1..]| && items[1..][i].0 == k;
          assert items[1..][i] == items[i + 1];
        }
      }
      assert items[0].0 !in rest by {
        forall i | 0 <= i < |items[1..]| ensures items[1..][i].0 != items[0].0 {
          assert items[1..][i] == items[i + 1];
        }
      }
    }
  }

  /**
    Without a default TTL, after putting items with distinct keys, `get` of
    every item's key returns that item's value at any later time.
  */
  lemma {:induction false} PutAllRoundTrip(b: Blob, items: seq<(string, Value)>, now: int, later: int)
    requires DistinctKeys(items)
    ensures forall i :: 0 <= i < |items| ==> ReadValue(PutAll(b, items, None, now), items[i].0, later) == Some(items[i].1)
    decreases |items|
  {
    if items != [] {
      var b' := PutEntry(b, items[0].0, items[0].1, None, None, now);
      var rest := items[1..];
      assert DistinctKeys(rest) by {
        forall i, j | 0 <= i < j < |rest| ensures rest[i].0 != rest[j].0 {
          assert rest[i] == items[i + 1] && rest[j] == items[j + 1];
        }
      }
      PutAllRoundTrip(b', rest, now, later);
      assert items[0].0 !in KeysOf(rest) by {
        forall i | 0 <= i < |rest| ensures rest[i].0 != items[0].0 {
          assert rest[i] == items[i + 1];
        }
      }
      PutAllFrame(b', rest, None, now, items[0].0);
      forall i | 0 <= i < |items|
        ensures ReadValue(PutAll(b, items, None, now), items[i].0, later) == Some(items[i].1)
      {
        if i > 0 { assert items[i] == rest[i - 1]; }
      }
    }
  }

  /** Removing a sequence of keys one by one removes exactly those keys, so each of them then misses. */
  lemma {:induction false} RemoveAllMisses(b: Blob, keys: seq<string>, now: int)
    ensures RemoveAll(b, keys) == b - (set k | k in keys)
    ensures forall i :: 0 <= i < |keys| ==> ReadValue(RemoveAll(b, keys), keys[i], now) == None
    decreases |keys|
  {
    if keys != [] {
      RemoveAllMisses(b - {keys[0]}, keys[1..], now);
      assert (set k | k in keys) == {keys[0]} + (set k | k in keys[1..]) by {
        forall k | k in keys ensures k in {keys[0]} + (set k | k in keys[1..]) {
          var i :| 0 <= i < |keys| && keys[i] == k;
          if i > 0 { assert keys[1..][i - 1] == keys[i]; }
        }
      }
      assert b - {keys[0]} - (set k | k in keys[1..]) == b - (set k | k in keys);
    }
  }
}
