/** `StorageWithTTL` (src/assets/js/storage-utils.js): a key/value cache over
    a string-to-string backend (`localStorage`) that tags each value with an
    optional absolute expiry and evicts lazily, on the read that finds it
    expired. The backend is a map from key to the record the stored string
    decodes to; the clock is the `now` argument. */
module Storage {

  import opened Wrappers

  /** What the string stored under a key decodes to. `Empty` is the empty
      string; `Malformed` is a string `JSON.parse` rejects, or one that decodes
      to something other than a `{value, expiry}` record; `Entry` is a record
      whose `expiry` is `None` for `null` (or a missing field). */
  datatype Record<V> =
    | Empty
    | Malformed
    | Entry(value: V, expiry: Option<int>)

  /** The expiry `setWithTTL` writes: `now + ttl` for a truthy TTL, otherwise
      `null`. A TTL of `null`, of `0` or an omitted one means "never". */
  function ExpiryFor(ttl: Option<int>, now: int): (e: Option<int>)
    ensures e.None? <==> ttl.None? || ttl.value == 0
    ensures e.Some? ==> e.value == now + ttl.value
  {
    if ttl.Some? && ttl.value != 0 then Some(now + ttl.value) else None
  }

  /** The test `item.expiry && Date.now() > item.expiry`: a `null` or `0`
      expiry never passes, and at `now == expiry` the entry is still live. */
  predicate Expired(expiry: Option<int>, now: int)
  {
    expiry.Some? && expiry.value != 0 && now > expiry.value
  }

  /** The backend after `setWithTTL(key, value, ttl)` at time `now`. */
  function Put<V>(b: map<string, Record<V>>, key: string, value: V, ttl: Option<int>, now: int)
    : (r: map<string, Record<V>>)
    ensures r.Keys == b.Keys + {key}
    ensures r[key] == Entry(value, ExpiryFor(ttl, now))
    ensures forall k :: k in b && k != key ==> r[k] == b[k]
  {
    b[key := Entry(value, ExpiryFor(ttl, now))]
  }

  /** The backend after `removeItem(key)`. */
  function Remove<V>(b: map<string, Record<V>>, key: string): (r: map<string, Record<V>>)
    ensures r.Keys == b.Keys - {key}
    ensures forall k :: k in r ==> r[k] == b[k]
  {
    b - {key}
  }

  /** What `getWithTTL` returns (`None` for `null`) and the backend it leaves. */
  datatype Lookup<V> = Lookup(result: Option<V>, backend: map<string, Record<V>>)

  /** `getWithTTL(key)` at time `now`. */
  function Read<V>(b: map<string, Record<V>>, key: string, now: int): (r: Lookup<V>)
    ensures r.result.Some? <==> key in b && b[key].Entry? && !Expired(b[key].expiry, now)
    ensures r.result.Some? ==> r.result.value == b[key].value
    ensures r.backend.Keys <= b.Keys && forall k :: k in r.backend ==> r.backend[k] == b[k]
    ensures r.backend != b ==> r.result.None? && r.backend == Remove(b, key)
  {
    if key !in b then Lookup(None, b)
    else match b[key]
      case Empty => Lookup(None, b)
      case Malformed => Lookup(None, b)
      case Entry(v, e) => if Expired(e, now) then Lookup(None, Remove(b, key)) else Lookup(Some(v), b)
  }

  class StorageWithTtl<V> {
    var backend: map<string, Record<V>>

    constructor(initial: map<string, Record<V>>)
      ensures backend == initial
    {
      backend := initial;
    }

    method SetWithTtl(key: string, value: V, ttl: Option<int>, now: int)
      modifies this
      ensures backend == Put(old(backend), key, value, ttl, now)
    {
      var expiry := if ttl.Some? && ttl.value != 0 then Some(now + ttl.value) else None;
      backend := backend[key := Entry(value, expiry)];
    }

    method GetWithTtl(key: string, now: int) returns (r: Option<V>)
      modifies this
      ensures r == Read(old(backend), key, now).result
      ensures backend == Read(old(backend), key, now).backend
    {
      if key !in backend {
        return None;
      }
      match backend[key]
      case Empty =>
        r := None;
      case Malformed =>
        r := None;
      case Entry(v, expiry) =>
        if expiry.Some? && expiry.value != 0 && now > expiry.value {
          backend := backend - {key};
          r := None;
        } else {
          r := Some(v);
        }
    }

    method RemoveItem(key: string)
      modifies this
      ensures backend == Remove(old(backend), key)
    {
      backend := backend - {key};
    }
  }

  // ---------------------------------------------------------------------
  // Properties of the cache

  /** A get at or before the expiry of what was just set returns it, and
      changes nothing. */
  lemma SetThenGetLive<V>(b: map<string, Record<V>>, key: string, value: V, ttl: Option<int>, t0: int, now: int)
    requires ttl.None? || ttl.value == 0 || now <= t0 + ttl.value || t0 + ttl.value == 0
    ensures Read(Put(b, key, value, ttl, t0), key, now) == Lookup(Some(value), Put(b, key, value, ttl, t0))
  {
  }

  /** A get after the (non-zero) expiry returns `null` and removes the key,
      leaving every other key as it was. */
  lemma SetThenGetExpired<V>(b: map<string, Record<V>>, key: string, value: V, ttl: int, t0: int, now: int)
    requires ttl != 0 && t0 + ttl != 0 && now > t0 + ttl
    ensures Read(Put(b, key, value, Some(ttl), t0), key, now).result == None
    ensures Read(Put(b, key, value, Some(ttl), t0), key, now).backend == Remove(b, key)
  {
    assert Remove(Put(b, key, value, Some(ttl), t0), key) == Remove(b, key);
  }

  /** Set without a TTL (or with TTL 0): every later get returns the value. */
  lemma NoTtlNeverExpires<V>(b: map<string, Record<V>>, key: string, value: V, ttl: Option<int>, t0: int, now: int)
    requires ttl.None? || ttl.value == 0
    ensures ExpiryFor(ttl, t0) == None
    ensures Read(Put(b, key, value, ttl, t0), key, now).result == Some(value)
  {
  }

  /** A get finds `null` for a missing key or an empty stored string, and
      leaves the backend as it was. */
  lemma MissingOrEmptyIsNull<V>(b: map<string, Record<V>>, key: string, now: int)
    requires key !in b || b[key] == Empty
    ensures Read(b, key, now) == Lookup(None, b)
  {
  }

  /** A malformed record reads as `null` and is not removed. */
  lemma MalformedIsKept<V>(b: map<string, Record<V>>, key: string, now: int)
    requires key in b && b[key] == Malformed
    ensures Read(b, key, now).result == None
    ensures Read(b, key, now).backend == b && key in Read(b, key, now).backend
  {
  }

  /** A get touches no key but its own, and can only remove that one. */
  lemma ReadChangesOnlyItsKey<V>(b: map<string, Record<V>>, key: string, now: int)
    ensures var b' := Read(b, key, now).backend;
      b' == b || (b' == Remove(b, key) && key in b && b[key].Entry? && Expired(b[key].expiry, now))
  {
  }

  /** Reading twice at the same time gives the same answer twice. */
  lemma ReadIsStable<V>(b: map<string, Record<V>>, key: string, now: int)
    ensures var first := Read(b, key, now);
      Read(first.backend, key, now) == first
  {
  }

  /** Once a record has expired it stays expired: a later get is `null` too. */
  lemma ExpiryIsPermanent<V>(b: map<string, Record<V>>, key: string, now: int, later: int)
    requires key in b && b[key].Entry? && Expired(b[key].expiry, now) && now <= later
    ensures Read(b, key, later).result == None
  {
  }

  /** `removeItem` on an absent key changes nothing. */
  lemma RemoveAbsentIsNoop<V>(b: map<string, Record<V>>, key: string)
    requires key !in b
    ensures Remove(b, key) == b
  {
  }
}
