/**
 * `CacheManager`: a string-keyed map of `(value, expiry)` with lazy expiry.
 * Times are milliseconds and are passed in as `now` in place of
 * `Date.now()`; a TTL is in seconds.  An entry is expired when `now` is
 * strictly greater than its expiry.
 */
module Cache {
  import opened Js
  import opened Collections

  datatype Entry<T> = Entry(value: JsValue<T>, expiry: int)

  /** The outcome of awaiting a supplier (or `getOrSet`): a value, or a thrown error. */
  datatype Attempt<T> = Returned(value: JsValue<T>) | Threw

  const DefaultTtl: int := 300

  function ExpiryFor(now: int, ttl: int): int
  {
    now + ttl * 1000
  }

  predicate Expired<T>(e: Entry<T>, now: int)
  {
    now > e.expiry
  }

  /** What `get(key)` returns: the value of a live entry, and `null` otherwise. */
  function Lookup<T>(m: map<string, Entry<T>>, key: string, now: int): (v: JsValue<T>)
    ensures key !in m || Expired(m[key], now) ==> v.Null?
    ensures key in m && !Expired(m[key], now) ==> v == m[key].value
  {
    if key in m && !Expired(m[key], now) then m[key].value else Null
  }

  /** The map after `get(key)` or `has(key)`: an expired entry for `key` is deleted. */
  function Evict<T>(m: map<string, Entry<T>>, key: string, now: int): (m': map<string, Entry<T>>)
    ensures key in m && Expired(m[key], now) ==> m' == m - {key}
    ensures key !in m || !Expired(m[key], now) ==> m' == m
  {
    if key in m && Expired(m[key], now) then m - {key} else m
  }

  /** The map after `set(key, value, ttl)` at `now`. */
  function Store<T>(m: map<string, Entry<T>>, key: string, value: JsValue<T>, ttl: int, now: int): (m': map<string, Entry<T>>)
    ensures key in m' && m'[key] == Entry(value, ExpiryFor(now, ttl))
    ensures forall k :: k != key ==> (k in m' <==> k in m) && (k in m ==> m'[k] == m[k])
  {
    m[key := Entry(value, ExpiryFor(now, ttl))]
  }

  datatype GetOrSetOutcome<T> = GetOrSetOutcome(result: Attempt<T>, entries: map<string, Entry<T>>, calledSupplier: bool)

  /**
   * `getOrSet(key, fn, ttl)` at `now`: a live non-null entry is returned as is;
   * otherwise `fn` is called once, and its value is stored and returned, or its
   * error propagates and nothing is stored.
   */
  function GetOrSetStep<T>(m: map<string, Entry<T>>, key: string, fn: Attempt<T>, ttl: int, now: int): (o: GetOrSetOutcome<T>)
  {
    var cached := Lookup(m, key, now);
    var m1 := Evict(m, key, now);
    if !cached.Null? then GetOrSetOutcome(Returned(cached), m1, false)
    else
      match fn
      case Threw => GetOrSetOutcome(Threw, m1, true)
      case Returned(v) => GetOrSetOutcome(Returned(v), Store(m1, key, v, ttl, now), true)
  }

  /** The entries `stats()` keeps: those that have not expired. */
  function Live<T>(m: map<string, Entry<T>>, now: int): (m': map<string, Entry<T>>)
    ensures forall k :: k in m' <==> k in m && !Expired(m[k], now)
    ensures forall k :: k in m' ==> m'[k] == m[k]
  {
    map k | k in m && !Expired(m[k], now) :: m[k]
  }

  class CacheManager<T> {
    var entries: map<string, Entry<T>>

    constructor ()
      ensures entries == map[]
    {
      entries := map[];
    }

    /** `set`: overwrites unconditionally; the expiry is `now + 1000 * ttl`. */
    method Set(key: string, value: JsValue<T>, ttl: int, now: int)
      modifies this
      ensures entries == Store(old(entries), key, value, ttl, now)
    {
      entries := entries[key := Entry(value, ExpiryFor(now, ttl))];
    }

    /** `get`: lazy expiry; a missing or expired key yields `null`. */
    method Get(key: string, now: int) returns (v: JsValue<T>)
      modifies this
      ensures v == Lookup(old(entries), key, now)
      ensures entries == Evict(old(entries), key, now)
    {
      if key !in entries {
        return Null;
      }
      var item := entries[key];
      if now > item.expiry {
        entries := entries - {key};
        return Null;
      }
      v := item.value;
    }

    /** `has`: the freshness test of `get`; true even when the stored value is `null`. */
    method Has(key: string, now: int) returns (present: bool)
      modifies this
      ensures present <==> key in old(entries) && !Expired(old(entries)[key], now)
      ensures entries == Evict(old(entries), key, now)
    {
      if key !in entries {
        return false;
      }
      if now > entries[key].expiry {
        entries := entries - {key};
        return false;
      }
      present := true;
    }

    /** `delete`: reports whether the key was there, expired or not. */
    method Delete(key: string) returns (existed: bool)
      modifies this
      ensures existed <==> key in old(entries)
      ensures entries == old(entries) - {key}
    {
      existed := key in entries;
      entries := entries - {key};
    }

    method Clear()
      modifies this
      ensures entries == map[]
    {
      entries := map[];
    }

    /**
     * `getOrSet`.  `fn` is what the supplier would do if called; `called`
     * tells whether it was.
     */
    method GetOrSet(key: string, fn: Attempt<T>, ttl: int, now: int) returns (r: Attempt<T>, called: bool)
      modifies this
      ensures GetOrSetOutcome(r, entries, called) == GetOrSetStep(old(entries), key, fn, ttl, now)
    {
      var cached := Get(key, now);
      if !cached.Null? {
        return Returned(cached), false;
      }
      called := true;
      match fn
      case Threw =>
        r := Threw;
      case Returned(v) =>
        Set(key, v, ttl, now);
        r := Returned(v);
    }

    /**
     * `stats`: sweeps out every expired entry, then reports the size and the
     * keys.  The sweep and the collection of the remaining keys share one pass.
     */
    method Stats(now: int) returns (size: nat, keys: seq<string>)
      modifies this
      ensures entries == Live(old(entries), now)
      ensures size == |entries| && |keys| == size
      ensures Distinct(keys)
      ensures forall k :: k in keys <==> k in entries
    {
      ghost var start := entries;
      var pending := entries.Keys;
      keys := [];
      while pending != {}
        invariant pending <= start.Keys
        invariant forall k :: k in entries <==> k in start && (k in pending || !Expired(start[k], now))
        invariant forall k :: k in entries ==> entries[k] == start[k]
        invariant forall k :: k in keys <==> k in start && k !in pending && !Expired(start[k], now)
        invariant Distinct(keys)
        decreases pending
      {
        var k :| k in pending;
        if now > entries[k].expiry {
          entries := entries - {k};
        } else {
          keys := keys + [k];
        }
        pending := pending - {k};
      }
      size := |entries|;
      DistinctKeysCount(keys, entries);
    }
  }

  /** A stored value is returned by `get` until the expiry, and is gone after it. */
  lemma SetThenGet<T>(m: map<string, Entry<T>>, key: string, v: JsValue<T>, ttl: int, t: int, t': int)
    ensures var m' := Store(m, key, v, ttl, t);
            && (t' <= t + 1000 * ttl ==> Lookup(m', key, t') == v && Evict(m', key, t') == m')
            && (t' > t + 1000 * ttl ==> Lookup(m', key, t').Null? && Evict(m', key, t') == m' - {key})
  {
  }

  /** `get` and `has` agree on freshness, and each can remove at most `key`. */
  lemma GetAndHasAgree<T>(m: map<string, Entry<T>>, key: string, now: int)
    ensures !Lookup(m, key, now).Null? ==> key in m && !Expired(m[key], now)
    ensures forall k :: k != key ==> (k in Evict(m, key, now) <==> k in m)
    ensures Evict(m, key, now).Keys <= m.Keys
  {
  }

  /** A live non-null hit returns the cached value, calls nothing and changes nothing. */
  lemma GetOrSetHit<T>(m: map<string, Entry<T>>, key: string, fn: Attempt<T>, ttl: int, now: int)
    requires key in m && !Expired(m[key], now) && !m[key].value.Null?
    ensures GetOrSetStep(m, key, fn, ttl, now) == GetOrSetOutcome(Returned(m[key].value), m, false)
  {
  }

  /** On a miss the supplier is called; its value is stored with expiry `now + 1000 * ttl` and returned. */
  lemma GetOrSetMissStores<T>(m: map<string, Entry<T>>, key: string, v: JsValue<T>, ttl: int, now: int)
    requires Lookup(m, key, now).Null?
    ensures var o := GetOrSetStep(m, key, Returned(v), ttl, now);
            && o.calledSupplier && o.result == Returned(v)
            && o.entries == Evict(m, key, now)[key := Entry(v, ExpiryFor(now, ttl))]
  {
  }

  /**
   * A failing supplier leaves nothing behind (beyond the eviction of an
   * expired entry), so the next call at the same or a later time calls the
   * supplier again.
   */
  lemma FailedSupplierIsRetried<T>(m: map<string, Entry<T>>, key: string, ttl: int, now: int,
                                   fn2: Attempt<T>, ttl2: int, now2: int)
    requires Lookup(m, key, now).Null?
    requires now2 >= now
    ensures var o := GetOrSetStep(m, key, Threw, ttl, now);
            && o.calledSupplier && o.result == Threw && o.entries == Evict(m, key, now)
            && GetOrSetStep(o.entries, key, fn2, ttl2, now2).calledSupplier
  {
    var m1 := Evict(m, key, now);
    if key in m1 {
      assert !Expired(m[key], now);
      assert m1[key].value.Null?;
    }
  }

  /** A live entry holding `null` is a miss for `getOrSet`: the supplier runs again. */
  lemma StoredNullIsAMiss<T>(m: map<string, Entry<T>>, key: string, fn: Attempt<T>, ttl: int, now: int)
    requires key in m && !Expired(m[key], now) && m[key].value.Null?
    ensures GetOrSetStep(m, key, fn, ttl, now).calledSupplier
  {
  }

  /** `getOrSet` on `key` changes no other key. */
  lemma GetOrSetIsLocal<T>(m: map<string, Entry<T>>, key: string, fn: Attempt<T>, ttl: int, now: int)
    ensures var m' := GetOrSetStep(m, key, fn, ttl, now).entries;
            forall k :: k != key ==> (k in m' <==> k in m) && (k in m' ==> m'[k] == m[k])
  {
  }
}
