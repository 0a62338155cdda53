/** The key-value store: a durable `local` area and a volatile `session` area; every session
    operation falls back to the local area when the platform has no session area. Entries
    written with a time-to-live carry an `expiresAt` stamp and are dropped when read late. */
module Storage {
  import opened Wrappers
  import opened Json
  import opened Model

  /** What an area's `get(key)` resolves with: `{key: value}` when present, `{}` otherwise. */
  function Pick(area: map<Key, Value>, key: Key): (items: map<Key, Value>)
    ensures items.Keys <= {key}
    ensures key in items <==> key in area
    ensures key in items ==> items[key] == area[key]
  {
    if key in area then map[key := area[key]] else map[]
  }

  /** The stored form of `{ value, expiresAt }`. */
  function TtlRecord(value: Js, expiresAt: int): Value {
    Json(Obj(map["value" := value, "expiresAt" := Num(expiresAt)]))
  }

  /** The `expiresAt` that `setWithTTL` computes: `0` (never expires) for a zero time-to-live. */
  function ExpiresAt(ttlMs: int, now: int): (e: int)
    ensures ttlMs == 0 ==> e == 0
    ensures ttlMs != 0 ==> e == now + ttlMs
  {
    if ttlMs != 0 then now + ttlMs else 0
  }

  /** Property read `entry[k]` on a stored value; only plain objects have the TTL properties. */
  function Prop(entry: Value, k: string): Js {
    if entry.Json? && entry.v.Obj? then Field(entry.v.fields, k) else Undefined
  }

  /** `entry.expiresAt && entry.expiresAt < now`: a non-zero numeric stamp that lies in the past. */
  predicate IsExpired(entry: Value, now: int) {
    var e := Prop(entry, "expiresAt");
    Truthy(e) && e.Num? && e.n < now
  }

  /** The three outcomes of reading a TTL entry. */
  datatype TtlOutcome = Missing | Expired | Live(value: Js)

  /** What `getWithTTL(key)` finds at time `now` in the local area. */
  function TtlLookup(area: map<Key, Value>, key: Key, now: int): (o: TtlOutcome)
    ensures key !in area ==> o == Missing
    ensures o.Expired? ==> key in area && area[key].Json? && area[key].v.Obj?
  {
    if key !in area || !ValueTruthy(area[key]) then Missing
    else if IsExpired(area[key], now) then Expired
    else Live(Prop(area[key], "value"))
  }

  /** A value written with `setWithTTL(key, v, ttlMs)` at time `t0` reads back as `v` at time `t1`
      unless its stamp is non-zero and earlier than `t1`; a zero time-to-live never expires. */
  lemma TtlRoundTrip(area: map<Key, Value>, key: Key, v: Js, ttlMs: int, t0: int, t1: int)
    ensures var e := ExpiresAt(ttlMs, t0);
            TtlLookup(area[key := TtlRecord(v, e)], key, t1)
              == if e != 0 && e < t1 then Expired else Live(v)
    ensures ttlMs == 0 ==> TtlLookup(area[key := TtlRecord(v, ExpiresAt(ttlMs, t0))], key, t1) == Live(v)
    ensures ttlMs > 0 && t0 >= 0 ==>
              (TtlLookup(area[key := TtlRecord(v, ExpiresAt(ttlMs, t0))], key, t1).Expired? <==> t0 + ttlMs < t1)
  {
  }

  /** The storage areas of one context. */
  class Store {
    var local: map<Key, Value>
    var session: map<Key, Value>
    /** `!!(chrome.storage && chrome.storage.session)`, fixed when the module loads. */
    const hasSession: bool

    constructor (hasSession: bool, local: map<Key, Value>, session: map<Key, Value>)
      ensures this.hasSession == hasSession && this.local == local && this.session == session
    {
      this.hasSession := hasSession;
      this.local := local;
      this.session := session;
    }

    /** The area the session operations act on. */
    function SessionArea(): map<Key, Value>
      reads this
    {
      if hasSession then session else local
    }

    /** `get(key)`: an absent key yields the empty result, not an error. */
    method Get(key: Key) returns (items: map<Key, Value>)
      ensures key in local ==> items == map[key := local[key]]
      ensures key !in local ==> items == map[]
    {
      items := Pick(local, key);
    }

    /** `set(items)`: the given keys take the given values; no other key changes. */
    method Set(items: map<Key, Value>)
      modifies this
      ensures local == old(local) + items
      ensures session == old(session)
    {
      local := local + items;
    }

    /** `remove(key)`. */
    method Remove(key: Key)
      modifies this
      ensures local == old(local) - {key}
      ensures session == old(session)
    {
      local := local - {key};
    }

    /** `getSession(key)`: the local `get` when there is no session area. */
    method GetSession(key: Key) returns (items: map<Key, Value>)
      ensures !hasSession ==> items == Pick(local, key)
      ensures hasSession ==> items == Pick(session, key)
    {
      if !hasSession {
        items := Get(key);
        return;
      }
      items := Pick(session, key);
    }

    /** `setSession(items)`: the local `set` when there is no session area. */
    method SetSession(items: map<Key, Value>)
      modifies this
      ensures !hasSession ==> local == old(local) + items && session == old(session)
      ensures hasSession ==> session == old(session) + items && local == old(local)
      ensures SessionArea() == old(SessionArea()) + items
    {
      if !hasSession {
        Set(items);
        return;
      }
      session := session + items;
    }

    /** `removeSession(key)`: the local `remove` when there is no session area. */
    method RemoveSession(key: Key)
      modifies this
      ensures !hasSession ==> local == old(local) - {key} && session == old(session)
      ensures hasSession ==> session == old(session) - {key} && local == old(local)
    {
      if !hasSession {
        Remove(key);
        return;
      }
      session := session - {key};
    }

    /** `setWithTTL(key, value, ttlMs)` at time `now`. */
    method SetWithTtl(key: Key, value: Js, ttlMs: int, now: int)
      modifies this
      ensures local == old(local)[key := TtlRecord(value, ExpiresAt(ttlMs, now))]
      ensures session == old(session)
    {
      var expiresAt := if ttlMs != 0 then now + ttlMs else 0;
      Set(map[key := TtlRecord(value, expiresAt)]);
    }

    /** `getWithTTL(key)` at time `now`: `null` for a missing or expired entry, and an expired
        entry is removed; otherwise the stored value, leaving the store unchanged. */
    method GetWithTtl(key: Key, now: int) returns (r: Js)
      modifies this
      ensures session == old(session)
      ensures TtlLookup(old(local), key, now) == Missing ==> r == Null && local == old(local)
      ensures TtlLookup(old(local), key, now) == Expired ==> r == Null && local == old(local) - {key}
      ensures TtlLookup(old(local), key, now).Live? ==>
                r == TtlLookup(old(local), key, now).value && local == old(local)
    {
      var data := Get(key);
      if key !in data || !ValueTruthy(data[key]) {
        return Null;
      }
      var entry := data[key];
      var expiresAt := Prop(entry, "expiresAt");
      if Truthy(expiresAt) && expiresAt.Num? && expiresAt.n < now {
        Remove(key);
        return Null;
      }
      r := Prop(entry, "value");
    }
  }
}
