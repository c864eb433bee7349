/**
 * The session coordinator's in-memory store (`$_SESSION`): the session's
 * values, the `_flash` keys that expire after the next start, the `_temp`
 * keys with an absolute expiry time, and the `_time` stamp of the last start.
 *
 * The store operations are specified as functions on a `Store` value; the
 * `Session` class holds the same state in fields and its methods are proved
 * to follow those functions.
 */
module SessionStore {
  import opened Wrappers

  /** Raised by `start` on a session that is already active. */
  datatype SessionError = SessionStarted

  /** The user-visible part of `$_SESSION` with its two bookkeeping maps. */
  datatype Store<V> = Store(data: map<string, V>, flash: set<string>, temp: map<string, int>)

  function EmptyStore<V>(): Store<V> {
    Store(map[], {}, map[])
  }

  /** Every key the bookkeeping names is a key of the session. */
  predicate Consistent<V>(s: Store<V>) {
    s.flash <= s.data.Keys && s.temp.Keys <= s.data.Keys
  }

  /** `s` and `r` hold the same value, flash mark and expiry for `key`. */
  ghost predicate AgreeAt<V>(s: Store<V>, r: Store<V>, key: string) {
    && (key in s.data <==> key in r.data)
    && (key in s.data ==> s.data[key] == r.data[key])
    && (key in s.flash <==> key in r.flash)
    && (key in s.temp <==> key in r.temp)
    && (key in s.temp ==> s.temp[key] == r.temp[key])
  }

  /** `key` is gone from the values and from both bookkeeping maps. */
  ghost predicate Gone<V>(r: Store<V>, key: string) {
    key !in r.data && key !in r.flash && key !in r.temp
  }

  /** Removes a set of keys from the values and both bookkeeping maps. */
  function RemoveAll<V>(s: Store<V>, keys: set<string>): (r: Store<V>)
    ensures forall k :: k in keys ==> Gone(r, k)
    ensures forall k :: k !in keys ==> AgreeAt(s, r, k)
    ensures Consistent(s) ==> Consistent(r)
  {
    Store(s.data - keys, s.flash - keys, s.temp - keys)
  }

  /** Deleting one more key after a set of keys is deleting the larger set. */
  lemma RemoveAfterRemoveAll<V>(s: Store<V>, keys: set<string>, key: string)
    ensures Remove(RemoveAll(s, keys), key) == RemoveAll(s, keys + {key})
  {
    assert (s.data - keys) - {key} == s.data - (keys + {key});
    assert (s.temp - keys) - {key} == s.temp - (keys + {key});
  }

  /** `delete($key)`. */
  function Remove<V>(s: Store<V>, key: string): (r: Store<V>)
    ensures Gone(r, key)
    ensures forall k :: k != key ==> AgreeAt(s, r, k)
    ensures Consistent(s) ==> Consistent(r)
  {
    RemoveAll(s, {key})
  }

  /** `set($key, $value)`: the value is stored and any flash or temp mark is dropped. */
  function Put<V>(s: Store<V>, key: string, value: V): (r: Store<V>)
    ensures key in r.data && r.data[key] == value
    ensures key !in r.flash && key !in r.temp
    ensures forall k :: k != key ==> AgreeAt(s, r, k)
    ensures Consistent(s) ==> Consistent(r)
  {
    Store(s.data[key := value], s.flash - {key}, s.temp - {key})
  }

  /** `setFlash($key, $value)`. */
  function PutFlash<V>(s: Store<V>, key: string, value: V): (r: Store<V>)
    ensures key in r.data && r.data[key] == value
    ensures key in r.flash && key !in r.temp
    ensures forall k :: k != key ==> AgreeAt(s, r, k)
    ensures Consistent(s) ==> Consistent(r)
  {
    var t := Put(s, key, value);
    Store(t.data, t.flash + {key}, t.temp)
  }

  /** `setTemp($key, $value, ...)` with the absolute expiry time already computed. */
  function PutTemp<V>(s: Store<V>, key: string, value: V, expiry: int): (r: Store<V>)
    ensures key in r.data && r.data[key] == value
    ensures key !in r.flash && key in r.temp && r.temp[key] == expiry
    ensures forall k :: k != key ==> AgreeAt(s, r, k)
    ensures Consistent(s) ==> Consistent(r)
  {
    var t := Put(s, key, value);
    Store(t.data, t.flash, t.temp[key := expiry])
  }

  /** The `_temp` keys whose expiry time has been reached at `now`. */
  function ExpiredKeys(temp: map<string, int>, now: int): (keys: set<string>)
    ensures forall k :: k in keys <==> k in temp && temp[k] <= now
  {
    set k | k in temp && temp[k] <= now
  }

  /** `clearTempData()` at time `now`. */
  function ClearTemp<V>(s: Store<V>, now: int): (r: Store<V>)
    ensures forall k :: k in s.temp && s.temp[k] <= now ==> Gone(r, k)
    ensures forall k :: !(k in s.temp && s.temp[k] <= now) ==> AgreeAt(s, r, k)
    ensures forall k :: k in r.temp ==> r.temp[k] > now
    ensures Consistent(s) ==> Consistent(r)
  {
    RemoveAll(s, ExpiredKeys(s.temp, now))
  }

  /** An already-elapsed expiry (0) for each of `keys`. */
  function ZeroExpiry(keys: set<string>): (m: map<string, int>)
    ensures m.Keys == keys
    ensures forall k :: k in m ==> m[k] == 0
  {
    map k | k in keys :: 0
  }

  /** Giving one more key expiry 0 extends the zero-expiry map by that key. */
  lemma ZeroExpiryStep(temp: map<string, int>, keys: set<string>, key: string)
    ensures (temp + ZeroExpiry(keys))[key := 0] == temp + ZeroExpiry(keys + {key})
  {
    assert ZeroExpiry(keys + {key}) == ZeroExpiry(keys)[key := 0];
  }

  /** `rotateFlashData()`: every flash key moves to `_temp` with expiry 0. */
  function RotateFlash<V>(s: Store<V>): (r: Store<V>)
    ensures r.data == s.data && r.flash == {}
    ensures forall k :: k in s.flash ==> k in r.temp && r.temp[k] == 0
    ensures forall k :: k !in s.flash ==> (k in r.temp <==> k in s.temp)
    ensures forall k :: k !in s.flash && k in s.temp ==> r.temp[k] == s.temp[k]
    ensures Consistent(s) ==> Consistent(r)
  {
    Store(s.data, {}, s.temp + ZeroExpiry(s.flash))
  }

  /** What `start()` does to the store it loaded: sweep temp values, then rotate flash values. */
  function Refresh<V>(s: Store<V>, now: int): (r: Store<V>)
    ensures r.flash == {}
    ensures r.data.Keys <= s.data.Keys
    ensures forall k :: k in r.data ==> r.data[k] == s.data[k]
  {
    RotateFlash(ClearTemp(s, now))
  }

  /** A stored `_time` older than the expiry window. */
  predicate Stale(time: Option<int>, now: int, expires: int) {
    time.Some? && now - time.value > expires
  }

  // -----------------------------------------------------------------------
  // Properties of the store operations
  // -----------------------------------------------------------------------

  /**
   * A flash value survives the next start (still readable, now marked to
   * expire) and is gone after the start after that.
   */
  lemma FlashLastsOneStart<V>(s: Store<V>, key: string, value: V, first: int, second: int)
    requires second >= 0
    ensures var once := Refresh(PutFlash(s, key, value), first);
      && key in once.data && once.data[key] == value
      && key !in once.flash && key in once.temp && once.temp[key] == 0
      && key !in Refresh(once, second).data
  {
    var s1 := PutFlash(s, key, value);
    var swept := ClearTemp(s1, first);
    assert AgreeAt(s1, swept, key);
    var once := RotateFlash(swept);
    var swept2 := ClearTemp(once, second);
    assert Gone(swept2, key);
  }

  /** Rotating and then sweeping (at any time from 0 on) removes a flash value. */
  lemma FlashGoneAfterRotateThenSweep<V>(s: Store<V>, key: string, value: V, now: int)
    requires now >= 0
    ensures key !in ClearTemp(RotateFlash(PutFlash(s, key, value)), now).data
  {
    var rotated := RotateFlash(PutFlash(s, key, value));
    assert key in rotated.temp && rotated.temp[key] <= now;
  }

  /** A temp value survives every sweep before its expiry time and no sweep from then on. */
  lemma TempExpiresAt<V>(s: Store<V>, key: string, value: V, now: int, ttl: int, at: int)
    ensures key in ClearTemp(PutTemp(s, key, value, now + ttl), at).data <==> at < now + ttl
  {
    var s1 := PutTemp(s, key, value, now + ttl);
    if at < now + ttl {
      assert AgreeAt(s1, ClearTemp(s1, at), key);
    }
  }

  /** A start on a store stamped with a stale `_time` leaves an empty store. */
  lemma RefreshEmpty<V>(now: int)
    ensures Refresh(EmptyStore<V>(), now) == EmptyStore<V>()
  {
    var swept := ClearTemp(EmptyStore<V>(), now);
    assert swept.data == map[] && swept.flash == {} && swept.temp == map[];
  }

  /**
   * After a start no flash mark is left, and every temp entry either
   * expires in the future or is a flash value rotated by this start.
   */
  lemma RefreshLeavesOnlyLiveOrRotated<V>(s: Store<V>, now: int)
    ensures var r := Refresh(s, now);
      && r.flash == {}
      && forall k :: k in r.temp ==> r.temp[k] > now || (k in s.flash && r.temp[k] == 0)
  {
    var swept := ClearTemp(s, now);
    forall k | k in Refresh(s, now).temp
      ensures Refresh(s, now).temp[k] > now || (k in s.flash && Refresh(s, now).temp[k] == 0)
    {
      if k in swept.flash {
        assert AgreeAt(s, swept, k);
      }
    }
  }

  // -----------------------------------------------------------------------
  // The session object
  // -----------------------------------------------------------------------

  /**
   * The session coordinator: `$_SESSION` split into its values and its
   * reserved `_flash`, `_temp` and `_time` entries, whether a session is
   * active, and the configured expiry window in seconds.
   */
  class Session<V> {
    var data: map<string, V>
    var flash: set<string>
    var temp: map<string, int>
    var time: Option<int>
    var active: bool
    const expires: int

    ghost function Contents(): Store<V>
      reads this
    {
      Store(data, flash, temp)
    }

    constructor (expires: int)
      ensures Contents() == EmptyStore() && time.None? && !active
      ensures this.expires == expires
    {
      data, flash, temp, time := map[], {}, map[], None;
      active := false;
      this.expires := expires;
    }

    /** `get($key)`: the stored value, or `null` (None) for a key that is not set. */
    function Get(key: string): (r: Option<V>)
      reads this
      ensures r.Some? <==> key in data
      ensures r.Some? ==> r.value == data[key]
    {
      if key in data then Some(data[key]) else None
    }

    /** `has($key)`. */
    function Has(key: string): (b: bool)
      reads this
      ensures b <==> Get(key).Some?
    {
      key in data
    }

    /** `clear()`: `$_SESSION` becomes empty, bookkeeping included. */
    method Clear()
      modifies this
      ensures Contents() == EmptyStore() && time.None?
      ensures active == old(active)
    {
      data, flash, temp, time := map[], {}, map[], None;
    }

    /** `set($key, $value)`. */
    method Set(key: string, value: V)
      modifies this
      ensures Contents() == Put(old(Contents()), key, value)
      ensures Get(key) == Some(value)
      ensures time == old(time) && active == old(active)
    {
      flash := flash - {key};
      temp := temp - {key};
      data := data[key := value];
    }

    /** `delete($key)`. */
    method Delete(key: string)
      modifies this
      ensures Contents() == Remove(old(Contents()), key)
      ensures !Has(key)
      ensures time == old(time) && active == old(active)
    {
      data := data - {key};
      flash := flash - {key};
      temp := temp - {key};
    }

    /** `consume($key)`: the value `get` returned, after which the key is deleted. */
    method Consume(key: string) returns (value: Option<V>)
      modifies this
      ensures value == old(Get(key))
      ensures Contents() == Remove(old(Contents()), key)
      ensures !Has(key)
      ensures time == old(time) && active == old(active)
    {
      value := Get(key);
      Delete(key);
    }

    /** `destroy()`: `session_destroy()` ends the session, then the store is cleared. */
    method Destroy()
      modifies this
      ensures Contents() == EmptyStore() && time.None? && !active
    {
      active := false;
      Clear();
    }

    /** `setFlash($key, $value)`. */
    method SetFlash(key: string, value: V)
      modifies this
      ensures Contents() == PutFlash(old(Contents()), key, value)
      ensures time == old(time) && active == old(active)
    {
      Set(key, value);
      flash := flash + {key};
    }

    /** `setTemp($key, $value, $expire)` called at time `now`. */
    method SetTemp(key: string, value: V, now: int, expire: int := 300)
      modifies this
      ensures Contents() == PutTemp(old(Contents()), key, value, now + expire)
      ensures time == old(time) && active == old(active)
    {
      Set(key, value);
      temp := temp[key := now + expire];
    }

    /**
     * `clearTempData()`: walks a copy of `_temp` and deletes every key whose
     * expiry time is not after `now`.
     */
    method ClearTempData(now: int)
      modifies this
      ensures Contents() == ClearTemp(old(Contents()), now)
      ensures time == old(time) && active == old(active)
    {
      var snapshot := temp;
      var pending := snapshot.Keys;
      var expired := ExpiredKeys(snapshot, now);
      while pending != {}
        invariant pending <= snapshot.Keys
        invariant Contents() == RemoveAll(old(Contents()), expired - pending)
        invariant time == old(time) && active == old(active)
        decreases pending
      {
        var key :| key in pending;
        if snapshot[key] <= now {
          RemoveAfterRemoveAll(old(Contents()), expired - pending, key);
          Delete(key);
          assert (expired - pending) + {key} == expired - (pending - {key});
        } else {
          assert expired - pending == expired - (pending - {key});
        }
        pending := pending - {key};
      }
    }

    /** `rotateFlashData()`: each flash key gets expiry 0 in `_temp`, then `_flash` is emptied. */
    method RotateFlashData()
      modifies this
      ensures Contents() == RotateFlash(old(Contents()))
      ensures time == old(time) && active == old(active)
    {
      var pending := flash;
      while pending != {}
        invariant pending <= old(flash)
        invariant data == old(data) && flash == old(flash)
        invariant temp == old(temp) + ZeroExpiry(old(flash) - pending)
        invariant time == old(time) && active == old(active)
        decreases pending
      {
        var key :| key in pending;
        ZeroExpiryStep(old(temp), old(flash) - pending, key);
        temp := temp[key := 0];
        assert (old(flash) - pending) + {key} == old(flash) - (pending - {key});
        pending := pending - {key};
      }
      flash := {};
    }

    /**
     * `start()` at time `now`, where `session_start()` loads `loaded` and
     * `loadedTime` (the stored `_time`). A stale session is destroyed and
     * started again; the handler has then destroyed its record, so the
     * second `session_start()` loads nothing.
     */
    method Start(now: int, loaded: Store<V>, loadedTime: Option<int>) returns (err: Option<SessionError>)
      modifies this
      ensures old(active) ==> err == Some(SessionStarted)
      ensures old(active) ==> Contents() == old(Contents()) && time == old(time) && active
      ensures !old(active) ==> err.None? && active && time == Some(now)
      ensures !old(active) && Stale(loadedTime, now, expires) ==> Contents() == EmptyStore()
      ensures !old(active) && !Stale(loadedTime, now, expires) ==> Contents() == Refresh(loaded, now)
      decreases if loadedTime.Some? then 1 else 0
    {
      if active {
        return Some(SessionStarted);
      }
      // session_start()
      active := true;
      data, flash, temp, time := loaded.data, loaded.flash, loaded.temp, loadedTime;

      if time.Some? && now - time.value > expires {
        Destroy();
        err := Start(now, EmptyStore(), None);
        RefreshEmpty<V>(now);
        return;
      }

      time := Some(now);
      ClearTempData(now);
      RotateFlashData();
      err := None;
    }
  }

  /** The `testConsume` scenario: a value set and then consumed is returned once and gone. */
  method SetThenConsume<V>(session: Session<V>, key: string, value: V) returns (got: Option<V>)
    modifies session
    ensures got == Some(value) && !session.Has(key)
  {
    session.Set(key, value);
    got := session.Consume(key);
  }
}
