/**
 * The Memcached backend: session data under the session's key with the
 * configured `expires` as expiration time, and a sibling `<key>:lock` item
 * holding `'1'` for 300 seconds that emulates a lock through a bounded
 * polling loop.
 */
module MemcachedHandler {
  import opened Wrappers
  import opened HandlerBase
  import opened ExpiringStore

  /** Memcached reads an expiration time above thirty days as an absolute Unix time. */
  const RelativeLimit: int := 60 * 60 * 24 * 30

  /**
   * The expiry a `set` with expiration time `exptime` gives at time `now`:
   * none for 0, `now + exptime` up to thirty days, `exptime` itself beyond,
   * and an item already expired for a negative value.
   */
  function ExpiryFor(exptime: int, now: int): Option<int> {
    if exptime == 0 then None
    else if exptime < 0 then Some(now)
    else if exptime <= RelativeLimit then Some(now + exptime)
    else Some(exptime)
  }

  /** An item set with a relative expiration time is visible for exactly that many seconds. */
  lemma RelativeExpiration(value: string, exptime: int, now: int, at: int)
    requires 0 < exptime <= RelativeLimit
    ensures LiveAt(Entry(value, ExpiryFor(exptime, now)), at) <==> at < now + exptime
  {
  }

  /** An item set with expiration time 0 never expires; one set with a negative time is never visible. */
  lemma SpecialExpirations(value: string, now: int, at: int)
    requires at >= now
    ensures LiveAt(Entry(value, ExpiryFor(0, now)), at)
    ensures forall exptime :: exptime < 0 ==> !LiveAt(Entry(value, ExpiryFor(exptime, now)), at)
  {
  }

  /** `getLock`'s test on the lock key: `get` returns a truthy value. */
  predicate LockedAt(entries: map<string, Entry>, lockKey: string, at: int) {
    Lookup(entries, lockKey, at).Some? && Truthy(Lookup(entries, lockKey, at).value)
  }

  /** A lock key that is held at some time was held at every earlier time. */
  lemma LockedEarlier(entries: map<string, Entry>, lockKey: string, earlier: int, later: int)
    requires earlier <= later && LockedAt(entries, lockKey, later)
    ensures LockedAt(entries, lockKey, earlier)
  {
  }

  /**
   * What `getLock` does to a server that holds `before` at time `start`:
   * the lock is taken exactly when it is free within 30 seconds, at the
   * first second it is, and set to `'1'` for 300 seconds; otherwise 31
   * seconds pass and nothing changes.
   */
  ghost predicate Polled(before: map<string, Entry>, start: int, lockKey: string,
                         ok: bool, after: map<string, Entry>, end: int)
  {
    && ok == !LockedAt(before, lockKey, start + 30)
    && (ok ==>
          && start <= end <= start + 30
          && !LockedAt(before, lockKey, end)
          && (forall t :: start <= t < end ==> LockedAt(before, lockKey, t))
          && after == before[lockKey := Entry("1", Some(end + 300))])
    && (!ok ==> end == start + 31 && after == before)
  }

  /**
   * What `checkSession(id)` does to the held ID and the server: nothing for
   * the held ID; otherwise the release of a truthy held ID (its lock item
   * must still be there), then the polling for `id`'s lock.
   */
  ghost predicate Checked(prefix: string, held: Option<string>, id: string,
                          before: map<string, Entry>, start: int,
                          ok: bool, heldAfter: Option<string>, after: map<string, Entry>, end: int)
  {
    && CheckSessionOutcome(held, id, ok, heldAfter)
    && (!ok ==> heldAfter != Some(id))
    && (held == Some(id) ==> after == before && end == start)
    && (held != Some(id) && !Holds(held) ==>
          && Polled(before, start, LockKey(prefix, id), ok, after, end)
          && (!ok ==> heldAfter == held))
    && (held != Some(id) && Holds(held) ==>
          var heldKey := LockKey(prefix, held.value);
          && (Lookup(before, heldKey, start).None? ==>
                !ok && heldAfter == held && after == before && end == start)
          && (Lookup(before, heldKey, start).Some? ==>
                && Polled(before - {heldKey}, start, LockKey(prefix, id), ok, after, end)
                && (!ok ==> heldAfter.None?)))
  }

  /** The Memcached server: its items and its clock, in seconds. */
  class MemcachedServer {
    var entries: map<string, Entry>
    var clock: int

    constructor (entries: map<string, Entry>, clock: int)
      ensures this.entries == entries && this.clock == clock
    {
      this.entries := entries;
      this.clock := clock;
    }

    /** `get($key)`; `None` is the `RES_NOTFOUND` result code. */
    function Get(key: string): Option<string>
      reads this
    {
      Lookup(entries, key, clock)
    }

    /** `set($key, $value, $exptime)`. */
    method Set(key: string, value: string, exptime: int) returns (ok: bool)
      modifies this
      ensures ok && clock == old(clock)
      ensures entries == old(entries)[key := Entry(value, ExpiryFor(exptime, clock))]
    {
      entries := entries[key := Entry(value, ExpiryFor(exptime, clock))];
      ok := true;
    }

    /** `delete($key)`: fails with `RES_NOTFOUND` when there is no such item. */
    method Delete(key: string) returns (ok: bool)
      modifies this
      ensures ok == old(Get(key)).Some? && clock == old(clock)
      ensures entries == if ok then old(entries) - {key} else old(entries)
    {
      if Get(key).None? {
        return false;
      }
      entries := entries - {key};
      ok := true;
    }

    /** `sleep(1)` in the polling client: one second passes. */
    method Sleep()
      modifies this
      ensures entries == old(entries) && clock == old(clock) + 1
    {
      clock := clock + 1;
    }
  }

  /** The Memcached handler's own defaults. */
  const MemcachedDefaults: Options := map[
    "host" := Text("127.0.0.1"),
    "port" := Number(11211),
    "weight" := Number(1),
    "prefix" := Text("session:")
  ]

  /** Without options, sessions live under `session:<id>` for 3600 seconds. */
  lemma MemcachedDefaultSettings()
    ensures var config := MergeConfig(MemcachedDefaults, map[]);
      && "prefix" in config && config["prefix"] == Text("session:")
      && "expires" in config && config["expires"] == Number(3600)
  {
    assert "prefix" in MemcachedDefaults && MemcachedDefaults["prefix"] == Text("session:");
    assert "expires" !in MemcachedDefaults;
    var inherited := ReplaceRecursive(BaseDefaults, MemcachedDefaults);
    assert inherited["prefix"] == Text("session:") && inherited["expires"] == Number(3600);
  }

  class MemcachedSessionHandler {
    const prefix: string
    const expires: int
    const server: MemcachedServer
    var sessionId: Option<string>
    /** The connection is open; `close` quits it once the lock is released. */
    var connected: bool

    constructor (options: Options, server: MemcachedServer)
      requires Typed(options)
      ensures prefix == PrefixOf(MergeConfig(MemcachedDefaults, options))
      ensures expires == ExpiresOf(MergeConfig(MemcachedDefaults, options))
      ensures this.server == server && sessionId.None? && connected
    {
      var config := MergeConfig(MemcachedDefaults, options);
      prefix := PrefixOf(config);
      expires := ExpiresOf(config);
      this.server := server;
      sessionId := None;
      connected := true;
    }

    /**
     * `getLock($id)`: polls the lock key once a second, for at most 31
     * attempts, and sets it to `'1'` for 300 seconds as soon as `get`
     * returns nothing truthy.
     */
    method GetLock(id: string) returns (ok: bool)
      modifies this, server
      ensures Polled(old(server.entries), old(server.clock), LockKey(prefix, id), ok, server.entries, server.clock)
      ensures sessionId == if ok then Some(id) else old(sessionId)
      ensures connected == old(connected)
    {
      var lockKey := LockKey(prefix, id);
      ghost var start := server.clock;
      ghost var before := server.entries;
      var attempt := 0;
      while true
        invariant 0 <= attempt <= 30
        invariant server.entries == before && server.clock == start + attempt
        invariant sessionId == old(sessionId) && connected == old(connected)
        invariant forall t :: start <= t < server.clock ==> LockedAt(before, lockKey, t)
        decreases 30 - attempt
      {
        var current := server.Get(lockKey);
        if current.Some? && Truthy(current.value) {
          server.Sleep();
        } else {
          var stored := server.Set(lockKey, "1", 300);
          if stored {
            if LockedAt(before, lockKey, start + 30) {
              LockedEarlier(before, lockKey, start + attempt, start + 30);
              assert false;
            }
            sessionId := Some(id);
            return true;
          }
        }
        // `$attempt++ < 30`
        if !(attempt < 30) {
          break;
        }
        attempt := attempt + 1;
      }
      assert LockedAt(before, lockKey, start + 30);
      ok := false;
    }

    /**
     * `releaseLock()`: nothing to do without a truthy held ID; otherwise the
     * lock item is deleted, and only when that succeeds is the ID forgotten.
     */
    method ReleaseLock() returns (ok: bool)
      modifies this, server
      ensures server.clock == old(server.clock) && connected == old(connected)
      ensures !Holds(old(sessionId)) ==>
                ok && sessionId == old(sessionId) && server.entries == old(server.entries)
      ensures Holds(old(sessionId)) ==>
                var lockKey := LockKey(prefix, old(sessionId).value);
                && ok == old(server.Get(lockKey)).Some?
                && (ok ==> sessionId.None? && server.entries == old(server.entries) - {lockKey})
                && (!ok ==> sessionId == old(sessionId) && server.entries == old(server.entries))
    {
      if !Holds(sessionId) {
        return true;
      }
      var deleted := server.Delete(LockKey(prefix, sessionId.value));
      if !deleted {
        return false;
      }
      sessionId := None;
      ok := true;
    }

    /**
     * `checkSession($id)`: a no-op for the held ID; otherwise release, and
     * only after a successful release, poll for the lock of `id`.
     */
    method CheckSession(id: string) returns (ok: bool)
      modifies this, server
      ensures Checked(prefix, old(sessionId), id, old(server.entries), old(server.clock),
                      ok, sessionId, server.entries, server.clock)
      ensures connected == old(connected)
    {
      if sessionId == Some(id) {
        return true;
      }
      ok := ReleaseLock();
      if !ok {
        return false;
      }
      ok := GetLock(id);
    }

    /** `read($id)`: the stored data, `''` when the lock fails or `get` reports `RES_NOTFOUND`. */
    method Read(id: string) returns (data: string)
      modifies this, server
      ensures Checked(prefix, old(sessionId), id, old(server.entries), old(server.clock),
                      sessionId == Some(id), sessionId, server.entries, server.clock)
      ensures connected == old(connected)
      ensures sessionId == Some(id) ==> data == server.Get(PrepareKey(prefix, id)).GetOr("")
      ensures sessionId != Some(id) ==> data == ""
    {
      var ok := CheckSession(id);
      if !ok {
        return "";
      }
      var value := server.Get(PrepareKey(prefix, id));
      if value.None? {
        return "";
      }
      data := value.value;
    }

    /**
     * `write($id, $data)`: `set` of the session's key with the configured
     * `expires` as expiration time, once `checkSession($id)` has left the
     * server holding `checked` at time `checkedAt`.
     */
    method Write(id: string, data: string) returns (ok: bool, ghost checked: map<string, Entry>, ghost checkedAt: int)
      modifies this, server
      ensures Checked(prefix, old(sessionId), id, old(server.entries), old(server.clock),
                      sessionId == Some(id), sessionId, checked, checkedAt)
      ensures connected == old(connected) && server.clock == checkedAt
      ensures ok == (sessionId == Some(id))
      ensures server.entries == if ok then checked[PrepareKey(prefix, id) := Entry(data, ExpiryFor(expires, checkedAt))]
                                else checked
      ensures ok && 0 <= expires <= RelativeLimit ==> server.Get(PrepareKey(prefix, id)) == Some(data)
    {
      ok := CheckSession(id);
      checked, checkedAt := server.entries, server.clock;
      if !ok {
        return;
      }
      ok := server.Set(PrepareKey(prefix, id), data, expires);
    }

    /**
     * `destroy($id)`: deletes the session's item; when that fails, or the
     * cookie cannot be destroyed (`cookieDestroyed` is that call's result),
     * it fails and keeps the lock; otherwise it returns the lock's release.
     */
    method Destroy(id: string, cookieDestroyed: bool)
      returns (ok: bool, ghost checked: map<string, Entry>, ghost checkedAt: int, ghost heldChecked: Option<string>)
      modifies this, server
      ensures Checked(prefix, old(sessionId), id, old(server.entries), old(server.clock),
                      heldChecked == Some(id), heldChecked, checked, checkedAt)
      ensures connected == old(connected) && server.clock == checkedAt
      ensures ok ==> cookieDestroyed && server.Get(PrepareKey(prefix, id)).None?
      ensures heldChecked != Some(id) ==> !ok && sessionId == heldChecked && server.entries == checked
      ensures heldChecked == Some(id) ==>
                var key := PrepareKey(prefix, id);
                && (Lookup(checked, key, checkedAt).None? ==>
                      !ok && sessionId == heldChecked && server.entries == checked)
                && (Lookup(checked, key, checkedAt).Some? && !cookieDestroyed ==>
                      !ok && sessionId == heldChecked && server.entries == checked - {key})
                && (Lookup(checked, key, checkedAt).Some? && cookieDestroyed && !Holds(Some(id)) ==>
                      ok && sessionId == heldChecked && server.entries == checked - {key})
                && (Lookup(checked, key, checkedAt).Some? && cookieDestroyed && Holds(Some(id)) ==>
                      && ok == Lookup(checked, LockKey(prefix, id), checkedAt).Some?
                      && sessionId == (if ok then None else heldChecked)
                      && server.entries == if ok then checked - {key} - {LockKey(prefix, id)}
                                           else checked - {key})
    {
      ok := CheckSession(id);
      checked, checkedAt, heldChecked := server.entries, server.clock, sessionId;
      if !ok {
        return;
      }
      var key := PrepareKey(prefix, id);
      ok := server.Delete(key);
      if !ok {
        return;
      }
      if !cookieDestroyed {
        ok := false;
        return;
      }
      ok := ReleaseLock();
    }

    /** `close()`: releases the lock and, only when that succeeds, quits the connection. */
    method Close() returns (ok: bool)
      modifies this, server
      ensures server.clock == old(server.clock)
      ensures !Holds(old(sessionId)) ==> ok && sessionId == old(sessionId) && server.entries == old(server.entries)
      ensures Holds(old(sessionId)) ==>
                var lockKey := LockKey(prefix, old(sessionId).value);
                && ok == old(server.Get(lockKey)).Some?
                && (ok ==> sessionId.None? && server.entries == old(server.entries) - {lockKey})
      ensures ok ==> !connected && !Holds(sessionId)
      ensures !ok ==> connected == old(connected) && sessionId == old(sessionId) && server.entries == old(server.entries)
    {
      ok := ReleaseLock();
      if !ok {
        return false;
      }
      connected := false;
      ok := true;
    }

    /** `gc($expires)`: Memcached expires items itself; the handler reports 1 and does nothing. */
    method Gc(expires: int) returns (count: int)
      ensures count == 1
    {
      count := 1;
    }
  }

  /**
   * The `testRead`/`testUpdate` scenario: with the lock free, a read of a
   * never-written ID is `''`, a write is read back, and a second write
   * replaces the first.
   */
  method WriteReadOverwrite(h: MemcachedSessionHandler, id: string, first: string, second: string)
    returns (unwritten: string, readFirst: string, readSecond: string)
    requires h.sessionId.None? && 0 < h.expires <= RelativeLimit
    requires !LockedAt(h.server.entries, LockKey(h.prefix, id), h.server.clock + 30)
    requires PrepareKey(h.prefix, id) !in h.server.entries
    modifies h, h.server
    ensures h.sessionId == Some(id)
    ensures unwritten == "" && readFirst == first && readSecond == second
    ensures h.server.Get(PrepareKey(h.prefix, id)) == Some(second)
  {
    var key := PrepareKey(h.prefix, id);
    unwritten := h.Read(id);
    assert unwritten == "" by {
      assert LockKey(h.prefix, id) != key;
    }
    var ok;
    ghost var checked, checkedAt;
    ok, checked, checkedAt := h.Write(id, first);
    readFirst := h.Read(id);
    ok, checked, checkedAt := h.Write(id, second);
    readSecond := h.Read(id);
  }

  /**
   * Two handlers sharing one server: once the first holds an ID's lock, the
   * second gives up on that ID after its 31 attempts and reads nothing.
   */
  method SecondHandlerIsLockedOut(h1: MemcachedSessionHandler, h2: MemcachedSessionHandler, id: string)
    returns (seen: string)
    requires h1 != h2 && h1.server == h2.server && h1.prefix == h2.prefix
    requires h1.sessionId.None? && h2.sessionId.None?
    requires !LockedAt(h1.server.entries, LockKey(h1.prefix, id), h1.server.clock + 30)
    modifies h1, h2, h1.server
    ensures h1.sessionId == Some(id) && h2.sessionId != Some(id) && seen == ""
  {
    var _ := h1.Read(id);
    seen := h2.Read(id);
  }

  /**
   * A write to an ID whose lock another handler keeps for the next 30
   * seconds fails after the 31 attempts and leaves every key as it was.
   */
  method LockedOutWriteChangesNothing(h: MemcachedSessionHandler, id: string, data: string) returns (ok: bool)
    requires h.sessionId.None?
    requires LockedAt(h.server.entries, LockKey(h.prefix, id), h.server.clock + 30)
    modifies h, h.server
    ensures !ok && h.sessionId.None?
    ensures h.server.entries == old(h.server.entries) && h.server.clock == old(h.server.clock) + 31
  {
    ghost var checked, checkedAt;
    ok, checked, checkedAt := h.Write(id, data);
  }
}
