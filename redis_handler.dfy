/**
 * The Redis backend: session data under the session's key with a TTL of
 * the configured `expires`, and a sibling `<key>:lock` entry with a TTL of
 * 300 seconds that emulates a lock through a bounded polling loop.
 */
module RedisHandler {
  import opened Wrappers
  import opened HandlerBase
  import opened ExpiringStore

  /** Redis `TTL` at time `at`: -2 for a missing key, -1 for a key without expiry, else the seconds left. */
  function TtlAt(entries: map<string, Entry>, key: string, at: int): (t: int)
    ensures t == -2 <==> Lookup(entries, key, at).None?
    ensures t == -1 <==> key in entries && entries[key].expiry.None?
    ensures t > 0 <==> Lookup(entries, key, at).Some? && entries[key].expiry.Some?
    ensures t > 0 ==> t == entries[key].expiry.value - at
  {
    if Lookup(entries, key, at).None? then -2
    else if entries[key].expiry.None? then -1
    else entries[key].expiry.value - at
  }

  /** `getLock`'s test on the lock key: someone holds it while its TTL is positive. */
  predicate LockedAt(entries: map<string, Entry>, lockKey: string, at: int) {
    TtlAt(entries, lockKey, at) > 0
  }

  /** A lock key that is held at some time was held at every earlier time. */
  lemma LockedEarlier(entries: map<string, Entry>, lockKey: string, earlier: int, later: int)
    requires earlier <= later && LockedAt(entries, lockKey, later)
    ensures LockedAt(entries, lockKey, earlier)
  {
  }

  /**
   * What `getLock` does to a server that holds `before` at time `start`:
   * the lock is taken exactly when it is free within 30 seconds, at the
   * first second it is, and set with a TTL of 300; otherwise 31 seconds
   * pass and nothing changes.
   */
  ghost predicate Polled(before: map<string, Entry>, start: int, lockKey: string,
                         ok: bool, after: map<string, Entry>, end: int)
  {
    && ok == !LockedAt(before, lockKey, start + 30)
    && (ok ==>
          && start <= end <= start + 30
          && !LockedAt(before, lockKey, end)
          && (forall t :: start <= t < end ==> LockedAt(before, lockKey, t))
          && after == before[lockKey := Entry("1", Some(end + 300))])
    && (!ok ==> end == start + 31 && after == before)
  }

  /**
   * What `checkSession(id)` does to the held ID and the server: nothing for
   * the held ID; otherwise the release of a truthy held ID (its lock key
   * must still be there), then the polling for `id`'s lock.
   */
  ghost predicate Checked(prefix: string, held: Option<string>, id: string,
                          before: map<string, Entry>, start: int,
                          ok: bool, heldAfter: Option<string>, after: map<string, Entry>, end: int)
  {
    && CheckSessionOutcome(held, id, ok, heldAfter)
    && (!ok ==> heldAfter != Some(id))
    && (held == Some(id) ==> after == before && end == start)
    && (held != Some(id) && !Holds(held) ==>
          && Polled(before, start, LockKey(prefix, id), ok, after, end)
          && (!ok ==> heldAfter == held))
    && (held != Some(id) && Holds(held) ==>
          var heldKey := LockKey(prefix, held.value);
          && (Lookup(before, heldKey, start).None? ==>
                !ok && heldAfter == held && after == before && end == start)
          && (Lookup(before, heldKey, start).Some? ==>
                && Polled(before - {heldKey}, start, LockKey(prefix, id), ok, after, end)
                && (!ok ==> heldAfter.None?)))
  }

  /** The Redis server: its key space and its clock, in seconds. */
  class RedisServer {
    var entries: map<string, Entry>
    var clock: int

    constructor (entries: map<string, Entry>, clock: int)
      ensures this.entries == entries && this.clock == clock
    {
      this.entries := entries;
      this.clock := clock;
    }

    /** `TTL key`. */
    function Ttl(key: string): int
      reads this
    {
      TtlAt(entries, key, clock)
    }

    /** `GET key`; PHP sees `false` for a missing key. */
    function Get(key: string): Option<string>
      reads this
    {
      Lookup(entries, key, clock)
    }

    /** `SETEX key ttl value`; Redis refuses a TTL that is not positive. */
    method SetEx(key: string, ttl: int, value: string) returns (ok: bool)
      modifies this
      ensures ok == (ttl > 0) && clock == old(clock)
      ensures entries == if ok then old(entries)[key := Entry(value, Some(clock + ttl))] else old(entries)
    {
      if ttl <= 0 {
        return false;
      }
      entries := entries[key := Entry(value, Some(clock + ttl))];
      ok := true;
    }

    /** `DEL key`, as a count of the keys removed. */
    method Del(key: string) returns (count: nat)
      modifies this
      ensures count == if old(Get(key)).Some? then 1 else 0
      ensures entries == if count == 1 then old(entries) - {key} else old(entries)
      ensures clock == old(clock)
    {
      if Get(key).None? {
        return 0;
      }
      entries := entries - {key};
      count := 1;
    }

    /** `sleep(1)` in the polling client: one second passes. */
    method Sleep()
      modifies this
      ensures entries == old(entries) && clock == old(clock) + 1
    {
      clock := clock + 1;
    }
  }

  /** The Redis handler's own defaults. */
  const RedisDefaults: Options := map[
    "prefix" := Text("session:"),
    "host" := Text("127.0.0.1"),
    "password" := Null,
    "port" := Number(6379),
    "database" := Null,
    "timeout" := Number(0),
    "persist" := Flag(true),
    "tls" := Flag(false),
    "ssl" := Group(map["key" := Null, "cert" := Null, "ca" := Null])
  ]

  /** Without options, sessions live under `session:<id>` for 3600 seconds. */
  lemma RedisDefaultSettings()
    ensures var config := MergeConfig(RedisDefaults, map[]);
      && "prefix" in config && config["prefix"] == Text("session:")
      && "expires" in config && config["expires"] == Number(3600)
  {
    assert "prefix" in RedisDefaults && RedisDefaults["prefix"] == Text("session:");
    assert "expires" !in RedisDefaults;
    var inherited := ReplaceRecursive(BaseDefaults, RedisDefaults);
    assert inherited["prefix"] == Text("session:") && inherited["expires"] == Number(3600);
  }

  class RedisSessionHandler {
    const prefix: string
    const expires: int
    const server: RedisServer
    var sessionId: Option<string>
    /** The connection is open; `close` shuts it once the lock is released. */
    var connected: bool

    constructor (options: Options, server: RedisServer)
      requires Typed(options)
      ensures prefix == PrefixOf(MergeConfig(RedisDefaults, options))
      ensures expires == ExpiresOf(MergeConfig(RedisDefaults, options))
      ensures this.server == server && sessionId.None? && connected
    {
      var config := MergeConfig(RedisDefaults, options);
      prefix := PrefixOf(config);
      expires := ExpiresOf(config);
      this.server := server;
      sessionId := None;
      connected := true;
    }

    /**
     * `getLock($id)`: polls the lock key once a second, for at most 31
     * attempts, and sets it with a TTL of 300 as soon as it is free. The
     * lock is taken exactly when it is free within 30 seconds, at the
     * first second it is; otherwise 31 seconds pass and nothing changes.
     */
    method GetLock(id: string) returns (ok: bool)
      modifies this, server
      ensures Polled(old(server.entries), old(server.clock), LockKey(prefix, id), ok, server.entries, server.clock)
      ensures sessionId == if ok then Some(id) else old(sessionId)
      ensures connected == old(connected)
    {
      var lockKey := LockKey(prefix, id);
      ghost var start := server.clock;
      ghost var before := server.entries;
      var attempt := 0;
      while true
        invariant 0 <= attempt <= 30
        invariant server.entries == before && server.clock == start + attempt
        invariant sessionId == old(sessionId) && connected == old(connected)
        invariant forall t :: start <= t < server.clock ==> LockedAt(before, lockKey, t)
        decreases 30 - attempt
      {
        if server.Ttl(lockKey) > 0 {
          server.Sleep();
        } else {
          var stored := server.SetEx(lockKey, 300, "1");
          if stored {
            if LockedAt(before, lockKey, start + 30) {
              LockedEarlier(before, lockKey, start + attempt, start + 30);
              assert false;
            }
            // parent::getLock
            sessionId := Some(id);
            return true;
          }
        }
        // `$attempt++ < 30`
        if !(attempt < 30) {
          break;
        }
        attempt := attempt + 1;
      }
      assert LockedAt(before, lockKey, start + 30);
      ok := false;
    }

    /**
     * `releaseLock()`: nothing to do without a truthy held ID; otherwise the
     * lock key is deleted, and only when that removed it is the ID forgotten.
     */
    method ReleaseLock() returns (ok: bool)
      modifies this, server
      ensures server.clock == old(server.clock) && connected == old(connected)
      ensures !Holds(old(sessionId)) ==>
                ok && sessionId == old(sessionId) && server.entries == old(server.entries)
      ensures Holds(old(sessionId)) ==>
                var lockKey := LockKey(prefix, old(sessionId).value);
                && ok == old(server.Get(lockKey)).Some?
                && (ok ==> sessionId.None? && server.entries == old(server.entries) - {lockKey})
                && (!ok ==> sessionId == old(sessionId) && server.entries == old(server.entries))
    {
      if !Holds(sessionId) {
        return true;
      }
      var count := server.Del(LockKey(prefix, sessionId.value));
      if count == 0 {
        return false;
      }
      sessionId := None;
      ok := true;
    }

    /**
     * `checkSession($id)`: a no-op for the held ID; otherwise release, and
     * only after a successful release, poll for the lock of `id`.
     */
    method CheckSession(id: string) returns (ok: bool)
      modifies this, server
      ensures Checked(prefix, old(sessionId), id, old(server.entries), old(server.clock),
                      ok, sessionId, server.entries, server.clock)
      ensures connected == old(connected)
    {
      if sessionId == Some(id) {
        return true;
      }
      ok := ReleaseLock();
      if !ok {
        return false;
      }
      ok := GetLock(id);
    }

    /** `read($id)`: the stored data, `''` when the lock fails or the key is missing. */
    method Read(id: string) returns (data: string)
      modifies this, server
      ensures Checked(prefix, old(sessionId), id, old(server.entries), old(server.clock),
                      sessionId == Some(id), sessionId, server.entries, server.clock)
      ensures connected == old(connected)
      ensures sessionId == Some(id) ==> data == server.Get(PrepareKey(prefix, id)).GetOr("")
      ensures sessionId != Some(id) ==> data == ""
    {
      var ok := CheckSession(id);
      if !ok {
        return "";
      }
      data := server.Get(PrepareKey(prefix, id)).GetOr("");
    }

    /**
     * `write($id, $data)`: `SETEX` of the session's key with the configured
     * `expires` as TTL, once `checkSession($id)` has left the server holding
     * `checked` at time `checkedAt`.
     */
    method Write(id: string, data: string) returns (ok: bool, ghost checked: map<string, Entry>, ghost checkedAt: int)
      modifies this, server
      ensures Checked(prefix, old(sessionId), id, old(server.entries), old(server.clock),
                      sessionId == Some(id), sessionId, checked, checkedAt)
      ensures connected == old(connected) && server.clock == checkedAt
      ensures ok == (sessionId == Some(id) && expires > 0)
      ensures server.entries == if ok then checked[PrepareKey(prefix, id) := Entry(data, Some(checkedAt + expires))]
                                else checked
      ensures ok ==> server.Get(PrepareKey(prefix, id)) == Some(data)
    {
      ok := CheckSession(id);
      checked, checkedAt := server.entries, server.clock;
      if !ok {
        return;
      }
      ok := server.SetEx(PrepareKey(prefix, id), expires, data);
    }

    /**
     * `destroy($id)`: deletes the session's key; when nothing was deleted it
     * fails and keeps the lock, otherwise it returns the lock's release.
     */
    method Destroy(id: string) returns (ok: bool, ghost checked: map<string, Entry>, ghost checkedAt: int,
                                        ghost heldChecked: Option<string>)
      modifies this, server
      ensures Checked(prefix, old(sessionId), id, old(server.entries), old(server.clock),
                      heldChecked == Some(id), heldChecked, checked, checkedAt)
      ensures connected == old(connected) && server.clock == checkedAt
      ensures ok ==> server.Get(PrepareKey(prefix, id)).None?
      ensures heldChecked != Some(id) ==> !ok && sessionId == heldChecked && server.entries == checked
      ensures heldChecked == Some(id) ==>
                var key := PrepareKey(prefix, id);
                && (Lookup(checked, key, checkedAt).None? ==>
                      !ok && sessionId == heldChecked && server.entries == checked)
                && (Lookup(checked, key, checkedAt).Some? && !Holds(Some(id)) ==>
                      ok && sessionId == heldChecked && server.entries == checked - {key})
                && (Lookup(checked, key, checkedAt).Some? && Holds(Some(id)) ==>
                      && ok == Lookup(checked, LockKey(prefix, id), checkedAt).Some?
                      && sessionId == (if ok then None else heldChecked)
                      && server.entries == if ok then checked - {key} - {LockKey(prefix, id)}
                                           else checked - {key})
    {
      ok := CheckSession(id);
      checked, checkedAt, heldChecked := server.entries, server.clock, sessionId;
      if !ok {
        return;
      }
      var key := PrepareKey(prefix, id);
      var count := server.Del(key);
      if count == 0 {
        ok := false;
        return;
      }
      ok := ReleaseLock();
    }

    /** `close()`: releases the lock and, only when that succeeds, closes the connection. */
    method Close() returns (ok: bool)
      modifies this, server
      ensures server.clock == old(server.clock)
      ensures !Holds(old(sessionId)) ==> ok && sessionId == old(sessionId) && server.entries == old(server.entries)
      ensures Holds(old(sessionId)) ==>
                var lockKey := LockKey(prefix, old(sessionId).value);
                && ok == old(server.Get(lockKey)).Some?
                && (ok ==> sessionId.None? && server.entries == old(server.entries) - {lockKey})
      ensures ok ==> !connected && !Holds(sessionId)
      ensures !ok ==> connected == old(connected) && sessionId == old(sessionId) && server.entries == old(server.entries)
    {
      ok := ReleaseLock();
      if !ok {
        return false;
      }
      connected := false;
      ok := true;
    }

    /** `gc($expires)`: Redis expires keys itself; the handler reports 1 and does nothing. */
    method Gc(expires: int) returns (count: int)
      ensures count == 1
    {
      count := 1;
    }
  }

  /**
   * The `testRead`/`testUpdate` scenario: with the lock free, a read of a
   * never-written ID is `''`, a write is read back, and a second write
   * replaces the first.
   */
  method WriteReadOverwrite(h: RedisSessionHandler, id: string, first: string, second: string)
    returns (unwritten: string, readFirst: string, readSecond: string)
    requires h.sessionId.None? && h.expires > 0
    requires !LockedAt(h.server.entries, LockKey(h.prefix, id), h.server.clock + 30)
    requires PrepareKey(h.prefix, id) !in h.server.entries
    modifies h, h.server
    ensures h.sessionId == Some(id)
    ensures unwritten == "" && readFirst == first && readSecond == second
    ensures h.server.Get(PrepareKey(h.prefix, id)) == Some(second)
  {
    var key := PrepareKey(h.prefix, id);
    unwritten := h.Read(id);
    assert unwritten == "" by {
      assert h.server.entries == old(h.server.entries)[LockKey(h.prefix, id) := Entry("1", Some(h.server.clock + 300))];
      assert LockKey(h.prefix, id) != key;
    }
    var ok;
    ghost var checked, checkedAt;
    ok, checked, checkedAt := h.Write(id, first);
    readFirst := h.Read(id);
    ok, checked, checkedAt := h.Write(id, second);
    readSecond := h.Read(id);
  }

  /**
   * Two handlers sharing one server: once the first holds an ID's lock, the
   * second gives up on that ID after its 31 attempts and reads nothing.
   */
  method SecondHandlerIsLockedOut(h1: RedisSessionHandler, h2: RedisSessionHandler, id: string)
    returns (seen: string)
    requires h1 != h2 && h1.server == h2.server && h1.prefix == h2.prefix
    requires h1.sessionId.None? && h2.sessionId.None?
    requires !LockedAt(h1.server.entries, LockKey(h1.prefix, id), h1.server.clock + 30)
    modifies h1, h2, h1.server
    ensures h1.sessionId == Some(id) && h2.sessionId != Some(id) && seen == ""
  {
    var _ := h1.Read(id);
    seen := h2.Read(id);
  }

  /**
   * A write to an ID whose lock another handler keeps for the next 30
   * seconds fails after the 31 attempts and leaves every key as it was.
   */
  method LockedOutWriteChangesNothing(h: RedisSessionHandler, id: string, data: string) returns (ok: bool)
    requires h.sessionId.None?
    requires LockedAt(h.server.entries, LockKey(h.prefix, id), h.server.clock + 30)
    modifies h, h.server
    ensures !ok && h.sessionId.None?
    ensures h.server.entries == old(h.server.entries) && h.server.clock == old(h.server.clock) + 31
  {
    ghost var checked, checkedAt;
    ok, checked, checkedAt := h.Write(id, data);
  }
}
