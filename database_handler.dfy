/**
 * The database backend: one row per session in a table of
 * `id / data / created / modified`. The class models
 * `DatabaseSessionHandler` and, through its `dialect`, the MySQL and
 * Postgres subclasses, which replace the base lock bookkeeping with
 * advisory locks. Whether an advisory-lock query returns a row is an
 * oracle, passed in as a boolean.
 */
module DatabaseHandler {
  import opened Wrappers
  import opened HandlerBase

  /** A row of the sessions table; timestamps are integers (seconds). */
  datatype Row = Row(data: string, created: int, modified: Option<int>)

  /** The class handling the table: `DatabaseSessionHandler` itself, or its MySQL or Postgres subclass. */
  datatype Dialect = Generic | Mysql | Postgres

  /** Whether each advisory-lock query of one `checkSession` returns a row: first the unlock, then the lock. */
  datatype LockReplies = LockReplies(unlockRow: bool, lockRow: bool)

  /** `gc`'s condition: (`created < maxLife` and `modified IS NULL`) or `modified < maxLife`. */
  predicate Expired(row: Row, maxLife: int) {
    || (row.created < maxLife && row.modified.None?)
    || (row.modified.Some? && row.modified.value < maxLife)
  }

  /** The ids of the rows `gc` deletes. */
  function ExpiredIds(rows: map<string, Row>, maxLife: int): (ids: set<string>)
    ensures forall id :: id in ids <==> id in rows && Expired(rows[id], maxLife)
  {
    set id | id in rows && Expired(rows[id], maxLife)
  }

  /** The last time a row was written: `modified`, or `created` for a row never updated. */
  function LastTouched(row: Row): int {
    if row.modified.Some? then row.modified.value else row.created
  }

  /**
   * For a row whose `modified` is never before its `created` (every row
   * `write` produces), `gc`'s two-part condition is exactly "last written
   * before the cut-off".
   */
  lemma ExpiredIffLastTouchedBefore(row: Row, maxLife: int)
    requires row.modified.Some? ==> row.created <= row.modified.value
    ensures Expired(row, maxLife) <==> LastTouched(row) < maxLife
  {
  }

  /**
   * `gc(-1)` at time `now` over rows all written at or before `now`
   * deletes every row and reports the table's size.
   */
  lemma GcRemovesEveryWrittenRow(rows: map<string, Row>, now: int)
    requires forall id :: id in rows ==> LastTouched(rows[id]) <= now
    ensures ExpiredIds(rows, now - -1) == rows.Keys
    ensures rows - ExpiredIds(rows, now - -1) == map[]
    ensures |ExpiredIds(rows, now - -1)| == |rows|
  {
    assert ExpiredIds(rows, now + 1) == rows.Keys;
  }

  /** A release query is needed and must return a row only for a subclass holding a truthy ID. */
  predicate ReleaseOk(dialect: Dialect, held: Option<string>, unlockRow: bool) {
    dialect == Generic || !Holds(held) || unlockRow
  }

  /** A lock query must return a row only for a subclass. */
  predicate LockOk(dialect: Dialect, lockRow: bool) {
    dialect == Generic || lockRow
  }

  /** The held ID after a successful release: the base class always clears it, a subclass only a truthy one. */
  function AfterRelease(dialect: Dialect, held: Option<string>): Option<string> {
    if dialect == Generic || Holds(held) then None else held
  }

  /** A successful release by a subclass of a truthy ID marks the row's existence as unknown. */
  predicate ReleaseResets(dialect: Dialect, held: Option<string>) {
    dialect != Generic && Holds(held)
  }

  /** The sessions table. */
  class SessionTable {
    var rows: map<string, Row>

    constructor (rows: map<string, Row>)
      ensures this.rows == rows
    {
      this.rows := rows;
    }
  }

  class DatabaseSessionHandler {
    const dialect: Dialect
    const db: SessionTable
    var sessionId: Option<string>
    /** Whether a row for the held ID is known to exist, so that `write` updates rather than inserts. */
    var sessionExists: bool

    constructor (dialect: Dialect, db: SessionTable)
      ensures this.dialect == dialect && this.db == db
      ensures sessionId.None? && !sessionExists
    {
      this.dialect := dialect;
      this.db := db;
      sessionId := None;
      sessionExists := false;
    }

    /** `checkSession($id)` with these replies leaves `id` locked. */
    predicate Locks(id: string, replies: LockReplies)
      reads this
    {
      || sessionId == Some(id)
      || (ReleaseOk(dialect, sessionId, replies.unlockRow) && LockOk(dialect, replies.lockRow))
    }

    /**
     * The held ID once `checkSession($id)` has run with these replies: `id`
     * when it is locked; after a failed release, the old ID; after a
     * release followed by a failed lock, what the release left.
     */
    function HeldAfterCheck(id: string, replies: LockReplies): (held: Option<string>)
      reads this
      ensures Locks(id, replies) <==> held == Some(id)
      ensures sessionId != Some(id) && !ReleaseOk(dialect, sessionId, replies.unlockRow) ==> held == sessionId
    {
      if Locks(id, replies) then Some(id)
      else if ReleaseOk(dialect, sessionId, replies.unlockRow) then AfterRelease(dialect, sessionId)
      else sessionId
    }

    /** `sessionExists` once `checkSession($id)` has run with these replies. */
    predicate ExistsAfterCheck(id: string, replies: LockReplies)
      reads this
    {
      if sessionId != Some(id) && ReleaseOk(dialect, sessionId, replies.unlockRow)
         && ReleaseResets(dialect, sessionId)
      then false
      else sessionExists
    }

    /** The base class's `getLock`: records the ID. */
    method BaseGetLock(id: string) returns (ok: bool)
      modifies this
      ensures ok && sessionId == Some(id) && sessionExists == old(sessionExists)
    {
      sessionId := Some(id);
      ok := true;
    }

    /** The base class's `releaseLock`: forgets the ID. */
    method BaseReleaseLock() returns (ok: bool)
      modifies this
      ensures ok && sessionId.None? && sessionExists == old(sessionExists)
    {
      sessionId := None;
      ok := true;
    }

    /** MySQL `getLock`: `GET_LOCK(id, 300)`; no row means failure and nothing recorded. */
    method MysqlGetLock(id: string, lockRow: bool) returns (ok: bool)
      modifies this
      ensures ok == lockRow && sessionExists == old(sessionExists)
      ensures sessionId == if ok then Some(id) else old(sessionId)
    {
      if !lockRow {
        return false;
      }
      ok := BaseGetLock(id);
    }

    /**
     * MySQL `releaseLock`: nothing to do without a truthy held ID;
     * otherwise `RELEASE_LOCK(id)`, and only when it returns a row is the ID
     * forgotten and the row's existence reset.
     */
    method MysqlReleaseLock(unlockRow: bool) returns (ok: bool)
      modifies this
      ensures !Holds(old(sessionId)) ==> ok && sessionId == old(sessionId) && sessionExists == old(sessionExists)
      ensures Holds(old(sessionId)) && !unlockRow ==>
                !ok && sessionId == old(sessionId) && sessionExists == old(sessionExists)
      ensures Holds(old(sessionId)) && unlockRow ==> ok && sessionId.None? && !sessionExists
    {
      if !Holds(sessionId) {
        return true;
      }
      if !unlockRow {
        return false;
      }
      ok := BaseReleaseLock();
      if !ok {
        return false;
      }
      sessionExists := false;
      ok := true;
    }

    /** Postgres `getLock`: `pg_advisory_lock(hashtext(id))`; no row means failure and nothing recorded. */
    method PostgresGetLock(id: string, lockRow: bool) returns (ok: bool)
      modifies this
      ensures ok == lockRow && sessionExists == old(sessionExists)
      ensures sessionId == if ok then Some(id) else old(sessionId)
    {
      if !lockRow {
        return false;
      }
      ok := BaseGetLock(id);
    }

    /**
     * Postgres `releaseLock`: as for MySQL, with
     * `pg_advisory_unlock(hashtext(id))` as the unlock query.
     */
    method PostgresReleaseLock(unlockRow: bool) returns (ok: bool)
      modifies this
      ensures !Holds(old(sessionId)) ==> ok && sessionId == old(sessionId) && sessionExists == old(sessionExists)
      ensures Holds(old(sessionId)) && !unlockRow ==>
                !ok && sessionId == old(sessionId) && sessionExists == old(sessionExists)
      ensures Holds(old(sessionId)) && unlockRow ==> ok && sessionId.None? && !sessionExists
    {
      if !Holds(sessionId) {
        return true;
      }
      if !unlockRow {
        return false;
      }
      ok := BaseReleaseLock();
      if !ok {
        return false;
      }
      sessionExists := false;
      ok := true;
    }

    /** `getLock`, dispatched on the class. */
    method GetLock(id: string, lockRow: bool) returns (ok: bool)
      modifies this
      ensures ok == LockOk(dialect, lockRow) && sessionExists == old(sessionExists)
      ensures sessionId == if ok then Some(id) else old(sessionId)
    {
      match dialect
      case Generic => ok := BaseGetLock(id);
      case Mysql => ok := MysqlGetLock(id, lockRow);
      case Postgres => ok := PostgresGetLock(id, lockRow);
    }

    /** `releaseLock`, dispatched on the class. */
    method ReleaseLock(unlockRow: bool) returns (ok: bool)
      modifies this
      ensures ok == ReleaseOk(dialect, old(sessionId), unlockRow)
      ensures sessionId == if ok then AfterRelease(dialect, old(sessionId)) else old(sessionId)
      ensures sessionExists == if ok && ReleaseResets(dialect, old(sessionId)) then false else old(sessionExists)
    {
      match dialect
      case Generic => ok := BaseReleaseLock();
      case Mysql => ok := MysqlReleaseLock(unlockRow);
      case Postgres => ok := PostgresReleaseLock(unlockRow);
    }

    /**
     * `checkSession($id)`: a no-op for the held ID; otherwise release, and
     * only after a successful release, lock `id`. The table is not touched.
     */
    method CheckSession(id: string, replies: LockReplies) returns (ok: bool)
      modifies this
      ensures CheckSessionOutcome(old(sessionId), id, ok, sessionId)
      ensures ok == old(Locks(id, replies))
      ensures sessionExists == old(ExistsAfterCheck(id, replies))
      ensures sessionId == old(HeldAfterCheck(id, replies))
    {
      if sessionId == Some(id) {
        return true;
      }
      ok := ReleaseLock(replies.unlockRow);
      if !ok {
        return false;
      }
      ok := GetLock(id, replies.lockRow);
    }

    /**
     * `getResult($id)`: the row's data when `id` can be locked and has a
     * row, which then marks the row as existing.
     */
    method GetResult(id: string, replies: LockReplies) returns (result: Option<string>)
      modifies this
      ensures CheckSessionOutcome(old(sessionId), id, old(Locks(id, replies)), sessionId)
      ensures sessionId == old(HeldAfterCheck(id, replies))
      ensures !old(Locks(id, replies)) ==> result.None?
      ensures old(Locks(id, replies)) ==>
                result == if id in db.rows then Some(db.rows[id].data) else None
      ensures sessionExists == if result.Some? then true else old(ExistsAfterCheck(id, replies))
    {
      var ok := CheckSession(id, replies);
      if !ok {
        return None;
      }
      if id !in db.rows {
        return None;
      }
      sessionExists := true;
      result := Some(db.rows[id].data);
    }

    /**
     * `read($id)`: `''` when the lock cannot be taken or there is no row,
     * else the row's data (for Postgres, the bytes read from the column's
     * stream, which are the bytes stored).
     */
    method Read(id: string, replies: LockReplies) returns (data: string)
      modifies this
      ensures CheckSessionOutcome(old(sessionId), id, old(Locks(id, replies)), sessionId)
      ensures sessionId == old(HeldAfterCheck(id, replies))
      ensures data == if old(Locks(id, replies)) && id in db.rows then db.rows[id].data else ""
      ensures sessionExists == if old(Locks(id, replies)) && id in db.rows then true
                               else old(ExistsAfterCheck(id, replies))
    {
      var result := GetResult(id, replies);
      if result.None? {
        return "";
      }
      data := result.value;
    }

    /**
     * `write($id, $data)` at time `now`: an INSERT of a new row when the
     * row is not known to exist, else an UPDATE of `data` and `modified`.
     * An INSERT of an id already in the table fails; an UPDATE that matches
     * no row still succeeds.
     */
    method Write(id: string, data: string, now: int, replies: LockReplies) returns (ok: bool)
      modifies this, db
      ensures CheckSessionOutcome(old(sessionId), id, old(Locks(id, replies)), sessionId)
      ensures sessionId == old(HeldAfterCheck(id, replies))
      ensures !old(Locks(id, replies)) ==> !ok && db.rows == old(db.rows)
      ensures old(Locks(id, replies)) && !old(ExistsAfterCheck(id, replies)) ==>
                && ok == (id !in old(db.rows))
                && db.rows == if ok then old(db.rows)[id := Row(data, now, Some(now))] else old(db.rows)
      ensures old(Locks(id, replies)) && old(ExistsAfterCheck(id, replies)) ==>
                && ok
                && db.rows == if id in old(db.rows)
                              then old(db.rows)[id := Row(data, old(db.rows)[id].created, Some(now))]
                              else old(db.rows)
      ensures ok ==> sessionExists
      ensures !ok ==> sessionExists == old(ExistsAfterCheck(id, replies))
    {
      ok := CheckSession(id, replies);
      if !ok {
        return false;
      }
      var result: bool;
      if !sessionExists {
        result := id !in db.rows;
        if result {
          db.rows := db.rows[id := Row(data, now, Some(now))];
        }
      } else {
        result := true;
        if id in db.rows {
          db.rows := db.rows[id := Row(data, db.rows[id].created, Some(now))];
        }
      }
      if !result {
        return false;
      }
      sessionExists := true;
      ok := true;
    }

    /**
     * `destroy($id)`: when `id` can be locked, deletes its row and returns
     * whether the lock is then released.
     */
    method Destroy(id: string, replies: LockReplies, unlockRow: bool) returns (ok: bool)
      modifies this, db
      ensures !old(Locks(id, replies)) ==> !ok && db.rows == old(db.rows)
      ensures !old(Locks(id, replies)) ==>
                sessionId == old(HeldAfterCheck(id, replies)) && sessionExists == old(ExistsAfterCheck(id, replies))
      ensures old(Locks(id, replies)) ==> db.rows == old(db.rows) - {id}
      ensures old(Locks(id, replies)) ==> ok == ReleaseOk(dialect, Some(id), unlockRow)
      ensures old(Locks(id, replies)) ==> sessionId == if ok then AfterRelease(dialect, Some(id)) else Some(id)
      ensures old(Locks(id, replies)) ==>
                sessionExists == if ok && ReleaseResets(dialect, Some(id)) then false else old(ExistsAfterCheck(id, replies))
    {
      ok := CheckSession(id, replies);
      if !ok {
        return false;
      }
      db.rows := db.rows - {id};
      ok := ReleaseLock(unlockRow);
    }

    /** `close()`: exactly `releaseLock()`. */
    method Close(unlockRow: bool) returns (ok: bool)
      modifies this
      ensures ok == ReleaseOk(dialect, old(sessionId), unlockRow)
      ensures sessionId == if ok then AfterRelease(dialect, old(sessionId)) else old(sessionId)
      ensures sessionExists == if ok && ReleaseResets(dialect, old(sessionId)) then false else old(sessionExists)
    {
      ok := ReleaseLock(unlockRow);
    }

    /**
     * `gc($expires)` at time `now`: deletes every row matching `Expired`
     * with cut-off `now - expires` and returns how many rows went.
     */
    method Gc(expires: int, now: int) returns (count: nat)
      modifies db
      ensures db.rows == old(db.rows) - ExpiredIds(old(db.rows), now - expires)
      ensures count == |ExpiredIds(old(db.rows), now - expires)|
    {
      var maxLife := now - expires;
      var doomed := ExpiredIds(db.rows, maxLife);
      db.rows := db.rows - doomed;
      count := |doomed|;
    }
  }

  /**
   * The `testRead`/`testUpdate` scenario on a fresh handler: a read of an
   * unknown ID is `''`, the first write inserts, the second updates, and
   * each read returns the last data written.
   */
  method ReadWriteUpdate(h: DatabaseSessionHandler, id: string, first: string, second: string, now: int)
    requires h.sessionId.None? && !h.sessionExists && id !in h.db.rows
    modifies h, h.db
    ensures h.sessionId == Some(id) && h.sessionExists
    ensures id in h.db.rows && h.db.rows[id] == Row(second, now, Some(now))
  {
    var replies := LockReplies(true, true);
    var got := h.Read(id, replies);
    assert got == "";
    var ok := h.Write(id, first, now, replies);
    assert ok;
    got := h.Read(id, replies);
    assert got == first;
    ok := h.Write(id, second, now, replies);
    assert ok;
    got := h.Read(id, replies);
    assert got == second;
  }

  /**
   * After `checkSession` switches a MySQL or Postgres handler to a new ID,
   * the next write inserts a row for it.
   */
  method SwitchedAdvisoryHandlerInserts(h: DatabaseSessionHandler, id: string, data: string, now: int)
    requires h.dialect != Generic && Holds(h.sessionId) && h.sessionId != Some(id)
    requires id !in h.db.rows
    modifies h, h.db
    ensures h.sessionId == Some(id) && h.db.rows == old(h.db.rows)[id := Row(data, now, Some(now))]
  {
    var ok := h.Write(id, data, now, LockReplies(true, true));
    assert ok;
  }

  /**
   * The base release keeps `sessionExists`: once a `DatabaseSessionHandler`
   * has found a row, a write after switching to an ID with no row updates
   * nothing, yet reports success.
   */
  method SwitchedGenericHandlerUpdatesNothing(h: DatabaseSessionHandler, id: string, data: string, now: int)
    requires h.dialect == Generic && h.sessionExists && h.sessionId != Some(id)
    requires id !in h.db.rows
    modifies h, h.db
    ensures h.sessionId == Some(id) && h.db.rows == old(h.db.rows)
  {
    var ok := h.Write(id, data, now, LockReplies(true, true));
    assert ok;
  }
}
