# FyreSession in Dafny

A model of the FyreSession PHP library, with proofs about it. The library has two parts:

- The session coordinator, `Session`, keeps the current session's key-value store (`$_SESSION`) together with three reserved entries:
  - `_flash` holds the keys that live for one more request;
  - `_temp` maps keys to an absolute expiry time;
  - `_time` stamps the last start.
- One handler per storage backend persists the serialized session under its ID. Every handler:
  - holds at most one session ID at a time;
  - locks that ID before reading, writing or destroying;
  - releases the lock when it switches IDs or closes.

The modules follow the source files:

| file | module | models |
|---|---|---|
| `wrappers.dfy` | `Wrappers` | PHP's `null`-or-value results, as `Option` |
| `session.dfy` | `SessionStore` | `Session`'s store operations, as functions on a `Store` value. The `Session` class holds that state in fields, and its methods are proved to follow those functions. |
| `session_handler.dfy` | `HandlerBase` | the abstract `SessionHandler`: configuration merge, `prepareKey`, the lock key, PHP truthiness of the held ID, and the promise of `checkSession` |
| `file_handler.dfy` | `FileHandler` | `FileSessionHandler` over a session folder |
| `database_handler.dfy` | `DatabaseHandler` | `DatabaseSessionHandler` and its MySQL and Postgres subclasses. The subclass is chosen by a `Dialect` tag. Whether an advisory-lock query returns a row is an oracle. |
| `expiring_store.dfy` | `ExpiringStore` | the key space with expiry times that Redis and Memcached share |
| `redis_handler.dfy` | `RedisHandler` | `RedisSessionHandler` and the Redis commands it issues |
| `memcached_handler.dfy` | `MemcachedHandler` | `MemcachedSessionHandler` and the Memcached calls it makes |

Each backend's storage is an object of its own, held in a `const` field of the handler:

- `SessionFolder`, a map from path to file or folder;
- `SessionTable`, a map from ID to row;
- `RedisServer` and `MemcachedServer`, a map from key to an expiring entry, plus a clock.

Several handler objects can therefore share one store.

Time is explicit:

- `Session` and the file and database handlers take the current time as a parameter.
- The two key-value servers keep a clock in seconds. `sleep(1)` in the polling lock advances that clock by one second.

With that clock, the 31-attempt polling loop of `getLock` has an exact contract. The lock is taken exactly when the lock key becomes free within 30 seconds, and at the first second it is. Otherwise 31 seconds pass and nothing changes.

For the base `DatabaseSessionHandler`, which the SQLite setup uses, `releaseLock` is inherited and does not reset `sessionExists`. So a handler that has found a row and then switches to an ID with no row answers `true` to the next `write`. That `write` issues an UPDATE that matches nothing, and `SwitchedGenericHandlerUpdatesNothing` states the consequence. The MySQL and Postgres subclasses reset the flag, and `SwitchedAdvisoryHandlerInserts` shows that their next write inserts.

## Model

| member | source | states |
|---|---|---|
| HandlerBase.Replace | src/SessionHandler.php:36 | `array_replace_recursive` on one value: every key of the replacement reaches the result with its value, recursively; where both values are arrays, the keys are the union and base values are kept wherever the replacement is silent; otherwise the replacement wins |
| HandlerBase.ReplaceRecursive | src/SessionHandler.php:36 | merging two option arrays: the keys are the union, the base is kept where the replacement is silent, the replacement overrides every key it names, and a scalar replacement wins outright |
| HandlerBase.MergeConfig | src/SessionHandler.php:15-36 | a handler's config has the keys of the base defaults, the backend defaults and the options; caller options override backend defaults, which override the base defaults |
| HandlerBase.MergedSettings | src/SessionHandler.php:15-36 | a merged config always has a string `prefix` and an integer `expires`: the caller's if given, else the backend's, else `''` and 3600 |
| HandlerBase.PrepareKey | src/SessionHandler.php:121-124 | the storage key is the prefix followed by the ID, and both can be read back from it |
| HandlerBase.LockKey | src/Handlers/RedisSessionHandler.php:179-181 | the lock key is the session's storage key followed by `:lock` |
| HandlerBase.Truthy | src/Handlers/RedisSessionHandler.php:206 | PHP truthiness of a string: false exactly for `''` and `'0'` |
| HandlerBase.Holds | src/Handlers/RedisSessionHandler.php:206 | `!$this->sessionId` is false exactly when an ID is held and it is truthy |
| HandlerBase.PrepareKeyInjective | src/SessionHandler.php:121-124 | two IDs under one prefix never share a storage key |
| HandlerBase.LockKeyIsNotADataKey | src/Handlers/MemcachedSessionHandler.php:165-167 | a lock key is never the storage key of a well-formed session ID, so lock entries and session data never collide |
| SessionStore.RemoveAll | src/Session.php:310-323 | deleting a set of keys removes each from the values, `_flash` and `_temp`; every other key is untouched; the store stays consistent |
| SessionStore.Remove | src/Session.php:129-136 | `delete` removes the key from the values, `_flash` and `_temp`, and touches no other key |
| SessionStore.Put | src/Session.php:228-236 | `set` stores the value, drops the key's flash and temp marks, and touches no other key |
| SessionStore.PutFlash | src/Session.php:245-252 | `setFlash` stores the value and marks the key as flash, not temp; no other key changes |
| SessionStore.PutTemp | src/Session.php:262-269 | `setTemp` stores the value and records the key's expiry time, not a flash mark; no other key changes |
| SessionStore.ExpiredKeys | src/Session.php:310-323 | the keys of `_temp` whose expiry time is not after `now` |
| SessionStore.ClearTemp | src/Session.php:310-323 | the temp sweep deletes exactly the keys whose expiry time is not after `now`, keeps every other key unchanged, and leaves only future expiry times |
| SessionStore.RotateFlash | src/Session.php:328-337 | the flash rotation keeps the values, empties `_flash` and gives every former flash key expiry 0 in `_temp`; the other temp entries are unchanged |
| SessionStore.Stale | src/Session.php:292-294 | a loaded `_time` is stale when it is set and more than `expires` seconds before `now` |
| SessionStore.Refresh | src/Session.php:301-304 | a start sweeps temp values, then rotates flash values: no flash mark is left, no key is added, and every kept key keeps its value |
| SessionStore.FlashLastsOneStart | src/Session.php:301-304 | a flash value survives the next start, still readable but marked to expire, and is gone after the start after that |
| SessionStore.FlashGoneAfterRotateThenSweep | src/Session.php:328-337 | rotating and then sweeping at any time from 0 on removes a flash value |
| SessionStore.TempExpiresAt | src/Session.php:262-269 | a temp value set at `now` for `ttl` seconds survives a sweep at `at` if and only if `at < now + ttl` |
| SessionStore.RefreshEmpty | src/Session.php:292-299 | restarting after a stale session leaves an empty store |
| SessionStore.RefreshLeavesOnlyLiveOrRotated | src/Session.php:301-304 | after a start no flash mark is left, and every temp entry either expires in the future or is a flash value this start rotated |
| SessionStore.Session.Get | src/Session.php:154-157 | `get` is the stored value, or `null` for a key that is not set |
| SessionStore.Session.Has | src/Session.php:175-178 | `has` is key membership (`array_key_exists`): true exactly for a key that is set, which in the model is exactly when `get` yields `Some` |
| SessionStore.Session.Clear | src/Session.php:103-106 | the whole store, bookkeeping and `_time` included, becomes empty |
| SessionStore.Session.Set | src/Session.php:228-236 | the store becomes `Put` of the old store, and `get` then returns the value |
| SessionStore.Session.Delete | src/Session.php:129-136 | the store becomes `Remove` of the old store, and `has` is then false |
| SessionStore.Session.Consume | src/Session.php:114-121 | returns what `get` returned before, deletes the key, and `has` is then false |
| SessionStore.Session.Destroy | src/Session.php:141-146 | the session is no longer active and the store is empty |
| SessionStore.Session.SetFlash | src/Session.php:245-252 | the store becomes `PutFlash` of the old store |
| SessionStore.Session.SetTemp | src/Session.php:262-269 | the store becomes `PutTemp` of the old store, with expiry `now + expire`; `expire` defaults to 300 |
| SessionStore.Session.ClearTempData | src/Session.php:310-323 | the loop over a copy of `_temp` leaves exactly `ClearTemp` of the old store |
| SessionStore.Session.RotateFlashData | src/Session.php:328-337 | the loop over `_flash` leaves exactly `RotateFlash` of the old store |
| SessionStore.Session.Start | src/Session.php:276-305 | on an active session: the "already started" error and nothing changes. Otherwise: the session becomes active and `_time` becomes `now`; a stale `_time` (older than `expires`) ends with an empty store; any other start loads the store, then sweeps temp values and rotates flash values |
| SessionStore.SetThenConsume | tests/SessionTest.php:18-30 | a value set and then consumed is returned, and the key is gone |
| FileHandler.JoinPath | src/Handlers/FileSessionHandler.php:133 | the file path is the folder path, a `/` and the key (an assumption about `Path::join`, see below) |
| FileHandler.FileSessionHandler.FilePath | src/Handlers/FileSessionHandler.php:132-133 | the session file is the folder path joined with the prepared key |
| FileHandler.ContentsAt | src/Handlers/FileSessionHandler.php:95-102 | a file's contents, and `''` where there is no file |
| FileHandler.Opened | src/Handlers/FileSessionHandler.php:135-137 | opening in `c+b` mode creates an empty file only where nothing exists, and keeps every existing entry and its contents |
| FileHandler.Collectable | src/Handlers/FileSessionHandler.php:56-73 | `gc` removes exactly the files (not folders) modified before `maxLife` |
| FileHandler.CollectOne | src/Handlers/FileSessionHandler.php:68-69 | one deletion adds exactly the deleted file to the removed set and one to the count |
| FileHandler.SessionFolder.Open | src/Handlers/FileSessionHandler.php:137 | the folder becomes `Opened` of the old folder |
| FileHandler.SessionFolder.Overwrite | src/Handlers/FileSessionHandler.php:117-119 | truncate, rewind and write leave exactly `data` in the file |
| FileHandler.SessionFolder.Delete | src/Handlers/FileSessionHandler.php:45 | the entry is removed and nothing else changes |
| FileHandler.FileSessionHandler.constructor | src/SessionHandler.php:32-37 | the prefix is the merged configuration's prefix, and no ID is held |
| FileHandler.FileSessionHandler.GetLock | src/Handlers/FileSessionHandler.php:130-144 | the session file is opened (and created if missing) and becomes the held file; the ID is held; it always succeeds |
| FileHandler.FileSessionHandler.ReleaseLock | src/Handlers/FileSessionHandler.php:151-164 | with no truthy held ID it changes nothing; otherwise it closes the file and forgets the ID; it always succeeds |
| FileHandler.FileSessionHandler.CheckSession | src/SessionHandler.php:93-100 | asking for the held ID changes nothing; any other ID is held afterwards, with its file opened |
| FileHandler.FileSessionHandler.Read | src/Handlers/FileSessionHandler.php:95-102 | the file's contents, `''` for a session never written |
| FileHandler.FileSessionHandler.Write | src/Handlers/FileSessionHandler.php:111-122 | the session file holds exactly `data` (it overwrites, it does not append) and nothing else in the folder changes |
| FileHandler.FileSessionHandler.Destroy | src/Handlers/FileSessionHandler.php:39-48 | the session file is deleted, and the ID stays held |
| FileHandler.FileSessionHandler.Close | src/Handlers/FileSessionHandler.php:29-32 | exactly the lock release |
| FileHandler.FileSessionHandler.Gc | src/Handlers/FileSessionHandler.php:56-73 | the loop deletes exactly the `Collectable` files and returns their number |
| FileHandler.GcRemovesEveryOldFile | tests/FileTest.php:19-42 | `gc(-1)` on a folder of files written at or before `now` empties it and reports every file |
| FileHandler.GcKeepsFoldersAndRecentFiles | src/Handlers/FileSessionHandler.php:64-66 | `gc` never removes a sub-folder or a file modified at or after the cut-off |
| FileHandler.WriteReadOverwrite | tests/FileTest.php:44-89 | a never-written session reads `''`, a write is read back, and a second write replaces the first |
| DatabaseHandler.Expired | src/Handlers/DatabaseSessionHandler.php:95-101 | `gc`'s row condition: created before the cut-off and never modified, or modified before the cut-off |
| DatabaseHandler.ExpiredIds | src/Handlers/DatabaseSessionHandler.php:88-106 | the IDs of exactly the rows that match `gc`'s condition |
| DatabaseHandler.ExpiredIffLastTouchedBefore | src/Handlers/DatabaseSessionHandler.php:92-101 | for rows `write` produces, `gc`'s condition is exactly "last written before the cut-off" |
| DatabaseHandler.GcRemovesEveryWrittenRow | tests/MysqlTest.php:26-52 | `gc(-1)` on rows all written at or before `now` deletes every row and reports the table's size |
| DatabaseHandler.DatabaseSessionHandler.constructor | src/Handlers/DatabaseSessionHandler.php:31-49 | no ID is held and no row is known to exist |
| DatabaseHandler.DatabaseSessionHandler.BaseGetLock | src/SessionHandler.php:108-113 | records the ID and succeeds |
| DatabaseHandler.DatabaseSessionHandler.BaseReleaseLock | src/SessionHandler.php:131-136 | forgets the ID and succeeds, leaving `sessionExists` as it was |
| DatabaseHandler.DatabaseSessionHandler.MysqlGetLock | src/Handlers/Database/MysqlSessionHandler.php:22-36 | succeeds exactly when `GET_LOCK` returns a row, and only then records the ID |
| DatabaseHandler.DatabaseSessionHandler.MysqlReleaseLock | src/Handlers/Database/MysqlSessionHandler.php:43-67 | with no truthy held ID it succeeds and changes nothing; if `RELEASE_LOCK` returns no row it fails and changes nothing; otherwise it forgets the ID and resets `sessionExists` |
| DatabaseHandler.DatabaseSessionHandler.PostgresGetLock | src/Handlers/Database/PostgresSessionHandler.php:41-55 | succeeds exactly when `pg_advisory_lock` returns a row, and only then records the ID |
| DatabaseHandler.DatabaseSessionHandler.PostgresReleaseLock | src/Handlers/Database/PostgresSessionHandler.php:62-86 | as for MySQL, with `pg_advisory_unlock` |
| DatabaseHandler.DatabaseSessionHandler.GetLock | src/Handlers/Database/MysqlSessionHandler.php:22-36 | the class's `getLock`: always succeeds for the base class, and otherwise exactly when the lock query returns a row |
| DatabaseHandler.DatabaseSessionHandler.ReleaseLock | src/Handlers/Database/MysqlSessionHandler.php:43-67 | the class's `releaseLock`: which ID stays held, and whether `sessionExists` is reset, for each class and each reply |
| DatabaseHandler.DatabaseSessionHandler.CheckSession | src/SessionHandler.php:93-100 | the held ID is a no-op success; otherwise it releases first, and tries the lock only after a successful release; it fails exactly when either step fails; the table is untouched |
| DatabaseHandler.DatabaseSessionHandler.HeldAfterCheck | src/SessionHandler.php:93-100 | the ID held after `checkSession`: the requested ID exactly when it is locked; the old ID after a failed release; what the release left after a failed lock |
| DatabaseHandler.DatabaseSessionHandler.GetResult | src/Handlers/DatabaseSessionHandler.php:197-221 | the row's data when the ID can be locked and has a row, which then sets `sessionExists`; nothing otherwise; the held ID and `sessionExists` are those `checkSession` leaves on every path |
| DatabaseHandler.DatabaseSessionHandler.Read | src/Handlers/DatabaseSessionHandler.php:132-141 | `''` when the lock fails or there is no row, else the row's data; the held ID and `sessionExists` are those `checkSession` leaves, with `sessionExists` set once a row is found |
| DatabaseHandler.DatabaseSessionHandler.Write | src/Handlers/DatabaseSessionHandler.php:150-189 | after the lock: an INSERT of `(data, now, now)` when no row is known to exist, which fails for an existing ID; else an UPDATE of `data` and `modified` that keeps `created`; success sets `sessionExists`; a failure leaves the held ID and `sessionExists` as `checkSession` left them, and a failed lock leaves the table unchanged |
| DatabaseHandler.DatabaseSessionHandler.Destroy | src/Handlers/DatabaseSessionHandler.php:66-80 | a failed lock leaves the table unchanged, and the held ID and `sessionExists` as `checkSession` left them; after the lock the row is deleted, the result is the lock release's, and the held ID and `sessionExists` follow that release |
| DatabaseHandler.DatabaseSessionHandler.Close | src/Handlers/DatabaseSessionHandler.php:56-59 | exactly the lock release |
| DatabaseHandler.DatabaseSessionHandler.Gc | src/Handlers/DatabaseSessionHandler.php:88-106 | deletes exactly the `ExpiredIds` rows at cut-off `now - expires` and returns their number |
| DatabaseHandler.ReadWriteUpdate | tests/MysqlTest.php:54-99 | on a fresh handler: reading an unknown ID gives `''`, the first write inserts, the second updates, and each read returns the last data written |
| DatabaseHandler.SwitchedAdvisoryHandlerInserts | src/Handlers/Database/MysqlSessionHandler.php:59-66 | after a MySQL or Postgres handler switches IDs, its next write inserts a row |
| DatabaseHandler.SwitchedGenericHandlerUpdatesNothing | src/SessionHandler.php:131-136 | after the base handler has found a row and switches to an ID with no row, its next write reports success and changes no row |
| ExpiringStore.Lookup | src/Handlers/RedisSessionHandler.php:146 | a read returns a live entry's value, and nothing for a missing or expired key |
| RedisHandler.LockedAt | src/Handlers/RedisSessionHandler.php:185 | `getLock`'s test: the lock key is held while its TTL is positive |
| RedisHandler.Polled | src/Handlers/RedisSessionHandler.php:182-196 | the do-while polling loop on values: success exactly when the lock key is free at some second within 30, taken at the first such second with TTL 300; otherwise 31 seconds pass and the keys are unchanged |
| RedisHandler.TtlAt | src/Handlers/RedisSessionHandler.php:185 | Redis `TTL`: -2 for a missing key, -1 for a key without expiry, otherwise the seconds left, which are positive |
| RedisHandler.RedisServer.SetEx | src/Handlers/RedisSessionHandler.php:191 | `SETEX` stores the value with expiry `clock + ttl`, and fails without change for a TTL that is not positive |
| RedisHandler.RedisServer.Del | src/Handlers/RedisSessionHandler.php:212 | `DEL` removes a live key and counts 1, and counts 0 without change otherwise |
| RedisHandler.RedisServer.Sleep | src/Handlers/RedisSessionHandler.php:186 | one second passes and the keys are unchanged |
| RedisHandler.RedisDefaultSettings | src/Handlers/RedisSessionHandler.php:18-32 | without options, keys are prefixed `session:` and `expires` is 3600 |
| RedisHandler.RedisSessionHandler.constructor | src/SessionHandler.php:32-37 | the prefix and expiry are those of the merged configuration, and no ID is held |
| RedisHandler.RedisSessionHandler.GetLock | src/Handlers/RedisSessionHandler.php:177-197 | the lock is taken, with TTL 300, exactly when the lock key is free within 30 seconds, and at the first second it is; otherwise, after 31 attempts, 31 seconds have passed and neither the keys nor the held ID changed |
| RedisHandler.RedisSessionHandler.ReleaseLock | src/Handlers/RedisSessionHandler.php:204-219 | with no truthy held ID it succeeds and changes nothing; otherwise it succeeds exactly when the lock key was live, and only then deletes it and forgets the ID |
| RedisHandler.RedisSessionHandler.CheckSession | src/SessionHandler.php:93-100 | the held ID changes nothing; otherwise a failed release fails without polling; after a release (or with nothing held) the result is exactly that of the polling for the new ID's lock |
| RedisHandler.RedisSessionHandler.Read | src/Handlers/RedisSessionHandler.php:138-147 | after `checkSession`, the stored value when the lock is held and the key is live, `''` otherwise |
| RedisHandler.RedisSessionHandler.Write | src/Handlers/RedisSessionHandler.php:156-169 | `checkSession` first, as `Checked` gives it; then success exactly when the ID is held and `expires` is positive, and `data` is stored under the session's key with TTL `expires`, overwriting any earlier value; a failure leaves the server as the check left it |
| RedisHandler.RedisSessionHandler.Destroy | src/Handlers/RedisSessionHandler.php:57-70 | `checkSession` first, as `Checked` gives it; a failed check fails and leaves the server as the check left it; deleting a missing key fails and keeps the lock; otherwise the key is gone and the result, held ID and lock key follow the lock release |
| RedisHandler.RedisSessionHandler.Close | src/Handlers/RedisSessionHandler.php:41-50 | closes the connection exactly when the lock release succeeds; a successful release of a truthy ID deletes exactly its lock key and forgets the ID; otherwise it fails and changes nothing |
| RedisHandler.RedisSessionHandler.Gc | src/Handlers/RedisSessionHandler.php:78-81 | reports 1 and changes nothing |
| RedisHandler.WriteReadOverwrite | tests/RedisTest.php:20-65 | with the lock free, a never-written ID reads `''`, a write is read back, and a second write replaces the first |
| RedisHandler.SecondHandlerIsLockedOut | src/Handlers/RedisSessionHandler.php:184-196 | while one handler holds an ID's lock, a second handler on the same server gives up on that ID and reads `''` |
| RedisHandler.LockedOutWriteChangesNothing | src/Handlers/RedisSessionHandler.php:156-160 | a write to an ID whose lock stays held for 30 more seconds fails after 31 seconds and leaves every key unchanged |
| MemcachedHandler.ExpiryFor | src/Handlers/MemcachedSessionHandler.php:150 | the expiry a `set` with expiration time `exptime` gives: never for 0, already past for a negative value, `now + exptime` up to thirty days, the absolute time `exptime` beyond |
| MemcachedHandler.LockedAt | src/Handlers/MemcachedSessionHandler.php:171 | `getLock`'s test: `get` of the lock key returns a truthy value |
| MemcachedHandler.Polled | src/Handlers/MemcachedSessionHandler.php:168-185 | the do-while polling loop on values: success exactly when `get` of the lock key stops being truthy at some second within 30, set to `'1'` for 300 seconds at the first such second; otherwise 31 seconds pass and the items are unchanged |
| MemcachedHandler.RelativeExpiration | src/Handlers/MemcachedSessionHandler.php:150 | an item set with an expiration time of up to thirty days is visible for exactly that many seconds |
| MemcachedHandler.SpecialExpirations | src/Handlers/MemcachedSessionHandler.php:150 | an item set with expiration time 0 never expires; one set with a negative time is never visible |
| MemcachedHandler.MemcachedServer.Set | src/Handlers/MemcachedSessionHandler.php:177 | `set` stores the value with the expiry its expiration time gives, and succeeds |
| MemcachedHandler.MemcachedServer.Delete | src/Handlers/MemcachedSessionHandler.php:214 | `delete` removes a live item and succeeds, and fails without change otherwise |
| MemcachedHandler.MemcachedServer.Sleep | src/Handlers/MemcachedSessionHandler.php:172 | one second passes and the items are unchanged |
| MemcachedHandler.MemcachedDefaultSettings | src/Handlers/MemcachedSessionHandler.php:18-23 | without options, keys are prefixed `session:` and `expires` is 3600 |
| MemcachedHandler.MemcachedSessionHandler.constructor | src/SessionHandler.php:32-37 | the prefix and expiry are those of the merged configuration, and no ID is held |
| MemcachedHandler.MemcachedSessionHandler.GetLock | src/Handlers/MemcachedSessionHandler.php:163-185 | the lock is set to `'1'` for 300 seconds exactly when `get` of the lock key stops returning a truthy value within 30 seconds, and at the first second it does; otherwise 31 seconds pass and nothing changes |
| MemcachedHandler.MemcachedSessionHandler.ReleaseLock | src/Handlers/MemcachedSessionHandler.php:206-221 | with no truthy held ID it succeeds and changes nothing; otherwise it succeeds exactly when the lock item was live, and only then deletes it and forgets the ID |
| MemcachedHandler.MemcachedSessionHandler.CheckSession | src/SessionHandler.php:93-100 | as for Redis, with Memcached's lock test |
| MemcachedHandler.MemcachedSessionHandler.Read | src/Handlers/MemcachedSessionHandler.php:118-133 | `''` when the lock fails or `get` reports `RES_NOTFOUND`; otherwise the stored value |
| MemcachedHandler.MemcachedSessionHandler.Write | src/Handlers/MemcachedSessionHandler.php:142-155 | `checkSession` first, as `Checked` gives it; then success exactly when the ID is held, and `data` is stored with the expiry `ExpiryFor(expires)` gives, readable at once for any `expires` from 0 to thirty days; a failure leaves the server as the check left it |
| MemcachedHandler.MemcachedSessionHandler.Destroy | src/Handlers/MemcachedSessionHandler.php:48-65 | `checkSession` first, as `Checked` gives it; a failed check fails and leaves the server as the check left it; a failed delete, or a cookie that cannot be destroyed, fails and keeps the lock; otherwise the item is gone and the result, held ID and lock item follow the lock release |
| MemcachedHandler.MemcachedSessionHandler.Close | src/Handlers/MemcachedSessionHandler.php:32-41 | quits exactly when the lock release succeeds; a successful release of a truthy ID deletes exactly its lock item and forgets the ID; otherwise it fails and changes nothing |
| MemcachedHandler.MemcachedSessionHandler.Gc | src/Handlers/MemcachedSessionHandler.php:73-76 | reports 1 and changes nothing |
| MemcachedHandler.WriteReadOverwrite | tests/MemcachedTest.php:20-65 | with the lock free, a never-written ID reads `''`, a write is read back, and a second write replaces the first |
| MemcachedHandler.SecondHandlerIsLockedOut | src/Handlers/MemcachedSessionHandler.php:170-184 | while one handler holds an ID's lock, a second handler on the same server gives up on that ID and reads `''` |
| MemcachedHandler.LockedOutWriteChangesNothing | src/Handlers/MemcachedSessionHandler.php:142-146 | a write to an ID whose lock stays held for 30 more seconds fails after 31 seconds and leaves every item unchanged |

## Left out

- Each `Session` constructor: the `ini_set` calls, the container, `session_set_save_handler` and the shutdown registration are PHP runtime wiring. The class checks that throw `forInvalidClass` are left out with them.
- `Session` methods that wrap PHP session functions are left out: `refresh` (`setcookie`, `session_regenerate_id`), `id`, `isActive` and `getHandler`.
- The CLI branch of `start` is a host-environment special case and is left out.
- `session_start` is modelled as supplying the loaded store and `_time`. `session_destroy` only ends the session.
- After a stale session is destroyed, the restart is assumed to load an empty store, because the handler has destroyed the record.
- SessionStore.Session.Get: values are of a type parameter, so a stored PHP `null` is not modelled. In PHP, after `set('k', null)`, `has('k')` is true while `get('k')` is `null`, as for a missing key. The model's `Some(v)` keeps the two apart, so its `has` is "`get` yields `Some`" only in the model.
- The reserved `_flash`, `_temp` and `_time` entries are separate fields, not keys of the value map. A user key named `_flash`, `_temp` or `_time` would clash with them in PHP; the model does not capture that clash.
- `start` calls `time()` several times. The model uses one `now` for the whole start.
- Every handler's `open` is left out: connecting, authenticating, selecting a database, `getStats` and the schema lookup, and the exceptions they raise. All are I/O against libraries outside this model.
- The exception message factories of `SessionException` are left out. The one condition the core raises is the `SessionStarted` error.
- Locks are not modelled across processes. The file lock (`flock`) and the database advisory locks are assumed to be granted, or their replies are oracles. Several Redis or Memcached handlers sharing one server object stand in for several processes, and the interleaving of their steps is not modelled.
- Network failures are not modelled: a Redis or Memcached command that throws, or a query that throws. A `set` to Memcached always succeeds.
- SQL text, the query builder, `DateTime` and the column type conversion are left out. Timestamps are integers.
- Postgres's stream decode of the `data` column is the identity.
- DatabaseHandler.DatabaseSessionHandler.Write: an INSERT of an ID that already has a row is modelled as a failed (false) result. The database library may raise an exception instead.
- FileHandler.FileSessionHandler.Destroy: the handle stays open on the deleted file. A later `write` through that handle is modelled as re-creating the file at its path.
- FileHandler.JoinPath: `Path::join` belongs to a library outside this model. It is assumed to be plain concatenation with one `/`, with no normalisation of `.`, `..` or repeated separators.
- FileHandler.FileSessionHandler.GetLock: `chmod(0600)` is left out. So is a session key naming an existing sub-folder, which `open('c+b')` cannot open.
- MemcachedHandler.MemcachedSessionHandler.Destroy: `destroyCookie()` is not defined in `src/SessionHandler.php` or any other class shown. Its result is taken as the parameter `cookieDestroyed`, and its effect on the cookie is not part of this model.
- DatabaseHandler.DatabaseSessionHandler.MysqlGetLock: the lock replies are oracles for "the query reported success". The code tests only that `->first()` returned a row. A `SELECT` of a function call always returns one row, so a `GET_LOCK` that timed out (value 0), or a `RELEASE_LOCK` or `pg_advisory_unlock` of a lock not held, would still count as success. That reading of the query's value is not part of this model, because the query layer is not.
- RedisHandler.TtlAt: Redis rounds the remaining milliseconds. The model keeps expiry times in whole seconds.
- Constructors require the `prefix` option, when given, to be a string and `expires` to be an integer, as the handlers use them.
