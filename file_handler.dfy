/**
 * The file backend: one file per session in a session folder, named by the
 * session's key; holding the session means holding that file open under an
 * exclusive lock.
 */
module FileHandler {
  import opened Wrappers
  import opened HandlerBase

  /** An entry of the session folder: a file with its contents and modification time, or a sub-folder. */
  datatype Item = File(contents: string, mtime: int) | Dir

  /** `Path::join` of the folder path and an entry name. */
  function JoinPath(dir: string, name: string): (path: string)
    ensures |path| == |dir| + 1 + |name|
    ensures path[..|dir|] == dir && path[|dir|..] == "/" + name
  {
    dir + "/" + name
  }

  /** The contents of the file at `path`, and `''` where there is no file. */
  function ContentsAt(entries: map<string, Item>, path: string): (data: string)
    ensures path in entries && entries[path].File? ==> data == entries[path].contents
    ensures !(path in entries && entries[path].File?) ==> data == ""
  {
    if path in entries && entries[path].File? then entries[path].contents else ""
  }

  /** The folder after opening `path` in `c+b` mode: an empty file is created if nothing is there. */
  function Opened(entries: map<string, Item>, path: string, now: int): (r: map<string, Item>)
    ensures path in r && ContentsAt(r, path) == ContentsAt(entries, path)
    ensures forall p :: p in entries ==> p in r && r[p] == entries[p]
    ensures forall p :: p in r && p != path ==> p in entries
  {
    if path in entries then entries else entries[path := File("", now)]
  }

  /** The files that `gc` removes: every file (not folder) modified before `maxLife`. */
  function Collectable(entries: map<string, Item>, maxLife: int): (names: set<string>)
    ensures forall p :: p in names <==> p in entries && entries[p].File? && entries[p].mtime < maxLife
  {
    set p | p in entries && entries[p].File? && entries[p].mtime < maxLife
  }

  /** One step of `gc`'s walk: deleting a collectable `name` adds it to the removed set and the count. */
  lemma CollectOne(contents: map<string, Item>, doomed: set<string>, pending: set<string>, name: string)
    requires name in doomed && name in pending
    ensures doomed - (pending - {name}) == (doomed - pending) + {name}
    ensures |doomed - (pending - {name})| == |doomed - pending| + 1
    ensures contents - (doomed - (pending - {name})) == (contents - (doomed - pending)) - {name}
  {
    var removed := doomed - pending;
    assert name !in removed;
    assert doomed - (pending - {name}) == removed + {name};
  }

  /** One step of `gc`'s walk: skipping a folder or a recent file leaves the removed set as it was. */
  lemma SkipOne(contents: map<string, Item>, maxLife: int, doomed: set<string>, pending: set<string>, name: string)
    requires doomed == Collectable(contents, maxLife)
    requires name in contents && (contents[name].Dir? || contents[name].mtime >= maxLife)
    ensures doomed - (pending - {name}) == doomed - pending
  {
    assert name !in doomed;
  }

  /** The session folder, an abstract directory listing keyed by path. */
  class SessionFolder {
    var entries: map<string, Item>

    constructor (entries: map<string, Item>)
      ensures this.entries == entries
    {
      this.entries := entries;
    }

    /** `File::open('c+b')`. */
    method Open(path: string, now: int)
      modifies this
      ensures entries == Opened(old(entries), path, now)
    {
      if path !in entries {
        entries := entries[path := File("", now)];
      }
    }

    /** `truncate()`, `rewind()` and `write($data)` on an open file. */
    method Overwrite(path: string, data: string, now: int)
      modifies this
      ensures entries == old(entries)[path := File(data, now)]
    {
      entries := entries[path := File("", now)];
      entries := entries[path := File(data, now)];
    }

    /** `delete()` on an entry. */
    method Delete(path: string)
      modifies this
      ensures entries == old(entries) - {path}
    {
      entries := entries - {path};
    }
  }

  class FileSessionHandler {
    const prefix: string
    const path: string
    const folder: SessionFolder
    /** The open, locked session file, by path. */
    var file: Option<string>
    var sessionId: Option<string>

    /** The file of a session ID: the folder path joined with the session's key. */
    function FilePath(id: string): string
      reads this
    {
      JoinPath(path, PrepareKey(prefix, id))
    }

    /** The open file is always the held session's file. */
    ghost predicate Valid()
      reads this
    {
      file == if sessionId.Some? then Some(FilePath(sessionId.value)) else None
    }

    constructor (options: Options, path: string, folder: SessionFolder)
      requires Typed(options)
      ensures Valid() && sessionId.None?
      ensures prefix == PrefixOf(MergeConfig(BaseDefaults, options))
      ensures this.path == path && this.folder == folder
    {
      prefix := PrefixOf(MergeConfig(BaseDefaults, options));
      this.path := path;
      this.folder := folder;
      file := None;
      sessionId := None;
    }

    /** `getLock($id)`: opens (creating if needed) and locks the session's file; it always succeeds. */
    method GetLock(id: string, now: int) returns (ok: bool)
      modifies this, folder
      ensures ok && sessionId == Some(id) && file == Some(FilePath(id)) && Valid()
      ensures folder.entries == Opened(old(folder.entries), FilePath(id), now)
    {
      var filePath := FilePath(id);
      folder.Open(filePath, now);
      file := Some(filePath);
      // chmod(0600) and lock(LOCK_EX) block until the lock is held
      sessionId := Some(id);
      ok := true;
    }

    /**
     * `releaseLock()`: when a (truthy) ID is held, unlocks and closes its
     * file and forgets the ID; it always succeeds.
     */
    method ReleaseLock() returns (ok: bool)
      requires Valid()
      modifies this
      ensures ok && Valid()
      ensures !Holds(old(sessionId)) ==> sessionId == old(sessionId) && file == old(file)
      ensures Holds(old(sessionId)) ==> sessionId.None? && file.None?
    {
      if !Holds(sessionId) {
        return true;
      }
      file := None;
      sessionId := None;
      ok := true;
    }

    /** `checkSession($id)`: release, then lock the new ID, unless it is already held. */
    method CheckSession(id: string, now: int) returns (ok: bool)
      requires Valid()
      modifies this, folder
      ensures ok && Valid() && sessionId == Some(id)
      ensures CheckSessionOutcome(old(sessionId), id, ok, sessionId)
      ensures old(sessionId) == Some(id) ==> folder.entries == old(folder.entries) && file == old(file)
      ensures old(sessionId) != Some(id) ==> folder.entries == Opened(old(folder.entries), FilePath(id), now)
    {
      if sessionId == Some(id) {
        return true;
      }
      ok := ReleaseLock();
      if ok {
        ok := GetLock(id, now);
      }
    }

    /** `read($id)`: the session file's contents, `''` for a session never written. */
    method Read(id: string, now: int) returns (data: string)
      requires Valid()
      modifies this, folder
      ensures Valid() && sessionId == Some(id)
      ensures data == ContentsAt(old(folder.entries), FilePath(id))
      ensures FilePath(id) !in old(folder.entries) ==> data == ""
      ensures old(sessionId) == Some(id) ==> folder.entries == old(folder.entries)
      ensures old(sessionId) != Some(id) ==> folder.entries == Opened(old(folder.entries), FilePath(id), now)
    {
      var ok := CheckSession(id, now);
      if !ok {
        return "";
      }
      data := ContentsAt(folder.entries, file.value);
    }

    /** `write($id, $data)`: the session file's contents become exactly `data`. */
    method Write(id: string, data: string, now: int) returns (ok: bool)
      requires Valid()
      modifies this, folder
      ensures ok && Valid() && sessionId == Some(id)
      ensures folder.entries == old(folder.entries)[FilePath(id) := File(data, now)]
    {
      ok := CheckSession(id, now);
      if !ok {
        return false;
      }
      folder.Overwrite(file.value, data, now);
      ok := true;
    }

    /** `destroy($id)`: deletes the session file but keeps the file handle and the held ID. */
    method Destroy(id: string, now: int) returns (ok: bool)
      requires Valid()
      modifies this, folder
      ensures ok && Valid() && sessionId == Some(id)
      ensures folder.entries == old(folder.entries) - {FilePath(id)}
    {
      ok := CheckSession(id, now);
      if !ok {
        return false;
      }
      folder.Delete(file.value);
      ok := true;
    }

    /** `close()`: exactly `releaseLock()`. */
    method Close() returns (ok: bool)
      requires Valid()
      modifies this
      ensures ok && Valid()
      ensures !Holds(old(sessionId)) ==> sessionId == old(sessionId)
      ensures Holds(old(sessionId)) ==> sessionId.None? && file.None?
    {
      ok := ReleaseLock();
    }

    /**
     * `gc($expires)` at time `now`: walks the folder listing, skips
     * sub-folders and files modified at or after `now - expires`, deletes
     * the rest and counts them.
     */
    method Gc(expires: int, now: int) returns (deleted: nat)
      modifies folder
      ensures folder.entries == old(folder.entries) - Collectable(old(folder.entries), now - expires)
      ensures deleted == |Collectable(old(folder.entries), now - expires)|
    {
      var maxLife := now - expires;
      var contents := folder.entries;
      ghost var doomed := Collectable(contents, maxLife);
      var pending := contents.Keys;
      deleted := 0;
      while pending != {}
        invariant pending <= contents.Keys
        invariant folder.entries == contents - (doomed - pending)
        invariant deleted == |doomed - pending|
        decreases pending
      {
        var name :| name in pending;
        var item := contents[name];
        if item.Dir? || item.mtime >= maxLife {
          SkipOne(contents, maxLife, doomed, pending, name);
          pending := pending - {name};
          continue;
        }
        CollectOne(contents, doomed, pending, name);
        deleted := deleted + 1;
        folder.Delete(name);
        pending := pending - {name};
      }
    }
  }

  /**
   * `gc(-1)` at time `now` over a folder holding only files last modified
   * at or before `now` removes every one of them and reports how many.
   */
  lemma GcRemovesEveryOldFile(entries: map<string, Item>, now: int)
    requires forall p :: p in entries ==> entries[p].File? && entries[p].mtime <= now
    ensures Collectable(entries, now - -1) == entries.Keys
    ensures entries - Collectable(entries, now - -1) == map[]
    ensures |Collectable(entries, now - -1)| == |entries|
  {
    assert Collectable(entries, now + 1) == entries.Keys;
  }

  /** `gc` never removes a sub-folder or a file modified at or after the cut-off. */
  lemma GcKeepsFoldersAndRecentFiles(entries: map<string, Item>, maxLife: int, p: string)
    requires p in entries && (entries[p].Dir? || entries[p].mtime >= maxLife)
    ensures p in entries - Collectable(entries, maxLife)
    ensures (entries - Collectable(entries, maxLife))[p] == entries[p]
  {
  }

  /**
   * The `testRead`/`testUpdate` scenario: a read of a never-written ID is
   * `''`, a write is read back, and a second write replaces the first.
   */
  method WriteReadOverwrite(h: FileSessionHandler, id: string, first: string, second: string, now: int)
    returns (unwritten: string, readFirst: string, readSecond: string)
    requires h.Valid() && h.FilePath(id) !in h.folder.entries
    modifies h, h.folder
    ensures h.Valid() && h.sessionId == Some(id)
    ensures unwritten == "" && readFirst == first && readSecond == second
    ensures h.folder.entries == old(h.folder.entries)[h.FilePath(id) := File(second, now)]
  {
    unwritten := h.Read(id, now);
    var ok := h.Write(id, first, now);
    readFirst := h.Read(id, now);
    ok := h.Write(id, second, now);
    readSecond := h.Read(id, now);
  }
}
