/**
  The databases on disk and the handle that a chain operation opens on one of them. The database
  library appears only through its contract: opening is exclusive, creating fails on an existing
  database and opening on a missing one, a batch is applied as a whole, destroying a missing database
  succeeds. Any call may fail, as long as the disk has faults left to inject.
 */
module Storage {
  import opened Basics
  import opened Layout

  type Files = map<string, Db>

  class Disk {
    var files: Files
    /** The paths that some handle has open. */
    var locks: set<string>
    /** How many more calls may fail for reasons of their own. */
    var faults: nat
    /** Whether a write that was reported as failed was certainly not applied. */
    const faithful: bool

    constructor (faults: nat, faithful: bool)
      ensures files == map[] && locks == {} && this.faults == faults && this.faithful == faithful
    {
      files, locks, this.faults, this.faithful := map[], {}, faults, faithful;
    }

    /** Whether the call at hand fails for reasons of its own. */
    method Fails() returns (failed: bool)
      modifies this`faults
      ensures faults <= old(faults)
      ensures old(faults) == 0 ==> !failed
    {
      failed := *;
      failed := failed && faults > 0;
      if failed {
        faults := faults - 1;
      }
    }
  }

  /** What a failed write may have done to the files. */
  ghost predicate FailedWrite(faithful: bool, before: Files, after: Files, intended: Files) {
    after == before || (!faithful && after == intended)
  }

  class Handle {
    const disk: Disk
    const path: string
    var isOpen: bool

    /** An open handle is what keeps its path locked, and its database is there. */
    ghost predicate Valid()
      reads this, disk
    {
      isOpen ==> path in disk.locks && path in disk.files
    }

    constructor (disk: Disk, path: string)
      ensures this.disk == disk && this.path == path && !isOpen && Valid()
    {
      this.disk, this.path, isOpen := disk, path, false;
    }

    method Create() returns (ok: bool)
      requires Valid()
      modifies this`isOpen, disk
      ensures Valid() && disk.faults <= old(disk.faults)
      ensures ok ==> !old(isOpen) && isOpen && path !in old(disk.files) && path !in old(disk.locks)
      ensures ok ==> disk.files == old(disk.files)[path := map[]] && disk.locks == old(disk.locks) + {path}
      ensures !ok ==> isOpen == old(isOpen) && disk.locks == old(disk.locks)
      ensures !ok ==> disk.files == old(disk.files) ||
                      (path !in old(disk.files)
                          && FailedWrite(disk.faithful, old(disk.files), disk.files, old(disk.files)[path := map[]]))
      ensures old(disk.faults) == 0 && !old(isOpen) && path !in old(disk.files) && path !in old(disk.locks) ==>
                ok && disk.faults == 0
    {
      if isOpen {
        return false;
      }
      var failed := disk.Fails();
      if path in disk.files || path in disk.locks {
        return false;
      }
      if failed {
        var applied: bool := *;
        if applied && !disk.faithful {
          disk.files := disk.files[path := map[]];
        }
        return false;
      }
      disk.files, disk.locks, isOpen := disk.files[path := map[]], disk.locks + {path}, true;
      return true;
    }

    method Open() returns (ok: bool)
      requires Valid()
      modifies this`isOpen, disk`locks, disk`faults
      ensures Valid() && disk.faults <= old(disk.faults)
      ensures ok ==> !old(isOpen) && isOpen && path in disk.files && path !in old(disk.locks)
      ensures disk.locks == if ok then old(disk.locks) + {path} else old(disk.locks)
      ensures !ok ==> isOpen == old(isOpen)
      ensures old(disk.faults) == 0 && !old(isOpen) && path in disk.files && path !in old(disk.locks) ==>
                ok && disk.faults == 0
    {
      if isOpen {
        return false;
      }
      var failed := disk.Fails();
      if failed || path !in disk.files || path in disk.locks {
        return false;
      }
      disk.locks, isOpen := disk.locks + {path}, true;
      return true;
    }

    method Close() returns (ok: bool)
      modifies this`isOpen, disk`locks
      ensures ok == old(isOpen) && !isOpen
      ensures disk.locks == if ok then old(disk.locks) - {path} else old(disk.locks)
    {
      if !isOpen {
        return false;
      }
      disk.locks, isOpen := disk.locks - {path}, false;
      return true;
    }

    /** The destructor, which runs on every way out of the scope of a handle. */
    method Release()
      modifies this`isOpen, disk`locks
      ensures !isOpen
      ensures disk.locks == if old(isOpen) then old(disk.locks) - {path} else old(disk.locks)
    {
      if isOpen {
        disk.locks, isOpen := disk.locks - {path}, false;
      }
    }

    method Get(key: string) returns (value: Option<Bytes>)
      requires Valid()
      modifies disk`faults
      ensures disk.faults <= old(disk.faults)
      ensures value.Some? ==> isOpen && key in disk.files[path] && value.value == disk.files[path][key]
      ensures old(disk.faults) == 0 && isOpen ==> disk.faults == 0 && (key in disk.files[path] ==> value.Some?)
    {
      if !isOpen {
        return None;
      }
      var failed := disk.Fails();
      if failed || key !in disk.files[path] {
        return None;
      }
      return Some(disk.files[path][key]);
    }

    /** The pairs are collected in a batch, which is applied as a whole or not at all. */
    method Set(pairs: seq<(string, Bytes)>) returns (ok: bool)
      requires Valid()
      modifies disk`files, disk`faults
      ensures Valid() && disk.faults <= old(disk.faults)
      ensures ok ==> isOpen && disk.files == old(disk.files)[path := ApplyBatch(old(disk.files)[path], pairs)]
      ensures !ok ==> disk.files == old(disk.files) ||
                      (isOpen && FailedWrite(disk.faithful, old(disk.files), disk.files,
                                             old(disk.files)[path := ApplyBatch(old(disk.files)[path], pairs)]))
      ensures old(disk.faults) == 0 && isOpen ==> ok && disk.faults == 0
    {
      if !isOpen {
        return false;
      }
      var updated := disk.files[path];
      for i := 0 to |pairs|
        invariant updated == ApplyBatch(disk.files[path], pairs[..i])
      {
        assert pairs[..i + 1][..i] == pairs[..i];
        updated := updated[pairs[i].0 := pairs[i].1];
      }
      assert pairs[..|pairs|] == pairs;
      var failed := disk.Fails();
      var applied: bool := *;
      if !failed || (applied && !disk.faithful) {
        disk.files := disk.files[path := updated];
      }
      return !failed;
    }

    /** Destroys the database; a handle that has it open makes this fail. */
    method Remove() returns (ok: bool)
      modifies disk`files, disk`faults
      ensures disk.faults <= old(disk.faults)
      ensures path in disk.locks ==> !ok && disk.files == old(disk.files)
      ensures ok ==> disk.files == old(disk.files) - {path}
      ensures !ok ==> FailedWrite(disk.faithful, old(disk.files), disk.files, old(disk.files) - {path})
      ensures old(disk.faults) == 0 && path !in disk.locks ==> ok && disk.faults == 0
    {
      var failed := disk.Fails();
      if path in disk.locks {
        return false;
      }
      var applied: bool := *;
      if !failed || (applied && !disk.faithful) {
        disk.files := disk.files - {path};
      }
      return !failed;
    }
  }
}
