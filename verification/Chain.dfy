/** What each operation on one chain may do to the files, whether or not the database obeys. */
module Outcomes {
  import opened Basics
  import opened Records
  import opened Layout
  import opened Storage

  /** Creation: nothing, an empty database left without its header, or the new chain. */
  ghost predicate CreateOutcome(faithful: bool, before: Files, after: Files, path: string, created: Option<Db>,
                                ok: bool) {
    if path in before || created.None? then !ok && after == before
    else if ok then after == before[path := created.value]
    else after == before || after == before[path := map[]] || (!faithful && after == before[path := created.value])
  }

  /** An update of an existing database: nothing or all of it; when it fails, all of it only on an unfaithful disk. */
  ghost predicate UpdateOutcome(faithful: bool, before: Files, after: Files, path: string, updated: Option<Db>,
                                ok: bool) {
    if path !in before || updated.None? then !ok && after == before
    else if ok then after == before[path := updated.value]
    else FailedWrite(faithful, before, after, before[path := updated.value])
  }

  ghost predicate RemoveOutcome(faithful: bool, before: Files, after: Files, path: string, ok: bool) {
    if ok then after == before - {path} else FailedWrite(faithful, before, after, before - {path})
  }

  /** The append of a block as an update. */
  function Appended(files: Files, path: string, block: Block): Option<Db> {
    if path in files then AppendDb(files[path], block) else None
  }
}

/** `Chain`: each operation is one session with the database, from open to release. */
module Chains {
  import opened Basics
  import opened Crypto
  import opened Records
  import opened Names
  import opened Layout
  import opened Storage
  import opened Outcomes

  /** The vector that the callers of `getBlocks` pass by reference. */
  class BlockList {
    var items: seq<Block>

    constructor ()
      ensures items == []
    {
      items := [];
    }
  }

  class Chain {
    const disk: Disk
    const path: string

    constructor (disk: Disk, path: string)
      ensures this.disk == disk && this.path == path
    {
      this.disk, this.path := disk, path;
    }

    /** No handle has the database open and no call fails for reasons of its own. */
    ghost predicate Obeys()
      reads disk
    {
      disk.faults == 0 && path !in disk.locks
    }

    method Create(data: Bytes, privateKey: PrivateKey, publicKey: PublicKey) returns (ok: bool)
      modifies disk
      ensures disk.locks == old(disk.locks) && disk.faults <= old(disk.faults)
      ensures CreateOutcome(disk.faithful, old(disk.files), disk.files, path, CreatedDb(data, privateKey, publicKey),
                            ok)
      ensures old(Obeys()) ==> ok == (path !in old(disk.files) && CreatedDb(data, privateKey, publicKey).Some?)
    {
      hide HeaderBytes, PackHeader;
      var header := Header(DB_VERSION, 0, data, privateKey, publicKey);
      var buffer := PackHeader(header);
      if buffer.None? {
        return false;
      }
      var storage := new Handle(disk, path);
      var created := storage.Create();
      if !created {
        storage.Release();
        return false;
      }
      BatchOfOne(map[], DB_HEADER_KEY, buffer.value);
      var stored := storage.Set([(DB_HEADER_KEY, buffer.value)]);
      storage.Release();
      return stored;
    }

    method AddBlock(block: Block) returns (ok: bool)
      modifies disk
      ensures disk.locks == old(disk.locks) && disk.faults <= old(disk.faults)
      ensures UpdateOutcome(disk.faithful, old(disk.files), disk.files, path, Appended(old(disk.files), path, block),
                            ok)
      ensures old(Obeys()) ==> ok == Appended(old(disk.files), path, block).Some?
    {
      hide HeaderBytes, BlockBytes, PackHeader, PackBlock, BlockName, ReadCheckedHeader;
      var storage := new Handle(disk, path);
      var available := storage.Open();
      if !available {
        storage.Release();
        return false;
      }
      var header := CheckedHeader(storage);
      if header.None? {
        storage.Release();
        return false;
      }
      var bumped := header.value.(index := Increment(header.value.index));
      var headerData := PackHeader(bumped);
      if headerData.None? {
        storage.Release();
        return false;
      }
      var blockData := PackBlock(block);
      if blockData.None? {
        storage.Release();
        return false;
      }
      BatchOfTwo(disk.files[path], DB_HEADER_KEY, headerData.value, BlockName(bumped.index as nat), blockData.value);
      var stored := storage.Set([(DB_HEADER_KEY, headerData.value), (BlockName(bumped.index as nat), blockData.value)]);
      storage.Release();
      return stored;
    }

    method GetBlock(index: uint64) returns (block: Option<Block>)
      modifies disk
      ensures disk.locks == old(disk.locks) && disk.faults <= old(disk.faults) && disk.files == old(disk.files)
      ensures block.Some? ==> path in disk.files && block == FindBlock(disk.files[path], index)
      ensures old(Obeys()) && path in disk.files ==> block == FindBlock(disk.files[path], index)
    {
      hide ReadCheckedHeader, BlockName, UnpackBlock;
      var storage := new Handle(disk, path);
      var available := storage.Open();
      if !available {
        storage.Release();
        return None;
      }
      var header := CheckedHeader(storage);
      if header.None? || index == 0 || header.value.index < index {
        storage.Release();
        return None;
      }
      var value := storage.Get(BlockName(index as nat));
      storage.Release();
      if value.None? {
        return None;
      }
      return UnpackBlock(value.value);
    }

    /**
      The counter is a `size_t`: after the last index it wraps to zero. On success exactly the stored
      blocks were appended, in order; on failure some leading ones were.
     */
    method GetBlocks(blocks: BlockList) returns (ok: bool)
      requires path in disk.files ==> WalkEnds(disk.files[path])
      modifies disk, blocks
      ensures disk.locks == old(disk.locks) && disk.faults <= old(disk.faults) && disk.files == old(disk.files)
      ensures ok ==> path in disk.files && StoredBlocks(disk.files[path]).Some? &&
                     blocks.items == old(blocks.items) + StoredBlocks(disk.files[path]).value
      ensures !ok ==> blocks.items == old(blocks.items) ||
                      (path in disk.files && exists k ::
                         && 0 <= k <= MAX_UINT64 as nat && BlocksUpTo(disk.files[path], k).Some?
                         && blocks.items == old(blocks.items) + BlocksUpTo(disk.files[path], k).value)
      ensures old(Obeys()) && path in disk.files ==> ok == StoredBlocks(disk.files[path]).Some?
    {
      hide ReadCheckedHeader, BlockName, UnpackBlock;
      var storage := new Handle(disk, path);
      var available := storage.Open();
      if !available {
        storage.Release();
        return false;
      }
      var header := CheckedHeader(storage);
      if header.None? {
        storage.Release();
        return false;
      }
      var last := header.value.index;
      ghost var db, n := disk.files[path], 0;
      assert BlocksUpTo(db, 0) == Some([]);
      hide BlocksUpTo;
      var i: uint64 := 1;
      while i <= last
        invariant storage.Valid() && storage.isOpen && storage.disk == disk && storage.path == path
        invariant disk.locks == old(disk.locks) + {path} && disk.faults <= old(disk.faults)
                  && disk.files == old(disk.files)
        invariant path !in old(disk.locks) && db == disk.files[path]
        invariant n <= MAX_UINT64 as nat && n <= last as nat
                  && i as nat == (if n == MAX_UINT64 as nat then 0 else n + 1)
        invariant BlocksUpTo(db, n).Some? && blocks.items == old(blocks.items) + BlocksUpTo(db, n).value
        decreases MAX_UINT64 as nat - n
      {
        var value := storage.Get(BlockName(i as nat));
        if value.None? {
          FirstUnread(db, n, last, i);
          storage.Release();
          return false;
        }
        var block := UnpackBlock(value.value);
        if block.None? {
          FirstUnread(db, n, last, i);
          storage.Release();
          return false;
        }
        if i == 0 {
          AllRead(db);
          assert false;
        }
        NextRead(db, n, block.value);
        blocks.items := blocks.items + [block.value];
        n := n + 1;
        i := Increment(i);
      }
      storage.Release();
      return true;
    }

    method Remove() returns (ok: bool)
      modifies disk
      ensures disk.locks == old(disk.locks) && disk.faults <= old(disk.faults)
      ensures RemoveOutcome(disk.faithful, old(disk.files), disk.files, path, ok)
      ensures path in disk.locks ==> !ok && disk.files == old(disk.files)
      ensures old(Obeys()) ==> ok
    {
      var storage := new Handle(disk, path);
      ok := storage.Remove();
      storage.Release();
    }

    /** The public `getHeader`, which opens the database itself and takes any version. */
    method GetHeader() returns (header: Option<Header>)
      modifies disk
      ensures disk.locks == old(disk.locks) && disk.faults <= old(disk.faults) && disk.files == old(disk.files)
      ensures header.Some? ==> path in disk.files && header == ReadHeader(disk.files[path])
      ensures old(Obeys()) && path in disk.files ==> header == ReadHeader(disk.files[path])
    {
      hide UnpackHeader;
      var storage := new Handle(disk, path);
      var available := storage.Open();
      if !available {
        storage.Release();
        return None;
      }
      var value := storage.Get(DB_HEADER_KEY);
      storage.Release();
      if value.None? {
        return None;
      }
      return UnpackHeader(value.value);
    }

    /** The private `getHeader`, on a handle that is already open, which checks the version. */
    method CheckedHeader(storage: Handle) returns (header: Option<Header>)
      requires storage.Valid() && storage.isOpen && storage.disk == disk && storage.path == path
      modifies disk`faults
      ensures disk.faults <= old(disk.faults)
      ensures header.Some? ==> header == ReadCheckedHeader(disk.files[path])
      ensures old(disk.faults) == 0 ==> header == ReadCheckedHeader(disk.files[path])
    {
      hide UnpackHeader;
      var value := storage.Get(DB_HEADER_KEY);
      if value.None? {
        return None;
      }
      var unpacked := UnpackHeader(value.value);
      if unpacked.None? || unpacked.value.version != DB_VERSION {
        return None;
      }
      return unpacked;
    }
  }

  lemma BatchOfOne(db: Db, key: string, value: Bytes)
    ensures ApplyBatch(db, [(key, value)]) == db[key := value]
  {
    assert [(key, value)][..0] == [];
  }

  lemma BatchOfTwo(db: Db, key: string, value: Bytes, key': string, value': Bytes)
    ensures ApplyBatch(db, [(key, value), (key', value')]) == db[key := value][key' := value']
  {
    var pairs := [(key, value), (key', value')];
    assert pairs[..1] == [(key, value)];
    BatchOfOne(db, key, value);
  }

  /** A block that cannot be read where the loop stands keeps the whole list from being read. */
  lemma FirstUnread(db: Db, n: nat, last: uint64, i: uint64)
    requires n <= last as nat && i <= last && i as nat == (if n == MAX_UINT64 as nat then 0 else n + 1)
    ensures !Readable(db, i as nat) ==> last == MAX_UINT64 || BlocksUpTo(db, last as nat).None?
  {
    hide ReadBlockAt, BlocksUpTo;
    BlocksUpToElements(db, last as nat);
  }

  lemma NextRead(db: Db, n: nat, b: Block)
    requires BlocksUpTo(db, n).Some? && ReadBlockAt(db, n + 1) == Some(b)
    ensures BlocksUpTo(db, n + 1) == Some(BlocksUpTo(db, n).value + [b])
  {
  }

  lemma AllRead(db: Db)
    requires BlocksUpTo(db, MAX_UINT64 as nat).Some? && Readable(db, 0)
    ensures forall i: nat :: i <= MAX_UINT64 as nat ==> Readable(db, i)
  {
    hide ReadBlockAt, BlocksUpTo;
    BlocksUpToElements(db, MAX_UINT64 as nat);
  }
}
