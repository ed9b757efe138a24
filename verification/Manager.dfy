/** The effect of one `Manager` call on the files, as a relation that the methods are proved to keep. */
module Steps {
  import opened Basics
  import opened Crypto
  import opened Records
  import opened Layout
  import opened StoredChain
  import opened Storage
  import opened Outcomes

  /** A call with its random inputs and its result. */
  datatype Event =
    | Created(path: string, data: Bytes, key: Option<PrivateKey>, ok: bool)
    | Added(path: string, data: Bytes, nonce: Option<Nonce>, block: Option<Block>)
    | Removed(path: string, ok: bool)
    | ReadOnly

  /** The database of a new chain; generating the key, deriving the public one and packing may fail. */
  function NewDb(c: Primitives, data: Bytes, key: Option<PrivateKey>): Option<Db> {
    match key
    case None => None
    case Some(privateKey) =>
      match c.publicKey(privateKey)
      case None => None
      case Some(publicKey) => CreatedDb(data, privateKey, publicKey)
  }

  function Extended(c: Primitives, files: Files, path: string, data: Bytes, nonce: Option<Nonce>): Option<(Db, Block)> {
    if path in files then AddBlockDb(c, files[path], data, nonce) else None
  }

  function Database(r: Option<(Db, Block)>): Option<Db> {
    match r case None => None case Some((db, _)) => Some(db)
  }

  ghost predicate Step(c: Primitives, faithful: bool, before: Files, after: Files, e: Event) {
    match e
    case Created(path, data, key, ok) => CreateOutcome(faithful, before, after, path, NewDb(c, data, key), ok)
    case Added(path, data, nonce, block) =>
      var target := Extended(c, before, path, data, nonce);
      && UpdateOutcome(faithful, before, after, path, Database(target), block.Some?)
      && (block.Some? ==> target.Some? && target.value.1 == block.value)
    case Removed(path, ok) => RemoveOutcome(faithful, before, after, path, ok)
    case ReadOnly => after == before
  }
}

/** `Manager`: builds blocks, checks chains and keeps every chain in a database of its own. */
module Managers {
  import opened Basics
  import opened Crypto
  import opened Sha256
  import opened Records
  import opened Names
  import opened Layout
  import opened Validity
  import opened StoredChain
  import opened Verdicts
  import opened Storage
  import opened Chains
  import opened Steps

  class Manager {
    const disk: Disk
    const crypto: Primitives
    const storageDir: string

    constructor (disk: Disk, crypto: Primitives, storageDir: string)
      ensures this.disk == disk && this.crypto == crypto && this.storageDir == storageDir
    {
      this.disk, this.crypto, this.storageDir := disk, crypto, storageDir;
    }

    function Path(chainId: uint64): string {
      StoragePath(storageDir, chainId)
    }

    /** No handle has the chain's database open and no call fails for reasons of its own. */
    ghost predicate Obeys(chainId: uint64)
      reads disk
    {
      disk.faults == 0 && Path(chainId) !in disk.locks
    }

    method CreateChain(chainId: uint64, data: Bytes, key: Option<PrivateKey>) returns (chain: Chain?)
      modifies disk
      ensures disk.locks == old(disk.locks) && disk.faults <= old(disk.faults)
      ensures Step(crypto, disk.faithful, old(disk.files), disk.files, Created(Path(chainId), data, key, chain != null))
      ensures old(Obeys(chainId)) ==>
                (chain != null <==> Path(chainId) !in old(disk.files) && NewDb(crypto, data, key).Some?)
      ensures chain != null ==> chain.disk == disk && chain.path == Path(chainId)
    {
      hide CreatedDb, StoragePath;
      if key.None? {
        return null;
      }
      var publicKey := crypto.publicKey(key.value);
      if publicKey.None? {
        return null;
      }
      var created := new Chain(disk, Path(chainId));
      var ok := created.Create(data, key.value, publicKey.value);
      if !ok {
        return null;
      }
      return created;
    }

    /** The previous hash of the next block: from the header of an empty chain, else from the last block. */
    method PreviousHash(chain: Chain, header: Header) returns (prev: Option<Hash>)
      requires chain.disk == disk
      modifies disk
      ensures disk.locks == old(disk.locks) && disk.faults <= old(disk.faults) && disk.files == old(disk.files)
      ensures prev.Some? && chain.path in disk.files ==> prev == ReadPrev(crypto, disk.files[chain.path], header)
      ensures chain.path in disk.files && old(chain.Obeys()) ==>
                prev == ReadPrev(crypto, disk.files[chain.path], header)
    {
      hide FindBlock;
      if header.index == 0 {
        ConcatOfThree(header.data, header.privateKey, header.publicKey);
        var hash := GetHashN(crypto, [header.data, header.privateKey, header.publicKey], 2);
        return Some(hash);
      }
      var lastBlock := chain.GetBlock(header.index);
      if lastBlock.None? {
        return None;
      }
      return Some(lastBlock.value.hash);
    }

    method AddBlock(chainId: uint64, data: Bytes, nonce: Option<Nonce>) returns (block: Option<Block>)
      modifies disk
      ensures disk.locks == old(disk.locks) && disk.faults <= old(disk.faults)
      ensures Step(crypto, disk.faithful, old(disk.files), disk.files, Added(Path(chainId), data, nonce, block))
      ensures old(Obeys(chainId)) ==> block.Some? == Extended(crypto, old(disk.files), Path(chainId), data, nonce).Some?
    {
      hide ReadHeader, ReadPrev, AppendDb, BodyPreimage, BlockPreimage, StoragePath;
      var chain := new Chain(disk, Path(chainId));
      var header := chain.GetHeader();
      if header.None? {
        return None;
      }
      var prev := PreviousHash(chain, header.value);
      if prev.None? || nonce.None? {
        return None;
      }
      var built := Assemble(header.value, prev.value, nonce.value, data);
      if built.None? {
        return None;
      }
      var added := chain.AddBlock(built.value);
      if !added {
        return None;
      }
      return built;
    }

    /** Signs the hash of the body and hashes the body with its signature. */
    method Assemble(header: Header, prev: Hash, nonce: Nonce, data: Bytes) returns (block: Option<Block>)
      ensures block == BuildBlock(crypto, header, prev, nonce, data)
    {
      ConcatOfThree(prev, nonce, data);
      var bodyHash := GetHash(crypto, [prev, nonce, data]);
      var signature := crypto.sign(bodyHash, header.privateKey);
      if signature.None? {
        return None;
      }
      ConcatOfFour(prev, nonce, data, signature.value);
      var hash := GetHash(crypto, [prev, nonce, data, signature.value]);
      return Some(Block(hash, prev, nonce, data, signature.value));
    }

    method GetBlock(chainId: uint64, index: uint64) returns (block: Option<Block>)
      modifies disk
      ensures disk.locks == old(disk.locks) && disk.faults <= old(disk.faults) && disk.files == old(disk.files)
      ensures block.Some? ==> Path(chainId) in disk.files && block == FindBlock(disk.files[Path(chainId)], index)
      ensures old(Obeys(chainId)) && Path(chainId) in disk.files ==>
                block == FindBlock(disk.files[Path(chainId)], index)
    {
      hide FindBlock, StoragePath;
      var chain := new Chain(disk, Path(chainId));
      block := chain.GetBlock(index);
    }

    method GetBlocks(chainId: uint64, blocks: BlockList) returns (ok: bool)
      requires Path(chainId) in disk.files ==> WalkEnds(disk.files[Path(chainId)])
      modifies disk, blocks
      ensures disk.locks == old(disk.locks) && disk.faults <= old(disk.faults) && disk.files == old(disk.files)
      ensures ok ==> Path(chainId) in disk.files && StoredBlocks(disk.files[Path(chainId)]).Some? &&
                     blocks.items == old(blocks.items) + StoredBlocks(disk.files[Path(chainId)]).value
      ensures old(Obeys(chainId)) && Path(chainId) in disk.files ==> ok == StoredBlocks(disk.files[Path(chainId)]).Some?
    {
      hide StoredBlocks, StoragePath;
      var chain := new Chain(disk, Path(chainId));
      ok := chain.GetBlocks(blocks);
    }

    method RemoveChain(chainId: uint64) returns (ok: bool)
      modifies disk
      ensures disk.locks == old(disk.locks) && disk.faults <= old(disk.faults)
      ensures Step(crypto, disk.faithful, old(disk.files), disk.files, Removed(Path(chainId), ok))
      ensures old(Obeys(chainId)) ==> ok
    {
      var chain := new Chain(disk, Path(chainId));
      ok := chain.Remove();
    }

    /** True only for a chain that the verdict accepts, and for every such chain when nothing fails. */
    method VerifyChain(chainId: uint64) returns (ok: bool)
      requires Path(chainId) in disk.files ==> WalkEnds(disk.files[Path(chainId)])
      modifies disk
      ensures disk.locks == old(disk.locks) && disk.faults <= old(disk.faults) && disk.files == old(disk.files)
      ensures ok ==> Path(chainId) in disk.files && Accepts(crypto, disk.files[Path(chainId)])
      ensures old(Obeys(chainId)) && Path(chainId) in disk.files ==> ok == Accepts(crypto, disk.files[Path(chainId)])
    {
      hide ReadHeader, StoredBlocks, StoragePath, Genesis, ValidBlocks, BlockOk;
      var chain := new Chain(disk, Path(chainId));
      var header := chain.GetHeader();
      if header.None? {
        return false;
      }
      var blocks := new BlockList();
      var read := chain.GetBlocks(blocks);
      if !read {
        return false;
      }
      assert blocks.items == StoredBlocks(disk.files[Path(chainId)]).value;
      ok := CheckBlocks(header.value, blocks.items);
    }

    /** The loop of `verifyChain`, index by index against the predecessor's stored hash. */
    method CheckBlocks(header: Header, blocks: seq<Block>) returns (ok: bool)
      ensures ok == ValidChain(crypto, header, blocks)
    {
      var genesis := Genesis(crypto, header);
      ValidPointwise(crypto, header.publicKey, genesis, blocks);
      assert genesis == HashTimes(crypto, GenesisPreimage(header.data, header.privateKey, header.publicKey), 2);
      hide Genesis, ValidBlocks, BlockOk;
      for index := 0 to |blocks|
        invariant forall i :: 0 <= i < index ==> BlockOkAt(crypto, header.publicKey, genesis, blocks, i)
      {
        var prevHash: Hash;
        if index == 0 {
          ConcatOfThree(header.data, header.privateKey, header.publicKey);
          prevHash := GetHashN(crypto, [header.data, header.privateKey, header.publicKey], 2);
        } else {
          prevHash := blocks[index - 1].hash;
        }
        var good := CheckBlock(header.publicKey, prevHash, blocks[index]);
        assert good == BlockOkAt(crypto, header.publicKey, genesis, blocks, index);
        if !good {
          return false;
        }
      }
      return true;
    }

    method CheckBlock(publicKey: PublicKey, prevHash: Hash, block: Block) returns (ok: bool)
      ensures ok == BlockOk(crypto, publicKey, prevHash, block)
    {
      ConcatOfThree(prevHash, block.nonce, block.data);
      var bodyHash := GetHash(crypto, [prevHash, block.nonce, block.data]);
      if !crypto.verify(bodyHash, publicKey, block.signature) {
        return false;
      }
      ConcatOfFour(prevHash, block.nonce, block.data, block.signature);
      var hash := GetHash(crypto, [prevHash, block.nonce, block.data, block.signature]);
      return block.hash == hash;
    }

    method GetChainHeader(chainId: uint64) returns (header: Option<Header>)
      modifies disk
      ensures disk.locks == old(disk.locks) && disk.faults <= old(disk.faults) && disk.files == old(disk.files)
      ensures header.Some? ==> Path(chainId) in disk.files && header == ReadHeader(disk.files[Path(chainId)])
      ensures old(Obeys(chainId)) && Path(chainId) in disk.files ==> header == ReadHeader(disk.files[Path(chainId)])
    {
      hide ReadHeader, StoragePath;
      var chain := new Chain(disk, Path(chainId));
      header := chain.GetHeader();
    }

    method GetChainInfo(chainId: uint64) returns (ok: bool, version: uint64, index: uint64)
      modifies disk
      ensures disk.locks == old(disk.locks) && disk.faults <= old(disk.faults) && disk.files == old(disk.files)
      ensures ok ==> Path(chainId) in disk.files && ReadHeader(disk.files[Path(chainId)]).Some? &&
                     var h := ReadHeader(disk.files[Path(chainId)]).value; version == h.version && index == h.index
      ensures old(Obeys(chainId)) && Path(chainId) in disk.files ==> ok == ReadHeader(disk.files[Path(chainId)]).Some?
    {
      hide ReadHeader, StoragePath;
      var chain := new Chain(disk, Path(chainId));
      var header := chain.GetHeader();
      if header.None? {
        return false, 0, 0;
      }
      return true, header.value.version, header.value.index;
    }
  }
}
