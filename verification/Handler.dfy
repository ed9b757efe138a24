/** Requests, what each one asks for once it is admitted, and which answers it may get. */
module Requests {
  import opened Basics
  import opened Crypto
  import opened Records
  import opened Names
  import opened Layout
  import opened Verdicts
  import opened Storage
  import opened Steps

  const MAX_DATA_LENGTH: nat := 8192

  /** The bytes of "EMPTY_SALT/". */
  const PASSWORD_SALT: Bytes := [0x45, 0x4D, 0x50, 0x54, 0x59, 0x5F, 0x53, 0x41, 0x4C, 0x54, 0x2F]

  /** A parsed request: every part is optional and more than one may be present. */
  datatype Request = Request(
    authData: Option<Bytes>,
    ping: bool,
    createChain: Option<(uint64, Bytes)>,
    removeChain: Option<uint64>,
    addBlock: Option<(uint64, Bytes)>,
    getBlock: Option<(uint64, uint64)>,
    getBlocks: Option<uint64>,
    verifyChain: Option<uint64>,
    getChainHeader: Option<uint64>,
    getChainKeys: Option<uint64>,
    getChainInfo: Option<uint64>)

  datatype Status = Success | Error | DataError | NotSupported | NotAuthorized

  datatype Payload =
    | Nothing
    | OneBlock(block: Block)
    | ManyBlocks(blocks: seq<Block>)
    | HeaderPayload(header: Header)
    | Keys(privateKey: PrivateKey, publicKey: PublicKey)
    | Info(chainId: uint64, version: uint64, index: uint64)

  datatype Response = Response(status: Status, payload: Payload)

  /** What a request comes down to. */
  datatype Job =
    | Refuse(status: Status)
    | Ping
    | CreateJob(chainId: uint64, data: Bytes)
    | RemoveJob(chainId: uint64)
    | AddJob(chainId: uint64, data: Bytes)
    | BlockJob(chainId: uint64, index: uint64)
    | BlocksJob(chainId: uint64)
    | VerifyJob(chainId: uint64)
    | HeaderJob(chainId: uint64)
    | KeysJob(chainId: uint64)
    | InfoJob(chainId: uint64)

  /** `checkAuth`: the client must know the salted hash of the password. */
  predicate Authorized(c: Primitives, password: Bytes, r: Request) {
    password == [] || (r.authData.Some? && r.authData.value == c.hash(PASSWORD_SALT + password))
  }

  function Sized(data: Bytes, job: Job): Job {
    if |data| > MAX_DATA_LENGTH then Refuse(DataError) else job
  }

  /** The first part that is present decides. */
  function FirstPart(r: Request): Job {
    if r.ping then Ping
    else if r.createChain.Some? then
      Sized(r.createChain.value.1, CreateJob(r.createChain.value.0, r.createChain.value.1))
    else if r.removeChain.Some? then RemoveJob(r.removeChain.value)
    else if r.addBlock.Some? then Sized(r.addBlock.value.1, AddJob(r.addBlock.value.0, r.addBlock.value.1))
    else if r.getBlock.Some? then BlockJob(r.getBlock.value.0, r.getBlock.value.1)
    else if r.getBlocks.Some? then BlocksJob(r.getBlocks.value)
    else if r.verifyChain.Some? then VerifyJob(r.verifyChain.value)
    else if r.getChainHeader.Some? then HeaderJob(r.getChainHeader.value)
    else if r.getChainKeys.Some? then KeysJob(r.getChainKeys.value)
    else if r.getChainInfo.Some? then InfoJob(r.getChainInfo.value)
    else Refuse(NotSupported)
  }

  /** A message that does not parse is `None`. */
  function JobOf(c: Primitives, password: Bytes, msg: Option<Request>): Job {
    match msg
    case None => Refuse(DataError)
    case Some(r) => if Authorized(c, password, r) then FirstPart(r) else Refuse(NotAuthorized)
  }

  /** The manager call behind an answered job. */
  function EventOf(dir: string, job: Job, key: Option<PrivateKey>, nonce: Option<Nonce>, resp: Response): Event {
    match job
    case CreateJob(id, data) => Created(StoragePath(dir, id), data, key, resp.status.Success?)
    case RemoveJob(id) => Removed(StoragePath(dir, id), resp.status.Success?)
    case AddJob(id, data) =>
      Added(StoragePath(dir, id), data, nonce, if resp.payload.OneBlock? then Some(resp.payload.block) else None)
    case _ => ReadOnly
  }

  /** What a read must have found in the files to be answered with success. */
  predicate Found(c: Primitives, dir: string, files: Files, job: Job, payload: Payload)
    requires !job.Refuse? && !job.Ping?
  {
    var path := StoragePath(dir, job.chainId);
    path in files &&
    match job
    case BlockJob(_, index) =>
      FindBlock(files[path], index).Some? && payload == OneBlock(FindBlock(files[path], index).value)
    case BlocksJob(_) => StoredBlocks(files[path]).Some? && payload == ManyBlocks(StoredBlocks(files[path]).value)
    case VerifyJob(_) => Accepts(c, files[path]) && payload == Nothing
    case HeaderJob(_) => ReadHeader(files[path]).Some? && payload == HeaderPayload(ReadHeader(files[path]).value)
    case KeysJob(_) =>
      ReadHeader(files[path]).Some?
      && payload == Keys(ReadHeader(files[path]).value.privateKey, ReadHeader(files[path]).value.publicKey)
    case InfoJob(id) =>
      ReadHeader(files[path]).Some?
      && payload == Info(id, ReadHeader(files[path]).value.version, ReadHeader(files[path]).value.index)
    case _ => false
  }

  /** The answers a job may get on these files. */
  ghost predicate Answers(c: Primitives, dir: string, files: Files, job: Job, resp: Response) {
    match job
    case Refuse(status) => resp == Response(status, Nothing)
    case Ping => resp == Response(Success, Nothing)
    case CreateJob(_, _) => resp.payload.Nothing? && (resp.status.Success? || resp.status.Error?)
    case RemoveJob(_) => resp.payload.Nothing? && (resp.status.Success? || resp.status.Error?)
    case AddJob(_, _) => resp == Response(Error, Nothing) || (resp.status.Success? && resp.payload.OneBlock?)
    case _ => resp == Response(Error, Nothing) || (resp.status.Success? && Found(c, dir, files, job, resp.payload))
  }

  /** One request handled: one manager call on the files and a fitting answer. */
  ghost predicate Handled(c: Primitives, dir: string, faithful: bool, before: Files, after: Files, job: Job,
                          key: Option<PrivateKey>, nonce: Option<Nonce>, resp: Response) {
    && Step(c, faithful, before, after, EventOf(dir, job, key, nonce, resp))
    && Answers(c, dir, before, job, resp)
  }

  /** When a job succeeds if nothing fails. */
  ghost predicate Possible(c: Primitives, dir: string, files: Files, job: Job, key: Option<PrivateKey>,
                           nonce: Option<Nonce>) {
    match job
    case Refuse(_) => false
    case Ping => true
    case CreateJob(id, data) => StoragePath(dir, id) !in files && NewDb(c, data, key).Some?
    case RemoveJob(_) => true
    case AddJob(id, data) => Extended(c, files, StoragePath(dir, id), data, nonce).Some?
    case _ => exists payload :: Found(c, dir, files, job, payload)
  }
}

/** `Handler`: the gate, the size limits and the dispatch to the manager. */
module Handlers {
  import opened Basics
  import opened Crypto
  import opened Sha256
  import opened Names
  import opened Layout
  import opened StoredChain
  import opened Verdicts
  import opened Chains
  import opened Managers
  import opened Steps
  import opened Requests

  class Handler {
    const manager: Manager
    const password: Bytes

    constructor (manager: Manager, password: Bytes)
      ensures this.manager == manager && this.password == password
    {
      this.manager, this.password := manager, password;
    }

    /** No handle is open and no call fails for reasons of its own. */
    ghost predicate Obeys()
      reads manager.disk
    {
      manager.disk.faults == 0 && manager.disk.locks == {}
    }

    /** The walk over the blocks of this chain, if it is asked for, does not go on for ever. */
    ghost predicate WalkEndsFor(chainId: Option<uint64>)
      reads manager.disk
    {
      chainId.Some? && manager.Path(chainId.value) in manager.disk.files ==>
          WalkEnds(manager.disk.files[manager.Path(chainId.value)])
    }

    /**
      The job was served: one manager call and a fitting answer, every handle released, and success
      exactly when it was possible if nothing failed.
     */
    twostate predicate Served(job: Job, key: Option<PrivateKey>, nonce: Option<Nonce>, resp: Response)
      reads manager.disk
    {
      && manager.disk.locks == old(manager.disk.locks) && manager.disk.faults <= old(manager.disk.faults)
      && Handled(manager.crypto, manager.storageDir, manager.disk.faithful, old(manager.disk.files),
                 manager.disk.files, job, key, nonce, resp)
      && (old(Obeys()) ==>
            (resp.status.Success? <==>
                Possible(manager.crypto, manager.storageDir, old(manager.disk.files), job, key, nonce)))
    }

    /** The random inputs of the request are drawn before it: a fresh key and a fresh nonce, if the source delivers. */
    method HandleMessage(msg: Option<Request>, key: Option<PrivateKey>, nonce: Option<Nonce>) returns (resp: Response)
      requires msg.Some? ==> WalkEndsFor(msg.value.getBlocks) && WalkEndsFor(msg.value.verifyChain)
      modifies manager.disk
      ensures Served(JobOf(manager.crypto, password, msg), key, nonce, resp)
    {
      hide Handled, Possible, WalkEnds, Authorized, Sized;
      if msg.None? {
        resp := MakeStatus(DataError);
        return;
      }
      var r := msg.value;
      if password != [] {
        if r.authData.None? {
          AuthNeedsData(manager.crypto, password, r);
          resp := MakeStatus(NotAuthorized);
          return;
        }
        var good := CheckAuth(r.authData.value);
        AuthMeaning(manager.crypto, password, r);
        if !good {
          resp := MakeStatus(NotAuthorized);
          return;
        }
      }
      NoPasswordNeeded(manager.crypto, password, r);
      if r.ping {
        resp := HandlePing();
      } else if r.createChain.Some? {
        resp := HandleCreateChain(r.createChain.value.0, r.createChain.value.1, key, nonce);
      } else if r.removeChain.Some? {
        resp := HandleRemoveChain(r.removeChain.value, key, nonce);
      } else if r.addBlock.Some? {
        resp := HandleAddBlock(r.addBlock.value.0, r.addBlock.value.1, key, nonce);
      } else if r.getBlock.Some? {
        resp := HandleGetBlock(r.getBlock.value.0, r.getBlock.value.1, key, nonce);
      } else if r.getBlocks.Some? {
        resp := HandleGetBlocks(r.getBlocks.value, key, nonce);
      } else if r.verifyChain.Some? {
        resp := HandleVerifyChain(r.verifyChain.value, key, nonce);
      } else if r.getChainHeader.Some? {
        resp := HandleGetChainHeader(r.getChainHeader.value, key, nonce);
      } else if r.getChainKeys.Some? {
        resp := HandleGetChainKeys(r.getChainKeys.value, key, nonce);
      } else if r.getChainInfo.Some? {
        resp := HandleGetChainInfo(r.getChainInfo.value, key, nonce);
      } else {
        resp := MakeStatus(NotSupported);
      }
    }

    method MakeStatus(status: Status) returns (resp: Response)
      ensures resp == Response(status, Nothing)
      ensures !status.Success? ==>
                forall key, nonce ::
                  && Handled(manager.crypto, manager.storageDir, manager.disk.faithful, manager.disk.files,
                             manager.disk.files, Refuse(status), key, nonce, resp)
                  && !Possible(manager.crypto, manager.storageDir, manager.disk.files, Refuse(status), key, nonce)
    {
      resp := Response(status, Nothing);
    }

    method HandlePing() returns (resp: Response)
      ensures resp == Response(Success, Nothing)
      ensures forall key, nonce ::
                && Handled(manager.crypto, manager.storageDir, manager.disk.faithful, manager.disk.files,
                           manager.disk.files, Ping, key, nonce, resp)
                && Possible(manager.crypto, manager.storageDir, manager.disk.files, Ping, key, nonce)
    {
      resp := Response(Success, Nothing);
    }

    method CheckAuth(passwordHash: Bytes) returns (ok: bool)
      ensures ok == (passwordHash == manager.crypto.hash(PASSWORD_SALT + password))
    {
      if |passwordHash| != 32 {
        return false;
      }
      ConcatOfTwo(PASSWORD_SALT, password);
      var hash := GetHash(manager.crypto, [PASSWORD_SALT, password]);
      return hash == passwordHash;
    }

    method HandleCreateChain(chainId: uint64, data: Bytes, key: Option<PrivateKey>, nonce: Option<Nonce>)
      returns (resp: Response)
      modifies manager.disk
      ensures Served(Sized(data, CreateJob(chainId, data)), key, nonce, resp)
    {
      hide StoragePath, NewDb, Found;
      if |data| > MAX_DATA_LENGTH {
        resp := MakeStatus(DataError);
        return;
      }
      var chain := manager.CreateChain(chainId, data, key);
      resp := Response(if chain == null then Error else Success, Nothing);
    }

    method HandleRemoveChain(chainId: uint64, key: Option<PrivateKey>, nonce: Option<Nonce>) returns (resp: Response)
      modifies manager.disk
      ensures Served(RemoveJob(chainId), key, nonce, resp)
    {
      hide StoragePath, Found;
      var removed := manager.RemoveChain(chainId);
      resp := Response(if !removed then Error else Success, Nothing);
    }

    method HandleAddBlock(chainId: uint64, data: Bytes, key: Option<PrivateKey>, nonce: Option<Nonce>)
      returns (resp: Response)
      modifies manager.disk
      ensures Served(Sized(data, AddJob(chainId, data)), key, nonce, resp)
    {
      hide StoragePath, AddBlockDb, Found;
      if |data| > MAX_DATA_LENGTH {
        resp := MakeStatus(DataError);
        return;
      }
      var block := manager.AddBlock(chainId, data, nonce);
      resp := if block.None? then Response(Error, Nothing) else Response(Success, OneBlock(block.value));
    }

    method HandleGetBlock(chainId: uint64, index: uint64, key: Option<PrivateKey>, nonce: Option<Nonce>)
      returns (resp: Response)
      modifies manager.disk
      ensures Served(BlockJob(chainId, index), key, nonce, resp)
    {
      hide StoragePath, FindBlock;
      var block := manager.GetBlock(chainId, index);
      if block.None? {
        return Response(Error, Nothing);
      }
      assert Found(manager.crypto, manager.storageDir, manager.disk.files, BlockJob(chainId, index),
                   OneBlock(block.value));
      return Response(Success, OneBlock(block.value));
    }

    method HandleGetBlocks(chainId: uint64, key: Option<PrivateKey>, nonce: Option<Nonce>) returns (resp: Response)
      requires WalkEndsFor(Some(chainId))
      modifies manager.disk
      ensures Served(BlocksJob(chainId), key, nonce, resp)
    {
      hide StoragePath, StoredBlocks, WalkEnds;
      var blocks := new BlockList();
      var ok := manager.GetBlocks(chainId, blocks);
      if !ok {
        return Response(Error, Nothing);
      }
      assert blocks.items == StoredBlocks(manager.disk.files[manager.Path(chainId)]).value;
      assert Found(manager.crypto, manager.storageDir, manager.disk.files, BlocksJob(chainId),
                   ManyBlocks(blocks.items));
      return Response(Success, ManyBlocks(blocks.items));
    }

    method HandleVerifyChain(chainId: uint64, key: Option<PrivateKey>, nonce: Option<Nonce>) returns (resp: Response)
      requires WalkEndsFor(Some(chainId))
      modifies manager.disk
      ensures Served(VerifyJob(chainId), key, nonce, resp)
    {
      hide StoragePath, Accepts, WalkEnds;
      var ok := manager.VerifyChain(chainId);
      if !ok {
        return Response(Error, Nothing);
      }
      assert Found(manager.crypto, manager.storageDir, manager.disk.files, VerifyJob(chainId), Nothing);
      return Response(Success, Nothing);
    }

    method HandleGetChainHeader(chainId: uint64, key: Option<PrivateKey>, nonce: Option<Nonce>) returns (resp: Response)
      modifies manager.disk
      ensures Served(HeaderJob(chainId), key, nonce, resp)
    {
      hide StoragePath, ReadHeader;
      var header := manager.GetChainHeader(chainId);
      if header.None? {
        return Response(Error, Nothing);
      }
      assert Found(manager.crypto, manager.storageDir, manager.disk.files, HeaderJob(chainId),
                   HeaderPayload(header.value));
      return Response(Success, HeaderPayload(header.value));
    }

    method HandleGetChainKeys(chainId: uint64, key: Option<PrivateKey>, nonce: Option<Nonce>) returns (resp: Response)
      modifies manager.disk
      ensures Served(KeysJob(chainId), key, nonce, resp)
    {
      hide StoragePath, ReadHeader;
      var header := manager.GetChainHeader(chainId);
      if header.None? {
        return Response(Error, Nothing);
      }
      var keys := Keys(header.value.privateKey, header.value.publicKey);
      assert Found(manager.crypto, manager.storageDir, manager.disk.files, KeysJob(chainId), keys);
      return Response(Success, keys);
    }

    method HandleGetChainInfo(chainId: uint64, key: Option<PrivateKey>, nonce: Option<Nonce>) returns (resp: Response)
      modifies manager.disk
      ensures Served(InfoJob(chainId), key, nonce, resp)
    {
      hide StoragePath, ReadHeader;
      var ok, version, index := manager.GetChainInfo(chainId);
      if !ok {
        return Response(Error, Nothing);
      }
      assert Found(manager.crypto, manager.storageDir, manager.disk.files, InfoJob(chainId),
                   Info(chainId, version, index));
      return Response(Success, Info(chainId, version, index));
    }
  }

  lemma AuthNeedsData(c: Primitives, password: Bytes, r: Request)
    requires password != [] && r.authData.None?
    ensures !Authorized(c, password, r)
  {
  }

  lemma AuthMeaning(c: Primitives, password: Bytes, r: Request)
    requires password != [] && r.authData.Some?
    ensures Authorized(c, password, r) == (r.authData.value == c.hash(PASSWORD_SALT + password))
  {
  }

  lemma NoPasswordNeeded(c: Primitives, password: Bytes, r: Request)
    ensures password == [] ==> Authorized(c, password, r)
  {
  }
}
