/**
  What the answer to each request means, request by request and part by part, in the stored bytes. The
  lemmas start from the message itself; how a message is dispatched is for them to prove.
 */
module Answers {
  import opened Basics
  import opened Crypto
  import opened Records
  import opened Names
  import opened Layout
  import opened StoredChain
  import opened Verdicts
  import opened Meaning
  import opened Storage
  import opened Steps
  import opened Requests
  import opened RequestRuns

  /** One message handled: the setting, the files before and after, and the exchange. */
  datatype Handling = Handling(
    c: Primitives, dir: string, password: Bytes, faithful: bool, before: Files, after: Files, x: Exchange)
  {
    ghost predicate Valid() {
      Handled(c, dir, faithful, before, after, JobOf(c, password, x.msg), x.key, x.nonce, x.resp)
    }

    /** Success is due if nothing fails; `Handler.HandleMessage` is proved to give it then, and only then. */
    ghost predicate Due() {
      Possible(c, dir, before, JobOf(c, password, x.msg), x.key, x.nonce)
    }

    /** The message is this request, and it passes the gate. */
    predicate Asks(r: Request) {
      x.msg == Some(r) && (password == [] || r.authData == Some(c.hash(PASSWORD_SALT + password)))
    }

    predicate Succeeds() {
      x.resp.status == Success
    }

    predicate Fails() {
      x.resp == Response(Error, Nothing)
    }

    function Path(chainId: uint64): string {
      StoragePath(dir, chainId)
    }
  }

  /** A request without any part. */
  function Bare(authData: Option<Bytes>): Request {
    Request(authData, false, None, None, None, None, None, None, None, None, None)
  }

  lemma SaltText()
    ensures |PASSWORD_SALT| == |"EMPTY_SALT/"|
    ensures forall i :: 0 <= i < |PASSWORD_SALT| ==> PASSWORD_SALT[i] as int == "EMPTY_SALT/"[i] as int
  {
    assert "EMPTY_SALT/" == ['E', 'M', 'P', 'T', 'Y', '_', 'S', 'A', 'L', 'T', '/'];
  }

  // ---------- Which part decides ----------

  /** The parts come in a fixed order; the first that is present decides alone. */
  lemma EarlierPartsDecide(h: Handling, r: Request, only: Request)
    requires h.Asks(r)
    requires
      || (r.ping && only == Bare(r.authData).(ping := true))
      || (!r.ping
          && ((r.createChain.Some? && only == Bare(r.authData).(createChain := r.createChain))
              || (r.createChain.None?
                  && ((r.removeChain.Some? && only == Bare(r.authData).(removeChain := r.removeChain))
                      || (r.removeChain.None? && r.addBlock.Some?
                          && only == Bare(r.authData).(addBlock := r.addBlock))))))
    ensures h.Valid() <==> h.(x := h.x.(msg := Some(only))).Valid()
  {
    hide Handled;
  }

  lemma LaterPartsDecide(h: Handling, r: Request, only: Request)
    requires h.Asks(r) && !r.ping && r.createChain.None? && r.removeChain.None? && r.addBlock.None?
    requires
      || (r.getBlock.Some? && only == Bare(r.authData).(getBlock := r.getBlock))
      || (r.getBlock.None?
          && ((r.getBlocks.Some? && only == Bare(r.authData).(getBlocks := r.getBlocks))
              || (r.getBlocks.None?
                  && ((r.verifyChain.Some? && only == Bare(r.authData).(verifyChain := r.verifyChain))
                      || (r.verifyChain.None?
                          && ((r.getChainHeader.Some? && only == Bare(r.authData).(getChainHeader := r.getChainHeader))
                              || (r.getChainHeader.None?
                                  && ((r.getChainKeys.Some?
                                      && only == Bare(r.authData).(getChainKeys := r.getChainKeys))
                                      || (r.getChainKeys.None? && r.getChainInfo.Some?
                                          && only == Bare(r.authData).(getChainInfo := r.getChainInfo))))))))))
    ensures h.Valid() <==> h.(x := h.x.(msg := Some(only))).Valid()
  {
    hide Handled;
  }

  // ---------- Refusals ----------

  predicate Oversize(part: Option<(uint64, Bytes)>) {
    part.Some? && |part.value.1| > 8192
  }

  /**
    DATA_ERROR is answered exactly to a message that does not parse, and to an admitted creation or append of more
    than 8192 bytes; NOT_SUPPORTED exactly to an admitted request without any part.
   */
  lemma RefusalsExactly(h: Handling)
    requires h.Valid()
    ensures h.x.resp.status.DataError? <==>
            h.x.msg.None? ||
            (&& h.Asks(h.x.msg.value) && !h.x.msg.value.ping
             && (Oversize(h.x.msg.value.createChain)
                 || (h.x.msg.value.createChain.None? && h.x.msg.value.removeChain.None?
                     && Oversize(h.x.msg.value.addBlock))))
    ensures h.x.resp.status.NotSupported? <==>
            h.x.msg.Some? && h.Asks(h.x.msg.value) && h.x.msg.value == Bare(h.x.msg.value.authData)
    ensures h.x.resp.status.NotAuthorized? <==> h.x.msg.Some? && !h.Asks(h.x.msg.value)
  {
    hide Step, Found;
  }

  // ---------- Ping, creation, removal ----------

  lemma PingAnswer(h: Handling, auth: Option<Bytes>)
    requires h.Valid() && h.Asks(Bare(auth).(ping := true))
    ensures h.x.resp == Response(Success, Nothing) && h.after == h.before && h.Due()
  {
    hide Found;
  }

  /** Success creates exactly the chain that was asked for; within the limit it is due on a free path with a key. */
  lemma CreateAnswer(h: Handling, auth: Option<Bytes>, id: uint64, data: Bytes)
    requires h.Valid() && h.Asks(Bare(auth).(createChain := Some((id, data)))) && |data| <= 8192
    ensures h.Due() <==> h.Path(id) !in h.before && h.x.key.Some? && h.c.publicKey(h.x.key.value).Some?
    ensures h.Succeeds() ==>
              && h.Path(id) !in h.before && h.x.key.Some? && h.c.publicKey(h.x.key.value).Some?
              && h.after == h.before[h.Path(id) := map["__HEADER" :=
                   HeaderBytes(Header(1, 0, data, h.x.key.value, h.c.publicKey(h.x.key.value).value))]]
    ensures !h.Succeeds() ==> h.Fails()
  {
    NewDbExactly(h.c, data, h.x.key);
    if NewDb(h.c, data, h.x.key).Some? {
      CreatedExactly(h.c, data, h.x.key.value, NewDb(h.c, data, h.x.key).value);
    }
    hide NewDb, StoragePath, HeaderBytes, Found;
  }

  lemma RemoveAnswer(h: Handling, auth: Option<Bytes>, id: uint64)
    requires h.Valid() && h.Asks(Bare(auth).(removeChain := Some(id)))
    ensures h.Due()
    ensures h.Succeeds() ==> h.after == h.before - {h.Path(id)}
    ensures !h.Succeeds() ==> h.Fails()
  {
    hide StoragePath, Found;
  }

  // ---------- Appends ----------

  /** The file at the path is a database from which this block can be made and to which it can be appended. */
  ghost predicate Appendable(c: Primitives, files: Files, path: string, data: Bytes, nonce: Nonce, db': Db, b: Block) {
    path in files && MadeFrom(c, files[path], data, nonce, b) && AppendIs(files[path], b, db')
  }

  /** Success stores the block that is answered; it was made from the data, the nonce and what was stored. */
  lemma AddAnswer(h: Handling, auth: Option<Bytes>, id: uint64, data: Bytes)
    requires h.Valid() && h.Asks(Bare(auth).(addBlock := Some((id, data)))) && |data| <= 8192
    ensures h.Due() <==>
            h.x.nonce.Some? && exists db', b :: Appendable(h.c, h.before, h.Path(id), data, h.x.nonce.value, db', b)
    ensures h.Succeeds() ==>
              && h.x.nonce.Some? && h.x.resp.payload.OneBlock? && h.Path(id) in h.after
              && Appendable(h.c, h.before, h.Path(id), data, h.x.nonce.value, h.after[h.Path(id)],
                            h.x.resp.payload.block)
              && h.after == h.before[h.Path(id) := h.after[h.Path(id)]]
    ensures !h.Succeeds() ==> h.Fails()
  {
    AddDueExactly(h.c, h.before, h.Path(id), data, h.x.nonce);
    hide AddBlockDb, StoragePath, MadeFrom, AppendIs, Found;
    if h.Path(id) in h.before && AddBlockDb(h.c, h.before[h.Path(id)], data, h.x.nonce).Some? {
      var (db', b) := AddBlockDb(h.c, h.before[h.Path(id)], data, h.x.nonce).value;
      AddBlockExactly(h.c, h.before[h.Path(id)], data, h.x.nonce.value, db', b);
    }
  }

  lemma AddDueExactly(c: Primitives, files: Files, path: string, data: Bytes, nonce: Option<Nonce>)
    ensures Extended(c, files, path, data, nonce).Some? <==>
            nonce.Some? && exists db', b :: Appendable(c, files, path, data, nonce.value, db', b)
  {
    hide AddBlockDb, MadeFrom, AppendIs;
    if path in files {
      var db := files[path];
      NothingWithoutNonce(c, db, data);
      if nonce.Some? {
        if AddBlockDb(c, db, data, nonce).Some? {
          var (db', b) := AddBlockDb(c, db, data, nonce).value;
          AddBlockExactly(c, db, data, nonce.value, db', b);
          assert Appendable(c, files, path, data, nonce.value, db', b);
        }
        if db', b :| Appendable(c, files, path, data, nonce.value, db', b) {
          AddBlockExactly(c, db, data, nonce.value, db', b);
        }
      }
    }
  }

  // ---------- Reads ----------

  ghost predicate BlockAt(files: Files, path: string, index: uint64, b: Block) {
    path in files && BlockListed(files[path], index, b)
  }

  /** The block stored under the asked number in the asked chain, due exactly when there is one. */
  lemma BlockAnswer(h: Handling, auth: Option<Bytes>, id: uint64, index: uint64)
    requires h.Valid() && h.Asks(Bare(auth).(getBlock := Some((id, index))))
    ensures h.after == h.before
    ensures h.Due() <==> exists b :: BlockAt(h.before, h.Path(id), index, b)
    ensures h.Succeeds() ==> h.x.resp.payload.OneBlock? && BlockAt(h.before, h.Path(id), index, h.x.resp.payload.block)
    ensures !h.Succeeds() ==> h.Fails()
  {
    var path := h.Path(id);
    if path in h.before {
      var db := h.before[path];
      if FindBlock(db, index).Some? {
        FindBlockExactly(db, index, FindBlock(db, index).value);
        assert BlockAt(h.before, path, index, FindBlock(db, index).value);
        assert Found(h.c, h.dir, h.before, BlockJob(id, index), OneBlock(FindBlock(db, index).value));
      }
      if b :| BlockAt(h.before, path, index, b) {
        FindBlockExactly(db, index, b);
      }
    }
    hide FindBlock, BlockListed, StoragePath;
  }

  ghost predicate BlocksAt(files: Files, path: string, bs: seq<Block>) {
    path in files && BlocksListed(files[path], bs)
  }

  /** The blocks stored in the asked chain, in order, due exactly when they can be read below the last index. */
  lemma BlocksAnswer(h: Handling, auth: Option<Bytes>, id: uint64)
    requires h.Valid() && h.Asks(Bare(auth).(getBlocks := Some(id)))
    ensures h.after == h.before
    ensures h.Due() <==> exists bs :: BlocksAt(h.before, h.Path(id), bs)
    ensures h.Succeeds() ==> h.x.resp.payload.ManyBlocks? && BlocksAt(h.before, h.Path(id), h.x.resp.payload.blocks)
    ensures !h.Succeeds() ==> h.Fails()
  {
    var path := h.Path(id);
    if path in h.before {
      var db := h.before[path];
      if StoredBlocks(db).Some? {
        StoredBlocksExactly(db, StoredBlocks(db).value);
        assert BlocksAt(h.before, path, StoredBlocks(db).value);
        assert Found(h.c, h.dir, h.before, BlocksJob(id), ManyBlocks(StoredBlocks(db).value));
      }
      if bs :| BlocksAt(h.before, path, bs) {
        StoredBlocksExactly(db, bs);
      }
    }
    hide StoredBlocks, BlocksListed, StoragePath;
  }

  /**
    Success on a verification is due exactly, and given only, when every stored block from 1 to the index has the
    hash and the signature that its place demands.
   */
  lemma VerifyAnswer(h: Handling, auth: Option<Bytes>, id: uint64)
    requires h.Valid() && h.Asks(Bare(auth).(verifyChain := Some(id)))
    ensures h.after == h.before
    ensures h.Due() <==> h.Path(id) in h.before && Sound(h.c, h.before[h.Path(id)])
    ensures h.Succeeds() ==>
              h.Path(id) in h.before && Sound(h.c, h.before[h.Path(id)]) && h.x.resp == Response(Success, Nothing)
    ensures !h.Succeeds() ==> h.Fails()
  {
    var path := h.Path(id);
    if path in h.before {
      AcceptsIsSound(h.c, h.before[path]);
      if Accepts(h.c, h.before[path]) {
        assert Found(h.c, h.dir, h.before, VerifyJob(id), Nothing);
      }
    }
    hide Accepts, Sound, StoragePath;
  }

  ghost predicate HeaderAt(files: Files, path: string, hd: Header) {
    path in files && HeaderIs(files[path], hd)
  }

  lemma HeaderFound(h: Handling, id: uint64, job: Job, payload: Payload)
    requires job.HeaderJob? || job.KeysJob? || job.InfoJob?
    requires job.chainId == id
    ensures Found(h.c, h.dir, h.before, job, payload) <==>
            exists hd :: HeaderAt(h.before, h.Path(id), hd) &&
              match job
              case HeaderJob(_) => payload == HeaderPayload(hd)
              case KeysJob(_) => payload == Keys(hd.privateKey, hd.publicKey)
              case InfoJob(_) => payload == Info(id, hd.version, hd.index)
              case _ => false
  {
    hide HeaderIs, ReadHeader, StoragePath;
    if h.Path(id) in h.before {
      var db := h.before[h.Path(id)];
      if ReadHeader(db).Some? {
        HeaderReads(db, ReadHeader(db).value);
        assert HeaderAt(h.before, h.Path(id), ReadHeader(db).value);
      }
      forall hd | HeaderAt(h.before, h.Path(id), hd) ensures ReadHeader(db) == Some(hd) {
        HeaderReads(db, hd);
      }
    }
  }

  /** The stored header of the asked chain, of any version. */
  lemma HeaderAnswer(h: Handling, auth: Option<Bytes>, id: uint64)
    requires h.Valid() && h.Asks(Bare(auth).(getChainHeader := Some(id)))
    ensures h.after == h.before
    ensures h.Due() <==> exists hd :: HeaderAt(h.before, h.Path(id), hd)
    ensures h.Succeeds() ==> exists hd :: HeaderAt(h.before, h.Path(id), hd) && h.x.resp.payload == HeaderPayload(hd)
    ensures !h.Succeeds() ==> h.Fails()
  {
    HeaderFound(h, id, HeaderJob(id), h.x.resp.payload);
    forall payload ensures Found(h.c, h.dir, h.before, HeaderJob(id), payload) <==>
        exists hd :: HeaderAt(h.before, h.Path(id), hd) && payload == HeaderPayload(hd)
    {
      HeaderFound(h, id, HeaderJob(id), payload);
    }
    hide Found, HeaderAt, StoragePath;
    if hd :| HeaderAt(h.before, h.Path(id), hd) {
      assert Found(h.c, h.dir, h.before, HeaderJob(id), HeaderPayload(hd));
    }
  }

  /** The keys in the stored header of the asked chain, the private one first. */
  lemma KeysAnswer(h: Handling, auth: Option<Bytes>, id: uint64)
    requires h.Valid() && h.Asks(Bare(auth).(getChainKeys := Some(id)))
    ensures h.after == h.before
    ensures h.Due() <==> exists hd :: HeaderAt(h.before, h.Path(id), hd)
    ensures h.Succeeds() ==>
              exists hd :: HeaderAt(h.before, h.Path(id), hd) && h.x.resp.payload == Keys(hd.privateKey, hd.publicKey)
    ensures !h.Succeeds() ==> h.Fails()
  {
    forall payload ensures Found(h.c, h.dir, h.before, KeysJob(id), payload) <==>
        exists hd :: HeaderAt(h.before, h.Path(id), hd) && payload == Keys(hd.privateKey, hd.publicKey)
    {
      HeaderFound(h, id, KeysJob(id), payload);
    }
    hide Found, HeaderAt, StoragePath;
    if hd :| HeaderAt(h.before, h.Path(id), hd) {
      assert Found(h.c, h.dir, h.before, KeysJob(id), Keys(hd.privateKey, hd.publicKey));
    }
  }

  /** The asked id with version and index of the stored header. */
  lemma InfoAnswer(h: Handling, auth: Option<Bytes>, id: uint64)
    requires h.Valid() && h.Asks(Bare(auth).(getChainInfo := Some(id)))
    ensures h.after == h.before
    ensures h.Due() <==> exists hd :: HeaderAt(h.before, h.Path(id), hd)
    ensures h.Succeeds() ==>
              exists hd :: HeaderAt(h.before, h.Path(id), hd) && h.x.resp.payload == Info(id, hd.version, hd.index)
    ensures !h.Succeeds() ==> h.Fails()
  {
    forall payload ensures Found(h.c, h.dir, h.before, InfoJob(id), payload) <==>
        exists hd :: HeaderAt(h.before, h.Path(id), hd) && payload == Info(id, hd.version, hd.index)
    {
      HeaderFound(h, id, InfoJob(id), payload);
    }
    hide Found, HeaderAt, StoragePath;
    if hd :| HeaderAt(h.before, h.Path(id), hd) {
      assert Found(h.c, h.dir, h.before, InfoJob(id), Info(id, hd.version, hd.index));
    }
  }
}
