/** The verdict of `Manager::verifyChain` as a function of the stored bytes, whoever wrote them. */
module Verdicts {
  import opened Basics
  import opened Crypto
  import opened Records
  import opened Names
  import opened Layout
  import opened Validity
  import opened StoredChain

  /** The verdict with a header that was read before the blocks are. */
  predicate VerifyWith(c: Primitives, h: Header, db: Db) {
    StoredBlocks(db).Some? && ValidChain(c, h, StoredBlocks(db).value)
  }

  /** The verdict when nothing comes between the two reads. */
  predicate Accepts(c: Primitives, db: Db) {
    ReadHeader(db).Some? && VerifyWith(c, ReadHeader(db).value, db)
  }

  /** The stored block i has the hash and the signature that its place in the chain demands. */
  predicate SoundAt(c: Primitives, h: Header, db: Db, i: nat)
    requires i >= 1
  {
    && Readable(db, i) && (i > 1 ==> Readable(db, i - 1))
    && var b := ReadBlockAt(db, i).value;
       var prev := if i == 1 then c.hash(c.hash(h.data + h.privateKey + h.publicKey))
           else ReadBlockAt(db, i - 1).value.hash;
       && c.verify(c.hash(prev + b.nonce + b.data), h.publicKey, b.signature)
       && b.hash == c.hash(prev + b.nonce + b.data + b.signature)
  }

  /**
    The verifier says yes exactly when the header is of this version, below the last index, and every block is
    sound.
   */
  lemma AcceptsExactly(c: Primitives, db: Db)
    ensures Accepts(c, db) <==>
            && ReadHeader(db).Some? && ReadHeader(db).value.version == DB_VERSION
            && ReadHeader(db).value.index < MAX_UINT64
            && forall i :: 1 <= i <= ReadHeader(db).value.index as nat ==> SoundAt(c, ReadHeader(db).value, db, i)
  {
    hide ReadHeader, ReadBlockAt, BlocksUpTo, ValidBlocks, BlockOk, Genesis;
    if ReadHeader(db).Some? && ReadHeader(db).value.version == DB_VERSION && ReadHeader(db).value.index < MAX_UINT64 {
      var h := ReadHeader(db).value;
      var n := h.index as nat;
      BlocksUpToElements(db, n);
      if BlocksUpTo(db, n).Some? {
        var bs := BlocksUpTo(db, n).value;
        ValidPointwise(c, h.publicKey, Genesis(c, h), bs);
        forall i | 0 <= i < n ensures BlockOkAt(c, h.publicKey, Genesis(c, h), bs, i) == SoundAt(c, h, db, i + 1) {
          SoundIsOk(c, h, db, bs, i);
        }
        assert forall i :: 1 <= i <= n ==> BlockOkAt(c, h.publicKey, Genesis(c, h), bs, i - 1) == SoundAt(c, h, db, i);
      } else {
        var i :| 1 <= i <= n && ReadBlockAt(db, i).None?;
        assert !SoundAt(c, h, db, i);
      }
    }
  }

  lemma SoundIsOk(c: Primitives, h: Header, db: Db, bs: seq<Block>, i: nat)
    requires i < |bs| && ReadBlockAt(db, i + 1) == Some(bs[i])
    requires i > 0 ==> ReadBlockAt(db, i) == Some(bs[i - 1])
    ensures BlockOkAt(c, h.publicKey, Genesis(c, h), bs, i) == SoundAt(c, h, db, i + 1)
  {
    GenesisIsDoubleHash(c, h);
    hide ReadBlockAt, Genesis;
  }

  /** What the program wrote is accepted, and the tip that commits to it is the last block's hash. */
  lemma HonestAccepted(c: Primitives, st: ChainState)
    requires Honest(c, st) && st.Live? && st.header.index < MAX_UINT64
    ensures Accepts(c, Store(st)) && StoredBlocks(Store(st)) == Some(st.blocks)
  {
    hide Store, StoredBlocks, ReadHeader, ReadCheckedHeader, PackHeader, PackBlock, ValidChain;
    StoredBlocksIsList(st.header, st.blocks);
    HeaderReadsBack(st.header, st.blocks);
  }

  /** The blocks that are read depend only on the entries they are read from. */
  lemma {:induction false} BlocksUpToFrame(db: Db, db': Db, n: nat)
    requires forall i :: 1 <= i <= n ==> ReadBlockAt(db, i) == ReadBlockAt(db', i)
    ensures BlocksUpTo(db, n) == BlocksUpTo(db', n)
  {
    hide ReadBlockAt;
    if n > 0 {
      BlocksUpToFrame(db, db', n - 1);
    }
  }

  lemma {:induction false} BlocksUpToPrefix(db: Db, n: nat, k: nat)
    requires k <= n && BlocksUpTo(db, n).Some?
    ensures BlocksUpTo(db, k) == Some(BlocksUpTo(db, n).value[..k])
  {
    hide ReadBlockAt;
    if k == n {
      assert BlocksUpTo(db, n).value[..n] == BlocksUpTo(db, n).value;
    } else {
      BlocksUpToPrefix(db, n - 1, k);
      assert BlocksUpTo(db, n).value[..k] == BlocksUpTo(db, n - 1).value[..k];
    }
  }

  lemma SameEntry(db: Db, db': Db, i: nat)
    requires db - {DB_HEADER_KEY} == db' - {DB_HEADER_KEY}
    ensures ReadBlockAt(db, i) == ReadBlockAt(db', i)
  {
    BlockNameIsNotHeader(i);
    hide BlockName, UnpackBlock;
    var key := BlockName(i);
    assert key in db <==> key in db - {DB_HEADER_KEY};
    assert key in db' <==> key in db' - {DB_HEADER_KEY};
    if key in db { assert (db - {DB_HEADER_KEY})[key] == db[key]; }
    if key in db' { assert (db' - {DB_HEADER_KEY})[key] == db'[key]; }
  }

  /** Lowering the header's index keeps an accepted chain accepted. */
  lemma PrefixAccepted(c: Primitives, db: Db, db': Db, k: uint64)
    requires Accepts(c, db) && k <= ReadHeader(db).value.index
    requires ReadHeader(db') == Some(ReadHeader(db).value.(index := k))
    requires db - {DB_HEADER_KEY} == db' - {DB_HEADER_KEY}
    ensures Accepts(c, db') && StoredBlocks(db') == Some(StoredBlocks(db).value[..k])
  {
    hide ReadHeader, BlocksUpTo, ReadBlockAt, Genesis, ValidBlocks;
    var h, bs := ReadHeader(db).value, StoredBlocks(db).value;
    forall i | 1 <= i <= k as nat ensures ReadBlockAt(db, i) == ReadBlockAt(db', i) {
      SameEntry(db, db', i);
    }
    BlocksUpToFrame(db, db', k as nat);
    BlocksUpToPrefix(db, h.index as nat, k as nat);
    ValidPrefix(c, h.publicKey, Genesis(c, h), bs, k as nat);
    SameGenesis(c, h, k);
  }

  /** What an append leaves in any database whose index has room: the header bumped, the block at its place. */
  lemma AppendReadsBack(db: Db, b: Block)
    requires AppendDb(db, b).Some? && ReadCheckedHeader(db).value.index < MAX_UINT64
    ensures var h := ReadCheckedHeader(db).value;
            && ReadHeader(AppendDb(db, b).value) == Some(h.(index := h.index + 1))
            && ReadBlockAt(AppendDb(db, b).value, h.index as nat + 1) == Some(b)
            && forall i :: 1 <= i <= h.index as nat ==> ReadBlockAt(AppendDb(db, b).value, i) == ReadBlockAt(db, i)
  {
    hide BlockName, UnpackBlock, UnpackHeader, HeaderBytes, BlockBytes;
    var h := ReadCheckedHeader(db).value;
    var n := h.index as nat + 1;
    BlockNameIsNotHeader(n);
    HeaderRoundTrip(h.(index := h.index + 1));
    BlockRoundTrip(b);
    forall i | 1 <= i < n ensures ReadBlockAt(AppendDb(db, b).value, i) == ReadBlockAt(db, i) {
      BlockNameIsNotHeader(i);
      if BlockName(i) == BlockName(n) { BlockNamesDistinct(i, n); }
    }
  }

  /** One `addBlock` on any accepted database whose keys match keeps it accepted, with one more block. */
  lemma AppendAccepted(c: Primitives, db: Db, data: Bytes, nonce: Option<Nonce>)
    requires c.Lawful() && Accepts(c, db)
    requires ReadHeader(db).value.index < MAX_UINT64 - 1
    requires c.publicKey(ReadHeader(db).value.privateKey) == Some(ReadHeader(db).value.publicKey)
    requires AddBlockDb(c, db, data, nonce).Some?
    ensures var (db', b) := AddBlockDb(c, db, data, nonce).value;
            Accepts(c, db') && StoredBlocks(db') == Some(StoredBlocks(db).value + [b])
  {
    hide ReadHeader, AppendDb, ReadBlockAt, Genesis, ValidBlocks, BuildBlock, Tip;
    var (db', b) := AddBlockDb(c, db, data, nonce).value;
    var h, bs := ReadHeader(db).value, StoredBlocks(db).value;
    PrevOfAccepted(c, db);
    AppendReadsBack(db, b);
    assert BlocksUpTo(db', h.index as nat + 1) == Some(bs + [b]) by {
      BlocksUpToFrame(db, db', h.index as nat);
    }
    BuiltBlockExtends(c, h, bs, nonce.value, data);
    SameGenesis(c, h, h.index + 1);
  }

  lemma PrevOfAccepted(c: Primitives, db: Db)
    requires Accepts(c, db)
    ensures ReadPrev(c, db, ReadHeader(db).value) == Some(Tip(Genesis(c, ReadHeader(db).value), StoredBlocks(db).value))
  {
    hide ReadHeader, ReadBlockAt, Genesis, ValidBlocks, BlocksUpTo;
    BlocksUpToElements(db, ReadHeader(db).value.index as nat);
  }

  /** Overwriting one stored block replaces exactly that element of the list. */
  lemma EditReadsBack(db: Db, i: nat, b: Block)
    requires StoredBlocks(db).Some? && 1 <= i <= |StoredBlocks(db).value|
    requires PackBlock(b).Some?
    ensures ReadHeader(db[BlockName(i) := BlockBytes(b)]) == ReadHeader(db)
    ensures StoredBlocks(db[BlockName(i) := BlockBytes(b)]) == Some(StoredBlocks(db).value[i - 1 := b])
  {
    hide BlocksUpTo, ReadBlockAt, UnpackHeader, BlockName, BlockBytes;
    var db' := db[BlockName(i) := BlockBytes(b)];
    var bs := StoredBlocks(db).value;
    BlockNameIsNotHeader(i);
    BlocksUpToElements(db, |bs|);
    BlocksUpToElements(db', |bs|);
    forall j | 1 <= j <= |bs| ensures ReadBlockAt(db', j) == Some(bs[i - 1 := b][j - 1]) {
      EditedEntry(db, i, b, j);
    }
    var bs' := BlocksUpTo(db', |bs|).value;
    forall k | 0 <= k < |bs| ensures bs'[k] == bs[i - 1 := b][k] {
      assert ReadBlockAt(db', k + 1) == Some(bs'[k + 1 - 1]);
    }
    assert bs' == bs[i - 1 := b];
  }

  lemma EditedEntry(db: Db, i: nat, b: Block, j: nat)
    requires PackBlock(b).Some?
    ensures ReadBlockAt(db[BlockName(i) := BlockBytes(b)], j) == if i == j then Some(b) else ReadBlockAt(db, j)
  {
    BlockRoundTrip(b);
    hide BlockName, BlockBytes, UnpackBlock;
    if BlockName(i) == BlockName(j) { BlockNamesDistinct(i, j); }
  }

  /** Replacing one field of one stored block turns the verdict, or the two databases show a collision. */
  lemma StoredEditDetected(c: Primitives, db: Db, i: nat, b: Block)
    requires Accepts(c, db) && 1 <= i <= |StoredBlocks(db).value|
    requires PackBlock(b).Some? && OneFieldReplaced(StoredBlocks(db).value[i - 1], b)
    ensures Accepts(c, db[BlockName(i) := BlockBytes(b)]) ==>
              var e := EditCollision(Genesis(c, ReadHeader(db).value), StoredBlocks(db).value, i - 1, b);
              b.hash == StoredBlocks(db).value[i - 1].hash && Collides(c, e.0, e.1)
  {
    var h, bs := ReadHeader(db).value, StoredBlocks(db).value;
    hide BlockName, BlockBytes, PackBlock, ReadHeader, StoredBlocks, ValidBlocks, Genesis, EditCollision,
      OneFieldReplaced;
    EditReadsBack(db, i, b);
    FieldEditDetected(c, h.publicKey, Genesis(c, h), bs, i - 1, b);
  }

  /** Replacing a stored `prevHash` never changes the verdict. */
  lemma StoredPrevHashIgnored(c: Primitives, db: Db, i: nat, prev: Hash)
    requires StoredBlocks(db).Some? && 1 <= i <= |StoredBlocks(db).value|
    requires PackBlock(StoredBlocks(db).value[i - 1].(prevHash := prev)).Some?
    ensures var b := StoredBlocks(db).value[i - 1].(prevHash := prev);
            Accepts(c, db[BlockName(i) := BlockBytes(b)]) <==> Accepts(c, db)
  {
    var h, bs := ReadHeader(db).value, StoredBlocks(db).value;
    hide BlockName, BlockBytes, PackBlock, ReadHeader, StoredBlocks, ValidBlocks, Genesis;
    EditReadsBack(db, i, bs[i - 1].(prevHash := prev));
    PrevHashEditIgnored(c, h.publicKey, Genesis(c, h), bs, i - 1, prev);
  }

  /** Two accepted databases with one tip hash hold one chain, or the walk back from the tip shows a collision. */
  lemma StoredTipCommitment(c: Primitives, db: Db, db': Db)
    requires Accepts(c, db) && Accepts(c, db')
    requires Tip(Genesis(c, ReadHeader(db).value), StoredBlocks(db).value) ==
             Tip(Genesis(c, ReadHeader(db').value), StoredBlocks(db').value)
    ensures var h, bs, h', bs' := ReadHeader(db).value, StoredBlocks(db).value, ReadHeader(db').value,
              StoredBlocks(db').value;
            match Compare(c, h, bs, h', bs')
            case Same => SameChain(h, bs, h', bs') && h == h'
            case Collision(x, y) => Collides(c, x, y)
    ensures |StoredBlocks(db).value| != |StoredBlocks(db').value| ==>
              Compare(c, ReadHeader(db).value, StoredBlocks(db).value, ReadHeader(db').value,
                      StoredBlocks(db').value).Collision?
  {
    hide ReadHeader, BlocksUpTo, Compare, Genesis, ValidBlocks, Tip;
    TipCommitment(c, ReadHeader(db).value, StoredBlocks(db).value, ReadHeader(db').value, StoredBlocks(db').value);
  }
}
