/**
  The abstract chain behind a database, the block that an append stores, and what the verifier says
  about stored bytes.
 */
module StoredChain {
  import opened Basics
  import opened Crypto
  import opened Records
  import opened Names
  import opened Layout
  import opened Validity

  /** A database that exists: created but left without its header, or a chain with its blocks. */
  datatype ChainState = Headerless | Live(header: Header, blocks: seq<Block>)

  // ---------- From states to bytes and back ----------

  function BlocksDb(bs: seq<Block>): Db {
    if bs == [] then map[] else BlocksDb(bs[..|bs| - 1])[BlockName(|bs|) := BlockBytes(bs[|bs| - 1])]
  }

  function Store(st: ChainState): Db {
    match st
    case Headerless => map[]
    case Live(h, bs) => BlocksDb(bs)[DB_HEADER_KEY := HeaderBytes(h)]
  }

  function StateOf(db: Db): ChainState {
    match ReadCheckedHeader(db)
    case None => Headerless
    case Some(h) =>
      match BlocksUpTo(db, h.index as nat)
      case None => Headerless
      case Some(bs) => Live(h, bs)
  }

  ghost predicate WellStored(st: ChainState) {
    st.Live? ==>
      && st.header.version == DB_VERSION
      && st.header.index as nat == |st.blocks|
      && PackHeader(st.header).Some?
      && forall b :: b in st.blocks ==> PackBlock(b).Some?
  }

  lemma {:induction false} BlocksDbEntries(bs: seq<Block>)
    ensures forall i :: 1 <= i <= |bs| ==>
              BlockName(i) in BlocksDb(bs) && BlocksDb(bs)[BlockName(i)] == BlockBytes(bs[i - 1])
    ensures forall key :: key in BlocksDb(bs) ==> exists i :: 1 <= i <= |bs| && key == BlockName(i)
  {
    hide BlockName, BlockBytes;
    if bs != [] {
      BlocksDbEntries(bs[..|bs| - 1]);
      forall i | 1 <= i < |bs| ensures BlockName(i) != BlockName(|bs|) {
        if BlockName(i) == BlockName(|bs|) { BlockNamesDistinct(i, |bs|); }
      }
    }
  }

  lemma BlockReadsBack(h: Header, bs: seq<Block>, i: nat)
    requires WellStored(Live(h, bs))
    ensures ReadBlockAt(Store(Live(h, bs)), i) == if 1 <= i <= |bs| then Some(bs[i - 1]) else None
  {
    hide BlockName, BlockBytes, BlocksDb, UnpackBlock, HeaderBytes, PackHeader;
    BlocksDbEntries(bs);
    BlockNameIsNotHeader(i);
    if 1 <= i <= |bs| {
      assert bs[i - 1] in bs;
      BlockRoundTrip(bs[i - 1]);
    } else if BlockName(i) in BlocksDb(bs) {
      var j :| 1 <= j <= |bs| && BlockName(i) == BlockName(j);
      BlockNamesDistinct(i, j);
    }
  }

  lemma {:induction false} BlocksReadBack(h: Header, bs: seq<Block>, n: nat)
    requires WellStored(Live(h, bs)) && n <= |bs|
    ensures BlocksUpTo(Store(Live(h, bs)), n) == Some(bs[..n])
  {
    hide ReadBlockAt, Store, PackHeader, PackBlock;
    if n > 0 {
      BlocksReadBack(h, bs, n - 1);
      BlockReadsBack(h, bs, n);
      assert bs[..n - 1] + [bs[n - 1]] == bs[..n];
    }
  }

  lemma HeaderReadsBack(h: Header, bs: seq<Block>)
    requires WellStored(Live(h, bs))
    ensures ReadHeader(Store(Live(h, bs))) == ReadCheckedHeader(Store(Live(h, bs))) == Some(h)
  {
    hide BlocksDb, HeaderBytes, UnpackHeader;
    HeaderRoundTrip(h);
  }

  /** The layout loses nothing: reading a stored state gives that state. */
  lemma StateRoundTrip(st: ChainState)
    requires WellStored(st)
    ensures StateOf(Store(st)) == st
  {
    if st.Live? {
      hide Store, ReadCheckedHeader, BlocksUpTo, PackHeader, PackBlock;
      HeaderReadsBack(st.header, st.blocks);
      BlocksReadBack(st.header, st.blocks, |st.blocks|);
      assert st.blocks[..|st.blocks|] == st.blocks;
    }
  }

  /** `getBlock` is the i-th element for 1 <= i <= n and nothing otherwise. */
  lemma FindBlockIsElement(h: Header, bs: seq<Block>, index: uint64)
    requires WellStored(Live(h, bs))
    ensures FindBlock(Store(Live(h, bs)), index) ==
            if 1 <= index as nat <= |bs| then Some(bs[index as nat - 1]) else None
  {
    hide Store, ReadCheckedHeader, ReadBlockAt, PackHeader, PackBlock;
    HeaderReadsBack(h, bs);
    if index != 0 {
      BlockReadsBack(h, bs, index as nat);
    }
  }

  /** `getBlocks` is the whole list, except at the last index, where the loop stops on block zero. */
  lemma StoredBlocksIsList(h: Header, bs: seq<Block>)
    requires WellStored(Live(h, bs))
    ensures StoredBlocks(Store(Live(h, bs))) == if h.index == MAX_UINT64 then None else Some(bs)
    ensures WalkEnds(Store(Live(h, bs)))
  {
    hide Store, ReadCheckedHeader, ReadBlockAt, BlocksUpTo, PackHeader, PackBlock;
    HeaderReadsBack(h, bs);
    BlocksReadBack(h, bs, |bs|);
    assert bs[..|bs|] == bs;
    BlockReadsBack(h, bs, 0);
    assert !Readable(Store(Live(h, bs)), 0);
  }

  /** The batch of `Chain::addBlock` adds one element at the end and overwrites none. */
  lemma AppendIsSnoc(h: Header, bs: seq<Block>, b: Block)
    requires WellStored(Live(h, bs)) && h.index < MAX_UINT64
    ensures AppendDb(Store(Live(h, bs)), b).Some? <==> PackHeader(h.(index := h.index + 1)).Some? && PackBlock(b).Some?
    ensures AppendDb(Store(Live(h, bs)), b).Some? ==>
              && WellStored(Live(h.(index := h.index + 1), bs + [b]))
              && AppendDb(Store(Live(h, bs)), b).value == Store(Live(h.(index := h.index + 1), bs + [b]))
  {
    hide BlockName, BlockBytes, HeaderBytes, ReadCheckedHeader;
    HeaderReadsBack(h, bs);
    if AppendDb(Store(Live(h, bs)), b).Some? {
      var n := |bs| + 1;
      BlockNameIsNotHeader(n);
      assert (bs + [b])[..|bs|] == bs;
      assert BlocksDb(bs + [b]) == BlocksDb(bs)[BlockName(n) := BlockBytes(b)];
    }
  }

  /** At the last index the append wraps: the header goes back to zero and the list is lost. */
  lemma AppendWraps(h: Header, bs: seq<Block>, b: Block)
    requires WellStored(Live(h, bs)) && h.index == MAX_UINT64
    requires AppendDb(Store(Live(h, bs)), b).Some?
    ensures StateOf(AppendDb(Store(Live(h, bs)), b).value) == Live(h.(index := 0), [])
  {
    hide BlockName, BlockBytes, HeaderBytes, UnpackHeader, BlocksDb;
    HeaderReadsBack(h, bs);
    BlockNameIsNotHeader(0);
    HeaderRoundTrip(h.(index := 0));
  }

  // ---------- Building a block from what is stored ----------

  /** The previous hash that `Manager::addBlock` uses, given the header it read before. */
  function ReadPrev(c: Primitives, db: Db, h: Header): Option<Hash> {
    if h.index == 0 then Some(Genesis(c, h))
    else
      match FindBlock(db, h.index)
      case None => None
      case Some(b) => Some(b.hash)
  }

  /** The block that `Manager::addBlock` assembles; the nonce may be missing. */
  function NextBlock(c: Primitives, db: Db, h: Header, data: Bytes, nonce: Option<Nonce>): Option<Block> {
    match ReadPrev(c, db, h)
    case None => None
    case Some(prev) =>
      match nonce
      case None => None
      case Some(n) => BuildBlock(c, h, prev, n, data)
  }

  /** `Manager::addBlock` on a database that obeys: the new database and the block. */
  function AddBlockDb(c: Primitives, db: Db, data: Bytes, nonce: Option<Nonce>): Option<(Db, Block)> {
    match ReadHeader(db)
    case None => None
    case Some(h) =>
      match NextBlock(c, db, h, data, nonce)
      case None => None
      case Some(b) =>
        match AppendDb(db, b)
        case None => None
        case Some(db') => Some((db', b))
  }

  // ---------- Honest chains ----------

  ghost predicate Linked(genesis: Hash, bs: seq<Block>) {
    forall i :: 0 <= i < |bs| ==> bs[i].prevHash == Before(genesis, bs, i)
  }

  /** What the program's own operations leave behind. */
  ghost predicate Honest(c: Primitives, st: ChainState) {
    && WellStored(st)
    && (st.Live? ==>
          && c.publicKey(st.header.privateKey) == Some(st.header.publicKey)
          && ValidChain(c, st.header, st.blocks)
          && Linked(Genesis(c, st.header), st.blocks))
  }

  ghost predicate HonestDb(c: Primitives, db: Db) {
    Honest(c, StateOf(db)) && db == Store(StateOf(db))
  }

  function Grown(st: ChainState, b: Block): ChainState
    requires st.Live? && st.header.index < MAX_UINT64
  {
    Live(st.header.(index := st.header.index + 1), st.blocks + [b])
  }

  lemma PrevIsTip(c: Primitives, h: Header, bs: seq<Block>)
    requires WellStored(Live(h, bs))
    ensures ReadPrev(c, Store(Live(h, bs)), h) == Some(Tip(Genesis(c, h), bs))
  {
    hide Store, FindBlock, PackHeader, PackBlock, Genesis;
    if h.index != 0 {
      FindBlockIsElement(h, bs, h.index);
    }
  }

  lemma SameGenesis(c: Primitives, h: Header, index: uint64)
    ensures Genesis(c, h.(index := index)) == Genesis(c, h)
  {
  }

  lemma LinkedGrows(genesis: Hash, bs: seq<Block>, b: Block)
    requires Linked(genesis, bs) && b.prevHash == Tip(genesis, bs)
    ensures Linked(genesis, bs + [b])
  {
    forall i | 0 <= i < |bs + [b]| ensures (bs + [b])[i].prevHash == Before(genesis, bs + [b], i) {
      if i < |bs| { assert bs[i].prevHash == Before(genesis, bs, i); }
    }
  }

  lemma ValidGrows(c: Primitives, publicKey: PublicKey, genesis: Hash, bs: seq<Block>, b: Block)
    requires ValidBlocks(c, publicKey, genesis, bs) && BlockOk(c, publicKey, Tip(genesis, bs), b)
    ensures ValidBlocks(c, publicKey, genesis, bs + [b])
  {
    hide BlockOk;
    assert (bs + [b])[..|bs|] == bs;
  }

  /** Storing a block that was built on the tip keeps the chain honest. */
  lemma HonestGrowth(c: Primitives, st: ChainState, b: Block)
    requires Honest(c, st) && st.Live? && st.header.index < MAX_UINT64
    requires BlockOk(c, st.header.publicKey, Tip(Genesis(c, st.header), st.blocks), b)
    requires b.prevHash == Tip(Genesis(c, st.header), st.blocks)
    requires AppendDb(Store(st), b).Some?
    ensures Honest(c, Grown(st, b)) && AppendDb(Store(st), b).value == Store(Grown(st, b))
    ensures HonestDb(c, AppendDb(Store(st), b).value) && StateOf(AppendDb(Store(st), b).value) == Grown(st, b)
  {
    hide Store, StateOf, AppendDb, WellStored, Genesis, Tip, BlockOk, ValidBlocks, Linked;
    var h, bs := st.header, st.blocks;
    AppendIsSnoc(h, bs, b);
    SameGenesis(c, h, h.index + 1);
    ValidGrows(c, h.publicKey, Genesis(c, h), bs, b);
    LinkedGrows(Genesis(c, h), bs, b);
    StateRoundTrip(Grown(st, b));
  }

  /** One `addBlock` on an honest chain adds the returned block at the end of an honest chain. */
  lemma HonestAddBlock(c: Primitives, st: ChainState, data: Bytes, nonce: Option<Nonce>)
    requires c.Lawful()
    requires Honest(c, st) && st.Live? && st.header.index < MAX_UINT64
    requires AddBlockDb(c, Store(st), data, nonce).Some?
    ensures var (db', b) := AddBlockDb(c, Store(st), data, nonce).value;
            && HonestDb(c, db') && StateOf(db') == Grown(st, b)
            && b.data == data && Some(b.nonce) == nonce
  {
    hide Store, StateOf, AppendDb, PackHeader, PackBlock, Genesis, ReadHeader, ReadPrev, ValidChain, Tip, HonestDb,
      BlockPreimage, BodyPreimage;
    HeaderReadsBack(st.header, st.blocks);
    PrevIsTip(c, st.header, st.blocks);
    var b := AddBlockDb(c, Store(st), data, nonce).value.1;
    HonestGrowth(c, st, b);
  }

  /** Without a header there is nothing to append to. */
  lemma HeaderlessAddBlock(c: Primitives, data: Bytes, nonce: Option<Nonce>)
    ensures AddBlockDb(c, Store(Headerless), data, nonce).None?
  {
  }

  lemma CreatedIsHonest(c: Primitives, data: Bytes, privateKey: PrivateKey, publicKey: PublicKey)
    requires c.publicKey(privateKey) == Some(publicKey)
    requires CreatedDb(data, privateKey, publicKey).Some?
    ensures var db := CreatedDb(data, privateKey, publicKey).value;
            HonestDb(c, db) && StateOf(db) == Live(Header(DB_VERSION, 0, data, privateKey, publicKey), [])
  {
    var st := Live(Header(DB_VERSION, 0, data, privateKey, publicKey), []);
    StateRoundTrip(st);
  }
}
