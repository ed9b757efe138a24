/**
  What one chain database holds, as bytes under keys, and what the chain operations read from it and
  write to it when the database obeys. `Chain` is proved against these functions.
 */
module Layout {
  import opened Basics
  import opened Crypto
  import opened Records
  import opened Names

  type Db = map<string, Bytes>

  const DB_VERSION: uint64 := 1

  // ---------- Reading ----------

  /** The public `Chain::getHeader`: any version. */
  function ReadHeader(db: Db): Option<Header> {
    if DB_HEADER_KEY in db then UnpackHeader(db[DB_HEADER_KEY]) else None
  }

  /** The private `Chain::getHeader`, which every other operation uses: the supported version only. */
  function ReadCheckedHeader(db: Db): Option<Header> {
    match ReadHeader(db)
    case None => None
    case Some(h) => if h.version != DB_VERSION then None else Some(h)
  }

  function ReadBlockAt(db: Db, i: nat): Option<Block> {
    if BlockName(i) in db then UnpackBlock(db[BlockName(i)]) else None
  }

  /** `Chain::getBlock`. */
  function FindBlock(db: Db, index: uint64): Option<Block> {
    match ReadCheckedHeader(db)
    case None => None
    case Some(h) => if index == 0 || h.index < index then None else ReadBlockAt(db, index as nat)
  }

  /** Blocks 1 to n, if each of them can be read. */
  function BlocksUpTo(db: Db, n: nat): (r: Option<seq<Block>>)
    ensures r.Some? ==> |r.value| == n
  {
    if n == 0 then Some([])
    else
      match BlocksUpTo(db, n - 1)
      case None => None
      case Some(bs) =>
        match ReadBlockAt(db, n)
        case None => None
        case Some(b) => Some(bs + [b])
  }

  /** `Chain::getBlocks`: at the last index the loop counter wraps and the call cannot succeed. */
  function StoredBlocks(db: Db): Option<seq<Block>> {
    match ReadCheckedHeader(db)
    case None => None
    case Some(h) => if h.index == MAX_UINT64 then None else BlocksUpTo(db, h.index as nat)
  }

  lemma {:induction false} BlocksUpToElements(db: Db, n: nat)
    ensures BlocksUpTo(db, n).Some? <==> forall i :: 1 <= i <= n ==> ReadBlockAt(db, i).Some?
    ensures BlocksUpTo(db, n).Some? ==>
              forall i :: 1 <= i <= n ==> ReadBlockAt(db, i) == Some(BlocksUpTo(db, n).value[i - 1])
  {
    hide ReadBlockAt;
    if n > 0 {
      BlocksUpToElements(db, n - 1);
    }
  }

  // ---------- Writing ----------

  function ApplyBatch(db: Db, pairs: seq<(string, Bytes)>): Db {
    if pairs == [] then db
    else
      var last := pairs[|pairs| - 1];
      ApplyBatch(db, pairs[..|pairs| - 1])[last.0 := last.1]
  }

  /** `Chain::create`: the database of a new chain, unless its header cannot be serialised. */
  function CreatedDb(data: Bytes, privateKey: PrivateKey, publicKey: PublicKey): Option<Db> {
    match PackHeader(Header(DB_VERSION, 0, data, privateKey, publicKey))
    case None => None
    case Some(buffer) => Some(map[DB_HEADER_KEY := buffer])
  }

  /** `Chain::addBlock`: the index wraps like the `size_t` it is. */
  function AppendDb(db: Db, block: Block): Option<Db> {
    match ReadCheckedHeader(db)
    case None => None
    case Some(h) =>
      var h' := h.(index := Increment(h.index));
      match PackHeader(h')
      case None => None
      case Some(headerData) =>
        match PackBlock(block)
        case None => None
        case Some(blockData) =>
          Some(db[DB_HEADER_KEY := headerData][BlockName(h'.index as nat) := blockData])
  }

  /** A header of another version can be read, but its blocks cannot, and nothing can be appended. */
  lemma OtherVersionsRefused(db: Db, index: uint64, b: Block)
    requires ReadHeader(db).Some? && ReadHeader(db).value.version != DB_VERSION
    ensures FindBlock(db, index).None? && StoredBlocks(db).None? && AppendDb(db, b).None?
  {
  }

  // ---------- The getBlocks loop counter ----------

  /** The counter after k iterations of the getBlocks loop, or None once the loop has been left. */
  function WalkAt(db: Db, last: uint64, k: nat): Option<uint64> {
    if k == 0 then Some(1)
    else
      match WalkAt(db, last, k - 1)
      case None => None
      case Some(i) => if i <= last && ReadBlockAt(db, i as nat).Some? then Some(Increment(i)) else None
  }

  predicate Readable(db: Db, i: nat) {
    ReadBlockAt(db, i).Some?
  }

  /** When the getBlocks loop can be left; only the very last index can keep it going for ever. */
  ghost predicate WalkEnds(db: Db) {
    ReadCheckedHeader(db).Some? && ReadCheckedHeader(db).value.index == MAX_UINT64 ==>
      exists i: nat :: i <= MAX_UINT64 as nat && !Readable(db, i)
  }

  /** The first 2^64 - 1 iterations count up from one; the wrap comes after them. */
  lemma {:induction false} WalkCounts(db: Db, last: uint64, k: nat)
    requires k <= MAX_UINT64 as nat
    ensures WalkAt(db, last, k).Some? ==>
              WalkAt(db, last, k).value as nat == if k == MAX_UINT64 as nat then 0 else k + 1
  {
    hide ReadBlockAt;
    if k > 0 && WalkAt(db, last, k).Some? {
      WalkCounts(db, last, k - 1);
      var i := WalkAt(db, last, k - 1).value;
      assert WalkAt(db, last, k) == Some(Increment(i));
    }
  }

  lemma {:induction false} WalkGoesOn(db: Db, k: nat)
    requires forall i: nat :: i <= MAX_UINT64 as nat ==> Readable(db, i)
    ensures WalkAt(db, MAX_UINT64, k).Some?
  {
    hide ReadBlockAt;
    if k > 0 {
      WalkGoesOn(db, k - 1);
      assert Readable(db, WalkAt(db, MAX_UINT64, k - 1).value as nat);
    }
  }

  /** Below the last index the loop makes at most index + 1 tests. */
  lemma WalkIsShort(db: Db, last: uint64)
    requires last < MAX_UINT64
    ensures WalkAt(db, last, last as nat + 1).None?
  {
    WalkCounts(db, last, last as nat);
  }

  /** A block that cannot be read stops even the walk towards the last index. */
  lemma UnreadStops(db: Db, i: nat) returns (k: nat)
    requires i <= MAX_UINT64 as nat && !Readable(db, i)
    ensures WalkAt(db, MAX_UINT64, k).None?
  {
    hide ReadBlockAt;
    var before := if i == 0 then MAX_UINT64 as nat else i - 1;
    WalkCounts(db, MAX_UINT64, before);
    k := before + 1;
    if WalkAt(db, MAX_UINT64, before).Some? {
      assert WalkAt(db, MAX_UINT64, before).value as nat == i;
    }
  }

  /** The loop is left at some point if and only if `WalkEnds`. */
  lemma WalkTerminatesExactly(db: Db)
    requires ReadCheckedHeader(db).Some?
    ensures WalkEnds(db) <==> exists k: nat :: WalkAt(db, ReadCheckedHeader(db).value.index, k).None?
  {
    hide ReadBlockAt, ReadCheckedHeader, WalkAt, Readable;
    var last := ReadCheckedHeader(db).value.index;
    if last < MAX_UINT64 {
      WalkIsShort(db, last);
    } else if i: nat :| i <= MAX_UINT64 as nat && !Readable(db, i) {
      var _ := UnreadStops(db, i);
    } else {
      forall k: nat ensures WalkAt(db, last, k).Some? {
        WalkGoesOn(db, k);
      }
    }
  }
}
