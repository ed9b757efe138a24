/**
  What reading, appending, creating and verifying come to in the stored bytes themselves: the entries
  under the literal keys, their unpacked records, and concatenations under the hash.
 */
module Meaning {
  import opened Basics
  import opened Crypto
  import opened Sha256
  import opened Records
  import opened Names
  import opened Layout
  import opened Validity
  import opened StoredChain
  import opened Verdicts
  import opened Steps

  predicate HeaderIs(db: Db, h: Header) {
    "__HEADER" in db && UnpackHeader(db["__HEADER"]) == Some(h)
  }

  predicate BlockIs(db: Db, i: nat, b: Block) {
    "__BLOCK/" + Decimal(i) in db && UnpackBlock(db["__BLOCK/" + Decimal(i)]) == Some(b)
  }

  // ---------- Reading ----------

  lemma HeaderReads(db: Db, h: Header)
    ensures ReadHeader(db) == Some(h) <==> HeaderIs(db, h)
    ensures ReadCheckedHeader(db) == Some(h) <==> HeaderIs(db, h) && h.version == 1
  {
    hide UnpackHeader;
  }

  lemma BlockReads(db: Db, i: nat, b: Block)
    ensures ReadBlockAt(db, i) == Some(b) <==> BlockIs(db, i, b)
  {
    hide UnpackBlock, Decimal;
  }

  /** A header of any version can be read back. */
  lemma AnyVersionIsRead(db: Db, h: Header)
    requires PackHeader(h).Some?
    ensures HeaderIs(db["__HEADER" := HeaderBytes(h)], h)
  {
    HeaderRoundTrip(h);
    hide HeaderBytes, UnpackHeader;
  }

  ghost predicate BlockListed(db: Db, index: uint64, b: Block) {
    exists h :: HeaderIs(db, h) && h.version == 1 && 1 <= index <= h.index && BlockIs(db, index as nat, b)
  }

  /** `getBlock` yields exactly the block stored under its number, from 1 to the index of a supported header. */
  lemma FindBlockExactly(db: Db, index: uint64, b: Block)
    ensures FindBlock(db, index) == Some(b) <==> BlockListed(db, index, b)
  {
    hide HeaderIs, BlockIs, ReadCheckedHeader, ReadBlockAt;
    BlockReads(db, index as nat, b);
    if FindBlock(db, index) == Some(b) {
      HeaderReads(db, ReadCheckedHeader(db).value);
    }
    if BlockListed(db, index, b) {
      var h :| HeaderIs(db, h) && h.version == 1 && 1 <= index <= h.index && BlockIs(db, index as nat, b);
      HeaderReads(db, h);
    }
  }

  predicate ListedUnder(db: Db, h: Header, bs: seq<Block>) {
    && HeaderIs(db, h) && h.version == 1 && h.index < MAX_UINT64 && h.index as nat == |bs|
    && forall i :: 0 <= i < |bs| ==> BlockIs(db, i + 1, bs[i])
  }

  ghost predicate BlocksListed(db: Db, bs: seq<Block>) {
    exists h :: ListedUnder(db, h, bs)
  }

  /** `getBlocks` yields exactly the blocks stored under 1 to the index of a supported header. */
  lemma StoredBlocksExactly(db: Db, bs: seq<Block>)
    ensures StoredBlocks(db) == Some(bs) <==> BlocksListed(db, bs)
  {
    hide ListedUnder, StoredBlocks;
    if StoredBlocks(db) == Some(bs) {
      ReadAreListed(db, bs);
    }
    if h :| ListedUnder(db, h, bs) {
      ListedAreRead(db, h, bs);
    }
  }

  lemma ReadAreListed(db: Db, bs: seq<Block>)
    requires StoredBlocks(db) == Some(bs)
    ensures BlocksListed(db, bs)
  {
    hide HeaderIs, BlockIs, ReadCheckedHeader, ReadBlockAt, BlocksUpTo;
    var h := ReadCheckedHeader(db).value;
    HeaderReads(db, h);
    BlocksUpToElements(db, |bs|);
    forall i | 0 <= i < |bs| ensures BlockIs(db, i + 1, bs[i]) {
      assert ReadBlockAt(db, i + 1) == Some(bs[i + 1 - 1]);
      BlockReads(db, i + 1, bs[i]);
    }
    assert ListedUnder(db, h, bs);
  }

  lemma ListedAreRead(db: Db, h: Header, bs: seq<Block>)
    requires ListedUnder(db, h, bs)
    ensures StoredBlocks(db) == Some(bs)
  {
    hide HeaderIs, BlockIs, ReadCheckedHeader, ReadBlockAt, BlocksUpTo;
    HeaderReads(db, h);
    forall i | 1 <= i <= |bs| ensures ReadBlockAt(db, i) == Some(bs[i - 1]) {
      assert BlockIs(db, i - 1 + 1, bs[i - 1]);
      BlockReads(db, i, bs[i - 1]);
    }
    BlocksUpToElements(db, |bs|);
    var read := BlocksUpTo(db, |bs|).value;
    forall k | 0 <= k < |bs| ensures read[k] == bs[k] {
      assert ReadBlockAt(db, k + 1) == Some(read[k + 1 - 1]);
    }
    assert read == bs;
  }

  // ---------- Writing ----------

  /** The last pair with a key decides the key's entry. */
  lemma {:induction false} BatchEntry(db: Db, pairs: seq<(string, Bytes)>, i: nat)
    requires i < |pairs| && forall j :: i < j < |pairs| ==> pairs[j].0 != pairs[i].0
    ensures pairs[i].0 in ApplyBatch(db, pairs) && ApplyBatch(db, pairs)[pairs[i].0] == pairs[i].1
  {
    if i < |pairs| - 1 {
      BatchEntry(db, pairs[..|pairs| - 1], i);
    }
  }

  /** A key that no pair names keeps its entry, or stays absent. */
  lemma {:induction false} BatchKeeps(db: Db, pairs: seq<(string, Bytes)>, key: string)
    requires forall i :: 0 <= i < |pairs| ==> pairs[i].0 != key
    ensures key in ApplyBatch(db, pairs) <==> key in db
    ensures key in db ==> ApplyBatch(db, pairs)[key] == db[key]
  {
    if pairs != [] {
      BatchKeeps(db, pairs[..|pairs| - 1], key);
    }
  }

  /** The header after an append; the index wraps. */
  function Bumped(h: Header): Header {
    h.(index := ((h.index as nat + 1) % 0x1_0000_0000_0000_0000) as uint64)
  }

  predicate AppendFrom(db: Db, h: Header, b: Block, db': Db) {
    && HeaderIs(db, h) && h.version == 1
    && |HeaderBytes(Bumped(h))| <= 0x7FFF_FFFF && |BlockBytes(b)| <= 0x7FFF_FFFF
    && db' == db["__HEADER" := HeaderBytes(Bumped(h))]["__BLOCK/" + Decimal(Bumped(h).index as nat) := BlockBytes(b)]
  }

  ghost predicate AppendIs(db: Db, b: Block, db': Db) {
    exists h :: AppendFrom(db, h, b, db')
  }

  /** An append stores exactly two entries: the header with the next index, and the block under that index. */
  lemma AppendExactly(db: Db, b: Block, db': Db)
    ensures AppendDb(db, b) == Some(db') <==> AppendIs(db, b, db')
  {
    hide HeaderIs, ReadCheckedHeader, HeaderBytes, BlockBytes, Decimal;
    if AppendDb(db, b) == Some(db') {
      var h := ReadCheckedHeader(db).value;
      HeaderReads(db, h);
      assert AppendFrom(db, h, b, db');
    }
    if AppendIs(db, b, db') {
      var h :| AppendFrom(db, h, b, db');
      HeaderReads(db, h);
    }
  }

  // ---------- Creating ----------

  /** A creation holds one entry, the header of an empty chain, if that can be serialised. */
  lemma CreatedExactly(c: Primitives, data: Bytes, key: PrivateKey, db: Db)
    ensures NewDb(c, data, Some(key)) == Some(db) <==>
            && c.publicKey(key).Some?
            && var h := Header(1, 0, data, key, c.publicKey(key).value);
               |HeaderBytes(h)| <= 0x7FFF_FFFF && db == map["__HEADER" := HeaderBytes(h)]
  {
    hide HeaderBytes;
  }

  lemma NothingWithoutKey(c: Primitives, data: Bytes)
    ensures NewDb(c, data, None).None?
  {
  }

  /** With 200 bytes to spare below the message limit a creation fails only for want of a key. */
  lemma NewDbExactly(c: Primitives, data: Bytes, key: Option<PrivateKey>)
    requires |data| <= 0x7FFF_FFFF - 200
    ensures NewDb(c, data, key).Some? <==> key.Some? && c.publicKey(key.value).Some?
  {
    if key.Some? && c.publicKey(key.value).Some? {
      var h := Header(1, 0, data, key.value, c.publicKey(key.value).value);
      HeaderSize(h);
      CreatedExactly(c, data, key.value, map["__HEADER" := HeaderBytes(h)]);
    }
    NothingWithoutKey(c, data);
    hide HeaderBytes;
  }

  // ---------- Building ----------

  /** The block of an append, field by field; it is missing exactly when the body cannot be signed. */
  lemma BuildBlockExactly(c: Primitives, h: Header, prev: Hash, nonce: Nonce, data: Bytes)
    ensures BuildBlock(c, h, prev, nonce, data).Some? <==> c.sign(c.hash(prev + nonce + data), h.privateKey).Some?
    ensures BuildBlock(c, h, prev, nonce, data).Some? ==>
              var b, s := BuildBlock(c, h, prev, nonce, data).value,
                  c.sign(c.hash(prev + nonce + data), h.privateKey).value;
              && b.prevHash == prev && b.nonce == nonce && b.data == data && b.signature == s
              && b.hash == c.hash(prev + nonce + data + s)
  {
  }

  /** The hash that the next block must follow, in the stored bytes. */
  ghost predicate PrevIs(c: Primitives, db: Db, h: Header, prev: Hash) {
    if h.index == 0 then prev == c.hash(c.hash(h.data + h.privateKey + h.publicKey))
    else exists last :: BlockListed(db, h.index, last) && prev == last.hash
  }

  lemma PrevExactly(c: Primitives, db: Db, h: Header, prev: Hash)
    ensures ReadPrev(c, db, h) == Some(prev) <==> PrevIs(c, db, h, prev)
  {
    GenesisIsDoubleHash(c, h);
    hide Genesis, FindBlock, BlockListed;
    if h.index != 0 {
      if ReadPrev(c, db, h) == Some(prev) {
        FindBlockExactly(db, h.index, FindBlock(db, h.index).value);
      }
      if PrevIs(c, db, h, prev) {
        var last :| BlockListed(db, h.index, last) && prev == last.hash;
        FindBlockExactly(db, h.index, last);
      }
    }
  }

  /** The block is made from what is stored: it follows the last hash, and is signed and hashed over its own fields. */
  ghost predicate MadeFrom(c: Primitives, db: Db, data: Bytes, nonce: Nonce, b: Block) {
    exists h ::
      && HeaderIs(db, h) && PrevIs(c, db, h, b.prevHash) && b.nonce == nonce && b.data == data
      && c.sign(c.hash(b.prevHash + nonce + data), h.privateKey) == Some(b.signature)
      && b.hash == c.hash(b.prevHash + nonce + data + b.signature)
  }

  /** `addBlock`, both ways: it yields a block and a database exactly when they are made from what is stored. */
  lemma AddBlockExactly(c: Primitives, db: Db, data: Bytes, nonce: Nonce, db': Db, b: Block)
    ensures AddBlockDb(c, db, data, Some(nonce)) == Some((db', b)) <==>
            MadeFrom(c, db, data, nonce, b) && AppendIs(db, b, db')
  {
    hide HeaderIs, PrevIs, AppendIs, ReadHeader, ReadPrev, AppendDb, BuildBlock;
    AppendExactly(db, b, db');
    if AddBlockDb(c, db, data, Some(nonce)) == Some((db', b)) {
      var h := ReadHeader(db).value;
      HeaderReads(db, h);
      var prev := ReadPrev(c, db, h).value;
      PrevExactly(c, db, h, prev);
      BuildBlockExactly(c, h, prev, nonce, data);
    }
    if MadeFrom(c, db, data, nonce, b) && AppendIs(db, b, db') {
      MadeIsNext(c, db, data, nonce, b);
    }
  }

  lemma MadeIsNext(c: Primitives, db: Db, data: Bytes, nonce: Nonce, b: Block)
    requires MadeFrom(c, db, data, nonce, b)
    ensures ReadHeader(db).Some? && NextBlock(c, db, ReadHeader(db).value, data, Some(nonce)) == Some(b)
  {
    hide HeaderIs, PrevIs, ReadHeader, ReadPrev, BuildBlock;
    var h :|
      && HeaderIs(db, h) && PrevIs(c, db, h, b.prevHash) && b.nonce == nonce && b.data == data
      && c.sign(c.hash(b.prevHash + nonce + data), h.privateKey) == Some(b.signature)
      && b.hash == c.hash(b.prevHash + nonce + data + b.signature);
    HeaderReads(db, h);
    PrevExactly(c, db, h, b.prevHash);
    BuildBlockExactly(c, h, b.prevHash, nonce, data);
  }

  lemma NothingWithoutNonce(c: Primitives, db: Db, data: Bytes)
    ensures AddBlockDb(c, db, data, None).None?
  {
  }

  // ---------- Verifying ----------

  /** Every block from 1 to the index of a supported header has the hash and the signature its place demands. */
  ghost predicate Sound(c: Primitives, db: Db) {
    exists h :: HeaderIs(db, h) && h.version == 1 && h.index < MAX_UINT64
                && forall i :: 1 <= i <= h.index as nat ==> SoundAt(c, h, db, i)
  }

  lemma AcceptsIsSound(c: Primitives, db: Db)
    ensures Accepts(c, db) <==> Sound(c, db)
  {
    AcceptsExactly(c, db);
    hide Accepts, HeaderIs, ReadHeader, SoundAt;
    if Accepts(c, db) {
      HeaderReads(db, ReadHeader(db).value);
    }
    if Sound(c, db) {
      var h :| HeaderIs(db, h) && h.version == 1 && h.index < MAX_UINT64
               && forall i :: 1 <= i <= h.index as nat ==> SoundAt(c, h, db, i);
      HeaderReads(db, h);
    }
  }

  // ---------- Repeated hashing ----------

  /** Hashing a times and then b times is hashing a + b times, and once is the hash itself. */
  lemma {:induction false} HashTimesAdds(c: Primitives, x: Bytes, a: nat, b: nat)
    requires a >= 1 && b >= 1
    ensures HashTimes(c, x, 1) == c.hash(x)
    ensures HashTimes(c, HashTimes(c, x, a), b) == HashTimes(c, x, a + b)
  {
    if b > 1 {
      HashTimesAdds(c, x, a, b - 1);
    }
  }
}
