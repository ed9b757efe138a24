/**
  What `Manager::verifyChain` demands of a list of blocks, how a block is built, and what an accepted tip pins
  down.
 */
module Validity {
  import opened Basics
  import opened Crypto
  import opened Sha256
  import opened Records

  /** The hash that stands before the first block. */
  function Genesis(c: Primitives, h: Header): Hash {
    HashTimes(c, GenesisPreimage(h.data, h.privateKey, h.publicKey), 2)
  }

  /** The hash that the next block must follow. */
  function Tip(genesis: Hash, bs: seq<Block>): Hash {
    if bs == [] then genesis else bs[|bs| - 1].hash
  }

  function Hashed(prev: Hash, b: Block): Bytes {
    BlockPreimage(prev, b.nonce, b.data, b.signature)
  }

  predicate BlockOk(c: Primitives, publicKey: PublicKey, prev: Hash, b: Block) {
    && c.verify(c.hash(BodyPreimage(prev, b.nonce, b.data)), publicKey, b.signature)
    && b.hash == c.hash(Hashed(prev, b))
  }

  predicate ValidBlocks(c: Primitives, publicKey: PublicKey, genesis: Hash, bs: seq<Block>) {
    bs == [] ||
    var front := bs[..|bs| - 1];
    && ValidBlocks(c, publicKey, genesis, front)
    && BlockOk(c, publicKey, Tip(genesis, front), bs[|bs| - 1])
  }

  /** The verdict of the verifier on a header and blocks that were read. */
  predicate ValidChain(c: Primitives, h: Header, bs: seq<Block>) {
    ValidBlocks(c, h.publicKey, Genesis(c, h), bs)
  }

  /** The block that `Manager::addBlock` assembles; signing may fail. */
  function BuildBlock(c: Primitives, h: Header, prev: Hash, nonce: Nonce, data: Bytes): Option<Block> {
    match c.sign(c.hash(BodyPreimage(prev, nonce, data)), h.privateKey)
    case None => None
    case Some(signature) =>
      Some(Block(c.hash(BlockPreimage(prev, nonce, data, signature)), prev, nonce, data, signature))
  }

  /** The hash that block i must follow. */
  function Before(genesis: Hash, bs: seq<Block>, i: nat): Hash
    requires i < |bs|
  {
    if i == 0 then genesis else bs[i - 1].hash
  }

  predicate BlockOkAt(c: Primitives, publicKey: PublicKey, genesis: Hash, bs: seq<Block>, i: nat)
    requires i < |bs|
  {
    BlockOk(c, publicKey, Before(genesis, bs, i), bs[i])
  }

  /** Read block by block, validity is the check at every index against the predecessor's stored hash. */
  lemma {:induction false} ValidPointwise(c: Primitives, publicKey: PublicKey, genesis: Hash, bs: seq<Block>)
    ensures ValidBlocks(c, publicKey, genesis, bs) <==>
            forall i :: 0 <= i < |bs| ==> BlockOkAt(c, publicKey, genesis, bs, i)
  {
    if bs != [] {
      var front := bs[..|bs| - 1];
      ValidPointwise(c, publicKey, genesis, front);
      forall i | 0 <= i < |front|
        ensures BlockOkAt(c, publicKey, genesis, front, i) == BlockOkAt(c, publicKey, genesis, bs, i)
      {
      }
      assert Before(genesis, bs, |front|) == Tip(genesis, front);
      assert BlockOkAt(c, publicKey, genesis, bs, |front|) == BlockOk(c, publicKey, Tip(genesis, front), bs[|bs| - 1]);
    }
  }

  /** Every prefix of a valid list is valid. */
  lemma {:induction false} ValidPrefix(c: Primitives, publicKey: PublicKey, genesis: Hash, bs: seq<Block>, k: nat)
    requires k <= |bs| && ValidBlocks(c, publicKey, genesis, bs)
    ensures ValidBlocks(c, publicKey, genesis, bs[..k])
  {
    if k == |bs| {
      assert bs[..k] == bs;
    } else {
      ValidPrefix(c, publicKey, genesis, bs[..|bs| - 1], k);
      assert bs[..|bs| - 1][..k] == bs[..k];
    }
  }

  /** A block built on the tip keeps the list valid. */
  lemma BuiltBlockExtends(c: Primitives, h: Header, bs: seq<Block>, nonce: Nonce, data: Bytes)
    requires c.Lawful() && c.publicKey(h.privateKey) == Some(h.publicKey)
    requires ValidChain(c, h, bs)
    requires BuildBlock(c, h, Tip(Genesis(c, h), bs), nonce, data).Some?
    ensures ValidChain(c, h, bs + [BuildBlock(c, h, Tip(Genesis(c, h), bs), nonce, data).value])
  {
    var b := BuildBlock(c, h, Tip(Genesis(c, h), bs), nonce, data).value;
    assert (bs + [b])[..|bs|] == bs;
  }

  // ---------- Tip commitment ----------

  /** Blocks that agree on everything the verifier looks at, that is on everything but `prevHash`. */
  predicate SameBlock(a: Block, b: Block) {
    a.(prevHash := b.prevHash) == b
  }

  predicate SameChain(h: Header, bs: seq<Block>, h': Header, bs': seq<Block>) {
    && h.data == h'.data && h.privateKey == h'.privateKey && h.publicKey == h'.publicKey
    && |bs| == |bs'|
    && forall i :: 0 <= i < |bs| ==> SameBlock(bs[i], bs'[i])
  }

  /** Either two chains were found to be the same, or here are two colliding inputs. */
  datatype Comparison = Same | Collision(x: Bytes, y: Bytes)

  function CompareGenesis(c: Primitives, h: Header, h': Header): Comparison {
    var x := GenesisPreimage(h.data, h.privateKey, h.publicKey);
    var x' := GenesisPreimage(h'.data, h'.privateKey, h'.publicKey);
    if x == x' then Same
    else if c.hash(x) == c.hash(x') then Collision(x, x')
    else Collision(c.hash(x), c.hash(x'))
  }

  /** Walks back from two equal tips to the first inputs of the hash that differ. */
  function Compare(c: Primitives, h: Header, bs: seq<Block>, h': Header, bs': seq<Block>): Comparison {
    var inner := c.hash(GenesisPreimage(h.data, h.privateKey, h.publicKey));
    var inner' := c.hash(GenesisPreimage(h'.data, h'.privateKey, h'.publicKey));
    if bs == [] && bs' == [] then CompareGenesis(c, h, h')
    else if bs == [] then Collision(inner, LastHashed(c, h', bs'))
    else if bs' == [] then Collision(LastHashed(c, h, bs), inner')
    else if LastHashed(c, h, bs) != LastHashed(c, h', bs') then Collision(LastHashed(c, h, bs), LastHashed(c, h', bs'))
    else Compare(c, h, bs[..|bs| - 1], h', bs'[..|bs'| - 1])
  }

  function LastHashed(c: Primitives, h: Header, bs: seq<Block>): (x: Bytes)
    requires bs != []
    ensures |x| >= 104
  {
    Hashed(Tip(Genesis(c, h), bs[..|bs| - 1]), bs[|bs| - 1])
  }

  lemma GenesisCommitment(c: Primitives, h: Header, h': Header)
    requires Genesis(c, h) == Genesis(c, h')
    ensures CompareGenesis(c, h, h') == Same <==> SameChain(h, [], h', [])
    ensures CompareGenesis(c, h, h').Collision? ==> Collides(c, CompareGenesis(c, h, h').x, CompareGenesis(c, h, h').y)
  {
    var x := GenesisPreimage(h.data, h.privateKey, h.publicKey);
    var x' := GenesisPreimage(h'.data, h'.privateKey, h'.publicKey);
    assert HashTimes(c, x, 2) == c.hash(HashTimes(c, x, 1)) && HashTimes(c, x', 2) == c.hash(HashTimes(c, x', 1));
    if x == x' {
      GenesisPreimageInjective(h.data, h.privateKey, h.publicKey, h'.data, h'.privateKey, h'.publicKey);
    }
  }

  /**
    Two accepted chains with the same tip hash are the same chain, header and all, or the walk back
    yields a collision. Chains of different lengths always collide.
   */
  lemma {:induction false} TipCommitment(c: Primitives, h: Header, bs: seq<Block>, h': Header, bs': seq<Block>)
    requires ValidChain(c, h, bs) && ValidChain(c, h', bs')
    requires Tip(Genesis(c, h), bs) == Tip(Genesis(c, h'), bs')
    ensures Compare(c, h, bs, h', bs') == Same <==> SameChain(h, bs, h', bs')
    ensures Compare(c, h, bs, h', bs').Collision? ==>
              Collides(c, Compare(c, h, bs, h', bs').x, Compare(c, h, bs, h', bs').y)
    decreases |bs|
  {
    if bs == [] && bs' == [] {
      GenesisCommitment(c, h, h');
    } else if bs == [] || bs' == [] {
      GenesisIsDoubleHash(c, h);
      GenesisIsDoubleHash(c, h');
    } else {
      hide Genesis, BlockOk, Tip, SameChain, LastHashed;
      LastInputs(c, h, bs, h', bs');
      if SameChain(h, bs, h', bs') {
        SameLastHashed(c, h, bs, h', bs');
      }
      if LastHashed(c, h, bs) == LastHashed(c, h', bs') {
        TipCommitment(c, h, bs[..|bs| - 1], h', bs'[..|bs'| - 1]);
      }
    }
  }

  /** What the last blocks of two accepted chains with one tip hash have in common. */
  lemma LastInputs(c: Primitives, h: Header, bs: seq<Block>, h': Header, bs': seq<Block>)
    requires bs != [] && bs' != [] && ValidChain(c, h, bs) && ValidChain(c, h', bs')
    requires Tip(Genesis(c, h), bs) == Tip(Genesis(c, h'), bs')
    ensures c.hash(LastHashed(c, h, bs)) == c.hash(LastHashed(c, h', bs'))
    ensures LastHashed(c, h, bs) == LastHashed(c, h', bs') ==>
              && Tip(Genesis(c, h), bs[..|bs| - 1]) == Tip(Genesis(c, h'), bs'[..|bs'| - 1])
              && (SameChain(h, bs, h', bs') <==> SameChain(h, bs[..|bs| - 1], h', bs'[..|bs'| - 1]))
  {
    hide Genesis, BlockPreimage, BodyPreimage;
    var front, front' := bs[..|bs| - 1], bs'[..|bs'| - 1];
    var b, b' := bs[|bs| - 1], bs'[|bs'| - 1];
    var prev, prev' := Tip(Genesis(c, h), front), Tip(Genesis(c, h'), front');
    if LastHashed(c, h, bs) == LastHashed(c, h', bs') {
      BlockPreimageInjective(prev, b.nonce, b.data, b.signature, prev', b'.nonce, b'.data, b'.signature);
      assert bs == front + [b] && bs' == front' + [b'];
      hide SameChain;
      SameChainSnoc(h, front, b, h', front', b');
    }
  }

  lemma GenesisIsDoubleHash(c: Primitives, h: Header)
    ensures Genesis(c, h) == c.hash(c.hash(GenesisPreimage(h.data, h.privateKey, h.publicKey)))
  {
    var x := GenesisPreimage(h.data, h.privateKey, h.publicKey);
    assert HashTimes(c, x, 2) == c.hash(HashTimes(c, x, 1));
  }

  lemma SameChainSnoc(h: Header, bs: seq<Block>, b: Block, h': Header, bs': seq<Block>, b': Block)
    ensures SameChain(h, bs + [b], h', bs' + [b']) <==> SameChain(h, bs, h', bs') && SameBlock(b, b')
  {
    var l, l' := bs + [b], bs' + [b'];
    if SameChain(h, l, h', l') {
      assert SameBlock(l[|bs|], l'[|bs|]);
      forall i | 0 <= i < |bs| ensures SameBlock(bs[i], bs'[i]) {
        assert SameBlock(l[i], l'[i]);
      }
    }
  }

  lemma SameLastHashed(c: Primitives, h: Header, bs: seq<Block>, h': Header, bs': seq<Block>)
    requires bs != [] && SameChain(h, bs, h', bs')
    ensures LastHashed(c, h, bs) == LastHashed(c, h', bs')
  {
    assert SameBlock(bs[|bs| - 1], bs'[|bs| - 1]);
    if |bs| > 1 {
      assert SameBlock(bs[|bs| - 2], bs'[|bs| - 2]);
    }
  }

  // ---------- Edits of one block ----------

  /** The colliding inputs when block i of an accepted list is replaced and the list is still accepted. */
  function EditCollision(genesis: Hash, bs: seq<Block>, i: nat, b: Block): (Bytes, Bytes)
    requires i < |bs|
  {
    var prev := Before(genesis, bs, i);
    if b.hash == bs[i].hash || i == |bs| - 1 then (Hashed(prev, bs[i]), Hashed(prev, b))
    else (Hashed(bs[i].hash, bs[i + 1]), Hashed(b.hash, bs[i + 1]))
  }

  /** Replacing a block without changing its hash, or changing it before the end, is noticed up to a collision. */
  lemma EditDetected(c: Primitives, publicKey: PublicKey, genesis: Hash, bs: seq<Block>, i: nat, b: Block)
    requires i < |bs| && !SameBlock(bs[i], b)
    requires i < |bs| - 1 || b.hash == bs[i].hash
    requires ValidBlocks(c, publicKey, genesis, bs)
    requires ValidBlocks(c, publicKey, genesis, bs[i := b])
    ensures Collides(c, EditCollision(genesis, bs, i, b).0, EditCollision(genesis, bs, i, b).1)
  {
    ValidPointwise(c, publicKey, genesis, bs);
    ValidPointwise(c, publicKey, genesis, bs[i := b]);
    var prev := Before(genesis, bs, i);
    var a, edited := bs[i], bs[i := b];
    assert BlockOkAt(c, publicKey, genesis, bs, i) && BlockOkAt(c, publicKey, genesis, edited, i);
    if b.hash == a.hash {
      if Hashed(prev, a) == Hashed(prev, b) {
        BlockPreimageInjective(prev, a.nonce, a.data, a.signature, prev, b.nonce, b.data, b.signature);
      }
    } else {
      var next := bs[i + 1];
      assert BlockOkAt(c, publicKey, genesis, bs, i + 1) && BlockOkAt(c, publicKey, genesis, edited, i + 1);
      if Hashed(a.hash, next) == Hashed(b.hash, next) {
        BlockPreimageInjective(a.hash, next.nonce, next.data, next.signature, b.hash, next.nonce, next.data,
                               next.signature);
      }
    }
  }

  /** The last block can be replaced under a new hash exactly by a block that is properly made. */
  lemma LastBlockEdit(c: Primitives, publicKey: PublicKey, genesis: Hash, bs: seq<Block>, b: Block)
    requires bs != [] && ValidBlocks(c, publicKey, genesis, bs)
    ensures ValidBlocks(c, publicKey, genesis, bs[|bs| - 1 := b]) <==>
            BlockOk(c, publicKey, Tip(genesis, bs[..|bs| - 1]), b)
  {
    assert bs[|bs| - 1 := b][..|bs| - 1] == bs[..|bs| - 1];
  }

  predicate OneFieldReplaced(a: Block, b: Block) {
    && !SameBlock(a, b)
    && (b == a.(nonce := b.nonce) || b == a.(data := b.data) || b == a.(signature := b.signature)
        || b == a.(hash := b.hash))
  }

  /** Replacing one field of any block is rejected, up to a collision; replacing the hash alone is always rejected. */
  lemma FieldEditDetected(c: Primitives, publicKey: PublicKey, genesis: Hash, bs: seq<Block>, i: nat, b: Block)
    requires i < |bs| && OneFieldReplaced(bs[i], b)
    requires ValidBlocks(c, publicKey, genesis, bs)
    ensures ValidBlocks(c, publicKey, genesis, bs[i := b]) ==>
              && b.hash == bs[i].hash
              && Collides(c, EditCollision(genesis, bs, i, b).0, EditCollision(genesis, bs, i, b).1)
  {
    if ValidBlocks(c, publicKey, genesis, bs[i := b]) {
      ValidPointwise(c, publicKey, genesis, bs);
      ValidPointwise(c, publicKey, genesis, bs[i := b]);
      assert BlockOkAt(c, publicKey, genesis, bs, i) && BlockOkAt(c, publicKey, genesis, bs[i := b], i);
      EditDetected(c, publicKey, genesis, bs, i, b);
    }
  }

  /** The stored `prevHash` is never looked at. */
  lemma PrevHashEditIgnored(c: Primitives, publicKey: PublicKey, genesis: Hash, bs: seq<Block>, i: nat, prev: Hash)
    requires i < |bs|
    ensures ValidBlocks(c, publicKey, genesis, bs[i := bs[i].(prevHash := prev)]) <==>
              ValidBlocks(c, publicKey, genesis, bs)
  {
    var edited := bs[i := bs[i].(prevHash := prev)];
    ValidPointwise(c, publicKey, genesis, bs);
    ValidPointwise(c, publicKey, genesis, edited);
    forall j | 0 <= j < |bs|
      ensures BlockOkAt(c, publicKey, genesis, bs, j) == BlockOkAt(c, publicKey, genesis, edited, j)
    {
    }
  }
}
