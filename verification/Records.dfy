/** The two stored records, the chain header and the block, and their serialised forms. */
module Records {
  import opened Basics
  import opened Crypto
  import opened Wire

  /** `Chain::Header`. */
  datatype Header = Header(version: uint64, index: uint64, data: Bytes, privateKey: PrivateKey, publicKey: PublicKey)

  /** `Block`, with the fields of its container. */
  datatype Block = Block(hash: Hash, prevHash: Hash, nonce: Nonce, data: Bytes, signature: Signature)

  /** Protocol Buffers refuses to serialise a message above this size. */
  const MAX_MESSAGE: nat := 0x7FFF_FFFF

  function HeaderFields(h: Header): seq<Field> {
    [] + OptionalVarint(1, h.version) + OptionalVarint(2, h.index) + OptionalBytes(3, h.data)
    + OptionalBytes(4, h.privateKey) + OptionalBytes(5, h.publicKey)
  }

  function BlockFields(b: Block): seq<Field> {
    [] + OptionalBytes(1, b.hash) + OptionalBytes(2, b.prevHash) + OptionalBytes(3, b.nonce)
    + OptionalBytes(4, b.data) + OptionalBytes(5, b.signature)
  }

  function HeaderBytes(h: Header): Bytes {
    EncodeFields(HeaderFields(h))
  }

  function BlockBytes(b: Block): Bytes {
    EncodeFields(BlockFields(b))
  }

  function PackHeader(h: Header): Option<Bytes> {
    if |HeaderBytes(h)| <= MAX_MESSAGE then Some(HeaderBytes(h)) else None
  }

  function PackBlock(b: Block): Option<Bytes> {
    if |BlockBytes(b)| <= MAX_MESSAGE then Some(BlockBytes(b)) else None
  }

  function UnpackHeader(b: Bytes): Option<Header> {
    match DecodeFields(b)
    case None => None
    case Some(fs) =>
      if |LastBytes(fs, 4)| != 32 then None
      else if |LastBytes(fs, 5)| != 33 then None
      else Some(Header(LastVarint(fs, 1), LastVarint(fs, 2), LastBytes(fs, 3), LastBytes(fs, 4), LastBytes(fs, 5)))
  }

  function UnpackBlock(b: Bytes): Option<Block> {
    match DecodeFields(b)
    case None => None
    case Some(fs) =>
      if |LastBytes(fs, 1)| != 32 then None
      else if |LastBytes(fs, 2)| != 32 then None
      else if |LastBytes(fs, 3)| != 8 then None
      else if |LastBytes(fs, 5)| != 64 then None
      else Some(Block(LastBytes(fs, 1), LastBytes(fs, 2), LastBytes(fs, 3), LastBytes(fs, 4), LastBytes(fs, 5)))
  }

  lemma EmptyRead()
    ensures forall n :: LastVarint([], n) == 0 && LastBytes([], n) == []
  {
  }

  lemma HeaderRoundTrip(h: Header)
    requires PackHeader(h).Some?
    ensures UnpackHeader(PackHeader(h).value) == Some(h)
  {
    var fs := HeaderFields(h);
    HeaderFieldsRead(h);
    hide EncodeFields, DecodeFields, LastBytes, LastVarint, HeaderFields;
    forall f | f in fs ensures Encodable(f) {
      if f.Delimited? { PayloadsFit(fs, f); }
    }
    FieldsRoundTrip(fs);
  }

  /** The records of a header, read back field by field. */
  lemma HeaderFieldsRead(h: Header)
    ensures forall f :: f in HeaderFields(h) ==> f.num in {1, 2, 3, 4, 5} && (f.Varint? || f.Delimited?)
    ensures var fs := HeaderFields(h);
            && LastVarint(fs, 1) == h.version && LastVarint(fs, 2) == h.index
            && LastBytes(fs, 3) == h.data && LastBytes(fs, 4) == h.privateKey && LastBytes(fs, 5) == h.publicKey
  {
    hide LastBytes, LastVarint;
    var f0: seq<Field> := [];
    var f1 := f0 + OptionalVarint(1, h.version);
    var f2 := f1 + OptionalVarint(2, h.index);
    var f3 := f2 + OptionalBytes(3, h.data);
    var f4 := f3 + OptionalBytes(4, h.privateKey);
    var f5 := f4 + OptionalBytes(5, h.publicKey);
    EmptyRead();
    AfterOptionalVarint(f0, 1, h.version);
    AfterOptionalVarint(f1, 2, h.index);
    AfterOptionalBytes(f2, 3, h.data);
    AfterOptionalBytes(f3, 4, h.privateKey);
    AfterOptionalBytes(f4, 5, h.publicKey);
  }

  lemma BlockRoundTrip(b: Block)
    requires PackBlock(b).Some?
    ensures UnpackBlock(PackBlock(b).value) == Some(b)
  {
    var fs := BlockFields(b);
    BlockFieldsRead(b);
    hide EncodeFields, DecodeFields, LastBytes, LastVarint, BlockFields;
    forall f | f in fs ensures Encodable(f) {
      if f.Delimited? { PayloadsFit(fs, f); }
    }
    FieldsRoundTrip(fs);
  }

  /** The records of a block, read back field by field. */
  lemma BlockFieldsRead(b: Block)
    ensures forall f :: f in BlockFields(b) ==> f.num in {1, 2, 3, 4, 5} && (f.Varint? || f.Delimited?)
    ensures var fs := BlockFields(b);
            && LastBytes(fs, 1) == b.hash && LastBytes(fs, 2) == b.prevHash && LastBytes(fs, 3) == b.nonce
            && LastBytes(fs, 4) == b.data && LastBytes(fs, 5) == b.signature
  {
    hide LastBytes, LastVarint;
    var f0: seq<Field> := [];
    var f1 := f0 + OptionalBytes(1, b.hash);
    var f2 := f1 + OptionalBytes(2, b.prevHash);
    var f3 := f2 + OptionalBytes(3, b.nonce);
    var f4 := f3 + OptionalBytes(4, b.data);
    var f5 := f4 + OptionalBytes(5, b.signature);
    EmptyRead();
    AfterOptionalBytes(f0, 1, b.hash);
    AfterOptionalBytes(f1, 2, b.prevHash);
    AfterOptionalBytes(f2, 3, b.nonce);
    AfterOptionalBytes(f3, 4, b.data);
    AfterOptionalBytes(f4, 5, b.signature);
  }

  /** A stored message, whatever its records and their order, is a block exactly when the four widths are right. */
  lemma BlockWidthsChecked(fs: seq<Field>)
    requires forall f :: f in fs ==> Encodable(f)
    ensures UnpackBlock(EncodeFields(fs)).Some? <==>
            |LastBytes(fs, 1)| == 32 && |LastBytes(fs, 2)| == 32 && |LastBytes(fs, 3)| == 8 && |LastBytes(fs, 5)| == 64
  {
    FieldsRoundTrip(fs);
  }

  lemma HeaderWidthsChecked(fs: seq<Field>)
    requires forall f :: f in fs ==> Encodable(f)
    ensures UnpackHeader(EncodeFields(fs)).Some? <==> |LastBytes(fs, 4)| == 32 && |LastBytes(fs, 5)| == 33
  {
    FieldsRoundTrip(fs);
  }

  /** Serialisation cannot fail on payloads that leave 200 bytes of room. */
  lemma SmallRecordsPack(h: Header, b: Block)
    requires |h.data| <= MAX_MESSAGE - 200 && |b.data| <= MAX_MESSAGE - 200
    ensures PackHeader(h).Some? && PackBlock(b).Some?
  {
    HeaderSize(h);
    BlockSize(b);
  }

  lemma HeaderSize(h: Header)
    requires |h.data| < MAX_LENGTH
    ensures |HeaderBytes(h)| <= 105 + |h.data|
  {
    var f1 := [] + OptionalVarint(1, h.version);
    var f2 := f1 + OptionalVarint(2, h.index);
    var f3 := f2 + OptionalBytes(3, h.data);
    var f4 := f3 + OptionalBytes(4, h.privateKey);
    EncodeConcat([], OptionalVarint(1, h.version));
    EncodeConcat(f1, OptionalVarint(2, h.index));
    EncodeConcat(f2, OptionalBytes(3, h.data));
    EncodeConcat(f3, OptionalBytes(4, h.privateKey));
    EncodeConcat(f4, OptionalBytes(5, h.publicKey));
    OptionalVarintSize(1, h.version);
    OptionalVarintSize(2, h.index);
    OptionalBytesSize(3, h.data);
    OptionalBytesSize(4, h.privateKey);
    OptionalBytesSize(5, h.publicKey);
  }

  lemma BlockSize(b: Block)
    requires |b.data| < MAX_LENGTH
    ensures |BlockBytes(b)| <= 166 + |b.data|
  {
    var f1 := [] + OptionalBytes(1, b.hash);
    var f2 := f1 + OptionalBytes(2, b.prevHash);
    var f3 := f2 + OptionalBytes(3, b.nonce);
    var f4 := f3 + OptionalBytes(4, b.data);
    EncodeConcat([], OptionalBytes(1, b.hash));
    EncodeConcat(f1, OptionalBytes(2, b.prevHash));
    EncodeConcat(f2, OptionalBytes(3, b.nonce));
    EncodeConcat(f3, OptionalBytes(4, b.data));
    EncodeConcat(f4, OptionalBytes(5, b.signature));
    OptionalBytesSize(1, b.hash);
    OptionalBytesSize(2, b.prevHash);
    OptionalBytesSize(3, b.nonce);
    OptionalBytesSize(4, b.data);
    OptionalBytesSize(5, b.signature);
  }

  // ---------- The bytes themselves ----------

  lemma FirstRecord(fs: seq<Field>)
    requires fs != []
    ensures EncodeFields(fs) == EncodeField(fs[0]) + EncodeFields(fs[1..])
  {
  }

  lemma Regroup(x: Bytes, y: Bytes, z: Bytes)
    ensures x + (y + z) == (x + y) + z
  {
  }

  lemma RestOfConcat(a: seq<Field>, b: seq<Field>)
    requires a != []
    ensures (a + b)[0] == a[0] && (a + b)[1..] == a[1..] + b
  {
  }

  lemma {:induction false} EncodeConcat(a: seq<Field>, b: seq<Field>)
    ensures EncodeFields(a + b) == EncodeFields(a) + EncodeFields(b)
  {
    if a == [] {
      assert a + b == b;
    } else {
      hide EncodeField, EncodeFields;
      RestOfConcat(a, b);
      FirstRecord(a + b);
      FirstRecord(a);
      EncodeConcat(a[1..], b);
      Regroup(EncodeField(a[0]), EncodeFields(a[1..]), EncodeFields(b));
    }
  }

  /** A number on the wire: its tag and its varint, or nothing for zero. */
  function NumberOnWire(tag: byte, value: uint64): Bytes {
    if value == 0 then [] else [tag] + EncodeVarint(value as nat)
  }

  /** A byte string on the wire: its tag, its length and its bytes, or nothing when it is empty. */
  function StringOnWire(tag: byte, payload: Bytes): Bytes {
    if payload == [] then [] else [tag] + EncodeVarint(|payload|) + payload
  }

  lemma OptionalNumberOnWire(num: nat, value: uint64)
    requires 1 <= num < 16
    ensures EncodeFields(OptionalVarint(num, value)) == NumberOnWire((8 * num) as byte, value)
  {
    if value != 0 {
      assert OptionalVarint(num, value)[1..] == [];
      assert EncodeVarint(8 * num) == [(8 * num) as byte];
    }
  }

  lemma OptionalStringOnWire(num: nat, payload: Bytes)
    requires 1 <= num < 16
    ensures EncodeFields(OptionalBytes(num, payload)) == StringOnWire((8 * num + 2) as byte, payload)
  {
    if payload != [] {
      assert OptionalBytes(num, payload)[1..] == [];
      assert EncodeVarint(8 * num + 2) == [(8 * num + 2) as byte];
    }
  }

  /** Field numbers, order and omission of defaults on the wire, for every header. */
  lemma HeaderOnTheWire(h: Header)
    ensures HeaderBytes(h) ==
            NumberOnWire(0x08, h.version) + NumberOnWire(0x10, h.index) + StringOnWire(0x1A, h.data)
            + StringOnWire(0x22, h.privateKey) + StringOnWire(0x2A, h.publicKey)
  {
    var o1, o2, o3 := OptionalVarint(1, h.version), OptionalVarint(2, h.index), OptionalBytes(3, h.data);
    var o4, o5 := OptionalBytes(4, h.privateKey), OptionalBytes(5, h.publicKey);
    OptionalNumberOnWire(1, h.version);
    OptionalNumberOnWire(2, h.index);
    OptionalStringOnWire(3, h.data);
    OptionalStringOnWire(4, h.privateKey);
    OptionalStringOnWire(5, h.publicKey);
    hide EncodeFields, OptionalVarint, OptionalBytes, NumberOnWire, StringOnWire;
    EncodeFive(o1, o2, o3, o4, o5);
  }

  /** Field numbers, order and omission of defaults on the wire, for every block. */
  lemma BlockOnTheWire(b: Block)
    ensures BlockBytes(b) ==
            StringOnWire(0x0A, b.hash) + StringOnWire(0x12, b.prevHash) + StringOnWire(0x1A, b.nonce)
            + StringOnWire(0x22, b.data) + StringOnWire(0x2A, b.signature)
  {
    var o1, o2, o3 := OptionalBytes(1, b.hash), OptionalBytes(2, b.prevHash), OptionalBytes(3, b.nonce);
    var o4, o5 := OptionalBytes(4, b.data), OptionalBytes(5, b.signature);
    OptionalStringOnWire(1, b.hash);
    OptionalStringOnWire(2, b.prevHash);
    OptionalStringOnWire(3, b.nonce);
    OptionalStringOnWire(4, b.data);
    OptionalStringOnWire(5, b.signature);
    hide EncodeFields, OptionalBytes, StringOnWire;
    EncodeFive(o1, o2, o3, o4, o5);
  }

  lemma EncodeFive(o1: seq<Field>, o2: seq<Field>, o3: seq<Field>, o4: seq<Field>, o5: seq<Field>)
    ensures EncodeFields([] + o1 + o2 + o3 + o4 + o5) ==
            EncodeFields(o1) + EncodeFields(o2) + EncodeFields(o3) + EncodeFields(o4) + EncodeFields(o5)
  {
    hide EncodeFields;
    assert [] + o1 == o1;
    EncodeConcat(o1, o2);
    EncodeConcat(o1 + o2, o3);
    EncodeConcat(o1 + o2 + o3, o4);
    EncodeConcat(o1 + o2 + o3 + o4, o5);
  }
}
