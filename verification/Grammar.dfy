/**
  Which bytes are a stored message, said as a grammar and without a decoder: groups of seven bits, records,
  and the rule that the last record of a field wins. `Wire` and `Records` accept exactly these bytes.
 */
module Grammar {
  import opened Basics
  import opened Wire
  import opened Records

  // ---------- Varints ----------

  /** The number behind groups of seven bits, the lowest group first. */
  function Groups(code: Bytes): nat {
    if code == [] then 0 else code[0] as nat % 128 + 128 * Groups(code[1..])
  }

  /** All bytes but the last have the top bit set; zero groups at the end are allowed. */
  predicate IsVarint(code: Bytes, limit: nat) {
    && 1 <= |code| <= limit && code[|code| - 1] < 128
    && forall i :: 0 <= i < |code| - 1 ==> code[i] >= 128
  }

  lemma {:induction false} VarintDecodes(code: Bytes, limit: nat, rest: Bytes)
    requires IsVarint(code, limit)
    ensures DecodeVarint(code + rest, limit) == Some((Groups(code), rest))
  {
    if |code| == 1 {
      assert (code + rest)[1..] == rest;
    } else {
      assert (code + rest)[1..] == code[1..] + rest;
      VarintDecodes(code[1..], limit - 1, rest);
    }
  }

  lemma {:induction false} DecodedVarint(b: Bytes, limit: nat) returns (code: Bytes)
    requires DecodeVarint(b, limit).Some?
    ensures IsVarint(code, limit) && |code| <= |b| && code == b[..|code|]
    ensures DecodeVarint(b, limit) == Some((Groups(code), b[|code|..]))
  {
    if b[0] < 128 {
      code := [b[0]];
    } else {
      var more := DecodedVarint(b[1..], limit - 1);
      code := [b[0]] + more;
      assert code[1..] == more;
    }
  }

  // ---------- Records ----------

  ghost predicate PayloadIs(code: Bytes, f: Field) {
    match f
    case Varint(_, value) => IsVarint(code, 10) && Groups(code) % TWO_TO_THE_64 == value as nat
    case Fixed64(_, payload) => code == payload && |payload| == 8
    case Fixed32(_, payload) => code == payload && |payload| == 4
    case Delimited(_, payload) =>
      exists size :: IsVarint(size, 5) && Groups(size) == |payload| && code == size + payload
  }

  predicate TagIs(tag: Bytes, f: Field) {
    IsVarint(tag, 5) && f.num >= 1 && Groups(tag) % TWO_TO_THE_32 == 8 * f.num + Kind(f)
  }

  ghost predicate RecordIs(code: Bytes, f: Field) {
    exists tag, payload :: code == tag + payload && TagIs(tag, f) && PayloadIs(payload, f)
  }

  function Joined(codes: seq<Bytes>): Bytes {
    if codes == [] then [] else codes[0] + Joined(codes[1..])
  }

  ghost predicate MadeOf(codes: seq<Bytes>, fs: seq<Field>) {
    |codes| == |fs| && forall i :: 0 <= i < |fs| ==> RecordIs(codes[i], fs[i])
  }

  /** The bytes are these records, one after the other. */
  ghost predicate MessageIs(b: Bytes, fs: seq<Field>) {
    exists codes :: MadeOf(codes, fs) && Joined(codes) == b
  }

  lemma RecordDecodes(code: Bytes, f: Field, rest: Bytes)
    requires RecordIs(code, f)
    ensures DecodeField(code + rest) == Some((f, rest)) && code != []
  {
    hide DecodeVarint, Groups, DecodePayload, PayloadIs;
    var tag, payload :| code == tag + payload && TagIs(tag, f) && PayloadIs(payload, f);
    assert code + rest == tag + (payload + rest);
    VarintDecodes(tag, 5, payload + rest);
    PayloadDecodes(payload, f, rest);
  }

  lemma PayloadDecodes(code: Bytes, f: Field, rest: Bytes)
    requires PayloadIs(code, f)
    ensures DecodePayload(f.num, Kind(f), code + rest) == Some((f, rest))
  {
    hide DecodeVarint, Groups;
    match f
    case Varint(_, _) => VarintDecodes(code, 10, rest);
    case Fixed64(_, payload) => TakeExactly(payload, rest);
    case Fixed32(_, payload) => TakeExactly(payload, rest);
    case Delimited(_, payload) =>
      var size :| IsVarint(size, 5) && Groups(size) == |payload| && code == size + payload;
      assert code + rest == size + (payload + rest);
      VarintDecodes(size, 5, payload + rest);
      TakeExactly(payload, rest);
  }

  lemma DecodedPayload(num: nat, kind: nat, b: Bytes) returns (code: Bytes)
    requires DecodePayload(num, kind, b).Some?
    ensures var (f, rest) := DecodePayload(num, kind, b).value;
            f.num == num && Kind(f) == kind && PayloadIs(code, f) && b == code + rest
  {
    hide DecodeVarint, Groups;
    code := [];
    if kind == 0 {
      code := DecodedVarint(b, 10);
    } else if kind == 2 {
      var size := DecodedVarint(b, 5);
      code := size + b[|size|..][..Groups(size)];
    } else {
      code := b[..if kind == 1 then 8 else 4];
    }
  }

  lemma DecodedRecord(b: Bytes) returns (code: Bytes)
    requires DecodeField(b).Some?
    ensures RecordIs(code, DecodeField(b).value.0) && b == code + DecodeField(b).value.1
  {
    hide DecodeVarint, Groups, DecodePayload, PayloadIs;
    var tag := DecodedVarint(b, 5);
    var number := Groups(tag) % TWO_TO_THE_32;
    var payload := DecodedPayload(number / 8, number % 8, b[|tag|..]);
    code := tag + payload;
    assert TagIs(tag, DecodeField(b).value.0);
  }

  lemma {:induction false} RecordsDecode(codes: seq<Bytes>, fs: seq<Field>)
    requires MadeOf(codes, fs)
    ensures DecodeFields(Joined(codes)) == Some(fs)
  {
    hide RecordIs, DecodeField;
    if codes != [] {
      RecordDecodes(codes[0], fs[0], Joined(codes[1..]));
      RecordsDecode(codes[1..], fs[1..]);
      assert [fs[0]] + fs[1..] == fs;
    }
  }

  lemma {:induction false} DecodedRecords(b: Bytes) returns (codes: seq<Bytes>)
    requires DecodeFields(b).Some?
    ensures MadeOf(codes, DecodeFields(b).value) && Joined(codes) == b
    decreases |b|
  {
    hide RecordIs, DecodeField;
    codes := [];
    if b != [] {
      var code := DecodedRecord(b);
      var rest := DecodeField(b).value.1;
      var more := DecodedRecords(rest);
      codes := [code] + more;
      assert codes[1..] == more;
    }
  }

  /** The decoder accepts exactly the messages of the grammar, and reads their records in order. */
  lemma DecodesExactly(b: Bytes, fs: seq<Field>)
    ensures DecodeFields(b) == Some(fs) <==> MessageIs(b, fs)
  {
    hide MadeOf, Joined, DecodeFields;
    if DecodeFields(b) == Some(fs) {
      var codes := DecodedRecords(b);
      assert MadeOf(codes, fs) && Joined(codes) == b;
    }
    if codes :| MadeOf(codes, fs) && Joined(codes) == b {
      RecordsDecode(codes, fs);
    }
  }

  // ---------- Fields ----------

  predicate NumberHere(f: Field, num: nat) {
    f.Varint? && f.num == num
  }

  predicate BytesHere(f: Field, num: nat) {
    f.Delimited? && f.num == num
  }

  predicate LastNumberAt(fs: seq<Field>, num: nat, value: uint64, i: int) {
    && 0 <= i < |fs| && fs[i] == Varint(num, value)
    && forall j :: i < j < |fs| ==> !NumberHere(fs[j], num)
  }

  predicate LastBytesAt(fs: seq<Field>, num: nat, payload: Bytes, i: int) {
    && 0 <= i < |fs| && fs[i] == Delimited(num, payload)
    && forall j :: i < j < |fs| ==> !BytesHere(fs[j], num)
  }

  /** The value of the last record of the field, or zero if it has none. */
  ghost predicate NumberIs(fs: seq<Field>, num: nat, value: uint64) {
    || (value == 0 && forall i :: 0 <= i < |fs| ==> !NumberHere(fs[i], num))
    || exists i :: LastNumberAt(fs, num, value, i)
  }

  /** The payload of the last record of the field, or nothing if it has none. */
  ghost predicate BytesAre(fs: seq<Field>, num: nat, payload: Bytes) {
    || (payload == [] && forall i :: 0 <= i < |fs| ==> !BytesHere(fs[i], num))
    || exists i :: LastBytesAt(fs, num, payload, i)
  }

  lemma {:induction false} LastVarintIs(fs: seq<Field>, num: nat)
    ensures NumberIs(fs, num, LastVarint(fs, num))
  {
    if fs != [] {
      var value, front := LastVarint(fs, num), fs[..|fs| - 1];
      LastVarintIs(front, num);
      if NumberHere(fs[|fs| - 1], num) {
        assert LastNumberAt(fs, num, value, |fs| - 1);
      } else if i :| LastNumberAt(front, num, value, i) {
        assert LastNumberAt(fs, num, value, i);
      }
    }
  }

  lemma {:induction false} LastBytesAre(fs: seq<Field>, num: nat)
    ensures BytesAre(fs, num, LastBytes(fs, num))
  {
    if fs != [] {
      var payload, front := LastBytes(fs, num), fs[..|fs| - 1];
      LastBytesAre(front, num);
      if BytesHere(fs[|fs| - 1], num) {
        assert LastBytesAt(fs, num, payload, |fs| - 1);
      } else if i :| LastBytesAt(front, num, payload, i) {
        assert LastBytesAt(fs, num, payload, i);
      }
    }
  }

  /** At most one value fits a field. */
  lemma FieldsUnique(fs: seq<Field>, num: nat, v: uint64, w: uint64, p: Bytes, q: Bytes)
    ensures NumberIs(fs, num, v) && NumberIs(fs, num, w) ==> v == w
    ensures BytesAre(fs, num, p) && BytesAre(fs, num, q) ==> p == q
  {
  }

  // ---------- The stored records ----------

  ghost predicate HeaderIn(fs: seq<Field>, h: Header) {
    && NumberIs(fs, 1, h.version) && NumberIs(fs, 2, h.index) && BytesAre(fs, 3, h.data)
    && BytesAre(fs, 4, h.privateKey) && BytesAre(fs, 5, h.publicKey)
  }

  ghost predicate BlockIn(fs: seq<Field>, b: Block) {
    && BytesAre(fs, 1, b.hash) && BytesAre(fs, 2, b.prevHash) && BytesAre(fs, 3, b.nonce)
    && BytesAre(fs, 4, b.data) && BytesAre(fs, 5, b.signature)
  }

  /** Any bytes at all are read as this header exactly when they are a message with these fields. */
  lemma HeaderUnpacksExactly(b: Bytes, h: Header)
    ensures UnpackHeader(b) == Some(h) <==> exists fs :: MessageIs(b, fs) && HeaderIn(fs, h)
  {
    hide MessageIs, DecodeFields, LastVarint, LastBytes, NumberIs, BytesAre;
    forall fs ensures DecodeFields(b) == Some(fs) <==> MessageIs(b, fs) {
      DecodesExactly(b, fs);
    }
    if DecodeFields(b).Some? {
      var fs := DecodeFields(b).value;
      assert MessageIs(b, fs);
      LastVarintIs(fs, 1);
      LastVarintIs(fs, 2);
      forall num ensures BytesAre(fs, num, LastBytes(fs, num)) {
        LastBytesAre(fs, num);
      }
      FieldsUnique(fs, 1, LastVarint(fs, 1), h.version, [], []);
      FieldsUnique(fs, 2, LastVarint(fs, 2), h.index, [], []);
      FieldsUnique(fs, 3, 0, 0, LastBytes(fs, 3), h.data);
      FieldsUnique(fs, 4, 0, 0, LastBytes(fs, 4), h.privateKey);
      FieldsUnique(fs, 5, 0, 0, LastBytes(fs, 5), h.publicKey);
    }
  }

  lemma BlockUnpacksExactly(b: Bytes, block: Block)
    ensures UnpackBlock(b) == Some(block) <==> exists fs :: MessageIs(b, fs) && BlockIn(fs, block)
  {
    hide MessageIs, DecodeFields, LastBytes, BytesAre;
    forall fs ensures DecodeFields(b) == Some(fs) <==> MessageIs(b, fs) {
      DecodesExactly(b, fs);
    }
    if DecodeFields(b).Some? {
      var fs := DecodeFields(b).value;
      assert MessageIs(b, fs);
      forall num ensures BytesAre(fs, num, LastBytes(fs, num)) {
        LastBytesAre(fs, num);
      }
      FieldsUnique(fs, 1, 0, 0, LastBytes(fs, 1), block.hash);
      FieldsUnique(fs, 2, 0, 0, LastBytes(fs, 2), block.prevHash);
      FieldsUnique(fs, 3, 0, 0, LastBytes(fs, 3), block.nonce);
      FieldsUnique(fs, 4, 0, 0, LastBytes(fs, 4), block.data);
      FieldsUnique(fs, 5, 0, 0, LastBytes(fs, 5), block.signature);
    }
  }
}
