/**
  The Protocol Buffers wire format (Protocol Buffers Encoding guide, sections "Base 128 Varints",
  "Message Structure" and "Length-Delimited Records"): an encoder for the record kinds that the
  storage messages use, and a decoder for every kind but the deprecated groups.
 */
module Wire {
  import opened Basics

  datatype Field =
    | Varint(num: nat, value: uint64)
    | Fixed64(num: nat, payload: Bytes)
    | Delimited(num: nat, payload: Bytes)
    | Fixed32(num: nat, payload: Bytes)

  const TWO_TO_THE_32: nat := 0x1_0000_0000

  /** The most a length-delimited payload may measure: a length prefix has at most five bytes. */
  const MAX_LENGTH: nat := 0x8_0000_0000

  // ---------- Base 128 varints ----------

  function EncodeVarint(n: nat): Bytes {
    if n < 128 then [n as byte] else [(n % 128 + 128) as byte] + EncodeVarint(n / 128)
  }

  /** The value at the front of `b` and what follows it, unless it takes more than `limit` bytes. */
  function DecodeVarint(b: Bytes, limit: nat): (r: Option<(nat, Bytes)>)
    ensures r.Some? ==> |r.value.1| < |b|
  {
    if b == [] || limit == 0 then None
    else if b[0] < 128 then Some((b[0] as nat, b[1..]))
    else
      match DecodeVarint(b[1..], limit - 1)
      case None => None
      case Some((high, rest)) => Some((b[0] as nat - 128 + 128 * high, rest))
  }

  /** The example of the guide: 150 is the two bytes 96 01, low group first. */
  lemma VarintExample()
    ensures EncodeVarint(150) == [0x96, 0x01]
  {
  }

  function Pow128(k: nat): nat {
    if k == 0 then 1 else 128 * Pow128(k - 1)
  }

  lemma Pow128Values()
    ensures Pow128(5) == MAX_LENGTH
    ensures Pow128(10) > TWO_TO_THE_64
  {
    assert Pow128(2) == 16384;
    assert Pow128(4) == 16384 * 16384;
    assert Pow128(5) == MAX_LENGTH;
    assert Pow128(7) == 16384 * MAX_LENGTH;
    assert Pow128(9) == 16384 * 16384 * MAX_LENGTH;
    assert Pow128(10) == 128 * 16384 * 16384 * MAX_LENGTH;
  }

  lemma {:induction false} VarintRoundTrip(n: nat, limit: nat, rest: Bytes)
    requires limit >= 1 && n < Pow128(limit)
    ensures DecodeVarint(EncodeVarint(n) + rest, limit) == Some((n, rest))
    ensures 1 <= |EncodeVarint(n)| <= limit
  {
    var code := EncodeVarint(n) + rest;
    if n < 128 {
      assert code[1..] == rest;
    } else {
      assert limit > 1;
      VarintRoundTrip(n / 128, limit - 1, rest);
      assert code[1..] == EncodeVarint(n / 128) + rest;
    }
  }

  // ---------- Records ----------

  function Kind(f: Field): nat {
    match f case Varint(_, _) => 0 case Fixed64(_, _) => 1 case Delimited(_, _) => 2 case Fixed32(_, _) => 5
  }

  function EncodePayload(f: Field): Bytes {
    match f
    case Varint(_, value) => EncodeVarint(value as nat)
    case Delimited(_, payload) => EncodeVarint(|payload|) + payload
    case Fixed64(_, payload) => payload
    case Fixed32(_, payload) => payload
  }

  function EncodeField(f: Field): Bytes {
    EncodeVarint(8 * f.num + Kind(f)) + EncodePayload(f)
  }

  function EncodeFields(fs: seq<Field>): Bytes {
    if fs == [] then [] else EncodeField(fs[0]) + EncodeFields(fs[1..])
  }

  /** The first `n` bytes and what follows them. */
  function Take(b: Bytes, n: nat): (r: Option<(Bytes, Bytes)>)
    ensures r.Some? ==> |r.value.1| <= |b|
  {
    if n <= |b| then Some((b[..n], b[n..])) else None
  }

  /** The payload of a record whose tag was just read. */
  function DecodePayload(num: nat, kind: nat, b: Bytes): (r: Option<(Field, Bytes)>)
    ensures r.Some? ==> |r.value.1| <= |b|
  {
    match kind
    case 0 => (match DecodeVarint(b, 10)
               case None => None
               case Some((v, rest)) => Some((Varint(num, (v % TWO_TO_THE_64) as uint64), rest)))
    case 1 => (match Take(b, 8) case None => None case Some((p, rest)) => Some((Fixed64(num, p), rest)))
    case 2 => (match DecodeVarint(b, 5)
               case None => None
               case Some((n, after)) =>
                 match Take(after, n) case None => None case Some((p, rest)) => Some((Delimited(num, p), rest)))
    case 5 => (match Take(b, 4) case None => None case Some((p, rest)) => Some((Fixed32(num, p), rest)))
    case _ => None
  }

  function DecodeField(b: Bytes): (r: Option<(Field, Bytes)>)
    ensures r.Some? ==> |r.value.1| < |b|
  {
    match DecodeVarint(b, 5)
    case None => None
    case Some((v, rest)) =>
      var tag := v % TWO_TO_THE_32;
      if tag / 8 == 0 then None else DecodePayload(tag / 8, tag % 8, rest)
  }

  function DecodeFields(b: Bytes): Option<seq<Field>>
    decreases |b|
  {
    if b == [] then Some([])
    else
      match DecodeField(b)
      case None => None
      case Some((f, rest)) =>
        match DecodeFields(rest)
        case None => None
        case Some(fs) => Some([f] + fs)
  }

  /** What the encoder may be given: the limits the decoder checks. */
  predicate Encodable(f: Field) {
    && 1 <= f.num < 0x2000_0000
    && (match f
        case Varint(_, _) => true
        case Fixed64(_, p) => |p| == 8
        case Delimited(_, p) => |p| < MAX_LENGTH
        case Fixed32(_, p) => |p| == 4)
  }

  lemma TakeExactly(p: Bytes, rest: Bytes)
    ensures Take(p + rest, |p|) == Some((p, rest))
  {
    assert (p + rest)[..|p|] == p && (p + rest)[|p|..] == rest;
  }

  lemma DelimitedRoundTrip(num: nat, p: Bytes, rest: Bytes)
    requires |p| < MAX_LENGTH
    ensures DecodePayload(num, 2, EncodePayload(Delimited(num, p)) + rest) == Some((Delimited(num, p), rest))
  {
    Pow128Values();
    assert EncodePayload(Delimited(num, p)) + rest == EncodeVarint(|p|) + (p + rest);
    VarintRoundTrip(|p|, 5, p + rest);
    TakeExactly(p, rest);
  }

  lemma PayloadRoundTrip(f: Field, rest: Bytes)
    requires Encodable(f)
    ensures DecodePayload(f.num, Kind(f), EncodePayload(f) + rest) == Some((f, rest))
  {
    match f
    case Varint(_, value) => Pow128Values(); VarintRoundTrip(value as nat, 10, rest);
    case Delimited(num, p) => DelimitedRoundTrip(num, p, rest);
    case Fixed64(_, p) => TakeExactly(p, rest);
    case Fixed32(_, p) => TakeExactly(p, rest);
  }

  lemma FieldRoundTrip(f: Field, rest: Bytes)
    requires Encodable(f)
    ensures DecodeField(EncodeField(f) + rest) == Some((f, rest))
    ensures |EncodeField(f)| > 0
  {
    hide EncodeVarint, DecodeVarint, DecodePayload, EncodePayload, Pow128;
    var tag := 8 * f.num + Kind(f);
    assert EncodeField(f) + rest == EncodeVarint(tag) + (EncodePayload(f) + rest);
    Pow128Values();
    VarintRoundTrip(tag, 5, EncodePayload(f) + rest);
    PayloadRoundTrip(f, rest);
    assert tag % TWO_TO_THE_32 == tag && tag / 8 == f.num && tag % 8 == Kind(f);
  }

  /** Decoding what was encoded gives the same records in the same order. */
  lemma {:induction false} FieldsRoundTrip(fs: seq<Field>)
    requires forall f :: f in fs ==> Encodable(f)
    ensures DecodeFields(EncodeFields(fs)) == Some(fs)
  {
    if fs != [] {
      var code := EncodeFields(fs);
      FieldRoundTrip(fs[0], EncodeFields(fs[1..]));
      assert DecodeField(code) == Some((fs[0], EncodeFields(fs[1..])));
      FieldsRoundTrip(fs[1..]);
      assert [fs[0]] + fs[1..] == fs;
    }
  }

  lemma {:induction false} PayloadsFit(fs: seq<Field>, f: Field)
    requires f in fs && f.Delimited?
    ensures |f.payload| <= |EncodeFields(fs)|
  {
    if f != fs[0] {
      PayloadsFit(fs[1..], f);
    }
  }

  // ---------- Messages with proto3 presence ----------

  /** A proto3 field is left out when it has its default value. */
  function OptionalVarint(num: nat, value: uint64): seq<Field> {
    if value == 0 then [] else [Varint(num, value)]
  }

  function OptionalBytes(num: nat, payload: Bytes): seq<Field> {
    if payload == [] then [] else [Delimited(num, payload)]
  }

  /** The last record wins; without one the field has its default value. */
  function LastVarint(fs: seq<Field>, num: nat): uint64 {
    if fs == [] then 0
    else
      var f := fs[|fs| - 1];
      if f.Varint? && f.num == num then f.value else LastVarint(fs[..|fs| - 1], num)
  }

  function LastBytes(fs: seq<Field>, num: nat): Bytes {
    if fs == [] then []
    else
      var f := fs[|fs| - 1];
      if f.Delimited? && f.num == num then f.payload else LastBytes(fs[..|fs| - 1], num)
  }

  lemma AfterOptionalVarint(fs: seq<Field>, num: nat, value: uint64)
    ensures forall n :: LastVarint(fs + OptionalVarint(num, value), n) ==
                          if n == num && value != 0 then value else LastVarint(fs, n)
    ensures forall n :: LastBytes(fs + OptionalVarint(num, value), n) == LastBytes(fs, n)
  {
    var more := fs + OptionalVarint(num, value);
    if value == 0 {
      assert more == fs;
    } else {
      assert more[..|more| - 1] == fs;
    }
  }

  lemma AfterOptionalBytes(fs: seq<Field>, num: nat, payload: Bytes)
    ensures forall n :: LastBytes(fs + OptionalBytes(num, payload), n) ==
                          if n == num && payload != [] then payload else LastBytes(fs, n)
    ensures forall n :: LastVarint(fs + OptionalBytes(num, payload), n) == LastVarint(fs, n)
  {
    var more := fs + OptionalBytes(num, payload);
    if payload == [] {
      assert more == fs;
    } else {
      assert more[..|more| - 1] == fs;
    }
  }

  // ---------- Sizes ----------

  lemma OptionalVarintSize(num: nat, value: uint64)
    requires 1 <= num < 16
    ensures |EncodeFields(OptionalVarint(num, value))| <= 11
  {
    if value != 0 {
      Pow128Values();
      assert Pow128(1) == 128;
      VarintRoundTrip(8 * num, 1, []);
      VarintRoundTrip(value as nat, 10, []);
      assert OptionalVarint(num, value)[1..] == [];
    }
  }

  lemma OptionalBytesSize(num: nat, payload: Bytes)
    requires 1 <= num < 16 && |payload| < MAX_LENGTH
    ensures |EncodeFields(OptionalBytes(num, payload))| <= 6 + |payload|
  {
    if payload != [] {
      Pow128Values();
      assert Pow128(1) == 128;
      VarintRoundTrip(8 * num + 2, 1, []);
      VarintRoundTrip(|payload|, 5, []);
      assert OptionalBytes(num, payload)[1..] == [];
    }
  }
}
