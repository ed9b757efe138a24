/** The cryptographic primitives as parameters, and the byte layouts that the chain hashes. */
module Crypto {
  import opened Basics

  type Hash = h: Bytes | |h| == 32 witness seq(32, _ => 0)
  type PrivateKey = k: Bytes | |k| == 32 witness seq(32, _ => 0)
  type PublicKey = k: Bytes | |k| == 33 witness seq(33, _ => 0)
  type Signature = s: Bytes | |s| == 64 witness seq(64, _ => 0)
  type Nonce = n: Bytes | |n| == 8 witness seq(8, _ => 0)

  /**
    SHA-256 and ECDSA over secp256k1. Nothing is assumed about `hash` beyond its width: it is not
    injective, so theorems about equal hashes produce the colliding inputs instead.
   */
  datatype Primitives = Primitives(
    hash: Bytes -> Hash,
    publicKey: PrivateKey -> Option<PublicKey>,
    sign: (Hash, PrivateKey) -> Option<Signature>,
    verify: (Hash, PublicKey, Signature) -> bool)
  {
    /** A signature made with an accepted key verifies under the matching public key. */
    ghost predicate Lawful() {
      forall h: Hash, k: PrivateKey ::
        sign(h, k).Some? && publicKey(k).Some? ==> verify(h, publicKey(k).value, sign(h, k).value)
    }
  }

  /** Primitives that are lawful and yet reject some signatures: the law asks nothing impossible. */
  function SimplePrimitives(): Primitives {
    Primitives(
      _ => seq(32, _ => 0),
      (k: PrivateKey) => Some(k + [2]),
      (h: Hash, _: PrivateKey) => Some(h + h),
      (h: Hash, _: PublicKey, s: Signature) => s == h + h)
  }

  lemma LawIsConsistent(h: Hash, p: PublicKey, s: Signature)
    requires s[0] != h[0]
    ensures SimplePrimitives().Lawful() && !SimplePrimitives().verify(h, p, s)
  {
    assert (h + h)[0] == h[0];
  }

  /** Two different byte strings with the same hash. */
  predicate Collides(c: Primitives, x: Bytes, y: Bytes) {
    x != y && c.hash(x) == c.hash(y)
  }

  function GenesisPreimage(data: Bytes, privateKey: PrivateKey, publicKey: PublicKey): Bytes {
    data + privateKey + publicKey
  }

  function BodyPreimage(prev: Hash, nonce: Nonce, data: Bytes): Bytes {
    prev + nonce + data
  }

  function BlockPreimage(prev: Hash, nonce: Nonce, data: Bytes, signature: Signature): Bytes {
    prev + nonce + data + signature
  }

  lemma GenesisPreimageInjective(d: Bytes, k: PrivateKey, p: PublicKey, d': Bytes, k': PrivateKey, p': PublicKey)
    requires GenesisPreimage(d, k, p) == GenesisPreimage(d', k', p')
    ensures d == d' && k == k' && p == p'
  {
    var x, x' := GenesisPreimage(d, k, p), GenesisPreimage(d', k', p');
    assert x[|x| - 33..] == p && x'[|x| - 33..] == p';
    assert x[|x| - 65..|x| - 33] == k && x'[|x| - 65..|x| - 33] == k';
    assert x[..|x| - 65] == d && x'[..|x| - 65] == d';
  }

  lemma BodyPreimageInjective(h: Hash, n: Nonce, d: Bytes, h': Hash, n': Nonce, d': Bytes)
    requires BodyPreimage(h, n, d) == BodyPreimage(h', n', d')
    ensures h == h' && n == n' && d == d'
  {
    var x, x' := BodyPreimage(h, n, d), BodyPreimage(h', n', d');
    assert x[..32] == h && x'[..32] == h';
    assert x[32..40] == n && x'[32..40] == n';
    assert x[40..] == d && x'[40..] == d';
  }

  lemma BlockPreimageInjective(h: Hash, n: Nonce, d: Bytes, s: Signature, h': Hash, n': Nonce, d': Bytes, s': Signature)
    requires BlockPreimage(h, n, d, s) == BlockPreimage(h', n', d', s')
    ensures h == h' && n == n' && d == d' && s == s'
  {
    var x, x' := BlockPreimage(h, n, d, s), BlockPreimage(h', n', d', s');
    assert x[|x| - 64..] == s && x'[|x| - 64..] == s';
    assert x[..|x| - 64] == BodyPreimage(h, n, d) && x'[..|x| - 64] == BodyPreimage(h', n', d');
    BodyPreimageInjective(h, n, d, h', n', d');
  }
}

/** `getHash` and `getHashN`: a list of pieces is hashed as one stream, optionally several times. */
module Sha256 {
  import opened Basics
  import opened Crypto

  function Concat(pieces: seq<Bytes>): Bytes {
    if pieces == [] then [] else pieces[0] + Concat(pieces[1..])
  }

  lemma {:induction false} ConcatAppend(a: seq<Bytes>, b: seq<Bytes>)
    ensures Concat(a + b) == Concat(a) + Concat(b)
  {
    if a == [] {
      assert a + b == b;
    } else {
      var rest := a[1..] + b;
      assert (a + b)[1..] == rest && (a + b)[0] == a[0];
      ConcatAppend(a[1..], b);
      calc {
        Concat(a + b);
        a[0] + Concat(rest);
        { hide *; assert Concat(rest) == Concat(a[1..]) + Concat(b); }
        a[0] + (Concat(a[1..]) + Concat(b));
        { hide *; }
        (a[0] + Concat(a[1..])) + Concat(b);
        Concat(a) + Concat(b);
      }
    }
  }

  /** The k-fold hash of `x`. */
  function HashTimes(c: Primitives, x: Bytes, k: nat): Hash
    requires k >= 1
  {
    if k == 1 then c.hash(x) else c.hash(HashTimes(c, x, k - 1))
  }

  method GetHash(c: Primitives, input: seq<Bytes>) returns (output: Hash)
    ensures output == c.hash(Concat(input))
  {
    var stream: Bytes := [];
    for i := 0 to |input|
      invariant stream == Concat(input[..i])
    {
      ConcatAppend(input[..i], [input[i]]);
      assert input[..i + 1] == input[..i] + [input[i]];
      stream := stream + input[i];
    }
    assert input[..|input|] == input;
    output := c.hash(stream);
  }

  /**
    `n - 1` is computed on a `size_t`, so the loop bound wraps when `n` is zero: the result is then
    the 2^64-fold hash, and for every other `n` it is the n-fold one.
   */
  method GetHashN(c: Primitives, input: seq<Bytes>, n: uint64) returns (hash: Hash)
    ensures hash == HashTimes(c, Concat(input), if n == 0 then TWO_TO_THE_64 else n as nat)
  {
    hash := GetHash(c, input);
    var bound: uint64 := if n == 0 then MAX_UINT64 else n - 1;
    var i: uint64 := 0;
    while i < bound
      invariant i <= bound
      invariant hash == HashTimes(c, Concat(input), i as nat + 1)
    {
      hash := GetHash(c, [hash]);
      assert Concat([HashTimes(c, Concat(input), i as nat + 1)]) == HashTimes(c, Concat(input), i as nat + 1);
      i := i + 1;
    }
  }

  lemma ConcatOfTwo(x: Bytes, y: Bytes)
    ensures Concat([x, y]) == x + y
  {
    assert [x, y][1..] == [y];
    assert Concat([y]) == y;
  }

  lemma ConcatOfThree(x: Bytes, y: Bytes, z: Bytes)
    ensures Concat([x, y, z]) == x + y + z
  {
    assert [x, y, z][1..] == [y, z];
    ConcatOfTwo(y, z);
  }

  lemma ConcatOfFour(x: Bytes, y: Bytes, z: Bytes, w: Bytes)
    ensures Concat([x, y, z, w]) == x + y + z + w
  {
    assert [x, y, z, w][1..] == [y, z, w];
    ConcatOfThree(y, z, w);
  }

  /** Only the concatenation matters: cutting the same stream differently gives the same hash. */
  lemma SplitIrrelevant(c: Primitives, before: seq<Bytes>, x: Bytes, y: Bytes, after: seq<Bytes>)
    ensures c.hash(Concat(before + [x, y] + after)) == c.hash(Concat(before + [x + y] + after))
  {
    ConcatAppend(before + [x, y], after);
    ConcatAppend(before, [x, y]);
    ConcatAppend(before + [x + y], after);
    ConcatAppend(before, [x + y]);
    ConcatOfTwo(x, y);
    assert Concat([x + y]) == x + y;
  }
}
