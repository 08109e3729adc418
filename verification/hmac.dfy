/** HMAC-BLAKE2b over the incremental hash. */
module Hmac {
  import opened Machine
  import opened Bits
  import opened ByteStrings
  import opened Blake2b

  /** RFC 2104, section 2: keys longer than a block are hashed first, then filled with zeroes. */
  function BlockKey(f: Compression, key: bytes): (k: bytes)
    ensures |k| == 128
  {
    Pad(if |key| > 128 then Hash(f, 64, key) else key)
  }

  function XorPad(k: bytes, pad: u8): (r: bytes)
    ensures |r| == |k|
  {
    if k == [] then [] else [XorU8(k[0], pad)] + XorPad(k[1..], pad)
  }

  /** H(K xor opad, H(K xor ipad, text)). */
  function Digest(f: Compression, key: bytes, data: bytes): (r: bytes)
    ensures |r| == 64
  {
    var k := BlockKey(f, key);
    Hash(f, 64, XorPad(k, 0x5c) + Hash(f, 64, XorPad(k, 0x36) + data))
  }

  lemma {:induction false} XorPadAt(k: bytes, pad: u8, i: nat)
    requires i < |k|
    ensures XorPad(k, pad)[i] == XorU8(k[i], pad)
  {
    if i > 0 { XorPadAt(k[1..], pad, i - 1); }
  }

  /** Section 2 of RFC 2104, for any strings that are what it says: the key, hashed first if it is longer than a block, under
      zeroes up to a block; and that block under bytes 36 and under bytes 5c. */
  lemma DigestIsHmac(f: Compression, key: bytes, data: bytes, k: bytes, inner: bytes, outer: bytes)
    requires |k| == |inner| == |outer| == 128
    requires
      var short := if |key| > 128 then Hash(f, 64, key) else key;
      k[..|short|] == short && forall i | |short| <= i < 128 :: k[i] == 0
    requires forall i | 0 <= i < 128 :: inner[i] == XorU8(k[i], 0x36) && outer[i] == XorU8(k[i], 0x5c)
    ensures Digest(f, key, data) == Hash(f, 64, outer + Hash(f, 64, inner + data))
  {
    hide Hash, XorU8, XorPad;
    assert BlockKey(f, key) == k;
    forall i | 0 <= i < 128 ensures inner[i] == XorPad(k, 0x36)[i] && outer[i] == XorPad(k, 0x5c)[i] {
      XorPadAt(k, 0x36, i);
      XorPadAt(k, 0x5c, i);
    }
    assert inner == XorPad(k, 0x36) && outer == XorPad(k, 0x5c);
  }

  lemma {:induction false} XorPadPush(k: bytes, pad: u8, i: nat)
    requires i < |k|
    ensures XorPad(k[..i + 1], pad) == XorPad(k[..i], pad) + [XorU8(k[i], pad)]
  {
    if i > 0 {
      XorPadPush(k[1..], pad, i - 1);
      assert k[..i + 1][1..] == k[1..][..i] && k[..i][1..] == k[1..][..i - 1];
    } else {
      assert k[..1][1..] == [];
    }
  }

  /** crypto_blake2b. */
  method OneShot(f: Compression, hashSize: nat, message: bytes) returns (out: bytes)
    requires hashSize <= 64
    ensures out == Hash(f, hashSize, message)
  {
    hide Hash, InitialChain, Context.Valid, Context.Filling;
    var ctx := new Blake2b.Context(f);
    ctx.Init(hashSize);
    ctx.Update(message);
    assert ctx.msg == message;
    out := ctx.Final();
  }

  /** hmac_blake2b. */
  method HmacBlake2b(f: Compression, key: bytes, data: bytes) returns (out: bytes)
    ensures out == Digest(f, key, data)
  {
    hide Hash, InitialChain, XorU8;
    var k := key;
    if |key| > 128 {
      k := OneShot(f, 64, key);
    }
    k := k + Zeros(128 - |k|);
    var ipad, opad: bytes := [], [];
    for i := 0 to 128
      invariant ipad == XorPad(k[..i], 0x36) && opad == XorPad(k[..i], 0x5c)
    {
      XorPadPush(k, 0x36, i);
      XorPadPush(k, 0x5c, i);
      ipad := ipad + [XorU8(k[i], 0x36)];
      opad := opad + [XorU8(k[i], 0x5c)];
    }
    assert k[..128] == k;
    var ctx := new Blake2b.Context(f);
    out := HashPair(ctx, ipad, data);
    out := HashPair(ctx, opad, out);
  }

  /** A context initialised, fed two pieces and finalised; it may have been used before. */
  method HashPair(ctx: Blake2b.Context, first: bytes, second: bytes) returns (out: bytes)
    requires ctx.input.Length == 16
    modifies ctx, ctx.input
    ensures out == Hash(ctx.f, 64, first + second)
  {
    hide Hash, InitialChain, Context.Valid, Context.Filling;
    ctx.Init(64);
    ctx.Update(first);
    if |second| > 0 {
      ctx.Update(second);
    }
    assert ctx.msg == first + second;
    out := ctx.Final();
  }
}
