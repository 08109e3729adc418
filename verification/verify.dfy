/** Constant-time comparison of byte strings. */
module Verify {
  import opened Machine
  import opened Bits
  import opened ByteStrings
  import opened LongWords

  /** diff != 0 ? -1 : 0, without a branch. */
  function Neq0(diff: nat): (r: int)
    requires diff < 0x1_0000_0000_0000_0000
    ensures r == if diff == 0 then 0 else -1
  {
    var hi, lo := diff / 0x1_0000_0000, diff % 0x1_0000_0000;
    Pow2Values();
    OrBound(hi, lo, 32);
    OrZero(hi, lo);
    var half := Or(hi, lo);
    var wrapped := (half - 1) % 0x1_0000_0000_0000_0000;
    Borrow(half);
    (wrapped / 0x1_0000_0000) % 2 - 1
  }

  lemma Borrow(half: nat)
    requires half < 0x1_0000_0000
    ensures (half - 1) % 0x1_0000_0000_0000_0000 / 0x1_0000_0000 % 2 == if half == 0 then 1 else 0
  {
  }

  /** The or of the two xors. */
  function X16(a: bytes, b: bytes): (r: nat)
    requires |a| == |b| == 16
    ensures r < Pow2(64)
    ensures r == 0 <==> a == b
  {
    var a0, a8, b0, b8 := Load64(a, 0) as nat, Load64(a, 8) as nat, Load64(b, 0) as nat, Load64(b, 8) as nat;
    Pow2Of64();
    XorBound(a0, b0, 64);
    XorBound(a8, b8, 64);
    XorZero(a0, b0);
    XorZero(a8, b8);
    OrBound(Xor(a0, b0), Xor(a8, b8), 64);
    OrZero(Xor(a0, b0), Xor(a8, b8));
    HalvesEqual(a, b);
    Or(Xor(a0, b0), Xor(a8, b8))
  }

  lemma HalvesEqual(a: bytes, b: bytes)
    requires |a| == |b| == 16
    ensures a == b <==> Load64(a, 0) == Load64(b, 0) && Load64(a, 8) == Load64(b, 8)
  {
    hide Load64, LeNat, LeBytes;
    assert a == a[0..8] + a[8..16] && b == b[0..8] + b[8..16];
  }

  /** crypto_verify16 returns 0 exactly on equal inputs and -1 on all others. */
  function Verify16(a: bytes, b: bytes): (r: int)
    requires |a| == |b| == 16
    ensures r == if a == b then 0 else -1
  {
    Pow2Of64();
    Neq0(X16(a, b))
  }

  function Verify32(a: bytes, b: bytes): (r: int)
    requires |a| == |b| == 32
    ensures r == if a == b then 0 else -1
  {
    Pow2Of64();
    OrBound(X16(a[..16], b[..16]), X16(a[16..], b[16..]), 64);
    OrZero(X16(a[..16], b[..16]), X16(a[16..], b[16..]));
    assert a == a[..16] + a[16..] && b == b[..16] + b[16..];
    Neq0(Or(X16(a[..16], b[..16]), X16(a[16..], b[16..])))
  }
}
