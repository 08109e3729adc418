/** Inversion in the field through the inverse square root. */
module Inversion {
  import opened Machine
  import opened Bits
  import opened ByteStrings
  import opened Arithmetic
  import opened Field25519
  import opened FieldCodec
  import opened Ladder
  import opened PrimeField
  import opened Primes
  import opened SquareRoots
  import opened Verify

  /** x to the power n in the field. */
  function FPow(x: int, n: nat): int { PowMod(x, n, P) }

  lemma FPowAdd(x: int, m: nat, n: nat)
    ensures FPow(x, m + n) == FMul(FPow(x, m), FPow(x, n))
  {
    hide PowMod, TimesMod;
    PowModAdd(x, m, n, P);
  }

  const SQRTM1_LIMBS: Limbs := [-32595792, -7943725, 9377950, 3500415, 12389472, -272473, -25146209, -2005654, 326686, 11406482]

  /** A square root of -1, -1 itself, and the exponent (p-5)/8 = 2^252 - 3. */
  const SQRTM1: int := 0x2b8324804fc1df0b2b4d00993dfbd7a72f431806ad2fe478c4ee1b274a0ea0b0
  const MINUS1: int := P - 1
  const EIGHTH: nat := (P - 5) / 8

  lemma SqrtM1()
    ensures Tight(SQRTM1_LIMBS) && Rep(SQRTM1_LIMBS) == SQRTM1
    ensures Setting(EIGHTH, SQRTM1, P)
    ensures Pow2(252) - 3 == EIGHTH
  {
    hide Tight, Rep, TimesMod, Pow2;
    SqrtM1Limbs();
    SqrtM1Squared();
    PrimePowers();
  }

  lemma SqrtM1Limbs()
    ensures Tight(SQRTM1_LIMBS) && Rep(SQRTM1_LIMBS) == SQRTM1
  {
  }

  lemma SqrtM1Squared()
    ensures TimesMod(SQRTM1, SQRTM1, P) == MINUS1
  {
    assert SQRTM1 * SQRTM1 == 0x7fffffffffffffffffffffffffffffffffffffffffffffffffffffffffffffed * 0xecaa2e2f6a2302ccedb31ac05720688238ced2078f3eb0ec9f22e8f621972e4 + MINUS1;
    Remainder(SQRTM1 * SQRTM1, 0xecaa2e2f6a2302ccedb31ac05720688238ced2078f3eb0ec9f22e8f621972e4, MINUS1, P);
  }

  /** 2^252 in terms of the prime. */
  lemma PrimePowers()
    ensures 8 * Pow2(252) == P + 19
  {
    hide Pow2;
    Pow2Of64();
    Pow2Add(64, 64);
    Pow2Add(128, 128);
    Pow2Step(255); Pow2Step(254); Pow2Step(253); Pow2Step(252);
  }

  lemma Pow2Step(k: nat)
    ensures Pow2(k + 1) == 2 * Pow2(k)
  {
  }

  /** Squaring takes exponent 2^a - 2^b to 2^(a+1) - 2^(b+1). */
  lemma SquareExponent(x: int, a: nat, b: nat)
    requires Pow2(a) >= Pow2(b)
    ensures Pow2(a + 1) >= Pow2(b + 1)
    ensures FMul(FPow(x, Pow2(a) - Pow2(b)), FPow(x, Pow2(a) - Pow2(b))) == FPow(x, Pow2(a + 1) - Pow2(b + 1))
  {
    hide FPow, FMul;
    FPowAdd(x, Pow2(a) - Pow2(b), Pow2(a) - Pow2(b));
  }

  /** n squarings in a row. */
  method Squarings(h: array<i32>, f: array<i32>, n: nat, ghost x: int, ghost a: nat)
    requires h.Length == f.Length == 10 && n > 0 && Loose(f[..])
    requires Rep(f[..]) == FPow(x, Pow2(a) - 1)
    modifies h
    ensures Tight(h[..]) && Pow2(a + n) >= Pow2(n) && Rep(h[..]) == FPow(x, Pow2(a + n) - Pow2(n))
  {
    hide Rep, Tight, Loose, FMul, FPow;
    TightIsReady();
    assert Pow2(0) == 1;
    SquareExponent(x, a, 0);
    FeSq(h, f);
    for i := 1 to n
      invariant Tight(h[..]) && Pow2(a + i) >= Pow2(i) && Rep(h[..]) == FPow(x, Pow2(a + i) - Pow2(i))
    {
      SquareExponent(x, a + i, i);
      FeSq(h, h);
    }
  }

  /** x^(2^(a+n) - 2^n) times x^(2^n - 1). */
  lemma JoinExponents(x: int, a: nat, n: nat)
    requires Pow2(a + n) >= Pow2(n)
    ensures FMul(FPow(x, Pow2(a + n) - Pow2(n)), FPow(x, Pow2(n) - 1)) == FPow(x, Pow2(a + n) - 1)
  {
    hide FPow, FMul;
    FPowAdd(x, Pow2(a + n) - Pow2(n), Pow2(n) - 1);
  }

  predicate Distinct4(x: array<i32>, t0: array<i32>, t1: array<i32>, t2: array<i32>) {
    x.Length == t0.Length == t1.Length == t2.Length == 10
    && x != t0 && x != t1 && x != t2 && t0 != t1 && t0 != t2 && t1 != t2
  }

  /** Squares `base` n times into `temp` and multiplies by `factor`. */
  method Extend(out: array<i32>, temp: array<i32>, base: array<i32>, factor: array<i32>, n: nat, ghost x: int, ghost a: nat)
    requires out.Length == temp.Length == base.Length == factor.Length == 10 && factor != temp && n > 0
    requires Tight(base[..]) && Tight(factor[..])
    requires Rep(base[..]) == FPow(x, Pow2(a) - 1) && Rep(factor[..]) == FPow(x, Pow2(n) - 1)
    modifies out, temp
    ensures out != base && temp != base ==> base[..] == old(base[..])
    ensures out != factor ==> factor[..] == old(factor[..])
    ensures Tight(out[..]) && Rep(out[..]) == FPow(x, Pow2(a + n) - 1)
  {
    hide Rep, Tight, Loose, FMul, FPow, Pow2;
    TightIsReady();
    Squarings(temp, base, n, x, a);
    JoinExponents(x, a, n);
    FeMul(out, temp, factor);
  }

  /** x^31 in t0. */
  method SmallPowers(x: array<i32>, t0: array<i32>, t1: array<i32>, t2: array<i32>)
    requires Distinct4(x, t0, t1, t2) && Loose(x[..])
    modifies t0, t1
    ensures Tight(t0[..]) && Rep(t0[..]) == FPow(Rep(x[..]), Pow2(5) - 1)
  {
    hide Rep, Tight, Loose, FMul;
    TightIsReady();
    ghost var r := Rep(x[..]);
    FeSq(t0, x);
    FeSq(t1, t0);
    FeSq(t1, t1);
    FeMul(t1, x, t1);
    FeMul(t0, t0, t1);
    FeSq(t0, t0);
    FeMul(t0, t1, t0);
    assert r == FPow(r, 1) by { InRange(x[..]); PowOne(r, P); }
    FPowAdd(r, 1, 1); FPowAdd(r, 2, 2); FPowAdd(r, 4, 4); FPowAdd(r, 1, 8); FPowAdd(r, 2, 9); FPowAdd(r, 11, 11); FPowAdd(r, 9, 22);
    assert Pow2(5) == 32;
    hide FPow;
  }

  lemma InRange(f: Limbs)
    ensures 0 <= Rep(f) < P
  {
  }

  lemma QuarterStep()
    ensures Pow2(252) >= Pow2(2) == 4
  {
    Pow2Add(250, 2);
    assert Pow2(2) == 4;
  }

  lemma FourAndOne(r: int)
    requires 0 <= r < P
    ensures Pow2(252) >= Pow2(2) == 4
    ensures FMul(FPow(r, Pow2(252) - Pow2(2)), r) == FPow(r, Pow2(252) - 3)
  {
    hide Pow2, PowMod, TimesMod;
    PowOne(r, P);
    QuarterStep();
    FPowAdd(r, Pow2(252) - 4, 1);
  }

  /** invsqrt's addition chain: x^((p-5)/8), where (p-5)/8 = 2^252 - 3. */
  method PowerChain(x: array<i32>, t0: array<i32>, t1: array<i32>, t2: array<i32>)
    requires Distinct4(x, t0, t1, t2) && Loose(x[..])
    modifies t0, t1, t2
    ensures Tight(t0[..]) && Pow2(252) >= 4 && Rep(t0[..]) == FPow(Rep(x[..]), Pow2(252) - 3)
  {
    hide Rep, Tight, Loose, FMul, FPow, Pow2;
    ghost var r := Rep(x[..]);
    InRange(x[..]);
    SmallPowers(x, t0, t1, t2);
    Extend(t0, t1, t0, t0, 5, r, 5);
    Extend(t1, t1, t0, t0, 10, r, 10);
    Extend(t1, t2, t1, t1, 20, r, 20);
    Extend(t0, t1, t1, t0, 10, r, 40);
    Extend(t1, t1, t0, t0, 50, r, 50);
    Extend(t1, t2, t1, t1, 100, r, 100);
    Extend(t0, t1, t1, t0, 50, r, 200);
    TightIsReady();
    Squarings(t0, t0, 2, r, 250);
    FourAndOne(r);
    FeMul(t0, t0, x);
  }

  method FeConst(h: array<i32>, f: Limbs)
    requires h.Length == 10
    modifies h
    ensures h[..] == f
  {
    forall i | 0 <= i < 10 {
      h[i] := f[i];
    }
  }

  method FeIsEqual(f: array<i32>, g: array<i32>) returns (equal: bool)
    requires f.Length == g.Length == 10 && Tight(f[..]) && Tight(g[..])
    ensures equal <==> Rep(f[..]) == Rep(g[..])
  {
    hide Tight, Verify32;
    var fs, gs := new u8[32], new u8[32];
    InRange(f[..]);
    InRange(g[..]);
    FeToBytes(fs, f);
    FeToBytes(gs, g);
    hide Rep;
    RepFits(Rep(f[..]));
    RepFits(Rep(g[..]));
    equal := 1 + Verify32(fs[..], gs[..]) == 1;
  }

  method FeNeg(h: array<i32>, f: Limbs)
    requires h.Length == 10 && Tight(f)
    modifies h
    ensures Tight(h[..]) && Rep(h[..]) == FSub(0, Rep(f))
  {
    for i := 0 to 10
      invariant forall j | 0 <= j < i :: h[j] as int == -(f[j] as int)
    {
      assert f[i] as int > -0x8000_0000;
      h[i] := -f[i];
    }
    NegationOf(f, h[..]);
  }

  lemma NegationOf(f: Limbs, h: Limbs)
    requires Tight(f) && forall j | 0 <= j < 10 :: h[j] as int == -(f[j] as int)
    ensures Tight(h) && Rep(h) == FSub(0, Rep(f))
  {
    assert Val(h) == -Val(f);
    hide Val;
    AddMod(0, Val(f), P);
  }

  /** The three comparisons of invsqrt. */
  method Classify(x: array<i32>, quartic: array<i32>, check: array<i32>) returns (z0: bool, p1: bool, m1: bool, ms: bool)
    requires x.Length == quartic.Length == check.Length == 10 && check != x && check != quartic
    requires Tight(x[..]) && Tight(quartic[..])
    modifies check
    ensures z0 <==> Rep(x[..]) == 0
    ensures p1 <==> Rep(quartic[..]) == 1
    ensures m1 <==> Rep(quartic[..]) == MINUS1
    ensures ms <==> Rep(quartic[..]) == P - SQRTM1
  {
    hide Tight, Loose, Rep, FSub;
    SqrtM1();
    Negated(1);
    Negated(SQRTM1);
    FeSmall(check, 0);
    z0 := FeIsEqual(x, check);
    FeSmall(check, 1);
    p1 := FeIsEqual(quartic, check);
    FeNeg(check, check[..]);
    m1 := FeIsEqual(quartic, check);
    FeNeg(check, SQRTM1_LIMBS);
    ms := FeIsEqual(quartic, check);
  }

  lemma Negated(x: int)
    requires 0 < x < P
    ensures FSub(0, x) == P - x
  {
    Remainder(0 - x, -1, P - x, P);
  }

  /** invsqrt, including the case where isr and x are the same array: true exactly for a square, whose inverse root is
      found; otherwise the inverse root of x / sqrt(-1) is; zero for zero. */
  method InvSqrt(isr: array<i32>, x: array<i32>) returns (square: bool)
    requires isr.Length == x.Length == 10 && Tight(x[..])
    modifies isr
    ensures
      var r := old(Rep(x[..]));
      && Tight(isr[..]) && Rep(isr[..]) == InvRoot(r, EIGHTH, SQRTM1, P)
      && (square <==> IsSquare(r, P))
      && (r == 0 ==> Rep(isr[..]) == 0)
      && (r != 0 ==> Check(r, Rep(isr[..]), P) == if square then 1 else SQRTM1)
  {
    hide Tight, Loose, Rep, FMul, TimesMod, Pow2, PowMod, IsSquare, IsPrime, Check, Setting;
    TightIsReady();
    ghost var r := Rep(x[..]);
    InRange(x[..]);
    SqrtM1();
    FieldIsPrime();
    EveryClass(r, EIGHTH, SQRTM1, P);
    var t0, t1, t2 := new i32[10], new i32[10], new i32[10];
    PowerChain(x, t0, t1, t2);
    var quartic := t1;
    FeSq(quartic, t0);
    FeMul(quartic, quartic, x);
    Chained(r, Rep(t0[..]));
    var z0, p1, m1, ms := Classify(x, quartic, t2);
    FeConst(t2, SQRTM1_LIMBS);
    FeMul(isr, t0, t2);
    FeCcopy(isr, t0, if m1 || ms then 0 else 1);
    square := p1 || m1 || z0;
  }

  /** The values invsqrt computes on the way. */
  lemma Chained(r: int, root: int)
    requires Pow2(252) >= 4 && Pow2(252) - 3 == EIGHTH && root == FPow(r, Pow2(252) - 3)
    ensures root == Root(r, EIGHTH, P) && FMul(FMul(root, root), r) == Quartic(r, EIGHTH, P)
    ensures FMul(root, SQRTM1) == TimesMod(root, SQRTM1, P)
  {
    hide Pow2, PowMod, TimesMod;
  }

  /** fe_invert: z^(p-2), which is the inverse of z, or zero for zero. */
  method FeInvert(out: array<i32>, x: array<i32>)
    requires out.Length == x.Length == 10 && Tight(x[..])
    modifies out
    ensures Tight(out[..])
    ensures
      var z, i := old(Rep(x[..])), Rep(out[..]);
      i == FPow(z, P - 2) && if z == 0 then i == 0 else FMul(z, i) == 1
  {
    hide Tight, Loose, Rep, TimesMod, Pow2, PowMod, IsPrime, IsSquare, Quartic, InvRoot, Setting;
    TightIsReady();
    var tmp := new i32[10];
    ghost var z := Rep(x[..]);
    InRange(x[..]);
    SqrtM1();
    FieldIsPrime();
    InverseValue(z, EIGHTH, SQRTM1, P);
    FeSq(tmp, x);
    var _ := InvSqrt(tmp, tmp);
    FeSq(tmp, tmp);
    FeMul(out, tmp, x);
  }

  /** scalarmult: the bytes of x2 * z2^(p-2) after the plain ladder, as section 5 of RFC 7748 defines it. */
  method Scalarmult(q: array<u8>, scalar: bytes, p: bytes, nbBits: nat)
    requires q.Length == 32 && |p| == 32 && nbBits <= 8 * |scalar|
    modifies q
    ensures
      var u := (LeNat(p) % TWO255) % P;
      var r := PlainLadder(u, LeNat(scalar), nbBits, Points(1, 0, u, 1));
      q[..] == LeBytes(FMul(r.x2, FPow(r.z2, P - 2)), 32)
  {
    var x1, x2, z2, x3, z3 := new i32[10], new i32[10], new i32[10], new i32[10], new i32[10];
    var t0, t1 := new i32[10], new i32[10];
    hide Tight, Rep, FMul, PlainLadder, FPow;
    StartLadder(p, x1, x2, z2, x3, z3, t0, t1);
    RunLadder(scalar, nbBits, x1, x2, z2, x3, z3, t0, t1);
    Normalise(q, x2, z2);
  }

  /** "Zero" in (x2 : z2), the given point in (x3 : z3). */
  method StartLadder(p: bytes, x1: array<i32>, x2: array<i32>, z2: array<i32>, x3: array<i32>, z3: array<i32>, t0: array<i32>, t1: array<i32>)
    requires |p| == 32 && Separate(x1, x2, z2, x3, z3, t0, t1)
    modifies x1, x2, z2, x3, z3
    ensures Tight(x1[..]) && Tight(x2[..]) && Tight(z2[..]) && Tight(x3[..]) && Tight(z3[..])
    ensures Rep(x1[..]) == (LeNat(p) % TWO255) % P
    ensures Current(x2, z2, x3, z3) == Points(1, 0, Rep(x1[..]), 1)
  {
    hide Tight, Rep;
    FeFromBytes(x1, p);
    FeSmall(x2, 1);
    FeSmall(z2, 0);
    FeCopy(x3, x1);
    FeSmall(z3, 1);
  }

  /** x == X / Z. */
  method Normalise(q: array<u8>, x2: array<i32>, z2: array<i32>)
    requires q.Length == 32 && x2.Length == z2.Length == 10 && x2 != z2
    requires Tight(x2[..]) && Tight(z2[..])
    modifies q, x2, z2
    ensures q[..] == LeBytes(FMul(old(Rep(x2[..])), FPow(old(Rep(z2[..])), P - 2)), 32)
  {
    TightIsReady();
    hide Tight, Rep, FMul, FPow;
    FeInvert(z2, z2);
    FeMul(x2, x2, z2);
    FeToBytes(q, x2);
  }

  /** The clamped scalar of crypto_eddsa_trim_scalar. */
  function Trim(s: bytes): (e: bytes)
    requires |s| == 32
    ensures |e| == 32 && LeNat(e) % 8 == 0
  {
    var lo := s[0] - s[0] % 8;
    var hi := s[31] % 0x80 % 0x40 + 0x40;
    var e := [lo] + s[1..31] + [hi];
    EightfoldFirst(e);
    e
  }

  /** As a number: bits 3 to 253 are kept, bit 254 is set, all others are cleared. */
  lemma TrimmedNumber(s: bytes)
    requires |s| == 32
    ensures LeNat(Trim(s)) == Pow2(254) + LeNat(s) % Pow2(254) / 8 * 8
  {
    hide LeNat, Pow2, Pow256, Trim;
    var lo, hi := s[0] - s[0] % 8, s[31] % 0x40 + 0x40;
    var y := LeNat(s[1..31]);
    assert s == [s[0]] + s[1..31] + [s[31]];
    TrimIs(s);
    ThreePieces(s[0], s[1..31], s[31]);
    ThreePieces(lo, s[1..31], hi);
    TopPower();
    TrimmedPieces(s[0] as int, y, s[31] as int, Pow256(30), Pow2(254));
  }

  lemma TrimIs(s: bytes)
    requires |s| == 32
    ensures Trim(s) == [s[0] - s[0] % 8] + s[1..31] + [s[31] % 0x40 + 0x40]
  {
    hide LeNat, Pow256;
  }

  lemma TopPower()
    ensures Pow2(254) == 0x4000 * Pow256(30) && Pow256(31) == 0x100 * Pow256(30)
  {
    hide Pow2, Pow256;
    Pow256IsPow2(30);
    Pow2Add(240, 14);
    SmallPowersOfTwo();
    Pow256Step(30);
  }

  lemma SmallPowersOfTwo()
    ensures Pow2(14) == 0x4000 && Pow2(8) == 0x100
  {
    assert Pow2(7) == 0x80;
  }

  lemma Pow256Step(n: nat)
    ensures Pow256(n + 1) == 0x100 * Pow256(n) && Pow256(0) == 1
  {
  }

  lemma ThreePieces(a: u8, m: bytes, z: u8)
    requires |m| == 30
    ensures LeNat([a] + m + [z]) == a as int + 0x100 * LeNat(m) + Pow256(31) * z as int
  {
    hide LeNat, Pow256;
    LeNatConcat([a] + m, [z]);
    LeNatConcat([a], m);
    LeNatOne(a);
    LeNatOne(z);
    Pow256Step(0);
  }

  lemma LeNatOne(a: u8)
    ensures LeNat([a]) == a as int
  {
    assert LeNat([a]) == a as int + 0x100 * LeNat([a][1..]) && [a][1..] == [];
  }

  lemma TrimmedPieces(a: nat, y: nat, z: nat, w: nat, top: nat)
    requires a < 0x100 && z < 0x100 && y < w && top == 0x4000 * w
    ensures a - a % 8 + 0x100 * y + (0x100 * w) * (z % 0x40 + 0x40) == top + (a + 0x100 * y + (0x100 * w) * z) % top / 8 * 8
  {
    var r, q := z % 0x40, z / 0x40;
    var v, s := w * r, w * q;
    var low := a + 0x100 * y + 0x100 * v;
    HighByte(w, r, q, z);
    MulMonotone(w, r, 0x3f);
    assert top * q == 0x4000 * s;
    Remainder(low + top * q, q, low, top);
    var e := a / 8 + 0x20 * y + 0x20 * v;
    assert low == 8 * e + a % 8;
    Remainder(low, e, a % 8, 8);
  }

  lemma HighByte(w: nat, r: nat, q: nat, z: nat)
    requires z == r + 0x40 * q
    ensures (0x100 * w) * z == 0x100 * (w * r) + 0x4000 * (w * q) && (0x100 * w) * (r + 0x40) == 0x100 * (w * r) + 0x4000 * w
    ensures (0x4000 * w) * q == 0x4000 * (w * q)
  {
  }

  lemma EightfoldFirst(e: bytes)
    requires |e| > 0 && e[0] % 8 == 0
    ensures LeNat(e) % 8 == 0
  {
    var x, y := e[0] as int / 8, LeNat(e[1..]);
    assert LeNat(e) == 8 * (x + 32 * y);
  }

  /** crypto_x25519: the ladder over 255 bits of the clamped scalar. */
  method X25519(shared: array<u8>, secret: bytes, public: bytes)
    requires shared.Length == 32 && |secret| == 32 && |public| == 32
    modifies shared
    ensures
      var u := (LeNat(public) % TWO255) % P;
      var k := Pow2(254) + LeNat(secret) % Pow2(254) / 8 * 8;
      var r := PlainLadder(u, k, 255, Points(1, 0, u, 1));
      shared[..] == LeBytes(FMul(r.x2, FPow(r.z2, P - 2)), 32)
  {
    hide FMul, PlainLadder, FPow, LeNat, Pow2, Trim;
    TrimmedNumber(secret);
    Scalarmult(shared, Trim(secret), public, 255);
  }
}
