/** Reading, writing, swapping and comparing field elements; the canonical encoding. */
module FieldCodec {
  import opened Machine
  import opened Bits
  import opened ByteStrings
  import opened Arithmetic
  import opened Field25519

  method FeCswap(f: array<i32>, g: array<i32>, b: i32)
    requires f.Length == 10 && g.Length == 10 && f != g
    requires b == 0 || b == 1
    modifies f, g
    ensures b == 1 ==> f[..] == old(g[..]) && g[..] == old(f[..])
    ensures b == 0 ==> f[..] == old(f[..]) && g[..] == old(g[..])
  {
    var mask: i32 := -b;
    for i := 0 to 10
      invariant forall k | 0 <= k < i :: f[k] == (if b == 1 then old(g[k]) else old(f[k]))
      invariant forall k | 0 <= k < i :: g[k] == (if b == 1 then old(f[k]) else old(g[k]))
      invariant forall k | i <= k < 10 :: f[k] == old(f[k]) && g[k] == old(g[k])
    {
      MaskedXor(f[i], g[i]);
      var x := AndI32(XorI32(f[i], g[i]), mask);
      f[i] := XorI32(f[i], x);
      g[i] := XorI32(g[i], x);
    }
  }

  method FeCcopy(f: array<i32>, g: array<i32>, b: i32)
    requires f.Length == 10 && g.Length == 10 && f != g
    requires b == 0 || b == 1
    modifies f
    ensures f[..] == if b == 1 then g[..] else old(f[..])
  {
    var mask: i32 := -b;
    for i := 0 to 10
      invariant forall k | 0 <= k < i :: f[k] == (if b == 1 then g[k] else old(f[k]))
      invariant forall k | i <= k < 10 :: f[k] == old(f[k])
    {
      MaskedXor(f[i], g[i]);
      var x := AndI32(XorI32(f[i], g[i]), mask);
      f[i] := XorI32(f[i], x);
    }
  }

  const TWO255: int := 0x8000000000000000000000000000000000000000000000000000000000000000

  function BytesAcc(s: bytes): (t: Acc)
    requires |s| == 32
    ensures CarryReady(t)
  {
    Acc(Load32(s, 0) as i64, Load24(s, 4) as i64 * 0x40, Load24(s, 7) as i64 * 0x20, Load24(s, 10) as i64 * 8,
        Load24(s, 13) as i64 * 4, Load32(s, 16) as i64, Load24(s, 20) as i64 * 0x80, Load24(s, 23) as i64 * 0x20,
        Load24(s, 26) as i64 * 0x10, (Load24(s, 29) % 0x80_0000) as i64 * 4)
  }

  lemma BytesAccSplit(s: bytes)
    requires |s| == 32
    ensures Tail(s, 0) == AccVal(BytesAcc(s)) + TWO255 * (Load24(s, 29) as int / 0x80_0000)
  {
    hide Tail, LeNat, Load24, Load32;
    TailEnds(s);
    LowHalf(s);
    Split4(s, 16); Split3(s, 20); Split3(s, 23); Split3(s, 26); Split3(s, 29);
  }

  lemma TailEnds(s: bytes)
    requires |s| == 32
    ensures Tail(s, 0) == LeNat(s) && Tail(s, 32) == 0
  {
    assert s[0..] == s && s[32..] == [];
  }

  lemma LowHalf(s: bytes)
    requires |s| == 32
    ensures Tail(s, 0) == Load32(s, 0) as int + 0x1_0000_0000 * Load24(s, 4) as int + 0x100_0000_0000_0000 * Load24(s, 7) as int
              + 0x1_0000_0000_0000_0000_0000 * Load24(s, 10) as int + 0x100_0000_0000_0000_0000_0000_0000 * Load24(s, 13) as int
              + 0x1_0000_0000_0000_0000_0000_0000_0000_0000 * Tail(s, 16)
  {
    hide Tail, LeNat, Load24, Load32;
    Split4(s, 0); Split3(s, 4); Split3(s, 7); Split3(s, 10); Split3(s, 13);
  }

  lemma BytesAccValue(s: bytes)
    requires |s| == 32
    ensures AccVal(BytesAcc(s)) == LeNat(s) % TWO255
  {
    assert s[0..] == s;
    hide LeNat, Load24, Load32;
    BytesAccSplit(s);
    assert 0 <= AccVal(BytesAcc(s)) < TWO255;
    hide BytesAcc, AccVal;
    Remainder(LeNat(s), Load24(s, 29) as int / 0x80_0000, AccVal(BytesAcc(s)), TWO255);
  }

  method FeFromBytes(h: array<i32>, s: bytes)
    requires h.Length == 10 && |s| == 32
    modifies h
    ensures Tight(h[..])
    ensures Rep(h[..]) == (LeNat(s) % TWO255) % P
  {
    BytesAccValue(s);
    FeCarry(h, BytesAcc(s));
  }

  /** One step of the carry chain: t + q split at bit w, arithmetic shift. */
  method Shift26(t: i32, q: i32) returns (r: i32, c: i32)
    requires Within(t as int, 36909875) && Within(q as int, 19)
    ensures t as int + q as int == 0x400_0000 * c as int + r as int && 0 <= r < 0x400_0000 && -1 <= c <= 0
  {
    c := (t + q) / 0x400_0000;
    r := t + q - c * 0x400_0000;
  }

  method Shift25(t: i32, q: i32) returns (r: i32, c: i32)
    requires Within(t as int, 18454937) && Within(q as int, 19)
    ensures t as int + q as int == 0x200_0000 * c as int + r as int && 0 <= r < 0x200_0000 && -1 <= c <= 0
  {
    c := (t + q) / 0x200_0000;
    r := t + q - c * 0x200_0000;
  }

  predicate Reduced(t: Limbs) {
    0 <= t[0] < 0x400_0000 && 0 <= t[1] < 0x200_0000 && 0 <= t[2] < 0x400_0000 && 0 <= t[3] < 0x200_0000
    && 0 <= t[4] < 0x400_0000 && 0 <= t[5] < 0x200_0000 && 0 <= t[6] < 0x400_0000 && 0 <= t[7] < 0x200_0000
    && 0 <= t[8] < 0x400_0000 && 0 <= t[9] < 0x200_0000
  }

  method Propagate(t: Limbs, q0: i32) returns (r: Limbs, q: i32)
    requires Tight(t) && Within(q0 as int, 19)
    ensures Reduced(r) && Val(t) + q0 as int == TWO255 * q as int + Val(r)
  {
    var r0, r1, r2, r3, r4, r5, r6, r7, r8, r9;
    q := q0;
    r0, q := Shift26(t[0], q);  r1, q := Shift25(t[1], q);
    r2, q := Shift26(t[2], q);  r3, q := Shift25(t[3], q);
    r4, q := Shift26(t[4], q);  r5, q := Shift25(t[5], q);
    r6, q := Shift26(t[6], q);  r7, q := Shift25(t[7], q);
    r8, q := Shift26(t[8], q);  r9, q := Shift25(t[9], q);
    r := [r0, r1, r2, r3, r4, r5, r6, r7, r8, r9];
  }

  /** The top limb decides the sign and size of a carried element. */
  lemma TopLimb(t: Limbs)
    requires Tight(t)
    ensures Within(Val(t) - W9 * t[9] as int, W9 - 100)
  {
  }

  const W9: int := 0x40_0000_0000_0000_0000_0000_0000_0000_0000_0000_0000_0000_0000_0000_0000

  lemma SignOf(v: int, t9: int, q: int, sign: int, r: int)
    requires Within(v - W9 * t9, W9 - 100) && Within(t9, 18454937)
    requires q == (19 * t9 + 0x100_0000) / 0x200_0000
    requires v + q == TWO255 * sign + r && 0 <= r < TWO255
    ensures sign == (if v >= 0 then 0 else -1) && -P < v < P
  {
    assert -12 < q < 12;
    if t9 > 0 { assert v >= 100; } else if t9 < 0 { assert v <= -100; }
  }

  method Canonical(t: Limbs) returns (r: Limbs)
    requires Tight(t)
    ensures Reduced(r) && Val(r) == Val(t) % P
  {
    var q := (19 * t[9] + 0x100_0000) / 0x200_0000;
    var first, sign := Propagate(t, q);
    TopLimb(t);
    ReducedRange(first);
    SignOf(Val(t), t[9] as int, q as int, sign as int, Val(first));
    var excess;
    r, excess := Propagate(t, 19 * sign);
    ReducedRange(r);
    hide Val;
    WrapExcess(Val(t), sign as int, excess as int, Val(r));
  }

  lemma ReducedRange(r: Limbs)
    requires Reduced(r)
    ensures 0 <= Val(r) < TWO255
  {
  }

  lemma WrapExcess(v: int, sign: int, excess: int, r: int)
    requires sign == (if v >= 0 then 0 else -1) && -P < v < P
    requires v + 19 * sign == TWO255 * excess + r && 0 <= r < TWO255
    ensures r == v % P
  {
    assert excess == sign;
    Remainder(v, sign, r, P);
  }

  /** Two limbs joined in one word: (u32)lo | (u32)hi << n, the shift wrapping at 32 bits. */
  function Join(lo: int, hi: int, n: nat, ghost p: int, ghost m: int): (w: u32)
    requires SplitAt(n, p, m) && 0 <= lo < p && 0 <= hi
    ensures w as int == lo + p * (hi % m)
  {
    JoinExact(lo, hi, n);
    Or(lo, (hi * Pow2(n)) % 0x1_0000_0000) as u32
  }

  ghost predicate SplitAt(n: nat, p: int, m: int) {
    n <= 32 && p == Pow2(n) && m == Pow2(32 - n)
  }

  lemma SplitPoints()
    ensures SplitAt(26, 0x400_0000, 0x40) && SplitAt(19, 0x8_0000, 0x2000) && SplitAt(13, 0x2000, 0x8_0000)
    ensures SplitAt(6, 0x40, 0x400_0000) && SplitAt(25, 0x200_0000, 0x80) && SplitAt(12, 0x1000, 0x10_0000)
  {
    Pow2Values();
  }

  lemma JoinExact(lo: int, hi: int, n: nat)
    requires n <= 32 && 0 <= lo < Pow2(n) && 0 <= hi
    ensures Or(lo, (hi * Pow2(n)) % 0x1_0000_0000) == lo + Pow2(n) * (hi % Pow2(32 - n)) < 0x1_0000_0000
  {
    Pow2Values();
    Pow2Add(n, 32 - n);
    ShiftMod(hi, Pow2(n), Pow2(32 - n));
    OrDisjoint(lo, hi % Pow2(32 - n), n);
  }

  lemma ShiftMod(x: nat, p: nat, m: nat)
    requires p > 0 && m > 0
    ensures p * m > 0 && (x * p) % (p * m) == p * (x % m) <= p * m - p
  {
    var q, r := x / m, x % m;
    Regroup(p, m, q, r);
    MulMonotone(p, r, m - 1);
    MulMonotone(p, 1, m);
    ShiftBound(p, m);
    Remainder(x * p, q, p * r, p * m);
  }

  lemma ShiftBound(p: int, m: int)
    ensures p * (m - 1) == p * m - p
  {
  }

  lemma Regroup(p: int, m: int, q: int, r: int)
    ensures (m * q + r) * p == (p * m) * q + p * r
  {
  }

  /** Eight little-endian words make one 256-bit number. */
  function WordsValue(s: bytes): int
    requires |s| == 32
  {
    Load32(s, 0) as int + 0x1_0000_0000 * Load32(s, 4) as int + 0x1_0000_0000_0000_0000 * Load32(s, 8) as int
    + 0x1_0000_0000_0000_0000_0000_0000 * Load32(s, 12) as int + 0x1_0000_0000_0000_0000_0000_0000_0000_0000 * Load32(s, 16) as int
    + 0x1_0000_0000_0000_0000_0000_0000_0000_0000_0000_0000 * Load32(s, 20) as int
    + 0x1_0000_0000_0000_0000_0000_0000_0000_0000_0000_0000_0000_0000 * Load32(s, 24) as int
    + 0x1_0000_0000_0000_0000_0000_0000_0000_0000_0000_0000_0000_0000_0000_0000 * Load32(s, 28) as int
  }

  lemma WordsAreBytes(s: bytes)
    requires |s| == 32
    ensures WordsValue(s) == LeNat(s)
  {
    hide Tail, LeNat, Load32;
    TailEnds(s);
    Split4(s, 0); Split4(s, 4); Split4(s, 8); Split4(s, 12); Split4(s, 16); Split4(s, 20); Split4(s, 24); Split4(s, 28);
  }

  /** The ten reduced limbs laid out over eight words. */
  function Word(t: Limbs, k: nat): (w: u32)
    requires Reduced(t) && k < 8
  {
    SplitPoints();
    match k
    case 0 => Join(t[0] as int, t[1] as int, 26, 0x400_0000, 0x40)
    case 1 => Join(t[1] as int / 0x40, t[2] as int, 19, 0x8_0000, 0x2000)
    case 2 => Join(t[2] as int / 0x2000, t[3] as int, 13, 0x2000, 0x8_0000)
    case 3 => Join(t[3] as int / 0x8_0000, t[4] as int, 6, 0x40, 0x400_0000)
    case 4 => Join(t[5] as int, t[6] as int, 25, 0x200_0000, 0x80)
    case 5 => Join(t[6] as int / 0x80, t[7] as int, 19, 0x8_0000, 0x2000)
    case 6 => Join(t[7] as int / 0x2000, t[8] as int, 12, 0x1000, 0x10_0000)
    case 7 => Join(t[8] as int / 0x10_0000, t[9] as int, 6, 0x40, 0x400_0000)
  }

  lemma WordValue(t: Limbs, k: nat)
    requires Reduced(t) && k < 8
    ensures Word(t, k) as int == match k
            case 0 => t[0] as int + 0x400_0000 * (t[1] as int % 0x40)
            case 1 => t[1] as int / 0x40 + 0x8_0000 * (t[2] as int % 0x2000)
            case 2 => t[2] as int / 0x2000 + 0x2000 * (t[3] as int % 0x8_0000)
            case 3 => t[3] as int / 0x8_0000 + 0x40 * t[4] as int
            case 4 => t[5] as int + 0x200_0000 * (t[6] as int % 0x80)
            case 5 => t[6] as int / 0x80 + 0x8_0000 * (t[7] as int % 0x2000)
            case 6 => t[7] as int / 0x2000 + 0x1000 * (t[8] as int % 0x10_0000)
            case _ => t[8] as int / 0x10_0000 + 0x40 * t[9] as int
  {
    hide Join;
    SplitPoints();
    hide SplitAt;
  }

  lemma WordsHoldLimbs(t: Limbs, s: bytes)
    requires Reduced(t) && |s| == 32
    requires forall k | 0 <= k < 8 :: Load32(s, 4 * k) == Word(t, k)
    ensures WordsValue(s) == Val(t)
  {
    hide Load32, Word;
    assert Load32(s, 4 * 0) == Word(t, 0) && Load32(s, 4 * 1) == Word(t, 1) && Load32(s, 4 * 2) == Word(t, 2) && Load32(s, 4 * 3) == Word(t, 3);
    assert Load32(s, 4 * 4) == Word(t, 4) && Load32(s, 4 * 5) == Word(t, 5) && Load32(s, 4 * 6) == Word(t, 6) && Load32(s, 4 * 7) == Word(t, 7);
    WordValue(t, 0); WordValue(t, 1); WordValue(t, 2); WordValue(t, 3);
    WordValue(t, 4); WordValue(t, 5); WordValue(t, 6); WordValue(t, 7);
  }

  /** fe_tobytes writes the unique representative in [0, 2^255 - 19). */
  method FeToBytes(s: array<u8>, h: array<i32>)
    requires s.Length == 32 && h.Length == 10 && Tight(h[..])
    modifies s
    ensures s[..] == LeBytes(Rep(h[..]), 32)
  {
    var t := Canonical(h[..]);
    hide Load32, Word, Val, Reduced, Tight, Bounded;
    for k := 0 to 8
      invariant forall j | 0 <= j < k :: Load32(s[..], 4 * j) == Word(t, j)
    {
      ghost var was := s[..];
      Store32(s, 4 * k, Word(t, k));
      forall j | 0 <= j < k ensures Load32(s[..], 4 * j) == Load32(was, 4 * j) { Load32Frame(s[..], was, 4 * j); }
    }
    WordsHoldLimbs(t, s[..]);
    WordsAreBytes(s[..]);
    LeBytesOfNat(s[..]);
  }

  function ClearTopBit(s: bytes): (r: bytes)
    requires |s| == 32
    ensures |r| == 32
  {
    s[..31] + [s[31] % 0x80]
  }

  lemma TopBitCleared(s: bytes)
    requires |s| == 32
    ensures LeNat(ClearTopBit(s)) == LeNat(s) % TWO255
  {
    var lo, top := LeNat(s[..31]), s[31] as int;
    assert s == s[..31] + [s[31]];
    LeNatConcat(s[..31], [s[31]]);
    LeNatConcat(s[..31], [s[31] % 0x80]);
    LeNatOne(s[31]);
    LeNatOne(s[31] % 0x80);
    hide Pow256, LeNat;
    Pow256Of31();
    SplitTop(LeNat(s), lo, top);
  }

  lemma LeNatOne(b: u8)
    ensures LeNat([b]) == b as int
  {
  }

  lemma SplitTop(x: int, lo: int, top: int)
    requires 0 <= lo < W31 && 0 <= top < 0x100 && x == lo + W31 * top
    ensures x % TWO255 == lo + W31 * (top % 0x80)
  {
    Remainder(x, top / 0x80, lo + W31 * (top % 0x80), TWO255);
  }

  const W31: int := 0x1_0000_0000_0000_0000_0000_0000_0000_0000_0000_0000_0000_0000_0000_0000_0000_00

  lemma Pow256Of31()
    ensures Pow256(31) == 0x1_0000_0000_0000_0000_0000_0000_0000_0000_0000_0000_0000_0000_0000_0000_0000_00
  {
    assert Pow256(7) == 0x100_0000_0000_0000;
    assert Pow256(8) == 0x1_0000_0000_0000_0000;
    hide Pow256;
    Pow256Add(8, 7);
    Pow256Add(8, 8);
    Pow256Add(16, 15);
  }

  /** Decoding and encoding again clears the top bit, and changes nothing else exactly on canonical encodings. */
  method DecodeEncode(s: bytes) returns (r: array<u8>)
    requires |s| == 32
    ensures r.Length == 32 && r[..] == LeBytes((LeNat(s) % TWO255) % P, 32)
    ensures r[..] == ClearTopBit(s) <==> LeNat(s) % TWO255 < P
  {
    var h := new i32[10];
    r := new u8[32];
    FeFromBytes(h, s);
    FeToBytes(r, h);
    CanonicalEncoding(s);
  }

  lemma CanonicalEncoding(s: bytes)
    requires |s| == 32
    ensures LeBytes((LeNat(s) % TWO255) % P, 32) == ClearTopBit(s) <==> LeNat(s) % TWO255 < P
  {
    var v := LeNat(s) % TWO255;
    TopBitCleared(s);
    LeBytesOfNat(ClearTopBit(s));
    hide LeNat, LeBytes, ClearTopBit;
    RepFits(v % P);
    if v < P { Remainder(v, 0, v, P); }
  }

  /** A field value is recovered from its 32 bytes. */
  lemma RepFits(v: int)
    requires 0 <= v < P
    ensures LeNat(LeBytes(v, 32)) == v
  {
    Pow256Of32();
    hide Pow256, LeNat, LeBytes;
    LeNatOfBytes(v, 32);
  }

  lemma Pow256Of32()
    ensures Pow256(32) == 0x1_0000_0000_0000_0000_0000_0000_0000_0000_0000_0000_0000_0000_0000_0000_0000_0000
  {
    Pow256Of31();
    hide Pow256;
    Pow256Add(31, 1);
    assert Pow256(1) == 0x100 by { Pow256Of1(); }
  }

  lemma Pow256Of1()
    ensures Pow256(1) == 0x100
  {
  }
}
