/** Poly1305: the carry-lazy block arithmetic and the incremental interface. */
module Poly1305 {
  import opened Machine
  import opened Arithmetic
  import opened ByteStrings
  import opened Bits
  import opened WordNumbers

  /** 2^130 - 5. */
  const PRIME: int := 0x3_ffff_ffff_ffff_ffff_ffff_ffff_ffff_fffb

  function Mod(x: int): (r: int)
    ensures 0 <= r < PRIME
  {
    x % 0x3_ffff_ffff_ffff_ffff_ffff_ffff_ffff_fffb
  }

  datatype Key = Key(r0: u32, r1: u32, r2: u32, r3: u32) {
    /** r has some of its bits cleared. */
    predicate Clamped() {
      r0 <= 0x0fff_ffff && r1 <= 0x0fff_fffc && r2 <= 0x0fff_fffc && r3 <= 0x0fff_fffc
      && r1 % 4 == 0 && r2 % 4 == 0 && r3 % 4 == 0
    }

    function Value(): int {
      r0 as int + 0x1_0000_0000 * r1 as int + 0x1_0000_0000_0000_0000 * r2 as int + 0x1_0000_0000_0000_0000_0000_0000 * r3 as int
    }
  }

  datatype Hash = Hash(h0: u32, h1: u32, h2: u32, h3: u32, h4: u32) {
    function Value(): int {
      h0 as int + 0x1_0000_0000 * h1 as int + 0x1_0000_0000_0000_0000 * h2 as int
      + 0x1_0000_0000_0000_0000_0000_0000 * h3 as int + 0x1_0000_0000_0000_0000_0000_0000_0000_0000 * h4 as int
    }

    /** h <= 4_ffffffff_ffffffff_ffffffff_ffffffff. */
    predicate Ok() { h4 <= 4 }
  }

  function Times(a: int, b: int): int { a * b }

  /** A 33-bit sum times a reduced key word. */
  function Wide(s: u64, m: u32): (x: u64)
    requires s <= 0x1_ffff_fffe && m <= 0x13ff_fffb
    ensures x as int == Times(s as int, m as int)
    ensures x <= 0x27ff_fff5_d800_000a
    ensures m <= 0x0fff_ffff ==> x <= 0x1fff_fffd_e000_0002
  {
    WideBound(s as int, m as int);
    Times(s as int, m as int) as u64
  }

  lemma WideBound(s: int, m: int)
    requires 0 <= s <= 0x1_ffff_fffe && 0 <= m <= 0x13ff_fffb
    ensures 0 <= Times(s, m) <= 0x27ff_fff5_d800_000a
    ensures m <= 0x0fff_ffff ==> Times(s, m) <= 0x1fff_fffd_e000_0002
  {
    MulBound(s, m, 0x1_ffff_fffe, 0x13ff_fffb);
    if m <= 0x0fff_ffff { MulBound(s, m, 0x1_ffff_fffe, 0x0fff_ffff); }
  }

  function Narrow(s: u32, m: u32): (x: u32)
    requires s <= 5 && m <= 0x13ff_fffb
    ensures x as int == Times(s as int, m as int)
    ensures x <= 0x63ff_ffe7 && (m <= 3 ==> x <= 15)
  {
    NarrowBound(s as int, m as int);
    Times(s as int, m as int) as u32
  }

  lemma NarrowBound(s: int, m: int)
    requires 0 <= s <= 5 && 0 <= m <= 0x13ff_fffb
    ensures 0 <= Times(s, m) <= 0x63ff_ffe7 && (m <= 3 ==> Times(s, m) <= 15)
  {
    MulBound(s, m, 5, 0x13ff_fffb);
    if m <= 3 { MulBound(s, m, 5, 3); }
  }

  datatype Sums = Sums(x0: u64, x1: u64, x2: u64, x3: u64, x4: u32)

  /** The product of h + c and r, its carries not yet passed on. */
  function Multiply(s0: u64, s1: u64, s2: u64, s3: u64, s4: u32, r: Key): (x: Sums)
    requires s0 <= 0x1_ffff_fffe && s1 <= 0x1_ffff_fffe && s2 <= 0x1_ffff_fffe && s3 <= 0x1_ffff_fffe && s4 <= 5
    requires r.Clamped()
    ensures x.x3 < 0x8000_0000_0000_0000 && x.x4 <= 15
  {
    var rr0 := (r.r0 / 4) * 5;
    var rr1 := (r.r1 / 4) + r.r1;
    var rr2 := (r.r2 / 4) + r.r2;
    var rr3 := (r.r3 / 4) + r.r3;
    var rr4 := r.r0 % 4;
    var x0 := Wide(s0, r.r0) + Wide(s1, rr3) + Wide(s2, rr2) + Wide(s3, rr1) + Narrow(s4, rr0) as u64;
    var x1 := Wide(s0, r.r1) + Wide(s1, r.r0) + Wide(s2, rr3) + Wide(s3, rr2) + Narrow(s4, rr1) as u64;
    var x2 := Wide(s0, r.r2) + Wide(s1, r.r1) + Wide(s2, r.r0) + Wide(s3, rr3) + Narrow(s4, rr2) as u64;
    var x3 := Wide(s0, r.r3) + Wide(s1, r.r2) + Wide(s2, r.r1) + Wide(s3, r.r0) + Narrow(s4, rr3) as u64;
    var x4 := Narrow(s4, rr4);
    Sums(x0, x1, x2, x3, x4)
  }

  function SumsValue(x: Sums): int {
    x.x0 as int + 0x1_0000_0000 * x.x1 as int + 0x1_0000_0000_0000_0000 * x.x2 as int
    + 0x1_0000_0000_0000_0000_0000_0000 * x.x3 as int + 0x1_0000_0000_0000_0000_0000_0000_0000_0000 * x.x4 as int
  }

  function Spread(s0: int, s1: int, s2: int, s3: int, s4: int): int {
    s0 + 0x1_0000_0000 * s1 + 0x1_0000_0000_0000_0000 * s2
    + 0x1_0000_0000_0000_0000_0000_0000 * s3 + 0x1_0000_0000_0000_0000_0000_0000_0000_0000 * s4
  }

  /** Multiples of 2^130 - 5 that the rr words drop. */
  function Dropped(s1: int, s2: int, s3: int, s4: int, r: Key): int {
    var q0, q1, q2, q3 := r.r0 as int / 4, r.r1 as int / 4, r.r2 as int / 4, r.r3 as int / 4;
    Spread(Times(s1, q3) + Times(s2, q2) + Times(s3, q1) + Times(s4, q0),
           Times(s2, q3) + Times(s3, q2) + Times(s4, q1), Times(s3, q3) + Times(s4, q2), Times(s4, q3), 0)
  }

  lemma TimesSplits(s: int, q: int, c: int)
    ensures Times(s, q + 4 * q) == 5 * Times(s, q) && Times(s, q * 5) == 5 * Times(s, q)
    ensures Times(s, 4 * q + c) == 4 * Times(s, q) + Times(s, c)
    ensures Times(s, 4 * q) == 4 * Times(s, q)
  {
  }

  lemma TimesSpread(s: int, r0: int, r1: int, r2: int, r3: int, r4: int)
    ensures Times(s, Spread(r0, r1, r2, r3, r4)) == Spread(Times(s, r0), Times(s, r1), Times(s, r2), Times(s, r3), Times(s, r4))
    ensures Times(Spread(r0, r1, r2, r3, r4), s) == Spread(Times(r0, s), Times(r1, s), Times(r2, s), Times(r3, s), Times(r4, s))
    ensures Times(s, 0) == 0
  {
  }

  /** The key words split at two bits: r_j = 4 q_j, except r_0 = 4 q_0 + c. */
  lemma ProductSplits(s: int, q0: int, c: int, q1: int, q2: int, q3: int)
    ensures Times(s, Spread(4 * q0 + c, 4 * q1, 4 * q2, 4 * q3, 0))
         == 4 * Spread(Times(s, q0), Times(s, q1), Times(s, q2), Times(s, q3), 0) + Times(s, c)
  {
    TimesSpread(s, 4 * q0 + c, 4 * q1, 4 * q2, 4 * q3, 0);
    TimesSplits(s, q0, c); TimesSplits(s, q1, 0); TimesSplits(s, q2, 0); TimesSplits(s, q3, 0);
    hide Times;
  }

  lemma MultiplyTerms(s0: u64, s1: u64, s2: u64, s3: u64, s4: u32, r: Key)
    requires s0 <= 0x1_ffff_fffe && s1 <= 0x1_ffff_fffe && s2 <= 0x1_ffff_fffe && s3 <= 0x1_ffff_fffe && s4 <= 5
    requires r.Clamped()
    ensures
      var q0, q1, q2, q3, c := r.r0 as int / 4, r.r1 as int / 4, r.r2 as int / 4, r.r3 as int / 4, r.r0 as int % 4;
      var a0, a1, a2, a3, a4 := s0 as int, s1 as int, s2 as int, s3 as int, s4 as int;
      var x := Multiply(s0, s1, s2, s3, s4, r);
      x.x0 as int == 4 * Times(a0, q0) + Times(a0, c) + 5 * (Times(a1, q3) + Times(a2, q2) + Times(a3, q1) + Times(a4, q0))
      && x.x1 as int == 4 * (Times(a0, q1) + Times(a1, q0)) + Times(a1, c) + 5 * (Times(a2, q3) + Times(a3, q2) + Times(a4, q1))
      && x.x2 as int == 4 * (Times(a0, q2) + Times(a1, q1) + Times(a2, q0)) + Times(a2, c) + 5 * (Times(a3, q3) + Times(a4, q2))
      && x.x3 as int == 4 * (Times(a0, q3) + Times(a1, q2) + Times(a2, q1) + Times(a3, q0)) + Times(a3, c) + 5 * Times(a4, q3)
      && x.x4 as int == Times(a4, c)
  {
    var q0, q1, q2, q3, c := r.r0 as int / 4, r.r1 as int / 4, r.r2 as int / 4, r.r3 as int / 4, r.r0 as int % 4;
    assert r.r1 as int == 4 * q1 && r.r2 as int == 4 * q2 && r.r3 as int == 4 * q3 && r.r0 as int == 4 * q0 + c;
    hide Times;
    forall s | s in {s0 as int, s1 as int, s2 as int, s3 as int, s4 as int}
      ensures Times(s, q0 * 5) == 5 * Times(s, q0) && Times(s, 4 * q0 + c) == 4 * Times(s, q0) + Times(s, c)
      ensures Times(s, q1 + 4 * q1) == 5 * Times(s, q1) && Times(s, 4 * q1) == 4 * Times(s, q1)
      ensures Times(s, q2 + 4 * q2) == 5 * Times(s, q2) && Times(s, 4 * q2) == 4 * Times(s, q2)
      ensures Times(s, q3 + 4 * q3) == 5 * Times(s, q3) && Times(s, 4 * q3) == 4 * Times(s, q3)
    {
      TimesSplits(s, q0, c); TimesSplits(s, q1, c); TimesSplits(s, q2, c); TimesSplits(s, q3, c);
    }
  }

  /** The carry-free product stands for (h + c) * r, modulo 2^130 - 5. */
  lemma MultiplyValue(s0: u64, s1: u64, s2: u64, s3: u64, s4: u32, r: Key)
    requires s0 <= 0x1_ffff_fffe && s1 <= 0x1_ffff_fffe && s2 <= 0x1_ffff_fffe && s3 <= 0x1_ffff_fffe && s4 <= 5
    requires r.Clamped()
    ensures SumsValue(Multiply(s0, s1, s2, s3, s4, r))
         == Times(Spread(s0 as int, s1 as int, s2 as int, s3 as int, s4 as int), r.Value())
            - PRIME * Dropped(s1 as int, s2 as int, s3 as int, s4 as int, r)
  {
    var q0, q1, q2, q3, c := r.r0 as int / 4, r.r1 as int / 4, r.r2 as int / 4, r.r3 as int / 4, r.r0 as int % 4;
    assert r.Value() == Spread(4 * q0 + c, 4 * q1, 4 * q2, 4 * q3, 0);
    MultiplyTerms(s0, s1, s2, s3, s4, r);
    hide Times, Multiply, Key.Clamped, Key.Value;
    TimesSpread(r.Value(), s0 as int, s1 as int, s2 as int, s3 as int, s4 as int);
    forall s | s in {s0 as int, s1 as int, s2 as int, s3 as int, s4 as int}
      ensures Times(s, r.Value()) == 4 * Spread(Times(s, q0), Times(s, q1), Times(s, q2), Times(s, q3), 0) + Times(s, c)
    {
      ProductSplits(s, q0, c, q1, q2, q3);
    }
  }

  /** One folding of the product below 2^130, up to a small excess. */
  function Reduce(x: Sums): (h: Hash)
    requires x.x3 < 0x8000_0000_0000_0000 && x.x4 <= 15
    ensures h.Ok()
    ensures h.Value() == SumsValue(x) - PRIME * ((x.x4 as int + x.x3 as int / 0x1_0000_0000) / 4)
  {
    var u5 := x.x4 + (x.x3 / 0x1_0000_0000) as u32;
    var u0 := ((u5 / 4) * 5) as u64 + x.x0 % 0x1_0000_0000;
    var u1 := u0 / 0x1_0000_0000 + x.x1 % 0x1_0000_0000 + x.x0 / 0x1_0000_0000;
    var u2 := u1 / 0x1_0000_0000 + x.x2 % 0x1_0000_0000 + x.x1 / 0x1_0000_0000;
    var u3 := u2 / 0x1_0000_0000 + x.x3 % 0x1_0000_0000 + x.x2 / 0x1_0000_0000;
    var u4 := (u3 / 0x1_0000_0000) as u32 + u5 % 4;
    Hash((u0 % 0x1_0000_0000) as u32, (u1 % 0x1_0000_0000) as u32, (u2 % 0x1_0000_0000) as u32, (u3 % 0x1_0000_0000) as u32, u4)
  }

  /** One pass of the loop in poly_blocks over the block words m0..m3: h = (h + c) * r. */
  function BlockStep(h: Hash, m0: u32, m1: u32, m2: u32, m3: u32, end: u32, r: Key): (h': Hash)
    requires h.Ok() && end <= 1 && r.Clamped()
    ensures h'.Ok()
  {
    var s0 := h.h0 as u64 + m0 as u64;
    var s1 := h.h1 as u64 + m1 as u64;
    var s2 := h.h2 as u64 + m2 as u64;
    var s3 := h.h3 as u64 + m3 as u64;
    var s4 := h.h4 + end;
    Reduce(Multiply(s0, s1, s2, s3, s4, r))
  }

  /** h + c, and the multiple of 2^130 - 5 that one step drops. */
  function Sum(h: Hash, m0: u32, m1: u32, m2: u32, m3: u32, end: u32): int {
    h.Value() + Spread(m0 as int, m1 as int, m2 as int, m3 as int, end as int)
  }

  lemma BlockStepExact(h: Hash, m0: u32, m1: u32, m2: u32, m3: u32, end: u32, r: Key) returns (k: int, l: int)
    requires h.Ok() && end <= 1 && r.Clamped()
    ensures BlockStep(h, m0, m1, m2, m3, end, r).Value() == Times(Sum(h, m0, m1, m2, m3, end), r.Value()) - PRIME * k - PRIME * l
  {
    hide Multiply, Reduce, Times, Dropped, Key.Value, Key.Clamped, SumsValue, Spread, Hash.Value, Sum;
    var s0, s1, s2, s3, s4 := h.h0 as u64 + m0 as u64, h.h1 as u64 + m1 as u64, h.h2 as u64 + m2 as u64, h.h3 as u64 + m3 as u64, h.h4 + end;
    var x := Multiply(s0, s1, s2, s3, s4, r);
    SumIsSpread(h, m0, m1, m2, m3, end);
    MultiplyValue(s0, s1, s2, s3, s4, r);
    k := Dropped(s1 as int, s2 as int, s3 as int, s4 as int, r);
    l := (x.x4 as int + x.x3 as int / 0x1_0000_0000) / 4;
  }

  lemma SumIsSpread(h: Hash, m0: u32, m1: u32, m2: u32, m3: u32, end: u32)
    ensures Sum(h, m0, m1, m2, m3, end)
         == Spread(h.h0 as int + m0 as int, h.h1 as int + m1 as int, h.h2 as int + m2 as int, h.h3 as int + m3 as int, h.h4 as int + end as int)
  {
  }

  lemma BlockStepValue(h: Hash, m0: u32, m1: u32, m2: u32, m3: u32, end: u32, r: Key)
    requires h.Ok() && end <= 1 && r.Clamped()
    ensures Mod(BlockStep(h, m0, m1, m2, m3, end, r).Value()) == Mod(Sum(h, m0, m1, m2, m3, end) * r.Value())
  {
    hide BlockStep, Sum, Hash.Value, Key.Value;
    var k, l := BlockStepExact(h, m0, m1, m2, m3, end, r);
    DropPrime(Times(Sum(h, m0, m1, m2, m3, end), r.Value()), k, l);
  }

  lemma DropPrime(x: int, k: int, l: int)
    ensures Mod(x - PRIME * k - PRIME * l) == Mod(x)
  {
    AddMultiple(x, -k - l, PRIME);
  }

  // ---- The polynomial of section 2.5 of RFC 8439 ----

  /** A block of at most 16 bytes with the extra one byte appended. */
  function BlockNat(block: bytes): int { LeNat(block) + Pow256(|block|) }

  function Round(acc: int, n: int, r: int): int { Mod((acc + n) * r) }

  /** The accumulator after a message: each block is added, then multiplied by r. */
  function Absorb(acc: int, r: int, msg: bytes): int
    decreases |msg|
  {
    if msg == [] then acc
    else
      var n := Min(16, |msg|);
      Absorb(Round(acc, BlockNat(msg[..n]), r), r, msg[n..])
  }

  // ---- As a polynomial ----

  function Power(r: int, n: nat): int { if n == 0 then 1 else r * Power(r, n - 1) }

  /** The number of blocks, the last one perhaps short. */
  function Blocks16(msg: bytes): nat { (|msg| + 15) / 16 }

  /** The sum of every block, read as a number with a one byte behind, times r to the number of blocks from it to the end. */
  function Polynomial(r: int, msg: bytes): int
    decreases |msg|
  {
    if msg == [] then 0
    else
      var n := Min(16, |msg|);
      LeNat(msg[..n] + [1]) * Power(r, Blocks16(msg)) + Polynomial(r, msg[n..])
  }

  /** What absorbing a message computes is that polynomial modulo 2^130 - 5. */
  lemma AbsorbIsPolynomial(r: int, msg: bytes)
    ensures Absorb(0, r, msg) == Mod(Polynomial(r, msg))
  {
    hide Absorb, Polynomial;
    AbsorbFrom(0, r, msg);
    ZeroTerm(Power(r, Blocks16(msg)));
  }

  lemma ZeroTerm(x: int)
    ensures 0 * x == 0 && 0 <= 0 < PRIME && Mod(0) == 0
  {
  }

  lemma {:induction false} AbsorbFrom(acc: int, r: int, msg: bytes)
    requires 0 <= acc < PRIME
    ensures Absorb(acc, r, msg) == Mod(acc * Power(r, Blocks16(msg)) + Polynomial(r, msg))
    decreases |msg|
  {
    hide Mod, BlockNat, Power, Absorb, Polynomial, Blocks16, Round;
    if msg == [] {
      NothingAbsorbed(acc, r, msg);
    } else {
      var n := Min(16, |msg|);
      var rest, c := msg[n..], BlockNat(msg[..n]);
      var next, k := Round(acc, c, r), Blocks16(rest);
      FirstAbsorbed(acc, r, msg);
      RoundRange(acc, c, r);
      AbsorbFrom(next, r, rest);
      RoundThenPower(acc, c, r, Power(r, k), Power(r, k + 1), Polynomial(r, rest));
    }
  }

  lemma NothingAbsorbed(acc: int, r: int, msg: bytes)
    requires 0 <= acc < PRIME && |msg| == 0
    ensures Absorb(acc, r, msg) == acc && acc * Power(r, Blocks16(msg)) + Polynomial(r, msg) == acc && Mod(acc) == acc
  {
    NoPower(acc, r);
  }

  lemma FirstAbsorbed(acc: int, r: int, msg: bytes)
    requires msg != []
    ensures
      var n := Min(16, |msg|);
      var rest, c := msg[n..], BlockNat(msg[..n]);
      var k := Blocks16(rest);
      && Absorb(acc, r, msg) == Absorb(Round(acc, c, r), r, rest)
      && Blocks16(msg) == k + 1 && Power(r, k + 1) == r * Power(r, k)
      && Polynomial(r, msg) == c * Power(r, k + 1) + Polynomial(r, rest)
  {
    hide BlockNat, Round, Power;
    var n := Min(16, |msg|);
    OneByteBehind(msg[..n]);
    OneLess(|msg|);
    RaisePower(r, Blocks16(msg[n..]));
  }

  lemma OneLess(len: nat)
    requires len > 0
    ensures (len + 15) / 16 == (len - Min(16, len) + 15) / 16 + 1
  {
  }

  lemma NoPower(acc: int, r: int)
    requires 0 <= acc < PRIME
    ensures Power(r, 0) == 1 && acc * 1 == acc && Mod(acc) == acc
  {
  }

  lemma RaisePower(r: int, k: nat)
    ensures Power(r, k + 1) == r * Power(r, k)
  {
  }

  lemma RoundRange(acc: int, n: int, r: int)
    ensures 0 <= Round(acc, n, r) < PRIME
  {
  }

  lemma OneByteBehind(block: bytes)
    ensures LeNat(block + [1]) == BlockNat(block)
  {
    LeNatConcat(block, [1]);
    assert LeNat([1]) == 1 + 0x100 * LeNat([1][1..]) && [1][1..] == [];
  }

  lemma RoundThenPower(acc: int, c: int, r: int, w: int, v: int, rest: int)
    requires v == r * w
    ensures Mod(Round(acc, c, r) * w + rest) == Mod(acc * v + (c * v + rest))
  {
    hide Mod;
    var x := (acc + c) * r;
    ModIs(x); ModIs(Round(acc, c, r) * w + rest); ModIs(x * w + rest); ModIs(acc * v + (c * v + rest));
    ProductThenSum(x, w, rest, PRIME);
    Redistribute(acc, c, r, w);
  }

  lemma ModIs(x: int)
    ensures Mod(x) == x % PRIME
  {
  }

  lemma ProductThenSum(x: int, w: int, rest: int, m: int)
    requires m > 0
    ensures ((x % m) * w + rest) % m == (x * w + rest) % m
  {
    MulModLeft(x, w, m);
    AddAfterMod((x % m) * w, rest, m);
    AddAfterMod(x * w, rest, m);
  }

  lemma Redistribute(acc: int, c: int, r: int, w: int)
    ensures ((acc + c) * r) * w == acc * (r * w) + c * (r * w)
  {
  }

  lemma {:induction false} AbsorbConcat(acc: int, r: int, a: bytes, b: bytes)
    requires |a| % 16 == 0
    ensures Absorb(acc, r, a + b) == Absorb(Absorb(acc, r, a), r, b)
    decreases |a|
  {
    hide Round, BlockNat;
    if a == [] {
      assert a + b == b;
    } else {
      assert (a + b)[..16] == a[..16] && (a + b)[16..] == a[16..] + b;
      AbsorbConcat(Round(acc, BlockNat(a[..16]), r), r, a[16..], b);
    }
  }

  lemma AbsorbBlock(acc: int, r: int, a: bytes)
    requires 0 < |a| <= 16
    ensures Absorb(acc, r, a) == Round(acc, BlockNat(a), r)
  {
    assert a[..|a|] == a && a[|a|..] == [];
  }

  /** The tag: the accumulator plus s, modulo 2^128. */
  function Tag(r: int, s: int, msg: bytes): bytes {
    LeBytes((Absorb(0, r, msg) + s) % 0x1_0000_0000_0000_0000_0000_0000_0000_0000, 16)
  }

  const TWO128: int := 0x1_0000_0000_0000_0000_0000_0000_0000_0000

  lemma Load128(s: bytes, i: nat)
    requires i + 16 <= |s|
    ensures LeNat(s[i..i + 16])
         == Spread(Load32(s, i) as int, Load32(s, i + 4) as int, Load32(s, i + 8) as int, Load32(s, i + 12) as int, 0)
  {
    assert s[i..] == s[i..i + 16] + s[i + 16..];
    LeNatConcat(s[i..i + 16], s[i + 16..]);
    Pow256Of16();
    assert Tail(s, i) == LeNat(s[i..i + 16]) + TWO128 * Tail(s, i + 16);
    hide Load32, Tail, LeNat, Pow256;
    Split4(s, i); Split4(s, i + 4); Split4(s, i + 8); Split4(s, i + 12);
  }

  lemma Pow256Of16()
    ensures Pow256(16) == TWO128
  {
    assert Pow256(8) == 0x1_0000_0000_0000_0000;
    hide Pow256;
    Pow256Add(8, 8);
  }

  /** One step read as the specification reads it: add the block and the end bit, multiply by r. */
  lemma StepIsRound(h: Hash, input: bytes, i: nat, end: u32, r: Key)
    requires i + 16 <= |input| && h.Ok() && end <= 1 && r.Clamped()
    ensures
      var h' := BlockStep(h, Load32(input, i), Load32(input, i + 4), Load32(input, i + 8), Load32(input, i + 12), end, r);
      Mod(h'.Value()) == Round(Mod(h.Value()), LeNat(input[i..i + 16]) + end as int * TWO128, r.Value())
  {
    hide BlockStep, Hash.Value, Key.Value, Key.Clamped, LeNat, Load32;
    var m0, m1, m2, m3 := Load32(input, i), Load32(input, i + 4), Load32(input, i + 8), Load32(input, i + 12);
    BlockStepValue(h, m0, m1, m2, m3, end, r);
    Load128(input, i);
    var n := LeNat(input[i..i + 16]) + end as int * TWO128;
    assert Sum(h, m0, m1, m2, m3, end) == h.Value() + n;
    hide Sum, Spread;
    SumProductMod(h.Value(), n, r.Value(), PRIME);
  }

  /** The accumulator after nb whole blocks, each with the given end bit. */
  function Rounds(acc: int, r: int, input: bytes, nb: nat, end: int): int
    requires 16 * nb <= |input|
  {
    if nb == 0 then acc
    else Round(Rounds(acc, r, input, nb - 1, end), LeNat(input[16 * (nb - 1)..16 * nb]) + end * TWO128, r)
  }

  lemma {:induction false} RoundsAreAbsorb(acc: int, r: int, input: bytes, nb: nat)
    requires 16 * nb <= |input|
    ensures Rounds(acc, r, input, nb, 1) == Absorb(acc, r, input[..16 * nb])
  {
    hide Round, LeNat, Pow256;
    if nb > 0 {
      RoundsAreAbsorb(acc, r, input, nb - 1);
      var a, b := input[..16 * (nb - 1)], input[16 * (nb - 1)..16 * nb];
      assert input[..16 * nb] == a + b;
      AbsorbConcat(acc, r, a, b);
      AbsorbBlock(Absorb(acc, r, a), r, b);
      Pow256Of16();
    }
  }

  lemma EmptyPolynomial(r: Key, none: bytes)
    requires |none| == 0
    ensures Holds(ZERO, r, none) && ZERO.Ok()
  {
    hide Mod, Absorb, Hash.Value, Key.Value;
    ZeroHash();
    AbsorbNothing(r.Value(), none);
  }

  lemma ZeroHash()
    ensures ZERO.Value() == 0 && Mod(0) == 0
  {
  }

  lemma AbsorbNothing(r: int, none: bytes)
    requires |none| == 0
    ensures Absorb(0, r, none) == 0
  {
  }

  /** h is the polynomial of the given whole blocks. */
  ghost predicate Holds(h: Hash, r: Key, blocks: bytes) {
    Mod(h.Value()) == Absorb(0, r.Value(), blocks)
  }

  lemma HoldsMore(h: Hash, h': Hash, r: Key, blocks: bytes, input: bytes, nb: nat)
    requires Holds(h, r, blocks) && |blocks| % 16 == 0 && 16 * nb <= |input|
    requires Mod(h'.Value()) == Rounds(Mod(h.Value()), r.Value(), input, nb, 1)
    ensures Holds(h', r, blocks + input[..16 * nb])
  {
    hide Mod, Hash.Value, Key.Value, Rounds, Absorb;
    RoundsAreAbsorb(Mod(h.Value()), r.Value(), input, nb);
    AbsorbConcat(0, r.Value(), blocks, input[..16 * nb]);
  }

  /** A chunk under way or a rest, not both: where the message is cut after whole blocks. */
  lemma LastPieces(blocks: bytes, held: bytes, rest: bytes, k: nat)
    requires k <= |rest| && k % 16 == 0 && |blocks| % 16 == 0 && (|held| == 0 || |rest| == 0)
    ensures
      var m, tail := blocks + held + rest, held + rest[k..];
      && |tail| <= |m| && m[|m| - |tail|..] == tail && m[..|m| - |tail|] == blocks + rest[..k] && (|m| - |tail|) % 16 == 0
  {
    var m, tail := blocks + held + rest, held + rest[k..];
    assert m == (blocks + rest[..k]) + tail by { Regroup(blocks, held, rest[..k], rest[k..]); assert rest == rest[..k] + rest[k..]; }
  }

  lemma Regroup(blocks: bytes, held: bytes, head: bytes, tail: bytes)
    requires held == [] || head + tail == []
    ensures blocks + held + (head + tail) == (blocks + head) + (held + tail)
  {
  }

  const ZERO: Hash := Hash(0, 0, 0, 0, 0)

  class Context {
    const c: array<u8>
    var cIdx: nat
    var r: Key
    var pad: seq<u32>
    var h: Hash
    ghost var msg: bytes  // everything absorbed so far

    /** The chunk holds the unprocessed tail of the message, and h the polynomial of the rest. */
    ghost predicate Valid()
      reads this, c
    {
      c.Length == 16 && cIdx < 16 && |pad| == 4 && r.Clamped() && h.Ok()
      && cIdx <= |msg| && (|msg| - cIdx) % 16 == 0
      && c[..cIdx] == msg[|msg| - cIdx..]
      && Holds(h, r, msg[..|msg| - cIdx])
    }

    constructor ()
      ensures c.Length == 16 && fresh(c)
    {
      c := new u8[16];
    }

    /** crypto_poly1305_init. */
    method Init(key: bytes)
      requires |key| == 32 && c.Length == 16
      modifies this
      ensures Valid() && msg == []
      ensures r == KeyWords(key) && pad == PadWords(key)
    {
      hide Holds, KeyWords, PadWords, Key.Clamped, Hash.Ok;
      h := ZERO;
      cIdx := 0;
      r := KeyWords(key);
      pad := PadWords(key);
      msg := [];
      EmptyPolynomial(r, msg[..0]);
    }

    /** poly_blocks. */
    method Blocks(input: bytes, nb: nat, end: u32)
      requires 16 * nb <= |input| && end <= 1 && r.Clamped() && h.Ok()
      modifies this`h
      ensures h.Ok()
      ensures Mod(h.Value()) == Rounds(Mod(old(h.Value())), r.Value(), input, nb, end as int)
    {
      hide BlockStep, Hash.Value, Key.Value, Key.Clamped, Round, LeNat;
      for i := 0 to nb
        invariant h.Ok()
        invariant Mod(h.Value()) == Rounds(Mod(old(h.Value())), r.Value(), input, i, end as int)
      {
        var p := 16 * i;
        StepIsRound(h, input, p, end, r);
        h := BlockStep(h, Load32(input, p), Load32(input, p + 4), Load32(input, p + 8), Load32(input, p + 12), end, r);
      }
    }

    /** Copies bytes into the chunk. */
    method Fill(x: bytes)
      requires c.Length == 16 && cIdx + |x| <= 16
      modifies this`cIdx, c
      ensures cIdx == old(cIdx) + |x| && c[..cIdx] == old(c[..cIdx]) + x
    {
      ghost var was, start := c[..cIdx], cIdx;
      for i := 0 to |x|
        invariant cIdx == start + i && c[..cIdx] == was + x[..i]
      {
        c[cIdx] := x[i];
        cIdx := cIdx + 1;
        assert c[..cIdx] == was + x[..i] + [x[i]];
      }
    }

    /** crypto_poly1305_update: whatever the chunk already holds, the context afterwards
        depends only on the concatenation of everything absorbed. */
    method Update(message: bytes)
      requires Valid()
      modifies this`cIdx, this`h, this`msg, c
      ensures Valid() && msg == old(msg) + message
    {
      hide Holds, Key.Clamped, Hash.Ok, Key.Value, Hash.Value, Mod, Rounds, Gap, Absorb, LeNat, Pow256;
      if |message| == 0 {
        assert message == [];
        return;
      }
      // The chunk under way
      var aligned := Min(Gap(cIdx, 16), |message|);
      ghost var blocks := Align(message[..aligned]);
      assert message == message[..aligned] + message[aligned..];
      // Whole blocks
      var rest := message[aligned..];
      var nb := |rest| / 16;
      ghost var h1 := h;
      Blocks(rest, nb, 1);
      HoldsMore(h1, h, r, blocks, rest, nb);
      // The tail, shorter than a block
      Finish(rest, nb, blocks);
    }

    /** Completes the chunk as far as the message allows, and processes it if it is complete. */
    method Align(first: bytes) returns (ghost blocks: bytes)
      requires Valid() && cIdx + |first| <= 16
      modifies this`cIdx, this`h, this`msg, c
      ensures c.Length == 16 && cIdx == (old(cIdx) + |first|) % 16 && h.Ok()
      ensures |blocks| % 16 == 0 && msg == old(msg) + first && msg == blocks + c[..cIdx] && Holds(h, r, blocks)
    {
      hide Holds, Key.Clamped, Hash.Ok, Key.Value, Hash.Value, Mod, Rounds;
      blocks := msg[..|msg| - cIdx];
      ghost var tail := msg[|msg| - cIdx..];
      assert msg == blocks + tail;
      Fill(first);
      msg := msg + first;
      assert msg == blocks + c[..cIdx];
      // A chunk of 16 bytes is absorbed at once
      if cIdx == 16 {
        ghost var h0 := h;
        assert c[..16] == c[..] && c[..][..16] == c[..];
        Blocks(c[..], 1, 1);
        HoldsMore(h0, h, r, blocks, c[..], 1);
        blocks := blocks + c[..];
        cIdx := 0;
        assert c[..0] == [];
      }
    }

    method Finish(rest: bytes, nb: nat, ghost blocks: bytes)
      requires c.Length == 16 && |pad| == 4 && r.Clamped() && h.Ok() && nb == |rest| / 16
      requires cIdx < 16 && (cIdx == 0 || |rest| == 0)
      requires |blocks| % 16 == 0 && msg == blocks + c[..cIdx] && Holds(h, r, blocks + rest[..16 * nb])
      modifies this`cIdx, this`msg, c
      ensures Valid() && msg == old(msg) + rest
    {
      hide Holds, Key.Clamped, Hash.Ok, Absorb, Mod, Key.Value, Hash.Value;
      ghost var held := c[..cIdx];
      LastPieces(blocks, held, rest, 16 * nb);
      Fill(rest[16 * nb..]);
      msg := msg + rest;
    }

    /** The last block, with the end bit inside the chunk, if the message does not end on a block boundary. */
    method LastBlock()
      requires Valid()
      modifies this`h, c
      ensures h.Ok() && Mod(h.Value()) == Absorb(0, r.Value(), msg)
    {
      hide Absorb, LeNat, Rounds, Round, Key.Clamped, Hash.Ok, Key.Value, Hash.Value, Mod, BlockNat, Pow256;
      ghost var h0 := h;
      ghost var blocks, tail := msg[..|msg| - cIdx], msg[|msg| - cIdx..];
      assert msg == blocks + tail;
      if cIdx != 0 {
        for i := cIdx to 16
          invariant h == h0 && c[..cIdx] == tail && forall j | cIdx <= j < i :: c[j] == 0
        {
          c[i] := 0;
        }
        c[cIdx] := 1;
        assert c[..][..cIdx] == tail;
        PaddedBlock(c[..], tail);
        OneRound(Mod(h.Value()), r.Value(), c[..]);
        Blocks(c[..], 1, 0);
        AbsorbConcat(0, r.Value(), blocks, tail);
        AbsorbBlock(Absorb(0, r.Value(), blocks), r.Value(), tail);
      } else {
        assert blocks == msg;
      }
    }

    /** crypto_poly1305_final: the tag of section 2.5.1 of RFC 8439 of everything absorbed. */
    method Final(mac: array<u8>)
      requires Valid() && mac.Length == 16 && mac != c
      modifies this`h, c, mac
      ensures mac[..] == Tag(r.Value(), Num(pad), msg)
    {
      hide Absorb, LeNat, LeBytes, Num, Key.Clamped, Hash.Ok, Key.Value, Hash.Value, Mod, Holds;
      LastBlock();
      Finalize(mac, h, pad);
      LeBytesOfNat(mac[..]);
    }
  }

  /** The chunk a final partial block is padded to reads as the block with its one byte. */
  lemma PaddedBlock(chunk: bytes, tail: bytes)
    requires |chunk| == 16 && 0 < |tail| < 16 && chunk[..|tail|] == tail
    requires chunk[|tail|] == 1 && forall j | |tail| < j < 16 :: chunk[j] == 0
    ensures LeNat(chunk) == BlockNat(tail)
  {
    hide LeNat, Pow256;
    var rest := chunk[|tail|..];
    assert chunk == tail + rest;
    LeNatConcat(tail, rest);
    OneThenZeros(rest);
  }

  lemma OneThenZeros(s: bytes)
    requires s != [] && s[0] == 1 && forall j | 0 < j < |s| :: s[j] == 0
    ensures LeNat(s) == 1
  {
    LeNatZeros(s[1..]);
  }

  lemma OneRound(acc: int, r: int, chunk: bytes)
    requires |chunk| == 16
    ensures Rounds(acc, r, chunk, 1, 0) == Round(acc, LeNat(chunk), r)
  {
    assert chunk[0..16] == chunk;
    assert Rounds(acc, r, chunk, 0, 0) == acc;
  }

  lemma FourWords(w: seq<u32>)
    requires |w| == 4
    ensures Num(w) == w[0] as int + 0x1_0000_0000 * w[1] as int + 0x1_0000_0000_0000_0000 * w[2] as int
                      + 0x1_0000_0000_0000_0000_0000_0000 * w[3] as int
    ensures Base(4) == 0x1_0000_0000_0000_0000_0000_0000_0000_0000
  {
    assert Num(w) == w[0] as int + 0x1_0000_0000 * Num(w[1..]);
    assert Num(w[1..]) == w[1] as int + 0x1_0000_0000 * Num(w[2..]) by { assert w[1..][1..] == w[2..]; }
    assert Num(w[2..]) == w[2] as int + 0x1_0000_0000 * Num(w[3..]) by { assert w[2..][1..] == w[3..]; }
    assert Num(w[3..]) == w[3] as int by { assert w[3..][1..] == []; }
  }

  /** How many times 2^130 - 5 is to be subtracted (0 or 1), times 5. */
  method Subtractions(h: Hash) returns (c: u64)
    requires h.Ok()
    ensures c as int == if h.Value() >= PRIME then 5 else 0
  {
    hide Num, Base, Hash.Value;
    var w := [h.h0, h.h1, h.h2, h.h3];
    var k: u64 := 5;
    ghost var rem := 0;
    Empty(w);
    for i := 0 to 4
      invariant k <= 5 && 0 <= rem < Base(i)
      invariant Base(i) * k as int + rem == 5 + Num(w[..i])
    {
      CarryPush(w, i, k as int, rem);
      rem := rem + Base(i) * ((k as int + w[i] as int) % 0x1_0000_0000);
      k := (k + w[i] as u64) / 0x1_0000_0000;
    }
    c := ((k + h.h4 as u64) / 4) * 5;
    FourWords(w);
    assert w[..4] == w;
    HashWords(h);
    AtLeastPrime(h, k as int, rem);
  }

  lemma CarryPush(w: seq<u32>, i: nat, k: nat, rem: nat)
    requires i < |w| && rem < Base(i)
    ensures var s := k + w[i] as int;
            Num(w[..i + 1]) == Num(w[..i]) + Base(i) * w[i] as int
            && Base(i + 1) * (s / 0x1_0000_0000) + (rem + Base(i) * (s % 0x1_0000_0000)) == Base(i) * k + rem + Base(i) * w[i] as int
            && 0 <= rem + Base(i) * (s % 0x1_0000_0000) < Base(i + 1)
  {
    hide Num, Base;
    var s := k + w[i] as int;
    NumPush(w, i);
    CarryUp(s, i);
    FactorOut(Base(i), k, w[i] as int);
    RemainderGrows(i, rem, s % 0x1_0000_0000);
  }

  lemma HashWords(h: Hash)
    ensures h.Value() == Num([h.h0, h.h1, h.h2, h.h3]) + TWO128 * h.h4 as int
  {
    FourWords([h.h0, h.h1, h.h2, h.h3]);
  }

  lemma AtLeastPrime(h: Hash, k: int, rem: int)
    requires h.Ok() && 0 <= k <= 5 && 0 <= rem < TWO128
    requires TWO128 * k + rem == 5 + h.Value() - TWO128 * h.h4 as int
    ensures (k + h.h4 as int) / 4 == if h.Value() >= PRIME then 1 else 0
  {
  }

  /** The second carry chain adds 5 or 0, the low words of h and the pad. */
  method Finalize(mac: array<u8>, h: Hash, pad: seq<u32>)
    requires mac.Length == 16 && h.Ok() && |pad| == 4
    modifies mac
    ensures LeNat(mac[..]) == (Mod(h.Value()) + Num(pad)) % 0x1_0000_0000_0000_0000_0000_0000_0000_0000
  {
    hide Num, Base, Hash.Value, LeNat, Mod, Pow256;
    var c := Subtractions(h);
    var w := [h.h0, h.h1, h.h2, h.h3];
    ghost var q := c as int;
    Empty(w);
    Empty(pad);
    NoBytes(mac[..4 * 0]);
    for i := 0 to 4
      invariant c <= 5 && Base(i) * c as int + LeNat(mac[..4 * i]) == q + Num(w[..i]) + Num(pad[..i])
    {
      NumPush(w, i);
      NumPush(pad, i);
      AddWords(i, c as int, w[i] as int, pad[i] as int);
      c := c + w[i] as u64 + pad[i] as u64;
      StoreWord(mac, i, (c % 0x1_0000_0000) as u32);
      c := c / 0x1_0000_0000;
    }
    FourWords(w);
    HashWords(h);
    Pow256Of16();
    assert w[..4] == w && pad[..4] == pad && mac[..4 * 4] == mac[..];
    FinalSum(h, q, c as int, LeNat(mac[..]), Num(pad));
  }

  lemma FinalSum(h: Hash, q: int, c: int, mac: int, s: int)
    requires h.Ok() && q == (if h.Value() >= PRIME then 5 else 0)
    requires TWO128 * c + mac == q + (h.Value() - TWO128 * h.h4 as int) + s && 0 <= mac < TWO128
    ensures mac == (Mod(h.Value()) + s) % 0x1_0000_0000_0000_0000_0000_0000_0000_0000
  {
    var k := if h.Value() >= PRIME then 1 else 0;
    Remainder(h.Value(), k, h.Value() - PRIME * k, PRIME);
    Remainder(Mod(h.Value()) + s, c + h.h4 as int - 4 * k, mac, TWO128);
  }

  function KeyWords(key: bytes): (r: Key)
    requires |key| == 32
    ensures r.Clamped()
  {
    Key(Load32(key, 0) % 0x1000_0000, ClampWord(Load32(key, 4)), ClampWord(Load32(key, 8)), ClampWord(Load32(key, 12)))
  }

  /** w & 0x0ffffffc: bits 2 to 27. */
  function ClampWord(w: u32): (r: u32)
    ensures r <= 0x0fff_fffc && r % 4 == 0
  {
    (w / 4 % 0x400_0000) * 4
  }

  function PadWords(key: bytes): (w: seq<u32>)
    requires |key| == 32
    ensures |w| == 4
  {
    [Load32(key, 16), Load32(key, 20), Load32(key, 24), Load32(key, 28)]
  }

  /** r with the bits cleared that section 2.5 of RFC 8439 names: the top four of bytes 3, 7, 11 and 15,
      the bottom two of bytes 4, 8 and 12. */
  function ClampBytes(k: bytes): (r: bytes)
    requires |k| == 16
    ensures |r| == 16
  {
    [k[0], k[1], k[2], k[3] % 16, k[4] - k[4] % 4, k[5], k[6], k[7] % 16,
     k[8] - k[8] % 4, k[9], k[10], k[11] % 16, k[12] - k[12] % 4, k[13], k[14], k[15] % 16]
  }

  lemma KeyIsClamped(key: bytes)
    requires |key| == 32
    ensures KeyWords(key).Value() == LeNat(ClampBytes(key[..16]))
  {
    hide LeNat, Pow256, ClampBytes, Load32, KeyWords, Key.Clamped;
    var k := ClampBytes(key[..16]);
    Load128(k, 0);
    assert k[0..16] == k;
    ClampedWords(key);
  }

  lemma ClampedWords(key: bytes)
    requires |key| == 32
    ensures var k := ClampBytes(key[..16]);
            Load32(k, 0) == KeyWords(key).r0 && Load32(k, 4) == KeyWords(key).r1
            && Load32(k, 8) == KeyWords(key).r2 && Load32(k, 12) == KeyWords(key).r3
  {
    hide LeNat, Load32, ClampWord, ClampBytes;
    var k := key[..16];
    ClampedParts(k);
    assert key[0..4] == k[0..4] && key[4..8] == k[4..8] && key[8..12] == k[8..12] && key[12..16] == k[12..16];
  }

  lemma ClampedFirst(key: bytes, k: bytes)
    requires |key| >= 4 && |k| >= 4 && k[0] == key[0] && k[1] == key[1] && k[2] == key[2] && k[3] == key[3] % 16
    ensures Load32(k, 0) == Load32(key, 0) % 0x1000_0000
  {
    hide LeNat;
    TopNibble(key[0], key[1], key[2], key[3]);
  }

  lemma ClampedOther(key: bytes, k: bytes, i: nat)
    requires i + 4 <= |key| && i + 4 <= |k|
    requires k[i] == key[i] - key[i] % 4 && k[i + 1] == key[i + 1] && k[i + 2] == key[i + 2] && k[i + 3] == key[i + 3] % 16
    ensures Load32(k, i) == ClampWord(Load32(key, i))
  {
    hide LeNat;
    LowBits(key[i], key[i + 1], key[i + 2], key[i + 3]);
  }

  lemma TopNibble(a: u8, b: u8, c: u8, d: u8)
    ensures (a as int + b as int * 0x100 + c as int * 0x1_0000 + d as int * 0x100_0000) % 0x1000_0000
         == a as int + b as int * 0x100 + c as int * 0x1_0000 + (d as int % 16) * 0x100_0000
  {
    var rest := a as int + b as int * 0x100 + c as int * 0x1_0000 + (d as int % 16) * 0x100_0000;
    Remainder(rest + 0x1000_0000 * (d as int / 16), d as int / 16, rest, 0x1000_0000);
  }

  lemma LowBits(a: u8, b: u8, c: u8, d: u8)
    ensures (a as int + b as int * 0x100 + c as int * 0x1_0000 + d as int * 0x100_0000) / 4 % 0x400_0000 * 4
         == a as int - a as int % 4 + b as int * 0x100 + c as int * 0x1_0000 + (d as int % 16) * 0x100_0000
  {
    var rest := a as int / 4 + b as int * 0x40 + c as int * 0x4000 + (d as int % 16) * 0x40_0000;
    var q := rest + 0x400_0000 * (d as int / 16);
    Remainder(4 * q + a as int % 4, q, a as int % 4, 4);
    Remainder(q, d as int / 16, rest, 0x400_0000);
  }

  /** The clamp as section 2.5 of RFC 8439 writes it: a mask on the 128-bit number. */
  lemma ClampIsMask(k: bytes)
    requires |k| == 16
    ensures LeNat(ClampBytes(k)) == And(LeNat(k), 0x0fff_fffc_0fff_fffc_0fff_fffc_0fff_ffff)
  {
    hide LeNat, Pow256, Load32, ClampBytes, ClampWord, And, Pow2;
    var c := ClampBytes(k);
    NumberOf16(k);
    NumberOf16(c);
    ClampedParts(k);
    MaskWords(Load32(k, 0), Load32(k, 4), Load32(k, 8), Load32(k, 12));
  }

  lemma NumberOf16(s: bytes)
    requires |s| == 16
    ensures
      LeNat(s) == Load32(s, 0) as int + 0x1_0000_0000 * Load32(s, 4) as int + 0x1_0000_0000_0000_0000 * Load32(s, 8) as int
                + 0x1_0000_0000_0000_0000_0000_0000 * Load32(s, 12) as int
  {
    hide LeNat, Pow256, Load32, Tail;
    Split4(s, 0); Split4(s, 4); Split4(s, 8); Split4(s, 12);
    TailEnds(s);
  }

  lemma TailEnds(s: bytes)
    ensures Tail(s, 0) == LeNat(s) && Tail(s, |s|) == 0
  {
    assert s[0..] == s && s[|s|..] == [];
  }

  lemma MaskWords(a: u32, b: u32, c: u32, d: u32)
    ensures
      And(a as int + 0x1_0000_0000 * b as int + 0x1_0000_0000_0000_0000 * c as int + 0x1_0000_0000_0000_0000_0000_0000 * d as int,
          0x0fff_fffc_0fff_fffc_0fff_fffc_0fff_ffff)
        == (a % 0x1000_0000) as int + 0x1_0000_0000 * ClampWord(b) as int
         + 0x1_0000_0000_0000_0000 * ClampWord(c) as int + 0x1_0000_0000_0000_0000_0000_0000 * ClampWord(d) as int
  {
    hide ClampWord, And, FourParts;
    MaskParts(a as int, b as int, c as int, d as int);
    MaskFirst(a);
    MaskOther(b); MaskOther(c); MaskOther(d);
    FourPartsAre(a as int, b as int, c as int, d as int);
    FourPartsAre(0x0fff_ffff, 0x0fff_fffc, 0x0fff_fffc, 0x0fff_fffc);
    FourPartsAre((a % 0x1000_0000) as int, ClampWord(b) as int, ClampWord(c) as int, ClampWord(d) as int);
  }

  lemma ClampedParts(k: bytes)
    requires |k| == 16
    ensures
      var c := ClampBytes(k);
      && Load32(c, 0) == Load32(k, 0) % 0x1000_0000 && Load32(c, 4) == ClampWord(Load32(k, 4))
      && Load32(c, 8) == ClampWord(Load32(k, 8)) && Load32(c, 12) == ClampWord(Load32(k, 12))
  {
    hide LeNat, Load32, ClampWord;
    var c := ClampBytes(k);
    ClampedFirst(k, c);
    ClampedOther(k, c, 4);
    ClampedOther(k, c, 8);
    ClampedOther(k, c, 12);
  }

  lemma MaskFirst(w: u32)
    ensures And(w as int, 0x0fff_ffff) == (w % 0x1000_0000) as int
  {
    hide And, Pow2;
    Pow2Of28();
    AndLow((w % 0x1000_0000) as int, (w / 0x1000_0000) as int, 28);
  }

  lemma Pow2Of28()
    ensures Pow2(28) == 0x1000_0000 && Pow2(2) == 4
  {
    Pow2Add(26, 2);
    Pow2Values();
  }

  lemma MaskOther(w: u32)
    ensures And(w as int, 0x0fff_fffc) == ClampWord(w) as int
  {
    hide And, Pow2;
    Pow2Values();
    Pow2Of28();
    var q, u := w as int / 4, w as int % 4;
    AndSplit(u, q, 0, 0x3ff_ffff, 2);
    NoBits(u);
    AndLow(q % 0x400_0000, q / 0x400_0000, 26);
  }

  /** And on four 32-bit words. */
  lemma MaskParts(a: nat, b: nat, c: nat, d: nat)
    requires a < 0x1_0000_0000 && b < 0x1_0000_0000 && c < 0x1_0000_0000 && d < 0x1_0000_0000
    ensures
      And(FourParts(a, b, c, d), FourParts(0x0fff_ffff, 0x0fff_fffc, 0x0fff_fffc, 0x0fff_fffc))
        == FourParts(And(a, 0x0fff_ffff), And(b, 0x0fff_fffc), And(c, 0x0fff_fffc), And(d, 0x0fff_fffc))
  {
    hide And;
    AndWords(c, d, 0x0fff_fffc, 0x0fff_fffc);
    AndWords(b, c + 0x1_0000_0000 * d, 0x0fff_fffc, 0x0fff_fffc + 0x1_0000_0000 * 0x0fff_fffc);
    AndWords(a, b + 0x1_0000_0000 * (c + 0x1_0000_0000 * d),
             0x0fff_ffff, 0x0fff_fffc + 0x1_0000_0000 * (0x0fff_fffc + 0x1_0000_0000 * 0x0fff_fffc));
  }

  function FourParts(a: int, b: int, c: int, d: int): int {
    a + 0x1_0000_0000 * (b + 0x1_0000_0000 * (c + 0x1_0000_0000 * d))
  }

  lemma FourPartsAre(a: int, b: int, c: int, d: int)
    ensures
      FourParts(a, b, c, d)
        == a + 0x1_0000_0000 * b + 0x1_0000_0000_0000_0000 * c + 0x1_0000_0000_0000_0000_0000_0000 * d
  {
  }

  lemma AndWords(a: nat, x: nat, b: nat, y: nat)
    requires a < 0x1_0000_0000 && b < 0x1_0000_0000
    ensures And(a + 0x1_0000_0000 * x, b + 0x1_0000_0000 * y) == And(a, b) + 0x1_0000_0000 * And(x, y)
  {
    hide And, Pow2;
    Pow2Values();
    AndSplit(a, x, b, y, 32);
  }

  lemma PadIsNat(key: bytes)
    requires |key| == 32
    ensures Num(PadWords(key)) == LeNat(key[16..])
  {
    hide LeNat, Load32, Num;
    Load128(key, 16);
    assert key[16..32] == key[16..];
    FourWords(PadWords(key));
  }

  /** The tag in full: the polynomial at the masked first half of the key, plus the second half. */
  lemma MacIsPolynomial(key: bytes, msg: bytes)
    requires |key| == 32
    ensures
      var r := And(LeNat(key[..16]), 0x0fff_fffc_0fff_fffc_0fff_fffc_0fff_ffff);
      LeNat(Mac(key, msg)) == (Polynomial(r, msg) % PRIME + LeNat(key[16..])) % TWO128
  {
    hide LeNat, LeBytes, And, Absorb, Polynomial, ClampBytes;
    var r := LeNat(ClampBytes(key[..16]));
    ClampIsMask(key[..16]);
    AbsorbIsPolynomial(r, msg);
    ModIs(Polynomial(r, msg));
    Pow256Of16();
    LeNatOfBytes((Absorb(0, r, msg) + LeNat(key[16..])) % TWO128, 16);
  }

  /** The one-time authenticator of section 2.5 of RFC 8439. */
  function Mac(key: bytes, msg: bytes): bytes
    requires |key| == 32
  {
    Tag(LeNat(ClampBytes(key[..16])), LeNat(key[16..]), msg)
  }

  /** crypto_poly1305. */
  method OneShot(mac: array<u8>, message: bytes, key: bytes)
    requires mac.Length == 16 && |key| == 32
    modifies mac
    ensures mac[..] == Mac(key, message)
  {
    hide KeyWords, PadWords, Tag, ClampBytes, LeNat, Num, Key.Value, Context.Valid;
    var ctx := new Context();
    ctx.Init(key);
    ctx.Update(message);
    assert ctx.msg == message;
    KeyIsClamped(key);
    PadIsNat(key);
    ctx.Final(mac);
  }
}
