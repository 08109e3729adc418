/** The field of order 2^255 - 19 on ten signed limbs: the carry chain, products and squares. */
module Field25519 {
  import opened Machine
  import opened Arithmetic

  const P: int := 0x7fffffffffffffffffffffffffffffffffffffffffffffffffffffffffffffed

  type Limbs = s: seq<i32> | |s| == 10 witness [0, 0, 0, 0, 0, 0, 0, 0, 0, 0]

  datatype Acc = Acc(t0: i64, t1: i64, t2: i64, t3: i64, t4: i64, t5: i64, t6: i64, t7: i64, t8: i64, t9: i64)

  function Combine(t0: int, t1: int, t2: int, t3: int, t4: int, t5: int, t6: int, t7: int, t8: int, t9: int): int {
    t0 + 0x400_0000 * t1 + 0x8_0000_0000_0000 * t2 + 0x2000_0000_0000_0000_0000 * t3
    + 0x40_0000_0000_0000_0000_0000_0000 * t4 + 0x1_0000_0000_0000_0000_0000_0000_0000_0000 * t5
    + 0x200_0000_0000_0000_0000_0000_0000_0000_0000_0000 * t6
    + 0x8_0000_0000_0000_0000_0000_0000_0000_0000_0000_0000_0000 * t7
    + 0x1000_0000_0000_0000_0000_0000_0000_0000_0000_0000_0000_0000_0000 * t8
    + 0x40_0000_0000_0000_0000_0000_0000_0000_0000_0000_0000_0000_0000_0000_0000 * t9
  }

  function Val(f: Limbs): int {
    Combine(f[0] as int, f[1] as int, f[2] as int, f[3] as int, f[4] as int,
            f[5] as int, f[6] as int, f[7] as int, f[8] as int, f[9] as int)
  }

  predicate Within(x: int, b: int) { -b <= x <= b }

  predicate Bounded(f: Limbs, even: int, odd: int) {
    Within(f[0] as int, even) && Within(f[1] as int, odd) && Within(f[2] as int, even) && Within(f[3] as int, odd)
    && Within(f[4] as int, even) && Within(f[5] as int, odd) && Within(f[6] as int, even) && Within(f[7] as int, odd)
    && Within(f[8] as int, even) && Within(f[9] as int, odd)
  }

  // 1.65 * 2^26 and 1.65 * 2^25
  predicate Loose(f: Limbs) { Bounded(f, 110729625, 55364812) }
  // 1.1 * 2^25 and 1.1 * 2^24
  predicate Tight(f: Limbs) { Bounded(f, 36909875, 18454937) }

  predicate CarryReady(t: Acc) {
    var m := 0x4000_0000_0000_0000 - 1;
    -0x8000_0000_0000_0000 < t.t0 as int < 0x8000_0000_0000_0000 - 0x200_0000
    && Within(t.t1 as int, m) && Within(t.t2 as int, m) && Within(t.t3 as int, m) && Within(t.t4 as int, m)
    && Within(t.t5 as int, m) && Within(t.t6 as int, m) && Within(t.t7 as int, m) && Within(t.t8 as int, m) && Within(t.t9 as int, m)
  }

  function AccVal(t: Acc): int {
    Combine(t.t0 as int, t.t1 as int, t.t2 as int, t.t3 as int, t.t4 as int,
            t.t5 as int, t.t6 as int, t.t7 as int, t.t8 as int, t.t9 as int)
  }

  /** The first rounding addition of the carry chain fits 64 bits exactly below 2^63 - 2^25; a bound of 2^63 on the
      magnitude alone is not enough. */
  lemma FirstCarryFits(t: int)
    requires Within(t, 0x7fff_ffff_ffff_ffff)
    ensures t + 0x200_0000 < 0x8000_0000_0000_0000 <==> t < 0x8000_0000_0000_0000 - 0x200_0000
    ensures !(0x7fff_ffff_ffff_ffff + 0x200_0000 < 0x8000_0000_0000_0000)
  {
  }

  method Carry26(t: i64) returns (r: i64, c: i64)
    requires -0x8000_0000_0000_0000 < t as int < 0x8000_0000_0000_0000 - 0x200_0000
    ensures t as int == r as int + c as int * 0x400_0000
    ensures -0x200_0000 <= r < 0x200_0000
  {
    c := (t + 0x200_0000) / 0x400_0000;
    r := t - c * 0x400_0000;
  }

  method Carry25(t: i64) returns (r: i64, c: i64)
    requires -0x8000_0000_0000_0000 < t as int < 0x8000_0000_0000_0000 - 0x100_0000
    ensures t as int == r as int + c as int * 0x200_0000
    ensures -0x100_0000 <= r < 0x100_0000
  {
    c := (t + 0x100_0000) / 0x200_0000;
    r := t - c * 0x200_0000;
  }

  method CarryForward(t: Acc) returns (u: Acc)
    requires CarryReady(t)
    ensures AccVal(u) == AccVal(t)
    ensures Propagated(u)
  {
    var Acc(t0, t1, t2, t3, t4, t5, t6, t7, t8, t9) := t;
    var c: i64;
    t0, c := Carry26(t0);  t1 := t1 + c;
    t4, c := Carry26(t4);  t5 := t5 + c;
    t1, c := Carry25(t1);  t2 := t2 + c;
    t5, c := Carry25(t5);  t6 := t6 + c;
    t2, c := Carry26(t2);  t3 := t3 + c;
    t6, c := Carry26(t6);  t7 := t7 + c;
    t3, c := Carry25(t3);  t4 := t4 + c;
    t7, c := Carry25(t7);  t8 := t8 + c;
    t4, c := Carry26(t4);  t5 := t5 + c;
    t8, c := Carry26(t8);  t9 := t9 + c;
    u := Acc(t0, t1, t2, t3, t4, t5, t6, t7, t8, t9);
  }

  method CarryWrap(u: Acc) returns (l: Limbs)
    requires Propagated(u)
    ensures Tight(l)
    ensures Val(l) % P == AccVal(u) % P
  {
    var Acc(t0, t1, t2, t3, t4, t5, t6, t7, t8, t9) := u;
    var c: i64;
    t9, c := Carry25(t9);  t0 := t0 + c * 19;
    ghost var q := c as int;
    t0, c := Carry26(t0);  t1 := t1 + c;
    l := [t0 as i32, t1 as i32, t2 as i32, t3 as i32, t4 as i32, t5 as i32, t6 as i32, t7 as i32, t8 as i32, t9 as i32];
    assert Val(l) == AccVal(u) - P * q;
    hide Val, AccVal;
    DropMultiple(AccVal(u), q);
  }

  method FeCarry(h: array<i32>, t: Acc)
    requires h.Length == 10 && CarryReady(t)
    modifies h
    ensures Tight(h[..])
    ensures Val(h[..]) % P == AccVal(t) % P
  {
    var u := CarryForward(t);
    var l := CarryWrap(u);
    hide Val, AccVal, Tight;
    h[0] := l[0];  h[1] := l[1];  h[2] := l[2];  h[3] := l[3];  h[4] := l[4];
    h[5] := l[5];  h[6] := l[6];  h[7] := l[7];  h[8] := l[8];  h[9] := l[9];
    assert h[..] == l;
  }

  predicate Propagated(u: Acc) {
    Within(u.t0 as int, 0x200_0000) && Within(u.t1 as int, 0x100_0000) && Within(u.t2 as int, 0x200_0000)
    && Within(u.t3 as int, 0x100_0000) && Within(u.t4 as int, 0x200_0000) && Within(u.t5 as int, 0x100_4000)
    && Within(u.t6 as int, 0x200_0000) && Within(u.t7 as int, 0x100_0000) && Within(u.t8 as int, 0x200_0000)
    && Within(u.t9 as int, 0x4000_0080_0000_0000)
  }

  lemma DropMultiple(x: int, q: int)
    ensures (x - P * q) % P == x % P
  {
    AddMultiple(x, -q, P);
  }

  function Wide(a: i32, b: i32): (r: i64)
    requires Within(a as int, 221459250) && Within(b as int, 2103862875)
    ensures Within(r as int, 465919894400343750)
    ensures Within(a as int, 110729625) ==> Within(r as int, 232959947200171875)
  {
    WideBound(a as int, b as int);
    Times(a as int, b as int) as i64
  }

  lemma WideBound(a: int, b: int)
    requires Within(a, 221459250) && Within(b, 2103862875)
    ensures Within(a * b, 465919894400343750)
    ensures Within(a, 110729625) ==> Within(a * b, 232959947200171875)
  {
    MulWithin(a, b, 221459250, 2103862875);
    if Within(a, 110729625) { MulWithin(a, b, 110729625, 2103862875); }
  }

  lemma MulWithin(a: int, b: int, x: nat, y: nat)
    requires Within(a, x) && Within(b, y)
    ensures Within(a * b, x * y)
  {
    assert (x - a) * (y + b) >= 0 && (x + a) * (y - b) >= 0;
    assert (x - a) * (y - b) >= 0 && (x + a) * (y + b) >= 0;
  }

  function MulAcc(f: Limbs, g: Limbs): (t: Acc)
    requires Loose(f) && Loose(g)
    ensures CarryReady(t)
  {
    var f0 := f[0]; var f1 := f[1]; var f2 := f[2]; var f3 := f[3]; var f4 := f[4];
    var f5 := f[5]; var f6 := f[6]; var f7 := f[7]; var f8 := f[8]; var f9 := f[9];
    var g0 := g[0]; var g1 := g[1]; var g2 := g[2]; var g3 := g[3]; var g4 := g[4];
    var g5 := g[5]; var g6 := g[6]; var g7 := g[7]; var g8 := g[8]; var g9 := g[9];
    var F1 := f1 * 2; var F3 := f3 * 2; var F5 := f5 * 2; var F7 := f7 * 2; var F9 := f9 * 2;
    var G1 := g1 * 19; var G2 := g2 * 19; var G3 := g3 * 19;
    var G4 := g4 * 19; var G5 := g5 * 19; var G6 := g6 * 19;
    var G7 := g7 * 19; var G8 := g8 * 19; var G9 := g9 * 19;
    var t0 := Wide(f0, g0) + Wide(F1, G9) + Wide(f2, G8) + Wide(F3, G7) + Wide(f4, G6)
            + Wide(F5, G5) + Wide(f6, G4) + Wide(F7, G3) + Wide(f8, G2) + Wide(F9, G1);
    var t1 := Wide(f0, g1) + Wide(f1, g0) + Wide(f2, G9) + Wide(f3, G8) + Wide(f4, G7)
            + Wide(f5, G6) + Wide(f6, G5) + Wide(f7, G4) + Wide(f8, G3) + Wide(f9, G2);
    var t2 := Wide(f0, g2) + Wide(F1, g1) + Wide(f2, g0) + Wide(F3, G9) + Wide(f4, G8)
            + Wide(F5, G7) + Wide(f6, G6) + Wide(F7, G5) + Wide(f8, G4) + Wide(F9, G3);
    var t3 := Wide(f0, g3) + Wide(f1, g2) + Wide(f2, g1) + Wide(f3, g0) + Wide(f4, G9)
            + Wide(f5, G8) + Wide(f6, G7) + Wide(f7, G6) + Wide(f8, G5) + Wide(f9, G4);
    var t4 := Wide(f0, g4) + Wide(F1, g3) + Wide(f2, g2) + Wide(F3, g1) + Wide(f4, g0)
            + Wide(F5, G9) + Wide(f6, G8) + Wide(F7, G7) + Wide(f8, G6) + Wide(F9, G5);
    var t5 := Wide(f0, g5) + Wide(f1, g4) + Wide(f2, g3) + Wide(f3, g2) + Wide(f4, g1)
            + Wide(f5, g0) + Wide(f6, G9) + Wide(f7, G8) + Wide(f8, G7) + Wide(f9, G6);
    var t6 := Wide(f0, g6) + Wide(F1, g5) + Wide(f2, g4) + Wide(F3, g3) + Wide(f4, g2)
            + Wide(F5, g1) + Wide(f6, g0) + Wide(F7, G9) + Wide(f8, G8) + Wide(F9, G7);
    var t7 := Wide(f0, g7) + Wide(f1, g6) + Wide(f2, g5) + Wide(f3, g4) + Wide(f4, g3)
            + Wide(f5, g2) + Wide(f6, g1) + Wide(f7, g0) + Wide(f8, G9) + Wide(f9, G8);
    var t8 := Wide(f0, g8) + Wide(F1, g7) + Wide(f2, g6) + Wide(F3, g5) + Wide(f4, g4)
            + Wide(F5, g3) + Wide(f6, g2) + Wide(F7, g1) + Wide(f8, g0) + Wide(F9, G9);
    var t9 := Wide(f0, g9) + Wide(f1, g8) + Wide(f2, g7) + Wide(f3, g6) + Wide(f4, g5)
            + Wide(f5, g4) + Wide(f6, g3) + Wide(f7, g2) + Wide(f8, g1) + Wide(f9, g0);
    Acc(t0, t1, t2, t3, t4, t5, t6, t7, t8, t9)
  }
  /** The five limbs of one parity: digits in radix 2^51. */
  datatype Digits = Digits(c0: int, c1: int, c2: int, c3: int, c4: int) {
    function Value(): int {
      c0 + 0x8_0000_0000_0000 * c1 + 0x40_0000_0000_0000_0000_0000_0000 * c2
      + 0x200_0000_0000_0000_0000_0000_0000_0000_0000_0000 * c3
      + 0x1000_0000_0000_0000_0000_0000_0000_0000_0000_0000_0000_0000_0000 * c4
    }
  }

  function Even(f: Limbs): Digits { Digits(f[0] as int, f[2] as int, f[4] as int, f[6] as int, f[8] as int) }

  function Odd(f: Limbs): Digits { Digits(f[1] as int, f[3] as int, f[5] as int, f[7] as int, f[9] as int) }

  function Times(a: int, b: int): int { a * b }

  /** Product digits that land at or above 2^255. */
  function High(a: Digits, b: Digits): Digits {
    Digits(Times(a.c1, b.c4) + Times(a.c2, b.c3) + Times(a.c3, b.c2) + Times(a.c4, b.c1),
           Times(a.c2, b.c4) + Times(a.c3, b.c3) + Times(a.c4, b.c2),
           Times(a.c3, b.c4) + Times(a.c4, b.c3),
           Times(a.c4, b.c4),
           0)
  }

  /** Product digits below 2^255, with the high digits folded back times 19. */
  function Fold(a: Digits, b: Digits): Digits {
    var h := High(a, b);
    Digits(Times(a.c0, b.c0) + 19 * h.c0,
           Times(a.c0, b.c1) + Times(a.c1, b.c0) + 19 * h.c1,
           Times(a.c0, b.c2) + Times(a.c1, b.c1) + Times(a.c2, b.c0) + 19 * h.c2,
           Times(a.c0, b.c3) + Times(a.c1, b.c2) + Times(a.c2, b.c1) + Times(a.c3, b.c0) + 19 * h.c3,
           Times(a.c0, b.c4) + Times(a.c1, b.c3) + Times(a.c2, b.c2) + Times(a.c3, b.c1) + Times(a.c4, b.c0))
  }

  lemma TimesCommutes(x: int, y: int)
    ensures Times(x, y) == Times(y, x)
  {
  }

  lemma TimesValue(x: int, b: Digits)
    ensures Times(x, b.Value()) == Digits(Times(x, b.c0), Times(x, b.c1), Times(x, b.c2), Times(x, b.c3), Times(x, b.c4)).Value()
  {
  }

  lemma FoldValue(a: Digits, b: Digits)
    ensures Times(a.Value(), b.Value()) == Fold(a, b).Value() + P * High(a, b).Value()
  {
    hide Times;
    TimesCommutes(a.Value(), b.Value());
    TimesValue(b.Value(), a);
    forall x | x in {a.c0, a.c1, a.c2, a.c3, a.c4}
      ensures Times(b.Value(), x) == Digits(Times(x, b.c0), Times(x, b.c1), Times(x, b.c2), Times(x, b.c3), Times(x, b.c4)).Value()
    {
      TimesCommutes(x, b.Value());
      TimesValue(x, b);
    }
  }

  lemma TimesScaled(x: int, y: int)
    ensures Times(x * 2, y * 19) == 38 * Times(x, y)
    ensures Times(x, y * 19) == 19 * Times(x, y)
    ensures Times(x * 2, y) == 2 * Times(x, y)
  {
  }

  lemma MulAccDigits(f: Limbs, g: Limbs)
    requires Loose(f) && Loose(g)
    ensures
      var t, ee, oo := MulAcc(f, g), Fold(Even(f), Even(g)), Fold(Odd(f), Odd(g));
      t.t0 as int == ee.c0 + 38 * oo.c4 && t.t2 as int == ee.c1 + 2 * oo.c0 && t.t4 as int == ee.c2 + 2 * oo.c1
      && t.t6 as int == ee.c3 + 2 * oo.c2 && t.t8 as int == ee.c4 + 2 * oo.c3
    ensures
      var t, eo, oe := MulAcc(f, g), Fold(Even(f), Odd(g)), Fold(Odd(f), Even(g));
      t.t1 as int == eo.c0 + oe.c0 && t.t3 as int == eo.c1 + oe.c1 && t.t5 as int == eo.c2 + oe.c2
      && t.t7 as int == eo.c3 + oe.c3 && t.t9 as int == eo.c4 + oe.c4
  {
    hide Times;
    forall i, j | 0 <= i < 10 && 0 <= j < 10
      ensures Times(f[i] as int * 2, g[j] as int * 19) == 38 * Times(f[i] as int, g[j] as int)
      ensures Times(f[i] as int, g[j] as int * 19) == 19 * Times(f[i] as int, g[j] as int)
      ensures Times(f[i] as int * 2, g[j] as int) == 2 * Times(f[i] as int, g[j] as int)
    {
      TimesScaled(f[i] as int, g[j] as int);
    }
  }

  lemma ValSplit(f: Limbs)
    ensures Val(f) == Even(f).Value() + 0x400_0000 * Odd(f).Value()
  {
  }

  lemma Distribute(a: int, b: int, c: int, d: int)
    ensures Times(a + 0x400_0000 * b, c + 0x400_0000 * d)
         == Times(a, c) + 0x10_0000_0000_0000 * Times(b, d) + 0x400_0000 * (Times(a, d) + Times(b, c))
  {
    assert (a + 0x400_0000 * b) * (c + 0x400_0000 * d) == a * c + 0x10_0000_0000_0000 * (b * d) + 0x400_0000 * (a * d + b * c);
  }

  /** How many multiples of the modulus FE_MUL drops. */
  function Excess(f: Limbs, g: Limbs): int {
    High(Even(f), Even(g)).Value() + 0x10_0000_0000_0000 * High(Odd(f), Odd(g)).Value()
    + 0x400_0000 * (High(Even(f), Odd(g)).Value() + High(Odd(f), Even(g)).Value()) + 2 * Fold(Odd(f), Odd(g)).c4
  }

  lemma MulAccExact(f: Limbs, g: Limbs)
    requires Loose(f) && Loose(g)
    ensures AccVal(MulAcc(f, g)) == Times(Val(f), Val(g)) - P * Excess(f, g)
  {
    hide Times, MulAcc, Fold, High, Even, Odd, Val, Loose, Bounded;
    var ef, of, eg, og := Even(f), Odd(f), Even(g), Odd(g);
    ValSplit(f); ValSplit(g);
    Distribute(ef.Value(), of.Value(), eg.Value(), og.Value());
    FoldValue(ef, eg); FoldValue(ef, og); FoldValue(of, eg); FoldValue(of, og);
    MulAccDigits(f, g);
  }

  /** The field element a limb vector stands for, and the field operations. */
  function Rep(f: Limbs): int { Val(f) % P }

  function FMul(a: int, b: int): int { TimesMod(a, b, P) }

  function FAdd(a: int, b: int): int { (a + b) % P }

  function FSub(a: int, b: int): int { (a - b) % P }

  method FeMul(h: array<i32>, f: array<i32>, g: array<i32>)
    requires h.Length == 10 && f.Length == 10 && g.Length == 10
    requires Loose(f[..]) && Loose(g[..])
    modifies h
    ensures Tight(h[..])
    ensures Rep(h[..]) == FMul(Rep(old(f[..])), Rep(old(g[..])))
  {
    hide AccVal, MulAcc, Excess, Val, Loose, Bounded, TimesMod;
    MulAccExact(f[..], g[..]);
    DropMultiple(Times(Val(f[..]), Val(g[..])), Excess(f[..], g[..]));
    TimesModReduces(Val(f[..]), Val(g[..]), P);
    FeCarry(h, MulAcc(f[..], g[..]));
  }

  function SqAcc(f: Limbs): (t: Acc)
    requires Loose(f)
    ensures CarryReady(t)
  {
    var f0 := f[0]; var f1 := f[1]; var f2 := f[2]; var f3 := f[3]; var f4 := f[4];
    var f5 := f[5]; var f6 := f[6]; var f7 := f[7]; var f8 := f[8]; var f9 := f[9];
    var f0_2 := f0 * 2; var f1_2 := f1 * 2; var f2_2 := f2 * 2; var f3_2 := f3 * 2;
    var f4_2 := f4 * 2; var f5_2 := f5 * 2; var f6_2 := f6 * 2; var f7_2 := f7 * 2;
    var f5_38 := f5 * 38; var f6_19 := f6 * 19; var f7_38 := f7 * 38;
    var f8_19 := f8 * 19; var f9_38 := f9 * 38;
    var t0 := Wide(f0, f0) + Wide(f1_2, f9_38) + Wide(f2_2, f8_19)
            + Wide(f3_2, f7_38) + Wide(f4_2, f6_19) + Wide(f5, f5_38);
    var t1 := Wide(f0_2, f1) + Wide(f2, f9_38) + Wide(f3_2, f8_19)
            + Wide(f4, f7_38) + Wide(f5_2, f6_19);
    var t2 := Wide(f0_2, f2) + Wide(f1_2, f1) + Wide(f3_2, f9_38)
            + Wide(f4_2, f8_19) + Wide(f5_2, f7_38) + Wide(f6, f6_19);
    var t3 := Wide(f0_2, f3) + Wide(f1_2, f2) + Wide(f4, f9_38)
            + Wide(f5_2, f8_19) + Wide(f6, f7_38);
    var t4 := Wide(f0_2, f4) + Wide(f1_2, f3_2) + Wide(f2, f2)
            + Wide(f5_2, f9_38) + Wide(f6_2, f8_19) + Wide(f7, f7_38);
    var t5 := Wide(f0_2, f5) + Wide(f1_2, f4) + Wide(f2_2, f3)
            + Wide(f6, f9_38) + Wide(f7_2, f8_19);
    var t6 := Wide(f0_2, f6) + Wide(f1_2, f5_2) + Wide(f2_2, f4)
            + Wide(f3_2, f3) + Wide(f7_2, f9_38) + Wide(f8, f8_19);
    var t7 := Wide(f0_2, f7) + Wide(f1_2, f6) + Wide(f2_2, f5)
            + Wide(f3_2, f4) + Wide(f8, f9_38);
    var t8 := Wide(f0_2, f8) + Wide(f1_2, f7_2) + Wide(f2_2, f6)
            + Wide(f3_2, f5_2) + Wide(f4, f4) + Wide(f9, f9_38);
    var t9 := Wide(f0_2, f9) + Wide(f1_2, f8) + Wide(f2_2, f7)
            + Wide(f3_2, f6) + Wide(f4, f5_2);
    Acc(t0, t1, t2, t3, t4, t5, t6, t7, t8, t9)
  }

  predicate Scales(x: int, y: int) {
    Times(x * 2, y) == 2 * Times(x, y) && Times(x * 2, y * 2) == 4 * Times(x, y) && Times(x, y * 2) == 2 * Times(x, y)
    && Times(x, y * 38) == 38 * Times(x, y) && Times(x * 2, y * 38) == 76 * Times(x, y)
    && Times(x, y * 19) == 19 * Times(x, y) && Times(x * 2, y * 19) == 38 * Times(x, y)
    && Times(x, y) == Times(y, x)
  }

  lemma TimesScales(x: int, y: int)
    ensures Scales(x, y)
  {
  }

  /** The squaring accumulators are exactly the multiplication accumulators of f with itself. */
  lemma SqAccIsMulAcc(f: Limbs)
    requires Loose(f)
    ensures SqAcc(f) == MulAcc(f, f)
  {
    hide Times, MulAcc, Loose, Bounded;
    MulAccDigits(f, f);
    forall i, j | 0 <= i < 10 && 0 <= j < 10
      ensures Scales(f[i] as int, f[j] as int)
    {
      TimesScales(f[i] as int, f[j] as int);
    }
  }

  method FeSq(h: array<i32>, f: array<i32>)
    requires h.Length == 10 && f.Length == 10
    requires Loose(f[..])
    modifies h
    ensures Tight(h[..])
    ensures Rep(h[..]) == FMul(Rep(old(f[..])), Rep(old(f[..])))
  {
    hide AccVal, MulAcc, SqAcc, Excess, Val, Loose, Bounded, TimesMod;
    SqAccIsMulAcc(f[..]);
    MulAccExact(f[..], f[..]);
    DropMultiple(Times(Val(f[..]), Val(f[..])), Excess(f[..], f[..]));
    TimesModReduces(Val(f[..]), Val(f[..]), P);
    FeCarry(h, SqAcc(f[..]));
  }

  method FeMulSmall(h: array<i32>, f: array<i32>, g: i32)
    requires h.Length == 10 && f.Length == 10
    requires Loose(f[..])
    modifies h
    ensures Tight(h[..])
    ensures Rep(h[..]) == FMul(Rep(old(f[..])), g as int)
  {
    var t := SmallAcc(f[..], g);
    MulModLeft(Val(f[..]), g as int, P);
    hide SmallAcc, Val, Loose, Bounded;
    FeCarry(h, t);
  }

  function SmallAcc(f: Limbs, g: i32): (t: Acc)
    requires Loose(f)
    ensures CarryReady(t)
    ensures AccVal(t) == Val(f) * g as int
  {
    var p := (i: int) requires 0 <= i < 10 => WideSmall(f[i], g);
    SmallAccValue(f, g as int);
    Acc(p(0), p(1), p(2), p(3), p(4), p(5), p(6), p(7), p(8), p(9))
  }

  function WideSmall(a: i32, g: i32): (r: i64)
    requires Within(a as int, 110729625)
    ensures r as int == Times(a as int, g as int) && Within(r as int, 110729625 * 0x8000_0000)
  {
    MulWithin(a as int, g as int, 110729625, 0x8000_0000);
    a as i64 * g as i64
  }

  lemma SmallAccValue(f: Limbs, g: int)
    ensures Val(f) * g == Combine(Times(f[0] as int, g), Times(f[1] as int, g), Times(f[2] as int, g), Times(f[3] as int, g),
                                  Times(f[4] as int, g), Times(f[5] as int, g), Times(f[6] as int, g), Times(f[7] as int, g),
                                  Times(f[8] as int, g), Times(f[9] as int, g))
  {
  }

  predicate Fits(x: int) { -0x8000_0000 <= x < 0x8000_0000 }

  predicate SumFits(f: Limbs, g: Limbs) {
    Fits(f[0] as int + g[0] as int) && Fits(f[1] as int + g[1] as int) && Fits(f[2] as int + g[2] as int)
    && Fits(f[3] as int + g[3] as int) && Fits(f[4] as int + g[4] as int) && Fits(f[5] as int + g[5] as int)
    && Fits(f[6] as int + g[6] as int) && Fits(f[7] as int + g[7] as int) && Fits(f[8] as int + g[8] as int)
    && Fits(f[9] as int + g[9] as int)
  }

  predicate DifferenceFits(f: Limbs, g: Limbs) {
    Fits(f[0] as int - g[0] as int) && Fits(f[1] as int - g[1] as int) && Fits(f[2] as int - g[2] as int)
    && Fits(f[3] as int - g[3] as int) && Fits(f[4] as int - g[4] as int) && Fits(f[5] as int - g[5] as int)
    && Fits(f[6] as int - g[6] as int) && Fits(f[7] as int - g[7] as int) && Fits(f[8] as int - g[8] as int)
    && Fits(f[9] as int - g[9] as int)
  }

  lemma SumFitsAt(f: Limbs, g: Limbs)
    requires SumFits(f, g)
    ensures forall k | 0 <= k < 10 :: -0x8000_0000 <= f[k] as int + g[k] as int < 0x8000_0000
  {
  }

  method FeAdd(h: array<i32>, f: array<i32>, g: array<i32>)
    requires h.Length == 10 && f.Length == 10 && g.Length == 10
    requires SumFits(f[..], g[..])
    modifies h
    ensures Rep(h[..]) == FAdd(Rep(old(f[..])), Rep(old(g[..])))
    ensures Tight(old(f[..])) && Tight(old(g[..])) ==> Loose(h[..])
  {
    hide SumFits, Rep, FAdd, Val, Tight, Loose, Bounded;
    ghost var x, y := f[..], g[..];
    SumFitsAt(x, y);
    for i := 0 to 10
      invariant forall k | 0 <= k < i :: h[k] as int == x[k] as int + y[k] as int
      invariant forall k | i <= k < 10 :: f[k] == x[k] && g[k] == y[k]
    {
      h[i] := f[i] + g[i];
    }
    SumOf(x, y, h[..]);
  }

  lemma SumOf(x: Limbs, y: Limbs, z: Limbs)
    requires forall k | 0 <= k < 10 :: z[k] as int == x[k] as int + y[k] as int
    ensures Rep(z) == FAdd(Rep(x), Rep(y))
    ensures Tight(x) && Tight(y) ==> Loose(z)
  {
    hide Val;
    SumValue(x, y, z);
    AddMod(Val(x), Val(y), P);
  }

  lemma SumValue(x: Limbs, y: Limbs, z: Limbs)
    requires forall k | 0 <= k < 10 :: z[k] as int == x[k] as int + y[k] as int
    ensures Val(z) == Val(x) + Val(y)
  {
  }

  lemma DifferenceFitsAt(f: Limbs, g: Limbs)
    requires DifferenceFits(f, g)
    ensures forall k | 0 <= k < 10 :: -0x8000_0000 <= f[k] as int - g[k] as int < 0x8000_0000
  {
  }

  method FeSub(h: array<i32>, f: array<i32>, g: array<i32>)
    requires h.Length == 10 && f.Length == 10 && g.Length == 10
    requires DifferenceFits(f[..], g[..])
    modifies h
    ensures Rep(h[..]) == FSub(Rep(old(f[..])), Rep(old(g[..])))
    ensures Tight(old(f[..])) && Tight(old(g[..])) ==> Loose(h[..])
  {
    hide DifferenceFits, Rep, FSub, Val, Tight, Loose, Bounded;
    ghost var x, y := f[..], g[..];
    DifferenceFitsAt(x, y);
    for i := 0 to 10
      invariant forall k | 0 <= k < i :: h[k] as int == x[k] as int - y[k] as int
      invariant forall k | i <= k < 10 :: f[k] == x[k] && g[k] == y[k]
    {
      h[i] := f[i] - g[i];
    }
    DifferenceOf(x, y, h[..]);
  }

  lemma DifferenceOf(x: Limbs, y: Limbs, z: Limbs)
    requires forall k | 0 <= k < 10 :: z[k] as int == x[k] as int - y[k] as int
    ensures Rep(z) == FSub(Rep(x), Rep(y))
    ensures Tight(x) && Tight(y) ==> Loose(z)
  {
    hide Val;
    DifferenceValue(x, y, z);
    AddMod(Val(x), Val(y), P);
  }

  lemma DifferenceValue(x: Limbs, y: Limbs, z: Limbs)
    requires forall k | 0 <= k < 10 :: z[k] as int == x[k] as int - y[k] as int
    ensures Val(z) == Val(x) - Val(y)
  {
  }
}
