/** Machine integers.  Every arithmetic step on these types carries a range obligation, so a body
    that is accepted is also a proof that the C expression it models does not overflow.  Where the
    C code relies on wrap-around, the model writes the reduction out with `%`. */
module Machine {
  newtype u8 = x: int | 0 <= x < 0x100
  newtype u16 = x: int | 0 <= x < 0x1_0000
  newtype u32 = x: int | 0 <= x < 0x1_0000_0000
  newtype u64 = x: int | 0 <= x < 0x1_0000_0000_0000_0000
  newtype i32 = x: int | -0x8000_0000 <= x < 0x8000_0000
  newtype i64 = x: int | -0x8000_0000_0000_0000 <= x < 0x8000_0000_0000_0000

  type bytes = seq<u8>

  datatype Option<T> = None | Some(value: T)
}

/** Bitwise operators on natural numbers of any width. */
module Bits {
  import opened Machine
  import Arithmetic

  function Pow2(n: nat): (r: nat)
    ensures r > 0
  {
    if n == 0 then 1 else 2 * Pow2(n - 1)
  }

  lemma {:induction false} Pow2Add(m: nat, n: nat)
    ensures Pow2(m + n) == Pow2(m) * Pow2(n)
  {
    if m > 0 {
      Pow2Add(m - 1, n);
      DoubleProduct(Pow2(m - 1), Pow2(n));
    }
  }

  lemma DoubleProduct(x: int, y: int)
    ensures (2 * x) * y == 2 * (x * y)
  {
  }

  lemma {:induction false} Pow2Mono(m: nat, n: nat)
    requires m <= n
    ensures Pow2(m) <= Pow2(n)
  {
    if m < n { Pow2Mono(m, n - 1); }
  }

  lemma Pow2Of64()
    ensures Pow2(64) == 0x1_0000_0000_0000_0000
  {
    Pow2Add(32, 32);
    Pow2Values();
  }

  lemma Pow2Values()
    ensures Pow2(6) == 0x40 && Pow2(7) == 0x80 && Pow2(12) == 0x1000 && Pow2(13) == 0x2000 && Pow2(19) == 0x8_0000 && Pow2(20) == 0x10_0000
    ensures Pow2(25) == 0x200_0000 && Pow2(26) == 0x400_0000 && Pow2(32) == 0x1_0000_0000
  {
    assert Pow2(9) == 0x200;
    assert Pow2(16) == 0x1_0000;
    assert Pow2(22) == 0x40_0000;
    assert Pow2(29) == 0x2000_0000;
  }

  function Xor(a: nat, b: nat): nat
    decreases a + b
  {
    if a == 0 then b else if b == 0 then a else (if a % 2 == b % 2 then 0 else 1) + 2 * Xor(a / 2, b / 2)
  }

  function Or(a: nat, b: nat): nat
    decreases a + b
  {
    if a == 0 then b else if b == 0 then a
    else (if a % 2 + b % 2 == 0 then 0 else 1) + 2 * Or(a / 2, b / 2)
  }

  function And(a: nat, b: nat): nat {
    if a == 0 || b == 0 then 0 else (a % 2) * (b % 2) + 2 * And(a / 2, b / 2)
  }

  lemma {:induction false} XorCommutes(a: nat, b: nat)
    ensures Xor(a, b) == Xor(b, a)
    decreases a + b
  {
    if a != 0 && b != 0 { XorCommutes(a / 2, b / 2); }
  }

  /** Exclusive or undoes itself. */
  lemma {:induction false} XorCancels(a: nat, b: nat)
    ensures Xor(a, Xor(a, b)) == b
    decreases a + b
  {
    if b == 0 {
      XorSelf(a);
    } else if a != 0 {
      XorCancels(a / 2, b / 2);
      var x, y := (if a % 2 == b % 2 then 0 else 1), Xor(a / 2, b / 2);
      assert Xor(a, b) == x + 2 * y;
      HalveXor(a, x, y);
    }
  }

  lemma HalveXor(a: nat, x: nat, y: nat)
    requires x < 2
    ensures Xor(a, x + 2 * y) == (if a % 2 == x then 0 else 1) + 2 * Xor(a / 2, y)
  {
    assert (x + 2 * y) / 2 == y && (x + 2 * y) % 2 == x;
  }

  lemma {:induction false} XorSelf(a: nat)
    ensures Xor(a, a) == 0
  {
    if a != 0 { XorSelf(a / 2); }
  }

  lemma {:induction false} XorZero(a: nat, b: nat)
    ensures Xor(a, b) == 0 <==> a == b
  {
    XorCancels(a, b);
    if a == b { XorSelf(a); }
    if Xor(a, b) == 0 { assert Xor(a, 0) == a; }
  }

  lemma {:induction false} XorBound(a: nat, b: nat, n: nat)
    requires a < Pow2(n) && b < Pow2(n)
    ensures Xor(a, b) < Pow2(n)
  {
    if a != 0 && b != 0 { XorBound(a / 2, b / 2, n - 1); }
  }

  lemma {:induction false} OrBound(a: nat, b: nat, n: nat)
    requires a < Pow2(n) && b < Pow2(n)
    ensures Or(a, b) < Pow2(n)
  {
    if a != 0 && b != 0 { OrBound(a / 2, b / 2, n - 1); }
  }

  lemma {:induction false} OrZero(a: nat, b: nat)
    ensures Or(a, b) == 0 <==> a == 0 && b == 0
  {
    if a != 0 && b != 0 { OrZero(a / 2, b / 2); }
  }

  /** On operands with no common bit, OR is addition. */
  lemma {:induction false} OrDisjoint(a: nat, b: nat, n: nat)
    requires a < Pow2(n)
    ensures Or(a, Pow2(n) * b) == a + Pow2(n) * b
    decreases n
  {
    if n > 0 && a != 0 && b != 0 {
      var p := Pow2(n - 1);
      assert Pow2(n) * b == 2 * (p * b);
      assert p * b > 0;
      OrDisjoint(a / 2, b, n - 1);
    }
  }

  lemma {:induction false} AndOnes(a: nat, n: nat)
    requires a < Pow2(n)
    ensures And(a, Pow2(n) - 1) == a
  {
    if a != 0 {
      var m := Pow2(n) - 1;
      assert m / 2 == Pow2(n - 1) - 1 && m % 2 == 1;
      AndOnes(a / 2, n - 1);
    }
  }

  /** And works on the low n bits and the rest separately. */
  lemma {:induction false} AndSplit(a: nat, x: nat, b: nat, y: nat, n: nat)
    requires a < Pow2(n) && b < Pow2(n)
    ensures And(a + Pow2(n) * x, b + Pow2(n) * y) == And(a, b) + Pow2(n) * And(x, y)
    decreases n
  {
    hide And;
    if n == 0 {
      NoBits(0);
    } else {
      var p := Pow2(n - 1);
      AndSplit(a / 2, x, b / 2, y, n - 1);
      Halve(a, p, x);
      Halve(b, p, y);
      AndBits(a % 2, a / 2 + p * x, b % 2, b / 2 + p * y);
      AndBits(a % 2, a / 2, b % 2, b / 2);
      DoubleProduct(p, And(x, y));
    }
  }

  lemma AndBits(a: nat, u: nat, b: nat, v: nat)
    requires a < 2 && b < 2
    ensures And(a + 2 * u, b + 2 * v) == (if a == 1 && b == 1 then 1 else 0) + 2 * And(u, v)
  {
    var x, y := a + 2 * u, b + 2 * v;
    assert x / 2 == u && y / 2 == v && x % 2 == a && y % 2 == b;
    if x != 0 && y != 0 { HalfOfAnd(x, y); }
    NoBits(u); NoBits(v);
  }

  /** The mask of the low k bits. */
  lemma AndLow(lo: nat, hi: nat, k: nat)
    requires lo < Pow2(k)
    ensures And(lo + Pow2(k) * hi, Pow2(k) - 1) == lo
  {
    hide And;
    NoBits(hi);
    AndSplit(lo, hi, Pow2(k) - 1, 0, k);
    AndOnes(lo, k);
  }

  /** Exclusive or works on the low n bits and the rest separately. */
  lemma {:induction false} XorSplit(a: nat, x: nat, b: nat, y: nat, n: nat)
    requires a < Pow2(n) && b < Pow2(n)
    ensures Xor(a + Pow2(n) * x, b + Pow2(n) * y) == Xor(a, b) + Pow2(n) * Xor(x, y)
    decreases n
  {
    hide Xor;
    if n == 0 {
      XorNothing();
    } else {
      var p := Pow2(n - 1);
      XorSplit(a / 2, x, b / 2, y, n - 1);
      Halve(a, p, x);
      Halve(b, p, y);
      XorBits(a % 2, a / 2 + p * x, b % 2, b / 2 + p * y);
      XorBits(a % 2, a / 2, b % 2, b / 2);
      DoubleProduct(p, Xor(x, y));
    }
  }

  lemma XorNothing()
    ensures Xor(0, 0) == 0
  {
  }

  lemma Halve(a: nat, p: nat, x: nat)
    ensures a + (2 * p) * x == a % 2 + 2 * (a / 2 + p * x)
  {
    DoubleProduct(p, x);
  }

  lemma XorBits(a: nat, u: nat, b: nat, v: nat)
    requires a < 2 && b < 2
    ensures Xor(a + 2 * u, b + 2 * v) == (if a == b then 0 else 1) + 2 * Xor(u, v)
  {
    assert (a + 2 * u) / 2 == u && (b + 2 * v) / 2 == v && (a + 2 * u) % 2 == a && (b + 2 * v) % 2 == b;
  }

  predicate Bit(x: nat, i: nat) { x / Pow2(i) % 2 == 1 }

  /** Each bit of the result depends on the two bits at its place alone. */
  lemma {:induction false} BitwiseAt(a: nat, b: nat, i: nat)
    ensures Bit(Xor(a, b), i) <==> Bit(a, i) != Bit(b, i)
    ensures Bit(Or(a, b), i) <==> Bit(a, i) || Bit(b, i)
    ensures Bit(And(a, b), i) <==> Bit(a, i) && Bit(b, i)
    decreases i
  {
    hide Bit, Xor, Or, And, Pow2;
    BitOfZero(i);
    NoBits(a); NoBits(b);
    if a != 0 && b != 0 {
      HalfOfXor(a, b); HalfOfOr(a, b); HalfOfAnd(a, b);
      LowBit(a); LowBit(b); LowBit(Xor(a, b)); LowBit(Or(a, b)); LowBit(And(a, b));
      if i > 0 {
        BitwiseAt(a / 2, b / 2, i - 1);
        HighBit(a, i); HighBit(b, i); HighBit(Xor(a, b), i); HighBit(Or(a, b), i); HighBit(And(a, b), i);
      }
    }
  }

  lemma HalfOfXor(a: nat, b: nat)
    requires a != 0 && b != 0
    ensures Xor(a, b) / 2 == Xor(a / 2, b / 2) && (Xor(a, b) % 2 == 1 <==> a % 2 != b % 2)
  {
    assert Xor(a, b) == (if a % 2 == b % 2 then 0 else 1) + 2 * Xor(a / 2, b / 2);
  }

  lemma HalfOfOr(a: nat, b: nat)
    requires a != 0 && b != 0
    ensures Or(a, b) / 2 == Or(a / 2, b / 2) && (Or(a, b) % 2 == 1 <==> a % 2 == 1 || b % 2 == 1)
  {
    assert Or(a, b) == (if a % 2 + b % 2 == 0 then 0 else 1) + 2 * Or(a / 2, b / 2);
  }

  lemma HalfOfAnd(a: nat, b: nat)
    requires a != 0 && b != 0
    ensures And(a, b) / 2 == And(a / 2, b / 2) && (And(a, b) % 2 == 1 <==> a % 2 == 1 && b % 2 == 1)
  {
    var low := (a % 2) * (b % 2);
    assert low == if a % 2 == 1 && b % 2 == 1 then 1 else 0;
    assert And(a, b) == low + 2 * And(a / 2, b / 2);
  }

  lemma NoBits(a: nat)
    ensures Xor(0, a) == a && Xor(a, 0) == a && Or(0, a) == a && Or(a, 0) == a && And(0, a) == 0 && And(a, 0) == 0
  {
  }

  lemma BitOfZero(i: nat)
    ensures !Bit(0, i)
  {
  }

  lemma LowBit(x: nat)
    ensures Bit(x, 0) <==> x % 2 == 1
  {
  }

  lemma HighBit(x: nat, i: nat)
    requires i > 0
    ensures Bit(x, i) <==> Bit(x / 2, i - 1)
  {
    var p, y := Pow2(i - 1), x / 2;
    var q, r := y / p, y % p;
    assert y == p * q + r;
    DoubleProduct(p, q);
    assert x == (2 * p) * q + (2 * r + x % 2);
    Arithmetic.Remainder(x, q, 2 * r + x % 2, 2 * p);
  }

  function XorU8(a: u8, b: u8): u8 {
    assert Pow2(8) == 0x100;
    XorBound(a as int, b as int, 8);
    Xor(a as int, b as int) as u8
  }

  lemma XorU8Cancels(a: u8, b: u8)
    ensures XorU8(a, XorU8(a, b)) == b && XorU8(XorU8(b, a), a) == b
  {
    XorCancels(a as int, b as int);
    XorCommutes(a as int, b as int);
    XorCommutes(a as int, Xor(b as int, a as int));
  }

  /** The 32-bit two's complement pattern of a signed word, and back. */
  function Pattern(x: i32): (p: nat)
    ensures p < Pow2(32)
  {
    Pow2Values();
    (x as int) % 0x1_0000_0000
  }

  function Signed(p: nat): i32
    requires p < Pow2(32)
  {
    Pow2Values();
    if p < 0x8000_0000 then p as i32 else (p - 0x1_0000_0000) as i32
  }

  function XorI32(a: i32, b: i32): i32 {
    XorBound(Pattern(a), Pattern(b), 32);
    Signed(Xor(Pattern(a), Pattern(b)))
  }

  lemma XorOfBits(a: i32, b: i32)
    requires (a == 0 || a == 1) && (b == 0 || b == 1)
    ensures XorI32(a, b) == if a == b then 0 else 1
  {
    hide Xor, Pow2;
    XorUnits();
  }

  lemma XorUnits()
    ensures Xor(0, 0) == 0 && Xor(1, 1) == 0 && Xor(0, 1) == 1 && Xor(1, 0) == 1
  {
    XorNothing();
    XorSelf(1);
  }

  function AndI32(a: i32, b: i32): i32 {
    AndBound(Pattern(a), Pattern(b));
    Signed(And(Pattern(a), Pattern(b)))
  }

  lemma {:induction false} AndBound(a: nat, b: nat)
    ensures And(a, b) <= a
  {
    if a != 0 && b != 0 { AndBound(a / 2, b / 2); }
  }

  lemma PatternOfSigned(p: nat)
    requires p < Pow2(32)
    ensures Pattern(Signed(p)) == p
  {
    Pow2Values();
  }

  lemma SignedOfPattern(x: i32)
    ensures Signed(Pattern(x)) == x
  {
    Pow2Values();
  }

  lemma AndMask(x: i32)
    ensures AndI32(x, -1) == x && AndI32(x, 0) == 0
  {
    Pow2Values();
    AndOnes(Pattern(x), 32);
    SignedOfPattern(x);
  }

  lemma XorI32Cancels(a: i32, b: i32)
    ensures XorI32(a, XorI32(a, b)) == b && XorI32(b, XorI32(a, b)) == a && XorI32(a, 0) == a
  {
    hide Xor, Pattern, Signed;
    var p, q := Pattern(a), Pattern(b);
    XorBound(p, q, 32);
    PatternOfSigned(Xor(p, q));
    XorCancels(p, q);
    XorCommutes(p, q);
    XorCancels(q, p);
    SignedOfPattern(a);
    SignedOfPattern(b);
    assert XorI32(a, 0) == a by { PatternOfZero(p); }
  }

  lemma PatternOfZero(p: nat)
    ensures Pattern(0) == 0 && Xor(p, 0) == p
  {
  }

  /** The masked exclusive-or exchange: with mask -1 it yields the other word, with mask 0 the same one. */
  lemma MaskedXor(a: i32, b: i32)
    ensures XorI32(a, AndI32(XorI32(a, b), -1)) == b
    ensures XorI32(b, AndI32(XorI32(a, b), -1)) == a
    ensures XorI32(a, AndI32(XorI32(a, b), 0)) == a
    ensures XorI32(b, AndI32(XorI32(a, b), 0)) == b
  {
    hide XorI32, AndI32;
    XorI32Cancels(a, b);
    XorI32Cancels(b, a);
    AndMask(XorI32(a, b));
  }
}

/** Facts about multiplication, division and remainders that the solver needs one at a time. */
module Arithmetic {
  lemma MulMonotone(m: int, x: int, y: int)
    requires 0 <= m && x <= y
    ensures m * x <= m * y
  {
  }

  lemma MulBound(a: int, b: int, x: int, y: int)
    requires 0 <= a <= x && 0 <= b <= y
    ensures 0 <= a * b <= x * y
  {
    assert (x - a) * b >= 0 && x * (y - b) >= 0;
  }

  /** Quotient and remainder are unique. */
  lemma Remainder(x: int, q: int, r: int, m: int)
    requires 0 <= r < m && x == m * q + r
    ensures x % m == r && x / m == q
  {
    var d, e := x / m, x % m;
    assert m * d + e == m * q + r;
    if d < q {
      MulMonotone(m, d + 1, q);
    } else if q < d {
      MulMonotone(m, q + 1, d);
    }
  }

  lemma AddMultiple(x: int, k: int, m: int)
    requires m > 0
    ensures (x + m * k) % m == x % m
  {
    Remainder(x + m * k, x / m + k, x % m, m);
  }

  /** Congruence is preserved by products. */
  lemma MulMod(x: int, y: int, m: int)
    requires m > 0
    ensures (x * y) % m == ((x % m) * (y % m)) % m
  {
    MulModLeft(x, y, m);
    var r := x % m;
    assert r * y == y * r;
    MulModLeft(y, r, m);
    assert (y % m) * r == r * (y % m);
  }

  lemma MulModLeft(x: int, y: int, m: int)
    requires m > 0
    ensures (x * y) % m == ((x % m) * y) % m
  {
    assert x * y == (x % m) * y + m * ((x / m) * y) by { Distribute(x, y, m); }
    AddMultiple((x % m) * y, (x / m) * y, m);
  }

  lemma Distribute(x: int, y: int, m: int)
    requires m > 0
    ensures x * y == (x % m) * y + m * ((x / m) * y)
  {
    var q, r := x / m, x % m;
    assert x == m * q + r;
    assert (m * q + r) * y == r * y + m * (q * y);
  }

  /** Multiplication modulo m. */
  function TimesMod(a: int, b: int, m: int): int
    requires m > 0
  {
    (a * b) % m
  }

  lemma TimesModReduces(a: int, b: int, m: int)
    requires m > 0
    ensures TimesMod(a % m, b % m, m) == (a * b) % m
  {
    MulMod(a, b, m);
  }

  lemma TimesModAssociates(a: int, b: int, c: int, m: int)
    requires m > 0
    ensures TimesMod(TimesMod(a, b, m), c, m) == TimesMod(a, TimesMod(b, c, m), m)
    ensures TimesMod(a, b, m) == TimesMod(b, a, m)
  {
    hide TimesMod;
    TimesModIs(a, b, m);
    TimesModIs(b, c, m);
    TimesModOfRemainder(a * b, c, m);
    TimesModOfRemainder(b * c, a, m);
    Reorder(a, b, c);
    TimesModCommutes(a, b, m);
    TimesModCommutes(a, TimesMod(b, c, m), m);
  }

  lemma TimesModIs(a: int, b: int, m: int)
    requires m > 0
    ensures TimesMod(a, b, m) == (a * b) % m
  {
  }

  lemma TimesModCommutes(a: int, b: int, m: int)
    requires m > 0
    ensures TimesMod(a, b, m) == TimesMod(b, a, m)
  {
    Commute(a, b);
  }

  lemma TimesModOfRemainder(x: int, y: int, m: int)
    requires m > 0
    ensures TimesMod(x % m, y, m) == (x * y) % m
  {
    MulModLeft(x, y, m);
  }

  lemma Commute(x: int, y: int)
    ensures x * y == y * x
  {
  }

  lemma Reorder(a: int, b: int, c: int)
    ensures (a * b) * c == (b * c) * a
  {
  }

  lemma AddMod(x: int, y: int, m: int)
    requires m > 0
    ensures (x + y) % m == (x % m + y % m) % m
    ensures (x - y) % m == (x % m - y % m) % m
  {
    AddCongruent(x, y, x / m, y / m, x % m, y % m, m);
  }

  lemma AddCongruent(x: int, y: int, p: int, q: int, r: int, s: int, m: int)
    requires m > 0 && x == m * p + r && y == m * q + s
    ensures (x + y) % m == (r + s) % m
    ensures (x - y) % m == (r - s) % m
  {
    SumForm(x, y, p, q, r, s, m);
    AddMultiple(r + s, p + q, m);
    AddMultiple(r - s, p - q, m);
  }

  lemma SumForm(x: int, y: int, p: int, q: int, r: int, s: int, m: int)
    requires x == m * p + r && y == m * q + s
    ensures x + y == r + s + m * (p + q) && x - y == r - s + m * (p - q)
  {
    FactorOut(m, p, q);
  }

  lemma FactorOut(m: int, p: int, q: int)
    ensures m * p + m * q == m * (p + q) && m * p - m * q == m * (p - q)
  {
  }

  /** Adding before or after reducing. */
  lemma AddAfterMod(x: int, n: int, m: int)
    requires m > 0
    ensures (x % m + n) % m == (x + n) % m
  {
    AddMultiple(x % m + n, x / m, m);
  }

  lemma SumProductMod(x: int, n: int, r: int, m: int)
    requires m > 0
    ensures ((x + n) * r) % m == ((x % m + n) * r) % m
  {
    var q, e := x / m, x % m;
    assert x == m * q + e;
    assert (m * q + e + n) * r == (e + n) * r + m * (q * r) by { Expand(m, q, e + n, r); }
    AddMultiple((e + n) * r, q * r, m);
  }

  lemma Expand(m: int, q: int, y: int, r: int)
    ensures (m * q + y) * r == y * r + m * (q * r)
  {
  }

  /** Dividing twice is dividing by the product. */
  lemma DivideTwice(x: nat, a: nat, b: nat)
    requires a > 0 && b > 0
    ensures a * b > 0 && x / a / b == x / (a * b)
  {
    NestedQuotient(x, a, b, x / a, x % a, x / a / b, x / a % b);
  }

  lemma NestedQuotient(x: nat, a: nat, b: nat, y: nat, r: nat, q: nat, s: nat)
    requires x == a * y + r && r < a && y == b * q + s && s < b
    ensures a * b > 0 && x / (a * b) == q
  {
    Nested(a, b, q, s, r);
    Remainder(x, q, a * s + r, a * b);
  }

  lemma Nested(a: nat, b: nat, q: nat, s: nat, r: nat)
    requires r < a && s < b
    ensures a * b > 0 && a * (b * q + s) + r == (a * b) * q + (a * s + r) && a * s + r < a * b
  {
    MulMonotone(a, s + 1, b);
    assert a * (b * q) == (a * b) * q;
  }

  function Min(x: nat, y: nat): nat { if x <= y then x else y }

  /** The distance from x to the next multiple of a power of two: (~x + 1) & (pow2 - 1). */
  function Gap(x: nat, pow2: nat): (y: nat)
    requires x < 0x1_0000_0000_0000_0000 && pow2 in {8, 16, 128}
    ensures y < pow2 && (x + y) % pow2 == 0
  {
    GapCloses(x, pow2);
    ((0xffff_ffff_ffff_ffff - x + 1) % 0x1_0000_0000_0000_0000) % pow2
  }

  lemma GapCloses(x: nat, pow2: nat)
    requires x < 0x1_0000_0000_0000_0000 && pow2 in {8, 16, 128}
    ensures var y := ((0xffff_ffff_ffff_ffff - x + 1) % 0x1_0000_0000_0000_0000) % pow2; 0 <= y < pow2 && (x + y) % pow2 == 0
  {
    var z := (0xffff_ffff_ffff_ffff - x + 1) % 0x1_0000_0000_0000_0000;
    var m := if x == 0 then 0 else if pow2 == 8 then 0x2000_0000_0000_0000 else if pow2 == 16 then 0x1000_0000_0000_0000 else 0x200_0000_0000_0000;
    assert x + z == pow2 * m;
    RemainderCloses(x, z, pow2, m);
  }

  lemma RemainderCloses(x: nat, z: nat, p: nat, m: nat)
    requires p > 0 && x + z == p * m
    ensures (x + z % p) % p == 0 && 0 <= z % p < p
  {
    assert x + z % p == p * (m - z / p);
    Remainder(x + z % p, m - z / p, 0, p);
  }
}

/** Counting by sets. */
module Counting {
  function UpTo(n: nat): (s: set<int>)
    ensures |s| == n && forall x :: x in s <==> 0 <= x < n
  {
    if n == 0 then {} else UpTo(n - 1) + {n - 1}
  }

  function Elements(s: seq<int>): (e: set<int>)
    ensures forall x :: x in e <==> x in s
  {
    if s == [] then {} else Elements(s[1..]) + {s[0]}
  }

  lemma {:induction false} ElementsCount(s: seq<int>)
    requires forall x, y | 0 <= x < y < |s| :: s[x] != s[y]
    ensures |Elements(s)| == |s|
  {
    if s != [] {
      var rest := s[1..];
      forall y | 0 <= y < |rest| ensures rest[y] != s[0] {
        assert rest[y] == s[y + 1];
      }
      assert s[0] !in Elements(rest);
      ElementsCount(rest);
    }
  }

  lemma SubsetCount(a: set<int>, b: set<int>)
    requires a <= b
    ensures |a| <= |b|
  {
    assert b == a + (b - a);
  }

  /** Distinct indices below a bound, none of them k, are fewer than the bound. */
  lemma Pigeons(s: seq<int>, k: nat, bound: nat)
    requires k < bound && (forall x | x in s :: 0 <= x < bound && x != k)
    requires forall x, y | 0 <= x < y < |s| :: s[x] != s[y]
    ensures |s| < bound
  {
    ElementsCount(s);
    SubsetCount(Elements(s), UpTo(bound) - {k});
  }
}
