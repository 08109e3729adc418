/** The X25519 Montgomery ladder. */
module Ladder {
  import opened Machine
  import opened ByteStrings
  import opened Arithmetic
  import opened Field25519
  import opened FieldCodec

  /** The two projective points the ladder carries: (x2 : z2) and (x3 : z3). */
  datatype Points = Points(x2: int, z2: int, x3: int, z3: int) {
    function Swap(): Points { Points(x3, z3, x2, z2) }
    function SwapIf(b: bool): Points { if b then Swap() else this }
  }

  /** The ladder step as section 5 of RFC 7748 writes it, with a24 = 121665, for any modulus. */
  function StepMod(x1: int, p: Points, m: int): Points
    requires m > 0
  {
    var a := (p.x2 + p.z2) % m;
    var aa := TimesMod(a, a, m);
    var b := (p.x2 - p.z2) % m;
    var bb := TimesMod(b, b, m);
    var e := (aa - bb) % m;
    var c := (p.x3 + p.z3) % m;
    var d := (p.x3 - p.z3) % m;
    var da := TimesMod(d, a, m);
    var cb := TimesMod(c, b, m);
    var s := (da + cb) % m;
    var t := (da - cb) % m;
    Points(TimesMod(aa, bb, m), TimesMod(e, (aa + TimesMod(121665, e, m)) % m, m), TimesMod(s, s, m), TimesMod(x1, TimesMod(t, t, m), m))
  }

  /** In the field. */
  function RfcStep(x1: int, p: Points): Points { StepMod(x1, p, P) }

  lemma RfcStepIs(x1: int, p: Points)
    ensures
      var a := FAdd(p.x2, p.z2);
      var aa := FMul(a, a);
      var b := FSub(p.x2, p.z2);
      var bb := FMul(b, b);
      var e := FSub(aa, bb);
      var (da, cb) := (FMul(FSub(p.x3, p.z3), a), FMul(FAdd(p.x3, p.z3), b));
      var (s, t) := (FAdd(da, cb), FSub(da, cb));
      RfcStep(x1, p) == Points(FMul(aa, bb), FMul(e, FAdd(aa, FMul(121665, e))), FMul(s, s), FMul(x1, FMul(t, t)))
  {
    hide TimesMod;
  }

  /** The step in closed form: doubling and differential addition on the curve y^2 = x^3 + 486662 x^2 + x. */
  lemma StepFormulas(x1: int, p: Points, m: int)
    requires m > 0
    ensures
      var r, (a, b, c, d) := StepMod(x1, p, m), (p.x2, p.z2, p.x3, p.z3);
      && r.x2 == ((a * a - b * b) * (a * a - b * b)) % m
      && r.z2 == (4 * (a * b) * (a * a + 486662 * (a * b) + b * b)) % m
      && r.x3 == (4 * ((a * c - b * d) * (a * c - b * d))) % m
      && r.z3 == (4 * x1 * ((b * c - a * d) * (b * c - a * d))) % m
  {
    hide TimesMod, StepMod;
    var (a, b, c, d) := (p.x2, p.z2, p.x3, p.z3);
    var (sum, diff) := (a + b, a - b);
    var (aa, bb) := (sum * sum, diff * diff);
    var (da, cb) := ((c - d) * sum, (c + d) * diff);
    DoublingReduced(x1, p, m, sum, diff, aa, bb, aa - bb);
    AdditionReduced(x1, p, m, sum, diff, da, cb);
    DoublingIdentity(a, b);
    AdditionIdentity(x1, a, b, c, d);
  }

  /** Doubling with every value reduced only at the end. */
  lemma DoublingReduced(x1: int, p: Points, m: int, sum: int, diff: int, aa: int, bb: int, e: int)
    requires m > 0 && sum == p.x2 + p.z2 && diff == p.x2 - p.z2 && aa == sum * sum && bb == diff * diff && e == aa - bb
    ensures var r := StepMod(x1, p, m); r.x2 == (aa * bb) % m && r.z2 == (e * (aa + 121665 * e)) % m
  {
    hide TimesMod;
    Reduces(sum, sum, m); Reduces(diff, diff, m); Reduces(aa, bb, m); Reduces(121665, e, m);
    Reduces(aa, 121665 * e, m); Reduces(e, aa + 121665 * e, m);
  }

  /** The addition likewise. */
  lemma AdditionReduced(x1: int, p: Points, m: int, sum: int, diff: int, da: int, cb: int)
    requires m > 0 && sum == p.x2 + p.z2 && diff == p.x2 - p.z2
    requires da == (p.x3 - p.z3) * sum && cb == (p.x3 + p.z3) * diff
    ensures
      var r := StepMod(x1, p, m);
      r.x3 == ((da + cb) * (da + cb)) % m && r.z3 == (x1 * ((da - cb) * (da - cb))) % m
  {
    hide TimesMod;
    Reduces(sum, sum, m); Reduces(diff, diff, m);
    Reduces(p.x3 - p.z3, sum, m); Reduces(p.x3 + p.z3, diff, m); Reduces(da, cb, m);
    Reduces(da + cb, da + cb, m); Reduces(da - cb, da - cb, m); Reduces(x1, (da - cb) * (da - cb), m);
  }

  /** The operations do not mind whether their operands are reduced. */
  lemma Reduces(x: int, y: int, m: int)
    requires m > 0
    ensures (x % m + y % m) % m == (x + y) % m && (x % m - y % m) % m == (x - y) % m
    ensures TimesMod(x, y, m) == TimesMod(x % m, y % m, m) == TimesMod(x, y % m, m) == (x * y) % m
  {
    hide TimesMod;
    AddMod(x, y, m);
    TimesModIs(x, y, m);
    TimesModReduces(x, y, m);
    TimesModOfRemainder(y, x, m);
    TimesModCommutes(x, y % m, m);
    Commute(x, y);
  }

  lemma DoublingIdentity(a: int, b: int)
    ensures
      var aa, bb := (a + b) * (a + b), (a - b) * (a - b);
      var e := aa - bb;
      && aa * bb == (a * a - b * b) * (a * a - b * b)
      && e * (aa + 121665 * e) == 4 * (a * b) * (a * a + 486662 * (a * b) + b * b)
  {
    var u, v, w := a * a, a * b, b * b;
    SquareOfSum(a, b);
    assert (u + 2 * v + w) * (u - 2 * v + w) == (u + w) * (u + w) - 4 * (v * v);
    assert v * v == u * w by { Regroup(a, b); }
    assert (u + w) * (u + w) - 4 * (u * w) == (u - w) * (u - w);
  }

  lemma SquareOfSum(a: int, b: int)
    ensures (a + b) * (a + b) == a * a + 2 * (a * b) + b * b
    ensures (a - b) * (a - b) == a * a - 2 * (a * b) + b * b
  {
  }

  lemma Regroup(a: int, b: int)
    ensures (a * b) * (a * b) == (a * a) * (b * b)
  {
  }

  lemma AdditionIdentity(x1: int, a: int, b: int, c: int, d: int)
    ensures
      var da, cb := (c - d) * (a + b), (c + d) * (a - b);
      && (da + cb) * (da + cb) == 4 * ((a * c - b * d) * (a * c - b * d))
      && x1 * ((da - cb) * (da - cb)) == 4 * x1 * ((b * c - a * d) * (b * c - a * d))
  {
    var da, cb := (c - d) * (a + b), (c + d) * (a - b);
    var s, t := a * c - b * d, b * c - a * d;
    assert da + cb == 2 * s && da - cb == 2 * t;
    assert (2 * s) * (2 * s) == 4 * (s * s) && (2 * t) * (2 * t) == 4 * (t * t);
    Scale4(x1, t * t);
  }

  lemma Scale4(x: int, y: int)
    ensures x * (4 * y) == 4 * x * y
  {
  }

  // ---- Scalar bits ----

  /** The points after n bits of k have been worked off from the top, as section 5 of RFC 7748 does it: those for k / 2,
      then one step in the order the last bit selects. */
  function PlainLadder(x1: int, k: nat, n: nat, p: Points): Points {
    if n == 0 then p
    else
      var q := PlainLadder(x1, k / 2, n - 1, p);
      if k % 2 == 1 then RfcStep(x1, q.Swap()).Swap() else RfcStep(x1, q)
  }

  /** Take any relation that says of a pair of points which multiples m and m + 1 they stand for.  If the step turns m and
      m + 1 into 2 m and 2 m + 1, or with the points exchanged before and after into 2 m + 1 and 2 m + 2, then n bits of k turn
      multiple j into j 2^n + k mod 2^n. */
  lemma {:induction false} LadderMultiplies(x1: int, k: nat, n: nat, p: Points, j: nat, stands: (nat, Points) -> bool)
    requires stands(j, p)
    requires forall m: nat, q :: stands(m, q) ==> stands(2 * m, RfcStep(x1, q)) && stands(2 * m + 1, RfcStep(x1, q.Swap()).Swap())
    ensures stands(j * Bits.Pow2(n) + k % Bits.Pow2(n), PlainLadder(x1, k, n, p))
    decreases n
  {
    hide RfcStep, Bits.Pow2;
    if n == 0 {
      ModOnePower(k);
    } else {
      LadderMultiplies(x1, k / 2, n - 1, p, j, stands);
      LastBit(j, k, n);
    }
  }

  lemma ModOnePower(k: nat)
    ensures Bits.Pow2(0) == 1 && k % 1 == 0
  {
  }

  lemma LastBit(j: nat, k: nat, n: nat)
    requires n > 0
    ensures
      var m := j * Bits.Pow2(n - 1) + k / 2 % Bits.Pow2(n - 1);
      j * Bits.Pow2(n) + k % Bits.Pow2(n) == 2 * m + k % 2
  {
    var w, h := Bits.Pow2(n - 1), k / 2;
    var q, r := h / w, h % w;
    assert h == w * q + r;
    Bits.DoubleProduct(w, q);
    assert k == (2 * w) * q + (2 * r + k % 2);
    Remainder(k, q, 2 * r + k % 2, 2 * w);
    assert j * (2 * w) == 2 * (j * w);
  }

  /** The bit at a position, counted within the bytes, is the bit of the little-endian number. */
  lemma {:induction false} ScalarBit(s: bytes, pos: nat)
    requires pos / 8 < |s|
    ensures s[pos / 8] as int / Bits.Pow2(pos % 8) % 2 == LeNat(s) / Bits.Pow2(pos) % 2
    decreases |s|
  {
    var t := LeNat(s[1..]);
    if pos < 8 {
      LowByteBit(s[0] as int, t, pos);
    } else {
      ScalarBit(s[1..], pos - 8);
      assert s[1..][(pos - 8) / 8] == s[pos / 8];
      DropByte(s[0] as int, t, pos);
    }
  }

  lemma LowByteBit(b: nat, t: nat, pos: nat)
    requires b < 0x100 && pos < 8
    ensures (b + 0x100 * t) / Bits.Pow2(pos) % 2 == b / Bits.Pow2(pos) % 2
  {
    Bits.Pow2Add(pos, 7 - pos);
    assert Bits.Pow2(7) == 0x80;
    EvenAbove(b, t, Bits.Pow2(pos), Bits.Pow2(7 - pos));
  }

  lemma EvenAbove(b: nat, t: nat, p: nat, m: nat)
    requires p > 0 && p * m == 0x80
    ensures (b + 0x100 * t) / p % 2 == b / p % 2
  {
    var u := 2 * (m * t);
    assert 0x100 * t == p * u by { Reassociate(p, m, t); }
    Remainder(b + 0x100 * t, b / p + u, b % p, p);
    AddMultiple(b / p, m * t, 2);
  }

  lemma Reassociate(p: nat, m: nat, t: nat)
    requires p * m == 0x80
    ensures 0x100 * t == p * (2 * (m * t))
  {
    assert p * (2 * (m * t)) == 2 * ((p * m) * t);
  }

  lemma DropByte(b: nat, t: nat, pos: nat)
    requires b < 0x100 && pos >= 8
    ensures (b + 0x100 * t) / Bits.Pow2(pos) == t / Bits.Pow2(pos - 8)
  {
    Bits.Pow2Add(8, pos - 8);
    assert Bits.Pow2(8) == 0x100;
    DivideTwice(b + 0x100 * t, 0x100, Bits.Pow2(pos - 8));
    Digits(b, t);
  }

  lemma Digits(b: nat, t: nat)
    requires b < 0x100
    ensures (b + 0x100 * t) / 0x100 == t
  {
  }

  lemma NextBit(k: nat, pos: nat)
    ensures k / Bits.Pow2(pos + 1) == (k / Bits.Pow2(pos)) / 2
  {
    Bits.Pow2Add(pos, 1);
    assert Bits.Pow2(1) == 2;
    DivideTwice(k, Bits.Pow2(pos), 2);
  }

  /** A number of no more than n bits has none above. */
  lemma NoBitsAbove(k: nat)
    ensures k / Bits.Pow2(0) == k
  {
  }

  /** BB + 121666 E is the same field element as AA + 121665 E when E = AA - BB. */
  lemma ConstantsAgree(aa: int, bb: int)
    ensures var e := FSub(aa, bb); FAdd(bb, FMul(e, 121666)) == FAdd(aa, FMul(121665, e))
  {
    var p := 0x7fffffffffffffffffffffffffffffffffffffffffffffffffffffffffffffed;
    var e := (aa - bb) % p;
    var k := (e * 121666) / p - (121665 * e) / p + (aa - bb) / p;
    assert bb + (e * 121666) % p == aa + (121665 * e) % p - p * k;
    DropMultiple(aa + (121665 * e) % p, k);
  }

  /** The seven field registers of scalarmult are distinct local arrays. */
  ghost predicate Separate(x1: array<i32>, x2: array<i32>, z2: array<i32>, x3: array<i32>, z3: array<i32>, t0: array<i32>, t1: array<i32>) {
    x1.Length == x2.Length == z2.Length == x3.Length == z3.Length == t0.Length == t1.Length == 10
    && x1 != x2 && x1 != z2 && x1 != x3 && x1 != z3 && x1 != t0 && x1 != t1
    && x2 != z2 && x2 != x3 && x2 != z3 && x2 != t0 && x2 != t1
    && z2 != x3 && z2 != z3 && z2 != t0 && z2 != t1
    && x3 != z3 && x3 != t0 && x3 != t1 && z3 != t0 && z3 != t1 && t0 != t1
  }

  function Current(x2: array<i32>, z2: array<i32>, x3: array<i32>, z3: array<i32>): Points
    requires x2.Length == z2.Length == x3.Length == z3.Length == 10
    reads x2, z2, x3, z3
  {
    Points(Rep(x2[..]), Rep(z2[..]), Rep(x3[..]), Rep(z3[..]))
  }

  lemma TightIsReady()
    ensures forall f: Limbs, g: Limbs :: Tight(f) && Tight(g) ==> SumFits(f, g)
    ensures forall f: Limbs, g: Limbs :: Tight(f) && Tight(g) ==> DifferenceFits(f, g)
    ensures forall f: Limbs :: Tight(f) ==> Loose(f)
  {
  }

  /** Leaves A in x2, B in t1, DA in z3 and CB in z2. */
  method CrossProducts(x1: array<i32>, x2: array<i32>, z2: array<i32>, x3: array<i32>, z3: array<i32>, t0: array<i32>, t1: array<i32>)
    requires Separate(x1, x2, z2, x3, z3, t0, t1)
    requires Tight(x2[..]) && Tight(z2[..]) && Tight(x3[..]) && Tight(z3[..])
    modifies x2, z2, z3, t0, t1
    ensures Loose(x2[..]) && Loose(t1[..]) && Tight(z2[..]) && Tight(z3[..])
    ensures
      var p := old(Current(x2, z2, x3, z3));
      Rep(x2[..]) == FAdd(p.x2, p.z2) && Rep(t1[..]) == FSub(p.x2, p.z2)
      && Rep(z3[..]) == FMul(FSub(p.x3, p.z3), Rep(x2[..])) && Rep(z2[..]) == FMul(FAdd(p.x3, p.z3), Rep(t1[..]))
  {
    TightIsReady();
    hide Rep, FMul, FAdd, FSub, Tight, Loose, SumFits, DifferenceFits;
    FeSub(t0, x3, z3);
    FeSub(t1, x2, z2);
    FeAdd(x2, x2, z2);
    FeAdd(z2, x3, z3);
    FeMul(z3, t0, x2);
    FeMul(z2, z2, t1);
  }

  /** From A, B, DA and CB to the new P2 numerator AA * BB, with E in t1, BB in t0, and the sum and squared difference. */
  method SquaresAndSums(x1: array<i32>, x2: array<i32>, z2: array<i32>, x3: array<i32>, z3: array<i32>, t0: array<i32>, t1: array<i32>)
    requires Separate(x1, x2, z2, x3, z3, t0, t1)
    requires Loose(x2[..]) && Loose(t1[..]) && Tight(z2[..]) && Tight(z3[..])
    modifies x2, z2, x3, t0, t1
    ensures Tight(x2[..]) && Tight(z2[..]) && Loose(x3[..]) && Loose(t1[..]) && Tight(t0[..])
    ensures
      var aa, bb := FMul(old(Rep(x2[..])), old(Rep(x2[..]))), FMul(old(Rep(t1[..])), old(Rep(t1[..])));
      var s, t := FAdd(old(Rep(z3[..])), old(Rep(z2[..]))), FSub(old(Rep(z3[..])), old(Rep(z2[..])));
      Rep(t0[..]) == bb && Rep(x2[..]) == FMul(aa, bb) && Rep(t1[..]) == FSub(aa, bb)
      && Rep(x3[..]) == s && Rep(z2[..]) == FMul(t, t)
  {
    TightIsReady();
    hide Rep, FMul, FAdd, FSub, Tight, Loose, SumFits, DifferenceFits;
    FeSq(t0, t1);
    FeSq(t1, x2);
    FeAdd(x3, z3, z2);
    FeSub(z2, z3, z2);
    FeMul(x2, t1, t0);
    FeSub(t1, t1, t0);
    FeSq(z2, z2);
  }

  /** One iteration of the ladder loop after the conditional swap: every multiplication meets its
      precondition, and the four coordinates move exactly as the RFC 7748 step says. */
  method LadderStep(x1: array<i32>, x2: array<i32>, z2: array<i32>, x3: array<i32>, z3: array<i32>, t0: array<i32>, t1: array<i32>)
    requires Separate(x1, x2, z2, x3, z3, t0, t1)
    requires Tight(x1[..]) && Tight(x2[..]) && Tight(z2[..]) && Tight(x3[..]) && Tight(z3[..])
    modifies x2, z2, x3, z3, t0, t1
    ensures Tight(x2[..]) && Tight(z2[..]) && Tight(x3[..]) && Tight(z3[..])
    ensures Current(x2, z2, x3, z3) == RfcStep(Rep(x1[..]), old(Current(x2, z2, x3, z3)))
  {
    TightIsReady();
    hide Rep, FMul, FAdd, FSub, Tight, Loose, SumFits, DifferenceFits, RfcStep;
    RfcStepIs(Rep(x1[..]), Current(x2, z2, x3, z3));
    CrossProducts(x1, x2, z2, x3, z3, t0, t1);
    ghost var a, b := Rep(x2[..]), Rep(t1[..]);
    SquaresAndSums(x1, x2, z2, x3, z3, t0, t1);
    FeMulSmall(z3, t1, 121666);
    FeSq(x3, x3);
    FeAdd(t0, t0, z3);
    FeMul(z3, x1, z2);
    FeMul(z2, t1, t0);
    ConstantsAgree(FMul(a, a), FMul(b, b));
  }

  /** scalar_bit for a position inside the scalar. */
  method BitOf(s: bytes, pos: nat) returns (b: i32)
    requires pos / 8 < |s|
    ensures b as int == LeNat(s) / Bits.Pow2(pos) % 2
  {
    ScalarBit(s, pos);
    b := (s[pos / 8] as int / Bits.Pow2(pos % 8) % 2) as i32;
  }

  method SwapPoints(x2: array<i32>, z2: array<i32>, x3: array<i32>, z3: array<i32>, swap: i32)
    requires x2.Length == z2.Length == x3.Length == z3.Length == 10 && (swap == 0 || swap == 1)
    requires x2 != z2 && x2 != x3 && x2 != z3 && z2 != x3 && z2 != z3 && x3 != z3
    requires Tight(x2[..]) && Tight(z2[..]) && Tight(x3[..]) && Tight(z3[..])
    modifies x2, z2, x3, z3
    ensures Tight(x2[..]) && Tight(z2[..]) && Tight(x3[..]) && Tight(z3[..])
    ensures Current(x2, z2, x3, z3) == old(Current(x2, z2, x3, z3)).SwapIf(swap == 1)
  {
    hide Rep, Tight;
    FeCswap(x2, x3, swap);
    FeCswap(z2, z3, swap);
  }

  /** One pass of the loop: swap the points if the xor of this bit and the last asks for it, then step. */
  method Iterate(scalar: bytes, pos: nat, swap: i32, x1: array<i32>, x2: array<i32>, z2: array<i32>, x3: array<i32>, z3: array<i32>,
                 t0: array<i32>, t1: array<i32>) returns (b: i32)
    requires pos / 8 < |scalar| && (swap == 0 || swap == 1)
    requires Separate(x1, x2, z2, x3, z3, t0, t1)
    requires Tight(x1[..]) && Tight(x2[..]) && Tight(z2[..]) && Tight(x3[..]) && Tight(z3[..])
    modifies x2, z2, x3, z3, t0, t1
    ensures Tight(x2[..]) && Tight(z2[..]) && Tight(x3[..]) && Tight(z3[..])
    ensures b as int == LeNat(scalar) / Bits.Pow2(pos) % 2
    ensures
      var plain := old(Current(x2, z2, x3, z3)).SwapIf(swap == 1);
      Current(x2, z2, x3, z3) == RfcStep(Rep(x1[..]), plain.SwapIf(b == 1))
  {
    hide Rep, Tight, RfcStep, LeNat, Pow256;
    b := BitOf(scalar, pos);
    Bits.XorOfBits(swap, b);
    SwapPoints(x2, z2, x3, z3, Bits.XorI32(swap, b));
    LadderStep(x1, x2, z2, x3, z3, t0, t1);
  }

  /** The loop of scalarmult with its deferred swap, for every scalar, point and bit count:
      it computes the plain ladder, and keeps all four coordinates within the carried bounds. */
  method RunLadder(scalar: bytes, nbBits: nat, x1: array<i32>, x2: array<i32>, z2: array<i32>, x3: array<i32>, z3: array<i32>,
                   t0: array<i32>, t1: array<i32>)
    requires nbBits <= 8 * |scalar|
    requires Separate(x1, x2, z2, x3, z3, t0, t1)
    requires Tight(x1[..]) && Tight(x2[..]) && Tight(z2[..]) && Tight(x3[..]) && Tight(z3[..])
    modifies x2, z2, x3, z3, t0, t1
    ensures Tight(x2[..]) && Tight(z2[..])
    ensures Current(x2, z2, x3, z3) == PlainLadder(Rep(x1[..]), LeNat(scalar), nbBits, old(Current(x2, z2, x3, z3)))
  {
    hide Rep, Tight, RfcStep, LeNat, Bits.Pow2, Pow256;
    var swap: i32 := 0;
    ghost var k := LeNat(scalar);
    var pos := nbBits;
    ghost var x, start := Rep(x1[..]), Current(x2, z2, x3, z3);
    while pos > 0
      invariant 0 <= pos <= nbBits && (swap == 0 || swap == 1)
      invariant Tight(x2[..]) && Tight(z2[..]) && Tight(x3[..]) && Tight(z3[..])
      invariant Current(x2, z2, x3, z3) == PlainLadder(x, k / Bits.Pow2(pos), nbBits - pos, start).SwapIf(swap == 1)
    {
      pos := pos - 1;
      NextBit(k, pos);
      swap := Iterate(scalar, pos, swap, x1, x2, z2, x3, z3, t0, t1);
    }
    NoBitsAbove(k);
    SwapPoints(x2, z2, x3, z3, swap);
  }

  method FeSmall(h: array<i32>, k: i32)
    requires h.Length == 10 && 0 <= k <= 1
    modifies h
    ensures Tight(h[..]) && Rep(h[..]) == k as int
  {
    hide Tight, Rep;
    h[0] := k;
    for i := 1 to 10
      invariant h[0] == k && forall j | 1 <= j < i :: h[j] == 0
    {
      h[i] := 0;
    }
    SmallValue(h[..], k);
  }

  lemma SmallValue(h: Limbs, k: i32)
    requires 0 <= k <= 1 && h[0] == k && forall j | 1 <= j < 10 :: h[j] == 0
    ensures Tight(h) && Rep(h) == k as int
  {
    assert Val(h) == k as int;
    Remainder(k as int, 0, k as int, P);
  }

  method FeCopy(h: array<i32>, f: array<i32>)
    requires h.Length == 10 && f.Length == 10
    modifies h
    ensures h[..] == old(f[..])
  {
    for i := 0 to 10
      invariant forall j | 0 <= j < i :: h[j] == old(f[j])
      invariant forall j | i <= j < 10 :: f[j] == old(f[j])
    {
      h[i] := f[i];
    }
  }
}
