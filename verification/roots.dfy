/** Inverse square roots modulo a number p = 8 e + 5 with a square root i of -1. */
module SquareRoots {
  import opened Arithmetic
  import opened Primes

  predicate Setting(e: nat, i: int, p: int) { p == 8 * e + 5 && 0 < i < p && TimesMod(i, i, p) == p - 1 }

  /** x^((p-5)/8). */
  function Root(x: int, e: nat, p: int): int
    requires p > 0
  {
    PowMod(x, e, p)
  }

  /** x^((p-1)/4): the class of x. */
  function Quartic(x: int, e: nat, p: int): int
    requires p > 0
  {
    TimesMod(TimesMod(Root(x, e, p), Root(x, e, p), p), x, p)
  }

  /** The root candidate, times i in the classes -1 and -i. */
  function InvRoot(x: int, e: nat, i: int, p: int): int
    requires p > 0
  {
    if Quartic(x, e, p) == p - 1 || Quartic(x, e, p) == p - i then TimesMod(Root(x, e, p), i, p) else Root(x, e, p)
  }

  function Check(x: int, r: int, p: int): int
    requires p > 0
  {
    TimesMod(TimesMod(r, r, p), x, p)
  }

  predicate IsSquare(x: int, p: int)
    requires p > 0
  {
    exists y | 0 <= y < p :: SquaresTo(y, x, p)
  }

  predicate SquaresTo(y: int, x: int, p: int)
    requires p > 0
  {
    TimesMod(y, y, p) == x
  }

  // ---- The four classes ----

  /** The square of the inverse root times x is 1 in the classes 1 and -1, and i in the classes i and -i. */
  lemma InverseRoot(x: int, e: nat, i: int, p: int)
    requires Setting(e, i, p)
    ensures
      var q, s := Quartic(x, e, p), Check(x, InvRoot(x, e, i, p), p);
      (q == 1 || q == p - 1 ==> s == 1) && (q == i || q == p - i ==> s == i)
  {
    hide Root, TimesMod, PowMod;
    var a := Root(x, e, p);
    FactorSquared(a, i, x, p);
    Opposites(1, p);
    Opposites(i, p);
    DistinctClasses(i, p);
  }

  /** Multiplying by -1. */
  lemma Opposites(a: int, p: int)
    requires 0 < a < p
    ensures TimesMod(p - a, p - 1, p) == a && TimesMod(a, p - 1, p) == p - a
  {
    assert (p - a) * (p - 1) == p * (p - 1 - a) + a;
    Remainder((p - a) * (p - 1), p - 1 - a, a, p);
    assert a * (p - 1) == p * (a - 1) + (p - a);
    Remainder(a * (p - 1), a - 1, p - a, p);
  }

  lemma DistinctClasses(i: int, p: int)
    requires p > 2 && 0 < i < p && TimesMod(i, i, p) == p - 1
    ensures i != 1 && i != p - 1
  {
    Opposites(1, p);
    OneTimes(1, p);
  }

  /** A factor taken in before squaring comes out squared. */
  lemma FactorSquared(a: int, i: int, z: int, m: int)
    requires m > 0
    ensures
      var twisted := TimesMod(a, i, m);
      TimesMod(TimesMod(twisted, twisted, m), z, m) == TimesMod(TimesMod(TimesMod(a, a, m), z, m), TimesMod(i, i, m), m)
  {
    hide TimesMod;
    var aa, ii := TimesMod(a, a, m), TimesMod(i, i, m);
    Interchange(a, i, a, i, m);
    TimesModAssociates(aa, ii, z, m);
    TimesModAssociates(ii, z, 0, m);
    TimesModAssociates(aa, z, ii, m);
  }

  /** The square of the class is x^((p-1)/2). */
  lemma QuarticSquared(x: int, e: nat, p: int)
    requires p > 1 && 0 <= x < p
    ensures Quartic(x, e, p) == PowMod(x, 2 * e + 1, p)
    ensures TimesMod(Quartic(x, e, p), Quartic(x, e, p), p) == PowMod(x, 4 * e + 2, p)
  {
    hide TimesMod, PowMod;
    PowOne(x, p);
    PowModAdd(x, e, e, p);
    PowModAdd(x, e + e, 1, p);
    PowModAdd(x, 2 * e + 1, 2 * e + 1, p);
  }

  lemma HalfPowers(x: int, e: nat, p: int)
    requires IsPrime(p) && p == 8 * e + 5 && 0 < x < p
    ensures PowMod(x, 4 * e + 2, p) == 1 || PowMod(x, 4 * e + 2, p) == p - 1
    ensures PowMod(x, p - 1, p) == 1
  {
    hide PowMod, IsPrime;
    Euler(x, p, 4 * e + 2);
    Fermat(x, p);
  }

  /** For a nonzero x and a prime p there are only the four classes; 1 and -1 are those with x^((p-1)/2) = 1. */
  lemma QuarticClasses(x: int, e: nat, i: int, p: int)
    requires IsPrime(p) && Setting(e, i, p) && 0 < x < p
    ensures var q := Quartic(x, e, p); q == 1 || q == p - 1 || q == i || q == p - i
    ensures var q := Quartic(x, e, p); q == 1 || q == p - 1 <==> PowMod(x, 4 * e + 2, p) == 1
  {
    hide TimesMod, PowMod, Quartic, IsPrime;
    var q := Quartic(x, e, p);
    QuarticSquared(x, e, p);
    HalfPowers(x, e, p);
    PowRange(x, 2 * e + 1, p);
    OneTimes(1, p);
    Opposites(1, p);
    TimesModAssociates(p - 1, p - 1, 1, p);
    SameSquares(q, if PowMod(x, 4 * e + 2, p) == 1 then 1 else i, p);
  }

  // ---- Squares ----

  /** Squares are exactly zero and the elements of the classes 1 and -1. */
  lemma SquareClasses(x: int, e: nat, i: int, p: int)
    requires IsPrime(p) && Setting(e, i, p) && 0 <= x < p
    ensures IsSquare(x, p) <==> x == 0 || Quartic(x, e, p) == 1 || Quartic(x, e, p) == p - 1
  {
    hide TimesMod, PowMod, Quartic, InvRoot, IsPrime;
    if x == 0 {
      ZeroTimes(0, p);
      assert SquaresTo(0, x, p);
    } else if Quartic(x, e, p) == 1 || Quartic(x, e, p) == p - 1 {
      var r := InvRoot(x, e, i, p);
      InverseRoot(x, e, i, p);
      RootBack(x, r, p);
      assert SquaresTo(TimesMod(x, r, p), x, p);
    } else if IsSquare(x, p) {
      var y :| 0 <= y < p && SquaresTo(y, x, p);
      if y == 0 { ZeroTimes(0, p); }
      PowModOfSquare(y, 4 * e + 2, p);
      HalfPowers(y, e, p);
      QuarticClasses(x, e, i, p);
    }
  }

  lemma ZeroTimes(x: int, p: int)
    requires p > 0
    ensures TimesMod(0, x, p) == 0
  {
  }

  /** If r squared times x is 1, then x r is a square root of x. */
  lemma RootBack(x: int, r: int, p: int)
    requires p > 1 && 0 <= x < p && Check(x, r, p) == 1
    ensures var y := TimesMod(x, r, p); 0 <= y < p && TimesMod(y, y, p) == x
  {
    ProductRange(x, r, p);
    RootBackValue(x, r, p);
  }

  lemma ProductRange(x: int, y: int, p: int)
    requires p > 0
    ensures 0 <= TimesMod(x, y, p) < p
  {
  }

  lemma RootBackValue(x: int, r: int, p: int)
    requires p > 1 && 0 <= x < p && Check(x, r, p) == 1
    ensures var y := TimesMod(x, r, p); TimesMod(y, y, p) == x
  {
    hide TimesMod;
    var s := TimesMod(r, r, p);
    Interchange(x, r, x, r, p);
    TimesModAssociates(x, x, s, p);
    TimesModAssociates(x, s, 0, p);
    OneTimes(x, p);
  }

  // ---- Inverses ----

  /** Zero, or with (p-1)/2-th power 1 or -1. */
  predicate MeetsEuler(z: int, e: nat, p: int)
    requires p > 0
  {
    z == 0 || PowMod(z, 4 * e + 2, p) == 1 || PowMod(z, 4 * e + 2, p) == p - 1
  }

  /** The square of the inverse root of z^2, times z, is z^(p-2). */
  lemma InverseExponent(z: int, e: nat, i: int, p: int)
    requires Setting(e, i, p) && 0 <= z < p && MeetsEuler(z, e, p)
    ensures var x := TimesMod(z, z, p); Check(z, InvRoot(x, e, i, p), p) == PowMod(z, p - 2, p)
  {
    hide TimesMod, PowMod;
    var x, y := TimesMod(z, z, p), PowMod(z, 4 * e + 1, p);
    SquarePowers(z, e, p);
    DistinctClasses(i, p);
    PowRange(z, 4 * e + 1, p);
    OneTimes(y, p);
    if z == 0 {
      ZeroPower(4 * e + 1, p);
      ZeroPower(4 * e + 2, p);
      ZeroPower(p - 2, p);
      ZeroTimes(p - 1, p);
    }
    FactorSquared(Root(x, e, p), i, z, p);
  }

  /** The intermediate values for x = z^2 as powers of z. */
  lemma SquarePowers(z: int, e: nat, p: int)
    requires p == 8 * e + 5 && 0 <= z < p
    ensures
      var x := TimesMod(z, z, p);
      Check(z, Root(x, e, p), p) == PowMod(z, 4 * e + 1, p) && Quartic(x, e, p) == PowMod(z, 4 * e + 2, p)
    ensures PowMod(z, p - 2, p) == TimesMod(PowMod(z, 4 * e + 1, p), PowMod(z, 4 * e + 2, p), p)
  {
    hide TimesMod, PowMod;
    PowOne(z, p);
    PowModAdd(z, 1, 1, p);
    PowModOfSquare(z, e, p);
    PowModAdd(z, 2 * e, 2 * e, p);
    PowModAdd(z, 4 * e, 1, p);
    PowModAdd(z, 4 * e, 2, p);
    PowModAdd(z, 4 * e + 1, 4 * e + 2, p);
    assert p - 2 == 4 * e + 1 + (4 * e + 2);
  }

  /** For a prime p every element meets Euler's criterion, and z^(p-2) is its inverse, or zero for zero. */
  lemma InverseOf(z: int, e: nat, p: int)
    requires IsPrime(p) && p == 8 * e + 5 && 0 <= z < p
    ensures MeetsEuler(z, e, p)
    ensures if z == 0 then PowMod(z, p - 2, p) == 0 else TimesMod(z, PowMod(z, p - 2, p), p) == 1
  {
    hide TimesMod, IsPrime;
    if z == 0 {
      ZeroPower(p - 2, p);
    } else {
      HalfPowers(z, e, p);
    }
  }

  lemma ZeroPower(n: nat, p: int)
    requires p > 0 && n > 0
    ensures PowMod(0, n, p) == 0
  {
    ZeroTimes(PowMod(0, n - 1, p), p);
  }

  lemma RootOfZero(e: nat, i: int, p: int)
    requires p > 1 && e > 0 && 0 < i < p
    ensures Quartic(0, e, p) == 0 && InvRoot(0, e, i, p) == 0
  {
    hide PowMod;
    ZeroPower(e, p);
    ZeroTimes(0, p);
    ZeroTimes(i, p);
  }

  // ---- Summaries ----

  /** All that is promised of the inverse root: an inverse root of x or of x / i, and which. */
  lemma EveryClass(x: int, e: nat, i: int, p: int)
    requires IsPrime(p) && Setting(e, i, p) && e > 0 && 0 <= x < p
    ensures
      var q, r := Quartic(x, e, p), InvRoot(x, e, i, p);
      && (IsSquare(x, p) <==> x == 0 || q == 1 || q == p - 1)
      && (x == 0 ==> r == 0)
      && (x != 0 ==> Check(x, r, p) == if IsSquare(x, p) then 1 else i)
  {
    hide PowMod, TimesMod, Root, Quartic, InvRoot, IsSquare, IsPrime, Check;
    InverseRoot(x, e, i, p);
    RootOfZero(e, i, p);
    SquareClasses(x, e, i, p);
    if x != 0 { QuarticClasses(x, e, i, p); }
  }

  /** The square of the inverse root of z^2, times z: z^(p-2), the inverse of z, or zero for zero. */
  lemma InverseValue(z: int, e: nat, i: int, p: int)
    requires IsPrime(p) && Setting(e, i, p) && 0 <= z < p
    ensures
      var y := PowMod(z, p - 2, p);
      && Check(z, InvRoot(TimesMod(z, z, p), e, i, p), p) == y
      && if z == 0 then y == 0 else TimesMod(z, y, p) == 1
  {
    hide TimesMod, PowMod, IsPrime, MeetsEuler, InvRoot, Check;
    InverseOf(z, e, p);
    InverseExponent(z, e, i, p);
  }
}
