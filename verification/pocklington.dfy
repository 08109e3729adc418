/** Proving a number prime with an element of prime order, after Pocklington. */
module Pocklington {
  import opened Arithmetic
  import opened Primes

  // ---- Least divisors ----

  /** The least divisor above 1 of a composite number is prime and at most its square root. */
  lemma LeastDivisor(n: int) returns (d: int)
    requires n > 1 && !IsPrime(n)
    ensures IsPrime(d) && n % d == 0 && d * d <= n
  {
    hide Divides;
    var some :| 1 < some < n && Divides(some, n);
    d := 2;
    while !Divides(d, n)
      invariant 2 <= d <= some && forall k | 1 < k < d :: !Divides(k, n)
      decreases some - d
    {
      d := d + 1;
    }
    forall k | 1 < k < d ensures !Divides(k, d) {
      if Divides(k, d) { DividesOn(k, d, n); }
    }
    var c := Cofactor(d, n);
    if c < d { assert false; }
    Scale(d, d, c);
  }

  lemma DividesOn(k: int, d: int, n: int)
    requires Divides(k, d) && Divides(d, n)
    ensures Divides(k, n)
  {
    var a, c := d / k, n / d;
    assert n == (k * a) * c;
    assert (k * a) * c == k * (a * c);
    Remainder(n, a * c, 0, k);
  }

  lemma Cofactor(d: int, n: int) returns (c: int)
    requires 1 < d < n && Divides(d, n)
    ensures n % d == 0 && n == d * c && c > 1 && Divides(c, n)
  {
    c := n / d;
    assert n == d * c;
    if c <= 1 { Scale(d, c, 1); }
    Remainder(n, d, 0, c);
  }

  lemma Scale(a: int, x: int, y: int)
    requires a >= 0 && x <= y
    ensures a * x <= a * y
  {
  }

  // ---- Orders ----

  lemma {:induction false} PowCycle(b: int, q: nat, k: nat, d: int)
    requires d > 1 && PowMod(b, q, d) == 1
    ensures PowMod(b, k * q, d) == 1
    decreases k
  {
    hide TimesMod, PowMod;
    if k == 0 {
      PowZero(b, d);
    } else {
      PowCycle(b, q, k - 1, d);
      assert k * q == (k - 1) * q + q;
      PowModAdd(b, (k - 1) * q, q, d);
      OneTimes(1, d);
    }
  }

  lemma PowZero(b: int, d: int)
    requires d > 0
    ensures PowMod(b, 0, d) == 1
  {
  }

  /** If two powers are 1, so is the one for the remainder of the exponents. */
  lemma PowRemainder(b: int, q: nat, n: nat, d: int)
    requires d > 1 && q > 0 && PowMod(b, q, d) == 1 && PowMod(b, n, d) == 1
    ensures PowMod(b, n % q, d) == 1
  {
    hide TimesMod, PowMod;
    var k, r := n / q, n % q;
    assert n == k * q + r;
    PowCycle(b, q, k, d);
    PowModAdd(b, k * q, r, d);
    PowRange(b, r, d);
    OneTimes(PowMod(b, r, d), d);
  }

  /** The order of an element with b^q = 1 is 1 or the prime q. */
  lemma {:induction false} PrimeOrder(b: int, q: nat, r: nat, d: int)
    requires IsPrime(q) && 0 < r < q && 0 <= b < d && d > 1
    requires PowMod(b, q, d) == 1 && PowMod(b, r, d) == 1
    ensures b == 1
    decreases r
  {
    hide PowMod;
    if r == 1 {
      PowOne(b, d);
    } else {
      assert !Divides(r, q);
      PowRemainder(b, r, q, d);
      PrimeOrder(b, q, q % r, d);
    }
  }

  /** An element other than 1 with b^q = 1 makes q divide d - 1. */
  lemma OrderDivides(b: int, q: nat, d: int)
    requires IsPrime(q) && IsPrime(d) && 0 <= b < d && b != 1 && PowMod(b, q, d) == 1
    ensures (d - 1) % q == 0
  {
    hide PowMod, TimesMod;
    if b == 0 {
      PowOfZero(q, d);
    } else {
      Fermat(b, d);
      PowRemainder(b, q, d - 1, d);
      if (d - 1) % q > 0 { PrimeOrder(b, q, (d - 1) % q, d); }
    }
  }

  lemma PowOfZero(n: nat, d: int)
    requires n > 0 && d > 0
    ensures PowMod(0, n, d) == 0
  {
    hide PowMod;
    ZeroFactor(0, n, d);
  }

  lemma ZeroFactor(b: int, n: nat, d: int)
    requires n > 0 && d > 0 && b == 0
    ensures PowMod(b, n, d) == 0
  {
    assert TimesMod(0, PowMod(b, n - 1, d), d) == 0;
  }

  /** Powers modulo a divisor. */
  lemma {:induction false} PowReduce(b: int, n: nat, m: int, d: int)
    requires d > 1 && m > 1 && m % d == 0
    ensures PowMod(b, n, m) % d == PowMod(b % d, n, d)
    decreases n
  {
    hide TimesMod;
    if n > 0 {
      PowReduce(b, n - 1, m, d);
      TimesReduce(b, PowMod(b, n - 1, m), m, d);
    }
  }

  lemma TimesReduce(x: int, y: int, m: int, d: int)
    requires d > 0 && m > 0 && m % d == 0
    ensures TimesMod(x, y, m) % d == TimesMod(x % d, y % d, d)
  {
    ModThrough(x * y, m, d);
    TimesModLeft(x, y, d);
    TimesModLeft(y, x % d, d);
  }

  lemma ModThrough(z: int, m: int, d: int)
    requires d > 0 && m > 0 && m % d == 0
    ensures (z % m) % d == z % d
  {
    var k, r := z / m, z % m;
    assert z == m * k + r;
    Regroup(k, m / d, d, m);
    SameClass(r, (m / d) * k, d);
  }

  lemma Regroup(k: int, c: int, d: int, m: int)
    requires m == d * c
    ensures m * k == d * (c * k)
  {
  }

  lemma SameClass(z: int, k: int, d: int)
    requires d > 0
    ensures (z + d * k) % d == z % d
  {
    Remainder(z + d * k, z / d + k, z % d, d);
  }

  /** A factor may be reduced first. */
  lemma TimesModLeft(x: int, y: int, d: int)
    requires d > 0
    ensures TimesMod(x, y, d) == TimesMod(x % d, y, d) == TimesMod(y, x % d, d)
  {
    var k := x / d;
    assert x == x % d + d * k;
    assert x * y == (x % d) * y + d * (k * y);
    SameClass((x % d) * y, k * y, d);
  }

  // ---- The criterion ----

  /** None of d, d + q, d + 2 q, ... divides n. */
  predicate NoDivisor(d: int, q: int, count: nat, n: int)
    requires d > 0 && q > 0
    decreases count
  {
    count == 0 || (n % d != 0 && NoDivisor(d + q, q, count - 1, n))
  }

  lemma {:induction false} NoDivisorAt(d: int, q: int, count: nat, n: int, k: nat)
    requires d > 0 && q > 0 && NoDivisor(d, q, count, n) && k < count
    ensures d + k * q > 0 && n % (d + k * q) != 0
    decreases count
  {
    if k > 0 {
      assert d + k * q == d + q + (k - 1) * q;
      NoDivisorAt(d + q, q, count - 1, n, k - 1);
    }
  }

  /** A number without divisors up to its square root is prime. */
  lemma SmallPrime(n: int, count: nat)
    requires n > 1 && NoDivisor(2, 1, count, n) && (count + 2) * (count + 2) > n
    ensures IsPrime(n)
  {
    if !IsPrime(n) {
      var d := LeastDivisor(n);
      if d - 2 < count { NoDivisorAt(2, 1, count, n, d - 2); }
      Squares(count + 2, d);
      assert false;
    }
  }

  lemma Squares(a: int, d: int)
    requires 0 <= a <= d
    ensures a * a <= d * d
  {
    Scale(a, a, d);
    Scale(d, a, d);
  }

  /** n is prime if some b of prime order q has an invertible b - 1 and no number 1 + k q up to the square root of n
      divides n. */
  lemma Criterion(n: int, q: nat, b: int, inverse: int, count: nat)
    requires n > 1 && IsPrime(q) && PowMod(b, q, n) == 1 && (inverse * (b - 1)) % n == 1
    requires NoDivisor(1 + q, q, count, n) && (1 + (count + 1) * q) * (1 + (count + 1) * q) > n
    ensures IsPrime(n)
  {
    hide PowMod, NoDivisor, IsPrime;
    if !IsPrime(n) {
      var d := LeastDivisor(n);
      var k := DivisorClass(n, q, b, inverse, d);
      Excluded(n, q, count, k, d);
    }
  }

  lemma Excluded(n: int, q: int, count: nat, k: nat, d: int)
    requires q > 0 && k > 0 && d == 1 + k * q && n % d == 0 && NoDivisor(1 + q, q, count, n)
    requires (1 + (count + 1) * q) * (1 + (count + 1) * q) > n
    ensures d * d > n
  {
    hide NoDivisor;
    if k <= count {
      NoDivisorAt(1 + q, q, count, n, k - 1);
      Regroup1(k, q);
      assert false;
    }
    var x, y := (count + 1) * q, k * q;
    Scale(q, count + 1, k);
    Squares(1 + x, 1 + y);
  }

  /** Every prime divisor of n is 1 + k q. */
  lemma DivisorClass(n: int, q: nat, b: int, inverse: int, d: int) returns (k: nat)
    requires n > 1 && IsPrime(q) && PowMod(b, q, n) == 1 && (inverse * (b - 1)) % n == 1
    requires IsPrime(d) && n % d == 0
    ensures k > 0 && d == 1 + k * q
  {
    hide PowMod, IsPrime;
    PrimeAboveOne(d);
    PrimeAboveOne(q);
    NotOne(b, inverse, n, d);
    OrderBelow(n, q, b, d);
    k := (d - 1) / q;
    Quotient(d - 1, q);
  }

  lemma OrderBelow(n: int, q: nat, b: int, d: int)
    requires n > 1 && IsPrime(q) && PowMod(b, q, n) == 1 && IsPrime(d) && n % d == 0 && b % d != 1
    ensures (d - 1) % q == 0
  {
    hide PowMod, IsPrime;
    PrimeAboveOne(d);
    PowReduce(b, q, n, d);
    SmallMod(1, d);
    ModRange(b, d);
    OrderDivides(b % d, q, d);
  }

  lemma Quotient(x: int, q: int)
    requires q > 0 && x > 0 && x % q == 0
    ensures x == (x / q) * q && x / q > 0
  {
  }

  lemma ModRange(b: int, d: int)
    requires d > 0
    ensures 0 <= b % d < d
  {
  }

  lemma Regroup1(k: int, q: int)
    ensures 1 + q + (k - 1) * q == 1 + k * q
  {
  }

  lemma PrimeAboveOne(p: int)
    requires IsPrime(p)
    ensures p > 1
  {
  }

  lemma NotOne(b: int, inverse: int, n: int, d: int)
    requires d > 1 && n > 1 && n % d == 0 && (inverse * (b - 1)) % n == 1
    ensures b % d != 1
  {
    if b % d == 1 {
      var x, k, c := inverse * (b - 1), b / d, n / d;
      assert b - 1 == d * k;
      assert inverse * (d * k) == d * (inverse * k);
      Remainder(x, inverse * k, 0, d);
      assert x == (d * c) * (x / n) + 1;
      assert (d * c) * (x / n) == d * (c * (x / n));
      Remainder(x, c * (x / n), 1, d);
      assert false;
    }
  }

  // ---- Powers by squaring ----

  /** One squaring, with a factor b if the bit is set. */
  function Bit(r: int, e: int, b: int): int { if e == 1 then r * r * b else r * r }

  /** One more bit of the exponent. */
  lemma Up(n: nat, s: int, e: int, b: int, m: int) returns (next: nat)
    requires m > 1 && 0 <= e <= 1 && Bit(PowMod(b, n, m), e, b) % m == s
    ensures next == 2 * n + e && PowMod(b, next, m) == s
  {
    hide PowMod, Bit;
    var r := PowMod(b, n, m);
    next := 2 * n + e;
    PowRange(b, n, m);
    SmallMod(r, m);
    BitPower(n, r, e, b, m);
  }

  lemma SmallMod(r: int, m: int)
    requires 0 <= r < m
    ensures r % m == r
  {
  }

  lemma BitPower(n: nat, r: int, e: int, b: int, m: int)
    requires m > 1 && r % m == PowMod(b, n, m) && 0 <= e <= 1
    ensures Bit(r, e, b) % m == PowMod(b, 2 * n + e, m)
  {
    hide PowMod;
    var y := PowMod(b, n, m);
    PowModAdd(b, n, n, m);
    SquareMod(r, m);
    if e == 1 {
      PowModAdd(b, 2 * n, 1, m);
      ModOne(b, m);
      TimesModLeft(r * r, b, m);
      TimesModLeft(b, (r * r) % m, m);
    }
  }

  lemma SquareMod(r: int, m: int)
    requires m > 0
    ensures (r * r) % m == TimesMod(r % m, r % m, m)
  {
    TimesModLeft(r, r, m);
    TimesModLeft(r, r % m, m);
  }

  lemma ModOne(b: int, m: int)
    requires m > 1
    ensures PowMod(b, 1, m) == b % m
  {
    assert PowMod(b, 0, m) == 1;
    assert b * 1 == b;
  }
}
