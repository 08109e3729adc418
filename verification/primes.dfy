/** Fermat's theorem and Euler's criterion for a prime modulus. */
module Primes {
  import opened Arithmetic
  import opened Counting

  predicate Divides(d: int, n: int) { d > 0 && n % d == 0 }

  predicate IsPrime(p: int) {
    p > 1 && forall d | 1 < d < p :: !Divides(d, p)
  }

  /** x to the power n modulo m. */
  function PowMod(x: int, n: nat, m: int): int
    requires m > 0
  {
    if n == 0 then 1 else TimesMod(x, PowMod(x, n - 1, m), m)
  }

  // ---- No zero divisors ----

  /** A prime that divides a product whose first factor is reduced and nonzero divides the second. */
  lemma {:induction false} Euclid(a: int, b: int, p: int)
    requires IsPrime(p) && 0 < a < p && (a * b) % p == 0
    ensures b % p == 0
    decreases a
  {
    if a > 1 {
      var q, r := p / a, p % a;
      assert !Divides(a, p);
      RemainderDivides(a, b, q, r, p);
      Euclid(r, b, p);
    }
  }

  lemma RemainderDivides(a: int, b: int, q: int, r: int, p: int)
    requires p > 0 && p == a * q + r && (a * b) % p == 0
    ensures (r * b) % p == 0
  {
    var k := (a * b) / p;
    assert a * b == p * k;
    assert r * b == p * (b - q * k) by { LeaveRemainder(a, b, q, r, p, k); }
    Remainder(r * b, b - q * k, 0, p);
  }

  lemma LeaveRemainder(a: int, b: int, q: int, r: int, p: int, k: int)
    requires p == a * q + r && a * b == p * k
    ensures r * b == p * (b - q * k)
  {
    assert r * b == (p - a * q) * b;
    assert (p - a * q) * b == p * b - q * (a * b);
    assert q * (a * b) == q * (p * k);
    assert p * b - q * (p * k) == p * (b - q * k);
  }

  /** A nonzero factor can be cancelled. */
  lemma Cancel(a: int, x: int, y: int, p: int)
    requires IsPrime(p) && 0 < a < p && 0 <= x < p && 0 <= y < p
    requires TimesMod(a, x, p) == TimesMod(a, y, p)
    ensures x == y
  {
    hide TimesMod, IsPrime;
    DifferenceVanishes(a, x, y, p);
    Euclid(a, x - y, p);
    SmallMultiple(x - y, p);
  }

  lemma DifferenceVanishes(a: int, x: int, y: int, p: int)
    requires p > 0 && TimesMod(a, x, p) == TimesMod(a, y, p)
    ensures (a * (x - y)) % p == 0
  {
    var u, v := a * x, a * y;
    assert a * (x - y) == u - v;
    assert u == p * (u / p) + u % p && v == p * (v / p) + u % p;
    Remainder(u - v, u / p - v / p, 0, p);
  }

  lemma SmallMultiple(d: int, p: int)
    requires p > 0 && -p < d < p && d % p == 0
    ensures d == 0
  {
  }

  lemma NonzeroProduct(a: int, b: int, p: int)
    requires IsPrime(p) && 0 < a < p && 0 < b < p
    ensures 0 < TimesMod(a, b, p) < p
  {
    if TimesMod(a, b, p) == 0 {
      Euclid(a, b, p);
      SmallMultiple(b, p);
    }
  }

  // ---- Products of residues ----

  function Prod(s: seq<int>, p: int): int
    requires p > 0
  {
    if s == [] then 1 else TimesMod(s[0], Prod(s[1..], p), p)
  }

  /** An element can be taken out of a product from anywhere. */
  lemma {:induction false} TakeOut(s: seq<int>, i: nat, p: int)
    requires i < |s| && p > 0
    ensures Prod(s, p) == TimesMod(s[i], Prod(s[..i] + s[i + 1..], p), p)
    decreases i
  {
    hide TimesMod;
    if i == 0 {
      assert s[..0] + s[1..] == s[1..];
    } else {
      var t := s[1..];
      var rest := t[..i - 1] + t[i..];
      TakeOut(t, i - 1, p);
      assert s[..i] + s[i + 1..] == [s[0]] + rest;
      assert ([s[0]] + rest)[1..] == rest;
      TimesModAssociates(s[0], s[i], Prod(rest, p), p);
      TimesModAssociates(s[i], s[0], Prod(rest, p), p);
    }
  }

  /** The product of 1 to n. */
  function Factorial(n: nat, p: int): int
    requires p > 0
  {
    if n == 0 then 1 else TimesMod(n, Factorial(n - 1, p), p)
  }

  predicate Distinct(s: seq<int>) { forall i, j | 0 <= i < j < |s| :: s[i] != s[j] }

  /** The numbers 1 to n in any order have that product. */
  lemma {:induction false} AnyOrder(s: seq<int>, n: nat, p: int)
    requires p > 0 && |s| == n && Distinct(s) && forall x | x in s :: 0 < x <= n
    ensures Prod(s, p) == Factorial(n, p)
    decreases n
  {
    hide TimesMod;
    if n > 0 {
      var i := IndexOfLargest(s, n);
      var rest := s[..i] + s[i + 1..];
      TakeOut(s, i, p);
      DropLargest(s, n, i);
      AnyOrder(rest, n - 1, p);
    }
  }

  lemma DropLargest(s: seq<int>, n: nat, i: nat)
    requires |s| == n && Distinct(s) && (forall x | x in s :: 0 < x <= n) && i < n && s[i] == n
    ensures var rest := s[..i] + s[i + 1..]; Distinct(rest) && forall x | x in rest :: 0 < x <= n - 1
  {
    var rest := s[..i] + s[i + 1..];
    forall x | x in rest ensures 0 < x <= n - 1 {
      var k :| 0 <= k < |rest| && rest[k] == x;
      var m := if k < i then k else k + 1;
      assert x == s[m] && s[m] in s;
      assert if m < i then s[m] != s[i] else s[i] != s[m];
    }
    forall j, k | 0 <= j < k < |rest| ensures rest[j] != rest[k] {
      assert rest[j] == s[if j < i then j else j + 1] && rest[k] == s[if k < i then k else k + 1];
    }
  }

  lemma IndexOfLargest(s: seq<int>, n: nat) returns (i: nat)
    requires |s| == n > 0 && Distinct(s) && forall x | x in s :: 0 < x <= n
    ensures i < n && s[i] == n
  {
    if n !in s {
      Pigeons(s, 0, n);
      assert false;
    }
    i :| 0 <= i < |s| && s[i] == n;
  }

  lemma {:induction false} FactorialNonzero(n: nat, p: int)
    requires IsPrime(p) && n < p
    ensures 0 < Factorial(n, p) < p
  {
    if n > 0 {
      FactorialNonzero(n - 1, p);
      NonzeroProduct(n, Factorial(n - 1, p), p);
    }
  }

  // ---- Fermat and Euler ----

  /** z, 2 z, ..., n z modulo p. */
  function Multiples(z: int, n: nat, p: int): (s: seq<int>)
    requires p > 0
    ensures |s| == n && forall i | 0 <= i < n :: s[i] == TimesMod(z, n - i, p)
  {
    if n == 0 then [] else [TimesMod(z, n, p)] + Multiples(z, n - 1, p)
  }

  lemma {:induction false} MultiplesProduct(z: int, n: nat, p: int)
    requires p > 1
    ensures Prod(Multiples(z, n, p), p) == TimesMod(PowMod(z, n, p), Factorial(n, p), p)
    decreases n
  {
    hide TimesMod;
    if n == 0 {
      OneTimes(1, p);
    } else {
      var s := Multiples(z, n, p);
      MultiplesProduct(z, n - 1, p);
      assert s[1..] == Multiples(z, n - 1, p);
      Interchange(z, n, PowMod(z, n - 1, p), Factorial(n - 1, p), p);
    }
  }

  lemma OneTimes(x: int, p: int)
    requires p > 0 && 0 <= x < p
    ensures TimesMod(1, x, p) == x && TimesMod(x, 1, p) == x
  {
  }

  lemma Interchange(a: int, b: int, c: int, d: int, p: int)
    requires p > 0
    ensures TimesMod(TimesMod(a, b, p), TimesMod(c, d, p), p) == TimesMod(TimesMod(a, c, p), TimesMod(b, d, p), p)
  {
    hide TimesMod;
    var cd, bd := TimesMod(c, d, p), TimesMod(b, d, p);
    TimesModAssociates(a, b, cd, p);
    TimesModAssociates(b, c, d, p);
    TimesModAssociates(c, b, d, p);
    TimesModAssociates(a, c, bd, p);
  }

  /** The multiples of a nonzero z are the numbers 1 to p - 1 in some order. */
  lemma MultiplesAreDistinct(z: int, p: int)
    requires IsPrime(p) && 0 < z < p
    ensures var s := Multiples(z, p - 1, p); Distinct(s) && forall x | x in s :: 0 < x <= p - 1
  {
    hide TimesMod;
    var n, s := p - 1, Multiples(z, p - 1, p);
    forall x | x in s ensures 0 < x <= p - 1 {
      var i :| 0 <= i < |s| && s[i] == x;
      NonzeroProduct(z, n - i, p);
    }
    forall i, j | 0 <= i < j < |s| ensures s[i] != s[j] {
      if s[i] == s[j] { Cancel(z, n - i, n - j, p); }
    }
  }

  /** Fermat: z to the power p - 1 is 1. */
  lemma Fermat(z: int, p: int)
    requires IsPrime(p) && 0 < z < p
    ensures PowMod(z, p - 1, p) == 1
  {
    hide TimesMod, PowMod, Factorial, Prod, Multiples;
    var s, f, y := Multiples(z, p - 1, p), Factorial(p - 1, p), PowMod(z, p - 1, p);
    MultiplesAreDistinct(z, p);
    AnyOrder(s, p - 1, p);
    MultiplesProduct(z, p - 1, p);
    FactorialNonzero(p - 1, p);
    PowRange(z, p - 1, p);
    OneTimes(f, p);
    TimesModAssociates(f, y, 1, p);
    Cancel(f, y, 1, p);
  }

  lemma PowRange(z: int, n: nat, p: int)
    requires p > 1
    ensures 0 <= PowMod(z, n, p) < p
  {
  }

  lemma {:induction false} PowModAdd(x: int, m: nat, n: nat, p: int)
    requires p > 1
    ensures PowMod(x, m + n, p) == TimesMod(PowMod(x, m, p), PowMod(x, n, p), p)
    decreases m
  {
    hide TimesMod;
    if m == 0 {
      PowRange(x, n, p);
      OneTimes(PowMod(x, n, p), p);
    } else {
      PowModAdd(x, m - 1, n, p);
      TimesModAssociates(x, PowMod(x, m - 1, p), PowMod(x, n, p), p);
    }
  }

  lemma PowOne(x: int, p: int)
    requires p > 1 && 0 <= x < p
    ensures PowMod(x, 1, p) == x
  {
    hide TimesMod;
    OneTimes(x, p);
    assert PowMod(x, 1, p) == TimesMod(x, PowMod(x, 0, p), p);
  }

  lemma {:induction false} PowModOfSquare(x: int, n: nat, p: int)
    requires p > 1
    ensures PowMod(TimesMod(x, x, p), n, p) == PowMod(x, 2 * n, p)
    decreases n
  {
    hide TimesMod;
    if n > 0 {
      PowModOfSquare(x, n - 1, p);
      TimesModAssociates(x, x, PowMod(x, 2 * n - 2, p), p);
    }
  }

  /** Equal squares come from equal or opposite residues. */
  lemma SameSquares(y: int, w: int, p: int)
    requires IsPrime(p) && 0 <= y < p && 0 <= w < p && TimesMod(y, y, p) == TimesMod(w, w, p)
    ensures y == w || y == p - w
  {
    FactorDifference(y, w, p);
    if 0 < y + w < p {
      Euclid(y + w, y - w, p);
      SmallMultiple(y - w, p);
    } else if y + w > p {
      ReduceFactor(y + w, y - w, p);
      Euclid(y + w - p, y - w, p);
      SmallMultiple(y - w, p);
    }
  }

  lemma FactorDifference(y: int, w: int, p: int)
    requires p > 0 && TimesMod(y, y, p) == TimesMod(w, w, p)
    ensures ((y + w) * (y - w)) % p == 0
  {
    var u, v := y * y, w * w;
    assert (y + w) * (y - w) == u - v;
    Remainder(u - v, u / p - v / p, 0, p);
  }

  lemma ReduceFactor(a: int, b: int, p: int)
    requires p > 0 && (a * b) % p == 0
    ensures ((a - p) * b) % p == 0
  {
    var k := (a * b) / p;
    assert (a - p) * b == a * b - p * b;
    assert p * k - p * b == p * (k - b);
    Remainder((a - p) * b, k - b, 0, p);
  }

  /** Euler: z to the power (p - 1) / 2 is 1 or -1. */
  lemma Euler(z: int, p: int, half: nat)
    requires IsPrime(p) && 0 < z < p && 2 * half == p - 1
    ensures PowMod(z, half, p) == 1 || PowMod(z, half, p) == p - 1
  {
    hide TimesMod, PowMod;
    PowModAdd(z, half, half, p);
    Fermat(z, p);
    PowRange(z, half, p);
    OneTimes(1, p);
    SameSquares(PowMod(z, half, p), 1, p);
  }
}
