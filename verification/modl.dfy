/** Arithmetic modulo the order L of the base point: Barrett reduction of 512-bit numbers. */
module ModL {
  import opened Machine
  import opened Arithmetic
  import opened ByteStrings
  import opened WordNumbers
  import Bits

  const L_WORDS: seq<u32> := [0x5cf5d3ed, 0x5812631a, 0xa2f79cd6, 0x14def9de, 0x00000000, 0x00000000, 0x00000000, 0x10000000]

  /** floor(2^512 / L). */
  const R_WORDS: seq<u32> := [0x0a2c131b, 0xed9ce5a3, 0x086329a7, 0x2106215d, 0xffffffeb, 0xffffffff, 0xffffffff, 0xffffffff, 0xf]

  /** One step of a multiply-accumulate row: word k of the accumulator, at offset i in the row of a. */
  lemma RowStep(k: nat, i: nat, j: nat, carry: nat, word: nat, a: nat, b: nat)
    requires k == i + j
    ensures Base(k) * ((carry + word + a * b) % 0x1_0000_0000) + Base(k + 1) * ((carry + word + a * b) / 0x1_0000_0000)
         == Base(k) * carry + Base(k) * word + Base(i) * (a * (Base(j) * b))
  {
    hide Base;
    MulBound(a, b, a, b);
    CarryUp(carry + word + a * b, k);
    BaseAdd(i, j);
    Rearrange(Base(i), Base(j), a, b);
    Distribute3(Base(k), carry, word, a * b);
  }

  lemma Distribute3(m: int, x: int, y: int, z: int)
    ensures m * (x + y + z) == m * x + m * y + m * z
  {
  }

  lemma Rearrange(x: int, y: int, a: int, b: int)
    ensures (x * y) * (a * b) == x * (a * (y * b))
  {
  }

  lemma WordProduct(carry: nat, word: nat, a: nat, b: nat)
    requires carry < 0x1_0000_0000 && word < 0x1_0000_0000 && a < 0x1_0000_0000 && b < 0x1_0000_0000
    ensures 0 <= a * b && carry + word + a * b < 0x1_0000_0000_0000_0000
  {
    MulBound(a, b, 0xffff_ffff, 0xffff_ffff);
  }

  /** The inner loop shared by multiply and mod_l: adds a * b[..n] to the accumulator at word i. */
  method Row(acc: array<u32>, i: nat, a: u32, b: seq<u32>, n: nat) returns (carry: u32)
    requires n <= |b| && i + n <= acc.Length
    modifies acc
    ensures Num(acc[..i + n]) + Base(i + n) * carry as int == Num(old(acc[..i + n])) + Base(i) * (a as int * Num(b[..n]))
    ensures acc[i + n..] == old(acc[i + n..])
  {
    hide Num, Base;
    ghost var was := acc[..];
    var c: u64 := 0;
    Empty(b);
    for j := 0 to n
      invariant c < 0x1_0000_0000
      invariant acc[i + j..] == was[i + j..]
      invariant Num(acc[..i + j]) + Base(i + j) * c as int == Num(was[..i + j]) + Base(i) * (a as int * Num(b[..j]))
    {
      var k := i + j;
      ghost var before := acc[..k];
      assert acc[k] == was[k] by { assert acc[k..][0] == was[k..][0]; }
      NumPush(was, k);
      RowPush(was, k, i, j, c as int, a as int, b);
      WordProduct(c as int, acc[k] as int, a as int, b[j] as int);
      c := c + (acc[k] as u64 + a as u64 * b[j] as u64);
      acc[k] := (c % 0x1_0000_0000) as u32;
      c := c / 0x1_0000_0000;
      assert acc[..k + 1] == before + [acc[k]];
      NumPush(acc[..], k);
    }
    carry := c as u32;
  }

  /** What one more word of b adds to the row. */
  lemma RowPush(was: seq<u32>, k: nat, i: nat, j: nat, c: nat, a: nat, b: seq<u32>)
    requires k == i + j < |was| && j < |b|
    ensures Base(k) * ((c + was[k] as int + a * b[j] as int) % 0x1_0000_0000)
            + Base(k + 1) * ((c + was[k] as int + a * b[j] as int) / 0x1_0000_0000)
            + Base(i) * (a * Num(b[..j]))
         == Base(k) * c + Base(k) * was[k] as int + Base(i) * (a * Num(b[..j + 1]))
  {
    hide Base, Num;
    NumPush(b, j);
    RowStep(k, i, j, c, was[k] as int, a, b[j] as int);
    DistributeIn(Base(i), a, Num(b[..j]), Base(j) * b[j] as int);
  }

  lemma DistributeIn(m: int, a: int, x: int, y: int)
    ensures m * (a * (x + y)) == m * (a * x) + m * (a * y)
  {
  }

  /** multiply: p = a * b + p, for any operand lengths; the words above p's low |b| need not be cleared. */
  method Multiply(p: array<u32>, a: seq<u32>, b: seq<u32>)
    requires |a| + |b| <= p.Length
    modifies p
    ensures Num(p[..|a| + |b|]) == Num(a) * Num(b) + Num(old(p[..|b|]))
    ensures p[|a| + |b|..] == old(p[|a| + |b|..])
  {
    hide Num, Base;
    var n := |b|;
    ghost var start, above := Num(p[..n]), p[|a| + n..];
    Empty(a);
    for i := 0 to |a|
      invariant Num(p[..i + n]) == Num(a[..i]) * Num(b) + start
      invariant p[|a| + n..] == above
    {
      assert b[..n] == b;
      ghost var was := p[..];
      var carry := Row(p, i, a[i], b, n);
      ghost var row := p[..];
      TailOfTail(was, row, i + n, |a| + n);
      p[i + n] := carry;
      SetWord(row, i + n, carry, |a| + n);
      NumPush(a, i);
      AddRow(Num(a[..i]), Base(i), a[i] as int, Num(b));
    }
    assert a[..|a|] == a;
  }

  lemma TailOfTail(s: seq<u32>, t: seq<u32>, k: nat, m: nat)
    requires k <= m <= |s| == |t| && s[k..] == t[k..]
    ensures s[m..] == t[m..]
  {
    assert s[m..] == s[k..][m - k..] && t[m..] == t[k..][m - k..];
  }

  /** Storing a word extends the number below it, and leaves what is above alone. */
  lemma SetWord(s: seq<u32>, k: nat, w: u32, m: nat)
    requires k < m <= |s|
    ensures var t := s[k := w]; Num(t[..k + 1]) == Num(s[..k]) + Base(k) * w as int && t[m..] == s[m..]
  {
    hide Num, Base;
    var t := s[k := w];
    assert t[..k] == s[..k];
    NumPush(t, k);
  }

  lemma AddRow(x: int, m: int, a: int, y: int)
    ensures (x + m * a) * y == x * y + m * (a * y)
  {
  }

  /** The product loop that keeps only 256 bits: acc = q * b modulo 2^(32 n), read from q, accumulated in place. */
  method TruncatedProduct(acc: array<u32>, q: seq<u32>, b: seq<u32>, n: nat)
    requires |q| == |b| == n && n <= acc.Length
    requires Num(acc[..n]) == 0
    modifies acc
    ensures (Num(q) * Num(b) - Num(acc[..n])) % Base(n) == 0
    ensures acc[n..] == old(acc[n..])
  {
    hide Num, Base;
    ghost var dropped := 0;
    Empty(q);
    for i := 0 to n
      invariant Num(q[..i]) * Num(b) == Num(acc[..n]) + Base(n) * dropped
      invariant acc[n..] == old(acc[n..])
    {
      ghost var was := acc[..n];
      var carry := Row(acc, i, q[i], b, n - i);
      assert i + (n - i) == n;
      NumPush(q, i);
      assert b == b[..n - i] + b[n - i..];
      NumConcat(b[..n - i], b[n - i..]);
      BaseAdd(i, n - i);
      TruncateRow(Num(q[..i]), Base(i), q[i] as int, Num(b[..n - i]), Base(n - i), Num(b[n - i..]));
      ghost var more := q[i] as int * Num(b[n - i..]) + carry as int;
      DistributeTwo(Base(n), dropped, more);
      DistributeTwo(Base(n), q[i] as int * Num(b[n - i..]), carry as int);
      dropped := dropped + more;
    }
    assert q[..n] == q;
    Remainder(Base(n) * dropped, dropped, 0, Base(n));
  }

  lemma DistributeTwo(m: int, x: int, y: int)
    ensures m * (x + y) == m * x + m * y
  {
  }

  /** The part of a row at or above the cut is a multiple of the cut. */
  lemma TruncateRow(x: int, m: int, a: int, lo: int, k: int, hi: int)
    ensures (x + m * a) * (lo + k * hi) == x * (lo + k * hi) + m * (a * lo) + (m * k) * (a * hi)
  {
    AddRow(x, m, a, lo + k * hi);
    assert a * (lo + k * hi) == a * lo + k * (a * hi) by { Swap(a, k, hi); }
    DistributeTwo(m, a * lo, k * (a * hi));
    Associate(m, k, a * hi);
  }

  lemma Swap(a: int, k: int, hi: int)
    ensures a * (k * hi) == k * (a * hi)
  {
  }

  /** Bitwise complement of a word. */
  function Not(w: u32): u32 { 0xffff_ffff - w }

  /** Adding the complement of a word is subtracting it, one borrow position up. */
  lemma ComplementWords(i: nat, c: nat, x: nat, y: nat)
    requires y < 0x1_0000_0000
    ensures var s := c + x + (0xffff_ffff - y);
      Base(i) * (s % 0x1_0000_0000) + Base(i + 1) * (s / 0x1_0000_0000)
      == Base(i) * c + Base(i) * x + Base(i + 1) - Base(i) - Base(i) * y
  {
    AddWords(i, c, x, 0xffff_ffff - y);
    var b := Base(i);
    assert b * (0xffff_ffff - y) == 0x1_0000_0000 * b - b - b * y;
  }

  /** xr = x - xr on the low n words, in two's complement. */
  method Subtract(xr: array<u32>, x: seq<u32>, n: nat)
    requires n <= xr.Length && n <= |x|
    modifies xr
    ensures (Num(xr[..n]) - (Num(x[..n]) - Num(old(xr[..n])))) % Base(n) == 0
    ensures xr[n..] == old(xr[n..])
  {
    hide Num, Base;
    ghost var was := xr[..];
    var carry: u64 := 1;
    Empty(x);
    Empty(was);
    for i := 0 to n
      invariant carry <= 1 && xr[i..] == was[i..]
      invariant Num(xr[..i]) + Base(i) * carry as int == Num(x[..i]) + Base(i) - Num(was[..i])
    {
      ghost var low := xr[..i];
      assert xr[i] == was[i] by { assert xr[i..][0] == was[i..][0]; }
      NumPush(x, i);
      NumPush(was, i);
      ComplementWords(i, carry as int, x[i] as int, xr[i] as int);
      carry := carry + (x[i] as u64 + Not(xr[i]) as u64);
      xr[i] := (carry % 0x1_0000_0000) as u32;
      carry := carry / 0x1_0000_0000;
      assert xr[..i + 1] == low + [xr[i]];
      NumPush(xr[..], i);
    }
    Remainder(Num(xr[..n]) - (Num(x[..n]) - Num(was[..n])), 1 - carry as int, 0, Base(n));
  }

  /** is_above_l: the carry out of x - L. */
  method IsAboveL(x: seq<u32>) returns (carry: u64)
    requires |x| == 8
    ensures carry == if Num(x) >= Num(L_WORDS) then 1 else 0
  {
    hide Num, Base;
    carry := 1;
    ghost var rem := 0;
    Empty(x);
    Empty(L_WORDS);
    for i := 0 to 8
      invariant carry <= 1 && 0 <= rem < Base(i)
      invariant rem + Base(i) * carry as int == Num(x[..i]) + Base(i) - Num(L_WORDS[..i])
    {
      NumPush(x, i);
      NumPush(L_WORDS, i);
      ComplementWords(i, carry as int, x[i] as int, L_WORDS[i] as int);
      carry := carry + (x[i] as u64 + Not(L_WORDS[i]) as u64);
      RemainderGrows(i, rem, carry as int % 0x1_0000_0000);
      rem := rem + Base(i) * (carry as int % 0x1_0000_0000);
      carry := carry / 0x1_0000_0000;
    }
    assert x[..8] == x && L_WORDS[..8] == L_WORDS;
  }

  /** ~L[i] & mask for the two masks remove_l uses. */
  function Masked(w: u32, mask: u32): (r: u32)
    requires mask == 0 || mask == 0xffff_ffff
    ensures r == if mask == 0 then 0 else w
  {
    Bits.Pow2Values();
    Bits.AndOnes(w as int, 32);
    Bits.And(w as int, mask as int) as u32
  }

  /** remove_l subtracts L once if x >= L, and copies x otherwise; r and x may be the same array. */
  method RemoveL(r: array<u32>, x: array<u32>)
    requires r.Length >= 8 && x.Length >= 8
    modifies r
    ensures var v := old(Num(x[..8])); Num(r[..8]) == if v >= Num(L_WORDS) then v - Num(L_WORDS) else v
  {
    hide Num, Base;
    ghost var was := x[..8];
    var carry := IsAboveL(x[..8]);
    ghost var above := carry as int;
    var mask := ((Not(carry as u32) as int + 1) % 0x1_0000_0000) as u32;
    assert mask == if above == 1 then 0xffff_ffff else 0;
    Empty(was);
    Empty(r[..]);
    Empty(L_WORDS);
    BaseZero();
    for i := 0 to 8
      invariant carry <= 1 && x[i..8] == was[i..]
      invariant Removed(Num(r[..i]), Base(i), carry as int, Num(was[..i]), Num(L_WORDS[..i]), above)
    {
      assert x[i] == was[i] by { assert x[i..8][0] == was[i..][0]; }
      ghost var before, rest := r[..], x[i..8][1..];
      assert rest == x[i + 1..8] == was[i + 1..];
      RemoveWord(before, was, i, carry as int, above);
      carry := carry + (x[i] as u64 + Masked(Not(L_WORDS[i]), mask) as u64);
      r[i] := (carry % 0x1_0000_0000) as u32;
      carry := carry / 0x1_0000_0000;
      assert r[..] == before[i := r[i]];
      assert x[i + 1..8] == rest;
    }
    assert was[..8] == was && L_WORDS[..8] == L_WORDS;
    NumBound(r[..8]);
    NumBound(was);
    CarryOut(Base(8), Num(was), Num(L_WORDS), Num(r[..8]), carry as int, above);
  }

  /** After the words below weight b: the result and the carry are x less the words of L, plus b, if L is removed. */
  ghost predicate Removed(r: int, b: int, carry: int, x: int, l: int, above: int) {
    r + b * carry == x + (if above == 1 then b - l else 0)
  }

  lemma RemoveWord(r: seq<u32>, x: seq<u32>, i: nat, c: nat, above: int)
    requires i < 8 <= |r| && |x| == 8 && c <= 1
    requires Removed(Num(r[..i]), Base(i), c, Num(x[..i]), Num(L_WORDS[..i]), above)
    ensures
      var s := c + x[i] as int + (if above == 1 then 0xffff_ffff - L_WORDS[i] as int else 0);
      s < 0x2_0000_0000
      && Removed(Num(r[i := (s % 0x1_0000_0000) as u32][..i + 1]), Base(i + 1), s / 0x1_0000_0000, Num(x[..i + 1]), Num(L_WORDS[..i + 1]), above)
  {
    hide Num, Base;
    var s := c + x[i] as int + (if above == 1 then 0xffff_ffff - L_WORDS[i] as int else 0);
    NumPush(x, i);
    NumPush(L_WORDS, i);
    SetWord(r, i, (s % 0x1_0000_0000) as u32, |r|);
    if above == 1 {
      ComplementWords(i, c, x[i] as int, L_WORDS[i] as int);
    } else {
      AddWords(i, c, x[i] as int, 0);
    }
  }

  lemma BaseZero()
    ensures Base(0) == 1
  {
  }

  lemma CarryOut(m: int, v: int, l: int, r: int, carry: int, above: int)
    requires 0 <= r < m && 0 <= v < m && 0 <= l && 0 <= carry <= 1
    requires above == (if v >= l then 1 else 0)
    requires r + m * carry == v + (if above == 1 then m - l else 0)
    ensures r == if v >= l then v - l else v
  {
    assert m * carry == if carry == 1 then m else 0;
  }

  const L: int := 0x1000_0000_0000_0000_0000_0000_0000_0000_14de_f9de_a2f7_9cd6_5812_631a_5cf5_d3ed

  /** What Barrett reduction needs of its two constants: floor(x * R / 2^512) misses x / L by less than one. */
  lemma Barrett(x: int, xr: int, q: int, rem: int)
    requires 0 <= x < TWO512 && xr == R * x && xr == TWO512 * q + rem && 0 <= rem < TWO512
    ensures 0 <= x - L * q < 2 * L
  {
  }

  const R: int := 0xf_ffff_ffff_ffff_ffff_ffff_ffff_ffff_ffeb_2106_215d_0863_29a7_ed9c_e5a3_0a2c_131b
  const TWO256: int := 0x1_0000_0000_0000_0000_0000_0000_0000_0000_0000_0000_0000_0000_0000_0000_0000_0000
  const TWO512: int := 0x1_0000_0000_0000_0000_0000_0000_0000_0000_0000_0000_0000_0000_0000_0000_0000_0000_0000_0000_0000_0000_0000_0000_0000_0000_0000_0000_0000_0000_0000_0000_0000_0000

  /** The group order, and its reciprocal to 512 bits. */
  lemma GroupOrder()
    ensures L == Bits.Pow2(252) + 27742317777372353535851937790883648493
    ensures TWO512 == Bits.Pow2(512) && R * L <= TWO512 < (R + 1) * L
  {
    hide Bits.Pow2;
    Bits.Pow2Of64();
    Bits.Pow2Add(64, 64); Bits.Pow2Add(128, 128); Bits.Pow2Add(256, 256);
    Bits.Pow2Add(252, 4);
    Sixteen();
  }

  lemma Sixteen()
    ensures Bits.Pow2(4) == 16
  {
  }

  lemma NumPair(w: seq<u32>, k: nat)
    requires k < |w|
    ensures Num(w[k..]) == w[k] as int + 0x1_0000_0000 * Num(w[k + 1..])
  {
    assert w[k..][1..] == w[k + 1..];
  }

  lemma Constants()
    ensures Num(L_WORDS) == L && Num(R_WORDS) == R && Base(8) == TWO256 && Base(16) == TWO512
  {
    hide Num, Base;
    OrderValue();
    ReciprocalValue();
    Powers();
  }

  lemma OrderValue()
    ensures Num(L_WORDS) == L
  {
    hide Num, Base;
    NumPair(L_WORDS, 7); NumPair(L_WORDS, 6); NumPair(L_WORDS, 5); NumPair(L_WORDS, 4);
    NumPair(L_WORDS, 3); NumPair(L_WORDS, 2); NumPair(L_WORDS, 1); NumPair(L_WORDS, 0);
    Empty(L_WORDS[8..]);
    assert L_WORDS[8..] == L_WORDS[8..][..0] && L_WORDS[0..] == L_WORDS;
  }

  lemma ReciprocalValue()
    ensures Num(R_WORDS) == R
  {
    hide Num, Base;
    NumPair(R_WORDS, 8); NumPair(R_WORDS, 7); NumPair(R_WORDS, 6); NumPair(R_WORDS, 5); NumPair(R_WORDS, 4);
    NumPair(R_WORDS, 3); NumPair(R_WORDS, 2); NumPair(R_WORDS, 1); NumPair(R_WORDS, 0);
    Empty(R_WORDS[9..]);
    assert R_WORDS[9..] == R_WORDS[9..][..0] && R_WORDS[0..] == R_WORDS;
  }

  lemma Powers()
    ensures Base(8) == TWO256 && Base(16) == TWO512
  {
    hide Base;
    FourthPower();
    BaseAdd(4, 4);
    BaseAdd(8, 8);
  }

  lemma FourthPower()
    ensures Base(4) == 0x1_0000_0000_0000_0000_0000_0000_0000_0000
  {
  }

  /** xr = x * r; the words from 16 up are the quotient estimate. */
  method Estimate(x: seq<u32>) returns (xr: array<u32>)
    requires |x| == 16
    ensures fresh(xr) && xr.Length == 25
    ensures 0 <= Num(x) - L * Num(xr[16..]) < 2 * L
  {
    hide Num, Base;
    Constants();
    xr := new u32[25](_ => 0);
    Zeros(xr[..16]);
    Multiply(xr, R_WORDS, x);
    assert xr[..25] == xr[..];
    assert xr[..] == xr[..16] + xr[16..];
    NumConcat(xr[..16], xr[16..]);
    NumBound(xr[..16]);
    NumBound(x);
    Barrett(Num(x), Num(xr[..]), Num(xr[16..]), Num(xr[..16]));
  }

  /** xr = x - floor(xr / 2^512) * L on the low 256 bits, exact because the difference is below 2 L. */
  method SubtractMultiple(xr: array<u32>, x: seq<u32>)
    requires |x| == 16 && xr.Length == 25
    requires 0 <= Num(x) - L * Num(xr[16..]) < 2 * L
    modifies xr
    ensures Num(xr[..8]) == Num(x) - L * Num(old(xr[16..]))
  {
    hide Num, Base;
    Constants();
    ghost var top := xr[16..];
    var high := xr[16..24];
    forall i | 0 <= i < 8 {
      xr[i] := 0;
    }
    Zeros(xr[..8]);
    TruncatedProduct(xr, high, L_WORDS, 8);
    ghost var t := Num(xr[..8]);
    Subtract(xr, x, 8);
    NumBound(xr[..8]);
    assert top == high + top[8..];
    NumConcat(high, top[8..]);
    assert x == x[..8] + x[8..];
    NumConcat(x[..8], x[8..]);
    Difference(Num(x), Num(x[..8]), Num(x[8..]), Num(top), Num(high), Num(top[8..]), t, Num(xr[..8]));
  }

  /** mod_l: full reduction of any 512-bit number. */
  method Reduce(reduced: array<u8>, x: seq<u32>)
    requires reduced.Length == 32 && |x| == 16
    modifies reduced
    ensures LeNat(reduced[..]) == Num(x) % L
  {
    hide Num, Base, LeNat;
    Constants();
    var xr := Estimate(x);
    ghost var q := Num(xr[16..]);
    SubtractMultiple(xr, x);
    RemoveL(xr, xr);
    StoreWords(reduced, xr[..8]);
    LastSubtraction(Num(x), q);
  }

  /** The truncated computation keeps the exact difference, which is below 2 L. */
  lemma Difference(x: int, xlo: int, xhi: int, q: int, qlo: int, qhi: int, t: int, s: int)
    requires x == xlo + TWO256 * xhi && q == qlo + TWO256 * qhi && 0 <= x - L * q < 2 * L
    requires (qlo * L - t) % TWO256 == 0 && (s - (xlo - t)) % TWO256 == 0 && 0 <= s < TWO256
    ensures s == x - L * q
  {
    var a, b := (qlo * L - t) / TWO256, (s - (xlo - t)) / TWO256;
    assert s - (x - L * q) == TWO256 * (b - xhi + a + qhi * L);
  }

  lemma LastSubtraction(x: int, q: int)
    requires 0 <= x - L * q < 2 * L
    ensures (if x - L * q >= L then x - L * q - L else x - L * q) == x % L
  {
    if x - L * q >= L {
      Remainder(x, q + 1, x - L * q - L, L);
    } else {
      Remainder(x, q, x - L * q, L);
    }
  }

  lemma {:induction false} Zeros(w: seq<u32>)
    requires forall i | 0 <= i < |w| :: w[i] == 0
    ensures Num(w) == 0
  {
    if w != [] { Zeros(w[1..]); }
  }

  /** store32_le_buf. */
  method StoreWords(s: array<u8>, w: seq<u32>)
    requires s.Length == 4 * |w|
    modifies s
    ensures LeNat(s[..]) == Num(w)
  {
    hide Num, Base, LeNat;
    Empty(w);
    NoBytes(s[..4 * 0]);
    for i := 0 to |w|
      invariant LeNat(s[..4 * i]) == Num(w[..i])
    {
      NumPush(w, i);
      StoreWord(s, i, w[i]);
    }
    assert w[..|w|] == w && s[..4 * |w|] == s[..];
  }
}
