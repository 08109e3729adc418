/** Multi-word numbers: sequences of 32-bit words, least significant first. */
module WordNumbers {
  import opened Machine
  import opened Arithmetic
  import opened ByteStrings

  function Base(n: nat): (r: nat)
    ensures r > 0
  {
    if n == 0 then 1 else 0x1_0000_0000 * Base(n - 1)
  }

  function Num(w: seq<u32>): nat {
    if w == [] then 0 else w[0] as int + 0x1_0000_0000 * Num(w[1..])
  }

  lemma {:induction false} NumConcat(a: seq<u32>, b: seq<u32>)
    ensures Num(a + b) == Num(a) + Base(|a|) * Num(b)
  {
    if a == [] {
      assert a + b == b;
    } else {
      NumConcat(a[1..], b);
      assert (a + b)[1..] == a[1..] + b;
      Associate(0x1_0000_0000, Base(|a| - 1), Num(b));
    }
  }

  lemma Associate(x: int, y: int, z: int)
    ensures (x * y) * z == x * (y * z)
  {
  }

  /** One more word at the top. */
  lemma NumPush(w: seq<u32>, i: nat)
    requires i < |w|
    ensures Num(w[..i + 1]) == Num(w[..i]) + Base(i) * w[i] as int
  {
    assert w[..i + 1] == w[..i] + [w[i]];
    NumConcat(w[..i], [w[i]]);
    assert Num([w[i]]) == w[i] as int + 0x1_0000_0000 * Num([]);
  }

  lemma {:induction false} NumBound(w: seq<u32>)
    ensures Num(w) < Base(|w|)
  {
    if w != [] { NumBound(w[1..]); }
  }

  /** Splitting c at 32 bits moves its high part one position up. */
  lemma CarryUp(c: nat, i: nat)
    ensures Base(i) * c == Base(i) * (c % 0x1_0000_0000) + Base(i + 1) * (c / 0x1_0000_0000)
  {
    var q, r, b := c / 0x1_0000_0000, c % 0x1_0000_0000, Base(i);
    assert c == 0x1_0000_0000 * q + r;
    assert b * (0x1_0000_0000 * q + r) == b * r + (0x1_0000_0000 * b) * q;
  }

  lemma {:induction false} BaseAdd(m: nat, n: nat)
    ensures Base(m + n) == Base(m) * Base(n)
  {
    if m > 0 {
      BaseAdd(m - 1, n);
      Associate(0x1_0000_0000, Base(m - 1), Base(n));
    }
  }

  lemma {:induction false} BaseIsPow256(n: nat)
    ensures Base(n) == Pow256(4 * n)
  {
    if n > 0 {
      BaseIsPow256(n - 1);
      Pow256Add(4, 4 * (n - 1));
      assert Pow256(4) == 0x1_0000_0000;
    }
  }

  /** store32_le of the i-th word extends the little-endian number written so far. */
  method StoreWord(s: array<u8>, i: nat, w: u32)
    requires 4 * i + 4 <= s.Length
    modifies s
    ensures s[..4 * i] == old(s[..4 * i])
    ensures LeNat(s[..4 * (i + 1)]) == LeNat(old(s[..4 * i])) + Base(i) * w as int
  {
    hide LeNat, Load32, Base, Pow256;
    ghost var was := s[..4 * i];
    Store32(s, 4 * i, w);
    assert s[..4 * i] == was;
    assert s[..4 * (i + 1)] == was + s[..][4 * i..4 * i + 4];
    LeNatConcat(was, s[..][4 * i..4 * i + 4]);
    BaseIsPow256(i);
  }

  lemma Empty(w: seq<u32>)
    ensures Num(w[..0]) == 0 && Base(0) == 1
  {
  }

  lemma AddWords(i: nat, c: nat, x: nat, y: nat)
    ensures Base(i) * c + Base(i) * x + Base(i) * y
         == Base(i) * ((c + x + y) % 0x1_0000_0000) + Base(i + 1) * ((c + x + y) / 0x1_0000_0000)
  {
    CarryUp(c + x + y, i);
    var b := Base(i);
    assert b * (c + x + y) == b * c + b * x + b * y;
  }

  lemma RemainderGrows(i: nat, rem: nat, w: nat)
    requires rem < Base(i) && w < 0x1_0000_0000
    ensures 0 <= rem + Base(i) * w < Base(i + 1)
  {
    var b := Base(i);
    MulMonotone(b, w, 0xffff_ffff);
    MulMonotone(b, 0, w);
    assert Base(i + 1) == 0x1_0000_0000 * b;
  }

  lemma NoBytes(s: bytes)
    requires |s| == 0
    ensures LeNat(s) == 0
  {
  }
}
