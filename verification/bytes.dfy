/** Little- and big-endian readings of byte strings. */
module ByteStrings {
  import opened Machine
  import opened Arithmetic
  import opened Bits

  function Pow256(n: nat): (r: nat)
    ensures r > 0
  {
    if n == 0 then 1 else 0x100 * Pow256(n - 1)
  }

  /** The number a byte string stands for, least significant byte first. */
  function LeNat(s: bytes): (r: nat)
    ensures r < Pow256(|s|)
  {
    if s == [] then 0 else s[0] as int + 0x100 * LeNat(s[1..])
  }

  /** The n-byte little-endian encoding of a number (reduced modulo 256^n). */
  function LeBytes(x: nat, n: nat): (s: bytes)
    ensures |s| == n
  {
    if n == 0 then [] else [(x % 0x100) as u8] + LeBytes(x / 0x100, n - 1)
  }

  function Zeros(n: nat): (s: bytes)
    ensures |s| == n && forall i | 0 <= i < n :: s[i] == 0
  {
    seq(n, _ => 0)
  }

  lemma {:induction false} LeNatZeros(s: bytes)
    requires forall j | 0 <= j < |s| :: s[j] == 0
    ensures LeNat(s) == 0
  {
    if s != [] { LeNatZeros(s[1..]); }
  }

  /** The big-endian encoding of a 32-bit number. */
  function Big32(x: u32): (b: bytes)
    ensures |b| == 4
  {
    [(x / 0x100_0000) as u8, (x / 0x1_0000 % 0x100) as u8, (x / 0x100 % 0x100) as u8, (x % 0x100) as u8]
  }

  /** The big-endian number in the first four bytes. */
  function Read32(b: bytes): u32
    requires |b| >= 4
  {
    b[0] as u32 * 0x100_0000 + b[1] as u32 * 0x1_0000 + b[2] as u32 * 0x100 + b[3] as u32
  }

  /** The number a byte string stands for, most significant byte first. */
  function BeNat(s: bytes): nat {
    if s == [] then 0 else 0x100 * BeNat(s[..|s| - 1]) + s[|s| - 1] as int
  }

  /** Reading and writing in network byte order. */
  lemma NetworkOrder(x: u32, b: bytes)
    requires |b| >= 4
    ensures BeNat(Big32(x)) == x as int && Read32(b) as int == BeNat(b[..4])
  {
    hide BeNat;
    BeNat4(Big32(x));
    BeNat4(b[..4]);
    FourBytes(x as int);
  }

  lemma BeNatShort(s: bytes)
    ensures |s| == 1 ==> BeNat(s) == s[0] as int
    ensures |s| == 2 ==> BeNat(s) == 0x100 * s[0] as int + s[1] as int
  {
    if |s| == 2 {
      assert BeNat(s) == 0x100 * BeNat(s[..1]) + s[1] as int && s[..1][..0] == [];
      assert BeNat(s[..1]) == 0x100 * BeNat(s[..1][..0]) + s[0] as int;
    }
  }

  lemma BeNat4(s: bytes)
    requires |s| == 4
    ensures BeNat(s) == 0x100_0000 * s[0] as int + 0x1_0000 * s[1] as int + 0x100 * s[2] as int + s[3] as int
  {
    var a, b, c, e := s[..3], s[..2], s[..1], s[..0];
    assert a[..2] == b && b[..1] == c && c[..0] == e;
    assert BeNat(s) == 0x100 * BeNat(a) + s[3] as int && BeNat(a) == 0x100 * BeNat(b) + s[2] as int;
    assert BeNat(b) == 0x100 * BeNat(c) + s[1] as int && BeNat(c) == 0x100 * BeNat(e) + s[0] as int;
  }

  lemma {:induction false} LeNatInjective(s: bytes, t: bytes)
    requires |s| == |t| && LeNat(s) == LeNat(t)
    ensures s == t
  {
    if s != [] {
      assert s[0] == t[0];
      LeNatInjective(s[1..], t[1..]);
      assert s == [s[0]] + s[1..] && t == [t[0]] + t[1..];
    }
  }

  lemma {:induction false} LeBytesOfNat(s: bytes)
    ensures LeBytes(LeNat(s), |s|) == s
  {
    hide Pow256;
    if s != [] {
      LeBytesOfNat(s[1..]);
      Digit(s[0], LeNat(s[1..]));
      assert s == [s[0]] + s[1..];
    }
  }

  lemma Digit(b: u8, x: nat)
    ensures (b as int + 0x100 * x) % 0x100 == b as int && (b as int + 0x100 * x) / 0x100 == x
  {
  }

  lemma {:induction false} LeNatOfBytes(x: nat, n: nat)
    requires x < Pow256(n)
    ensures LeNat(LeBytes(x, n)) == x
  {
    if n > 0 {
      LeNatOfBytes(x / 0x100, n - 1);
      assert LeBytes(x, n)[1..] == LeBytes(x / 0x100, n - 1);
    }
  }

  lemma {:induction false} LeNatConcat(s: bytes, t: bytes)
    ensures LeNat(s + t) == LeNat(s) + Pow256(|s|) * LeNat(t)
  {
    if s == [] {
      assert s + t == t;
    } else {
      LeNatConcat(s[1..], t);
      assert (s + t)[1..] == s[1..] + t;
      MulAssociates(Pow256(|s| - 1), LeNat(t));
    }
  }

  lemma MulAssociates(p: int, x: int)
    ensures (0x100 * p) * x == 0x100 * (p * x)
  {
  }

  lemma {:induction false} Pow256Add(m: nat, n: nat)
    ensures Pow256(m + n) == Pow256(m) * Pow256(n)
  {
    if m > 0 {
      Pow256Add(m - 1, n);
      MulAssociates(Pow256(m - 1), Pow256(n));
    }
  }

  /** Byte j of the encoding is digit j of the number to base 256. */
  lemma {:induction false} ByteOfIs(x: nat, n: nat, j: nat)
    requires j < n
    ensures LeBytes(x, n)[j] as int == x / Pow256(j) % 0x100
  {
    if j == 0 {
    } else {
      ByteOfIs(x / 0x100, n - 1, j - 1);
      DivideTwice(x, 0x100, Pow256(j - 1));
    }
  }

  lemma {:induction false} Pow256IsPow2(n: nat)
    ensures Pow256(n) == Pow2(8 * n)
  {
    if n > 0 {
      Pow256IsPow2(n - 1);
      Pow2Add(8, 8 * (n - 1));
      assert Pow2(8) == 0x100;
    }
  }

  function Load24(s: bytes, i: nat): (r: u32)
    requires i + 3 <= |s|
    ensures r as int == LeNat(s[i..i + 3])
    ensures r < 0x100_0000
  {
    LeNat3(s[i..i + 3]);
    s[i] as u32 + s[i + 1] as u32 * 0x100 + s[i + 2] as u32 * 0x1_0000
  }

  lemma LeNat3(s: bytes)
    requires |s| == 3
    ensures LeNat(s) == s[0] as int + 0x100 * s[1] as int + 0x1_0000 * s[2] as int
  {
    assert LeNat(s[1..]) == s[1] as int + 0x100 * LeNat(s[1..][1..]);
    assert LeNat(s[1..][1..]) == s[2] as int + 0x100 * LeNat(s[1..][1..][1..]);
  }

  function Load32(s: bytes, i: nat): (r: u32)
    requires i + 4 <= |s|
    ensures r as int == LeNat(s[i..i + 4])
  {
    LeNat3(s[i + 1..i + 4]);
    assert s[i..i + 4][1..] == s[i + 1..i + 4];
    s[i] as u32 + s[i + 1] as u32 * 0x100 + s[i + 2] as u32 * 0x1_0000 + s[i + 3] as u32 * 0x100_0000
  }

  function Tail(s: bytes, i: nat): nat
    requires i <= |s|
  {
    LeNat(s[i..])
  }

  lemma Split3(s: bytes, i: nat)
    requires i + 3 <= |s|
    ensures Tail(s, i) == Load24(s, i) as int + 0x100_0000 * Tail(s, i + 3)
  {
    assert s[i..] == s[i..i + 3] + s[i + 3..];
    LeNatConcat(s[i..i + 3], s[i + 3..]);
    assert Pow256(3) == 0x100_0000;
  }

  lemma Split4(s: bytes, i: nat)
    requires i + 4 <= |s|
    ensures Tail(s, i) == Load32(s, i) as int + 0x1_0000_0000 * Tail(s, i + 4)
  {
    assert s[i..] == s[i..i + 4] + s[i + 4..];
    LeNatConcat(s[i..i + 4], s[i + 4..]);
    assert Pow256(4) == 0x1_0000_0000;
  }

  method Store32(s: array<u8>, i: nat, w: u32)
    requires i + 4 <= s.Length
    modifies s
    ensures Load32(s[..], i) == w
    ensures forall j | 0 <= j < s.Length && !(i <= j < i + 4) :: s[j] == old(s[j])
  {
    s[i] := (w % 0x100) as u8;
    s[i + 1] := (w / 0x100 % 0x100) as u8;
    s[i + 2] := (w / 0x1_0000 % 0x100) as u8;
    s[i + 3] := (w / 0x100_0000 % 0x100) as u8;
    hide LeNat;
    FourBytes(w as int);
  }

  lemma FourBytes(w: int)
    requires 0 <= w < 0x1_0000_0000
    ensures w == w % 0x100 + w / 0x100 % 0x100 * 0x100 + w / 0x1_0000 % 0x100 * 0x1_0000 + w / 0x100_0000 % 0x100 * 0x100_0000
  {
    assert w / 0x1_0000 == w / 0x100 / 0x100 && w / 0x100_0000 == w / 0x1_0000 / 0x100;
  }

  lemma Load32Frame(s: bytes, t: bytes, i: nat)
    requires i + 4 <= |s| == |t| && forall j | i <= j < i + 4 :: s[j] == t[j]
    ensures Load32(s, i) == Load32(t, i)
  {
  }
}
