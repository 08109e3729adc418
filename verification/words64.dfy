/** Sequences of 64-bit words as little-endian byte strings. */
module LongWords {
  import opened Machine
  import opened Bits
  import opened ByteStrings
  import opened Arithmetic

  function Bytes64(w: seq<u64>): (s: bytes)
    ensures |s| == 8 * |w|
  {
    if w == [] then [] else LeBytes(w[0] as int, 8) + Bytes64(w[1..])
  }

  lemma {:induction false} Bytes64Concat(v: seq<u64>, w: seq<u64>)
    ensures Bytes64(v + w) == Bytes64(v) + Bytes64(w)
  {
    hide LeBytes;
    if v == [] {
      assert v + w == w;
    } else {
      Bytes64Concat(v[1..], w);
      assert (v + w)[1..] == v[1..] + w;
    }
  }

  lemma OneWord(x: u64)
    ensures Bytes64([x]) == LeBytes(x as int, 8)
  {
    hide LeBytes;
    assert [x][1..] == [];
    assert Bytes64([x]) == LeBytes(x as int, 8) + Bytes64([x][1..]);
  }

  lemma Bytes64Push(w: seq<u64>, i: nat)
    requires i < |w|
    ensures Bytes64(w[..i + 1]) == Bytes64(w[..i]) + LeBytes(w[i] as int, 8)
  {
    hide Bytes64, LeBytes;
    assert w[..i + 1] == w[..i] + [w[i]];
    Bytes64Concat(w[..i], [w[i]]);
    OneWord(w[i]);
  }

  /** Storing a word replaces its eight bytes. */
  lemma SetLongWord(w: seq<u64>, i: nat, x: u64)
    requires i < |w|
    ensures Bytes64(w[i := x]) == Bytes64(w)[..8 * i] + LeBytes(x as int, 8) + Bytes64(w)[8 * i + 8..]
    ensures Bytes64(w)[8 * i..8 * i + 8] == LeBytes(w[i] as int, 8)
  {
    hide Bytes64, LeBytes;
    var lo, hi := Bytes64(w[..i]), Bytes64(w[i + 1..]);
    ThreeParts(w, i);
    assert Bytes64(w) == lo + LeBytes(w[i] as int, 8) + hi;
    var t := w[i := x];
    ThreeParts(t, i);
    assert t[..i] == w[..i] && t[i + 1..] == w[i + 1..];
  }

  lemma ThreeParts(w: seq<u64>, i: nat)
    requires i < |w|
    ensures Bytes64(w) == Bytes64(w[..i]) + LeBytes(w[i] as int, 8) + Bytes64(w[i + 1..])
  {
    hide Bytes64, LeBytes;
    assert w == w[..i + 1] + w[i + 1..];
    Bytes64Concat(w[..i + 1], w[i + 1..]);
    Bytes64Push(w, i);
  }

  lemma {:induction false} ZeroWords(w: seq<u64>)
    requires forall i | 0 <= i < |w| :: w[i] == 0
    ensures Bytes64(w) == Zeros(8 * |w|)
  {
    if w != [] {
      ZeroWords(w[1..]);
      ZeroBytes(8);
    }
  }

  lemma {:induction false} ZeroBytes(n: nat)
    ensures LeBytes(0, n) == Zeros(n)
  {
    if n > 0 { ZeroBytes(n - 1); }
  }

  /** load64_le. */
  function Load64(s: bytes, i: nat): (x: u64)
    requires i + 8 <= |s|
    ensures LeBytes(x as int, 8) == s[i..i + 8]
  {
    Pow256Of8();
    LeBytesOfNat(s[i..i + 8]);
    LeNat(s[i..i + 8]) as u64
  }

  lemma Pow256Of8()
    ensures Pow256(8) == 0x1_0000_0000_0000_0000
  {
  }

  /** (x >> (8 * j)) & 0xff. */
  function ByteOf(x: u64, j: nat): u8 { (x as int / Pow256(j) % 0x100) as u8 }

  /** Or-ing a byte, shifted to a position from which on the word is zero, puts it there. */
  lemma OrByte(x: u64, j: nat, b: u8)
    requires j < 8
    requires var s := LeBytes(x as int, 8); forall k | j <= k < 8 :: s[k] == 0
    ensures
      var y := Or(x as int, Pow256(j) * b as int);
      y < 0x1_0000_0000_0000_0000 && LeBytes(y, 8) == LeBytes(x as int, 8)[j := b]
  {
    hide LeNat, LeBytes, Or, Pow256;
    var s := LeBytes(x as int, 8);
    var t := s[j := b];
    Pow256Of8();
    LeNatOfBytes(x as int, 8);
    Leading(s, j, 0);
    assert s[j..] == [0] + s[j + 1..];
    assert t == t[..j] + ([b] + t[j + 1..]) && t[..j] == s[..j];
    Leading(t, j, b);
    Pow256IsPow2(j);
    OrDisjoint(x as int, b as int, 8 * j);
    LeBytesOfNat(t);
  }

  /** The number of a string whose last bytes but one given are zero. */
  lemma Leading(s: bytes, j: nat, b: u8)
    requires j < |s| && s[j] == b && forall k | j < k < |s| :: s[k] == 0
    ensures LeNat(s) == LeNat(s[..j]) + Pow256(j) * b as int && LeNat(s[..j]) < Pow256(j)
  {
    hide Pow256;
    var rest := s[j..];
    assert s == s[..j] + rest;
    LeNatConcat(s[..j], rest);
    LeNatZeros(rest[1..]);
    assert LeNat(rest) == b as int;
  }

  /** ctx->input[k >> 3] |= (u64)b << ((k & 7) << 3), where the rest of that word is zero. */
  lemma PutByte(w: seq<u64>, k: nat, b: u8)
    requires k < 8 * |w| && forall j | k <= j < 8 * (k / 8) + 8 :: Bytes64(w)[j] == 0
    ensures
      var y := Or(w[k / 8] as int, Pow256(k % 8) * b as int);
      y < 0x1_0000_0000_0000_0000 && Bytes64(w[k / 8 := y as u64]) == Bytes64(w)[k := b]
  {
    hide Bytes64, LeBytes, Or, Pow256;
    var i, j := k / 8, k % 8;
    var x, s := w[i], Bytes64(w);
    SetLongWord(w, i, x);
    var eight := LeBytes(x as int, 8);
    forall m | j <= m < 8 ensures eight[m] == 0 {
      assert s[8 * i..8 * i + 8][m] == s[8 * i + m];
    }
    OrByte(x, j, b);
    var y := Or(x as int, Pow256(j) * b as int);
    SetLongWord(w, i, y as u64);
    Splice(s, i, j, b);
  }

  lemma Splice(s: bytes, i: nat, j: nat, b: u8)
    requires 8 * i + 8 <= |s| && j < 8
    ensures s[..8 * i] + s[8 * i..8 * i + 8][j := b] + s[8 * i + 8..] == s[8 * i + j := b]
  {
  }
}
