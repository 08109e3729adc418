/** ChaCha20 as a stream over an arbitrary 16-word permutation. */
module ChaCha20 {
  import opened Machine
  import opened Bits
  import opened ByteStrings
  import opened Arithmetic

  type Words = w: seq<u32> | |w| == 16 witness [0, 0, 0, 0, 0, 0, 0, 0, 0, 0, 0, 0, 0, 0, 0, 0]

  /** The twenty rounds. */
  type Rounds = Words -> Words

  function XorBytes(a: bytes, b: bytes): (r: bytes)
    requires |a| == |b|
    ensures |r| == |a|
  {
    if a == [] then [] else [XorU8(a[0], b[0])] + XorBytes(a[1..], b[1..])
  }

  lemma {:induction false} XorBytesConcat(a: bytes, b: bytes, x: bytes, y: bytes)
    requires |a| == |b| && |x| == |y|
    ensures XorBytes(a + x, b + y) == XorBytes(a, b) + XorBytes(x, y)
  {
    hide XorU8;
    if a == [] {
      assert a + x == x && b + y == y;
    } else {
      var u, v, first := a + x, b + y, [XorU8(a[0], b[0])];
      XorBytesConcat(a[1..], b[1..], x, y);
      assert u[1..] == a[1..] + x && v[1..] == b[1..] + y;
      assert XorBytes(u, v) == first + XorBytes(u[1..], v[1..]);
      Prepend(first, XorBytes(a[1..], b[1..]), XorBytes(x, y));
    }
  }

  lemma Prepend(a: bytes, b: bytes, c: bytes)
    ensures a + (b + c) == (a + b) + c
  {
  }

  lemma {:induction false} XorBytesTwice(k: bytes, t: bytes)
    requires |k| == |t|
    ensures XorBytes(k, XorBytes(k, t)) == t
  {
    if k != [] {
      XorU8Cancels(k[0], t[0]);
      XorBytesTwice(k[1..], t[1..]);
      assert XorBytes(k, t)[1..] == XorBytes(k[1..], t[1..]);
    }
  }

  function XorU32(a: u32, b: u32): u32 {
    Pow2Values();
    XorBound(a as int, b as int, 32);
    Xor(a as int, b as int) as u32
  }

  /** Exclusive or of little-endian numbers is exclusive or of their bytes. */
  lemma {:induction false} XorOfBytes(x: nat, s: bytes)
    ensures LeBytes(Xor(x, LeNat(s)), |s|) == XorBytes(LeBytes(x, |s|), s)
  {
    hide Xor, Pow256;
    if s != [] {
      var a, b, u, v := x % 0x100, s[0] as int, x / 0x100, LeNat(s[1..]);
      var y := Xor(u, v);
      XorDigit(a, u, b, v);
      assert x == a + 0x100 * u;
      XorOfBytes(u, s[1..]);
      Digit(Xor(a, b) as u8, y);
      assert LeBytes(Xor(a, b) + 0x100 * y, |s|) == [Xor(a, b) as u8] + LeBytes(y, |s| - 1);
      assert LeBytes(x, |s|) == [a as u8] + LeBytes(u, |s| - 1);
      var t := LeBytes(x, |s|);
      assert t[1..] == LeBytes(u, |s| - 1);
    }
  }

  lemma XorDigit(a: nat, u: nat, b: nat, v: nat)
    requires a < 0x100 && b < 0x100
    ensures Xor(a + 0x100 * u, b + 0x100 * v) == Xor(a, b) + 0x100 * Xor(u, v) && Xor(a, b) < 0x100
  {
    hide Xor;
    assert Pow2(8) == 0x100;
    XorSplit(a, u, b, v, 8);
    XorBound(a, b, 8);
  }

  /** The key stream block for one input: rounds, plus the input word by word modulo 2^32. */
  function BlockWords(rounds: Rounds, input: Words): Words {
    var pool := rounds(input);
    seq(16, j requires 0 <= j < 16 => ((pool[j] as int + input[j] as int) % 0x1_0000_0000) as u32)
  }

  function WordBytes(w: seq<u32>): (s: bytes)
    ensures |s| == 4 * |w|
  {
    if w == [] then [] else LeBytes(w[0] as int, 4) + WordBytes(w[1..])
  }

  lemma {:induction false} WordBytesPush(w: seq<u32>, i: nat)
    requires i < |w|
    ensures WordBytes(w[..i + 1]) == WordBytes(w[..i]) + LeBytes(w[i] as int, 4)
  {
    hide LeBytes, LeNat;
    if i == 0 {
      assert w[..1][1..] == [];
    } else {
      WordBytesPush(w[1..], i - 1);
      assert w[..i + 1][1..] == w[1..][..i] && w[..i][1..] == w[1..][..i - 1];
    }
  }

  /** "expand 32-byte k", key, 64-bit counter, 64-bit nonce. */
  function Input(key: bytes, nonce: bytes, ctr: u64): Words
    requires |key| == 32 && |nonce| == 8
  {
    [0x61707865, 0x3320646e, 0x79622d32, 0x6b206574,
     Load32(key, 0), Load32(key, 4), Load32(key, 8), Load32(key, 12),
     Load32(key, 16), Load32(key, 20), Load32(key, 24), Load32(key, 28),
     (ctr % 0x1_0000_0000) as u32, (ctr / 0x1_0000_0000) as u32, Load32(nonce, 0), Load32(nonce, 4)]
  }

  function KeyBlock(rounds: Rounds, key: bytes, nonce: bytes, ctr: u64): (b: bytes)
    requires |key| == 32 && |nonce| == 8
    ensures |b| == 64
  {
    WordBytes(BlockWords(rounds, Input(key, nonce, ctr)))
  }

  function Advance(ctr: u64, n: nat): u64 {
    ((ctr as int + n) % 0x1_0000_0000_0000_0000) as u64
  }

  // ---- The stream cipher of section 2.4 of RFC 8439, with a wrapping 64-bit counter ----

  function Stream(rounds: Rounds, key: bytes, nonce: bytes, ctr: u64, text: bytes): (r: bytes)
    requires |key| == 32 && |nonce| == 8
    ensures |r| == |text|
    decreases |text|
  {
    if |text| <= 64 then XorBytes(KeyBlock(rounds, key, nonce, ctr)[..|text|], text)
    else XorBytes(KeyBlock(rounds, key, nonce, ctr), text[..64]) + Stream(rounds, key, nonce, Advance(ctr, 1), text[64..])
  }

  /** Byte p of the stream is byte p of the text under byte p mod 64 of block p / 64. */
  lemma {:induction false} StreamAt(rounds: Rounds, key: bytes, nonce: bytes, ctr: u64, text: bytes, p: nat)
    requires |key| == 32 && |nonce| == 8 && p < |text|
    ensures Stream(rounds, key, nonce, ctr, text)[p] == XorU8(KeyBlock(rounds, key, nonce, Advance(ctr, p / 64))[p % 64], text[p])
    decreases |text|
  {
    hide XorBytes, KeyBlock, XorU8, Advance;
    AdvanceTwice(ctr, 0);
    var k := KeyBlock(rounds, key, nonce, ctr);
    if |text| <= 64 {
      XorBytesAt(k[..|text|], text, p);
    } else if p < 64 {
      XorBytesAt(k, text[..64], p);
    } else {
      StreamAt(rounds, key, nonce, Advance(ctr, 1), text[64..], p - 64);
      AdvanceTwice(ctr, (p - 64) / 64);
      assert (p - 64) / 64 + 1 == p / 64 && (p - 64) % 64 == p % 64;
    }
  }

  lemma {:induction false} XorBytesAt(a: bytes, b: bytes, i: nat)
    requires |a| == |b| && i < |a|
    ensures XorBytes(a, b)[i] == XorU8(a[i], b[i])
  {
    hide XorU8;
    if i > 0 { XorBytesAt(a[1..], b[1..], i - 1); }
  }

  /** Byte j of a key stream block, counted in its little-endian words, each the sum of a word after the rounds and its input
      word modulo 2^32. */
  function BlockByte(rounds: Rounds, input: Words, j: nat): u8
    requires j < 64
  {
    ((rounds(input)[j / 4] as int + input[j / 4] as int) % 0x1_0000_0000 / Pow256(j % 4) % 0x100) as u8
  }

  lemma BlockBytes(rounds: Rounds, input: Words, j: nat)
    requires j < 64
    ensures WordBytes(BlockWords(rounds, input))[j] == BlockByte(rounds, input, j)
  {
    hide WordBytes, Pow256;
    WordBytesAt(BlockWords(rounds, input), j);
  }

  lemma {:induction false} WordBytesAt(w: seq<u32>, p: nat)
    requires p < 4 * |w|
    ensures WordBytes(w)[p] as int == w[p / 4] as int / Pow256(p % 4) % 0x100
    decreases |w|
  {
    hide LeBytes, Pow256;
    if p < 4 {
      ByteOfIs(w[0] as int, 4, p);
    } else {
      WordBytesAt(w[1..], p - 4);
      assert w[1..][(p - 4) / 4] == w[p / 4] && (p - 4) % 4 == p % 4;
    }
  }

  /** The four constant words are the text "expand 32-byte k", four characters each, the first one lowest. */
  lemma Sigma(key: bytes, nonce: bytes, ctr: u64, i: nat)
    requires |key| == 32 && |nonce| == 8 && i < 4
    ensures
      var s := "expand 32-byte k";
      Input(key, nonce, ctr)[i] as int
        == s[4 * i] as int + 0x100 * s[4 * i + 1] as int + 0x1_0000 * s[4 * i + 2] as int + 0x100_0000 * s[4 * i + 3] as int
  {
    hide LeNat, Load32;
  }

  /** Words 4 to 11 hold the key, 12 and 13 the counter, 14 and 15 the nonce. */
  lemma InputLayout(key: bytes, nonce: bytes, ctr: u64, i: nat)
    requires |key| == 32 && |nonce| == 8 && i < 8
    ensures
      var w := Input(key, nonce, ctr);
      && w[4 + i] as int == LeNat(key[4 * i..4 * i + 4]) && w[12] as int + 0x1_0000_0000 * w[13] as int == ctr as int
      && (i < 2 ==> w[14 + i] as int == LeNat(nonce[4 * i..4 * i + 4]))
  {
    hide LeNat;
  }

  /** Streaming twice with the same counter restores the text. */
  lemma {:induction false} StreamTwice(rounds: Rounds, key: bytes, nonce: bytes, ctr: u64, text: bytes)
    requires |key| == 32 && |nonce| == 8
    ensures Stream(rounds, key, nonce, ctr, Stream(rounds, key, nonce, ctr, text)) == text
    decreases |text|
  {
    hide XorBytes, KeyBlock;
    var k, once := KeyBlock(rounds, key, nonce, ctr), Stream(rounds, key, nonce, ctr, text);
    if |text| <= 64 {
      XorBytesTwice(k[..|text|], text);
    } else {
      XorBytesTwice(k, text[..64]);
      StreamTwice(rounds, key, nonce, Advance(ctr, 1), text[64..]);
      assert once[..64] == XorBytes(k, text[..64]) && once[64..] == Stream(rounds, key, nonce, Advance(ctr, 1), text[64..]);
    }
  }

  /** A text cut at a block boundary can be streamed in two calls, the second with the advanced counter. */
  lemma {:induction false} StreamConcat(rounds: Rounds, key: bytes, nonce: bytes, ctr: u64, a: bytes, b: bytes)
    requires |key| == 32 && |nonce| == 8 && |a| % 64 == 0
    ensures Stream(rounds, key, nonce, ctr, a + b)
         == Stream(rounds, key, nonce, ctr, a) + Stream(rounds, key, nonce, Advance(ctr, |a| / 64), b)
    decreases |a|
  {
    hide XorBytes, KeyBlock, Stream, Advance;
    if a == [] {
      AdvanceTwice(ctr, 0);
      EmptyStream(rounds, key, nonce, ctr, a);
      assert a + b == b;
    } else {
      assert (a + b)[..64] == a[..64] && (a + b)[64..] == a[64..] + b;
      StreamConcat(rounds, key, nonce, Advance(ctr, 1), a[64..], b);
      AdvanceTwice(ctr, |a| / 64 - 1);
      OneBlock(rounds, key, nonce, ctr, a);
      OneBlock(rounds, key, nonce, ctr, a + b);
    }
  }

  lemma AdvanceTwice(ctr: u64, n: nat)
    ensures Advance(Advance(ctr, 1), n) == Advance(ctr, n + 1) && Advance(ctr, 0) == ctr
  {
    AddAfterMod(ctr as int + 1, n, 0x1_0000_0000_0000_0000);
  }

  lemma EmptyStream(rounds: Rounds, key: bytes, nonce: bytes, ctr: u64, a: bytes)
    requires |key| == 32 && |nonce| == 8 && |a| == 0
    ensures Stream(rounds, key, nonce, ctr, a) == []
  {
  }

  /** Peeling the first block, also when nothing follows it. */
  lemma OneBlock(rounds: Rounds, key: bytes, nonce: bytes, ctr: u64, text: bytes)
    requires |key| == 32 && |nonce| == 8 && |text| >= 64
    ensures Stream(rounds, key, nonce, ctr, text)
         == XorBytes(KeyBlock(rounds, key, nonce, ctr), text[..64]) + Stream(rounds, key, nonce, Advance(ctr, 1), text[64..])
  {
    hide XorBytes, KeyBlock;
    if |text| == 64 {
      EmptyStream(rounds, key, nonce, Advance(ctr, 1), text[64..]);
      assert KeyBlock(rounds, key, nonce, ctr)[..64] == KeyBlock(rounds, key, nonce, ctr) && text[..64] == text;
    }
  }

  /** The inner loop over the sixteen words of one block; without a plain text the key stream itself. */
  method WholeBlock(cipher: array<u8>, off: nat, k: Words, plain: Option<bytes>)
    requires off + 64 <= cipher.Length && (plain.Some? ==> |plain.value| == cipher.Length)
    modifies cipher
    ensures cipher[..off] == old(cipher[..off])
    ensures cipher[off..off + 64] == Cover(WordBytes(k), off, plain)
  {
    hide XorBytes, WordBytes, LeNat, LeBytes, Load32, XorU32, Cover;
    ghost var before := cipher[..off];
    NoWords(k, off, plain);
    for j := 0 to 16
      invariant cipher[..off] == before
      invariant cipher[off..off + 4 * j] == Cover(WordBytes(k[..j]), off, plain)
    {
      var p := off + 4 * j;
      WordBytesPush(k, j);
      CoverPush(WordBytes(k[..j]), LeBytes(k[j] as int, 4), off, plain);
      CoverWord(k[j], p, plain);
      AppendWord(cipher, off, p, if plain.Some? then XorU32(k[j], Load32(plain.value, p)) else k[j]);
    }
    assert k[..16] == k;
  }

  /** The text at an offset under a key stream of any length: xor with the plain text, or the key stream itself. */
  function Cover(k: bytes, off: nat, plain: Option<bytes>): bytes
    requires plain.Some? ==> off + |k| <= |plain.value|
  {
    if plain.Some? then XorBytes(k, plain.value[off..off + |k|]) else k
  }

  lemma CoverPush(k: bytes, more: bytes, off: nat, plain: Option<bytes>)
    requires plain.Some? ==> off + |k| + |more| <= |plain.value|
    ensures Cover(k + more, off, plain) == Cover(k, off, plain) + Cover(more, off + |k|, plain)
  {
    if plain.Some? {
      var t := plain.value;
      assert t[off..off + |k| + |more|] == t[off..off + |k|] + t[off + |k|..off + |k| + |more|];
      XorBytesConcat(k, t[off..off + |k|], more, t[off + |k|..off + |k| + |more|]);
    }
  }

  lemma XorWord(w: u32, t: bytes, p: nat)
    requires p + 4 <= |t|
    ensures LeBytes(XorU32(w, Load32(t, p)) as int, 4) == XorBytes(LeBytes(w as int, 4), t[p..p + 4])
  {
    hide LeNat, LeBytes, Xor, XorBytes;
    XorOfBytes(w as int, t[p..p + 4]);
  }

  lemma CoverWord(w: u32, p: nat, plain: Option<bytes>)
    requires plain.Some? ==> p + 4 <= |plain.value|
    ensures LeBytes((if plain.Some? then XorU32(w, Load32(plain.value, p)) else w) as int, 4) == Cover(LeBytes(w as int, 4), p, plain)
  {
    hide LeNat, LeBytes, Xor, XorBytes, XorU32, Load32;
    if plain.Some? { XorWord(w, plain.value, p); }
  }

  lemma CoverByte(x: u8, p: nat, plain: Option<bytes>)
    requires plain.Some? ==> p < |plain.value|
    ensures Cover([x], p, plain) == [if plain.Some? then XorU8(x, plain.value[p]) else XorU8(x, 0)]
  {
    hide XorU8;
    XorU8Zero(x);
    if plain.Some? {
      var t := plain.value[p..p + 1];
      assert t == [plain.value[p]];
      assert XorBytes([x], t) == [XorU8(x, t[0])] + XorBytes([x][1..], t[1..]) && [x][1..] == [];
    }
  }

  lemma NoWords(k: seq<u32>, off: nat, plain: Option<bytes>)
    requires plain.Some? ==> off <= |plain.value|
    ensures Cover(WordBytes(k[..0]), off, plain) == []
  {
  }

  method AppendWord(s: array<u8>, off: nat, p: nat, w: u32)
    requires off <= p && p + 4 <= s.Length
    modifies s
    ensures s[..off] == old(s[..off]) && s[off..p + 4] == old(s[off..p]) + LeBytes(w as int, 4)
  {
    hide LeBytes, LeNat, Load32;
    ghost var was := s[..p];
    StoreAt(s, p, w);
    assert s[..off] == was[..off] && s[off..p] == was[off..p];
    assert s[off..p + 4] == s[off..p] + s[p..p + 4];
  }

  method AppendByte(s: array<u8>, off: nat, p: nat, x: u8)
    requires off <= p < s.Length
    modifies s
    ensures s[..off] == old(s[..off]) && s[off..p + 1] == old(s[off..p]) + [x]
  {
    ghost var was := s[..p];
    s[p] := x;
    assert s[..p] == was;
    assert s[..off] == was[..off] && s[off..p] == was[off..p];
    assert s[off..p + 1] == s[off..p] + [s[p]];
  }

  method StoreAt(s: array<u8>, i: nat, w: u32)
    requires i + 4 <= s.Length
    modifies s
    ensures s[..i] == old(s[..i]) && s[i..i + 4] == LeBytes(w as int, 4)
  {
    hide LeBytes, LeNat, Load32;
    ghost var was := s[..i];
    Store32(s, i, w);
    assert s[..i] == was;
    LeBytesOfNat(s[..][i..i + 4]);
    assert s[..][i..i + 4] == s[i..i + 4];
  }

  /** The text a null pointer stands for is all zeroes. */
  function TextOf(plain: Option<bytes>, n: nat): (t: bytes)
    requires plain.Some? ==> |plain.value| == n
    ensures |t| == n
  {
    if plain.Some? then plain.value else seq(n, _ => 0)
  }

  lemma {:induction false} XorZeroes(k: bytes, z: bytes)
    requires |z| == |k| && forall i | 0 <= i < |z| :: z[i] == 0
    ensures XorBytes(k, z) == k
  {
    if k != [] {
      assert XorU8(k[0], 0) == k[0];
      XorZeroes(k[1..], z[1..]);
    }
  }

  lemma CoverIsXor(k: bytes, off: nat, plain: Option<bytes>, n: nat)
    requires off + |k| <= n && (plain.Some? ==> |plain.value| == n)
    ensures Cover(k, off, plain) == XorBytes(k, TextOf(plain, n)[off..off + |k|])
  {
    if plain.None? { XorZeroes(k, TextOf(plain, n)[off..off + |k|]); }
  }

  /** input[12]++, carrying into input[13]. */
  function Increment(input: Words): Words {
    var low := ((input[12] as int + 1) % 0x1_0000_0000) as u32;
    if low == 0 then input[12 := low][13 := ((input[13] as int + 1) % 0x1_0000_0000) as u32] else input[12 := low]
  }

  lemma IncrementAdvances(key: bytes, nonce: bytes, ctr: u64)
    requires |key| == 32 && |nonce| == 8
    ensures Increment(Input(key, nonce, ctr)) == Input(key, nonce, Advance(ctr, 1))
  {
    hide Load32;
    var a, b := Increment(Input(key, nonce, ctr)), Input(key, nonce, Advance(ctr, 1));
    CounterWords(ctr as int);
    assert a[12] == b[12] && a[13] == b[13];
  }

  lemma CounterWords(c: int)
    requires 0 <= c < 0x1_0000_0000_0000_0000
    ensures
      var d := (c + 1) % 0x1_0000_0000_0000_0000;
      var low := (c % 0x1_0000_0000 + 1) % 0x1_0000_0000;
      d % 0x1_0000_0000 == low
      && d / 0x1_0000_0000 == if low == 0 then (c / 0x1_0000_0000 + 1) % 0x1_0000_0000 else c / 0x1_0000_0000
  {
    var hi, lo := c / 0x1_0000_0000, c % 0x1_0000_0000;
    if lo < 0xffff_ffff {
      Remainder(c + 1, hi, lo + 1, 0x1_0000_0000);
    } else {
      Remainder(c + 1, hi + 1, 0, 0x1_0000_0000);
    }
  }

  lemma AdvanceMore(ctr: u64, n: nat)
    ensures Advance(Advance(ctr, n), 1) == Advance(ctr, n + 1) && Advance(ctr, 0) == ctr
  {
    AddAfterMod(ctr as int + n, 1, 0x1_0000_0000_0000_0000);
  }

  /** crypto_chacha20_djb: the stream, and the counter for the next block. */
  method Djb(rounds: Rounds, cipher: array<u8>, plain: Option<bytes>, key: bytes, nonce: bytes, ctr: u64) returns (next: u64)
    requires |key| == 32 && |nonce| == 8 && (plain.Some? ==> |plain.value| == cipher.Length)
    modifies cipher
    ensures cipher[..] == Stream(rounds, key, nonce, ctr, TextOf(plain, cipher.Length))
    ensures next == Advance(ctr, (cipher.Length + 63) / 64)
  {
    hide Stream, KeyBlock, WordBytes, BlockWords, XorBytes, Input, Increment, Advance, Cover, TextOf;
    ghost var text := TextOf(plain, cipher.Length);
    var input := Input(key, nonce, ctr);
    var nb := cipher.Length / 64;
    AdvanceMore(ctr, 0);
    EmptyStream(rounds, key, nonce, ctr, text[..64 * 0]);
    for i := 0 to nb
      invariant input == Input(key, nonce, Advance(ctr, i))
      invariant cipher[..64 * i] == Stream(rounds, key, nonce, ctr, text[..64 * i])
    {
      WholeBlock(cipher, 64 * i, BlockWords(rounds, input), plain);
      BlockPush(rounds, key, nonce, ctr, i, plain, text);
      assert cipher[..64 * (i + 1)] == cipher[..64 * i] + cipher[64 * i..64 * i + 64];
      IncrementAdvances(key, nonce, Advance(ctr, i));
      AdvanceMore(ctr, i);
      input := Increment(input);
    }
    // What is left, less than 64 bytes
    var rest := cipher.Length % 64;
    if rest > 0 {
      PartialBlock(cipher, 64 * nb, BlockWords(rounds, input), plain);
      LastPush(rounds, key, nonce, ctr, nb, plain, text);
      assert cipher[..] == cipher[..64 * nb] + cipher[64 * nb..];
    } else {
      assert text[..64 * nb] == text && cipher[..64 * nb] == cipher[..];
    }
    AdvanceMore(ctr, nb);
    InputCounter(key, nonce, Advance(ctr, nb));
    next := Advance((input[12] as int + input[13] as int * 0x1_0000_0000) as u64, if rest > 0 then 1 else 0);
    AdvanceMore(next, 0);
    AdvanceMore(Advance(ctr, nb), 0);
  }

  lemma InputCounter(key: bytes, nonce: bytes, ctr: u64)
    requires |key| == 32 && |nonce| == 8
    ensures var input := Input(key, nonce, ctr); input[12] as int + input[13] as int * 0x1_0000_0000 == ctr as int
  {
    hide Load32;
  }

  /** A whole block under its cover extends the stream. */
  lemma BlockPush(rounds: Rounds, key: bytes, nonce: bytes, ctr: u64, i: nat, plain: Option<bytes>, text: bytes)
    requires |key| == 32 && |nonce| == 8 && 64 * (i + 1) <= |text|
    requires (plain.Some? ==> |plain.value| == |text|) && text == TextOf(plain, |text|)
    ensures Stream(rounds, key, nonce, ctr, text[..64 * (i + 1)])
         == Stream(rounds, key, nonce, ctr, text[..64 * i])
            + Cover(WordBytes(BlockWords(rounds, Input(key, nonce, Advance(ctr, i)))), 64 * i, plain)
  {
    hide Stream, XorBytes, WordBytes, BlockWords, Input, Advance, Cover, TextOf;
    var t := text[64 * i..64 * (i + 1)];
    assert text[..64 * (i + 1)] == text[..64 * i] + t;
    StreamConcat(rounds, key, nonce, ctr, text[..64 * i], t);
    OneBlock(rounds, key, nonce, Advance(ctr, i), t);
    EmptyStream(rounds, key, nonce, Advance(Advance(ctr, i), 1), t[64..]);
    assert t[..64] == t;
    CoverIsXor(KeyBlock(rounds, key, nonce, Advance(ctr, i)), 64 * i, plain, |text|);
  }

  lemma ShortStream(rounds: Rounds, key: bytes, nonce: bytes, ctr: u64, t: bytes)
    requires |key| == 32 && |nonce| == 8 && |t| <= 64
    ensures Stream(rounds, key, nonce, ctr, t) == XorBytes(KeyBlock(rounds, key, nonce, ctr)[..|t|], t)
  {
  }

  lemma LastPush(rounds: Rounds, key: bytes, nonce: bytes, ctr: u64, nb: nat, plain: Option<bytes>, text: bytes)
    requires |key| == 32 && |nonce| == 8 && 64 * nb <= |text| < 64 * nb + 64
    requires (plain.Some? ==> |plain.value| == |text|) && text == TextOf(plain, |text|)
    ensures Stream(rounds, key, nonce, ctr, text)
         == Stream(rounds, key, nonce, ctr, text[..64 * nb])
            + Cover(WordBytes(BlockWords(rounds, Input(key, nonce, Advance(ctr, nb))))[..|text| - 64 * nb], 64 * nb, plain)
  {
    hide Stream, XorBytes, WordBytes, BlockWords, Input, Advance, Cover, TextOf;
    var a, t := text[..64 * nb], text[64 * nb..];
    Remainder(|a|, nb, 0, 64);
    assert text == a + t;
    StreamConcat(rounds, key, nonce, ctr, a, t);
    LastCover(rounds, key, nonce, Advance(ctr, nb), 64 * nb, plain, text);
  }

  lemma LastCover(rounds: Rounds, key: bytes, nonce: bytes, ctr: u64, off: nat, plain: Option<bytes>, text: bytes)
    requires |key| == 32 && |nonce| == 8 && off <= |text| < off + 64
    requires (plain.Some? ==> |plain.value| == |text|) && text == TextOf(plain, |text|)
    ensures Stream(rounds, key, nonce, ctr, text[off..])
         == Cover(WordBytes(BlockWords(rounds, Input(key, nonce, ctr)))[..|text| - off], off, plain)
  {
    hide Stream, XorBytes, WordBytes, BlockWords, Input, Cover, TextOf;
    ShortStream(rounds, key, nonce, ctr, text[off..]);
    CoverIsXor(KeyBlock(rounds, key, nonce, ctr)[..|text| - off], off, plain, |text|);
    assert text[off..off + (|text| - off)] == text[off..];
  }

  /** The last block goes through a temporary block of key stream. */
  method PartialBlock(cipher: array<u8>, off: nat, k: Words, plain: Option<bytes>)
    requires off < cipher.Length < off + 64 && (plain.Some? ==> |plain.value| == cipher.Length)
    modifies cipher
    ensures cipher[..off] == old(cipher[..off])
    ensures cipher[off..] == Cover(WordBytes(k)[..cipher.Length - off], off, plain)
  {
    hide WordBytes, XorU8, Cover;
    var tmp := WordBytes(k)[..cipher.Length - off];
    ghost var before := cipher[..off];
    NoBytes(off, plain);
    for i := 0 to cipher.Length - off
      invariant cipher[..off] == before && cipher[off..off + i] == Cover(tmp[..i], off, plain)
    {
      CoverPush(tmp[..i], [tmp[i]], off, plain);
      CoverByte(tmp[i], off + i, plain);
      assert tmp[..i + 1] == tmp[..i] + [tmp[i]];
      AppendByte(cipher, off, off + i, if plain.Some? then XorU8(tmp[i], plain.value[off + i]) else XorU8(tmp[i], 0));
    }
    assert tmp[..|tmp|] == tmp;
    assert cipher[off..] == cipher[off..off + |tmp|];
  }

  lemma NoBytes(off: nat, plain: Option<bytes>)
    requires plain.Some? ==> off <= |plain.value|
    ensures Cover([], off, plain) == []
  {
  }

  lemma XorU8Zero(x: u8)
    ensures XorU8(x, 0) == x
  {
  }
}
