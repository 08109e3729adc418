/** Incremental BLAKE2b over an arbitrary compression function. */
module Blake2b {
  import opened Machine
  import opened Bits
  import opened ByteStrings
  import opened Arithmetic
  import opened LongWords

  type Chain = h: seq<u64> | |h| == 8 witness [0, 0, 0, 0, 0, 0, 0, 0]

  /** The compression function F of section 3.2 of RFC 7693: chaining value, 128-byte block,
      low and high words of the offset counter, and the final-block flag. */
  type Compression = (Chain, bytes, u64, u64, bool) -> Chain

  const IV: Chain := [0x6a09e667f3bcc908, 0xbb67ae8584caa73b, 0x3c6ef372fe94f82b, 0xa54ff53a5f1d36f1,
                      0x510e527fade682d1, 0x9b05688c2b3e6c1f, 0x1f83d9abfb41bd6b, 0x5be0cd19137e2179]

  /** The parameter block of an unkeyed hash folded into the first word. */
  function InitialChain(hashSize: nat): Chain
    requires hashSize <= 64
  {
    Pow2Of64();
    Pow2Mono(25, 64);
    XorBound(0x01010000, hashSize, 64);
    XorBound(IV[0] as int, Xor(0x01010000, hashSize), 64);
    IV[0 := Xor(IV[0] as int, Xor(0x01010000, hashSize)) as u64]
  }

  function Low(offset: nat): u64 { (offset % 0x1_0000_0000_0000_0000) as u64 }
  function High(offset: nat): u64 { (offset / 0x1_0000_0000_0000_0000 % 0x1_0000_0000_0000_0000) as u64 }

  /** A block of at most 128 bytes, zero-filled. */
  function Pad(s: bytes): (b: bytes)
    requires |s| <= 128
    ensures |b| == 128
  {
    s + Zeros(128 - |s|)
  }

  // ---- The hash of section 3.3 of RFC 7693 ----

  /** The chaining value after the first n blocks, none of them final. */
  function Chained(f: Compression, h: Chain, msg: bytes, n: nat): Chain
    requires 128 * n <= |msg|
  {
    if n == 0 then h
    else f(Chained(f, h, msg, n - 1), msg[128 * (n - 1)..128 * n], Low(128 * n), High(128 * n), false)
  }

  /** How many blocks come before the final one; the final block is never empty unless the message is. */
  function Before(len: nat): (n: nat)
    ensures 128 * n <= len
  {
    if len == 0 then 0 else (len - 1) / 128
  }

  function FinalChain(f: Compression, h: Chain, msg: bytes): Chain {
    var n := Before(|msg|);
    f(Chained(f, h, msg, n), Pad(msg[128 * n..]), Low(|msg|), High(|msg|), true)
  }

  /** BLAKE2b with an output of hashSize bytes. */
  function Hash(f: Compression, hashSize: nat, msg: bytes): (r: bytes)
    requires hashSize <= 64
    ensures |r| == hashSize
  {
    Bytes64(FinalChain(f, InitialChain(hashSize), msg))[..hashSize]
  }

  lemma {:induction false} ChainedPrefix(f: Compression, h: Chain, msg: bytes, more: bytes, n: nat)
    requires 128 * n <= |msg|
    ensures Chained(f, h, msg + more, n) == Chained(f, h, msg, n)
  {
    if n > 0 {
      ChainedPrefix(f, h, msg, more, n - 1);
      assert (msg + more)[128 * (n - 1)..128 * n] == msg[128 * (n - 1)..128 * n];
    }
  }

  // ---- The same, as the loop of section 3.3 of RFC 7693 ----

  /** The initial words are the first 64 bits behind the point of the square roots of the first eight primes. */
  lemma IvIsRoots(i: nat)
    requires i < 8
    ensures
      var x := [1, 1, 2, 2, 3, 3, 4, 4][i] * 0x1_0000_0000_0000_0000 + IV[i] as int;
      var square := [2, 3, 5, 7, 11, 13, 17, 19][i] * 0x1_0000_0000_0000_0000_0000_0000_0000_0000;
      x * x <= square < (x + 1) * (x + 1)
  {
    match i case 0 => case 1 => case 2 => case 3 => case 4 => case 5 => case 6 => case 7 =>
  }

  /** The parameter block of section 2.5: digest length, no key, fanout and depth 1. */
  lemma ParameterBlock(hashSize: nat)
    requires hashSize <= 64
    ensures InitialChain(hashSize)[0] as int == Xor(IV[0] as int, LeNat([hashSize as u8, 0, 1, 1]))
    ensures InitialChain(hashSize)[1..] == IV[1..]
  {
    hide LeNat;
    var p := [hashSize as u8, 0, 1, 1];
    assert p[0..4] == p;
    assert Load32(p, 0) as int == hashSize + 0x0101_0000;
    Pow2Of16();
    XorOfDisjoint(hashSize, 0x101);
  }

  lemma Pow2Of16()
    ensures Pow2(16) == 0x1_0000
  {
    assert Pow2(9) == 0x200;
  }

  lemma XorOfDisjoint(a: nat, b: nat)
    requires a < 0x1_0000
    ensures Xor(0x1_0000 * b, a) == a + 0x1_0000 * b
  {
    hide Xor, Pow2;
    Pow2Of16();
    XorSplit(0, b, a, 0, 16);
    NoBits(a);
    NoBits(b);
  }

  /** The number of blocks hashed: one even for an empty message. */
  function BlockCount(len: nat): nat { if len == 0 then 1 else (len + 127) / 128 }

  /** The chaining values of the loop: every block but the last is compressed with the number of bytes up to its end, the
      last, filled with zeroes, with the length of the message and the final flag. */
  ghost predicate LoopValues(f: Compression, start: Chain, msg: bytes, hs: seq<Chain>) {
    var n := BlockCount(|msg|);
    var d := msg + Zeros(128 * n - |msg|);
    && |hs| == n + 1 && hs[0] == start
    && (forall i | 0 <= i < n - 1 :: hs[i + 1] == f(hs[i], d[128 * i..128 * i + 128], Low(128 * (i + 1)), High(128 * (i + 1)), false))
    && hs[n] == f(hs[n - 1], d[128 * (n - 1)..], Low(|msg|), High(|msg|), true)
  }

  /** The hash is the first bytes of the last of those values, each word low byte first. */
  lemma HashIsLoop(f: Compression, hashSize: nat, msg: bytes, hs: seq<Chain>, j: nat)
    requires j < hashSize <= 64 && LoopValues(f, InitialChain(hashSize), msg, hs)
    ensures Hash(f, hashSize, msg)[j] as int == hs[BlockCount(|msg|)][j / 8] as int / Pow256(j % 8) % 0x100
  {
    hide Low, High, Bytes64, Pow256, InitialChain;
    var n, start := BlockCount(|msg|), InitialChain(hashSize);
    var d := msg + Zeros(128 * n - |msg|);
    LastBlock(|msg|);
    LoopPrefix(f, start, msg, hs, n - 1);
    assert d[128 * (n - 1)..] == Pad(msg[128 * (n - 1)..]);
    ByteAt(hs[n], j / 8, j % 8);
  }

  lemma LastBlock(len: nat)
    ensures Before(len) == BlockCount(len) - 1 && 128 * BlockCount(len) >= len && len - 128 * Before(len) <= 128
  {
  }

  lemma {:induction false} LoopPrefix(f: Compression, start: Chain, msg: bytes, hs: seq<Chain>, i: nat)
    requires LoopValues(f, start, msg, hs) && i < BlockCount(|msg|) && 128 * i <= |msg|
    ensures Chained(f, start, msg, i) == hs[i]
    decreases i
  {
    hide Low, High;
    if i > 0 {
      LoopPrefix(f, start, msg, hs, i - 1);
      var d := msg + Zeros(128 * BlockCount(|msg|) - |msg|);
      assert d[128 * (i - 1)..128 * (i - 1) + 128] == msg[128 * (i - 1)..128 * i];
      assert hs[(i - 1) + 1] == hs[i];
    }
  }

  /** The two counter words are the number of bytes modulo 2^128. */
  lemma CounterWords(offset: nat)
    ensures Low(offset) as int + 0x1_0000_0000_0000_0000 * High(offset) as int == offset % 0x1_0000_0000_0000_0000_0000_0000_0000_0000
  {
    var b := 0x1_0000_0000_0000_0000;
    var q, r := offset / b, offset % b;
    Remainder(offset, q / b, r + b * (q % b), b * b);
  }

  class Context {
    const f: Compression
    const input: array<u64>
    var hash: Chain
    var offset0: u64
    var offset1: u64
    var inputIdx: nat
    var hashSize: nat
    ghost var start: Chain       // chaining value after initialisation
    ghost var msg: bytes         // everything absorbed so far

    constructor (f: Compression)
      ensures this.f == f && input.Length == 16 && fresh(input)
    {
      this.f := f;
      input := new u64[16];
      hash := IV;
      hashSize := 0;
      inputIdx := 0;
      offset0, offset1 := 0, 0;
      start := IV;
      msg := [];
    }

    /** The bytes in the buffer, the words being little-endian. */
    function Buffer(): (b: bytes)
      reads input
      ensures |b| == 8 * input.Length
    {
      Bytes64(input[..])
    }

    /** n blocks have been compressed; the buffer holds the rest of the message and zeroes. */
    ghost predicate Filling(n: nat)
      reads this, input
    {
      input.Length == 16 && inputIdx <= 128 && hashSize <= 64
      && |msg| == 128 * n + inputIdx
      && Buffer() == Pad(msg[128 * n..])
      && hash == Chained(f, start, msg, n)
      && offset0 == Low(128 * n) && offset1 == High(128 * n)
    }

    /** The whole context is determined by the message absorbed; the last block stays uncompressed. */
    ghost predicate Valid()
      reads this, input
    {
      Filling(Before(|msg|))
    }

    method Init(hashSize: nat)
      requires input.Length == 16 && hashSize <= 64
      modifies this, input
      ensures Valid() && msg == [] && this.hashSize == hashSize && start == InitialChain(hashSize)
    {
      hide InitialChain;
      hash := InitialChain(hashSize);
      offset0 := 0;
      offset1 := 0;
      this.hashSize := hashSize;
      inputIdx := 0;
      ClearInput();
      start := hash;
      msg := [];
    }

    method ClearInput()
      requires input.Length == 16
      modifies input
      ensures Buffer() == Zeros(128)
    {
      for i := 0 to 16
        invariant forall j | 0 <= j < i :: input[j] == 0
      {
        input[i] := 0;
      }
      ZeroWords(input[..]);
    }

    /** blake2b_compress: advance the 128-bit offset by what the buffer holds, then apply F. */
    method Compress(last: bool)
      requires input.Length == 16 && inputIdx <= 128
      modifies this`hash, this`offset0, this`offset1
      ensures forall o: nat :: old(offset0) == Low(o) && old(offset1) == High(o)
                ==> offset0 == Low(o + inputIdx) && offset1 == High(o + inputIdx)
      ensures hash == f(old(hash), Buffer(), offset0, offset1, last)
    {
      var y := inputIdx;
      ghost var old0, old1 := offset0, offset1;
      offset0 := ((offset0 as int + y) % 0x1_0000_0000_0000_0000) as u64;
      if offset0 as int < y {
        offset1 := ((offset1 as int + 1) % 0x1_0000_0000_0000_0000) as u64;
      }
      forall o: nat | old0 == Low(o) && old1 == High(o)
        ensures offset0 == Low(o + y) && offset1 == High(o + y)
      {
        OffsetCarries(o, y);
      }
      hash := f(hash, Buffer(), offset0, offset1, last);
    }

    /** Appends bytes one at a time, or-ing each, shifted, into the zeroes that follow the data. */
    method AppendBytes(x: bytes, ghost n: nat)
      requires Filling(n) && inputIdx + |x| <= 128
      modifies this`inputIdx, this`msg, input
      ensures Filling(n) && msg == old(msg) + x && inputIdx == old(inputIdx) + |x|
    {
      hide Bytes64, Low, High, Or, Pow256;
      ghost var tail := msg[128 * n..];
      assert tail + x[..0] == tail;
      for i := 0 to |x|
        invariant msg == old(msg) && inputIdx == |tail| + i && Buffer() == Pad(tail + x[..i])
      {
        ghost var w := input[..];
        var word, byte := inputIdx / 8, inputIdx % 8;
        PutByte(w, inputIdx, x[i]);
        PadPush(tail + x[..i], x[i]);
        assert tail + x[..i] + [x[i]] == tail + x[..i + 1];
        input[word] := Or(input[word] as int, Pow256(byte) * x[i] as int) as u64;
        assert input[..] == w[word := input[word]];
        inputIdx := inputIdx + 1;
      }
      assert x[..|x|] == x;
      Extend(x, n, tail);
    }

    ghost method Extend(x: bytes, n: nat, tail: bytes)
      requires input.Length == 16 && inputIdx <= 128 && hashSize <= 64
      requires 128 * n <= |msg| && tail == msg[128 * n..] && inputIdx == |tail| + |x| && Buffer() == Pad(tail + x)
      requires hash == Chained(f, start, msg, n) && offset0 == Low(128 * n) && offset1 == High(128 * n)
      modifies this`msg
      ensures Filling(n) && msg == old(msg) + x
    {
      ChainedPrefix(f, start, msg, x, n);
      msg := msg + x;
      assert msg[128 * n..] == tail + x;
    }

    /** load64_le_buf into the buffer at the given word. */
    method AppendWords(word: nat, x: bytes, ghost n: nat)
      requires Filling(n) && inputIdx + |x| <= 128 && |x| % 8 == 0 && (8 * word == inputIdx || |x| == 0)
      modifies this`inputIdx, this`msg, input
      ensures Filling(n) && msg == old(msg) + x && inputIdx == old(inputIdx) + |x|
    {
      hide Bytes64, Low, High, LeBytes, LeNat;
      ghost var tail := msg[128 * n..];
      assert tail + x[..8 * 0] == tail;
      for i := 0 to |x| / 8
        invariant msg == old(msg) && inputIdx == |tail| && Buffer() == Pad(tail + x[..8 * i])
      {
        ghost var w := input[..];
        PadWord(tail, x, i);
        SetLongWord(w, word + i, Load64(x, 8 * i));
        input[word + i] := Load64(x, 8 * i);
        assert input[..] == w[word + i := Load64(x, 8 * i)];
      }
      assert x[..8 * (|x| / 8)] == x;
      inputIdx := inputIdx + |x|;
      Extend(x, n, tail);
    }

    /** One whole block of the loop in crypto_blake2b_update: flush a full buffer, then load. */
    method NextBlock(block: bytes, ghost n: nat) returns (ghost n': nat)
      requires Filling(n) && |block| == 128 && (inputIdx == 128 || (inputIdx == 0 && n == 0))
      modifies this`hash, this`offset0, this`offset1, this`inputIdx, this`msg, input
      ensures Filling(n') && inputIdx == 128 && msg == old(msg) + block
    {
      hide Low, High;
      n' := n;
      if inputIdx == 128 {
        n' := n + 1;
        FullBlock(n);
      }
      assert msg[128 * n'..] == [];
      LoadBlock(block);
      inputIdx := 128;
      assert [] + block == block && Pad(block) == block;
      Extend(block, n', []);
    }

    /** load64_le_buf of a whole block. */
    method LoadBlock(block: bytes)
      requires input.Length == 16 && |block| == 128
      modifies input
      ensures Buffer() == block
    {
      hide Bytes64, LeBytes, LeNat;
      ZeroWords(input[..0]);
      for i := 0 to 16
        invariant Bytes64(input[..i]) == block[..8 * i]
      {
        ghost var low := input[..i];
        input[i] := Load64(block, 8 * i);
        assert input[..][..i] == low && input[..][..i + 1] == input[..i + 1];
        Bytes64Push(input[..], i);
        assert block[..8 * (i + 1)] == block[..8 * i] + block[8 * i..8 * i + 8];
      }
      assert input[..16] == input[..] && block[..8 * 16] == block;
    }

    /** Compressing the full buffer as a block that is not the last. */
    method FullBlock(ghost n: nat)
      requires Filling(n) && inputIdx == 128
      modifies this`hash, this`offset0, this`offset1
      ensures hash == Chained(f, start, msg, n + 1) && offset0 == Low(128 * (n + 1)) && offset1 == High(128 * (n + 1))
    {
      hide Low, High;
      assert msg[128 * n..128 * (n + 1)] == msg[128 * n..] == Buffer();
      Compress(false);
    }

    /** The incomplete block at the end of an update: flush a full buffer, clear an empty one, append. */
    method LastBytes(x: bytes, ghost n: nat)
      requires Filling(n) && 0 < |x| < 128
      requires inputIdx == 128 || (inputIdx == 0 && n == 0) || (inputIdx + |x| <= 128 && |x| < 8)
      modifies this`hash, this`offset0, this`offset1, this`inputIdx, this`msg, input
      ensures Valid() && msg == old(msg) + x
    {
      hide Low, High, Filling, Before;
      Counts(n);
      ghost var n' := Flush(n);
      var words := 8 * (|x| / 8);
      WholeWords(|x|);
      var front, rest := x[..words], x[words..];
      AppendWords(0, front, n');
      AppendBytes(rest, n');
      assert front + rest == x;
      Appended(old(msg), front, rest);
      Counts(n');
      LastBlockStays(|msg|, n', inputIdx);
    }

    lemma Counts(n: nat)
      requires Filling(n)
      ensures input.Length == 16 && inputIdx <= 128 && |msg| == 128 * n + inputIdx
    {
    }

    /** A full buffer is compressed and starts over; any other is kept. */
    method Flush(ghost n: nat) returns (ghost n': nat)
      requires Filling(n)
      modifies this`hash, this`offset0, this`offset1, this`inputIdx, input
      ensures Filling(n') && inputIdx == (if old(inputIdx) == 128 then 0 else old(inputIdx))
      ensures n' == if old(inputIdx) == 128 then n + 1 else n
    {
      hide Low, High;
      n' := n;
      if inputIdx == 128 {
        n' := n + 1;
        FullBlock(n);
        inputIdx := 0;
      }
      if inputIdx == 0 {
        ClearInput();
        assert msg[128 * n'..] == [] && Buffer() == Pad([]);
      }
    }

    /** crypto_blake2b_update: however a message is cut into calls, the context afterwards is the
        one its concatenation determines. */
    method Update(message: bytes)
      requires Valid()
      modifies this`hash, this`offset0, this`offset1, this`inputIdx, this`msg, input
      ensures Valid() && msg == old(msg) + message
    {
      hide Low, High, Filling, Before;
      if |message| == 0 {
        assert message == [];
        return;
      }
      ghost var n := Before(|msg|);
      NeverEmpty(|msg|);
      Counts(n);
      var taken := AlignBuffer(message, n);
      assert message == message[..taken] + message[taken..];
      Blocks(message[taken..], n);
    }

    /** Align with word boundaries, then with block boundaries. */
    method AlignBuffer(message: bytes, ghost n: nat) returns (taken: nat)
      requires Filling(n)
      modifies this`inputIdx, this`msg, input
      ensures taken <= |message| && Filling(n) && msg == old(msg) + message[..taken]
      ensures inputIdx == 0 ==> old(inputIdx) == 0
      ensures inputIdx == 0 || inputIdx == 128 || (|message| - taken < 8 && inputIdx + |message| - taken <= 128)
    {
      hide Low, High, Filling, WordPart, BlockPart;
      Counts(n);
      var a := WordPart(inputIdx, |message|);
      AppendBytes(message[..a], n);
      var rest := message[a..];
      var w := BlockPart(inputIdx, |rest|);
      AppendWords(inputIdx / 8, rest[..w], n);
      taken := a + w;
      TakeMore(message, a, w);
    }

    /** Whole blocks, then what remains. */
    method Blocks(x: bytes, ghost n0: nat)
      requires Filling(n0) && (inputIdx == 0 ==> n0 == 0)
      requires inputIdx == 0 || inputIdx == 128 || (|x| < 8 && inputIdx + |x| <= 128)
      modifies this`hash, this`offset0, this`offset1, this`inputIdx, this`msg, input
      ensures Valid() && msg == old(msg) + x
    {
      hide Low, High, Filling, Before;
      ghost var n, before := n0, msg;
      Counts(n);
      var nb := |x| / 128;
      for i := 0 to nb
        invariant Filling(n) && msg == before + x[..128 * i]
        invariant i == 0 ==> n == n0 && inputIdx == old(inputIdx)
        invariant i > 0 ==> inputIdx == 128
      {
        assert x[..128 * (i + 1)] == x[..128 * i] + x[128 * i..128 * (i + 1)];
        n := NextBlock(x[128 * i..128 * (i + 1)], n);
      }
      assert x == x[..128 * nb] + x[128 * nb..];
      if |x| % 128 != 0 {
        LastBytes(x[128 * nb..], n);
      } else {
        assert x[128 * nb..] == [];
        Counts(n);
        LastBlockStays(|msg|, n, inputIdx);
      }
    }

    /** crypto_blake2b_final: the hash of section 3.3 of RFC 7693 of everything absorbed. */
    method Final() returns (out: bytes)
      requires Valid() && start == InitialChain(hashSize)
      modifies this`hash, this`offset0, this`offset1
      ensures out == Hash(f, hashSize, msg)
    {
      hide Low, High, InitialChain, Chained, Bytes64;
      Compress(true);
      out := Output(hash, Min(hashSize, 64));
    }
  }

  /** store64_le_buf of the whole words, then the bytes of the last one. */
  method Output(hash: Chain, size: nat) returns (out: bytes)
    requires size <= 64
    ensures out == Bytes64(hash)[..size]
  {
    hide Bytes64;
    var a := new u8[size];
    var nbWords := size / 8;
    for i := 0 to nbWords
      invariant forall k | 0 <= k < 8 * i :: a[k] == Bytes64(hash)[k]
    {
      for j := 0 to 8
        invariant forall k | 0 <= k < 8 * i + j :: a[k] == Bytes64(hash)[k]
      {
        ByteAt(hash, i, j);
        a[8 * i + j] := ByteOf(hash[i], j);
      }
    }
    for i := 8 * nbWords to size
      invariant forall k | 0 <= k < i :: a[k] == Bytes64(hash)[k]
    {
      ByteAt(hash, i / 8, i % 8);
      a[i] := ByteOf(hash[i / 8], i % 8);
    }
    out := a[..];
  }

  lemma ByteAt(w: seq<u64>, i: nat, j: nat)
    requires i < |w| && j < 8
    ensures Bytes64(w)[8 * i + j] == ByteOf(w[i], j)
  {
    hide Bytes64, LeBytes;
    SetLongWord(w, i, w[i]);
    ByteOfIs(w[i] as int, 8, j);
    assert Bytes64(w)[8 * i..8 * i + 8][j] == Bytes64(w)[8 * i + j];
  }

  lemma PadPush(s: bytes, b: u8)
    requires |s| < 128
    ensures Pad(s)[|s|] == 0 && (forall j | |s| <= j < 128 :: Pad(s)[j] == 0) && Pad(s + [b]) == Pad(s)[|s| := b]
  {
  }

  lemma PadWord(tail: bytes, x: bytes, i: nat)
    requires 8 * i + 8 <= |x| && |tail| + |x| <= 128
    ensures
      var p, k := Pad(tail + x[..8 * i]), |tail| + 8 * i;
      Pad(tail + x[..8 * (i + 1)]) == p[..k] + x[8 * i..8 * i + 8] + p[k + 8..]
  {
  }

  lemma TakeMore(m: bytes, a: nat, w: nat)
    requires a + w <= |m|
    ensures m[..a + w] == m[..a] + m[a..][..w]
  {
  }

  /** How many bytes the first phase of an update takes: up to the next word boundary. */
  function WordPart(idx: nat, size: nat): (a: nat)
    requires idx <= 128
    ensures a <= size && idx + a <= 128 && ((idx + a) % 8 == 0 || a == size)
  {
    if idx % 8 != 0 then Min(Gap(idx, 8), size) else 0
  }

  /** How many bytes the second phase takes: whole words, up to the next block boundary. */
  function BlockPart(idx: nat, size: nat): (w: nat)
    requires idx <= 128 && (idx % 8 == 0 || size == 0)
    ensures w <= size && idx + w <= 128 && w % 8 == 0 && (w > 0 ==> 8 * (idx / 8) == idx)
    ensures idx + w == 0 || idx + w == 128 || (size - w < 8 && idx + size <= 128)
    ensures idx + w == 0 ==> idx == 0
  {
    BlockPartBounds(idx, size);
    if idx % 128 != 0 then Whole(Min(Gap(idx, 128), size)) else 0
  }

  /** The bytes of the whole words in a count of bytes. */
  function Whole(n: nat): (w: nat)
    ensures w <= n < w + 8 && w % 8 == 0
  {
    WholeWords(n);
    8 * (n / 8)
  }

  lemma GapToBlock(idx: nat)
    requires 0 < idx < 128
    ensures Gap(idx, 128) == 128 - idx
  {
    var g := Gap(idx, 128);
    assert 0 < idx + g < 256;
  }

  lemma BlockPartBounds(idx: nat, size: nat)
    requires idx <= 128 && (idx % 8 == 0 || size == 0)
    ensures idx % 128 == 0 <==> idx == 0 || idx == 128
    ensures
      0 < idx < 128 ==>
        var w := Whole(Min(Gap(idx, 128), size));
        && w <= size && idx + w <= 128 && (w > 0 ==> 8 * (idx / 8) == idx)
        && (idx + w == 128 || (size - w < 8 && idx + size <= 128))
  {
    hide Gap;
    if 0 < idx < 128 {
      GapToBlock(idx);
      if size < 128 - idx {
        WholeWords(size);
      } else if idx % 8 == 0 {
        WholeWords(128 - idx);
        assert idx == 8 * (idx / 8) && 128 - idx == 8 * (16 - idx / 8);
      }
    }
  }

  lemma WholeWords(n: nat)
    ensures 8 * (n / 8) <= n < 8 * (n / 8) + 8 && (8 * (n / 8)) % 8 == 0
  {
  }

  lemma NeverEmpty(len: nat)
    ensures len == 128 * Before(len) ==> len == 0 && Before(len) == 0
  {
  }

  lemma Appended(m: bytes, front: bytes, rest: bytes)
    ensures (m + front) + rest == m + (front + rest)
  {
  }

  lemma LastBlockStays(len: nat, n: nat, idx: nat)
    requires len == 128 * n + idx && idx <= 128 && (idx == 0 ==> n == 0)
    ensures n == Before(len)
  {
  }

  /** Adding a byte count to the two offset words, with the carry test of the C code. */
  lemma OffsetCarries(o: nat, y: nat)
    requires y <= 128
    ensures var lo := (Low(o) as int + y) % 0x1_0000_0000_0000_0000;
      Low(o + y) as int == lo
      && High(o + y) as int == if lo < y then (High(o) as int + 1) % 0x1_0000_0000_0000_0000 else High(o) as int
  {
    var q, r := o / 0x1_0000_0000_0000_0000, o % 0x1_0000_0000_0000_0000;
    var k := (r + y) / 0x1_0000_0000_0000_0000;
    assert o + y == 0x1_0000_0000_0000_0000 * (q + k) + (r + y) % 0x1_0000_0000_0000_0000;
    Remainder(o + y, q + k, (r + y) % 0x1_0000_0000_0000_0000, 0x1_0000_0000_0000_0000);
    if r + y < 0x1_0000_0000_0000_0000 {
      assert k == 0;
    } else {
      assert k == 1;
      Remainder(q + 1, q / 0x1_0000_0000_0000_0000 + (q % 0x1_0000_0000_0000_0000 + 1) / 0x1_0000_0000_0000_0000,
                (q % 0x1_0000_0000_0000_0000 + 1) % 0x1_0000_0000_0000_0000, 0x1_0000_0000_0000_0000);
    }
  }
}
