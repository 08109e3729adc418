/** The authenticated stream: ChaCha20 with Poly1305, rekeyed after every message. */
module Aead {
  import opened Machine
  import opened ByteStrings
  import opened Arithmetic
  import opened Bits
  import opened ChaCha20
  import opened Verify
  import Poly1305

  /** Zeroes up to the next multiple of 16 bytes. */
  function Pad16(n: nat): (z: bytes)
    ensures (n + |z|) % 16 == 0 && |z| < 16
  {
    Zeros(if n % 16 == 0 then 0 else 16 - n % 16)
  }

  /** The padded string that section 2.8 of RFC 8439 authenticates. */
  function AuthInput(ad: bytes, cipher: bytes): bytes {
    ad + Pad16(|ad|) + cipher + Pad16(|cipher|) + (LeBytes(|ad|, 8) + LeBytes(|cipher|, 8))
  }

  datatype AeadState = AeadState(counter: u64, key: bytes, nonce: bytes) {
    predicate Ok() { |key| == 32 && |nonce| == 8 }
  }

  datatype Sealed = Sealed(cipher: bytes, mac: bytes, next: AeadState)
  datatype Opened = Rejected | Accepted(plain: bytes, next: AeadState)

  function AuthKey(rounds: Rounds, st: AeadState): (k: bytes)
    requires st.Ok()
    ensures |k| == 64
  {
    Stream(rounds, st.key, st.nonce, st.counter, Zeros(64))
  }

  function MacOf(rounds: Rounds, st: AeadState, ad: bytes, cipher: bytes): (m: bytes)
    requires st.Ok()
    ensures |m| == 16
  {
    Poly1305.Mac(AuthKey(rounds, st)[..32], AuthInput(ad, cipher))
  }

  /** The text under the blocks after the one that yields the authentication key. */
  function Crypt(rounds: Rounds, st: AeadState, text: bytes): (r: bytes)
    requires st.Ok()
    ensures |r| == |text|
  {
    Stream(rounds, st.key, st.nonce, Advance(st.counter, 1), text)
  }

  /** The last 32 bytes of the first block replace the key. */
  function Rekey(rounds: Rounds, st: AeadState): (next: AeadState)
    requires st.Ok()
    ensures next.Ok()
  {
    st.(key := AuthKey(rounds, st)[32..])
  }

  function Seal(rounds: Rounds, st: AeadState, ad: bytes, plain: bytes): (r: Sealed)
    requires st.Ok()
    ensures r.next.Ok() && |r.cipher| == |plain| && |r.mac| == 16
  {
    var cipher := Crypt(rounds, st, plain);
    Sealed(cipher, MacOf(rounds, st, ad, cipher), Rekey(rounds, st))
  }

  function Open(rounds: Rounds, st: AeadState, ad: bytes, cipher: bytes, mac: bytes): (r: Opened)
    requires st.Ok()
    ensures r.Accepted? ==> r.next.Ok() && |r.plain| == |cipher|
  {
    if mac == MacOf(rounds, st, ad, cipher) then Accepted(Crypt(rounds, st, cipher), Rekey(rounds, st)) else Rejected
  }

  /** Opening is the inverse of sealing: a reader in the writer's state accepts exactly what the writer
      would have produced, gets the plain text back and ends in the writer's state. */
  lemma OpenInvertsSeal(rounds: Rounds, st: AeadState, ad: bytes, cipher: bytes, mac: bytes, plain: bytes)
    requires st.Ok()
    ensures Seal(rounds, st, ad, plain) == Sealed(cipher, mac, Rekey(rounds, st))
        <==> Open(rounds, st, ad, cipher, mac) == Accepted(plain, Rekey(rounds, st))
  {
    hide Stream, AuthInput, Poly1305.Mac, MacOf, AuthKey, Rekey;
    StreamTwice(rounds, st.key, st.nonce, Advance(st.counter, 1), plain);
    StreamTwice(rounds, st.key, st.nonce, Advance(st.counter, 1), cipher);
  }

  /** lock_auth: five updates give the one-shot authenticator of the padded string. */
  method LockAuth(mac: array<u8>, authKey: bytes, ad: bytes, cipher: bytes)
    requires mac.Length == 16 && |authKey| == 32
    modifies mac
    ensures mac[..] == Poly1305.Mac(authKey, AuthInput(ad, cipher))
  {
    hide Poly1305.Tag, Poly1305.ClampBytes, Poly1305.KeyWords, Poly1305.PadWords, Poly1305.Context.Valid, Poly1305.Key.Value,
         LeNat, LeBytes, Gap, Pad16;
    var ctx := new Poly1305.Context();
    ctx.Init(authKey);
    ctx.Update(ad);
    PadIsGap(|ad|);
    ctx.Update(Pad16(|ad|));
    ctx.Update(cipher);
    PadIsGap(|cipher|);
    ctx.Update(Pad16(|cipher|));
    ctx.Update(LeBytes(|ad|, 8) + LeBytes(|cipher|, 8));
    assert ctx.msg == AuthInput(ad, cipher);
    Poly1305.KeyIsClamped(authKey);
    Poly1305.PadIsNat(authKey);
    ctx.Final(mac);
  }

  /** gap(n, 16) bytes of the zero table. */
  lemma PadIsGap(n: nat)
    ensures n < 0x1_0000_0000_0000_0000 ==> Pad16(n) == Zeros(Gap(n, 16))
  {
    if n < 0x1_0000_0000_0000_0000 {
      var g := Gap(n, 16);
      assert (n + g) % 16 == 0 && g < 16;
    }
  }

  class Context {
    const rounds: Rounds
    var counter: u64
    var key: bytes
    var nonce: bytes

    function Current(): AeadState
      reads this
    {
      AeadState(counter, key, nonce)
    }

    /** crypto_aead_init_ietf: the first four nonce bytes become the high half of the counter. */
    constructor (rounds: Rounds, key: bytes, nonce: bytes)
      requires |key| == 32 && |nonce| == 12
      ensures this.rounds == rounds && Current() == IetfState(key, nonce)
    {
      this.rounds := rounds;
      this.key := key;
      this.nonce := nonce[4..];
      counter := Load32(nonce, 0) as u64 * 0x1_0000_0000;
    }

    /** crypto_aead_write. */
    method Write(cipher: array<u8>, mac: array<u8>, ad: bytes, plain: bytes)
      requires Current().Ok() && cipher.Length == |plain| && mac.Length == 16 && cipher != mac
      modifies this`key, cipher, mac
      ensures Sealed(cipher[..], mac[..], Current()) == Seal(rounds, old(Current()), ad, plain)
    {
      hide Stream, AuthInput, Poly1305.Mac, Advance, TextOf;
      var authKey := new u8[64];
      var _ := Djb(rounds, authKey, None, key, nonce, counter);
      NullText(64);
      var _ := Djb(rounds, cipher, Some(plain), key, nonce, Advance(counter, 1));
      SomeText(plain);
      LockAuth(mac, authKey[..32], ad, cipher[..]);
      assert authKey[..][..32] == authKey[..32] && authKey[..][32..] == authKey[32..];
      key := authKey[32..];
    }

    /** crypto_aead_read: 0 and the plain text, or -1 and nothing changed. */
    method Read(plain: array<u8>, mac: bytes, ad: bytes, cipher: bytes) returns (mismatch: int)
      requires Current().Ok() && plain.Length == |cipher| && |mac| == 16
      modifies this`key, plain
      ensures mismatch == 0 || mismatch == -1
      ensures mismatch == 0 ==> Open(rounds, old(Current()), ad, cipher, mac) == Accepted(plain[..], Current())
      ensures mismatch == -1 ==> Open(rounds, old(Current()), ad, cipher, mac) == Rejected
                                 && Current() == old(Current()) && plain[..] == old(plain[..])
    {
      hide Stream, AuthInput, Poly1305.Mac, Advance, TextOf;
      var authKey, realMac := new u8[64], new u8[16];
      var _ := Djb(rounds, authKey, None, key, nonce, counter);
      NullText(64);
      LockAuth(realMac, authKey[..32], ad, cipher);
      assert authKey[..][..32] == authKey[..32] && authKey[..][32..] == authKey[32..];
      mismatch := Verify16(mac, realMac[..]);
      if mismatch == 0 {
        var _ := Djb(rounds, plain, Some(cipher), key, nonce, Advance(counter, 1));
        SomeText(cipher);
        key := authKey[32..];
      }
    }
  }

  lemma NullText(n: nat)
    ensures TextOf(None, n) == Zeros(n)
  {
  }

  lemma SomeText(t: bytes)
    ensures TextOf(Some(t), |t|) == t
  {
  }

  function IetfState(key: bytes, nonce: bytes): (st: AeadState)
    requires |key| == 32 && |nonce| == 12
    ensures st.Ok() && st.key == key
  {
    AeadState(Load32(nonce, 0) as u64 * 0x1_0000_0000, key, nonce[4..])
  }

  /** Section 2.3 of RFC 8439: constants, key, 32-bit block counter, 96-bit nonce. */
  function RfcInput(key: bytes, block: u32, nonce: bytes): Words
    requires |key| == 32 && |nonce| == 12
  {
    [0x61707865, 0x3320646e, 0x79622d32, 0x6b206574,
     Load32(key, 0), Load32(key, 4), Load32(key, 8), Load32(key, 12),
     Load32(key, 16), Load32(key, 20), Load32(key, 24), Load32(key, 28),
     block, Load32(nonce, 0), Load32(nonce, 4), Load32(nonce, 8)]
  }

  /** The 64-bit counter carries the RFC's nonce word unchanged as long as the block number fits 32 bits;
      at block 2^32 it no longer does. */
  lemma IetfBlocks(key: bytes, nonce: bytes, i: nat)
    requires |key| == 32 && |nonce| == 12
    ensures i < 0x1_0000_0000 ==>
              Input(key, IetfState(key, nonce).nonce, Advance(IetfState(key, nonce).counter, i)) == RfcInput(key, i as u32, nonce)
    ensures i == 0x1_0000_0000 ==>
              Input(key, IetfState(key, nonce).nonce, Advance(IetfState(key, nonce).counter, i)) != RfcInput(key, 0, nonce)
  {
    hide LeNat, Load32;
    NonceHalves(key, nonce);
    CounterHalves(Load32(nonce, 0) as int, i);
  }

  lemma NonceHalves(key: bytes, nonce: bytes)
    requires |key| == 32 && |nonce| == 12
    ensures var n := IetfState(key, nonce).nonce; Load32(n, 0) == Load32(nonce, 4) && Load32(n, 4) == Load32(nonce, 8)
  {
    hide LeNat;
  }

  lemma CounterHalves(hi: int, i: nat)
    requires 0 <= hi < 0x1_0000_0000
    ensures var c := (hi * 0x1_0000_0000 + i) % 0x1_0000_0000_0000_0000;
      (i < 0x1_0000_0000 ==> c % 0x1_0000_0000 == i && c / 0x1_0000_0000 == hi)
      && (i == 0x1_0000_0000 ==> c / 0x1_0000_0000 != hi)
  {
  }

  // ---- The construction of section 2.8 of RFC 8439 ----

  /** Byte j of the key stream block with a given number. */
  function RfcByte(rounds: Rounds, key: bytes, nonce: bytes, block: u32, j: nat): u8
    requires |key| == 32 && |nonce| == 12 && j < 64
  {
    BlockByte(rounds, RfcInput(key, block, nonce), j)
  }

  /** Half of block 0: the one-time key of the authenticator, or the next key. */
  function RfcHalf(rounds: Rounds, key: bytes, nonce: bytes, half: nat): (k: bytes)
    requires |key| == 32 && |nonce| == 12 && half < 2
    ensures |k| == 32
  {
    seq(32, j requires 0 <= j < 32 => RfcByte(rounds, key, nonce, 0, 32 * half + j))
  }

  /** For every message shorter than 2^32 - 1 blocks: the text lies under the blocks from number 1 on, the authenticator is
      keyed with the first half of block 0, and the second half becomes the next key. */
  lemma SealIsRfc(rounds: Rounds, key: bytes, nonce: bytes, ad: bytes, plain: bytes)
    requires |key| == 32 && |nonce| == 12 && |plain| <= 64 * 0xffff_ffff
    ensures
      var r := Seal(rounds, IetfState(key, nonce), ad, plain);
      && (forall p | 0 <= p < |plain| :: r.cipher[p] == XorU8(RfcByte(rounds, key, nonce, (p / 64 + 1) as u32, p % 64), plain[p]))
      && r.mac == Poly1305.Mac(RfcHalf(rounds, key, nonce, 0), AuthInput(ad, r.cipher))
      && r.next.key == RfcHalf(rounds, key, nonce, 1)
  {
    hide Stream, AuthInput, Poly1305.Mac, XorU8, RfcByte, Advance, IetfState, RfcHalf;
    var st := IetfState(key, nonce);
    forall p | 0 <= p < |plain|
      ensures Crypt(rounds, st, plain)[p] == XorU8(RfcByte(rounds, key, nonce, (p / 64 + 1) as u32, p % 64), plain[p])
    {
      CryptAt(rounds, key, nonce, plain, p);
    }
    AuthKeyHalves(rounds, key, nonce);
  }

  lemma CryptAt(rounds: Rounds, key: bytes, nonce: bytes, text: bytes, p: nat)
    requires |key| == 32 && |nonce| == 12 && p < |text| <= 64 * 0xffff_ffff
    ensures Crypt(rounds, IetfState(key, nonce), text)[p] == XorU8(RfcByte(rounds, key, nonce, (p / 64 + 1) as u32, p % 64), text[p])
  {
    hide Stream, XorU8, Advance, BlockWords, WordBytes, BlockByte, Input, RfcInput, IetfState;
    var st := IetfState(key, nonce);
    StreamAt(rounds, key, st.nonce, Advance(st.counter, 1), text, p);
    AdvanceTwice(st.counter, p / 64);
    BlockAt(rounds, key, nonce, p / 64 + 1, p % 64);
  }

  lemma BlockAt(rounds: Rounds, key: bytes, nonce: bytes, i: nat, j: nat)
    requires |key| == 32 && |nonce| == 12 && i < 0x1_0000_0000 && j < 64
    ensures
      var st := IetfState(key, nonce);
      KeyBlock(rounds, key, st.nonce, Advance(st.counter, i))[j] == RfcByte(rounds, key, nonce, i as u32, j)
  {
    hide BlockWords, WordBytes, BlockByte, Input, RfcInput, Advance, IetfState;
    IetfBlocks(key, nonce, i);
    BlockBytes(rounds, RfcInput(key, i as u32, nonce), j);
  }

  lemma AuthKeyHalves(rounds: Rounds, key: bytes, nonce: bytes)
    requires |key| == 32 && |nonce| == 12
    ensures
      var k := AuthKey(rounds, IetfState(key, nonce));
      k[..32] == RfcHalf(rounds, key, nonce, 0) && k[32..] == RfcHalf(rounds, key, nonce, 1)
  {
    hide Stream, Advance, RfcByte, IetfState, KeyBlock;
    var st := IetfState(key, nonce);
    var k := AuthKey(rounds, st);
    forall j | 0 <= j < 64 ensures k[j] == RfcByte(rounds, key, nonce, 0, j) {
      StreamAt(rounds, key, st.nonce, st.counter, Zeros(64), j);
      UnderZero(KeyBlock(rounds, key, st.nonce, Advance(st.counter, 0))[j]);
      BlockAt(rounds, key, nonce, 0, j);
    }
  }

  lemma UnderZero(b: u8)
    ensures XorU8(b, 0) == b
  {
  }

  /** The authenticated string: both texts from a multiple of 16 on with zeroes behind, then the two lengths as eight
      little-endian bytes each, that of the additional data first. */
  lemma AuthLayout(ad: bytes, cipher: bytes)
    requires |ad| < Pow256(8) && |cipher| < Pow256(8)
    ensures
      var m, a, b := AuthInput(ad, cipher), (|ad| + 15) / 16 * 16, (|cipher| + 15) / 16 * 16;
      && |m| == a + b + 16
      && m[..|ad|] == ad && (forall i | |ad| <= i < a :: m[i] == 0)
      && m[a..a + |cipher|] == cipher && (forall i | a + |cipher| <= i < a + b :: m[i] == 0)
      && LeNat(m[a + b..a + b + 8]) == |ad| && LeNat(m[a + b + 8..]) == |cipher|
  {
    hide LeNat, LeBytes, Pow256;
    var m, a, b := AuthInput(ad, cipher), (|ad| + 15) / 16 * 16, (|cipher| + 15) / 16 * 16;
    PadReaches(|ad|);
    PadReaches(|cipher|);
    LeNatOfBytes(|ad|, 8);
    LeNatOfBytes(|cipher|, 8);
    AuthPieces(ad, Pad16(|ad|), cipher, Pad16(|cipher|), LeBytes(|ad|, 8), LeBytes(|cipher|, 8));
  }

  lemma PadReaches(n: nat)
    ensures n + |Pad16(n)| == (n + 15) / 16 * 16
  {
  }

  lemma AuthPieces(a: bytes, p: bytes, c: bytes, q: bytes, x: bytes, y: bytes)
    requires |x| == |y| == 8
    ensures
      var m, i := a + p + c + q + (x + y), |a| + |p|;
      var j := i + |c| + |q|;
      && m[..|a|] == a && m[|a|..i] == p && m[i..i + |c|] == c && m[i + |c|..j] == q && m[j..j + 8] == x && m[j + 8..] == y
  {
  }
}
