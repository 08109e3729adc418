/** The messages of the handshake as the Noise Protocol Framework (revision 34) describes them: tokens of the pattern IK worked
    off by a handshake state, and the proof that both parties do just that. */
module NoisePattern {
  import opened Machine
  import opened ByteStrings
  import Bits
  import Blake2b
  import Hmac
  import Aead
  import Inversion
  import Poly1305
  import opened Noise

  datatype Token = E | S | EE | ES | SE | SS

  /** Pattern IK, section 7.5, after its pre-message: the initiator knows the responder's static key. */
  const IK1: seq<Token> := [E, ES, S, SS]
  const IK2: seq<Token> := [E, EE, SE]

  /** A handshake state, section 5.3: h, ck, the cipher key if there is one and its counter; own and remote static and
      ephemeral keys; and the role. */
  datatype Handshake = Handshake(h: bytes, ck: bytes, k: Option<bytes>, n: nat, s: bytes, sPub: bytes, rs: bytes,
                                 e: bytes, ePub: bytes, re: bytes, initiator: bool) {
    predicate Ok() { k.Some? ==> |k.value| == 32 }
  }

  // ---- Symmetric state, section 5.2 ----

  /** Both outputs of HKDF, section 4.3. */
  function Hkdf(su: Suite, ck: bytes, input: bytes): (o: (bytes, bytes))
    ensures |o.0| == |o.1| == 64
  {
    var temp := Hmac.Digest(su.compress, ck, input);
    var output1 := Hmac.Digest(su.compress, temp, [1]);
    (output1, Hmac.Digest(su.compress, temp, output1 + [2]))
  }

  /** A 64-byte output is cut to the 32 bytes of a cipher key, and the counter starts over. */
  function KeyMixed(su: Suite, hs: Handshake, input: bytes): (r: Handshake)
    ensures r.Ok()
  {
    var o := Hkdf(su, hs.ck, input);
    hs.(ck := o.0, k := Some(o.1[..32]), n := 0)
  }

  function HashMixed(su: Suite, hs: Handshake, data: bytes): Handshake {
    hs.(h := Blake2b.Hash(su.compress, 64, hs.h + data))
  }

  function Counter64(n: nat): u64 { (n % 0x1_0000_0000_0000_0000) as u64 }

  function EncryptedAndHashed(su: Suite, hs: Handshake, plain: bytes): (r: (Handshake, bytes))
    requires hs.Ok()
    ensures r.0.Ok()
  {
    if hs.k.None? then (HashMixed(su, hs, plain), plain)
    else
      var c := EncryptWith(su, hs.k.value, Counter64(hs.n), hs.h, plain);
      (HashMixed(su, hs.(n := hs.n + 1), c), c)
  }

  function DecryptedAndHashed(su: Suite, hs: Handshake, cipher: bytes): (r: Option<(Handshake, bytes)>)
    requires hs.Ok()
    ensures r.Some? ==> r.value.0.Ok()
  {
    if hs.k.None? then Some((HashMixed(su, hs, cipher), cipher))
    else
      match DecryptWith(su, hs.k.value, Counter64(hs.n), hs.h, cipher)
      case None => None
      case Some(p) => Some((HashMixed(su, hs.(n := hs.n + 1), cipher), p))
  }

  // ---- Messages, section 5.3 ----

  /** The Diffie-Hellman of a token: its first letter names the initiator's key, its second the responder's. */
  function Shared(su: Suite, hs: Handshake, t: Token): bytes {
    match t
    case EE => su.dh(hs.e, hs.re)
    case SS => su.dh(hs.s, hs.rs)
    case ES => if hs.initiator then su.dh(hs.e, hs.rs) else su.dh(hs.s, hs.re)
    case SE => if hs.initiator then su.dh(hs.s, hs.re) else su.dh(hs.e, hs.rs)
    case _ => []
  }

  function WriteToken(su: Suite, hs: Handshake, t: Token): (r: (Handshake, bytes))
    requires hs.Ok()
    ensures r.0.Ok()
  {
    match t
    case E => (HashMixed(su, hs, hs.ePub), hs.ePub)
    case S => EncryptedAndHashed(su, hs, hs.sPub)
    case _ => (KeyMixed(su, hs, Shared(su, hs, t)), [])
  }

  function WriteTokens(su: Suite, hs: Handshake, ts: seq<Token>): (r: (Handshake, bytes))
    requires hs.Ok()
    ensures r.0.Ok()
    decreases |ts|
  {
    if ts == [] then (hs, [])
    else
      var (next, out) := WriteToken(su, hs, ts[0]);
      var (last, more) := WriteTokens(su, next, ts[1..]);
      (last, out + more)
  }

  /** The tokens and then the payload, with the ephemeral key pair already drawn. */
  function WriteMessage(su: Suite, hs: Handshake, ts: seq<Token>, payload: bytes): (Handshake, bytes)
    requires hs.Ok()
  {
    var (next, out) := WriteTokens(su, hs, ts);
    var (last, more) := EncryptedAndHashed(su, next, payload);
    (last, out + more)
  }

  /** The state after the tokens, and what is left of the message. */
  function ReadTokens(su: Suite, hs: Handshake, ts: seq<Token>, msg: bytes): (r: Option<(Handshake, bytes)>)
    requires hs.Ok()
    ensures r.Some? ==> r.value.0.Ok()
    decreases |ts|
  {
    if ts == [] then Some((hs, msg))
    else
      match ts[0]
      case E =>
        if |msg| < 32 then None else ReadTokens(su, HashMixed(su, hs.(re := msg[..32]), msg[..32]), ts[1..], msg[32..])
      case S =>
        var len := if hs.k.Some? then 48 else 32;
        if |msg| < len then None
        else
          (match DecryptedAndHashed(su, hs, msg[..len])
           case None => None
           case Some((next, key)) => ReadTokens(su, next.(rs := key), ts[1..], msg[len..]))
      case t => ReadTokens(su, KeyMixed(su, hs, Shared(su, hs, t)), ts[1..], msg)
  }

  function ReadMessage(su: Suite, hs: Handshake, ts: seq<Token>, msg: bytes): Option<(Handshake, bytes)>
    requires hs.Ok()
  {
    match ReadTokens(su, hs, ts, msg)
    case None => None
    case Some((next, rest)) => DecryptedAndHashed(su, next, rest)
  }

  // ---- The two parties ----

  /** A party's state seen as a handshake state with any cipher key. */
  function View(st: State, k: Option<bytes>, n: nat): Handshake {
    Handshake(st.h, st.ck, k, n, st.sPriv, st.sPub, st.rsPub, st.ePriv, st.ePub, st.rePub, !st.isServer)
  }

  /** The parts of a state that the handshake works on are those of a handshake state. */
  predicate Stands(st: State, hs: Handshake) { View(st, hs.k, hs.n) == hs }

  lemma WriteFirst(su: Suite, hs: Handshake, t: Token, ts: seq<Token>)
    requires hs.Ok()
    ensures
      var (next, out) := WriteToken(su, hs, t);
      var (last, more) := WriteTokens(su, next, ts);
      WriteTokens(su, hs, [t] + ts) == (last, out + more)
  {
    hide WriteToken;
    assert ([t] + ts)[1..] == ts;
  }

  /** The ephemeral private key: the random bytes as a clamped scalar. */
  lemma EphemeralNumber(random: bytes)
    requires |random| == 32
    ensures LeNat(Ephemeral(random)) == Bits.Pow2(254) + LeNat(random) % Bits.Pow2(254) / 8 * 8
  {
    hide LeNat, Bits.Pow2, Inversion.Trim;
    Inversion.TrimmedNumber(random);
  }

  /** The first message, written by the client: IK1 with an empty payload. */
  lemma FirstWritten(su: Suite, st: State, random: bytes)
    requires st.Ok() && |random| == 32 && !st.isServer
    ensures
      var w, e := WriteMsg1(su, st, random), Ephemeral(random);
      var (hs, msg) := WriteMessage(su, View(st.(ePriv := e, ePub := su.base(e)), None, 0), IK1, []);
      msg == w.msg && Stands(w.next, hs)
  {
    hide Hmac.Digest, Blake2b.Hash, EncryptWith, Ephemeral;
    var e := Ephemeral(random);
    var hs0 := View(st.(ePriv := e, ePub := su.base(e)), None, 0);
    var hs1 := HashMixed(su, hs0, hs0.ePub);
    var hs2 := KeyMixed(su, hs1, su.dh(e, st.rsPub));
    var (hs3, encS) := EncryptedAndHashed(su, hs2, st.sPub);
    var hs4 := KeyMixed(su, hs3, su.dh(st.sPriv, st.rsPub));
    NoTokens(su, hs4);
    WriteFirst(su, hs3, SS, []);
    WriteFirst(su, hs2, S, [SS]);
    WriteFirst(su, hs1, ES, [S, SS]);
    WriteFirst(su, hs0, E, [ES, S, SS]);
    assert [SS] + [] == [SS] && [S] + [SS] == [S, SS] && [ES] + [S, SS] == [ES, S, SS] && [E] + [ES, S, SS] == IK1;
    Units(encS);
  }

  lemma Units(x: bytes)
    ensures [] + x == x && x + [] == x
  {
  }

  lemma NoTokens(su: Suite, hs: Handshake)
    requires hs.Ok()
    ensures WriteTokens(su, hs, []) == (hs, [])
    ensures forall msg :: ReadTokens(su, hs, [], msg) == Some((hs, msg))
  {
  }

  /** The second message, written by the server: IK2 with an empty payload, whatever the cipher key before it. */
  lemma SecondWritten(su: Suite, st: State, random: bytes, k: Option<bytes>, n: nat)
    requires st.Ok() && |random| == 32 && st.isServer && (k.Some? ==> |k.value| == 32)
    ensures
      var w, e := WriteMsg2(su, st, random), Ephemeral(random);
      var (hs, msg) := WriteMessage(su, View(st.(ePriv := e, ePub := su.base(e)), k, n), IK2, []);
      msg == w.msg && Stands(w.next, hs)
  {
    hide Hmac.Digest, Blake2b.Hash, EncryptWith, Ephemeral, Split;
    var e := Ephemeral(random);
    var hs0 := View(st.(ePriv := e, ePub := su.base(e)), k, n);
    var hs1 := HashMixed(su, hs0, hs0.ePub);
    var hs2 := KeyMixed(su, hs1, su.dh(e, st.rePub));
    var hs3 := KeyMixed(su, hs2, su.dh(e, st.rsPub));
    NoTokens(su, hs3);
    WriteFirst(su, hs2, SE, []);
    WriteFirst(su, hs1, EE, [SE]);
    WriteFirst(su, hs0, E, [EE, SE]);
    assert [SE] + [] == [SE] && [EE] + [SE] == [EE, SE] && [E] + [EE, SE] == IK2;
    Units([]);
    Units(hs0.ePub);
  }

  /** The first message, read by the server: it is accepted exactly when IK1 reads it with an empty payload. */
  lemma FirstRead(su: Suite, st: State, msg: bytes)
    requires st.Ok() && |msg| == 96 && st.isServer
    ensures
      var r, read := ReadMsg1(su, st, msg), ReadMessage(su, View(st, None, 0), IK1, msg);
      && (r.status == OK <==> read.Some?)
      && (read.Some? ==> Stands(r.next, read.value.0) && read.value.1 == [])
  {
    hide Hmac.Digest, Blake2b.Hash, DecryptWith;
    var hs0, re, encS, encP := View(st, None, 0), msg[..32], msg[32..80], msg[80..];
    var ts := IK1;
    assert ts[1..] == [ES, S, SS] && ts[1..][1..] == [S, SS] && [S, SS][1..] == [SS] && [SS][1..] == [];
    var hs1 := HashMixed(su, hs0.(re := re), re);
    var hs2 := KeyMixed(su, hs1, su.dh(st.sPriv, re));
    assert msg[32..][..48] == encS && msg[32..][48..] == encP;
    var d := DecryptedAndHashed(su, hs2, encS);
    assert ReadTokens(su, hs0, ts, msg) == ReadTokens(su, hs1, [ES, S, SS], msg[32..]);
    assert ReadTokens(su, hs1, [ES, S, SS], msg[32..]) == ReadTokens(su, hs2, [S, SS], msg[32..]);
    if d.None? {
      assert ReadTokens(su, hs2, [S, SS], msg[32..]) == None;
    } else {
      var hs3 := d.value.0.(rs := d.value.1);
      var hs4 := KeyMixed(su, hs3, su.dh(st.sPriv, d.value.1));
      NoTokens(su, hs4);
      assert ReadTokens(su, hs2, [S, SS], msg[32..]) == ReadTokens(su, hs3, [SS], encP);
      assert ReadTokens(su, hs3, [SS], encP) == ReadTokens(su, hs4, [], encP);
      PlainLength(su, hs4.k.value, hs4.h, encP);
    }
  }

  lemma PlainLength(su: Suite, k: bytes, ad: bytes, cipher: bytes)
    requires |k| == 32 && |cipher| == 16
    ensures var p := DecryptWith(su, k, 0, ad, cipher); p.Some? ==> p.value == []
  {
    hide Aead.Open;
  }

  /** The second message, read by the client. */
  lemma SecondRead(su: Suite, st: State, msg: bytes, k: Option<bytes>, n: nat)
    requires st.Ok() && |msg| == 48 && !st.isServer && (k.Some? ==> |k.value| == 32)
    ensures
      var r, read := ReadMsg2(su, st, msg), ReadMessage(su, View(st, k, n), IK2, msg);
      && (r.status == OK <==> read.Some?)
      && (read.Some? ==> Stands(r.next, read.value.0) && read.value.1 == [])
  {
    hide Hmac.Digest, Blake2b.Hash, DecryptWith, Split;
    var hs0, re, encP := View(st, k, n), msg[..32], msg[32..];
    var ts := IK2;
    assert ts[1..] == [EE, SE] && [EE, SE][1..] == [SE] && [SE][1..] == [];
    var hs1 := HashMixed(su, hs0.(re := re), re);
    var hs2 := KeyMixed(su, hs1, su.dh(st.ePriv, re));
    var hs3 := KeyMixed(su, hs2, su.dh(st.sPriv, re));
    NoTokens(su, hs3);
    assert ReadTokens(su, hs0, ts, msg) == ReadTokens(su, hs1, [EE, SE], encP);
    assert ReadTokens(su, hs1, [EE, SE], encP) == ReadTokens(su, hs2, [SE], encP);
    assert ReadTokens(su, hs2, [SE], encP) == ReadTokens(su, hs3, [], encP);
    PlainLength(su, hs3.k.value, hs3.h, encP);
  }

  /** What a failed read leaves: the keys mixed so far, and the ciphertext that did not open in the hash all the same. */
  lemma FirstReadFails(su: Suite, st: State, msg: bytes)
    requires st.Ok() && |msg| == 96 && st.isServer && ReadMsg1(su, st, msg).status != OK
    ensures
      var re, encS, encP, next := msg[..32], msg[32..80], msg[80..], ReadMsg1(su, st, msg).next;
      var hs := KeyMixed(su, HashMixed(su, View(st.(rePub := re), None, 0), re), su.dh(st.sPriv, re));
      match DecryptedAndHashed(su, hs, encS)
      case None => Stands(next, HashMixed(su, hs, encS))
      case Some((hs', key)) => Stands(next, HashMixed(su, KeyMixed(su, hs'.(rs := key), su.dh(st.sPriv, key)), encP))
  {
    hide Hmac.Digest, Blake2b.Hash, DecryptWith;
  }

  lemma SecondReadFails(su: Suite, st: State, msg: bytes)
    requires st.Ok() && |msg| == 48 && !st.isServer && ReadMsg2(su, st, msg).status != OK
    ensures
      var re, encP, next := msg[..32], msg[32..], ReadMsg2(su, st, msg).next;
      var hs := KeyMixed(su, HashMixed(su, View(st.(rePub := re), None, 0), re), su.dh(st.ePriv, re));
      Stands(next, HashMixed(su, KeyMixed(su, hs, su.dh(st.sPriv, re)), encP))
      && next.sendKey == st.sendKey && next.recvKey == st.recvKey && next.handshakeDone == st.handshakeDone
  {
    hide Hmac.Digest, Blake2b.Hash, DecryptWith, Split;
  }

  /** Initialisation, section 5.3: the protocol name filled with zeroes to a hash, the empty prologue, and the responder's static
      key as pre-message. */
  lemma Initialised(su: Suite, sPriv: bytes, sPub: bytes, rsPub: bytes, isServer: bool)
    requires |sPriv| == |sPub| == |rsPub| == 32
    ensures
      var st := Initial(su, sPriv, sPub, rsPub, isServer);
      && |st.ck| == 64 && st.isServer == isServer && !st.handshakeDone && st.sPriv == sPriv && st.sPub == sPub && st.rsPub == rsPub
      && (forall i | 0 <= i < 64 :: st.ck[i] as int == if i < 33 then "Noise_IK_25519_ChaChaPoly_BLAKE2b"[i] as int else 0)
      && var prologue := Blake2b.Hash(su.compress, 64, st.ck + []);
         st.h == Blake2b.Hash(su.compress, 64, prologue + (if isServer then sPub else rsPub))
  {
    hide Blake2b.Hash;
    var st := Initial(su, sPriv, sPub, rsPub, isServer);
    assert st.ck == PROTOCOL + Zeros(64 - |PROTOCOL|);
    forall i | 0 <= i < 64 ensures st.ck[i] as int == if i < 33 then "Noise_IK_25519_ChaChaPoly_BLAKE2b"[i] as int else 0 {
      if i < 33 { ProtocolName(i); }
    }
  }

  lemma ProtocolName(i: nat)
    requires i < 33
    ensures |PROTOCOL| == 33 && PROTOCOL[i] as int == "Noise_IK_25519_ChaChaPoly_BLAKE2b"[i] as int
  {
  }

  /** Split, section 5.2: the initiator sends with the first key and receives with the second. */
  lemma SplitKeys(su: Suite, st: State)
    requires st.Ok()
    ensures
      var (first, second) := Hkdf(su, st.ck, []);
      var done := Finished(su, st);
      && (if st.isServer then done.recvKey else done.sendKey) == first[..32]
      && (if st.isServer then done.sendKey else done.recvKey) == second[..32]
      && done.sendNonce == done.recvNonce == 0 && done.handshakeDone
      && done == st.(sendKey := done.sendKey, recvKey := done.recvKey, sendNonce := 0, recvNonce := 0, handshakeDone := true)
  {
    hide Hmac.Digest;
  }

  // ---- Sealed packets ----

  /** What a packet holds: the text under the key stream of RFC 8439 from block 1 on, then the tag, for the nonce of section
      12.3: four zero bytes and the counter, low byte first. */
  lemma PacketBytes(su: Suite, key: bytes, n: u64, nonce: bytes, ad: bytes, plain: bytes)
    requires |key| == 32 && |plain| <= 64 * 0xffff_ffff
    requires |nonce| == 12 && (forall i | 0 <= i < 4 :: nonce[i] == 0) && LeNat(nonce[4..]) == n as int
    ensures
      var c := EncryptWith(su, key, n, ad, plain);
      && (forall p | 0 <= p < |plain| :: c[p] == Bits.XorU8(Aead.RfcByte(su.rounds, key, nonce, (p / 64 + 1) as u32, p % 64), plain[p]))
      && c[|plain|..] == Poly1305.Mac(Aead.RfcHalf(su.rounds, key, nonce, 0), Aead.AuthInput(ad, c[..|plain|]))
  {
    hide Aead.Seal, Aead.RfcByte, Aead.RfcHalf, Aead.AuthInput, Poly1305.Mac, Bits.XorU8, Aead.IetfState, LeNat, LeBytes;
    LeBytesOfNat(nonce[4..]);
    assert nonce == [0, 0, 0, 0] + nonce[4..];
    assert Nonce(n) == nonce;
    Aead.SealIsRfc(su.rounds, key, nonce, ad, plain);
    var r := Aead.Seal(su.rounds, Aead.IetfState(key, nonce), ad, plain);
    assert EncryptWith(su, key, n, ad, plain)[..|plain|] == r.cipher;
  }
}
