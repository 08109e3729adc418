/** The Noise IK handshake and transport, as the server and the client run them. */
module Noise {
  import opened Machine
  import opened ByteStrings
  import opened Blake2b
  import opened Hmac
  import opened ChaCha20
  import opened Aead
  import Inversion

  /** The primitives: BLAKE2b compression, ChaCha20 rounds, the X25519 function and its base-point case. */
  datatype Suite = Suite(compress: Compression, rounds: Rounds, dh: (bytes, bytes) -> bytes, base: bytes -> bytes)

  /** Diffie-Hellman yields 32 bytes, and both sides of a pair of key pairs get the same ones. */
  ghost predicate DhCommutes(s: Suite) {
    (forall a, p | |a| == 32 && |p| == 32 :: |s.dh(a, p)| == 32)
    && (forall a | |a| == 32 :: |s.base(a)| == 32)
    && (forall a, b | |a| == 32 && |b| == 32 :: s.dh(a, s.base(b)) == s.dh(b, s.base(a)))
  }

  datatype State = State(sPriv: bytes, sPub: bytes, rsPub: bytes, ePriv: bytes, ePub: bytes, rePub: bytes,
                         h: bytes, ck: bytes, sendKey: bytes, recvKey: bytes, sendNonce: u64, recvNonce: u64,
                         isServer: bool, handshakeDone: bool) {
    predicate Ok() {
      |sPriv| == |sPub| == |rsPub| == |ePriv| == |ePub| == |rePub| == |sendKey| == |recvKey| == 32 && |h| == |ck| == 64
    }
  }

  datatype Status = OK | ErrAuth | ErrState

  // ---- Symmetric state, section 5.2 of the Noise Protocol Framework ----

  function MixHash(s: Suite, h: bytes, data: bytes): (r: bytes)
    ensures |r| == 64
  {
    Hash(s.compress, 64, h + data)
  }

  datatype Keys = Keys(ck: bytes, k: bytes)

  /** HKDF with two outputs; the second is cut to key size. */
  function MixKey(s: Suite, ck: bytes, input: bytes): (r: Keys)
    ensures |r.ck| == 64 && |r.k| == 32
  {
    var temp := Digest(s.compress, ck, input);
    var first := Digest(s.compress, temp, [1]);
    Keys(first, Digest(s.compress, temp, first + [2])[..32])
  }

  /** Four zero bytes and the little-endian counter. */
  function Nonce(n: u64): (r: bytes)
    ensures |r| == 12
  {
    [0, 0, 0, 0] + LeBytes(n as int, 8)
  }

  function EncryptWith(s: Suite, k: bytes, n: u64, ad: bytes, plain: bytes): (c: bytes)
    requires |k| == 32
    ensures |c| == |plain| + 16
  {
    var r := Seal(s.rounds, IetfState(k, Nonce(n)), ad, plain);
    r.cipher + r.mac
  }

  function DecryptWith(s: Suite, k: bytes, n: u64, ad: bytes, cipher: bytes): (p: Option<bytes>)
    requires |k| == 32
    ensures p.Some? ==> |cipher| == |p.value| + 16
  {
    if |cipher| < 16 then None
    else
      match Open(s.rounds, IetfState(k, Nonce(n)), ad, cipher[..|cipher| - 16], cipher[|cipher| - 16..])
      case Accepted(p, _) => Some(p)
      case Rejected => None
  }

  /** Decryption accepts exactly what encryption under the same key, counter and data produces. */
  lemma DecryptInvertsEncrypt(s: Suite, k: bytes, n: u64, ad: bytes, plain: bytes, cipher: bytes)
    requires |k| == 32
    ensures DecryptWith(s, k, n, ad, cipher) == Some(plain) <==> cipher == EncryptWith(s, k, n, ad, plain)
  {
    hide Seal, Open, IetfState, Nonce;
    if |cipher| >= 16 {
      var st := IetfState(k, Nonce(n));
      var body, mac := cipher[..|cipher| - 16], cipher[|cipher| - 16..];
      assert cipher == body + mac;
      NextStates(s.rounds, st, ad, body, mac, plain);
      OpenInvertsSeal(s.rounds, st, ad, body, mac, plain);
      var r := Seal(s.rounds, st, ad, plain);
      if cipher == r.cipher + r.mac {
        assert body == r.cipher && mac == r.mac;
      }
    }
  }

  lemma NextStates(rounds: Rounds, st: AeadState, ad: bytes, cipher: bytes, mac: bytes, plain: bytes)
    requires st.Ok()
    ensures Seal(rounds, st, ad, plain).next == Rekey(rounds, st)
    ensures Open(rounds, st, ad, cipher, mac).Accepted? ==> Open(rounds, st, ad, cipher, mac).next == Rekey(rounds, st)
  {
    hide Crypt, MacOf, Rekey;
  }

  /** What a party shares while a handshake message is built or read. */
  datatype Symmetric = Symmetric(h: bytes, ck: bytes) {
    predicate Ok() { |h| == |ck| == 64 }
  }

  function InitialSymmetric(s: Suite, serverPub: bytes): (r: Symmetric)
    ensures r.Ok()
  {
    var h := PROTOCOL + Zeros(64 - |PROTOCOL|);
    Symmetric(MixHash(s, MixHash(s, h, []), serverPub), h)
  }

  /** "Noise_IK_25519_ChaChaPoly_BLAKE2b" in ASCII. */
  const PROTOCOL: bytes := [78, 111, 105, 115, 101, 95, 73, 75, 95, 50, 53, 53, 49, 57, 95, 67, 104, 97, 67, 104, 97,
                            80, 111, 108, 121, 95, 66, 76, 65, 75, 69, 50, 98]

  // ---- The four handshake functions as functions of the state ----

  datatype Written = Written(next: State, msg: bytes)
  datatype ReadResult = ReadResult(status: Status, next: State)

  function Initial(s: Suite, sPriv: bytes, sPub: bytes, rsPub: bytes, isServer: bool): (st: State)
    requires |sPriv| == |sPub| == |rsPub| == 32
    ensures st.Ok()
  {
    var z := Zeros(32);
    var sym := InitialSymmetric(s, if isServer then sPub else rsPub);
    State(sPriv, sPub, rsPub, z, z, z, sym.h, sym.ck, z, z, 0, 0, isServer, false)
  }

  function ServerStart(s: Suite, sPriv: bytes, sPub: bytes): State
    requires |sPriv| == |sPub| == 32
  {
    Initial(s, sPriv, sPub, Zeros(32), true)
  }

  /** Fresh random bytes clamped to a private key. */
  function Ephemeral(random: bytes): (e: bytes)
    requires |random| == 32
    ensures |e| == 32
  {
    Inversion.Trim(random)
  }

  function WriteMsg1(s: Suite, st: State, random: bytes): Written
    requires st.Ok() && |random| == 32
  {
    var e := Ephemeral(random);
    var ePub := s.base(e);
    var h1 := MixHash(s, st.h, ePub);
    var k1 := MixKey(s, st.ck, s.dh(e, st.rsPub));
    var encS := EncryptWith(s, k1.k, 0, h1, st.sPub);
    var h2 := MixHash(s, h1, encS);
    var k2 := MixKey(s, k1.ck, s.dh(st.sPriv, st.rsPub));
    var encP := EncryptWith(s, k2.k, 0, h2, []);
    Written(st.(ePriv := e, ePub := ePub, h := MixHash(s, h2, encP), ck := k2.ck), ePub + encS + encP)
  }

  function ReadMsg1(s: Suite, st: State, msg: bytes): ReadResult
    requires st.Ok() && |msg| == 96
  {
    if !st.isServer then ReadResult(ErrState, st)
    else
      var re, encS, encP := msg[..32], msg[32..80], msg[80..];
      var h1 := MixHash(s, st.h, re);
      var k1 := MixKey(s, st.ck, s.dh(st.sPriv, re));
      var h2 := MixHash(s, h1, encS);
      match DecryptWith(s, k1.k, 0, h1, encS)
      case None => ReadResult(ErrAuth, st.(rePub := re, h := h2, ck := k1.ck))
      case Some(agent) =>
        var k2 := MixKey(s, k1.ck, s.dh(st.sPriv, agent));
        var next := st.(rePub := re, rsPub := agent, h := MixHash(s, h2, encP), ck := k2.ck);
        ReadResult(if DecryptWith(s, k2.k, 0, h2, encP).Some? then OK else ErrAuth, next)
  }

  /** split: the initiator sends with the first key and receives with the second. */
  function Split(s: Suite, ck: bytes): (r: (bytes, bytes))
    ensures |r.0| == |r.1| == 32
  {
    var k := MixKey(s, ck, []);
    (k.ck[..32], k.k)
  }

  function Finished(s: Suite, st: State): State {
    var k := Split(s, st.ck);
    st.(sendKey := if st.isServer then k.1 else k.0, recvKey := if st.isServer then k.0 else k.1,
        sendNonce := 0, recvNonce := 0, handshakeDone := true)
  }

  function WriteMsg2(s: Suite, st: State, random: bytes): Written
    requires st.Ok() && |random| == 32
  {
    var e := Ephemeral(random);
    var ePub := s.base(e);
    var h1 := MixHash(s, st.h, ePub);
    var k1 := MixKey(s, st.ck, s.dh(e, st.rePub));
    var k2 := MixKey(s, k1.ck, s.dh(e, st.rsPub));
    var encP := EncryptWith(s, k2.k, 0, h1, []);
    Written(Finished(s, st.(ePriv := e, ePub := ePub, h := MixHash(s, h1, encP), ck := k2.ck)), ePub + encP)
  }

  function ReadMsg2(s: Suite, st: State, msg: bytes): ReadResult
    requires st.Ok() && |msg| == 48
  {
    if st.isServer then ReadResult(ErrState, st)
    else
      var re, encP := msg[..32], msg[32..];
      var h1 := MixHash(s, st.h, re);
      var k1 := MixKey(s, st.ck, s.dh(st.ePriv, re));
      var k2 := MixKey(s, k1.ck, s.dh(st.sPriv, re));
      var next := st.(rePub := re, h := MixHash(s, h1, encP), ck := k2.ck);
      if DecryptWith(s, k2.k, 0, h1, encP).Some? then ReadResult(OK, Finished(s, next)) else ReadResult(ErrAuth, next)
  }

  /** The transport keys and counters of two parties who finished one handshake. */
  ghost predicate Mirrored(a: State, b: State) {
    a.handshakeDone && b.handshakeDone && a.Ok() && b.Ok()
    && a.sendKey == b.recvKey && a.recvKey == b.sendKey && a.sendNonce == b.recvNonce && a.recvNonce == b.sendNonce
  }

  /** The first message is accepted, reveals the client's static key, and leaves both sides with one h and one ck. */
  lemma Message1Agrees(s: Suite, client: State, server: State, random: bytes)
    requires DhCommutes(s) && client.Ok() && server.Ok() && |random| == 32 && server.isServer
    requires client.h == server.h && client.ck == server.ck
    requires client.sPub == s.base(client.sPriv) && client.rsPub == server.sPub == s.base(server.sPriv)
    ensures
      var w := WriteMsg1(s, client, random);
      |w.msg| == 96 && w.next.Ok()
      && var r := ReadMsg1(s, server, w.msg);
         r.status == OK && r.next.Ok() && r.next.h == w.next.h && r.next.ck == w.next.ck
         && r.next.rsPub == client.sPub && r.next.rePub == w.next.ePub
  {
    hide MixHash, MixKey, EncryptWith, DecryptWith, Ephemeral;
    var w := WriteMsg1(s, client, random);
    var e := Ephemeral(random);
    var h1 := MixHash(s, client.h, w.next.ePub);
    var k1 := MixKey(s, client.ck, s.dh(e, client.rsPub));
    var encS := EncryptWith(s, k1.k, 0, h1, client.sPub);
    var h2 := MixHash(s, h1, encS);
    var k2 := MixKey(s, k1.ck, s.dh(client.sPriv, client.rsPub));
    var encP := EncryptWith(s, k2.k, 0, h2, []);
    assert w.msg[..32] == w.next.ePub && w.msg[32..80] == encS && w.msg[80..] == encP;
    DecryptInvertsEncrypt(s, k1.k, 0, h1, client.sPub, encS);
    DecryptInvertsEncrypt(s, k2.k, 0, h2, [], encP);
  }

  lemma Message2Agrees(s: Suite, client: State, server: State, random: bytes)
    requires DhCommutes(s) && client.Ok() && server.Ok() && |random| == 32 && server.isServer && !client.isServer
    requires client.h == server.h && client.ck == server.ck
    requires client.sPub == s.base(client.sPriv) == server.rsPub && client.ePub == s.base(client.ePriv) == server.rePub
    ensures
      var w := WriteMsg2(s, server, random);
      |w.msg| == 48
      && var r := ReadMsg2(s, client, w.msg);
         r.status == OK && r.next.h == w.next.h && r.next.ck == w.next.ck && Mirrored(r.next, w.next)
         && w.next.sendNonce == w.next.recvNonce == 0
  {
    hide MixHash, MixKey, EncryptWith, DecryptWith, Ephemeral, Split;
    var w := WriteMsg2(s, server, random);
    var e := Ephemeral(random);
    var h1 := MixHash(s, server.h, s.base(e));
    var k1 := MixKey(s, server.ck, s.dh(e, server.rePub));
    var k2 := MixKey(s, k1.ck, s.dh(e, server.rsPub));
    var encP := EncryptWith(s, k2.k, 0, h1, []);
    assert w.msg[..32] == s.base(e) && w.msg[32..] == encP;
    DecryptInvertsEncrypt(s, k2.k, 0, h1, [], encP);
  }

  /** The keys of both directions, straight from a chaining key: the client sends with the first. */
  predicate KeysFrom(s: Suite, ck: bytes, client: State, server: State) {
    var temp := Digest(s.compress, ck, []);
    var first := Digest(s.compress, temp, [1]);
    && client.sendKey == server.recvKey == first[..32]
    && server.sendKey == client.recvKey == Digest(s.compress, temp, first + [2])[..32]
  }

  /** The key of each direction for one party. */
  lemma FinishedKeys(s: Suite, st: State)
    ensures
      var temp := Digest(s.compress, st.ck, []);
      var first := Digest(s.compress, temp, [1]);
      var second := Digest(s.compress, temp, first + [2]);
      var done := Finished(s, st);
      && done.ck == st.ck
      && (if st.isServer then done.recvKey else done.sendKey) == first[..32]
      && (if st.isServer then done.sendKey else done.recvKey) == second[..32]
  {
    hide Digest;
  }

  /** The whole handshake: with matching static pairs and commuting Diffie-Hellman both sides succeed, agree on
      h and ck after each message, the server learns the client's static key, and the transport keys mirror. */
  lemma HandshakeAgrees(s: Suite, clientPriv: bytes, serverPriv: bytes, random1: bytes, random2: bytes)
    returns (client: State, server: State, w1: Written, r1: ReadResult, w2: Written, r2: ReadResult)
    requires DhCommutes(s) && |clientPriv| == |serverPriv| == |random1| == |random2| == 32
    ensures client == Initial(s, clientPriv, s.base(clientPriv), s.base(serverPriv), false)
    ensures server == ServerStart(s, serverPriv, s.base(serverPriv))
    ensures client.h == server.h && client.ck == server.ck
    ensures w1 == WriteMsg1(s, client, random1) && |w1.msg| == 96 && r1 == ReadMsg1(s, server, w1.msg)
    ensures r1.status == OK && r1.next.h == w1.next.h && r1.next.ck == w1.next.ck && r1.next.rsPub == s.base(clientPriv)
    ensures w1.next.Ok() && r1.next.Ok()
    ensures w2 == WriteMsg2(s, r1.next, random2) && |w2.msg| == 48 && r2 == ReadMsg2(s, w1.next, w2.msg)
    ensures r2.status == OK && r2.next.h == w2.next.h && r2.next.ck == w2.next.ck
    ensures Mirrored(r2.next, w2.next) && r2.next.sendNonce == 0 && r2.next.recvNonce == 0
    ensures KeysFrom(s, w2.next.ck, r2.next, w2.next)
  {
    hide MixHash, MixKey, EncryptWith, DecryptWith, Split, InitialSymmetric, ReadMsg2, Ephemeral, Digest;
    client := Initial(s, clientPriv, s.base(clientPriv), s.base(serverPriv), false);
    server := ServerStart(s, serverPriv, s.base(serverPriv));
    Message1Agrees(s, client, server, random1);
    w1 := WriteMsg1(s, client, random1);
    r1 := ReadMsg1(s, server, w1.msg);
    Message2Agrees(s, w1.next, r1.next, random2);
    w2 := WriteMsg2(s, r1.next, random2);
    r2 := ReadMsg2(s, w1.next, w2.msg);
    ServerKeys(s, r1.next, random2);
  }

  lemma ServerKeys(s: Suite, st: State, random: bytes)
    requires st.Ok() && |random| == 32 && st.isServer
    ensures
      var done := WriteMsg2(s, st, random).next;
      var temp := Digest(s.compress, done.ck, []);
      var first := Digest(s.compress, temp, [1]);
      done.recvKey == first[..32] && done.sendKey == Digest(s.compress, temp, first + [2])[..32]
  {
    hide Digest, MixHash, MixKey, EncryptWith, Ephemeral, Split, Finished;
    var e := Ephemeral(random);
    var k1 := MixKey(s, st.ck, s.dh(e, st.rePub));
    var k2 := MixKey(s, k1.ck, s.dh(e, st.rsPub));
    var h1 := MixHash(s, st.h, s.base(e));
    var encP := EncryptWith(s, k2.k, 0, h1, []);
    FinishedKeys(s, st.(ePriv := e, ePub := s.base(e), h := MixHash(s, h1, encP), ck := k2.ck));
  }
}
