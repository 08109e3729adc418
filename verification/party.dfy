/** NoiseIKState and the functions that update it step by step. */
module Party {
  import opened Machine
  import opened ByteStrings
  import opened Blake2b
  import opened Hmac
  import opened Noise
  import Transport

  /** mix_hash. */
  method HashStep(s: Suite, h: bytes, data: bytes) returns (r: bytes)
    ensures r == MixHash(s, h, data)
  {
    hide Hash, InitialChain, Blake2b.Context.Valid, Blake2b.Context.Filling;
    var ctx := new Blake2b.Context(s.compress);
    ctx.Init(64);
    ctx.Update(h);
    ctx.Update(data);
    assert ctx.msg == h + data;
    r := ctx.Final();
  }

  /** mix_key, and split with empty input. */
  method KeyStep(s: Suite, ck: bytes, input: bytes) returns (r: Keys)
    ensures r == MixKey(s, ck, input)
  {
    hide Digest;
    var temp := HmacBlake2b(s.compress, ck, input);
    var first := HmacBlake2b(s.compress, temp, [1]);
    var second := HmacBlake2b(s.compress, temp, first + [2]);
    r := Keys(first, second[..32]);
  }

  method Encrypt(s: Suite, k: bytes, n: u64, ad: bytes, plain: bytes) returns (c: bytes)
    requires |k| == 32
    ensures c == EncryptWith(s, k, n, ad, plain)
  {
    hide Aead.Seal, Aead.IetfState, Nonce;
    var ctx := new Aead.Context(s.rounds, k, Nonce(n));
    var cipher, mac := new u8[|plain|], new u8[16];
    ctx.Write(cipher, mac, ad, plain);
    c := cipher[..] + mac[..];
  }

  method Decrypt(s: Suite, k: bytes, n: u64, ad: bytes, cipher: bytes) returns (p: Option<bytes>)
    requires |k| == 32
    ensures p == DecryptWith(s, k, n, ad, cipher)
  {
    hide Aead.Open, Aead.IetfState, Nonce;
    if |cipher| < 16 {
      return None;
    }
    var ctx := new Aead.Context(s.rounds, k, Nonce(n));
    var plain := new u8[|cipher| - 16];
    var rc := ctx.Read(plain, cipher[|cipher| - 16..], ad, cipher[..|cipher| - 16]);
    p := if rc == 0 then Some(plain[..]) else None;
  }

  class NoiseIKState {
    const suite: Suite
    var sPriv: bytes
    var sPub: bytes
    var rsPub: bytes
    var ePriv: bytes
    var ePub: bytes
    var rePub: bytes
    var h: bytes
    var ck: bytes
    var sendKey: bytes
    var recvKey: bytes
    var sendNonce: u64
    var recvNonce: u64
    var isServer: bool
    var handshakeDone: bool

    function Value(): State
      reads this
    {
      State(sPriv, sPub, rsPub, ePriv, ePub, rePub, h, ck, sendKey, recvKey, sendNonce, recvNonce, isServer, handshakeDone)
    }

    constructor (suite: Suite)
      ensures this.suite == suite
    {
      this.suite := suite;
    }

    /** noise_ik_init_server and noise_ik_init_client: the pre-message is the server's static key. */
    method Init(sPriv: bytes, sPub: bytes, rsPub: bytes, isServer: bool)
      requires |sPriv| == |sPub| == |rsPub| == 32
      modifies this
      ensures Value() == Initial(suite, sPriv, sPub, rsPub, isServer)
    {
      hide MixHash, InitialSymmetric, Zeros;
      InitSymmetric(if isServer then sPub else rsPub);
      var zero := Zeros(32);
      this.sPriv, this.sPub, this.rsPub, this.isServer := sPriv, sPub, rsPub, isServer;
      ePriv, ePub, rePub, sendKey, recvKey := zero, zero, zero, zero, zero;
      sendNonce, recvNonce, handshakeDone := 0, 0, false;
    }

    method InitSymmetric(serverPub: bytes)
      modifies this`h, this`ck
      ensures Symmetric(h, ck) == InitialSymmetric(suite, serverPub)
    {
      hide MixHash;
      ck := PROTOCOL + Zeros(64 - |PROTOCOL|);
      h := HashStep(suite, ck, []);
      h := HashStep(suite, h, serverPub);
    }

    /** encrypt_and_hash. */
    method EncryptAndHash(k: bytes, plain: bytes) returns (c: bytes)
      requires |k| == 32
      modifies this`h
      ensures c == EncryptWith(suite, k, 0, old(h), plain) && h == MixHash(suite, old(h), c)
    {
      hide MixHash, EncryptWith;
      c := Encrypt(suite, k, 0, h, plain);
      h := HashStep(suite, h, c);
    }

    /** decrypt_and_hash: the ciphertext is hashed whether or not it is accepted. */
    method DecryptAndHash(k: bytes, c: bytes) returns (p: Option<bytes>)
      requires |k| == 32 && |c| >= 16
      modifies this`h
      ensures p == DecryptWith(suite, k, 0, old(h), c) && h == MixHash(suite, old(h), c)
    {
      hide MixHash, DecryptWith;
      var before := h;
      h := HashStep(suite, h, c);
      p := Decrypt(suite, k, 0, before, c);
    }

    method MixDh(priv: bytes, pub: bytes) returns (k: bytes)
      modifies this`ck
      ensures Keys(ck, k) == MixKey(suite, old(ck), suite.dh(priv, pub)) && |k| == 32
    {
      hide MixKey;
      var r := KeyStep(suite, ck, suite.dh(priv, pub));
      ck := r.ck;
      k := r.k;
    }

    /** The ephemeral key and the first Diffie-Hellman of a message to be written. */
    method MixEphemeral(random: bytes, peer: bytes) returns (k: bytes)
      requires |random| == 32
      modifies this`ePriv, this`ePub, this`h, this`ck
      ensures ePriv == Ephemeral(random) && ePub == suite.base(ePriv) && h == MixHash(suite, old(h), ePub)
      ensures Keys(ck, k) == MixKey(suite, old(ck), suite.dh(ePriv, peer)) && |k| == 32
    {
      hide MixHash, MixKey, Ephemeral;
      ePriv := Ephemeral(random);
      ePub := suite.base(ePriv);
      h := HashStep(suite, h, ePub);
      k := MixDh(ePriv, peer);
    }

    method DoWriteMsg1(random: bytes) returns (status: Status, msg: bytes)
      requires Value().Ok() && |random| == 32
      modifies this`ePriv, this`ePub, this`h, this`ck
      ensures old(isServer) ==> status == ErrState && Value() == old(Value())
      ensures !old(isServer) ==> status == OK && Written(Value(), msg) == WriteMsg1(suite, old(Value()), random)
    {
      hide MixHash, MixKey, EncryptWith, Ephemeral;
      if isServer {
        return ErrState, [];
      }
      var k := MixEphemeral(random, rsPub);
      var encS := EncryptAndHash(k, sPub);
      k := MixDh(sPriv, rsPub);
      var encP := EncryptAndHash(k, []);
      return OK, ePub + encS + encP;
    }

    method DoReadMsg1(msg: bytes) returns (status: Status)
      requires Value().Ok() && |msg| == 96
      modifies this`rePub, this`rsPub, this`h, this`ck
      ensures ReadResult(status, Value()) == ReadMsg1(suite, old(Value()), msg)
    {
      hide MixHash, MixKey, DecryptWith;
      if !isServer {
        return ErrState;
      }
      rePub := msg[..32];
      h := HashStep(suite, h, rePub);
      var k := MixDh(sPriv, rePub);
      var agent := DecryptAndHash(k, msg[32..80]);
      if agent.None? {
        return ErrAuth;
      }
      rsPub := agent.value;
      k := MixDh(sPriv, rsPub);
      var payload := DecryptAndHash(k, msg[80..]);
      return if payload.Some? then OK else ErrAuth;
    }

    /** split, with the keys assigned by role. */
    method DeriveTransport()
      modifies this`sendKey, this`recvKey, this`sendNonce, this`recvNonce, this`handshakeDone
      ensures Value() == Finished(suite, old(Value()))
    {
      hide MixKey;
      var k := KeyStep(suite, ck, []);
      sendKey, recvKey := if isServer then k.k else k.ck[..32], if isServer then k.ck[..32] else k.k;
      sendNonce := 0;
      recvNonce := 0;
      handshakeDone := true;
    }

    method DoWriteMsg2(random: bytes) returns (status: Status, msg: bytes)
      requires Value().Ok() && |random| == 32
      modifies this
      ensures !old(isServer) ==> status == ErrState && Value() == old(Value())
      ensures old(isServer) ==> status == OK && Written(Value(), msg) == WriteMsg2(suite, old(Value()), random)
    {
      hide MixHash, MixKey, EncryptWith, Ephemeral, Split;
      if !isServer {
        return ErrState, [];
      }
      var _ := MixEphemeral(random, rePub);
      var k := MixDh(ePriv, rsPub);
      var encP := EncryptAndHash(k, []);
      DeriveTransport();
      return OK, ePub + encP;
    }

    method DoReadMsg2(msg: bytes) returns (status: Status)
      requires Value().Ok() && |msg| == 48
      modifies this
      ensures ReadResult(status, Value()) == ReadMsg2(suite, old(Value()), msg)
    {
      hide MixHash, MixKey, DecryptWith, Split;
      if isServer {
        return ErrState;
      }
      rePub := msg[..32];
      h := HashStep(suite, h, rePub);
      var _ := MixDh(ePriv, rePub);
      var k := MixDh(sPriv, rePub);
      var payload := DecryptAndHash(k, msg[32..]);
      if payload.None? {
        return ErrAuth;
      }
      DeriveTransport();
      return OK;
    }

    /** noise_ik_encrypt. */
    method DoEncrypt(plain: bytes) returns (status: Status, cipher: bytes)
      requires Value().Ok()
      modifies this`sendNonce
      ensures Transport.Sent(status, Value(), cipher) == Transport.Encrypt(suite, old(Value()), plain)
    {
      hide EncryptWith;
      if !handshakeDone {
        return ErrState, [];
      }
      cipher := Encrypt(suite, sendKey, sendNonce, [], plain);
      sendNonce := Transport.Next(sendNonce);
      status := OK;
    }

    /** noise_ik_decrypt. */
    method DoDecrypt(cipher: bytes) returns (status: Status, plain: bytes)
      requires Value().Ok()
      modifies this`recvNonce
      ensures Transport.Received(status, Value(), plain) == Transport.Decrypt(suite, old(Value()), cipher)
    {
      hide DecryptWith;
      if !handshakeDone {
        return ErrState, [];
      }
      var p := Decrypt(suite, recvKey, recvNonce, [], cipher);
      if p.None? {
        return ErrAuth, [];
      }
      recvNonce := Transport.Next(recvNonce);
      return OK, p.value;
    }
  }
}
