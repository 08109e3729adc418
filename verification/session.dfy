/** The encrypted packet loop of one connection: decrypt, parse, check tag and sequence number, dispatch, reply. */
module Session {
  import opened Machine
  import opened ByteStrings
  import opened Apdu
  import opened Auth
  import opened Hmac
  import opened Noise
  import opened Dispatcher
  import Blake2b
  import TaskPool
  import Tasks
  import Transport
  import Party

  const SW_VERSION: u16 := 0x6e00
  const SW_REPLAY: u16 := 0x6985

  /** "asys-epoch-v1" in ASCII. */
  const EPOCH_LABEL: bytes := [97, 115, 121, 115, 45, 101, 112, 111, 99, 104, 45, 118, 49]

  function Epoch(su: Suite, recvKey: bytes): (e: bytes)
    ensures |e| == 4
  {
    Digest(su.compress, recvKey, EPOCH_LABEL)[..4]
  }

  /** The session context, the bytes its parser holds, and whether the loop is still running. */
  datatype Ctx = Ctx(id: u16, noise: State, epoch: bytes, last: u32, held: bytes, open: bool) {
    predicate Ok() { noise.Ok() && |epoch| == 4 && |held| <= MAX_FRAME }
  }

  /** One turn of the loop: the context and pool after it, the plain text received, the frame dispatched and its
      effect if there was one, and what was sent. */
  datatype Turn = Turn(ctx: Ctx, pool: TaskPool.Slots, plain: bytes, ran: Option<Frame>, effect: Option<Effect>, wire: bytes)

  function ReplyBytes(r: Tasks.Reply): bytes { r.body + [(r.sw / 0x100) as u8, (r.sw % 0x100) as u8] }

  /** A ciphertext with its two-byte length in front. */
  function OnWire(cipher: bytes): bytes {
    [(|cipher| / 0x100 % 0x100) as u8, (|cipher| % 0x100) as u8] + cipher
  }

  /** send_sw, after which every caller leaves the loop. */
  function Reject(su: Suite, t: Turn, sw: u16): Turn
    requires t.ctx.Ok()
  {
    var r := Transport.Encrypt(su, t.ctx.noise, ReplyBytes(Tasks.Reply([], sw)));
    t.(ctx := t.ctx.(noise := r.next, open := false), wire := if r.status == OK then OnWire(r.cipher) else [])
  }

  function SeqNo(f: Frame): u32
    requires |f.data| >= 4
  {
    Read32(f.data)
  }

  /** Dispatch, consume and reply. */
  function Serve(su: Suite, t: Turn, f: Frame, env: Env): (r: Turn)
    requires t.ctx.Ok() && Parse(t.ctx.held) == Ready(f) && (f.Sec() != 0 ==> |f.data| >= 4)
    ensures r.ctx.Ok()
  {
    ReadyIsPrinted(t.ctx.held);
    var d := Dispatch(t.pool, f, t.ctx.id, env);
    var c := t.ctx.(last := if f.Sec() != 0 then SeqNo(f) else t.ctx.last, held := t.ctx.held[f.TotalSize()..]);
    var e := Transport.Encrypt(su, c.noise, ReplyBytes(d.reply));
    Turn(c.(noise := e.next, open := e.status == OK && env.sent), d.slots, t.plain, Some(f), d.effect,
         if e.status == OK then OnWire(e.cipher) else [])
  }

  /** From the parser's verdict on. */
  function Judge(su: Suite, t: Turn, env: Env): (r: Turn)
    requires t.ctx.Ok()
    ensures r.ctx.Ok()
  {
    match Parse(t.ctx.held)
    case NeedMore => t
    case Failed(Version) => Reject(su, t, SW_VERSION)
    case Failed(_) => Reject(su, t, Tasks.SW_WRONG_LEN)
    case Ready(f) =>
      if f.Sec() != 0 && !Accepts(su.compress, t.ctx.noise.recvKey, f, t.ctx.epoch) then Reject(su, t, Tasks.SW_ACCESS_DENIED)
      else if f.Sec() != 0 && SeqNo(f) <= t.ctx.last then Reject(su, t, SW_REPLAY)
      else Serve(su, t, f, env)
  }

  /** Length checks and decryption into the room behind the bytes held; None when the loop is left. */
  function Receive(su: Suite, c: Ctx, cipher: bytes): (r: Option<Transport.Received>)
    requires c.Ok()
    ensures r.Some? ==> r.value.next.Ok() && |c.held| + |r.value.plain| <= MAX_FRAME
  {
    if |cipher| < 16 || |cipher| > MAX_FRAME + 16 || |cipher| - 16 > MAX_FRAME - |c.held| then None
    else
      var d := Transport.Decrypt(su, c.noise, cipher);
      if d.status != OK then None else Some(d)
  }

  /** One packet: None is a failed receive. */
  function Handle(su: Suite, c: Ctx, pool: TaskPool.Slots, packet: Option<bytes>, env: Env): (r: Turn)
    requires c.Ok()
    ensures r.ctx.Ok()
  {
    var left := Turn(c.(open := false), pool, [], None, None, []);
    if packet.None? then left
    else
      match Receive(su, c, packet.value)
      case None => left
      case Some(d) => Judge(su, Turn(c.(noise := d.next, held := c.held + d.plain), pool, d.plain, None, None, []), env)
  }

  /** The objects behind one connection; the pool is shared with the other connections. */
  class Connection {
    const noise: Party.NoiseIKState
    const parser: Parser
    const pool: TaskPool.Pool
    var sessionId: u16
    var epoch: bytes
    var lastSeenSeq: u32

    ghost predicate Valid()
      reads this, noise, parser
    {
      parser.Valid() && pool.Valid() && noise.Value().Ok() && |epoch| == 4
    }

    function Value(open: bool): (c: Ctx)
      requires Valid()
      reads this, noise, parser, parser.buf
      ensures c.Ok()
    {
      Ctx(sessionId, noise.Value(), epoch, lastSeenSeq, parser.Held(), open)
    }

    constructor (sessionId: u16, noise: Party.NoiseIKState, parser: Parser, pool: TaskPool.Pool)
      requires noise.Value().Ok() && parser.Valid() && parser.Held() == [] && pool.Valid()
      ensures Valid() && this.noise == noise && this.parser == parser && this.pool == pool
      ensures Value(true) == Ctx(sessionId, noise.Value(), Epoch(noise.suite, noise.recvKey), 0, [], true)
    {
      this.noise, this.parser, this.pool, this.sessionId, lastSeenSeq := noise, parser, pool, sessionId, 0;
      var digest := HmacBlake2b(noise.suite.compress, noise.recvKey, EPOCH_LABEL);
      epoch := digest[..4];
    }

    method SendSw(sw: u16) returns (wire: bytes)
      requires Valid()
      modifies noise`sendNonce
      ensures Valid()
      ensures
        var r := Transport.Encrypt(noise.suite, old(noise.Value()), ReplyBytes(Tasks.Reply([], sw)));
        noise.Value() == r.next && wire == if r.status == OK then OnWire(r.cipher) else []
    {
      hide Transport.Encrypt, ReplyBytes;
      var status, cipher := noise.DoEncrypt(ReplyBytes(Tasks.Reply([], sw)));
      wire := if status == OK then OnWire(cipher) else [];
    }

    method ServeFrame(f: Frame, env: Env) returns (more: bool, effect: Option<Effect>, wire: bytes)
      requires Valid() && Parse(parser.Held()) == Ready(f) && (f.Sec() != 0 ==> |f.data| >= 4)
      modifies this`lastSeenSeq, noise`sendNonce, parser`filled, parser.buf, pool.slots
      ensures Valid()
      ensures
        var r := Serve(noise.suite, Turn(old(Value(true)), old(pool.Value()), [], None, None, []), f, env);
        Value(more) == r.ctx && pool.Value() == r.pool && effect == r.effect && wire == r.wire
    {
      hide Parse, Dispatch, Transport.Encrypt, ReplyBytes, SeqNo, Frame.WellFormed, Frame.TotalSize, Frame.Sec;
      ReadyIsPrinted(parser.Held());
      if f.Sec() != 0 {
        lastSeenSeq := SeqNo(f);
      }
      var reply;
      reply, effect := DispatchTo(pool, f, sessionId, env);
      parser.Consume(f);
      var status, cipher := noise.DoEncrypt(ReplyBytes(reply));
      more := status == OK && env.sent;
      wire := if status == OK then OnWire(cipher) else [];
    }

    method JudgeHeld(env: Env) returns (more: bool, ran: Option<Frame>, effect: Option<Effect>, wire: bytes)
      requires Valid()
      modifies this`lastSeenSeq, noise`sendNonce, parser`filled, parser.buf, pool.slots
      ensures Valid()
      ensures
        var r := Judge(noise.suite, Turn(old(Value(true)), old(pool.Value()), [], None, None, []), env);
        Value(more) == r.ctx && pool.Value() == r.pool && ran == r.ran && effect == r.effect && wire == r.wire
    {
      hide Parse, Serve, Transport.Encrypt, Accepts, ReplyBytes, SeqNo, Frame.WellFormed, Frame.Sec;
      more, ran, effect, wire := false, None, None, [];
      ghost var t := Turn(Value(true), pool.Value(), [], None, None, []);
      var verdict := parser.TryParse();
      match verdict {
        case NeedMore =>
          more := true;
        case Failed(error) =>
          wire := SendSw(if error == Version then SW_VERSION else Tasks.SW_WRONG_LEN);
        case Ready(f) =>
          ReadyIsPrinted(parser.Held());
          if f.Sec() != 0 {
            var ok := VerifyAuthTag(noise.suite.compress, noise.recvKey, f, epoch);
            if !ok {
              wire := SendSw(Tasks.SW_ACCESS_DENIED);
              return;
            }
            AcceptedHasSeqNo(noise.suite.compress, noise.recvKey, f, epoch);
            if SeqNo(f) <= lastSeenSeq {
              wire := SendSw(SW_REPLAY);
              return;
            }
          }
          ServeRan(noise.suite, t, f, env);
          more, effect, wire := ServeFrame(f, env);
          ran := Some(f);
      }
    }

    /** One turn of the packet loop; more is false when the loop is left. */
    method HandlePacket(packet: Option<bytes>, env: Env)
      returns (more: bool, plain: bytes, ran: Option<Frame>, effect: Option<Effect>, wire: bytes)
      requires Valid()
      modifies this`lastSeenSeq, noise, parser`filled, parser.buf, pool.slots
      ensures Valid()
      ensures Turn(Value(more), pool.Value(), plain, ran, effect, wire)
           == Handle(noise.suite, old(Value(true)), old(pool.Value()), packet, env)
    {
      hide Judge, Transport.Decrypt;
      more, plain, ran, effect, wire := false, [], None, None, [];
      if packet.None? {
        return;
      }
      var cipher := packet.value;
      if |cipher| < 16 || |cipher| > MAX_FRAME + 16 || |cipher| - 16 > parser.Room() {
        return;
      }
      var status, text := noise.DoDecrypt(cipher);
      if status != OK {
        return;
      }
      parser.Receive(text);
      plain := text;
      JudgeHistory(noise.suite, Turn(Value(true), pool.Value(), [], None, None, []), text, env);
      more, ran, effect, wire := JudgeHeld(env);
    }
  }

  /** Serving does not depend on the history carried in the turn, and runs the given frame. */
  lemma ServeRan(su: Suite, t: Turn, f: Frame, env: Env)
    requires t.ctx.Ok() && Parse(t.ctx.held) == Ready(f) && (f.Sec() != 0 ==> |f.data| >= 4)
    ensures Serve(su, t, f, env).ran == Some(f)
  {
    hide Parse, Dispatch, Transport.Encrypt;
  }

  /** The verdict does not depend on the history carried in the turn. */
  lemma JudgeHistory(su: Suite, t: Turn, plain: bytes, env: Env)
    requires t.ctx.Ok() && t.ran.None? && t.effect.None? && t.wire == []
    ensures Judge(su, t.(plain := plain), env) == Judge(su, t, env).(plain := plain)
  {
    hide Parse, Dispatch, Transport.Encrypt, Accepts;
  }

  // ---- What a turn does, from outside ----

  /** The epoch: the first four bytes of the authenticator of the string "asys-epoch-v1" under the receiving key. */
  lemma EpochIs(su: Suite, recvKey: bytes, text: bytes)
    requires |text| == 13 && forall i | 0 <= i < 13 :: text[i] as char == "asys-epoch-v1"[i]
    ensures Epoch(su, recvKey) == Digest(su.compress, recvKey, text)[..4]
  {
    hide Digest;
    forall i | 0 <= i < 13 ensures text[i] == EPOCH_LABEL[i] {
      assert EPOCH_LABEL[i] as char == "asys-epoch-v1"[i];
    }
    assert text == EPOCH_LABEL;
  }

  /** The wire carries a text: its ciphertext under the sending key and counter, behind the length in network byte order. */
  ghost predicate Carries(su: Suite, st: State, wire: bytes, text: bytes)
    requires st.Ok()
  {
    && |wire| == 2 + |text| + 16 && wire[2..] == EncryptWith(su, st.sendKey, st.sendNonce, [], text)
    && (|text| + 16 < 0x1_0000 ==> BeNat(wire[..2]) == |text| + 16)
  }

  lemma SentCarries(su: Suite, st: State, text: bytes)
    requires st.Ok() && st.handshakeDone
    ensures Carries(su, st, OnWire(Transport.Encrypt(su, st, text).cipher), text)
  {
    hide EncryptWith, BeNat;
    var c := Transport.Encrypt(su, st, text).cipher;
    var wire := OnWire(c);
    assert wire[2..] == c;
    BeNatShort(wire[..2]);
  }

  /** A reply ends in its status word, most significant byte first. */
  lemma ReplyLayout(r: Tasks.Reply)
    ensures var b := ReplyBytes(r); |b| == |r.body| + 2 && b[..|r.body|] == r.body && BeNat(b[|r.body|..]) == r.sw as int
  {
    hide BeNat;
    BeNatShort(ReplyBytes(r)[|r.body|..]);
  }

  /** When the frame at the start of the bytes held is handed to the dispatcher: it is plain, or its tag verifies and its
      number, in network byte order, is above the last one. */
  ghost predicate Admits(su: Suite, c: Ctx, f: Frame) {
    f.Sec() == 0 || (Accepts(su.compress, c.noise.recvKey, f, c.epoch) && |f.data| >= 4 && BeNat(f.data[..4]) > c.last as int)
  }

  lemma AdmitsIs(su: Suite, c: Ctx, f: Frame)
    ensures Admits(su, c, f) <==> f.Sec() == 0 || (Accepts(su.compress, c.noise.recvKey, f, c.epoch) && |f.data| >= 4 && SeqNo(f) > c.last)
  {
    hide BeNat;
    if |f.data| >= 4 { NetworkOrder(0, f.data); }
  }

  /** A packet that reaches an open loop: of admissible length, fitting behind the bytes held, and the encryption of a text under
      the receiving key and counter. */
  ghost predicate Delivers(su: Suite, c: Ctx, packet: Option<bytes>, plain: bytes)
    requires c.Ok()
  {
    && packet.Some? && 16 <= |packet.value| <= 65576 && |c.held| + |plain| <= 65560
    && c.noise.handshakeDone && packet.value == EncryptWith(su, c.noise.recvKey, c.noise.recvNonce, [], plain)
  }

  lemma ReceiveDelivers(su: Suite, c: Ctx, packet: bytes, plain: bytes)
    requires c.Ok()
    ensures
      var r := Receive(su, c, packet);
      r.Some? && r.value.plain == plain <==> Delivers(su, c, Some(packet), plain)
    ensures
      var r := Receive(su, c, packet);
      r.Some? ==> r.value.status == OK && r.value.next == c.noise.(recvNonce := Transport.Next(c.noise.recvNonce))
  {
    hide EncryptWith, DecryptWith;
    LargestFrame();
    DecryptInvertsEncrypt(su, c.noise.recvKey, c.noise.recvNonce, [], plain, packet);
  }

  /** Exactly when an open session stays in its loop: a packet delivers a text, and the bytes held with it still need more, or
      start with a frame that is admitted and whose reply could be sent. */
  lemma StaysOpen(su: Suite, c: Ctx, pool: TaskPool.Slots, packet: Option<bytes>, env: Env)
    requires c.Ok() && c.open
    ensures
      Handle(su, c, pool, packet, env).ctx.open <==>
        exists plain :: Delivers(su, c, packet, plain)
          && (Parse(c.held + plain) == NeedMore
              || (Parse(c.held + plain).Ready? && Admits(su, c, Parse(c.held + plain).frame) && env.sent))
  {
    hide Receive, Judge, EncryptWith, Parse, Delivers, Admits;
    if packet.Some? {
      var r := Receive(su, c, packet.value);
      if r.Some? {
        ReceiveDelivers(su, c, packet.value, r.value.plain);
        DeliversMeans(su, c, packet.value, r.value.plain);
        JudgeStays(su, c, r.value, pool, env);
      }
      forall plain | Delivers(su, c, packet, plain) ensures r.Some? && r.value.plain == plain {
        ReceiveDelivers(su, c, packet.value, plain);
      }
    } else {
      forall plain ensures !Delivers(su, c, packet, plain) { NothingDelivers(su, c, plain); }
    }
  }

  lemma NothingDelivers(su: Suite, c: Ctx, plain: bytes)
    requires c.Ok()
    ensures !Delivers(su, c, None, plain)
  {
  }

  lemma JudgeStays(su: Suite, c: Ctx, d: Transport.Received, pool: TaskPool.Slots, env: Env)
    requires c.Ok() && c.open && d.next.Ok() && |c.held| + |d.plain| <= MAX_FRAME && c.noise.handshakeDone
    requires d.next == c.noise.(recvNonce := Transport.Next(c.noise.recvNonce))
    ensures
      var b := c.held + d.plain;
      var t := Judge(su, Turn(c.(noise := d.next, held := b), pool, d.plain, None, None, []), env);
      t.ctx.open <==> Parse(b) == NeedMore || (Parse(b).Ready? && Admits(su, c, Parse(b).frame) && env.sent)
  {
    hide Parse, Accepts, SeqNo, Dispatch, ReplyBytes, EncryptWith, Admits, Frame.Sec, Frame.TotalSize;
    var b := c.held + d.plain;
    if Parse(b).Ready? {
      AdmitsIs(su, c, Parse(b).frame);
      if Accepts(su.compress, c.noise.recvKey, Parse(b).frame, c.epoch) {
        AcceptedHasSeqNo(su.compress, c.noise.recvKey, Parse(b).frame, c.epoch);
      }
    }
  }

  /** A turn without a delivered text dispatches nothing, sends nothing, changes no slot and ends the loop. */
  lemma NothingDelivered(su: Suite, c: Ctx, pool: TaskPool.Slots, packet: Option<bytes>, env: Env)
    requires c.Ok() && forall plain :: !Delivers(su, c, packet, plain)
    ensures Handle(su, c, pool, packet, env) == Turn(c.(open := false), pool, [], None, None, [])
  {
    hide Receive, Judge, Delivers;
    if packet.Some? && Receive(su, c, packet.value).Some? {
      ReceiveDelivers(su, c, packet.value, Receive(su, c, packet.value).value.plain);
    }
  }

  /** What the session answers to a delivered text, byte for byte: nothing while a frame is incomplete, a status word for each
      refusal, and the dispatcher's reply with its status word for an admitted frame. */
  lemma TurnAnswers(su: Suite, c: Ctx, pool: TaskPool.Slots, packet: bytes, plain: bytes, env: Env)
    requires c.Ok() && Delivers(su, c, Some(packet), plain)
    ensures
      var b, t := c.held + plain, Handle(su, c, pool, Some(packet), env);
      match Parse(b)
      case NeedMore => t.wire == [] && t.ran == None && t.ctx.held == b
      case Failed(e) => Carries(su, c.noise, t.wire, if e == Version then [0x6e, 0x00] else [0x67, 0x00]) && t.ran == None
      case Ready(f) =>
        if !Admits(su, c, f) then
          Carries(su, c.noise, t.wire, if Accepts(su.compress, c.noise.recvKey, f, c.epoch) then [0x69, 0x85] else [0x69, 0x82])
          && t.ran == None
        else
          var r := Dispatch(pool, f, c.id, env).reply;
          && t.ran == Some(f)
          && Carries(su, c.noise, t.wire, r.body + [(r.sw / 0x100) as u8, (r.sw % 0x100) as u8])
  {
    hide Parse, Accepts, SeqNo, Dispatch, EncryptWith, Transport.Encrypt, Admits, Carries, OnWire, Delivers, Receive, Frame.Sec, Frame.TotalSize;
    ReceiveDelivers(su, c, packet, plain);
    DeliversMeans(su, c, packet, plain);
    var b, next := c.held + plain, Receive(su, c, packet).value.next;
    JudgeAnswers(su, c, next, plain, pool, env);
  }

  lemma DeliversMeans(su: Suite, c: Ctx, packet: bytes, plain: bytes)
    requires c.Ok() && Delivers(su, c, Some(packet), plain)
    ensures c.noise.handshakeDone && |c.held| + |plain| <= MAX_FRAME
  {
  }

  lemma SameSender(su: Suite, a: State, b: State, wire: bytes, text: bytes)
    requires a.Ok() && b.Ok() && a.sendKey == b.sendKey && a.sendNonce == b.sendNonce
    ensures Carries(su, a, wire, text) == Carries(su, b, wire, text)
  {
  }

  lemma Rejected(su: Suite, t: Turn, c: Ctx, sw: u16, text: bytes)
    requires t.ctx.Ok() && c.Ok() && t.ctx.noise.handshakeDone
    requires t.ctx.noise.sendKey == c.noise.sendKey && t.ctx.noise.sendNonce == c.noise.sendNonce
    requires text == [(sw / 0x100) as u8, (sw % 0x100) as u8]
    ensures Carries(su, c.noise, Reject(su, t, sw).wire, text) && Reject(su, t, sw).ran == t.ran
  {
    hide EncryptWith, Carries, OnWire;
    assert ReplyBytes(Tasks.Reply([], sw)) == text;
    SentCarries(su, t.ctx.noise, text);
    SameSender(su, t.ctx.noise, c.noise, Reject(su, t, sw).wire, text);
  }

  lemma Served(su: Suite, t: Turn, c: Ctx, f: Frame, env: Env)
    requires t.ctx.Ok() && c.Ok() && t.ctx.noise.handshakeDone && t.ctx.id == c.id
    requires t.ctx.noise.sendKey == c.noise.sendKey && t.ctx.noise.sendNonce == c.noise.sendNonce
    requires Parse(t.ctx.held) == Ready(f) && (f.Sec() != 0 ==> |f.data| >= 4)
    ensures
      var r, s := Dispatch(t.pool, f, c.id, env).reply, Serve(su, t, f, env);
      s.ran == Some(f) && Carries(su, c.noise, s.wire, r.body + [(r.sw / 0x100) as u8, (r.sw % 0x100) as u8])
  {
    hide Parse, EncryptWith, Carries, OnWire, Dispatch, Frame.Sec, Frame.TotalSize, SeqNo;
    var r := Dispatch(t.pool, f, c.id, env).reply;
    SentCarries(su, t.ctx.noise, ReplyBytes(r));
    SameSender(su, t.ctx.noise, c.noise, Serve(su, t, f, env).wire, ReplyBytes(r));
  }

  lemma JudgeAnswers(su: Suite, c: Ctx, next: State, plain: bytes, pool: TaskPool.Slots, env: Env)
    requires c.Ok() && next.Ok() && |c.held| + |plain| <= MAX_FRAME && c.noise.handshakeDone
    requires next == c.noise.(recvNonce := Transport.Next(c.noise.recvNonce))
    ensures
      var b := c.held + plain;
      var t := Judge(su, Turn(c.(noise := next, held := b), pool, plain, None, None, []), env);
      match Parse(b)
      case NeedMore => t.wire == [] && t.ran == None && t.ctx.held == b
      case Failed(e) => Carries(su, c.noise, t.wire, if e == Version then [0x6e, 0x00] else [0x67, 0x00]) && t.ran == None
      case Ready(f) =>
        if !Admits(su, c, f) then
          Carries(su, c.noise, t.wire, if Accepts(su.compress, c.noise.recvKey, f, c.epoch) then [0x69, 0x85] else [0x69, 0x82])
          && t.ran == None
        else
          var r := Dispatch(pool, f, c.id, env).reply;
          && t.ran == Some(f)
          && Carries(su, c.noise, t.wire, r.body + [(r.sw / 0x100) as u8, (r.sw % 0x100) as u8])
  {
    hide Parse, Accepts, SeqNo, Dispatch, EncryptWith, Transport.Encrypt, Admits, Carries, Reject, Serve, Frame.Sec, Frame.TotalSize;
    var b := c.held + plain;
    var t := Turn(c.(noise := next, held := b), pool, plain, None, None, []);
    Rejected(su, t, c, SW_VERSION, [0x6e, 0x00]);
    Rejected(su, t, c, Tasks.SW_WRONG_LEN, [0x67, 0x00]);
    Rejected(su, t, c, Tasks.SW_ACCESS_DENIED, [0x69, 0x82]);
    Rejected(su, t, c, SW_REPLAY, [0x69, 0x85]);
    if Parse(b).Ready? {
      var f := Parse(b).frame;
      AdmitsIs(su, c, f);
      if Accepts(su.compress, c.noise.recvKey, f, c.epoch) { AcceptedHasSeqNo(su.compress, c.noise.recvKey, f, c.epoch); }
      if Admits(su, c, f) { Served(su, t, c, f, env); }
    }
  }

  /** Encrypting and decrypting leave the receiving key alone. */
  lemma KeyStays(su: Suite, st: State, plain: bytes, cipher: bytes)
    requires st.Ok()
    ensures Transport.Encrypt(su, st, plain).next.recvKey == st.recvKey && Transport.Decrypt(su, st, cipher).next.recvKey == st.recvKey
  {
    hide EncryptWith, DecryptWith;
  }

  /** The bytes held after a turn: what was held and received, less the dispatched frame. */
  predicate Account(before: Ctx, t: Turn) {
    match t.ran
    case None => t.ctx.last == before.last && t.effect.None? && t.ctx.held == before.held + t.plain
    case Some(f) => Parse(before.held + t.plain) == Ready(f) && t.ctx.held == (before.held + t.plain)[f.TotalSize()..]
  }

  /** A dispatched frame is plain, or its tag verified and its number is above the last one, which it becomes. */
  predicate Gate(su: Suite, before: Ctx, t: Turn) {
    t.ran.Some? ==>
      var f := t.ran.value;
      if f.Sec() == 0 then t.ctx.last == before.last
      else Accepts(su.compress, before.noise.recvKey, f, before.epoch) && |f.data| >= 4 && SeqNo(f) > before.last && t.ctx.last == SeqNo(f)
  }

  predicate SameSession(a: Ctx, b: Ctx) { b.id == a.id && b.epoch == a.epoch && b.noise.recvKey == a.noise.recvKey }

  lemma JudgeGates(su: Suite, before: Ctx, t: Turn, env: Env)
    requires t.ctx.Ok() && t.ran.None? && t.effect.None? && SameSession(before, t.ctx)
    requires t.ctx.last == before.last && t.ctx.held == before.held + t.plain
    ensures var r := Judge(su, t, env); Account(before, r) && Gate(su, before, r) && SameSession(before, r.ctx) && r.plain == t.plain
    ensures
      var r := Judge(su, t, env);
      if r.ran.None? then r.pool == t.pool
      else r.pool == Dispatch(t.pool, r.ran.value, t.ctx.id, env).slots && r.effect == Dispatch(t.pool, r.ran.value, t.ctx.id, env).effect
  {
    hide Parse, Dispatch, Accepts, SeqNo, ReplyBytes, Frame.TotalSize, Frame.WellFormed, Transport.Encrypt;
    match Parse(t.ctx.held) {
      case NeedMore =>
      case Failed(e) => KeyStays(su, t.ctx.noise, ReplyBytes(Tasks.Reply([], if e == Version then SW_VERSION else Tasks.SW_WRONG_LEN)), []);
      case Ready(f) =>
        KeyStays(su, t.ctx.noise, ReplyBytes(Dispatch(t.pool, f, t.ctx.id, env).reply), []);
        KeyStays(su, t.ctx.noise, ReplyBytes(Tasks.Reply([], Tasks.SW_ACCESS_DENIED)), []);
        KeyStays(su, t.ctx.noise, ReplyBytes(Tasks.Reply([], SW_REPLAY)), []);
        if f.Sec() != 0 && Accepts(su.compress, before.noise.recvKey, f, before.epoch) {
          AcceptedHasSeqNo(su.compress, before.noise.recvKey, f, before.epoch);
        }
    }
  }

  /** A turn of the loop accounts for every byte and lets only vouched frames through to the dispatcher. */
  lemma HandleGates(su: Suite, c: Ctx, pool: TaskPool.Slots, packet: Option<bytes>, env: Env)
    requires c.Ok()
    ensures var r := Handle(su, c, pool, packet, env); Account(c, r) && Gate(su, c, r) && SameSession(c, r.ctx)
    ensures
      var r := Handle(su, c, pool, packet, env);
      if r.ran.None? then r.pool == pool
      else r.pool == Dispatch(pool, r.ran.value, c.id, env).slots && r.effect == Dispatch(pool, r.ran.value, c.id, env).effect
  {
    hide Judge, Accepts, SeqNo, Transport.Decrypt, Dispatch, Parse;
    if packet.Some? {
      KeyStays(su, c.noise, [], packet.value);
      match Receive(su, c, packet.value) {
        case None =>
        case Some(d) => JudgeGates(su, c, Turn(c.(noise := d.next, held := c.held + d.plain), pool, d.plain, None, None, []), env);
      }
    }
    var r := Handle(su, c, pool, packet, env);
    if packet.None? || Receive(su, c, packet.value).None? {
      assert c.held + [] == c.held;
    }
  }

  lemma AcceptedHasSeqNo(c: Blake2b.Compression, key: bytes, f: Frame, epoch: bytes)
    requires Accepts(c, key, f, epoch)
    ensures |f.data| >= 4
  {
  }
}
