/** Authentication tags on signed frames: the server's check and the client's construction. */
module Auth {
  import opened Machine
  import opened ByteStrings
  import opened Apdu
  import opened Blake2b
  import opened Hmac
  import opened Verify
  import opened Arithmetic

  /** Header, epoch, and the data field, which starts with the sequence number. */
  function MacInput(f: Frame, epoch: bytes): bytes {
    [f.cla, f.ins, f.p1, f.p2, (|f.data| % 0x100) as u8] + epoch + f.data
  }

  /** Frames the check gets as far as hashing: a sequence number and at most 255 bytes of payload. */
  predicate Reached(f: Frame) {
    f.tag.Some? && 4 <= |f.data| <= 259
  }

  function TagFor(c: Compression, key: bytes, f: Frame, epoch: bytes): (t: bytes)
    ensures |t| == 16
  {
    Digest(c, key, MacInput(f, epoch))[..16]
  }

  /** A frame is accepted when it is reached and carries the tag of its own contents. */
  predicate Accepts(c: Compression, key: bytes, f: Frame, epoch: bytes) {
    Reached(f) && f.tag.value == TagFor(c, key, f, epoch)
  }

  /** verify_auth_tag: the message buffer is assembled piece by piece, hashed, and compared. */
  method VerifyAuthTag(c: Compression, key: bytes, f: Frame, epoch: bytes) returns (ok: bool)
    requires |epoch| == 4 && f.WellFormed()
    ensures ok == Accepts(c, key, f, epoch)
  {
    hide Digest, Verify16;
    if |f.data| < 4 || f.tag.None? {
      return false;
    }
    var payloadLen := |f.data| - 4;
    if payloadLen > 255 {
      return false;
    }
    var msg := new u8[268](_ => 0);
    Put(msg, 0, [f.cla, f.ins, f.p1, f.p2, (|f.data| % 0x100) as u8]);
    Put(msg, 5, epoch);
    Put(msg, 9, f.data[..4]);
    Put(msg, 13, f.data[4..]);
    assert f.data == f.data[..4] + f.data[4..];
    assert msg[..13 + payloadLen] == MacInput(f, epoch);
    var digest := HmacBlake2b(c, key, msg[..13 + payloadLen]);
    ok := Verify16(digest[..16], f.tag.value) == 0;
  }

  /** memcpy. */
  method Put(a: array<u8>, off: nat, x: bytes)
    requires off + |x| <= a.Length
    modifies a
    ensures a[..off + |x|] == old(a[..off]) + x
  {
    ghost var head := a[..off];
    for i := 0 to |x|
      invariant a[..off + i] == head + x[..i]
    {
      a[off + i] := x[i];
      assert a[..off + i + 1] == head + x[..i] + [x[i]];
    }
  }

  /** The check in full, for any string laid out as the tag's input: class, instruction, both parameters, the low byte of the
      length, the epoch, and the data field with its sequence number. */
  lemma AcceptsIs(c: Compression, key: bytes, f: Frame, epoch: bytes, m: bytes)
    requires |epoch| == 4 && |m| == 9 + |f.data|
    requires m[0] == f.cla && m[1] == f.ins && m[2] == f.p1 && m[3] == f.p2 && m[4] as int == |f.data| % 0x100
    requires m[5..9] == epoch && m[9..] == f.data
    ensures Accepts(c, key, f, epoch) <==> f.tag.Some? && 4 <= |f.data| <= 4 + 255 && f.tag.value == Digest(c, key, m)[..16]
  {
    hide Digest;
    assert m == MacInput(f, epoch);
  }

  /** Two frames the check reaches have equal tag inputs exactly when header, epoch and data field are equal, extended frames
      with their truncated length byte included; only the expected length is left out. */
  lemma MacInputInjective(f: Frame, g: Frame, e: bytes, e': bytes)
    requires Reached(f) && Reached(g) && |e| == |e'| == 4
    ensures
      MacInput(f, e) == MacInput(g, e') <==>
        f.cla == g.cla && f.ins == g.ins && f.p1 == g.p1 && f.p2 == g.p2 && e == e' && f.data == g.data
  {
    var a, b := MacInput(f, e), MacInput(g, e');
    assert a[..5] == [f.cla, f.ins, f.p1, f.p2, (|f.data| % 0x100) as u8];
    assert b[..5] == [g.cla, g.ins, g.p1, g.p2, (|g.data| % 0x100) as u8];
    assert a[5..9] == e && b[5..9] == e' && a[9..] == f.data && b[9..] == g.data;
    if a == b {
      assert a[0] == b[0] && a[1] == b[1] && a[2] == b[2] && a[3] == b[3];
    }
  }

  // ---- The client ----

  /** Unpacking a sequence number and packing it again gives the bytes it came from. */
  lemma PackUnpack(b: bytes)
    requires |b| >= 4
    ensures Big32(Read32(b)) == b[..4]
  {
    hide Big32;
    PackDigits(b[0] as int, b[1] as int, b[2] as int, b[3] as int, Read32(b));
    assert b[..4] == [b[0], b[1], b[2], b[3]];
  }

  lemma PackDigits(a: nat, b: nat, c: nat, d: nat, x: u32)
    requires a < 0x100 && b < 0x100 && c < 0x100 && d < 0x100
    requires x as int == a * 0x100_0000 + b * 0x1_0000 + c * 0x100 + d
    ensures Big32(x) == [a as u8, b as u8, c as u8, d as u8]
  {
    Remainder(x as int, a, b * 0x1_0000 + c * 0x100 + d, 0x100_0000);
    Remainder(x as int, a * 0x100 + b, c * 0x100 + d, 0x1_0000);
    Remainder(x as int, a * 0x1_0000 + b * 0x100 + c, d, 0x100);
    Remainder(a * 0x100 + b, a, b, 0x100);
    Remainder(a * 0x1_0000 + b * 0x100 + c, a * 0x100 + b, c, 0x100);
  }

  /** compute_auth_tag. */
  function ComputeAuthTag(c: Compression, sendKey: bytes, epoch: bytes, cla: u8, ins: u8, p1: u8, p2: u8, lc: u8,
                          seqNo: u32, payload: bytes): (t: bytes)
    ensures |t| == 16
  {
    Digest(c, sendKey, [cla, ins, p1, p2, lc] + epoch + Big32(seqNo) + payload)[..16]
  }

  /** The frame send_apdu puts on the wire; Python rejects longer data and signed data without a sequence number. */
  function ClientFrame(c: Compression, sendKey: bytes, epoch: bytes, cla: u8, ins: u8, data: bytes): bytes
    requires |data| <= 255 && (cla / 4 % 4 != 0 ==> |data| >= 4)
  {
    var lc := |data| as u8;
    var frame := [cla, ins, 0, 0, lc] + data + [0];
    if cla / 4 % 4 != 0
    then frame + ComputeAuthTag(c, sendKey, epoch, cla, ins, 0, 0, lc, Read32(data), data[4..])
    else frame
  }

  /** Every standard frame the client builds is parsed into what was asked for, and, if signed, accepted under
      the same key and epoch. */
  lemma ClientFrameAccepted(c: Compression, key: bytes, epoch: bytes, cla: u8, ins: u8, data: bytes, rest: bytes)
    requires |epoch| == 4 && |data| <= 255 && (cla / 4 % 4 != 0 ==> |data| >= 4)
    requires cla < 32 && cla % 2 == 0 && cla / 2 % 2 == 0
    ensures
      var v := Parse(ClientFrame(c, key, epoch, cla, ins, data) + rest);
      v.Ready? && v.frame.data == data && v.frame.cla == cla && v.frame.ins == ins && v.frame.p1 == 0 && v.frame.p2 == 0 && v.frame.le == 0
      && (if cla / 4 % 4 != 0 then Accepts(c, key, v.frame, epoch) else v.frame.tag == None)
  {
    hide Parse, Digest;
    var signed := cla / 4 % 4 != 0;
    var bare := Frame(cla, ins, 0, 0, data, 0, None);
    var f := if signed then bare.(tag := Some(TagFor(c, key, bare, epoch))) else bare;
    if signed {
      PackUnpack(data);
      assert data == data[..4] + data[4..];
      assert [cla, ins, 0, 0, |data| as u8] + epoch + Big32(Read32(data)) + data[4..] == MacInput(bare, epoch);
      assert MacInput(f, epoch) == MacInput(bare, epoch);
    }
    assert f.WellFormed();
    assert ClientFrame(c, key, epoch, cla, ins, data) == Print(f);
    ParsePrint(f, rest);
  }
}
