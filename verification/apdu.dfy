/** APDU frames: the parser, its buffer, and the printer it must undo. */
module Apdu {
  import opened Machine
  import opened Bits
  import opened ByteStrings

  const MAX_FRAME: nat := 65560

  datatype Frame = Frame(cla: u8, ins: u8, p1: u8, p2: u8, data: bytes, le: nat, tag: Option<bytes>) {
    function Sec(): nat { cla as int / 4 % 4 }
    predicate Extended() { cla / 2 % 2 == 1 }
    function TotalSize(): nat {
      (if Extended() then 7 else 5) + |data| + (if Extended() then 2 else 1) + (if Sec() != 0 then 16 else 0)
    }

    /** A frame some sender can build: version 0, reserved bit clear, lengths that fit their fields,
        an authentication tag exactly when the security level asks for one. */
    predicate WellFormed() {
      cla < 32 && cla % 2 == 0
      && |data| < (if Extended() then 0x1_0000 else 0x100)
      && le < (if Extended() then 0x1_0000 else 0x100)
      && (if Sec() != 0 then tag.Some? && |tag.value| == 16 else tag.None?)
    }
  }

  datatype Error = Version | Rfu | ExtLc | Length
  datatype Verdict = NeedMore | Failed(error: Error) | Ready(frame: Frame)

  /** apdu_parser_try_parse on the bytes received so far. */
  function Parse(b: bytes): (v: Verdict)
  {
    if |b| < 1 then NeedMore
    else
      var cla := b[0];
      if cla / 32 != 0 then Failed(Version)
      else if cla % 2 != 0 then Failed(Rfu)
      else
        var ext := cla / 2 % 2 == 1;
        var hdr := if ext then 7 else 5;
        if |b| < hdr then NeedMore
        else if ext && b[4] != 0 then Failed(ExtLc)
        else
          var dataLen := if ext then b[5] as int * 0x100 + b[6] as int else b[4] as int;
          var sec := cla / 4 % 4;
          var leSize := if ext then 2 else 1;
          var tagSize := if sec != 0 then 16 else 0;
          var total := hdr + dataLen + leSize + tagSize;
          if total > MAX_FRAME then Failed(Length)
          else if |b| < total then NeedMore
          else
            var leOffset := hdr + dataLen;
            var le := if ext then b[leOffset] as int * 0x100 + b[leOffset + 1] as int else b[leOffset] as int;
            Ready(Frame(cla, b[1], b[2], b[3], b[hdr..leOffset], le,
                        if tagSize > 0 then Some(b[leOffset + leSize..total]) else None))
  }

  /** The frame on the wire. */
  function Print(f: Frame): bytes
    requires f.WellFormed()
  {
    Header(f) + f.data + Expected(f) + (if f.tag.Some? then f.tag.value else [])
  }

  function Header(f: Frame): (h: bytes)
    requires f.WellFormed()
    ensures |h| == if f.Extended() then 7 else 5
  {
    [f.cla, f.ins, f.p1, f.p2]
    + (if f.Extended() then [0, (|f.data| / 0x100) as u8, (|f.data| % 0x100) as u8] else [|f.data| as u8])
  }

  function Expected(f: Frame): (e: bytes)
    requires f.WellFormed()
    ensures |e| == if f.Extended() then 2 else 1
  {
    if f.Extended() then [(f.le / 0x100) as u8, (f.le % 0x100) as u8] else [f.le as u8]
  }

  /** The offsets of the expected length and of the tag. */
  function HeaderSize(f: Frame): nat { if f.Extended() then 7 else 5 }

  function TagOffset(f: Frame): nat { HeaderSize(f) + |f.data| + (if f.Extended() then 2 else 1) }

  predicate HeaderAt(f: Frame, h: bytes) {
    |h| >= HeaderSize(f) && h[0] == f.cla && h[1] == f.ins && h[2] == f.p1 && h[3] == f.p2
    && (if f.Extended() then h[4] == 0 && |f.data| == h[5] as int * 0x100 + h[6] as int else |f.data| == h[4] as int)
  }

  predicate ExpectedAt(f: Frame, e: bytes) {
    if f.Extended() then |e| == 2 && f.le == e[0] as int * 0x100 + e[1] as int else |e| == 1 && f.le == e[0] as int
  }

  /** The fields of a frame lie at the front of a byte string. */
  predicate Laid(f: Frame, b: bytes) {
    |b| >= f.TotalSize() && TagOffset(f) <= f.TotalSize() && HeaderAt(f, b)
    && b[HeaderSize(f)..HeaderSize(f) + |f.data|] == f.data
    && ExpectedAt(f, b[HeaderSize(f) + |f.data|..TagOffset(f)])
    && b[TagOffset(f)..f.TotalSize()] == if f.tag.Some? then f.tag.value else []
  }

  /** Parsing finds exactly what is laid out. */
  lemma ParseLaid(f: Frame, b: bytes)
    requires f.WellFormed() && Laid(f, b)
    ensures Parse(b) == Ready(f) && f.TotalSize() <= MAX_FRAME
  {
    var e := b[HeaderSize(f) + |f.data|..TagOffset(f)];
    assert e[0] == b[HeaderSize(f) + |f.data|];
    assert f.Extended() ==> e[1] == b[HeaderSize(f) + |f.data| + 1];
  }

  lemma ReadyLaid(b: bytes)
    requires Parse(b).Ready?
    ensures var f := Parse(b).frame; f.WellFormed() && 0 < f.TotalSize() <= |b| && Laid(f, b)
  {
    var f := Parse(b).frame;
    assert f.TotalSize() == TagOffset(f) + (if f.Sec() != 0 then 16 else 0);
  }

  lemma HeaderOf(f: Frame, h: bytes)
    requires f.WellFormed() && |h| == HeaderSize(f)
    ensures HeaderAt(f, h) <==> h == Header(f)
  {
    hide Frame.Sec;
  }

  lemma ExpectedOf(f: Frame, e: bytes)
    requires f.WellFormed()
    ensures ExpectedAt(f, e) <==> e == Expected(f)
  {
    hide Frame.Sec;
  }

  lemma Pieces(h: bytes, d: bytes, e: bytes, g: bytes, rest: bytes)
    ensures
      var b, i, j := h + d + e + g + rest, |h| + |d|, |h| + |d| + |e|;
      b[..|h|] == h && b[|h|..i] == d && b[i..j] == e && b[j..j + |g|] == g
  {
  }

  lemma HeaderPrefix(f: Frame, b: bytes)
    requires |b| >= HeaderSize(f)
    ensures HeaderAt(f, b) <==> HeaderAt(f, b[..HeaderSize(f)])
  {
    hide Frame.Sec;
  }

  lemma PrintedIsLaid(f: Frame, rest: bytes)
    requires f.WellFormed()
    ensures |Print(f)| == f.TotalSize() && Laid(f, Print(f) + rest)
  {
    hide Header, Expected, HeaderAt, ExpectedAt;
    var g, b := if f.tag.Some? then f.tag.value else [], Print(f) + rest;
    Pieces(Header(f), f.data, Expected(f), g, rest);
    HeaderOf(f, Header(f));
    HeaderPrefix(f, b);
    ExpectedOf(f, Expected(f));
  }

  lemma LaidIsPrinted(f: Frame, b: bytes)
    requires f.WellFormed() && Laid(f, b)
    ensures b[..f.TotalSize()] == Print(f)
  {
    hide Header, Expected, HeaderAt, ExpectedAt, HeaderSize, TagOffset, Frame.TotalSize, Frame.Sec, Frame.Extended;
    var i, k, n := HeaderSize(f), TagOffset(f), f.TotalSize();
    var j := i + |f.data|;
    OffsetsOrdered(f);
    HeaderPrefix(f, b);
    HeaderOf(f, b[..i]);
    ExpectedOf(f, b[j..k]);
    Cut(b, i, j, k, n);
  }

  lemma OffsetsOrdered(f: Frame)
    ensures HeaderSize(f) + |f.data| <= TagOffset(f) <= f.TotalSize()
  {
  }

  lemma Cut(t: bytes, i: nat, j: nat, k: nat, n: nat)
    requires i <= j <= k <= n <= |t|
    ensures t[..n] == t[..i] + t[i..j] + t[j..k] + t[k..n]
  {
  }

  /** Parsing undoes printing, whatever follows. */
  lemma ParsePrint(f: Frame, rest: bytes)
    requires f.WellFormed()
    ensures |Print(f)| == f.TotalSize() <= MAX_FRAME
    ensures Parse(Print(f) + rest) == Ready(f)
  {
    hide Parse, Print, Laid;
    PrintedIsLaid(f, rest);
    ParseLaid(f, Print(f) + rest);
  }

  /** A ready frame is well formed, and its printed form is exactly the bytes it occupies. */
  lemma ReadyIsPrinted(b: bytes)
    requires Parse(b).Ready?
    ensures var f := Parse(b).frame; f.WellFormed() && 0 < f.TotalSize() <= |b| && b[..f.TotalSize()] == Print(f)
  {
    hide Parse, Print, Laid;
    ReadyLaid(b);
    LaidIsPrinted(Parse(b).frame, b);
  }

  /** Ready and error verdicts survive any appended bytes. */
  lemma VerdictStable(b: bytes, more: bytes)
    requires Parse(b) != NeedMore
    ensures Parse(b + more) == Parse(b)
  {
    if Parse(b).Ready? {
      var f := Parse(b).frame;
      ReadyIsPrinted(b);
      ParsePrint(f, b[f.TotalSize()..] + more);
      assert b + more == Print(f) + (b[f.TotalSize()..] + more);
    }
  }

  /** The verdict on any bytes, from the bits of the class byte (7 to 5 version, 3 and 2 security, 1 extended, 0 reserved) and the
      lengths in network byte order. */
  lemma VerdictTable(b: bytes)
    ensures |b| == 0 ==> Parse(b) == NeedMore
    ensures
      |b| > 0 ==>
        var v, cla := Parse(b), b[0] as nat;
        var version := Bit(cla, 5) || Bit(cla, 6) || Bit(cla, 7);
        var sound, extended, tagged := !version && !Bit(cla, 0), Bit(cla, 1), Bit(cla, 2) || Bit(cla, 3);
        var header := if extended then 7 else 5;
        && (v == Failed(Version) <==> version)
        && (v == Failed(Rfu) <==> !version && Bit(cla, 0))
        && (v == Failed(ExtLc) <==> sound && extended && |b| >= 7 && b[4] != 0)
        && (sound && |b| < header ==> v == NeedMore)
        && (sound && |b| >= header && (extended ==> b[4] == 0) ==>
              var le := header + BeNat(if extended then b[5..7] else b[4..5]);
              var tag := if extended then le + 2 else le + 1;
              var end := if tagged then tag + 16 else tag;
              if |b| < end then v == NeedMore
              else
                v.Ready? && var f := v.frame;
                  && f.cla == b[0] && f.ins == b[1] && f.p1 == b[2] && f.p2 == b[3] && f.data == b[header..le]
                  && f.le == BeNat(b[le..tag]) && f.tag == (if tagged then Some(b[tag..end]) else None) && f.TotalSize() == end
                  && f.Sec() == (if Bit(cla, 3) then 2 else 0) + (if Bit(cla, 2) then 1 else 0))
  {
    hide Bit, BeNat;
    if |b| > 0 {
      ClassBits(b[0]);
      if |b| >= 7 { BeNatShort(b[5..7]); }
      if |b| >= 5 {
        BeNatShort(b[4..5]);
        var extended := b[0] / 2 % 2 == 1;
        if (extended ==> |b| >= 7) {
          var le := if extended then 7 + b[5] as int * 0x100 + b[6] as int else 5 + b[4] as int;
          if extended && le + 2 <= |b| { BeNatShort(b[le..le + 2]); }
          if !extended && le + 1 <= |b| { BeNatShort(b[le..le + 1]); }
        }
      }
    }
  }

  lemma ClassBits(cla: u8)
    ensures cla / 32 != 0 <==> Bit(cla as nat, 5) || Bit(cla as nat, 6) || Bit(cla as nat, 7)
    ensures cla % 2 != 0 <==> Bit(cla as nat, 0)
    ensures cla / 2 % 2 == 1 <==> Bit(cla as nat, 1)
    ensures cla as int / 4 % 4 == (if Bit(cla as nat, 3) then 2 else 0) + (if Bit(cla as nat, 2) then 1 else 0)
    ensures cla / 4 % 4 != 0 <==> Bit(cla as nat, 2) || Bit(cla as nat, 3)
  {
    hide Bit;
    var c := cla as nat;
    LowBit(c);
    BitFrom(c, 0, 1); BitFrom(c, 0, 2); BitFrom(c, 1, 2);
    BitFrom(c, 0, 5); BitFrom(c, 1, 5); BitFrom(c, 2, 5);
    FewBits(c / 2); FewBits(c / 4); FewBits(c / 32);
  }

  /** A bit of a quotient by 2, 4 or 32. */
  lemma BitFrom(c: nat, i: nat, k: nat)
    requires k in {1, 2, 5}
    ensures Bit(c, i + k) <==> Bit(c / (if k == 1 then 2 else if k == 2 then 4 else 32), i)
  {
    hide Bit;
    HighBit(c, i + k);
    if k >= 2 {
      HighBit(c / 2, i + k - 1);
      assert c / 2 / 2 == c / 4;
      if k == 5 {
        HighBit(c / 4, i + 3);
        HighBit(c / 8, i + 2);
        HighBit(c / 16, i + 1);
        assert c / 4 / 2 == c / 8 && c / 8 / 2 == c / 16 && c / 16 / 2 == c / 32;
      }
    }
  }

  lemma FewBits(q: nat)
    ensures Bit(q, 0) <==> q % 2 == 1
    ensures q % 4 == (if Bit(q, 1) then 2 else 0) + (if Bit(q, 0) then 1 else 0)
    ensures q < 8 ==> (q != 0 <==> Bit(q, 0) || Bit(q, 1) || Bit(q, 2))
  {
    assert Pow2(0) == 1 && Pow2(1) == 2 && Pow2(2) == 4;
  }

  /** The buffer holds the largest frame there is: extended header, data, expected length and tag. */
  lemma LargestFrame()
    ensures MAX_FRAME == 7 + 0xffff + 2 + 16
  {
  }

  /** No input reaches the length error, and an incomplete frame always leaves room in the buffer. */
  lemma LengthNeverFails(b: bytes)
    ensures Parse(b) != Failed(Length)
    ensures Parse(b) == NeedMore ==> |b| < MAX_FRAME
  {
  }

  /** What a receiver that keeps parsing makes of a byte string: the frames, the unparsed rest, and the verdict on it. */
  datatype Drained = Drained(frames: seq<Frame>, rest: bytes, verdict: Verdict)

  function Drain(b: bytes): (d: Drained)
    decreases |b|
  {
    match Parse(b)
    case Ready(f) =>
      ReadyIsPrinted(b);
      var d := Drain(b[f.TotalSize()..]);
      d.(frames := [f] + d.frames)
    case v => Drained([], b, v)
  }

  function PrintAll(fs: seq<Frame>): bytes
    requires forall f | f in fs :: f.WellFormed()
  {
    if fs == [] then [] else Print(fs[0]) + PrintAll(fs[1..])
  }

  /** Draining printed frames takes off the first one. */
  lemma DrainFirst(fs: seq<Frame>, rest: bytes)
    requires fs != [] && forall f | f in fs :: f.WellFormed()
    ensures var d := Drain(PrintAll(fs[1..]) + rest); Drain(PrintAll(fs) + rest) == d.(frames := [fs[0]] + d.frames)
  {
    hide Parse, Print, Frame.WellFormed, Frame.TotalSize;
    var b, tail := PrintAll(fs) + rest, PrintAll(fs[1..]) + rest;
    assert b == Print(fs[0]) + tail;
    ParsePrint(fs[0], tail);
    assert b[fs[0].TotalSize()..] == tail;
  }

  /** Draining recovers the frames and stops where the first verdict other than ready falls. */
  lemma {:induction false} DrainPrintAll(fs: seq<Frame>, rest: bytes)
    requires forall f | f in fs :: f.WellFormed()
    requires !Parse(rest).Ready?
    ensures Drain(PrintAll(fs) + rest) == Drained(fs, rest, Parse(rest))
    decreases |fs|
  {
    hide Parse, Print, PrintAll, Frame.WellFormed;
    if fs == [] {
      NothingPrinted(rest);
    } else {
      DrainFirst(fs, rest);
      DrainPrintAll(fs[1..], rest);
    }
  }

  lemma NothingPrinted(rest: bytes)
    ensures PrintAll([]) + rest == rest
  {
  }

  lemma {:induction false} PrintAllPush(fs: seq<Frame>, f: Frame)
    requires f.WellFormed() && forall g | g in fs :: g.WellFormed()
    ensures PrintAll(fs + [f]) == PrintAll(fs) + Print(f)
    decreases |fs|
  {
    hide Print, Frame.WellFormed;
    if fs == [] {
      assert fs + [f] == [f] && [f][1..] == [];
      assert PrintAll([f]) == Print(f) + PrintAll([f][1..]);
    } else {
      PrintAllPush(fs[1..], f);
      assert (fs + [f])[1..] == fs[1..] + [f];
    }
  }

  /** Draining printed frames followed by anything gives those frames first. */
  lemma {:induction false} DrainStartsWith(fs: seq<Frame>, rest: bytes)
    requires forall f | f in fs :: f.WellFormed()
    ensures Drain(PrintAll(fs) + rest).frames == fs + Drain(rest).frames
    decreases |fs|
  {
    hide Parse, Print, PrintAll, Drain, Frame.WellFormed;
    if fs == [] {
      NothingPrinted(rest);
    } else {
      DrainFirst(fs, rest);
      DrainStartsWith(fs[1..], rest);
    }
  }

  /** Draining a prefix first and then the rest with what arrives later gives the same frames. */
  lemma {:induction false} DrainInTwo(a: bytes, b: bytes)
    requires Drain(a).verdict == NeedMore
    ensures var d, e := Drain(a), Drain(Drain(a).rest + b); Drain(a + b) == Drained(d.frames + e.frames, e.rest, e.verdict)
    decreases |a|
  {
    hide Parse, Print, Frame.WellFormed, Frame.TotalSize;
    if Parse(a).Ready? {
      var f := Parse(a).frame;
      ReadyIsPrinted(a);
      VerdictStable(a, b);
      assert (a + b)[f.TotalSize()..] == a[f.TotalSize()..] + b;
      DrainInTwo(a[f.TotalSize()..], b);
    }
  }

  /** Feeding packets one by one, draining after each; an error verdict ends the feed. */
  function Feed(held: bytes, packets: seq<bytes>): Drained
    decreases |packets|
  {
    if packets == [] then Drained([], held, NeedMore)
    else
      var d := Drain(held + packets[0]);
      if d.verdict != NeedMore then d
      else
        var e := Feed(d.rest, packets[1..]);
        e.(frames := d.frames + e.frames)
  }

  function Joined(packets: seq<bytes>): bytes {
    if packets == [] then [] else packets[0] + Joined(packets[1..])
  }

  /** Any packetisation of a well-formed frame list is parsed back into exactly that list, with nothing left over. */
  lemma {:induction false} AnyPackets(fs: seq<Frame>, packets: seq<bytes>)
    requires forall f | f in fs :: f.WellFormed()
    requires Joined(packets) == PrintAll(fs)
    ensures Feed([], packets) == Drained(fs, [], NeedMore)
  {
    DrainPrintAll(fs, []);
    assert PrintAll(fs) + [] == PrintAll(fs) && [] + Joined(packets) == Joined(packets);
    assert Parse([]) == NeedMore;
    FeedIsDrain([], packets);
  }

  /** Feeding packets one by one gives the frames and the verdict of draining the whole input at once, for every byte
      string and every way of cutting it; without an error the rest is the same too. */
  lemma {:induction false} FeedIsDrain(held: bytes, packets: seq<bytes>)
    requires Parse(held) == NeedMore
    ensures
      var fed, all := Feed(held, packets), Drain(held + Joined(packets));
      fed.frames == all.frames && fed.verdict == all.verdict && (all.verdict == NeedMore ==> fed.rest == all.rest)
    decreases |packets|
  {
    hide Parse;
    if packets == [] {
      assert held + Joined(packets) == held;
    } else {
      var a := held + packets[0];
      assert held + Joined(packets) == a + Joined(packets[1..]);
      RestNeedsMore(a);
      if Drain(a).verdict == NeedMore {
        DrainInTwo(a, Joined(packets[1..]));
        FeedIsDrain(Drain(a).rest, packets[1..]);
      } else {
        ErrorFixesDrain(a, Joined(packets[1..]));
      }
    }
  }

  /** Once a prefix drains to an error, the frames and the verdict of the whole are those of the prefix. */
  lemma {:induction false} ErrorFixesDrain(a: bytes, b: bytes)
    requires Drain(a).verdict != NeedMore
    ensures Drain(a + b).frames == Drain(a).frames && Drain(a + b).verdict == Drain(a).verdict
    decreases |a|
  {
    hide Parse, Print, Frame.WellFormed, Frame.TotalSize;
    VerdictStable(a, b);
    if Parse(a).Ready? {
      var f := Parse(a).frame;
      ReadyIsPrinted(a);
      assert (a + b)[f.TotalSize()..] == a[f.TotalSize()..] + b;
      ErrorFixesDrain(a[f.TotalSize()..], b);
    }
  }

  lemma {:induction false} RestNeedsMore(b: bytes)
    ensures Parse(Drain(b).rest) == Drain(b).verdict && !Drain(b).verdict.Ready?
    decreases |b|
  {
    hide Parse, Print, Frame.WellFormed, Frame.TotalSize;
    if Parse(b).Ready? {
      ReadyIsPrinted(b);
      RestNeedsMore(b[Parse(b).frame.TotalSize()..]);
    }
  }

  lemma SliceOfTake(b: bytes, n: nat, lo: nat, hi: nat)
    requires lo <= hi <= n <= |b|
    ensures b[..n][lo..hi] == b[lo..hi]
  {
  }

  /** One parser slot: a receive buffer filled from the front. */
  class Parser {
    const buf: array<u8>
    var filled: nat
    var inUse: bool

    ghost predicate Valid()
      reads this
    {
      buf.Length == MAX_FRAME && filled <= MAX_FRAME
    }

    /** The bytes received and not yet consumed. */
    function Held(): bytes
      requires Valid()
      reads this, buf
    {
      buf[..filled]
    }

    constructor ()
      ensures Valid() && !inUse && Held() == [] && fresh(buf)
    {
      buf := new u8[MAX_FRAME](_ => 0);
      filled := 0;
      inUse := false;
    }

    /** What apdu_parser_recv_ptr offers: the room behind the held bytes. */
    function Room(): nat
      requires Valid()
      reads this
    {
      MAX_FRAME - filled
    }

    /** A receive of at most Room() bytes into the buffer, followed by apdu_parser_recv_commit. */
    method Receive(x: bytes)
      requires Valid() && |x| <= Room()
      modifies this`filled, buf
      ensures Valid() && Held() == old(Held()) + x
    {
      ghost var held := buf[..filled];
      for i := 0 to |x|
        invariant filled == old(filled) && buf[..filled + i] == held + x[..i]
      {
        buf[filled + i] := x[i];
        assert buf[..filled + i + 1] == held + x[..i] + [x[i]];
      }
      filled := filled + |x|;
    }

    /** apdu_parser_try_parse, field by field from the buffer. */
    method TryParse() returns (v: Verdict)
      requires Valid()
      ensures v == Parse(Held())
    {
      if filled < 1 {
        return NeedMore;
      }
      var cla := buf[0];
      if cla / 32 != 0 {
        return Failed(Version);
      }
      if cla % 2 != 0 {
        return Failed(Rfu);
      }
      var ext := cla / 2 % 2 == 1;
      var hdr := if ext then 7 else 5;
      if filled < hdr {
        return NeedMore;
      }
      var dataLen;
      if !ext {
        dataLen := buf[4] as int;
      } else {
        if buf[4] != 0 {
          return Failed(ExtLc);
        }
        dataLen := buf[5] as int * 0x100 + buf[6] as int;
      }
      var sec := cla / 4 % 4;
      var leSize, tagSize := if ext then 2 else 1, if sec != 0 then 16 else 0;
      var total := hdr + dataLen + leSize + tagSize;
      if total > MAX_FRAME {
        return Failed(Length);
      }
      if filled < total {
        return NeedMore;
      }
      var leOffset := hdr + dataLen;
      var le := if ext then buf[leOffset] as int * 0x100 + buf[leOffset + 1] as int else buf[leOffset] as int;
      var tag := if tagSize > 0 then Some(buf[leOffset + leSize..total]) else None;
      v := Ready(Frame(cla, buf[1], buf[2], buf[3], buf[hdr..leOffset], le, tag));
      assert buf[..filled] == buf[..][..filled] && buf[hdr..leOffset] == buf[..][hdr..leOffset];
      assert buf[leOffset + leSize..total] == buf[..][leOffset + leSize..total];
      SliceOfTake(buf[..], filled, hdr, leOffset);
      SliceOfTake(buf[..], filled, leOffset + leSize, total);
    }

    /** apdu_parser_consume: drops the frame's bytes and moves the rest to the front. */
    method Consume(f: Frame)
      requires Valid()
      modifies this`filled, buf
      ensures Valid()
      ensures Held() == if f.TotalSize() >= old(filled) then [] else old(Held())[f.TotalSize()..]
    {
      if f.TotalSize() >= filled {
        filled := 0;
      } else {
        ghost var held := buf[..filled];
        var n, remaining := f.TotalSize(), filled - f.TotalSize();
        for i := 0 to remaining  // memmove towards the front
          invariant filled == old(filled) && (forall k | 0 <= k < i :: buf[k] == held[n + k])
          invariant forall k | i <= k < filled :: buf[k] == held[k]
        {
          buf[i] := buf[n + i];
        }
        filled := remaining;
        assert buf[..filled] == held[n..];
      }
    }
  }
}
