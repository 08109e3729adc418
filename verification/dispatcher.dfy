/** The instruction table, and the handler that signals processes. */
module Dispatcher {
  import opened Machine
  import opened ByteStrings
  import opened Bits
  import opened Apdu
  import opened TaskPool
  import opened Tasks

  const CORE_CAPS_BITMAP: nat := 0x0002_000f
  const EXT_CAPS_BITMAP: nat := 0x0000_0005
  const SW_NOT_FOUND: u16 := 0x6a81
  const SW_NOT_SUPPORTED: u16 := 0x6d00

  /** (x >> i) & 1. */
  predicate Bit(x: nat, i: nat) {
    if i == 0 then x % 2 == 1 else Bit(x / 2, i - 1)
  }

  /** in_caps_bitmap. */
  predicate InCaps(ins: u8) {
    if ins <= 0x1f then Bit(CORE_CAPS_BITMAP, ins as nat)
    else if ins <= 0x3f then Bit(EXT_CAPS_BITMAP, ins as nat - 0x20)
    else false
  }

  datatype Handler = SysCaps | SysHello | SysStatus | SysProcs | TaskQuery | ProcThrottle | SvcRestart

  /** core_table and standard_table. */
  function HandlerOf(ins: u8): Option<Handler> {
    if ins == 0x00 then Some(SysCaps)
    else if ins == 0x01 then Some(SysHello)
    else if ins == 0x02 then Some(SysStatus)
    else if ins == 0x03 then Some(SysProcs)
    else if ins == 0x11 then Some(TaskQuery)
    else if ins == 0x20 then Some(ProcThrottle)
    else if ins == 0x22 then Some(SvcRestart)
    else None
  }

  lemma {:induction false} NoBitAbove(x: nat, i: nat, n: nat)
    requires x < Pow2(n) && n <= i
    ensures !Bit(x, i)
    decreases i
  {
    if i > 0 {
      NoBitAbove(x / 2, i - 1, if n == 0 then 0 else n - 1);
    }
  }

  lemma BitmapSizes()
    ensures CORE_CAPS_BITMAP < Pow2(18) && EXT_CAPS_BITMAP < Pow2(3)
  {
    assert Pow2(9) == 0x200;
  }

  /** The bitmap lists exactly the instructions that have a handler, so "not supported" is never answered. */
  lemma CapsAreHandlers(ins: u8)
    ensures InCaps(ins) <==> HandlerOf(ins).Some?
  {
    hide Bit, Pow2;
    BitmapSizes();
    if 0x11 < ins <= 0x1f {
      NoBitAbove(CORE_CAPS_BITMAP, ins as nat, 18);
    } else if 0x22 < ins <= 0x3f {
      NoBitAbove(EXT_CAPS_BITMAP, ins as nat - 0x20, 3);
    } else if ins <= 0x11 {
      LowBits(ins as nat);
    } else if 0x20 <= ins <= 0x22 {
      ExtBits();
    }
  }

  lemma ExtBits()
    ensures Bit(5, 0) && !Bit(5, 1) && Bit(5, 2)
  {
  }

  lemma LowBits(i: nat)
    requires i <= 17
    ensures Bit(0x2000f, i) <==> i in {0, 1, 2, 3, 17}
  {
    assert Bit(0x2000f, 0) && Bit(0x2000f, 1) && Bit(0x2000f, 2) && Bit(0x2000f, 3);
    if 4 <= i {
      assert Bit(0x2000f, i) == Bit(0x10007, i - 1) == Bit(0x8003, i - 2) == Bit(0x4001, i - 3) == Bit(0x2000, i - 4);
      OneBit(i - 4, 13);
    }
  }

  lemma {:induction false} OneBit(i: nat, n: nat)
    ensures Bit(Pow2(n), i) <==> i == n
  {
    if n == 0 {
      if i > 0 { NoBitAbove(1 / 2, i - 1, 0); }
    } else if i > 0 {
      OneBit(i - 1, n - 1);
    }
  }

  // ---- Signalling a process ----

  /** What kill returns. */
  datatype KillResult = Delivered | NoSuchProcess | NotPermitted | KillError

  datatype Effect = Signal(target: int, resume: bool) | RunRestart(service: bytes)

  /** The cast of the requested process number to a signed 32-bit pid_t. */
  function Pid(x: u32): int {
    if x < 0x8000_0000 then x as int else x as int - 0x1_0000_0000
  }

  /** What a frame may cause: nothing, unless it is signed and complete. */
  function Requested(f: Frame): Option<Effect> {
    if f.Sec() != SIGNED then None
    else if f.ins == 0x20 && |f.data| >= 8 && f.p1 <= 1 && Read32(f.data[4..]) != 0 then Some(Signal(Pid(Read32(f.data[4..])), f.p1 == 1))
    else if f.ins == 0x22 && |f.data| >= 5 && NameValid(f.data[4..]) then Some(RunRestart(f.data[4..]))
    else None
  }

  /** handler_proc_throttle.  Routed to by its instruction it sends exactly the signal the frame asks for, and each status
      word has one meaning. */
  method HandlerProcThrottle(f: Frame, kill: KillResult) returns (reply: Reply, effect: Option<Effect>)
    ensures (reply, effect) == Throttle(f, kill)
    ensures f.ins == 0x20 ==> effect == Requested(f)
    ensures reply.body == [] && (reply.sw == SW_OK <==> effect.Some? && kill.Delivered?)
    ensures reply.sw == SW_ACCESS_DENIED <==> f.Sec() != SIGNED || (effect.Some? && kill.NotPermitted?)
    ensures reply.sw == SW_WRONG_LEN <==> f.Sec() == SIGNED && |f.data| < 8
    ensures reply.sw == SW_SYS_ERR <==> effect.Some? && kill.KillError?
    ensures effect.None? <==> f.Sec() != SIGNED || |f.data| < 8 || f.p1 > 1 || f.data[4..8] == [0, 0, 0, 0]
  {
    if f.Sec() != SIGNED {
      return Reply([], SW_ACCESS_DENIED), None;
    }
    if |f.data| < 8 {
      return Reply([], SW_WRONG_LEN), None;
    }
    if f.p1 != 0 && f.p1 != 1 {
      return Reply([], SW_WRONG_DATA), None;
    }
    var pid := Read32(f.data[4..]);
    assert f.data[4..8] == [f.data[4], f.data[5], f.data[6], f.data[7]];
    if pid == 0 {
      return Reply([], SW_WRONG_DATA), None;
    }
    effect := Some(Signal(Pid(pid), f.p1 == 1));
    match kill {
      case Delivered => reply := Reply([], SW_OK);
      case NoSuchProcess => reply := Reply([], SW_WRONG_DATA);
      case NotPermitted => reply := Reply([], SW_ACCESS_DENIED);
      case KillError => reply := Reply([], SW_SYS_ERR);
    }
  }

  function Throttle(f: Frame, kill: KillResult): (Reply, Option<Effect>) {
    if f.Sec() != SIGNED then (Reply([], SW_ACCESS_DENIED), None)
    else if |f.data| < 8 then (Reply([], SW_WRONG_LEN), None)
    else if f.p1 > 1 || Read32(f.data[4..]) == 0 then (Reply([], SW_WRONG_DATA), None)
    else
      (Reply([], match kill
                 case Delivered => SW_OK
                 case NoSuchProcess => SW_WRONG_DATA
                 case NotPermitted => SW_ACCESS_DENIED
                 case KillError => SW_SYS_ERR),
       Some(Signal(Pid(Read32(f.data[4..])), f.p1 == 1)))
  }

  // ---- Dispatch ----

  /** What the outside supplies while a frame is handled: the clock, the results of fork, rand and kill, the
      answer of the handlers that only read system information, and whether the reply could be sent. */
  datatype Env = Env(now: int, fork: Fork, random: u16, kill: KillResult, info: Reply, sent: bool)

  datatype Dispatched = Dispatched(slots: Slots, reply: Reply, effect: Option<Effect>)

  /** dispatch. */
  function Dispatch(s: Slots, f: Frame, session: u16, env: Env): Dispatched {
    if !InCaps(f.ins) then Dispatched(s, Reply([], SW_NOT_FOUND), None)
    else
      match HandlerOf(f.ins)
      case None => Dispatched(s, Reply([], SW_NOT_SUPPORTED), None)
      case Some(TaskQuery) => var o := Query(s, f, session, env.now); Dispatched(o.slots, o.reply, None)
      case Some(ProcThrottle) => var (reply, effect) := Throttle(f, env.kill); Dispatched(s, reply, effect)
      case Some(SvcRestart) =>
        var o := Restart(s, f, session, env.now, env.fork, env.random);
        Dispatched(o.slots, o.reply, if o.forked.Some? then Some(RunRestart(o.forked.value)) else None)
      case Some(_) => Dispatched(s, env.info, None)
  }

  method DispatchTo(pool: Pool, f: Frame, session: u16, env: Env) returns (reply: Reply, effect: Option<Effect>)
    requires pool.Valid()
    modifies pool.slots
    ensures Dispatched(pool.Value(), reply, effect) == Dispatch(old(pool.Value()), f, session, env)
  {
    hide Query, Restart, Throttle, InCaps;
    effect := None;
    if !InCaps(f.ins) {
      return Reply([], SW_NOT_FOUND), effect;
    }
    match HandlerOf(f.ins) {
      case None => reply := Reply([], SW_NOT_SUPPORTED);
      case Some(TaskQuery) => reply := HandlerTaskQuery(pool, f, session, env.now);
      case Some(ProcThrottle) => reply, effect := HandlerProcThrottle(f, env.kill);
      case Some(SvcRestart) =>
        var forked;
        reply, forked := HandlerSvcRestart(pool, f, session, env.now, env.fork, env.random);
        effect := if forked.Some? then Some(RunRestart(forked.value)) else None;
      case Some(_) => reply := env.info;
    }
  }

  /** Where each instruction goes, and what it answers if it goes nowhere. */
  lemma Routed(s: Slots, f: Frame, session: u16, env: Env)
    ensures
      var d := Dispatch(s, f, session, env);
      match f.ins as int
      case 0x00 => d == Dispatched(s, env.info, None)
      case 0x01 => d == Dispatched(s, env.info, None)
      case 0x02 => d == Dispatched(s, env.info, None)
      case 0x03 => d == Dispatched(s, env.info, None)
      case 0x11 => var o := Query(s, f, session, env.now); d == Dispatched(o.slots, o.reply, None)
      case 0x20 => d.slots == s && d.effect == Requested(f) && d.reply.body == []
      case 0x22 =>
        var o := Restart(s, f, session, env.now, env.fork, env.random);
        d == Dispatched(o.slots, o.reply, if o.forked.Some? then Some(RunRestart(f.data[4..])) else None)
      case _ => d == Dispatched(s, Reply([], 0x6a81), None)
  {
    hide Query, NameValid, FindPending, Sweep, Alloc, First, Read32, InCaps;
    CapsAreHandlers(f.ins);
  }

  /** What a frame asks for: a signal to the process whose number, taken as a signed 32-bit number in network byte order,
      stands behind the sequence number; or a restart of the service named there. */
  lemma RequestIs(f: Frame)
    ensures f.ins == 0x20 ==>
      (Requested(f).Some? <==> f.Sec() == 1 && |f.data| >= 8 && f.p1 <= 1 && BeNat(f.data[4..8]) != 0)
    ensures f.ins == 0x20 && Requested(f).Some? ==>
      Requested(f).value.Signal? &&
      var t := Requested(f).value.target;
      -0x8000_0000 <= t < 0x8000_0000 && t % 0x1_0000_0000 == BeNat(f.data[4..8]) && (Requested(f).value.resume <==> f.p1 == 1)
    ensures f.ins == 0x22 ==>
      Requested(f) == if f.Sec() == 1 && |f.data| > 4 && NameValid(f.data[4..]) then Some(RunRestart(f.data[4..])) else None
    ensures f.ins != 0x20 && f.ins != 0x22 ==> Requested(f) == None
  {
    hide BeNat, NameValid;
    if |f.data| >= 8 {
      NetworkOrder(0, f.data[4..]);
      assert f.data[4..][..4] == f.data[4..8];
    }
  }

  /** The status words of a throttle request, in the order of its checks. */
  lemma ThrottleAnswers(f: Frame, kill: KillResult)
    ensures
      var (reply, effect) := Throttle(f, kill);
      && reply.body == []
      && reply.sw == (if f.Sec() != 1 then 0x6982
                      else if |f.data| < 8 then 0x6700
                      else if f.p1 > 1 || BeNat(f.data[4..8]) == 0 then 0x6a80
                      else match kill
                           case Delivered => 0x9000 case NoSuchProcess => 0x6a80 case NotPermitted => 0x6982 case KillError => 0x6f00)
  {
    hide BeNat;
    if |f.data| >= 8 {
      NetworkOrder(0, f.data[4..]);
      assert f.data[4..][..4] == f.data[4..8];
    }
  }

  /** Exactly what a frame causes: a signal whenever one is asked for; a restart when one is asked for, none is pending for
      the session, a slot is free and the fork succeeds; nothing otherwise. */
  lemma EffectExactly(s: Slots, f: Frame, session: u16, env: Env)
    ensures
      var e, asked, swept := Dispatch(s, f, session, env).effect, Requested(f), Sweep(s, env.now);
      e == if f.ins == 0x20 then asked
           else if f.ins == 0x22 && asked.Some? && FindPending(swept, session, asked.value.service) == 0
                   && (exists i | 0 <= i < POOL_SIZE :: swept[i].status == Empty) && env.fork.Forked?
                then asked
           else None
  {
    hide NameValid, Sweep, FindPending, Alloc, Query, Read32, InCaps;
    CapsAreHandlers(f.ins);
    var swept := Sweep(s, env.now);
    var i := First(swept, IsEmpty());
    if i == POOL_SIZE {
      assert forall k | 0 <= k < POOL_SIZE :: !IsEmpty()(swept[k]);
    }
  }

  /** Whatever the state and the outside do, a frame causes at most what it asks for, and only if it is signed. */
  lemma OnlyWhatIsRequested(s: Slots, f: Frame, session: u16, env: Env)
    ensures var e := Dispatch(s, f, session, env).effect; e.Some? ==> f.Sec() == SIGNED && e == Requested(f)
  {
    hide NameValid, Sweep, FindPending, Alloc, First, Query, Read32, InCaps;
  }
}
