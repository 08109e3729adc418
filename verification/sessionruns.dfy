/** Runs of the whole service: any number of sessions, their packets in any interleaving, and child exits. */
module SessionRuns {
  import opened Machine
  import opened ByteStrings
  import opened Apdu
  import opened Auth
  import opened Noise
  import opened Dispatcher
  import opened Session
  import TaskPool
  import Tasks
  import Transport
  import TaskRuns

  datatype Cause = Cause(frame: Frame, effect: Effect)

  /** A session and its history: plain text received, frames dispatched, and effects with the frames that caused them. */
  datatype Conn = Conn(ctx: Ctx, plain: bytes, frames: seq<Frame>, causes: seq<Cause>)

  function Push<T>(s: seq<T>, x: Option<T>): seq<T> {
    if x.Some? then s + [x.value] else s
  }

  function Advance(c: Conn, t: Turn): Conn {
    Conn(t.ctx, c.plain + t.plain, Push(c.frames, t.ran),
         Push(c.causes, if t.ran.Some? && t.effect.Some? then Some(Cause(t.ran.value, t.effect.value)) else None))
  }

  function Opened(su: Suite, id: u16, noise: State): Conn {
    Conn(Ctx(id, noise, Epoch(su, noise.recvKey), 0, [], true), [], [], [])
  }

  // ---- What every session keeps ----

  predicate Signed(f: Frame) { f.Sec() != 0 }

  /** A frame whose tag verified in this session and whose sequence number was fresh. */
  ghost predicate Vouched(su: Suite, c: Ctx, f: Frame) {
    Accepts(su.compress, c.noise.recvKey, f, c.epoch) && |f.data| >= 4 && 0 < SeqNo(f) <= c.last
  }

  ghost predicate FramesOk(su: Suite, c: Conn) {
    && (forall f | f in c.frames :: f.WellFormed() && (Signed(f) ==> Vouched(su, c.ctx, f)))
    && (forall k, l | 0 <= k < l < |c.frames| && Signed(c.frames[k]) && Signed(c.frames[l]) ::
          |c.frames[k].data| >= 4 && |c.frames[l].data| >= 4 && SeqNo(c.frames[k]) < SeqNo(c.frames[l]))
    && PrintAll(c.frames) + c.ctx.held == c.plain
  }

  ghost predicate CausesOk(su: Suite, c: Conn) {
    && (forall x | x in c.causes ::
          x.frame in c.frames && x.frame.Sec() == Tasks.SIGNED && Vouched(su, c.ctx, x.frame) && Requested(x.frame) == Some(x.effect))
    && (forall k, l | 0 <= k < l < |c.causes| ::
          |c.causes[k].frame.data| >= 4 && |c.causes[l].frame.data| >= 4 && SeqNo(c.causes[k].frame) < SeqNo(c.causes[l].frame))
  }

  ghost predicate ConnOk(su: Suite, c: Conn) {
    c.ctx.Ok() && c.ctx.epoch == Epoch(su, c.ctx.noise.recvKey) && FramesOk(su, c) && CausesOk(su, c)
  }

  lemma OpenedOk(su: Suite, id: u16, noise: State)
    requires noise.Ok()
    ensures ConnOk(su, Opened(su, id, noise))
  {
    hide Epoch;
  }

  /** The frames and the bytes held still make up the plain text received. */
  lemma BytesAccounted(c: Conn, t: Turn)
    requires (forall f | f in c.frames :: f.WellFormed()) && PrintAll(c.frames) + c.ctx.held == c.plain && Account(c.ctx, t)
    ensures
      var n := Advance(c, t);
      (forall f | f in n.frames :: f.WellFormed()) && PrintAll(n.frames) + n.ctx.held == n.plain
  {
    hide Parse, Print, PrintAll, Frame.WellFormed;
    var b := c.ctx.held + t.plain;
    if t.ran.Some? {
      var f := t.ran.value;
      ReadyIsPrinted(b);
      PrintAllPush(c.frames, f);
      assert b == Print(f) + t.ctx.held;
      assert PrintAll(c.frames) + Print(f) + t.ctx.held == PrintAll(c.frames) + b;
    }
    assert PrintAll(c.frames) + b == c.plain + t.plain;
  }

  lemma VouchedStays(su: Suite, a: Ctx, b: Ctx, f: Frame)
    requires Vouched(su, a, f) && SameSession(a, b) && a.last <= b.last
    ensures Vouched(su, b, f)
  {
  }

  lemma FramesKept(su: Suite, c: Conn, t: Turn)
    requires FramesOk(su, c) && Account(c.ctx, t) && Gate(su, c.ctx, t) && SameSession(c.ctx, t.ctx)
    ensures FramesOk(su, Advance(c, t)) && c.ctx.last <= t.ctx.last
    ensures t.ran.Some? && Signed(t.ran.value) ==> Vouched(su, t.ctx, t.ran.value)
  {
    hide Parse, PrintAll, Accepts, SeqNo, Frame.WellFormed, Frame.Sec, Frame.TotalSize;
    BytesAccounted(c, t);
    var n := Advance(c, t);
    forall f | f in c.frames && Signed(f) ensures Vouched(su, t.ctx, f) {
      VouchedStays(su, c.ctx, t.ctx, f);
    }
  }

  lemma CausesKept(su: Suite, c: Conn, t: Turn, pool: TaskPool.Slots, env: Env)
    requires CausesOk(su, c) && Gate(su, c.ctx, t) && SameSession(c.ctx, t.ctx) && c.ctx.last <= t.ctx.last
    requires t.ran.Some? && Signed(t.ran.value) ==> Vouched(su, t.ctx, t.ran.value)
    requires t.ran.Some? ==> t.effect == Dispatch(pool, t.ran.value, c.ctx.id, env).effect
    ensures CausesOk(su, Advance(c, t))
  {
    hide Accepts, SeqNo, Dispatch, Requested, Frame.Sec;
    var n := Advance(c, t);
    forall x | x in c.causes ensures Vouched(su, t.ctx, x.frame) && x.frame in n.frames {
      VouchedStays(su, c.ctx, t.ctx, x.frame);
    }
    if t.ran.Some? && t.effect.Some? {
      OnlyWhatIsRequested(pool, t.ran.value, c.ctx.id, env);
      assert n.frames[|c.frames|] == t.ran.value;
    }
  }

  /** One turn of the loop keeps everything claimed of a session. */
  lemma TurnKeeps(su: Suite, c: Conn, pool: TaskPool.Slots, packet: Option<bytes>, env: Env)
    requires ConnOk(su, c)
    ensures ConnOk(su, Advance(c, Handle(su, c.ctx, pool, packet, env)))
  {
    hide Handle, Dispatch, FramesOk, CausesOk, Gate, Account, Epoch;
    HandleGates(su, c.ctx, pool, packet, env);
    var t := Handle(su, c.ctx, pool, packet, env);
    FramesKept(su, c, t);
    CausesKept(su, c, t, pool, env);
  }

  // ---- The service ----

  datatype World = World(pool: TaskPool.Slots, conns: seq<Conn>)

  /** A session comes out of its handshake, or ends before that, which releases the tasks of its id; a packet (or a failed
      receive) reaches a session; or a child exits. */
  datatype Event =
    | Connect(id: u16, noise: State)
    | Leave(id: u16)
    | Packet(i: nat, packet: Option<bytes>, env: Env)
    | ChildExit(pid: int, clean: bool)

  function Start(): World {
    World(seq(TaskPool.POOL_SIZE, _ => TaskPool.ZERO), [])
  }

  /** Field lengths. */
  predicate Shaped(w: World) {
    forall i | 0 <= i < |w.conns| :: w.conns[i].ctx.Ok()
  }

  ghost predicate WorldOk(su: Suite, w: World) {
    Tasks.SlotsOk(w.pool) && forall i | 0 <= i < |w.conns| :: ConnOk(su, w.conns[i])
  }

  /** A session that has left its loop gets no more turns; leaving the loop releases its tasks. */
  function Step(su: Suite, w: World, e: Event): (r: World)
    requires Shaped(w)
    ensures Shaped(r)
  {
    match e
    case Connect(id, noise) => if noise.Ok() then w.(conns := w.conns + [Opened(su, id, noise)]) else w
    case Leave(id) => w.(pool := TaskPool.Release(w.pool, id))
    case Packet(i, packet, env) =>
      if i >= |w.conns| || !w.conns[i].ctx.open then w
      else
        var t := Handle(su, w.conns[i].ctx, w.pool, packet, env);
        World(if t.ctx.open then t.pool else TaskPool.Release(t.pool, t.ctx.id), w.conns[i := Advance(w.conns[i], t)])
    case ChildExit(pid, clean) => w.(pool := TaskPool.Update(w.pool, pid, if clean then TaskPool.Success else TaskPool.Failure))
  }

  lemma DispatchKeepsSlots(s: TaskPool.Slots, f: Frame, session: u16, env: Env)
    requires Tasks.SlotsOk(s)
    ensures Tasks.SlotsOk(Dispatch(s, f, session, env).slots)
  {
    hide Tasks.Restart, Tasks.Query, Tasks.SlotsOk, Throttle, InCaps;
    Tasks.HandlersKeep(s, f, session, env.now, env.fork, env.random);
  }

  lemma StepKeeps(su: Suite, w: World, e: Event)
    requires WorldOk(su, w) && Shaped(w)
    ensures WorldOk(su, Step(su, w, e))
  {
    hide Handle, Dispatch, ConnOk, TaskPool.Release, TaskPool.Update, Tasks.SlotsOk, Epoch, Gate, Account, SameSession;
    match e {
      case Connect(id, noise) => if noise.Ok() { OpenedOk(su, id, noise); }
      case Leave(id) => Tasks.ReleaseKeeps(w.pool, id);
      case Packet(i, packet, env) =>
        if i < |w.conns| && w.conns[i].ctx.open {
          var c := w.conns[i];
          var t := Handle(su, c.ctx, w.pool, packet, env);
          TurnKeeps(su, c, w.pool, packet, env);
          HandleGates(su, c.ctx, w.pool, packet, env);
          if t.ran.Some? { DispatchKeepsSlots(w.pool, t.ran.value, c.ctx.id, env); }
          Tasks.ReleaseKeeps(t.pool, t.ctx.id);
        }
      case ChildExit(pid, clean) => Tasks.UpdateKeeps(w.pool, pid, if clean then TaskPool.Success else TaskPool.Failure);
    }
  }

  function Run(su: Suite, w: World, es: seq<Event>): (r: World)
    requires Shaped(w)
    ensures Shaped(r)
    decreases |es|
  {
    if es == [] then w else Run(su, Step(su, w, es[0]), es[1..])
  }

  lemma {:induction false} RunKeeps(su: Suite, w: World, es: seq<Event>)
    requires WorldOk(su, w) && Shaped(w)
    ensures WorldOk(su, Run(su, w, es))
    decreases |es|
  {
    hide WorldOk, Step, Shaped;
    if es != [] {
      StepKeeps(su, w, es[0]);
      RunKeeps(su, Step(su, w, es[0]), es[1..]);
    }
  }

  /** Over every run of the service, each signal and each service restart was asked for by a dispatched signed frame whose
      tag verified under the key and epoch of its own session, with sequence numbers nonzero and strictly increasing. */
  lemma EveryEffectIsVouched(su: Suite, es: seq<Event>, i: nat)
    ensures
      var w := Run(su, Start(), es);
      i < |w.conns| ==>
        var c := w.conns[i];
        (forall x | x in c.causes ::
           x.frame in c.frames && x.frame.Sec() == Tasks.SIGNED && Requested(x.frame) == Some(x.effect)
           && Accepts(su.compress, c.ctx.noise.recvKey, x.frame, Epoch(su, c.ctx.noise.recvKey)) && |x.frame.data| >= 4 && 0 < SeqNo(x.frame))
        && (forall k, l | 0 <= k < l < |c.causes| ::
              |c.causes[k].frame.data| >= 4 && |c.causes[l].frame.data| >= 4 && SeqNo(c.causes[k].frame) < SeqNo(c.causes[l].frame))
  {
    hide Run, Accepts, SeqNo, Requested, Epoch, FramesOk;
    StartOk(su);
    RunKeeps(su, Start(), es);
    var w := Run(su, Start(), es);
    if i < |w.conns| {
      assert ConnOk(su, w.conns[i]);
    }
  }

  /** Over every run, the signed frames a session dispatches all verified under its own key and epoch, and their sequence
      numbers are nonzero and strictly increasing. */
  lemma SignedFramesRise(su: Suite, es: seq<Event>, i: nat)
    ensures
      var w := Run(su, Start(), es);
      i < |w.conns| ==>
        var c := w.conns[i];
        (forall f | f in c.frames && Signed(f) ::
           Accepts(su.compress, c.ctx.noise.recvKey, f, Epoch(su, c.ctx.noise.recvKey)) && |f.data| >= 4 && 0 < SeqNo(f))
        && (forall k, l | 0 <= k < l < |c.frames| && Signed(c.frames[k]) && Signed(c.frames[l]) ::
              |c.frames[k].data| >= 4 && |c.frames[l].data| >= 4 && SeqNo(c.frames[k]) < SeqNo(c.frames[l]))
  {
    hide Run, Accepts, SeqNo, Epoch, CausesOk, PrintAll, Frame.WellFormed, Frame.Sec;
    StartOk(su);
    RunKeeps(su, Start(), es);
    var w := Run(su, Start(), es);
    if i < |w.conns| {
      assert ConnOk(su, w.conns[i]);
    }
  }

  lemma StartOk(su: Suite)
    ensures WorldOk(su, Start())
  {
  }

  // ---- How far dispatching lags behind parsing ----

  /** Over every run, the frames a session has dispatched, followed by the complete frames still waiting in its buffer, are
      what parsing all its plain text at once gives, however the text was cut into packets; so it has dispatched all of them
      exactly when no complete frame waits, and the buffer holds the bytes not dispatched. */
  lemma DispatchedInOrder(su: Suite, es: seq<Event>, i: nat)
    ensures
      var w := Run(su, Start(), es);
      i < |w.conns| ==>
        var c := w.conns[i];
        && Drain(c.plain).frames == c.frames + Drain(c.ctx.held).frames
        && (c.frames == Drain(c.plain).frames <==> !Parse(c.ctx.held).Ready?)
        && (forall f | f in c.frames :: f.WellFormed()) && PrintAll(c.frames) + c.ctx.held == c.plain
  {
    hide Run, Drain, Vouched, Frame.WellFormed, Parse, Print, PrintAll, CausesOk;
    StartOk(su);
    RunKeeps(su, Start(), es);
    var w := Run(su, Start(), es);
    if i < |w.conns| {
      var c := w.conns[i];
      assert ConnOk(su, c);
      DrainStartsWith(c.frames, c.ctx.held);
      NoneWaiting(c.ctx.held);
    }
  }

  lemma NoneWaiting(b: bytes)
    ensures Drain(b).frames == [] <==> !Parse(b).Ready?
  {
    hide Parse, Frame.TotalSize;
  }

  /** The complete frames waiting in a buffer. */
  function Backlog(b: bytes): nat { |Drain(b).frames| }

  /** A packet that is received hands at most one frame to the dispatcher, the first one waiting; if the session goes on, all
      the others still wait. */
  lemma OneFramePerPacket(su: Suite, c: Ctx, pool: TaskPool.Slots, packet: bytes, env: Env)
    requires c.Ok() && Receive(su, c, packet).Some?
    ensures
      var b := c.held + Receive(su, c, packet).value.plain;
      var t := Handle(su, c, pool, Some(packet), env);
      && (t.ran.Some? ==> Drain(b).frames != [] && t.ran.value == Drain(b).frames[0])
      && (t.ctx.open ==>
            && (t.ran.None? <==> Backlog(b) == 0)
            && Drain(t.ctx.held).frames == if Backlog(b) == 0 then [] else Drain(b).frames[1..])
  {
    hide Receive, Parse, Dispatch, Accepts, SeqNo, ReplyBytes, Transport.Encrypt, Frame.TotalSize, Frame.Sec, Tasks.Restart;
    var b := c.held + Receive(su, c, packet).value.plain;
    if Parse(b).Ready? { TakeFirst(b); } else { NoneWaiting(b); }
  }

  lemma TakeFirst(b: bytes)
    requires Parse(b).Ready?
    ensures
      var f := Parse(b).frame;
      f.TotalSize() <= |b| && Drain(b).frames == [f] + Drain(b[f.TotalSize()..]).frames
  {
    hide Parse, Frame.TotalSize;
    ReadyIsPrinted(b);
  }

  /** A packet of admissible length is refused for lack of room exactly when it and the bytes not yet dispatched exceed the
      buffer. */
  lemma RoomRunsOut(su: Suite, es: seq<Event>, i: nat, packet: bytes)
    ensures
      var w := Run(su, Start(), es);
      i < |w.conns| && 16 <= |packet| <= MAX_FRAME + 16 ==>
        var c := w.conns[i];
        (Receive(su, c.ctx, packet).None? <==>
           |c.plain| - |Printed(c)| + |packet| - 16 > MAX_FRAME || Transport.Decrypt(su, c.ctx.noise, packet).status != OK)
  {
    hide Run, PrintAll, Frame.WellFormed, Drain, Parse, Transport.Decrypt, CausesOk, Vouched;
    StartOk(su);
    RunKeeps(su, Start(), es);
    var w := Run(su, Start(), es);
    if i < |w.conns| { assert ConnOk(su, w.conns[i]); }
  }

  /** The bytes of the frames a session has dispatched. */
  ghost function Printed(c: Conn): bytes {
    if forall f | f in c.frames :: f.WellFormed() then PrintAll(c.frames) else []
  }

  /** The packets that reached a session. */
  function Packets(es: seq<Event>, i: nat): nat
    decreases |es|
  {
    if es == [] then 0 else (if es[0].Packet? && es[0].i == i then 1 else 0) + Packets(es[1..], i)
  }

  /** A run dispatches at most one frame of a session for each packet that reaches it. */
  lemma {:induction false} AtMostOneEach(su: Suite, w: World, es: seq<Event>, i: nat)
    requires Shaped(w)
    ensures
      var r := Run(su, w, es);
      |r.conns| >= |w.conns| && (i < |r.conns| ==> |r.conns[i].frames| <= (if i < |w.conns| then |w.conns[i].frames| else 0) + Packets(es, i))
    decreases |es|
  {
    hide Handle, Epoch, TaskPool.Release, TaskPool.Update;
    if es != [] {
      AtMostOneEach(su, Step(su, w, es[0]), es[1..], i);
    }
  }

  /** A session that has left its loop never changes again. */
  lemma {:induction false} ClosedStays(su: Suite, w: World, es: seq<Event>, i: nat)
    requires Shaped(w) && i < |w.conns| && !w.conns[i].ctx.open
    ensures var r := Run(su, w, es); i < |r.conns| && r.conns[i] == w.conns[i]
    decreases |es|
  {
    hide Handle, Epoch, Advance;
    if es != [] {
      ClosedStays(su, Step(su, w, es[0]), es[1..], i);
    }
  }

  /** The tag does not verify, or the sequence number is not above the last one. */
  predicate Refused(su: Suite, c: Ctx, f: Frame) {
    Signed(f) && (Accepts(su.compress, c.noise.recvKey, f, c.epoch) ==> |f.data| < 4 || SeqNo(f) <= c.last)
  }

  lemma RefusedTurn(su: Suite, c: Ctx, pool: TaskPool.Slots, packet: Option<bytes>, env: Env)
    requires c.Ok() && packet.Some? && Receive(su, c, packet.value).Some?
    requires var v := Parse(c.held + Receive(su, c, packet.value).value.plain); v.Ready? && Refused(su, c, v.frame)
    ensures var t := Handle(su, c, pool, packet, env); t.ran.None? && t.effect.None? && !t.ctx.open && t.pool == pool
  {
    hide Parse, Accepts, SeqNo, ReplyBytes, Transport.Encrypt, Transport.Decrypt, Receive;
    var d := Receive(su, c, packet.value).value;
    var f := Parse(c.held + d.plain).frame;
    if Accepts(su.compress, c.noise.recvKey, f, c.epoch) {
      AcceptedHasSeqNo(su.compress, c.noise.recvKey, f, c.epoch);
    }
    DecryptKeepsKey(su, c, packet.value);
  }

  lemma DecryptKeepsKey(su: Suite, c: Ctx, cipher: bytes)
    requires c.Ok()
    ensures Receive(su, c, cipher).Some? ==> Receive(su, c, cipher).value.next.recvKey == c.noise.recvKey
  {
    hide Transport.Decrypt;
    KeyStays(su, c.noise, [], cipher);
  }

  /** After a failed tag or a replayed sequence number a session dispatches nothing more, and causes nothing more. */
  lemma NothingAfterRefusal(su: Suite, w: World, i: nat, packet: Option<bytes>, env: Env, es: seq<Event>)
    requires Shaped(w) && i < |w.conns| && w.conns[i].ctx.open
    requires packet.Some? && Receive(su, w.conns[i].ctx, packet.value).Some?
    requires
      var v := Parse(w.conns[i].ctx.held + Receive(su, w.conns[i].ctx, packet.value).value.plain);
      v.Ready? && Refused(su, w.conns[i].ctx, v.frame)
    ensures
      var r := Run(su, Step(su, w, Packet(i, packet, env)), es);
      i < |r.conns| && r.conns[i].frames == w.conns[i].frames && r.conns[i].causes == w.conns[i].causes && !r.conns[i].ctx.open
  {
    hide Handle, Parse, Run, Receive, Refused;
    RefusedTurn(su, w.conns[i].ctx, w.pool, packet, env);
    ClosedStays(su, Step(su, w, Packet(i, packet, env)), es, i);
  }

  /** A packet that delivers no text, or no packet at all, ends the session: nothing is dispatched or sent, its tasks and no
      others are released, and nothing else changes. */
  lemma NoTextEnds(su: Suite, w: World, i: nat, packet: Option<bytes>, env: Env, k: nat)
    requires Shaped(w) && i < |w.conns| && w.conns[i].ctx.open && k < TaskPool.POOL_SIZE
    requires forall plain :: !Delivers(su, w.conns[i].ctx, packet, plain)
    ensures
      var c, r := w.conns[i], Step(su, w, Packet(i, packet, env));
      && r.conns == w.conns[i := c.(ctx := c.ctx.(open := false))]
      && r.pool[k] == if w.pool[k].status != TaskPool.Empty && w.pool[k].session == c.ctx.id then TaskPool.ZERO else w.pool[k]
  {
    hide Handle, Delivers, Epoch;
    NothingDelivered(su, w.conns[i].ctx, w.pool, packet, env);
    assert w.conns[i].plain + [] == w.conns[i].plain;
  }

  /** When a session leaves its loop, no task slot of its id stays in use. */
  lemma EndReleases(su: Suite, w: World, i: nat, packet: Option<bytes>, env: Env, k: nat)
    requires Shaped(w) && i < |w.conns| && w.conns[i].ctx.open && k < TaskPool.POOL_SIZE
    ensures
      var r := Step(su, w, Packet(i, packet, env));
      !r.conns[i].ctx.open && r.pool[k].status != TaskPool.Empty ==> r.pool[k].session != w.conns[i].ctx.id
  {
    hide Handle, Epoch, Account, Gate;
    HandleGates(su, w.conns[i].ctx, w.pool, packet, env);
  }

  // ---- The task pool under the service ----

  /** What a dispatched frame is to the task pool. */
  function FrameEvents(f: Frame, session: u16, env: Env): seq<TaskRuns.Event> {
    if !InCaps(f.ins) then []
    else
      match HandlerOf(f.ins)
      case Some(TaskQuery) => [TaskRuns.QueryRequest(f, session, env.now)]
      case Some(SvcRestart) => [TaskRuns.RestartRequest(f, session, env.now, env.fork, env.random)]
      case _ => []
  }

  function TaskEvents(su: Suite, w: World, e: Event): seq<TaskRuns.Event>
    requires Shaped(w)
  {
    match e
    case Connect(_, _) => []
    case Leave(id) => [TaskRuns.Disconnect(id)]
    case ChildExit(pid, clean) => [TaskRuns.ChildExit(pid, clean)]
    case Packet(i, packet, env) =>
      if i >= |w.conns| || !w.conns[i].ctx.open then []
      else
        var c := w.conns[i].ctx;
        var t := Handle(su, c, w.pool, packet, env);
        (if t.ran.Some? then FrameEvents(t.ran.value, c.id, env) else []) + (if t.ctx.open then [] else [TaskRuns.Disconnect(c.id)])
  }

  function AllTaskEvents(su: Suite, w: World, es: seq<Event>): seq<TaskRuns.Event>
    requires Shaped(w)
    decreases |es|
  {
    if es == [] then [] else TaskEvents(su, w, es[0]) + AllTaskEvents(su, Step(su, w, es[0]), es[1..])
  }

  lemma OneTaskEvent(tw: TaskRuns.World, e: TaskRuns.Event)
    requires TaskRuns.Shaped(tw)
    ensures TaskRuns.Run(tw, [e]) == TaskRuns.Step(tw, e)
  {
    hide TaskRuns.Step;
    assert [e][1..] == [];
    assert TaskRuns.Run(tw, [e]) == TaskRuns.Run(TaskRuns.Step(tw, e), [e][1..]);
  }

  lemma DispatchFollows(tw: TaskRuns.World, f: Frame, session: u16, env: Env)
    requires TaskRuns.Shaped(tw)
    ensures TaskRuns.Run(tw, FrameEvents(f, session, env)).slots == Dispatch(tw.slots, f, session, env).slots
  {
    hide Tasks.Query, Tasks.Restart, InCaps, Throttle;
    var es := FrameEvents(f, session, env);
    if es != [] {
      OneTaskEvent(tw, es[0]);
      ShortQuery(tw.slots, f, session, env.now);
    }
  }

  lemma ShortQuery(s: TaskPool.Slots, f: Frame, session: u16, now: int)
    ensures |f.data| < 4 ==> Tasks.Query(s, f, session, now).slots == s
  {
  }

  lemma StepFollows(su: Suite, w: World, e: Event, tw: TaskRuns.World)
    requires Shaped(w) && TaskRuns.Shaped(tw) && tw.slots == w.pool
    ensures TaskRuns.Run(tw, TaskEvents(su, w, e)).slots == Step(su, w, e).pool
  {
    hide Handle, Dispatch, FrameEvents, TaskPool.Release, TaskPool.Update, Account, Gate, TaskRuns.Run;
    NoTaskEvents(tw);
    match e {
      case Connect(_, _) =>
      case Leave(id) => OneTaskEvent(tw, TaskRuns.Disconnect(id));
      case ChildExit(pid, clean) => OneTaskEvent(tw, TaskRuns.ChildExit(pid, clean));
      case Packet(i, packet, env) =>
        if i < |w.conns| && w.conns[i].ctx.open {
          var c := w.conns[i].ctx;
          HandleGates(su, c, w.pool, packet, env);
          var t := Handle(su, c, w.pool, packet, env);
          var a := if t.ran.Some? then FrameEvents(t.ran.value, c.id, env) else [];
          var b := if t.ctx.open then [] else [TaskRuns.Disconnect(c.id)];
          if t.ran.Some? { DispatchFollows(tw, t.ran.value, c.id, env); }
          TaskRuns.RunConcat(tw, a, b);
          var tw' := TaskRuns.Run(tw, a);
          NoTaskEvents(tw');
          OneTaskEvent(tw', TaskRuns.Disconnect(c.id));
        }
    }
  }

  lemma NoTaskEvents(tw: TaskRuns.World)
    requires TaskRuns.Shaped(tw)
    ensures TaskRuns.Run(tw, []) == tw
  {
  }

  lemma {:induction false} RunFollows(su: Suite, w: World, es: seq<Event>, tw: TaskRuns.World)
    requires Shaped(w) && TaskRuns.Shaped(tw) && tw.slots == w.pool
    ensures TaskRuns.Run(tw, AllTaskEvents(su, w, es)).slots == Run(su, w, es).pool
    decreases |es|
  {
    hide Step, TaskEvents, TaskRuns.Run, Shaped;
    NoTaskEvents(tw);
    if es != [] {
      StepFollows(su, w, es[0], tw);
      var a := TaskEvents(su, w, es[0]);
      TaskRuns.RunConcat(tw, a, AllTaskEvents(su, Step(su, w, es[0]), es[1..]));
      RunFollows(su, Step(su, w, es[0]), es[1..], TaskRuns.Run(tw, a));
    }
  }

  /** The task pool of the service is, over every run, that of a run of the pool alone, so that what holds of those runs holds
      here: an allocation delivers at most one terminal status, and a delivered success or failure had a matching exit, after the
      allocation, of the child that fork returned for it. */
  lemma TasksOfTheService(su: Suite, es: seq<Event>)
    ensures
      var tw := TaskRuns.Run(TaskRuns.Start(), AllTaskEvents(su, Start(), es));
      && tw.slots == Run(su, Start(), es).pool
      && (forall x, y | 0 <= x < y < |tw.delivered| :: tw.delivered[x].id != tw.delivered[y].id)
      && (forall d | d in tw.delivered :: d.id < |tw.births| && TaskRuns.Backed(d.status, tw.births[d.id], tw.exits))
      && TaskRuns.Pids(tw.births) == TaskRuns.Forks(TaskRuns.Start(), AllTaskEvents(su, Start(), es))
  {
    hide Run, AllTaskEvents, TaskRuns.Run, TaskRuns.Backed, TaskRuns.Forks;
    TaskRuns.BirthsAreForks(TaskRuns.Start(), AllTaskEvents(su, Start(), es));
    RunFollows(su, Start(), es, TaskRuns.Start());
    TaskRuns.EveryRun(AllTaskEvents(su, Start(), es));
  }

  // ---- The loop ----

  datatype Received = Received(packet: Option<bytes>, env: Env)

  /** The loop on a list of packets, after which the next receive fails; then the session's tasks are released. */
  function LoopOf(su: Suite, c: Conn, pool: TaskPool.Slots, inbox: seq<Received>): (Conn, TaskPool.Slots)
    requires c.ctx.Ok()
    decreases |inbox|
  {
    if inbox == [] || !c.ctx.open then (c, TaskPool.Release(pool, c.ctx.id))
    else
      var t := Handle(su, c.ctx, pool, inbox[0].packet, inbox[0].env);
      LoopOf(su, Advance(c, t), t.pool, inbox[1..])
  }

  lemma EffectNeedsFrame(before: Ctx, t: Turn)
    requires Account(before, t)
    ensures t.ran.None? ==> t.effect.None?
  {
  }

  /** The packet loop and the clean-up of handle_client. */
  method PacketLoop(x: Connection, inbox: seq<Received>) returns (effects: seq<Effect>, ghost log: Conn)
    requires x.Valid() && ConnOk(x.noise.suite, Conn(x.Value(true), [], [], []))
    modifies x`lastSeenSeq, x.noise, x.parser`filled, x.parser.buf, x.pool.slots
    ensures x.Valid() && log.ctx == x.Value(log.ctx.open)
    ensures (log, x.pool.Value()) == LoopOf(x.noise.suite, Conn(old(x.Value(true)), [], [], []), old(x.pool.Value()), inbox)
    ensures ConnOk(x.noise.suite, log) && |effects| == |log.causes|
    ensures forall k | 0 <= k < |effects| :: effects[k] == log.causes[k].effect
  {
    hide Handle, FramesOk, CausesOk, Epoch, TaskPool.Release, Gate, Account;
    var more, i := true, 0;
    effects := [];
    log := Conn(x.Value(true), [], [], []);
    while more && i < |inbox|
      invariant 0 <= i <= |inbox| && x.Valid() && log.ctx == x.Value(more) && ConnOk(x.noise.suite, log)
      invariant LoopOf(x.noise.suite, log, x.pool.Value(), inbox[i..])
             == LoopOf(x.noise.suite, Conn(old(x.Value(true)), [], [], []), old(x.pool.Value()), inbox)
      invariant |effects| == |log.causes| && forall k | 0 <= k < |effects| :: effects[k] == log.causes[k].effect
      decreases |inbox| - i
    {
      ghost var before, pool := log, x.pool.Value();
      var plain, ran, effect, wire;
      more, plain, ran, effect, wire := x.HandlePacket(inbox[i].packet, inbox[i].env);
      TurnKeeps(x.noise.suite, before, pool, inbox[i].packet, inbox[i].env);
      HandleGates(x.noise.suite, before.ctx, pool, inbox[i].packet, inbox[i].env);
      log := Advance(before, Turn(x.Value(more), x.pool.Value(), plain, ran, effect, wire));
      EffectNeedsFrame(before.ctx, Turn(x.Value(more), x.pool.Value(), plain, ran, effect, wire));
      effects := Push(effects, effect);
      assert inbox[i..][1..] == inbox[i + 1..];
      i := i + 1;
    }
    x.pool.DoRelease(x.sessionId);
  }

  // ---- A client's request and its answer ----

  lemma OneWay(su: Suite, a: State, b: State, plain: bytes)
    requires Mirrored(a, b)
    ensures
      var s := Transport.Encrypt(su, a, plain);
      var d := Transport.Decrypt(su, b, s.cipher);
      s.status == OK && |s.cipher| == |plain| + 16 && d.status == OK && d.plain == plain && Mirrored(s.next, d.next)
  {
    hide EncryptWith, DecryptWith;
    DecryptInvertsEncrypt(su, a.sendKey, a.sendNonce, [], plain, EncryptWith(su, a.sendKey, a.sendNonce, [], plain));
  }

  datatype Request = Request(cla: u8, ins: u8, data: bytes) {
    predicate Signed() { cla / 4 % 4 != 0 }

    /** Version 0, reserved bit clear, not extended; signed data starts with a sequence number. */
    predicate Standard() {
      cla < 32 && cla % 2 == 0 && cla / 2 % 2 == 0 && |data| <= 255 && (Signed() ==> |data| >= 4)
    }
  }

  function RequestText(su: Suite, key: bytes, q: Request): (text: bytes)
    requires q.Standard()
    ensures |text| == 6 + |q.data| + (if q.Signed() then 16 else 0)
  {
    ClientFrame(su.compress, key, Epoch(su, key), q.cla, q.ins, q.data)
  }

  /** The frame the client meant, and where the session stands after it. */
  predicate ServedAs(c: Ctx, t: Turn, q: Request)
    requires q.Standard()
  {
    t.ran.Some? && t.ran.value.cla == q.cla && t.ran.value.ins == q.ins && t.ran.value.data == q.data
    && t.ctx.open && t.ctx.held == [] && t.ctx.last == (if q.Signed() then Read32(q.data) else c.last)
  }

  /** The wire carries the encrypted reply of the dispatcher, which the client decrypts, and both ends stay in step. */
  ghost predicate Answers(su: Suite, a: State, c: Ctx, pool: TaskPool.Slots, env: Env, t: Turn)
    requires a.Ok()
  {
    t.ran.Some? && |t.wire| >= 2 && t.wire == OnWire(t.wire[2..])
    && var d := Transport.Decrypt(su, a, t.wire[2..]);
       d.status == OK && d.plain == ReplyBytes(Dispatch(pool, t.ran.value, c.id, env).reply) && Mirrored(d.next, t.ctx.noise)
  }

  /** A session in step with its client and holding no earlier bytes. */
  ghost predicate Waiting(su: Suite, a: State, c: Ctx) {
    c.Ok() && Mirrored(a, c.noise) && c.epoch == Epoch(su, c.noise.recvKey) && c.held == [] && c.open
  }

  /** A request is dispatched as the client built it if its number is fresh, its answer reaches the client, and the session
      is ready for the next one. */
  lemma RequestServed(su: Suite, a: State, c: Ctx, pool: TaskPool.Slots, q: Request, env: Env)
    requires Waiting(su, a, c) && q.Standard() && env.sent
    requires q.Signed() ==> Read32(q.data) > c.last
    ensures
      var s := Transport.Encrypt(su, a, RequestText(su, a.sendKey, q));
      var t := Handle(su, c, pool, Some(s.cipher), env);
      ServedAs(c, t, q) && Answers(su, s.next, c, pool, env, t)
  {
    hide Judge, RequestText, Parse, Transport.Encrypt, Transport.Decrypt, Epoch, Answers, ServedAs, Read32;
    var text := RequestText(su, a.sendKey, q);
    OneWay(su, a, c.noise, text);
    var s := Transport.Encrypt(su, a, text);
    var d := Transport.Decrypt(su, c.noise, s.cipher);
    KeyStays(su, a, text, []);
    KeyStays(su, c.noise, [], s.cipher);
    assert [] + text == text;
    TextServed(su, s.next, c, d.next, pool, q, env);
  }

  lemma TextServed(su: Suite, a: State, c: Ctx, noise: State, pool: TaskPool.Slots, q: Request, env: Env)
    requires c.Ok() && c.open && Mirrored(a, noise) && noise.recvKey == c.noise.recvKey && c.epoch == Epoch(su, noise.recvKey)
    requires q.Standard() && env.sent && (q.Signed() ==> Read32(q.data) > c.last)
    ensures
      var text := RequestText(su, noise.recvKey, q);
      var t := Judge(su, Turn(c.(noise := noise, held := text), pool, text, None, None, []), env);
      ServedAs(c, t, q) && Answers(su, a, c, pool, env, t)
  {
    hide Parse, Transport.Encrypt, Transport.Decrypt, Dispatch, ReplyBytes, Read32, Accepts, Epoch, Frame.WellFormed, ClientFrame;
    var text := RequestText(su, noise.recvKey, q);
    ClientFrameAccepted(su.compress, noise.recvKey, c.epoch, q.cla, q.ins, q.data, []);
    assert text + [] == text;
    var f := Parse(text).frame;
    assert f.TotalSize() == |text|;
    var reply := ReplyBytes(Dispatch(pool, f, c.id, env).reply);
    OneWay(su, noise, a, reply);
    var e := Transport.Encrypt(su, noise, reply);
    assert OnWire(e.cipher)[2..] == e.cipher;
  }

  /** A request, the state of the shared task pool when it arrives, and what the outside supplies. */
  datatype Exchange = Exchange(q: Request, pool: TaskPool.Slots, env: Env)

  /** Standard requests that reach their client, the signed ones with strictly increasing numbers above the last one. */
  predicate Rising(xs: seq<Exchange>, last: u32)
    decreases |xs|
  {
    xs == [] ||
    (var q := xs[0].q;
     q.Standard() && xs[0].env.sent && (q.Signed() ==> Read32(q.data) > last)
     && Rising(xs[1..], if q.Signed() then Read32(q.data) else last))
  }

  /** Each request in turn is dispatched and answered, and the session waits for the next. */
  ghost predicate AllServed(su: Suite, a: State, c: Ctx, xs: seq<Exchange>)
    decreases |xs|
  {
    Waiting(su, a, c)
    && (xs == [] ||
        (xs[0].q.Standard() &&
         (var s := Transport.Encrypt(su, a, RequestText(su, a.sendKey, xs[0].q));
          var t := Handle(su, c, xs[0].pool, Some(s.cipher), xs[0].env);
          ServedAs(c, t, xs[0].q) && Answers(su, s.next, c, xs[0].pool, xs[0].env, t)
          && AllServed(su, Transport.Decrypt(su, s.next, t.wire[2..]).next, t.ctx, xs[1..]))))
  }

  lemma {:induction false} ConversationServed(su: Suite, a: State, c: Ctx, xs: seq<Exchange>)
    requires Waiting(su, a, c) && Rising(xs, c.last)
    ensures AllServed(su, a, c, xs)
    decreases |xs|
  {
    hide Handle, RequestText, Transport.Encrypt, Transport.Decrypt, Epoch, Read32, ReplyBytes, Dispatch;
    if xs != [] {
      var x := xs[0];
      RequestServed(su, a, c, x.pool, x.q, x.env);
      var s := Transport.Encrypt(su, a, RequestText(su, a.sendKey, x.q));
      var t := Handle(su, c, x.pool, Some(s.cipher), x.env);
      HandleGates(su, c, x.pool, Some(s.cipher), x.env);
      ConversationServed(su, Transport.Decrypt(su, s.next, t.wire[2..]).next, t.ctx, xs[1..]);
    }
  }

  /** Once a handshake has left mirrored states, every conversation of requests with rising numbers is served in full,
      whatever the other sessions do to the task pool in between. */
  lemma AfterHandshake(su: Suite, client: State, server: State, id: u16, xs: seq<Exchange>)
    requires Mirrored(client, server) && Rising(xs, 0)
    ensures AllServed(su, client, Opened(su, id, server).ctx, xs)
  {
    hide Epoch, AllServed, Rising;
    ConversationServed(su, client, Opened(su, id, server).ctx, xs);
  }
}
