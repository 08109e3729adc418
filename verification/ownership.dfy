/** Whose tasks a connection can reach: the service with its session numbers drawn from the counter. */
module Ownership {
  import opened Machine
  import ByteStrings
  import opened Apdu
  import opened Noise
  import opened Dispatcher
  import opened TaskPool
  import Tasks
  import Pools
  import Session
  import Runs = SessionRuns

  /** The service; the session numbers drawn so far; those whose connections have not reached their packet loop and have not
      ended; the number of each connection that reached its loop; and the number of the connection whose request last filled
      each task slot. */
  datatype World = World(service: Runs.World, started: nat, shaking: set<nat>, numbers: seq<nat>, owners: seq<nat>)

  /** A connection draws a number; one that has a number reaches its loop; one ends before that, which releases the tasks of
      its id if it had sent the magic; or anything else happens to the service. */
  datatype Event = Draw | Admit(n: nat, noise: State) | GiveUp(n: nat, greeted: bool) | Other(e: Runs.Event)

  function Start(): World {
    World(Runs.Start(), 0, {}, [], seq(POOL_SIZE, _ => 0))
  }

  predicate Shaped(w: World) {
    Runs.Shaped(w.service) && |w.numbers| == |w.service.conns| && |w.owners| == POOL_SIZE
  }

  predicate IsRestart(e: Option<Effect>) { e.Some? && e.value.RunRestart? }

  /** The slot an event fills, or POOL_SIZE. */
  function Filled(su: Suite, w: Runs.World, e: Runs.Event): (k: nat)
    requires Runs.Shaped(w)
    ensures k <= POOL_SIZE
  {
    if !e.Packet? || e.i >= |w.conns| || !w.conns[e.i].ctx.open then POOL_SIZE
    else if IsRestart(Session.Handle(su, w.conns[e.i].ctx, w.pool, e.packet, e.env).effect) then First(Sweep(w.pool, e.env.now), IsEmpty())
    else POOL_SIZE
  }

  function Step(su: Suite, w: World, e: Event): (r: World)
    requires Shaped(w)
    ensures Shaped(r)
  {
    match e
    case Draw => w.(started := w.started + 1, shaking := w.shaking + {w.started})
    case Admit(n, noise) =>
      if n !in w.shaking || !noise.Ok() then w
      else
        w.(service := Runs.Step(su, w.service, Runs.Connect(Pools.SessionId(n), noise)),
           shaking := w.shaking - {n}, numbers := w.numbers + [n])
    case GiveUp(n, greeted) =>
      if n !in w.shaking then w
      else
        w.(service := if greeted then Runs.Step(su, w.service, Runs.Leave(Pools.SessionId(n))) else w.service,
           shaking := w.shaking - {n})
    case Other(x) =>
      if x.Connect? || x.Leave? then w
      else
        var k := Filled(su, w.service, x);
        w.(service := Runs.Step(su, w.service, x), owners := if k < POOL_SIZE then w.owners[k := w.numbers[x.i]] else w.owners)
  }

  function Run(su: Suite, w: World, es: seq<Event>): (r: World)
    requires Shaped(w)
    ensures Shaped(r)
    decreases |es|
  {
    if es == [] then w else Run(su, Step(su, w, es[0]), es[1..])
  }

  // ---- Every slot in use has an open owner ----

  predicate OwnedBy(w: World, k: nat, i: nat)
    requires Shaped(w) && k < POOL_SIZE
  {
    i < |w.numbers| && w.service.conns[i].ctx.open && w.owners[k] == w.numbers[i] && w.service.pool[k].session == Pools.SessionId(w.numbers[i])
  }

  ghost predicate Owned(w: World, k: nat)
    requires Shaped(w) && k < POOL_SIZE
  {
    w.service.pool[k].status != Empty ==> exists i: nat :: OwnedBy(w, k, i)
  }

  ghost predicate NumbersOk(w: World)
    requires Shaped(w)
  {
    && (forall i | 0 <= i < |w.numbers| :: w.numbers[i] < w.started && w.service.conns[i].ctx.id == Pools.SessionId(w.numbers[i]))
    && (forall i, j | 0 <= i < j < |w.numbers| :: w.numbers[i] != w.numbers[j])
    && (forall n | n in w.shaking :: n < w.started && n !in w.numbers)
  }

  ghost predicate WorldOk(su: Suite, w: World) {
    Shaped(w) && Runs.WorldOk(su, w.service) && NumbersOk(w) && forall k | 0 <= k < POOL_SIZE :: Owned(w, k)
  }

  /** What dispatching does to one slot: a slot in use after it was in use before under the same session, unless it is the
      one a restart fills for the dispatching session. */
  lemma DispatchSlot(s: Slots, f: Frame, session: u16, env: Env, k: nat)
    requires Tasks.SlotsOk(s) && k < POOL_SIZE
    ensures
      var d := Dispatch(s, f, session, env);
      d.slots[k].status != Empty ==>
        if IsRestart(d.effect) && k == First(Sweep(s, env.now), IsEmpty()) then d.slots[k].session == session
        else s[k].status != Empty && s[k].session == d.slots[k].session
  {
    hide Tasks.Restart, Tasks.Query, First, Sweep, Tasks.SlotsOk, InCaps, Throttle;
    RestartSlot(s, f, session, env, k);
    QuerySlot(s, f, session, env.now, k);
    ThrottleIsNoRestart(f, env.kill);
  }

  lemma ThrottleIsNoRestart(f: Frame, kill: KillResult)
    ensures !IsRestart(Throttle(f, kill).1)
  {
  }

  lemma RestartSlot(s: Slots, f: Frame, session: u16, env: Env, k: nat)
    requires Tasks.SlotsOk(s) && k < POOL_SIZE
    ensures
      var o := Tasks.Restart(s, f, session, env.now, env.fork, env.random);
      o.slots[k].status != Empty ==>
        if o.forked.Some? && k == First(Sweep(s, env.now), IsEmpty()) then o.slots[k].session == session
        else s[k].status != Empty && s[k].session == o.slots[k].session
  {
    hide Tasks.NameValid, FindPending, First, Tasks.SlotsOk;
  }

  lemma QuerySlot(s: Slots, f: Frame, session: u16, now: int, k: nat)
    requires Tasks.SlotsOk(s) && k < POOL_SIZE
    ensures
      var o := Tasks.Query(s, f, session, now);
      o.slots[k].status != Empty ==> s[k].status != Empty && s[k].session == o.slots[k].session
  {
    hide FindHandle, Free, Tasks.SlotsOk, ByteStrings.Read32;
    Tasks.SweepKeeps(s, now);
    if |f.data| >= 4 { Tasks.LookupIsOwn(Sweep(s, now), ByteStrings.Read32(f.data), session); }
  }

  /** One packet: the same, with the slots of the session cleared if it leaves its loop. */
  lemma PacketSlot(su: Suite, w: Runs.World, i: nat, packet: Option<bytes>, env: Env, k: nat)
    requires Runs.Shaped(w) && Tasks.SlotsOk(w.pool) && i < |w.conns| && w.conns[i].ctx.open && k < POOL_SIZE
    ensures
      var c, r := w.conns[i].ctx, Runs.Step(su, w, Runs.Packet(i, packet, env));
      && |r.conns| == |w.conns| && r.conns[i].ctx.id == c.id && (forall j | 0 <= j < |w.conns| && j != i :: r.conns[j] == w.conns[j])
      && (r.pool[k].status != Empty ==>
            && (r.conns[i].ctx.open || r.pool[k].session != c.id)
            && if k == Filled(su, w, Runs.Packet(i, packet, env)) then r.pool[k].session == c.id
               else w.pool[k].status != Empty && w.pool[k].session == r.pool[k].session)
  {
    hide Session.Handle, Session.Account, Session.Gate, Dispatch, Tasks.SlotsOk, Runs.Advance, First;
    var c := w.conns[i].ctx;
    Session.HandleGates(su, c, w.pool, packet, env);
    AdvanceCtx(w.conns[i], Session.Handle(su, c, w.pool, packet, env));
    var t := Session.Handle(su, c, w.pool, packet, env);
    NoFrameNoEffect(c, t);
    if t.ran.Some? {
      DispatchSlot(w.pool, t.ran.value, c.id, env, k);
    }
  }

  lemma NoFrameNoEffect(before: Session.Ctx, t: Session.Turn)
    requires Session.Account(before, t)
    ensures t.ran.None? ==> t.effect.None?
  {
  }

  lemma AdvanceCtx(c: Runs.Conn, t: Session.Turn)
    ensures Runs.Advance(c, t).ctx == t.ctx
  {
  }

  lemma StillOwned(w: World, r: World, k: nat, i: nat)
    requires Shaped(w) && Shaped(r) && k < POOL_SIZE && OwnedBy(w, k, i)
    requires |r.numbers| >= |w.numbers| && r.numbers[..|w.numbers|] == w.numbers && r.owners[k] == w.owners[k]
    requires r.service.conns[i].ctx.open && r.service.pool[k].session == w.service.pool[k].session
    ensures Owned(r, k)
  {
    assert r.numbers[i] == r.numbers[..|w.numbers|][i];
    assert OwnedBy(r, k, i);
  }

  lemma PacketKeeps(su: Suite, w: World, i: nat, packet: Option<bytes>, env: Env)
    requires WorldOk(su, w)
    ensures WorldOk(su, Step(su, w, Other(Runs.Packet(i, packet, env))))
  {
    hide Session.Handle, Runs.Step, Runs.ConnOk, Tasks.SlotsOk, Pools.SessionId, Filled, Owned;
    var e := Runs.Packet(i, packet, env);
    Runs.StepKeeps(su, w.service, e);
    var r := Step(su, w, Other(e));
    if i >= |w.service.conns| || !w.service.conns[i].ctx.open {
      NoTurn(su, w.service, i, packet, env);
    } else {
      PacketSlot(su, w.service, i, packet, env, 0);
      forall k | 0 <= k < POOL_SIZE ensures Owned(r, k) {
        PacketSlot(su, w.service, i, packet, env, k);
        SlotKept(su, w, r, i, k, Filled(su, w.service, e));
      }
    }
  }

  lemma SlotKept(su: Suite, w: World, r: World, i: nat, k: nat, filled: nat)
    requires Shaped(w) && Shaped(r) && NumbersOk(w) && k < POOL_SIZE && Owned(w, k) && i < |w.numbers| && w.service.conns[i].ctx.open
    requires r.numbers == w.numbers && r.shaking == w.shaking && r.owners == if filled < POOL_SIZE then w.owners[filled := w.numbers[i]] else w.owners
    requires forall j | 0 <= j < |w.numbers| && j != i :: r.service.conns[j] == w.service.conns[j]
    requires
      r.service.pool[k].status != Empty ==>
        && (r.service.conns[i].ctx.open || r.service.pool[k].session != w.service.conns[i].ctx.id)
        && if k == filled then r.service.pool[k].session == w.service.conns[i].ctx.id
           else w.service.pool[k].status != Empty && w.service.pool[k].session == r.service.pool[k].session
    ensures Owned(r, k)
  {
    hide Pools.SessionId;
    if r.service.pool[k].status != Empty {
      if k == filled {
        assert OwnedBy(r, k, i);
      } else {
        var j: nat :| OwnedBy(w, k, j);
        assert r.numbers[..|w.numbers|] == w.numbers;
        StillOwned(w, r, k, j);
      }
    }
  }

  /** A session that is not there or has left its loop is not served. */
  lemma NoTurn(su: Suite, w: Runs.World, i: nat, packet: Option<bytes>, env: Env)
    requires Runs.Shaped(w) && (i >= |w.conns| || !w.conns[i].ctx.open)
    ensures Runs.Step(su, w, Runs.Packet(i, packet, env)) == w && Filled(su, w, Runs.Packet(i, packet, env)) == POOL_SIZE
  {
  }

  lemma UpdateSlot(s: Slots, pid: int, status: TaskPool.Status, k: nat)
    requires k < POOL_SIZE && status != Empty
    ensures Update(s, pid, status)[k].session == s[k].session && (Update(s, pid, status)[k].status != Empty <==> s[k].status != Empty)
  {
  }

  lemma ExitKeeps(su: Suite, w: World, pid: int, clean: bool)
    requires WorldOk(su, w)
    ensures WorldOk(su, Step(su, w, Other(Runs.ChildExit(pid, clean))))
  {
    hide Runs.WorldOk, Owned, Update, Pools.SessionId;
    var e := Runs.ChildExit(pid, clean);
    Runs.StepKeeps(su, w.service, e);
    var r := Step(su, w, Other(e));
    assert r.numbers[..|w.numbers|] == w.numbers;
    forall k | 0 <= k < POOL_SIZE ensures Owned(r, k) {
      UpdateSlot(w.service.pool, pid, if clean then Success else Failure, k);
      OwnedStays(w, r, k);
    }
  }

  lemma ConnectStep(su: Suite, w: Runs.World, id: u16, noise: State)
    requires Runs.Shaped(w) && noise.Ok()
    ensures
      var r := Runs.Step(su, w, Runs.Connect(id, noise));
      r.pool == w.pool && |r.conns| == |w.conns| + 1 && (forall i | 0 <= i < |w.conns| :: r.conns[i] == w.conns[i]) && r.conns[|w.conns|].ctx.id == id
  {
    hide Session.Epoch;
  }

  lemma AdmitKeeps(su: Suite, w: World, n: nat, noise: State)
    requires WorldOk(su, w)
    ensures WorldOk(su, Step(su, w, Admit(n, noise)))
  {
    hide Runs.WorldOk, Runs.Step, Owned, Pools.SessionId;
    var r := Step(su, w, Admit(n, noise));
    if n in w.shaking && noise.Ok() {
      Runs.StepKeeps(su, w.service, Runs.Connect(Pools.SessionId(n), noise));
      ConnectStep(su, w.service, Pools.SessionId(n), noise);
      assert r.numbers[..|w.numbers|] == w.numbers;
      forall k | 0 <= k < POOL_SIZE ensures Owned(r, k) {
        OwnedStays(w, r, k);
      }
    }
  }

  lemma OwnedStays(w: World, r: World, k: nat)
    requires Shaped(w) && Shaped(r) && k < POOL_SIZE && Owned(w, k)
    requires |r.numbers| >= |w.numbers| && r.numbers[..|w.numbers|] == w.numbers && r.owners[k] == w.owners[k]
    requires forall i | 0 <= i < |w.numbers| :: r.service.conns[i].ctx.open == w.service.conns[i].ctx.open
    requires
      r.service.pool[k].status != Empty ==>
        w.service.pool[k].status != Empty && r.service.pool[k].session == w.service.pool[k].session
    ensures Owned(r, k)
  {
    hide Pools.SessionId;
    if r.service.pool[k].status != Empty {
      var i: nat :| OwnedBy(w, k, i);
      StillOwned(w, r, k, i);
    }
  }

  lemma DrawKeeps(su: Suite, w: World)
    requires WorldOk(su, w)
    ensures WorldOk(su, Step(su, w, Draw))
  {
    hide Runs.WorldOk, Owned, Pools.SessionId;
    var r := Step(su, w, Draw);
    assert r.numbers[..|w.numbers|] == w.numbers;
    forall k | 0 <= k < POOL_SIZE ensures Owned(r, k) {
      OwnedStays(w, r, k);
    }
  }

  lemma GiveUpKeeps(su: Suite, w: World, n: nat, greeted: bool)
    requires WorldOk(su, w)
    ensures WorldOk(su, Step(su, w, GiveUp(n, greeted)))
  {
    hide Runs.WorldOk, Owned, Pools.SessionId, Release;
    var r := Step(su, w, GiveUp(n, greeted));
    Runs.StepKeeps(su, w.service, Runs.Leave(Pools.SessionId(n)));
    assert r.numbers[..|w.numbers|] == w.numbers;
    forall k | 0 <= k < POOL_SIZE ensures Owned(r, k) {
      ReleasedSlot(w.service.pool, Pools.SessionId(n), k);
      OwnedStays(w, r, k);
    }
  }

  /** Releasing a session clears its slots in use and leaves all others as they are. */
  lemma ReleasedSlot(s: Slots, id: u16, k: nat)
    requires k < POOL_SIZE
    ensures Release(s, id)[k] == if s[k].status != Empty && s[k].session == id then ZERO else s[k]
    ensures ZERO.status == Empty
  {
  }

  lemma StepKeeps(su: Suite, w: World, e: Event)
    requires WorldOk(su, w)
    ensures WorldOk(su, Step(su, w, e))
  {
    hide WorldOk, Runs.Step, Filled;
    match e {
      case Draw => DrawKeeps(su, w);
      case Admit(n, noise) => AdmitKeeps(su, w, n, noise);
      case GiveUp(n, greeted) => GiveUpKeeps(su, w, n, greeted);
      case Other(Connect(_, _)) =>
      case Other(Leave(_)) =>
      case Other(Packet(i, packet, env)) => PacketKeeps(su, w, i, packet, env);
      case Other(ChildExit(pid, clean)) => ExitKeeps(su, w, pid, clean);
    }
  }

  lemma {:induction false} RunKeeps(su: Suite, w: World, es: seq<Event>)
    requires Shaped(w) && WorldOk(su, w)
    ensures WorldOk(su, Run(su, w, es))
    decreases |es|
  {
    hide WorldOk, Step, Shaped;
    if es != [] {
      StepKeeps(su, w, es[0]);
      RunKeeps(su, Step(su, w, es[0]), es[1..]);
    }
  }

  lemma StartOk(su: Suite)
    ensures WorldOk(su, Start())
  {
  }

  // ---- What a connection reaches ----

  /** The numbers of the connections that have drawn one and have not ended. */
  function AtWork(w: World): set<nat>
    requires Shaped(w)
  {
    w.shaking + set i | 0 <= i < |w.numbers| && w.service.conns[i].ctx.open :: w.numbers[i]
  }

  /** No two of them are a multiple of 65535 apart. */
  predicate Apart(w: World)
    requires Shaped(w)
  {
    forall m, n | m in AtWork(w) && n in AtWork(w) && m != n :: m % 65535 != n % 65535
  }

  predicate Congruent(m: nat, n: nat) { m % 65535 == n % 65535 }

  lemma SameId(m: nat, n: nat)
    ensures Pools.SessionId(m) == Pools.SessionId(n) <==> Congruent(m, n)
  {
    hide Pools.SessionId;
    Pools.SessionIdCloses(m);
    Pools.SessionIdCloses(n);
  }

  /** A slot in use carries the id of a number exactly when its owner's number is congruent; its owner is an open connection.
      While the numbers at work are apart, the owner itself is the only such number among them. */
  lemma SlotOfNumber(su: Suite, w: World, n: nat, k: nat)
    requires WorldOk(su, w) && k < POOL_SIZE && w.service.pool[k].status != Empty
    ensures w.service.pool[k].session == Pools.SessionId(n) <==> Congruent(w.owners[k], n)
    ensures w.owners[k] in AtWork(w) && w.owners[k] !in w.shaking
    ensures Apart(w) && n in AtWork(w) ==> (Congruent(w.owners[k], n) <==> w.owners[k] == n)
  {
    hide Runs.WorldOk, Pools.SessionId;
    assert Owned(w, k);
    var j: nat :| OwnedBy(w, k, j);
    SameId(w.numbers[j], n);
  }

  /** The session id alone decides whether a lookup reaches some slot with a live slot's handle, and whether the end of a
      session clears the slot. */
  lemma ReachIsId(s: Slots, id: u16, k: nat)
    requires Tasks.SlotsOk(s) && k < POOL_SIZE && s[k].status != Empty
    ensures FindHandle(s, s[k].handle, id) < POOL_SIZE <==> s[k].session == id
    ensures Release(s, id)[k] == ZERO <==> s[k].session == id
  {
    assert Tasks.SlotOk(s[k]);
    assert IsLiveHandle(s[k].handle)(s[k]);
  }

  lemma NumberOfConnection(w: World, i: nat)
    requires Shaped(w) && NumbersOk(w) && i < |w.numbers| && w.service.conns[i].ctx.open
    ensures w.numbers[i] in AtWork(w) && w.service.conns[i].ctx.id == Pools.SessionId(w.numbers[i])
  {
    hide Pools.SessionId;
  }

  /** In every run of the service with numbers drawn from the counter: what an open connection's query finds by any handle,
      what its restart finds pending under any name, and what its end clears, are tasks whose owner has a congruent number; and as long as no two numbers at work are a
      multiple of 65535 apart, exactly its own. */
  lemma OwnTasksOnly(su: Suite, es: seq<Event>, i: nat, k: nat, handle: u32, name: bytes)
    ensures
      var w := Run(su, Start(), es);
      i < |w.numbers| && w.service.conns[i].ctx.open && k < POOL_SIZE && w.service.pool[k].status != Empty ==>
        var pool, id, congruent := w.service.pool, w.service.conns[i].ctx.id, Congruent(w.owners[k], w.numbers[i]);
        && (FindHandle(pool, pool[k].handle, id) < POOL_SIZE <==> congruent) && (Release(pool, id)[k] == ZERO <==> congruent)
        && (Apart(w) ==> (congruent <==> w.owners[k] == w.numbers[i]))
        && (k == FindHandle(pool, handle, id) || k == First(pool, IsPendingFor(id, name)) ==> congruent)
  {
    hide Run, Runs.ConnOk, FindHandle, First, Release, Tasks.SlotsOk, Owned, Apart, AtWork, Congruent, Pools.SessionId;
    StartOk(su);
    RunKeeps(su, Start(), es);
    var w := Run(su, Start(), es);
    if i < |w.numbers| && w.service.conns[i].ctx.open && k < POOL_SIZE && w.service.pool[k].status != Empty {
      NumberOfConnection(w, i);
      SlotOfNumber(su, w, w.numbers[i], k);
      ReachIsId(w.service.pool, w.service.conns[i].ctx.id, k);
      Tasks.LookupIsOwn(w.service.pool, handle, w.service.conns[i].ctx.id);
    }
  }

  /** In every run, the end of a connection that has not reached its loop clears a slot in use exactly when it had sent the
      magic and the slot's owner, always another connection, has a congruent number; and it changes no slot at all as long as
      no two numbers at work are a multiple of 65535 apart. */
  lemma HandshakeEnds(su: Suite, es: seq<Event>, n: nat, greeted: bool, k: nat)
    ensures
      var w := Run(su, Start(), es);
      n in w.shaking ==>
        var pool, after := w.service.pool, Step(su, w, GiveUp(n, greeted)).service.pool;
        && (k < POOL_SIZE && pool[k].status != Empty ==>
              w.owners[k] != n && (after[k] == ZERO <==> greeted && Congruent(w.owners[k], n)) && (after[k] != ZERO ==> after[k] == pool[k]))
        && (Apart(w) ==> after == pool)
  {
    hide Run, Runs.ConnOk, Runs.WorldOk, Release, Tasks.SlotsOk, Owned, Apart, Congruent, Pools.SessionId;
    StartOk(su);
    RunKeeps(su, Start(), es);
    var w := Run(su, Start(), es);
    if n in w.shaking {
      var pool, id := w.service.pool, Pools.SessionId(n);
      forall j | 0 <= j < POOL_SIZE
        ensures pool[j].status != Empty ==> w.owners[j] != n && (pool[j].session == id <==> Congruent(w.owners[j], n))
        ensures Release(pool, id)[j] == if pool[j].status != Empty && pool[j].session == id then ZERO else pool[j]
        ensures Apart(w) ==> Release(pool, id)[j] == pool[j]
      {
        ReleasedSlot(pool, id, j);
        if pool[j].status != Empty { SlotOfNumber(su, w, n, j); }
      }
    }
  }

  // ---- What a connection leaves alone ----

  /** Dispatching for one session leaves a slot in use of another as it is, or as the sweep leaves it. */
  lemma DispatchOther(s: Slots, f: Frame, session: u16, env: Env, k: nat)
    requires Tasks.SlotsOk(s) && k < POOL_SIZE && s[k].session != session && Sweep(s, env.now)[k].status != Empty
    ensures var d := Dispatch(s, f, session, env).slots; d[k] == s[k] || d[k] == Sweep(s, env.now)[k]
  {
    hide Tasks.Restart, Tasks.Query, Sweep, Tasks.SlotsOk, InCaps, Throttle;
    RestartOther(s, f, session, env, k);
    QueryOther(s, f, session, env.now, k);
  }

  lemma RestartOther(s: Slots, f: Frame, session: u16, env: Env, k: nat)
    requires k < POOL_SIZE && Sweep(s, env.now)[k].status != Empty
    ensures
      var d := Tasks.Restart(s, f, session, env.now, env.fork, env.random).slots;
      d[k] == s[k] || d[k] == Sweep(s, env.now)[k]
  {
    hide Tasks.NameValid, FindPending, First, Sweep;
  }

  lemma QueryOther(s: Slots, f: Frame, session: u16, now: int, k: nat)
    requires Tasks.SlotsOk(s) && k < POOL_SIZE && s[k].session != session && Sweep(s, now)[k].status != Empty
    ensures var d := Tasks.Query(s, f, session, now).slots; d[k] == s[k] || d[k] == Sweep(s, now)[k]
  {
    hide FindHandle, Free, Tasks.SlotsOk, ByteStrings.Read32, Sweep;
    var swept := Sweep(s, now);
    assert swept[k] == SweepEntry(s[k], now);
    Tasks.SweepKeeps(s, now);
    if |f.data| >= 4 { Tasks.LookupIsOwn(swept, ByteStrings.Read32(f.data), session); }
  }

  lemma PacketOther(su: Suite, w: Runs.World, i: nat, packet: Option<bytes>, env: Env, k: nat)
    requires Runs.Shaped(w) && Tasks.SlotsOk(w.pool) && i < |w.conns| && w.conns[i].ctx.open && k < POOL_SIZE
    requires w.pool[k].session != w.conns[i].ctx.id && Sweep(w.pool, env.now)[k].status != Empty
    ensures
      var r := Runs.Step(su, w, Runs.Packet(i, packet, env)).pool;
      r[k] == w.pool[k] || r[k] == Sweep(w.pool, env.now)[k]
  {
    hide Session.Handle, Session.Account, Session.Gate, Dispatch, Tasks.SlotsOk, Runs.Advance, Sweep, Release;
    var c := w.conns[i].ctx;
    Session.HandleGates(su, c, w.pool, packet, env);
    var t := Session.Handle(su, c, w.pool, packet, env);
    if t.ran.Some? { DispatchOther(w.pool, t.ran.value, c.id, env, k); }
    assert Sweep(w.pool, env.now)[k] == SweepEntry(w.pool[k], env.now);
    ReleasedSlot(t.pool, c.id, k);
  }

  /** In every run, as long as no two numbers at work are a multiple of 65535 apart, a packet of one connection changes a
      slot in use of another only as a sweep by age does: such a slot is left alone, times out, or is cleared for its age (and
      may then be filled anew). */
  lemma OthersUntouched(su: Suite, es: seq<Event>, i: nat, packet: Option<bytes>, env: Env, k: nat)
    ensures
      var w := Run(su, Start(), es);
      Apart(w) && i < |w.numbers| && k < POOL_SIZE && w.service.pool[k].status != Empty && w.owners[k] != w.numbers[i] ==>
        var swept, r := Sweep(w.service.pool, env.now), Step(su, w, Other(Runs.Packet(i, packet, env))).service.pool;
        swept[k].status != Empty ==> r[k] == w.service.pool[k] || r[k] == swept[k]
  {
    hide Run, Runs.Step, Runs.ConnOk, Sweep, Tasks.SlotsOk, Owned, Apart, AtWork, Congruent, Pools.SessionId, Filled;
    StartOk(su);
    RunKeeps(su, Start(), es);
    var w := Run(su, Start(), es);
    if i < |w.numbers| && k < POOL_SIZE && w.service.pool[k].status != Empty && w.owners[k] != w.numbers[i] {
      if !w.service.conns[i].ctx.open {
        NoTurn(su, w.service, i, packet, env);
      } else if Apart(w) && Sweep(w.service.pool, env.now)[k].status != Empty {
        NumberOfConnection(w, i);
        SlotOfNumber(su, w, w.numbers[i], k);
        PacketOther(su, w.service, i, packet, env, k);
      }
    }
  }
}
