/** Runs of the task pool under several sessions, child exits and a clock. */
module TaskRuns {
  import opened Machine
  import opened ByteStrings
  import opened Apdu
  import opened TaskPool
  import opened Tasks

  // ---- Single pool operations ----

  datatype Op =
    | OpSweep(now: int)
    | OpAlloc(session: u16, name: bytes, pid: int, random: u16, now: int)
    | OpUpdate(pid: int, clean: bool)
    | OpFree(handle: u32)
    | OpRelease(session: u16)

  function ExitStatus(clean: bool): Status { if clean then Success else Failure }

  function Apply(s: Slots, op: Op): Slots {
    match op
    case OpSweep(now) => Sweep(s, now)
    case OpAlloc(session, name, pid, random, now) => Alloc(s, session, name, pid, random, now).0
    case OpUpdate(pid, clean) => Update(s, pid, ExitStatus(clean))
    case OpFree(handle) => Free(s, handle)
    case OpRelease(session) => Release(s, session)
  }

  function ApplyAll(s: Slots, ops: seq<Op>): Slots
    decreases |ops|
  {
    if ops == [] then s else ApplyAll(Apply(s, ops[0]), ops[1..])
  }

  predicate Terminal(st: Status) { st in {Success, Failure, Timeout, Cancelled} }

  /** Empty to Pending, Pending to a result for the same allocation, a result to Empty; or no change. */
  ghost predicate Edge(a: Entry, b: Entry) {
    || a == b
    || (a.status == Empty && b.status == Pending)
    || (a.status == Pending && Terminal(b.status) && b == a.(status := b.status))
    || (Terminal(a.status) && b == ZERO)
  }

  /** Every operation but freeing moves every slot along one edge, or clears it for its own session's release. */
  lemma OpsFollowEdges(s: Slots, op: Op, i: nat)
    requires SlotsOk(s) && i < POOL_SIZE && !op.OpFree?
    ensures var r := Apply(s, op)[i]; Edge(s[i], r) || (op.OpRelease? && s[i].session == op.session && r == ZERO)
  {
    assert SlotOk(s[i]);
  }

  // ---- Clean-up by age ----

  /** A sweep leaves no over-age pending slot and does not touch a slot within its time to live. */
  lemma OneSweep(s: Slots, now: int, i: nat)
    requires i < POOL_SIZE
    ensures Sweep(s, now)[i].status == Pending ==> !OverAge(Sweep(s, now)[i], now)
    ensures !OverAge(s[i], now) ==> Sweep(s, now)[i] == s[i]
  {
  }

  ghost predicate Doomed(e: Entry, now: int) {
    e == ZERO || (Terminal(e.status) && OverAge(e, now))
  }

  lemma {:induction false} DoomedStays(s: Slots, ops: seq<Op>, now: int, i: nat)
    requires i < POOL_SIZE && Doomed(s[i], now) && forall op | op in ops :: !op.OpAlloc?
    ensures Doomed(ApplyAll(s, ops)[i], now)
    decreases |ops|
  {
    if ops != [] {
      assert !ops[0].OpAlloc?;
      DoomedStays(Apply(s, ops[0]), ops[1..], now, i);
    }
  }

  /** Two sweeps with no allocation between them empty every slot that was over age at the first. */
  lemma TwoSweeps(s: Slots, t1: int, ops: seq<Op>, t2: int, i: nat)
    requires i < POOL_SIZE && s[i].status != Empty && OverAge(s[i], t1) && t1 <= t2
    requires forall op | op in ops :: !op.OpAlloc?
    ensures Sweep(ApplyAll(Sweep(s, t1), ops), t2)[i] == ZERO
  {
    DoomedStays(Sweep(s, t1), ops, t1, i);
  }

  // ---- Runs ----

  datatype Event =
    | RestartRequest(f: Frame, session: u16, now: int, fork: Fork, random: u16)
    | QueryRequest(f: Frame, session: u16, now: int)
    | ChildExit(pid: int, clean: bool)
    | Disconnect(session: u16)

  /** An allocation: the child that fork returned for it, and the number of exits seen when it was made. */
  datatype Birth = Birth(pid: int, from: nat)

  /** A terminal status told to a client, with the number of the allocation. */
  datatype Delivery = Delivery(id: nat, status: Status)
  datatype Exit = Exit(pid: int, clean: bool)

  /** The slots, the number of the allocation each slot holds or last held, the allocations made so far, the terminal
      statuses delivered to clients, and the child exits seen so far. */
  datatype World = World(slots: Slots, ids: seq<nat>, births: seq<Birth>, delivered: seq<Delivery>, exits: seq<Exit>)

  function Start(): World {
    World(seq(POOL_SIZE, _ => ZERO), seq(POOL_SIZE, _ => 0), [], [], [])
  }

  predicate Shaped(w: World) { |w.ids| == POOL_SIZE }

  function Step(w: World, e: Event): (r: World)
    requires Shaped(w)
    ensures Shaped(r)
  {
    match e
    case RestartRequest(f, session, now, fork, random) =>
      var o := Restart(w.slots, f, session, now, fork, random);
      if o.forked.None? || !fork.Forked? then w.(slots := o.slots)
      else
        var i := First(Sweep(w.slots, now), IsEmpty());
        if i == POOL_SIZE then w.(slots := o.slots)
        else w.(slots := o.slots, ids := w.ids[i := |w.births|], births := w.births + [Birth(fork.pid, |w.exits|)])
    case QueryRequest(f, session, now) =>
      var o := Query(w.slots, f, session, now);
      if |f.data| < 4 then w
      else
        var swept := Sweep(w.slots, now);
        var i := FindHandle(swept, Read32(f.data), session);
        if i < POOL_SIZE && swept[i].status != Pending
        then w.(slots := o.slots, delivered := w.delivered + [Delivery(w.ids[i], swept[i].status)])
        else w.(slots := o.slots)
    case ChildExit(pid, clean) => w.(slots := Update(w.slots, pid, ExitStatus(clean)), exits := w.exits + [Exit(pid, clean)])
    case Disconnect(session) => w.(slots := Release(w.slots, session))
  }

  function Run(w: World, es: seq<Event>): (r: World)
    requires Shaped(w)
    ensures Shaped(r)
    decreases |es|
  {
    if es == [] then w else Run(Step(w, es[0]), es[1..])
  }

  lemma {:induction false} RunConcat(w: World, a: seq<Event>, b: seq<Event>)
    requires Shaped(w)
    ensures Run(w, a + b) == Run(Run(w, a), b)
    decreases |a|
  {
    hide Step;
    if a == [] {
      assert a + b == b;
    } else {
      assert (a + b)[1..] == a[1..] + b;
      RunConcat(Step(w, a[0]), a[1..], b);
    }
  }

  /** The pool operations an event consists of. */
  function OpsOf(s: Slots, e: Event): seq<Op> {
    match e
    case RestartRequest(f, session, now, fork, random) =>
      if f.Sec() != SIGNED || |f.data| < 5 || !NameValid(f.data[4..]) then []
      else if Restart(s, f, session, now, fork, random).forked.None? then [OpSweep(now)]
      else [OpSweep(now), OpAlloc(session, f.data[4..], if fork.Forked? then fork.pid else 0, random, now)]
    case QueryRequest(f, session, now) =>
      if |f.data| < 4 then []
      else
        var swept := Sweep(s, now);
        var i := FindHandle(swept, Read32(f.data), session);
        if i < POOL_SIZE && swept[i].status != Pending then [OpSweep(now), OpFree(Read32(f.data))] else [OpSweep(now)]
    case ChildExit(pid, clean) => [OpUpdate(pid, clean)]
    case Disconnect(session) => [OpRelease(session)]
  }

  /** The handlers do nothing to the slots beyond these operations. */
  lemma StepIsOps(w: World, e: Event)
    requires Shaped(w)
    ensures Step(w, e).slots == ApplyAll(w.slots, OpsOf(w.slots, e))
  {
    hide Sweep, Alloc, Free, FindHandle, FindPending, First, NameValid, Release, Update, Read32;
    var ops := OpsOf(w.slots, e);
    if |ops| == 1 {
      assert ApplyAll(w.slots, ops) == ApplyAll(Apply(w.slots, ops[0]), ops[1..]) && ops[1..] == [];
    } else if |ops| == 2 {
      var s := Apply(w.slots, ops[0]);
      assert ApplyAll(w.slots, ops) == ApplyAll(s, ops[1..]) == ApplyAll(Apply(s, ops[1]), ops[1..][1..]);
      assert ops[1..][1..] == [];
    }
  }

  /** A success or failure is backed by an exit, clean or not, of the child of the allocation after it was made. */
  ghost predicate Backed(status: Status, birth: Birth, exits: seq<Exit>) {
    status in {Success, Failure} ==> exists k | birth.from <= k < |exits| :: exits[k] == Exit(birth.pid, status == Success)
  }

  predicate Live(w: World, i: nat)
    requires i < POOL_SIZE
  {
    w.slots[i].status != Empty
  }

  ghost predicate NumbersOk(w: World)
    requires Shaped(w)
  {
    && (forall i | 0 <= i < POOL_SIZE && Live(w, i) :: w.ids[i] < |w.births|)
    && (forall i, j | 0 <= i < j < POOL_SIZE && Live(w, i) && Live(w, j) :: w.ids[i] != w.ids[j])
    && (forall d | d in w.delivered :: d.id < |w.births| && Terminal(d.status))
    && (forall i | 0 <= i < POOL_SIZE && Live(w, i) :: forall d | d in w.delivered :: d.id != w.ids[i])
    && (forall x, y | 0 <= x < y < |w.delivered| :: w.delivered[x].id != w.delivered[y].id)
  }

  ghost predicate ExitsOk(w: World)
    requires Shaped(w) && NumbersOk(w)
  {
    && (forall b | b in w.births :: b.from <= |w.exits|)
    && (forall i | 0 <= i < POOL_SIZE && Live(w, i) ::
          w.slots[i].pid == w.births[w.ids[i]].pid && Backed(w.slots[i].status, w.births[w.ids[i]], w.exits))
    && (forall d | d in w.delivered :: Backed(d.status, w.births[d.id], w.exits))
  }

  ghost predicate WorldOk(w: World) {
    Shaped(w) && SlotsOk(w.slots) && NumbersOk(w) && ExitsOk(w)
  }

  lemma StartOk()
    ensures WorldOk(Start())
  {
  }

  /** Slots that are emptied or time out, and nothing else, keep the records sound. */
  lemma ShrinkKeeps(w: World, s: Slots)
    requires WorldOk(w)
    requires forall i | 0 <= i < POOL_SIZE && s[i].status != Empty ::
      Live(w, i) && s[i].pid == w.slots[i].pid && (s[i].status == w.slots[i].status || s[i].status == Timeout)
    ensures NumbersOk(w.(slots := s)) && ExitsOk(w.(slots := s))
  {
    var r := w.(slots := s);
    assert forall i | 0 <= i < POOL_SIZE && Live(r, i) :: Live(w, i);
    forall i | 0 <= i < POOL_SIZE && Live(r, i) ensures Backed(r.slots[i].status, r.births[r.ids[i]], r.exits) {
      assert Backed(w.slots[i].status, w.births[w.ids[i]], w.exits);
    }
  }

  lemma SweptOk(w: World, now: int)
    requires WorldOk(w)
    ensures WorldOk(w.(slots := Sweep(w.slots, now)))
  {
    SweepKeeps(w.slots, now);
    ShrinkKeeps(w, Sweep(w.slots, now));
  }

  lemma RestartKeeps(w: World, e: Event)
    requires WorldOk(w) && e.RestartRequest?
    ensures WorldOk(Step(w, e))
  {
    hide Sweep, FindPending, Alloc, NameValid, First, SlotsOk, NumbersOk, ExitsOk;
    SweptOk(w, e.now);
    var v := w.(slots := Sweep(w.slots, e.now));
    var o := Restart(w.slots, e.f, e.session, e.now, e.fork, e.random);
    if o.forked.Some? {
      AllocatedOk(v, e.session, e.f.data[4..], e.fork.pid, e.random, e.now);
    }
  }

  lemma AllocatedOk(v: World, session: u16, name: bytes, pid: int, random: u16, now: int)
    requires WorldOk(v) && NameValid(name) && FindPending(v.slots, session, name) == 0
    requires First(v.slots, IsEmpty()) < POOL_SIZE
    ensures
      var i := First(v.slots, IsEmpty());
      WorldOk(v.(slots := Alloc(v.slots, session, name, pid, random, now).0,
                 ids := v.ids[i := |v.births|], births := v.births + [Birth(pid, |v.exits|)]))
  {
    hide FindPending, SlotsOk;
    AllocKeeps(v.slots, session, name, pid, random, now);
    var i := First(v.slots, IsEmpty());
    var r := v.(slots := Alloc(v.slots, session, name, pid, random, now).0,
                ids := v.ids[i := |v.births|], births := v.births + [Birth(pid, |v.exits|)]);
    assert forall j | 0 <= j < POOL_SIZE && j != i :: r.slots[j] == v.slots[j] && Live(r, j) == Live(v, j);
  }

  lemma QueryKeeps(w: World, e: Event)
    requires WorldOk(w) && e.QueryRequest?
    ensures WorldOk(Step(w, e))
  {
    hide Sweep, FindHandle, Free, First, Read32, NumbersOk, ExitsOk, SlotsOk;
    if |e.f.data| >= 4 {
      SweptOk(w, e.now);
      var v := w.(slots := Sweep(w.slots, e.now));
      var handle := Read32(e.f.data);
      var i := FindHandle(v.slots, handle, e.session);
      LookupIsOwn(v.slots, handle, e.session);
      if i < POOL_SIZE && v.slots[i].status != Pending {
        DeliveredOk(v, i);
      }
    }
  }

  /** Reporting a finished slot and clearing it. */
  lemma DeliveredOk(v: World, i: nat)
    requires WorldOk(v) && i < POOL_SIZE && Terminal(v.slots[i].status)
    ensures WorldOk(v.(slots := v.slots[i := ZERO], delivered := v.delivered + [Delivery(v.ids[i], v.slots[i].status)]))
  {
    hide SlotsOk;
    ClearKeeps(v.slots, i);
    var d := Delivery(v.ids[i], v.slots[i].status);
    var r := v.(slots := v.slots[i := ZERO], delivered := v.delivered + [d]);
    assert Live(v, i) && !Live(r, i);
    assert forall j | 0 <= j < POOL_SIZE && Live(r, j) :: Live(v, j) && j != i;
    assert Backed(v.slots[i].status, v.births[v.ids[i]], v.exits);
  }

  lemma ExitKeeps(w: World, e: Event)
    requires WorldOk(w) && e.ChildExit?
    ensures WorldOk(Step(w, e))
  {
    hide First, SlotsOk;
    UpdateKeeps(w.slots, e.pid, ExitStatus(e.clean));
    var r := Step(w, e);
    assert r.exits[|w.exits|] == Exit(e.pid, e.clean);
    assert forall i | 0 <= i < POOL_SIZE :: Live(r, i) == Live(w, i);
    forall i | 0 <= i < POOL_SIZE && Live(r, i) ensures Backed(r.slots[i].status, r.births[r.ids[i]], r.exits) {
      var b := w.births[w.ids[i]];
      assert Backed(w.slots[i].status, b, w.exits) && b in w.births;
      if r.slots[i].status == w.slots[i].status { StillBacked(r.slots[i].status, b, w.exits, r.exits[|w.exits|]); }
    }
    forall d | d in r.delivered ensures Backed(d.status, r.births[d.id], r.exits) {
      StillBacked(d.status, w.births[d.id], w.exits, r.exits[|w.exits|]);
    }
  }

  lemma StillBacked(status: Status, birth: Birth, exits: seq<Exit>, more: Exit)
    requires Backed(status, birth, exits)
    ensures Backed(status, birth, exits + [more])
  {
    if status in {Success, Failure} {
      var k :| birth.from <= k < |exits| && exits[k] == Exit(birth.pid, status == Success);
      assert (exits + [more])[k] == exits[k];
    }
  }

  /** Every event of every session keeps the slots and the records sound. */
  lemma StepKeeps(w: World, e: Event)
    requires WorldOk(w)
    ensures WorldOk(Step(w, e))
  {
    hide SlotsOk, NumbersOk, ExitsOk;
    match e
    case RestartRequest(_, _, _, _, _) => RestartKeeps(w, e);
    case QueryRequest(_, _, _) => QueryKeeps(w, e);
    case ChildExit(_, _) => ExitKeeps(w, e);
    case Disconnect(session) =>
      ReleaseKeeps(w.slots, session);
      ShrinkKeeps(w, Release(w.slots, session));
  }

  /** A query answers 1, 2 or 3 exactly when a terminal status is delivered, namely that of the slot it clears. */
  lemma DeliveredIsReplied(w: World, e: Event)
    requires WorldOk(w) && e.QueryRequest? && |e.f.data| >= 4
    ensures
      var reply, r := Query(w.slots, e.f, e.session, e.now).reply, Step(w, e);
      |reply.body| == 1 && reply.sw == SW_OK
      && (reply.body[0] in {0x01, 0x02, 0x03} <==> |r.delivered| == |w.delivered| + 1)
      && (reply.body[0] !in {0x01, 0x02, 0x03} ==> r.delivered == w.delivered)
      && (reply.body[0] in {0x01, 0x02, 0x03} ==>
            r.delivered[|w.delivered|].status
              == if reply.body[0] == 1 then Success else if reply.body[0] == 2 then Failure else Timeout)
  {
    hide Sweep, FindHandle, Free, Read32, NumbersOk, ExitsOk;
    SweepKeeps(w.slots, e.now);
    var swept := Sweep(w.slots, e.now);
    var i := FindHandle(swept, Read32(e.f.data), e.session);
    if i < POOL_SIZE {
      LookupIsOwn(swept, Read32(e.f.data), e.session);
      assert SlotOk(swept[i]);
    }
  }

  lemma {:induction false} RunKeeps(w: World, es: seq<Event>)
    requires WorldOk(w)
    ensures WorldOk(Run(w, es))
    decreases |es|
  {
    hide SlotsOk, NumbersOk, ExitsOk, Step;
    if es != [] {
      StepKeeps(w, es[0]);
      RunKeeps(Step(w, es[0]), es[1..]);
    }
  }

  /** Over every run: an allocation delivers at most one terminal status, and a success or failure, delivered or still in
      its slot, had a matching exit, after the allocation, of the child that fork returned for it. */
  lemma EveryRun(es: seq<Event>)
    ensures
      var w := Run(Start(), es);
      && SlotsOk(w.slots)
      && (forall x, y | 0 <= x < y < |w.delivered| :: w.delivered[x].id != w.delivered[y].id)
      && (forall d | d in w.delivered :: Terminal(d.status) && d.id < |w.births| && Backed(d.status, w.births[d.id], w.exits))
      && (forall i | 0 <= i < POOL_SIZE && Live(w, i) :: w.ids[i] < |w.births| && Backed(w.slots[i].status, w.births[w.ids[i]], w.exits))
  {
    StartOk();
    RunKeeps(Start(), es);
  }

  /** The allocations of a run are its restarts that fork, in order, each with the child of its own fork. */
  function Forks(w: World, es: seq<Event>): seq<int>
    requires Shaped(w)
    decreases |es|
  {
    if es == [] then []
    else
      var e := es[0];
      (if e.RestartRequest? && Restart(w.slots, e.f, e.session, e.now, e.fork, e.random).forked.Some? && e.fork.Forked? then [e.fork.pid] else [])
      + Forks(Step(w, e), es[1..])
  }

  function Pids(births: seq<Birth>): (s: seq<int>)
    ensures |s| == |births| && forall k | 0 <= k < |s| :: s[k] == births[k].pid
  {
    seq(|births|, k requires 0 <= k < |births| => births[k].pid)
  }

  lemma {:induction false} BirthsAreForks(w: World, es: seq<Event>)
    requires Shaped(w)
    ensures Pids(Run(w, es).births) == Pids(w.births) + Forks(w, es)
    decreases |es|
  {
    hide Step, Restart, Pids;
    if es != [] {
      StepBirth(w, es[0]);
      BirthsAreForks(Step(w, es[0]), es[1..]);
    }
  }

  lemma StepBirth(w: World, e: Event)
    requires Shaped(w)
    ensures
      Pids(Step(w, e).births)
        == Pids(w.births)
           + if e.RestartRequest? && Restart(w.slots, e.f, e.session, e.now, e.fork, e.random).forked.Some? && e.fork.Forked? then [e.fork.pid]
             else []
  {
    hide Sweep, FindPending, Alloc, NameValid, Query, Read32, FindHandle, Update, Release, First;
  }

  /** The requests that reach their sweep. */
  predicate Sweeps(e: Event) {
    match e
    case RestartRequest(f, _, _, _, _) => f.Sec() == SIGNED && |f.data| >= 5 && NameValid(f.data[4..])
    case QueryRequest(f, _, _) => |f.data| >= 4
    case _ => false
  }

  /** After any request that passes its checks no slot is pending past its time to live; and a slot within it is as before,
      unless the request fills it, or reports and clears it. */
  lemma RequestSweeps(w: World, e: Event, i: nat)
    requires WorldOk(w) && Sweeps(e) && i < POOL_SIZE
    ensures
      var a, b := w.slots[i], Step(w, e).slots[i];
      && (b.status == Pending ==> !OverAge(b, e.now))
      && (!OverAge(a, e.now) ==>
            || b == a
            || (e.RestartRequest? && a == ZERO && b.status == Pending && b.createdAt == e.now && b.session == e.session)
            || (e.QueryRequest? && i == FindHandle(Sweep(w.slots, e.now), Read32(e.f.data), e.session) && Terminal(a.status) && b == ZERO))
  {
    hide NameValid, FindPending, FindHandle, Free, Read32, NumbersOk, ExitsOk, SlotsOk;
    var swept := Sweep(w.slots, e.now);
    SweepKeeps(w.slots, e.now);
    OneSweep(w.slots, e.now, i);
    EmptyIsZero(w.slots, i);
    EmptyIsZero(swept, i);
    if e.QueryRequest? { LookupIsOwn(swept, Read32(e.f.data), e.session); }
  }

  lemma EmptyIsZero(s: Slots, i: nat)
    requires SlotsOk(s) && i < POOL_SIZE
    ensures s[i].status == Empty ==> s[i] == ZERO
    ensures s[i].status != Cancelled
  {
    assert SlotOk(s[i]);
  }

  ghost predicate TwoEdges(a: Entry, b: Entry) {
    exists m :: Edge(a, m) && Edge(m, b)
  }

  lemma IsTwoEdges(a: Entry, m: Entry, b: Entry)
    requires Edge(a, m) && Edge(m, b)
    ensures TwoEdges(a, b)
  {
  }

  lemma SecondOp(s: Slots, op: Op, session: u16, i: nat)
    requires SlotsOk(s) && i < POOL_SIZE && (op.OpAlloc? || op.OpFree?)
    requires op.OpFree? ==> var k := FindHandle(s, op.handle, session); k < POOL_SIZE && s[k].status != Pending
    ensures Edge(s[i], Apply(s, op)[i])
  {
    hide FindHandle, Free;
    if op.OpFree? {
      LookupIsOwn(s, op.handle, session);
    } else {
      OpsFollowEdges(s, op, i);
    }
  }

  /** Under any event a slot follows at most two edges of its life cycle, or is cleared by its session's end. */
  lemma Lifecycle(w: World, e: Event, i: nat)
    requires WorldOk(w) && i < POOL_SIZE
    ensures
      var a, b := w.slots[i], Step(w, e).slots[i];
      TwoEdges(a, b) || (e.Disconnect? && a.session == e.session && b == ZERO)
  {
    hide Sweep, Alloc, Free, Update, Release, FindHandle, FindPending, First, NameValid, Read32, SlotsOk, NumbersOk, ExitsOk, TwoEdges;
    StepIsOps(w, e);
    var ops, a, b := OpsOf(w.slots, e), w.slots[i], Step(w, e).slots[i];
    if |ops| == 0 {
      IsTwoEdges(a, a, b);
    } else {
      var s := Apply(w.slots, ops[0]);
      OpsFollowEdges(w.slots, ops[0], i);
      if |ops| == 1 {
        assert ApplyAll(w.slots, ops) == ApplyAll(s, ops[1..]) && ops[1..] == [];
        if !e.Disconnect? || Edge(a, b) {
          IsTwoEdges(a, b, b);
        }
      } else {
        SweepKeeps(w.slots, e.now);
        SecondOp(s, ops[1], e.session, i);
        assert ops[1..][1..] == [] && Step(w, e).slots == Apply(s, ops[1]);
        IsTwoEdges(a, s[i], b);
      }
    }
  }

  /** Restarting the same service again in the same session, while the first handle is pending and within its time to live,
      forks nothing and returns the first handle. */
  lemma RestartTwice(s: Slots, f: Frame, session: u16, now: int, fork: Fork, random: u16, g: Frame, now': int, fork': Fork, random': u16)
    requires SlotsOk(s) && now <= now' <= now + TTL
    requires g.Sec() == SIGNED && |f.data| >= 4 && |g.data| >= 4 && f.data[4..] == g.data[4..]
    ensures
      var o := Restart(s, f, session, now, fork, random);
      o.forked.Some? ==>
        var o' := Restart(o.slots, g, session, now', fork', random');
        o'.forked.None? && o'.reply == o.reply && o.reply.sw == SW_OK
  {
    var o := Restart(s, f, session, now, fork, random);
    if o.forked.Some? {
      var name := f.data[4..];
      var swept := Sweep(s, now);
      SweepKeeps(s, now);
      var i := First(swept, IsEmpty());
      AllocKeeps(swept, session, name, fork.pid, random, now);
      var t := Sweep(o.slots, now');
      SweepKeeps(o.slots, now');
      assert t[i] == o.slots[i] && IsPendingFor(session, name)(t[i]);
      forall j | 0 <= j < i ensures !IsPendingFor(session, name)(t[j]) {
      }
      FirstIs(t, IsPendingFor(session, name), i);
    }
  }
}
