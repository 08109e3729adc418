/** The handlers that use the task pool, and what every pool operation keeps. */
module Tasks {
  import opened Machine
  import opened ByteStrings
  import opened Apdu
  import opened TaskPool

  const SW_OK: u16 := 0x9000
  const SW_ACCESS_DENIED: u16 := 0x6982
  const SW_WRONG_DATA: u16 := 0x6a80
  const SW_WRONG_LEN: u16 := 0x6700
  const SW_BLOCKED: u16 := 0x6400
  const SW_SYS_ERR: u16 := 0x6f00
  const SW_SYS_ERR_NOMEM: u16 := 0x6f01

  const SIGNED: nat := 1
  const SERVICE_SUFFIX: bytes := [46, 115, 101, 114, 118, 105, 99, 101]  // ".service"

  datatype Reply = Reply(body: bytes, sw: u16)

  predicate NameByte(c: u8) {
    97 <= c <= 122 || 48 <= c <= 57 || c == 95 || c == 45 || c == 46
  }

  /** Letters a-z, digits, '_', '-' and '.', 1 to 64 of them, and not something followed by ".service". */
  predicate NameValid(name: bytes) {
    1 <= |name| <= NAME_MAX && (forall i | 0 <= i < |name| :: NameByte(name[i]))
    && !(|name| > 8 && name[|name| - 8..] == SERVICE_SUFFIX)
  }

  /** svc_name_valid. */
  method SvcNameValid(name: bytes) returns (ok: bool)
    ensures ok == NameValid(name)
  {
    if |name| < 1 || |name| > NAME_MAX {
      return false;
    }
    for i := 0 to |name|
      invariant forall j | 0 <= j < i :: NameByte(name[j])
    {
      if !NameByte(name[i]) {
        return false;
      }
    }
    return !(|name| > 8 && name[|name| - 8..] == SERVICE_SUFFIX);
  }

  /** What fork gives the parent. */
  datatype Fork = Forked(pid: int) | NoMemory | ForkFailed

  /** The outcome of a handler: the slots, the reply, and the service whose restart was forked, if any. */
  datatype Outcome = Outcome(slots: Slots, reply: Reply, forked: Option<bytes>)

  function Refuse(s: Slots, sw: u16): Outcome { Outcome(s, Reply([], sw), None) }

  /** handler_svc_restart: validate, sweep, reuse a pending handle, or fork and allocate. */
  function Restart(s: Slots, f: Frame, session: u16, now: int, fork: Fork, random: u16): Outcome {
    if f.Sec() != SIGNED then Refuse(s, SW_ACCESS_DENIED)
    else if |f.data| < 5 then Refuse(s, SW_WRONG_LEN)
    else if !NameValid(f.data[4..]) then Refuse(s, SW_WRONG_DATA)
    else
      var name := f.data[4..];
      var swept := Sweep(s, now);
      var pending := FindPending(swept, session, name);
      if pending != 0 then Outcome(swept, Reply(Big32(pending), SW_OK), None)
      else if First(swept, IsEmpty()) == POOL_SIZE then Refuse(swept, SW_BLOCKED)
      else
        match fork
        case NoMemory => Refuse(swept, SW_SYS_ERR_NOMEM)
        case ForkFailed => Refuse(swept, SW_SYS_ERR)
        case Forked(pid) =>
          var (slots, handle) := Alloc(swept, session, name, pid, random, now);
          Outcome(slots, if handle == 0 then Reply([], SW_BLOCKED) else Reply(Big32(handle), SW_OK), Some(name))
  }

  function ToWire(st: Status): u8 {
    match st
    case Pending => 0x00
    case Success => 0x01
    case Failure => 0x02
    case Timeout => 0x03
    case Cancelled => 0x04
    case Empty => 0xff
  }

  /** handler_task_query: sweep, look the handle up, report, and free a slot in a terminal state. */
  function Query(s: Slots, f: Frame, session: u16, now: int): Outcome {
    if |f.data| < 4 then Refuse(s, SW_WRONG_LEN)
    else
      var handle := Read32(f.data);
      var swept := Sweep(s, now);
      var i := FindHandle(swept, handle, session);
      if i == POOL_SIZE then Outcome(swept, Reply([0xff], SW_OK), None)
      else
        Outcome(if swept[i].status != Pending then Free(swept, handle) else swept, Reply([ToWire(swept[i].status)], SW_OK), None)
  }

  method HandlerSvcRestart(pool: Pool, f: Frame, session: u16, now: int, fork: Fork, random: u16)
    returns (reply: Reply, forked: Option<bytes>)
    requires pool.Valid()
    modifies pool.slots
    ensures Outcome(pool.Value(), reply, forked) == Restart(old(pool.Value()), f, session, now, fork, random)
  {
    hide Sweep, FindPending, Alloc, First, NameValid;
    forked := None;
    if f.Sec() != SIGNED {
      return Reply([], SW_ACCESS_DENIED), forked;
    }
    if |f.data| < 5 {
      return Reply([], SW_WRONG_LEN), forked;
    }
    var name := f.data[4..];
    var valid := SvcNameValid(name);
    if !valid {
      return Reply([], SW_WRONG_DATA), forked;
    }
    pool.DoSweep(now);
    var handle := pool.DoFindPending(session, name);
    if handle != 0 {
      return Reply(Big32(handle), SW_OK), forked;
    }
    var i := pool.Scan(IsEmpty());
    if i == POOL_SIZE {
      return Reply([], SW_BLOCKED), forked;
    }
    if fork.NoMemory? {
      return Reply([], SW_SYS_ERR_NOMEM), forked;
    }
    if fork.ForkFailed? {
      return Reply([], SW_SYS_ERR), forked;
    }
    handle := pool.DoAlloc(session, name, fork.pid, random, now);
    reply := if handle == 0 then Reply([], SW_BLOCKED) else Reply(Big32(handle), SW_OK);
    forked := Some(name);
  }

  method HandlerTaskQuery(pool: Pool, f: Frame, session: u16, now: int) returns (reply: Reply)
    requires pool.Valid()
    modifies pool.slots
    ensures Outcome(pool.Value(), reply, None) == Query(old(pool.Value()), f, session, now)
  {
    hide Sweep, FindHandle, Free;
    if |f.data| < 4 {
      return Reply([], SW_WRONG_LEN);
    }
    var handle := Read32(f.data);
    pool.DoSweep(now);
    var i := pool.DoFindHandle(handle, session);
    if i == POOL_SIZE {
      return Reply([0xff], SW_OK);
    }
    var status := pool.slots[i].status;
    reply := Reply([ToWire(status)], SW_OK);
    if status != Pending {
      pool.DoFree(handle);
    }
  }

  // ---- Invariants of the slots ----

  ghost predicate SlotOk(e: Entry) {
    if e.status == Empty then e == ZERO
    else e.handle / 0x1_0000 == e.session as u32 && e.handle % 0x1_0000 != 0 && e.status != Cancelled
  }

  ghost predicate OnePending(s: Slots) {
    forall i, j | 0 <= i < j < POOL_SIZE ::
      s[i].status == Pending && s[j].status == Pending ==> s[i].session != s[j].session || s[i].name != s[j].name
  }

  ghost predicate SlotsOk(s: Slots) {
    (forall i | 0 <= i < POOL_SIZE :: SlotOk(s[i])) && OnePending(s)
  }

  /** A lookup only ever finds a slot of the asking session, and freeing by that handle frees that very slot. */
  lemma LookupIsOwn(s: Slots, handle: u32, session: u16)
    requires SlotsOk(s)
    ensures
      var i := FindHandle(s, handle, session);
      i < POOL_SIZE ==> s[i].session == session && s[i].status != Empty && Free(s, handle) == s[i := ZERO]
  {
    var i := FindHandle(s, handle, session);
    if i < POOL_SIZE {
      assert SlotOk(s[i]);
      forall j | 0 <= j < i ensures s[j].handle != handle {
        assert SlotOk(s[j]);
        assert !IsLiveHandle(handle)(s[j]);
      }
      FirstIs(s, HasHandle(handle), i);
    }
  }

  lemma SweepKeeps(s: Slots, now: int)
    requires SlotsOk(s)
    ensures SlotsOk(Sweep(s, now))
  {
  }

  lemma ReleaseKeeps(s: Slots, session: u16)
    requires SlotsOk(s)
    ensures SlotsOk(Release(s, session))
  {
  }

  lemma UpdateKeeps(s: Slots, pid: int, status: Status)
    requires SlotsOk(s) && status in {Success, Failure}
    ensures SlotsOk(Update(s, pid, status))
  {
  }

  lemma ClearKeeps(s: Slots, i: nat)
    requires SlotsOk(s) && i < POOL_SIZE
    ensures SlotsOk(s[i := ZERO])
  {
  }

  /** Allocating keeps the invariant when no pending slot of the session has that name. */
  lemma AllocKeeps(s: Slots, session: u16, name: bytes, pid: int, random: u16, now: int)
    requires SlotsOk(s) && |name| <= NAME_MAX && FindPending(s, session, name) == 0
    ensures SlotsOk(Alloc(s, session, name, pid, random, now).0)
  {
    assert forall i | 0 <= i < POOL_SIZE :: SlotOk(s[i]);
    assert First(s, IsPendingFor(session, name)) == POOL_SIZE;
    forall j | 0 <= j < POOL_SIZE ensures !(s[j].status == Pending && s[j].session == session && s[j].name == name) {
      assert !IsPendingFor(session, name)(s[j]);
    }
  }

  /** The restart and query handlers keep the slots sound. */
  lemma HandlersKeep(s: Slots, f: Frame, session: u16, now: int, fork: Fork, random: u16)
    requires SlotsOk(s)
    ensures SlotsOk(Restart(s, f, session, now, fork, random).slots) && SlotsOk(Query(s, f, session, now).slots)
  {
    hide Sweep, Alloc, FindPending, FindHandle, Free, First, SlotsOk, Read32;
    var swept := Sweep(s, now);
    SweepKeeps(s, now);
    var r := Restart(s, f, session, now, fork, random);
    if r.forked.Some? { AllocKeeps(swept, session, f.data[4..], fork.pid, random, now); }
    if |f.data| >= 4 {
      var i := FindHandle(swept, Read32(f.data), session);
      LookupIsOwn(swept, Read32(f.data), session);
      if i < POOL_SIZE { ClearKeeps(swept, i); }
    }
  }

  // ---- What the two handlers answer ----

  /** A restart that forks fills the first slot that is empty after the sweep with the child, the session, the service name
      and the time, and answers with its handle, most significant byte first. */
  lemma RestartFills(s: Slots, f: Frame, session: u16, now: int, fork: Fork, random: u16)
    ensures
      var o, swept := Restart(s, f, session, now, fork, random), Sweep(s, now);
      o.forked.Some? ==>
        && fork.Forked? && |f.data| > 4 && o.forked.value == f.data[4..]
        && exists i | 0 <= i < POOL_SIZE ::
             && swept[i].status == Empty && (forall j | 0 <= j < i :: swept[j].status != Empty)
             && o.slots[i].pid == fork.pid && o.slots[i].session == session && o.slots[i].name == f.data[4..]
             && o.slots[i].createdAt == now && o.slots[i].status == Pending
             && |o.reply.body| == 4 && BeNat(o.reply.body) == o.slots[i].handle as int && o.reply.sw == 0x9000
             && o.slots[i].handle as int / 0x1_0000 == session as int && o.slots[i].handle as int % 0x1_0000 != 0
             && forall j | 0 <= j < POOL_SIZE && j != i :: o.slots[j] == swept[j]
  {
    hide NameValid, FindPending, Alloc, Sweep, BeNat;
    var o, swept := Restart(s, f, session, now, fork, random), Sweep(s, now);
    if o.forked.Some? {
      ValidLength(f.data[4..]);
      var i := First(swept, IsEmpty());
      AllocFills(swept, session, f.data[4..], fork.pid, random, now, i);
      NetworkOrder(o.slots[i].handle, Big32(o.slots[i].handle));
    }
  }

  lemma ValidLength(name: bytes)
    requires NameValid(name)
    ensures 1 <= |name| <= 64
  {
  }

  /** The conditions under which a restart is refused, in the order of the checks, and the status word of each; a task of the
      same service that is pending after the sweep is answered with its handle. */
  lemma RestartAnswers(s: Slots, f: Frame, session: u16, now: int, fork: Fork, random: u16)
    ensures
      var o, swept := Restart(s, f, session, now, fork, random), Sweep(s, now);
      var pending := if |f.data| >= 4 then FindPending(swept, session, f.data[4..]) else 0;
      if f.Sec() != 1 then o == Outcome(s, Reply([], 0x6982), None)
      else if |f.data| < 5 then o == Outcome(s, Reply([], 0x6700), None)
      else if !NameValid(f.data[4..]) then o == Outcome(s, Reply([], 0x6a80), None)
      else if pending != 0 then
        o.slots == swept && o.forked.None? && o.reply.sw == 0x9000 && |o.reply.body| == 4 && BeNat(o.reply.body) == pending as int
      else if forall i | 0 <= i < 64 :: swept[i].status != Empty then o == Outcome(swept, Reply([], 0x6400), None)
      else if fork.NoMemory? then o == Outcome(swept, Reply([], 0x6f01), None)
      else if fork.ForkFailed? then o == Outcome(swept, Reply([], 0x6f00), None)
      else o.forked.Some? && o.reply.sw == 0x9000
  {
    hide NameValid, FindPending, Sweep, BeNat;
    var swept := Sweep(s, now);
    if |f.data| >= 4 {
      var pending := FindPending(swept, session, f.data[4..]);
      NetworkOrder(pending, Big32(pending));
    }
  }

  /** A valid name: letters, digits, underscore, hyphen and dot, one to 64 of them, without the suffix of a unit file. */
  lemma ValidNames(name: bytes)
    ensures
      NameValid(name) <==>
        && 1 <= |name| <= 64
        && (forall i | 0 <= i < |name| ::
              var c := name[i] as char; 'a' <= c <= 'z' || '0' <= c <= '9' || c == '_' || c == '-' || c == '.')
        && !(|name| > 8 && forall i | 0 <= i < 8 :: name[|name| - 8 + i] as char == ".service"[i])
  {
    forall i | 0 <= i < |name|
      ensures NameByte(name[i]) <==> var c := name[i] as char; 'a' <= c <= 'z' || '0' <= c <= '9' || c == '_' || c == '-' || c == '.'
    {
      NameCharacter(name[i]);
    }
    if |name| > 8 { SuffixText(name[|name| - 8..]); }
  }

  lemma NameCharacter(b: u8)
    ensures NameByte(b) <==> var c := b as char; 'a' <= c <= 'z' || '0' <= c <= '9' || c == '_' || c == '-' || c == '.'
  {
  }

  lemma SuffixText(x: bytes)
    requires |x| == 8
    ensures x == SERVICE_SUFFIX <==> forall i | 0 <= i < 8 :: x[i] as char == ".service"[i]
  {
    forall i | 0 <= i < 8 ensures SERVICE_SUFFIX[i] as char == ".service"[i] {
    }
    if forall i | 0 <= i < 8 :: x[i] as char == ".service"[i] {
      forall i | 0 <= i < 8 ensures x[i] == SERVICE_SUFFIX[i] {
        assert x[i] as char == SERVICE_SUFFIX[i] as char;
      }
    }
  }

  /** A query answers with one byte: 0 for a pending task, 1, 2 and 3 for a success, a failure and a timeout, ff if the
      session has no slot in use under the handle; a finished task's slot is cleared, and nothing else changes but by age. */
  lemma QueryAnswers(s: Slots, f: Frame, session: u16, now: int, i: nat)
    requires SlotsOk(s) && |f.data| >= 4 && i <= POOL_SIZE
    requires i < POOL_SIZE ==> var e := Sweep(s, now)[i];
                               e.status != Empty && e.session == session && e.handle as int == BeNat(f.data[..4])
    requires i == POOL_SIZE ==>
               forall j | 0 <= j < POOL_SIZE :: var e := Sweep(s, now)[j];
                 e.status == Empty || e.session != session || e.handle as int != BeNat(f.data[..4])
    requires forall j | 0 <= j < i :: var e := Sweep(s, now)[j]; e.status == Empty || e.handle as int != BeNat(f.data[..4]) || e.session != session
    ensures
      var o, swept := Query(s, f, session, now), Sweep(s, now);
      && o.reply.sw == 0x9000 && o.forked.None? && |o.reply.body| == 1
      && o.reply.body[0] as int == (if i == POOL_SIZE then 0xff
                                    else match swept[i].status
                                         case Pending => 0 case Success => 1 case Failure => 2 case Timeout => 3 case _ => 4)
      && (forall j | 0 <= j < POOL_SIZE && j != i :: o.slots[j] == swept[j])
      && (i < POOL_SIZE ==> o.slots[i] == if swept[i].status == Pending then swept[i] else ZERO)
  {
    hide BeNat, Sweep, Read32, Free, FindHandle;
    var swept, handle := Sweep(s, now), Read32(f.data);
    SweepKeeps(s, now);
    NetworkOrder(0, f.data);
    LookupIsOwn(swept, handle, session);
    SessionOfHandle(swept, handle, session, i);
  }

  /** The slot a session has under a handle, by handle and session together or by the lookup. */
  lemma SessionOfHandle(s: Slots, handle: u32, session: u16, i: nat)
    requires SlotsOk(s) && i <= POOL_SIZE
    requires i < POOL_SIZE ==> s[i].status != Empty && s[i].session == session && s[i].handle == handle
    requires i == POOL_SIZE ==> forall j | 0 <= j < POOL_SIZE :: s[j].status == Empty || s[j].session != session || s[j].handle != handle
    requires forall j | 0 <= j < i :: s[j].status == Empty || s[j].handle != handle || s[j].session != session
    ensures FindHandle(s, handle, session) == i
  {
    forall j | 0 <= j < POOL_SIZE && s[j].status != Empty ensures s[j].handle / 0x1_0000 == s[j].session as u32 && s[j].handle != 0 {
      assert SlotOk(s[j]);
    }
    if handle != 0 && handle / 0x1_0000 == session as u32 { FirstIs(s, IsLiveHandle(handle), i); }
  }
}
