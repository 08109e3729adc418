/** The pool of asynchronous task slots.  Each pool function is one atomic step. */
module TaskPool {
  import opened Machine

  const POOL_SIZE: nat := 64
  const NAME_MAX: nat := 64
  const TTL: int := 30

  datatype Status = Empty | Pending | Success | Failure | Timeout | Cancelled

  datatype Entry = Entry(handle: u32, session: u16, pid: int, status: Status, createdAt: int, name: bytes)

  const ZERO: Entry := Entry(0, 0, 0, Empty, 0, [])

  type Slots = s: seq<Entry> | |s| == POOL_SIZE witness seq(POOL_SIZE, _ => ZERO)

  // ---- The pool functions as functions of the slots ----

  /** The first slot that meets a condition, or |s|. */
  function First(s: seq<Entry>, f: Entry -> bool): (i: nat)
    ensures i <= |s| && (i < |s| ==> f(s[i]))
    ensures forall j | 0 <= j < i :: !f(s[j])
  {
    if s == [] then 0 else if f(s[0]) then 0 else
      var i := First(s[1..], f);
      assert forall j | 0 <= j < i :: s[1..][j] == s[j + 1];
      1 + i
  }

  function IsEmpty(): Entry -> bool { (e: Entry) => e.status == Empty }

  function IsPendingFor(session: u16, name: bytes): Entry -> bool {
    (e: Entry) => e.status == Pending && e.session == session && e.name == name
  }

  function HasHandle(handle: u32): Entry -> bool { (e: Entry) => e.handle == handle }

  function IsLiveHandle(handle: u32): Entry -> bool { (e: Entry) => e.handle == handle && e.status != Empty }

  function IsPendingPid(pid: int): Entry -> bool { (e: Entry) => e.pid == pid && e.status == Pending }

  /** The session in the high half, 16 random bits in the low half, zero replaced by one. */
  function MakeHandle(session: u16, random: u16): (h: u32)
    ensures h / 0x1_0000 == session as u32 && h % 0x1_0000 != 0
  {
    session as u32 * 0x1_0000 + (if random == 0 then 1 else random) as u32
  }

  function Truncated(name: bytes): bytes { if |name| > NAME_MAX then name[..NAME_MAX] else name }

  /** task_pool_alloc; the handle is 0 when the pool is full. */
  function Alloc(s: Slots, session: u16, name: bytes, pid: int, random: u16, now: int): (r: (Slots, u32)) {
    var i := First(s, IsEmpty());
    if i == |s| then (s, 0)
    else
      var h := MakeHandle(session, random);
      (s[i := Entry(h, session, pid, Pending, now, Truncated(name))], h)
  }

  /** task_pool_find_pending. */
  function FindPending(s: Slots, session: u16, name: bytes): u32 {
    var i := First(s, IsPendingFor(session, name));
    if i == |s| then 0 else s[i].handle
  }

  /** task_pool_find_handle; |s| stands for the null pointer. */
  function FindHandle(s: Slots, handle: u32, session: u16): (i: nat)
    ensures i <= |s|
  {
    if handle == 0 || handle / 0x1_0000 != session as u32 then |s| else First(s, IsLiveHandle(handle))
  }

  /** task_pool_free. */
  function Free(s: Slots, handle: u32): Slots {
    var i := First(s, HasHandle(handle));
    if i == |s| then s else s[i := ZERO]
  }

  /** task_pool_update_by_pid. */
  function Update(s: Slots, pid: int, status: Status): Slots {
    var i := First(s, IsPendingPid(pid));
    if i == |s| then s else s[i := s[i].(status := status)]
  }

  /** task_pool_release_session. */
  function Release(s: Slots, session: u16): (r: Slots)
    ensures forall i | 0 <= i < |s| :: r[i] == if s[i].session == session && s[i].status != Empty then ZERO else s[i]
  {
    seq(POOL_SIZE, i requires 0 <= i < |s| => if s[i].session == session && s[i].status != Empty then ZERO else s[i])
  }

  predicate OverAge(e: Entry, now: int) { now - e.createdAt > TTL }

  function SweepEntry(e: Entry, now: int): Entry {
    if e.status == Empty || !OverAge(e, now) then e
    else if e.status == Pending then e.(status := Timeout)
    else ZERO
  }

  /** task_pool_sweep_timeouts. */
  function Sweep(s: Slots, now: int): (r: Slots)
    ensures forall i | 0 <= i < |s| :: r[i] == SweepEntry(s[i], now)
  {
    seq(POOL_SIZE, i requires 0 <= i < |s| => SweepEntry(s[i], now))
  }

  lemma FirstIs(s: seq<Entry>, f: Entry -> bool, i: nat)
    requires i <= |s| && (i < |s| ==> f(s[i])) && forall j | 0 <= j < i :: !f(s[j])
    ensures First(s, f) == i
  {
  }

  // ---- What the functions mean, slot by slot ----

  /** An allocation fills the first empty slot with what it is given. */
  lemma AllocFills(s: Slots, session: u16, name: bytes, pid: int, random: u16, now: int, i: nat)
    requires i < POOL_SIZE && s[i].status == Empty && (forall j | 0 <= j < i :: s[j].status != Empty) && |name| <= 64
    ensures
      var (r, handle) := Alloc(s, session, name, pid, random, now);
      && handle as int == 0x1_0000 * session as int + (if random == 0 then 1 else random as int)
      && r[i].handle == handle && r[i].session == session && r[i].pid == pid && r[i].status == Pending
      && r[i].createdAt == now && r[i].name == name
      && forall j | 0 <= j < POOL_SIZE && j != i :: r[j] == s[j]
  {
    FirstIs(s, IsEmpty(), i);
  }

  /** A child's exit sets the first pending slot of that child, if there is one, and nothing else. */
  lemma ExitUpdates(s: Slots, pid: int, status: Status, i: nat)
    requires i <= POOL_SIZE && (i < POOL_SIZE ==> s[i].pid == pid && s[i].status == Pending)
    requires forall j | 0 <= j < i :: s[j].pid != pid || s[j].status != Pending
    ensures
      var r := Update(s, pid, status);
      && (i < POOL_SIZE ==> r[i].status == status && r[i] == s[i].(status := status))
      && forall j | 0 <= j < POOL_SIZE && j != i :: r[j] == s[j]
  {
    FirstIs(s, IsPendingPid(pid), i);
  }

  /** Looking for a pending task finds the handle of the first one of that session and service; none is reported as 0. */
  lemma PendingFound(s: Slots, session: u16, name: bytes, i: nat)
    requires i <= POOL_SIZE && (i < POOL_SIZE ==> s[i].status == Pending && s[i].session == session && s[i].name == name)
    requires forall j | 0 <= j < i :: s[j].status != Pending || s[j].session != session || s[j].name != name
    ensures FindPending(s, session, name) == if i < POOL_SIZE then s[i].handle else 0
  {
    FirstIs(s, IsPendingFor(session, name), i);
  }

  /** Looking up a handle finds the first slot in use with it, if its high half is the asking session. */
  lemma HandleFound(s: Slots, handle: u32, session: u16, i: nat)
    requires i <= POOL_SIZE && (i < POOL_SIZE ==> s[i].status != Empty && s[i].handle == handle)
    requires forall j | 0 <= j < i :: s[j].status == Empty || s[j].handle != handle
    ensures FindHandle(s, handle, session) == if handle != 0 && handle as int / 0x1_0000 == session as int then i else POOL_SIZE
  {
    FirstIs(s, IsLiveHandle(handle), i);
  }

  /** More than thirty seconds after its allocation a pending slot times out and any other slot in use is cleared. */
  lemma SweptByAge(s: Slots, now: int, i: nat)
    requires i < POOL_SIZE
    ensures
      var r := Sweep(s, now);
      if s[i].status == Empty || now <= s[i].createdAt + 30 then r[i] == s[i]
      else if s[i].status == Pending then r[i] == s[i].(status := Timeout)
      else r[i].status == Empty && r[i].handle == 0 && r[i].session == 0 && r[i].pid == 0 && r[i].name == []
  {
  }

  /** The static array, scanned and overwritten in place. */
  class Pool {
    const slots: array<Entry>

    ghost predicate Valid() { slots.Length == POOL_SIZE }

    function Value(): Slots
      requires Valid()
      reads slots
    {
      slots[..]
    }

    constructor ()
      ensures Valid() && fresh(slots) && forall i | 0 <= i < POOL_SIZE :: slots[i] == ZERO
    {
      slots := new Entry[POOL_SIZE](_ => ZERO);
    }

    method Scan(f: Entry -> bool) returns (i: nat)
      requires Valid()
      ensures i == First(Value(), f)
    {
      i := 0;
      while i < POOL_SIZE && !f(slots[i])
        invariant 0 <= i <= POOL_SIZE && forall j | 0 <= j < i :: !f(slots[j])
      {
        i := i + 1;
      }
      FirstIs(slots[..], f, i);
    }

    method DoAvailable() returns (some: bool)
      requires Valid()
      ensures some <==> exists i | 0 <= i < POOL_SIZE :: slots[i].status == Empty
    {
      var i := Scan(IsEmpty());
      some := i < POOL_SIZE;
    }

    method DoAlloc(session: u16, name: bytes, pid: int, random: u16, now: int) returns (handle: u32)
      requires Valid()
      modifies slots
      ensures (Value(), handle) == Alloc(old(Value()), session, name, pid, random, now)
    {
      var i := Scan(IsEmpty());
      if i == POOL_SIZE {
        return 0;
      }
      handle := MakeHandle(session, random);
      slots[i] := Entry(handle, session, pid, Pending, now, Truncated(name));
    }

    method DoFindPending(session: u16, name: bytes) returns (handle: u32)
      requires Valid()
      ensures handle == FindPending(Value(), session, name)
    {
      var i := Scan(IsPendingFor(session, name));
      handle := if i < POOL_SIZE then slots[i].handle else 0;
    }

    method DoFindHandle(handle: u32, session: u16) returns (i: nat)
      requires Valid()
      ensures i == FindHandle(Value(), handle, session)
    {
      if handle == 0 || handle / 0x1_0000 != session as u32 {
        return POOL_SIZE;
      }
      i := Scan(IsLiveHandle(handle));
    }

    method DoFree(handle: u32)
      requires Valid()
      modifies slots
      ensures Value() == Free(old(Value()), handle)
    {
      var i := Scan(HasHandle(handle));
      if i < POOL_SIZE {
        slots[i] := ZERO;
      }
    }

    method DoUpdate(pid: int, status: Status)
      requires Valid()
      modifies slots
      ensures Value() == Update(old(Value()), pid, status)
    {
      var i := Scan(IsPendingPid(pid));
      if i < POOL_SIZE {
        slots[i] := slots[i].(status := status);
      }
    }

    method DoRelease(session: u16)
      requires Valid()
      modifies slots
      ensures Value() == Release(old(Value()), session)
    {
      for i := 0 to POOL_SIZE
        invariant forall j | 0 <= j < i :: slots[j] == Release(old(Value()), session)[j]
        invariant forall j | i <= j < POOL_SIZE :: slots[j] == old(slots[j])
      {
        if slots[i].session == session && slots[i].status != Empty {
          slots[i] := ZERO;
        }
      }
    }

    method DoSweep(now: int)
      requires Valid()
      modifies slots
      ensures Value() == Sweep(old(Value()), now)
    {
      for i := 0 to POOL_SIZE
        invariant forall j | 0 <= j < i :: slots[j] == SweepEntry(old(slots[j]), now)
        invariant forall j | i <= j < POOL_SIZE :: slots[j] == old(slots[j])
      {
        if slots[i].status == Empty || now - slots[i].createdAt <= TTL {
          continue;
        }
        if slots[i].status == Pending {
          slots[i] := slots[i].(status := Timeout);
        } else {
          slots[i] := ZERO;
        }
      }
    }
  }
}
