/** Client slots, parser slots and session numbers under every interleaving of connections.  The slot scans
    and the session counter each count as one atomic step. */
module Pools {
  import opened Machine
  import opened Arithmetic
  import opened Counting

  /** The in-use flags of the client slots, or of the parser pool; both have eight entries. */
  type Table = t: seq<bool> | |t| == 8 witness seq(8, _ => false)

  /** The first entry not in use, or the length. */
  function FirstFree(t: seq<bool>): (i: nat)
    ensures i <= |t| && (i < |t| ==> !t[i]) && forall j | 0 <= j < i :: t[j]
  {
    if t == [] || !t[0] then 0 else
      var i := FirstFree(t[1..]);
      assert forall j | 0 <= j < i :: t[1..][j] == t[j + 1];
      1 + i
  }

  /** A static array of slots with in-use flags: the client slots, and the parser pool. */
  class SlotTable {
    const inUse: array<bool>

    constructor (size: nat)
      ensures fresh(inUse) && inUse[..] == seq(size, _ => false)
    {
      inUse := new bool[size](_ => false);
    }

    method Acquire() returns (i: nat)
      modifies inUse
      ensures i == FirstFree(old(inUse[..])) && i <= inUse.Length
      ensures inUse[..] == if i < inUse.Length then old(inUse[..])[i := true] else old(inUse[..])
    {
      i := 0;
      while i < inUse.Length && inUse[i]
        invariant 0 <= i <= inUse.Length && forall j | 0 <= j < i :: inUse[j]
      {
        i := i + 1;
      }
      assert forall j | 0 <= j < i :: inUse[..][j];
      if i < inUse.Length {
        inUse[i] := true;
      }
    }

    method Release(i: nat)
      requires i < inUse.Length
      modifies inUse
      ensures inUse[..] == old(inUse[..])[i := false]
    {
      inUse[i] := false;
    }
  }

  // ---- Session numbers ----

  /** The 16-bit counter after handing out n: it wraps, and skips zero. */
  function Successor(n: u16): u16 {
    var m := ((n as int + 1) % 0x1_0000) as u16;
    if m == 0 then 1 else m
  }

  class SessionCounter {
    var next: u16

    constructor ()
      ensures next == 1
    {
      next := 1;
    }

    method Draw() returns (id: u16)
      modifies this
      ensures id == old(next) && next == Successor(old(next))
    {
      id := next;
      next := ((next as int + 1) % 0x1_0000) as u16;
      if next == 0 {
        next := 1;
      }
    }
  }

  /** The id of the n-th session since the start. */
  function SessionId(n: nat): u16 {
    if n == 0 then 1 else Successor(SessionId(n - 1))
  }

  lemma {:induction false} SessionIdCloses(n: nat)
    ensures SessionId(n) as int == n % 65535 + 1
  {
    hide Successor;
    if n > 0 {
      SessionIdCloses(n - 1);
      SuccessorCounts(SessionId(n - 1));
      ModNext(n - 1);
    }
  }

  lemma SuccessorCounts(x: u16)
    ensures Successor(x) as int == if x == 65535 then 1 else x as int + 1
  {
  }

  lemma ModNext(n: nat)
    ensures (n + 1) % 65535 == if n % 65535 == 65534 then 0 else n % 65535 + 1
  {
    var q, r := n / 65535, n % 65535;
    if r == 65534 { Remainder(n + 1, q + 1, 0, 65535); } else { Remainder(n + 1, q, r + 1, 65535); }
  }

  /** Ids are never zero, and any 65535 consecutive ones are pairwise distinct; the next one repeats the first. */
  lemma IdsDistinct(m: nat, n: nat)
    requires m < n
    ensures SessionId(m) != 0
    ensures n < m + 65535 ==> SessionId(m) != SessionId(n)
    ensures n == m + 65535 ==> SessionId(m) == SessionId(n)
  {
    hide SessionId;
    SessionIdCloses(m);
    SessionIdCloses(n);
    if n == m + 65535 { Remainder(n, m / 65535 + 1, m % 65535, 65535); }
  }

  // ---- Connections ----

  /** What the thread behind a client slot is doing; n counts sessions since the start. */
  datatype Phase =
    | Idle
    | Opening
    | Shaking(n: nat, id: u16)
    | Live(n: nat, id: u16, parser: nat)
    | Closed(n: nat, id: u16)
  {
    predicate Numbered() { !Idle? && !Opening? }
  }

  type Phases = p: seq<Phase> | |p| == 8 witness seq(8, _ => Idle)

  datatype World = World(slots: Table, parsers: Table, phases: Phases, started: nat, nextId: u16, refused: nat)

  function Start(): World {
    World(seq(8, _ => false), seq(8, _ => false), seq(8, _ => Idle), 0, 1, 0)
  }

  /** A connection arrives (and its thread starts or fails to start); a thread draws its session number, gives up before
      or during the handshake, is admitted, ends its session, or hands its slot back. */
  datatype Event = Accept(spawned: bool) | Begin(i: nat) | GiveUp(i: nat) | Admit(i: nat) | Finish(i: nat) | Leave(i: nat)

  predicate Possible(w: World, e: Event) {
    match e
    case Accept(_) => true
    case Begin(i) => i < 8 && w.phases[i].Opening?
    case GiveUp(i) => i < 8 && w.phases[i].Shaking?
    case Admit(i) => i < 8 && w.phases[i].Shaking?
    case Finish(i) => i < 8 && w.phases[i].Live? && w.phases[i].parser < 8
    case Leave(i) => i < 8 && w.phases[i].Closed?
  }

  function Step(w: World, e: Event): World
    requires Possible(w, e)
  {
    match e
    case Accept(spawned) =>
      var i := FirstFree(w.slots);
      if i == 8 || !spawned then w else w.(slots := w.slots[i := true], phases := w.phases[i := Opening])
    case Begin(i) => w.(phases := w.phases[i := Shaking(w.started, w.nextId)], started := w.started + 1, nextId := Successor(w.nextId))
    case GiveUp(i) => w.(phases := w.phases[i := Closed(w.phases[i].n, w.phases[i].id)])
    case Admit(i) =>
      var p := FirstFree(w.parsers);
      if p == 8 then w.(phases := w.phases[i := Closed(w.phases[i].n, w.phases[i].id)], refused := w.refused + 1)
      else w.(parsers := w.parsers[p := true], phases := w.phases[i := Live(w.phases[i].n, w.phases[i].id, p)])
    case Finish(i) =>
      w.(parsers := w.parsers[w.phases[i].parser := false], phases := w.phases[i := Closed(w.phases[i].n, w.phases[i].id)])
    case Leave(i) => w.(slots := w.slots[i := false], phases := w.phases[i := Idle])
  }

  /** Every live session holds a parser in use, no two the same one, and every parser in use is held. */
  ghost predicate ParsersOk(parsers: Table, phases: Phases) {
    && (forall i | 0 <= i < 8 && phases[i].Live? :: phases[i].parser < 8 && parsers[phases[i].parser])
    && (forall i, j | 0 <= i < j < 8 && phases[i].Live? && phases[j].Live? :: phases[i].parser != phases[j].parser)
    && (forall p | 0 <= p < 8 && parsers[p] :: Held(phases, p))
  }

  ghost predicate Held(phases: Phases, p: nat) {
    exists i | 0 <= i < 8 :: Holds(phases, i, p)
  }

  predicate Holds(phases: Phases, i: nat, p: nat) { i < 8 && phases[i].Live? && phases[i].parser == p }

  /** Session numbers are those the counter gave out, each to one thread. */
  ghost predicate NumbersOk(w: World) {
    && w.nextId == SessionId(w.started)
    && (forall i | 0 <= i < 8 && w.phases[i].Numbered() :: w.phases[i].n < w.started && w.phases[i].id == SessionId(w.phases[i].n))
    && (forall i, j | 0 <= i < j < 8 && w.phases[i].Numbered() && w.phases[j].Numbered() :: w.phases[i].n != w.phases[j].n)
  }

  ghost predicate WorldOk(w: World) {
    w.refused == 0 && (forall i | 0 <= i < 8 :: w.slots[i] == !w.phases[i].Idle?) && ParsersOk(w.parsers, w.phases) && NumbersOk(w)
  }

  /** The holders of the first n parsers. */
  ghost function Holders(phases: Phases, n: nat): (s: seq<nat>)
    requires n <= 8 && forall p | 0 <= p < n :: Held(phases, p)
    ensures |s| == n && forall p | 0 <= p < n :: Holds(phases, s[p], p)
  {
    if n == 0 then [] else
      assert Held(phases, n - 1);
      var i :| 0 <= i < 8 && Holds(phases, i, n - 1);
      Holders(phases, n - 1) + [i]
  }

  /** While some thread holds no parser, there is a free one. */
  lemma ParserFree(parsers: Table, phases: Phases, k: nat)
    requires ParsersOk(parsers, phases) && k < 8 && !phases[k].Live?
    ensures FirstFree(parsers) < 8
  {
    if FirstFree(parsers) == 8 {
      Pigeons(Holders(phases, 8), k, 8);
      assert false;
    }
  }

  /** A thread that holds no parser before or after a step does not disturb the holders. */
  lemma OtherPhase(parsers: Table, phases: Phases, i: nat, next: Phase)
    requires ParsersOk(parsers, phases) && i < 8 && !phases[i].Live? && !next.Live?
    ensures ParsersOk(parsers, phases[i := next])
  {
    hide Held;
    forall p | 0 <= p < 8 && parsers[p] ensures Held(phases[i := next], p) {
      KeepHolder(phases, phases[i := next], p, i);
    }
  }

  lemma KeepHolder(a: Phases, b: Phases, p: nat, i: nat)
    requires Held(a, p) && !Holds(a, i, p) && forall j | 0 <= j < 8 && j != i :: a[j] == b[j]
    ensures Held(b, p)
  {
    var j :| 0 <= j < 8 && Holds(a, j, p);
    assert Holds(b, j, p);
  }

  lemma IsHeld(phases: Phases, i: nat, p: nat)
    requires Holds(phases, i, p)
    ensures Held(phases, p)
  {
  }

  lemma TakeParser(parsers: Table, phases: Phases, i: nat, n: nat, id: u16)
    requires ParsersOk(parsers, phases) && i < 8 && !phases[i].Live? && FirstFree(parsers) < 8
    ensures var p := FirstFree(parsers); ParsersOk(parsers[p := true], phases[i := Live(n, id, p)])
  {
    hide Held;
    var p := FirstFree(parsers);
    var next := phases[i := Live(n, id, p)];
    IsHeld(next, i, p);
    forall q | 0 <= q < 8 && q != p && parsers[q] ensures Held(next, q) {
      KeepHolder(phases, next, q, i);
    }
  }

  lemma ReturnParser(parsers: Table, phases: Phases, i: nat, next: Phase)
    requires ParsersOk(parsers, phases) && i < 8 && phases[i].Live? && !next.Live?
    ensures ParsersOk(parsers[phases[i].parser := false], phases[i := next])
  {
    hide Held;
    forall q | 0 <= q < 8 && q != phases[i].parser && parsers[q] ensures Held(phases[i := next], q) {
      KeepHolder(phases, phases[i := next], q, i);
    }
  }

  lemma StepKeeps(w: World, e: Event)
    requires WorldOk(w) && Possible(w, e)
    ensures WorldOk(Step(w, e))
  {
    hide ParsersOk, NumbersOk, SessionId, Successor;
    var r := Step(w, e);
    match e {
      case Accept(spawned) =>
        var i := FirstFree(w.slots);
        if i < 8 && spawned {
          OtherPhase(w.parsers, w.phases, i, Opening);
          NumberKept(w, r, i);
        }
      case Begin(i) =>
        OtherPhase(w.parsers, w.phases, i, r.phases[i]);
        NumberDrawn(w, r, i);
      case GiveUp(i) =>
        OtherPhase(w.parsers, w.phases, i, r.phases[i]);
        NumberKept(w, r, i);
      case Admit(i) =>
        ParserFree(w.parsers, w.phases, i);
        TakeParser(w.parsers, w.phases, i, w.phases[i].n, w.phases[i].id);
        NumberKept(w, r, i);
      case Finish(i) =>
        ReturnParser(w.parsers, w.phases, i, r.phases[i]);
        NumberKept(w, r, i);
      case Leave(i) =>
        OtherPhase(w.parsers, w.phases, i, Idle);
        NumberKept(w, r, i);
    }
  }

  /** A thread that keeps its number, or loses it. */
  lemma NumberKept(w: World, r: World, i: nat)
    requires NumbersOk(w) && i < 8 && r.nextId == w.nextId && r.started == w.started
    requires forall j | 0 <= j < 8 && j != i :: r.phases[j] == w.phases[j]
    requires r.phases[i].Numbered() ==> w.phases[i].Numbered() && r.phases[i].n == w.phases[i].n && r.phases[i].id == w.phases[i].id
    ensures NumbersOk(r)
  {
    hide SessionId;
  }

  lemma NumberDrawn(w: World, r: World, i: nat)
    requires NumbersOk(w) && i < 8 && r.nextId == Successor(w.nextId) && r.started == w.started + 1
    requires forall j | 0 <= j < 8 && j != i :: r.phases[j] == w.phases[j]
    requires r.phases[i] == Shaking(w.started, w.nextId)
    ensures NumbersOk(r)
  {
    hide SessionId, Successor;
    SessionIdNext(w.started);
  }

  lemma SessionIdNext(n: nat)
    ensures SessionId(n + 1) == Successor(SessionId(n))
  {
  }

  /** Every event is possible when it happens. */
  ghost predicate IsRun(w: World, es: seq<Event>)
    decreases |es|
  {
    es == [] || (Possible(w, es[0]) && IsRun(Step(w, es[0]), es[1..]))
  }

  ghost function Run(w: World, es: seq<Event>): World
    requires IsRun(w, es)
    decreases |es|
  {
    if es == [] then w else Run(Step(w, es[0]), es[1..])
  }

  lemma {:induction false} RunKeeps(w: World, es: seq<Event>)
    requires WorldOk(w) && IsRun(w, es)
    ensures WorldOk(Run(w, es))
    decreases |es|
  {
    hide WorldOk, Step, Possible;
    if es != [] {
      StepKeeps(w, es[0]);
      RunKeeps(Step(w, es[0]), es[1..]);
    }
  }

  /** In every interleaving of connections no admitted session was ever refused a parser, and none will be next. */
  lemma AcquireNeverFails(es: seq<Event>, i: nat)
    requires IsRun(Start(), es) && i < 8
    ensures var w := Run(Start(), es); w.refused == 0 && (w.phases[i].Shaking? ==> FirstFree(w.parsers) < 8)
  {
    RunKeeps(Start(), es);
    var w := Run(Start(), es);
    if w.phases[i].Shaking? { ParserFree(w.parsers, w.phases, i); }
  }

  /** Two threads at work have the same session id exactly when a multiple of 65535 sessions began between them. */
  lemma LiveIds(es: seq<Event>, i: nat, j: nat)
    requires IsRun(Start(), es) && i < 8 && j < 8 && i != j
    ensures
      var a, b := Run(Start(), es).phases[i], Run(Start(), es).phases[j];
      a.Numbered() && b.Numbered() ==> a.n != b.n && a.id != 0 && (a.id == b.id <==> a.n % 65535 == b.n % 65535)
  {
    RunKeeps(Start(), es);
    var w := Run(Start(), es);
    if w.phases[i].Numbered() && w.phases[j].Numbered() {
      SessionIdCloses(w.phases[i].n);
      SessionIdCloses(w.phases[j].n);
    }
  }
}
