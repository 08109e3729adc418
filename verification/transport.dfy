/** Runs of the encrypted transport after a handshake. */
module Transport {
  import opened Machine
  import opened ByteStrings
  import opened Noise

  function Next(n: u64): u64 { ((n as int + 1) % 0x1_0000_0000_0000_0000) as u64 }

  datatype Sent = Sent(status: Status, next: State, cipher: bytes)
  datatype Received = Received(status: Status, next: State, plain: bytes)

  /** noise_ik_encrypt. */
  function Encrypt(s: Suite, st: State, plain: bytes): (r: Sent)
    requires st.Ok()
    ensures r.next.Ok()
  {
    if !st.handshakeDone then Sent(ErrState, st, [])
    else Sent(OK, st.(sendNonce := Next(st.sendNonce)), EncryptWith(s, st.sendKey, st.sendNonce, [], plain))
  }

  /** noise_ik_decrypt: the counter moves only on success. */
  function Decrypt(s: Suite, st: State, cipher: bytes): (r: Received)
    requires st.Ok()
    ensures r.next.Ok() && (r.status == OK ==> |cipher| == |r.plain| + 16) && (r.status != OK ==> r.next == st)
  {
    if !st.handshakeDone then Received(ErrState, st, [])
    else
      match DecryptWith(s, st.recvKey, st.recvNonce, [], cipher)
      case None => Received(ErrAuth, st, [])
      case Some(p) => Received(OK, st.(recvNonce := Next(st.recvNonce)), p)
  }

  /** One direction of the link: ciphertexts in flight, oldest first, and the plain texts sent and delivered. */
  datatype Lane = Lane(flight: seq<bytes>, sent: seq<bytes>, got: seq<bytes>)

  datatype Link = Link(a: State, b: State, ab: Lane, ba: Lane)

  /** Who acts: a party sends, takes the oldest ciphertext in flight, or is handed some other ciphertext. */
  datatype Event = SendA(plain: bytes) | SendB(plain: bytes) | TakeA | TakeB | ForgeA(cipher: bytes) | ForgeB(cipher: bytes)

  /** Forged ciphertexts are ones the receiver rejects; everything else may happen in any order. */
  predicate Possible(s: Suite, l: Link, e: Event)
    requires l.a.Ok() && l.b.Ok()
  {
    match e
    case TakeA => l.ba.flight != []
    case TakeB => l.ab.flight != []
    case ForgeA(c) => Decrypt(s, l.a, c).status == ErrAuth
    case ForgeB(c) => Decrypt(s, l.b, c).status == ErrAuth
    case _ => true
  }

  function Push(lane: Lane, plain: bytes, cipher: bytes): Lane {
    lane.(flight := lane.flight + [cipher], sent := lane.sent + [plain])
  }

  function Pop(lane: Lane, r: Received): Lane
    requires lane.flight != []
  {
    Lane(lane.flight[1..], lane.sent, if r.status == OK then lane.got + [r.plain] else lane.got)
  }

  function Step(s: Suite, l: Link, e: Event): (l': Link)
    requires l.a.Ok() && l.b.Ok() && Possible(s, l, e)
    ensures l'.a.Ok() && l'.b.Ok()
  {
    match e
    case SendA(p) => var r := Encrypt(s, l.a, p); if r.status == OK then l.(a := r.next, ab := Push(l.ab, p, r.cipher)) else l
    case SendB(p) => var r := Encrypt(s, l.b, p); if r.status == OK then l.(b := r.next, ba := Push(l.ba, p, r.cipher)) else l
    case TakeA => var r := Decrypt(s, l.a, l.ba.flight[0]); l.(a := r.next, ba := Pop(l.ba, r))
    case TakeB => var r := Decrypt(s, l.b, l.ab.flight[0]); l.(b := r.next, ab := Pop(l.ab, r))
    case ForgeA(c) => l.(a := Decrypt(s, l.a, c).next)
    case ForgeB(c) => l.(b := Decrypt(s, l.b, c).next)
  }

  function Counter(n: nat): u64 { (n % 0x1_0000_0000_0000_0000) as u64 }

  /** Everything in flight is the encryption of the next undelivered plain text, and the counters count. */
  ghost predicate InStep(s: Suite, sender: State, receiver: State, lane: Lane) {
    sender.Ok() && receiver.Ok() && sender.handshakeDone && receiver.handshakeDone && sender.sendKey == receiver.recvKey
    && |lane.sent| == |lane.got| + |lane.flight| && lane.got == lane.sent[..|lane.got|]
    && sender.sendNonce == Counter(|lane.sent|) && receiver.recvNonce == Counter(|lane.got|)
    && forall i | 0 <= i < |lane.flight| ::
         lane.flight[i] == EncryptWith(s, sender.sendKey, Counter(|lane.got| + i), [], lane.sent[|lane.got| + i])
  }

  ghost predicate Synchronised(s: Suite, l: Link) {
    InStep(s, l.a, l.b, l.ab) && InStep(s, l.b, l.a, l.ba)
  }

  lemma SendKeeps(s: Suite, sender: State, receiver: State, lane: Lane, plain: bytes)
    requires InStep(s, sender, receiver, lane)
    ensures
      var r := Encrypt(s, sender, plain);
      r.status == OK && InStep(s, r.next, receiver, Push(lane, plain, r.cipher))
  {
    hide EncryptWith;
    var r := Encrypt(s, sender, plain);
    var l' := Push(lane, plain, r.cipher);
    CounterNext(|lane.sent|);
    forall i | 0 <= i < |l'.flight|
      ensures l'.flight[i] == EncryptWith(s, sender.sendKey, Counter(|lane.got| + i), [], l'.sent[|lane.got| + i])
    {
      if i < |lane.flight| { assert l'.flight[i] == lane.flight[i]; }
    }
  }

  lemma CounterNext(n: nat)
    ensures Next(Counter(n)) == Counter(n + 1)
  {
  }

  lemma TakeKeeps(s: Suite, sender: State, receiver: State, lane: Lane)
    requires InStep(s, sender, receiver, lane) && lane.flight != []
    ensures
      var r := Decrypt(s, receiver, lane.flight[0]);
      r.status == OK && r.plain == lane.sent[|lane.got|] && InStep(s, sender, r.next, Pop(lane, r))
  {
    hide EncryptWith, DecryptWith;
    var n := Counter(|lane.got| + 0);
    DecryptInvertsEncrypt(s, receiver.recvKey, n, [], lane.sent[|lane.got|], lane.flight[0]);
    CounterNext(|lane.got|);
    var r := Decrypt(s, receiver, lane.flight[0]);
    var l' := Pop(lane, r);
    assert lane.sent[..|lane.got| + 1] == lane.got + [lane.sent[|lane.got|]];
    forall i | 0 <= i < |l'.flight|
      ensures l'.flight[i] == EncryptWith(s, sender.sendKey, Counter(|l'.got| + i), [], l'.sent[|l'.got| + i])
    {
      assert l'.flight[i] == lane.flight[i + 1];
    }
  }

  lemma StepKeeps(s: Suite, l: Link, e: Event)
    requires Synchronised(s, l) && Possible(s, l, e)
    ensures Synchronised(s, Step(s, l, e))
  {
    hide EncryptWith, DecryptWith;
    match e
    case SendA(p) => SendKeeps(s, l.a, l.b, l.ab, p);
    case SendB(p) => SendKeeps(s, l.b, l.a, l.ba, p);
    case TakeA => TakeKeeps(s, l.b, l.a, l.ba);
    case TakeB => TakeKeeps(s, l.a, l.b, l.ab);
    case ForgeA(c) =>
    case ForgeB(c) =>
  }

  /** A run: every event is possible when it happens. */
  predicate IsRun(s: Suite, l: Link, events: seq<Event>)
    requires l.a.Ok() && l.b.Ok()
    decreases |events|
  {
    events == [] || (Possible(s, l, events[0]) && IsRun(s, Step(s, l, events[0]), events[1..]))
  }

  function Run(s: Suite, l: Link, events: seq<Event>): Link
    requires l.a.Ok() && l.b.Ok() && IsRun(s, l, events)
    decreases |events|
  {
    if events == [] then l else Run(s, Step(s, l, events[0]), events[1..])
  }

  /** Two parties fresh from one handshake stay synchronised through every interleaving of both directions
      and any number of rejected ciphertexts: what is delivered is a prefix of what was sent, in order, and
      the counters are the numbers of successful operations modulo 2^64. */
  lemma {:induction false} RunKeeps(s: Suite, l: Link, events: seq<Event>)
    requires Synchronised(s, l) && IsRun(s, l, events)
    ensures Synchronised(s, Run(s, l, events))
    decreases |events|
  {
    hide Step, Possible;
    if events != [] {
      StepKeeps(s, l, events[0]);
      RunKeeps(s, Step(s, l, events[0]), events[1..]);
    }
  }

  /** The link two parties start with after a handshake. */
  function Fresh(a: State, b: State): Link {
    Link(a, b, Lane([], [], []), Lane([], [], []))
  }

  lemma DeliveredInOrder(s: Suite, a: State, b: State, events: seq<Event>)
    requires Mirrored(a, b) && a.sendNonce == 0 && a.recvNonce == 0 && IsRun(s, Fresh(a, b), events)
    ensures
      var l := Run(s, Fresh(a, b), events);
      l.ab.got <= l.ab.sent && l.ba.got <= l.ba.sent
      && |l.ab.flight| == |l.ab.sent| - |l.ab.got| && |l.ba.flight| == |l.ba.sent| - |l.ba.got|
      && l.a.sendNonce == Counter(|l.ab.sent|) && l.b.recvNonce == Counter(|l.ab.got|)
      && l.b.sendNonce == Counter(|l.ba.sent|) && l.a.recvNonce == Counter(|l.ba.got|)
  {
    hide Step, Possible, Run, IsRun;
    RunKeeps(s, Fresh(a, b), events);
  }

  // ---- The nonces a run encrypts under ----

  /** A key with an encoded nonce. */
  datatype Use = Use(key: bytes, nonce: bytes)

  datatype Side = SideA | SideB

  function Of(l: Link, who: Side): State {
    if who == SideA then l.a else l.b
  }

  /** What an event makes a party encrypt under: nothing, unless it is a send of that party that succeeds. */
  function UsedIn(s: Suite, l: Link, e: Event, who: Side): seq<Use>
    requires l.a.Ok() && l.b.Ok()
  {
    var st := Of(l, who);
    match e
    case SendA(p) => if who == SideA && Encrypt(s, st, p).status == OK then [Use(st.sendKey, Nonce(st.sendNonce))] else []
    case SendB(p) => if who == SideB && Encrypt(s, st, p).status == OK then [Use(st.sendKey, Nonce(st.sendNonce))] else []
    case _ => []
  }

  /** What a party encrypts under in a run, in order. */
  function Used(s: Suite, l: Link, events: seq<Event>, who: Side): seq<Use>
    requires l.a.Ok() && l.b.Ok() && IsRun(s, l, events)
    decreases |events|
  {
    if events == [] then [] else UsedIn(s, l, events[0], who) + Used(s, Step(s, l, events[0]), events[1..], who)
  }

  /** One event: a send uses the current counter and advances it; everything else leaves key and counter alone. */
  lemma UsedStep(s: Suite, l: Link, e: Event, who: Side)
    requires l.a.Ok() && l.b.Ok() && Possible(s, l, e)
    ensures
      var (st, next, u) := (Of(l, who), Of(Step(s, l, e), who), UsedIn(s, l, e, who));
      next.sendKey == st.sendKey
      && (if u == [] then next.sendNonce == st.sendNonce
          else u == [Use(st.sendKey, Nonce(st.sendNonce))] && next.sendNonce == Next(st.sendNonce))
  {
    hide EncryptWith, DecryptWith, Nonce;
  }

  /** The i-th encryption of a party in any run is under its one key and the i-th counter value from the start. */
  lemma {:induction false} UsedCounts(s: Suite, l: Link, events: seq<Event>, who: Side, n: nat, i: nat)
    requires l.a.Ok() && l.b.Ok() && IsRun(s, l, events) && Of(l, who).sendNonce == Counter(n)
    requires i < |Used(s, l, events, who)|
    ensures Used(s, l, events, who)[i] == Use(Of(l, who).sendKey, Nonce(Counter(n + i)))
    decreases |events|
  {
    hide Step, Possible, UsedIn, Nonce, Counter, Next, Of;
    UsedStep(s, l, events[0], who);
    var u, rest := UsedIn(s, l, events[0], who), Step(s, l, events[0]);
    if u == [] {
      UsedCounts(s, rest, events[1..], who, n, i);
    } else if i > 0 {
      CounterNext(n);
      UsedCounts(s, rest, events[1..], who, n + 1, i - 1);
      assert n + 1 + (i - 1) == n + i;
    }
  }

  /** Counter values fewer than 2^64 apart encode differently; 2^64 apart they encode alike. */
  lemma EncodedCounters(i: nat, j: nat)
    requires i < j
    ensures j < i + 0x1_0000_0000_0000_0000 ==> Nonce(Counter(i)) != Nonce(Counter(j))
    ensures j == i + 0x1_0000_0000_0000_0000 ==> Nonce(Counter(i)) == Nonce(Counter(j))
  {
    hide LeNat, LeBytes;
    var x, y := Counter(i) as int, Counter(j) as int;
    assert Pow256(8) == 0x1_0000_0000_0000_0000;
    LeNatOfBytes(x, 8);
    LeNatOfBytes(y, 8);
    if Nonce(Counter(i)) == Nonce(Counter(j)) {
      assert LeBytes(x, 8) == Nonce(Counter(i))[4..] && LeBytes(y, 8) == Nonce(Counter(j))[4..];
    }
  }

  /** In every run, by either party and from any counter value, no pair of key and encoded nonce is used for two
      encryptions fewer than 2^64 apart; at distance 2^64 the pair is always reused. */
  lemma NoncesDistinct(s: Suite, l: Link, events: seq<Event>, who: Side, i: nat, j: nat)
    requires l.a.Ok() && l.b.Ok() && IsRun(s, l, events) && i < j < |Used(s, l, events, who)|
    ensures
      var u := Used(s, l, events, who);
      (j < i + 0x1_0000_0000_0000_0000 ==> u[i] != u[j]) && (j == i + 0x1_0000_0000_0000_0000 ==> u[i] == u[j])
  {
    hide Step, Possible, Used, UsedIn, Nonce, IsRun;
    var n := Of(l, who).sendNonce as nat;
    UsedCounts(s, l, events, who, n, i);
    UsedCounts(s, l, events, who, n, j);
    EncodedCounters(n + i, n + j);
  }
}
