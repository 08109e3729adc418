/** The busiest processes between two snapshots. */
module Procs {
  import opened Machine

  const TOP_N: nat := 5

  datatype ProcSnap = ProcSnap(pid: u32, jiffies: u64, memPct: u8, flags: u8)
  datatype ProcInfo = ProcInfo(pid: u32, delta: u64, memPct: u8, flags: u8)

  // ---- Stable descending order ----

  predicate Descending(s: seq<ProcInfo>) {
    forall i, j | 0 <= i < j < |s| :: s[i].delta >= s[j].delta
  }

  /** The entries of one delta, in their order. */
  function WithDelta(s: seq<ProcInfo>, d: u64): seq<ProcInfo> {
    if s == [] then [] else if s[0].delta == d then [s[0]] + WithDelta(s[1..], d) else WithDelta(s[1..], d)
  }

  /** The same entries in descending order, those of equal delta in their original order. */
  ghost predicate IsStableSort(r: seq<ProcInfo>, s: seq<ProcInfo>) {
    Descending(r) && forall d :: WithDelta(r, d) == WithDelta(s, d)
  }

  lemma {:induction false} WithDeltaConcat(a: seq<ProcInfo>, b: seq<ProcInfo>, d: u64)
    ensures WithDelta(a + b, d) == WithDelta(a, d) + WithDelta(b, d)
  {
    if a == [] {
      assert a + b == b;
    } else {
      assert (a + b)[1..] == a[1..] + b;
      WithDeltaConcat(a[1..], b, d);
    }
  }

  lemma {:induction false} WithDeltaNone(s: seq<ProcInfo>, d: u64)
    requires forall x | x in s :: x.delta != d
    ensures WithDelta(s, d) == []
  {
    if s != [] { WithDeltaNone(s[1..], d); }
  }

  /** There is only one stable sort. */
  lemma {:induction false} StableSortUnique(a: seq<ProcInfo>, b: seq<ProcInfo>, s: seq<ProcInfo>)
    requires IsStableSort(a, s) && IsStableSort(b, s)
    ensures a == b
    decreases |a|
  {
    if b != [] { NonEmpty(a, b); }
    if a != [] {
      NonEmpty(b, a);
      SameHead(a, b);
      SameHead(b, a);
      assert WithDelta(a, a[0].delta)[0] == a[0] && WithDelta(b, a[0].delta)[0] == b[0];
      forall d ensures WithDelta(a[1..], d) == WithDelta(b[1..], d) {
        assert WithDelta(a, d) == WithDelta(b, d);
        if d == a[0].delta {
          assert WithDelta(a[1..], d) == WithDelta(a, d)[1..] && WithDelta(b[1..], d) == WithDelta(b, d)[1..];
        } else {
          assert WithDelta(a, d) == WithDelta(a[1..], d) && WithDelta(b, d) == WithDelta(b[1..], d);
        }
      }
      StableSortUnique(a[1..], b[1..], a[1..]);
    }
  }

  lemma NonEmpty(a: seq<ProcInfo>, b: seq<ProcInfo>)
    requires b != [] && forall d :: WithDelta(a, d) == WithDelta(b, d)
    ensures a != []
  {
    assert WithDelta(a, b[0].delta) == WithDelta(b, b[0].delta) != [];
  }

  lemma SameHead(a: seq<ProcInfo>, b: seq<ProcInfo>)
    requires Descending(a) && a != [] && b != [] && forall d :: WithDelta(a, d) == WithDelta(b, d)
    ensures b[0].delta <= a[0].delta
  {
    var d := b[0].delta;
    assert WithDelta(b, d) != [];
    if d > a[0].delta {
      forall x | x in a ensures x.delta != d {
        var i :| 0 <= i < |a| && a[i] == x;
      }
      WithDeltaNone(a, d);
      assert false;
    }
  }

  // ---- Insertion ----

  /** The first entry with a smaller delta, or the length. */
  function Position(s: seq<ProcInfo>, d: u64): (i: nat)
    ensures i <= |s| && (i < |s| ==> d > s[i].delta) && forall j | 0 <= j < i :: d <= s[j].delta
  {
    if s == [] || d > s[0].delta then 0 else
      var i := Position(s[1..], d);
      assert forall j | 0 <= j < i :: s[1..][j] == s[j + 1];
      1 + i
  }

  function Insert(s: seq<ProcInfo>, p: ProcInfo): seq<ProcInfo> {
    var i := Position(s, p.delta);
    s[..i] + [p] + s[i..]
  }

  function Ranked(items: seq<ProcInfo>): seq<ProcInfo> {
    if items == [] then [] else Insert(Ranked(items[..|items| - 1]), items[|items| - 1])
  }

  lemma InsertIndex(s: seq<ProcInfo>, p: ProcInfo, k: nat)
    requires k <= |s|
    ensures
      var i, n := Position(s, p.delta), Insert(s, p);
      |n| == |s| + 1 && n[k] == if k < i then s[k] else if k == i then p else s[k - 1]
  {
  }

  lemma InsertDescends(r: seq<ProcInfo>, p: ProcInfo)
    requires Descending(r)
    ensures Descending(Insert(r, p))
  {
    hide Insert, Position;
    var i, n := Position(r, p.delta), Insert(r, p);
    InsertIndex(r, p, 0);
    forall j, k | 0 <= j < k < |n| ensures n[j].delta >= n[k].delta {
      InsertIndex(r, p, j);
      InsertIndex(r, p, k);
    }
  }

  lemma InsertWithDelta(r: seq<ProcInfo>, p: ProcInfo, d: u64)
    requires Descending(r)
    ensures WithDelta(Insert(r, p), d) == WithDelta(r + [p], d)
  {
    hide WithDelta, Position, Descending;
    var i := Position(r, p.delta);
    var low, high := r[..i], r[i..];
    assert r == low + high;
    WithDeltaConcat(low + [p], high, d);
    WithDeltaConcat(low, [p], d);
    WithDeltaConcat(low, high, d);
    WithDeltaConcat(r, [p], d);
    BehindIsSmaller(r, p.delta);
    if d == p.delta {
      WithDeltaNone(high, d);
    } else {
      WithDeltaNone([p], d);
    }
  }

  lemma BehindIsSmaller(r: seq<ProcInfo>, d: u64)
    requires Descending(r)
    ensures forall x | x in r[Position(r, d)..] :: x.delta < d
  {
    hide Position;
    var i := Position(r, d);
    forall x | x in r[i..] ensures x.delta < d {
      var j :| 0 <= j < |r[i..]| && r[i..][j] == x;
      assert r[i].delta >= r[i + j].delta;
    }
  }

  lemma InsertSorts(r: seq<ProcInfo>, s: seq<ProcInfo>, p: ProcInfo)
    requires IsStableSort(r, s)
    ensures IsStableSort(Insert(r, p), s + [p])
  {
    hide WithDelta, Insert, Descending;
    InsertDescends(r, p);
    forall d ensures WithDelta(Insert(r, p), d) == WithDelta(s + [p], d) {
      InsertWithDelta(r, p, d);
      WithDeltaConcat(r, [p], d);
      WithDeltaConcat(s, [p], d);
    }
  }

  /** Inserting one by one gives the stable descending sort. */
  lemma {:induction false} RankedIsStableSort(items: seq<ProcInfo>)
    ensures IsStableSort(Ranked(items), items)
    decreases |items|
  {
    if items != [] {
      var front := items[..|items| - 1];
      RankedIsStableSort(front);
      InsertSorts(Ranked(front), front, items[|items| - 1]);
      assert items == front + [items[|items| - 1]];
    }
  }

  function Best(s: seq<ProcInfo>): seq<ProcInfo> { if |s| <= TOP_N then s else s[..TOP_N] }

  /** Cutting to the best five before inserting loses nothing. */
  lemma BestInsert(s: seq<ProcInfo>, p: ProcInfo)
    ensures Best(Insert(Best(s), p)) == Best(Insert(s, p))
  {
    if |s| > TOP_N {
      var i, k := Position(s, p.delta), Position(s[..TOP_N], p.delta);
      assert forall j | 0 <= j < TOP_N :: s[..TOP_N][j] == s[j];
      assert k == if i < TOP_N then i else TOP_N;
      assert Insert(s[..TOP_N], p)[..TOP_N] == Insert(s, p)[..TOP_N];
    }
  }

  lemma PositionIs(s: seq<ProcInfo>, d: u64, i: nat)
    requires i <= |s| && (i < |s| ==> d > s[i].delta) && forall j | 0 <= j < i :: d <= s[j].delta
    ensures Position(s, d) == i
  {
  }

  /** Shifting the entries from index i on, dropping a sixth, is inserting there and cutting. */
  lemma InsertedAt(s: seq<ProcInfo>, p: ProcInfo, i: nat, last: nat)
    requires |s| <= TOP_N && i <= last && last == if |s| < TOP_N then |s| else TOP_N - 1
    ensures s[..i] + [p] + s[i..last] == Best(s[..i] + [p] + s[i..])
  {
    if |s| == TOP_N {
      CutBehind(s[..i] + [p], s[i..], TOP_N);
      assert s[i..][..last - i] == s[i..last];
    } else {
      assert s[i..last] == s[i..];
    }
  }

  lemma CutBehind(a: seq<ProcInfo>, b: seq<ProcInfo>, n: nat)
    requires |a| <= n <= |a| + |b|
    ensures (a + b)[..n] == a + b[..n - |a|]
  {
  }

  /** top[i] = top[i - 1] */
  method MoveUp(top: array<ProcInfo>, i: nat, end: nat, ghost s: seq<ProcInfo>)
    requires 0 < i <= end < top.Length && end <= |s| && top[..i] == s[..i] && top[i + 1..end + 1] == s[i..end]
    modifies top
    ensures top[..i - 1] == s[..i - 1] && top[i..end + 1] == s[i - 1..end]
  {
    assert top[i - 1] == top[..i][i - 1] == s[i - 1];
    ghost var tail := top[i + 1..end + 1];
    top[i] := top[i - 1];
    assert top[i..end + 1] == [s[i - 1]] + tail;
    assert top[..i - 1] == s[..i][..i - 1];
  }

  /** The shifting loop, and the store that follows it. */
  method ShiftIn(top: array<ProcInfo>, pos: nat, end: nat, p: ProcInfo)
    requires pos <= end < top.Length
    modifies top
    ensures top[..end + 1] == old(top[..pos]) + [p] + old(top[pos..end])
  {
    ghost var s := top[..end];
    var i := end;
    while i > pos
      invariant pos <= i <= end && top[..i] == s[..i] && top[i + 1..end + 1] == s[i..end]
    {
      MoveUp(top, i, end, s);
      i := i - 1;
    }
    ghost var tail := top[pos + 1..end + 1];
    top[pos] := p;
    assert top[pos + 1..end + 1] == tail;
  }

  /** insert_top: the table holds count entries at its front. */
  method InsertTop(top: array<ProcInfo>, count: nat, p: ProcInfo) returns (newCount: nat)
    requires top.Length == TOP_N && count <= TOP_N
    modifies top
    ensures newCount <= TOP_N && top[..newCount] == Best(Insert(old(top[..count]), p))
  {
    hide Best, Position;
    ghost var s := top[..count];
    var pos := count;
    for i := 0 to count
      invariant pos == count && top[..count] == s && forall j | 0 <= j < i :: p.delta <= s[j].delta
    {
      assert top[i] == s[i];
      if p.delta > top[i].delta {
        pos := i;
        break;
      }
    }
    PositionIs(s, p.delta, pos);
    if pos >= TOP_N {
      FullTable(s, p);
      return count;
    }
    var end := if count < TOP_N then count else TOP_N - 1;
    InsertedAt(s, p, pos, end);
    assert top[..pos] == s[..pos] && top[pos..end] == s[pos..end];
    ShiftIn(top, pos, end, p);
    newCount := if count < TOP_N then count + 1 else count;
  }

  lemma FullTable(s: seq<ProcInfo>, p: ProcInfo)
    requires |s| == TOP_N == Position(s, p.delta)
    ensures Best(Insert(s, p)) == s
  {
  }

  // ---- The join of two snapshots ----

  /** The first entry of a process, or the length. */
  function Find(s: seq<ProcSnap>, pid: u32): (j: nat)
    ensures j <= |s| && (j < |s| ==> s[j].pid == pid) && forall k | 0 <= k < j :: s[k].pid != pid
  {
    if s == [] || s[0].pid == pid then 0 else
      var j := Find(s[1..], pid);
      assert forall k | 0 <= k < j :: s[1..][k] == s[k + 1];
      1 + j
  }

  /** Time used between the snapshots, at least zero. */
  function Delta(before: ProcSnap, after: ProcSnap): u64 {
    if after.jiffies >= before.jiffies then after.jiffies - before.jiffies else 0
  }

  /** The process is in the second snapshot with a nonzero time. */
  predicate Survives(a: ProcSnap, curr: seq<ProcSnap>) {
    var j := Find(curr, a.pid);
    j < |curr| && curr[j].jiffies != 0
  }

  function Usage(a: ProcSnap, curr: seq<ProcSnap>): ProcInfo
    requires Survives(a, curr)
  {
    var b := curr[Find(curr, a.pid)];
    ProcInfo(a.pid, Delta(a, b), b.memPct, b.flags)
  }

  function Join(prev: seq<ProcSnap>, curr: seq<ProcSnap>): seq<ProcInfo> {
    if prev == [] then [] else
      var a := prev[|prev| - 1];
      Join(prev[..|prev| - 1], curr) + (if Survives(a, curr) then [Usage(a, curr)] else [])
  }

  /** The join holds the usage of exactly the processes in both snapshots with nonzero current time, once each if the
      first snapshot has no process twice. */
  lemma {:induction false} JoinHolds(prev: seq<ProcSnap>, curr: seq<ProcSnap>, x: ProcInfo)
    ensures x in Join(prev, curr) <==> exists a | a in prev :: Survives(a, curr) && x == Usage(a, curr)
    decreases |prev|
  {
    if prev != [] {
      var front, a := prev[..|prev| - 1], prev[|prev| - 1];
      JoinHolds(front, curr, x);
      assert prev == front + [a];
      assert Join(prev, curr) == Join(front, curr) + (if Survives(a, curr) then [Usage(a, curr)] else []);
    }
  }

  /** An entry measures process i of the first snapshot against its first occurrence, j, in the second: the time used in
      between, never negative, with the second one's memory and flags. */
  predicate Measures(x: ProcInfo, prev: seq<ProcSnap>, i: nat, curr: seq<ProcSnap>, j: nat) {
    && i < |prev| && j < |curr| && curr[j].pid == prev[i].pid && (forall k | 0 <= k < j :: curr[k].pid != prev[i].pid)
    && curr[j].jiffies > 0
    && x.pid == prev[i].pid && x.memPct == curr[j].memPct && x.flags == curr[j].flags
    && x.delta as int == if curr[j].jiffies > prev[i].jiffies then curr[j].jiffies as int - prev[i].jiffies as int else 0
  }

  /** The join in terms of the two snapshots alone. */
  lemma JoinMeasures(prev: seq<ProcSnap>, curr: seq<ProcSnap>, x: ProcInfo)
    ensures x in Join(prev, curr) <==> exists i: nat, j: nat :: Measures(x, prev, i, curr, j)
  {
    JoinHolds(prev, curr, x);
    if x in Join(prev, curr) {
      var a :| a in prev && Survives(a, curr) && x == Usage(a, curr);
      var i :| 0 <= i < |prev| && prev[i] == a;
      assert Measures(x, prev, i, curr, Find(curr, a.pid));
    }
    if i: nat, j: nat :| Measures(x, prev, i, curr, j) {
      FindIs(curr, prev[i].pid, j);
      assert Survives(prev[i], curr) && x == Usage(prev[i], curr);
    }
  }

  /** The table keeps five entries, the first ones. */
  lemma BestIsFive(s: seq<ProcInfo>)
    ensures Best(s) <= s && |Best(s)| == if |s| < 5 then |s| else 5
  {
  }

  lemma {:induction false} JoinDistinct(prev: seq<ProcSnap>, curr: seq<ProcSnap>)
    requires forall i, j | 0 <= i < j < |prev| :: prev[i].pid != prev[j].pid
    ensures forall i, j | 0 <= i < j < |Join(prev, curr)| :: Join(prev, curr)[i].pid != Join(prev, curr)[j].pid
    decreases |prev|
  {
    if prev != [] {
      var front, a := prev[..|prev| - 1], prev[|prev| - 1];
      JoinDistinct(front, curr);
      forall x | x in Join(front, curr) ensures x.pid != a.pid {
        JoinHolds(front, curr, x);
      }
    }
  }

  /** The comparison loops of handler_sys_procs. */
  method TopProcs(prev: array<ProcSnap>, nPrev: nat, curr: array<ProcSnap>, nCurr: nat) returns (top: array<ProcInfo>, count: nat)
    requires nPrev <= prev.Length && nCurr <= curr.Length
    ensures fresh(top) && top.Length == TOP_N && count <= TOP_N
    ensures top[..count] == Best(Ranked(Join(prev[..nPrev], curr[..nCurr])))
  {
    top := new ProcInfo[TOP_N](_ => ProcInfo(0, 0, 0, 0));
    count := 0;
    for i := 0 to nPrev
      invariant top.Length == TOP_N && count <= TOP_N && fresh(top)
      invariant top[..count] == Best(Ranked(Join(prev[..i], curr[..nCurr])))
    {
      var pid, jiffies, memPct, flags := prev[i].pid, 0 as u64, prev[i].memPct, prev[i].flags;
      var j := 0;
      while j < nCurr && curr[j].pid != pid
        invariant 0 <= j <= nCurr && forall k | 0 <= k < j :: curr[k].pid != pid
      {
        j := j + 1;
      }
      ghost var s, a := curr[..nCurr], prev[i];
      FindIs(s, pid, j);
      if j < nCurr {
        jiffies, memPct, flags := curr[j].jiffies, curr[j].memPct, curr[j].flags;
      }
      assert prev[..i + 1][..i] == prev[..i] && prev[..i + 1][i] == a;
      if jiffies != 0 {
        var delta := if jiffies >= prev[i].jiffies then jiffies - prev[i].jiffies else 0;
        var items := Join(prev[..i], s);
        assert ProcInfo(pid, delta, memPct, flags) == Usage(a, s);
        RankedPush(items, Usage(a, s));
        BestInsert(Ranked(items), Usage(a, s));
        count := InsertTop(top, count, ProcInfo(pid, delta, memPct, flags));
      } else {
        assert Join(prev[..i + 1], s) == Join(prev[..i], s);
      }
    }
  }

  lemma FindIs(s: seq<ProcSnap>, pid: u32, j: nat)
    requires j <= |s| && (j < |s| ==> s[j].pid == pid) && forall k | 0 <= k < j :: s[k].pid != pid
    ensures Find(s, pid) == j
  {
  }

  lemma RankedPush(items: seq<ProcInfo>, p: ProcInfo)
    ensures Ranked(items + [p]) == Insert(Ranked(items), p)
  {
    assert (items + [p])[..|items|] == items;
  }
}
