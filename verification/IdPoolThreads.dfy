// The id pool under threads. Each C statement that touches shared memory is one atomic step
// of one thread; a schedule is any sequence of thread numbers.
module IdPoolThreads {
  import opened IdPools
  import opened Seqs

  datatype Thread =
    // id_pool_get: fetch-and-add; test the bound and the slot; fill the slot; read it
    | GetStart
    | Fetched(ptr: int)
    | Filling(ptr: int)
    | Ready(ptr: int)
    | Got(ptr: int, id: int)
    // id_pool_release: load `next`; compare-and-exchange, retried; write the slot
    | ReleaseStart(id: int)
    | Loaded(id: int, curr: int)
    | Claimed(id: int, ptr: int)
    | Freed(id: int, ptr: int)

  // `order` lists the threads that have moved `next`, first to last. `fault` records an
  // access outside the array.
  datatype Machine = Machine(max: nat, next: int, ids: seq<int>, threads: seq<Thread>,
                             order: seq<nat>, fault: bool)

  function Start(p: Pool, threads: seq<Thread>): Machine {
    Machine(p.max, p.next, p.ids, threads, [], false)
  }

  function Step(m: Machine, t: nat): (n: Machine)
    requires t < |m.threads|
    ensures |n.threads| == |m.threads|
  {
    match m.threads[t]
    case GetStart =>
      m.(next := m.next + 1, threads := m.threads[t := Fetched(m.next)], order := m.order + [t])
    case Fetched(ptr) =>
      if ptr >= m.max then m.(threads := m.threads[t := Got(ptr, 0)])
      else if !(0 <= ptr < |m.ids|) then m.(fault := true)
      else if m.ids[ptr] == 0 then m.(threads := m.threads[t := Filling(ptr)])
      else m.(threads := m.threads[t := Ready(ptr)])
    case Filling(ptr) =>
      if !(0 <= ptr < |m.ids|) then m.(fault := true)
      else m.(ids := m.ids[ptr := ptr + 1], threads := m.threads[t := Ready(ptr)])
    case Ready(ptr) =>
      if !(0 <= ptr < |m.ids|) then m.(fault := true)
      else m.(threads := m.threads[t := Got(ptr, m.ids[ptr])])
    case ReleaseStart(id) =>
      m.(threads := m.threads[t := Loaded(id, m.next)])
    case Loaded(id, curr) =>
      if m.next == curr then
        m.(next := curr - 1, threads := m.threads[t := Claimed(id, curr - 1)], order := m.order + [t])
      else m.(threads := m.threads[t := Loaded(id, m.next)])
    case Claimed(id, ptr) =>
      if !(0 <= ptr < |m.ids|) then m.(fault := true)
      else m.(ids := m.ids[ptr := id], threads := m.threads[t := Freed(id, ptr)])
    case Got(_, _) => m
    case Freed(_, _) => m
  }

  predicate Within(s: seq<nat>, n: nat) {
    forall i :: 0 <= i < |s| ==> s[i] < n
  }

  function Run(m: Machine, schedule: seq<nat>): (n: Machine)
    requires Within(schedule, |m.threads|)
    ensures |n.threads| == |m.threads|
    decreases |schedule|
  {
    if schedule == [] then m else Run(Step(m, schedule[0]), schedule[1..])
  }

  predicate Finished(m: Machine) {
    forall t :: 0 <= t < |m.threads| ==> m.threads[t].Got? || m.threads[t].Freed?
  }

  // The pool the shared memory holds, given the ids that are live.
  ghost function PoolOf(m: Machine, hw: nat, live: set<int>): Pool {
    Pool(m.max, m.next, m.ids, hw, live)
  }

  ghost function Below(n: nat): (r: set<nat>)
    ensures |r| == n && forall t :: t in r <==> 0 <= t < n
  {
    if n == 0 then {} else Below(n - 1) + {n - 1}
  }

  ghost function Members(s: seq<nat>): (r: set<nat>)
    ensures forall t :: t in r <==> t in s
  {
    if s == [] then {} else Members(s[1..]) + {s[0]}
  }

  lemma {:induction false} MembersCount(s: seq<nat>)
    requires Distinct(s)
    ensures |Members(s)| == |s|
  {
    if s != [] {
      DistinctTail(s);
      MembersCount(s[1..]);
    }
  }

  // Distinct thread numbers below n: at most n of them, and n exactly when all occur.
  lemma CountDistinct(s: seq<nat>, n: nat)
    requires Distinct(s) && Within(s, n)
    ensures |s| <= n
    ensures (forall t :: 0 <= t < n ==> t in s) ==> |s| == n
  {
    MembersCount(s);
    assert Below(n) == Members(s) + (Below(n) - Members(s));
    if forall t :: 0 <= t < n ==> t in s {
      assert Members(s) == Below(n);
    }
  }

  // ---- Threads that only get ----

  // The id a sequential get at index j would return.
  function IdAt(p: Pool, j: nat): int
    requires j < |p.ids|
  {
    if p.ids[j] == 0 then j + 1 else p.ids[j]
  }

  ghost predicate GetInv(p: Pool, m: Machine) {
    && m.max == p.max == |m.ids| == |p.ids| && !m.fault
    && 0 <= p.next
    && m.next == p.next + |m.order|
    && Distinct(m.order)
    && Within(m.order, |m.threads|)
    && (forall t :: 0 <= t < |m.threads| ==> (m.threads[t].GetStart? <==> t !in m.order))
    && (forall k :: 0 <= k < |m.order| ==> GetThread(p, m.ids, m.threads[m.order[k]], p.next + k))
    && (forall j :: 0 <= j < p.max && !(p.next <= j < m.next) ==> m.ids[j] == p.ids[j])
  }

  // What a thread that drew index `ptr` knows, and what its slot holds.
  ghost predicate GetThread(p: Pool, ids: seq<int>, thread: Thread, ptr: int)
    requires |ids| == p.max == |p.ids| && 0 <= ptr
  {
    match thread
    case Fetched(q) => q == ptr && (ptr < p.max ==> ids[ptr] == p.ids[ptr])
    case Filling(q) => q == ptr < p.max && ids[ptr] == p.ids[ptr] == 0
    case Ready(q) => q == ptr < p.max && ids[ptr] == IdAt(p, ptr)
    case Got(q, id) =>
      && q == ptr
      && (ptr < p.max ==> ids[ptr] == id == IdAt(p, ptr))
      && (ptr >= p.max ==> id == 0)
    case _ => false
  }

  lemma GetFirstStep(p: Pool, m: Machine, t: nat)
    requires GetInv(p, m) && t < |m.threads| && m.threads[t].GetStart?
    ensures GetInv(p, Step(m, t))
  {
    var n := Step(m, t);
    AppendDistinct(m.order, t);
    forall k | 0 <= k < |n.order|
      ensures GetThread(p, n.ids, n.threads[n.order[k]], p.next + k)
    {
      if k < |m.order| {
        assert m.order[k] in m.order;
        assert GetThread(p, m.ids, m.threads[m.order[k]], p.next + k);
      }
    }
    forall u | 0 <= u < |n.threads|
      ensures n.threads[u].GetStart? <==> u !in n.order
    {
      assert u in n.order <==> u in m.order || u == t;
    }
  }

  // A later step of thread order[i] concerns its own slot only.
  lemma GetThreadKept(p: Pool, m: Machine, i: nat, k: nat)
    requires GetInv(p, m) && i < |m.order| && k < |m.order|
    requires !m.threads[m.order[i]].GetStart?
    ensures var n := Step(m, m.order[i]);
      && |n.ids| == |p.ids| && n.order == m.order && n.next == m.next && n.max == m.max && !n.fault
      && |n.threads| == |m.threads| && !n.threads[m.order[i]].GetStart?
      && GetThread(p, n.ids, n.threads[m.order[k]], p.next + k)
      && (forall j :: 0 <= j < p.max && j != p.next + i ==> n.ids[j] == m.ids[j])
  {
    assert GetThread(p, m.ids, m.threads[m.order[i]], p.next + i);
    assert GetThread(p, m.ids, m.threads[m.order[k]], p.next + k);
    assert i < k ==> Differ(m.order, i, k);
    assert k < i ==> Differ(m.order, k, i);
  }

  lemma GetLaterStep(p: Pool, m: Machine, t: nat)
    requires GetInv(p, m) && t < |m.threads| && !m.threads[t].GetStart?
    ensures GetInv(p, Step(m, t))
  {
    var n := Step(m, t);
    assert t in m.order;
    var i :| 0 <= i < |m.order| && m.order[i] == t;
    GetThreadKept(p, m, i, i);
    forall k | 0 <= k < |n.order|
      ensures GetThread(p, n.ids, n.threads[n.order[k]], p.next + k)
    {
      GetThreadKept(p, m, i, k);
    }
  }

  lemma GetStep(p: Pool, m: Machine, t: nat)
    requires WF(p) && GetInv(p, m) && t < |m.threads|
    ensures GetInv(p, Step(m, t))
  {
    if m.threads[t].GetStart? {
      GetFirstStep(p, m, t);
    } else {
      GetLaterStep(p, m, t);
    }
  }

  lemma {:induction false} GetRun(p: Pool, m: Machine, schedule: seq<nat>)
    requires WF(p) && GetInv(p, m) && Within(schedule, |m.threads|)
    ensures GetInv(p, Run(m, schedule))
    decreases |schedule|
  {
    if schedule != [] {
      GetStep(p, m, schedule[0]);
      GetRun(p, Step(m, schedule[0]), schedule[1..]);
    }
  }

  // n gets, one after the other, and what the k-th of them returns.
  function GetN(p: Pool, n: nat): (q: Pool)
    requires 0 <= p.next && |p.ids| == p.max
    ensures 0 <= q.next && |q.ids| == q.max == p.max
  {
    if n == 0 then p else Get(GetN(p, n - 1)).0
  }

  function NthId(p: Pool, k: nat): int
    requires 0 <= p.next && |p.ids| == p.max
  {
    Get(GetN(p, k)).1
  }

  lemma {:induction false} GetNFacts(p: Pool, n: nat)
    requires WF(p)
    ensures var q := GetN(p, n);
      && Sound(q) && q.next == p.next + n && p.live <= q.live
      && (forall j :: 0 <= j < p.max ==>
            q.ids[j] == if p.next <= j < p.next + n then IdAt(p, j) else p.ids[j])
    ensures NthId(p, n) == if p.next + n < p.max then IdAt(p, p.next + n) else 0
  {
    hide Conserves;
    if n > 0 {
      GetNFacts(p, n - 1);
      GetSound(GetN(p, n - 1));
    }
  }

  // Later gets do not take an id that is live already.
  lemma {:induction false} NthIdStays(p: Pool, k: nat, n: nat)
    requires WF(p) && k < n && NthId(p, k) != 0
    ensures NthId(p, k) !in p.live && NthId(p, k) in GetN(p, n).live
  {
    hide Conserves;
    GetNFacts(p, n - 1);
    GetSound(GetN(p, n - 1));
    if k < n - 1 {
      NthIdStays(p, k, n - 1);
    }
  }

  lemma NthIdsDiffer(p: Pool, j: nat, k: nat)
    requires WF(p) && j < k && NthId(p, j) != 0
    ensures NthId(p, j) != NthId(p, k)
  {
    hide Conserves;
    NthIdStays(p, j, k);
    GetNFacts(p, k);
    GetSound(GetN(p, k));
  }

  function Getters(n: nat): seq<Thread> {
    seq(n, i => GetStart)
  }

  // Every interleaving of n gets ends as n gets in a row: same memory, and the thread whose
  // fetch-and-add came k-th has what the k-th call would have returned. No access is out of range.
  lemma GetPhase(p: Pool, n: nat, schedule: seq<nat>)
    requires WF(p) && Within(schedule, n)
    requires Finished(Run(Start(p, Getters(n)), schedule))
    ensures var m := Run(Start(p, Getters(n)), schedule);
      && !m.fault && |m.order| == n && Distinct(m.order) && Within(m.order, n)
      && (forall t :: 0 <= t < n ==> t in m.order)
      && (var q := GetN(p, n); PoolOf(m, q.hw, q.live) == q)
      && (forall k :: 0 <= k < n ==> m.threads[m.order[k]].Got? && m.threads[m.order[k]].id == NthId(p, k))
  {
    var m0 := Start(p, Getters(n));
    GetRun(p, m0, schedule);
    GetEnd(p, Run(m0, schedule), n);
  }

  lemma GetEnd(p: Pool, m: Machine, n: nat)
    requires WF(p) && GetInv(p, m) && |m.threads| == n && Finished(m)
    ensures |m.order| == n && forall t :: 0 <= t < n ==> t in m.order
    ensures var q := GetN(p, n); PoolOf(m, q.hw, q.live) == q
    ensures forall k :: 0 <= k < n ==> m.threads[m.order[k]].Got? && m.threads[m.order[k]].id == NthId(p, k)
  {
    hide GetN, NthId, Conserves;
    forall t | 0 <= t < n
      ensures t in m.order
    {
      assert !m.threads[t].GetStart?;
    }
    CountDistinct(m.order, n);
    forall k | 0 <= k < n
      ensures m.threads[m.order[k]].Got? && m.threads[m.order[k]].id == NthId(p, k)
    {
      assert GetThread(p, m.ids, m.threads[m.order[k]], p.next + k);
      GetNFacts(p, k);
    }
    GetNFacts(p, n);
    forall j | 0 <= j < p.max
      ensures m.ids[j] == GetN(p, n).ids[j]
    {
      if p.next <= j < m.next {
        assert GetThread(p, m.ids, m.threads[m.order[j - p.next]], j);
      }
    }
    assert m.ids == GetN(p, n).ids;
  }

  ghost function Served(m: Machine): set<nat> {
    set t: nat | t < |m.threads| && m.threads[t].Got? && m.threads[t].id != 0
  }

  // Hence the ids issued in parallel are pairwise distinct and were not live, and exactly as
  // many threads are served as the pool had capacity for.
  lemma GetPhaseResults(p: Pool, n: nat, schedule: seq<nat>)
    requires WF(p) && Within(schedule, n)
    requires Finished(Run(Start(p, Getters(n)), schedule))
    ensures var m := Run(Start(p, Getters(n)), schedule);
      && (forall t :: t in Served(m) ==> m.threads[t].id !in p.live)
      && (forall t, u :: t in Served(m) && u in Served(m) && t != u ==> m.threads[t].id != m.threads[u].id)
      && |Served(m)| == Min(n, p.max - p.next)
  {
    hide Conserves;
    GetPhase(p, n, schedule);
    var m := Run(Start(p, Getters(n)), schedule);
    forall t | t in Served(m)
      ensures m.threads[t].id !in p.live
    {
      assert t in m.order;
      var j :| 0 <= j < n && m.order[j] == t;
      NthIdStays(p, j, n);
    }
    forall t, u | t in Served(m) && u in Served(m) && t != u
      ensures m.threads[t].id != m.threads[u].id
    {
      assert t in m.order && u in m.order;
      var j :| 0 <= j < n && m.order[j] == t;
      var k :| 0 <= k < n && m.order[k] == u;
      if j < k {
        NthIdsDiffer(p, j, k);
      } else {
        NthIdsDiffer(p, k, j);
      }
    }
    ServedCount(p, m, n);
  }

  lemma CapacityLeft(p: Pool)
    requires WF(p)
    ensures 0 <= p.next <= p.max == |p.ids|
  {
  }

  lemma NthIdServed(p: Pool, k: nat)
    requires WF(p)
    ensures 0 <= p.next && |p.ids| == p.max
    ensures NthId(p, k) != 0 <==> p.next + k < p.max
  {
    hide Conserves;
    GetNFacts(p, k);
  }

  lemma PrefixDistinct(s: seq<nat>, n: nat)
    requires Distinct(s) && n <= |s|
    ensures Distinct(s[..n])
  {
    var r := s[..n];
    forall i, j | 0 <= i < j < n
      ensures Differ(r, i, j)
    {
      assert Differ(s, i, j);
    }
  }

  lemma ServedCount(p: Pool, m: Machine, n: nat)
    requires WF(p) && |m.order| == |m.threads| == n && Distinct(m.order) && Within(m.order, n)
    requires forall t :: 0 <= t < n ==> t in m.order
    requires forall k :: 0 <= k < n ==> m.threads[m.order[k]].Got? && m.threads[m.order[k]].id == NthId(p, k)
    ensures |Served(m)| == Min(n, p.max - p.next)
  {
    hide WF, GetN, NthId, Distinct;
    var c := Min(n, p.max - p.next);
    CapacityLeft(p);
    var first := m.order[..c];
    PrefixDistinct(m.order, c);
    MembersCount(first);
    forall j | 0 <= j < n
      ensures m.order[j] in Served(m) <==> j < c
    {
      NthIdServed(p, j);
    }
    forall t | t in first
      ensures t in Served(m)
    {
      var i :| 0 <= i < c && first[i] == t;
      assert m.order[i] == t;
    }
    forall t | t in Served(m)
      ensures t in first
    {
      assert t in m.order;
      var j :| 0 <= j < n && m.order[j] == t;
      assert first[j] == t;
    }
    assert Served(m) == Members(first);
  }

  // ---- Threads that only release ----

  function Releasers(rel: seq<int>): seq<Thread> {
    seq(|rel|, i requires 0 <= i < |rel| => ReleaseStart(rel[i]))
  }

  // Distinct live ids, one per thread.
  ghost predicate Owed(p: Pool, rel: seq<int>) {
    Distinct(rel) && forall i :: 0 <= i < |rel| ==> rel[i] in p.live
  }

  predicate Unclaimed(thread: Thread, id: int) {
    (thread.ReleaseStart? || thread.Loaded?) && thread.id == id
  }

  ghost predicate ReleaseInv(p: Pool, rel: seq<int>, m: Machine) {
    && m.max == p.max == |m.ids| == |p.ids| && !m.fault
    && |rel| <= p.next <= p.max
    && m.next == p.next - |m.order|
    && |m.threads| == |rel|
    && Distinct(m.order)
    && Within(m.order, |rel|)
    && (forall t :: 0 <= t < |rel| && t !in m.order ==> Unclaimed(m.threads[t], rel[t]))
    && (forall k :: 0 <= k < |m.order| ==>
          ReleaseThread(m.ids, m.threads[m.order[k]], rel[m.order[k]], p.next - 1 - k))
    && (forall j :: 0 <= j < p.max && !(m.next <= j < p.next) ==> m.ids[j] == p.ids[j])
  }

  // What a thread that has won slot `ptr` knows, and what the slot holds.
  ghost predicate ReleaseThread(ids: seq<int>, thread: Thread, id: int, ptr: int) {
    match thread
    case Claimed(i, q) => i == id && q == ptr
    case Freed(i, q) => i == id && q == ptr && 0 <= ptr < |ids| && ids[ptr] == id
    case _ => false
  }

  lemma ReleaseUnclaimedStep(p: Pool, rel: seq<int>, m: Machine, t: nat)
    requires ReleaseInv(p, rel, m) && t < |rel| && t !in m.order
    ensures ReleaseInv(p, rel, Step(m, t))
  {
    var n := Step(m, t);
    assert Unclaimed(m.threads[t], rel[t]);
    assert m.ids == n.ids;
    AppendDistinct(m.order, t);
    forall k | 0 <= k < |m.order|
      ensures m.order[k] != t && ReleaseThread(n.ids, n.threads[m.order[k]], rel[m.order[k]], p.next - 1 - k)
    {
      assert m.order[k] in m.order;
      assert ReleaseThread(m.ids, m.threads[m.order[k]], rel[m.order[k]], p.next - 1 - k);
    }
    forall u | 0 <= u < |rel| && u !in n.order
      ensures Unclaimed(n.threads[u], rel[u])
    {
      assert u !in m.order;
      assert Unclaimed(m.threads[u], rel[u]);
    }
  }

  lemma ReleaseThreadKept(p: Pool, rel: seq<int>, m: Machine, i: nat, k: nat)
    requires ReleaseInv(p, rel, m) && i < |m.order| && k < |m.order|
    ensures var n := Step(m, m.order[i]);
      && |n.ids| == |p.ids| && n.order == m.order && n.next == m.next && n.max == m.max && !n.fault
      && |n.threads| == |m.threads|
      && ReleaseThread(n.ids, n.threads[m.order[k]], rel[m.order[k]], p.next - 1 - k)
      && (forall j :: 0 <= j < p.max && j != p.next - 1 - i ==> n.ids[j] == m.ids[j])
      && (forall u :: 0 <= u < |rel| && u != m.order[i] ==> n.threads[u] == m.threads[u])
  {
    CountDistinct(m.order, |rel|);
    assert ReleaseThread(m.ids, m.threads[m.order[i]], rel[m.order[i]], p.next - 1 - i);
    assert ReleaseThread(m.ids, m.threads[m.order[k]], rel[m.order[k]], p.next - 1 - k);
    assert i < k ==> Differ(m.order, i, k);
    assert k < i ==> Differ(m.order, k, i);
  }

  lemma ReleaseStep(p: Pool, rel: seq<int>, m: Machine, t: nat)
    requires ReleaseInv(p, rel, m) && t < |rel|
    ensures ReleaseInv(p, rel, Step(m, t))
  {
    var n := Step(m, t);
    if t !in m.order {
      ReleaseUnclaimedStep(p, rel, m, t);
    } else {
      var i :| 0 <= i < |m.order| && m.order[i] == t;
      ReleaseThreadKept(p, rel, m, i, i);
      forall k | 0 <= k < |n.order|
        ensures ReleaseThread(n.ids, n.threads[n.order[k]], rel[n.order[k]], p.next - 1 - k)
      {
        ReleaseThreadKept(p, rel, m, i, k);
      }
    }
  }

  lemma {:induction false} ReleaseRun(p: Pool, rel: seq<int>, m: Machine, schedule: seq<nat>)
    requires ReleaseInv(p, rel, m) && Within(schedule, |rel|)
    ensures ReleaseInv(p, rel, Run(m, schedule))
    decreases |schedule|
  {
    hide ReleaseInv;
    if schedule != [] {
      assert |m.threads| == |rel| by { ReleaseShape(p, rel, m); }
      ReleaseStep(p, rel, m, schedule[0]);
      ReleaseRun(p, rel, Step(m, schedule[0]), schedule[1..]);
    }
  }

  lemma ReleaseShape(p: Pool, rel: seq<int>, m: Machine)
    requires ReleaseInv(p, rel, m)
    ensures |m.threads| == |rel|
  {
  }

  // The releases one after the other.
  function ReleaseAll(p: Pool, xs: seq<int>): Pool
    requires |p.ids| == p.max && |xs| <= p.next <= p.max
    ensures var q := ReleaseAll(p, xs); |q.ids| == q.max == p.max && p.next - |xs| <= q.next <= p.next
  {
    if xs == [] then p
    else Release(ReleaseAll(p, xs[..|xs| - 1]), xs[|xs| - 1])
  }

  ghost function IdsOf(xs: seq<int>): (r: set<int>)
    ensures forall x :: x in r <==> x in xs
  {
    if xs == [] then {} else IdsOf(xs[..|xs| - 1]) + {xs[|xs| - 1]}
  }

  lemma {:induction false} ReleaseAllFacts(p: Pool, xs: seq<int>)
    requires WF(p) && Owed(p, xs) && |xs| <= p.next
    ensures var q := ReleaseAll(p, xs);
      && WF(q) && q.next == p.next - |xs| && q.live == p.live - IdsOf(xs) && q.hw == p.hw
      && (forall j :: 0 <= j < p.max ==>
            q.ids[j] == if p.next - |xs| <= j < p.next then xs[p.next - 1 - j] else p.ids[j])
  {
    hide Conserves;
    if xs != [] {
      var n := |xs| - 1;
      DistinctFront(xs);
      ReleaseAllFacts(p, xs[..n]);
      var q := ReleaseAll(p, xs[..n]);
      assert xs[n] in q.live;
      assert !Ignored(q, xs[n]) by { LiveNotIgnored(p, xs[n]); }
      ReleaseSoundIff(q, xs[n]);
    }
  }

  lemma LiveNotIgnored(p: Pool, id: int)
    requires Sound(p) && id in p.live
    ensures !Ignored(p, id)
  {
  }

  lemma {:induction false} IdsOfCount(xs: seq<int>)
    requires Distinct(xs)
    ensures |IdsOf(xs)| == |xs|
  {
    if xs != [] {
      DistinctFront(xs);
      IdsOfCount(xs[..|xs| - 1]);
    }
  }

  lemma OwedFits(p: Pool, rel: seq<int>)
    requires WF(p) && Owed(p, rel)
    ensures |rel| <= p.next
  {
    IdsOfCount(rel);
    assert p.live == IdsOf(rel) + (p.live - IdsOf(rel));
  }

  // Every interleaving of releases of distinct live ids ends as the same releases in a row:
  // the thread that was k-th to win the compare-and-exchange has filled the k-th slot down,
  // the pool is well formed, and exactly those ids are free again.
  lemma ReleasePhase(p: Pool, rel: seq<int>, schedule: seq<nat>)
    requires WF(p) && Owed(p, rel) && Within(schedule, |rel|)
    requires Finished(Run(Start(p, Releasers(rel)), schedule))
    ensures var m := Run(Start(p, Releasers(rel)), schedule);
      && !m.fault && |m.order| == |rel| <= p.next && Distinct(m.order) && Within(m.order, |rel|)
      && (forall k :: 0 <= k < |rel| ==> m.threads[m.order[k]] == Freed(rel[m.order[k]], p.next - 1 - k))
      && PoolOf(m, p.hw, p.live - IdsOf(rel)) == ReleaseAll(p, InOrder(rel, m.order))
      && WF(PoolOf(m, p.hw, p.live - IdsOf(rel)))
  {
    hide Conserves;
    OwedFits(p, rel);
    var m0 := Start(p, Releasers(rel));
    assert ReleaseInv(p, rel, m0);
    ReleaseRun(p, rel, m0, schedule);
    var m := Run(m0, schedule);
    forall t | 0 <= t < |rel|
      ensures t in m.order
    {
      assert t !in m.order ==> Unclaimed(m.threads[t], rel[t]);
    }
    CountDistinct(m.order, |rel|);
    forall k | 0 <= k < |rel|
      ensures m.threads[m.order[k]] == Freed(rel[m.order[k]], p.next - 1 - k)
    {
      assert ReleaseThread(m.ids, m.threads[m.order[k]], rel[m.order[k]], p.next - 1 - k);
    }
    ReleaseEnd(p, rel, m);
  }

  // The ids in the order in which the threads listed in `order` release them.
  function InOrder(rel: seq<int>, order: seq<nat>): (xs: seq<int>)
    requires Within(order, |rel|)
    ensures |xs| == |order| && forall k :: 0 <= k < |xs| ==> xs[k] == rel[order[k]]
  {
    seq(|order|, k requires 0 <= k < |order| => rel[order[k]])
  }

  lemma InOrderOwed(p: Pool, rel: seq<int>, order: seq<nat>)
    requires Owed(p, rel) && Within(order, |rel|) && Distinct(order)
    ensures Owed(p, InOrder(rel, order))
  {
    var xs := InOrder(rel, order);
    forall j, k | 0 <= j < k < |xs|
      ensures Differ(xs, j, k)
    {
      assert Differ(order, j, k);
      assert Differ(rel, order[j], order[k]) || Differ(rel, order[k], order[j]);
    }
  }

  // Listing the ids in another order does not change which they are.
  lemma InOrderIds(rel: seq<int>, order: seq<nat>)
    requires Within(order, |rel|) && forall t :: 0 <= t < |rel| ==> t in order
    ensures IdsOf(InOrder(rel, order)) == IdsOf(rel)
  {
    var xs := InOrder(rel, order);
    forall x | x in rel
      ensures x in xs
    {
      var t :| 0 <= t < |rel| && rel[t] == x;
      assert t in order;
      var k :| 0 <= k < |order| && order[k] == t;
      assert xs[k] == x;
    }
  }

  lemma ReleaseSlot(p: Pool, rel: seq<int>, m: Machine, j: nat)
    requires ReleaseInv(p, rel, m) && |m.order| == |rel| && j < p.max
    requires forall k :: 0 <= k < |rel| ==> m.threads[m.order[k]].Freed?
    ensures m.ids[j] == if p.next - |rel| <= j < p.next then InOrder(rel, m.order)[p.next - 1 - j] else p.ids[j]
  {
    var k := p.next - 1 - j;
    assert 0 <= k < |rel| ==> ReleaseThread(m.ids, m.threads[m.order[k]], rel[m.order[k]], p.next - 1 - k);
  }

  lemma ReleaseEnd(p: Pool, rel: seq<int>, m: Machine)
    requires WF(p) && Owed(p, rel) && ReleaseInv(p, rel, m) && |m.order| == |rel|
    requires forall t :: 0 <= t < |rel| ==> t in m.order
    requires forall k :: 0 <= k < |rel| ==> m.threads[m.order[k]].Freed?
    ensures var xs := InOrder(rel, m.order);
      PoolOf(m, p.hw, p.live - IdsOf(rel)) == ReleaseAll(p, xs) && WF(ReleaseAll(p, xs))
  {
    hide Conserves, Owed, ReleaseAll, InOrder;
    var xs := InOrder(rel, m.order);
    InOrderOwed(p, rel, m.order);
    InOrderIds(rel, m.order);
    ReleaseAllFacts(p, xs);
    var q := ReleaseAll(p, xs);
    forall j | 0 <= j < p.max
      ensures m.ids[j] == q.ids[j]
    {
      ReleaseSlot(p, rel, m, j);
    }
    assert m.ids == q.ids;
  }

  // ---- Progress ----

  // Steps a thread still has to take if no compare-and-exchange fails.
  function Left(thread: Thread): nat {
    match thread
    case GetStart => 4
    case Fetched(_) => 3
    case Filling(_) => 2
    case Ready(_) => 1
    case ReleaseStart(_) => 3
    case Loaded(_, _) => 2
    case Claimed(_, _) => 1
    case _ => 0
  }

  function AllLeft(threads: seq<Thread>): nat {
    if threads == [] then 0 else Left(threads[0]) + AllLeft(threads[1..])
  }

  // Threads whose loaded value is out of date: their compare-and-exchange will fail, once.
  function Stale(threads: seq<Thread>, next: int): (r: nat)
    ensures r <= |threads|
  {
    if threads == [] then 0
    else (if threads[0].Loaded? && threads[0].curr != next then 1 else 0) + Stale(threads[1..], next)
  }

  function Rank(m: Machine): nat {
    AllLeft(m.threads) * (|m.threads| + 1) + Stale(m.threads, m.next)
  }

  lemma {:induction false} UpdateThread(threads: seq<Thread>, t: nat, thread: Thread, next: int)
    requires t < |threads|
    ensures AllLeft(threads[t := thread]) == AllLeft(threads) - Left(threads[t]) + Left(thread)
    ensures Stale(threads[t := thread], next) == Stale(threads, next)
      - (if threads[t].Loaded? && threads[t].curr != next then 1 else 0)
      + (if thread.Loaded? && thread.curr != next then 1 else 0)
  {
    if t > 0 {
      UpdateThread(threads[1..], t - 1, thread, next);
      assert threads[t := thread][1..] == threads[1..][t - 1 := thread];
    } else {
      assert threads[t := thread][1..] == threads[1..];
    }
  }

  // Every step of a thread that is not finished lowers the rank, whatever the other threads
  // are: a failed compare-and-exchange is paid for by the success that caused it.
  lemma Progress(m: Machine, t: nat)
    requires t < |m.threads| && !m.threads[t].Got? && !m.threads[t].Freed?
    requires !m.fault && !Step(m, t).fault
    ensures Rank(Step(m, t)) < Rank(m)
  {
    var n := Step(m, t);
    assert n.threads == m.threads[t := n.threads[t]];
    UpdateThread(m.threads, t, n.threads[t], m.next);
    if n.next != m.next || !m.threads[t].Loaded? {
      assert AllLeft(n.threads) <= AllLeft(m.threads) - 1;
      RankDrops(AllLeft(n.threads), AllLeft(m.threads), |m.threads|, Stale(n.threads, n.next), Stale(m.threads, m.next));
    }
  }

  lemma RankDrops(a: nat, b: nat, n: nat, s: nat, r: nat)
    requires a < b && s <= n
    ensures a * (n + 1) + s < b * (n + 1) + r
  {
    assert (a + 1) * (n + 1) <= b * (n + 1);
  }

  // Each step is taken by an unfinished thread and stays in range.
  predicate Busy(m: Machine, schedule: seq<nat>)
    requires Within(schedule, |m.threads|)
    decreases |schedule|
  {
    schedule != [] ==>
      && !m.fault && !m.threads[schedule[0]].Got? && !m.threads[schedule[0]].Freed?
      && !Step(m, schedule[0]).fault
      && Busy(Step(m, schedule[0]), schedule[1..])
  }

  // So no scheduling makes the retries go on for ever.
  lemma {:induction false} BusyIsBounded(m: Machine, schedule: seq<nat>)
    requires Within(schedule, |m.threads|) && Busy(m, schedule)
    ensures |schedule| <= Rank(m)
    decreases |schedule|
  {
    if schedule != [] {
      Progress(m, schedule[0]);
      BusyIsBounded(Step(m, schedule[0]), schedule[1..]);
    }
  }

  // ---- Both at once ----

  // Threads about to get, and threads about to release distinct live ids.
  ghost predicate Clients(p: Pool, threads: seq<Thread>) {
    && (forall t :: 0 <= t < |threads| ==>
          threads[t].GetStart? || (threads[t].ReleaseStart? && threads[t].id in p.live))
    && (forall t, u :: 0 <= t < u < |threads| && threads[t].ReleaseStart? && threads[u].ReleaseStart? ==>
          threads[t].id != threads[u].id)
  }

  predicate NoGetter(threads: seq<Thread>) {
    forall t :: 0 <= t < |threads| ==> !threads[t].GetStart?
  }

  predicate NoReleaser(threads: seq<Thread>) {
    forall t :: 0 <= t < |threads| ==> !threads[t].ReleaseStart?
  }

  // Thread t has been given an id.
  predicate Holding(m: Machine, t: nat) {
    t < |m.threads| && m.threads[t].Got? && m.threads[t].id != 0
  }

  // The id a get that starts now, undisturbed, would return.
  function NextId(m: Machine): int {
    if !(0 <= m.next < m.max && m.next < |m.ids|) then 0
    else if m.ids[m.next] == 0 then m.next + 1
    else m.ids[m.next]
  }

  // Thread t was given an id that was live when the threads started and that none of them releases.
  ghost predicate Stolen(p: Pool, threads: seq<Thread>, m: Machine, t: nat) {
    && Holding(m, t) && m.threads[t].id in p.live
    && forall u :: 0 <= u < |threads| && threads[u].ReleaseStart? ==> threads[u].id != m.threads[t].id
  }

  // Something the pool must never come to: an access outside the array; an id about to be
  // issued to a second holder; two holders of one id; a holder of an id somebody else has.
  ghost predicate Harmed(p: Pool, threads: seq<Thread>, m: Machine) {
    || m.fault
    || (exists t: nat :: Holding(m, t) && m.threads[t].id == NextId(m))
    || (exists t: nat, u: nat :: t != u && Holding(m, t) && Holding(m, u) && m.threads[t].id == m.threads[u].id)
    || (exists t: nat :: Stolen(p, threads, m, t))
  }

  // No scheduling, finished or not, does harm.
  ghost predicate Safe(p: Pool, threads: seq<Thread>) {
    forall schedule: seq<nat> :: Within(schedule, |threads|) ==> !Harmed(p, threads, Run(Start(p, threads), schedule))
  }

  // Threads are safe together if and only if they all get or all release.
  lemma SafeIff(p: Pool, threads: seq<Thread>)
    requires WF(p) && Clients(p, threads)
    ensures Safe(p, threads) <==> NoGetter(threads) || NoReleaser(threads)
  {
    hide Harmed, Run, WF;
    if NoReleaser(threads) {
      forall schedule: seq<nat> | Within(schedule, |threads|)
        ensures !Harmed(p, threads, Run(Start(p, threads), schedule))
      {
        GettersSafe(p, threads, schedule);
      }
    } else if NoGetter(threads) {
      forall schedule: seq<nat> | Within(schedule, |threads|)
        ensures !Harmed(p, threads, Run(Start(p, threads), schedule))
      {
        ReleasersSafe(p, threads, schedule);
      }
    } else {
      var g :| 0 <= g < |threads| && threads[g].GetStart?;
      var r :| 0 <= r < |threads| && threads[r].ReleaseStart?;
      var schedule := OverlapHarms(p, threads, g, r);
    }
  }

  lemma GettersSafe(p: Pool, threads: seq<Thread>, schedule: seq<nat>)
    requires WF(p) && Clients(p, threads) && NoReleaser(threads) && Within(schedule, |threads|)
    ensures !Harmed(p, threads, Run(Start(p, threads), schedule))
  {
    hide Conserves;
    var m := Run(Start(p, threads), schedule);
    assert GetInv(p, Start(p, threads));
    GetRun(p, Start(p, threads), schedule);
    GetNFacts(p, |m.order|);
    assert NextId(m) == NthId(p, |m.order|);
    forall t: nat | Holding(m, t)
      ensures m.threads[t].id !in p.live && m.threads[t].id != NextId(m)
    {
      var k := HolderTurn(p, m, t);
      NthIdsDiffer(p, k, |m.order|);
      NthIdStays(p, k, k + 1);
    }
    forall t: nat, u: nat | t != u && Holding(m, t) && Holding(m, u)
      ensures m.threads[t].id != m.threads[u].id
    {
      var j := HolderTurn(p, m, t);
      var k := HolderTurn(p, m, u);
      NthIdsDiffer(p, Min(j, k), if j < k then k else j);
    }
  }

  // A holder drew its index in some turn and has the id a sequential get of that turn returns.
  lemma HolderTurn(p: Pool, m: Machine, t: nat) returns (k: nat)
    requires WF(p) && GetInv(p, m) && Holding(m, t)
    ensures k < |m.order| && m.order[k] == t && m.threads[t].id == NthId(p, k)
  {
    assert t in m.order;
    k :| 0 <= k < |m.order| && m.order[k] == t;
    assert GetThread(p, m.ids, m.threads[m.order[k]], p.next + k);
    GetNFacts(p, k);
  }

  lemma ReleasersSafe(p: Pool, threads: seq<Thread>, schedule: seq<nat>)
    requires WF(p) && Clients(p, threads) && NoGetter(threads) && Within(schedule, |threads|)
    ensures !Harmed(p, threads, Run(Start(p, threads), schedule))
  {
    hide Conserves;
    var rel := seq(|threads|, t requires 0 <= t < |threads| => threads[t].id);
    forall i, j | 0 <= i < j < |rel|
      ensures Differ(rel, i, j)
    {
      assert threads[i].id != threads[j].id;
    }
    OwedFits(p, rel);
    assert ReleaseInv(p, rel, Start(p, threads));
    ReleaseRun(p, rel, Start(p, threads), schedule);
    var m := Run(Start(p, threads), schedule);
    forall t: nat | t < |m.threads|
      ensures !m.threads[t].Got?
    {
      if t in m.order {
        var k :| 0 <= k < |m.order| && m.order[k] == t;
        assert ReleaseThread(m.ids, m.threads[m.order[k]], rel[m.order[k]], p.next - 1 - k);
      } else {
        assert Unclaimed(m.threads[t], rel[t]);
      }
    }
  }

  // One getter and one releaser suffice. The getter draws an index and the releaser moves `next`
  // back to it. On an exhausted pool it then writes outside the array; otherwise the getter
  // reads the released id, which is also the next to be issued.
  lemma OverlapHarms(p: Pool, threads: seq<Thread>, g: nat, r: nat) returns (schedule: seq<nat>)
    requires WF(p) && Clients(p, threads) && g < |threads| && r < |threads|
    requires threads[g].GetStart? && threads[r].ReleaseStart?
    ensures Within(schedule, |threads|) && Harmed(p, threads, Run(Start(p, threads), schedule))
  {
    hide Run, Conserves;
    var id, n := threads[r].id, p.next;
    LiveNotIgnored(p, id);
    schedule := [g, r, r, r] + (if n == p.max then [] else [g, g]);
    var m := Start(p, threads);
    var m1 := Step(m, g);
    var m2 := Step(m1, r);
    var m3 := Step(m2, r);
    var m4 := Step(m3, r);
    var rest := if n == p.max then [] else [g, g];
    RunFour(m, g, r, r, r, rest);
    if n == p.max {
      assert m4.fault;
      RunNothing(m4);
      assert Run(m, schedule) == m4;
    } else {
      var m5 := Step(m4, g);
      var m6 := Step(m5, g);
      assert m6.threads[g] == Got(n, id) && m6.next == n && m6.ids[n] == id;
      assert Holding(m6, g) && m6.threads[g].id == NextId(m6);
      RunNothing(m6);
      RunFirst(m5, g, []);
      RunFirst(m4, g, [g]);
      assert [g] + [] == [g] && [g] + [g] == [g, g];
      assert Run(m, schedule) == m6;
    }
  }

  lemma RunFour(m: Machine, a: nat, b: nat, c: nat, d: nat, rest: seq<nat>)
    requires a < |m.threads| && b < |m.threads| && c < |m.threads| && d < |m.threads| && Within(rest, |m.threads|)
    ensures Within([a, b, c, d] + rest, |m.threads|)
    ensures Run(m, [a, b, c, d] + rest) == Run(Step(Step(Step(Step(m, a), b), c), d), rest)
  {
    hide Run, Step, Within;
    RunFirst(Step(Step(Step(m, a), b), c), d, rest);
    RunFirst(Step(Step(m, a), b), c, [d] + rest);
    RunFirst(Step(m, a), b, [c] + ([d] + rest));
    RunFirst(m, a, [b] + ([c] + ([d] + rest)));
    assert [a] + ([b] + ([c] + ([d] + rest))) == [a, b, c, d] + rest;
  }

  lemma RunNothing(m: Machine)
    ensures Within([], |m.threads|) && Run(m, []) == m
  {
  }

  lemma RunFirst(m: Machine, t: nat, rest: seq<nat>)
    requires t < |m.threads| && Within(rest, |m.threads|)
    ensures Within([t] + rest, |m.threads|)
    ensures Run(m, [t] + rest) == Run(Step(m, t), rest)
  {
    assert ([t] + rest)[1..] == rest;
  }

  // The smallest instance: 1 and 2 are live and 1 is being released; in one schedule the get
  // even returns 2, which nobody releases.
  lemma MixedExample()
    ensures var p, threads := Pool(2, 2, [1, 2], 2, {1, 2}), [ReleaseStart(1), GetStart];
      WF(p) && Clients(p, threads) && !Safe(p, threads)
      && var m := Run(Start(p, threads), [0, 0, 1, 1, 1, 0]);
         Finished(m) && m.threads[1] == Got(1, 2) && m.ids == [1, 1] && Stolen(p, threads, m, 1)
  {
    hide Run, Step, Safe, Harmed;
    var p, threads := Pool(2, 2, [1, 2], 2, {1, 2}), [ReleaseStart(1), GetStart];
    SafeIff(p, threads);
    assert threads[0].ReleaseStart? && threads[1].GetStart?;
    MixedSteps();
    RunFour(Start(p, threads), 0, 0, 1, 1, [1, 0]);
    var m4 := Machine(2, 2, [1, 2], [Claimed(1, 1), Ready(1)], [0, 1], false);
    RunFirst(m4, 1, [0]);
    RunFirst(Step(m4, 1), 0, []);
    RunNothing(Step(Step(m4, 1), 0));
    assert [0, 0, 1, 1] + [1, 0] == [0, 0, 1, 1, 1, 0] && [1] + [0] == [1, 0] && [0] + [] == [0];
  }

  lemma MixedSteps()
    ensures var m := Machine(2, 2, [1, 2], [ReleaseStart(1), GetStart], [], false);
      var m4 := Machine(2, 2, [1, 2], [Claimed(1, 1), Ready(1)], [0, 1], false);
      Step(Step(Step(Step(m, 0), 0), 1), 1) == m4
      && Step(Step(m4, 1), 0) == Machine(2, 2, [1, 1], [Freed(1, 1), Got(1, 2)], [0, 1], false)
  {
  }
}
