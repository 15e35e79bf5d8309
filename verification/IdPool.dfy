// The id pool: an array used as a stack of free ids, filled only as far as it has been
// reached. `Pool` is its value; `hw` (the highest value `next` has had) and `live` (the ids
// issued and not released) are bookkeeping of the model.
module IdPools {
  import opened Codes

  datatype Pool = Pool(max: nat, next: int, ids: seq<int>, hw: nat, live: set<int>)

  function Fresh(max: nat): (p: Pool)
    ensures Sound(p)
  {
    Pool(max, 0, seq(max, i => 0), 0, {})
  }

  function Min(a: int, b: int): int {
    if a < b then a else b
  }

  // Issue an id. The index is bumped before it is checked, also when the pool is exhausted.
  function Get(p: Pool): (Pool, int)
    requires 0 <= p.next && |p.ids| == p.max
  {
    if p.next >= p.max then (p.(next := p.next + 1), 0)
    else
      var ids := if p.ids[p.next] == 0 then p.ids[p.next := p.next + 1] else p.ids;
      var id := ids[p.next];
      (Pool(p.max, p.next + 1, ids, if p.hw < p.next + 1 then p.next + 1 else p.hw, p.live + {id}), id)
  }

  predicate Ignored(p: Pool, id: int) {
    id == 0 || id > p.max
  }

  // The slot a release writes is a slot of the array.
  predicate InBounds(p: Pool) {
    0 < p.next <= p.max
  }

  function Release(p: Pool, id: int): Pool
    requires |p.ids| == p.max
    requires !Ignored(p, id) ==> InBounds(p)
  {
    if Ignored(p, id) then p
    else Pool(p.max, p.next - 1, p.ids[p.next - 1 := id], p.hw, p.live - {id})
  }

  // How many ids are out: `next`, unless failed gets have pushed it past the end.
  function Issued(p: Pool): int {
    Min(p.next, p.max)
  }

  ghost predicate Shaped(p: Pool) {
    |p.ids| == p.max && 0 <= p.next
  }

  ghost predicate Sound(p: Pool) {
    Shaped(p) && Conserves(p)
  }

  // The live ids and the ids in slots [next, hw) are exactly 1..hw, with no repeats, and
  // slots from hw on have never been written.
  ghost predicate Conserves(p: Pool)
    requires Shaped(p)
  {
    && 0 <= Issued(p) <= p.hw <= p.max
    && |p.live| == Issued(p)
    && (forall j :: 0 <= j < p.hw ==> 1 <= p.ids[j] <= p.hw)
    && (forall j :: p.hw <= j < p.max ==> p.ids[j] == 0)
    && (forall i, j :: Issued(p) <= i < j < p.hw ==> p.ids[i] != p.ids[j])
    && (forall j :: Issued(p) <= j < p.hw ==> p.ids[j] !in p.live)
    && (forall id :: id in p.live ==> 1 <= id <= p.hw)
    && (forall id :: 1 <= id <= p.hw && id !in p.live ==> Holds(p.ids, Issued(p), p.hw, id))
  }

  ghost predicate Holds(ids: seq<int>, from: int, to: int, id: int)
    requires 0 <= from && to <= |ids|
  {
    exists j :: from <= j < to && ids[j] == id
  }

  // Sound, and no get has failed since: every slot index the pool will use is in range.
  ghost predicate WF(p: Pool) {
    Sound(p) && p.next <= p.max
  }

  // The stack of free ids the array stands for: a slot never reached stands for its index plus one.
  function FreeFrom(ids: seq<int>, from: nat): seq<int>
    decreases |ids| - from
  {
    if from >= |ids| then []
    else [if ids[from] == 0 then from + 1 else ids[from]] + FreeFrom(ids, from + 1)
  }

  function Free(p: Pool): seq<int>
    requires 0 <= p.next
  {
    FreeFrom(p.ids, p.next)
  }

  lemma {:induction false} FreeFromAgrees(a: seq<int>, b: seq<int>, from: nat)
    requires |a| == |b| && forall j :: from <= j < |a| ==> a[j] == b[j]
    ensures FreeFrom(a, from) == FreeFrom(b, from)
    decreases |a| - from
  {
    if from < |a| {
      FreeFromAgrees(a, b, from + 1);
    }
  }

  lemma {:induction false} FreeFromZeros(n: nat, from: nat)
    requires from <= n
    ensures var f := FreeFrom(seq(n, i => 0), from);
      |f| == n - from && forall i :: 0 <= i < n - from ==> f[i] == from + i + 1
    decreases n - from
  {
    if from < n {
      FreeFromZeros(n, from + 1);
    }
  }

  // A fresh pool stands for the stack 1, 2, ..., max.
  lemma FreshStack(max: nat)
    ensures |Free(Fresh(max))| == max && forall i :: 0 <= i < max ==> Free(Fresh(max))[i] == i + 1
  {
    FreeFromZeros(max, 0);
  }

  // A get hands out an id that is not live and keeps conservation; it fails exactly on an
  // exhausted pool, and then nothing but `next` moves.
  lemma GetSound(p: Pool)
    requires Sound(p)
    ensures Sound(Get(p).0)
    ensures p.next < p.max ==>
      var (q, id) := Get(p); 1 <= id <= q.hw && id !in p.live && q.live == p.live + {id}
    ensures p.next >= p.max ==> Get(p) == (p.(next := p.next + 1), 0)
  {
    if p.next < p.max {
      var (q, id) := Get(p);
      assert id !in p.live;
      forall x | 1 <= x <= q.hw && x !in q.live
        ensures Holds(q.ids, q.next, q.hw, x)
      {
        assert Holds(p.ids, p.next, p.hw, x);
        var j :| p.next <= j < p.hw && p.ids[j] == x;
        assert q.ids[j] == x;
      }
    }
  }

  // Seen as a stack of free ids, a get pops the top.
  lemma GetPops(p: Pool)
    requires Sound(p) && p.next < p.max
    ensures Free(p) == [Get(p).1] + Free(Get(p).0)
  {
    var q := Get(p).0;
    FreeFromAgrees(p.ids, q.ids, p.next + 1);
  }

  // After a get the pool is well formed, and the next release stays inside the array, if and
  // only if there was capacity: a failed get is never undone.
  lemma GetKeepsWFIff(p: Pool)
    requires WF(p)
    ensures WF(Get(p).0) <==> p.next < p.max
    ensures InBounds(Get(p).0) <==> p.next < p.max
    ensures Get(p).1 == 0 <==> p.next >= p.max
  {
    GetSound(p);
  }

  // The smallest pool on which it shows: one id, live, and no slot its release may write.
  lemma OverdrawnExample()
    ensures var p := Get(Get(Fresh(1)).0).0;
      p.live == {1} && !Ignored(p, 1) && Sound(p) && !InBounds(p)
  {
    var f := Fresh(1);
    GetSound(f);
    GetSound(Get(f).0);
    assert f.ids == [0];
    assert Get(f).0.live == {1};
  }

  // Releasing keeps conservation if and only if the id is live or ignored.
  lemma ReleaseSoundIff(p: Pool, id: int)
    requires WF(p) && 0 < p.next
    ensures Sound(Release(p, id)) <==> Ignored(p, id) || id in p.live
    ensures id in p.live ==> WF(Release(p, id))
  {
    if id in p.live {
      var q := Release(p, id);
      forall x | 1 <= x <= q.hw && x !in q.live
        ensures Holds(q.ids, q.next, q.hw, x)
      {
        if x == id {
          assert q.ids[q.next] == x;
        } else {
          assert Holds(p.ids, p.next, p.hw, x);
          var j :| p.next <= j < p.hw && p.ids[j] == x;
          assert q.ids[j] == x;
        }
      }
    }
  }

  // Seen as a stack of free ids, a release pushes.
  lemma ReleasePushes(p: Pool, id: int)
    requires WF(p) && id in p.live
    ensures 0 < p.next && Free(Release(p, id)) == [id] + Free(p)
  {
    assert p.next != 0;
    var q := Release(p, id);
    assert 1 <= id;
    FreeFromAgrees(p.ids, q.ids, p.next);
  }

  // Releasing the id just issued, and issuing again after a release, both give back the
  // stack and the live ids they started from; the second issues the released id.
  lemma GetReleaseRoundTrip(p: Pool)
    requires WF(p) && p.next < p.max
    ensures var (q, id) := Get(p);
      InBounds(q) && Free(Release(q, id)) == Free(p) && Release(q, id).live == p.live
  {
    var (q, id) := Get(p);
    GetSound(p);
    GetPops(p);
    ReleasePushes(q, id);
  }

  lemma ReleaseGetRoundTrip(p: Pool, id: int)
    requires WF(p) && id in p.live
    ensures InBounds(p)
    ensures var (q, again) := Get(Release(p, id));
      again == id && Free(q) == Free(p) && q.live == p.live
  {
    ReleasePushes(p, id);
    ReleaseSoundIff(p, id);
    GetPops(Release(p, id));
    assert Free(Release(p, id))[1..] == Free(p);
  }

  // Whole runs.

  datatype Request = GetId | ReleaseId(id: int)

  function Step(p: Pool, r: Request): Pool
    requires 0 <= p.next && |p.ids| == p.max
    requires r.ReleaseId? && !Ignored(p, r.id) ==> InBounds(p)
  {
    match r
    case GetId => Get(p).0
    case ReleaseId(id) => Release(p, id)
  }

  // Clients release live ids only, and not once a get has failed on a full pool.
  ghost predicate Legal(p: Pool, r: Request) {
    r.ReleaseId? && !Ignored(p, r.id) ==> r.id in p.live && InBounds(p)
  }

  ghost predicate LegalRun(p: Pool, rs: seq<Request>)
    requires Sound(p)
    decreases |rs|
  {
    rs != [] ==> Legal(p, rs[0]) && (StepSound(p, rs[0]); LegalRun(Step(p, rs[0]), rs[1..]))
  }

  lemma StepSound(p: Pool, r: Request)
    requires Sound(p) && Legal(p, r)
    ensures Sound(Step(p, r))
  {
    match r
    case GetId => GetSound(p);
    case ReleaseId(id) =>
      if !Ignored(p, id) {
        ReleaseSoundIff(p, id);
      }
  }

  ghost function Run(p: Pool, rs: seq<Request>): (q: Pool)
    requires Sound(p) && LegalRun(p, rs)
    ensures Sound(q) && q.max == p.max
    decreases |rs|
  {
    if rs == [] then p else StepSound(p, rs[0]); Run(Step(p, rs[0]), rs[1..])
  }

  // The most ids that were live at the same time.
  ghost function Peak(p: Pool, rs: seq<Request>): nat
    requires Sound(p) && LegalRun(p, rs)
    decreases |rs|
  {
    if rs == [] then |p.live|
    else
      StepSound(p, rs[0]);
      var later := Peak(Step(p, rs[0]), rs[1..]);
      if later < |p.live| then |p.live| else later
  }

  lemma {:induction false} HighWaterIsPeak(p: Pool, rs: seq<Request>)
    requires Sound(p) && LegalRun(p, rs)
    ensures Run(p, rs).hw == if p.hw < Peak(p, rs) then Peak(p, rs) else p.hw
    decreases |rs|
  {
    if rs != [] {
      StepSound(p, rs[0]);
      HighWaterIsPeak(Step(p, rs[0]), rs[1..]);
    }
  }

  // From a fresh pool: conservation holds at the end of every legal run, and no id ever
  // issued exceeds the largest number of ids that were live together.
  lemma EveryRun(max: nat, rs: seq<Request>)
    requires LegalRun(Fresh(max), rs)
    ensures var p := Run(Fresh(max), rs);
      && Sound(p)
      && (forall id {:trigger id in p.live} ::
           1 <= id <= p.hw <==> (id in p.live || Holds(p.ids, Issued(p), p.hw, id)))
      && (forall id {:trigger id in p.live} :: !(id in p.live && Holds(p.ids, Issued(p), p.hw, id)))
      && |p.live| == Issued(p)
      && p.hw == Peak(Fresh(max), rs)
      && (forall id :: id in p.live ==> id <= Peak(Fresh(max), rs))
  {
    HighWaterIsPeak(Fresh(max), rs);
    var p := Run(Fresh(max), rs);
    forall id
      ensures 1 <= id <= p.hw <==> (id in p.live || Holds(p.ids, Issued(p), p.hw, id))
      ensures !(id in p.live && Holds(p.ids, Issued(p), p.hw, id))
    {
      if Holds(p.ids, Issued(p), p.hw, id) {
        var j :| Issued(p) <= j < p.hw && p.ids[j] == id;
      }
    }
  }

  // `next` counts calls: gets, failed ones included, minus the releases that were not ignored.
  ghost function Balance(rs: seq<Request>, max: nat): int {
    if rs == [] then 0
    else (match rs[0]
          case GetId => 1
          case ReleaseId(id) => if id == 0 || id > max then 0 else -1) + Balance(rs[1..], max)
  }

  lemma {:induction false} NextCountsCalls(p: Pool, rs: seq<Request>)
    requires Sound(p) && LegalRun(p, rs)
    ensures Run(p, rs).next == p.next + Balance(rs, p.max)
    decreases |rs|
  {
    if rs != [] {
      StepSound(p, rs[0]);
      NextCountsCalls(Step(p, rs[0]), rs[1..]);
    }
  }

  class IdPool {
    var ids: array<int>
    var max: nat
    var next: int
    ghost var hw: nat
    ghost var live: set<int>

    constructor ()
    {
      ids, max, next := new int[0], 0, 0;
      hw, live := 0, {};
    }

    ghost predicate Shape()
      reads this
    {
      ids.Length == max && 0 <= next
    }

    ghost function View(): Pool
      reads this, ids
    {
      Pool(max, next, ids[..], hw, live)
    }
  }

  // The size is an int in the C code; a negative one cannot be allocated.
  method IdPoolNew(pool: IdPool, nrIds: int, memOk: bool) returns (ret: int)
    requires nrIds < 0 ==> !memOk
    modifies pool
    ensures ret == if nrIds == 0 then EINVAL else if !memOk then ENOMEM else OK
    ensures ret == OK ==> pool.View() == Fresh(nrIds) && pool.Shape() && fresh(pool.ids)
    ensures ret != OK ==> unchanged(pool)
  {
    if nrIds == 0 {
      return EINVAL;
    }
    if !memOk {
      return ENOMEM;
    }
    pool.ids := new int[nrIds](i => 0);
    pool.max := nrIds;
    pool.next := 0;
    pool.hw, pool.live := 0, {};
    assert pool.ids[..] == Fresh(nrIds).ids;
    return OK;
  }

  // The array is freed: nothing is left that an index could reach.
  method IdPoolDestroy(pool: IdPool?) returns (ret: int)
    modifies if pool == null then {} else {pool}`ids
    ensures ret == if pool == null then EINVAL else OK
    ensures pool != null ==> fresh(pool.ids) && pool.ids.Length == 0
  {
    if pool == null {
      return EINVAL;
    }
    pool.ids := new int[0];
    return OK;
  }

  method IdPoolGet(pool: IdPool?) returns (id: int)
    requires pool != null ==> pool.Shape()
    modifies pool, if pool == null then null else pool.ids
    ensures pool == null ==> id == 0
    ensures pool != null ==> (pool.View(), id) == Get(old(pool.View()))
    ensures pool != null ==> pool.next == old(pool.next) + 1 && pool.max == old(pool.max)
    ensures pool != null && old(pool.next) >= pool.max ==> id == 0 && pool.ids[..] == old(pool.ids[..])
    ensures pool != null && old(pool.next) < pool.max ==>
      && id == (if old(pool.ids[pool.next]) == 0 then old(pool.next) + 1 else old(pool.ids[pool.next]))
      && forall j :: 0 <= j < pool.max ==> pool.ids[j] == if j == old(pool.next) then id else old(pool.ids[j])
    ensures pool != null ==> pool.Shape() && pool.ids == old(pool.ids)
  {
    if pool == null {
      return 0;
    }
    ghost var was := pool.View();
    var ptr := pool.next;
    pool.next := pool.next + 1;
    if ptr >= pool.max {
      return 0;
    }
    if pool.ids[ptr] == 0 {
      pool.ids[ptr] := ptr + 1;
    }
    pool.hw := if pool.hw < ptr + 1 then ptr + 1 else pool.hw;
    pool.live := pool.live + {pool.ids[ptr]};
    assert pool.ids[..] == Get(was).0.ids;
    return pool.ids[ptr];
  }

  // Sequentially the compare-and-exchange succeeds the first time; the retries are in
  // module IdPoolThreads.
  method IdPoolRelease(pool: IdPool?, id: int)
    requires pool != null ==> pool.Shape()
    requires pool != null && !Ignored(pool.View(), id) ==> InBounds(pool.View())
    modifies pool, if pool == null then null else pool.ids
    ensures pool != null ==> pool.View() == Release(old(pool.View()), id)
    ensures pool != null ==> pool.Shape() && pool.ids == old(pool.ids)
    ensures pool != null && (id == 0 || id > pool.max) ==> unchanged(pool) && unchanged(pool.ids)
    ensures pool != null && id != 0 && id <= pool.max ==>
      && pool.next == old(pool.next) - 1 && pool.max == old(pool.max)
      && forall j :: 0 <= j < pool.max ==> pool.ids[j] == if j == pool.next then id else old(pool.ids[j])
  {
    if pool == null {
      return;
    }
    if id == 0 || id > pool.max {
      return;
    }
    var curr := pool.next;
    var ptr := curr - 1;
    pool.next := ptr;
    pool.ids[ptr] := id;
    pool.live := pool.live - {id};
  }
}
