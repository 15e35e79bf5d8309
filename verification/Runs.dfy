// Whole runs of the client calls that create, destroy, register and unregister resources and
// start and end sessions, as transitions of one abstract state.
module Runs {
  import opened Seqs
  import opened IdPools
  import opened Resources
  import opened Sessions
  import opened SessionTables

  datatype Info = Info(id: int, typ: nat, refs: nat)

  datatype Slot = Idle | Running(sess: Session, held: seq<seq<Resource>>)

  datatype State = State(live: seq<Resource>, info: map<Resource, Info>, pool: Pool, table: seq<Slot>, spool: Pool)

  // A running session is named by its slot. `ok` and `memOk` are the outcomes of the
  // allocations and file system calls the code branches on.
  datatype Command =
    | New(res: Resource, typ: nat)
    | Destroy(res: Resource)
    | Init(sess: Session, ok: bool)
    | Free(slot: nat)
    | Register(slot: nat, res: Resource, memOk: bool)
    | Unregister(slot: nat, res: Resource)

  function NoneHeld(): seq<seq<Resource>> {
    seq(RES_MAX, t => [])
  }

  // Containers for r in one slot, and in the first n slots.
  function SlotCount(s: Slot, r: Resource): nat {
    if s.Running? then Count(s.held, |s.held|, r) else 0
  }

  function Total(table: seq<Slot>, n: nat, r: Resource): nat
    requires n <= |table|
  {
    if n == 0 then 0 else Total(table, n - 1, r) + SlotCount(table[n - 1], r)
  }

  ghost function Ids(live: seq<Resource>, info: map<Resource, Info>): (ids: seq<int>)
    requires forall r :: r in live ==> r in info
    ensures |ids| == |live| && forall i :: 0 <= i < |live| ==> ids[i] == info[live[i]].id
  {
    seq(|live|, i requires 0 <= i < |live| => assert live[i] in live; info[live[i]].id)
  }

  // The registry: one entry per live resource, ids as the pool has them.
  ghost predicate RegistryInv(st: State) {
    && Distinct(st.live)
    && (forall r :: r in st.live ==> r in st.info)
    && (forall r :: r in st.info ==> r in st.live)
    && st.pool.max == MAX_RESOURCES
    && IdsAgree(Ids(st.live, st.info), st.pool)
    && (forall r :: r in st.info ==> st.info[r].typ < RES_MAX)
  }

  // The session table is a partial map: slot i is taken exactly when id i + 1 is out, and no
  // session is in two slots.
  ghost predicate TableInv(st: State) {
    && |st.table| == st.spool.max == MAX_SESSIONS
    && Sound(st.spool)
    && (forall i :: 0 <= i < MAX_SESSIONS ==> (st.table[i].Running? <==> i + 1 in st.spool.live))
    && (forall i, j :: 0 <= i < j < MAX_SESSIONS && st.table[i].Running? && st.table[j].Running? ==>
          st.table[i].sess != st.table[j].sess)
  }

  // No container of a running session dangles: what it holds is live and has the list's type.
  ghost predicate NoDangling(st: State) {
    forall i :: 0 <= i < |st.table| && st.table[i].Running? ==> Sturdy(st.table[i].held, st.info)
  }

  ghost predicate Sturdy(held: seq<seq<Resource>>, info: map<Resource, Info>) {
    |held| == RES_MAX
    && forall t, r :: 0 <= t < RES_MAX && r in held[t] ==> r in info && info[r].typ == t
  }

  // Each reference count is the number of containers, over all sessions and lists.
  ghost predicate Conserved(st: State)
  {
    forall r :: r in st.info ==> st.info[r].refs == Total(st.table, |st.table|, r) < UINT_RANGE
  }

  ghost predicate Inv(st: State) {
    RegistryInv(st) && TableInv(st) && NoDangling(st) && Conserved(st)
  }

  // What clients may ask for: see the README on each of these conditions.
  ghost predicate Legal(st: State, c: Command) {
    match c
    case New(res, _) => res !in st.info
    case Destroy(res) => res in st.info && (st.info[res].refs == 0 ==> st.pool.next <= st.pool.max)
    case Init(sess, _) => forall i :: 0 <= i < |st.table| && st.table[i].Running? ==> st.table[i].sess != sess
    case Free(slot) => slot < |st.table| && st.table[slot].Running? && st.spool.next <= st.spool.max
    case Register(slot, res, _) =>
      slot < |st.table| && st.table[slot].Running? && res in st.info && st.info[res].refs + 1 < UINT_RANGE
    case Unregister(slot, res) => slot < |st.table| && st.table[slot].Running? && res in st.info
  }

  ghost function Step(st: State, c: Command): State
    requires Inv(st) && Legal(st, c)
  {
    match c
    case New(res, typ) =>
      if typ >= RES_MAX then st
      else
        var (q, id) := Get(st.pool);
        if id == 0 then st.(pool := q)
        else st.(live := st.live + [res], info := st.info[res := Info(id, typ, 0)], pool := q)
    case Destroy(res) =>
      if st.info[res].refs != 0 then st
      else
        var k := IndexOf(st.live, res);
        DestroyFits(st, res);
        st.(live := Remove(st.live, k), info := st.info - {res}, pool := Release(st.pool, st.info[res].id))
    case Init(sess, ok) =>
      var (q, id) := Get(st.spool);
      InitFits(st);
      if id == 0 then st.(spool := q)
      else if !ok then st.(spool := Release(q, id))
      else st.(table := st.table[id - 1 := Running(sess, NoneHeld())], spool := q)
    case Free(slot) =>
      FreeFits(st, slot);
      st.(table := st.table[slot := Idle], spool := Release(st.spool, slot + 1),
          info := map r | r in st.info :: st.info[r].(refs := st.info[r].refs - SlotCount(st.table[slot], r)))
    case Register(slot, res, memOk) =>
      if !memOk then st
      else
        var t := st.info[res].typ;
        st.(table := st.table[slot := Hold(st.table[slot], t, st.table[slot].held[t] + [res])],
            info := st.info[res := st.info[res].(refs := (st.info[res].refs + 1) % UINT_RANGE)])
    case Unregister(slot, res) =>
      var t := st.info[res].typ;
      if res !in st.table[slot].held[t] then st
      else
        st.(table := st.table[slot := Hold(st.table[slot], t, RemoveFirst(st.table[slot].held[t], res))],
            info := st.info[res := st.info[res].(refs := (st.info[res].refs + UINT_RANGE - 1) % UINT_RANGE)])
  }

  // `n` is the state after the legal command c.
  ghost predicate Stepped(st: State, c: Command, n: State) {
    Inv(st) && Legal(st, c) && n == Step(st, c)
  }

  lemma SteppedIs(st: State, c: Command)
    requires Inv(st) && Legal(st, c)
    ensures Stepped(st, c, Step(st, c))
  {
  }

  ghost predicate HeldBy(st: State, slot: nat, res: Resource) {
    && slot < |st.table| && st.table[slot].Running? && res in st.info && st.info[res].typ < |st.table[slot].held|
    && res in st.table[slot].held[st.info[res].typ]
  }

  function Hold(s: Slot, t: nat, rs: seq<Resource>): Slot
    requires s.Running? && t < |s.held|
  {
    Running(s.sess, s.held[t := rs])
  }

  lemma RegisterStep(st: State, slot: nat, res: Resource)
    requires Inv(st) && Legal(st, Register(slot, res, true))
    ensures slot < |st.table| && st.table[slot].Running?
    ensures st.info[res].typ < |st.table[slot].held|
    ensures var t, held := st.info[res].typ, st.table[slot].held;
      Step(st, Register(slot, res, true)) == st.(
        table := st.table[slot := Running(st.table[slot].sess, held[t := held[t] + [res]])],
        info := st.info[res := Info(st.info[res].id, t, (st.info[res].refs + 1) % UINT_RANGE)])
    ensures Legal(Step(st, Register(slot, res, true)), Unregister(slot, res))
  {
  }

  lemma UnregisterStep(st: State, slot: nat, res: Resource)
    requires Inv(st) && Legal(st, Unregister(slot, res))
    ensures slot < |st.table| && st.table[slot].Running? && res in st.info
    ensures st.info[res].typ < |st.table[slot].held|
    ensures HeldBy(st, slot, res) <==> res in st.table[slot].held[st.info[res].typ]
    ensures var t, held := st.info[res].typ, st.table[slot].held;
      Step(st, Unregister(slot, res)) ==
        if !HeldBy(st, slot, res) then st
        else st.(
          table := st.table[slot := Running(st.table[slot].sess, held[t := RemoveFirst(held[t], res)])],
          info := st.info[res := Info(st.info[res].id, t, (st.info[res].refs + UINT_RANGE - 1) % UINT_RANGE)])
  {
    assert Sturdy(st.table[slot].held, st.info);
  }

  // ---- Counting ----

  lemma {:induction false} CountUpdate(h: seq<seq<Resource>>, t: nat, rs: seq<Resource>, n: nat, r: Resource)
    requires t < |h| && n <= |h|
    ensures Count(h[t := rs], n, r) == Count(h, n, r) + if t < n then Times(rs, r) - Times(h[t], r) else 0
  {
    if n > 0 {
      CountUpdate(h, t, rs, n - 1, r);
    }
  }

  lemma {:induction false} TotalUpdate(table: seq<Slot>, i: nat, s: Slot, n: nat, r: Resource)
    requires i < |table| && n <= |table|
    ensures Total(table[i := s], n, r) ==
      Total(table, n, r) + if i < n then SlotCount(s, r) - SlotCount(table[i], r) else 0
  {
    if n > 0 {
      TotalUpdate(table, i, s, n - 1, r);
    }
  }

  lemma {:induction false} TotalAtLeast(table: seq<Slot>, i: nat, n: nat, r: Resource)
    requires i < n <= |table|
    ensures SlotCount(table[i], r) <= Total(table, n, r)
  {
    if i < n - 1 {
      TotalAtLeast(table, i, n - 1, r);
    }
  }

  lemma {:induction false} CountZero(h: seq<seq<Resource>>, n: nat, r: Resource)
    requires n <= |h| && forall t :: 0 <= t < n ==> r !in h[t]
    ensures Count(h, n, r) == 0
  {
    if n > 0 {
      CountZero(h, n - 1, r);
      TimesIn(h[n - 1], r);
    }
  }

  lemma {:induction false} CountPositive(h: seq<seq<Resource>>, t: nat, n: nat, r: Resource)
    requires t < n <= |h| && r in h[t]
    ensures Count(h, n, r) > 0
  {
    CountNext(h, t, r);
    TimesIn(h[t], r);
    CountMonotone(h, t + 1, n, r);
  }

  // A resource without a container anywhere counts zero, and only such a one.
  lemma {:induction false} TotalZeroIff(table: seq<Slot>, n: nat, r: Resource)
    requires n <= |table|
    ensures Total(table, n, r) == 0 <==>
      forall i, t :: 0 <= i < n && table[i].Running? && 0 <= t < |table[i].held| ==> r !in table[i].held[t]
  {
    if n > 0 {
      TotalZeroIff(table, n - 1, r);
      var s := table[n - 1];
      if s.Running? {
        if t :| 0 <= t < |s.held| && r in s.held[t] {
          CountPositive(s.held, t, |s.held|, r);
        } else {
          CountZero(s.held, |s.held|, r);
        }
      }
    }
  }

  // ---- What each command needs to be carried out ----

  lemma DestroyFits(st: State, res: Resource)
    requires RegistryInv(st) && res in st.info && st.pool.next <= st.pool.max
    ensures var k := IndexOf(st.live, res);
      && Ids(st.live, st.info)[k] == st.info[res].id
      && InBounds(st.pool) && !Ignored(st.pool, st.info[res].id)
  {
    OldIdAgrees(Ids(st.live, st.info), IndexOf(st.live, res), st.pool);
  }

  lemma InitFits(st: State)
    requires TableInv(st)
    ensures var (q, id) := Get(st.spool);
      && q.max == st.spool.max
      && (id != 0 ==> 1 <= id <= MAX_SESSIONS && InBounds(q) && Shaped(q))
  {
    GetSound(st.spool);
  }

  lemma FreeFits(st: State, slot: nat)
    requires Inv(st) && slot < |st.table| && st.table[slot].Running? && st.spool.next <= st.spool.max
    ensures InBounds(st.spool)
    ensures forall r :: r in st.info ==> SlotCount(st.table[slot], r) <= st.info[r].refs
  {
    assert slot + 1 in st.spool.live;
    assert st.spool.next != 0;
    forall r | r in st.info
      ensures SlotCount(st.table[slot], r) <= st.info[r].refs
    {
      TotalAtLeast(st.table, slot, |st.table|, r);
    }
  }

  // As the program starts.
  ghost function Boot(): (st: State)
    ensures Inv(st)
  {
    var st := State([], map[], Fresh(MAX_RESOURCES), seq(MAX_SESSIONS, i => Idle), Fresh(MAX_SESSIONS));
    assert Ids(st.live, st.info) == [];
    st
  }

  // ---- Each command keeps the invariant ----

  lemma NewKeeps(st: State, res: Resource, typ: nat)
    requires Inv(st) && Legal(st, New(res, typ))
    ensures Inv(Step(st, New(res, typ)))
  {
    var n := Step(st, New(res, typ));
    var ids := Ids(st.live, st.info);
    NewIdAgrees(ids, st.pool);
    if typ < RES_MAX {
      var (q, id) := Get(st.pool);
      if id == 0 {
        assert Ids(n.live, n.info) == ids;
      } else {
        AppendDistinct(st.live, res);
        assert Ids(n.live, n.info) == ids + [id];
        forall i | 0 <= i < |st.table| && st.table[i].Running?
          ensures Sturdy(n.table[i].held, n.info)
        {
          assert Sturdy(st.table[i].held, st.info);
        }
        NotHeld(st, res);
      }
    }
  }

  // Nothing holds a resource that is not live.
  lemma NotHeld(st: State, r: Resource)
    requires NoDangling(st) && r !in st.info
    ensures Total(st.table, |st.table|, r) == 0
  {
    forall i, t | 0 <= i < |st.table| && st.table[i].Running? && 0 <= t < |st.table[i].held|
      ensures r !in st.table[i].held[t]
    {
      assert Sturdy(st.table[i].held, st.info);
    }
    TotalZeroIff(st.table, |st.table|, r);
  }

  lemma DestroyKeeps(st: State, res: Resource)
    requires Inv(st) && Legal(st, Destroy(res))
    ensures Inv(Step(st, Destroy(res)))
  {
    if st.info[res].refs == 0 {
      DestroyKeepsRegistry(st, res);
      DestroyKeepsHeld(st, res);
    }
  }

  lemma IdsRemove(live: seq<Resource>, info: map<Resource, Info>, k: nat)
    requires Distinct(live) && k < |live| && forall r :: r in live ==> r in info
    ensures forall r :: r in Remove(live, k) ==> r in info - {live[k]}
    ensures Ids(Remove(live, k), info - {live[k]}) == Remove(Ids(live, info), k)
  {
    hide Distinct;
    RemoveDistinct(live, k);
  }

  lemma DestroyKeepsRegistry(st: State, res: Resource)
    requires Inv(st) && Legal(st, Destroy(res)) && st.info[res].refs == 0
    ensures RegistryInv(Step(st, Destroy(res)))
  {
    hide TableInv, NoDangling, Conserved, Total, IdsAgree, Distinct, Remove, Release, Ids, InBounds, Ignored;
    var k := IndexOf(st.live, res);
    OldIdAgrees(Ids(st.live, st.info), k, st.pool);
    DestroyFits(st, res);
    RemoveDistinct(st.live, k);
    IdsRemove(st.live, st.info, k);
  }

  lemma DestroyKeepsHeld(st: State, res: Resource)
    requires Inv(st) && Legal(st, Destroy(res)) && st.info[res].refs == 0
    ensures var n := Step(st, Destroy(res)); TableInv(n) && NoDangling(n) && Conserved(n)
  {
    hide RegistryInv, IdsAgree, Release;
    var n := Step(st, Destroy(res));
    TotalZeroIff(st.table, |st.table|, res);
    forall i | 0 <= i < |st.table| && st.table[i].Running?
      ensures Sturdy(n.table[i].held, n.info)
    {
      assert Sturdy(st.table[i].held, st.info);
    }
  }

  lemma InitKeepsTable(st: State, sess: Session, ok: bool)
    requires Inv(st) && Legal(st, Init(sess, ok))
    ensures TableInv(Step(st, Init(sess, ok)))
  {
    GetSound(st.spool);
    var (q, id) := Get(st.spool);
    if id != 0 {
      InitFits(st);
      ReleaseSoundIff(q, id);
    }
  }

  lemma InitKeepsCounts(st: State, sess: Session, slot: nat)
    requires Inv(st) && slot < |st.table| && st.table[slot].Idle?
    ensures Conserved(st.(table := st.table[slot := Running(sess, NoneHeld())]))
    ensures NoDangling(st.(table := st.table[slot := Running(sess, NoneHeld())]))
  {
    forall r | r in st.info
      ensures Total(st.table[slot := Running(sess, NoneHeld())], |st.table|, r) == Total(st.table, |st.table|, r)
    {
      CountZero(NoneHeld(), RES_MAX, r);
      TotalUpdate(st.table, slot, Running(sess, NoneHeld()), |st.table|, r);
    }
  }

  lemma InitKeeps(st: State, sess: Session, ok: bool)
    requires Inv(st) && Legal(st, Init(sess, ok))
    ensures Inv(Step(st, Init(sess, ok)))
  {
    hide Conserves, Conserved, NoDangling;
    InitKeepsTable(st, sess, ok);
    InitFits(st);
    var (q, id) := Get(st.spool);
    if id != 0 && ok {
      SlotIdle(st);
      InitKeepsCounts(st, sess, id - 1);
    }
    SameRegistry(st, Step(st, Init(sess, ok)));
  }

  lemma SlotIdle(st: State)
    requires TableInv(st)
    ensures var (q, id) := Get(st.spool); id != 0 ==> 1 <= id <= |st.table| && st.table[id - 1].Idle?
  {
    GetSound(st.spool);
  }

  // The parts of the invariant that do not read the pools of the session ids.
  lemma SameRegistry(st: State, n: State)
    requires n.live == st.live && n.info == st.info && n.pool == st.pool
    ensures RegistryInv(st) <==> RegistryInv(n)
    ensures n.table == st.table ==> (NoDangling(st) <==> NoDangling(n)) && (Conserved(st) <==> Conserved(n))
    ensures forall spool: Pool :: (NoDangling(n.(spool := spool)) <==> NoDangling(n)) && (Conserved(n.(spool := spool)) <==> Conserved(n))
  {
  }

  lemma FreeKeepsCounts(st: State, slot: nat)
    requires Inv(st) && Legal(st, Free(slot))
    ensures NoDangling(Step(st, Free(slot))) && Conserved(Step(st, Free(slot)))
  {
    hide Conserves, RegistryInv, IdsAgree;
    FreeFits(st, slot);
    var n := Step(st, Free(slot));
    forall i | 0 <= i < |n.table| && n.table[i].Running?
      ensures Sturdy(n.table[i].held, n.info)
    {
      assert Sturdy(st.table[i].held, st.info);
    }
    forall r | r in n.info
      ensures n.info[r].refs == Total(n.table, |n.table|, r) < UINT_RANGE
    {
      TotalUpdate(st.table, slot, Idle, |st.table|, r);
    }
  }

  lemma FreeKeepsTable(st: State, slot: nat)
    requires Inv(st) && Legal(st, Free(slot))
    ensures TableInv(Step(st, Free(slot)))
  {
    hide Conserved, NoDangling, RegistryInv, Total, SlotCount, Conserves, Release;
    FreeFits(st, slot);
    ReleaseSlotId(st.spool, slot + 1);
  }

  lemma ReleaseSlotId(p: Pool, id: int)
    requires WF(p) && id in p.live && InBounds(p)
    ensures Sound(Release(p, id)) && Release(p, id).max == p.max && Release(p, id).live == p.live - {id}
  {
    ReleaseSoundIff(p, id);
  }

  lemma FreeKeeps(st: State, slot: nat)
    requires Inv(st) && Legal(st, Free(slot))
    ensures Inv(Step(st, Free(slot)))
  {
    FreeKeepsCounts(st, slot);
    FreeKeepsTable(st, slot);
    hide Conserved, NoDangling, TableInv, IdsAgree;
    var n := Step(st, Free(slot));
    assert Ids(n.live, n.info) == Ids(st.live, st.info);
  }

  lemma RegisterKeeps(st: State, slot: nat, res: Resource)
    requires Inv(st) && Legal(st, Register(slot, res, true))
    ensures Inv(Step(st, Register(slot, res, true)))
  {
    hide Step, Legal, RegistryInv, TableInv, NoDangling, Total, Count, Times, Distinct;
    RegisterLegal(st, slot, res, true);
    RegisterStep(st, slot, res);
    RegisterHeld(st, slot, res);
    var n := Step(st, Register(slot, res, true));
    var t, held := st.info[res].typ, st.table[slot].held;
    HoldKeeps(st, n, slot, t, held[t] + [res]);
    forall r | r in n.info
      ensures n.info[r].refs == Total(n.table, |n.table|, r) < UINT_RANGE
    {
      TimesAppend(held[t], res, r);
      HoldCounts(st.table, slot, t, held[t] + [res], r);
    }
  }

  lemma RegisterHeld(st: State, slot: nat, res: Resource)
    requires Inv(st) && Legal(st, Register(slot, res, true))
    ensures st.info[res].typ < |st.table[slot].held|
    ensures forall r: Resource :: r in st.table[slot].held[st.info[res].typ] + [res] ==>
      r in st.info && st.info[r].typ == st.info[res].typ
  {
    assert Sturdy(st.table[slot].held, st.info);
  }

  lemma UnregisterKeeps(st: State, slot: nat, res: Resource)
    requires Inv(st) && Legal(st, Unregister(slot, res))
    ensures Inv(Step(st, Unregister(slot, res)))
  {
    UnregisterStep(st, slot, res);
    if HeldBy(st, slot, res) {
      HeldUnregisterKeeps(st, slot, res);
    }
  }

  lemma HeldUnregisterKeeps(st: State, slot: nat, res: Resource)
    requires Inv(st) && Legal(st, Unregister(slot, res)) && HeldBy(st, slot, res)
    ensures Inv(Step(st, Unregister(slot, res)))
  {
    hide Step, Legal, RemoveFirst, RegistryInv, TableInv, NoDangling, Total, Count, Times, HeldBy, Distinct;
    UnregisterStep(st, slot, res);
    HeldHere(st, slot, res);
    var n := Step(st, Unregister(slot, res));
    var t, held := st.info[res].typ, st.table[slot].held;
    HoldKeeps(st, n, slot, t, RemoveFirst(held[t], res));
    forall r | r in n.info
      ensures n.info[r].refs == Total(n.table, |n.table|, r) < UINT_RANGE
    {
      UnregisterCount(st.table, slot, t, res, r);
    }
  }

  // What a session holds is live and of the right type, and its count is not 0.
  lemma HeldHere(st: State, slot: nat, res: Resource)
    requires Inv(st) && HeldBy(st, slot, res)
    ensures var t, held := st.info[res].typ, st.table[slot].held;
      && res in held[t] && st.info[res].refs > 0
      && forall r: Resource :: r in RemoveFirst(held[t], res) ==> r in st.info && st.info[r].typ == t
  {
    hide RegistryInv, TableInv, RemoveFirst;
    var t, held := st.info[res].typ, st.table[slot].held;
    assert Sturdy(held, st.info);
    CountPositive(held, t, |held|, res);
    TotalAtLeast(st.table, slot, |st.table|, res);
    forall r: Resource | r in RemoveFirst(held[t], res)
      ensures r in held[t]
    {
      TimesRemoveFirst(held[t], res, r);
    }
  }

  lemma UnregisterCount(table: seq<Slot>, slot: nat, t: nat, res: Resource, r: Resource)
    requires slot < |table| && table[slot].Running? && t < |table[slot].held| && res in table[slot].held[t]
    ensures Total(table[slot := Hold(table[slot], t, RemoveFirst(table[slot].held[t], res))], |table|, r)
      == Total(table, |table|, r) - if r == res then 1 else 0
  {
    hide Total, RemoveFirst, Times, Count;
    TimesRemoveFirst(table[slot].held[t], res, r);
    HoldCounts(table, slot, t, RemoveFirst(table[slot].held[t], res), r);
  }

  // Changing one list of one session and one reference count keeps all but the counts.
  lemma HoldKeeps(st: State, n: State, slot: nat, t: nat, rs: seq<Resource>)
    requires Inv(st) && slot < |st.table| && st.table[slot].Running?
    requires t < |st.table[slot].held|
    requires n == st.(table := st.table[slot := Hold(st.table[slot], t, rs)], info := n.info)
    requires n.info.Keys == st.info.Keys
    requires forall r :: r in st.info ==> n.info[r].id == st.info[r].id && n.info[r].typ == st.info[r].typ
    requires forall r :: r in rs ==> r in st.info && st.info[r].typ == t
    ensures RegistryInv(n) && TableInv(n) && NoDangling(n)
  {
    assert Ids(n.live, n.info) == Ids(st.live, st.info);
    forall i | 0 <= i < |n.table| && n.table[i].Running?
      ensures Sturdy(n.table[i].held, n.info)
    {
      assert Sturdy(st.table[i].held, st.info);
    }
  }

  lemma HoldCounts(table: seq<Slot>, slot: nat, t: nat, rs: seq<Resource>, r: Resource)
    requires slot < |table| && table[slot].Running? && t < |table[slot].held|
    ensures Total(table[slot := Hold(table[slot], t, rs)], |table|, r)
      == Total(table, |table|, r) + Times(rs, r) - Times(table[slot].held[t], r)
  {
    var held := table[slot].held;
    CountUpdate(held, t, rs, |held|, r);
    TotalUpdate(table, slot, Hold(table[slot], t, rs), |table|, r);
  }

  lemma StepKeeps(st: State, c: Command)
    requires Inv(st) && Legal(st, c)
    ensures Inv(Step(st, c))
  {
    hide Inv, Legal, Step;
    match c
    case New(res, typ) => NewKeeps(st, res, typ);
    case Destroy(res) => DestroyKeeps(st, res);
    case Init(sess, ok) => InitKeeps(st, sess, ok);
    case Free(slot) => FreeKeeps(st, slot);
    case Register(slot, res, memOk) =>
      if memOk {
        RegisterKeeps(st, slot, res);
      } else {
        RegisterFails(st, slot, res, memOk);
      }
    case Unregister(slot, res) => UnregisterKeeps(st, slot, res);
  }

  lemma RegisterFails(st: State, slot: nat, res: Resource, memOk: bool)
    requires Inv(st) && Legal(st, Register(slot, res, memOk)) && !memOk
    ensures Step(st, Register(slot, res, memOk)) == st
  {
  }

  // ---- Whole runs ----

  ghost predicate LegalRun(st: State, cs: seq<Command>)
    requires Inv(st)
    decreases |cs|
  {
    cs != [] ==> Legal(st, cs[0]) && (StepKeeps(st, cs[0]); LegalRun(Step(st, cs[0]), cs[1..]))
  }

  ghost function Run(st: State, cs: seq<Command>): (n: State)
    requires Inv(st) && LegalRun(st, cs)
    ensures Inv(n)
    decreases |cs|
  {
    if cs == [] then st else StepKeeps(st, cs[0]); Run(Step(st, cs[0]), cs[1..])
  }

  // Every run from the start ends with: reference counts equal to the number of containers,
  // over all sessions and lists; held resources live and of their list's type; the live ids
  // those of the registry, without repeats; slot i taken exactly when id i + 1 is out, and no
  // session in two slots.
  lemma EveryRun(cs: seq<Command>)
    requires LegalRun(Boot(), cs)
    ensures var st := Run(Boot(), cs);
      && (forall r: Resource :: r in st.live ==> r in st.info && st.info[r].refs == Total(st.table, |st.table|, r))
      && (forall i, t, r: Resource :: 0 <= i < |st.table| && st.table[i].Running? && 0 <= t < |st.table[i].held| && r in st.table[i].held[t] ==>
            r in st.live && st.info[r].typ == t)
      && (forall r: Resource, s: Resource :: r in st.live && s in st.live && r != s ==> st.info[r].id != st.info[s].id)
      && (forall x :: x in st.pool.live <==> exists r: Resource :: r in st.live && st.info[r].id == x)
      && |st.table| == MAX_SESSIONS
      && (forall i :: 0 <= i < MAX_SESSIONS ==> (st.table[i].Running? <==> i + 1 in st.spool.live))
      && (forall i, j :: 0 <= i < j < MAX_SESSIONS && st.table[i].Running? && st.table[j].Running? ==>
            st.table[i].sess != st.table[j].sess)
  {
    hide Inv, LegalRun, Total, RegistryInv, TableInv;
    var st := Run(Boot(), cs);
    Facts(st);
  }

  lemma Facts(st: State)
    requires Inv(st)
    ensures forall i, t, r: Resource :: 0 <= i < |st.table| && st.table[i].Running? && 0 <= t < |st.table[i].held| && r in st.table[i].held[t] ==>
      r in st.live && r in st.info && st.info[r].typ == t
    ensures forall r: Resource, s: Resource :: r in st.live && s in st.live && r != s ==>
      r in st.info && s in st.info && st.info[r].id != st.info[s].id
    ensures forall x :: x in st.pool.live <==> exists r: Resource :: r in st.live && r in st.info && st.info[r].id == x
    ensures forall r: Resource :: r in st.live ==> r in st.info && st.info[r].refs == Total(st.table, |st.table|, r)
    ensures |st.table| == MAX_SESSIONS
    ensures forall i :: 0 <= i < MAX_SESSIONS ==> (st.table[i].Running? <==> i + 1 in st.spool.live)
    ensures forall i, j :: 0 <= i < j < MAX_SESSIONS && st.table[i].Running? && st.table[j].Running? ==>
      st.table[i].sess != st.table[j].sess
  {
    forall i, t, r: Resource | 0 <= i < |st.table| && st.table[i].Running? && 0 <= t < |st.table[i].held| && r in st.table[i].held[t]
      ensures r in st.live && r in st.info && st.info[r].typ == t
    {
      assert Sturdy(st.table[i].held, st.info);
    }
    var ids := Ids(st.live, st.info);
    forall r: Resource, s: Resource | r in st.live && s in st.live && r != s
      ensures st.info[r].id != st.info[s].id
    {
      var i, j := IndexOf(st.live, r), IndexOf(st.live, s);
      if ids[i] == ids[j] {
        DistinctIndex(ids, i, j);
      }
    }
    forall x
      ensures x in st.pool.live <==> exists r: Resource :: r in st.live && r in st.info && st.info[r].id == x
    {
      if x in ids {
        assert st.info[st.live[IndexOf(ids, x)]].id == x;
      }
      if r: Resource :| r in st.live && st.info[r].id == x {
        assert ids[IndexOf(st.live, r)] == x;
      }
    }
  }

  // Destroying succeeds exactly when no running session holds the resource.
  lemma DestroyableIff(st: State, res: Resource)
    requires Inv(st) && Legal(st, Destroy(res))
    ensures (res !in Step(st, Destroy(res)).live) <==>
      forall i, t :: 0 <= i < |st.table| && st.table[i].Running? && 0 <= t < |st.table[i].held| ==> res !in st.table[i].held[t]
  {
    TotalZeroIff(st.table, |st.table|, res);
    if st.info[res].refs == 0 {
      RemoveDistinct(st.live, IndexOf(st.live, res));
    }
  }

  // Once every session has ended no count is left, so that cleaning up destroys everything.
  lemma NoSessionsNoCounts(st: State)
    requires Inv(st) && forall i :: 0 <= i < |st.table| ==> st.table[i].Idle?
    ensures forall r: Resource :: r in st.info ==> st.info[r].refs == 0
  {
    forall r: Resource | r in st.info
      ensures st.info[r].refs == 0
    {
      TotalZeroIff(st.table, |st.table|, r);
    }
  }

  // The counter is 32 bits wide: registering keeps count and containers equal if and only if
  // the count is not already the largest one.
  lemma RegisterCountsIff(st: State, slot: nat, res: Resource)
    requires Inv(st) && slot < |st.table| && st.table[slot].Running? && res in st.info
    ensures st.info[res].typ < |st.table[slot].held|
    ensures var t := st.info[res].typ;
      var table := st.table[slot := Hold(st.table[slot], t, st.table[slot].held[t] + [res])];
      (st.info[res].refs + 1) % UINT_RANGE == Total(table, |table|, res) <==> st.info[res].refs + 1 < UINT_RANGE
  {
    assert Sturdy(st.table[slot].held, st.info);
    var t := st.info[res].typ;
    TimesAppend(st.table[slot].held[t], res, res);
    HoldCounts(st.table, slot, t, st.table[slot].held[t] + [res], res);
  }

  // A session that could not be started leaves the table and the ids it will give out as they were.
  lemma FailedInitUndone(st: State, sess: Session)
    requires Inv(st) && Legal(st, Init(sess, false)) && st.spool.next < st.spool.max
    ensures var n := Step(st, Init(sess, false));
      n.table == st.table && IdPools.Free(n.spool) == IdPools.Free(st.spool) && n.spool.live == st.spool.live
      && n.live == st.live && n.info == st.info
  {
    GetSound(st.spool);
    GetReleaseRoundTrip(st.spool);
  }

  // Registering a resource and unregistering it again changes nothing, if and only if the session
  // holds nothing of its type behind it: the first container goes, and the new one stays last.
  lemma RegisterUnregister(st: State, slot: nat, res: Resource)
    requires Inv(st) && Legal(st, Register(slot, res, true))
    ensures var n := Step(st, Register(slot, res, true));
      && Inv(n) && Legal(n, Unregister(slot, res)) && st.info[res].typ < |st.table[slot].held|
      && (Step(n, Unregister(slot, res)) == st <==> Trails(st.table[slot].held[st.info[res].typ], res))
  {
    hide *;
    RegisterStep(st, slot, res);
    RegisterLegal(st, slot, res, true);
    RegisterKeeps(st, slot, res);
    var n := Step(st, Register(slot, res, true));
    UnregisterStep(n, slot, res);
    var t, held := st.info[res].typ, st.table[slot].held;
    assert n.table[slot].held[t] == held[t] + [res];
    RemoveFirstAppended(held[t], res);
    HeldAgain(n, slot, res);
    InfoRestored(st.info, res, st.info[res].refs);
    var m := Step(n, Unregister(slot, res));
    if Trails(held[t], res) {
      SlotRestored(st.table, slot, t, held[t] + [res]);
    } else {
      assert m.table[slot].held[t] == RemoveFirst(held[t] + [res], res);
    }
  }

  lemma HeldAgain(st: State, slot: nat, res: Resource)
    requires Inv(st) && Legal(st, Unregister(slot, res))
    ensures st.info[res].typ < |st.table[slot].held|
    ensures HeldBy(st, slot, res) <==> res in st.table[slot].held[st.info[res].typ]
  {
    assert Sturdy(st.table[slot].held, st.info);
  }

  lemma SlotRestored(table: seq<Slot>, slot: nat, t: nat, rs: seq<Resource>)
    requires slot < |table| && table[slot].Running? && t < |table[slot].held|
    ensures var s, held := table[slot].sess, table[slot].held;
      table[slot := Running(s, held[t := rs])][slot := Running(s, held[t := rs][t := held[t]])] == table
  {
    var held := table[slot].held;
    assert held[t := rs][t := held[t]] == held;
  }

  lemma InfoRestored(info: map<Resource, Info>, res: Resource, refs: nat)
    requires res in info && info[res].refs == refs && refs + 1 < UINT_RANGE
    ensures var i := info[res];
      info[res := Info(i.id, i.typ, (refs + 1) % UINT_RANGE)]
          [res := Info(i.id, i.typ, ((refs + 1) % UINT_RANGE + UINT_RANGE - 1) % UINT_RANGE)] == info
  {
  }

  lemma RegisterLegal(st: State, slot: nat, res: Resource, memOk: bool)
    requires Legal(st, Register(slot, res, memOk))
    ensures slot < |st.table| && st.table[slot].Running? && res in st.info && st.info[res].refs + 1 < UINT_RANGE
  {
  }

  // ---- Exhausted ids ----

  // What a client sees: the call answers that there is no id left.
  ghost predicate NoSessionId(st: State, c: Command)
    requires Inv(st)
  {
    c.Init? && Get(st.spool).1 == 0
  }

  ghost predicate NoResourceId(st: State, c: Command)
    requires Inv(st)
  {
    c.New? && c.typ < RES_MAX && Get(st.pool).1 == 0
  }

  // Some call of the run was answered that way.
  ghost predicate SomeNoSessionId(st: State, cs: seq<Command>)
    requires Inv(st) && LegalRun(st, cs)
    decreases |cs|
  {
    cs != [] && (NoSessionId(st, cs[0]) || (StepKeeps(st, cs[0]); SomeNoSessionId(Step(st, cs[0]), cs[1..])))
  }

  ghost predicate SomeNoResourceId(st: State, cs: seq<Command>)
    requires Inv(st) && LegalRun(st, cs)
    decreases |cs|
  {
    cs != [] && (NoResourceId(st, cs[0]) || (StepKeeps(st, cs[0]); SomeNoResourceId(Step(st, cs[0]), cs[1..])))
  }

  // Only such an answer overdraws a pool, and no later call makes up for it.
  lemma StepOverdraws(st: State, c: Command)
    requires Inv(st) && Legal(st, c)
    ensures var n := Step(st, c);
      && n.spool.max == st.spool.max && n.pool.max == st.pool.max
      && (n.spool.next <= n.spool.max <==> st.spool.next <= st.spool.max && !NoSessionId(st, c))
      && (n.pool.next <= n.pool.max <==> st.pool.next <= st.pool.max && !NoResourceId(st, c))
  {
    hide Conserves, Conserved, NoDangling;
    match c
    case New(res, typ) => NewIdAgrees(Ids(st.live, st.info), st.pool);
    case Destroy(res) =>
      if st.info[res].refs == 0 {
        DestroyFits(st, res);
      }
    case Init(sess, ok) =>
      InitFits(st);
      GetSound(st.spool);
    case Free(slot) => FreeFits(st, slot);
    case Register(slot, res, memOk) =>
    case Unregister(slot, res) =>
  }

  lemma {:induction false} RunOverdraws(st: State, cs: seq<Command>)
    requires Inv(st) && LegalRun(st, cs)
    ensures var n := Run(st, cs);
      && (n.spool.next <= n.spool.max <==> st.spool.next <= st.spool.max && !SomeNoSessionId(st, cs))
      && (n.pool.next <= n.pool.max <==> st.pool.next <= st.pool.max && !SomeNoResourceId(st, cs))
    decreases |cs|
  {
    hide Inv, Legal, Step, NoSessionId, NoResourceId;
    if cs != [] {
      StepKeeps(st, cs[0]);
      StepOverdraws(st, cs[0]);
      RunOverdraws(Step(st, cs[0]), cs[1..]);
    }
  }

  // After a run from the start, a running session may be ended if and only if no start of a
  // session has been refused for want of an id; a live resource may be destroyed if and only if
  // it is in use, so that nothing happens, or no creation has been refused for want of an id.
  lemma LegalAfterRun(cs: seq<Command>, slot: nat, res: Resource)
    requires LegalRun(Boot(), cs)
    ensures var st := Run(Boot(), cs);
      && (Legal(st, Free(slot)) <==>
            slot < |st.table| && st.table[slot].Running? && !SomeNoSessionId(Boot(), cs))
      && (Legal(st, Destroy(res)) <==>
            res in st.info && (st.info[res].refs == 0 ==> !SomeNoResourceId(Boot(), cs)))
  {
    hide Inv, Run, LegalRun, Step, SomeNoSessionId, SomeNoResourceId;
    RunOverdraws(Boot(), cs);
  }

  // ---- Creations, destructions and the final clean-up ----

  // How often the run made r live, and how often it destroyed it.
  ghost function Creations(st: State, cs: seq<Command>, r: Resource): nat
    requires Inv(st) && LegalRun(st, cs)
    decreases |cs|
  {
    if cs == [] then 0
    else
      StepKeeps(st, cs[0]);
      var n := Step(st, cs[0]);
      (if cs[0].New? && cs[0].res == r && r in n.live then 1 else 0) + Creations(n, cs[1..], r)
  }

  ghost function Destructions(st: State, cs: seq<Command>, r: Resource): nat
    requires Inv(st) && LegalRun(st, cs)
    decreases |cs|
  {
    if cs == [] then 0
    else
      StepKeeps(st, cs[0]);
      var n := Step(st, cs[0]);
      (if cs[0] == Destroy(r) && r !in n.live then 1 else 0) + Destructions(n, cs[1..], r)
  }

  lemma StepLive(st: State, c: Command, r: Resource)
    requires Inv(st) && Legal(st, c)
    ensures var n := Step(st, c);
      && (c.New? && c.res == r ==> r !in st.live)
      && (c == Destroy(r) ==> r in st.live)
      && (!(c.New? && c.res == r) && c != Destroy(r) ==> (r in n.live <==> r in st.live))
  {
    hide Conserved, NoDangling, TableInv, IdsAgree;
    match c
    case Destroy(res) =>
      if st.info[res].refs == 0 {
        RemoveDistinct(st.live, IndexOf(st.live, res));
      }
    case _ =>
  }

  lemma {:induction false} EachDestroyedOnce(st: State, cs: seq<Command>, r: Resource)
    requires Inv(st) && LegalRun(st, cs)
    ensures Creations(st, cs, r) + (if r in st.live then 1 else 0)
      == Destructions(st, cs, r) + (if r in Run(st, cs).live then 1 else 0)
    decreases |cs|
  {
    hide Inv, Legal, Step;
    if cs != [] {
      StepKeeps(st, cs[0]);
      StepLive(st, cs[0], r);
      EachDestroyedOnce(Step(st, cs[0]), cs[1..], r);
    }
  }

  // The live resources some session holds: those cleaning up leaves.
  ghost function InUse(st: State): set<Resource>
    requires Inv(st)
  {
    set r | r in st.live && st.info[r].refs != 0
  }

  // Once all sessions of a run have ended, cleaning up leaves nothing, and then every creation
  // of the run is matched by exactly one destruction, by a call or by cleaning up.
  lemma CleanupCompletes(cs: seq<Command>, r: Resource)
    requires LegalRun(Boot(), cs)
    requires forall i :: 0 <= i < |Run(Boot(), cs).table| ==> Run(Boot(), cs).table[i].Idle?
    ensures var st := Run(Boot(), cs);
      && Filter(st.live, InUse(st)) == []
      && Creations(Boot(), cs, r) == Destructions(Boot(), cs, r) + (if r in st.live && r !in InUse(st) then 1 else 0)
  {
    hide Run, LegalRun, Creations, Destructions;
    var st := Run(Boot(), cs);
    NothingInUse(st);
    EachDestroyedOnce(Boot(), cs, r);
  }

  lemma NothingInUse(st: State)
    requires Inv(st) && forall i :: 0 <= i < |st.table| ==> st.table[i].Idle?
    ensures InUse(st) == {} && Filter(st.live, InUse(st)) == []
  {
    NoSessionsNoCounts(st);
    FilterNone(st.live);
  }
}
