// The resource registry: an id pool and the list of live resources. VirtIO is off, so ids
// come from the local pool. All resources are linked in list 0, whatever their type.
module Resources {
  import opened Codes
  import opened Seqs
  import opened Lists
  import opened IdPools

  const RES_MAX: nat := 6
  const MAX_RESOURCES: nat := 2048

  const UINT_RANGE: nat := 0x1_0000_0000

  class Resource {
    var id: int
    var typ: nat
    var hasCleanup: bool
    var hasRundir: bool
    var entry: Entry
    // An atomic unsigned int: it wraps around.
    var refcount: nat
    // How often the type-specific destructor has run.
    ghost var cleanups: nat

    // Memory for a resource that has not been initialised yet.
    constructor ()
      ensures Fresh() && fresh(entry)
    {
      id, typ, hasCleanup, hasRundir := 0, 0, false, false;
      refcount, cleanups := 0, 0;
      entry := new Entry(null);
      new;
      entry := new Entry(this);
    }

    // Not in any list.
    ghost predicate Fresh()
      reads `entry, entry
    {
      entry.container == this && entry.Unlinked()
    }

    lemma OwnsEntry()
      requires Fresh()
      ensures entry.ring.container == this
    {
    }
  }

  method ResourceRefcountInc(res: Resource?)
    requires res != null ==> res.refcount < UINT_RANGE
    modifies if res == null then {} else {res}`refcount
    ensures res != null ==> res.refcount == (old(res.refcount) + 1) % UINT_RANGE
  {
    if res == null {
      return;
    }
    res.refcount := (res.refcount + 1) % UINT_RANGE;
  }

  method ResourceRefcountDec(res: Resource?)
    requires res != null ==> res.refcount < UINT_RANGE
    modifies if res == null then {} else {res}`refcount
    ensures res != null ==> res.refcount == (old(res.refcount) + UINT_RANGE - 1) % UINT_RANGE
  {
    if res == null {
      return;
    }
    res.refcount := (res.refcount + UINT_RANGE - 1) % UINT_RANGE;
  }

  // A directory of its own for the resource; making it can fail in three ways.
  method ResourceCreateRundir(res: Resource?, tooLong: bool, mkdir: int, memOk: bool) returns (ret: int)
    modifies if res == null then {} else {res}`hasRundir
    ensures ret == if res == null then EINVAL else if tooLong then ENAMETOOLONG else if mkdir != OK then mkdir
                   else if !memOk then ENOMEM else OK
    ensures res != null ==> res.hasRundir == (old(res.hasRundir) || ret == OK)
  {
    if res == null {
      return EINVAL;
    }
    if tooLong {
      return ENAMETOOLONG;
    }
    if mkdir != OK {
      return mkdir;
    }
    if !memOk {
      return ENOMEM;
    }
    res.hasRundir := true;
    return OK;
  }

  // The ids of the live resources are distinct and are the ids the pool has issued.
  ghost predicate IdsAgree(ids: seq<int>, p: Pool) {
    && Sound(p)
    && Distinct(ids)
    && |ids| == |p.live|
    && (forall x :: x in ids <==> x in p.live)
  }

  lemma NewIdAgrees(ids: seq<int>, p: Pool)
    requires IdsAgree(ids, p)
    ensures var (q, id) := Get(p);
      && (id == 0 <==> p.next >= p.max)
      && 0 <= id && q.max == p.max
      && (id == 0 ==> IdsAgree(ids, q))
      && (id != 0 ==> IdsAgree(ids + [id], q))
  {
    GetSound(p);
    var (q, id) := Get(p);
    if id != 0 {
      AppendDistinct(ids, id);
    }
  }

  lemma OldIdAgrees(ids: seq<int>, k: nat, p: Pool)
    requires IdsAgree(ids, p) && p.next <= p.max && k < |ids|
    ensures InBounds(p) && !Ignored(p, ids[k]) && ids[k] > 0
    ensures IdsAgree(Remove(ids, k), Release(p, ids[k])) && Release(p, ids[k]).next == p.next - 1
    ensures Release(p, ids[k]).max == p.max
  {
    assert ids[k] in ids;
    assert p.next != 0;
    ReleaseSoundIff(p, ids[k]);
    RemoveDistinct(ids, k);
  }

  class Registry {
    var initialized: bool
    const pool: IdPool
    var live: seq<Entry>
    // The live resources in list order, and their ids.
    ghost var objs: seq<Resource>
    ghost var ids: seq<int>

    ghost predicate Valid()
      reads this, pool, pool.ids, live, if |live| == RES_MAX then live[0].items else []
      reads objs`entry, objs`id
    {
      ListsValid() && IdsValid()
    }

    ghost predicate ListsValid()
      reads this, live, if |live| == RES_MAX then live[0].items else [], objs`entry
    {
      && |live| == RES_MAX
      && (forall i :: 0 <= i < RES_MAX ==> live[i].container == this)
      && (forall i :: 1 <= i < RES_MAX ==> live[i] != live[0] && live[i].Lone())
      && live[0].IsRing()
      && Embedded(live[0].items, objs)
    }

    ghost predicate IdsValid()
      reads this, pool, pool.ids, objs`id
    {
      && IdsMatch(objs, ids)
      && pool.Shape()
      && pool.max == MAX_RESOURCES
      && IdsAgree(ids, pool.View())
    }

    static ghost predicate IdsMatch(objs: seq<Resource>, ids: seq<int>)
      reads objs`id
    {
      |ids| == |objs| && forall i :: 0 <= i < |objs| ==> objs[i].id == ids[i]
    }

    // The entries of the list are those embedded in the resources, in order.
    static ghost predicate Embedded(items: seq<Entry>, objs: seq<Resource>)
      reads objs`entry
    {
      && |items| == |objs|
      && forall i :: 0 <= i < |objs| ==> items[i] == objs[i].entry && items[i].container == objs[i]
    }

    lemma Owns()
      requires Valid()
      ensures |live| == RES_MAX
      ensures forall e :: e in live[0].Nodes() ==> e.ring.container == this
      ensures forall o: object :: o in live[0].Nodes() ==> o is Entry
    {
      hide IdsValid;
      live[0].RingMembers();
    }

    // Nothing but changes to the entries of the live list can disturb the registry.
    twostate lemma StaysValid()
      requires old(Valid())
      requires unchanged(this) && unchanged(pool) && unchanged(pool.ids)
      requires forall e: Entry :: old(allocated(e)) && old(e.ring.container) == this ==> unchanged(e)
      requires forall r: Resource :: old(allocated(r)) ==> r.entry == old(r.entry) && r.id == old(r.id)
      ensures Valid() && objs == old(objs) && pool.View() == old(pool.View())
    {
      hide IdsAgree;
      var items := live[0].items;
      assert old(live[0].ring) == live[0];
      assert unchanged(live[0]);
      forall i | 0 <= i < |items|
        ensures unchanged(items[i])
      {
        assert items[i] in items && old(items[i].ring) == live[0];
      }
      forall i | 1 <= i < RES_MAX
        ensures unchanged(live[i])
      {
        assert old(live[i].Lone());
      }
    }

    ghost predicate Heads()
      reads this
    {
      && |live| == RES_MAX
      && (forall i :: 1 <= i < RES_MAX ==> live[i] != live[0])
      && (forall i :: 0 <= i < RES_MAX ==> live[i].container == this)
    }

    // List heads without a list.
    ghost predicate Blank()
      reads this, live
    {
      Heads() && forall i :: 0 <= i < RES_MAX ==> live[i].Unlinked()
    }

    constructor ()
      ensures !initialized && Blank() && fresh(live) && fresh(pool)
      ensures forall i, j :: 0 <= i < j < RES_MAX ==> live[i] != live[j]
    {
      initialized := false;
      pool := new IdPool();
      objs, ids := [], [];
      live := [];
      new;
      var i := 0;
      while i < RES_MAX
        invariant i <= RES_MAX && |live| == i && !initialized && fresh(live) && fresh(pool)
        invariant forall j, k :: 0 <= j < k < i ==> live[j] != live[k]
        invariant forall j :: 0 <= j < i ==> live[j].container == this && live[j].Unlinked()
      {
        var head := new Entry(this);
        live := live + [head];
        i := i + 1;
      }
    }

    // Cleaning up with nothing in use leaves the heads as the program starts with them.
    lemma BlankAgain()
      requires ListsValid() && objs == []
      ensures Blank()
    {
    }

    // The lists are emptied whatever they held: resources that were live are forgotten, their
    // entries still pointing at each other.
    method ResourcesBootstrap(memOk: bool) returns (ret: int)
      requires Heads()
      modifies this, pool, live
      ensures ret == if memOk then OK else ENOMEM
      ensures ret == OK ==> Valid() && initialized && objs == [] && pool.View() == IdPools.Fresh(MAX_RESOURCES)
      ensures ret != OK ==> initialized == old(initialized)
      ensures live == old(live) && (ret == OK ==> fresh(pool.ids))
      ensures old(ListsValid()) ==> forall r :: r in old(objs) ==> !r.Fresh()
    {
      if ListsValid() {
        LinkedNotFresh();
      }
      ret := IdPoolNew(pool, MAX_RESOURCES, memOk);
      if ret != OK {
        return;
      }
      objs, ids := [], [];
      var i := 0;
      while i < RES_MAX
        invariant i <= RES_MAX && live == old(live) && objs == [] && ids == []
        invariant forall j :: 0 <= j < i ==> live[j].Lone()
        invariant pool.Shape() && pool.View() == IdPools.Fresh(MAX_RESOURCES)
        invariant fresh(pool.ids)
      {
        live[i].Init();
        i := i + 1;
      }
      initialized := true;
      return OK;
    }

    lemma LinkedNotFresh()
      requires ListsValid()
      ensures |live| == RES_MAX && forall i :: 0 <= i < RES_MAX ==> live[i].container == this
      ensures forall r :: r in objs ==> r.entry.container == r && r.entry.ring == live[0] && r.entry != live[0]
    {
      live[0].RingMembers();
      forall r | r in objs
        ensures r.entry.container == r && r.entry in live[0].items
      {
        var i :| 0 <= i < |objs| && objs[i] == r;
        assert live[0].items[i] == r.entry;
      }
    }

    lemma FreshNotLive(res: Resource)
      requires ListsValid() && res.Fresh()
      ensures |live| == RES_MAX && res !in objs && res.entry !in live && res.entry !in live[0].items && res.entry != live[0]
    {
      live[0].RingMembers();
      assert forall i :: 0 <= i < |objs| ==> objs[i].entry in live[0].items;
    }

    method ResourceNew(res: Resource?, typ: nat, hasCleanup: bool) returns (ret: int)
      requires initialized ==> Valid()
      requires res != null ==> res.Fresh()
      modifies this`objs, this`ids, pool, pool.ids
      modifies if |live| == RES_MAX then live[0].Nodes() else {}
      modifies if res == null then {} else {res, res.entry}
      ensures !initialized ==> ret == EPERM
      ensures initialized && (res == null || typ >= RES_MAX) ==> ret == EINVAL
      ensures !initialized || res == null || typ >= RES_MAX ==>
        unchanged(this) && unchanged(pool) && unchanged(pool.ids) && unchanged(live)
        && (res != null ==> unchanged(res) && unchanged(res.entry))
      ensures initialized ==> Valid() && pool.ids == old(pool.ids)
      ensures res != null ==> res.entry == old(res.entry) && res.cleanups == old(res.cleanups)
      ensures ret == OK ==> |live| == RES_MAX && live[0].Nodes() <= old(live[0].Nodes()) + {res.entry}
      ensures ret == OK ==>
        && initialized && objs == old(objs) + [res] && ids == old(ids) + [res.id] && res.id !in old(ids) && res.id > 0
        && res.typ == typ && res.hasCleanup == hasCleanup && !res.hasRundir && res.refcount == 0
      ensures ret != OK ==> objs == old(objs) && ids == old(ids)
      ensures ret == OK <==> initialized && res != null && typ < RES_MAX && old(pool.next) < MAX_RESOURCES
      ensures initialized && res != null && typ < RES_MAX ==>
        Created(old(objs), old(ids), old(pool.View()), res, typ, hasCleanup, ret)
    {
      if !initialized {
        return EPERM;
      }
      if res == null || typ >= RES_MAX {
        return EINVAL;
      }
      ret := Create(res, typ, hasCleanup);
    }

    // Creation took the next id and linked `res` last, or found the pool exhausted.
    ghost predicate Created(objs0: seq<Resource>, ids0: seq<int>, p: Pool, res: Resource, typ: nat, hasCleanup: bool, ret: int)
      requires Shaped(p)
      reads this, pool, pool.ids, res, res.entry
    {
      && pool.View() == Get(p).0
      && ret == (if p.next < MAX_RESOURCES then OK else EUSERS)
      && (ret == EUSERS ==> objs == objs0 && ids == ids0 && res.Fresh() && res.id == 0)
      && (ret == OK ==>
            && objs == objs0 + [res] && ids == ids0 + [res.id] && res.id == Get(p).1 > 0
            && res.typ == typ && res.hasCleanup == hasCleanup && !res.hasRundir && res.refcount == 0)
    }

    lemma CreatedParts(objs0: seq<Resource>, ids0: seq<int>, p: Pool, res: Resource, typ: nat, hasCleanup: bool, ret: int)
      requires Shaped(p) && Created(objs0, ids0, p, res, typ, hasCleanup, ret)
      ensures pool.View() == Get(p).0
      ensures p.next >= MAX_RESOURCES ==> ret == EUSERS && objs == objs0
      ensures p.next < MAX_RESOURCES ==>
        ret == OK && objs == objs0 + [res] && res.id == Get(p).1 && res.typ == typ && res.refcount == 0
    {
    }

    lemma PoolShape()
      requires Valid()
      ensures Shaped(pool.View()) && pool.View().next == pool.next && pool.View().max == pool.max
    {
    }

    // Valid but for the id just taken for `res`, which is not linked yet.
    ghost predicate IdTaken(res: Resource)
      reads this, pool, pool.ids, objs`id, res`id
    {
      && IdsMatch(objs, ids)
      && pool.Shape() && pool.max == MAX_RESOURCES
      && IdsAgree(ids + [res.id], pool.View())
    }

    method Create(res: Resource, typ: nat, hasCleanup: bool) returns (ret: int)
      requires Valid() && res.Fresh()
      modifies this`objs, this`ids, pool, pool.ids, live[0].Nodes(), res, res.entry
      ensures res.entry == old(res.entry) && res.cleanups == old(res.cleanups)
      ensures ret == OK ==> live[0].Nodes() <= old(live[0].Nodes()) + {res.entry}
      ensures Valid() && pool.ids == old(pool.ids)
      ensures Created(old(objs), old(ids), old(pool.View()), res, typ, hasCleanup, ret)
    {
      hide Entry.IsRing, Entry.Nodes, IdsAgree, Get, ListsValid;
      FreshNotLive(res);
      NewIdAgrees(ids, pool.View());
      res.id := IdPoolGet(pool);
      if res.id <= 0 {
        return EUSERS;
      }
      FillIn(res, typ, hasCleanup);
      return OK;
    }

    method FillIn(res: Resource, typ: nat, hasCleanup: bool)
      requires ListsValid() && IdTaken(res) && res.Fresh()
      modifies this`objs, this`ids, live[0].Nodes(), res`typ, res`hasCleanup, res`hasRundir, res`refcount, res.entry
      ensures Valid() && live[0].Nodes() <= old(live[0].Nodes()) + {res.entry}
      ensures objs == old(objs) + [res] && ids == old(ids) + [res.id]
      ensures res.typ == typ && res.hasCleanup == hasCleanup && !res.hasRundir && res.refcount == 0
    {
      hide Valid, ListsValid, IdTaken, Entry.Nodes;
      ListsShape();
      res.typ := typ;
      res.hasCleanup := hasCleanup;
      res.hasRundir := false;
      LinkNew(res);
      res.refcount := 0;
    }

    method LinkNew(res: Resource)
      requires ListsValid() && IdTaken(res) && res.Fresh()
      modifies this`objs, this`ids, live[0].Nodes(), res.entry
      ensures Valid() && live[0].Nodes() <= old(live[0].Nodes()) + {res.entry}
      ensures objs == old(objs) + [res] && ids == old(ids) + [res.id]
    {
      hide ListsValid, IdsAgree, Entry.Nodes, Resource.Fresh;
      ListsShape();
      LinkLast(res);
    }

    method LinkLast(res: Resource)
      requires ListsValid() && res.Fresh()
      modifies this`objs, this`ids, live[0].Nodes(), res.entry
      ensures ListsValid() && objs == old(objs) + [res] && ids == old(ids) + [res.id]
      ensures live[0].Nodes() <= old(live[0].Nodes()) + {res.entry}
    {
      hide Entry.IsRing;
      FreshNotLive(res);
      live[0].RingMembers();
      res.entry.Init();
      live[0].AddTail(res.entry);
      objs := objs + [res];
      ids := ids + [res.id];
    }

    // First match in list order. On a miss the caller's pointer is left alone, and a pointer
    // that was not null makes the miss look like a success.
    method ResourceGetById(before: Resource?, id: int) returns (ret: int, after: Resource?)
      requires initialized ==> Valid()
      ensures !initialized ==> ret == EPERM && after == before
      ensures initialized && id !in ids ==> after == before && ret == if before != null then OK else EINVAL
      ensures initialized && id in ids ==> ret == OK && after in objs && after.id == id
    {
      if !initialized {
        return EPERM, before;
      }
      hide Entry.IsRing, IdsAgree;
      var i := 0;
      while i < RES_MAX
        invariant i <= RES_MAX
        invariant i > 0 ==> id !in ids
      {
        ghost var k := 0;
        live[i].LoneIsRing();
        live[i].RingHead();
        var iter := live[i].next;
        while iter != live[i]
          invariant k <= |live[i].items| && iter == live[i].NodeIn(live[i].items, k)
          invariant i == 0 ==> forall j :: 0 <= j < k ==> ids[j] != id
          decreases |live[i].items| - k
        {
          live[i].RingAt(k);
          var res := iter.container as Resource;
          if id == res.id {
            return OK, res;
          }
          iter := iter.next;
          k := k + 1;
        }
        i := i + 1;
      }
      return if before != null then OK else EINVAL, before;
    }

    // Destroying needs the resource to be live (at position k) and no get to have failed on a
    // full pool before; a resource some session holds is refused.
    method ResourceDestroy(res: Resource?, ghost k: nat) returns (ret: int)
      requires initialized ==> Valid()
      requires initialized && res != null && res.refcount == 0 ==>
        k < |objs| && objs[k] == res && pool.next <= pool.max
      modifies this`objs, this`ids, pool, pool.ids
      modifies if |live| == RES_MAX then live[0].Nodes() else {}
      modifies if res == null then {} else {res}`cleanups
      ensures ret == if !initialized then EPERM else if res == null then EINVAL
                     else if old(res.refcount) != 0 then EBUSY else OK
      ensures ret != OK ==>
        unchanged(this) && unchanged(pool) && unchanged(pool.ids) && unchanged(live)
        && (|live| == RES_MAX ==> unchanged(live[0].items)) && (res != null ==> unchanged(res))
      ensures initialized ==> Valid() && live[0].Nodes() <= old(live[0].Nodes())
      ensures pool.ids == old(pool.ids) && (ret == OK ==> pool.next == old(pool.next) - 1)
      ensures ret == OK ==> Destroyed(old(objs), old(ids), old(pool.View()), res, k)
      ensures ret == OK ==> res.cleanups == old(res.cleanups) + if res.hasCleanup then 1 else 0
      ensures ret == OK ==>
        && objs == old(objs)[..k] + old(objs)[k + 1..] && ids == old(ids)[..k] + old(ids)[k + 1..]
        && res.entry.Lone() && k < |old(ids)| && pool.live == old(pool.live) - {old(ids)[k]}
    {
      if !initialized {
        return EPERM;
      }
      if res == null {
        return EINVAL;
      }
      if res.refcount != 0 {
        return EBUSY;
      }
      DestroyIdle(res, k);
      return OK;
    }

    // `res`, which was k-th, has left the list, its id is back in the pool, and it may be reused.
    ghost predicate Destroyed(objs0: seq<Resource>, ids0: seq<int>, p: Pool, res: Resource, k: nat)
      reads this, pool, pool.ids, res, res.entry
    {
      && k < |objs0| == |ids0| && objs0[k] == res
      && Shaped(p) && !Ignored(p, ids0[k]) && InBounds(p)
      && objs == Remove(objs0, k) && ids == Remove(ids0, k)
      && pool.View() == Release(p, ids0[k])
      && res.Fresh() && res.entry.Lone()
    }

    lemma DestroyedParts(objs0: seq<Resource>, ids0: seq<int>, p: Pool, res: Resource, k: nat)
      requires Destroyed(objs0, ids0, p, res, k)
      ensures k < |ids0| && k < |objs0| && |p.ids| == p.max && !Ignored(p, ids0[k]) && InBounds(p)
      ensures objs == Remove(objs0, k) && pool.View() == Release(p, ids0[k])
    {
    }

    lemma IdAt(k: nat)
      requires Valid() && k < |objs|
      ensures k < |ids| && objs[k].id == ids[k]
    {
    }

    lemma RemoveEmbedded(items: seq<Entry>, objs: seq<Resource>, k: nat)
      requires Embedded(items, objs) && k < |objs|
      ensures Embedded(Remove(items, k), Remove(objs, k))
    {
    }

    lemma RemoveIds(objs: seq<Resource>, ids: seq<int>, k: nat)
      requires IdsMatch(objs, ids) && k < |objs|
      ensures IdsMatch(Remove(objs, k), Remove(ids, k))
    {
    }

    method DestroyIdle(res: Resource, ghost k: nat)
      requires Valid() && k < |objs| && objs[k] == res && pool.next <= pool.max
      modifies this`objs, this`ids, pool, pool.ids, live[0].Nodes(), res`cleanups
      ensures Valid() && live[0].Nodes() <= old(live[0].Nodes())
      ensures pool.ids == old(pool.ids) && pool.next == old(pool.next) - 1
      ensures Destroyed(old(objs), old(ids), old(pool.View()), res, k)
      ensures res.cleanups == old(res.cleanups) + if res.hasCleanup then 1 else 0
    {
      hide Entry.IsRing, IdsAgree, Remove, Release;
      OldIdAgrees(ids, k, pool.View());
      IdPoolRelease(pool, res.id);
      UnlinkLive(res, k);
      if res.hasCleanup {
        res.cleanups := res.cleanups + 1;
      }
    }

    method UnlinkLive(res: Resource, ghost k: nat)
      requires ListsValid() && IdsMatch(objs, ids) && k < |objs| && objs[k] == res
      modifies this`objs, this`ids, live[0].Nodes()
      ensures ListsValid() && IdsMatch(objs, ids)
      ensures objs == Remove(old(objs), k) && ids == Remove(old(ids), k)
      ensures res.Fresh() && res.entry.Lone() && live[0].Nodes() <= old(live[0].Nodes())
    {
      hide Entry.IsRing, Remove;
      live[0].RingMembers();
      live[0].RingAt(k);
      ghost var items := live[0].items;
      res.entry.Unlink(k);
      RemoveEmbedded(items, objs, k);
      RemoveIds(objs, ids, k);
      RemoveMembers(items, k);
      objs := Remove(objs, k);
      ids := Remove(ids, k);
    }

    lemma ObjsDistinct()
      requires Valid()
      ensures Distinct(objs)
    {
      forall i, j | 0 <= i < j < |objs|
        ensures Differ(objs, i, j)
      {
        assert Differ(live[0].items, i, j);
      }
    }

    // The resources some session holds.
    static ghost function Busy(objs: seq<Resource>): set<Resource>
      reads objs`refcount
    {
      set r | r in objs && r.refcount != 0
    }

    // Every idle resource is unlinked and its destructor run once; the busy ones stay, in order,
    // and theirs are the ids that were still out when the pool was freed.
    method ResourcesCleanup() returns (ret: int)
      requires initialized ==> Valid() && pool.next <= pool.max
      modifies this`objs, this`ids, pool, pool.ids
      modifies if |live| == RES_MAX then live[0].Nodes() + (set i | 1 <= i < RES_MAX :: live[i]) else {}
      modifies (set r | r in objs)`cleanups
      ensures ret == OK
      ensures !initialized ==> unchanged(this) && unchanged(pool)
      ensures initialized ==> ListsValid() && IdsMatch(objs, ids) && pool.ids.Length == 0
      ensures initialized ==> Distinct(ids) && |ids| == |pool.live| && forall x :: x in ids <==> x in pool.live
      ensures initialized ==> objs == Filter(old(objs), old(Busy(objs)))
      ensures initialized ==> forall r :: r in old(objs) ==> Swept(r, old(Busy(objs)), old(r.cleanups))
    {
      if !initialized {
        return OK;
      }
      ret := CleanupStarted(Busy(objs));
    }

    method CleanupStarted(ghost busy: set<Resource>) returns (ret: int)
      requires initialized && Valid() && pool.next <= pool.max && busy == Busy(objs)
      modifies this`objs, this`ids, pool, pool.ids
      modifies live[0].Nodes() + (set i | 1 <= i < RES_MAX :: live[i]), (set r | r in objs)`cleanups
      ensures ret == OK && ListsValid() && IdsMatch(objs, ids) && pool.ids.Length == 0
      ensures Distinct(ids) && |ids| == |pool.live| && forall x :: x in ids <==> x in pool.live
      ensures objs == Filter(old(objs), busy)
      ensures forall r :: r in old(objs) ==> Swept(r, busy, old(r.cleanups))
    {
      hide ListsValid, Filter, Swept, Busy, Conserves;
      CleanupLists(busy);
      ret := IdPoolDestroy(pool);
    }

    method CleanupLists(ghost busy: set<Resource>)
      requires initialized && Valid() && pool.next <= pool.max && busy == Busy(objs)
      modifies this`objs, this`ids, pool, pool.ids
      modifies live[0].Nodes() + (set i | 1 <= i < RES_MAX :: live[i]), (set r | r in objs)`cleanups
      ensures Valid() && objs == Filter(old(objs), busy) && pool.ids == old(pool.ids)
      ensures forall r :: r in old(objs) ==> Swept(r, busy, old(r.cleanups))
    {
      hide Valid, Filter, Swept, Busy, Entry.IsRing;
      CursorStart(0);
      var i := 0;
      while i < RES_MAX
        invariant i <= RES_MAX && live == old(live) && |live| == RES_MAX && initialized
        invariant Valid() && pool.next <= pool.max && pool.ids == old(pool.ids)
        invariant i == 0 ==> objs == old(objs) && live[0].Nodes() == old(live[0].Nodes())
        invariant i == 0 ==> forall r :: r in old(objs) ==> r.cleanups == old(r.cleanups)
        invariant i == 0 ==> busy == Busy(objs)
        invariant i > 0 ==> objs == Filter(old(objs), busy)
        invariant i > 0 ==> forall r :: r in objs ==> r in old(objs)
        invariant i > 0 ==> forall r :: r in old(objs) ==> Swept(r, busy, old(r.cleanups))
      {
        ListsEmpty(i);
        CleanupList(i, busy);
        forall r | r in objs && i == 0
          ensures r in old(objs)
        {
          FilterMember(old(objs), busy, r);
        }
        i := i + 1;
      }
    }

    // A busy resource is as it was; an idle one has been destroyed.
    static ghost predicate Swept(r: Resource, busy: set<Resource>, cleanups0: nat)
      reads r, r.entry
    {
      if r in busy then r.cleanups == cleanups0
      else r.Fresh() && r.cleanups == cleanups0 + if r.hasCleanup then 1 else 0
    }

    // Only list 0 has entries.
    lemma ListsEmpty(i: nat)
      requires Valid() && i < RES_MAX
      ensures |live| == RES_MAX && live[i].IsRing() && live[i].container == this
      ensures i > 0 ==> live[i] != live[0] && live[i].Nodes() == {live[i]}
    {
    }

    // One turn: try to destroy the resource at the cursor. Those destroyed before stay so.
    method CleanupTurn(res: Resource, ghost done: seq<Resource>, ghost rest: seq<Resource>,
                       ghost busy: set<Resource>, ghost gone: set<Resource>)
      requires initialized && Valid() && pool.next <= pool.max
      requires Split(objs, done, rest) && rest != [] && rest[0] == res
      requires res in busy <==> res.refcount != 0
      requires forall r :: r in gone ==> r.Fresh()
      modifies this`objs, this`ids, pool, pool.ids, live[0].Nodes(), res`cleanups
      ensures Valid() && pool.next <= pool.max && pool.ids == old(pool.ids)
      ensures Split(objs, if res in busy then done + [res] else done, rest[1..])
      ensures live[0].Nodes() <= old(live[0].Nodes())
      ensures Swept(res, busy, old(res.cleanups))
      ensures forall r :: r in gone ==> r.Fresh()
    {
      hide Entry.IsRing, Split, Remove, IdsAgree, Release, ListsValid;
      SplitRemove(objs, done, rest);
      ListsShape();
      forall r | r in gone
        ensures r.entry !in live[0].Nodes() && r != res
      {
        FreshNotLive(r);
      }
      var ret := ResourceDestroy(res, |done|);
    }

    lemma ListsShape()
      requires ListsValid()
      ensures |live| == RES_MAX
    {
    }

    // Where the loop is: `visited` is done with, its busy part kept and the rest gone.
    static ghost predicate Sweeping(was: seq<Resource>, visited: seq<Resource>, done: seq<Resource>,
                                    rest: seq<Resource>, busy: set<Resource>, gone: set<Resource>)
    {
      && Distinct(was)
      && Split(was, visited, rest)
      && done == Filter(visited, busy)
      && gone == set r | r in visited && r !in busy
    }

    static lemma SweepStart(was: seq<Resource>, busy: set<Resource>)
      requires Distinct(was)
      ensures Sweeping(was, [], [], was, busy, {}) && Split(was, [], was)
    {
    }

    static lemma SweepTurn(was: seq<Resource>, visited: seq<Resource>, done: seq<Resource>,
                           rest: seq<Resource>, busy: set<Resource>, gone: set<Resource>)
      requires Sweeping(was, visited, done, rest, busy, gone) && rest != []
      ensures rest[0] in was && rest[0] !in gone
      ensures var r := rest[0];
        Sweeping(was, visited + [r], if r in busy then done + [r] else done, rest[1..], busy,
                 if r in busy then gone else gone + {r})
    {
      hide Filter;
      SplitRemove(was, visited, rest);
      SplitDistinct(was, visited, rest);
      FilterTurn(was, visited, rest, busy);
    }

    static lemma SweepEnd(was: seq<Resource>, visited: seq<Resource>, done: seq<Resource>,
                          busy: set<Resource>, gone: set<Resource>)
      requires Sweeping(was, visited, done, [], busy, gone)
      ensures done == Filter(was, busy)
      ensures forall r :: r in was ==> (r in gone <==> r !in busy)
    {
      SplitEnds(was, visited);
    }

    // The loop over one list. All but list 0 are empty, so there it does nothing.
    method CleanupList(i: nat, ghost busy: set<Resource>)
      requires initialized && Valid() && pool.next <= pool.max && i < RES_MAX && (i == 0 ==> busy == Busy(objs))
      modifies this`objs, this`ids, pool, pool.ids, live[i].Nodes(), (set r | r in objs)`cleanups
      ensures Valid() && pool.next <= pool.max && pool.ids == old(pool.ids)
      ensures i == 0 ==> objs == Filter(old(objs), busy)
      ensures i == 0 ==> forall r :: r in old(objs) ==> Swept(r, busy, old(r.cleanups))
      ensures i > 0 ==> unchanged(this) && unchanged(pool) && unchanged(pool.ids) && unchanged(live[i])
      ensures i > 0 ==> forall r :: r in objs ==> r.cleanups == old(r.cleanups)
    {
      hide *;
      ghost var was, visited, done := if i == 0 then objs else [], [], [];
      ghost var rest: seq<Resource>, gone: set<Resource> := was, {};
      CursorStart(i);
      BusyIs(objs);
      ObjsDistinct();
      SweepStart(was, busy);
      var iter := live[i].next;
      var tmp := iter.next;
      while iter != live[i]
        invariant Valid() && |live| == RES_MAX && pool.next <= pool.max && pool.ids == old(pool.ids)
        invariant Sweeping(was, visited, done, rest, busy, gone)
        invariant i == 0 ==> Split(objs, done, rest) && live[0].Nodes() <= old(live[0].Nodes())
        invariant i > 0 ==> rest == [] && unchanged(this) && unchanged(pool) && unchanged(pool.ids) && unchanged(live[i])
        invariant i > 0 ==> forall r :: r in objs ==> r.cleanups == old(r.cleanups)
        invariant iter == if rest == [] then live[i] else rest[0].entry
        invariant tmp == iter.next
        invariant forall r :: r in gone ==> r.Fresh()
        invariant forall r :: r in was ==>
          r.cleanups == old(r.cleanups) + if r in gone && r.hasCleanup then 1 else 0
        decreases |rest|
      {
        CursorIn(done, rest);
        SweepTurn(was, visited, done, rest, busy, gone);
        var res := iter.container as Resource;
        CleanupTurn(res, done, rest, busy, gone);
        SweptIs(busy);
        done := if res in busy then done + [res] else done;
        gone := if res in busy then gone else gone + {res};
        visited := visited + [res];
        rest := rest[1..];
        iter := tmp;
        CursorStart(i);
        tmp := tmp.next;
      }
      if rest != [] {
        CursorIn(done, rest);
      }
      SweepEnd(was, visited, done, busy, gone);
      SweptIs(busy);
      SplitEnds(objs, done);
    }

    static lemma BusyIs(objs: seq<Resource>)
      ensures forall r :: r in objs ==> (r in Busy(objs) <==> r.refcount != 0)
    {
    }

    static lemma SweptIs(busy: set<Resource>)
      ensures forall r: Resource, c: nat :: Swept(r, busy, c) <==>
        if r in busy then r.cleanups == c
        else r.Fresh() && r.cleanups == c + if r.hasCleanup then 1 else 0
    {
    }

    lemma CursorIn(done: seq<Resource>, rest: seq<Resource>)
      requires Valid() && Split(objs, done, rest) && rest != []
      ensures |live| == RES_MAX
      ensures rest[0].entry.container == rest[0] && rest[0].entry != live[0]
      ensures rest[0].entry.next == if rest[1..] == [] then live[0] else rest[1..][0].entry
    {
      live[0].RingAt(|done|);
    }

    lemma CursorStart(i: nat)
      requires Valid() && i < RES_MAX
      ensures i < |live| == RES_MAX && 0 < |live| && live[i].ring == live[i]
      ensures i == 0 ==> live[0].next == if objs == [] then live[0] else objs[0].entry
      ensures i > 0 ==> live[i].next == live[i] && live[i].Nodes() == {live[i]}
    {
    }
  }
}
