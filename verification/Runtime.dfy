// The running library: registry and session table together, as clients drive them. Each call
// carries out one transition of the state machine in module Runs.
module Runtimes {
  import opened Codes
  import opened Seqs
  import opened Lists
  import opened IdPools
  import opened Resources
  import opened Sessions
  import opened SessionTables
  import opened Runs

  class Runtime {
    const registry: Registry
    const sessions: SessionTable
    ghost var st: State

    ghost predicate Valid()
      reads *
    {
      && Inv(st)
      && RegistryShows(st.live, st.info, st.pool)
      && TableShows(st.table, st.spool)
      && Apart()
    }

    ghost predicate Apart()
      reads registry.pool, sessions.ids
    {
      registry.pool != sessions.ids && registry.pool.ids != sessions.ids.ids
    }

    // The registry holds what the state says.
    ghost predicate RegistryShows(live: seq<Resource>, info: map<Resource, Info>, pool: Pool)
      reads *
    {
      && registry.initialized && registry.Valid()
      && live == registry.objs && pool == registry.pool.View()
      && InfoShows(info)
    }

    // So do the table and the lists of every running session; no two sessions share lists.
    ghost predicate TableShows(table: seq<Slot>, spool: Pool)
      reads *
    {
      && sessions.initialized && sessions.Valid()
      && spool == sessions.ids.View()
      && |table| == MAX_SESSIONS == sessions.running.Length
      && (forall i :: 0 <= i < MAX_SESSIONS ==> SlotShows(table[i], sessions.running[i]))
      && ListsDiffer(sessions.running[..])
    }

    static ghost predicate SlotShows(slot: Slot, s: Session?)
      reads s, if s == null then null else s.resources
      reads if s == null || s.resources == null then [] else s.resources.registered
      reads if s == null || s.resources == null then {} else
        set t, i | 0 <= t < |s.resources.registered| && 0 <= i < |s.resources.registered[t].items| :: s.resources.registered[t].items[i]
      reads if s == null || s.resources == null then {} else
        set t, i | 0 <= t < |s.resources.regs| && 0 <= i < |s.resources.regs[t]| :: s.resources.regs[t][i]
    {
      if s == null then slot == Idle
      else s.resources != null && s.resources.Valid() && slot == Running(s, s.resources.Held())
    }

    static ghost predicate ListsDiffer(running: seq<Session?>)
      reads set s: Session | s in running
    {
      forall i, j :: 0 <= i < j < |running| && running[i] != null && running[j] != null ==>
        running[i].resources != running[j].resources
    }

    static lemma ListsDifferIs(running: seq<Session?>)
      ensures ListsDiffer(running) <==>
        forall i, j :: 0 <= i < j < |running| && running[i] != null && running[j] != null ==>
          running[i].resources != running[j].resources
    {
    }

    // As the program is loaded.
    constructor ()
      ensures registry.Blank() && !sessions.initialized && sessions.running.Length == MAX_SESSIONS
      ensures registry.pool != sessions.ids
    {
      registry := new Registry();
      sessions := new SessionTable();
      st := Boot();
    }

    lemma Parts()
      ensures Valid() <==>
        Inv(st) && RegistryShows(st.live, st.info, st.pool) && TableShows(st.table, st.spool) && Apart()
    {
    }

    lemma RegistryParts(live: seq<Resource>, info: map<Resource, Info>, pool: Pool)
      ensures RegistryShows(live, info, pool) <==>
        && registry.initialized && registry.Valid()
        && live == registry.objs && pool == registry.pool.View()
        && InfoShows(info)
    {
    }

    lemma TableParts(table: seq<Slot>, spool: Pool)
      ensures TableShows(table, spool) <==>
        && sessions.initialized && sessions.Valid()
        && spool == sessions.ids.View()
        && |table| == MAX_SESSIONS == sessions.running.Length
        && (forall i :: 0 <= i < MAX_SESSIONS ==> SlotShows(table[i], sessions.running[i]))
        && ListsDiffer(sessions.running[..])
    {
    }

    static lemma SlotParts(slot: Slot, s: Session?)
      ensures SlotShows(slot, s) <==>
        if s == null then slot == Idle
        else s.resources != null && s.resources.Valid() && slot == Running(s, s.resources.Held())
    {
    }

    // Once both parts have started, the program is in the state the runs begin with.
    method Bootstrap(tableMem: bool, registryMem: bool) returns (ret: int)
      requires registry.Blank() && sessions.running.Length == MAX_SESSIONS && registry.pool != sessions.ids
      modifies this, registry, registry.pool, registry.live, sessions, sessions.ids, sessions.running
      ensures ret == if tableMem && registryMem then OK else ENOMEM
      ensures ret == OK ==> Valid() && st == Boot()
    {
      hide IdsAgree, SlotsAgree, Inv, Registry.ListsValid, Registry.IdsValid;
      ret := sessions.SessionsBootstrap(tableMem);
      if ret != OK {
        return;
      }
      label Between:
      ret := registry.ResourcesBootstrap(registryMem);
      if ret != OK {
        return;
      }
      st := Boot();
      sessions.StaysValid@Between();
    }

    // Slots keep showing what they show, but for one, as long as nobody but `owners` changes
    // its entries.
    twostate lemma SlotsStay(slot: int, new owners: set<object?>)
      requires old(Valid())
      requires forall i :: 0 <= i < MAX_SESSIONS == sessions.running.Length && i != slot && old(sessions.running[i]) != null ==>
        && old(sessions.running[i].resources) !in owners
        && unchanged(old(sessions.running[i])) && unchanged(old(sessions.running[i].resources))
      requires forall e: Entry :: old(allocated(e)) && old(e.ring.container) !in owners ==> unchanged(e)
      requires forall g: Registration :: old(allocated(g)) ==> g.entry == old(g.entry)
      ensures |old(st.table)| == MAX_SESSIONS == sessions.running.Length
      ensures forall i :: 0 <= i < MAX_SESSIONS && i != slot ==> SlotShows(old(st.table[i]), old(sessions.running[i]))
    {
      hide Registry.Valid, SessionTable.Valid, SessionResources.Valid, Inv, RegistryShows, ListsDiffer;
      assert old(TableShows(st.table, st.spool));
      forall i | 0 <= i < MAX_SESSIONS && i != slot
        ensures SlotShows(old(st.table[i]), old(sessions.running[i]))
      {
        var s := old(sessions.running[i]);
        assert old(SlotShows(st.table[i], s));
        if s != null {
          s.resources.StaysValid();
        }
      }
    }

    // What the state knows about a running session.
    lemma SessionAt(sess: Session, slot: nat)
      requires Valid() && sessions.Runs(sess) && sess.id == slot + 1
      ensures slot < |st.table| == MAX_SESSIONS == sessions.running.Length && sessions.running[slot] == sess
      ensures sess.resources != null && sess.resources.Valid() && |sess.resources.registered| == RES_MAX
      ensures st.table[slot] == Running(sess, sess.resources.Held())
      ensures forall i :: 0 <= i < MAX_SESSIONS && i != slot && sessions.running[i] != null ==>
        sessions.running[i].resources != sess.resources && sessions.running[i] != sess
    {
      assert SlotShows(st.table[slot], sessions.running[slot]);
    }

    lemma ResourceAt(res: Resource)
      requires Valid() && res in st.info
      ensures st.info[res] == Info(res.id, res.typ, res.refcount)
      ensures res.typ < RES_MAX && res.refcount < UINT_RANGE
    {
    }

    // Registering and unregistering touch the lists object of the session and entries it owns.
    static lemma TouchedOnly(sess: Session, res: Resource)
      requires sess.resources != null && sess.resources.Valid() && res.typ < RES_MAX
      ensures forall e: Entry :: e in Touched(sess, res) ==> e.ring.container == sess.resources
      ensures forall o: object :: o in Touched(sess, res) ==> o is Entry || o == sess.resources
    {
      hide ListHolds;
      sess.resources.Owns(res.typ);
    }

    // The call leaves the registry, the table and the other sessions' lists as they are.
    method RegisterAlone(sess: Session, res: Resource, memOk: bool, ghost slot: nat) returns (ret: int)
      requires Valid() && sessions.Runs(sess) && sess.id == slot + 1
      requires res.typ < RES_MAX && res.refcount < UINT_RANGE
      modifies Touched(sess, res), res`refcount
      ensures ret == if memOk then OK else ENOMEM
      ensures sess.resources != null && sess.resources.Valid() && sess.resources == old(sess.resources)
      ensures res.typ < |old(sess.resources.Held())|
      ensures memOk ==>
        && sess.resources.Held() == old(sess.resources.Held())[res.typ := old(sess.resources.Held())[res.typ] + [res]]
        && res.refcount == (old(res.refcount) + 1) % UINT_RANGE
      ensures !memOk ==> sess.resources.Held() == old(sess.resources.Held()) && res.refcount == old(res.refcount)
      ensures st == old(st) && Around(st, slot) && slot < sessions.running.Length && sessions.running[slot] == sess
    {
      hide *;
      FailuresAreNotOK();
      Parts();
      RegistryParts(st.live, st.info, st.pool);
      TableParts(st.table, st.spool);
      SessionAt(sess, slot);
      TouchedOnly(sess, res);
      sess.resources.Sizes();
      ret := SessRegister(sess, res, memOk);
      if memOk {
        sess.resources.RegisteredParts(res, old(sess.resources.Held()), old(res.refcount));
      }
      registry.StaysValid();
      sessions.StaysValid();
      SlotsStay(slot, {sess.resources});
      AroundIs(st, slot);
    }

    // All of `Valid` but slot `slot` and the resources' own fields.
    ghost predicate Around(st: State, slot: int)
      reads *
    {
      && registry.initialized && registry.Valid() && sessions.initialized && sessions.Valid()
      && st.live == registry.objs && st.pool == registry.pool.View() && st.spool == sessions.ids.View()
      && |st.table| == MAX_SESSIONS == sessions.running.Length
      && (forall i :: 0 <= i < MAX_SESSIONS && i != slot ==> SlotShows(st.table[i], sessions.running[i]))
      && ListsDiffer(sessions.running[..])
      && Apart()
    }

    lemma AroundIs(st: State, slot: int)
      ensures Around(st, slot) <==>
        && registry.initialized && registry.Valid() && sessions.initialized && sessions.Valid()
        && st.live == registry.objs && st.pool == registry.pool.View() && st.spool == sessions.ids.View()
        && |st.table| == MAX_SESSIONS == sessions.running.Length
        && (forall i :: 0 <= i < MAX_SESSIONS && i != slot ==> SlotShows(st.table[i], sessions.running[i]))
        && ListsDiffer(sessions.running[..])
        && Apart()
    {
    }

    static ghost predicate InfoShows(info: map<Resource, Info>)
      reads info.Keys
    {
      forall r: Resource :: r in info ==> info[r] == Info(r.id, r.typ, r.refcount)
    }

    static lemma InfoIs(info: map<Resource, Info>)
      ensures InfoShows(info) <==> forall r: Resource :: r in info ==> info[r] == Info(r.id, r.typ, r.refcount)
      ensures forall r: Resource :: r in info ==> allocated(r)
    {
    }

    lemma ApartIs()
      ensures Apart() <==> registry.pool != sessions.ids && registry.pool.ids != sessions.ids.ids
    {
    }

    // The state becomes n, once the slot and the resources show it too.
    ghost method Adopt(n: State, slot: int)
      requires Around(n, slot) && Inv(n) && InfoShows(n.info)
      requires slot >= 0 ==>
        slot < |n.table| && slot < sessions.running.Length && SlotShows(n.table[slot], sessions.running[slot])
      modifies this`st
      ensures Valid() && st == n
    {
      hide *;
      AroundIs(n, slot);
      label Before:
      st := n;
      registry.StaysValid@Before();
      AroundIs(n, slot);
      Parts();
      RegistryParts(n.live, n.info, n.pool);
      TableParts(n.table, n.spool);
    }

    method Register(sess: Session, res: Resource, memOk: bool, ghost slot: nat) returns (ret: int)
      requires Valid() && sessions.Runs(sess) && sess.id == slot + 1
      requires Runs.Legal(st, Runs.Register(slot, res, memOk))
      modifies this, Touched(sess, res), res`refcount
      ensures Valid() && Stepped(old(st), Runs.Register(slot, res, memOk), st)
      ensures ret == if memOk then OK else ENOMEM
      ensures sess.resources != null && sess.resources == old(sess.resources) && res.typ < |old(sess.resources.Held())|
      ensures memOk ==> res.refcount == (old(res.refcount) + 1) % UINT_RANGE
      ensures memOk ==>
        sess.resources.Held() == old(sess.resources.Held())[res.typ := old(sess.resources.Held())[res.typ] + [res]]
      ensures !memOk ==> sess.resources.Held() == old(sess.resources.Held()) && res.refcount == old(res.refcount)
    {
      hide *;
      ghost var c := Runs.Register(slot, res, memOk);
      Parts();
      RegistryParts(st.live, st.info, st.pool);
      SessionAt(sess, slot);
      RegisterLegal(st, slot, res, memOk);
      ResourceAt(res);
      TouchedOnly(sess, res);
      StepKeeps(st, c);
      SteppedIs(st, c);
      if memOk {
        RegisterStep(st, slot, res);
      } else {
        RegisterFails(st, slot, res, memOk);
      }
      ghost var n := Runs.Step(st, c);
      InfoIs(st.info);
      ret := RegisterAlone(sess, res, memOk, slot);
      AroundIs(st, slot);
      InfoIs(n.info);
      AroundIs(n, slot);
      SlotParts(n.table[slot], sess);
      Adopt(n, slot);
    }

    method UnregisterAlone(sess: Session, res: Resource, ghost slot: nat) returns (ret: int)
      requires Valid() && sessions.Runs(sess) && sess.id == slot + 1
      requires res.typ < RES_MAX && res.refcount < UINT_RANGE
      modifies Touched(sess, res), res`refcount
      ensures sess.resources != null && sess.resources.Valid() && sess.resources == old(sess.resources)
      ensures old(sess.resources) != null && res.typ < |old(sess.resources.Held())|
      ensures res in old(sess.resources.Held())[res.typ] ==>
        && ret == OK
        && sess.resources.Held() == old(sess.resources.Held())[res.typ := RemoveFirst(old(sess.resources.Held())[res.typ], res)]
        && res.refcount == (old(res.refcount) + UINT_RANGE - 1) % UINT_RANGE
      ensures res !in old(sess.resources.Held())[res.typ] ==>
        ret == EINVAL && sess.resources.Held() == old(sess.resources.Held()) && res.refcount == old(res.refcount)
      ensures st == old(st) && Around(st, slot) && slot < sessions.running.Length && sessions.running[slot] == sess
    {
      hide *;
      FailuresAreNotOK();
      Parts();
      RegistryParts(st.live, st.info, st.pool);
      TableParts(st.table, st.spool);
      SessionAt(sess, slot);
      TouchedOnly(sess, res);
      sess.resources.Sizes();
      ghost var g, k;
      ret, g, k := SessUnregister(sess, res);
      if ret == OK {
        sess.resources.FirstGoneParts(res.typ, res, old(sess.resources.regs), old(sess.resources.Held()), g, k);
      }
      registry.StaysValid();
      sessions.StaysValid();
      SlotsStay(slot, {sess.resources});
      AroundIs(st, slot);
    }

    method Unregister(sess: Session, res: Resource, ghost slot: nat) returns (ret: int)
      requires Valid() && sessions.Runs(sess) && sess.id == slot + 1
      requires Runs.Legal(st, Runs.Unregister(slot, res))
      modifies this, Touched(sess, res), res`refcount
      ensures Valid() && Stepped(old(st), Runs.Unregister(slot, res), st)
      ensures ret == if HeldBy(old(st), slot, res) then OK else EINVAL
      ensures sess.resources != null && sess.resources == old(sess.resources) && res.typ < |old(sess.resources.Held())|
      ensures ret == OK <==> res in old(sess.resources.Held())[res.typ]
      ensures ret == OK ==> res.refcount == (old(res.refcount) + UINT_RANGE - 1) % UINT_RANGE
      ensures ret == OK ==>
        sess.resources.Held() == old(sess.resources.Held())[res.typ := RemoveFirst(old(sess.resources.Held())[res.typ], res)]
      ensures ret != OK ==> sess.resources.Held() == old(sess.resources.Held()) && res.refcount == old(res.refcount)
    {
      hide *;
      FailuresAreNotOK();
      ghost var c := Runs.Unregister(slot, res);
      Parts();
      RegistryParts(st.live, st.info, st.pool);
      SessionAt(sess, slot);
      UnregisterStep(st, slot, res);
      ResourceAt(res);
      TouchedOnly(sess, res);
      StepKeeps(st, c);
      SteppedIs(st, c);
      ghost var n := Runs.Step(st, c);
      InfoIs(st.info);
      ret := UnregisterAlone(sess, res, slot);
      AroundIs(st, slot);
      InfoIs(n.info);
      AroundIs(n, slot);
      SlotParts(n.table[slot], sess);
      Adopt(n, slot);
    }

    static lemma NewStep(st: State, res: Resource, typ: nat)
      requires Inv(st) && Runs.Legal(st, Runs.New(res, typ))
      ensures Shaped(st.pool) && res !in st.info
      ensures Runs.Step(st, Runs.New(res, typ)) ==
        if typ >= RES_MAX then st
        else if Get(st.pool).1 == 0 then st.(pool := Get(st.pool).0)
        else st.(live := st.live + [res], info := st.info[res := Info(Get(st.pool).1, typ, 0)], pool := Get(st.pool).0)
      ensures Get(st.pool).1 == 0 <==> st.pool.next >= MAX_RESOURCES
    {
      NewIdAgrees(Ids(st.live, st.info), st.pool);
    }

    method NewAlone(res: Resource, typ: nat, hasCleanup: bool) returns (ret: int)
      requires Valid() && res.Fresh()
      modifies registry`objs, registry`ids, registry.pool, registry.pool.ids
      modifies if |registry.live| == RES_MAX then registry.live[0].Nodes() else {}
      modifies res, res.entry
      ensures Shaped(old(st.pool)) && Around(st.(live := registry.objs, pool := registry.pool.View()), -1)
      ensures res.cleanups == old(res.cleanups)
      ensures typ >= RES_MAX ==>
        ret == EINVAL && registry.objs == old(st.live) && registry.pool.View() == old(st.pool) && unchanged(res)
      ensures typ < RES_MAX ==> registry.pool.View() == Get(old(st.pool)).0
      ensures typ < RES_MAX && old(st.pool).next >= MAX_RESOURCES ==>
        ret == EUSERS && registry.objs == old(st.live)
      ensures typ < RES_MAX && old(st.pool).next < MAX_RESOURCES ==>
        && ret == OK && registry.objs == old(st.live) + [res]
        && res.id == Get(old(st.pool)).1 && res.typ == typ && res.refcount == 0
        && res.hasCleanup == hasCleanup && res.id > 0
    {
      hide *;
      FailuresAreNotOK();
      Parts();
      ApartIs();
      RegistryParts(st.live, st.info, st.pool);
      TableParts(st.table, st.spool);
      registry.Owns();
      res.OwnsEntry();
      registry.PoolShape();
      ret := registry.ResourceNew(res, typ, hasCleanup);
      if typ < RES_MAX {
        registry.CreatedParts(old(registry.objs), old(registry.ids), old(st.pool), res, typ, hasCleanup, ret);
      }
      sessions.StaysValid();
      SlotsStay(-1, {registry, res});
      ApartIs();
      AroundIs(st.(live := registry.objs, pool := registry.pool.View()), -1);
    }

    method New(res: Resource, typ: nat, hasCleanup: bool) returns (ret: int)
      requires Valid() && res.Fresh() && Runs.Legal(st, Runs.New(res, typ))
      modifies this, registry`objs, registry`ids, registry.pool, registry.pool.ids
      modifies if |registry.live| == RES_MAX then registry.live[0].Nodes() else {}
      modifies res, res.entry
      ensures Valid() && Stepped(old(st), Runs.New(res, typ), st)
      ensures ret == if typ >= RES_MAX then EINVAL else if old(st.pool).next < MAX_RESOURCES then OK else EUSERS
      ensures ret == OK <==> res in st.info
      ensures registry.objs == if ret == OK then old(registry.objs) + [res] else old(registry.objs)
      ensures ret == OK ==> res.id > 0 && res.typ == typ && res.hasCleanup == hasCleanup && res.refcount == 0
      ensures res.cleanups == old(res.cleanups)
    {
      hide *;
      FailuresAreNotOK();
      ghost var c := Runs.New(res, typ);
      Parts();
      RegistryParts(st.live, st.info, st.pool);
      registry.Owns();
      NewStep(st, res, typ);
      StepKeeps(st, c);
      SteppedIs(st, c);
      ghost var n := Runs.Step(st, c);
      InfoIs(st.info);
      ret := NewAlone(res, typ, hasCleanup);
      InfoIs(n.info);
      AroundIs(st.(live := registry.objs, pool := registry.pool.View()), -1);
      AroundIs(n, -1);
      Adopt(n, -1);
    }

    static lemma DestroyStep(st: State, res: Resource)
      requires Inv(st) && Runs.Legal(st, Runs.Destroy(res))
      ensures res in st.info && res in st.live && Distinct(st.live)
      ensures st.info[res].refs == 0 ==> st.pool.next <= st.pool.max
      ensures var k := IndexOf(st.live, res); k < |st.live| && st.live[k] == res
      ensures st.info[res].refs != 0 ==> Runs.Step(st, Runs.Destroy(res)) == st
      ensures st.info[res].refs == 0 ==>
        && |st.pool.ids| == st.pool.max && !Ignored(st.pool, st.info[res].id) && InBounds(st.pool)
        && Runs.Step(st, Runs.Destroy(res)) == st.(live := Remove(st.live, IndexOf(st.live, res)),
             info := st.info - {res}, pool := Release(st.pool, st.info[res].id))
    {
      if st.info[res].refs == 0 {
        DestroyFits(st, res);
      }
    }

    method DestroyAlone(res: Resource, ghost k: nat) returns (ret: int)
      requires Valid() && k < |st.live| && st.live[k] == res
      requires res.refcount == 0 ==> st.pool.next <= st.pool.max
      modifies registry`objs, registry`ids, registry.pool, registry.pool.ids
      modifies if |registry.live| == RES_MAX then registry.live[0].Nodes() else {}
      modifies res`cleanups
      ensures ret == if res.refcount != 0 then EBUSY else OK
      ensures res.cleanups == old(res.cleanups) + if ret == OK && res.hasCleanup then 1 else 0
      ensures Around(st.(live := registry.objs, pool := registry.pool.View()), -1)
      ensures res.refcount != 0 ==> registry.objs == old(st.live) && registry.pool.View() == old(st.pool)
      ensures res.refcount == 0 ==>
        && |old(st.pool).ids| == old(st.pool).max && !Ignored(old(st.pool), res.id) && InBounds(old(st.pool))
        && registry.objs == Remove(old(st.live), k) && registry.pool.View() == Release(old(st.pool), res.id)
    {
      hide *;
      FailuresAreNotOK();
      Parts();
      ApartIs();
      RegistryParts(st.live, st.info, st.pool);
      TableParts(st.table, st.spool);
      registry.Owns();
      registry.PoolShape();
      registry.IdAt(k);
      ret := registry.ResourceDestroy(res, k);
      if ret == OK {
        registry.DestroyedParts(old(registry.objs), old(registry.ids), old(st.pool), res, k);
      }
      sessions.StaysValid();
      SlotsStay(-1, {registry});
      ApartIs();
      AroundIs(st.(live := registry.objs, pool := registry.pool.View()), -1);
    }

    method Destroy(res: Resource) returns (ret: int)
      requires Valid() && Runs.Legal(st, Runs.Destroy(res))
      modifies this, registry`objs, registry`ids, registry.pool, registry.pool.ids
      modifies if |registry.live| == RES_MAX then registry.live[0].Nodes() else {}
      modifies res`cleanups
      ensures Valid() && Stepped(old(st), Runs.Destroy(res), st)
      ensures ret == (if res in st.info then EBUSY else OK) == if old(res.refcount) != 0 then EBUSY else OK
      ensures ret != OK ==> registry.objs == old(registry.objs)
      ensures ret == OK ==> |registry.objs| == |old(registry.objs)| - 1 && res !in registry.objs
      ensures forall r: Resource :: r in old(registry.objs) && r != res ==> r in registry.objs
      ensures res.cleanups == old(res.cleanups) + if ret == OK && res.hasCleanup then 1 else 0
    {
      hide *;
      FailuresAreNotOK();
      ghost var c := Runs.Destroy(res);
      Parts();
      RegistryParts(st.live, st.info, st.pool);
      registry.Owns();
      DestroyStep(st, res);
      StepKeeps(st, c);
      SteppedIs(st, c);
      ghost var n := Runs.Step(st, c);
      InfoIs(st.info);
      RemoveDistinct(st.live, IndexOf(st.live, res));
      RemoveLength(st.live, IndexOf(st.live, res));
      ret := DestroyAlone(res, IndexOf(st.live, res));
      InfoIs(n.info);
      AroundIs(st.(live := registry.objs, pool := registry.pool.View()), -1);
      AroundIs(n, -1);
      Adopt(n, -1);
    }

    static lemma InitStep(st: State, sess: Session, ok: bool)
      requires Inv(st) && Runs.Legal(st, Runs.Init(sess, ok))
      ensures Shaped(st.spool) && |st.table| == MAX_SESSIONS
      ensures forall i :: 0 <= i < |st.table| && st.table[i].Running? ==> st.table[i].sess != sess
      ensures var (q, id) := Get(st.spool);
        && (id == 0 <==> st.spool.next >= MAX_SESSIONS)
        && (id != 0 ==> 1 <= id <= MAX_SESSIONS && Shaped(q) && InBounds(q))
        && Runs.Step(st, Runs.Init(sess, ok)) ==
          if id == 0 then st.(spool := q)
          else if !ok then st.(spool := Release(q, id))
          else st.(table := st.table[id - 1 := Running(sess, NoneHeld())], spool := q)
    {
      InitFits(st);
      GetSound(st.spool);
    }

    // A session that is in no slot is in no entry of the table.
    lemma NotInTable(sess: Session)
      requires Valid() && forall i :: 0 <= i < |st.table| && st.table[i].Running? ==> st.table[i].sess != sess
      ensures sess !in sessions.running[..] && |st.table| == MAX_SESSIONS == sessions.running.Length
    {
      hide Registry.Valid, SessionTable.Valid, SessionResources.Valid, Inv;
      forall i | 0 <= i < MAX_SESSIONS
        ensures sessions.running[i] != sess
      {
        assert SlotShows(st.table[i], sessions.running[i]);
      }
    }

    method InitAlone(sess: Session, flags: int, memOk: bool, tooLong: bool, mkdir: int) returns (ret: int)
      requires Valid() && sess !in sessions.running[..]
      modifies sessions.ids, sessions.ids.ids, sessions.running, sess
      ensures Shaped(old(st.spool))
      ensures ret == if old(st.spool).next >= MAX_SESSIONS then ESESS
                     else if !memOk then ENOMEM else if tooLong then ENAMETOOLONG else mkdir
      ensures ret == OK ==>
        && 1 <= sess.id <= |st.table| == sessions.running.Length && sessions.running[sess.id - 1] == sess
        && sess.id == Get(old(st.spool)).1 && sessions.ids.View() == Get(old(st.spool)).0
        && sess.resources != null && sess.resources.Valid() && sess.resources.regs == seq(RES_MAX, t => [])
        && Around(st.(spool := sessions.ids.View()), sess.id - 1)
      ensures ret == OK ==> sess.hint == flags && sess.id !in old(sessions.ids.live)
      ensures ret != OK ==> Around(st.(spool := sessions.ids.View()), -1)
      ensures ret != OK && old(st.spool).next >= MAX_SESSIONS ==> sessions.ids.View() == Get(old(st.spool)).0
      ensures ret != OK && old(st.spool).next < MAX_SESSIONS ==>
        && Shaped(Get(old(st.spool)).0) && InBounds(Get(old(st.spool)).0)
        && sessions.ids.View() == Release(Get(old(st.spool)).0, Get(old(st.spool)).1)
    {
      hide *;
      Parts();
      ApartIs();
      RegistryParts(st.live, st.info, st.pool);
      TableParts(st.table, st.spool);
      sessions.PoolShape();
      ListsDifferIs(sessions.running[..]);
      ret := sessions.SessInit(sess, flags, memOk, tooLong, mkdir);
      registry.StaysValid();
      ListsDifferIs(sessions.running[..]);
      ApartIs();
      if ret == OK {
        sessions.StartedParts(sess, flags, old(sessions.running[..]), old(st.spool));
        SlotsStay(sess.id - 1, {});
        AroundIs(st.(spool := sessions.ids.View()), sess.id - 1);
      } else {
        sessions.NotStartedParts(old(sessions.running[..]), old(st.spool));
        SlotsStay(-1, {});
        AroundIs(st.(spool := sessions.ids.View()), -1);
      }
    }

    method Init(sess: Session, flags: int, memOk: bool, tooLong: bool, mkdir: int) returns (ret: int)
      requires Valid() && Runs.Legal(st, Runs.Init(sess, memOk && !tooLong && mkdir == OK))
      modifies this, sessions.ids, sessions.ids.ids, sessions.running, sess
      ensures Valid() && Stepped(old(st), Runs.Init(sess, memOk && !tooLong && mkdir == OK), st)
      ensures ret == if old(st.spool).next >= MAX_SESSIONS then ESESS
                     else if !memOk then ENOMEM else if tooLong then ENAMETOOLONG else mkdir
      ensures ret == OK ==> sessions.Runs(sess) && sess.hint == flags && sess.id !in old(sessions.ids.live)
      ensures ret == OK ==> sess.resources != null && sess.resources.Held() == NoneHeld()
    {
      hide *;
      ghost var c := Runs.Init(sess, memOk && !tooLong && mkdir == OK);
      FailuresAreNotOK();
      Parts();
      RegistryParts(st.live, st.info, st.pool);
      InitStep(st, sess, memOk && !tooLong && mkdir == OK);
      NotInTable(sess);
      StepKeeps(st, c);
      SteppedIs(st, c);
      ghost var n := Runs.Step(st, c);
      InfoIs(st.info);
      ret := InitAlone(sess, flags, memOk, tooLong, mkdir);
      InfoIs(n.info);
      ghost var slot := if ret == OK then sess.id - 1 else -1;
      AroundIs(st.(spool := sessions.ids.View()), slot);
      AroundIs(n, slot);
      if ret == OK {
        NoneIsHeld(sess.resources);
        SlotParts(n.table[slot], sess);
        sessions.RunsIs(sess);
      }
      Adopt(n, slot);
    }

    static lemma NoneIsHeld(sr: SessionResources)
      requires sr.regs == seq(RES_MAX, t => [])
      ensures sr.Held() == NoneHeld()
    {
    }

    static lemma FreeStep(st: State, slot: nat)
      requires Inv(st) && Runs.Legal(st, Runs.Free(slot))
      ensures slot < |st.table| == MAX_SESSIONS && st.table[slot].Running?
      ensures st.spool.next <= MAX_SESSIONS && Shaped(st.spool) && InBounds(st.spool)
      ensures forall r: Resource :: r in st.info ==> SlotCount(st.table[slot], r) <= st.info[r].refs
      ensures Runs.Step(st, Runs.Free(slot)) == st.(
        table := st.table[slot := Idle], spool := Release(st.spool, slot + 1),
        info := map r | r in st.info :: st.info[r].(refs := st.info[r].refs - SlotCount(st.table[slot], r)))
    {
      FreeFits(st, slot);
    }

    // The counters of what a running session holds are large enough to be taken back.
    lemma CoveredHere(sess: Session, slot: nat)
      requires Valid() && sessions.Runs(sess) && sess.id == slot + 1 && Runs.Legal(st, Runs.Free(slot))
      ensures sess.resources != null && Covered(sess.resources.Held())
      ensures forall r: Resource :: r in Members(sess.resources.Held()) ==> r in st.info
      ensures forall r: Resource :: r in st.info && r !in Members(sess.resources.Held()) ==> SlotCount(st.table[slot], r) == 0
      ensures forall r: Resource :: r in st.info && r in Members(sess.resources.Held()) ==>
        SlotCount(st.table[slot], r) == Count(sess.resources.Held(), RES_MAX, r)
    {
      hide Registry.Valid, SessionTable.Valid, SessionResources.Valid, Total, TableInv;
      SessionAt(sess, slot);
      FreeFits(st, slot);
      var h := sess.resources.Held();
      assert Sturdy(st.table[slot].held, st.info);
      forall r: Resource | r in st.info && r !in Members(h)
        ensures SlotCount(st.table[slot], r) == 0
      {
        CountZero(h, |h|, r);
      }
    }

    static lemma OwnsAll(sr: SessionResources)
      requires sr.Valid()
      ensures forall e: Entry :: e in AllNodes(sr.registered, sr.regs) ==> e.ring.container == sr
    {
      hide ListHolds, SessionResources.Valid;
      forall e: Entry | e in AllNodes(sr.registered, sr.regs)
        ensures e.ring.container == sr
      {
        sr.Sizes();
        var t :| 0 <= t < |sr.registered| && t < |sr.regs| && e in NodesFor(sr.registered[t], sr.regs[t]);
        sr.Open(t);
        NodesAre(sr.registered[t], sr.regs[t]);
        sr.Owns(t);
      }
    }

    method FreeAlone(sess: Session, ghost slot: nat) returns (ret: int, ghost freed: seq<Registration>)
      requires Valid() && sessions.Runs(sess) && sess.id == slot + 1 && st.spool.next <= MAX_SESSIONS
      requires sess.resources != null && sess.resources.Valid() && Covered(sess.resources.Held())
      modifies sessions.ids, sessions.ids.ids, sessions.running
      modifies {sess, sess.resources} + AllNodes(sess.resources.registered, sess.resources.regs)
      modifies Members(sess.resources.Held())`refcount
      ensures ret == OK && st == old(st) && freed == Flat(old(sess.resources.regs), RES_MAX)
      ensures Shaped(st.spool) && !Ignored(st.spool, slot + 1) && InBounds(st.spool)
      ensures sessions.ids.View() == Release(st.spool, slot + 1)
      ensures slot < sessions.running.Length && sessions.running[slot] == null && sess.resources == null
      ensures Around(st.(spool := sessions.ids.View()), slot)
      ensures forall r: Resource :: r in old(Members(sess.resources.Held())) ==>
        r.refcount == old(r.refcount) - Count(old(sess.resources.Held()), RES_MAX, r)
    {
      hide *;
      FailuresAreNotOK();
      Parts();
      ApartIs();
      RegistryParts(st.live, st.info, st.pool);
      TableParts(st.table, st.spool);
      SessionAt(sess, slot);
      sessions.PoolShape();
      OwnsAll(sess.resources);
      ListsDifferIs(sessions.running[..]);
      MembersAllocated(sess.resources.Held());
      ret, freed := sessions.SessFree(sess);
      sessions.StoppedParts(sess, old(sessions.running[..]), old(st.spool));
      registry.StaysValid();
      SlotsStay(slot, {old(sess.resources)});
      ListsDifferIs(sessions.running[..]);
      ApartIs();
      AroundIs(st.(spool := sessions.ids.View()), slot);
    }

    method Free(sess: Session, ghost slot: nat) returns (ret: int, ghost freed: seq<Registration>)
      requires Valid() && sessions.Runs(sess) && sess.id == slot + 1 && Runs.Legal(st, Runs.Free(slot))
      requires sess.resources != null
      modifies this, sessions.ids, sessions.ids.ids, sessions.running
      modifies {sess, sess.resources} + AllNodes(sess.resources.registered, sess.resources.regs)
      modifies Members(sess.resources.Held())`refcount
      ensures Valid() && Stepped(old(st), Runs.Free(slot), st)
      ensures sess.resources == null && slot < sessions.running.Length && sessions.running[slot] == null
      ensures forall r: Resource :: r in old(Members(sess.resources.Held())) ==>
        r.refcount == old(r.refcount) - Count(old(sess.resources.Held()), RES_MAX, r)
      ensures ret == OK && freed == Flat(old(sess.resources.regs), RES_MAX)
    {
      hide *;
      ghost var c := Runs.Free(slot);
      Parts();
      RegistryParts(st.live, st.info, st.pool);
      SessionAt(sess, slot);
      FreeStep(st, slot);
      CoveredHere(sess, slot);
      StepKeeps(st, c);
      SteppedIs(st, c);
      ghost var n := Runs.Step(st, c);
      InfoIs(st.info);
      ret, freed := FreeAlone(sess, slot);
      InfoIs(n.info);
      AroundIs(st.(spool := sessions.ids.View()), slot);
      AroundIs(n, slot);
      SlotParts(n.table[slot], null);
      Adopt(n, slot);
    }

    // The final clean-up. What stays live is what the state says is in use; everything else has
    // been destroyed, its destructor run once. When all sessions have ended that is everything.
    method Cleanup() returns (ret: int)
      requires Valid() && st.pool.next <= st.pool.max
      modifies registry`objs, registry`ids, registry.pool, registry.pool.ids
      modifies if |registry.live| == RES_MAX then registry.live[0].Nodes() + (set i | 1 <= i < RES_MAX :: registry.live[i]) else {}
      modifies (set r | r in registry.objs)`cleanups
      ensures ret == OK && Inv(st) && st == old(st) && registry.objs == Filter(st.live, InUse(st))
      ensures forall r: Resource :: r in st.live ==> Registry.Swept(r, InUse(st), old(r.cleanups))
      ensures (forall i :: 0 <= i < |st.table| ==> st.table[i].Idle?) ==>
        && registry.objs == [] && registry.Blank()
        && forall r: Resource :: r in st.live ==> r.Fresh() && r.cleanups == old(r.cleanups) + if r.hasCleanup then 1 else 0
    {
      hide *;
      Parts();
      RegistryParts(st.live, st.info, st.pool);
      registry.PoolShape();
      BusyIsInUse();
      ret := registry.ResourcesCleanup();
      if forall i :: 0 <= i < |st.table| ==> st.table[i].Idle? {
        NothingInUse(st);
        registry.BlankAgain();
        Registry.SweptIs(InUse(st));
      }
    }

    lemma BusyIsInUse()
      requires Valid()
      ensures Inv(st) && InUse(st) == Registry.Busy(registry.objs)
    {
    }
  }
}
