// Sessions and the resources registered with them. VirtIO is off.
module Sessions {
  import opened Codes
  import opened Seqs
  import opened Lists
  import opened IdPools
  import opened Resources

  // A container that links a resource into one list of one session.
  class Registration {
    const res: Resource
    var entry: Entry

    constructor (res: Resource)
      ensures this.res == res && entry.container == this && entry.Unlinked() && fresh(entry)
    {
      this.res := res;
      entry := new Entry(null);
      new;
      entry := new Entry(this);
    }
  }

  // The list headed by `head` holds exactly the containers `gs`, in order.
  ghost predicate ListHolds(head: Entry, gs: seq<Registration>)
    reads head, head.items, gs
  {
    && head.IsRing()
    && |head.items| == |gs|
    && forall i :: 0 <= i < |gs| ==> head.items[i] == gs[i].entry && head.items[i].container == gs[i]
  }

  // The resources behind a list of containers.
  ghost function ResOf(gs: seq<Registration>): (rs: seq<Resource>)
    ensures |rs| == |gs| && forall i :: 0 <= i < |gs| ==> rs[i] == gs[i].res
  {
    if gs == [] then [] else ResOf(gs[..|gs| - 1]) + [gs[|gs| - 1].res]
  }

  lemma ListStart(head: Entry, gs: seq<Registration>)
    requires ListHolds(head, gs)
    ensures head.ring == head && head.next == FirstEntry(head, gs)
  {
  }

  // The cursor stands on the first container; its successor is the first of the rest.
  lemma ListCursor(head: Entry, gs: seq<Registration>)
    requires ListHolds(head, gs) && gs != []
    ensures gs[0].entry.container == gs[0] && gs[0].entry != head
    ensures gs[0].entry.next == FirstEntry(head, gs[1..])
  {
    head.RingAt(0);
  }

  ghost function FirstEntry(head: Entry, gs: seq<Registration>): Entry
    reads if gs == [] then {} else {gs[0]}
  {
    if gs == [] then head else gs[0].entry
  }

  lemma EntryOf(head: Entry, gs: seq<Registration>)
    ensures FirstEntry(head, gs) == if gs == [] then head else gs[0].entry
  {
  }

  lemma ListAt(head: Entry, gs: seq<Registration>, k: nat)
    requires ListHolds(head, gs) && k < |gs|
    ensures gs[k].entry.container == gs[k] && gs[k].entry != head && gs[k].entry.ring == head
    ensures gs[k].entry.next == if k + 1 < |gs| then gs[k + 1].entry else head
  {
    head.RingAt(k);
  }

  method AddRegistration(head: Entry, g: Registration, ghost gs: seq<Registration>)
    requires ListHolds(head, gs) && g.entry.Unlinked() && g.entry.container == g && g.entry != head
    modifies head.Nodes(), g.entry
    ensures ListHolds(head, gs + [g]) && head.Nodes() == old(head.Nodes()) + {g.entry}
  {
    hide Entry.IsRing;
    head.AddTail(g.entry);
  }

  method DropRegistration(head: Entry, g: Registration, ghost gs: seq<Registration>, ghost k: nat)
    requires ListHolds(head, gs) && k < |gs| && gs[k] == g
    modifies head.Nodes()
    ensures ListHolds(head, Remove(gs, k)) && g.entry.Lone() && head.Nodes() <= old(head.Nodes())
  {
    hide Entry.IsRing, Remove;
    ListAt(head, gs, k);
    ghost var items := head.items;
    g.entry.Unlink(k);
    RemoveMembers(items, k);
    RemoveHeld(items, gs, k);
  }

  lemma RemoveHeld(items: seq<Entry>, gs: seq<Registration>, k: nat)
    requires |items| == |gs| && k < |gs|
    requires forall i :: 0 <= i < |gs| ==> items[i] == gs[i].entry && items[i].container == gs[i]
    ensures var r := Remove(gs, k);
      |Remove(items, k)| == |r|
      && forall i :: 0 <= i < |r| ==> Remove(items, k)[i] == r[i].entry && Remove(items, k)[i].container == r[i]
  {
  }

  // First container in list order that holds `res`.
  method FindRegistration(head: Entry, res: Resource, ghost gs: seq<Registration>) returns (g: Registration?, ghost k: nat)
    requires ListHolds(head, gs)
    ensures g == null <==> res !in ResOf(gs)
    ensures g != null ==> k < |gs| && gs[k] == g && g.res == res && res !in ResOf(gs)[..k]
  {
    hide Entry.IsRing;
    k := 0;
    ListStart(head, gs);
    var iter := head.next;
    while iter != head
      invariant k <= |gs| && iter == (if k < |gs| then gs[k].entry else head)
      invariant forall j :: 0 <= j < k ==> gs[j].res != res
      decreases |gs| - k
    {
      ListAt(head, gs, k);
      g := iter.container as Registration;
      if g.res == res {
        return;
      }
      iter := iter.next;
      k := k + 1;
    }
    if k < |gs| {
      ListAt(head, gs, k);
    }
    g := null;
  }

  lemma ResOfRemove(gs: seq<Registration>, k: nat)
    requires k < |gs|
    ensures ResOf(Remove(gs, k)) == Remove(ResOf(gs), k)
  {
    hide ResOf, Remove;
    var a, b := ResOf(Remove(gs, k)), Remove(ResOf(gs), k);
    RemoveLength(gs, k);
    RemoveLength(ResOf(gs), k);
    forall i | 0 <= i < |a|
      ensures a[i] == b[i]
    {
      RemoveIndex(gs, k, i);
      RemoveIndex(ResOf(gs), k, i);
    }
  }

  lemma ResOfAppend(gs: seq<Registration>, g: Registration)
    ensures ResOf(gs + [g]) == ResOf(gs) + [g.res]
  {
  }

  class SessionResources {
    // One list head per resource type.
    var registered: seq<Entry>
    ghost var regs: seq<seq<Registration>>

    ghost predicate Valid()
      reads this, registered
      reads set t, i | 0 <= t < |registered| && 0 <= i < |registered[t].items| :: registered[t].items[i]
      reads set t, i | 0 <= t < |regs| && 0 <= i < |regs[t]| :: regs[t][i]
    {
      && Shape()
      && forall t :: 0 <= t < RES_MAX ==> ListHolds(registered[t], regs[t])
    }

    ghost predicate Shape()
      reads this
    {
      && |registered| == |regs| == RES_MAX
      && (forall t :: 0 <= t < RES_MAX ==> registered[t].container == this)
      && (forall t, u :: 0 <= t < u < RES_MAX ==> registered[t] != registered[u])
    }

    // What is registered, type by type.
    ghost function Held(): (h: seq<seq<Resource>>)
      reads this
      ensures |h| == |regs| && forall t :: 0 <= t < |h| ==> h[t] == ResOf(regs[t])
    {
      seq(|regs|, t requires 0 <= t < |regs| reads this => ResOf(regs[t]))
    }

    constructor ()
      ensures Valid() && Held() == seq(RES_MAX, t => [])
      ensures fresh(registered)
    {
      registered, regs := [], seq(RES_MAX, t => []);
      new;
      var i := 0;
      while i < RES_MAX
        invariant i <= RES_MAX && |registered| == i && fresh(registered)
        invariant regs == seq(RES_MAX, t => [])
        invariant forall j, k :: 0 <= j < k < i ==> registered[j] != registered[k]
        invariant forall j :: 0 <= j < i ==> registered[j].container == this && ListHolds(registered[j], [])
      {
        var head := new Entry(this);
        registered := registered + [head];
        i := i + 1;
      }
    }

    // Changing one list leaves the others as they are.
    twostate lemma OthersHold(t: nat)
      requires old(Valid()) && registered == old(registered) && Shape()
      requires t < RES_MAX && regs == old(regs)[t := regs[t]]
      requires ListHolds(registered[t], regs[t])
      requires forall u :: 0 <= u < RES_MAX && u != t ==> unchanged(registered[u]) && unchanged(registered[u].items)
      requires forall u :: 0 <= u < RES_MAX && u != t ==> unchanged(regs[u])
      ensures Valid()
    {
    }

    // Every entry of these lists is in a ring whose head knows this object.
    lemma Owns(t: nat)
      requires Valid() && t < RES_MAX
      ensures |registered| == RES_MAX
      ensures forall e :: e in registered[t].Nodes() ==> e.ring.container == this
    {
      assert ListHolds(registered[t], regs[t]);
      registered[t].RingMembers();
    }

    // Nothing but changes to the entries of these lists can disturb them.
    twostate lemma StaysValid()
      requires old(Valid()) && unchanged(this)
      requires forall e: Entry :: old(allocated(e)) && old(e.ring.container) == this ==> unchanged(e)
      requires forall g: Registration :: old(allocated(g)) ==> g.entry == old(g.entry)
      ensures Valid() && Held() == old(Held())
    {
      hide ListHolds, ResOf;
      forall t | 0 <= t < RES_MAX
        ensures ListHolds(registered[t], regs[t])
      {
        ListStays(t);
      }
    }

    twostate lemma ListStays(t: nat)
      requires old(Valid()) && unchanged(this) && t < RES_MAX
      requires forall e: Entry :: old(allocated(e)) && old(e.ring.container) == this ==> unchanged(e)
      requires forall g: Registration :: old(allocated(g)) ==> g.entry == old(g.entry)
      ensures ListHolds(registered[t], regs[t])
    {
      var head := registered[t];
      assert old(ListHolds(head, regs[t]));
      assert old(head.ring) == head && old(head.ring.container) == this;
      assert unchanged(head);
      var items := head.items;
      forall i | 0 <= i < |items|
        ensures unchanged(items[i])
      {
        assert items[i] in items && old(items[i].ring) == head;
      }
    }

    lemma Sizes()
      requires Valid()
      ensures |registered| == |regs| == RES_MAX
    {
    }

    lemma Open(t: nat)
      requires Valid() && t < RES_MAX
      ensures |registered| == |regs| == RES_MAX && ListHolds(registered[t], regs[t])
    {
    }

    // Nodes of one list are in no other list.
    lemma ListsApart(t: nat, u: nat)
      requires Valid() && t < RES_MAX && u < RES_MAX && t != u
      ensures registered[u] !in registered[t].Nodes()
      ensures forall e :: e in registered[u].items ==> e !in registered[t].Nodes()
    {
      registered[t].RingMembers();
      registered[u].RingMembers();
    }

    method Add(t: nat, g: Registration)
      requires Valid() && t < RES_MAX && g.entry.Unlinked() && g.entry.container == g
      modifies this`regs, registered[t].Nodes(), g.entry
      ensures Valid() && regs == old(regs)[t := old(regs)[t] + [g]]
      ensures Held() == old(Held())[t := old(Held())[t] + [g.res]]
      ensures registered[t].Nodes() == old(registered[t].Nodes()) + {g.entry}
    {
      hide ListHolds, Entry.IsRing, ResOf;
      forall u | 0 <= u < RES_MAX && u != t
        ensures registered[u] !in registered[t].Nodes() && registered[u] != g.entry
        ensures forall e :: e in registered[u].items ==> e !in registered[t].Nodes() && e != g.entry
      {
        ListsApart(t, u);
        assert ListHolds(registered[u], regs[u]);
        EntryNotIn(registered[u], regs[u], g.entry);
      }
      ghost var gs := regs[t];
      AddRegistration(registered[t], g, gs);
      regs := regs[t := gs + [g]];
      ResOfAppend(gs, g);
      OthersHold(t);
    }

    lemma EntryNotIn(head: Entry, gs: seq<Registration>, entry: Entry)
      requires ListHolds(head, gs) && entry.Unlinked()
      ensures entry !in head.items
    {
      head.RingMembers();
    }

    method Drop(t: nat, g: Registration, ghost k: nat)
      requires Valid() && t < RES_MAX && k < |regs[t]| && regs[t][k] == g
      modifies this`regs, registered[t].Nodes()
      ensures Valid() && regs == old(regs)[t := Remove(old(regs)[t], k)]
      ensures Held() == old(Held())[t := Remove(old(Held())[t], k)]
      ensures registered[t].Nodes() <= old(registered[t].Nodes()) && g.entry.Lone()
    {
      hide ListHolds, Entry.IsRing, ResOf, Remove;
      forall u | 0 <= u < RES_MAX && u != t
        ensures registered[u] !in registered[t].Nodes()
        ensures forall e :: e in registered[u].items ==> e !in registered[t].Nodes()
      {
        ListsApart(t, u);
      }
      ghost var gs := regs[t];
      DropRegistration(registered[t], g, gs, k);
      regs := regs[t := Remove(gs, k)];
      ResOfRemove(gs, k);
      OthersHold(t);
    }

    // One more container for `res`, last in the list of its type.
    ghost predicate Registered(res: Resource, held0: seq<seq<Resource>>, count0: nat)
      reads this, res
    {
      && res.typ < |held0|
      && Held() == held0[res.typ := held0[res.typ] + [res]]
      && res.refcount == (count0 + 1) % UINT_RANGE
    }

    method Register(res: Resource)
      requires Valid() && res.typ < RES_MAX && res.refcount < UINT_RANGE
      modifies this`regs, registered[res.typ].Nodes(), res`refcount
      ensures Valid() && Registered(res, old(Held()), old(res.refcount))
      ensures fresh(registered[res.typ].Nodes() - old(registered[res.typ].Nodes()))
    {
      hide ListHolds, ResOf;
      var container := new Registration(res);
      Add(res.typ, container);
      ResourceRefcountInc(res);
    }

    lemma RegisteredParts(res: Resource, held0: seq<seq<Resource>>, count0: nat)
      requires Registered(res, held0, count0)
      ensures res.typ < |held0|
      ensures Held() == held0[res.typ := held0[res.typ] + [res]]
      ensures res.refcount == (count0 + 1) % UINT_RANGE
    {
    }

    // The container k-th in list t, the first for `res`, is gone; it was `freed`.
    ghost predicate FirstGone(t: nat, res: Resource, regs0: seq<seq<Registration>>, held0: seq<seq<Resource>>,
                              freed: Registration?, k: nat)
      reads this
    {
      && t < |regs0| && t < |held0| && k < |regs0[t]|
      && freed == regs0[t][k]
      && regs == regs0[t := Remove(regs0[t], k)]
      && k < |held0[t]| && held0[t][k] == res && res !in held0[t][..k]
      && Held() == held0[t := RemoveFirst(held0[t], res)]
    }

    lemma FirstGoneParts(t: nat, res: Resource, regs0: seq<seq<Registration>>, held0: seq<seq<Resource>>,
                         freed: Registration?, k: nat)
      requires FirstGone(t, res, regs0, held0, freed, k)
      ensures t < |held0| && Held() == held0[t := RemoveFirst(held0[t], res)]
      ensures k < |held0[t]| && held0[t][k] == res && res !in held0[t][..k]
      ensures Held() == held0[t := held0[t][..k] + held0[t][k + 1..]]
    {
      RemoveFirstAt(held0[t], res, k);
    }

    // Unlink and free the first container for `res`, if there is one.
    method UnlinkFirst(t: nat, res: Resource) returns (ret: int, ghost freed: Registration?, ghost k: nat)
      requires Valid() && t < RES_MAX
      modifies this`regs, registered[t].Nodes()
      ensures Valid() && registered[t].Nodes() <= old(registered[t].Nodes())
      ensures ret == if res in old(Held())[t] then OK else EINVAL
      ensures ret == OK ==> FirstGone(t, res, old(regs), old(Held()), freed, k)
      ensures ret != OK ==> unchanged(this) && unchanged(registered[t].Nodes())
    {
      hide ListHolds, Remove, RemoveFirst, ResOf;
      var container;
      container, k := FindRegistration(registered[t], res, regs[t]);
      freed := container;
      if container == null {
        return EINVAL, freed, k;
      }
      RemoveFirstAt(Held()[t], res, k);
      Drop(t, container, k);
      return OK, freed, k;
    }

    method Unregister(res: Resource) returns (ret: int, ghost freed: Registration?, ghost k: nat)
      requires Valid() && res.typ < RES_MAX && res.refcount < UINT_RANGE
      modifies this`regs, registered[res.typ].Nodes(), res`refcount
      ensures Valid() && registered[res.typ].Nodes() <= old(registered[res.typ].Nodes())
      ensures ret == if res in old(Held())[res.typ] then OK else EINVAL
      ensures ret == OK ==> FirstGone(res.typ, res, old(regs), old(Held()), freed, k)
      ensures ret == OK ==> res.refcount == (old(res.refcount) + UINT_RANGE - 1) % UINT_RANGE
      ensures ret != OK ==> unchanged(this) && unchanged(res) && unchanged(registered[res.typ].Nodes())
    {
      hide ListHolds, FirstGone;
      ret, freed, k := UnlinkFirst(res.typ, res);
      if ret == OK {
        ResourceRefcountDec(res);
      }
    }
  }

  class Session {
    var id: int
    var hint: int
    var resources: SessionResources?

    constructor ()
      ensures resources == null
    {
      id, hint, resources := 0, 0, null;
    }
  }

  // What registering or unregistering may touch.
  ghost function Touched(sess: Session?, res: Resource?): set<object>
    reads sess, if sess == null then null else sess.resources, res
    reads if sess == null || sess.resources == null then [] else sess.resources.registered
  {
    if sess == null || sess.resources == null || res == null || res.typ >= |sess.resources.registered| then {}
    else {sess.resources} + sess.resources.registered[res.typ].Nodes()
  }

  method SessRegister(sess: Session?, res: Resource?, memOk: bool) returns (ret: int)
    requires sess != null && sess.resources != null ==> sess.resources.Valid()
    requires res != null ==> res.refcount < UINT_RANGE
    modifies Touched(sess, res)
    modifies if res == null then {} else {res}`refcount
    ensures ret == if sess == null || sess.resources == null || res == null || res.typ >= RES_MAX then EINVAL
                   else if !memOk then ENOMEM else OK
    ensures ret != OK ==> unchanged(old(Touched(sess, res))) && (res != null ==> unchanged(res))
    ensures ret == OK ==> sess.resources.Valid() && sess.resources.registered == old(sess.resources.registered)
    ensures ret == OK ==>
      sess.resources.Registered(res, old(sess.resources.Held()), old(res.refcount))
    ensures ret == OK ==> res.typ < |old(sess.resources.Held())| && var t, held := res.typ, old(sess.resources.Held());
      && sess.resources.Held() == held[t := held[t] + [res]]
      && res.refcount == (old(res.refcount) + 1) % 0x1_0000_0000
  {
    if sess == null || sess.resources == null || res == null || res.typ >= RES_MAX {
      return EINVAL;
    }
    if !memOk {
      return ENOMEM;
    }
    hide SessionResources.Registered, ListHolds;
    sess.resources.Register(res);
    return OK;
  }

  // The caller's session must have been initialised: the code reads its lists unchecked.
  method SessUnregister(sess: Session?, res: Resource?)
    returns (ret: int, ghost freed: Registration?, ghost k: nat)
    requires sess != null ==> sess.resources != null && sess.resources.Valid()
    requires res != null ==> res.refcount < UINT_RANGE
    modifies Touched(sess, res)
    modifies if res == null then {} else {res}`refcount
    ensures sess == null || res == null || res.typ >= RES_MAX ==> ret == EINVAL
    ensures sess != null && res != null && res.typ < RES_MAX ==>
      && sess.resources.Valid() && sess.resources.registered == old(sess.resources.registered)
      && sess.resources.registered[res.typ].Nodes() <= old(sess.resources.registered[res.typ].Nodes())
      && ret == if res in old(sess.resources.Held())[res.typ] then OK else EINVAL
    ensures ret != OK ==> unchanged(old(Touched(sess, res))) && (res != null ==> unchanged(res))
    ensures ret == OK ==>
      && sess.resources.FirstGone(res.typ, res, old(sess.resources.regs), old(sess.resources.Held()), freed, k)
      && res.refcount == (old(res.refcount) + UINT_RANGE - 1) % UINT_RANGE
    ensures ret == OK ==> res.typ < |old(sess.resources.Held())| && var t, held := res.typ, old(sess.resources.Held());
      && k < |held[t]| && held[t][k] == res && res !in held[t][..k]
      && sess.resources.Held() == held[t := held[t][..k] + held[t][k + 1..]]
  {
    if sess == null || res == null || res.typ >= RES_MAX {
      return EINVAL, null, 0;
    }
    hide SessionResources.FirstGone, SessionResources.Valid, SessionResources.Held, Entry.Nodes;
    ret, freed, k := sess.resources.Unregister(res);
    if ret == OK {
      sess.resources.FirstGoneParts(res.typ, res, old(sess.resources.regs), old(sess.resources.Held()), freed, k);
    }
  }

  method SessHasResource(sess: Session, res: Resource) returns (b: bool)
    requires sess.resources != null && sess.resources.Valid() && res.typ < RES_MAX
    ensures b <==> res in sess.resources.Held()[res.typ]
  {
    var container, k := FindRegistration(sess.resources.registered[res.typ], res, sess.resources.regs[res.typ]);
    return container != null;
  }

  // How often r is registered in the first n lists.
  function Count(h: seq<seq<Resource>>, n: nat, r: Resource): nat
    requires n <= |h|
  {
    if n == 0 then 0 else Count(h, n - 1, r) + Times(h[n - 1], r)
  }

  ghost function Members(h: seq<seq<Resource>>): set<Resource> {
    set t, i | 0 <= t < |h| && 0 <= i < |h[t]| :: h[t][i]
  }

  // The registered resources have the type of their list, and their counters cover them.
  ghost predicate Covered(h: seq<seq<Resource>>)
    reads Members(h)`typ, Members(h)`refcount
  {
    && (forall t, r: Resource :: 0 <= t < |h| && r in h[t] ==> r in Members(h) && r.typ == t)
    && (forall r: Resource :: r in Members(h) ==> Count(h, |h|, r) <= r.refcount < UINT_RANGE)
  }

  lemma FirstOfRest(gs: seq<Registration>)
    requires gs != []
    ensures Remove(gs, 0) == gs[1..]
    ensures ResOf(gs)[0] == gs[0].res
    ensures ResOf(gs[1..]) == ResOf(gs)[1..] && forall r: Resource :: r in ResOf(gs[1..]) ==> r in ResOf(gs)
    ensures forall r: Resource :: Times(ResOf(gs), r) == Times(ResOf(gs[1..]), r) + if r == gs[0].res then 1 else 0
  {
    var rs := ResOf(gs);
    ResOfRemove(gs, 0);
    assert Remove(gs, 0) == gs[1..] && Remove(rs, 0) == rs[1..];
  }

  // Unregistering by the resource of the first container removes that container.
  method DrainTurn(sess: Session, t: nat, g: Registration, ghost rest: seq<Registration>) returns (ghost freed: Registration)
    requires sess.resources != null && sess.resources.Valid() && t < RES_MAX
    requires sess.resources.regs[t] == rest && rest != [] && rest[0] == g
    requires g.res.typ == t && 0 < g.res.refcount < UINT_RANGE
    modifies sess.resources, sess.resources.registered[t].Nodes(), g.res`refcount
    ensures sess.resources.Valid() && sess.resources.registered == old(sess.resources.registered)
    ensures sess.resources.regs == old(sess.resources.regs)[t := rest[1..]]
    ensures freed == g && g.res.refcount == old(g.res.refcount) - 1
    ensures sess.resources.registered[t].Nodes() <= old(sess.resources.registered[t].Nodes())
  {
    hide SessionResources.Valid, Remove, ResOf;
    FirstOfRest(rest);
    sess.resources.Open(t);
    var ret, f, k := SessUnregister(sess, g.res);
    assert k == 0;
    return f;
  }

  // Drain list t: each call goes by the resource behind the cursor, and it is the container
  // under the cursor that it removes.
  method DrainList(sess: Session, t: nat) returns (ghost freed: seq<Registration>)
    requires sess.resources != null && sess.resources.Valid() && t < RES_MAX
    requires forall r: Resource :: r in sess.resources.Held()[t] ==>
      r.typ == t && Times(sess.resources.Held()[t], r) <= r.refcount < UINT_RANGE
    modifies sess.resources, sess.resources.registered[t].Nodes()
    modifies (set r: Resource | r in sess.resources.Held()[t])`refcount
    ensures sess.resources.Valid() && sess.resources.registered == old(sess.resources.registered)
    ensures sess.resources.regs == old(sess.resources.regs)[t := []]
    ensures freed == old(sess.resources.regs)[t]
    ensures forall r: Resource :: r in old(sess.resources.Held())[t] ==>
      r.refcount == old(r.refcount) - Times(old(sess.resources.Held())[t], r)
    ensures sess.resources.registered[t].Nodes() <= old(sess.resources.registered[t].Nodes())
  {
    hide *;
    var sr := sess.resources;
    sr.Open(t);
    ghost var was, rest := sr.regs[t], sr.regs[t];
    ghost var h := ResOf(was);
    WithinSelf(h);
    freed := [];
    SplitEnds(was, was);
    ListStart(sr.registered[t], rest);
    var iter := sr.registered[t].next;
    var tmp := iter.next;
    while iter != sr.registered[t]
      invariant sr.Valid() && sr.registered == old(sr.registered) && |sr.registered| == |sr.regs| == RES_MAX
      invariant sr.regs == old(sr.regs)[t := rest] && Split(was, freed, rest)
      invariant sr.registered[t].Nodes() <= old(sr.registered[t].Nodes())
      invariant iter == FirstEntry(sr.registered[t], rest)
      invariant tmp == iter.next
      invariant Within(ResOf(rest), h)
      invariant forall r: Resource :: r in h ==>
        r.refcount == old(r.refcount) - Times(h, r) + Times(ResOf(rest), r)
      decreases |rest|
    {
      sr.Open(t);
      EntryOf(sr.registered[t], rest);
      ListCursor(sr.registered[t], rest);
      FirstOfRest(rest);
      SplitRemove(was, freed, rest);
      var g := iter.container as Registration;
      WithinFirst(rest, h);
      ghost var f := DrainTurn(sess, t, g, rest);
      FirstOfRest(rest);
      freed := freed + [f];
      rest := rest[1..];
      iter := tmp;
      sr.Open(t);
      ListStart(sr.registered[t], rest);
      tmp := tmp.next;
    }
    sr.Open(t);
    EntryOf(sr.registered[t], rest);
    if rest != [] {
      ListCursor(sr.registered[t], rest);
    }
    NothingLeft();
    SplitEnds(was, freed);
  }

  // No element occurs in s more often than in t.
  ghost predicate Within(s: seq<Resource>, t: seq<Resource>) {
    forall r: Resource :: r in s ==> Times(s, r) <= Times(t, r)
  }

  lemma WithinSelf(s: seq<Resource>)
    ensures Within(s, s)
  {
  }

  lemma WithinFirst(gs: seq<Registration>, h: seq<Resource>)
    requires gs != [] && Within(ResOf(gs), h)
    ensures gs[0].res in h && 0 < Times(ResOf(gs), gs[0].res) <= Times(h, gs[0].res)
    ensures Within(ResOf(gs[1..]), h)
  {
    FirstOfRest(gs);
    TimesIn(ResOf(gs), gs[0].res);
    TimesIn(h, gs[0].res);
  }

  lemma NothingLeft()
    ensures ResOf([]) == [] && forall r: Resource :: Times(ResOf([]), r) == 0
  {
  }

  lemma {:induction false} CountMonotone(h: seq<seq<Resource>>, m: nat, n: nat, r: Resource)
    requires m <= n <= |h|
    ensures Count(h, m, r) <= Count(h, n, r)
  {
    if m < n {
      CountMonotone(h, m, n - 1, r);
    }
  }

  function Flat<T>(s: seq<seq<T>>, n: nat): seq<T>
    requires n <= |s|
  {
    if n == 0 then [] else Flat(s, n - 1) + s[n - 1]
  }

  // The nodes of a list are its head and the entries of its containers.
  ghost function NodesFor(head: Entry, gs: seq<Registration>): set<Entry>
    reads set g | g in gs
  {
    {head} + set g | g in gs :: g.entry
  }

  lemma NodesAre(head: Entry, gs: seq<Registration>)
    requires ListHolds(head, gs)
    ensures head.Nodes() == NodesFor(head, gs)
  {
    forall e | e in head.items
      ensures e in NodesFor(head, gs)
    {
      var i :| 0 <= i < |head.items| && head.items[i] == e;
      assert gs[i] in gs;
    }
    forall g | g in gs
      ensures g.entry in head.items
    {
      var i :| 0 <= i < |gs| && gs[i] == g;
      assert head.items[i] in head.items;
    }
  }

  // The nodes of all lists of a session.
  ghost function AllNodes(heads: seq<Entry>, regs: seq<seq<Registration>>): set<Entry>
    reads set t, i | 0 <= t < |regs| && 0 <= i < |regs[t]| :: regs[t][i]
  {
    set t, e | 0 <= t < |heads| && t < |regs| && e in NodesFor(heads[t], regs[t]) :: e
  }

  lemma NodesShrink(heads: seq<Entry>, regs: seq<seq<Registration>>, t: nat)
    requires t < |regs|
    ensures AllNodes(heads, regs[t := []]) <= AllNodes(heads, regs)
  {
    var less := regs[t := []];
    forall e | e in AllNodes(heads, less)
      ensures e in AllNodes(heads, regs)
    {
      var u :| 0 <= u < |heads| && u < |less| && e in NodesFor(heads[u], less[u]);
      assert e in NodesFor(heads[u], regs[u]);
    }
  }

  lemma NodesWithin(sr: SessionResources, t: nat)
    requires sr.Valid() && t < RES_MAX
    ensures |sr.registered| == RES_MAX
    ensures sr.registered[t].Nodes() <= AllNodes(sr.registered, sr.regs)
  {
    hide ListHolds, NodesFor;
    NodesAre(sr.registered[t], sr.regs[t]);
  }

  // Unregister everything the session holds. Every container is freed once, list by list in
  // order, and each resource loses as many references as it had containers here.
  method CleanupSessionResources(sess: Session?) returns (ret: int, ghost freed: seq<Registration>)
    requires sess != null && sess.resources != null ==>
      sess.resources.Valid() && Covered(sess.resources.Held())
    modifies if sess == null || sess.resources == null then {} else {sess, sess.resources} + AllNodes(sess.resources.registered, sess.resources.regs)
    modifies (if sess == null || sess.resources == null then {} else Members(sess.resources.Held()))`refcount
    ensures ret == if sess == null || old(sess.resources) == null then EINVAL else OK
    ensures ret == OK ==> sess.resources == null && sess.id == old(sess.id) && sess.hint == old(sess.hint)
    ensures ret == OK ==> freed == Flat(old(sess.resources.regs), RES_MAX)
    ensures ret == OK ==> forall r: Resource :: r in old(Members(sess.resources.Held())) ==>
      r.refcount == old(r.refcount) - Count(old(sess.resources.Held()), RES_MAX, r)
  {
    freed := [];
    if sess == null || sess.resources == null {
      return EINVAL, freed;
    }
    ghost var f := DrainAll(sess);
    sess.resources := null;
    return OK, f;
  }

  method DrainAll(sess: Session) returns (ghost freed: seq<Registration>)
    requires sess.resources != null && sess.resources.Valid() && Covered(sess.resources.Held())
    modifies sess.resources, AllNodes(sess.resources.registered, sess.resources.regs)
    modifies Members(sess.resources.Held())`refcount
    ensures |old(sess.resources.regs)| == |old(sess.resources.Held())| == RES_MAX
    ensures sess.resources.Valid() && forall t :: 0 <= t < RES_MAX ==> sess.resources.regs[t] == []
    ensures freed == Flat(old(sess.resources.regs), RES_MAX)
    ensures forall r: Resource :: r in old(Members(sess.resources.Held())) ==>
      r.refcount == old(r.refcount) - Count(old(sess.resources.Held()), RES_MAX, r)
  {
    hide *;
    var sr := sess.resources;
    sr.Sizes();
    ghost var h := sr.Held();
    ghost var ms := Members(h);
    MembersAllocated(h);
    CoveredTypes(h);
    CoveredCounts(h);
    CountNone(h);
    freed := [];
    var i := 0;
    while i < RES_MAX
      invariant i <= RES_MAX && sess.resources == sr && sr.Valid()
      invariant sr.registered == old(sr.registered) && |sr.registered| == |sr.regs| == RES_MAX
      invariant AllNodes(sr.registered, sr.regs) <= old(AllNodes(sr.registered, sr.regs))
      invariant forall t :: 0 <= t < RES_MAX ==> sr.regs[t] == if t < i then [] else old(sr.regs)[t]
      invariant freed == Flat(old(sr.regs), i)
      invariant forall r: Resource :: r in ms ==>
        old(allocated(r)) && r.refcount == old(r.refcount) - Count(h, i, r)
    {
      sr.Open(i);
      NodesWithin(sr, i);
      NodesShrink(sr.registered, sr.regs, i);
      forall r: Resource | r in h[i]
        ensures r.typ == i && Times(h[i], r) <= r.refcount < UINT_RANGE
      {
        CountMonotone(h, i + 1, RES_MAX, r);
        CountNext(h, i, r);
      }
      label Before:
      ghost var f := DrainList(sess, i);
      forall r: Resource | r in ms && old(allocated(r))
        ensures r.refcount == old(r.refcount) - Count(h, i + 1, r)
      {
        CountNext(h, i, r);
        TimesIn(h[i], r);
        assert r.refcount == old@Before(r.refcount) - Times(h[i], r);
      }
      FlatNext(old(sr.regs), i);
      freed := freed + f;
      i := i + 1;
    }
  }

  lemma CoveredTypes(h: seq<seq<Resource>>)
    requires Covered(h)
    ensures forall t, r: Resource :: 0 <= t < |h| && r in h[t] ==> r in Members(h) && r.typ == t
  {
    hide Count, Members;
  }

  lemma CoveredCounts(h: seq<seq<Resource>>)
    requires Covered(h)
    ensures forall r: Resource :: r in Members(h) ==> Count(h, |h|, r) <= r.refcount < UINT_RANGE
  {
    hide Count, Members;
  }

  lemma MembersAllocated(h: seq<seq<Resource>>)
    ensures forall r: Resource :: r in Members(h) ==> allocated(r)
  {
  }

  lemma CountNone(h: seq<seq<Resource>>)
    ensures forall r: Resource :: Count(h, 0, r) == 0
    ensures forall s: seq<seq<Registration>> :: Flat(s, 0) == []
  {
  }

  lemma CountNext(h: seq<seq<Resource>>, n: nat, r: Resource)
    requires n < |h|
    ensures Count(h, n + 1, r) == Count(h, n, r) + Times(h[n], r)
  {
  }

  lemma FlatNext(s: seq<seq<Registration>>, n: nat)
    requires n < |s|
    ensures Flat(s, n + 1) == Flat(s, n) + s[n]
  {
  }
}
