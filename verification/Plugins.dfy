// The plugin registry on the heap. An operation is linked twice: in the list of its owner and
// in the list of its type. Every call carries out one transition of module PluginRuns.
module Plugins {
  import opened Codes
  import opened Seqs
  import opened Lists
  import opened PluginRuns
  import opened PluginHistory

  // The list of one type holds the operations `os`, in order.
  ghost predicate FuncRing(head: Entry, os: seq<Op>)
    reads head, head.items, os
  {
    && head.IsRing() && |head.items| == |os|
    && forall i :: 0 <= i < |os| ==> head.items[i] == os[i].funcEntry && os[i].Made()
  }

  // The list of one plugin holds the operations `os`, in order.
  ghost predicate OwnRing(p: Plugin, os: seq<Op>)
    reads p, p.ops, p.ops.items, os
  {
    && p.Made() && p.ops.IsRing() && |p.ops.items| == |os|
    && forall i :: 0 <= i < |os| ==> p.ops.items[i] == os[i].pluginEntry && os[i].Made()
  }

  // The plugin list holds the plugins `ps`, in order.
  ghost predicate RegRing(head: Entry, ps: seq<Plugin>)
    reads head, head.items, ps
  {
    && head.IsRing() && |head.items| == |ps|
    && forall i :: 0 <= i < |ps| ==> head.items[i] == ps[i].entry && ps[i].Made()
  }

  class PluginState {
    var initialized: bool
    var virtio: Plugin?
    const plugins: Entry
    // One list head per operation type.
    const ops: seq<Entry>
    ghost var st: State

    // The statics as the program starts.
    constructor ()
      ensures !initialized && Blank() && st == Start().(on := false)
    {
      var heads: seq<Entry> := [];
      var head := new Entry(null);
      var i := 0;
      while i < FUNCTIONS_NR
        invariant i <= FUNCTIONS_NR && |heads| == i
        invariant head.container == null && head.Unlinked() && allocated(head)
        invariant forall t :: 0 <= t < i ==>
          heads[t].container == null && heads[t] != head && allocated(heads[t]) && heads[t].Unlinked()
        invariant forall t, u :: 0 <= t < u < i ==> heads[t] != heads[u]
      {
        var e := new Entry(null);
        heads := heads + [e];
        i := i + 1;
      }
      initialized, virtio := false, null;
      plugins, ops := head, heads;
      st := Start().(on := false);
    }

    ghost predicate Valid()
      reads *
    {
      && Inv(st) && Rings()
      && initialized == st.on && virtio == st.virtio
    }

    ghost predicate Heads()
    {
      && |ops| == FUNCTIONS_NR
      && plugins.container == null
      && (forall t :: 0 <= t < FUNCTIONS_NR ==> ops[t].container == null && ops[t] != plugins)
      && (forall t, u :: 0 <= t < u < FUNCTIONS_NR ==> ops[t] != ops[u])
    }

    ghost predicate Rings()
      reads *
    {
      && Heads() && |ops| == |st.lists| == FUNCTIONS_NR
      && RegRing(plugins, st.regs)
      && (forall t :: 0 <= t < FUNCTIONS_NR ==> FuncRing(ops[t], st.lists[t]))
      && (forall p :: p in st.owned ==> OwnRing(p, st.owned[p]))
      && (forall p :: p in st.owned && p !in st.regs ==> p.entry.Lone())
    }

    // An operation on one ring leaves all others as they are.
    twostate lemma OthersStay(new changed: set<Entry>)
      requires old(Rings())
      requires forall e: Entry :: old(allocated(e)) && old(e.ring) !in changed ==> unchanged(e)
      requires forall o: Op :: old(allocated(o)) ==> o.funcEntry == old(o.funcEntry) && o.pluginEntry == old(o.pluginEntry)
      requires forall p: Plugin :: old(allocated(p)) ==> p.entry == old(p.entry) && p.ops == old(p.ops)
      ensures |ops| == |old(st.lists)| == FUNCTIONS_NR
      ensures plugins !in changed ==> RegRing(plugins, old(st.regs))
      ensures forall t :: 0 <= t < FUNCTIONS_NR && ops[t] !in changed ==> FuncRing(ops[t], old(st.lists)[t])
      ensures forall p :: p in old(st.owned) && p.ops !in changed ==> OwnRing(p, old(st.owned)[p])
      ensures forall p :: p in old(st.owned) && p !in old(st.regs) && p.entry !in changed ==> p.entry.Lone()
    {
      hide FuncRing, OwnRing, RegRing;
      forall t | 0 <= t < FUNCTIONS_NR && ops[t] !in changed
        ensures FuncRing(ops[t], old(st.lists)[t])
      {
        FuncStays(t, changed);
      }
      forall p | p in old(st.owned) && p.ops !in changed
        ensures OwnRing(p, old(st.owned)[p])
      {
        OwnStays(p, changed);
      }
      if plugins !in changed {
        RegStays(changed);
      }
    }

    twostate lemma OwnStays(p: Plugin, new changed: set<Entry>)
      requires old(Rings()) && p in old(st.owned) && p.ops !in changed
      requires forall e: Entry :: old(allocated(e)) && old(e.ring) !in changed ==> unchanged(e)
      requires forall o: Op :: old(allocated(o)) ==> o.funcEntry == old(o.funcEntry) && o.pluginEntry == old(o.pluginEntry)
      requires forall p: Plugin :: old(allocated(p)) ==> p.entry == old(p.entry) && p.ops == old(p.ops)
      ensures OwnRing(p, old(st.owned)[p])
    {
      var head, os := p.ops, old(st.owned)[p];
      assert old(OwnRing(p, os));
      assert unchanged(head);
      forall i | 0 <= i < |head.items|
        ensures unchanged(head.items[i])
      {
        assert old(head.items[i] in head.items);
      }
    }

    twostate lemma RegStays(new changed: set<Entry>)
      requires old(Rings()) && plugins !in changed
      requires forall e: Entry :: old(allocated(e)) && old(e.ring) !in changed ==> unchanged(e)
      requires forall p: Plugin :: old(allocated(p)) ==> p.entry == old(p.entry) && p.ops == old(p.ops)
      ensures RegRing(plugins, old(st.regs))
    {
      var head, ps := plugins, old(st.regs);
      assert old(RegRing(head, ps));
      assert unchanged(head);
      forall i | 0 <= i < |head.items|
        ensures unchanged(head.items[i])
      {
        assert old(head.items[i] in head.items);
      }
    }

    twostate lemma FuncStays(t: nat, new changed: set<Entry>)
      requires old(Rings()) && t < FUNCTIONS_NR && ops[t] !in changed
      requires forall e: Entry :: old(allocated(e)) && old(e.ring) !in changed ==> unchanged(e)
      requires forall o: Op :: old(allocated(o)) ==> o.funcEntry == old(o.funcEntry) && o.pluginEntry == old(o.pluginEntry)
      ensures |old(st.lists)| == FUNCTIONS_NR && FuncRing(ops[t], old(st.lists)[t])
    {
      var head, os := ops[t], old(st.lists)[t];
      assert old(FuncRing(head, os));
      assert unchanged(head);
      forall i | 0 <= i < |head.items|
        ensures unchanged(head.items[i])
      {
        assert old(head.items[i] in head.items);
      }
    }

    // No entry is two things at once.
    lemma HeadsApart()
      requires Rings()
      ensures Heads() && |ops| == FUNCTIONS_NR
      ensures forall t, u :: 0 <= t < FUNCTIONS_NR && 0 <= u < FUNCTIONS_NR && t != u ==> ops[t] != ops[u]
      ensures forall t :: 0 <= t < FUNCTIONS_NR ==> ops[t] != plugins
      ensures forall p :: p in st.owned ==> p.Made() && p.ops != plugins && p.entry != plugins
      ensures forall p, t :: p in st.owned && 0 <= t < FUNCTIONS_NR ==> p.ops != ops[t] && p.entry != ops[t]
    {
      forall p | p in st.owned
        ensures p.Made()
      {
        assert OwnRing(p, st.owned[p]);
      }
    }

    lemma RingsParts()
      ensures Rings() <==>
        && Heads() && |ops| == |st.lists| == FUNCTIONS_NR
        && RegRing(plugins, st.regs)
        && (forall t :: 0 <= t < FUNCTIONS_NR ==> FuncRing(ops[t], st.lists[t]))
        && (forall p :: p in st.owned ==> OwnRing(p, st.owned[p]))
        && (forall p :: p in st.owned && p !in st.regs ==> p.entry.Lone())
    {
    }

    lemma ListsApart(p: Plugin)
      requires Rings() && p in st.owned
      ensures p.ops != plugins && |ops| == FUNCTIONS_NR && forall t :: 0 <= t < FUNCTIONS_NR ==> ops[t] != p.ops
      ensures forall q :: q in st.owned ==> q.entry != p.ops && (q != p ==> q.ops != p.ops)
    {
      hide FuncRing, OwnRing, RegRing;
      HeadsApart();
    }

    method DropFunc(op: Op, ghost t: nat, ghost k: nat)
      requires Rings() && t < FUNCTIONS_NR && k < |st.lists[t]| && st.lists[t][k] == op
      modifies this`st, ops[t].Nodes()
      ensures Rings() && st == old(st).(lists := old(st).lists[t := Remove(old(st).lists[t], k)])
      ensures op.funcEntry.Lone()
    {
      hide Entry.IsRing, Remove, FuncRing, OwnRing, RegRing, Plugin.Made, Heads;
      ghost var head, os := ops[t], st.lists[t];
      HeadsApart();
      FuncMembers(head, os);
      UnlinkFunc(head, op, os, k);
      OthersStay({head});
      st := st.(lists := st.lists[t := Remove(os, k)]);
    }

    method DropOwn(p: Plugin, op: Op, ghost k: nat)
      requires Rings() && p in st.owned && k < |st.owned[p]| && st.owned[p][k] == op
      modifies this`st, p.ops.Nodes()
      ensures Rings() && st == old(st).(owned := old(st).owned[p := Remove(old(st).owned[p], k)])
      ensures op.pluginEntry.Lone()
    {
      hide *;
      ghost var os := st.owned[p];
      ListsApart(p);
      RingsParts();
      OwnMembers(p, os);
      UnlinkOwn(p, op, os, k);
      OthersStay({p.ops});
      st := st.(owned := st.owned[p := Remove(os, k)]);
      RingsParts();
    }

    method DropReg(p: Plugin, ghost k: nat)
      requires Rings() && k < |st.regs| && st.regs[k] == p && Distinct(st.regs)
      requires p in st.owned
      modifies this`st, plugins.Nodes()
      ensures Rings() && st == old(st).(regs := Remove(old(st).regs, k))
    {
      hide Entry.IsRing, Remove, FuncRing, OwnRing, RegRing, Plugin.Made, Heads;
      ghost var ps := st.regs;
      HeadsApart();
      RemoveDistinct(ps, k);
      RegMembers(plugins, ps);
      UnlinkReg(plugins, p, ps, k);
      OthersStay({plugins});
      st := st.(regs := Remove(ps, k));
    }

    method AddFunc(op: Op)
      requires Rings() && op.typ < FUNCTIONS_NR && op.Made() && op.funcEntry.Unlinked()
      modifies this`st, ops[op.typ].Nodes(), op.funcEntry
      ensures Rings() && st == old(st).(lists := old(st).lists[op.typ := old(st).lists[op.typ] + [op]])
    {
      hide Entry.IsRing, FuncRing, OwnRing, RegRing, Plugin.Made, Heads;
      HeadsApart();
      var head := ops[op.typ];
      ghost var os := st.lists[op.typ];
      NotHead(op, op.funcEntry);
      FuncMembers(head, os);
      LinkFunc(head, op, os);
      OthersStay({head, op.funcEntry});
      st := st.(lists := st.lists[op.typ := os + [op]]);
    }

    method AddOwn(op: Op, p: Plugin)
      requires Rings() && p in st.owned && op.Made() && op.pluginEntry.Unlinked()
      modifies this`st, p.ops.Nodes(), op.pluginEntry
      ensures Rings() && st == old(st).(owned := old(st).owned[p := old(st).owned[p] + [op]])
    {
      hide *;
      ghost var os := st.owned[p];
      ListsApart(p);
      RingsParts();
      NotHead(op, op.pluginEntry);
      OwnMembers(p, os);
      LinkOwn(p, op, os);
      OthersStay({p.ops, op.pluginEntry});
      st := st.(owned := st.owned[p := os + [op]]);
      RingsParts();
    }

    method AddReg(p: Plugin)
      requires Rings() && p in st.owned && p !in st.regs
      modifies this`st, plugins.Nodes(), p.entry
      ensures Rings() && st == old(st).(regs := old(st).regs + [p])
    {
      hide Entry.IsRing, FuncRing, OwnRing, RegRing, Plugin.Made, Heads;
      ghost var ps := st.regs;
      HeadsApart();
      EntryApart(p);
      RegMembers(plugins, ps);
      LinkReg(plugins, p, ps);
      OthersStay({plugins, p.entry});
      st := st.(regs := ps + [p]);
    }

    // An entry embedded in an operation heads no list and is embedded in no plugin.
    lemma NotHead(op: Op, e: Entry)
      requires Rings() && op.Made() && e.Unlinked() && (e == op.funcEntry || e == op.pluginEntry)
      ensures |ops| == FUNCTIONS_NR && e.ring == e && e != plugins && forall t :: 0 <= t < FUNCTIONS_NR ==> ops[t] != e
      ensures forall q :: q in st.owned ==> q.entry != e && q.ops != e
    {
      hide FuncRing, OwnRing, RegRing;
      HeadsApart();
    }

    lemma EntryApart(p: Plugin)
      requires Rings() && p in st.owned
      ensures p.Made() && p.entry != plugins && |ops| == FUNCTIONS_NR && forall t :: 0 <= t < FUNCTIONS_NR ==> ops[t] != p.entry
      ensures forall q :: q in st.owned ==> q.ops != p.entry && (q != p ==> q.entry != p.entry)
    {
      hide FuncRing, OwnRing, RegRing;
      HeadsApart();
    }

    // One turn of the loop that drains a plugin: its first operation leaves both lists.
    method DrainTurn(p: Plugin, op: Op)
      requires Rings() && Agree(st.lists, st.owned) && p in st.owned && st.owned[p] != [] && st.owned[p][0] == op
      requires op.typ < FUNCTIONS_NR
      modifies this`st, p.ops.Nodes(), ops[op.typ].Nodes()
      ensures Rings() && Agree(st.lists, st.owned)
      ensures AllNotOf(st.lists, p) == AllNotOf(old(st.lists), p)
      ensures st == old(st).(lists := st.lists, owned := old(st).owned[p := old(st).owned[p][1..]])
    {
      hide Rings, Agree, Remove, AllNotOf;
      TurnAgrees(st.lists, st.owned, p);
      ghost var k := IndexOf(st.lists[op.typ], op);
      NodesApart(p, op.typ);
      RemoveHead(st.owned[p]);
      DropFunc(op, op.typ, k);
      DropOwn(p, op, 0);
    }

    lemma NodesApart(p: Plugin, t: nat)
      requires Rings() && p in st.owned && t < FUNCTIONS_NR
      ensures |ops| == |st.lists| == FUNCTIONS_NR && p.ops !in ops[t].Nodes()
    {
      hide Entry.IsRing;
      ListsApart(p);
      FuncMembers(ops[t], st.lists[t]);
      OwnMembers(p, st.owned[p]);
    }

    // Drain the operations of p. Each turn unlinks the operation under the cursor from both
    // its lists; the saved successor stays linked.
    method DrainOps(p: Plugin)
      requires Rings() && Agree(st.lists, st.owned) && p in st.owned
      modifies this`st, set e: Entry | e.ring == p.ops || e.ring in ops
      ensures Rings() && Agree(st.lists, st.owned)
      ensures st == old(st).(lists := AllNotOf(old(st).lists, p), owned := old(st).owned[p := []])
    {
      hide *;
      ghost var lists, owned := st.lists, st.owned;
      ghost var rest := owned[p];
      OwnStart(p, rest);
      var iter := p.ops.next;
      var tmp := iter.next;
      while iter != p.ops
        invariant Rings() && Agree(st.lists, st.owned) && p in st.owned && st.owned[p] == rest
        invariant st == old(st).(lists := st.lists, owned := owned[p := rest])
        invariant AllNotOf(st.lists, p) == AllNotOf(lists, p)
        invariant iter == FirstOwn(p, rest)
        invariant tmp == iter.next
        invariant forall e: Entry :: old(allocated(e)) && (e.ring == p.ops || e.ring in ops) ==> old(e.ring) == p.ops || old(e.ring) in ops
        decreases |rest|
      {
        OwnStart(p, rest);
        OwnCursor(p, rest);
        var op := iter.container as Op;
        DrainTurn(p, op);
        rest := rest[1..];
        iter := tmp;
        OwnStart(p, rest);
        tmp := tmp.next;
      }
      OwnStart(p, rest);
      NoneLeft(st.lists, st.owned, p);
    }

    lemma OwnStart(p: Plugin, rest: seq<Op>)
      requires Rings() && p in st.owned && rest == st.owned[p]
      ensures p.ops.next == FirstOwn(p, rest) && |ops| == FUNCTIONS_NR
      ensures rest == [] <==> FirstOwn(p, rest) == p.ops
    {
      assert OwnRing(p, rest);
      if rest != [] {
        p.ops.RingAt(0);
      }
    }

    lemma OwnCursor(p: Plugin, rest: seq<Op>)
      requires Rings() && Agree(st.lists, st.owned) && p in st.owned && rest == st.owned[p] && rest != []
      ensures FirstOwn(p, rest).container == rest[0] && FirstOwn(p, rest).next == FirstOwn(p, rest[1..])
      ensures rest[0].typ < FUNCTIONS_NR == |ops|
      ensures forall e: Entry :: e in p.ops.Nodes() ==> e.ring == p.ops
      ensures forall e: Entry :: e in ops[rest[0].typ].Nodes() ==> e.ring in ops
    {
      assert OwnRing(p, rest);
      p.ops.RingAt(0);
      OwnMembers(p, rest);
      assert rest[0] in rest;
      FuncMembers(ops[rest[0].typ], st.lists[rest[0].typ]);
    }

    lemma IsLinkedIff(p: Plugin)
      requires Rings() && p in st.owned
      ensures p.entry.Member() || p.entry.Lone()
      ensures p.entry.ring != p.entry <==> p in st.regs
    {
      HeadsApart();
      if p in st.regs {
        var k := IndexOf(st.regs, p);
        assert plugins.items[k] == p.entry;
      }
    }

    // Unregister a plugin that is in the list.
    method Retire(p: Plugin) returns (ret: int)
      requires Rings() && Agree(st.lists, st.owned) && p in st.owned && p in st.regs && Distinct(st.regs)
      modifies this`st, set e: Entry | e.ring == plugins || e.ring == p.ops || e.ring in ops
      ensures ret == if p.info.None? then EINVAL else OK
      ensures Rings() && st == Gone(old(st), p).(finis := old(st).finis + if p.info.None? then [] else [p])
    {
      hide *;
      DrainOps(p);
      ghost var k := IndexOf(st.regs, p);
      RegNodes();
      DropReg(p, k);
      GoneIs(old(st), p, k);
      if p.info.None? {
        return EINVAL;
      }
      Finish(p);
      return OK;
    }

    // The plugin's own clean-up function runs.
    ghost method Finish(p: Plugin)
      requires Rings()
      modifies this`st
      ensures Rings() && st == old(st).(finis := old(st).finis + [p])
    {
      hide FuncRing, OwnRing, RegRing, Heads;
      st := st.(finis := st.finis + [p]);
    }

    lemma RegNodes()
      requires Rings()
      ensures forall e: Entry :: e in plugins.Nodes() ==> e.ring == plugins
    {
      RegMembers(plugins, st.regs);
    }

    lemma Parts()
      ensures Valid() <==> Inv(st) && Rings() && initialized == st.on && virtio == st.virtio
    {
    }

    lemma InvParts()
      requires Inv(st)
      ensures Agree(st.lists, st.owned) && |st.lists| == FUNCTIONS_NR && Distinct(st.regs) && (!st.on ==> st.regs == [])
      ensures forall p :: p in st.regs ==> p in st.owned && p.info.Some?
    {
    }

    // The plugin and its operations are gone from n, its clean-up call has been made, and the
    // rest is as it was.
    static ghost predicate Without(st: State, p: Plugin, n: State) {
      && |n.lists| == |st.lists| && p !in n.regs && |n.regs| == |st.regs| - 1 && n.finis == st.finis + [p]
      && (forall q :: q in st.regs && q != p ==> q in n.regs)
      && (forall t, o :: 0 <= t < |st.lists| && o in st.lists[t] && o.owner != p ==> o in n.lists[t])
      && (forall t, i :: 0 <= t < |st.lists| && 0 <= i < |n.lists[t]| ==>
            n.lists[t][i] in st.lists[t] && n.lists[t][i].owner != p)
      && n.owned == st.owned[p := []] && n.virtio == st.virtio && n.on == st.on
    }

    static lemma GoneWithout(st: State, p: Plugin)
      requires Inv(st) && p in st.regs
      ensures Without(st, p, Gone(st, p))
    {
      hide Agree, NotOf, Remove, Distinct;
      var k := IndexOf(st.regs, p);
      var n := Gone(st, p);
      GoneIs(st, p, k);
      RemoveDistinct(st.regs, k);
      RemoveLength(st.regs, k);
      forall t, o | 0 <= t < |st.lists| && o in st.lists[t] && o.owner != p
        ensures o in n.lists[t]
      {
        NotOfMembers(st.lists[t], p);
      }
      forall t | 0 <= t < |st.lists|
        ensures n.lists[t] == NotOf(st.lists[t], p)
        ensures forall i :: 0 <= i < |n.lists[t]| ==> n.lists[t][i] in st.lists[t] && n.lists[t][i].owner != p
      {
        NotOfFrom(st.lists[t], p);
      }
    }

    method UnregisterPlugin(plugin: Plugin?) returns (ret: int)
      requires initialized ==> Valid()
      requires initialized && plugin != null ==> Legal(st, Unregister(plugin))
      modifies this`st, set e: Entry | plugin != null && initialized && (e.ring == plugins || e.ring == plugin.ops || e.ring in ops)
      ensures plugin == null ==> ret == EINVAL
      ensures plugin != null && !initialized ==> ret == EBACKEND
      ensures plugin == null || !initialized ==> st == old(st)
      ensures plugin != null && initialized ==>
        Valid() && ret == Result(old(st), Unregister(plugin)) && st == Step(old(st), Unregister(plugin))
      ensures plugin != null && initialized ==>
        && ret == (if plugin in old(st).regs then OK else ENOENT)
        && (ret != OK ==> st == old(st))
        && (ret == OK ==> Without(old(st), plugin, st))
    {
      if plugin == null {
        return EINVAL;
      }
      if !initialized {
        return EBACKEND;
      }
      ret := UnregisterKnown(plugin);
    }

    method UnregisterKnown(plugin: Plugin) returns (ret: int)
      requires Valid() && initialized && Legal(st, Unregister(plugin))
      modifies this`st, set e: Entry | e.ring == plugins || e.ring == plugin.ops || e.ring in ops
      ensures Valid() && ret == Result(old(st), Unregister(plugin)) && st == Step(old(st), Unregister(plugin))
      ensures
        && ret == (if plugin in old(st).regs then OK else ENOENT)
        && (ret != OK ==> st == old(st))
        && (ret == OK ==> Without(old(st), plugin, st))
    {
      hide *;
      FailuresAreNotOK();
      Parts();
      InvParts();
      UnregisterIs(st, plugin);
      if plugin in st.regs {
        GoneWithout(st, plugin);
      }
      StepKeeps(st, Unregister(plugin));
      IsLinkedIff(plugin);
      var linked := plugin.entry.IsLinked();
      if !linked {
        return ENOENT;
      }
      ret := Retire(plugin);
      Parts();
    }

    method RegisterPlugin(plugin: Plugin?) returns (ret: int)
      requires initialized ==> Valid()
      requires initialized && plugin != null ==> Legal(st, Register(plugin))
      modifies this`st, this`virtio, set e: Entry | plugin != null && initialized && (e.ring == plugins || e == plugin.entry)
      ensures plugin == null ==> ret == EINVAL
      ensures plugin != null && !initialized ==> ret == EBACKEND
      ensures plugin == null || !initialized ==> st == old(st) && virtio == old(virtio)
      ensures plugin != null && initialized ==>
        Valid() && ret == Result(old(st), Register(plugin)) && st == Step(old(st), Register(plugin))
      ensures plugin != null && initialized ==>
        && plugin in old(st).owned && plugin.info.Some?
        && ret == (if plugin in old(st).regs then EEXISTS
                   else if old(st).owned[plugin] != [] then EINVAL
                   else if !plugin.info.value.hasName || !plugin.info.value.hasInit || !plugin.info.value.hasFini then EINVAL
                   else OK)
        && (ret != OK ==> st == old(st))
        && st.regs == (if ret == OK then old(st).regs + [plugin] else old(st).regs)
        && st.lists == old(st).lists && st.owned == old(st).owned && st.finis == old(st).finis
        && virtio == (if ret == OK && plugin.info.value.hasSessInit && plugin.info.value.hasSessFree && old(virtio) == null
                      then plugin else old(virtio))
    {
      if plugin == null {
        return EINVAL;
      }
      if !initialized {
        return EBACKEND;
      }
      ret := RegisterKnown(plugin);
    }

    method RegisterKnown(plugin: Plugin) returns (ret: int)
      requires Valid() && initialized && Legal(st, Register(plugin))
      modifies this`st, this`virtio, set e: Entry | e.ring == plugins || e == plugin.entry
      ensures Valid() && ret == Result(old(st), Register(plugin)) && st == Step(old(st), Register(plugin))
      ensures
        && plugin in old(st).owned && plugin.info.Some?
        && ret == (if plugin in old(st).regs then EEXISTS
                   else if old(st).owned[plugin] != [] then EINVAL
                   else if !plugin.info.value.hasName || !plugin.info.value.hasInit || !plugin.info.value.hasFini then EINVAL
                   else OK)
        && (ret != OK ==> st == old(st))
        && st.regs == (if ret == OK then old(st).regs + [plugin] else old(st).regs)
        && st.lists == old(st).lists && st.owned == old(st).owned && st.finis == old(st).finis
        && virtio == (if ret == OK && plugin.info.value.hasSessInit && plugin.info.value.hasSessFree && old(virtio) == null
                      then plugin else old(virtio))
    {
      hide *;
      FailuresAreNotOK();
      Parts();
      RegisterIs(st, plugin);
      StepKeeps(st, Register(plugin));
      IsLinkedIff(plugin);
      var linked := plugin.entry.IsLinked();
      if linked {
        return EEXISTS;
      }
      OwnEmptyIff(plugin);
      var empty := plugin.ops.IsEmpty();
      if !empty {
        return EINVAL;
      }
      var info := plugin.info.value;
      if !info.hasName {
        return EINVAL;
      }
      if !info.hasInit {
        return EINVAL;
      }
      if !info.hasFini {
        return EINVAL;
      }
      RegNodes();
      AddReg(plugin);
      if info.hasSessInit && info.hasSessFree {
        if virtio == null {
          SetVirtio(plugin);
        }
      }
      Parts();
      return OK;
    }

    method SetVirtio(plugin: Plugin)
      requires Rings()
      modifies this`st, this`virtio
      ensures Rings() && virtio == plugin && st == old(st).(virtio := plugin)
    {
      hide FuncRing, OwnRing, RegRing, Heads;
      virtio := plugin;
      st := st.(virtio := plugin);
    }

    lemma OwnEmptyIff(p: Plugin)
      requires Rings() && p in st.owned
      ensures p.ops.IsRing() && (p.ops.items == [] <==> st.owned[p] == [])
    {
      assert OwnRing(p, st.owned[p]);
    }

    method RegisterPluginFunction(op: Op?) returns (ret: int)
      requires Valid()
      requires op != null ==> Legal(st, RegisterOp(op))
      requires op != null && Accepted(op) ==> op.Made() && op.pluginEntry.Unlinked() && op.funcEntry.Unlinked()
      modifies this`st, set e: Entry | op != null && Accepted(op) &&
        (e == op.pluginEntry || e == op.funcEntry || e.ring == op.owner.ops || e.ring == ops[op.typ])
      ensures Valid()
      ensures op == null ==> ret == EINVAL && st == old(st)
      ensures op != null ==> ret == Result(old(st), RegisterOp(op)) && st == Step(old(st), RegisterOp(op))
      ensures op != null ==>
        && ret == (if op.func == 0 then EINVAL else if op.typ >= FUNCTIONS_NR then EINVAL + 1
                   else if op.owner == null then EINVAL + 2 else OK)
        && (ret != OK ==> st == old(st))
      ensures op != null && ret == OK ==> Appended(old(st), op, st)
    {
      if op == null || op.func == 0 {
        return EINVAL;
      }
      if op.typ >= FUNCTIONS_NR {
        return EINVAL + 1;
      }
      var plugin := op.owner;
      if plugin == null {
        return EINVAL + 2;
      }
      LinkOp(op, plugin);
      return OK;
    }

    // What registering `o` needs, if `o` passes the checks.
    ghost predicate Ready(o: Op)
      reads this`st, o, o.pluginEntry, o.funcEntry
    {
      && Legal(st, RegisterOp(o))
      && (Accepted(o) ==> o.Made() && o.pluginEntry.Unlinked() && o.funcEntry.Unlinked())
    }

    // The entries that registering `o` may touch.
    ghost predicate Reaches(o: Op, e: Entry)
      reads o, e, o.owner
    {
      && Accepted(o) && o.typ < |ops|
      && (e == o.pluginEntry || e == o.funcEntry || e.ring == o.owner.ops || e.ring == ops[o.typ])
    }

    ghost predicate Reached(os: seq<Op>, e: Entry)
      reads os, e, set i | 0 <= i < |os| && os[i].owner != null :: os[i].owner
    {
      exists i :: 0 <= i < |os| && Reaches(os[i], e)
    }

    // The entries of two operations are different, and no ring reaches an entry in no list.
    lemma ReadyApart(o: Op, x: Op)
      requires Valid() && Ready(o) && Ready(x) && o != x && Accepted(o) && Accepted(x)
      ensures !Reaches(o, x.pluginEntry) && !Reaches(o, x.funcEntry)
    {
      hide FuncRing, RegRing, OwnRing, Inv;
      HeadsApart();
    }

    // Register operations up to the first that fails; `n` of them succeed.
    method RegisterPluginFunctions(os: seq<Op>) returns (ret: int, ghost n: nat)
      requires Valid() && Distinct(os) && forall i :: 0 <= i < |os| ==> Ready(os[i])
      modifies this`st, set e: Entry | Reached(os, e)
      ensures Valid() && n <= |os| && (forall i :: 0 <= i < n ==> Accepted(os[i])) && st == AddAll(old(st), os[..n])
      ensures n == |os| ==> ret == OK
      ensures n < |os| ==> !Accepted(os[n])
      ensures n < |os| ==>
        ret == if os[n].func == 0 then EINVAL else if os[n].typ >= FUNCTIONS_NR then EINVAL + 1 else EINVAL + 2
    {
      hide *;
      var i := 0;
      AddAllNone(st);
      while i < |os|
        invariant i <= |os| && Valid() && st == AddAll(old(st), os[..i])
        invariant forall j :: 0 <= j < i ==> Accepted(os[j])
        invariant forall j :: i <= j < |os| ==> Ready(os[j])
        invariant forall e: Entry :: old(allocated(e)) && Reached(os, e) ==> old(Reached(os, e))
      {
        Parts();
        ReadyParts(os[i]);
        ResultIs(st, os[i]);
        if Accepted(os[i]) {
          AddAllNext(old(st), os, i);
        }
        ret := RegisterNext(os, i);
        if ret != OK {
          return ret, i;
        }
        i := i + 1;
      }
      return OK, i;
    }

    method RegisterNext(os: seq<Op>, i: nat) returns (ret: int)
      requires Valid() && Distinct(os) && i < |os| && forall j :: i <= j < |os| ==> Ready(os[j])
      modifies this`st, set e: Entry | Reached(os, e)
      ensures Valid() && Legal(old(st), RegisterOp(os[i]))
      ensures ret == Result(old(st), RegisterOp(os[i])) && st == Step(old(st), RegisterOp(os[i]))
      ensures Accepted(os[i]) ==> forall j :: i < j < |os| ==> Ready(os[j])
      ensures forall e: Entry :: old(allocated(e)) && Reached(os, e) ==> old(Reached(os, e))
    {
      hide Inv, Rings, Valid, Legal, Step, Result, Op.Made, Plugin.Made, Entry.Unlinked, Ready, Heads;
      Parts();
      HeadsApart();
      DistinctPairs(os);
      var op := os[i];
      forall j | i <= j < |os|
        ensures Legal(st, RegisterOp(os[j]))
        ensures Accepted(os[j]) ==> os[j].Made() && os[j].pluginEntry.Unlinked() && os[j].funcEntry.Unlinked()
        ensures Accepted(op) && Accepted(os[j]) && i < j ==> !Reaches(op, os[j].pluginEntry) && !Reaches(op, os[j].funcEntry)
      {
        ReadyParts(os[j]);
        if Accepted(op) && Accepted(os[j]) && i < j {
          ReadyApart(op, os[j]);
        }
      }
      forall e: Entry | Reaches(op, e)
        ensures Reached(os, e)
      {
      }
      ret := RegisterPluginFunction(op);
      if Accepted(op) {
        forall j | i < j < |os|
          ensures Ready(os[j])
        {
          LegalStays(old(st), op, os[j]);
          ReadyParts(os[j]);
        }
      }
      forall e: Entry | old(allocated(e)) && Reached(os, e)
        ensures old(Reached(os, e))
      {
        var j :| 0 <= j < |os| && Reaches(os[j], e);
        assert old(Reaches(op, e)) || old(Reaches(os[j], e));
      }
    }

    lemma ReadyParts(o: Op)
      ensures Ready(o) <==>
        && Legal(st, RegisterOp(o))
        && (Accepted(o) ==> o.Made() && o.pluginEntry.Unlinked() && o.funcEntry.Unlinked())
    {
    }

    // The operation is last in both its lists, and the rest is as it was.
    static ghost predicate Appended(st: State, op: Op, n: State) {
      && op.typ < |st.lists| && op.owner in st.owned
      && n.lists == st.lists[op.typ := st.lists[op.typ] + [op]]
      && n.owned == st.owned[op.owner := st.owned[op.owner] + [op]]
      && n.regs == st.regs && n.virtio == st.virtio && n.finis == st.finis && n.on == st.on
    }

    static lemma AcceptedOwner(op: Op)
      requires Accepted(op)
      ensures op.owner != null && op.typ < FUNCTIONS_NR
    {
    }

    static lemma AddedIs(st: State, op: Op)
      requires Inv(st) && Legal(st, RegisterOp(op)) && Accepted(op)
      ensures Appended(st, op, Step(st, RegisterOp(op)))
    {
    }

    method LinkOp(op: Op, plugin: Plugin)
      requires Valid() && Accepted(op) && plugin == op.owner && Legal(st, RegisterOp(op))
      requires op.Made() && op.pluginEntry.Unlinked() && op.funcEntry.Unlinked()
      modifies this`st, op.pluginEntry, op.funcEntry, set e: Entry | e.ring == plugin.ops || e.ring == ops[op.typ]
      ensures Valid() && st == Step(old(st), RegisterOp(op)) && Appended(old(st), op, st)
      ensures op.typ < |old(st).lists| && st.lists == old(st).lists[op.typ := old(st).lists[op.typ] + [op]]
      ensures plugin in old(st).owned && st.owned == old(st).owned[plugin := old(st).owned[plugin] + [op]]
    {
      hide *;
      Parts();
      RegisterOpIs(st, op);
      AddedIs(st, op);
      AcceptedOwner(op);
      StepKeeps(st, RegisterOp(op));
      LinkApart(op, plugin);
      AddOwn(op, plugin);
      FuncNodes(op.typ);
      AddFunc(op);
      Parts();
    }

    // The two entries of an operation that is in no list are outside all lists.
    lemma LinkApart(op: Op, plugin: Plugin)
      requires Rings() && plugin in st.owned && op.typ < FUNCTIONS_NR
      requires op.Made() && op.pluginEntry.Unlinked() && op.funcEntry.Unlinked()
      ensures op.pluginEntry != op.funcEntry && op.funcEntry !in plugin.ops.Nodes() && |ops| == FUNCTIONS_NR
      ensures forall e: Entry :: e in plugin.ops.Nodes() ==> e.ring == plugin.ops
      ensures op.funcEntry != ops[op.typ] && op.pluginEntry != ops[op.typ]
      ensures op.funcEntry.ring == op.funcEntry && op.pluginEntry.ring == op.pluginEntry
      ensures plugin.ops != ops[op.typ]
    {
      hide FuncRing, RegRing, OwnRing;
      ListsApart(plugin);
      NotHead(op, op.funcEntry);
      NotHead(op, op.pluginEntry);
      OwnMembers(plugin, st.owned[plugin]);
    }

    lemma FuncNodes(t: nat)
      requires Rings() && t < FUNCTIONS_NR
      ensures |ops| == FUNCTIONS_NR && forall e: Entry :: e in ops[t].Nodes() ==> e.ring == ops[t]
    {
      FuncMembers(ops[t], st.lists[t]);
    }

    // The operation a caller gets for a type: the first that meets the hint, else the first.
    method GetPluginOp(opType: nat, hint: bv32) returns (func: int)
      requires Valid()
      ensures |st.lists| == FUNCTIONS_NR
      ensures func == if opType >= FUNCTIONS_NR || Lookup(st.lists[opType], hint) == null then 0
                      else Lookup(st.lists[opType], hint).func
      ensures opType < FUNCTIONS_NR && st.lists[opType] != [] ==>
        exists i: nat :: Chosen(st.lists[opType], hint, i) && func == st.lists[opType][i].func
    {
      hide *;
      Parts();
      InvParts();
      if opType >= FUNCTIONS_NR {
        return 0;
      }
      ghost var os := st.lists[opType];
      FuncStart(opType);
      LookupIs(os, hint);
      var empty := ops[opType].IsEmpty();
      if empty {
        return 0;
      }
      var op: Op? := null;
      if hint != 0 {
        op := FindMeeting(opType, hint);
      }
      if op == null {
        op := ops[opType].next.container as Op;
      }
      ghost var i := LookupIsChosen(os, hint);
      ChosenShape(os, hint, i);
      return op.func;
    }

    static lemma ChosenShape(s: seq<Op>, hint: bv32, i: nat)
      requires Chosen(s, hint, i)
      ensures i < |s|
    {
    }

    method FindMeeting(t: nat, hint: bv32) returns (op: Op?)
      requires Inv(st) && Rings() && t < FUNCTIONS_NR
      ensures |st.lists| == FUNCTIONS_NR && op == FirstMeeting(st.lists[t], hint)
    {
      hide *;
      InvParts();
      FuncStart(t);
      ghost var os, k := st.lists[t], 0;
      var iter := ops[t].next;
      while iter != ops[t]
        invariant k <= |os| && iter == if k < |os| then os[k].funcEntry else ops[t]
        invariant FirstMeeting(os, hint) == FirstMeeting(os[k..], hint)
        decreases |os| - k
      {
        FuncCursor(t, k, hint);
        var opiter := iter.container as Op;
        if Matches(hint, opiter.owner.info.value.kinds) {
          return opiter;
        }
        iter := iter.next;
        k := k + 1;
      }
      FuncEnd(t, k, hint);
      return null;
    }

    lemma FuncStart(t: nat)
      requires Rings() && t < FUNCTIONS_NR
      ensures |ops| == |st.lists| == FUNCTIONS_NR && ops[t].IsRing()
      ensures ops[t].items == [] <==> st.lists[t] == []
      ensures st.lists[t] == [] ==> ops[t].next == ops[t]
      ensures st.lists[t] != [] ==> ops[t].next == st.lists[t][0].funcEntry && ops[t].next.container == st.lists[t][0]
      ensures st.lists[t][0..] == st.lists[t]
    {
      assert FuncRing(ops[t], st.lists[t]);
    }

    lemma FuncCursor(t: nat, k: nat, hint: bv32)
      requires Inv(st) && Rings() && t < FUNCTIONS_NR && k < |st.lists[t]|
      ensures |ops| == |st.lists| == FUNCTIONS_NR
      ensures var os := st.lists[t];
        && os[k].funcEntry.container == os[k] && os[k].funcEntry != ops[t]
        && os[k].owner != null && os[k].owner.info.Some?
        && os[k].funcEntry.next == (if k + 1 < |os| then os[k + 1].funcEntry else ops[t])
        && (if Matches(hint, os[k].owner.info.value.kinds) then FirstMeeting(os[k..], hint) == os[k]
            else FirstMeeting(os[k..], hint) == FirstMeeting(os[k + 1..], hint))
    {
      var os := st.lists[t];
      assert FuncRing(ops[t], os);
      ops[t].RingAt(k);
      assert os[k] in os;
      assert Indexed(os[k], t, st.owned);
      assert os[k..][1..] == os[k + 1..];
    }

    lemma FuncEnd(t: nat, k: nat, hint: bv32)
      requires Rings() && t < FUNCTIONS_NR && k <= |st.lists[t]|
      ensures |ops| == |st.lists| == FUNCTIONS_NR
      ensures k < |st.lists[t]| ==> st.lists[t][k].funcEntry != ops[t]
      ensures k == |st.lists[t]| ==> FirstMeeting(st.lists[t][k..], hint) == null
    {
      assert FuncRing(ops[t], st.lists[t]);
      if k < |st.lists[t]| {
        ops[t].RingAt(k);
      }
    }

    // Nothing is linked, and the plugins loaded so far own nothing.
    ghost predicate Blank()
      reads *
    {
      && Heads() && |ops| == FUNCTIONS_NR && Inv(st) && virtio == st.virtio
      && plugins.Unlinked() && (forall t :: 0 <= t < FUNCTIONS_NR ==> ops[t].Unlinked())
      && Legal(st, Bootstrap)
      && forall p :: p in st.owned ==> st.owned[p] == [] && OwnRing(p, []) && p.entry.Lone()
    }

    // At program start, and again after a shutdown that left no operation behind.
    lemma BlankAgain()
      requires Valid() && Legal(st, Bootstrap)
      ensures Blank()
    {
      assert RegRing(plugins, []);
      forall t | 0 <= t < FUNCTIONS_NR
        ensures ops[t].Unlinked()
      {
        assert FuncRing(ops[t], []);
      }
      forall p | p in st.owned
        ensures st.owned[p] == []
      {
        OwnsNothing(st, p);
      }
    }

    lemma BlankApart()
      requires Blank()
      ensures |ops| == FUNCTIONS_NR && virtio == st.virtio
      ensures forall p :: p in st.owned ==> st.owned[p] == [] && OwnRing(p, []) && p.entry.Lone()
      ensures forall p :: p in st.owned ==> p.ops != plugins && p.entry != plugins && p.ops.items == []
      ensures forall p, t :: p in st.owned && 0 <= t < FUNCTIONS_NR ==> p.ops != ops[t] && p.entry != ops[t]
    {
      forall p | p in st.owned
        ensures p.Made() && p.ops.items == []
      {
        assert OwnRing(p, []);
      }
    }

    // The list heads are emptied whatever they held. What was registered before still shows
    // afterwards if and only if nothing was.
    method PluginsBootstrap() returns (ret: int)
      requires Heads()
      modifies this`st, this`initialized, plugins, ops
      ensures ret == OK && initialized && plugins.Lone() && forall t :: 0 <= t < FUNCTIONS_NR ==> ops[t].Lone()
      ensures old(Blank()) ==> Valid() && st == Step(old(st), Bootstrap)
      ensures old(Valid()) ==> (Valid() <==> old(Legal(st, Bootstrap)))
    {
      hide Inv, Rings, OwnRing, Step, Legal, Blank;
      ghost var blank := Blank();
      if Valid() && Legal(st, Bootstrap) {
        BlankAgain();
      }
      if blank {
        BlankParts();
        BootstrapIs(st);
      }
      InitHeads();
      TurnOn(blank);
      if Valid() {
        EmptyHeads();
      }
      return OK;
    }

    lemma BlankParts()
      requires Blank()
      ensures Inv(st) && Legal(st, Bootstrap)
    {
    }

    // Empty heads show a state with nothing registered.
    lemma EmptyHeads()
      requires Rings() && plugins.Lone() && forall t :: 0 <= t < FUNCTIONS_NR ==> ops[t].Lone()
      ensures Legal(st, Bootstrap)
    {
    }

    method InitHeads()
      requires Heads()
      modifies plugins, ops
      ensures plugins.Lone() && forall t :: 0 <= t < FUNCTIONS_NR ==> ops[t].Lone()
      ensures old(Blank()) ==> Rings() && Inv(st) && virtio == st.virtio
    {
      hide Inv, OwnRing, Blank, Legal;
      ghost var blank := Blank();
      if blank {
        BlankApart();
        BlankParts();
        BootstrapIs(st);
      }
      ResetHeads();
      if blank {
        forall p | p in st.owned
          ensures OwnRing(p, st.owned[p])
        {
          assert OwnRing(p, []);
        }
      }
    }

    method ResetHeads()
      requires Heads()
      modifies plugins, ops
      ensures plugins.Lone() && forall t :: 0 <= t < FUNCTIONS_NR ==> ops[t].Lone()
    {
      plugins.Init();
      var i := 0;
      while i < FUNCTIONS_NR
        invariant i <= FUNCTIONS_NR && plugins.Lone() && forall t :: 0 <= t < i ==> ops[t].Lone()
      {
        ops[i].Init();
        i := i + 1;
      }
    }

    method TurnOn(ghost blank: bool)
      requires blank ==> Rings() && Inv(st.(on := true)) && virtio == st.virtio
      modifies this`st, this`initialized
      ensures initialized && st == if blank then old(st).(on := true) else old(st)
      ensures blank ==> Valid()
    {
      hide FuncRing, OwnRing, RegRing, Heads, Inv;
      initialized := true;
      if blank {
        st := st.(on := true);
      }
    }

    // Loading a plugin's code makes it known, with nothing registered.
    ghost method LoadPlugin(p: Plugin)
      requires Valid() && Legal(st, Load(p))
      requires p.Made() && p.entry.Lone() && p.ops.Lone()
      modifies this`st
      ensures Valid() && st == Step(old(st), Load(p))
      ensures st.owned == old(st).owned[p := []] && st.lists == old(st).lists && st.regs == old(st).regs
    {
      hide FuncRing, RegRing, Heads, Inv, Agree;
      StepKeeps(st, Load(p));
      st := st.(owned := st.owned[p := []]);
    }

    ghost function RegHeads(ps: seq<Plugin>): set<Entry>
      reads ps
    {
      set p | p in ps :: p.ops
    }

    // Unregister every plugin, in list order. Each call unlinks the plugin under the cursor.
    method UnregisterAll()
      requires Valid() && initialized
      modifies this`st, set e: Entry | e.ring == plugins || e.ring in ops || e.ring in RegHeads(st.regs)
      ensures Valid() && st == AllGone(old(st), old(st).regs) && st.regs == []
    {
      hide *;
      ghost var s0, rest := st, st.regs;
      Parts();
      RegCursor(rest);
      var iter := plugins.next;
      var tmp := iter.next;
      while iter != plugins
        invariant Valid() && initialized && st.regs == rest && AllGone(st, rest) == AllGone(s0, s0.regs)
        invariant iter == FirstReg(rest) && tmp == iter.next
        invariant RegHeads(rest) <= RegHeads(s0.regs)
        invariant forall e: Entry :: old(allocated(e)) && (e.ring == plugins || e.ring in ops || e.ring in RegHeads(s0.regs)) ==>
          old(e.ring == plugins || e.ring in ops || e.ring in RegHeads(st.regs))
        decreases |rest|
      {
        Parts();
        RegCursor(rest);
        NextGone(st, rest);
        var plugin := iter.container as Plugin;
        var ret := UnregisterPlugin(plugin);
        rest := rest[1..];
        iter := tmp;
        Parts();
        RegCursor(rest);
        tmp := tmp.next;
      }
      Parts();
      RegCursor(rest);
      NextGone(st, rest);
    }

    ghost function FirstReg(ps: seq<Plugin>): Entry
      reads ps
    {
      if ps == [] then plugins else ps[0].entry
    }

    lemma RegCursor(rest: seq<Plugin>)
      requires Inv(st) && Rings() && rest == st.regs
      ensures plugins.next == FirstReg(rest) && (rest == [] <==> FirstReg(rest) == plugins)
      ensures rest != [] ==>
        && FirstReg(rest).container == rest[0] && FirstReg(rest).next == FirstReg(rest[1..])
        && rest[0].ops in RegHeads(rest) && RegHeads(rest[1..]) <= RegHeads(rest)
    {
      assert RegRing(plugins, rest);
      if rest != [] {
        plugins.RingAt(0);
      }
    }

    method TurnOff()
      requires Inv(st) && Rings() && st.regs == [] && virtio == st.virtio
      modifies this
      ensures Valid() && !initialized && st == old(st).(virtio := null, on := false)
    {
      hide FuncRing, OwnRing, RegRing, Heads;
      if virtio != null {
        virtio := null;
      }
      initialized := false;
      st := st.(virtio := null, on := false);
    }

    method PluginsShutdown() returns (ret: int)
      requires initialized ==> Valid()
      modifies this, set e: Entry | initialized && (e.ring == plugins || e.ring in ops || e.ring in RegHeads(st.regs))
      ensures ret == OK && !initialized
      ensures old(initialized) ==> Valid() && st == Step(old(st), Shutdown)
      ensures old(initialized) ==>
        virtio == null && st.regs == [] && st.finis == old(st).finis + old(st).regs && !st.on
      ensures !old(initialized) ==> st == old(st) && virtio == old(virtio)
    {
      if !initialized {
        return OK;
      }
      ret := ShutdownKnown();
    }

    method ShutdownKnown() returns (ret: int)
      requires Valid() && initialized
      modifies this, set e: Entry | e.ring == plugins || e.ring in ops || e.ring in RegHeads(st.regs)
      ensures ret == OK && !initialized && Valid() && st == Step(old(st), Shutdown)
      ensures virtio == null && st.regs == [] && st.finis == old(st).finis + old(st).regs && !st.on
    {
      hide *;
      Parts();
      ShutdownIs(st);
      ShutdownState(st);
      UnregisterAll();
      Parts();
      TurnOff();
      Parts();
      return OK;
    }
  }

  lemma OwnsNothing(st: State, p: Plugin)
    requires Inv(st) && Legal(st, Bootstrap) && p in st.owned
    ensures st.owned[p] == []
  {
    if st.owned[p] != [] {
      TurnAgrees(st.lists, st.owned, p);
    }
  }

  lemma BootstrapIs(st: State)
    requires Inv(st) && Legal(st, Bootstrap)
    ensures Inv(st.(on := true)) && Step(st, Bootstrap) == st.(on := true)
    ensures st.regs == [] && |st.lists| == FUNCTIONS_NR && forall t :: 0 <= t < |st.lists| ==> st.lists[t] == []
  {
  }

  lemma ShutdownIs(st: State)
    requires Inv(st) && st.on
    ensures Step(st, Shutdown) == AllGone(st, st.regs).(virtio := null, on := false)
  {
  }

  lemma NextGone(st: State, rest: seq<Plugin>)
    requires Inv(st) && rest == st.regs
    ensures rest == [] ==> AllGone(st, rest) == st
    ensures rest != [] ==>
      && st.on && rest[0] in st.owned && Legal(st, Unregister(rest[0]))
      && var n := Step(st, Unregister(rest[0]));
         Inv(n) && n.regs == rest[1..] && AllGone(n, rest[1..]) == AllGone(st, rest) && n.on
  {
    if rest != [] {
      GoneKeeps(st, rest[0]);
    }
  }

  lemma LookupIs(s: seq<Op>, hint: bv32)
    ensures Lookup(s, hint) ==
      if s == [] then null
      else if hint == 0 || FirstMeeting(s, hint) == null then s[0]
      else FirstMeeting(s, hint)
  {
  }

  lemma RegisterOpIs(st: State, o: Op)
    requires Inv(st) && Legal(st, RegisterOp(o)) && Accepted(o)
    ensures |st.lists| == FUNCTIONS_NR && o.typ < FUNCTIONS_NR && o.owner != null && o.owner in st.owned
    ensures Result(st, RegisterOp(o)) == OK
    ensures Step(st, RegisterOp(o)) == st.(lists := st.lists[o.typ := st.lists[o.typ] + [o]],
                                           owned := st.owned[o.owner := st.owned[o.owner] + [o]])
  {
  }

  lemma RegisterIs(st: State, p: Plugin)
    requires Inv(st) && Legal(st, Register(p)) && st.on
    ensures p in st.owned && p.info.Some?
    ensures var c := Register(p); var i := p.info.value;
      Result(st, c) == if p in st.regs then EEXISTS
                       else if st.owned[p] != [] || !i.hasName || !i.hasInit || !i.hasFini then EINVAL
                       else OK
    ensures var c := Register(p); var i := p.info.value;
      if p in st.regs || st.owned[p] != [] || !i.hasName || !i.hasInit || !i.hasFini then Step(st, c) == st
      else Step(st, c) == st.(regs := st.regs + [p],
                              virtio := if i.hasSessInit && i.hasSessFree && st.virtio == null then p else st.virtio)
  {
  }

  lemma UnregisterIs(st: State, p: Plugin)
    requires Inv(st) && Legal(st, Unregister(p))
    ensures p in st.owned && (p in st.regs ==> st.on)
    ensures st.on && p !in st.regs ==> Result(st, Unregister(p)) == ENOENT && Step(st, Unregister(p)) == st
    ensures p in st.regs ==> Result(st, Unregister(p)) == OK && Step(st, Unregister(p)) == Gone(st, p)
    ensures p in st.regs ==> var g := Gone(st, p); g.(finis := st.finis + [p]) == g && g.on == st.on && g.virtio == st.virtio
  {
  }

  ghost function FirstOwn(p: Plugin, os: seq<Op>): Entry
    reads p, os
  {
    if os == [] then p.ops else os[0].pluginEntry
  }

  lemma FuncMembers(head: Entry, os: seq<Op>)
    requires FuncRing(head, os)
    ensures head.ring == head && forall e :: e in head.Nodes() ==> e.ring == head
  {
    head.RingMembers();
  }

  lemma OwnMembers(p: Plugin, os: seq<Op>)
    requires OwnRing(p, os)
    ensures p.Made() && p.ops.ring == p.ops && forall e :: e in p.ops.Nodes() ==> e.ring == p.ops
  {
    p.ops.RingMembers();
  }

  lemma RegMembers(head: Entry, ps: seq<Plugin>)
    requires RegRing(head, ps)
    ensures head.ring == head && forall e :: e in head.Nodes() ==> e.ring == head
  {
    head.RingMembers();
  }

  method LinkFunc(head: Entry, op: Op, ghost os: seq<Op>)
    requires FuncRing(head, os) && op.Made() && op.funcEntry.Unlinked() && head != op.funcEntry
    modifies head.Nodes(), op.funcEntry
    ensures FuncRing(head, os + [op])
  {
    hide Entry.IsRing;
    head.AddTail(op.funcEntry);
  }

  method LinkOwn(p: Plugin, op: Op, ghost os: seq<Op>)
    requires OwnRing(p, os) && op.Made() && op.pluginEntry.Unlinked() && p.ops != op.pluginEntry
    modifies p.ops.Nodes(), op.pluginEntry
    ensures OwnRing(p, os + [op])
  {
    hide Entry.IsRing;
    p.ops.AddTail(op.pluginEntry);
  }

  method LinkReg(head: Entry, p: Plugin, ghost ps: seq<Plugin>)
    requires RegRing(head, ps) && p.Made() && p.entry.Unlinked() && head != p.entry
    modifies head.Nodes(), p.entry
    ensures RegRing(head, ps + [p])
  {
    hide Entry.IsRing;
    head.AddTail(p.entry);
  }

  method UnlinkFunc(ghost head: Entry, op: Op, ghost os: seq<Op>, ghost k: nat)
    requires FuncRing(head, os) && k < |os| && os[k] == op
    modifies head.Nodes()
    ensures FuncRing(head, Remove(os, k)) && op.funcEntry.Lone()
  {
    hide Entry.IsRing;
    head.RingAt(k);
    op.funcEntry.Unlink(k);
  }

  method UnlinkOwn(p: Plugin, op: Op, ghost os: seq<Op>, ghost k: nat)
    requires OwnRing(p, os) && k < |os| && os[k] == op
    modifies p.ops.Nodes()
    ensures OwnRing(p, Remove(os, k)) && op.pluginEntry.Lone()
  {
    hide Entry.IsRing;
    p.ops.RingAt(k);
    op.pluginEntry.Unlink(k);
  }

  method UnlinkReg(head: Entry, p: Plugin, ghost ps: seq<Plugin>, ghost k: nat)
    requires RegRing(head, ps) && k < |ps| && ps[k] == p
    modifies head.Nodes()
    ensures RegRing(head, Remove(ps, k)) && p.entry.Lone()
  {
    hide Entry.IsRing;
    head.RingAt(k);
    p.entry.Unlink(k);
  }
}
