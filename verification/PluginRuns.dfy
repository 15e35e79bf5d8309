// Plugins and the operations they implement, as one abstract state: the plugin list, one list
// of operations per type, and one list of operations per plugin. Its transitions are the calls
// on the plugin registry.
module PluginRuns {
  import opened Codes
  import opened Seqs
  import opened Lists

  const FUNCTIONS_NR: nat := 24

  // What a plugin declares about itself; `kinds` is a set of vaccel_plugin_type bits.
  datatype Info = Info(hasName: bool, hasInit: bool, hasFini: bool, kinds: bv32, hasSessInit: bool, hasSessFree: bool)

  datatype Option<T> = None | Some(value: T)

  class Plugin {
    const info: Option<Info>
    // Links the plugin into the plugin list.
    var entry: Entry
    // Head of the list of its operations.
    var ops: Entry

    // As VACCEL_MODULE initialises it.
    constructor (info: Option<Info>)
      ensures this.info == info && Made() && fresh(entry) && fresh(ops)
      ensures entry.Lone() && ops.Lone()
    {
      this.info := info;
      entry := new Entry(null);
      ops := new Entry(null);
      new;
      entry := new Entry(this);
      ops := new Entry(this);
    }

    ghost predicate Made()
      reads this
    {
      entry.container == this && ops.container == this && entry != ops
    }
  }

  class Op {
    const typ: nat
    // The function pointer; 0 is NULL.
    const func: int
    const owner: Plugin?
    var pluginEntry: Entry
    var funcEntry: Entry

    // As VACCEL_OP_INIT initialises it.
    constructor (typ: nat, func: int, owner: Plugin?)
      ensures this.typ == typ && this.func == func && this.owner == owner
      ensures Made() && fresh(pluginEntry) && fresh(funcEntry) && pluginEntry.Lone() && funcEntry.Lone()
    {
      this.typ, this.func, this.owner := typ, func, owner;
      pluginEntry := new Entry(null);
      funcEntry := new Entry(null);
      new;
      pluginEntry := new Entry(this);
      funcEntry := new Entry(this);
    }

    ghost predicate Made()
      reads this
    {
      pluginEntry.container == this && funcEntry.container == this && pluginEntry != funcEntry
    }
  }

  // `owned` has one list for every plugin whose code is loaded; `finis` lists the clean-up
  // calls made so far.
  datatype State = State(on: bool, regs: seq<Plugin>, lists: seq<seq<Op>>, owned: map<Plugin, seq<Op>>,
                         virtio: Plugin?, finis: seq<Plugin>)

  datatype Command =
    | Load(p: Plugin)
    | Bootstrap
    | Register(p: Plugin)
    | RegisterOp(o: Op)
    | Unregister(p: Plugin)
    | Shutdown

  // ---- The operations of one plugin taken out of a list ----

  ghost function NotOf(s: seq<Op>, p: Plugin): seq<Op> {
    if s == [] then [] else (if s[0].owner == p then [] else [s[0]]) + NotOf(s[1..], p)
  }

  ghost function AllNotOf(lists: seq<seq<Op>>, p: Plugin): (r: seq<seq<Op>>)
    ensures |r| == |lists| && forall t :: 0 <= t < |lists| ==> r[t] == NotOf(lists[t], p)
  {
    seq(|lists|, t requires 0 <= t < |lists| => NotOf(lists[t], p))
  }

  lemma {:induction false} NotOfMembers(s: seq<Op>, p: Plugin)
    ensures forall o :: o in NotOf(s, p) <==> o in s && o.owner != p
  {
    if s != [] {
      NotOfMembers(s[1..], p);
      assert s == [s[0]] + s[1..];
    }
  }

  lemma {:induction false} NotOfFrom(s: seq<Op>, p: Plugin)
    ensures forall i :: 0 <= i < |NotOf(s, p)| ==> NotOf(s, p)[i] in s && NotOf(s, p)[i].owner != p
  {
    if s != [] {
      NotOfFrom(s[1..], p);
      assert s == [s[0]] + s[1..];
    }
  }

  lemma {:induction false} NotOfDistinct(s: seq<Op>, p: Plugin)
    requires Distinct(s)
    ensures Distinct(NotOf(s, p))
  {
    if s != [] {
      DistinctTail(s);
      NotOfDistinct(s[1..], p);
      NotOfMembers(s[1..], p);
      PrependDistinct(NotOf(s[1..], p), s[0]);
      assert [] + NotOf(s[1..], p) == NotOf(s[1..], p);
    }
  }

  lemma PrependDistinct<T>(s: seq<T>, x: T)
    requires Distinct(s)
    ensures x !in s ==> Distinct([x] + s)
  {
    var r := [x] + s;
    if x !in s {
      forall i, j | 0 <= i < j < |r|
        ensures Differ(r, i, j)
      {
        assert i > 0 ==> Differ(s, i - 1, j - 1);
      }
    }
  }

  lemma {:induction false} NotOfNone(s: seq<Op>, p: Plugin)
    requires forall o :: o in s ==> o.owner != p
    ensures NotOf(s, p) == s
  {
    if s != [] {
      NotOfNone(s[1..], p);
    }
  }

  lemma {:induction false} NotOfRemove(s: seq<Op>, p: Plugin, k: nat)
    requires k < |s| && s[k].owner == p
    ensures NotOf(Remove(s, k), p) == NotOf(s, p)
  {
    if k > 0 {
      NotOfRemove(s[1..], p, k - 1);
      assert Remove(s, k)[0] == s[0] && Remove(s, k)[1..] == Remove(s[1..], k - 1);
    } else {
      assert Remove(s, 0) == s[1..];
    }
  }

  // x stands before y in s.
  ghost predicate Before<T>(s: seq<T>, x: T, y: T) {
    exists i, j :: 0 <= i < j < |s| && s[i] == x && s[j] == y
  }

  lemma {:induction false} NotOfBefore(s: seq<Op>, p: Plugin, x: Op, y: Op)
    requires Before(NotOf(s, p), x, y)
    ensures Before(s, x, y)
  {
    var r := NotOf(s, p);
    var i, j :| 0 <= i < j < |r| && r[i] == x && r[j] == y;
    if s[0].owner != p && i == 0 {
      NotOfMembers(s[1..], p);
      assert y == NotOf(s[1..], p)[j - 1];
      assert s[0] == x && s[1..][IndexOf(s[1..], y)] == y;
    } else {
      var d := if s[0].owner == p then 0 else 1;
      assert NotOf(s[1..], p)[i - d] == x && NotOf(s[1..], p)[j - d] == y;
      NotOfBefore(s[1..], p, x, y);
      var a, b :| 0 <= a < b < |s[1..]| && s[1..][a] == x && s[1..][b] == y;
      assert s[a + 1] == x && s[b + 1] == y;
    }
  }

  // ---- The invariant ----

  // What check_plugin_info asks for.
  predicate Usable(p: Plugin) {
    p.info.Some? && p.info.value.hasName && p.info.value.hasInit && p.info.value.hasFini
  }

  predicate Virtual(p: Plugin)
    requires p.info.Some?
  {
    p.info.value.hasSessInit && p.info.value.hasSessFree
  }

  // The two indexes agree: an operation is in the list of its type exactly when it is in the
  // list of its owner, and once in each.
  ghost predicate Agree(lists: seq<seq<Op>>, owned: map<Plugin, seq<Op>>) {
    && |lists| == FUNCTIONS_NR
    && (forall t :: 0 <= t < FUNCTIONS_NR ==> Distinct(lists[t]))
    && (forall p :: p in owned ==> Distinct(owned[p]))
    && (forall t, o :: 0 <= t < FUNCTIONS_NR && o in lists[t] ==> Indexed(o, t, owned))
    && (forall p, o :: p in owned && o in owned[p] ==> o.owner == p && o.typ < FUNCTIONS_NR && o in lists[o.typ])
  }

  ghost predicate Indexed(o: Op, t: nat, owned: map<Plugin, seq<Op>>) {
    o.typ == t && o.owner != null && o.owner in owned && o.owner.info.Some? && o in owned[o.owner]
  }

  ghost predicate Inv(st: State) {
    && Agree(st.lists, st.owned)
    && Distinct(st.regs)
    && (forall p :: p in st.regs ==> p in st.owned && Usable(p))
    && (!st.on ==> st.regs == [])
  }

  // What callers have to see to: see the README.
  ghost predicate Legal(st: State, c: Command) {
    match c
    case Load(p) => p !in st.owned
    case Bootstrap => st.regs == [] && forall t :: 0 <= t < |st.lists| ==> st.lists[t] == []
    case Register(p) => p in st.owned && p.info.Some?
    case RegisterOp(o) =>
      Accepted(o) ==> o.owner in st.owned && o.owner.info.Some? && (o.typ < |st.lists| ==> o !in st.lists[o.typ])
    case Unregister(p) => p in st.owned
    case Shutdown => true
  }

  // What registering an operation checks.
  predicate Accepted(o: Op) {
    o.func != 0 && o.typ < FUNCTIONS_NR && o.owner != null
  }

  ghost function Result(st: State, c: Command): int
    requires Inv(st) && Legal(st, c)
  {
    match c
    case Load(_) => OK
    case Bootstrap => OK
    case Register(p) =>
      if !st.on then EBACKEND
      else if p in st.regs then EEXISTS
      else if st.owned[p] != [] || !Usable(p) then EINVAL
      else OK
    case RegisterOp(o) =>
      if o.func == 0 then EINVAL
      else if o.typ >= FUNCTIONS_NR then EINVAL + 1
      else if o.owner == null then EINVAL + 2
      else OK
    case Unregister(p) =>
      if !st.on then EBACKEND
      else if p !in st.regs then ENOENT
      else OK
    case Shutdown => OK
  }

  ghost function Step(st: State, c: Command): State
    requires Inv(st) && Legal(st, c)
  {
    if Result(st, c) != OK then st
    else
      match c
      case Load(p) => st.(owned := st.owned[p := []])
      case Bootstrap => st.(on := true)
      case Register(p) =>
        st.(regs := st.regs + [p], virtio := if Virtual(p) && st.virtio == null then p else st.virtio)
      case RegisterOp(o) =>
        st.(lists := st.lists[o.typ := st.lists[o.typ] + [o]],
            owned := st.owned[o.owner := st.owned[o.owner] + [o]])
      case Unregister(p) => Gone(st, p)
      case Shutdown =>
        if !st.on then st else AllGone(st, st.regs).(virtio := null, on := false)
  }

  // The state without the registered plugin p and its operations.
  ghost function Gone(st: State, p: Plugin): State
    requires p in st.regs
  {
    st.(regs := RemoveFirst(st.regs, p), lists := AllNotOf(st.lists, p), owned := st.owned[p := []],
        finis := st.finis + [p])
  }

  // The state without the first plugins, one after the other.
  ghost function AllGone(st: State, ps: seq<Plugin>): State
    requires ps <= st.regs
    decreases |ps|
  {
    if ps == [] then st
    else AllGone(Gone(st, ps[0]), ps[1..])
  }

  // ---- Every command keeps the invariant ----

  lemma GoneAgrees(lists: seq<seq<Op>>, owned: map<Plugin, seq<Op>>, p: Plugin)
    requires Agree(lists, owned) && p in owned
    ensures Agree(AllNotOf(lists, p), owned[p := []])
  {
    hide NotOf;
    forall t | 0 <= t < FUNCTIONS_NR
      ensures Distinct(NotOf(lists[t], p)) && forall o :: o in NotOf(lists[t], p) <==> o in lists[t] && o.owner != p
    {
      NotOfDistinct(lists[t], p);
      NotOfMembers(lists[t], p);
    }
    assert forall t, o :: 0 <= t < FUNCTIONS_NR && o in lists[t] ==> Indexed(o, t, owned);
    forall q, o | q in owned && q != p && o in owned[q]
      ensures o.owner == q && o.typ < FUNCTIONS_NR && o in AllNotOf(lists, p)[o.typ]
    {
      assert o in lists[o.typ];
    }
    forall t, o | 0 <= t < FUNCTIONS_NR && o in AllNotOf(lists, p)[t]
      ensures Indexed(o, t, owned[p := []])
    {
      assert Indexed(o, t, owned);
    }
  }

  // Taking the first operation of p out of both indexes.
  lemma TurnAgrees(lists: seq<seq<Op>>, owned: map<Plugin, seq<Op>>, p: Plugin)
    requires Agree(lists, owned) && p in owned && owned[p] != []
    ensures var o := owned[p][0];
      && o.owner == p && o.typ < |lists| && o in lists[o.typ]
      && var k := IndexOf(lists[o.typ], o);
         var less := lists[o.typ := Remove(lists[o.typ], k)];
         Agree(less, owned[p := owned[p][1..]]) && AllNotOf(less, p) == AllNotOf(lists, p)
  {
    hide NotOf;
    var o := owned[p][0];
    assert o in owned[p];
    assert o.owner == p;
    var k := IndexOf(lists[o.typ], o);
    RemoveDistinct(lists[o.typ], k);
    NotOfRemove(lists[o.typ], p, k);
    DistinctTail(owned[p]);
    var less, owned' := lists[o.typ := Remove(lists[o.typ], k)], owned[p := owned[p][1..]];
    forall t, x | 0 <= t < FUNCTIONS_NR && x in less[t]
      ensures Indexed(x, t, owned')
    {
      assert Indexed(x, t, owned);
    }
    assert owned[p] == [o] + owned[p][1..];
  }

  // Once p has no operation left, all its operations are out of the lists.
  lemma NoneLeft(lists: seq<seq<Op>>, owned: map<Plugin, seq<Op>>, p: Plugin)
    requires Agree(lists, owned) && p in owned && owned[p] == []
    ensures AllNotOf(lists, p) == lists
  {
    forall t | 0 <= t < FUNCTIONS_NR
      ensures NotOf(lists[t], p) == lists[t]
    {
      forall o | o in lists[t]
        ensures o.owner != p
      {
        assert Indexed(o, t, owned);
      }
      NotOfNone(lists[t], p);
    }
  }

  lemma GoneIs(st: State, p: Plugin, k: nat)
    requires Distinct(st.regs) && k < |st.regs| && st.regs[k] == p
    ensures Gone(st, p) == st.(regs := Remove(st.regs, k), lists := AllNotOf(st.lists, p),
                               owned := st.owned[p := []], finis := st.finis + [p])
  {
    DistinctPairs(st.regs);
    RemoveFirstAt(st.regs, p, k);
  }

  lemma GoneKeeps(st: State, p: Plugin)
    requires Inv(st) && p in st.regs
    ensures Inv(Gone(st, p)) && (st.regs[0] == p ==> Gone(st, p).regs == st.regs[1..])
  {
    hide Agree, AllNotOf;
    GoneAgrees(st.lists, st.owned, p);
    var k := IndexOf(st.regs, p);
    RemoveDistinct(st.regs, k);
    GoneIs(st, p, k);
    assert st.regs[0] == p ==> k == 0 by { DistinctPairs(st.regs); }
  }

  lemma {:induction false} AllGoneKeeps(st: State, ps: seq<Plugin>)
    requires Inv(st) && ps <= st.regs
    ensures Inv(AllGone(st, ps)) && AllGone(st, ps).regs == st.regs[|ps|..]
    ensures AllGone(st, ps).finis == st.finis + ps
    decreases |ps|
  {
    if ps != [] {
      GoneKeeps(st, ps[0]);
      AllGoneKeeps(Gone(st, ps[0]), ps[1..]);
    }
  }

  lemma RegisterOpKeeps(st: State, o: Op)
    requires Inv(st) && Legal(st, RegisterOp(o)) && Accepted(o)
    ensures Inv(Step(st, RegisterOp(o)))
  {
    var n := Step(st, RegisterOp(o));
    AppendDistinct(st.lists[o.typ], o);
    AppendDistinct(st.owned[o.owner], o);
    forall t, x | 0 <= t < FUNCTIONS_NR && x in n.lists[t]
      ensures Indexed(x, t, n.owned)
    {
      if x != o {
        assert Indexed(x, t, st.owned);
      }
    }
  }

  lemma StepKeeps(st: State, c: Command)
    requires Inv(st) && Legal(st, c)
    ensures Inv(Step(st, c))
  {
    hide Agree;
    match c
    case Load(p) => LoadKeeps(st, p);
    case Bootstrap =>
    case Register(p) =>
      if Result(st, c) == OK {
        AppendDistinct(st.regs, p);
      }
    case RegisterOp(o) =>
      if Accepted(o) {
        RegisterOpKeeps(st, o);
      }
    case Unregister(p) =>
      if Result(st, c) == OK {
        GoneKeeps(st, p);
      }
    case Shutdown =>
      if st.on {
        AllGoneKeeps(st, st.regs);
      }
  }

  lemma LoadKeeps(st: State, p: Plugin)
    requires Inv(st) && p !in st.owned
    ensures Agree(st.lists, st.owned[p := []])
  {
    forall t, x | 0 <= t < FUNCTIONS_NR && x in st.lists[t]
      ensures Indexed(x, t, st.owned[p := []])
    {
      assert Indexed(x, t, st.owned);
    }
  }

  // As bootstrapping leaves it at first.
  ghost function Start(): (st: State)
    ensures Inv(st)
  {
    State(true, [], seq(FUNCTIONS_NR, t => []), map[], null, [])
  }

  // The operations added one after the other.
  ghost function AddAll(st: State, os: seq<Op>): State
    decreases |os|
  {
    if os == [] then st
    else
      var n, o := AddAll(st, os[..|os| - 1]), os[|os| - 1];
      if Accepted(o) && o.typ < |n.lists| && o.owner in n.owned then
        n.(lists := n.lists[o.typ := n.lists[o.typ] + [o]], owned := n.owned[o.owner := n.owned[o.owner] + [o]])
      else n
  }

  lemma AddAllNext(st: State, os: seq<Op>, i: nat)
    requires i < |os| && Accepted(os[i])
    requires Inv(AddAll(st, os[..i])) && Legal(AddAll(st, os[..i]), RegisterOp(os[i]))
    ensures AddAll(st, os[..i + 1]) == Step(AddAll(st, os[..i]), RegisterOp(os[i]))
  {
    assert os[..i + 1][..i] == os[..i];
  }

  // Registering one operation does not stand in the way of registering another.
  lemma LegalStays(st: State, o: Op, x: Op)
    requires Inv(st) && Legal(st, RegisterOp(o)) && Legal(st, RegisterOp(x)) && o != x
    ensures Legal(Step(st, RegisterOp(o)), RegisterOp(x))
  {
  }

  lemma ResultIs(st: State, o: Op)
    requires Inv(st) && Legal(st, RegisterOp(o))
    ensures Result(st, RegisterOp(o)) == OK <==> Accepted(o)
    ensures Result(st, RegisterOp(o)) ==
      if o.func == 0 then EINVAL
      else if o.typ >= FUNCTIONS_NR then EINVAL + 1
      else if o.owner == null then EINVAL + 2
      else OK
    ensures !Accepted(o) ==> Step(st, RegisterOp(o)) == st
  {
  }

  lemma AddAllNone(st: State)
    ensures AddAll(st, []) == st
  {
  }
}
