// What whole runs of the plugin registry guarantee: which operation a lookup finds, told by
// the history of calls alone, and how clean-up calls match registrations.
module PluginHistory {
  import opened Codes
  import opened Seqs
  import opened PluginRuns

  ghost predicate LegalRun(cs: seq<Command>)
    decreases |cs|, 0
  {
    cs == [] || (LegalRun(Front(cs)) && Legal(Run(Front(cs)), Last(cs)))
  }

  ghost function Run(cs: seq<Command>): (st: State)
    requires LegalRun(cs)
    ensures Inv(st)
    decreases |cs|, 1
  {
    if cs == [] then Start()
    else
      StepKeeps(Run(Front(cs)), Last(cs));
      Step(Run(Front(cs)), Last(cs))
  }

  ghost function Front<T>(s: seq<T>): seq<T>
    requires s != []
  {
    s[..|s| - 1]
  }

  ghost function Last<T>(s: seq<T>): T
    requires s != []
  {
    s[|s| - 1]
  }

  // The plugins whose operations a command takes away.
  ghost function Removed(st: State, c: Command): set<Plugin> {
    match c
    case Unregister(p) => if st.on && p in st.regs then {p} else {}
    case Shutdown => set p | p in st.regs
    case _ => {}
  }

  // The i-th call registered o, and no later call has taken o's owner away.
  ghost predicate Still(cs: seq<Command>, i: nat, o: Op)
    requires LegalRun(cs)
    decreases |cs|
  {
    if i >= |cs| then false
    else if i == |cs| - 1 then cs[i] == RegisterOp(o) && Accepted(o)
    else Still(Front(cs), i, o) && o.owner !in Removed(Run(Front(cs)), Last(cs))
  }

  // ---- One command and the list of one type ----

  lemma {:induction false} AllGoneLists(st: State, ps: seq<Plugin>, t: nat)
    requires ps <= st.regs && t < |st.lists|
    ensures |AllGone(st, ps).lists| == |st.lists|
    ensures forall o :: o in AllGone(st, ps).lists[t] <==> o in st.lists[t] && o.owner !in ps
    ensures forall x, y :: Before(AllGone(st, ps).lists[t], x, y) ==> Before(st.lists[t], x, y)
    decreases |ps|
  {
    if ps != [] {
      var n := Gone(st, ps[0]);
      AllGoneLists(n, ps[1..], t);
      NotOfMembers(st.lists[t], ps[0]);
      forall x, y | Before(n.lists[t], x, y)
        ensures Before(st.lists[t], x, y)
      {
        NotOfBefore(st.lists[t], ps[0], x, y);
      }
      assert ps == [ps[0]] + ps[1..];
    }
  }

  // A command keeps the operations whose owners stay, in their order, and can add one at the end.
  lemma StepLists(st: State, c: Command, t: nat)
    requires Inv(st) && Legal(st, c) && t < FUNCTIONS_NR
    ensures |Step(st, c).lists| == |st.lists| == FUNCTIONS_NR
    ensures !Adds(c, t) ==>
      && (forall o :: o in Step(st, c).lists[t] <==> o in st.lists[t] && o.owner !in Removed(st, c))
      && (forall x, y :: Before(Step(st, c).lists[t], x, y) ==> Before(st.lists[t], x, y))
    ensures Adds(c, t) ==> c.o !in st.lists[t] && Step(st, c).lists[t] == st.lists[t] + [c.o] && Removed(st, c) == {}
  {
    match c
    case Unregister(p) =>
      if Result(st, c) == OK {
        NotOfMembers(st.lists[t], p);
        forall x, y | Before(NotOf(st.lists[t], p), x, y)
          ensures Before(st.lists[t], x, y)
        {
          NotOfBefore(st.lists[t], p, x, y);
        }
      }
    case Shutdown =>
      if st.on {
        AllGoneLists(st, st.regs, t);
      }
    case _ =>
  }

  ghost predicate Adds(c: Command, t: nat) {
    c.RegisterOp? && Accepted(c.o) && c.o.typ == t
  }

  // ---- Lists are history ----

  ghost predicate Present(cs: seq<Command>, o: Op)
    requires LegalRun(cs)
  {
    exists i: nat :: Still(cs, i, o)
  }

  lemma PresentNext(cs: seq<Command>, o: Op)
    requires LegalRun(cs) && cs != []
    ensures Present(cs, o) <==>
      || (Last(cs) == RegisterOp(o) && Accepted(o))
      || (Present(Front(cs), o) && o.owner !in Removed(Run(Front(cs)), Last(cs)))
  {
    hide Run, LegalRun, Removed;
    LegalFront(cs);
    if Present(cs, o) {
      var i: nat :| Still(cs, i, o);
      assert i < |cs| - 1 ==> Still(Front(cs), i, o);
    }
    if Last(cs) == RegisterOp(o) && Accepted(o) {
      assert Still(cs, |cs| - 1, o);
    }
    if Present(Front(cs), o) && o.owner !in Removed(Run(Front(cs)), Last(cs)) {
      var i: nat :| Still(Front(cs), i, o);
      assert Still(cs, i, o);
    }
  }

  lemma LegalFront(cs: seq<Command>)
    requires LegalRun(cs) && cs != []
    ensures LegalRun(Front(cs)) && Legal(Run(Front(cs)), Last(cs))
    ensures Run(cs) == Step(Run(Front(cs)), Last(cs))
  {
  }

  // The list of a type holds exactly the operations still registered.
  lemma {:induction false} ListIsHistory(cs: seq<Command>, t: nat, o: Op)
    requires LegalRun(cs) && t < FUNCTIONS_NR
    ensures |Run(cs).lists| == FUNCTIONS_NR
    ensures o in Run(cs).lists[t] <==> o.typ == t && Present(cs, o)
    decreases |cs|
  {
    hide Run, LegalRun, Inv, Legal, Step, Present, Removed;
    if cs != [] {
      LegalFront(cs);
      ListIsHistory(Front(cs), t, o);
      StepLists(Run(Front(cs)), Last(cs), t);
      PresentNext(cs, o);
    } else {
      NothingYet(cs);
    }
  }

  lemma NothingYet(cs: seq<Command>)
    requires cs == [] && LegalRun(cs)
    ensures Run(cs).lists == seq(FUNCTIONS_NR, t => [])
    ensures forall o :: !Present(cs, o)
  {
  }

  // And in the order they were registered in.
  lemma {:induction false} OrderIsHistory(cs: seq<Command>, t: nat, x: Op, y: Op, i: nat, j: nat)
    requires LegalRun(cs) && t < FUNCTIONS_NR && t < |Run(cs).lists|
    requires Before(Run(cs).lists[t], x, y) && Still(cs, i, x) && Still(cs, j, y)
    ensures i < j
    decreases |cs|
  {
    hide Run, LegalRun, Inv, Legal, Step, Removed, Present;
    if cs == [] {
      NothingYet(cs);
    } else {
      var c, s := Last(cs), Run(cs).lists[t];
      LegalFront(cs);
      StepLists(Run(Front(cs)), c, t);
      var a, b :| 0 <= a < b < |s| && s[a] == x && s[b] == y;
      ListIsHistory(cs, t, x);
      if i == |cs| - 1 {
        assert false;
      }
      if j < |cs| - 1 {
        StillPresent(Front(cs), j, y);
        ListIsHistory(Front(cs), t, y);
        if Adds(c, t) {
          assert y != c.o;
          assert Before(Run(Front(cs)).lists[t], x, y);
        }
        OrderIsHistory(Front(cs), t, x, y, i, j);
      }
    }
  }

  lemma StillPresent(cs: seq<Command>, i: nat, o: Op)
    requires LegalRun(cs) && Still(cs, i, o)
    ensures Present(cs, o)
  {
  }

  // ---- Lookup ----

  predicate Matches(hint: bv32, kinds: bv32) {
    hint & kinds != 0
  }

  // No bit matches nothing; more bits match what any of them matches; one bit matches exactly
  // the sets it is in. Together these say what every hint matches.
  lemma NothingMatches(kinds: bv32)
    ensures !Matches(0, kinds)
  {
  }

  lemma EitherMatches(a: bv32, b: bv32, kinds: bv32)
    ensures Matches(a | b, kinds) <==> Matches(a, kinds) || Matches(b, kinds)
  {
    assert (a | b) & kinds == (a & kinds) | (b & kinds);
  }

  lemma OneBitMatches(a: bv32, kinds: bv32)
    requires a != 0 && a & (a - 1) == 0
    ensures Matches(a, kinds) <==> a & kinds == a
  {
  }

  // The owner's kinds meet the hint.
  predicate Meets(o: Op, hint: bv32) {
    o.owner != null && o.owner.info.Some? && Matches(hint, o.owner.info.value.kinds)
  }

  // The first operation that meets the hint; if none does, or there is no hint, the first one.
  function FirstMeeting(s: seq<Op>, hint: bv32): (r: Op?)
    ensures r != null ==> r in s && Meets(r, hint)
    ensures r == null ==> forall o :: o in s ==> !Meets(o, hint)
  {
    if s == [] then null
    else if Meets(s[0], hint) then s[0]
    else FirstMeeting(s[1..], hint)
  }

  function Lookup(s: seq<Op>, hint: bv32): (r: Op?)
    ensures r == null <==> s == []
    ensures r != null ==> r in s
  {
    if s == [] then null
    else if hint == 0 || FirstMeeting(s, hint) == null then s[0]
    else FirstMeeting(s, hint)
  }

  lemma {:induction false} FirstMeetingIsFirst(s: seq<Op>, hint: bv32, o: Op)
    requires o in s && Meets(o, hint)
    ensures var r := FirstMeeting(s, hint); r != null && (r == o || Before<Op>(s, r, o))
  {
    if Meets(s[0], hint) {
      if s[0] != o {
        assert s[IndexOf(s, o)] == o;
      }
    } else {
      FirstMeetingIsFirst(s[1..], hint, o);
      var r := FirstMeeting(s[1..], hint);
      if r != o {
        var a, b :| 0 <= a < b < |s[1..]| && s[1..][a] == r && s[1..][b] == o;
        assert s[a + 1] == r && s[b + 1] == o;
      }
    }
  }

  // The lookup answers with the first element that meets a non-zero hint, and with the first of
  // all if there is no hint or nothing meets it.
  lemma LookupChooses(s: seq<Op>, hint: bv32) returns (i: nat)
    requires s != []
    ensures i < |s| && Lookup(s, hint) == s[i]
    ensures if hint != 0 && (exists j :: 0 <= j < |s| && Meets(s[j], hint))
            then Meets(s[i], hint) && forall j :: 0 <= j < i ==> !Meets(s[j], hint)
            else i == 0
  {
    hide Meets;
    i := 0;
    if hint != 0 && FirstMeeting(s, hint) != null {
      while !Meets(s[i], hint)
        invariant i < |s| && FirstMeeting(s, hint) == FirstMeeting(s[i..], hint)
        invariant forall j :: 0 <= j < i ==> !Meets(s[j], hint)
        decreases |s| - i
      {
        assert s[i..][1..] == s[i + 1..];
        i := i + 1;
      }
    }
  }

  // The kinds of the plugin that o belongs to.
  function KindsOf(o: Op): bv32 {
    if o.owner != null && o.owner.info.Some? then o.owner.info.value.kinds else 0
  }

  // s[i] is the first whose owner shares a bit with the hint, or the first of all if no owner does.
  ghost predicate Chosen(s: seq<Op>, hint: bv32, i: nat) {
    && i < |s|
    && if exists j :: 0 <= j < |s| && Matches(hint, KindsOf(s[j]))
       then Matches(hint, KindsOf(s[i])) && forall j :: 0 <= j < i ==> !Matches(hint, KindsOf(s[j]))
       else i == 0
  }

  lemma LookupIsChosen(s: seq<Op>, hint: bv32) returns (i: nat)
    requires s != []
    ensures Chosen(s, hint, i) && Lookup(s, hint) == s[i]
  {
    hide Matches, Meets, KindsOf, Lookup;
    i := LookupChooses(s, hint);
    forall j | 0 <= j < |s|
      ensures Matches(hint, KindsOf(s[j])) <==> hint != 0 && Meets(s[j], hint)
    {
      MeetsBits(s[j], hint);
    }
  }

  lemma MeetsBits(o: Op, hint: bv32)
    ensures Meets(o, hint) <==> Matches(hint, KindsOf(o))
    ensures Matches(hint, KindsOf(o)) ==> hint != 0
  {
    hide Matches;
    NothingMatches(KindsOf(o));
    NothingMatches(hint);
    MatchesEitherWay(hint, KindsOf(o));
  }

  lemma MatchesEitherWay(a: bv32, b: bv32)
    ensures Matches(a, b) <==> Matches(b, a)
  {
  }

  lemma HeadIsFirst(s: seq<Op>, o: Op)
    requires o in s && o != s[0]
    ensures Before(s, s[0], o)
  {
    assert s[IndexOf(s, o)] == o;
  }

  // Some operation of type t that is still registered meets a non-zero hint.
  ghost predicate Hinted(cs: seq<Command>, t: nat, hint: bv32)
    requires LegalRun(cs)
  {
    hint != 0 && exists i :: 0 <= i < |cs| && HintedAt(cs, i, t, hint)
  }

  ghost predicate HintedAt(cs: seq<Command>, i: nat, t: nat, hint: bv32)
    requires LegalRun(cs) && i < |cs|
  {
    cs[i].RegisterOp? && Present(cs, cs[i].o) && cs[i].o.typ == t && Meets(cs[i].o, hint)
  }

  lemma HintedBy(cs: seq<Command>, t: nat, hint: bv32, o: Op)
    requires LegalRun(cs) && hint != 0 && Present(cs, o) && o.typ == t && Meets(o, hint)
    ensures Hinted(cs, t, hint)
  {
    var i: nat :| Still(cs, i, o);
    StillAt(cs, i, o);
    assert HintedAt(cs, i, t, hint);
  }

  lemma {:induction false} StillAt(cs: seq<Command>, i: nat, o: Op)
    requires LegalRun(cs) && Still(cs, i, o)
    ensures i < |cs| && cs[i] == RegisterOp(o)
    decreases |cs|
  {
    if i < |cs| - 1 {
      StillAt(Front(cs), i, o);
    }
  }

  // After any run a lookup answers null exactly when no operation of the type is registered;
  // otherwise with the operation registered earliest among those that meet the hint, or among
  // all of the type if none does.
  lemma LookupIsHistory(cs: seq<Command>, t: nat, hint: bv32)
    requires LegalRun(cs) && t < FUNCTIONS_NR
    ensures |Run(cs).lists| == FUNCTIONS_NR
    ensures var r := Lookup(Run(cs).lists[t], hint);
      && (r == null <==> forall o :: Present(cs, o) ==> o.typ != t)
      && (r != null ==> Present(cs, r) && r.typ == t && (Hinted(cs, t, hint) ==> Meets(r, hint)))
      && forall i: nat, j: nat, o :: (r != null && Still(cs, i, r) && Still(cs, j, o) && o != r && o.typ == t
           && (Hinted(cs, t, hint) ==> Meets(o, hint))) ==> i < j
  {
    hide Run, LegalRun, Present, Still, Before, FirstMeeting;
    RunShape(cs);
    var s := Run(cs).lists[t];
    var r := Lookup(s, hint);
    forall o
      ensures o in s <==> o.typ == t && Present(cs, o)
    {
      ListIsHistory(cs, t, o);
    }
    if r != null && !Hinted(cs, t, hint) && FirstMeeting(s, hint) != null && hint != 0 {
      HintedBy(cs, t, hint, FirstMeeting(s, hint));
    }
    forall i: nat, j: nat, o | r != null && Still(cs, i, r) && Still(cs, j, o) && o != r && o.typ == t
        && (Hinted(cs, t, hint) ==> Meets(o, hint))
      ensures i < j
    {
      StillPresent(cs, j, o);
      if Hinted(cs, t, hint) {
        FirstMeetingIsFirst(s, hint, o);
      } else {
        HeadIsFirst(s, o);
      }
      OrderIsHistory(cs, t, r, o, i, j);
    }
  }

  lemma RunShape(cs: seq<Command>)
    requires LegalRun(cs)
    ensures |Run(cs).lists| == FUNCTIONS_NR
  {
  }

  lemma {:induction false} FirstMeetingStays(s: seq<Op>, p: Plugin, hint: bv32)
    ensures FirstMeeting(s, hint) == null ==> FirstMeeting(NotOf(s, p), hint) == null
    ensures FirstMeeting(s, hint) != null && FirstMeeting(s, hint).owner != p ==>
      FirstMeeting(NotOf(s, p), hint) == FirstMeeting(s, hint)
  {
    hide Meets;
    if s != [] {
      FirstMeetingStays(s[1..], p, hint);
      var r := NotOf(s, p);
      if s[0].owner == p {
        assert r == NotOf(s[1..], p);
      } else {
        assert r[0] == s[0] && r[1..] == NotOf(s[1..], p);
      }
    }
  }

  // Unregistering a plugin changes the answer if and only if the answer was one of its operations.
  lemma UnregisterAnswer(st: State, p: Plugin, t: nat, hint: bv32)
    requires Inv(st) && Legal(st, Unregister(p)) && Result(st, Unregister(p)) == OK && t < FUNCTIONS_NR
    ensures |st.lists| == |Step(st, Unregister(p)).lists| == FUNCTIONS_NR
    ensures var r := Lookup(st.lists[t], hint);
      Lookup(Step(st, Unregister(p)).lists[t], hint) != r <==> r != null && r.owner == p
  {
    var s := st.lists[t];
    FirstMeetingStays(s, p, hint);
    NotOfMembers(s, p);
    if s != [] {
      assert NotOf(s, p) == (if s[0].owner == p then [] else [s[0]]) + NotOf(s[1..], p);
    }
  }

  lemma {:induction false} FirstMeetingAppend(s: seq<Op>, o: Op, hint: bv32)
    ensures FirstMeeting(s + [o], hint) ==
      if FirstMeeting(s, hint) != null then FirstMeeting(s, hint) else if Meets(o, hint) then o else null
  {
    if s != [] {
      FirstMeetingAppend(s[1..], o, hint);
      assert (s + [o])[1..] == s[1..] + [o];
    }
  }

  // Registering an operation changes the answer for its type if and only if there was none, or
  // it meets a hint that nothing met before.
  lemma RegisterAnswer(st: State, o: Op, t: nat, hint: bv32)
    requires Inv(st) && Legal(st, RegisterOp(o)) && Accepted(o) && t < FUNCTIONS_NR
    ensures |st.lists| == |Step(st, RegisterOp(o)).lists| == FUNCTIONS_NR
    ensures var s := st.lists[t];
      Lookup(Step(st, RegisterOp(o)).lists[t], hint) != Lookup(s, hint) <==>
        o.typ == t && (s == [] || (hint != 0 && Meets(o, hint) && forall x :: x in s ==> !Meets(x, hint)))
  {
    var s := st.lists[t];
    FirstMeetingAppend(s, o, hint);
    if hint != 0 && Meets(o, hint) && forall x :: x in s ==> !Meets(x, hint) {
      assert FirstMeeting(s, hint) == null;
    }
  }

  // ---- Shutdown and clean-up calls ----

  // Shutting down leaves no operation in any list if and only if every operation belonged to a
  // registered plugin; the plugin list is empty in any case, and the clean-up calls come in
  // registration order.
  lemma ShutdownDrains(st: State)
    requires Inv(st)
    ensures var n := Step(st, Shutdown);
      && n.regs == [] && n.finis == st.finis + st.regs && !n.on && |n.lists| == |st.lists| == FUNCTIONS_NR
      && (st.on ==> n.virtio == null)
      && ((forall t :: 0 <= t < FUNCTIONS_NR ==> n.lists[t] == []) <==>
            forall t, o :: 0 <= t < FUNCTIONS_NR && o in st.lists[t] ==> o.owner in st.regs)
  {
    ShutdownState(st);
    hide Inv, Step, AllGone, AllNotOf;
    var n := Step(st, Shutdown);
    forall t | 0 <= t < FUNCTIONS_NR
      ensures n.lists[t] == [] <==> forall o :: o in st.lists[t] ==> o.owner in st.regs
    {
      ShutdownList(st, t);
    }
  }

  lemma ShutdownState(st: State)
    requires Inv(st)
    ensures var n := Step(st, Shutdown);
      n.regs == [] && n.finis == st.finis + st.regs && !n.on && |n.lists| == |st.lists| == FUNCTIONS_NR
      && (st.on ==> n.virtio == null)
  {
    if st.on {
      AllGoneKeeps(st, st.regs);
    }
  }

  lemma ShutdownList(st: State, t: nat)
    requires Inv(st) && t < FUNCTIONS_NR
    ensures |Step(st, Shutdown).lists| == |st.lists| == FUNCTIONS_NR
    ensures Step(st, Shutdown).lists[t] == [] <==> forall o :: o in st.lists[t] ==> o.owner in st.regs
  {
    AllGoneEmpty(st, st.regs, t);
    if st.on {
      AllGoneLists(st, st.regs, t);
    } else {
      assert st.lists[t] != [] ==> st.lists[t][0] in st.lists[t];
    }
  }

  lemma OwnersAmong(s: seq<Op>, ps: seq<Plugin>)
    requires ps != []
    ensures (forall o :: o in NotOf(s, ps[0]) ==> o.owner in ps[1..]) <==> forall o :: o in s ==> o.owner in ps
  {
    hide NotOf;
    var r := NotOf(s, ps[0]);
    NotOfMembers(s, ps[0]);
    assert ps == [ps[0]] + ps[1..];
    if forall o :: o in r ==> o.owner in ps[1..] {
      forall o | o in s
        ensures o.owner in ps
      {
        assert o.owner != ps[0] ==> o in r;
      }
    } else {
      var o :| o in r && o.owner !in ps[1..];
      assert o in s;
    }
  }

  lemma {:induction false} AllGoneEmpty(st: State, ps: seq<Plugin>, t: nat)
    requires ps <= st.regs && t < |st.lists|
    ensures |AllGone(st, ps).lists| == |st.lists|
    ensures AllGone(st, ps).lists[t] == [] <==> forall o :: o in st.lists[t] ==> o.owner in ps
    decreases |ps|
  {
    if ps == [] {
      assert st.lists[t] != [] ==> st.lists[t][0] in st.lists[t];
    } else {
      AllGoneEmpty(Gone(st, ps[0]), ps[1..], t);
      OwnersAmong(st.lists[t], ps);
    }
  }

  // Unregistering does not clear the VirtIO plugin: it still is a registered one if and only if
  // another plugin was unregistered.
  lemma VirtioRegisteredIff(st: State, p: Plugin)
    requires Inv(st) && st.on && p in st.regs && st.virtio != null && st.virtio in st.regs
    ensures var n := Step(st, Unregister(p)); n.virtio != null && (n.virtio in n.regs <==> st.virtio != p)
  {
    var k := IndexOf(st.regs, p);
    GoneIs(st, p, k);
    RemoveDistinct(st.regs, k);
  }

  // Successful registrations of p during a run.
  ghost function Registrations(cs: seq<Command>, p: Plugin): nat
    requires LegalRun(cs)
    decreases |cs|
  {
    if cs == [] then 0
    else
      Registrations(Front(cs), p) +
      (if Last(cs) == Register(p) && Result(Run(Front(cs)), Last(cs)) == OK then 1 else 0)
  }

  lemma {:induction false} TimesConcat<T>(s: seq<T>, t: seq<T>, x: T)
    ensures Times(s + t, x) == Times(s, x) + Times(t, x)
    decreases |t|
  {
    if t == [] {
      assert s + t == s;
    } else {
      TimesConcat(s + [t[0]], t[1..], x);
      TimesAppend(s, t[0], x);
      assert s + [t[0]] + t[1..] == s + t;
    }
  }

  // Each successful registration is matched by one clean-up call, or the plugin is still registered.
  lemma {:induction false} EachCleanedOnce(cs: seq<Command>, p: Plugin)
    requires LegalRun(cs)
    ensures Registrations(cs, p) == Times(Run(cs).finis, p) + if p in Run(cs).regs then 1 else 0
    decreases |cs|
  {
    hide Agree, AllNotOf, NotOf;
    if cs != [] {
      var st, c := Run(Front(cs)), Last(cs);
      EachCleanedOnce(Front(cs), p);
      match c
      case Unregister(q) =>
        if Result(st, c) == OK {
          GoneOnce(st, q, p);
        }
      case Shutdown =>
        if st.on {
          AllGoneKeeps(st, st.regs);
          TimesConcat(st.finis, st.regs, p);
          TimesDistinct(st.regs, p);
        }
      case _ =>
    }
  }

  lemma GoneOnce(st: State, q: Plugin, p: Plugin)
    requires Inv(st) && q in st.regs
    ensures p in Gone(st, q).regs <==> p in st.regs && p != q
    ensures Times(Gone(st, q).finis, p) == Times(st.finis, p) + if p == q then 1 else 0
  {
    var k := IndexOf(st.regs, q);
    DistinctPairs(st.regs);
    RemoveFirstAt(st.regs, q, k);
    RemoveDistinct(st.regs, k);
    TimesAppend(st.finis, q, p);
  }

  lemma {:induction false} TimesDistinct<T>(s: seq<T>, x: T)
    requires Distinct(s)
    ensures Times(s, x) == if x in s then 1 else 0
  {
    if s != [] {
      DistinctTail(s);
      TimesDistinct(s[1..], x);
      assert s == [s[0]] + s[1..];
    }
  }

  // The i-th call registered p, and no later call has taken it away.
  ghost predicate StillRegistered(cs: seq<Command>, i: nat, p: Plugin)
    requires LegalRun(cs)
    decreases |cs|
  {
    if i >= |cs| then false
    else if i == |cs| - 1 then cs[i] == Register(p) && Result(Run(Front(cs)), cs[i]) == OK
    else StillRegistered(Front(cs), i, p) && p !in Removed(Run(Front(cs)), Last(cs))
  }

  // A command removes plugins from the plugin list, or appends one that was not in it.
  lemma StepRegs(st: State, c: Command)
    requires Inv(st) && Legal(st, c)
    ensures var n := Step(st, c);
      if c.Register? && Result(st, c) == OK then n.regs == st.regs + [c.p] && c.p !in st.regs
      else
        && (forall p :: p in n.regs <==> p in st.regs && p !in Removed(st, c))
        && (forall x, y :: Before(n.regs, x, y) ==> Before(st.regs, x, y))
  {
    hide Agree, AllNotOf;
    match c
    case Unregister(q) =>
      if Result(st, c) == OK {
        var k := IndexOf(st.regs, q);
        DistinctPairs(st.regs);
        RemoveFirstAt(st.regs, q, k);
        RemoveDistinct(st.regs, k);
        RemoveBefore(st.regs, k);
      }
    case Shutdown =>
      if st.on {
        AllGoneKeeps(st, st.regs);
      }
    case _ =>
  }

  lemma RemoveBefore<T>(s: seq<T>, k: nat)
    requires k < |s|
    ensures forall x, y :: Before(Remove(s, k), x, y) ==> Before(s, x, y)
  {
    forall x, y | Before(Remove(s, k), x, y)
      ensures Before(s, x, y)
    {
      var r := Remove(s, k);
      var i, j :| 0 <= i < j < |r| && r[i] == x && r[j] == y;
      assert s[if i < k then i else i + 1] == x && s[if j < k then j else j + 1] == y;
    }
  }

  lemma {:induction false} StillInRegs(cs: seq<Command>, i: nat, p: Plugin)
    requires LegalRun(cs) && StillRegistered(cs, i, p)
    ensures p in Run(cs).regs
    decreases |cs|
  {
    hide Run, LegalRun, Inv, Legal, Step, Removed;
    LegalFront(cs);
    StepRegs(Run(Front(cs)), Last(cs));
    if i < |cs| - 1 {
      StillInRegs(Front(cs), i, p);
    }
  }

  // The plugin list, and so the clean-up calls of a shutdown, are in registration order.
  lemma {:induction false} RegsInOrder(cs: seq<Command>, p: Plugin, q: Plugin, i: nat, j: nat)
    requires LegalRun(cs) && StillRegistered(cs, i, p) && StillRegistered(cs, j, q)
    requires Before(Run(cs).regs, p, q)
    ensures i < j
    decreases |cs|
  {
    hide Run, LegalRun, Inv, Legal, Step, Removed;
    var c, s := Last(cs), Run(cs).regs;
    LegalFront(cs);
    StepRegs(Run(Front(cs)), c);
    var a, b :| 0 <= a < b < |s| && s[a] == p && s[b] == q;
    if i == |cs| - 1 {
      assert false;
    }
    if j < |cs| - 1 {
      StillInRegs(Front(cs), j, q);
      if c.Register? && Result(Run(Front(cs)), c) == OK {
        assert q != c.p;
        assert Before(Run(Front(cs)).regs, p, q);
      }
      RegsInOrder(Front(cs), p, q, i, j);
    }
  }
}
