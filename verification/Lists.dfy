// The intrusive circular doubly linked list.
//
// An `Entry` is what a container embeds; a list is an entry used as a head. The code
// itself knows only `next` and `prev`. Two ghost fields carry the proof: every entry
// records the head of the ring it is in (itself when it is in none), and every head
// records the entries linked behind it, in order. Because an entry has one `ring`,
// rings with different heads are disjoint without a separate disjointness clause, and
// `Unlink`, which is never told the head, can still say which list it shortens.
module Lists {

  import opened Seqs

  class Entry {
    var next: Entry
    var prev: Entry
    // What `get_container` computes from the address of the entry; null in a list head.
    const container: object?
    ghost var ring: Entry
    ghost var items: seq<Entry>

    // An initialised entry points to itself; an initialised list is an initialised entry.
    constructor (container: object?)
      ensures Lone() && IsRing() && this.container == container
    {
      next, prev, this.container := this, this, container;
      ring, items := this, [];
    }

    // In no ring and the head of none. Its pointers may hold anything.
    ghost predicate Unlinked()
      reads this
    {
      ring == this && items == []
    }

    // Initialised and in no ring: an empty list, or an entry that can be linked.
    ghost predicate Lone()
      reads this
    {
      Unlinked() && next == this && prev == this
    }

    // `this` heads a well-formed ring whose other members are exactly `items`.
    ghost predicate IsRing()
      reads this, items
    {
      && ring == this
      && this !in items
      && (forall e :: e in items ==> e.ring == this)
      && Distinct(items)
      && Linked(items)
    }

    // The pointers form the cycle this, s[0], s[1], ..., this in both directions.
    ghost predicate Linked(s: seq<Entry>)
      reads this, s
    {
      && next == NodeIn(s, 0)
      && prev == NodeIn(s, |s| - 1)
      && (forall i {:trigger s[i].next} :: 0 <= i < |s| ==> s[i].next == NodeIn(s, i + 1))
      && (forall i {:trigger s[i].prev} :: 0 <= i < |s| ==> s[i].prev == NodeIn(s, i - 1))
    }

    // The node at position i; the head stands before the first item and after the last.
    ghost function NodeIn(s: seq<Entry>, i: int): Entry
      requires -1 <= i <= |s|
    {
      if 0 <= i < |s| then s[i] else this
    }

    // The head and its items: all that an operation on this list may touch.
    ghost function Nodes(): set<Entry>
      reads this
    {
      {this} + set e | e in items
    }

    // `this` is linked, and the ring it is in is well formed.
    ghost predicate Member()
      reads this, ring, ring.items
    {
      ring.IsRing() && this in ring.items
    }

    lemma RingHead()
      requires IsRing()
      ensures ring == this && next == NodeIn(items, 0) && prev == NodeIn(items, |items| - 1)
    {
    }

    lemma LoneIsRing()
      ensures Lone() ==> IsRing() && items == []
    {
    }

    lemma RingAt(k: nat)
      requires IsRing() && k < |items|
      ensures items[k] != this && items[k].ring == this
      ensures items[k].next == NodeIn(items, k + 1) && items[k].prev == NodeIn(items, k - 1)
    {
    }

    lemma RingMembers()
      requires IsRing()
      ensures ring == this
      ensures forall e :: e in items ==> e != this && e.ring == this
    {
    }

    method Init()
      modifies this
      ensures Lone()
    {
      next := this;
      prev := this;
      ring, items := this, [];
    }

    method IsEmpty() returns (b: bool)
      requires IsRing()
      ensures b <==> items == []
    {
      b := next == this;
    }

    method IsLinked() returns (b: bool)
      requires Member() || Lone()
      ensures b <==> ring != this
    {
      b := next != this;
      DistinctPairs(ring.items);
    }

    // The neighbours of s[k] skip it; every other pointer is as before.
    twostate predicate SplicedOut(s: seq<Entry>, k: nat)
      requires k < |s|
      reads this, s
    {
      && NodeIn(s, k - 1).next == NodeIn(s, k + 1)
      && NodeIn(s, k + 1).prev == NodeIn(s, k - 1)
      && (forall i {:trigger s[i].next} :: 0 <= i < |s| && i != k && i != k - 1 ==> s[i].next == old(s[i].next))
      && (forall i {:trigger s[i].prev} :: 0 <= i < |s| && i != k && i != k + 1 ==> s[i].prev == old(s[i].prev))
      && (k != 0 ==> next == old(next))
      && (k != |s| - 1 ==> prev == old(prev))
    }

    // A new entry stands between the nodes at k - 1 and k; every other pointer is as before.
    twostate predicate SplicedIn(s: seq<Entry>, k: nat, new entry: Entry)
      requires k <= |s|
      reads this, s, entry
    {
      && entry != this
      && entry !in s
      && entry.next == NodeIn(s, k)
      && entry.prev == NodeIn(s, k - 1)
      && NodeIn(s, k - 1).next == entry
      && NodeIn(s, k).prev == entry
      && (forall i {:trigger s[i].next} :: 0 <= i < |s| && i != k - 1 ==> s[i].next == old(s[i].next))
      && (forall i {:trigger s[i].prev} :: 0 <= i < |s| && i != k ==> s[i].prev == old(s[i].prev))
      && (k != 0 ==> next == old(next))
      && (k != |s| ==> prev == old(prev))
    }

    lemma NodeInRemove(s: seq<Entry>, k: nat, i: int)
      requires k < |s| && -1 <= i < |s|
      ensures |Remove(s, k)| == |s| - 1
      ensures NodeIn(Remove(s, k), i) == NodeIn(s, if i < k then i else i + 1)
    {
    }

    lemma NodeInInsert(s: seq<Entry>, k: nat, entry: Entry, i: int)
      requires k <= |s| && -1 <= i <= |s| + 1
      ensures |Insert(s, k, entry)| == |s| + 1
      ensures NodeIn(Insert(s, k, entry), i)
        == if i < k then NodeIn(s, i) else if i == k then entry else NodeIn(s, i - 1)
    {
    }

    twostate lemma LinkedAfterUnlink(k: nat)
      requires old(IsRing()) && k < |old(items)| && SplicedOut(old(items), k)
      ensures Linked(Remove(old(items), k))
    {
      hide Remove;
      var s := old(items);
      DistinctPairs(s);
      var r := Remove(s, k);
      NodeInRemove(s, k, 0);
      NodeInRemove(s, k, |s| - 2);
      forall i | 0 <= i < |r|
        ensures r[i].next == NodeIn(r, i + 1) && r[i].prev == NodeIn(r, i - 1)
      {
        NodeInRemove(s, k, i - 1);
        NodeInRemove(s, k, i);
        NodeInRemove(s, k, i + 1);
        var j := if i < k then i else i + 1;
        assert s[j].next == if j == k - 1 then NodeIn(s, k + 1) else NodeIn(s, j + 1);
        assert s[j].prev == if j == k + 1 then NodeIn(s, k - 1) else NodeIn(s, j - 1);
      }
    }

    twostate lemma LinkedAfterLink(k: nat, new entry: Entry)
      requires old(IsRing()) && k <= |old(items)| && SplicedIn(old(items), k, entry)
      ensures Linked(Insert(old(items), k, entry))
    {
      hide Insert;
      var s := old(items);
      DistinctPairs(s);
      var r := Insert(s, k, entry);
      NodeInInsert(s, k, entry, 0);
      NodeInInsert(s, k, entry, |s|);
      forall i | 0 <= i < |r|
        ensures r[i].next == NodeIn(r, i + 1) && r[i].prev == NodeIn(r, i - 1)
      {
        NodeInInsert(s, k, entry, i - 1);
        NodeInInsert(s, k, entry, i);
        NodeInInsert(s, k, entry, i + 1);
        if i != k {
          var j := if i < k then i else i - 1;
          assert s[j].next == if j == k - 1 then entry else NodeIn(s, j + 1);
          assert s[j].prev == if j == k then entry else NodeIn(s, j - 1);
        }
      }
    }

    // Link `this` between two adjacent nodes of the ring headed by `list`.
    method Link(before: Entry, after: Entry, ghost list: Entry, ghost k: nat)
      requires Unlinked() && list != this
      requires list.IsRing() && k <= |list.items|
      requires before == list.NodeIn(list.items, k - 1) && after == list.NodeIn(list.items, k)
      modifies this, list.Nodes()
      ensures list.IsRing() && list.items == Insert(old(list.items), k, this)
      ensures Member() && ring == list
    {
      next := after;
      after.prev := this;
      prev := before;
      before.next := this;
      ring := list;
      ghost var was := list.items;
      list.items := Insert(was, k, this);
      DistinctPairs(was);
      InsertDistinct(was, k, this);
      list.LinkedAfterLink(k, this);
    }

    method AddHead(entry: Entry)
      requires IsRing() && entry.Unlinked() && entry != this
      modifies Nodes(), entry
      ensures IsRing() && items == [entry] + old(items)
      ensures entry.Member() && entry.ring == this
    {
      entry.Link(this, next, this, 0);
    }

    method AddTail(entry: Entry)
      requires IsRing() && entry.Unlinked() && entry != this
      modifies Nodes(), entry
      ensures IsRing() && items == old(items) + [entry]
      ensures entry.Member() && entry.ring == this
    {
      entry.Link(prev, this, this, |items|);
    }

    // Unlink the entry at position k of its list. The head is found through the ghost field only.
    method Unlink(ghost k: nat)
      requires ring.IsRing() && k < |ring.items| && ring.items[k] == this
      modifies ring.Nodes()
      ensures old(ring).IsRing() && old(ring).items == Remove(old(ring.items), k)
      ensures Lone()
    {
      ghost var list, was := ring, ring.items;
      prev.next := next;
      next.prev := prev;
      Init();
      list.items := Remove(was, k);
      RemoveDistinct(was, k);
      forall e | e in list.items
        ensures e.ring == list
      {
        assert e in was && e != this;
      }
      list.LinkedAfterUnlink(k);
    }

    method RemoveHead() returns (entry: Entry?)
      requires IsRing()
      modifies Nodes()
      ensures IsRing()
      ensures old(items) == [] ==> entry == null && items == []
      ensures old(items) != [] ==>
        entry == old(items)[0] && items == old(items)[1..] && entry.Lone()
    {
      var empty := IsEmpty();
      if empty {
        return null;
      }
      entry := next;
      entry.Unlink(0);
    }

    method RemoveTail() returns (entry: Entry?)
      requires IsRing()
      modifies Nodes()
      ensures IsRing()
      ensures old(items) == [] ==> entry == null && items == []
      ensures old(items) != [] ==>
        entry == old(items)[|old(items)| - 1] && items == old(items)[..|old(items)| - 1]
        && entry.Lone()
    {
      var empty := IsEmpty();
      if empty {
        return null;
      }
      entry := prev;
      entry.Unlink(|items| - 1);
    }

    // Reading `next` from the head visits exactly the items, in order, and comes back.
    method ForEach() returns (visited: seq<Entry>)
      requires IsRing()
      ensures visited == items
    {
      visited := [];
      var iter := next;
      while iter != this
        invariant |visited| <= |items| && visited == items[..|visited|]
        invariant iter == NodeIn(items, |visited|)
        decreases |items| - |visited|
      {
        visited := visited + [iter];
        iter := iter.next;
      }
    }

    // A loop body of the safe loop: it unlinks the cursor or leaves it alone.
    method SafeBody(iter: Entry, unlink: bool, ghost done: seq<Entry>, ghost rest: seq<Entry>)
      requires IsRing() && rest != [] && Split(items, done, rest) && iter == rest[0]
      modifies Nodes()
      ensures IsRing() && Split(items, if unlink then done else done + [iter], rest[1..])
      ensures forall e :: e in items ==> e in old(items)
      ensures unlink ==> iter.Lone()
      ensures forall e: Entry :: old(allocated(e)) && old(e.ring) != this ==> unchanged(e)
    {
      hide IsRing, Remove;
      RingMembers();
      RingAt(|done|);
      if unlink {
        iter.Unlink(|done|);
      }
      RemoveHere(done, rest);
    }

    // The safe loop, for any body that either leaves the cursor alone or unlinks it:
    // `drop` holds the turns on which it unlinks. Every entry that was linked at the
    // start is visited once, in order; what remains are the entries the body kept, in order.
    method ForEachSafe(drop: set<nat>) returns (visited: seq<Entry>)
      requires IsRing()
      modifies Nodes()
      ensures visited == old(items)
      ensures IsRing() && items == Kept(old(items), drop)
      ensures forall i :: 0 <= i < |old(items)| && i in drop ==> old(items)[i].Lone()
    {
      hide IsRing, Split, Kept, Dropped;
      ghost var was, done: seq<Entry>, rest := items, [], items;
      ghost var dropped: set<Entry> := {};
      visited := [];
      SafeStart(was, drop);
      RingHead();
      RingMembers();
      var iter := next;
      var tmp := iter.next;
      while iter != this
        invariant IsRing() && Split(items, done, rest) && Split(was, visited, rest)
        invariant done == Kept(visited, drop)
        invariant forall e :: e in items ==> e in was
        invariant iter == NodeIn(rest, 0) && (rest != [] ==> iter != this)
        invariant tmp == iter.next
        invariant dropped == Dropped(visited, drop) && forall e :: e in dropped ==> e != this && e.Lone()
        decreases |rest|
      {
        SplitAt(items, done, rest);
        RingAt(|done|);
        var unlink := |visited| in drop;
        SafeBody(iter, unlink, done, rest);
        SafeTurn(was, visited, rest, drop);
        done := if unlink then done else done + [iter];
        dropped := if unlink then dropped + {iter} else dropped;
        rest := rest[1..];
        visited := visited + [iter];
        iter := tmp;
        RingHead();
        RingMembers();
        tmp := tmp.next;
      }
      SafeEnd(was, visited, rest, done, items, drop);
    }

    // The pointers determine the sequence: no two sequences fit the same ring.
    lemma LinkedUnique(s: seq<Entry>, t: seq<Entry>)
      requires Linked(s) && Linked(t) && this !in s && this !in t
      ensures s == t
    {
      var i := 0;
      while i < |s| && i < |t|
        invariant 0 <= i <= |s| && i <= |t| && s[..i] == t[..i]
      {
        assert i > 0 ==> s[i - 1].next == s[i] && t[i - 1].next == t[i] && s[..i][i - 1] == t[..i][i - 1];
        i := i + 1;
      }
      if i > 0 {
        assert s[i - 1].next == NodeIn(s, i) && t[i - 1].next == NodeIn(t, i) && s[..i][i - 1] == t[..i][i - 1];
      }
    }

    // Linking an entry anywhere and unlinking it again leaves every pointer as it was.
    method LinkThenUnlink(before: Entry, after: Entry, ghost list: Entry, ghost k: nat)
      requires Lone() && list != this && list.IsRing() && k <= |list.items|
      requires before == list.NodeIn(list.items, k - 1) && after == list.NodeIn(list.items, k)
      modifies this, list.Nodes()
      ensures forall e: Entry :: e == this || e == list || e in old(list.items) ==>
        e.next == old(e.next) && e.prev == old(e.prev) && e.ring == old(e.ring)
      ensures list.items == old(list.items) && items == old(items)
    {
      hide IsRing, Insert, Remove, NodeIn;
      ghost var was := list.items;
      list.RingShape();
      InsertRemove(was, k, this);
      Link(before, after, list, k);
      Unlink(k);
      list.RingShape();
    }

    lemma RingShape()
      requires IsRing()
      ensures ring == this && next == NodeIn(items, 0) && prev == NodeIn(items, |items| - 1)
      ensures forall i {:trigger items[i].next} :: 0 <= i < |items| ==> items[i].next == NodeIn(items, i + 1)
      ensures forall i {:trigger items[i].prev} :: 0 <= i < |items| ==> items[i].prev == NodeIn(items, i - 1)
      ensures forall e :: e in items ==> e != this && e.ring == this
    {
    }

    method AddTailThenUnlink(entry: Entry)
      requires IsRing() && entry.Lone() && entry != this
      modifies Nodes(), entry
      ensures forall e: Entry :: e == this || e == entry || e in old(items) ==>
        e.next == old(e.next) && e.prev == old(e.prev) && e.ring == old(e.ring)
      ensures items == old(items) && entry.items == []
    {
      entry.LinkThenUnlink(prev, this, this, |items|);
    }
  }

  // The entries of `s` whose turn was not dropped.
  ghost function Kept(s: seq<Entry>, drop: set<nat>): seq<Entry> {
    if s == [] then []
    else
      var n := |s| - 1;
      Kept(s[..n], drop) + if n in drop then [] else [s[n]]
  }

  ghost function Dropped(s: seq<Entry>, drop: set<nat>): set<Entry> {
    if s == [] then {}
    else
      var n := |s| - 1;
      Dropped(s[..n], drop) + if n in drop then {s[n]} else {}
  }

  lemma DroppedAt(s: seq<Entry>, drop: set<nat>, i: nat)
    requires i < |s| && i in drop
    ensures s[i] in Dropped(s, drop)
  {
    if i < |s| - 1 {
      DroppedAt(s[..|s| - 1], drop, i);
    }
  }

  lemma SafeStart(was: seq<Entry>, drop: set<nat>)
    ensures Split(was, [], was) && Kept([], drop) == [] && Dropped([], drop) == {}
  {
  }

  lemma SafeTurn(was: seq<Entry>, visited: seq<Entry>, rest: seq<Entry>, drop: set<nat>)
    requires Split(was, visited, rest) && rest != []
    ensures Split(was, visited + [rest[0]], rest[1..])
    ensures Kept(visited + [rest[0]], drop) == Kept(visited, drop) + if |visited| in drop then [] else [rest[0]]
    ensures Dropped(visited + [rest[0]], drop) == Dropped(visited, drop) + if |visited| in drop then {rest[0]} else {}
  {
    assert (visited + [rest[0]])[..|visited|] == visited;
  }

  lemma SafeEnd(was: seq<Entry>, visited: seq<Entry>, rest: seq<Entry>, done: seq<Entry>, now: seq<Entry>, drop: set<nat>)
    requires Split(was, visited, rest) && Split(now, done, rest) && rest == []
    ensures was == visited && now == done
    ensures forall i :: 0 <= i < |was| && i in drop ==> was[i] in Dropped(visited, drop)
  {
    forall i | 0 <= i < |was| && i in drop
      ensures was[i] in Dropped(was, drop)
    {
      DroppedAt(was, drop, i);
    }
  }
}
