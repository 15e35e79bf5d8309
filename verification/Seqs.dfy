// Sequences: insertion and removal at a position, distinctness, and a cursor position.
module Seqs {

  ghost function Insert<T>(s: seq<T>, k: nat, x: T): seq<T>
    requires k <= |s|
  {
    s[..k] + [x] + s[k..]
  }

  ghost function Remove<T>(s: seq<T>, k: nat): seq<T>
    requires k < |s|
  {
    s[..k] + s[k + 1..]
  }

  // No element occurs twice. The pairs are named so that a proof asks for the ones it needs.
  ghost predicate Distinct<T>(s: seq<T>) {
    forall i, j {:trigger Differ(s, i, j)} :: 0 <= i < j < |s| ==> Differ(s, i, j)
  }

  ghost predicate Differ<T>(s: seq<T>, i: int, j: int)
    requires 0 <= i < |s| && 0 <= j < |s|
  {
    s[i] != s[j]
  }

  ghost function IndexOf<T>(s: seq<T>, x: T): (k: nat)
    requires x in s
    ensures k < |s| && s[k] == x
  {
    var k :| 0 <= k < |s| && s[k] == x;
    k
  }

  lemma DistinctIndex<T>(s: seq<T>, i: nat, j: nat)
    requires Distinct(s) && i < |s| && j < |s| && s[i] == s[j]
    ensures i == j
  {
    assert i < j ==> Differ(s, i, j);
    assert j < i ==> Differ(s, j, i);
  }

  lemma DistinctPairs<T>(s: seq<T>)
    requires Distinct(s)
    ensures forall i, j :: 0 <= i < j < |s| ==> s[i] != s[j]
  {
    forall i, j | 0 <= i < j < |s|
      ensures s[i] != s[j]
    {
      assert Differ(s, i, j);
    }
  }

  lemma DistinctTail<T>(s: seq<T>)
    requires Distinct(s) && s != []
    ensures Distinct(s[1..]) && s[0] !in s[1..]
  {
    var tail := s[1..];
    forall i, j | 0 <= i < j < |tail|
      ensures Differ(tail, i, j)
    {
      assert Differ(s, i + 1, j + 1);
    }
    forall i | 1 <= i < |s|
      ensures s[i] != s[0]
    {
      assert Differ(s, 0, i);
    }
  }

  lemma DistinctFront<T>(s: seq<T>)
    requires Distinct(s) && s != []
    ensures Distinct(s[..|s| - 1]) && s[|s| - 1] !in s[..|s| - 1]
  {
    var front := s[..|s| - 1];
    forall i, j | 0 <= i < j < |front|
      ensures Differ(front, i, j)
    {
      assert Differ(s, i, j);
    }
    forall i | 0 <= i < |s| - 1
      ensures s[i] != s[|s| - 1]
    {
      assert Differ(s, i, |s| - 1);
    }
  }

  lemma AppendDistinct<T>(s: seq<T>, x: T)
    requires Distinct(s) && x !in s
    ensures Distinct(s + [x])
  {
    var r := s + [x];
    forall i, j | 0 <= i < j < |r|
      ensures Differ(r, i, j)
    {
      assert j < |s| ==> Differ(s, i, j);
    }
  }

  lemma InsertDistinct<T>(s: seq<T>, k: nat, x: T)
    requires k <= |s| && Distinct(s) && x !in s
    ensures Distinct(Insert(s, k, x))
    ensures forall y :: y in Insert(s, k, x) <==> y == x || y in s
  {
    var r := Insert(s, k, x);
    forall i, j | 0 <= i < j < |r|
      ensures Differ(r, i, j)
    {
      if i != k && j != k {
        assert Differ(s, if i < k then i else i - 1, if j < k then j else j - 1);
      }
    }
    assert s == s[..k] + s[k..];
  }

  lemma RemoveDistinct<T>(s: seq<T>, k: nat)
    requires k < |s| && Distinct(s)
    ensures Distinct(Remove(s, k))
    ensures forall y :: y in Remove(s, k) <==> y != s[k] && y in s
  {
    DistinctPairs(s);
    var r := Remove(s, k);
    forall i, j | 0 <= i < j < |r|
      ensures Differ(r, i, j)
    {
      assert Differ(s, if i < k then i else i + 1, if j < k then j else j + 1);
    }
    assert forall i :: 0 <= i < |s| && i != k ==> s[i] == r[if i < k then i else i - 1];
  }

  lemma InsertRemove<T>(s: seq<T>, k: nat, x: T)
    requires k <= |s|
    ensures k < |Insert(s, k, x)| && Insert(s, k, x)[k] == x && Remove(Insert(s, k, x), k) == s
    ensures forall y :: y in Insert(s, k, x) ==> y == x || y in s
  {
    assert s == s[..k] + s[k..];
  }

  lemma RemoveLength<T>(s: seq<T>, k: nat)
    requires k < |s|
    ensures |Remove(s, k)| == |s| - 1
  {
  }

  lemma RemoveIndex<T>(s: seq<T>, k: nat, i: nat)
    requires k < |s| && i < |s| - 1
    ensures |Remove(s, k)| == |s| - 1 && Remove(s, k)[i] == s[if i < k then i else i + 1]
  {
  }

  lemma RemoveHead<T>(s: seq<T>)
    requires s != []
    ensures Remove(s, 0) == s[1..]
  {
  }

  lemma RemoveMembers<T>(s: seq<T>, k: nat)
    requires k < |s|
    ensures forall y :: y in Remove(s, k) ==> y in s
  {
  }

  // A cursor stands before `rest`; `done` is behind it.
  ghost predicate Split<T>(s: seq<T>, done: seq<T>, rest: seq<T>) {
    s == done + rest
  }

  lemma SplitAt<T>(s: seq<T>, done: seq<T>, rest: seq<T>)
    requires Split(s, done, rest) && rest != []
    ensures |done| < |s| && s[|done|] == rest[0]
    ensures |rest| == 1 ==> |s| == |done| + 1
    ensures |rest| > 1 ==> |done| + 1 < |s| && s[|done| + 1] == rest[1..][0]
  {
  }

  lemma RemoveHere<T>(done: seq<T>, rest: seq<T>)
    requires rest != []
    ensures done + rest == done + [rest[0]] + rest[1..]
    ensures Remove(done + rest, |done|) == done + rest[1..]
    ensures forall x :: x in done + rest[1..] ==> x in done + rest
  {
  }

  // The elements of s that are in `keep`, in order.
  ghost function Filter<T>(s: seq<T>, keep: set<T>): seq<T> {
    if s == [] then []
    else
      var n := |s| - 1;
      Filter(s[..n], keep) + if s[n] in keep then [s[n]] else []
  }

  lemma {:induction false} FilterMember<T>(s: seq<T>, keep: set<T>, x: T)
    ensures x in Filter(s, keep) <==> x in s && x in keep
  {
    if s != [] {
      FilterMember(s[..|s| - 1], keep, x);
      assert s == s[..|s| - 1] + [s[|s| - 1]];
    }
  }

  lemma {:induction false} FilterNone<T>(s: seq<T>)
    ensures Filter(s, {}) == []
  {
    if s != [] {
      FilterNone(s[..|s| - 1]);
    }
  }

  // One turn of a loop that visits a sequence and keeps or removes the element at the cursor.
  lemma FilterTurn<T>(was: seq<T>, visited: seq<T>, rest: seq<T>, keep: set<T>)
    requires Split(was, visited, rest) && rest != []
    ensures Split(was, visited + [rest[0]], rest[1..])
    ensures Filter(visited + [rest[0]], keep) == Filter(visited, keep) + if rest[0] in keep then [rest[0]] else []
  {
    assert (visited + [rest[0]])[..|visited|] == visited;
  }

  lemma SplitEnds<T>(s: seq<T>, done: seq<T>)
    ensures Split(s, [], s)
    ensures Split(s, done, []) ==> s == done
  {
  }

  lemma SplitRemove<T>(s: seq<T>, done: seq<T>, rest: seq<T>)
    requires Split(s, done, rest) && rest != []
    ensures |done| < |s| && s[|done|] == rest[0]
    ensures Split(Remove(s, |done|), done, rest[1..])
    ensures Split(s, done + [rest[0]], rest[1..])
  {
  }

  // In a distinct sequence the cursor has not been visited and is not still to come.
  lemma SplitDistinct<T>(s: seq<T>, done: seq<T>, rest: seq<T>)
    requires Split(s, done, rest) && rest != [] && Distinct(s)
    ensures rest[0] !in done && rest[0] !in rest[1..]
  {
    forall i | 0 <= i < |s| && i != |done|
      ensures s[i] != rest[0]
    {
      assert Differ(s, if i < |done| then i else |done|, if i < |done| then |done| else i);
    }
    assert forall i :: 0 <= i < |done| ==> s[i] == done[i];
    assert forall i :: 1 <= i < |rest| ==> s[|done| + i] == rest[i];
  }

  // How often x occurs in s.
  function Times<T(==)>(s: seq<T>, x: T): nat {
    if s == [] then 0 else (if s[0] == x then 1 else 0) + Times(s[1..], x)
  }

  lemma {:induction false} TimesIn<T>(s: seq<T>, x: T)
    ensures Times(s, x) > 0 <==> x in s
  {
    if s != [] {
      TimesIn(s[1..], x);
      assert s == [s[0]] + s[1..];
    }
  }

  lemma {:induction false} TimesAppend<T>(s: seq<T>, a: T, x: T)
    ensures Times(s + [a], x) == Times(s, x) + if a == x then 1 else 0
  {
    if s != [] {
      TimesAppend(s[1..], a, x);
      assert (s + [a])[1..] == s[1..] + [a];
    }
  }

  // The list without the first occurrence of x; the list itself if there is none.
  function RemoveFirst<T(==)>(s: seq<T>, x: T): seq<T> {
    if s == [] then []
    else if s[0] == x then s[1..]
    else [s[0]] + RemoveFirst(s[1..], x)
  }

  lemma {:induction false} TimesRemoveFirst<T>(s: seq<T>, x: T, y: T)
    ensures Times(RemoveFirst(s, x), y) == Times(s, y) - if x == y && x in s then 1 else 0
    ensures y in RemoveFirst(s, x) ==> y in s
  {
    if s != [] {
      assert s == [s[0]] + s[1..];
      if s[0] != x {
        TimesRemoveFirst(s[1..], x, y);
        assert RemoveFirst(s, x)[1..] == RemoveFirst(s[1..], x);
      }
    }
  }

  lemma {:induction false} RemoveFirstAt<T>(s: seq<T>, x: T, k: nat)
    requires k < |s| && s[k] == x && x !in s[..k]
    ensures RemoveFirst(s, x) == Remove(s, k)
  {
    if k > 0 {
      assert s[..k] == [s[0]] + s[1..][..k - 1];
      RemoveFirstAt(s[1..], x, k - 1);
    }
  }

  // From the first x on there is nothing but x.
  ghost predicate Trails<T>(s: seq<T>, x: T) {
    forall i, j :: 0 <= i <= j < |s| && s[i] == x ==> s[j] == x
  }

  // Appending x and removing the first x gives back the list if and only if no other element
  // stands behind an x.
  lemma {:induction false} RemoveFirstAppended<T>(s: seq<T>, x: T)
    ensures RemoveFirst(s + [x], x) == s <==> Trails(s, x)
  {
    if s != [] {
      var r := RemoveFirst(s + [x], x);
      assert (s + [x])[1..] == s[1..] + [x];
      if s[0] == x {
        if r == s {
          ShiftedSame(s, x);
        }
        assert Trails(s, x) ==> r == s;
      } else {
        RemoveFirstAppended(s[1..], x);
        TrailsTail(s, x);
        assert r == [s[0]] + RemoveFirst(s[1..] + [x], x);
        assert r == s <==> RemoveFirst(s[1..] + [x], x) == s[1..];
      }
    }
  }

  lemma TrailsTail<T>(s: seq<T>, x: T)
    requires s != [] && s[0] != x
    ensures Trails(s, x) <==> Trails(s[1..], x)
  {
    if Trails(s[1..], x) {
      forall i, j | 0 <= i <= j < |s| && s[i] == x
        ensures s[j] == x
      {
        assert s[1..][i - 1] == x;
        assert s[1..][j - 1] == s[j];
      }
    }
  }

  lemma {:induction false} ShiftedSame<T>(s: seq<T>, x: T)
    requires s != [] && s[1..] + [x] == s
    ensures Trails(s, x)
  {
    var k := |s| - 1;
    assert s[k] == (s[1..] + [x])[k];
    while k > 0
      invariant 0 <= k < |s| && forall j :: k <= j < |s| ==> s[j] == x
    {
      assert s[k - 1] == (s[1..] + [x])[k - 1];
      k := k - 1;
    }
  }
}
