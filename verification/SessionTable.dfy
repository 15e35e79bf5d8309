// The table of running sessions, indexed by session id, and the pool the ids come from.
module SessionTables {
  import opened Codes
  import opened Seqs
  import opened IdPools
  import opened Resources
  import opened Sessions

  const MAX_SESSIONS: nat := 1024

  // Slot i is taken exactly when id i + 1 is live in the pool.
  ghost predicate SlotsAgree(slots: seq<Session?>, p: Pool) {
    && Sound(p) && p.max == |slots| == MAX_SESSIONS
    && forall i :: 0 <= i < MAX_SESSIONS ==> (slots[i] != null <==> i + 1 in p.live)
  }

  lemma GetSlot(slots: seq<Session?>, p: Pool, s: Session)
    requires SlotsAgree(slots, p)
    ensures var (q, id) := Get(p);
      && q.max == p.max == MAX_SESSIONS
      && (id == 0 <==> p.next >= p.max)
      && (id == 0 ==> SlotsAgree(slots, q))
      && (id != 0 ==> 1 <= id <= MAX_SESSIONS && slots[id - 1] == null && SlotsAgree(slots[id - 1 := s], q))
  {
    GetSound(p);
  }

  // Giving back an id that was only just taken restores the pool's stack and live ids.
  lemma UndoGet(slots: seq<Session?>, p: Pool)
    requires SlotsAgree(slots, p) && p.next < p.max
    ensures var (q, id) := Get(p);
      && !Ignored(q, id) && InBounds(q) && Shaped(q)
      && SlotsAgree(slots, Release(q, id)) && Release(q, id).next == p.next
      && Free(Release(q, id)) == Free(p) && Release(q, id).live == p.live
  {
    GetSound(p);
    GetReleaseRoundTrip(p);
    var (q, id) := Get(p);
    ReleaseSoundIff(q, id);
  }

  lemma ReleaseSlot(slots: seq<Session?>, p: Pool, id: int)
    requires SlotsAgree(slots, p) && p.next <= MAX_SESSIONS
    requires 1 <= id <= MAX_SESSIONS && slots[id - 1] != null
    ensures !Ignored(p, id) && InBounds(p) && id in p.live
    ensures SlotsAgree(slots[id - 1 := null], Release(p, id)) && Release(p, id).next == p.next - 1
  {
    assert slots[id - 1] != null <==> id - 1 + 1 in p.live;
    assert p.next != 0;
    ReleaseSoundIff(p, id);
  }

  class SessionTable {
    var initialized: bool
    const ids: IdPool
    const running: array<Session?>

    constructor ()
      ensures !initialized && running.Length == MAX_SESSIONS && fresh(ids) && fresh(running)
    {
      initialized := false;
      ids := new IdPool();
      running := new Session?[MAX_SESSIONS](i => null);
    }

    ghost predicate Valid()
      reads this, ids, ids.ids, running, (set s | s in running[..] && s != null)`id
    {
      && running.Length == MAX_SESSIONS
      && ids.Shape()
      && SlotsAgree(running[..], ids.View())
      && forall i :: 0 <= i < MAX_SESSIONS && running[i] != null ==> running[i].id == i + 1
    }

    twostate lemma StaysValid()
      requires old(Valid())
      requires unchanged(this) && unchanged(ids) && unchanged(ids.ids) && unchanged(running)
      requires forall i :: 0 <= i < running.Length && running[i] != null ==> running[i].id == old(running[i].id)
      ensures Valid() && running[..] == old(running[..]) && ids.View() == old(ids.View())
    {
      assert running[..] == old(running[..]);
    }

    method SessionsBootstrap(memOk: bool) returns (ret: int)
      requires running.Length == MAX_SESSIONS
      modifies this, ids, running
      ensures ret == if memOk then OK else ENOMEM
      ensures ret == OK ==> Valid() && initialized && fresh(ids.ids) && ids.View() == Fresh(MAX_SESSIONS)
      ensures ret == OK ==> forall i :: 0 <= i < MAX_SESSIONS ==> running[i] == null
    {
      ret := IdPoolNew(ids, MAX_SESSIONS, memOk);
      if ret != OK {
        return;
      }
      var i := 0;
      while i < MAX_SESSIONS
        invariant i <= MAX_SESSIONS && forall j :: 0 <= j < i ==> running[j] == null
        invariant ids.Shape() && fresh(ids.ids) && ids.View() == Fresh(MAX_SESSIONS)
      {
        running[i] := null;
        i := i + 1;
      }
      initialized := true;
      return OK;
    }

    method SessionsCleanup() returns (ret: int)
      modifies this`initialized, ids`ids
      ensures ret == OK && !initialized && ids.ids.Length == 0
    {
      ret := IdPoolDestroy(ids);
      initialized := false;
      return OK;
    }

    // The session's own lists. Building the path and the directory can fail.
    method InitializeSessionResources(sess: Session?, memOk: bool, tooLong: bool, mkdir: int) returns (ret: int)
      modifies if sess == null then {} else {sess}`resources
      ensures ret == if sess == null then EINVAL else if !memOk then ENOMEM else if tooLong then ENAMETOOLONG else mkdir
      ensures ret != OK && sess != null ==> sess.resources == old(sess.resources)
      ensures ret == OK ==>
        && sess.resources != null && fresh(sess.resources) && sess.resources.Valid()
        && sess.resources.regs == seq(RES_MAX, t => []) && fresh(sess.resources.registered)
    {
      if sess == null {
        return EINVAL;
      }
      if !memOk {
        return ENOMEM;
      }
      if tooLong {
        return ENAMETOOLONG;
      }
      if mkdir != OK {
        return mkdir;
      }
      sess.resources := new SessionResources();
      return OK;
    }

    // `sess` runs under the id the pool gave out, with nothing registered.
    ghost predicate Started(sess: Session, flags: int, slots0: seq<Session?>, p: Pool)
      reads this, ids, ids.ids, running, sess, sess.resources
    {
      && Shaped(p) && Get(p).1 == sess.id && ids.View() == Get(p).0
      && 1 <= sess.id <= |slots0| && slots0[sess.id - 1] == null
      && running[..] == slots0[sess.id - 1 := sess]
      && sess.hint == flags
      && sess.resources != null && sess.resources.regs == seq(RES_MAX, t => [])
    }

    // Nothing runs that did not run before. A pool that had capacity hands out the same ids as before.
    ghost predicate NotStarted(slots0: seq<Session?>, p: Pool)
      reads this, ids, ids.ids, running
    {
      && Shaped(p) && running[..] == slots0 && 0 <= ids.next
      && if p.next >= MAX_SESSIONS then ids.View() == Get(p).0
         else
           && Shaped(Get(p).0) && InBounds(Get(p).0) && ids.View() == Release(Get(p).0, Get(p).1)
           && ids.next == p.next && Free(ids.View()) == Free(p) && ids.live == p.live
    }

    lemma StartedParts(sess: Session, flags: int, slots0: seq<Session?>, p: Pool)
      requires Started(sess, flags, slots0, p)
      ensures Shaped(p) && Get(p).1 == sess.id && ids.View() == Get(p).0
      ensures 1 <= sess.id <= |slots0| && slots0[sess.id - 1] == null && running[..] == slots0[sess.id - 1 := sess]
      ensures sess.resources != null && sess.resources.regs == seq(RES_MAX, t => [])
    {
    }

    lemma NotStartedParts(slots0: seq<Session?>, p: Pool)
      requires NotStarted(slots0, p)
      ensures Shaped(p) && running[..] == slots0
      ensures p.next >= MAX_SESSIONS ==> ids.View() == Get(p).0
      ensures p.next < MAX_SESSIONS ==>
        Shaped(Get(p).0) && InBounds(Get(p).0) && ids.View() == Release(Get(p).0, Get(p).1)
    {
    }

    lemma PoolShape()
      requires Valid()
      ensures Shaped(ids.View()) && ids.View().next == ids.next
    {
    }

    // Start a session. One that runs already is given a second id all the same, and from then on
    // its first slot holds a session with another id.
    method SessInit(sess: Session?, flags: int, memOk: bool, tooLong: bool, mkdir: int) returns (ret: int)
      requires initialized ==> Valid()
      modifies ids, ids.ids, running
      modifies if sess == null then {} else {sess}
      ensures ret == if sess == null then EINVAL
                     else if !initialized || old(ids.next) >= MAX_SESSIONS then ESESS
                     else if !memOk then ENOMEM else if tooLong then ENAMETOOLONG else mkdir
      ensures initialized ==> ids.ids == old(ids.ids)
      ensures initialized ==>
        (Valid() <==> sess == null || sess !in old(running[..]) || old(ids.next) >= MAX_SESSIONS)
      ensures ret == OK ==> Started(sess, flags, old(running[..]), old(ids.View()))
      ensures ret == OK ==> fresh(sess.resources) && fresh(sess.resources.registered) && sess.resources.Valid()
      ensures ret != OK && sess != null && initialized ==> NotStarted(old(running[..]), old(ids.View()))
      ensures ret == OK ==>
        && sess.hint == flags && sess.id !in old(ids.live) && ids.live == old(ids.live) + {sess.id}
        && 1 <= sess.id <= |old(running[..])| && running[..] == old(running[..])[sess.id - 1 := sess]
        && sess.resources.regs == seq(RES_MAX, t => [])
      ensures ret != OK ==> running[..] == old(running[..])
      ensures ret != OK && sess != null && initialized && old(ids.next) < MAX_SESSIONS ==>
        ids.next == old(ids.next) && ids.live == old(ids.live)
      ensures ret != OK && sess != null ==> sess.resources == old(sess.resources)
      ensures sess == null || !initialized ==> unchanged(ids) && unchanged(ids.ids) && unchanged(running)
    {
      if sess == null {
        return EINVAL;
      }
      if !initialized {
        return ESESS;
      }
      ret := Start(sess, flags, memOk, tooLong, mkdir);
    }

    method Start(sess: Session, flags: int, memOk: bool, tooLong: bool, mkdir: int) returns (ret: int)
      requires Valid()
      modifies ids, ids.ids, running, sess
      ensures ret == if old(ids.next) >= MAX_SESSIONS then ESESS
                     else if !memOk then ENOMEM else if tooLong then ENAMETOOLONG else mkdir
      ensures ids.ids == old(ids.ids)
      ensures Valid() <==> sess !in old(running[..]) || old(ids.next) >= MAX_SESSIONS
      ensures ret == OK ==> Started(sess, flags, old(running[..]), old(ids.View()))
      ensures ret == OK ==> fresh(sess.resources) && fresh(sess.resources.registered) && sess.resources.Valid()
      ensures ret != OK ==> NotStarted(old(running[..]), old(ids.View()))
      ensures ret != OK ==> sess.resources == old(sess.resources)
    {
      hide SlotsAgree, Get, Release, Free, Ignored, SessionResources.Valid;
      ghost var slots, p := running[..], ids.View();
      GetSlot(slots, p, sess);
      var id := IdPoolGet(ids);
      if id == 0 {
        return ESESS;
      }
      sess.id := id;
      UndoGet(slots, p);
      ret := InitializeSessionResources(sess, memOk, tooLong, mkdir);
      if ret != OK {
        IdPoolRelease(ids, sess.id);
        return;
      }
      sess.hint := flags;
      running[sess.id - 1] := sess;
      assert running[..] == slots[sess.id - 1 := sess];
      if sess in slots {
        ghost var k := IndexOf<Session?>(slots, sess);
        assert running[k] == sess && k != sess.id - 1;
      }
    }

    // `sess` is in the table, under its id.
    ghost predicate Runs(sess: Session)
      reads this, running, sess
    {
      1 <= sess.id <= MAX_SESSIONS == running.Length && running[sess.id - 1] == sess
    }

    lemma RunsIs(sess: Session)
      ensures Runs(sess) <==> 1 <= sess.id <= MAX_SESSIONS == running.Length && running[sess.id - 1] == sess
    {
    }

    // End a running session: its id goes back to the pool, everything registered with it is
    // unregistered, and its slot is cleared.
    method SessFree(sess: Session?) returns (ret: int, ghost freed: seq<Registration>)
      requires initialized ==> Valid()
      requires sess != null && initialized ==>
        && Runs(sess) && ids.next <= MAX_SESSIONS
        && sess.resources != null && sess.resources.Valid() && Covered(sess.resources.Held())
      modifies ids, ids.ids, running
      modifies if sess == null || sess.resources == null then {}
               else {sess, sess.resources} + AllNodes(sess.resources.registered, sess.resources.regs)
      modifies (if sess == null || sess.resources == null then {} else Members(sess.resources.Held()))`refcount
      ensures ret == if sess == null then EINVAL else if !initialized then ESESS else OK
      ensures initialized ==> Valid() && ids.ids == old(ids.ids)
      ensures ret != OK ==> unchanged(ids) && unchanged(ids.ids) && unchanged(running)
      ensures ret != OK && sess != null ==> unchanged(sess) && (sess.resources != null ==> unchanged(sess.resources))
      ensures ret == OK ==> Stopped(sess, old(running[..]), old(ids.View()))
      ensures ret == OK ==>
        && sess.id == old(sess.id) && sess.resources == null && ids.live == old(ids.live) - {sess.id}
        && 1 <= sess.id <= |old(running[..])| && running[..] == old(running[..])[sess.id - 1 := null]
      ensures ret == OK ==> freed == Flat(old(sess.resources.regs), RES_MAX)
      ensures ret == OK ==> forall r: Resource :: r in old(Members(sess.resources.Held())) ==>
        r.refcount == old(r.refcount) - Count(old(sess.resources.Held()), RES_MAX, r)
    {
      freed := [];
      if sess == null {
        return EINVAL, freed;
      }
      if !initialized {
        return ESESS, freed;
      }
      freed := Stop(sess);
      return OK, freed;
    }

    // `sess` has left the table and holds no lists; its id is free again.
    ghost predicate Stopped(sess: Session, slots0: seq<Session?>, p: Pool)
      reads this, ids, ids.ids, running, sess
    {
      && Shaped(p) && !Ignored(p, sess.id) && InBounds(p) && ids.View() == Release(p, sess.id)
      && 1 <= sess.id <= |slots0| && slots0[sess.id - 1] == sess
      && running[..] == slots0[sess.id - 1 := null]
      && sess.resources == null
    }

    lemma StoppedParts(sess: Session, slots0: seq<Session?>, p: Pool)
      requires Stopped(sess, slots0, p)
      ensures Shaped(p) && !Ignored(p, sess.id) && InBounds(p) && ids.View() == Release(p, sess.id)
      ensures 1 <= sess.id <= |slots0| && running[..] == slots0[sess.id - 1 := null]
      ensures sess.resources == null
    {
    }

    method Stop(sess: Session) returns (ghost freed: seq<Registration>)
      requires Valid() && Runs(sess) && ids.next <= MAX_SESSIONS
      requires sess.resources != null && sess.resources.Valid() && Covered(sess.resources.Held())
      modifies ids, ids.ids, running
      modifies {sess, sess.resources} + AllNodes(sess.resources.registered, sess.resources.regs)
      modifies Members(sess.resources.Held())`refcount
      ensures Valid() && ids.ids == old(ids.ids)
      ensures Stopped(sess, old(running[..]), old(ids.View()))
      ensures freed == Flat(old(sess.resources.regs), RES_MAX)
      ensures forall r: Resource :: r in old(Members(sess.resources.Held())) ==>
        r.refcount == old(r.refcount) - Count(old(sess.resources.Held()), RES_MAX, r)
    {
      hide SlotsAgree, Get, Release, Ignored, SessionResources.Valid, Covered, AllNodes, Members, Count, Flat;
      ghost var slots, p, h := running[..], ids.View(), sess.resources.Held();
      MembersAllocated(h);
      ReleaseSlot(slots, p, sess.id);
      IdPoolRelease(ids, sess.id);
      assert sess.resources.Held() == h;
      var ret;
      ret, freed := CleanupSessionResources(sess);
      running[sess.id - 1] := null;
      assert running[..] == slots[sess.id - 1 := null];
    }
  }
}
