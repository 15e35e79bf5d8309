// Creating a TensorFlow model or a shared object as a resource: several steps that can fail,
// with roll-back. The outcomes of allocations and file system calls are inputs.
module Transactions {
  import opened Codes
  import opened Seqs
  import opened Lists
  import opened IdPools
  import opened Resources

  const TF_MODEL: nat := 0
  const SHARED_OBJ: nat := 3

  // The results of making the resource's directory.
  datatype RundirSteps = RundirSteps(tooLong: bool, mkdir: int, memOk: bool)

  function RundirOutcome(s: RundirSteps): int {
    if s.tooLong then ENAMETOOLONG else if s.mkdir != OK then s.mkdir else if !s.memOk then ENOMEM else OK
  }

  // Where a file is: without a path, at a path of the caller's, or at one the library made and
  // owns, with the file still there or removed.
  datatype Place = Nowhere | Theirs | Ours(onDisk: bool)

  // A file, with data in memory or not. `litter` says that something the library wrote for it
  // is on the disk although no path leads there any more.
  datatype File = File(data: bool, place: Place, litter: bool)

  predicate Initialized(f: File) {
    f.place != Nowhere || f.data
  }

  // The library has left something of its own on the disk.
  predicate OnDisk(f: File) {
    f.place == Ours(true) || f.litter
  }

  // Writing a file out: whether the directory is there, the result of the rest of the work, and
  // when that fails, whether the file had been created by then and removing it worked.
  datatype Persist = Persist(dirExists: bool, io: int, created: bool, removed: bool)

  function PersistOutcome(f: File, s: Persist): int {
    if !f.data then EINVAL else if !s.dirExists then ENOENT else if f.place != Nowhere then EEXISTS else s.io
  }

  // A file is written out if and only if it is in memory, has no path yet, its directory is there
  // and the writing works.
  lemma PersistWorksIff(f: File, s: Persist)
    ensures PersistOutcome(f, s) == OK <==> f.data && f.place == Nowhere && s.dirExists && s.io == OK
  {
  }

  // The attempt fails half-way and what it has written cannot be removed.
  predicate Litters(f: File, s: Persist) {
    f.data && s.dirExists && f.place == Nowhere && s.io != OK && s.created && !s.removed
  }

  function Persisted(f: File, s: Persist): File {
    if PersistOutcome(f, s) == OK then f.(place := Ours(true))
    else f.(litter := f.litter || Litters(f, s))
  }

  // A failure takes back the path it has set.
  method FilePersist(f: File, s: Persist) returns (ret: int, g: File)
    ensures ret == PersistOutcome(f, s) && g == Persisted(f, s)
    ensures !f.data ==> ret == EINVAL
    ensures f.data && !s.dirExists ==> ret == ENOENT
    ensures f.data && s.dirExists && f.place != Nowhere ==> ret == EEXISTS
    ensures f.data && s.dirExists && f.place == Nowhere ==> ret == s.io
    ensures f.data && s.dirExists && f.place == Nowhere && s.io != OK ==>
      g.litter == (f.litter || (s.created && !s.removed))
    ensures Initialized(g) == Initialized(f) && (ret != OK ==> g.place == f.place && g.data == f.data)
    ensures ret == OK ==> f.place == Nowhere && OnDisk(g)
    ensures ret != OK ==> (OnDisk(g) <==> OnDisk(f) || Litters(f, s))
  {
    if !f.data {
      return EINVAL, f;
    }
    if !s.dirExists {
      return ENOENT, f;
    }
    if f.place != Nowhere {
      return EEXISTS, f;
    }
    if s.io != OK {
      return s.io, f.(litter := f.litter || (s.created && !s.removed));
    }
    return OK, f.(place := Ours(true));
  }

  function Destroyed(f: File, removed: bool): File {
    if f.place == Ours(true) && removed then f.(place := Ours(false)) else f
  }

  // Destroying a file tries to remove what the library wrote. Data and path stay set; that a
  // removal fails is not reported.
  method FileDestroy(f: File, removed: bool) returns (g: File)
    ensures g == Destroyed(f, removed)
    ensures Initialized(g) == Initialized(f)
    ensures OnDisk(g) <==> f.litter || (f.place == Ours(true) && !removed)
  {
    if f.place == Nowhere {
      return f;
    }
    if f.place.Ours? {
      return f.(place := Ours(f.place.onDisk && !removed));
    }
    return f;
  }

  // The three files of a model.
  datatype Files = Files(model: File, checkpoint: File, varIndex: File)

  predicate NothingOnDisk(fs: Files) {
    !OnDisk(fs.model) && !OnDisk(fs.checkpoint) && !OnDisk(fs.varIndex)
  }

  predicate AllOnDisk(fs: Files) {
    OnDisk(fs.model) && OnDisk(fs.checkpoint) && OnDisk(fs.varIndex)
  }

  // The result of each step after the resource exists, 0 for success, and whether removing
  // each of the files works in a roll-back.
  datatype ModelSteps = ModelSteps(rundir: RundirSteps, tooLong: bool, mkdir: int, persistModel: Persist,
                                   persistCheckpoint: Persist, persistIndex: Persist)
  datatype Removals = Removals(model: bool, checkpoint: bool, varIndex: bool)

  function DirsOutcome(s: ModelSteps): int {
    if RundirOutcome(s.rundir) != OK then RundirOutcome(s.rundir)
    else if s.tooLong then ENAMETOOLONG
    else s.mkdir
  }

  // The first failure, or success.
  function ModelOutcome(fs: Files, s: ModelSteps): int {
    if DirsOutcome(s) != OK then DirsOutcome(s)
    else if PersistOutcome(fs.model, s.persistModel) != OK then PersistOutcome(fs.model, s.persistModel)
    else if PersistOutcome(fs.checkpoint, s.persistCheckpoint) != OK then PersistOutcome(fs.checkpoint, s.persistCheckpoint)
    else PersistOutcome(fs.varIndex, s.persistIndex)
  }

  // All steps have to work, and each is answered for by its own result.
  lemma ModelWorksIff(fs: Files, s: ModelSteps)
    ensures ModelOutcome(fs, s) == OK <==>
      && !s.rundir.tooLong && s.rundir.mkdir == OK && s.rundir.memOk && !s.tooLong && s.mkdir == OK
      && fs.model.data && fs.model.place == Nowhere && s.persistModel.dirExists && s.persistModel.io == OK
      && fs.checkpoint.data && fs.checkpoint.place == Nowhere
      && s.persistCheckpoint.dirExists && s.persistCheckpoint.io == OK
      && fs.varIndex.data && fs.varIndex.place == Nowhere && s.persistIndex.dirExists && s.persistIndex.io == OK
  {
  }

  // The directories are made one in the other, and the first failure is the answer.
  lemma FirstFailure(fs: Files, s: ModelSteps)
    ensures var r := ModelOutcome(fs, s);
      && (s.rundir.tooLong ==> r == ENAMETOOLONG)
      && (!s.rundir.tooLong && s.rundir.mkdir != OK ==> r == s.rundir.mkdir)
      && (!s.rundir.tooLong && s.rundir.mkdir == OK && !s.rundir.memOk ==> r == ENOMEM)
      && (RundirOutcome(s.rundir) == OK && s.tooLong ==> r == ENAMETOOLONG)
      && (RundirOutcome(s.rundir) == OK && !s.tooLong && s.mkdir != OK ==> r == s.mkdir)
      && (RundirOutcome(s.rundir) == OK && !s.tooLong && s.mkdir == OK ==>
            var m, c, v := PersistOutcome(fs.model, s.persistModel), PersistOutcome(fs.checkpoint, s.persistCheckpoint),
                           PersistOutcome(fs.varIndex, s.persistIndex);
            && (m != OK ==> r == m) && (m == OK && c != OK ==> r == c) && (m == OK && c == OK ==> r == v))
  {
  }

  // The first file, and the first two, have been written out.
  predicate ModelWritten(fs: Files, s: ModelSteps) {
    DirsOutcome(s) == OK && PersistOutcome(fs.model, s.persistModel) == OK
  }

  predicate CheckpointWritten(fs: Files, s: ModelSteps) {
    ModelWritten(fs, s) && PersistOutcome(fs.checkpoint, s.persistCheckpoint) == OK
  }

  // The files once the steps are done, up to the first that fails.
  function PersistedFiles(fs: Files, s: ModelSteps): Files {
    Files(
      if DirsOutcome(s) == OK then Persisted(fs.model, s.persistModel) else fs.model,
      if ModelWritten(fs, s) then Persisted(fs.checkpoint, s.persistCheckpoint) else fs.checkpoint,
      if CheckpointWritten(fs, s) then Persisted(fs.varIndex, s.persistIndex) else fs.varIndex)
  }

  function DestroyedFiles(fs: Files, r: Removals): Files {
    Files(Destroyed(fs.model, r.model), Destroyed(fs.checkpoint, r.checkpoint), Destroyed(fs.varIndex, r.varIndex))
  }

  // Every file written before the step that failed was removed.
  predicate WrittenRemoved(fs: Files, s: ModelSteps, r: Removals) {
    (ModelWritten(fs, s) ==> r.model) && (CheckpointWritten(fs, s) ==> r.checkpoint)
  }

  // The step that failed left nothing half-written behind.
  predicate FailureClean(fs: Files, s: ModelSteps) {
    if DirsOutcome(s) != OK then true
    else if !ModelWritten(fs, s) then !Litters(fs.model, s.persistModel)
    else if !CheckpointWritten(fs, s) then !Litters(fs.checkpoint, s.persistCheckpoint)
    else !Litters(fs.varIndex, s.persistIndex)
  }

  // A roll-back leaves nothing on the disk if and only if all the removals it needs worked.
  lemma RollbackClearsIff(fs: Files, s: ModelSteps, r: Removals)
    requires NothingOnDisk(fs) && ModelOutcome(fs, s) != OK
    ensures NothingOnDisk(DestroyedFiles(PersistedFiles(fs, s), r)) <==> WrittenRemoved(fs, s, r) && FailureClean(fs, s)
  {
  }

  // Some outcome of the steps lets a registration succeed if and only if all three files are in
  // memory and have no path.
  lemma RegistrableIff(fs: Files)
    ensures (exists s :: ModelOutcome(fs, s) == OK) <==>
      forall f :: f in {fs.model, fs.checkpoint, fs.varIndex} ==> f.data && f.place == Nowhere
  {
    var good := Persist(true, OK, true, true);
    var s := ModelSteps(RundirSteps(false, OK, true), false, OK, good, good, good);
    if fs.model.data && fs.model.place == Nowhere && fs.checkpoint.data && fs.checkpoint.place == Nowhere
      && fs.varIndex.data && fs.varIndex.place == Nowhere {
      assert ModelOutcome(fs, s) == OK;
    }
  }

  // So a model that could be registered can be after a failed attempt if and only if that had
  // not yet written the first file out, whether or not it could be removed again.
  lemma RetryIff(fs: Files, s: ModelSteps, r: Removals)
    requires forall f :: f in {fs.model, fs.checkpoint, fs.varIndex} ==> f.data && f.place == Nowhere
    requires ModelOutcome(fs, s) != OK
    ensures (exists again :: ModelOutcome(DestroyedFiles(PersistedFiles(fs, s), r), again) == OK)
      <==> !ModelWritten(fs, s)
  {
    var n := DestroyedFiles(PersistedFiles(fs, s), r);
    RegistrableIff(n);
    assert n.model in {n.model, n.checkpoint, n.varIndex};
    assert fs.model in {fs.model, fs.checkpoint, fs.varIndex};
    assert fs.checkpoint in {fs.model, fs.checkpoint, fs.varIndex};
    assert fs.varIndex in {fs.model, fs.checkpoint, fs.varIndex};
  }

  class SavedModel {
    var model: File
    var checkpoint: File
    var varIndex: File
    var hasPath: bool
    var resource: Resource?

    constructor (model: File, checkpoint: File, varIndex: File, hasPath: bool)
      ensures this.model == model && this.checkpoint == checkpoint && this.varIndex == varIndex
      ensures this.hasPath == hasPath && resource == null
    {
      this.model, this.checkpoint, this.varIndex, this.hasPath := model, checkpoint, varIndex, hasPath;
      resource := null;
    }

    function Held(): Files
      reads this
    {
      Files(model, checkpoint, varIndex)
    }

    predicate Complete()
      reads this
    {
      Initialized(model) && Initialized(checkpoint) && Initialized(varIndex)
    }

    // The destructor of the model's resource.
    method Destruct(r: Removals)
      modifies this`model, this`checkpoint, this`varIndex
      ensures Held() == DestroyedFiles(old(Held()), r)
      ensures Complete() == old(Complete())
    {
      model := FileDestroy(model, r.model);
      checkpoint := FileDestroy(checkpoint, r.checkpoint);
      varIndex := FileDestroy(varIndex, r.varIndex);
    }

    // Write the three files out, up to the first that fails.
    method PersistFiles(s: ModelSteps) returns (ret: int)
      requires DirsOutcome(s) == OK
      modifies this`model, this`checkpoint, this`varIndex
      ensures ret == ModelOutcome(old(Held()), s) && Held() == PersistedFiles(old(Held()), s)
      ensures Complete() == old(Complete()) && (ret == OK ==> AllOnDisk(Held()))
    {
      ret, model := FilePersist(model, s.persistModel);
      if ret != OK {
        return;
      }
      ret, checkpoint := FilePersist(checkpoint, s.persistCheckpoint);
      if ret != OK {
        return;
      }
      ret, varIndex := FilePersist(varIndex, s.persistIndex);
    }
  }

  // What a registry shows to its clients: the live resources and their ids, the ids it has out
  // and the ids it will hand out next.
  datatype Snapshot = Snapshot(objs: seq<Resource>, ids: seq<int>, free: seq<int>, out: set<int>)

  ghost function Show(reg: Registry): Snapshot
    reads reg, reg.pool, reg.pool.ids
  {
    Snapshot(reg.objs, reg.ids, if reg.pool.Shape() then Free(reg.pool.View()) else [], reg.pool.live)
  }

  // One more live resource, with an id that was not out, of which no session holds a reference.
  ghost predicate Added(s: Snapshot, reg: Registry, res: Resource, typ: nat)
    reads reg, reg.pool, reg.pool.ids, res
  {
    && reg.objs == s.objs + [res] && reg.ids == s.ids + [res.id]
    && res !in s.objs && res.id > 0 && res.id !in s.ids && res.id !in s.out
    && reg.pool.Shape() && s.free == [res.id] + Free(reg.pool.View()) && reg.pool.live == s.out + {res.id}
    && res.typ == typ && res.refcount == 0 && res.hasCleanup
  }

  lemma GetShows(p: Pool, ids: seq<int>)
    requires IdsAgree(ids, p) && p.max == MAX_RESOURCES
    ensures var (q, id) := Get(p);
      if p.next < MAX_RESOURCES then
        q.next <= q.max && id !in ids && id !in p.live && Free(p) == [id] + Free(q) && q.live == p.live + {id}
      else Free(q) == Free(p) && q.live == p.live
  {
    GetSound(p);
    if p.next < MAX_RESOURCES {
      GetPops(p);
    }
  }

  // A fresh resource, made live. If the ids are exhausted nothing changes.
  method NewResource(reg: Registry, typ: nat) returns (ret: int, res: Resource)
    requires reg.initialized && reg.Valid() && typ < RES_MAX
    modifies reg`objs, reg`ids, reg.pool, reg.pool.ids
    modifies if |reg.live| == RES_MAX then reg.live[0].Nodes() else {}
    ensures reg.Valid() && fresh(res) && fresh(res.entry) && reg.pool.ids == old(reg.pool.ids)
    ensures ret == OK ==> reg.pool.next <= reg.pool.max && Added(old(Show(reg)), reg, res, typ)
    ensures ret == if old(reg.pool.next) >= MAX_RESOURCES then EUSERS else OK
    ensures ret != OK ==> Show(reg) == old(Show(reg))
    ensures ret == OK ==> |reg.live| == RES_MAX && reg.live[0].Nodes() <= old(reg.live[0].Nodes()) + {res.entry}
  {
    hide IdsAgree, Registry.ListsValid, Get, Free, Entry.Nodes;
    ghost var p := reg.pool.View();
    GetShows(p, reg.ids);
    res := new Resource();
    ret := reg.ResourceNew(res, typ, true);
  }

  // Destroying what was just created shows the clients what they saw before.
  method Rollback(reg: Registry, res: Resource, ghost s: Snapshot, ghost typ: nat)
    requires reg.initialized && reg.Valid() && reg.pool.next <= reg.pool.max && Added(s, reg, res, typ)
    modifies reg`objs, reg`ids, reg.pool, reg.pool.ids, res`cleanups
    modifies if |reg.live| == RES_MAX then reg.live[0].Nodes() else {}
    ensures reg.Valid() && Show(reg) == s && reg.pool.ids == old(reg.pool.ids)
    ensures res.Fresh() && res.cleanups == old(res.cleanups) + 1
  {
    hide IdsAgree, Registry.ListsValid, Release, Free, Entry.Nodes, Remove;
    ghost var q, k := reg.pool.View(), |s.objs|;
    ReleaseShows(q, reg.ids, k);
    RemoveLast(s.objs, res);
    RemoveLast(s.ids, res.id);
    var ret := reg.ResourceDestroy(res, k);
  }

  lemma RemoveLast<T>(s: seq<T>, x: T)
    ensures Remove(s + [x], |s|) == s
  {
  }

  lemma ReleaseShows(q: Pool, ids: seq<int>, k: nat)
    requires IdsAgree(ids, q) && q.next <= q.max && k < |ids|
    ensures !Ignored(q, ids[k]) && InBounds(q)
    ensures Free(Release(q, ids[k])) == [ids[k]] + Free(q) && Release(q, ids[k]).live == q.live - {ids[k]}
  {
    assert ids[k] in ids;
    OldIdAgrees(ids, k, q);
    ReleasePushes(q, ids[k]);
  }

  // What a creation does to the registry: it adds exactly one resource, or it changes nothing.
  ghost predicate AllOrNothing(s: Snapshot, reg: Registry, res: Resource?, typ: nat, ret: int)
    reads reg, reg.pool, reg.pool.ids, res
  {
    if ret == OK then res != null && Added(s, reg, res, typ) else Show(reg) == s
  }

  // The registration gets as far as the steps on the file system.
  predicate Attempted(model: SavedModel, reg: Registry, memOk: bool)
    reads model, reg, reg.pool
  {
    model.Complete() && memOk && reg.initialized && reg.pool.next < MAX_RESOURCES && !model.hasPath
  }

  // Register a model. `memOk` is the outcome of the first allocation. If a step after the
  // resource exists fails, the registry is as before; nothing of the model stays on the disk if
  // and only if the removals worked.
  method TfSavedModelRegister(reg: Registry, model: SavedModel, memOk: bool, steps: ModelSteps, r: Removals)
    returns (ret: int)
    requires reg.initialized ==> reg.Valid()
    modifies reg`objs, reg`ids, reg.pool, reg.pool.ids, model
    modifies if |reg.live| == RES_MAX then reg.live[0].Nodes() else {}
    ensures ret == if !old(model.Complete()) then EINVAL
                   else if !memOk then ENOMEM
                   else if !reg.initialized then EPERM
                   else if old(reg.pool.next) >= MAX_RESOURCES then EUSERS
                   else if old(model.hasPath) then OK
                   else ModelOutcome(old(model.Held()), steps)
    ensures reg.initialized ==> reg.Valid() && AllOrNothing(old(Show(reg)), reg, model.resource, TF_MODEL, ret)
    ensures reg.initialized && ret != OK ==>
      reg.objs == old(reg.objs) && reg.ids == old(reg.ids) && reg.pool.live == old(reg.pool.live)
    ensures ret == OK ==>
      && model.resource != null && reg.objs == old(reg.objs) + [model.resource]
      && model.resource.typ == TF_MODEL && model.resource.refcount == 0 && model.resource.id !in old(reg.pool.live)
    ensures !reg.initialized ==> Show(reg) == old(Show(reg))
    ensures ret == OK ==> model.hasPath && fresh(model.resource) && (old(model.hasPath) || model.resource.hasRundir)
    ensures model.Complete() == old(model.Complete())
    ensures ret != OK ==> model.resource == old(model.resource) && model.hasPath == old(model.hasPath)
    ensures ret == OK && !old(model.hasPath) ==> AllOnDisk(model.Held())
    ensures ret == OK && !old(model.hasPath) ==>
      && !steps.rundir.tooLong && steps.rundir.mkdir == OK && steps.rundir.memOk && !steps.tooLong && steps.mkdir == OK
      && steps.persistModel.dirExists && steps.persistModel.io == OK
      && steps.persistCheckpoint.dirExists && steps.persistCheckpoint.io == OK
      && steps.persistIndex.dirExists && steps.persistIndex.io == OK
    ensures old(Attempted(model, reg, memOk)) ==>
      && (steps.rundir.tooLong ==> ret == ENAMETOOLONG)
      && (!steps.rundir.tooLong && steps.rundir.mkdir != OK ==> ret == steps.rundir.mkdir)
      && (!steps.rundir.tooLong && steps.rundir.mkdir == OK && !steps.rundir.memOk ==> ret == ENOMEM)
      && (RundirOutcome(steps.rundir) == OK && steps.tooLong ==> ret == ENAMETOOLONG)
      && (RundirOutcome(steps.rundir) == OK && !steps.tooLong && steps.mkdir != OK ==> ret == steps.mkdir)
    ensures model.Held() == FilesAfter(old(model.Held()), steps, r, old(Attempted(model, reg, memOk)), ret)
    ensures ret != OK && old(NothingOnDisk(model.Held())) ==>
      (NothingOnDisk(model.Held()) <==>
         (old(Attempted(model, reg, memOk)) ==>
            WrittenRemoved(old(model.Held()), steps, r) && FailureClean(old(model.Held()), steps)))
  {
    if !(Initialized(model.model) && Initialized(model.checkpoint) && Initialized(model.varIndex)) {
      return EINVAL;
    }
    if !memOk {
      return ENOMEM;
    }
    if !reg.initialized {
      return EPERM;
    }
    ghost var fs := model.Held();
    ModelWorksIff(fs, steps);
    FirstFailure(fs, steps);
    ret := RegisterModel(reg, model, steps, r);
    if ret != OK && NothingOnDisk(fs) && old(Attempted(model, reg, memOk)) {
      RollbackClearsIff(fs, steps, r);
    }
  }

  function FilesAfter(fs: Files, s: ModelSteps, r: Removals, attempted: bool, ret: int): Files {
    if !attempted then fs
    else if ret == OK then PersistedFiles(fs, s)
    else DestroyedFiles(PersistedFiles(fs, s), r)
  }

  method RegisterModel(reg: Registry, model: SavedModel, steps: ModelSteps, r: Removals) returns (ret: int)
    requires reg.initialized && reg.Valid()
    modifies reg`objs, reg`ids, reg.pool, reg.pool.ids, model
    modifies if |reg.live| == RES_MAX then reg.live[0].Nodes() else {}
    ensures ret == if old(reg.pool.next) >= MAX_RESOURCES then EUSERS
                   else if old(model.hasPath) then OK
                   else ModelOutcome(old(model.Held()), steps)
    ensures reg.Valid() && AllOrNothing(old(Show(reg)), reg, model.resource, TF_MODEL, ret)
    ensures ret == OK ==> model.hasPath && fresh(model.resource) && (old(model.hasPath) || model.resource.hasRundir)
    ensures model.Complete() == old(model.Complete())
    ensures ret != OK ==> model.resource == old(model.resource) && model.hasPath == old(model.hasPath)
    ensures ret == OK && !old(model.hasPath) ==> AllOnDisk(model.Held())
    ensures model.Held() == FilesAfter(old(model.Held()), steps, r, old(reg.pool.next) < MAX_RESOURCES && !old(model.hasPath), ret)
  {
    hide Registry.Valid, Entry.Nodes, Resource.Fresh, Show, Free, IdPool.Shape, PersistedFiles, DestroyedFiles, ModelOutcome;
    ghost var s := Show(reg);
    var res;
    ret, res := NewResource(reg, TF_MODEL);
    if ret != OK {
      return;
    }
    if !model.hasPath {
      ret := PersistModel(res, model, steps);
      if ret != OK {
        Rollback(reg, res, s, TF_MODEL);
        model.Destruct(r);
        return;
      }
      model.hasPath := true;
    }
    model.resource := res;
  }

  // The steps on the file system, up to the first that fails.
  method PersistModel(res: Resource, model: SavedModel, steps: ModelSteps) returns (ret: int)
    modifies res`hasRundir, model`model, model`checkpoint, model`varIndex
    ensures ret == ModelOutcome(old(model.Held()), steps) && model.Held() == PersistedFiles(old(model.Held()), steps)
    ensures model.Complete() == old(model.Complete())
    ensures ret == OK ==> res.hasRundir && AllOnDisk(model.Held())
  {
    ret := ResourceCreateRundir(res, steps.rundir.tooLong, steps.rundir.mkdir, steps.rundir.memOk);
    if ret != OK {
      return;
    }
    if steps.tooLong {
      return ENAMETOOLONG;
    }
    ret := steps.mkdir;
    if ret != OK {
      return;
    }
    ret := model.PersistFiles(steps);
  }

  class SharedObject {
    var file: File
    var resource: Resource?

    constructor ()
      ensures file == File(false, Nowhere, false) && resource == null
    {
      file, resource := File(false, Nowhere, false), null;
    }
  }

  // A file set up from memory forgets the path it had.
  function FromBuffer(f: File): File {
    File(true, Nowhere, OnDisk(f))
  }

  // The creation gets as far as writing the file.
  predicate Tried(reg: Registry, rundir: RundirSteps)
    reads reg, reg.pool
  {
    reg.initialized && reg.pool.next < MAX_RESOURCES && RundirOutcome(rundir) == OK
  }

  // Create a shared object from memory. `buffer` says that there is one and it is not empty.
  // A failure leaves on the disk just what the file's own attempt could not remove.
  method SharedObjectNewFromBuffer(reg: Registry, obj: SharedObject?, buffer: bool, memOk: bool,
                                   rundir: RundirSteps, persist: Persist) returns (ret: int)
    requires reg.initialized ==> reg.Valid()
    modifies reg`objs, reg`ids, reg.pool, reg.pool.ids, obj
    modifies if |reg.live| == RES_MAX then reg.live[0].Nodes() else {}
    ensures ret == if obj == null || !buffer then EINVAL
                   else if !memOk then ENOMEM
                   else if !reg.initialized then EPERM
                   else if old(reg.pool.next) >= MAX_RESOURCES then EUSERS
                   else if RundirOutcome(rundir) != OK then RundirOutcome(rundir)
                   else PersistOutcome(FromBuffer(old(obj.file)), persist)
    ensures reg.initialized ==> reg.Valid()
    ensures reg.initialized ==>
      AllOrNothing(old(Show(reg)), reg, if obj == null then null else obj.resource, SHARED_OBJ, ret)
    ensures obj == null ==> ret == EINVAL
    ensures reg.initialized && ret != OK ==>
      reg.objs == old(reg.objs) && reg.ids == old(reg.ids) && reg.pool.live == old(reg.pool.live)
    ensures ret == OK ==>
      && obj.resource != null && reg.objs == old(reg.objs) + [obj.resource]
      && obj.resource.typ == SHARED_OBJ && obj.resource.refcount == 0 && obj.resource.id !in old(reg.pool.live)
    ensures !reg.initialized ==> Show(reg) == old(Show(reg))
    ensures ret == OK ==> fresh(obj.resource) && obj.resource.hasRundir && obj.file.place == Ours(true)
    ensures ret == OK ==> !rundir.tooLong && rundir.mkdir == OK && rundir.memOk && persist.dirExists && persist.io == OK
    ensures obj != null && buffer && memOk && reg.initialized && old(reg.pool.next) < MAX_RESOURCES ==>
      ret == if rundir.tooLong then ENAMETOOLONG else if rundir.mkdir != OK then rundir.mkdir
             else if !rundir.memOk then ENOMEM else if !persist.dirExists then ENOENT else persist.io
    ensures ret != OK && obj != null ==> obj.resource == old(obj.resource)
    ensures obj != null && buffer && memOk ==>
      obj.file.data && obj.file.place == if ret == OK then Ours(true) else Nowhere
    ensures obj != null && !(buffer && memOk) ==> obj.file == old(obj.file)
    ensures obj != null && buffer && memOk ==>
      obj.file == if old(Tried(reg, rundir)) then Persisted(FromBuffer(old(obj.file)), persist) else FromBuffer(old(obj.file))
    ensures ret != OK && obj != null ==>
      (OnDisk(obj.file) <==>
         || old(OnDisk(obj.file))
         || (buffer && memOk && old(Tried(reg, rundir)) && Litters(FromBuffer(old(obj.file)), persist)))
  {
    if obj == null || !buffer {
      return EINVAL;
    }
    if !memOk {
      return ENOMEM;
    }
    obj.file := FromBuffer(obj.file);
    if !reg.initialized {
      obj.file := FileDestroy(obj.file, false);
      return EPERM;
    }
    ret := CreateObject(reg, obj, rundir, persist);
  }

  method CreateObject(reg: Registry, obj: SharedObject, rundir: RundirSteps, persist: Persist) returns (ret: int)
    requires reg.initialized && reg.Valid() && obj.file.data && obj.file.place == Nowhere
    modifies reg`objs, reg`ids, reg.pool, reg.pool.ids, obj
    modifies if |reg.live| == RES_MAX then reg.live[0].Nodes() else {}
    ensures ret == if old(reg.pool.next) >= MAX_RESOURCES then EUSERS
                   else if RundirOutcome(rundir) != OK then RundirOutcome(rundir)
                   else PersistOutcome(old(obj.file), persist)
    ensures reg.Valid() && AllOrNothing(old(Show(reg)), reg, obj.resource, SHARED_OBJ, ret)
    ensures ret == OK ==> fresh(obj.resource) && obj.resource.hasRundir
    ensures ret != OK ==> obj.resource == old(obj.resource)
    ensures obj.file == if old(reg.pool.next) >= MAX_RESOURCES || RundirOutcome(rundir) != OK then old(obj.file)
                        else Persisted(old(obj.file), persist)
  {
    hide Registry.Valid, Entry.Nodes, Resource.Fresh, Show, Free, IdPool.Shape;
    ghost var s := Show(reg);
    var res;
    ret, res := NewResource(reg, SHARED_OBJ);
    if ret != OK {
      obj.file := FileDestroy(obj.file, false);
      return;
    }
    ret := WriteObject(obj, res, rundir, persist);
    if ret != OK {
      UndoObject(reg, obj, res, s);
      return;
    }
    obj.resource := res;
  }

  method WriteObject(obj: SharedObject, res: Resource, rundir: RundirSteps, persist: Persist) returns (ret: int)
    requires obj.file.data && obj.file.place == Nowhere
    modifies obj`file, res`hasRundir
    ensures ret == if RundirOutcome(rundir) != OK then RundirOutcome(rundir) else PersistOutcome(old(obj.file), persist)
    ensures obj.file == if RundirOutcome(rundir) != OK then old(obj.file) else Persisted(old(obj.file), persist)
    ensures ret == OK ==> res.hasRundir
    ensures ret != OK ==> obj.file.place == Nowhere
  {
    ret := ResourceCreateRundir(res, rundir.tooLong, rundir.mkdir, rundir.memOk);
    if ret != OK {
      return;
    }
    ret, obj.file := FilePersist(obj.file, persist);
  }

  // The resource's destructor destroys the file, and then the roll-back does so again. The file
  // has no path by then, so that nothing is removed.
  method UndoObject(reg: Registry, obj: SharedObject, res: Resource, ghost s: Snapshot)
    requires reg.initialized && reg.Valid() && reg.pool.next <= reg.pool.max && Added(s, reg, res, SHARED_OBJ)
    requires obj.file.place == Nowhere
    modifies reg`objs, reg`ids, reg.pool, reg.pool.ids, res`cleanups, obj`file
    modifies if |reg.live| == RES_MAX then reg.live[0].Nodes() else {}
    ensures reg.Valid() && Show(reg) == s && reg.pool.ids == old(reg.pool.ids)
    ensures obj.file == old(obj.file)
  {
    hide Registry.Valid, Entry.Nodes, Resource.Fresh, Show, Added;
    Rollback(reg, res, s, SHARED_OBJ);
    obj.file := FileDestroy(obj.file, false);
    obj.file := FileDestroy(obj.file, false);
  }
}
