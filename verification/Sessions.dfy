// Whole sessions against an immutable object store: resolve, write, freeze,
// persist, publish; and any number of them, one after the other.
module Sessions {
  import opened Wrappers
  import opened Objects
  import opened PageMapTree
  import opened PageMapFill
  import opened PageMapClosure
  import opened PageMapReader
  import opened PagePacks
  import opened RootGrowth
  import opened Persist
  import opened CheckpointIndex
  import opened Resolve
  import opened ImagePages
  import opened Generations
  import O = Overlay

  // Resolving survives publication of further objects.
  lemma ResolveMonotone(env: Env, small: Store, big: Store, gen: Generation)
    requires Extends(small, big) && ResolveBytes(env, small, gen).Ok?
    ensures ResolveBytes(env, big, gen) == ResolveBytes(env, small, gen)
    ensures LoadMap(env, big, gen) == LoadMap(env, small, gen)
  {
    hide ReadBase, LoadMap, MapEntries, Supplied, PagesReadable, Contents, Assemble, ReadPage;
    Resolved(env, small, gen);
    BaseMonotone(env, small, big, gen);
    MapMonotone(env, small, big, gen);
    var s := MapEntries(TreeIn(env, small, gen), gen.pageCount);
    ContentsMonotone(env, small, big, gen.pageSize, s);
  }

  lemma BaseMonotone(env: Env, small: Store, big: Store, gen: Generation)
    requires Extends(small, big) && ReadBase(env, small, gen).Ok?
    ensures ReadBase(env, big, gen) == ReadBase(env, small, gen)
  {
    if gen.index.Some? {
      var index := gen.index.value;
      VerifyMonotone(env, small, big, ReadBase(env, small, gen).value, gen.pageSize,
                     index.root, index.height, 1, index.pageCount, {});
    }
  }

  lemma MapMonotone(env: Env, small: Store, big: Store, gen: Generation)
    requires Extends(small, big) && LoadMap(env, small, gen).Ok?
    ensures LoadMap(env, big, gen) == LoadMap(env, small, gen)
  {
    if gen.pageMap.Some? {
      var root := gen.pageMap.value;
      LoadSound(env, small, root.reference, root.height, 0, gen.pageCount, {});
      var t := LoadTree(env, small, root.reference, root.height, 0, gen.pageCount, {}).value.0;
      StoredMonotone(env, small, big, t);
      LoadComplete(env, big, t, 0, gen.pageCount, {});
    }
  }

  lemma {:induction false} StoredMonotone(env: Env, small: Store, big: Store, t: Tree)
    requires Extends(small, big) && Stored(env, small, t)
    ensures Stored(env, big, t)
  {
    forall i | 0 <= i < |t.children|
      ensures Stored(env, big, t.children[i])
    {
      StoredMonotone(env, small, big, t.children[i]);
    }
  }

  lemma {:induction false} ContentsMonotone(env: Env, small: Store, big: Store, pageSize: nat, s: seq<Entry>)
    requires Extends(small, big) && PagesReadable(env, small, pageSize, s)
    ensures PagesReadable(env, big, pageSize, s)
    ensures Contents(env, big, pageSize, s) == Contents(env, small, pageSize, s)
  {
    hide ReadPage;
    forall i | 0 <= i < |s|
      ensures ReadPage(env, big, pageSize, s[i]) == ReadPage(env, small, pageSize, s[i])
    {
      ReadPageMonotone(env, small, big, pageSize, s[i]);
    }
    if s != [] {
      ContentsMonotone(env, small, big, pageSize, s[..|s| - 1]);
    }
  }

  // Apart from checkpoints and the like, every object is stored under its content's name.
  ghost predicate WellNamed(env: Env, store: Store) {
    forall u :: u in store && !u.OtherUri? ==> !store[u].CheckpointObject? && u == NameOf(env, store[u])
  }

  class ObjectStore {
    var objects: Store

    constructor ()
      ensures objects == map[]
    {
      objects := map[];
    }

    // put_immutable: create, or confirm that the object already there is the same.
    method Put(env: Env, u: Uri, o: Object) returns (ok: bool)
      requires CollisionFree(env)
      modifies this
      ensures objects == if ok then old(objects)[u := o] else old(objects)
      ensures ok <==> u !in old(objects) || old(objects)[u] == o
    {
      if u !in objects {
        objects := objects[u := o];
        return true;
      }
      ok := env.digest(objects[u]) == env.digest(o) && Size(env, objects[u]) == Size(env, o);
      assert ok ==> objects == objects[u := o];
    }

    // Publishes artifacts one by one; a conflict stops and keeps what was published.
    method PutAll(env: Env, artifacts: Store) returns (ok: bool)
      requires CollisionFree(env)
      modifies this
      ensures Extends(old(objects), objects)
      ensures forall u :: u in objects ==> u in old(objects) || (u in artifacts && objects[u] == artifacts[u])
      ensures ok ==> Extends(artifacts, objects)
      ensures ok <==> forall u :: u in artifacts && u in old(objects) ==> old(objects)[u] == artifacts[u]
    {
      var left := artifacts.Keys;
      while left != {}
        invariant left <= artifacts.Keys
        invariant Extends(old(objects), objects)
        invariant forall u :: u in objects ==> u in old(objects) || (u in artifacts && objects[u] == artifacts[u])
        invariant forall u :: u in artifacts.Keys - left ==> u in objects && objects[u] == artifacts[u]
      {
        var u :| u in left;
        left := left - {u};
        var put := Put(env, u, artifacts[u]);
        if !put {
          return false;
        }
      }
      ok := true;
    }
  }

  // What a writer needs of its environment: encoded nodes of bounded width fit.
  ghost predicate Capable(env: Env) {
    CollisionFree(env) && CapacityFits(env) && IndexFits(env)
  }

  // The overlay session: every write and truncate in turn, then the freeze.
  method RunSession(before: Bytes, ops: seq<O.Op>) returns (r: Result<O.Frozen>)
    requires |before| <= U64_MAX
    ensures r.Ok? <==> (forall i :: 0 <= i < |ops| ==> O.Accepted(ops[i])) && |O.Run(before, ops)| % PAGE == 0
    ensures r.Ok? ==> |O.Run(before, ops)| <= U64_MAX
    ensures r.Ok? ==> r.value == O.Frozen(before, |O.Run(before, ops)|, O.Difference(before, O.Run(before, ops)))
  {
    hide O.Applied, O.Difference;
    var overlay := new O.Overlay(before);
    var i := 0;
    while i < |ops|
      invariant 0 <= i <= |ops| && fresh(overlay) && overlay.Valid() && overlay.parent == before
      invariant overlay.image == O.Run(before, ops[..i])
      invariant overlay.failed <==> exists j :: 0 <= j < i && !O.Accepted(ops[j])
    {
      assert ops[..i + 1][..i] == ops[..i];
      match ops[i] {
        case Write(number, page) =>
          var _ := overlay.WritePage(number, page);
        case Truncate(length) =>
          if length > U64_MAX {
            return Err(Invalid);
          }
          overlay.SetLength(length);
      }
      i := i + 1;
    }
    assert ops[..i] == ops;
    assert overlay.length == |overlay.image| <= U64_MAX;
    r := overlay.Freeze();
  }

  // The image a session leaves, and what can stand in the way of publishing it.
  ghost predicate Publishable(env: Env, store: Store, gen: Generation, before: Bytes, after: Bytes) {
    && Session(env, store, gen, before, after)
    && Draft(env, store, gen, before, after).Ok?
  }

  // The objects of a candidate: content-addressed ones, and possibly one checkpoint under `name`.
  ghost predicate CandidateObjects(env: Env, artifacts: Store, name: nat) {
    forall u :: u in artifacts ==>
      u == OtherUri(name) || (!artifacts[u].CheckpointObject? && u == NameOf(env, artifacts[u]))
  }

  // In every store with the old objects and the candidate's, the generation resolves
  // to `after`, unless its page map has too many levels for the reader. Over what the
  // writer has made it never has, and the generation again is the writer's.
  ghost predicate Delivers(env: Env, store: Store, artifacts: Store, gen: Generation, after: Bytes, made: bool) {
    && (made ==> Shallow(gen))
    && forall s: Store :: Extends(store, s) && Extends(artifacts, s) ==>
         && (if Shallow(gen) then ResolveBytes(env, s, gen) == Ok(after) else ResolveBytes(env, s, gen).Err?)
         && (made ==> WriterMade(env, s, gen))
  }

  lemma IncrementalDelivers(env: Env, store: Store, gen: Generation, before: Bytes, after: Bytes)
    requires Capable(env) && Publishable(env, store, gen, before, after)
    requires Draft(env, store, gen, before, after).value.root.Some?
    ensures var p := Draft(env, store, gen, before, after).value;
      && Delivers(env, store, p.artifacts, Incremental(gen, p.root.value, after), after, WriterMade(env, store, gen))
      && ContentAddressed(env, p.artifacts)
  {
    hide ResolveBytes, PersistImage, LoadMap, SpineFilled, NamedByWriter, Candidate, Stored, Readable, WellFormed, Collapse,
      Reach, CapacityFits, CollisionFree, PairsFit, IndexFits;
    LoadedHere(env, store, gen);
    var p := Draft(env, store, gen, before, after).value;
    var root := p.root.value;
    var next := Incremental(gen, root, after);
    if WriterMade(env, store, gen) {
      DraftRoot(env, store, gen, before, after);
    }
    var tree := TreeIn(env, store, gen);
    PersistContent(env, tree, ChangedPages(before, after), Eof(after));
    PersistClosure(env, store, tree, ChangedPages(before, after), Eof(after));
    forall s: Store | Extends(store, s) && Extends(p.artifacts, s)
      ensures if Shallow(next) then ResolveBytes(env, s, next) == Ok(after) else ResolveBytes(env, s, next).Err?
      ensures WriterMade(env, store, gen) ==> WriterMade(env, s, next)
    {
      hide Session, Draft, Extends, ContentAddressed, Selected;
      IncrementalResolves(env, store, gen, before, after, s);
      if WriterMade(env, store, gen) {
        RootLoads(env, s, root, next);
      }
    }
  }

  lemma LoadedHere(env: Env, store: Store, gen: Generation)
    requires ResolveBytes(env, store, gen).Ok?
    ensures LoadMap(env, store, gen).Ok? && ParentIn(env, store, TreeIn(env, store, gen))
  {
    Resolved(env, store, gen);
    LoadedTree(env, store, gen);
  }

  lemma CheckpointDelivers(
    env: Env, store: Store, index: PageIndex, indexObjects: Store, artifacts: Store, name: nat, after: Bytes)
    requires |after| % PAGE == 0 && PAGE <= |after| <= U64_MAX
    requires ContentAddressed(env, indexObjects)
    requires var checkpoint := Reference(OtherUri(name), env.digest(CheckpointObject(after)), |after|);
      && artifacts == indexObjects[OtherUri(name) := CheckpointObject(after)]
      && forall s: Store :: Extends(indexObjects, s) ==> Verifies(env, s, index, checkpoint, PAGE, after)
    ensures CandidateObjects(env, artifacts, name)
    ensures var checkpoint := Reference(OtherUri(name), env.digest(CheckpointObject(after)), |after|);
      Delivers(env, store, artifacts, Checkpointed(checkpoint, index, after), after, true)
  {
    hide ResolveBytes, Verifies;
    var checkpoint := Reference(OtherUri(name), env.digest(CheckpointObject(after)), |after|);
    assert OtherUri(name) !in indexObjects;
    forall s: Store | Extends(store, s) && Extends(artifacts, s)
      ensures ResolveBytes(env, s, Checkpointed(checkpoint, index, after)) == Ok(after)
           && WriterMade(env, s, Checkpointed(checkpoint, index, after))
    {
      assert Extends(indexObjects, s);
      assert s[OtherUri(name)] == artifacts[OtherUri(name)];
      CheckpointResolves(env, s, checkpoint, index, after);
    }
  }

  // The incremental form exactly while it reaches fewer bytes than the image has.
  ghost predicate Chosen(gen: Generation, p: Persisted, after: Bytes, next: Generation) {
    if p.root.Some? && p.reachableBytes < |after| then next == Incremental(gen, p.root.value, after)
    else next.pageMap.None?
  }

  // finish_candidate: the incremental form while it is the smaller one, else a fresh
  // checkpoint under the new name `name`.
  method FinishCandidate(
    env: Env, ghost store: Store, gen: Generation, parent: Option<Tree>, frozen: O.Frozen, ghost after: Bytes, name: nat)
    returns (r: Result<(Generation, Store)>)
    requires Capable(env) && Session(env, store, gen, frozen.parent, after)
    requires LoadMap(env, store, gen) == Ok(parent)
    requires frozen == O.Frozen(frozen.parent, |after|, O.Difference(frozen.parent, after))
    ensures r.Ok? <==> Draft(env, store, gen, frozen.parent, after).Ok?
    ensures r.Ok? ==> CandidateObjects(env, r.value.1, name)
    ensures r.Ok? ==> Chosen(gen, Draft(env, store, gen, frozen.parent, after).value, after, r.value.0)
    ensures r.Ok? ==> Delivers(env, store, r.value.1, r.value.0, after, WriterMade(env, store, gen))
  {
    hide ResolveBytes, LoadMap, PersistImage, O.Difference, SpineFilled, NamedByWriter, Stored, Readable, WellFormed,
      CapacityFits, CollisionFree, PairsFit, IndexFits, ContentAddressed, Delivers, CandidateObjects, Verifies;
    LoadedHere(env, store, gen);
    O.DifferenceMaterializes(frozen.parent, after);
    var bytes := O.Materialize(frozen);
    assert bytes == after;
    ListingSorted(frozen.changed, frozen.length / PAGE);
    var draft := PersistFrozen(env, parent, Listing(frozen.changed, frozen.length / PAGE), frozen.length / PAGE);
    if draft.Err? {
      return Err(draft.kind);
    }
    if draft.value.root.None? || draft.value.reachableBytes >= |bytes| {
      var checkpoint := Reference(OtherUri(name), env.digest(CheckpointObject(bytes)), |bytes|);
      var built := Build(env, checkpoint, PAGE, bytes);
      var artifacts := built.value.1[OtherUri(name) := CheckpointObject(bytes)];
      CheckpointDelivers(env, store, built.value.0, built.value.1, artifacts, name, after);
      MadeOrNot(env, store, artifacts, Checkpointed(checkpoint, built.value.0, bytes), after, WriterMade(env, store, gen));
      r := Ok((Checkpointed(checkpoint, built.value.0, bytes), artifacts));
    } else {
      IncrementalDelivers(env, store, gen, frozen.parent, after);
      ObjectsOfContent(env, draft.value.artifacts, name);
      r := Ok((Incremental(gen, draft.value.root.value, bytes), draft.value.artifacts));
    }
  }

  lemma MadeOrNot(env: Env, store: Store, artifacts: Store, gen: Generation, after: Bytes, made: bool)
    requires Delivers(env, store, artifacts, gen, after, true)
    ensures Delivers(env, store, artifacts, gen, after, made)
  {
    hide ResolveBytes, WriterMade;
  }

  lemma ObjectsOfContent(env: Env, artifacts: Store, name: nat)
    requires ContentAddressed(env, artifacts)
    ensures CandidateObjects(env, artifacts, name)
  {
  }

  // The image a run of writes and truncates leaves can be published at all.
  predicate Sound(before: Bytes, ops: seq<O.Op>) {
    && (forall i :: 0 <= i < |ops| ==> O.Accepted(ops[i]))
    && |O.Run(before, ops)| % PAGE == 0 && |O.Run(before, ops)| >= PAGE
  }

  // The parent resolves, the session is sound, and its draft persists.
  ghost predicate Committable(env: Env, store: Store, gen: Generation, ops: seq<O.Op>) {
    var parent := ResolveBytes(env, store, gen);
    && parent.Ok? && Sound(parent.value, ops)
    && Session(env, store, gen, parent.value, O.Run(parent.value, ops))
    && Draft(env, store, gen, parent.value, O.Run(parent.value, ops)).Ok?
  }

  // A store in which a candidate named `name` can be published.
  ghost predicate Ready(env: Env, store: Store, name: nat) {
    WellNamed(env, store) && OtherUri(name) !in store
  }

  // One whole session over any parent. It succeeds exactly when the parent resolves, the
  // session is sound and the draft persists; then the new generation resolves to the
  // bytes the session left, unless its page map is too deep for the reader, and the store
  // has only grown. The level is not checked before publication; over what the writer has
  // made it needs no check.
  method Commit(env: Env, store: ObjectStore, gen: Generation, ops: seq<O.Op>, name: nat) returns (r: Result<Generation>)
    requires Capable(env) && Ready(env, store.objects, name)
    modifies store
    ensures Extends(old(store.objects), store.objects) && WellNamed(env, store.objects)
    ensures forall u :: u in store.objects && u.OtherUri? ==> u in old(store.objects) || u == OtherUri(name)
    ensures r.Ok? <==> Committable(env, old(store.objects), gen, ops)
    ensures r.Err? ==> store.objects == old(store.objects)
    ensures r.Ok? ==>
      var after := O.Run(ResolveBytes(env, old(store.objects), gen).value, ops);
      if Shallow(r.value) then ResolveBytes(env, store.objects, r.value) == Ok(after)
      else ResolveBytes(env, store.objects, r.value).Err?
    ensures r.Ok? ==>
      var before := ResolveBytes(env, old(store.objects), gen).value;
      var after := O.Run(before, ops);
      Chosen(gen, Draft(env, old(store.objects), gen, before, after).value, after, r.value)
    ensures r.Ok? && WriterMade(env, old(store.objects), gen) ==> Shallow(r.value) && WriterMade(env, store.objects, r.value)
  {
    hide ResolveBytes, LoadMap, PersistImage, O.Difference, SpineFilled, NamedByWriter, Stored, Readable, WellFormed, WriterMade,
      CapacityFits, CollisionFree, PairsFit, IndexFits, ContentAddressed, Delivers, CandidateObjects, Draft, O.Run, WellNamed;
    var before := ResolveGeneration(env, store.objects, gen);
    if before.Err? {
      return Err(before.kind);
    }
    ImageSize(env, store.objects, gen);
    var frozen := RunSession(before.value, ops);
    if frozen.Err? || frozen.value.length < PAGE {
      return Err(Invalid);
    }
    ghost var after := O.Run(before.value, ops);
    LoadedHere(env, store.objects, gen);
    if gen.pageSize != PAGE {
      return Err(Invalid);
    }
    CapacityFitsPairs(env);
    var parent := LoadMap(env, store.objects, gen).value;
    var candidate := FinishCandidate(env, store.objects, gen, parent, frozen.value, after, name);
    if candidate.Err? {
      return Err(candidate.kind);
    }
    CandidateFits(env, store.objects, candidate.value.1, name);
    ghost var known := store.objects;
    var put := store.PutAll(env, candidate.value.1);
    StaysNamed(env, known, candidate.value.1, store.objects, name);
    Delivered(env, known, candidate.value.1, candidate.value.0, after, WriterMade(env, known, gen), store.objects);
    r := Ok(candidate.value.0);
  }

  lemma ImageSize(env: Env, store: Store, gen: Generation)
    requires ResolveBytes(env, store, gen).Ok?
    ensures |ResolveBytes(env, store, gen).value| <= U64_MAX
  {
    hide LoadMap, MapEntries, Supplied, PagesReadable, Contents;
  }

  // A candidate's objects never meet a different object under the same name.
  lemma CandidateFits(env: Env, store: Store, artifacts: Store, name: nat)
    requires CollisionFree(env) && WellNamed(env, store) && OtherUri(name) !in store
    requires CandidateObjects(env, artifacts, name)
    ensures forall u :: u in artifacts && u in store ==> store[u] == artifacts[u]
  {
    forall u | u in artifacts && u in store
      ensures store[u] == artifacts[u]
    {
      assert u == NameOf(env, artifacts[u]) && u == NameOf(env, store[u]);
    }
  }

  lemma StaysNamed(env: Env, store: Store, artifacts: Store, published: Store, name: nat)
    requires WellNamed(env, store) && CandidateObjects(env, artifacts, name) && Extends(store, published)
    requires forall u :: u in published ==> u in store || (u in artifacts && published[u] == artifacts[u])
    ensures WellNamed(env, published)
    ensures forall u :: u in published && u.OtherUri? ==> u in store || u == OtherUri(name)
  {
  }

  lemma Delivered(env: Env, store: Store, artifacts: Store, gen: Generation, after: Bytes, made: bool, published: Store)
    requires Delivers(env, store, artifacts, gen, after, made) && Extends(store, published) && Extends(artifacts, published)
    ensures if Shallow(gen) then ResolveBytes(env, published, gen) == Ok(after) else ResolveBytes(env, published, gen).Err?
    ensures made ==> Shallow(gen) && WriterMade(env, published, gen)
  {
    hide ResolveBytes, WriterMade;
  }

  // The images a run of sessions goes through, from a first image.
  function Images(first: Bytes, sessions: seq<seq<O.Op>>): (images: seq<Bytes>)
    ensures |images| == |sessions| + 1 && images[0] == first
    decreases |sessions|
  {
    if sessions == [] then [first]
    else
      var before := Images(first, sessions[..|sessions| - 1]);
      before + [O.Run(before[|before| - 1], sessions[|sessions| - 1])]
  }

  // Any number of generations, from any first one that resolves: after every run of
  // sessions, each generation of the run, the old ones included, still resolves to the
  // image its session left. The run ends early when a session cannot be committed or
  // when the generation published is too deep for the reader, and the latter only if
  // the first generation was not the writer's.
  method CommitAll(env: Env, store: ObjectStore, first: Generation, ghost image: Bytes, sessions: seq<seq<O.Op>>, names: seq<nat>)
    returns (gens: seq<Generation>, refused: Option<Generation>)
    requires Capable(env) && |names| == |sessions| && WellNamed(env, store.objects)
    requires ResolveBytes(env, store.objects, first) == Ok(image)
    requires forall i :: 0 <= i < |names| ==> OtherUri(names[i]) !in store.objects
    requires forall i, j :: 0 <= i < j < |names| ==> names[i] != names[j]
    modifies store
    ensures 0 < |gens| <= |sessions| + 1 && Extends(old(store.objects), store.objects)
    ensures forall i :: 0 <= i < |gens| ==> ResolveBytes(env, store.objects, gens[i]) == Ok(Images(image, sessions)[i])
    ensures |gens| <= |sessions| && refused.None? ==> !Committable(env, store.objects, gens[|gens| - 1], sessions[|gens| - 1])
    ensures refused.Some? ==> |gens| <= |sessions| && !Shallow(refused.value) && ResolveBytes(env, store.objects, refused.value).Err?
    ensures WriterMade(env, old(store.objects), first) ==> refused.None?
  {
    hide ResolveBytes, WriterMade, WellNamed, Capable, Committable, O.Run, Extends, Shallow;
    gens, refused := [first], None;
    ghost var made := WriterMade(env, store.objects, first);
    var i := 0;
    ExtendsSame(store.objects);
    while i < |sessions|
      invariant 0 <= i <= |sessions| && |gens| == i + 1
      invariant WellNamed(env, store.objects) && (made ==> WriterMade(env, store.objects, gens[i]))
      invariant forall j :: i <= j < |names| ==> OtherUri(names[j]) !in store.objects
      invariant Extends(old(store.objects), store.objects)
      invariant forall j :: 0 <= j <= i ==> ResolveBytes(env, store.objects, gens[j]) == Ok(Images(image, sessions)[j])
    {
      ghost var known := store.objects;
      var next := Commit(env, store, gens[i], sessions[i], names[i]);
      ExtendsChain(old(store.objects), known, store.objects);
      forall j | 0 <= j <= i
        ensures ResolveBytes(env, store.objects, gens[j]) == Ok(Images(image, sessions)[j])
      {
        ResolveMonotone(env, known, store.objects, gens[j]);
      }
      if next.Err? {
        return;
      }
      if !Shallow(next.value) {
        return gens, Some(next.value);
      }
      ImagesStep(image, sessions, i);
      gens := gens + [next.value];
      i := i + 1;
    }
  }

  // The first generation: a checkpoint of a nonempty page-aligned image.
  method Genesis(env: Env, store: ObjectStore, image: Bytes, name: nat) returns (gen: Generation)
    requires Capable(env) && WellNamed(env, store.objects) && OtherUri(name) !in store.objects
    requires |image| % PAGE == 0 && PAGE <= |image| <= U64_MAX
    modifies store
    ensures Extends(old(store.objects), store.objects) && WellNamed(env, store.objects)
    ensures forall u :: u in store.objects && u.OtherUri? ==> u in old(store.objects) || u == OtherUri(name)
    ensures ResolveBytes(env, store.objects, gen) == Ok(image) && WriterMade(env, store.objects, gen)
    ensures gen.pageMap.None? && gen.pageSize == PAGE
  {
    hide ResolveBytes, WriterMade, WellNamed, CapacityFits, CollisionFree, PairsFit, IndexFits, ContentAddressed, Delivers,
      CandidateObjects, Verifies;
    var checkpoint := Reference(OtherUri(name), env.digest(CheckpointObject(image)), |image|);
    var built := Build(env, checkpoint, PAGE, image);
    var artifacts := built.value.1[OtherUri(name) := CheckpointObject(image)];
    CheckpointDelivers(env, store.objects, built.value.0, built.value.1, artifacts, name, image);
    CandidateFits(env, store.objects, artifacts, name);
    ghost var known := store.objects;
    var put := store.PutAll(env, artifacts);
    gen := Checkpointed(checkpoint, built.value.0, image);
    StaysNamed(env, known, artifacts, store.objects, name);
    Delivered(env, known, artifacts, gen, image, true, store.objects);
  }

  lemma ExtendsSame(a: Store)
    ensures Extends(a, a)
  {
  }

  lemma ExtendsChain(a: Store, b: Store, c: Store)
    requires Extends(a, b) && Extends(b, c)
    ensures Extends(a, c)
  {
  }

  lemma {:induction false} ImagesStep(first: Bytes, sessions: seq<seq<O.Op>>, i: nat)
    requires i < |sessions|
    ensures Images(first, sessions)[i + 1] == O.Run(Images(first, sessions)[i], sessions[i])
    decreases |sessions|
  {
    hide O.Run;
    var last := |sessions| - 1;
    if i < last {
      ImagesStep(first, sessions[..last], i);
    }
  }
}
