// The protocol and the images together: what a HEAD leads to is what its image refers to,
// so in every state of every run each HEAD of the history resolves to its image.
module PublishedImages {
  import opened Wrappers
  import opened Objects
  import opened PageMapTree
  import opened PageMapClosure
  import opened PageMapReader
  import opened PagePacks
  import opened RootGrowth
  import opened Persist
  import opened CheckpointIndex
  import opened Resolve
  import opened Generations
  import opened Sessions
  import P = Publication

  // ----- What a generation refers to ---------------------------------------------------------

  function NamesIn(refs: set<Reference>): set<Uri> {
    set r | r in refs :: r.uri
  }

  // The names read while the checkpoint's index is verified.
  function IndexReads(env: Env, store: Store, gen: Generation): set<Uri>
    requires ReadBase(env, store, gen).Ok?
  {
    if gen.index.None? then {}
    else
      var index := gen.index.value;
      VerifyNode(env, store, ReadBase(env, store, gen).value, gen.pageSize, index.root, index.height, 1, index.pageCount, {}).value
  }

  // The checkpoint, its index, and the nodes and packs of the page map.
  function References(env: Env, store: Store, gen: Generation): set<Uri>
    requires ReadBase(env, store, gen).Ok? && LoadMap(env, store, gen).Ok?
  {
    {gen.checkpoint.uri} + IndexReads(env, store, gen) + NamesIn(ReachOf(TreeIn(env, store, gen)))
  }

  // Two stores that agree on these names, as far as the first has them.
  predicate Agree(a: Store, b: Store, names: set<Uri>) {
    forall u :: u in names && u in a ==> u in b && b[u] == a[u]
  }

  lemma AgreeLess(a: Store, b: Store, more: set<Uri>, less: set<Uri>)
    requires Agree(a, b, more) && less <= more
    ensures Agree(a, b, less)
  {
  }

  lemma {:induction false} VerifyGrows(
    env: Env, store: Store, bytes: Bytes, pageSize: nat, entries: seq<IndexChild>, level: nat, seen: set<Uri>)
    requires VerifyAll(env, store, bytes, pageSize, entries, level, seen).Ok?
    ensures seen <= VerifyAll(env, store, bytes, pageSize, entries, level, seen).value
    decreases level, 1, |entries|
  {
    hide VerifyNode;
    if entries != [] {
      var e := entries[0];
      NodeGrows(env, store, bytes, pageSize, e.child, level, e.firstPage, e.pageCount, seen);
      VerifyGrows(env, store, bytes, pageSize, entries[1..], level,
                  VerifyNode(env, store, bytes, pageSize, e.child, level, e.firstPage, e.pageCount, seen).value);
    }
  }

  lemma {:induction false} NodeGrows(
    env: Env, store: Store, bytes: Bytes, pageSize: nat, r: Reference, level: nat, first: nat, count: nat, seen: set<Uri>)
    requires VerifyNode(env, store, bytes, pageSize, r, level, first, count, seen).Ok?
    ensures seen + {r.uri} <= VerifyNode(env, store, bytes, pageSize, r, level, first, count, seen).value
    decreases level, 0, 0
  {
    var n := VerifiedRead(env, store, r).value.index;
    if n.IndexInternal? {
      VerifyGrows(env, store, bytes, pageSize, n.entries, level - 1, seen + {r.uri});
    }
  }

  // Verification depends on the names it has read.
  lemma {:induction false} VerifyLocal(
    env: Env, a: Store, b: Store, bytes: Bytes, pageSize: nat, r: Reference, level: nat, first: nat, count: nat, seen: set<Uri>)
    requires VerifyNode(env, a, bytes, pageSize, r, level, first, count, seen).Ok?
    requires Agree(a, b, VerifyNode(env, a, bytes, pageSize, r, level, first, count, seen).value)
    ensures VerifyNode(env, b, bytes, pageSize, r, level, first, count, seen)
         == VerifyNode(env, a, bytes, pageSize, r, level, first, count, seen)
    decreases level, 0, 0
  {
    NodeGrows(env, a, bytes, pageSize, r, level, first, count, seen);
    assert r.uri in b && b[r.uri] == a[r.uri];
    var n := VerifiedRead(env, a, r).value.index;
    if n.IndexInternal? {
      VerifyAllLocal(env, a, b, bytes, pageSize, n.entries, level - 1, seen + {r.uri});
    }
  }

  lemma {:induction false} VerifyAllLocal(
    env: Env, a: Store, b: Store, bytes: Bytes, pageSize: nat, entries: seq<IndexChild>, level: nat, seen: set<Uri>)
    requires VerifyAll(env, a, bytes, pageSize, entries, level, seen).Ok?
    requires Agree(a, b, VerifyAll(env, a, bytes, pageSize, entries, level, seen).value)
    ensures VerifyAll(env, b, bytes, pageSize, entries, level, seen) == VerifyAll(env, a, bytes, pageSize, entries, level, seen)
    decreases level, 1, |entries|
  {
    hide VerifyNode, Agree;
    if entries != [] {
      var e := entries[0];
      var here := VerifyNode(env, a, bytes, pageSize, e.child, level, e.firstPage, e.pageCount, seen).value;
      VerifyGrows(env, a, bytes, pageSize, entries[1..], level, here);
      AgreeLess(a, b, VerifyAll(env, a, bytes, pageSize, entries, level, seen).value, here);
      VerifyLocal(env, a, b, bytes, pageSize, e.child, level, e.firstPage, e.pageCount, seen);
      VerifyAllLocal(env, a, b, bytes, pageSize, entries[1..], level, here);
    }
  }

  lemma {:induction false} StoredLocal(env: Env, a: Store, b: Store, t: Tree)
    requires WellFormed(t) && Stored(env, a, t) && Agree(a, b, NamesIn(Reach(t)))
    ensures Stored(env, b, t)
  {
    assert t.reference in Reach(t);
    assert t.reference.uri in NamesIn(Reach(t));
    forall i | 0 <= i < |t.children|
      ensures Stored(env, b, t.children[i])
    {
      ForestAt(t.children, t.node.level - 1, i);
      ReachMember(t.children, i);
      assert NamesIn(Reach(t.children[i])) <= NamesIn(Reach(t));
      StoredLocal(env, a, b, t.children[i]);
    }
  }

  lemma BaseLocal(env: Env, a: Store, b: Store, gen: Generation)
    requires ReadBase(env, a, gen).Ok? && Agree(a, b, {gen.checkpoint.uri} + IndexReads(env, a, gen))
    ensures ReadBase(env, b, gen) == ReadBase(env, a, gen) && IndexReads(env, b, gen) == IndexReads(env, a, gen)
  {
    hide VerifyNode;
    var bytes := ReadBase(env, a, gen).value;
    assert gen.checkpoint.uri in b && b[gen.checkpoint.uri] == a[gen.checkpoint.uri];
    if gen.index.Some? {
      var index := gen.index.value;
      AgreeLess(a, b, {gen.checkpoint.uri} + IndexReads(env, a, gen), IndexReads(env, a, gen));
      VerifyLocal(env, a, b, bytes, gen.pageSize, index.root, index.height, 1, index.pageCount, {});
    }
  }

  lemma MapLocal(env: Env, a: Store, b: Store, gen: Generation)
    requires LoadMap(env, a, gen).Ok? && Agree(a, b, NamesIn(ReachOf(TreeIn(env, a, gen))))
    ensures LoadMap(env, b, gen) == LoadMap(env, a, gen)
  {
    if gen.pageMap.Some? {
      var root := gen.pageMap.value;
      LoadSound(env, a, root.reference, root.height, 0, gen.pageCount, {});
      var t := LoadTree(env, a, root.reference, root.height, 0, gen.pageCount, {}).value.0;
      StoredLocal(env, a, b, t);
      LoadComplete(env, b, t, 0, gen.pageCount, {});
    }
  }

  lemma PageLocal(env: Env, a: Store, b: Store, pageSize: nat, e: Entry)
    requires ReadPage(env, a, pageSize, e).Ok? && Agree(a, b, {e.pack.uri})
    ensures ReadPage(env, b, pageSize, e) == ReadPage(env, a, pageSize, e)
  {
    assert e.pack.uri in b && b[e.pack.uri] == a[e.pack.uri];
  }

  lemma {:induction false} ContentsLocal(env: Env, a: Store, b: Store, pageSize: nat, s: seq<Entry>)
    requires PagesReadable(env, a, pageSize, s) && forall i :: 0 <= i < |s| ==> Agree(a, b, {s[i].pack.uri})
    ensures PagesReadable(env, b, pageSize, s) && Contents(env, b, pageSize, s) == Contents(env, a, pageSize, s)
  {
    hide ReadPage, Agree;
    forall i | 0 <= i < |s|
      ensures ReadPage(env, b, pageSize, s[i]) == ReadPage(env, a, pageSize, s[i])
    {
      PageLocal(env, a, b, pageSize, s[i]);
    }
    if s != [] {
      ContentsLocal(env, a, b, pageSize, s[..|s| - 1]);
    }
  }

  // A generation resolves alike in every store that agrees on what it refers to.
  lemma ResolveLocal(env: Env, a: Store, b: Store, gen: Generation)
    requires ResolveBytes(env, a, gen).Ok? && ReadBase(env, a, gen).Ok? && LoadMap(env, a, gen).Ok?
    requires Agree(a, b, References(env, a, gen))
    ensures ResolveBytes(env, b, gen) == ResolveBytes(env, a, gen)
    ensures ReadBase(env, b, gen).Ok? && LoadMap(env, b, gen).Ok? && References(env, b, gen) == References(env, a, gen)
  {
    hide ReadBase, LoadMap, MapEntries, Supplied, PagesReadable, Contents, Assemble, ReadPage, IndexReads, Agree, Reach;
    Resolved(env, a, gen);
    var tree := TreeIn(env, a, gen);
    AgreeLess(a, b, References(env, a, gen), {gen.checkpoint.uri} + IndexReads(env, a, gen));
    AgreeLess(a, b, References(env, a, gen), NamesIn(ReachOf(tree)));
    BaseLocal(env, a, b, gen);
    MapLocal(env, a, b, gen);
    LoadedTree(env, a, gen);
    PacksReferred(env, a, b, tree);
    ContentsLocal(env, a, b, gen.pageSize, MapEntries(tree, gen.pageCount));
  }

  lemma PacksReferred(env: Env, a: Store, b: Store, tree: Option<Tree>)
    requires Agree(a, b, NamesIn(ReachOf(tree)))
    ensures forall i :: 0 <= i < |EntriesOf(tree)| ==> Agree(a, b, {EntriesOf(tree)[i].pack.uri})
  {
    hide Reach, Flatten;
    forall i | 0 <= i < |EntriesOf(tree)|
      ensures Agree(a, b, {EntriesOf(tree)[i].pack.uri})
    {
      FlattenReach(tree.value, EntriesOf(tree)[i]);
      assert EntriesOf(tree)[i].pack.uri in NamesIn(ReachOf(tree));
    }
  }

  // ----- What a candidate refers to ------------------------------------------------------------

  // An incremental candidate refers to what its parent referred to and to its own objects.
  lemma IncrementalRefers(env: Env, known: Store, gen: Generation, before: Bytes, after: Bytes, s: Store)
    requires Session(env, known, gen, before, after) && Draft(env, known, gen, before, after).Ok?
    requires Draft(env, known, gen, before, after).value.root.Some?
    requires Extends(known, s) && Extends(Draft(env, known, gen, before, after).value.artifacts, s)
    requires Shallow(Incremental(gen, Draft(env, known, gen, before, after).value.root.value, after))
    ensures ReadBase(env, known, gen).Ok? && LoadMap(env, known, gen).Ok?
    ensures var p := Draft(env, known, gen, before, after).value;
      var next := Incremental(gen, p.root.value, after);
      && ReadBase(env, s, next).Ok? && LoadMap(env, s, next).Ok?
      && References(env, s, next) <= References(env, known, gen) + p.artifacts.Keys
  {
    hide ReadBase, LoadMap, MapEntries, PersistImage, ResolveBytes, WellFormed, Stored, Readable, Extends, PairsFit, CollisionFree,
      IndexReads, Reach, ContentAddressed;
    Resolved(env, known, gen);
    LoadedTree(env, known, gen);
    var tree, p := TreeIn(env, known, gen), Draft(env, known, gen, before, after).value;
    var next := Incremental(gen, p.root.value, after);
    PersistContent(env, tree, ChangedPages(before, after), Eof(after));
    PersistClosure(env, known, tree, ChangedPages(before, after), Eof(after));
    SamePages(after);
    BaseStays(env, known, gen, s, next);
    IndexStays(env, known, gen, s, next);
    RootLoads(env, s, p.root.value, next);
    forall u | u in NamesIn(Reach(p.root.value))
      ensures u in NamesIn(ReachOf(tree)) || u in p.artifacts
    {
      var r :| r in Reach(p.root.value) && r.uri == u;
      assert Covered(env, ReachOf(tree), p.artifacts, r);
    }
  }

  lemma SamePages(after: Bytes)
    requires |after| % PAGE == 0
    ensures Eof(after) * PAGE == |after|
  {
  }

  lemma IndexStays(env: Env, known: Store, gen: Generation, s: Store, next: Generation)
    requires ReadBase(env, known, gen).Ok? && Extends(known, s) && ReadBase(env, s, next) == ReadBase(env, known, gen)
    requires next.index == gen.index && next.pageSize == gen.pageSize
    ensures IndexReads(env, s, next) == IndexReads(env, known, gen)
  {
    if gen.index.Some? {
      var index := gen.index.value;
      VerifyMonotone(env, known, s, ReadBase(env, known, gen).value, gen.pageSize, index.root, index.height, 1, index.pageCount, {});
    }
  }

  lemma {:induction false} NodeReadsStored(
    env: Env, store: Store, bytes: Bytes, pageSize: nat, r: Reference, level: nat, first: nat, count: nat, seen: set<Uri>)
    requires VerifyNode(env, store, bytes, pageSize, r, level, first, count, seen).Ok?
    ensures VerifyNode(env, store, bytes, pageSize, r, level, first, count, seen).value <= seen + store.Keys
    decreases level, 0, 0
  {
    var n := VerifiedRead(env, store, r).value.index;
    if n.IndexInternal? {
      AllReadsStored(env, store, bytes, pageSize, n.entries, level - 1, seen + {r.uri});
    }
  }

  lemma {:induction false} AllReadsStored(
    env: Env, store: Store, bytes: Bytes, pageSize: nat, entries: seq<IndexChild>, level: nat, seen: set<Uri>)
    requires VerifyAll(env, store, bytes, pageSize, entries, level, seen).Ok?
    ensures VerifyAll(env, store, bytes, pageSize, entries, level, seen).value <= seen + store.Keys
    decreases level, 1, |entries|
  {
    hide VerifyNode;
    if entries != [] {
      var e := entries[0];
      NodeReadsStored(env, store, bytes, pageSize, e.child, level, e.firstPage, e.pageCount, seen);
      AllReadsStored(env, store, bytes, pageSize, entries[1..], level,
                     VerifyNode(env, store, bytes, pageSize, e.child, level, e.firstPage, e.pageCount, seen).value);
    }
  }

  // A checkpoint refers to its own objects alone.
  lemma CheckpointRefers(env: Env, own: Store, gen: Generation, s: Store)
    requires ResolveBytes(env, own, gen).Ok? && gen.pageMap.None? && Extends(own, s)
    ensures ReadBase(env, s, gen).Ok? && LoadMap(env, s, gen).Ok? && References(env, s, gen) <= own.Keys
  {
    hide MapEntries, Supplied, PagesReadable, Contents, Assemble, VerifyNode;
    Resolved(env, own, gen);
    BaseMonotone(env, own, s, gen);
    IndexStays(env, own, gen, s, gen);
    assert ReachOf(TreeIn(env, s, gen)) == {};
    if gen.index.Some? {
      var index := gen.index.value;
      NodeReadsStored(env, own, ReadBase(env, own, gen).value, gen.pageSize, index.root, index.height, 1, index.pageCount, {});
    }
  }

  // ----- The history and its images ------------------------------------------------------------

  // The names and contents of the protocol's objects, and the generation and image of a
  // HEAD. A name never holds anything else: objects are immutable.
  datatype World = World(uri: P.Obj -> Uri, at: Uri -> Object, gen: P.Head -> Generation, image: P.Head -> Bytes)

  function StoreOf(w: World, objects: set<P.Obj>): Store {
    map u | u in (set o | o in objects :: w.uri(o)) :: w.at(u)
  }

  lemma StoreGrows(w: World, small: set<P.Obj>, big: set<P.Obj>)
    requires small <= big
    ensures Extends(StoreOf(w, small), StoreOf(w, big))
  {
  }

  // What a HEAD's parent leads to.
  function ParentStore(w: World, h: P.Head): Store {
    if h.parent.None? then map[] else StoreOf(w, h.parent.value.closure)
  }

  // These objects over the parent's make the HEAD's generation, and the HEAD leads to all
  // that the generation refers to.
  ghost predicate Makes(env: Env, w: World, h: P.Head, artifacts: Store) {
    var s := ParentStore(w, h) + artifacts;
    && (forall u :: u in artifacts ==> artifacts[u] == w.at(u))
    && Delivers(env, ParentStore(w, h), artifacts, w.gen(h), w.image(h), false) && Shallow(w.gen(h))
    && ReadBase(env, s, w.gen(h)).Ok? && LoadMap(env, s, w.gen(h)).Ok?
    && References(env, s, w.gen(h)) <= StoreOf(w, h.closure).Keys
  }

  // What the builder of a candidate promises of a parent that resolves.
  ghost predicate Builds(env: Env, w: World, h: P.Head) {
    (h.parent.Some? ==> ResolveBytes(env, ParentStore(w, h), w.gen(h.parent.value)) == Ok(w.image(h.parent.value)))
    ==> exists artifacts :: Makes(env, w, h, artifacts)
  }

  // The writer keeps that promise: an incremental candidate may lead to what its parent's
  // generation refers to and its own objects, as a Build step may declare, ...
  lemma IncrementalMakes(env: Env, w: World, h: P.Head)
    requires Capable(env) && h.parent.Some?
    requires var (q, known) := (h.parent.value, ParentStore(w, h));
      && Publishable(env, known, w.gen(q), w.image(q), w.image(h))
      && var p := Draft(env, known, w.gen(q), w.image(q), w.image(h)).value;
         && p.root.Some? && w.gen(h) == Incremental(w.gen(q), p.root.value, w.image(h)) && Shallow(w.gen(h))
         && (forall u :: u in p.artifacts ==> p.artifacts[u] == w.at(u))
         && ReadBase(env, known, w.gen(q)).Ok? && LoadMap(env, known, w.gen(q)).Ok?
         && References(env, known, w.gen(q)) + p.artifacts.Keys <= StoreOf(w, h.closure).Keys
    ensures Makes(env, w, h, Draft(env, ParentStore(w, h), w.gen(h.parent.value), w.image(h.parent.value), w.image(h)).value.artifacts)
  {
    hide ResolveBytes, PersistImage, LoadMap, ReadBase, IndexReads, Reach, StoreOf, WriterMade, Shallow;
    var q, known := h.parent.value, ParentStore(w, h);
    var artifacts := Draft(env, known, w.gen(q), w.image(q), w.image(h)).value.artifacts;
    IncrementalDelivers(env, known, w.gen(q), w.image(q), w.image(h));
    AgreeingStores(w, known, artifacts) by {
      ParentIsStored(w, h);
    }
    IncrementalRefers(env, known, w.gen(q), w.image(q), w.image(h), known + artifacts);
  }

  lemma ParentIsStored(w: World, h: P.Head)
    ensures forall u :: u in ParentStore(w, h) ==> ParentStore(w, h)[u] == w.at(u)
  {
  }

  lemma AgreeingStores(w: World, a: Store, b: Store)
    requires (forall u :: u in a ==> a[u] == w.at(u)) && forall u :: u in b ==> b[u] == w.at(u)
    ensures Extends(a, a + b) && Extends(b, a + b)
  {
  }

  // ... and a checkpoint leads to its own objects.
  lemma CheckpointMakes(env: Env, w: World, h: P.Head, artifacts: Store)
    requires Delivers(env, map[], artifacts, w.gen(h), w.image(h), true) && w.gen(h).pageMap.None?
    requires (forall u :: u in artifacts ==> artifacts[u] == w.at(u)) && artifacts.Keys <= StoreOf(w, h.closure).Keys
    ensures Makes(env, w, h, artifacts)
  {
    hide ResolveBytes, LoadMap, ReadBase, References, StoreOf, WriterMade;
    var known := ParentStore(w, h);
    ParentIsStored(w, h);
    AgreeingStores(w, known, artifacts);
    assert Extends(map[], artifacts) && Extends(artifacts, artifacts);
    CheckpointRefers(env, artifacts, w.gen(h), known + artifacts);
    forall s: Store | Extends(known, s) && Extends(artifacts, s)
      ensures ResolveBytes(env, s, w.gen(h)) == Ok(w.image(h))
    {
      assert Extends(map[], s);
    }
  }

  lemma MadeResolves(env: Env, w: World, h: P.Head, artifacts: Store)
    requires Makes(env, w, h, artifacts)
    ensures ResolveBytes(env, StoreOf(w, h.closure), w.gen(h)) == Ok(w.image(h))
  {
    hide ResolveBytes, ReadBase, LoadMap, References;
    var known := ParentStore(w, h);
    var s := known + artifacts;
    assert Extends(known, s) && Extends(artifacts, s);
    assert Agree(s, StoreOf(w, h.closure), References(env, s, w.gen(h)));
    ResolveLocal(env, s, StoreOf(w, h.closure), w.gen(h));
  }

  // Every HEAD of the history resolves by what it leads to, ...
  lemma {:induction false} HeadsResolve(env: Env, w: World, p: P.Policy, s: P.State, i: nat)
    requires P.Reachable(p, s) && i < |s.history| && forall h :: h in s.history ==> Builds(env, w, h)
    ensures ResolveBytes(env, StoreOf(w, s.history[i].closure), w.gen(s.history[i])) == Ok(w.image(s.history[i]))
  {
    hide ResolveBytes, Makes, StoreOf, P.Reachable;
    var h := s.history[i];
    P.HistoryIsLinear(p, s, i, i);
    if i > 0 {
      HeadsResolve(env, w, p, s, i - 1);
    }
    assert Builds(env, w, h);
    var artifacts :| Makes(env, w, h, artifacts);
    MadeResolves(env, w, h, artifacts);
  }

  // ... and so it does from the store of every later state, whatever was going on.
  lemma HeadsStayResolved(env: Env, w: World, p: P.Policy, s: P.State, actions: seq<P.Action>, t: P.State, i: nat)
    requires P.Reachable(p, s) && P.Leads(p, s, actions, t) && i < |s.history|
    requires forall h :: h in s.history ==> Builds(env, w, h)
    ensures i < |t.history| && t.history[i] == s.history[i]
    ensures ResolveBytes(env, StoreOf(w, t.objects), w.gen(s.history[i])) == Ok(w.image(s.history[i]))
  {
    hide ResolveBytes, LoadMap, Builds, StoreOf, P.Reachable, P.Leads;
    HeadsResolve(env, w, p, s, i);
    P.CommittedIsStored(p, s, actions, t, i);
    StoreGrows(w, s.history[i].closure, t.objects);
    ResolveMonotone(env, StoreOf(w, s.history[i].closure), StoreOf(w, t.objects), w.gen(s.history[i]));
  }
}
