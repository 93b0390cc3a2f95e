// From one generation to the next: a resolved image, a session of page writes and
// truncates, the persisted difference, and the generation that resolves to the
// session's final bytes.
module Generations {
  import opened Wrappers
  import opened Objects
  import opened PageMapTree
  import opened PageMapView
  import opened PageMapFill
  import opened PageMapClosure
  import opened PageMapReader
  import opened PagePacks
  import opened RootGrowth
  import opened Persist
  import opened CheckpointIndex
  import opened Resolve
  import opened ImagePages
  import O = Overlay

  // ----- One incremental step ---------------------------------------------------------

  function TreeIn(env: Env, store: Store, gen: Generation): Option<Tree>
    requires LoadMap(env, store, gen).Ok?
  {
    LoadMap(env, store, gen).value
  }

  function ChangedPages(before: Bytes, after: Bytes): (ws: seq<PageWrite>)
    requires |after| % PAGE == 0
    ensures SortedWrites(ws)
  {
    ListingSorted(O.Difference(before, after), |after| / PAGE);
    Listing(O.Difference(before, after), |after| / PAGE)
  }

  // The facts a resolved generation gives.
  lemma Resolved(env: Env, store: Store, gen: Generation)
    requires ResolveBytes(env, store, gen).Ok?
    ensures ReadBase(env, store, gen).Ok? && LoadMap(env, store, gen).Ok? && gen.pageSize > 0
    ensures var base := ReadBase(env, store, gen).value;
      var s := MapEntries(TreeIn(env, store, gen), gen.pageCount);
      && Supplied(s, |base| / gen.pageSize, gen.pageCount) && PagesReadable(env, store, gen.pageSize, s)
      && ResolveBytes(env, store, gen).value
         == Assemble(gen.pageSize, base, Contents(env, store, gen.pageSize, s), gen.pageCount * gen.pageSize)
  {
    hide ReadBase, LoadMap, MapEntries, Supplied, PagesReadable, Contents, Assemble;
  }

  lemma LoadedTree(env: Env, store: Store, gen: Generation)
    requires LoadMap(env, store, gen).Ok?
    ensures ParentIn(env, store, TreeIn(env, store, gen))
    ensures MapEntries(TreeIn(env, store, gen), gen.pageCount) == EntriesOf(TreeIn(env, store, gen))
  {
    if gen.pageMap.Some? {
      var root := gen.pageMap.value;
      LoadSound(env, store, root.reference, root.height, 0, gen.pageCount, {});
    }
  }

  // A session from one resolved image to another, both whole pages.
  ghost predicate Session(env: Env, store: Store, gen: Generation, before: Bytes, after: Bytes) {
    && CollisionFree(env) && PairsFit(env)
    && ResolveBytes(env, store, gen) == Ok(before) && gen.pageSize == PAGE
    && |after| % PAGE == 0 && PAGE <= |after| <= U64_MAX
  }

  function Eof(image: Bytes): nat {
    |image| / PAGE
  }

  ghost function Draft(env: Env, store: Store, gen: Generation, before: Bytes, after: Bytes): Result<Persisted>
    requires Session(env, store, gen, before, after)
  {
    Resolved(env, store, gen);
    LoadedTree(env, store, gen);
    PersistImage(env, TreeIn(env, store, gen), ChangedPages(before, after), Eof(after))
  }

  // The reader's cap on the levels of a page map.
  predicate Shallow(gen: Generation) {
    gen.pageMap.Some? ==> gen.pageMap.value.height <= MAX_LEVEL
  }

  // The generation published when the page map stays the cheaper form.
  function Incremental(gen: Generation, root: Tree, after: Bytes): Generation {
    Generation(PAGE, Eof(after), gen.checkpoint, Some(MapRoot(root.reference, root.Level())), gen.index)
  }

  // The generation published as a fresh checkpoint.
  function Checkpointed(checkpoint: Reference, index: PageIndex, after: Bytes): Generation {
    Generation(PAGE, Eof(after), checkpoint, None, Some(index))
  }

  // All packs of the changed pages are among the published artifacts.
  lemma PacksPublished(env: Env, store: Store, parent: Option<Tree>, changed: seq<PageWrite>, eof: nat)
    requires PairsFit(env) && SortedWrites(changed) && CollisionFree(env) && ParentIn(env, store, parent)
    requires PersistImage(env, parent, changed, eof).Ok? && PersistImage(env, parent, changed, eof).value.root.Some?
    ensures WritePacks(env, changed, eof).Ok?
    ensures Extends(WritePacks(env, changed, eof).value.1, PersistImage(env, parent, changed, eof).value.artifacts)
  {
    hide Stored, WellFormed, Readable, Candidate, Collapse, Flatten, Reach, Closed, WritePacks, Applied;
    var p := PersistImage(env, parent, changed, eof).value;
    CandidateClosed(env, store, parent, changed, eof);
    PersistContent(env, parent, changed, eof);
    var (mappings, packs) := WritePacks(env, changed, eof).value;
    SortedMappings(env, changed, eof);
    EntriesSorted(parent);
    AppliedExact(EntriesOf(parent), mappings, eof);
    forall u | u in packs
      ensures u in p.artifacts && p.artifacts[u] == packs[u]
    {
      WritePacksUsed(env, changed, eof, u);
      var e :| e in mappings && e.pack.uri == u;
      FlattenReach(p.root.value, e);
    }
  }

  lemma EntriesSorted(tree: Option<Tree>)
    requires tree.Some? ==> WellFormed(tree.value)
    ensures SortedEntries(EntriesOf(tree))
  {
    if tree.Some? {
      FlattenSorted(tree.value);
    }
  }

  // The mapping of the changed pages: exactly the pages that differ, each read
  // back as its new bytes wherever the packs are stored.
  lemma MappedChanges(env: Env, store: Store, before: Bytes, after: Bytes)
    requires CollisionFree(env) && |after| % PAGE == 0
    requires WritePacks(env, ChangedPages(before, after), Eof(after)).Ok?
    requires Extends(WritePacks(env, ChangedPages(before, after), Eof(after)).value.1, store)
    ensures var s := WritePacks(env, ChangedPages(before, after), Eof(after)).value.0;
      && SortedEntries(s) && AllAtMost(s, Eof(after))
      && AsMap(s).Keys == O.Difference(before, after).Keys
      && forall n :: n in AsMap(s) ==> ReadPage(env, store, PAGE, AsMap(s)[n]) == Ok(O.Difference(before, after)[n])
  {
    hide WritePacks, ReadPage, O.Difference;
    var ws, eof, d := ChangedPages(before, after), Eof(after), O.Difference(before, after);
    var s := WritePacks(env, ws, eof).value.0;
    SortedMappings(env, ws, eof);
    WritePacksStanding(env, ws, eof);
    ListingSorted(d, eof);
    forall n | n in AsMap(s)
      ensures n in d && ReadPage(env, store, PAGE, AsMap(s)[n]) == Ok(d[n])
    {
      var i :| 0 <= i < |s| && s[i] == AsMap(s)[n];
      WritePacksReadBack(env, ws, eof, store, i);
      assert ws[i] in ws;
    }
    forall n | n in d
      ensures n in AsMap(s)
    {
      DifferenceInside(before, after, n);
      ListingComplete(d, eof, n);
      var i :| 0 <= i < |ws| && ws[i] == PageWrite(n, d[n]);
      assert s[i].page == n && s[i] in s;
    }
  }

  lemma DifferenceInside(before: Bytes, after: Bytes, n: nat)
    requires |after| % PAGE == 0 && n in O.Difference(before, after)
    ensures 0 < n <= Eof(after)
  {
  }

  // The new run after an incremental step: pages up to the new end, each with its
  // new bytes if it changed and with its old contents otherwise.
  lemma NewContents(
    env: Env, store: Store, gen: Generation, before: Bytes, after: Bytes, published: Store)
    requires Session(env, store, gen, before, after) && Draft(env, store, gen, before, after).Ok?
    requires var p := Draft(env, store, gen, before, after).value;
      p.root.Some? && Extends(store, published) && Extends(p.artifacts, published)
    ensures ReadBase(env, store, gen).Ok? && LoadMap(env, store, gen).Ok?
    ensures var s := MapEntries(TreeIn(env, store, gen), gen.pageCount);
      var root := Draft(env, store, gen, before, after).value.root;
      var s' := EntriesOf(root);
      && PagesReadable(env, store, PAGE, s)
      && WellFormed(root.value) && root.value.max <= Eof(after) && |root.value.children| != 1
      && SortedEntries(s') && PagesReadable(env, published, PAGE, s')
      && Contents(env, published, PAGE, s') == Restrict(Contents(env, store, PAGE, s), Eof(after)) + O.Difference(before, after)
  {
    hide ReadBase, MapEntries, LoadMap, PersistImage, ReadPage, O.Difference, CollisionFree, ResolveBytes, Assemble,
      WritePacks, Stored, Readable, WellFormed, Contents, AsMap, Applied, PagesReadable, SortedEntries, Extends, PairsFit;
    Resolved(env, store, gen);
    LoadedTree(env, store, gen);
    var tree, ws, eof := TreeIn(env, store, gen), ChangedPages(before, after), Eof(after);
    var s := MapEntries(tree, gen.pageCount);
    PersistContent(env, tree, ws, eof);
    PacksPublished(env, store, tree, ws, eof);
    ExtendsTrans(WritePacks(env, ws, eof).value.1, PersistImage(env, tree, ws, eof).value.artifacts, published);
    MappedChanges(env, published, before, after);
    var mappings := WritePacks(env, ws, eof).value.0;
    var s' := EntriesOf(PersistImage(env, tree, ws, eof).value.root);
    AppliedMap(s, mappings, eof);
    NewReadable(env, store, published, s, s', mappings, eof);
    MergedContents(env, store, published, s, s', mappings, O.Difference(before, after), eof);
  }

  lemma MergedContents(
    env: Env, store: Store, published: Store, s: seq<Entry>, s': seq<Entry>, mappings: seq<Entry>, d: map<nat, Bytes>, eof: nat)
    requires SortedEntries(s) && SortedEntries(s') && SortedEntries(mappings) && Extends(store, published)
    requires AsMap(s') == Restrict(AsMap(s), eof) + AsMap(mappings)
    requires PagesReadable(env, store, PAGE, s) && PagesReadable(env, published, PAGE, s')
    requires AsMap(mappings).Keys == d.Keys
    requires forall n :: n in AsMap(mappings) ==> ReadPage(env, published, PAGE, AsMap(mappings)[n]) == Ok(d[n])
    ensures Contents(env, published, PAGE, s') == Restrict(Contents(env, store, PAGE, s), eof) + d
  {
    hide ReadPage, Contents, AsMap, SortedEntries, Extends, PagesReadable;
    ContentsMap(env, store, PAGE, s);
    ContentsMap(env, published, PAGE, s');
    var left, right := Contents(env, published, PAGE, s'), Restrict(Contents(env, store, PAGE, s), eof) + d;
    forall n | n in right
      ensures n in left && left[n] == right[n]
    {
      if n !in AsMap(mappings) {
        ReadPageMonotone(env, store, published, PAGE, AsMap(s)[n]);
      }
    }
    assert left.Keys == right.Keys;
  }

  lemma ExtendsTrans(a: Store, b: Store, c: Store)
    requires Extends(a, b) && Extends(b, c)
    ensures Extends(a, c)
  {
  }

  lemma NewReadable(
    env: Env, store: Store, published: Store, s: seq<Entry>, s': seq<Entry>, mappings: seq<Entry>, eof: nat)
    requires SortedEntries(s) && SortedEntries(s') && SortedEntries(mappings) && Extends(store, published)
    requires AsMap(s') == Restrict(AsMap(s), eof) + AsMap(mappings)
    requires PagesReadable(env, store, PAGE, s)
    requires forall n :: n in AsMap(mappings) ==> ReadPage(env, published, PAGE, AsMap(mappings)[n]).Ok?
    ensures PagesReadable(env, published, PAGE, s')
  {
    hide ReadPage, Extends;
    forall i | 0 <= i < |s'|
      ensures ReadPage(env, published, PAGE, s'[i]).Ok?
    {
      var n := s'[i].page;
      assert s'[i] in s' && AsMap(s')[n] == s'[i];
      if n !in AsMap(mappings) {
        var j :| 0 <= j < |s| && s[j] == AsMap(s)[n];
        ReadPageMonotone(env, store, published, PAGE, s[j]);
      }
    }
  }

  // The new image, byte for byte.
  lemma NewBytes(pageSize: pos, base: Bytes, old': map<nat, Bytes>, before: Bytes, after: Bytes, pageCount: nat)
    requires pageSize == PAGE && |after| % PAGE == 0 && forall n :: n in old' ==> |old'[n]| == PAGE
    requires before == Assemble(pageSize, base, old', pageCount * pageSize)
    ensures var fresh' := Restrict(old', Eof(after)) + O.Difference(before, after);
      && (forall n :: n in fresh' ==> |fresh'[n]| == PAGE)
      && Assemble(pageSize, base, fresh', Eof(after) * pageSize) == after
  {
    var d := O.Difference(before, after);
    var fresh' := Restrict(old', Eof(after)) + d;
    forall k | 0 <= k < |after|
      ensures ImageByte(pageSize, base, fresh', k) == after[k]
    {
      var n := k / PAGE + 1;
      assert 0 < n <= Eof(after) && n * PAGE <= |after|;
      O.PageByte(after, k);
      if n !in d {
        assert O.SamePage(before, after, n);
        O.PageByte(before, k);
        assert before[k] == ImageByte(pageSize, base, old', k);
      }
    }
  }

  // Every page the new image has beyond the checkpoint is in the new map.
  lemma NewSupplied(
    env: Env, store: Store, published: Store, s: seq<Entry>, s': seq<Entry>, basePages: nat, pageCount: nat, before: Bytes, after: Bytes)
    requires SortedEntries(s) && Bounded(s, pageCount) && PagesReadable(env, store, PAGE, s)
    requires Supplied(s, basePages, pageCount) && |before| == pageCount * PAGE && |after| % PAGE == 0
    requires SortedEntries(s') && Bounded(s', Eof(after)) && PagesReadable(env, published, PAGE, s')
    requires Contents(env, published, PAGE, s') == Restrict(Contents(env, store, PAGE, s), Eof(after)) + O.Difference(before, after)
    ensures Supplied(s', basePages, Eof(after))
  {
    hide ReadPage, Supplied, Contents, AsMap, SortedEntries, Bounded;
    SuppliedExact(s, basePages, pageCount);
    SuppliedExact(s', basePages, Eof(after));
    ContentsMap(env, store, PAGE, s);
    ContentsMap(env, published, PAGE, s');
    forall n: nat | basePages < n <= Eof(after)
      ensures n in AsMap(s')
    {
      if n !in O.Difference(before, after) {
        assert n * PAGE <= |after|;
        assert O.SamePage(before, after, n);
        assert n <= pageCount;
        assert n in AsMap(s) && n in Contents(env, store, PAGE, s);
      }
      assert n in Contents(env, published, PAGE, s');
    }
  }

  lemma BaseStays(env: Env, store: Store, gen: Generation, published: Store, next: Generation)
    requires ReadBase(env, store, gen).Ok? && Extends(store, published)
    requires next.checkpoint == gen.checkpoint && next.index == gen.index && next.pageSize == gen.pageSize
    requires next.pageMap.Some? && 0 < next.pageCount && next.pageCount * next.pageSize <= U64_MAX
    ensures ReadBase(env, published, next) == ReadBase(env, store, gen)
  {
    if gen.index.Some? {
      var index := gen.index.value;
      VerifyMonotone(env, store, published, ReadBase(env, store, gen).value, gen.pageSize,
                     index.root, index.height, 1, index.pageCount, {});
    }
  }

  // One incremental generation, over any parent that resolves: with the artifacts
  // published next to the old store, the strict reader returns exactly the session's
  // final bytes, or refuses the generation because its page map has too many levels.
  lemma IncrementalResolves(
    env: Env, store: Store, gen: Generation, before: Bytes, after: Bytes, published: Store)
    requires Session(env, store, gen, before, after) && Draft(env, store, gen, before, after).Ok?
    requires var p := Draft(env, store, gen, before, after).value;
      p.root.Some? && Extends(store, published) && Extends(p.artifacts, published)
    ensures var next := Incremental(gen, Draft(env, store, gen, before, after).value.root.value, after);
      if Shallow(next) then ResolveBytes(env, published, next) == Ok(after) else ResolveBytes(env, published, next).Err?
  {
    if Shallow(Incremental(gen, Draft(env, store, gen, before, after).value.root.value, after)) {
      ShallowResolves(env, store, gen, before, after, published);
    } else {
      TooDeepRefused(env, published, Incremental(gen, Draft(env, store, gen, before, after).value.root.value, after));
    }
  }

  lemma TooDeepRefused(env: Env, store: Store, gen: Generation)
    requires !Shallow(gen)
    ensures ResolveBytes(env, store, gen).Err?
  {
    hide ReadBase, MapEntries, Supplied, PagesReadable, Contents;
    assert LoadMap(env, store, gen).Err?;
  }

  lemma ShallowResolves(
    env: Env, store: Store, gen: Generation, before: Bytes, after: Bytes, published: Store)
    requires Session(env, store, gen, before, after) && Draft(env, store, gen, before, after).Ok?
    requires var p := Draft(env, store, gen, before, after).value;
      p.root.Some? && p.root.value.Level() <= MAX_LEVEL && Extends(store, published) && Extends(p.artifacts, published)
    ensures var root := Draft(env, store, gen, before, after).value.root.value;
      ResolveBytes(env, published, Incremental(gen, root, after)) == Ok(after)
  {
    hide ReadBase, MapEntries, LoadMap, PersistImage, ReadPage, O.Difference, CollisionFree, ResolveBytes, Assemble,
      WritePacks, Stored, Readable, WellFormed, Contents, AsMap, Supplied, PagesReadable, SortedEntries, Extends, PairsFit;
    Resolved(env, store, gen);
    LoadedTree(env, store, gen);
    var tree := TreeIn(env, store, gen);
    var root := Draft(env, store, gen, before, after).value.root.value;
    var next := Incremental(gen, root, after);
    var s, s' := MapEntries(tree, gen.pageCount), Flatten(root);
    var base := ReadBase(env, store, gen).value;
    NewContents(env, store, gen, before, after, published);
    PersistClosure(env, store, tree, ChangedPages(before, after), Eof(after));
    assert |after| == Eof(after) * PAGE;
    BaseStays(env, store, gen, published, next);
    RootLoads(env, published, root, next);
    NewSupplied(env, store, published, s, s', |base| / PAGE, gen.pageCount, before, after);
    NewBytes(gen.pageSize, base, Contents(env, store, PAGE, s), before, after, gen.pageCount);
    ResolvesTo(env, published, next, root, base, after);
  }

  lemma RootLoads(env: Env, published: Store, root: Tree, next: Generation)
    requires WellFormed(root) && Stored(env, published, root) && Readable(root)
    requires root.Level() <= MAX_LEVEL && root.max <= next.pageCount
    requires next.pageMap == Some(MapRoot(root.reference, root.Level()))
    ensures LoadMap(env, published, next) == Ok(Some(root))
    ensures MapEntries(Some(root), next.pageCount) == Flatten(root)
  {
    TreeBounds(root);
    LoadComplete(env, published, root, 0, next.pageCount, {});
  }

  lemma ResolvesTo(env: Env, published: Store, next: Generation, root: Tree, base: Bytes, after: Bytes)
    requires ReadBase(env, published, next) == Ok(base) && LoadMap(env, published, next) == Ok(Some(root))
    requires WellFormed(root) && root.max <= next.pageCount && next.pageSize == PAGE
    requires MapEntries(Some(root), next.pageCount) == Flatten(root)
    requires PagesReadable(env, published, PAGE, Flatten(root)) && Supplied(Flatten(root), |base| / PAGE, next.pageCount)
    requires after == Assemble(PAGE, base, Contents(env, published, PAGE, Flatten(root)), next.pageCount * PAGE)
    ensures ResolveBytes(env, published, next) == Ok(after)
  {
    hide ReadBase, LoadMap, MapEntries, PagesReadable, Supplied, Assemble, Contents, WellFormed;
  }

  // A fresh checkpoint resolves to its own bytes.
  lemma CheckpointResolves(env: Env, published: Store, checkpoint: Reference, index: PageIndex, after: Bytes)
    requires |after| % PAGE == 0 && PAGE <= |after| <= U64_MAX
    requires Holds(env, published, checkpoint, CheckpointObject(after))
    requires Verifies(env, published, index, checkpoint, PAGE, after)
    ensures ResolveBytes(env, published, Checkpointed(checkpoint, index, after)) == Ok(after)
  {
    hide Verifies;
    var next := Checkpointed(checkpoint, index, after);
    assert ReadBase(env, published, next) == Ok(after);
    assert LoadMap(env, published, next) == Ok(None);
    assert Assemble(PAGE, after, map[], |after|) == after;
  }

  // ----- Fill over generations ------------------------------------------------------

  ghost predicate NamedByWriter(env: Env, refs: set<Reference>) {
    forall r :: r in refs ==> exists o: Object :: !o.CheckpointObject? && r == RefOf(env, o)
  }

  // What the writer's own generations keep: a map that is half full off its right
  // spine, collapsed, and named by content.
  ghost predicate WriterMade(env: Env, store: Store, gen: Generation) {
    && gen.pageSize == PAGE
    && LoadMap(env, store, gen).Ok?
    && var tree := TreeIn(env, store, gen);
       tree.Some? ==> SpineFilled(tree.value) && NamedByWriter(env, Reach(tree.value))
  }

  lemma {:induction false} ReachContent(t: Tree)
    requires WellFormed(t) && forall r :: r in Reach(t) ==> ByContent(r)
    ensures ContentTree(t) && ByContent(t.reference)
  {
    if t.node.Leaf? {
      forall i | 0 <= i < |t.node.entries|
        ensures ByContent(t.node.entries[i].pack)
      {
        assert t.node.entries[i].pack in Packs(t.node.entries);
      }
    } else {
      forall i | 0 <= i < |t.children|
        ensures ContentTree(t.children[i]) && ByContent(t.children[i].reference)
      {
        ReachMember(t.children, i);
        ForestAt(t.children, t.node.level - 1, i);
        ReachContent(t.children[i]);
      }
    }
  }

  lemma NamedContent(env: Env, t: Tree)
    requires WellFormed(t) && NamedByWriter(env, Reach(t))
    ensures ContentTree(t)
  {
    hide Reach;
    ReachContent(t);
  }

  lemma MappingsByContent(env: Env, ws: seq<PageWrite>, eof: nat)
    requires CollisionFree(env) && SortedWrites(ws) && WritePacks(env, ws, eof).Ok?
    ensures EntriesByContent(WritePacks(env, ws, eof).value.0)
  {
    hide WritePacks;
    WritePacksStanding(env, ws, eof);
    var (s, packs) := WritePacks(env, ws, eof).value;
    forall i | 0 <= i < |s|
      ensures ByContent(s[i].pack)
    {
      assert Located(env, packs, s[i]);
    }
  }

  lemma NamedUnambiguous(env: Env, refs: set<Reference>)
    requires CollisionFree(env) && NamedByWriter(env, refs)
    ensures Unambiguous(refs)
  {
    forall a, b | a in refs && b in refs && a.uri == b.uri
      ensures a == b
    {
      var x: Object :| !x.CheckpointObject? && a == RefOf(env, x);
      var y: Object :| !y.CheckpointObject? && b == RefOf(env, y);
      assert env.digest(x) == env.digest(y);
    }
  }

  lemma {:induction false} WritePacksSucceeds(env: Env, ws: seq<PageWrite>, eof: nat)
    requires forall i :: 0 <= i < |ws| ==> 0 < ws[i].page <= eof && |ws[i].bytes| == PAGE
    ensures WritePacks(env, ws, eof).Ok?
    decreases |ws|
  {
    if ws != [] {
      var chunk, rest := ws[..ChunkSize(ws)], ws[ChunkSize(ws)..];
      assert forall i :: 0 <= i < |chunk| ==> chunk[i] == ws[i];
      WritePacksSucceeds(env, rest, eof);
    }
  }

  // For a writer-made parent, persisting a draft fails only when the lengths of the
  // reachable objects overflow 64 bits, and a persisted root is again half full off
  // its right spine, at most ten levels high, and named by content.
  lemma DraftSucceeds(env: Env, store: Store, gen: Generation, before: Bytes, after: Bytes)
    requires CapacityFits(env) && Session(env, store, gen, before, after) && WriterMade(env, store, gen)
    requires ParentIn(env, store, TreeIn(env, store, gen))
    ensures Candidate(env, TreeIn(env, store, gen), ChangedPages(before, after), Eof(after)).Ok?
    ensures var roots := Candidate(env, TreeIn(env, store, gen), ChangedPages(before, after), Eof(after)).value.trees;
      && (Draft(env, store, gen, before, after).Ok? <==>
            (roots == [] || TotalLength(Reach(Collapse(roots[0]))) <= U64_MAX))
      && (roots != [] ==> NamedByWriter(env, Reach(Collapse(roots[0]))))
      && (Draft(env, store, gen, before, after).Ok? && roots != [] ==>
            var root := Draft(env, store, gen, before, after).value.root;
            root == Some(Collapse(roots[0])) && SpineFilled(root.value) && root.value.Level() <= 10)
  {
    hide ReadBase, LoadMap, ReadPage, O.Difference, ResolveBytes, WritePacks, Stored, Readable, WellFormed, Forest,
      SpineFilled, Filled, ContentTree, NewRoots, Grow, Collapse, Reach, CapacityFits, PairsFit, CollisionFree, NamedByWriter, TotalLength, Select;
    var tree, ws, eof := TreeIn(env, store, gen), ChangedPages(before, after), Eof(after);
    ChangedWhole(before, after);
    WritePacksSucceeds(env, ws, eof);
    if tree.Some? {
      NamedContent(env, tree.value);
    }
    CandidateSucceeds(env, tree, ws, eof);
    var c := Candidate(env, tree, ws, eof).value;
    if c.trees != [] {
      NothingNamed(env);
      CandidateNamed(env, store, tree, ws, eof);
      NamedUnambiguous(env, Reach(Collapse(c.trees[0])));
      CandidateShape(env, tree, ws, eof);
      CollapseKeeps(c.trees[0]);
      if Draft(env, store, gen, before, after).Ok? {
        PersistContent(env, tree, ws, eof);
        HeightAtMostTen(Collapse(c.trees[0]), eof);
      }
    }
  }

  lemma DraftRoot(env: Env, store: Store, gen: Generation, before: Bytes, after: Bytes)
    requires CapacityFits(env) && Session(env, store, gen, before, after) && WriterMade(env, store, gen)
    requires ParentIn(env, store, TreeIn(env, store, gen))
    requires Draft(env, store, gen, before, after).Ok? && Draft(env, store, gen, before, after).value.root.Some?
    ensures var root := Draft(env, store, gen, before, after).value.root.value;
      SpineFilled(root) && NamedByWriter(env, Reach(root)) && root.Level() <= 10
  {
    hide ResolveBytes, LoadMap, Candidate, Collapse, Reach, SpineFilled, NamedByWriter, Stored, Readable, WellFormed,
      CapacityFits, CollisionFree, PairsFit, Select, Unambiguous, TotalLength;
    DraftSucceeds(env, store, gen, before, after);
  }

  lemma NothingNamed(env: Env)
    ensures NamedByWriter(env, {})
  {
  }

  lemma ChangedWhole(before: Bytes, after: Bytes)
    requires |after| % PAGE == 0
    ensures var ws := ChangedPages(before, after);
      forall i :: 0 <= i < |ws| ==> 0 < ws[i].page <= Eof(after) && |ws[i].bytes| == PAGE
  {
    var ws := ChangedPages(before, after);
    ListingSorted(O.Difference(before, after), Eof(after));
    forall i | 0 <= i < |ws|
      ensures 0 < ws[i].page <= Eof(after) && |ws[i].bytes| == PAGE
    {
      assert ws[i] in ws;
    }
  }

  lemma CandidateSucceeds(env: Env, parent: Option<Tree>, changed: seq<PageWrite>, eof: nat)
    requires CollisionFree(env) && CapacityFits(env) && PairsFit(env) && SortedWrites(changed)
    requires parent.Some? ==> WellFormed(parent.value) && SpineFilled(parent.value) && ContentTree(parent.value)
    requires WritePacks(env, changed, eof).Ok?
    ensures Candidate(env, parent, changed, eof).Ok?
    ensures AllSpineFilled(Candidate(env, parent, changed, eof).value.trees)
  {
    hide WritePacks, Update, LeafNodes, Grow, SpineFilled, Filled, WellFormed, Forest, CapacityFits, CollisionFree, ContentTree, EntriesByContent;
    var mappings := WritePacks(env, changed, eof).value.0;
    SortedMappings(env, changed, eof);
    MappingsByContent(env, changed, eof);
    if parent.Some? {
      UpdateFill(env, parent.value, mappings, eof);
    } else {
      LeafNodesFill(env, mappings);
    }
    NewRootsForest(env, parent, mappings, eof);
    GrowFill(env, NewRoots(env, parent, mappings, eof).value.trees, LevelIn(parent));
  }

  lemma CandidateNamed(env: Env, store: Store, parent: Option<Tree>, changed: seq<PageWrite>, eof: nat)
    requires PairsFit(env) && SortedWrites(changed) && CollisionFree(env) && ParentIn(env, store, parent)
    requires NamedByWriter(env, ReachOf(parent))
    requires Candidate(env, parent, changed, eof).Ok? && Candidate(env, parent, changed, eof).value.trees != []
    ensures NamedByWriter(env, Reach(Collapse(Candidate(env, parent, changed, eof).value.trees[0])))
  {
    hide WellFormed, Stored, Readable, Candidate, Collapse, Reach, WritePacks, BackedAll, CollisionFree, PairsFit;
    CandidateClosed(env, store, parent, changed, eof);
    CandidateShape(env, parent, changed, eof);
    var c := Candidate(env, parent, changed, eof).value;
    CollapseKeeps(c.trees[0]);
    ReachMember(c.trees, 0);
    forall r | r in Reach(Collapse(c.trees[0]))
      ensures exists o: Object :: !o.CheckpointObject? && r == RefOf(env, o)
    {
      assert Covered(env, ReachOf(parent) + Packs(WritePacks(env, changed, eof).value.0), c.artifacts, r);
      if r in Packs(WritePacks(env, changed, eof).value.0) {
        PackCovered(env, changed, eof, c.artifacts, r);
      }
    }
  }
}
