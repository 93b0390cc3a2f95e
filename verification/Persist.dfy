// Persisting a frozen image: pack the changed pages, update the page map, reduce
// it to one root, and keep the artifacts the new root reaches.
module Persist {
  import opened Wrappers
  import opened Objects
  import opened PageMapTree
  import opened PageMapView
  import opened PageMapFill
  import opened PageMapClosure
  import opened PageMapReader
  import opened PagePacks
  import opened RootGrowth

  datatype Persisted = Persisted(root: Option<Tree>, artifacts: Store, reachableBytes: nat)

  // ----- Bytes reachable from a root ------------------------------------------

  ghost function TotalLength(refs: set<Reference>): nat {
    if refs == {} then 0
    else
      var r :| r in refs;
      r.length + TotalLength(refs - {r})
  }

  // The order in which the references are added up does not matter.
  lemma {:induction false} TotalLengthWithout(refs: set<Reference>, r: Reference)
    requires r in refs
    ensures TotalLength(refs) == r.length + TotalLength(refs - {r})
    decreases |refs|
  {
    var x :| x in refs && TotalLength(refs) == x.length + TotalLength(refs - {x});
    if x != r {
      TotalLengthWithout(refs - {x}, r);
      TotalLengthWithout(refs - {r}, x);
      assert refs - {x} - {r} == refs - {r} - {x};
    }
  }

  method SumLengths(refs: set<Reference>) returns (r: Result<nat>)
    ensures r == if TotalLength(refs) <= U64_MAX then Ok(TotalLength(refs)) else Err(Corrupt)
  {
    var total := 0;
    var left := refs;
    while left != {}
      invariant total + TotalLength(left) == TotalLength(refs)
      invariant total <= U64_MAX
    {
      var x :| x in left;
      TotalLengthWithout(left, x);
      if total + x.length > U64_MAX {
        return Err(Corrupt);
      }
      total := total + x.length;
      left := left - {x};
    }
    r := Ok(total);
  }

  // No name is used by two different references.
  predicate Unambiguous(refs: set<Reference>) {
    forall a, b :: a in refs && b in refs && a.uri == b.uri ==> a == b
  }

  function Select(artifacts: Store, refs: set<Reference>): Store {
    var names := set r | r in refs :: r.uri;
    map u | u in artifacts && u in names :: artifacts[u]
  }

  // ----- The result a persist call is proved against --------------------------

  function NewRoots(env: Env, parent: Option<Tree>, mappings: seq<Entry>, eof: nat): Result<Built>
    requires parent.Some? ==> WellFormed(parent.value)
  {
    if parent.Some? then Update(env, parent.value, mappings, eof) else LeafNodes(env, mappings)
  }

  function LevelIn(parent: Option<Tree>): nat {
    if parent.Some? then parent.value.Level() else 0
  }

  function EntriesOf(parent: Option<Tree>): seq<Entry> {
    if parent.Some? then Flatten(parent.value) else []
  }

  function ReachOf(parent: Option<Tree>): set<Reference> {
    if parent.Some? then Reach(parent.value) else {}
  }

  ghost function Finish(artifacts: Store, roots: seq<Tree>): Result<Persisted>
    requires |roots| <= 1
  {
    if roots == [] then Ok(Persisted(None, map[], 0))
    else
      var root := Collapse(roots[0]);
      if !Unambiguous(Reach(root)) || TotalLength(Reach(root)) > U64_MAX then Err(Corrupt)
      else Ok(Persisted(Some(root), Select(artifacts, Reach(root)), TotalLength(Reach(root))))
  }

  // At most one root, and every object made on the way to it.
  function Candidate(env: Env, parent: Option<Tree>, changed: seq<PageWrite>, eof: nat): (r: Result<Built>)
    requires PairsFit(env) && SortedWrites(changed) && CollisionFree(env)
    requires parent.Some? ==> WellFormed(parent.value)
    ensures r.Ok? ==> |r.value.trees| <= 1
  {
    var (mappings, packs) :- WritePacks(env, changed, eof);
    SortedMappings(env, changed, eof);
    var built :- NewRoots(env, parent, mappings, eof);
    NewRootsForest(env, parent, mappings, eof);
    var top :- Grow(env, built.trees, LevelIn(parent));
    GrowShape(env, built.trees, LevelIn(parent));
    Ok(Built(top.trees, packs + built.artifacts + top.artifacts))
  }

  ghost function PersistImage(env: Env, parent: Option<Tree>, changed: seq<PageWrite>, eof: nat): Result<Persisted>
    requires PairsFit(env) && SortedWrites(changed) && CollisionFree(env)
    requires parent.Some? ==> WellFormed(parent.value)
  {
    var c :- Candidate(env, parent, changed, eof);
    Finish(c.artifacts, c.trees)
  }

  lemma SortedMappings(env: Env, changed: seq<PageWrite>, eof: nat)
    requires CollisionFree(env) && SortedWrites(changed) && WritePacks(env, changed, eof).Ok?
    ensures var s := WritePacks(env, changed, eof).value.0; SortedEntries(s) && ValidEntries(s) && AllAtMost(s, eof)
  {
    WritePacksStanding(env, changed, eof);
    StandingSorted(env, WritePacks(env, changed, eof).value.0, WritePacks(env, changed, eof).value.1, changed, eof);
  }

  lemma NewRootsForest(env: Env, parent: Option<Tree>, mappings: seq<Entry>, eof: nat)
    requires parent.Some? ==> WellFormed(parent.value)
    requires SortedEntries(mappings) && NewRoots(env, parent, mappings, eof).Ok?
    ensures Represents(NewRoots(env, parent, mappings, eof).value.trees, LevelIn(parent), Applied(EntriesOf(parent), mappings, eof))
    ensures Raisable(NewRoots(env, parent, mappings, eof).value.trees)
  {
    if parent.Some? {
      UpdateShape(env, parent.value, mappings, eof);
      UpdateTitled(env, parent.value, mappings, eof);
    } else {
      LeafNodesShape(env, mappings);
      LeafNodesTitled(env, mappings);
      MergeNothing(mappings);
    }
  }

  lemma {:induction false} MergeNothing(b: seq<Entry>)
    ensures Merge([], b) == b
  {
    if b != [] {
      MergeNothing(b[1..]);
    }
  }

  // The loop that adds levels until at most one root is left.
  method ReduceRoots(env: Env, ts: seq<Tree>, ghost level: nat) returns (r: Result<Built>)
    requires PairsFit(env) && Forest(ts, level) && Raisable(ts)
    ensures r == Grow(env, ts, level)
  {
    hide InternalNodes, Forest;
    var roots, grown: Store := ts, map[];
    ghost var at := level;
    assert grown + Rest(env, ts, level) == Rest(env, ts, level);
    while |roots| > 1
      invariant Forest(roots, at) && Raisable(roots)
      invariant Continues(Grow(env, ts, level), grown, Grow(env, roots, at))
      decreases |roots|
    {
      ForestLevel(roots, at);
      var next := InternalNodes(env, roots, roots[0].Level() + 1);
      GrowUnfold(env, roots, at);
      if next.Err? {
        return Err(next.kind);
      }
      assert grown + next.value.artifacts + Rest(env, next.value.trees, at + 1)
          == grown + (next.value.artifacts + Rest(env, next.value.trees, at + 1));
      grown := grown + next.value.artifacts;
      roots, at := next.value.trees, at + 1;
    }
    GrowNothing(env, roots, at);
    assert grown + map[] == grown;
    r := Ok(Built(roots, grown));
  }

  function Rest(env: Env, ts: seq<Tree>, ghost level: nat): Store
    requires PairsFit(env) && Forest(ts, level) && Raisable(ts)
  {
    var g := Grow(env, ts, level);
    if g.Ok? then g.value.artifacts else map[]
  }

  // `whole` is what remains to be grown, after the artifacts made so far.
  predicate Continues(whole: Result<Built>, sofar: Store, rest: Result<Built>) {
    whole == if rest.Ok? then Ok(Built(rest.value.trees, sofar + rest.value.artifacts)) else rest
  }

  lemma ForestLevel(ts: seq<Tree>, level: nat)
    requires Forest(ts, level) && ts != []
    ensures ts[0].Level() == level
  {
  }

  lemma GrowUnfold(env: Env, ts: seq<Tree>, level: nat)
    requires PairsFit(env) && Forest(ts, level) && Raisable(ts) && |ts| > 1
    ensures var next := InternalNodes(env, ts, level + 1);
      if next.Err? then Grow(env, ts, level) == Err(next.kind)
      else
        && Forest(next.value.trees, level + 1) && Raisable(next.value.trees) && |next.value.trees| < |ts|
        && Continues(Grow(env, ts, level), next.value.artifacts, Grow(env, next.value.trees, level + 1))
  {
    if InternalNodes(env, ts, level + 1).Ok? {
      GrowthShrinks(env, ts, level + 1);
      InternalNodesTitled(env, ts, level + 1);
      InternalNodesShape(env, ts, level + 1);
    }
  }

  method DropSingleRoots(t: Tree) returns (root: Tree)
    ensures root == Collapse(t)
  {
    root := t;
    while |root.children| == 1
      invariant Collapse(root) == Collapse(t)
      decreases root
    {
      root := root.children[0];
    }
  }

  // persist
  method PersistFrozen(env: Env, parent: Option<Tree>, changed: seq<PageWrite>, eof: nat) returns (r: Result<Persisted>)
    requires PairsFit(env) && SortedWrites(changed) && CollisionFree(env)
    requires parent.Some? ==> WellFormed(parent.value)
    ensures r == PersistImage(env, parent, changed, eof)
  {
    hide WellFormed, Forest, NewRoots, Grow, WritePacks, Collapse, Select, Unambiguous;
    var written := WritePacks(env, changed, eof);
    if written.Err? {
      return Err(written.kind);
    }
    SortedMappings(env, changed, eof);
    var built := NewRoots(env, parent, written.value.0, eof);
    if built.Err? {
      return Err(built.kind);
    }
    NewRootsForest(env, parent, written.value.0, eof);
    var top := ReduceRoots(env, built.value.trees, LevelIn(parent));
    if top.Err? {
      return Err(top.kind);
    }
    var artifacts := written.value.1 + built.value.artifacts + top.value.artifacts;
    assert Candidate(env, parent, changed, eof) == Ok(Built(top.value.trees, artifacts));
    if top.value.trees == [] {
      return Ok(Persisted(None, map[], 0));
    }
    var root := DropSingleRoots(top.value.trees[0]);
    var refs := Reach(root);
    var bytes := SumLengths(refs);
    if !Unambiguous(refs) || bytes.Err? {
      return Err(Corrupt);
    }
    r := Ok(Persisted(Some(root), Select(artifacts, refs), bytes.value));
  }

  // ----- What a persisted root means ------------------------------------------

  ghost predicate ParentIn(env: Env, store: Store, parent: Option<Tree>) {
    parent.Some? ==> WellFormed(parent.value) && Stored(env, store, parent.value) && Readable(parent.value)
  }

  lemma CandidateShape(env: Env, parent: Option<Tree>, changed: seq<PageWrite>, eof: nat)
    requires PairsFit(env) && SortedWrites(changed) && CollisionFree(env)
    requires parent.Some? ==> WellFormed(parent.value)
    requires Candidate(env, parent, changed, eof).Ok?
    ensures WritePacks(env, changed, eof).Ok?
    ensures var c := Candidate(env, parent, changed, eof).value;
      && (c.trees != [] ==> WellFormed(c.trees[0]))
      && FlattenAll(c.trees) == Applied(EntriesOf(parent), WritePacks(env, changed, eof).value.0, eof)
  {
    hide WellFormed, WritePacks, Applied, FlattenAll, NewRoots, Grow;
    var mappings := WritePacks(env, changed, eof).value.0;
    SortedMappings(env, changed, eof);
    NewRootsForest(env, parent, mappings, eof);
    GrowShape(env, NewRoots(env, parent, mappings, eof).value.trees, LevelIn(parent));
  }

  // The entries of the new root are the parent's, cut at eof and overridden by the
  // mappings of the changed pages; with no root there are no such entries.
  lemma PersistContent(env: Env, parent: Option<Tree>, changed: seq<PageWrite>, eof: nat)
    requires PairsFit(env) && SortedWrites(changed) && CollisionFree(env)
    requires parent.Some? ==> WellFormed(parent.value)
    requires PersistImage(env, parent, changed, eof).Ok?
    ensures WritePacks(env, changed, eof).Ok?
    ensures var root := PersistImage(env, parent, changed, eof).value.root;
      && EntriesOf(root) == Applied(EntriesOf(parent), WritePacks(env, changed, eof).value.0, eof)
      && (root.Some? ==> WellFormed(root.value) && |root.value.children| != 1 && root.value.max <= eof)
  {
    hide WellFormed, Forest, WritePacks, Applied, Candidate, Collapse, Select, SortedEntries;
    CandidateShape(env, parent, changed, eof);
    var roots := Candidate(env, parent, changed, eof).value.trees;
    if roots != [] {
      CollapseKeeps(roots[0]);
      assert FlattenAll(roots) == Flatten(roots[0]) + FlattenAll(roots[1..]);
      FlattenSorted(roots[0]);
      SortedMappings(env, changed, eof);
      if parent.Some? {
        FlattenSorted(parent.value);
      } else {
        NothingSorted();
      }
      AppliedMap(EntriesOf(parent), WritePacks(env, changed, eof).value.0, eof);
    }
  }

  // The candidate root is closed over the parent's objects, the new packs and the new nodes.
  lemma CandidateClosed(env: Env, store: Store, parent: Option<Tree>, changed: seq<PageWrite>, eof: nat)
    requires PairsFit(env) && SortedWrites(changed) && CollisionFree(env) && ParentIn(env, store, parent)
    requires Candidate(env, parent, changed, eof).Ok?
    ensures WritePacks(env, changed, eof).Ok?
    ensures var c := Candidate(env, parent, changed, eof).value;
      var (mappings, packs) := WritePacks(env, changed, eof).value;
      && Closed(env, store, ReachOf(parent) + Packs(mappings), c.artifacts, c.trees)
      && AllReadable(c.trees)
      && ContentAddressed(env, packs) && Extends(packs, c.artifacts)
  {
    hide WellFormed, Stored, Readable, Closed, Covered, Grow, Forest, Update, LeafNodes, WritePacks;
    var (mappings, packs) := WritePacks(env, changed, eof).value;
    var base := ReachOf(parent) + Packs(mappings);
    WritePacksStanding(env, changed, eof);
    SortedMappings(env, changed, eof);
    var built := NewRoots(env, parent, mappings, eof).value;
    NewRootsForest(env, parent, mappings, eof);
    if parent.Some? {
      UpdateClosed(env, store, base, parent.value, mappings, eof);
      UpdateReadable(env, parent.value, mappings, eof);
    } else {
      LeafNodesClosed(env, store, base, mappings);
      LeafNodesReadable(env, mappings);
    }
    ClosedUnder(env, store, base, packs, built);
    GrowClosed(env, store, base, packs + built.artifacts, built.trees, LevelIn(parent));
    GrowReadable(env, built.trees, LevelIn(parent));
    var top := Grow(env, built.trees, LevelIn(parent)).value;
    ContentAddressedAgree(env, packs + built.artifacts, top.artifacts);
  }

  lemma ClosedUnder(env: Env, store: Store, base: set<Reference>, packs: Store, built: Built)
    requires CollisionFree(env) && ContentAddressed(env, packs)
    requires Closed(env, store, base, built.artifacts, built.trees)
    ensures ContentAddressed(env, packs + built.artifacts) && Extends(packs, packs + built.artifacts)
    ensures Closed(env, store, base, packs + built.artifacts, built.trees)
  {
    ContentAddressedAgree(env, packs, built.artifacts);
    ClosedMore(env, store, base, built.artifacts, packs + built.artifacts, built.trees);
  }

  // What the new root reaches: from the parent, or among the selected artifacts.
  ghost predicate Selected(env: Env, base: set<Reference>, p: Persisted) {
    && p.root.Some?
    && (forall r :: r in Reach(p.root.value) ==> Covered(env, base, p.artifacts, r))
    && (forall u :: u in p.artifacts ==> exists r :: r in Reach(p.root.value) && r.uri == u)
  }

  // Referential closure. Whatever the new root reaches was reachable from the parent
  // or is a returned artifact; every returned artifact is reachable; and any store
  // that keeps the old objects and receives the artifacts holds the whole new tree.
  lemma PersistClosure(env: Env, store: Store, parent: Option<Tree>, changed: seq<PageWrite>, eof: nat)
    requires PairsFit(env) && SortedWrites(changed) && CollisionFree(env) && ParentIn(env, store, parent)
    requires PersistImage(env, parent, changed, eof).Ok?
    ensures var p := PersistImage(env, parent, changed, eof).value;
      && ContentAddressed(env, p.artifacts)
      && (p.root.None? ==> p.artifacts == map[])
      && (p.root.Some? ==>
           && Selected(env, ReachOf(parent), p)
           && Readable(p.root.value)
           && (forall s: Store :: Extends(store, s) && Extends(p.artifacts, s) ==> Stored(env, s, p.root.value)))
  {
    hide WellFormed, Forest, Candidate, Collapse, Backed, Readable, Stored, WritePacks;
    CandidateClosed(env, store, parent, changed, eof);
    CandidateShape(env, parent, changed, eof);
    var p, c := PersistImage(env, parent, changed, eof).value, Candidate(env, parent, changed, eof).value;
    if p.root.Some? {
      var root := c.trees[0];
      CollapseKeeps(root);
      CollapseBacked(env, store, c.artifacts, root);
      ReachMember(c.trees, 0);
      SelectedCovers(env, parent, changed, eof, c, p);
      forall s: Store | Extends(store, s) && Extends(p.artifacts, s)
        ensures Stored(env, s, p.root.value)
      {
        SelectionStored(env, store, c.artifacts, s, p.root.value);
      }
    }
  }

  lemma SelectedCovers(env: Env, parent: Option<Tree>, changed: seq<PageWrite>, eof: nat, c: Built, p: Persisted)
    requires CollisionFree(env) && SortedWrites(changed) && WritePacks(env, changed, eof).Ok?
    requires Extends(WritePacks(env, changed, eof).value.1, c.artifacts)
    requires p.root.Some? && p.artifacts == Select(c.artifacts, Reach(p.root.value))
    requires forall r :: r in Reach(p.root.value) ==>
      Covered(env, ReachOf(parent) + Packs(WritePacks(env, changed, eof).value.0), c.artifacts, r)
    ensures Selected(env, ReachOf(parent), p)
  {
    hide Reach, WritePacks;
    forall r | r in Reach(p.root.value)
      ensures Covered(env, ReachOf(parent), p.artifacts, r)
    {
      if r in Packs(WritePacks(env, changed, eof).value.0) {
        PackCovered(env, changed, eof, c.artifacts, r);
      }
    }
  }

  lemma PackCovered(env: Env, changed: seq<PageWrite>, eof: nat, artifacts: Store, r: Reference)
    requires CollisionFree(env) && SortedWrites(changed) && WritePacks(env, changed, eof).Ok?
    requires Extends(WritePacks(env, changed, eof).value.1, artifacts)
    requires r in Packs(WritePacks(env, changed, eof).value.0)
    ensures Covered(env, {}, artifacts, r)
  {
    hide WritePacks;
    var (mappings, packs) := WritePacks(env, changed, eof).value;
    WritePacksStanding(env, changed, eof);
    var i :| 0 <= i < |mappings| && mappings[i].pack == r;
    assert Located(env, packs, mappings[i]);
  }

  lemma SelectionStored(env: Env, store: Store, artifacts: Store, published: Store, t: Tree)
    requires WellFormed(t) && Backed(env, store, artifacts, t)
    requires Extends(store, published) && Extends(Select(artifacts, Reach(t)), published)
    ensures Stored(env, published, t)
  {
    hide Backed, WellFormed, Reach;
    forall r | r in Reach(t) && r.uri in artifacts
      ensures r.uri in published && published[r.uri] == artifacts[r.uri]
    {
      assert r.uri in Select(artifacts, Reach(t));
    }
    BackedStored(env, store, artifacts, published, t);
  }
}
