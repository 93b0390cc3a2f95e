// Which objects a tree refers to, and where they come from: everything an
// updated tree reaches was reachable before or is one of the new artifacts.
module PageMapClosure {
  import opened Wrappers
  import opened Objects
  import opened PageMapTree

  // Every node of the tree is in the store under the tree's own references.
  predicate Stored(env: Env, store: Store, t: Tree) {
    && Holds(env, store, t.reference, NodeObject(t.node))
    && forall i :: 0 <= i < |t.children| ==> Stored(env, store, t.children[i])
  }

  // Every node of the tree is in the store or among the artifacts.
  predicate Backed(env: Env, store: Store, artifacts: Store, t: Tree) {
    && (Holds(env, store, t.reference, NodeObject(t.node)) || Holds(env, artifacts, t.reference, NodeObject(t.node)))
    && BackedAll(env, store, artifacts, t.children)
  }

  predicate BackedAll(env: Env, store: Store, artifacts: Store, ts: seq<Tree>) {
    forall i :: 0 <= i < |ts| ==> Backed(env, store, artifacts, ts[i])
  }

  // The references of the tree's nodes and packs (`reachable`).
  function Reach(t: Tree): set<Reference>
    decreases t, 0
  {
    {t.reference} + (if t.node.Leaf? then Packs(t.node.entries) else ReachAll(t.children))
  }

  function ReachAll(ts: seq<Tree>): set<Reference>
    decreases ts, 1
  {
    if ts == [] then {} else Reach(ts[0]) + ReachAll(ts[1..])
  }

  function Packs(s: seq<Entry>): set<Reference> {
    set i | 0 <= i < |s| :: s[i].pack
  }

  lemma {:induction false} ReachAllConcat(a: seq<Tree>, b: seq<Tree>)
    ensures ReachAll(a + b) == ReachAll(a) + ReachAll(b)
  {
    if a == [] {
      assert a + b == b;
    } else {
      assert (a + b)[1..] == a[1..] + b;
      ReachAllConcat(a[1..], b);
    }
  }

  lemma {:induction false} ReachMember(ts: seq<Tree>, i: nat)
    requires i < |ts|
    ensures Reach(ts[i]) <= ReachAll(ts)
  {
    if i > 0 {
      ReachMember(ts[1..], i - 1);
    }
  }

  // Every pack that an entry names is reached.
  lemma {:induction false} FlattenReach(t: Tree, e: Entry)
    requires e in Flatten(t)
    ensures e.pack in Reach(t)
    decreases t, 0
  {
    if t.node.Internal? {
      FlattenAllReach(t.children, e);
    }
  }

  lemma {:induction false} FlattenAllReach(ts: seq<Tree>, e: Entry)
    requires e in FlattenAll(ts)
    ensures e.pack in ReachAll(ts)
    decreases ts, 1
  {
    if e in Flatten(ts[0]) {
      FlattenReach(ts[0], e);
    } else {
      FlattenAllReach(ts[1..], e);
    }
  }

  lemma {:induction false} StoredIsBacked(env: Env, store: Store, artifacts: Store, t: Tree)
    requires Stored(env, store, t)
    ensures Backed(env, store, artifacts, t)
  {
    forall i | 0 <= i < |t.children|
      ensures Backed(env, store, artifacts, t.children[i])
    {
      StoredIsBacked(env, store, artifacts, t.children[i]);
    }
  }

  lemma {:induction false} BackedMore(env: Env, store: Store, small: Store, big: Store, t: Tree)
    requires Backed(env, store, small, t) && Extends(small, big)
    ensures Backed(env, store, big, t)
  {
    forall i | 0 <= i < |t.children|
      ensures Backed(env, store, big, t.children[i])
    {
      BackedMore(env, store, small, big, t.children[i]);
    }
  }

  lemma BackedAllMore(env: Env, store: Store, small: Store, big: Store, ts: seq<Tree>)
    requires BackedAll(env, store, small, ts) && Extends(small, big)
    ensures BackedAll(env, store, big, ts)
  {
    forall i | 0 <= i < |ts|
      ensures Backed(env, store, big, ts[i])
    {
      BackedMore(env, store, small, big, ts[i]);
    }
  }

  // New trees over a base of known references: the artifacts are content-addressed,
  // every node is backed, and nothing outside the base and the artifacts is reached.
  ghost predicate Closed(env: Env, store: Store, base: set<Reference>, artifacts: Store, ts: seq<Tree>) {
    && ContentAddressed(env, artifacts)
    && BackedAll(env, store, artifacts, ts)
    && forall r :: r in ReachAll(ts) ==> Covered(env, base, artifacts, r)
  }

  ghost predicate Covered(env: Env, base: set<Reference>, artifacts: Store, r: Reference) {
    r in base || (r.uri in artifacts && !artifacts[r.uri].CheckpointObject? && r == RefOf(env, artifacts[r.uri]))
  }

  lemma ClosedMore(env: Env, store: Store, base: set<Reference>, a: Store, b: Store, ts: seq<Tree>)
    requires Closed(env, store, base, a, ts) && Extends(a, b) && ContentAddressed(env, b)
    ensures Closed(env, store, base, b, ts)
  {
    BackedAllMore(env, store, a, b, ts);
  }

  lemma ClosedJoin(env: Env, store: Store, base: set<Reference>, l: Built, r: Built)
    requires CollisionFree(env)
    requires Closed(env, store, base, l.artifacts, l.trees) && Closed(env, store, base, r.artifacts, r.trees)
    ensures Closed(env, store, base, l.artifacts + r.artifacts, l.trees + r.trees)
  {
    hide ReachAll, Backed, Covered;
    ContentAddressedAgree(env, l.artifacts, r.artifacts);
    ClosedMore(env, store, base, l.artifacts, l.artifacts + r.artifacts, l.trees);
    ClosedMore(env, store, base, r.artifacts, l.artifacts + r.artifacts, r.trees);
    ReachAllConcat(l.trees, r.trees);
  }

  lemma ClosedPart(env: Env, store: Store, base: set<Reference>, artifacts: Store, ts: seq<Tree>, mid: nat)
    requires Closed(env, store, base, artifacts, ts) && mid <= |ts|
    ensures Closed(env, store, base, artifacts, ts[..mid]) && Closed(env, store, base, artifacts, ts[mid..])
  {
    hide ReachAll, Backed, Covered;
    ReachAllConcat(ts[..mid], ts[mid..]);
    assert ts == ts[..mid] + ts[mid..];
  }

  lemma ClosedNothing(env: Env, store: Store, base: set<Reference>)
    ensures Closed(env, store, base, map[], [])
  {
  }

  lemma {:induction false} LeafNodesClosed(env: Env, store: Store, base: set<Reference>, entries: seq<Entry>)
    requires CollisionFree(env) && LeafNodes(env, entries).Ok? && Packs(entries) <= base
    ensures var b := LeafNodes(env, entries).value; Closed(env, store, base, b.artifacts, b.trees)
    decreases |entries|
  {
    hide Closed;
    if entries == [] {
      ClosedNothing(env, store, base);
    } else if |entries| <= CAPACITY && Fits(env, Leaf(entries)) {
      NewLeafClosed(env, store, base, entries);
    } else {
      var mid := |entries| / 2;
      LeafNodesClosed(env, store, base, entries[..mid]);
      LeafNodesClosed(env, store, base, entries[mid..]);
      ClosedJoin(env, store, base, LeafNodes(env, entries[..mid]).value, LeafNodes(env, entries[mid..]).value);
    }
  }

  lemma NewLeafClosed(env: Env, store: Store, base: set<Reference>, entries: seq<Entry>)
    requires ValidNode(Leaf(entries)) && Packs(entries) <= base
    ensures var b := CreateTree(env, Leaf(entries), []); Closed(env, store, base, b.artifacts, b.trees)
  {
    var b := CreateTree(env, Leaf(entries), []);
    assert ReachAll(b.trees) == Reach(b.trees[0]) + ReachAll(b.trees[1..]);
  }

  lemma NewInternalClosed(env: Env, store: Store, base: set<Reference>, below: Store, children: seq<Tree>, level: nat)
    requires CollisionFree(env) && Closed(env, store, base, below, children)
    requires children != [] && ValidNode(Internal(level, Branches(children)))
    ensures var b := CreateTree(env, Internal(level, Branches(children)), children);
      ContentAddressed(env, b.artifacts) && Closed(env, store, base, below + b.artifacts, b.trees)
  {
    var b := CreateTree(env, Internal(level, Branches(children)), children);
    ContentAddressedAgree(env, below, b.artifacts);
    ClosedMore(env, store, base, below, below + b.artifacts, children);
    assert ReachAll(b.trees) == Reach(b.trees[0]) + ReachAll(b.trees[1..]);
  }

  // Grouping closed children: their artifacts and the new nodes' together close the result.
  lemma {:induction false} InternalNodesClosed(
    env: Env, store: Store, base: set<Reference>, below: Store, children: seq<Tree>, level: nat)
    requires CollisionFree(env) && Closed(env, store, base, below, children)
    requires InternalNodes(env, children, level).Ok?
    ensures var b := InternalNodes(env, children, level).value;
      ContentAddressed(env, b.artifacts) && Closed(env, store, base, below + b.artifacts, b.trees)
    decreases |children|
  {
    if children == [] {
      ClosedNothing(env, store, base);
      assert below + map[] == below;
    } else if |children| <= CAPACITY && Fits(env, Internal(level, Branches(children))) {
      NewInternalClosed(env, store, base, below, children, level);
    } else {
      hide Backed, BackedAll, ReachAll, ValidNode, Covered;
      var mid := |children| / 2;
      ClosedPart(env, store, base, below, children, mid);
      InternalNodesClosed(env, store, base, below, children[..mid], level);
      InternalNodesClosed(env, store, base, below, children[mid..], level);
      ClosedOver(env, store, base, below, InternalNodes(env, children[..mid], level).value,
                 InternalNodes(env, children[mid..], level).value);
    }
  }

  // Two closed results over the same artifacts `below`, side by side.
  lemma ClosedOver(env: Env, store: Store, base: set<Reference>, below: Store, l: Built, r: Built)
    requires CollisionFree(env) && ContentAddressed(env, below)
    requires ContentAddressed(env, l.artifacts) && Closed(env, store, base, below + l.artifacts, l.trees)
    requires ContentAddressed(env, r.artifacts) && Closed(env, store, base, below + r.artifacts, r.trees)
    ensures ContentAddressed(env, l.artifacts + r.artifacts)
    ensures Closed(env, store, base, below + (l.artifacts + r.artifacts), l.trees + r.trees)
  {
    hide Closed, ContentAddressed;
    ContentAddressedAgree(env, l.artifacts, r.artifacts);
    ContentAddressedAgree(env, below, l.artifacts);
    ClosedJoin(env, store, base, Built(l.trees, below + l.artifacts), Built(r.trees, below + r.artifacts));
    assert (below + l.artifacts) + (below + r.artifacts) == below + (l.artifacts + r.artifacts);
  }

  lemma {:induction false} MergePacks(a: seq<Entry>, b: seq<Entry>)
    ensures forall e :: e in Merge(a, b) ==> e in a || e in b
    decreases |a| + |b|
  {
    if a != [] || b != [] {
      var (e, a', b') := Next(a, b);
      MergePacks(a', b');
    }
  }

  lemma AppliedPacks(s: seq<Entry>, changes: seq<Entry>, eof: nat)
    ensures Packs(Applied(s, changes, eof)) <= Packs(s) + Packs(changes)
  {
    KeepElements(s, eof);
    MergePacks(Keep(s, eof), changes);
    forall r | r in Packs(Applied(s, changes, eof))
      ensures r in Packs(s) + Packs(changes)
    {
      var m := Applied(s, changes, eof);
      var i :| 0 <= i < |m| && m[i].pack == r;
      assert m[i] in m;
    }
  }

  // An update of a stored tree reaches only what the tree reached, the packs of
  // the changes, and its own new nodes.
  lemma {:induction false} UpdateClosed(env: Env, store: Store, base: set<Reference>, t: Tree, changes: seq<Entry>, eof: nat)
    requires CollisionFree(env) && WellFormed(t) && Stored(env, store, t)
    requires Reach(t) <= base && Packs(changes) <= base
    requires Update(env, t, changes, eof).Ok?
    ensures var b := Update(env, t, changes, eof).value; Closed(env, store, base, b.artifacts, b.trees)
    decreases t, 0
  {
    if changes == [] && t.max <= eof {
      StoredIsBacked(env, store, map[], t);
      assert ReachAll([t]) == Reach(t) + ReachAll([t][1..]);
    } else if t.min > eof && changes == [] {
      ClosedNothing(env, store, base);
    } else if t.node.Leaf? {
      AppliedPacks(t.node.entries, changes, eof);
      LeafNodesClosed(env, store, base, Applied(t.node.entries, changes, eof));
    } else {
      hide Closed, ReachAll;
      var level := t.node.level - 1;
      UpdateAllClosed(env, store, base, t.children, level, changes, eof);
      var below := UpdateAll(env, t.children, level, changes, eof).value;
      InternalNodesClosed(env, store, base, below.artifacts, below.trees, level + 1);
    }
  }

  lemma {:induction false} UpdateAllClosed(
    env: Env, store: Store, base: set<Reference>, ts: seq<Tree>, level: nat, changes: seq<Entry>, eof: nat)
    requires CollisionFree(env) && Forest(ts, level)
    requires forall i :: 0 <= i < |ts| ==> Stored(env, store, ts[i])
    requires ReachAll(ts) <= base && Packs(changes) <= base
    requires UpdateAll(env, ts, level, changes, eof).Ok?
    ensures var b := UpdateAll(env, ts, level, changes, eof).value; Closed(env, store, base, b.artifacts, b.trees)
    decreases ts, 1
  {
    hide Closed, Update, Stored, WellFormed, Forest;
    if ts == [] {
      ClosedNothing(env, store, base);
    } else {
      var n := if |ts| == 1 then |changes| else Below(changes, ts[0].max);
      ForestHalves(ts, level, 1);
      ForestAt(ts, level, 0);
      UpdateClosed(env, store, base, ts[0], changes[..n], eof);
      UpdateAllClosed(env, store, base, ts[1..], level, changes[n..], eof);
      ClosedJoin(env, store, base, Update(env, ts[0], changes[..n], eof).value,
                 UpdateAll(env, ts[1..], level, changes[n..], eof).value);
    }
  }

  // Publishing the reachable artifacts next to an older store stores the whole tree.
  lemma {:induction false} BackedStored(env: Env, store: Store, artifacts: Store, published: Store, t: Tree)
    requires Backed(env, store, artifacts, t) && Extends(store, published)
    requires forall r :: r in Reach(t) && r.uri in artifacts ==> r.uri in published && published[r.uri] == artifacts[r.uri]
    requires WellFormed(t)
    ensures Stored(env, published, t)
    decreases t
  {
    if t.node.Internal? {
      forall i | 0 <= i < |t.children|
        ensures Stored(env, published, t.children[i])
      {
        ReachMember(t.children, i);
        ForestAt(t.children, t.node.level - 1, i);
        BackedStored(env, store, artifacts, published, t.children[i]);
      }
    }
  }
}
