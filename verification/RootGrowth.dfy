// From the roots of an updated forest to one root: levels are added until a
// single tree is left, then single-child roots are dropped again.
module RootGrowth {
  import opened Wrappers
  import opened Objects
  import opened PageMapTree
  import opened PageMapFill
  import opened PageMapClosure
  import opened PageMapReader

  // Any internal node of at most two branches, named by content, stays under the limit.
  ghost predicate PairsFit(env: Env) {
    forall n: Node {:trigger Fits(env, n)} :: n.Internal? && NodeByContent(n) && |n.branches| <= 2 ==> Fits(env, n)
  }

  lemma CapacityFitsPairs(env: Env)
    requires CapacityFits(env)
    ensures PairsFit(env)
  {
  }

  // Roots that can be given a level more: several are all new.
  predicate Raisable(ts: seq<Tree>) {
    |ts| > 1 ==> Titled(ts)
  }

  // ----- Growing and collapsing the root -------------------------------------

  // With pairs that fit, one more level strictly reduces the number of roots.
  lemma {:induction false} GrowthShrinks(env: Env, children: seq<Tree>, level: nat)
    requires PairsFit(env) && Titled(children) && InternalNodes(env, children, level).Ok?
    ensures var count := |InternalNodes(env, children, level).value.trees|;
      count <= |children| && (|children| > 1 ==> count < |children|)
    decreases |children|
  {
    var mid := |children| / 2;
    if |children| > 1 && !(|children| <= CAPACITY && Fits(env, Internal(level, Branches(children)))) {
      GrowthShrinks(env, children[..mid], level);
      GrowthShrinks(env, children[mid..], level);
    }
  }

  // Without that a round makes no progress: a pair that does not fit, of nodes that fit
  // alone, comes back as two roots one level up.
  lemma OversizedPairStalls(env: Env, a: Tree, b: Tree, level: nat)
    requires Forest([a, b], level)
    requires !Fits(env, Internal(level + 1, Branches([a, b])))
    requires Fits(env, Internal(level + 1, Branches([a]))) && Fits(env, Internal(level + 1, Branches([b])))
    ensures var next := InternalNodes(env, [a, b], level + 1);
      next.Ok? && |next.value.trees| == 2 && Forest(next.value.trees, level + 1)
  {
    var ts := [a, b];
    BranchesValid(ts, level);
    assert ts[..1] == [a] && ts[1..] == [b];
    ForestHalves(ts, level, 1);
    BranchesValid([a], level);
    BranchesValid([b], level);
    assert InternalNodes(env, [a], level + 1).Ok? && InternalNodes(env, [b], level + 1).Ok?;
    InternalNodesShape(env, ts, level + 1);
  }

  // The roots after `k` rounds of the loop.
  function Rounds(env: Env, ts: seq<Tree>, level: nat, k: nat): Result<seq<Tree>> {
    if k == 0 then Ok(ts)
    else
      var before :- Rounds(env, ts, level, k - 1);
      if |before| <= 1 then Ok(before)
      else
        var next :- InternalNodes(env, before, level + k);
        Ok(next.trees)
  }

  predicate EndsBy(env: Env, ts: seq<Tree>, level: nat, k: nat) {
    var r := Rounds(env, ts, level, k);
    r.Err? || |r.value| <= 1
  }

  // The pair that is left after `k` rounds fits into one node.
  predicate PairFitsAt(env: Env, ts: seq<Tree>, level: nat, k: nat) {
    var r := Rounds(env, ts, level, k);
    r.Ok? && |r.value| == 2 && Fits(env, Internal(level + k + 1, Branches(r.value)))
  }

  // Every node of one branch stays under the limit.
  ghost predicate SinglesFit(env: Env) {
    forall n: Node {:trigger Fits(env, n)} :: n.Internal? && |n.branches| == 1 ==> Fits(env, n)
  }

  lemma {:induction false} StallsSoFar(env: Env, ts: seq<Tree>, level: nat, k: nat)
    requires SinglesFit(env) && Forest(ts, level) && |ts| == 2
    requires forall j :: 0 <= j < k ==> !PairFitsAt(env, ts, level, j)
    ensures var r := Rounds(env, ts, level, k); r.Ok? && |r.value| == 2 && Forest(r.value, level + k)
  {
    if k > 0 {
      hide WellFormed, Forest, InternalNodes;
      StallsSoFar(env, ts, level, k - 1);
      var before := Rounds(env, ts, level, k - 1).value;
      assert !PairFitsAt(env, ts, level, k - 1);
      assert before == [before[0], before[1]];
      OversizedPairStalls(env, before[0], before[1], level + k - 1);
    }
  }

  // So from two roots the loop ends if and only if the pair of some round fits.
  lemma EndsExactly(env: Env, ts: seq<Tree>, level: nat)
    requires SinglesFit(env) && Forest(ts, level) && |ts| == 2
    ensures (exists k: nat :: EndsBy(env, ts, level, k)) <==> exists k: nat :: PairFitsAt(env, ts, level, k)
  {
    hide WellFormed, Forest, InternalNodes, SinglesFit;
    if k: nat :| EndsBy(env, ts, level, k) {
      if forall j :: 0 <= j < k ==> !PairFitsAt(env, ts, level, j) {
        StallsSoFar(env, ts, level, k);
      }
    }
    if exists k: nat :: PairFitsAt(env, ts, level, k) {
      var k := FirstPair(env, ts, level);
      StallsSoFar(env, ts, level, k);
      PairEnds(env, Rounds(env, ts, level, k).value, level + k);
      assert EndsBy(env, ts, level, k + 1);
    }
  }

  lemma FirstPair(env: Env, ts: seq<Tree>, level: nat) returns (k: nat)
    requires exists n: nat :: PairFitsAt(env, ts, level, n)
    ensures PairFitsAt(env, ts, level, k) && forall j :: 0 <= j < k ==> !PairFitsAt(env, ts, level, j)
  {
    hide PairFitsAt;
    var n: nat :| PairFitsAt(env, ts, level, n);
    k := 0;
    while !PairFitsAt(env, ts, level, k)
      invariant k <= n && forall j :: 0 <= j < k ==> !PairFitsAt(env, ts, level, j)
      decreases n - k
    {
      k := k + 1;
    }
  }

  lemma PairEnds(env: Env, ts: seq<Tree>, level: nat)
    requires Forest(ts, level) && |ts| == 2 && Fits(env, Internal(level + 1, Branches(ts)))
    ensures InternalNodes(env, ts, level + 1).Ok? && |InternalNodes(env, ts, level + 1).value.trees| == 1
  {
    BranchesValid(ts, level);
    hide WellFormed, Forest, ValidNode;
  }

  function Grow(env: Env, ts: seq<Tree>, ghost level: nat): Result<Built>
    requires PairsFit(env) && Forest(ts, level) && Raisable(ts)
    decreases |ts|
  {
    if |ts| <= 1 then Ok(Built(ts, map[]))
    else
      var next :- InternalNodes(env, ts, ts[0].Level() + 1);
      GrowthShrinks(env, ts, ts[0].Level() + 1);
      InternalNodesTitled(env, ts, ts[0].Level() + 1);
      InternalNodesShape(env, ts, level + 1);
      var top :- Grow(env, next.trees, level + 1);
      Ok(Built(top.trees, next.artifacts + top.artifacts))
  }

  function Collapse(t: Tree): Tree {
    if |t.children| == 1 then Collapse(t.children[0]) else t
  }

  lemma {:induction false} CollapseKeeps(t: Tree)
    requires WellFormed(t)
    ensures var c := Collapse(t);
      && WellFormed(c) && Flatten(c) == Flatten(t) && c.min == t.min && c.max == t.max
      && |c.children| != 1 && (c.node.Internal? ==> |c.children| >= 2)
      && Reach(c) <= Reach(t) && c.Level() <= t.Level()
      && (SpineFilled(t) ==> SpineFilled(c)) && (Readable(t) ==> Readable(c))
  {
    if |t.children| == 1 {
      ForestAt(t.children, t.node.level - 1, 0);
      assert FlattenAll(t.children) == Flatten(t.children[0]) + FlattenAll(t.children[1..]);
      ReachMember(t.children, 0);
      CollapseKeeps(t.children[0]);
    }
  }

  lemma {:induction false} CollapseBacked(env: Env, store: Store, artifacts: Store, t: Tree)
    requires Backed(env, store, artifacts, t)
    ensures Backed(env, store, artifacts, Collapse(t))
  {
    if |t.children| == 1 {
      CollapseBacked(env, store, artifacts, t.children[0]);
    }
  }

  // Growing keeps the entries and ends with at most one root.
  lemma {:induction false} GrowShape(env: Env, ts: seq<Tree>, level: nat)
    requires PairsFit(env) && Forest(ts, level) && Raisable(ts) && Grow(env, ts, level).Ok?
    ensures var roots := Grow(env, ts, level).value.trees;
      && |roots| <= 1 && FlattenAll(roots) == FlattenAll(ts) && (roots == [] <==> ts == [])
      && (roots != [] ==> WellFormed(roots[0]))
    decreases |ts|
  {
    if |ts| > 1 {
      GrowStep(env, ts, level);
      GrowShape(env, InternalNodes(env, ts, level + 1).value.trees, level + 1);
    }
  }

  lemma GrowStep(env: Env, ts: seq<Tree>, level: nat)
    requires PairsFit(env) && Forest(ts, level) && |ts| > 1 && Raisable(ts) && Grow(env, ts, level).Ok?
    ensures ts[0].Level() == level
    ensures var next := InternalNodes(env, ts, level + 1);
      && next.Ok? && Forest(next.value.trees, level + 1) && Raisable(next.value.trees) && FlattenAll(next.value.trees) == FlattenAll(ts)
      && 0 < |next.value.trees| < |ts|
      && var top := Grow(env, next.value.trees, level + 1);
      && top.Ok?
      && Grow(env, ts, level).value == Built(top.value.trees, next.value.artifacts + top.value.artifacts)
  {
    hide WellFormed, Forest, InternalNodes, Titled, SortedEntries, ValidEntries, Within;
    ForestAt(ts, level, 0);
    GrowthShrinks(env, ts, level + 1);
    InternalNodesTitled(env, ts, level + 1);
    InternalNodesShape(env, ts, level + 1);
    FlattenAllSorted(ts, level);
  }

  lemma {:induction false} GrowClosed(
    env: Env, store: Store, base: set<Reference>, below: Store, ts: seq<Tree>, level: nat)
    requires CollisionFree(env) && PairsFit(env) && Forest(ts, level) && Raisable(ts) && Grow(env, ts, level).Ok?
    requires Closed(env, store, base, below, ts)
    ensures var b := Grow(env, ts, level).value;
      ContentAddressed(env, b.artifacts) && Closed(env, store, base, below + b.artifacts, b.trees)
    decreases |ts|
  {
    hide Closed, Covered, Forest, Grow, InternalNodes;
    if |ts| > 1 {
      GrowStep(env, ts, level);
      var next := InternalNodes(env, ts, level + 1).value;
      InternalNodesClosed(env, store, base, below, ts, level + 1);
      GrowClosed(env, store, base, below + next.artifacts, next.trees, level + 1);
      var top := Grow(env, next.trees, level + 1).value;
      ContentAddressedAgree(env, next.artifacts, top.artifacts);
      assert below + next.artifacts + top.artifacts == below + (next.artifacts + top.artifacts);
    } else {
      GrowNothing(env, ts, level);
      assert below + map[] == below;
    }
  }

  lemma GrowNothing(env: Env, ts: seq<Tree>, level: nat)
    requires PairsFit(env) && Forest(ts, level) && |ts| <= 1
    ensures Grow(env, ts, level) == Ok(Built(ts, map[]))
  {
  }

  lemma {:induction false} GrowFill(env: Env, ts: seq<Tree>, level: nat)
    requires CapacityFits(env) && PairsFit(env) && Forest(ts, level) && Raisable(ts) && AllSpineFilled(ts)
    ensures Grow(env, ts, level).Ok? && AllSpineFilled(Grow(env, ts, level).value.trees)
    decreases |ts|
  {
    if |ts| > 1 {
      InternalNodesFill(env, ts, level + 1);
      GrowthShrinks(env, ts, level + 1);
      InternalNodesTitled(env, ts, level + 1);
      InternalNodesShape(env, ts, level + 1);
      GrowFill(env, InternalNodes(env, ts, level + 1).value.trees, level + 1);
    }
  }

  // ----- Nodes small enough to read back ---------------------------------------

  predicate AllReadable(ts: seq<Tree>) {
    forall i :: 0 <= i < |ts| ==> Readable(ts[i])
  }

  lemma {:induction false} LeafNodesReadable(env: Env, entries: seq<Entry>)
    requires LeafNodes(env, entries).Ok?
    ensures AllReadable(LeafNodes(env, entries).value.trees)
    decreases |entries|
  {
    if entries == [] || (|entries| <= CAPACITY && Fits(env, Leaf(entries))) {
    } else {
      LeafNodesReadable(env, entries[..|entries| / 2]);
      LeafNodesReadable(env, entries[|entries| / 2..]);
    }
  }

  lemma {:induction false} InternalNodesReadable(env: Env, children: seq<Tree>, level: nat)
    requires InternalNodes(env, children, level).Ok? && AllReadable(children)
    ensures AllReadable(InternalNodes(env, children, level).value.trees)
    decreases |children|
  {
    if children == [] || (|children| <= CAPACITY && Fits(env, Internal(level, Branches(children)))) {
    } else {
      InternalNodesReadable(env, children[..|children| / 2], level);
      InternalNodesReadable(env, children[|children| / 2..], level);
    }
  }

  lemma {:induction false} UpdateReadable(env: Env, t: Tree, changes: seq<Entry>, eof: nat)
    requires WellFormed(t) && Readable(t) && Update(env, t, changes, eof).Ok?
    ensures AllReadable(Update(env, t, changes, eof).value.trees)
    decreases t, 0
  {
    if changes == [] && (t.max <= eof || t.min > eof) {
    } else if t.node.Leaf? {
      LeafNodesReadable(env, Applied(t.node.entries, changes, eof));
    } else {
      UpdateInternal(env, t, changes, eof);
      UpdateAllReadable(env, t.children, t.node.level - 1, changes, eof);
      InternalNodesReadable(env, UpdateAll(env, t.children, t.node.level - 1, changes, eof).value.trees, t.node.level);
    }
  }

  lemma {:induction false} UpdateAllReadable(env: Env, ts: seq<Tree>, level: nat, changes: seq<Entry>, eof: nat)
    requires Forest(ts, level) && AllReadable(ts) && UpdateAll(env, ts, level, changes, eof).Ok?
    ensures AllReadable(UpdateAll(env, ts, level, changes, eof).value.trees)
    decreases ts, 1
  {
    hide Update, WellFormed, Forest, Readable;
    if ts != [] {
      UpdateAllStep(env, ts, level, changes, eof);
      var n := if |ts| == 1 then |changes| else Below(changes, ts[0].max);
      UpdateReadable(env, ts[0], changes[..n], eof);
      UpdateAllReadable(env, ts[1..], level, changes[n..], eof);
    }
  }

  lemma {:induction false} GrowReadable(env: Env, ts: seq<Tree>, level: nat)
    requires PairsFit(env) && Forest(ts, level) && Raisable(ts) && Grow(env, ts, level).Ok? && AllReadable(ts)
    ensures AllReadable(Grow(env, ts, level).value.trees)
    decreases |ts|
  {
    hide Readable, Forest, InternalNodes;
    if |ts| > 1 {
      GrowStep(env, ts, level);
      InternalNodesReadable(env, ts, level + 1);
      GrowReadable(env, InternalNodes(env, ts, level + 1).value.trees, level + 1);
    }
  }
}
