// Structural sharing: a subtree whose slot receives no change and that lies at
// or below eof is part of the updated tree, the very same value.
module PageMapSharing {
  import opened Wrappers
  import opened Objects
  import opened PageMapTree

  predicate IsPath(t: Tree, path: seq<nat>)
    decreases path
  {
    path == [] || (path[0] < |t.children| && IsPath(t.children[path[0]], path[1..]))
  }

  function At(t: Tree, path: seq<nat>): Tree
    requires IsPath(t, path)
    decreases path
  {
    if path == [] then t else At(t.children[path[0]], path[1..])
  }

  // The slot of a subtree: changes above the maximum of what precedes it, up to
  // its own maximum, or without limit on the right spine.
  function SlotStart(t: Tree, path: seq<nat>, lo: nat): nat
    requires IsPath(t, path)
    decreases path
  {
    if path == [] then lo
    else SlotStart(t.children[path[0]], path[1..], if path[0] == 0 then lo else t.children[path[0] - 1].max)
  }

  predicate OnRightSpine(t: Tree, path: seq<nat>)
    requires IsPath(t, path)
    decreases path
  {
    path == [] || (path[0] + 1 == |t.children| && OnRightSpine(t.children[path[0]], path[1..]))
  }

  predicate InSlot(t: Tree, path: seq<nat>, lo: nat, last: bool, page: nat)
    requires IsPath(t, path)
  {
    SlotStart(t, path, lo) < page && ((last && OnRightSpine(t, path)) || page <= At(t, path).max)
  }

  predicate Contains(t: Tree, s: Tree)
    decreases t, 0
  {
    t == s || ContainsAll(t.children, s)
  }

  predicate ContainsAll(ts: seq<Tree>, s: Tree)
    decreases ts, 1
  {
    ts != [] && (Contains(ts[0], s) || ContainsAll(ts[1..], s))
  }

  lemma {:induction false} ContainsConcat(a: seq<Tree>, b: seq<Tree>, s: Tree)
    ensures ContainsAll(a + b, s) <==> ContainsAll(a, s) || ContainsAll(b, s)
  {
    if a == [] {
      assert a + b == b;
    } else {
      assert (a + b)[1..] == a[1..] + b;
      ContainsConcat(a[1..], b, s);
    }
  }

  lemma {:induction false} ContainsAt(t: Tree, path: seq<nat>)
    requires IsPath(t, path)
    ensures Contains(t, At(t, path))
    decreases path
  {
    if path != [] {
      ContainsAt(t.children[path[0]], path[1..]);
      ContainsMember(t.children, path[0], At(t, path));
    }
  }

  lemma {:induction false} ContainsMember(ts: seq<Tree>, i: nat, s: Tree)
    requires i < |ts| && Contains(ts[i], s)
    ensures ContainsAll(ts, s)
  {
    if i > 0 {
      ContainsMember(ts[1..], i - 1, s);
    }
  }

  lemma {:induction false} InternalNodesContain(env: Env, children: seq<Tree>, level: nat, s: Tree)
    requires InternalNodes(env, children, level).Ok? && ContainsAll(children, s)
    ensures ContainsAll(InternalNodes(env, children, level).value.trees, s)
    decreases |children|
  {
    if |children| <= CAPACITY && Fits(env, Internal(level, Branches(children))) {
      var t := InternalNodes(env, children, level).value.trees[0];
      assert t.children == children && Contains(t, s);
    } else {
      var mid := |children| / 2;
      assert children == children[..mid] + children[mid..];
      ContainsConcat(children[..mid], children[mid..], s);
      var l, r := InternalNodes(env, children[..mid], level).value.trees, InternalNodes(env, children[mid..], level).value.trees;
      if ContainsAll(children[..mid], s) {
        InternalNodesContain(env, children[..mid], level, s);
      } else {
        InternalNodesContain(env, children[mid..], level, s);
      }
      ContainsConcat(l, r, s);
    }
  }

  lemma {:induction false} SubtreeBounds(t: Tree, path: seq<nat>)
    requires WellFormed(t) && IsPath(t, path)
    ensures WellFormed(At(t, path)) && t.min <= At(t, path).min <= At(t, path).max <= t.max
    decreases path
  {
    TreeBounds(t);
    if path != [] {
      ForestAt(t.children, t.node.level - 1, path[0]);
      ForestEnds(t.children, t.node.level - 1);
      SubtreeBounds(t.children[path[0]], path[1..]);
    }
  }

  // The changes that reach `t` lie above `lo` and, unless `t` is last, up to its maximum.
  predicate Routed(t: Tree, changes: seq<Entry>, lo: nat, last: bool) {
    forall e :: e in changes ==> lo < e.page && (last || e.page <= t.max)
  }

  lemma {:induction false} ReusedAt(
    env: Env, t: Tree, changes: seq<Entry>, eof: nat, path: seq<nat>, lo: nat, last: bool)
    requires WellFormed(t) && SortedEntries(changes) && Routed(t, changes, lo, last)
    requires Update(env, t, changes, eof).Ok?
    requires IsPath(t, path) && At(t, path).max <= eof
    requires forall e :: e in changes ==> !InSlot(t, path, lo, last, e.page)
    ensures ContainsAll(Update(env, t, changes, eof).value.trees, At(t, path))
    decreases t, 0
  {
    hide Update, UpdateAll, WellFormed, Forest, InternalNodes, SortedEntries, ContainsAll, Contains,
      InSlot, At, IsPath, SlotStart, OnRightSpine;
    SubtreeBounds(t, path);
    if path == [] {
      NothingRouted(t, changes, lo, last);
      UpdateReturns(env, t, eof);
    } else if changes == [] && t.max <= eof {
      UpdateReturns(env, t, eof);
      ContainsAt(t, path);
      ContainsMember([t], 0, At(t, path));
    } else {
      PathStep(t, path, lo, last);
      UpdateInternal(env, t, changes, eof);
      ReusedAmong(env, t.children, t.node.level - 1, changes, eof, path[0], path[1..], lo, last);
      InternalNodesContain(env, UpdateAll(env, t.children, t.node.level - 1, changes, eof).value.trees, t.node.level, At(t, path));
    }
  }

  lemma NothingRouted(t: Tree, changes: seq<Entry>, lo: nat, last: bool)
    requires Routed(t, changes, lo, last)
    requires forall e :: e in changes ==> !InSlot(t, [], lo, last, e.page)
    ensures changes == [] && At(t, []) == t
  {
    assert forall e :: e in changes ==> InSlot(t, [], lo, last, e.page);
    FirstMember(changes);
  }

  lemma FirstMember(s: seq<Entry>)
    ensures s == [] || s[0] in s
  {
  }

  lemma UpdateReturns(env: Env, t: Tree, eof: nat)
    requires WellFormed(t) && t.max <= eof
    ensures Update(env, t, [], eof) == Ok(Built([t], map[])) && ContainsAll([t], t)
  {
  }

  // One step down a path narrows the slot to the child's.
  lemma PathStep(t: Tree, path: seq<nat>, lo: nat, last: bool)
    requires WellFormed(t) && IsPath(t, path) && path != []
    ensures var i := path[0];
      && t.node.Internal? && t.node.level > 0 && i < |t.children| && IsPath(t.children[i], path[1..])
      && At(t.children[i], path[1..]) == At(t, path)
      && forall page :: InSlot(t, path, lo, last, page) ==
           InSlot(t.children[i], path[1..], if i == 0 then lo else t.children[i - 1].max, last && i + 1 == |t.children|, page)
  {
  }

  lemma {:induction false} ReusedAmong(
    env: Env, ts: seq<Tree>, level: nat, changes: seq<Entry>, eof: nat, i: nat, path: seq<nat>, lo: nat, last: bool)
    requires Forest(ts, level) && SortedEntries(changes) && i < |ts|
    requires UpdateAll(env, ts, level, changes, eof).Ok?
    requires forall e :: e in changes ==> lo < e.page && (last || e.page <= ts[|ts| - 1].max)
    requires IsPath(ts[i], path) && At(ts[i], path).max <= eof
    requires forall e :: e in changes ==>
      !InSlot(ts[i], path, if i == 0 then lo else ts[i - 1].max, last && i + 1 == |ts|, e.page)
    ensures ContainsAll(UpdateAll(env, ts, level, changes, eof).value.trees, At(ts[i], path))
    decreases ts, 1
  {
    hide WellFormed, Forest, Update, UpdateAll, InSlot, IsPath, At, ContainsAll, SortedEntries, SlotStart, OnRightSpine;
    UpdateAllStep(env, ts, level, changes, eof);
    var n := if |ts| == 1 then |changes| else Below(changes, ts[0].max);
    var here, rest := changes[..n], changes[n..];
    BelowSplits(changes, ts[0].max);
    SortedHalves(changes, n);
    var s := At(ts[i], path);
    if i == 0 {
      ReusedAt(env, ts[0], here, eof, path, lo, last && |ts| == 1);
    } else {
      assert ts[1..][i - 1] == ts[i] && ts[1..][|ts| - 2] == ts[|ts| - 1];
      assert i > 1 ==> ts[1..][i - 2] == ts[i - 1];
      ReusedAmong(env, ts[1..], level, rest, eof, i - 1, path, ts[0].max, last);
    }
    ContainsConcat(Update(env, ts[0], here, eof).value.trees, UpdateAll(env, ts[1..], level, rest, eof).value.trees, s);
  }

  // Every subtree that receives no change and lies at or below eof survives unchanged.
  lemma UntouchedReused(env: Env, t: Tree, changes: seq<Entry>, eof: nat, path: seq<nat>)
    requires WellFormed(t) && SortedEntries(changes) && ValidEntries(changes)
    requires Update(env, t, changes, eof).Ok?
    requires IsPath(t, path) && At(t, path).max <= eof
    requires forall e :: e in changes ==> !InSlot(t, path, 0, true, e.page)
    ensures ContainsAll(Update(env, t, changes, eof).value.trees, At(t, path))
  {
    ReusedAt(env, t, changes, eof, path, 0, true);
  }
}
