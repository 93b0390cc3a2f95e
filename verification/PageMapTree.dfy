// The persistent page map: an immutable tree of leaf and internal nodes that
// updates copy along a path, split at the midpoint and prune at end of file.
module PageMapTree {
  import opened Wrappers
  import opened Objects

  datatype Tree = Tree(reference: Reference, node: Node, children: seq<Tree>, min: nat, max: nat) {
    function Level(): nat {
      LevelOf(node)
    }
  }

  // ----- Shape ------------------------------------------------------------

  // Every level is ordered, children sit one level below, and bounds agree with content.
  predicate WellFormed(t: Tree)
    decreases t, 0
  {
    ValidNode(t.node) && t.reference.length > 0 &&
    match t.node
    case Leaf(entries) =>
      t.children == [] && t.min == entries[0].page && t.max == entries[|entries| - 1].page
    case Internal(level, branches) =>
      && t.children != []
      && Forest(t.children, level - 1)
      && branches == Branches(t.children)
      && t.min == t.children[0].min
      && t.max == t.children[|t.children| - 1].max
  }

  // A run of sibling trees: all of one level, in page order, pairwise disjoint.
  predicate Forest(ts: seq<Tree>, level: nat)
    decreases ts, 1
  {
    && (forall i :: 0 <= i < |ts| ==> WellFormed(ts[i]) && ts[i].Level() == level)
    && Ordered(ts)
  }

  predicate Ordered(ts: seq<Tree>) {
    forall i, j :: 0 <= i < j < |ts| ==> ts[i].max < ts[j].min
  }

  function Branches(ts: seq<Tree>): (bs: seq<Branch>)
    ensures |bs| == |ts|
    ensures forall i :: 0 <= i < |ts| ==> bs[i] == Branch(ts[i].max, ts[i].reference)
  {
    seq(|ts|, i requires 0 <= i < |ts| => Branch(ts[i].max, ts[i].reference))
  }

  // How many entries the root node of a tree holds.
  function Width(t: Tree): nat {
    if t.node.Leaf? then |t.node.entries| else |t.node.branches|
  }

  // The entries of a tree, left to right.
  function Flatten(t: Tree): seq<Entry>
    decreases t, 0
  {
    if t.node.Leaf? then t.node.entries else FlattenAll(t.children)
  }

  function FlattenAll(ts: seq<Tree>): seq<Entry>
    decreases ts, 1
  {
    if ts == [] then [] else Flatten(ts[0]) + FlattenAll(ts[1..])
  }

  lemma {:induction false} FlattenAllConcat(a: seq<Tree>, b: seq<Tree>)
    ensures FlattenAll(a + b) == FlattenAll(a) + FlattenAll(b)
  {
    if a == [] {
      assert a + b == b;
    } else {
      assert (a + b)[1..] == a[1..] + b;
      FlattenAllConcat(a[1..], b);
    }
  }

  lemma {:induction false} TreeBounds(t: Tree)
    requires WellFormed(t)
    ensures 0 < t.min <= t.max
    ensures t.max == MaxPage(t.node)
    decreases t
  {
    if t.node.Internal? {
      TreeBounds(t.children[0]);
      TreeBounds(t.children[|t.children| - 1]);
    }
  }

  predicate Within(s: seq<Entry>, lo: nat, hi: nat) {
    forall i :: 0 <= i < |s| ==> lo <= s[i].page <= hi
  }

  // What a run of trees flattens to: nonempty valid entries in strict page order,
  // from the first tree's minimum to the last tree's maximum.
  lemma {:induction false} FlattenSorted(t: Tree)
    requires WellFormed(t)
    ensures var s := Flatten(t);
      s != [] && SortedEntries(s) && ValidEntries(s) && Within(s, t.min, t.max)
      && s[0].page == t.min && s[|s| - 1].page == t.max
    decreases t, 0
  {
    TreeBounds(t);
    if t.node.Internal? {
      FlattenAllSorted(t.children, t.node.level - 1);
    }
  }

  lemma {:induction false} FlattenAllSorted(ts: seq<Tree>, level: nat)
    requires Forest(ts, level)
    ensures SortedEntries(FlattenAll(ts)) && ValidEntries(FlattenAll(ts))
    ensures ts != [] ==> var s := FlattenAll(ts);
      s != [] && Within(s, ts[0].min, ts[|ts| - 1].max)
      && s[0].page == ts[0].min && s[|s| - 1].page == ts[|ts| - 1].max
    decreases ts, 1
  {
    hide WellFormed, Forest, SortedEntries, ValidEntries, Within;
    if |ts| == 1 {
      ForestAt(ts, level, 0);
      FlattenSorted(ts[0]);
      assert FlattenAll(ts) == Flatten(ts[0]) + FlattenAll(ts[1..]) == Flatten(ts[0]);
    } else if ts != [] {
      var rest := ts[1..];
      ForestFirst(ts, level);
      FlattenSorted(ts[0]);
      FlattenAllSorted(rest, level);
      assert rest[0] == ts[1] && rest[|rest| - 1] == ts[|ts| - 1];
      ConcatSorted(Flatten(ts[0]), FlattenAll(rest), ts[0].min, ts[0].max, rest[0].min, rest[|rest| - 1].max);
    } else {
      NothingSorted();
    }
  }

  lemma NothingSorted()
    ensures SortedEntries([]) && ValidEntries([])
  {
  }

  lemma ForestFirst(ts: seq<Tree>, level: nat)
    requires Forest(ts, level) && |ts| > 1
    ensures WellFormed(ts[0]) && ts[0].Level() == level && Forest(ts[1..], level) && ts[0].max < ts[1].min
  {
    ForestHalves(ts, level, 1);
  }

  lemma ConcatSorted(a: seq<Entry>, b: seq<Entry>, lo: nat, mid: nat, from: nat, hi: nat)
    requires SortedEntries(a) && ValidEntries(a) && Within(a, lo, mid)
    requires SortedEntries(b) && ValidEntries(b) && Within(b, from, hi)
    requires a != [] && b != [] && mid < from
    ensures SortedEntries(a + b) && ValidEntries(a + b) && Within(a + b, lo, hi)
  {
    assert lo <= a[0].page <= mid && from <= b[0].page <= hi;
  }

  lemma ForestAt(ts: seq<Tree>, level: nat, i: nat)
    requires Forest(ts, level) && i < |ts|
    ensures WellFormed(ts[i]) && ts[i].Level() == level
  {
  }

  lemma ForestConcat(a: seq<Tree>, b: seq<Tree>, level: nat)
    requires Forest(a, level) && Forest(b, level)
    requires forall i, j :: 0 <= i < |a| && 0 <= j < |b| ==> a[i].max < b[j].min
    ensures Forest(a + b, level)
  {
    var c := a + b;
    forall i | 0 <= i < |c|
      ensures WellFormed(c[i]) && c[i].Level() == level
    {
      assert c[i] == if i < |a| then a[i] else b[i - |a|];
    }
  }

  lemma ForestSlice(ts: seq<Tree>, level: nat, lo: nat, hi: nat)
    requires Forest(ts, level) && lo <= hi <= |ts|
    ensures Forest(ts[lo..hi], level)
  {
    var c := ts[lo..hi];
    forall i | 0 <= i < |c|
      ensures WellFormed(c[i]) && c[i].Level() == level
    {
      assert c[i] == ts[lo + i];
    }
  }

  lemma ForestHalves(ts: seq<Tree>, level: nat, mid: nat)
    requires Forest(ts, level) && mid <= |ts|
    ensures Forest(ts[..mid], level) && Forest(ts[mid..], level)
  {
    ForestSlice(ts, level, 0, mid);
    ForestSlice(ts, level, mid, |ts|);
    assert ts[mid..] == ts[mid..|ts|];
  }

  // ----- Building nodes ----------------------------------------------------

  // Trees made by one construction step, with the objects that must be published for them.
  datatype Built = Built(trees: seq<Tree>, artifacts: Store)

  // create_tree, for a node already known to be valid and small enough
  function CreateTree(env: Env, node: Node, children: seq<Tree>): Built
    requires ValidNode(node)
    requires node.Internal? ==> children != []
  {
    var o := NodeObject(node);
    var min := if node.Leaf? then node.entries[0].page else children[0].min;
    Built([Tree(RefOf(env, o), node, children, min, MaxPage(node))], map[NameOf(env, o) := o])
  }

  function LeafNodes(env: Env, entries: seq<Entry>): Result<Built>
    decreases |entries|
  {
    if entries == [] then Ok(Built([], map[]))
    else if !ValidNode(Leaf(entries)) then Err(Invalid)
    else if |entries| <= CAPACITY && Fits(env, Leaf(entries)) then Ok(CreateTree(env, Leaf(entries), []))
    else if |entries| == 1 then Err(TooLarge)
    else
      var mid := |entries| / 2;
      var left :- LeafNodes(env, entries[..mid]);
      var right :- LeafNodes(env, entries[mid..]);
      Ok(Built(left.trees + right.trees, left.artifacts + right.artifacts))
  }

  function InternalNodes(env: Env, children: seq<Tree>, level: nat): Result<Built>
    decreases |children|
  {
    if children == [] then Ok(Built([], map[]))
    else if !ValidNode(Internal(level, Branches(children))) then Err(Invalid)
    else if |children| <= CAPACITY && Fits(env, Internal(level, Branches(children))) then
      Ok(CreateTree(env, Internal(level, Branches(children)), children))
    else if |children| == 1 then Err(TooLarge)
    else
      var mid := |children| / 2;
      var left :- InternalNodes(env, children[..mid], level);
      var right :- InternalNodes(env, children[mid..], level);
      Ok(Built(left.trees + right.trees, left.artifacts + right.artifacts))
  }

  // `ts` is a forest of the given level that flattens to exactly the run `s`.
  predicate Represents(ts: seq<Tree>, level: nat, s: seq<Entry>) {
    Forest(ts, level) && FlattenAll(ts) == s
  }

  predicate Narrow(ts: seq<Tree>) {
    forall i :: 0 <= i < |ts| ==> Width(ts[i]) <= CAPACITY
  }

  // Two forests side by side represent the two runs side by side.
  lemma JoinForests(l: seq<Tree>, r: seq<Tree>, level: nat, a: seq<Entry>, b: seq<Entry>)
    requires Represents(l, level, a) && Represents(r, level, b)
    requires SortedEntries(a + b)
    ensures Represents(l + r, level, a + b)
  {
    FlattenAllConcat(l, r);
    FlattenAllSorted(l, level);
    FlattenAllSorted(r, level);
    if l != [] && r != [] {
      assert (a + b)[|a| - 1] == a[|a| - 1] && (a + b)[|a|] == b[0];
      ForestEnds(l, level);
      ForestEnds(r, level);
    }
    ForestConcat(l, r, level);
  }

  // No tree of a forest reaches past the last maximum or starts before the first minimum.
  lemma ForestEnds(ts: seq<Tree>, level: nat)
    requires Forest(ts, level) && ts != []
    ensures forall i :: 0 <= i < |ts| ==> ts[i].max <= ts[|ts| - 1].max && ts[0].min <= ts[i].min
  {
    TreeBounds(ts[0]);
    TreeBounds(ts[|ts| - 1]);
  }

  lemma EmptyForest(level: nat)
    ensures Represents([], level, []) && FlattenAll([]) == []
  {
  }

  lemma OneTree(t: Tree)
    requires WellFormed(t)
    ensures Represents([t], t.Level(), Flatten(t))
  {
    assert FlattenAll([t]) == Flatten(t) + FlattenAll([t][1..]);
  }

  // Building over sorted entries yields leaves of at most CAPACITY entries
  // that flatten to exactly those entries.
  lemma {:induction false} LeafNodesShape(env: Env, entries: seq<Entry>)
    requires LeafNodes(env, entries).Ok?
    ensures Represents(LeafNodes(env, entries).value.trees, 0, entries)
    ensures Narrow(LeafNodes(env, entries).value.trees)
    decreases |entries|
  {
    if entries == [] {
    } else if |entries| <= CAPACITY && Fits(env, Leaf(entries)) {
      OneTree(LeafNodes(env, entries).value.trees[0]);
    } else {
      var mid := |entries| / 2;
      var a, b := entries[..mid], entries[mid..];
      assert entries == a + b;
      LeafNodesShape(env, a);
      LeafNodesShape(env, b);
      JoinForests(LeafNodes(env, a).value.trees, LeafNodes(env, b).value.trees, 0, a, b);
    }
  }

  lemma InternalTree(env: Env, children: seq<Tree>, level: nat)
    requires level > 0 && Forest(children, level - 1) && children != []
    requires ValidNode(Internal(level, Branches(children)))
    ensures Represents(CreateTree(env, Internal(level, Branches(children)), children).trees, level, FlattenAll(children))
  {
    var t := CreateTree(env, Internal(level, Branches(children)), children).trees[0];
    assert WellFormed(t);
    OneTree(t);
  }

  // Grouping a forest under internal nodes of the next level keeps its entries.
  lemma {:induction false} InternalNodesShape(env: Env, children: seq<Tree>, level: nat)
    requires level > 0 && Forest(children, level - 1)
    requires InternalNodes(env, children, level).Ok?
    ensures Represents(InternalNodes(env, children, level).value.trees, level, FlattenAll(children))
    decreases |children|
  {
    hide WellFormed, Forest, ValidNode, Represents, SortedEntries, FlattenAll;
    if children == [] {
      EmptyForest(level);
    } else if |children| <= CAPACITY && Fits(env, Internal(level, Branches(children))) {
      InternalTree(env, children, level);
    } else {
      var mid := |children| / 2;
      var a, b := children[..mid], children[mid..];
      assert children == a + b;
      ForestHalves(children, level - 1, mid);
      InternalNodesShape(env, a, level);
      InternalNodesShape(env, b, level);
      FlattenAllConcat(a, b);
      FlattenAllSorted(children, level - 1);
      JoinForests(InternalNodes(env, a, level).value.trees, InternalNodes(env, b, level).value.trees,
                  level, FlattenAll(a), FlattenAll(b));
    }
  }

  lemma {:induction false} InternalNodesNarrow(env: Env, children: seq<Tree>, level: nat)
    requires InternalNodes(env, children, level).Ok?
    ensures Narrow(InternalNodes(env, children, level).value.trees)
    decreases |children|
  {
    if children == [] || (|children| <= CAPACITY && Fits(env, Internal(level, Branches(children)))) {
    } else {
      var mid := |children| / 2;
      InternalNodesNarrow(env, children[..mid], level);
      InternalNodesNarrow(env, children[mid..], level);
    }
  }

  // ----- Update --------------------------------------------------------------

  // The entries at or below eof.
  function Keep(s: seq<Entry>, eof: nat): seq<Entry> {
    if s == [] then []
    else (if s[0].page <= eof then [s[0]] else []) + Keep(s[1..], eof)
  }

  // The next entry of two runs merged in page order, and what is left of each run;
  // on an equal page the second run wins.
  function Next(a: seq<Entry>, b: seq<Entry>): (Entry, seq<Entry>, seq<Entry>)
    requires a != [] || b != []
  {
    if b == [] || (a != [] && a[0].page < b[0].page) then (a[0], a[1..], b)
    else if a != [] && a[0].page == b[0].page then (b[0], a[1..], b[1..])
    else (b[0], a, b[1..])
  }

  // BTreeMap::extend, over runs in page order
  function Merge(a: seq<Entry>, b: seq<Entry>): seq<Entry>
    decreases |a| + |b|
  {
    if a == [] && b == [] then []
    else
      var (e, a', b') := Next(a, b);
      [e] + Merge(a', b')
  }

  // slice::partition_point for `page <= bound`
  function Below(changes: seq<Entry>, bound: nat): (n: nat)
    ensures n <= |changes|
  {
    if changes == [] || changes[0].page > bound then 0 else 1 + Below(changes[1..], bound)
  }

  function Update(env: Env, t: Tree, changes: seq<Entry>, eof: nat): Result<Built>
    requires WellFormed(t)
    decreases t, 0
  {
    if changes == [] && t.max <= eof then Ok(Built([t], map[]))
    else if t.min > eof && changes == [] then Ok(Built([], map[]))
    else
      match t.node
      case Leaf(entries) => LeafNodes(env, Merge(Keep(entries, eof), changes))
      case Internal(level, _) =>
        var below :- UpdateAll(env, t.children, level - 1, changes, eof);
        var here :- InternalNodes(env, below.trees, level);
        Ok(Built(here.trees, below.artifacts + here.artifacts))
  }

  // The children in turn: each takes the changes up to its maximum, the last all that remain.
  function UpdateAll(env: Env, ts: seq<Tree>, ghost level: nat, changes: seq<Entry>, eof: nat): Result<Built>
    requires Forest(ts, level)
    decreases ts, 1
  {
    if ts == [] then Ok(Built([], map[]))
    else
      ForestSlice(ts, level, 1, |ts|);
      var count := if |ts| == 1 then |changes| else Below(changes, ts[0].max);
      var first :- Update(env, ts[0], changes[..count], eof);
      var rest :- UpdateAll(env, ts[1..], level, changes[count..], eof);
      Ok(Built(first.trees + rest.trees, first.artifacts + rest.artifacts))
  }

  // The run an update is meant to represent.
  function Applied(s: seq<Entry>, changes: seq<Entry>, eof: nat): seq<Entry> {
    Merge(Keep(s, eof), changes)
  }

  predicate AllAtMost(s: seq<Entry>, bound: nat) {
    forall i :: 0 <= i < |s| ==> s[i].page <= bound
  }

  predicate AllAbove(s: seq<Entry>, bound: nat) {
    forall i :: 0 <= i < |s| ==> s[i].page > bound
  }

  lemma {:induction false} KeepConcat(a: seq<Entry>, b: seq<Entry>, eof: nat)
    ensures Keep(a + b, eof) == Keep(a, eof) + Keep(b, eof)
  {
    if a == [] {
      assert a + b == b;
    } else {
      assert (a + b)[1..] == a[1..] + b && (a + b)[0] == a[0];
      KeepConcat(a[1..], b, eof);
      var head := if a[0].page <= eof then [a[0]] else [];
      assert head + (Keep(a[1..], eof) + Keep(b, eof)) == head + Keep(a[1..], eof) + Keep(b, eof);
    }
  }

  lemma {:induction false} KeepElements(s: seq<Entry>, eof: nat)
    ensures forall e :: e in Keep(s, eof) <==> e in s && e.page <= eof
  {
    if s != [] {
      KeepElements(s[1..], eof);
    }
  }

  lemma {:induction false} KeepAll(s: seq<Entry>, eof: nat)
    requires AllAtMost(s, eof)
    ensures Keep(s, eof) == s
  {
    if s != [] {
      KeepAll(s[1..], eof);
    }
  }

  lemma {:induction false} KeepNone(s: seq<Entry>, eof: nat)
    requires AllAbove(s, eof)
    ensures Keep(s, eof) == []
  {
    if s != [] {
      KeepNone(s[1..], eof);
    }
  }

  lemma NextConcat(a1: seq<Entry>, a2: seq<Entry>, b1: seq<Entry>, b2: seq<Entry>, bound: nat)
    requires AllAtMost(a1, bound) && AllAtMost(b1, bound) && AllAbove(a2, bound) && AllAbove(b2, bound)
    requires a1 != [] || b1 != []
    ensures var (e, a', b') := Next(a1, b1);
      && Next(a1 + a2, b1 + b2) == (e, a' + a2, b' + b2)
      && AllAtMost(a', bound) && AllAtMost(b', bound)
  {
    assert a1 != [] ==> (a1 + a2)[1..] == a1[1..] + a2;
    assert b1 != [] ==> (b1 + b2)[1..] == b1[1..] + b2;
    assert a1 == [] ==> a1 + a2 == a2;
    assert b1 == [] ==> b1 + b2 == b2;
  }

  // Merging two runs that split at the same bound is merging the halves.
  lemma {:induction false} MergeSplit(a1: seq<Entry>, a2: seq<Entry>, b1: seq<Entry>, b2: seq<Entry>, bound: nat)
    requires AllAtMost(a1, bound) && AllAtMost(b1, bound) && AllAbove(a2, bound) && AllAbove(b2, bound)
    ensures Merge(a1 + a2, b1 + b2) == Merge(a1, b1) + Merge(a2, b2)
    decreases |a1| + |b1|
  {
    if a1 == [] && b1 == [] {
      assert a1 + a2 == a2 && b1 + b2 == b2;
    } else {
      NextConcat(a1, a2, b1, b2, bound);
      var (e, a', b') := Next(a1, b1);
      MergeSplit(a', a2, b', b2, bound);
      assert [e] + (Merge(a', b') + Merge(a2, b2)) == [e] + Merge(a', b') + Merge(a2, b2);
    }
  }

  lemma {:induction false} BelowSplits(changes: seq<Entry>, bound: nat)
    requires SortedEntries(changes)
    ensures var n := Below(changes, bound);
      AllAtMost(changes[..n], bound) && AllAbove(changes[n..], bound)
  {
    if changes != [] && changes[0].page <= bound {
      var rest := changes[1..];
      BelowSplits(rest, bound);
      var n := Below(rest, bound);
      assert changes[..n + 1] == [changes[0]] + rest[..n];
      assert changes[n + 1..] == rest[n..];
    }
  }

  lemma NextFirst(a: seq<Entry>, b: seq<Entry>)
    requires SortedEntries(a) && SortedEntries(b) && (a != [] || b != [])
    ensures var (e, a', b') := Next(a, b);
      && SortedEntries(a') && SortedEntries(b')
      && (forall x :: x in a' || x in b' ==> e.page < x.page)
      && (forall x :: x in b <==> x in b' || (x == e && b' != b))
      && (forall x :: x in a ==> x in a' || x.page == e.page)
      && (forall x :: x in a' ==> x in a)
      && (b' == b ==> e in a)
  {
  }

  // Merge keeps exactly the second run and what the first run adds to it.
  lemma {:induction false} MergeExact(a: seq<Entry>, b: seq<Entry>)
    requires SortedEntries(a) && SortedEntries(b)
    ensures SortedEntries(Merge(a, b))
    ensures forall e :: e in Merge(a, b) <==> e in b || (e in a && forall f :: f in b ==> f.page != e.page)
    decreases |a| + |b|
  {
    if a != [] || b != [] {
      NextFirst(a, b);
      var (e, a', b') := Next(a, b);
      MergeExact(a', b');
      var rest := Merge(a', b');
      assert Merge(a, b) == [e] + rest;
      forall i | 0 <= i < |rest|
        ensures e.page < rest[i].page
      {
        assert rest[i] in rest;
      }
    }
  }

  lemma {:induction false} MergeNone(a: seq<Entry>)
    ensures Merge(a, []) == a
  {
    if a != [] {
      MergeNone(a[1..]);
    }
  }

  lemma {:induction false} KeepSorted(s: seq<Entry>, eof: nat)
    requires SortedEntries(s)
    ensures SortedEntries(Keep(s, eof))
  {
    if s != [] {
      KeepSorted(s[1..], eof);
      KeepElements(s[1..], eof);
    }
  }

  lemma AppliedSorted(s: seq<Entry>, changes: seq<Entry>, eof: nat)
    requires SortedEntries(s) && SortedEntries(changes)
    ensures SortedEntries(Applied(s, changes, eof))
  {
    KeepSorted(s, eof);
    MergeExact(Keep(s, eof), changes);
  }

  // Update represents exactly the old run cut at eof and overridden by the changes.
  lemma {:induction false} UpdateShape(env: Env, t: Tree, changes: seq<Entry>, eof: nat)
    requires WellFormed(t) && SortedEntries(changes)
    requires Update(env, t, changes, eof).Ok?
    ensures Represents(Update(env, t, changes, eof).value.trees, t.Level(), Applied(Flatten(t), changes, eof))
    decreases t, 0
  {
    hide Merge, Keep, SortedEntries, ValidEntries, ValidNode;
    if changes == [] && (t.max <= eof || t.min > eof) {
      Untouched(t, eof);
    } else if t.node.Leaf? {
      LeafNodesShape(env, Applied(Flatten(t), changes, eof));
    } else {
      var level := t.node.level - 1;
      UpdateAllShape(env, t.children, level, changes, eof);
      InternalNodesShape(env, UpdateAll(env, t.children, level, changes, eof).value.trees, level + 1);
    }
  }

  // A tree on one side of eof, without changes: all of it stays, or none.
  lemma Untouched(t: Tree, eof: nat)
    requires WellFormed(t)
    ensures t.max <= eof ==> Represents([t], t.Level(), Applied(Flatten(t), [], eof))
    ensures t.min > eof ==> Represents([], t.Level(), Applied(Flatten(t), [], eof))
  {
    FlattenSorted(t);
    OneTree(t);
    MergeNone(Keep(Flatten(t), eof));
    if t.max <= eof {
      KeepAll(Flatten(t), eof);
    } else if t.min > eof {
      KeepNone(Flatten(t), eof);
      EmptyForest(t.Level());
    }
  }

  // An internal node that must be rewritten: update the children, then regroup them.
  lemma UpdateInternal(env: Env, t: Tree, changes: seq<Entry>, eof: nat)
    requires WellFormed(t) && t.node.Internal? && Update(env, t, changes, eof).Ok?
    requires changes != [] || t.min <= eof < t.max
    ensures t.children != [] && Forest(t.children, t.node.level - 1)
    ensures t.max == t.children[|t.children| - 1].max
    ensures var below := UpdateAll(env, t.children, t.node.level - 1, changes, eof);
      && below.Ok? && InternalNodes(env, below.value.trees, t.node.level).Ok?
      && Update(env, t, changes, eof).value.trees == InternalNodes(env, below.value.trees, t.node.level).value.trees
  {
  }

  lemma {:induction false} UpdateAllShape(env: Env, ts: seq<Tree>, level: nat, changes: seq<Entry>, eof: nat)
    requires Forest(ts, level) && SortedEntries(changes) && ts != []
    requires UpdateAll(env, ts, level, changes, eof).Ok?
    ensures Represents(UpdateAll(env, ts, level, changes, eof).value.trees, level, Applied(FlattenAll(ts), changes, eof))
    decreases ts, 1
  {
    hide WellFormed, Forest, Represents, SortedEntries, Applied, FlattenAll, Flatten, Update, UpdateAll;
    ForestAt(ts, level, 0);
    if |ts| == 1 {
      UpdateAllOne(env, ts, level, changes, eof);
      UpdateShape(env, ts[0], changes, eof);
    } else {
      var n := Below(changes, ts[0].max);
      var c1, c2 := changes[..n], changes[n..];
      UpdateAllStep(env, ts, level, changes, eof);
      ForestHalves(ts, level, 1);
      BelowSplits(changes, ts[0].max);
      SortedHalves(changes, n);
      UpdateShape(env, ts[0], c1, eof);
      UpdateAllShape(env, ts[1..], level, c2, eof);
      SplitApplied(ts, level, c1, c2, eof);
      assert changes == c1 + c2;
      FlattenAllSorted(ts, level);
      AppliedSorted(FlattenAll(ts), changes, eof);
      JoinForests(Update(env, ts[0], c1, eof).value.trees, UpdateAll(env, ts[1..], level, c2, eof).value.trees,
                  level, Applied(Flatten(ts[0]), c1, eof), Applied(FlattenAll(ts[1..]), c2, eof));
    }
  }

  lemma UpdateAllOne(env: Env, ts: seq<Tree>, level: nat, changes: seq<Entry>, eof: nat)
    requires Forest(ts, level) && |ts| == 1
    requires UpdateAll(env, ts, level, changes, eof).Ok?
    ensures Flatten(ts[0]) == FlattenAll(ts)
    ensures Update(env, ts[0], changes, eof).Ok?
    ensures UpdateAll(env, ts, level, changes, eof).value.trees == Update(env, ts[0], changes, eof).value.trees
  {
    hide WellFormed;
    ForestHalves(ts, level, 1);
    assert changes[..|changes|] == changes && ts[1..] == [];
    var first := Update(env, ts[0], changes, eof).value.trees;
    assert first + [] == first && Flatten(ts[0]) + [] == Flatten(ts[0]);
  }

  // The first tree of a run, then the others.
  lemma UpdateAllStep(env: Env, ts: seq<Tree>, level: nat, changes: seq<Entry>, eof: nat)
    requires Forest(ts, level) && ts != []
    requires UpdateAll(env, ts, level, changes, eof).Ok?
    ensures Forest(ts[1..], level) && WellFormed(ts[0])
    ensures var n := if |ts| == 1 then |changes| else Below(changes, ts[0].max);
      && Update(env, ts[0], changes[..n], eof).Ok?
      && UpdateAll(env, ts[1..], level, changes[n..], eof).Ok?
      && UpdateAll(env, ts, level, changes, eof).value.trees
         == Update(env, ts[0], changes[..n], eof).value.trees + UpdateAll(env, ts[1..], level, changes[n..], eof).value.trees
  {
    ForestHalves(ts, level, 1);
    ForestAt(ts, level, 0);
    hide WellFormed;
  }

  lemma SortedHalves(s: seq<Entry>, n: nat)
    requires SortedEntries(s) && n <= |s|
    ensures SortedEntries(s[..n]) && SortedEntries(s[n..])
  {
  }

  // Changes up to the first tree's maximum concern only the first tree.
  lemma SplitApplied(ts: seq<Tree>, level: nat, c1: seq<Entry>, c2: seq<Entry>, eof: nat)
    requires Forest(ts, level) && |ts| > 1
    requires AllAtMost(c1, ts[0].max) && AllAbove(c2, ts[0].max)
    ensures Applied(FlattenAll(ts), c1 + c2, eof)
         == Applied(Flatten(ts[0]), c1, eof) + Applied(FlattenAll(ts[1..]), c2, eof)
  {
    var a, b := Flatten(ts[0]), FlattenAll(ts[1..]);
    FlattenSorted(ts[0]);
    ForestSlice(ts, level, 1, |ts|);
    FlattenAllSorted(ts[1..], level);
    KeepConcat(a, b, eof);
    KeepElements(a, eof);
    KeepElements(b, eof);
    var ka, kb := Keep(a, eof), Keep(b, eof);
    forall i | 0 <= i < |ka|
      ensures ka[i].page <= ts[0].max
    {
      assert ka[i] in ka;
    }
    forall i | 0 <= i < |kb|
      ensures kb[i].page > ts[0].max
    {
      assert kb[i] in kb;
    }
    MergeSplit(ka, kb, c1, c2, ts[0].max);
  }
}
