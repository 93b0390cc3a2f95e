// How full the nodes stay: midpoint splits keep every node off the right spine
// at least half full, although updates prune at end of file and never merge.
// The height is therefore logarithmic in the number of pages.
module PageMapFill {
  import opened Wrappers
  import opened Objects
  import opened PageMapTree

  const HALF: nat := CAPACITY / 2

  // Every node of at most CAPACITY entries, named by content, stays under the serialized limit.
  ghost predicate CapacityFits(env: Env) {
    forall n: Node {:trigger Fits(env, n)} ::
      NodeByContent(n) && (if n.Leaf? then |n.entries| else |n.branches|) <= CAPACITY ==> Fits(env, n)
  }

  // Trees that are named by content, ...
  predicate Titled(ts: seq<Tree>) {
    forall i :: 0 <= i < |ts| ==> ByContent(ts[i].reference)
  }

  // ... and a tree that refers only to what is, all the way down.
  predicate ContentTree(t: Tree) {
    && (t.node.Leaf? ==> EntriesByContent(t.node.entries))
    && Titled(t.children) && forall i :: 0 <= i < |t.children| ==> ContentTree(t.children[i])
  }

  predicate AllContent(ts: seq<Tree>) {
    Titled(ts) && forall i :: 0 <= i < |ts| ==> ContentTree(ts[i])
  }

  lemma {:induction false} LeafNodesTitled(env: Env, entries: seq<Entry>)
    requires LeafNodes(env, entries).Ok?
    ensures Titled(LeafNodes(env, entries).value.trees)
    decreases |entries|
  {
    if entries == [] || (|entries| <= CAPACITY && Fits(env, Leaf(entries))) {
    } else {
      LeafNodesTitled(env, entries[..|entries| / 2]);
      LeafNodesTitled(env, entries[|entries| / 2..]);
    }
  }

  // Whatever its children are called, a new node is named by content.
  lemma {:induction false} InternalNodesTitled(env: Env, children: seq<Tree>, level: nat)
    requires InternalNodes(env, children, level).Ok?
    ensures Titled(InternalNodes(env, children, level).value.trees)
    decreases |children|
  {
    if children == [] || (|children| <= CAPACITY && Fits(env, Internal(level, Branches(children)))) {
    } else {
      InternalNodesTitled(env, children[..|children| / 2], level);
      InternalNodesTitled(env, children[|children| / 2..], level);
    }
  }

  lemma UpdateTitled(env: Env, t: Tree, changes: seq<Entry>, eof: nat)
    requires WellFormed(t) && Update(env, t, changes, eof).Ok?
    ensures var ts := Update(env, t, changes, eof).value.trees; ts == [t] || Titled(ts)
  {
    hide WellFormed;
    if changes == [] && (t.max <= eof || t.min > eof) {
    } else if t.node.Leaf? {
      LeafNodesTitled(env, Applied(t.node.entries, changes, eof));
    } else {
      UpdateInternal(env, t, changes, eof);
      InternalNodesTitled(env, UpdateAll(env, t.children, t.node.level - 1, changes, eof).value.trees, t.node.level);
    }
  }

  lemma {:induction false} UpdateAllTitled(env: Env, ts: seq<Tree>, level: nat, changes: seq<Entry>, eof: nat)
    requires Forest(ts, level) && Titled(ts) && UpdateAll(env, ts, level, changes, eof).Ok?
    ensures Titled(UpdateAll(env, ts, level, changes, eof).value.trees)
    decreases |ts|
  {
    hide Update, WellFormed, Forest;
    if ts != [] {
      UpdateAllStep(env, ts, level, changes, eof);
      var n := if |ts| == 1 then |changes| else Below(changes, ts[0].max);
      UpdateTitled(env, ts[0], changes[..n], eof);
      UpdateAllTitled(env, ts[1..], level, changes[n..], eof);
    }
  }

  // Every node of the tree is at least half full.
  predicate Filled(t: Tree) {
    Width(t) >= HALF && forall i :: 0 <= i < |t.children| ==> Filled(t.children[i])
  }

  // Every node off the right spine is at least half full.
  predicate SpineFilled(t: Tree) {
    forall i :: 0 <= i < |t.children| ==>
      if i + 1 == |t.children| then SpineFilled(t.children[i]) else Filled(t.children[i])
  }

  predicate AllFilled(ts: seq<Tree>) {
    forall i :: 0 <= i < |ts| ==> Filled(ts[i])
  }

  predicate AllSpineFilled(ts: seq<Tree>) {
    forall i :: 0 <= i < |ts| ==> if i + 1 == |ts| then SpineFilled(ts[i]) else Filled(ts[i])
  }

  lemma {:induction false} FilledIsSpineFilled(t: Tree)
    requires Filled(t)
    ensures SpineFilled(t)
  {
    if t.children != [] {
      FilledIsSpineFilled(t.children[|t.children| - 1]);
    }
  }

  lemma SpineConcat(a: seq<Tree>, b: seq<Tree>)
    requires AllFilled(a) && AllSpineFilled(b)
    ensures AllSpineFilled(a + b)
    ensures AllFilled(b) ==> AllFilled(a + b)
  {
    var c := a + b;
    forall i | 0 <= i < |c|
      ensures if i + 1 == |c| then SpineFilled(c[i]) else Filled(c[i])
    {
      if i < |a| {
        assert c[i] == a[i];
        FilledIsSpineFilled(a[i]);
      } else {
        assert c[i] == b[i - |a|];
      }
    }
  }

  // Leaf construction always succeeds, and leaves of a long enough run are all half full.
  lemma {:induction false} LeafNodesFill(env: Env, entries: seq<Entry>)
    requires CapacityFits(env) && SortedEntries(entries) && ValidEntries(entries) && EntriesByContent(entries)
    ensures LeafNodes(env, entries).Ok?
    ensures var ts := LeafNodes(env, entries).value.trees;
      AllSpineFilled(ts) && (|entries| >= HALF ==> AllFilled(ts)) && (entries != [] ==> ts != [])
    decreases |entries|
  {
    if |entries| > CAPACITY {
      var mid := |entries| / 2;
      LeafNodesFill(env, entries[..mid]);
      LeafNodesFill(env, entries[mid..]);
      SpineConcat(LeafNodes(env, entries[..mid]).value.trees, LeafNodes(env, entries[mid..]).value.trees);
    }
  }

  lemma BranchesValid(ts: seq<Tree>, level: nat)
    requires Forest(ts, level) && ts != []
    ensures ValidNode(Internal(level + 1, Branches(ts)))
  {
    forall i | 0 <= i < |ts|
      ensures 0 < ts[i].min <= ts[i].max && ts[i].reference.length > 0
    {
      TreeBounds(ts[i]);
    }
  }

  lemma {:induction false} InternalNodesFill(env: Env, children: seq<Tree>, level: nat)
    requires CapacityFits(env) && level > 0 && Forest(children, level - 1) && AllSpineFilled(children) && Titled(children)
    ensures InternalNodes(env, children, level).Ok?
    ensures var ts := InternalNodes(env, children, level).value.trees;
      && AllSpineFilled(ts)
      && (AllFilled(children) && |children| >= HALF ==> AllFilled(ts))
      && (children != [] ==> ts != [])
    decreases |children|
  {
    hide WellFormed, Forest, ValidNode, Filled, SpineFilled;
    if children != [] {
      BranchesValid(children, level - 1);
    }
    if |children| > CAPACITY {
      var mid := |children| / 2;
      ForestHalves(children, level - 1, mid);
      HalvesFilled(children, mid);
      InternalNodesFill(env, children[..mid], level);
      InternalNodesFill(env, children[mid..], level);
      SpineConcat(InternalNodes(env, children[..mid], level).value.trees,
                  InternalNodes(env, children[mid..], level).value.trees);
    } else if children != [] {
      InternalTreeFill(env, children, level);
    }
  }

  lemma InternalTreeFill(env: Env, children: seq<Tree>, level: nat)
    requires children != [] && ValidNode(Internal(level, Branches(children))) && AllSpineFilled(children)
    ensures var ts := CreateTree(env, Internal(level, Branches(children)), children).trees;
      AllSpineFilled(ts) && (AllFilled(children) && |children| >= HALF ==> AllFilled(ts))
  {
    var t := CreateTree(env, Internal(level, Branches(children)), children).trees[0];
    assert t.children == children && Width(t) == |children|;
    assert SpineFilled(t);
  }

  lemma HalvesFilled(ts: seq<Tree>, mid: nat)
    requires AllSpineFilled(ts) && mid < |ts|
    ensures AllFilled(ts[..mid]) && AllSpineFilled(ts[..mid]) && AllSpineFilled(ts[mid..])
    ensures AllFilled(ts) ==> AllFilled(ts[mid..])
  {
    var a := ts[..mid];
    forall i | 0 <= i < |a|
      ensures Filled(a[i]) && SpineFilled(a[i])
    {
      assert a[i] == ts[i];
      FilledIsSpineFilled(a[i]);
    }
  }

  lemma MergeValid(a: seq<Entry>, b: seq<Entry>)
    requires ValidEntries(a) && ValidEntries(b) && EntriesByContent(a) && EntriesByContent(b)
    ensures ValidEntries(Merge(a, b)) && EntriesByContent(Merge(a, b)) && |Merge(a, b)| >= |a|
    decreases |a| + |b|
  {
  }

  lemma {:induction false} KeepValid(s: seq<Entry>, eof: nat)
    requires ValidEntries(s) && EntriesByContent(s)
    ensures ValidEntries(Keep(s, eof)) && EntriesByContent(Keep(s, eof))
  {
    if s != [] {
      KeepValid(s[1..], eof);
    }
  }

  // An update of a spine-filled tree succeeds and stays spine-filled; a filled
  // tree that lies at or below eof stays filled throughout.
  lemma {:induction false} UpdateFill(env: Env, t: Tree, changes: seq<Entry>, eof: nat)
    requires CapacityFits(env) && WellFormed(t) && SpineFilled(t) && ContentTree(t)
    requires SortedEntries(changes) && ValidEntries(changes) && EntriesByContent(changes) && AllAtMost(changes, eof)
    ensures Update(env, t, changes, eof).Ok?
    ensures var ts := Update(env, t, changes, eof).value.trees;
      && AllSpineFilled(ts)
      && (Filled(t) && t.max <= eof ==> AllFilled(ts) && ts != [])
    decreases t, 0
  {
    hide Merge, Keep, SortedEntries, ValidEntries, EntriesByContent, ValidNode, LeafNodes, InternalNodes, UpdateAll, Titled;
    if changes == [] && (t.max <= eof || t.min > eof) {
      if t.max > eof {
        TreeBounds(t);
      }
    } else if t.node.Leaf? {
      LeafFill(env, t, changes, eof);
    } else {
      var level := t.node.level - 1;
      UpdateAllFill(env, t.children, level, changes, eof);
      UpdateAllShape(env, t.children, level, changes, eof);
      UpdateAllTitled(env, t.children, level, changes, eof);
      InternalNodesFill(env, UpdateAll(env, t.children, level, changes, eof).value.trees, level + 1);
    }
  }

  lemma LeafFill(env: Env, t: Tree, changes: seq<Entry>, eof: nat)
    requires CapacityFits(env) && WellFormed(t) && t.node.Leaf? && EntriesByContent(t.node.entries)
    requires SortedEntries(changes) && ValidEntries(changes) && EntriesByContent(changes)
    ensures var made := LeafNodes(env, Applied(t.node.entries, changes, eof));
      && made.Ok? && AllSpineFilled(made.value.trees)
      && (Width(t) >= HALF && t.max <= eof ==> AllFilled(made.value.trees) && made.value.trees != [])
  {
    var entries := t.node.entries;
    FlattenSorted(t);
    AppliedSorted(entries, changes, eof);
    KeepValid(entries, eof);
    MergeValid(Keep(entries, eof), changes);
    LeafNodesFill(env, Applied(entries, changes, eof));
    if t.max <= eof {
      KeepAll(entries, eof);
    }
  }

  lemma {:induction false} UpdateAllFill(env: Env, ts: seq<Tree>, level: nat, changes: seq<Entry>, eof: nat)
    requires CapacityFits(env) && Forest(ts, level) && ts != [] && AllSpineFilled(ts) && AllContent(ts)
    requires SortedEntries(changes) && ValidEntries(changes) && EntriesByContent(changes) && AllAtMost(changes, eof)
    ensures UpdateAll(env, ts, level, changes, eof).Ok?
    ensures var us := UpdateAll(env, ts, level, changes, eof).value.trees;
      && AllSpineFilled(us)
      && (AllFilled(ts) && ts[|ts| - 1].max <= eof ==> AllFilled(us) && |us| >= |ts|)
    decreases ts, 1
  {
    hide Update, SpineFilled, Filled, WellFormed, Forest, ContentTree, SortedEntries, ValidEntries, EntriesByContent, Titled;
    assert AllContent(ts[1..]) && ContentTree(ts[0]) by {
      ContentParts(ts);
    }
    ForestHalves(ts, level, 1);
    ForestAt(ts, level, 0);
    if |ts| == 1 {
      assert changes[..|changes|] == changes;
      UpdateFill(env, ts[0], changes, eof);
      var first := Update(env, ts[0], changes, eof).value.trees;
      assert first + [] == first;
    } else if ts[0].max <= eof {
      var n := Below(changes, ts[0].max);
      ChangesParts(changes, n, eof);
      UpdateFill(env, ts[0], changes[..n], eof) by {
        FilledIsSpineFilled(ts[0]);
      }
      HalvesFilled(ts, 1);
      UpdateAllFill(env, ts[1..], level, changes[n..], eof);
      SpineConcat(Update(env, ts[0], changes[..n], eof).value.trees,
                  UpdateAll(env, ts[1..], level, changes[n..], eof).value.trees);
    } else {
      FilledIsSpineFilled(ts[0]);
      UpdateFill(env, ts[0], changes, eof);
      LastTouched(env, ts, level, changes, eof);
      ForestEnds(ts, level);
    }
  }

  lemma ContentParts(ts: seq<Tree>)
    requires AllContent(ts) && ts != []
    ensures ContentTree(ts[0]) && AllContent(ts[1..])
  {
    hide ContentTree;
  }

  // The changes up to a bound, and the others.
  lemma ChangesParts(changes: seq<Entry>, n: nat, eof: nat)
    requires SortedEntries(changes) && ValidEntries(changes) && EntriesByContent(changes) && AllAtMost(changes, eof) && n <= |changes|
    ensures SortedEntries(changes[..n]) && ValidEntries(changes[..n]) && EntriesByContent(changes[..n]) && AllAtMost(changes[..n], eof)
    ensures SortedEntries(changes[n..]) && ValidEntries(changes[n..]) && EntriesByContent(changes[n..]) && AllAtMost(changes[n..], eof)
  {
    hide ByContent, ValidEntry;
  }

  lemma {:induction false} BelowAll(changes: seq<Entry>, bound: nat)
    requires AllAtMost(changes, bound)
    ensures Below(changes, bound) == |changes|
  {
    if changes != [] {
      BelowAll(changes[1..], bound);
    }
  }

  // Once the first tree reaches past eof it takes every change and the others vanish.
  lemma LastTouched(env: Env, ts: seq<Tree>, level: nat, changes: seq<Entry>, eof: nat)
    requires Forest(ts, level) && |ts| > 1 && ts[0].max > eof && AllAtMost(changes, eof)
    ensures UpdateAll(env, ts, level, changes, eof).Ok? == Update(env, ts[0], changes, eof).Ok?
    ensures Update(env, ts[0], changes, eof).Ok? ==>
      UpdateAll(env, ts, level, changes, eof).value.trees == Update(env, ts[0], changes, eof).value.trees
  {
    BelowAll(changes, ts[0].max);
    ForestSlice(ts, level, 1, |ts|);
    DropsAll(env, ts[1..], level, eof, ts[0].max);
    assert changes[..|changes|] == changes && changes[|changes|..] == [];
  }

  // Trees that start beyond eof vanish.
  lemma {:induction false} DropsAll(env: Env, ts: seq<Tree>, level: nat, eof: nat, bound: nat)
    requires Forest(ts, level) && eof < bound
    requires forall i :: 0 <= i < |ts| ==> ts[i].min > bound
    ensures UpdateAll(env, ts, level, [], eof) == Ok(Built([], map[]))
  {
    if ts != [] {
      TreeBounds(ts[0]);
      ForestSlice(ts, level, 1, |ts|);
      DropsAll(env, ts[1..], level, eof, bound);
      var none: seq<Entry> := [];
      assert none[..0] == none && none[0..] == none && Below(none, ts[0].max) == 0;
      var nothing := Built([], map[]);
      assert Update(env, ts[0], none, eof) == Ok(nothing);
      assert UpdateAll(env, ts[1..], level, none, eof) == Ok(nothing);
      assert nothing.trees + nothing.trees == [] && nothing.artifacts + nothing.artifacts == map[];
    }
  }

  // ----- Height ---------------------------------------------------------------

  lemma {:induction false} FlattenAllCount(ts: seq<Tree>, least: nat)
    requires forall i :: 0 <= i < |ts| ==> |Flatten(ts[i])| >= least
    ensures |FlattenAll(ts)| >= |ts| * least
  {
    if ts != [] {
      FlattenAllCount(ts[1..], least);
      assert |FlattenAll(ts)| == |Flatten(ts[0])| + |FlattenAll(ts[1..])|;
      assert |ts| * least == least + (|ts| - 1) * least;
    }
  }

  lemma {:induction false} FilledCount(t: Tree)
    requires WellFormed(t) && Filled(t)
    ensures |Flatten(t)| >= Pow(HALF, t.Level() + 1)
    decreases t
  {
    if t.node.Internal? {
      var level := t.node.level;
      forall i | 0 <= i < |t.children|
        ensures |Flatten(t.children[i])| >= Pow(HALF, level)
      {
        ForestAt(t.children, level - 1, i);
        FilledCount(t.children[i]);
      }
      FlattenAllCount(t.children, Pow(HALF, level));
      MulGrows(HALF, |t.children|, Pow(HALF, level));
    } else {
      assert Pow(HALF, 1) == HALF * Pow(HALF, 0);
    }
  }

  // A strictly increasing run of pages from 1..hi has at most hi members.
  lemma {:induction false} AscendingCount(s: seq<Entry>, hi: nat)
    requires SortedEntries(s)
    requires forall i :: 0 <= i < |s| ==> 0 < s[i].page <= hi
    ensures |s| <= hi
  {
    if s != [] {
      var n := |s| - 1;
      AscendingCount(s[..n], s[n].page - 1);
    }
  }

  // A collapsed root of a spine-filled tree over pages 1..pages has 64^height <= pages.
  lemma HeightBound(t: Tree, pages: nat)
    requires WellFormed(t) && SpineFilled(t) && t.max <= pages
    requires t.node.Internal? ==> |t.children| >= 2
    ensures Pow(HALF, t.Level()) <= pages
  {
    hide WellFormed, SpineFilled, Flatten, SortedEntries, ValidEntries;
    FlattenSorted(t);
    TreeBounds(t);
    AscendingCount(Flatten(t), pages);
    if t.node.Internal? {
      FirstChildFull(t);
    } else {
      assert Pow(HALF, 0) == 1;
    }
  }

  lemma FirstChildFull(t: Tree)
    requires WellFormed(t) && SpineFilled(t) && t.node.Internal? && |t.children| >= 2
    ensures |Flatten(t)| >= Pow(HALF, t.Level())
  {
    hide Pow, Filled, SpineFilled;
    var first := t.children[0];
    ForestAt(t.children, t.node.level - 1, 0);
    assert Filled(first) by {
      FirstFilled(t);
    }
    FilledCount(first);
    assert FlattenAll(t.children) == Flatten(first) + FlattenAll(t.children[1..]);
  }

  lemma FirstFilled(t: Tree)
    requires SpineFilled(t) && |t.children| >= 2
    ensures Filled(t.children[0])
  {
  }

  // With 64-bit page numbers the height is at most 10, far below the reader's cap.
  lemma HeightAtMostTen(t: Tree, pages: nat)
    requires WellFormed(t) && SpineFilled(t) && t.max <= pages < 0x1_0000_0000_0000_0000
    requires t.node.Internal? ==> |t.children| >= 2
    ensures t.Level() <= 10 < MAX_LEVEL
  {
    HeightBound(t, pages);
    PowEleven();
    if t.Level() > 10 {
      PowGrows(HALF, 11, t.Level());
    }
  }

  lemma PowEleven()
    ensures Pow(HALF, 11) > 0x1_0000_0000_0000_0000
  {
    assert HALF == 64;
    assert Pow(64, 1) == 64 * Pow(64, 0) == 64;
    assert Pow(64, 2) == 64 * Pow(64, 1) == 0x1000;
    assert Pow(64, 3) == 64 * Pow(64, 2) == 0x4_0000;
    assert Pow(64, 4) == 64 * Pow(64, 3) == 0x100_0000;
    assert Pow(64, 5) == 64 * Pow(64, 4) == 0x4000_0000;
    assert Pow(64, 6) == 64 * Pow(64, 5) == 0x10_0000_0000;
    assert Pow(64, 7) == 64 * Pow(64, 6) == 0x400_0000_0000;
    assert Pow(64, 8) == 64 * Pow(64, 7) == 0x1_0000_0000_0000;
    assert Pow(64, 9) == 64 * Pow(64, 8) == 0x40_0000_0000_0000;
    assert Pow(64, 10) == 64 * Pow(64, 9) == 0x1000_0000_0000_0000;
    assert Pow(64, 11) == 64 * Pow(64, 10);
  }
}
