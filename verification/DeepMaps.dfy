// A page map as deep as the reader allows and full along its right spine. It resolves,
// but one page more gives it a level too many: the generation published then is refused.
// The writer's own page maps are never so deep.
module DeepMaps {
  import opened Wrappers
  import opened Objects
  import opened PageMapTree
  import opened PageMapView
  import opened PageMapFill
  import opened PageMapClosure
  import opened PageMapReader
  import opened PagePacks
  import opened RootGrowth
  import opened Persist
  import opened Resolve
  import opened ImagePages
  import opened Generations
  import opened Sessions
  import O = Overlay

  // ----- Pages, each in a pack of its own ---------------------------------------------------

  const Blank: Bytes := O.Zeros(PAGE)

  function PackFor(env: Env, n: pos, page: Bytes): Pack {
    EncodePack(env, [PageWrite(n, page)])
  }

  function EntryFor(env: Env, n: pos, page: Bytes): Entry {
    MappingOf(env, PackFor(env, n, page), PackFor(env, n, page).entries[0])
  }

  function Cell(env: Env, n: pos): Entry {
    EntryFor(env, n, Blank)
  }

  ghost predicate PackNamed(env: Env, e: Entry) {
    exists p: Pack :: e.pack == RefOf(env, PackObject(p))
  }

  lemma EntryIs(env: Env, n: pos, page: Bytes)
    requires |page| == PAGE
    ensures var e := EntryFor(env, n, page);
      && ValidEntry(e) && e.page == n && ByContent(e.pack) && PackNamed(env, e) && e.pack.length == 2 * 64 + PAGE
    ensures Mappings(env, PackFor(env, n, page)) == [EntryFor(env, n, page)]
  {
    var p := PackFor(env, n, page);
    EncodePackValid(env, [PageWrite(n, page)]);
    MappingValid(env, p, 0);
    PayloadLength([PageWrite(n, page)]);
    assert EntryFor(env, n, page).pack == RefOf(env, PackObject(p));
  }

  function Row(env: Env, first: pos, n: nat): (s: seq<Entry>)
    ensures |s| == n && forall i :: 0 <= i < n ==> s[i] == Cell(env, first + i)
  {
    seq(n, i requires 0 <= i < n => Cell(env, first + i))
  }

  lemma RowValid(env: Env, first: pos, n: nat)
    ensures var s := Row(env, first, n);
      SortedEntries(s) && ValidEntries(s) && EntriesByContent(s) && forall i :: 0 <= i < n ==> PackNamed(env, s[i]) && s[i].page == first + i
  {
    hide EntryFor, PackNamed, ValidEntry, ByContent;
    var s := Row(env, first, n);
    forall i | 0 <= i < n
      ensures ValidEntry(s[i]) && s[i].page == first + i && ByContent(s[i].pack) && PackNamed(env, s[i])
    {
      EntryIs(env, first + i, Blank);
    }
  }

  lemma RowJoin(env: Env, first: pos, a: nat, b: nat)
    ensures Row(env, first, a) + Row(env, first + a, b) == Row(env, first, a + b)
  {
    hide Cell;
  }

  // ----- Trees over them --------------------------------------------------------------------

  // Named by content, and no wider than a node may be.
  ghost predicate Proper(env: Env, t: Tree) {
    && t.reference == RefOf(env, NodeObject(t.node)) && Width(t) <= CAPACITY
    && (t.node.Leaf? ==> forall i :: 0 <= i < |t.node.entries| ==> PackNamed(env, t.node.entries[i]))
    && forall i :: 0 <= i < |t.children| ==> Proper(env, t.children[i])
  }

  // A tree, and a run of trees, over `n` pages from `first` on.
  ghost predicate Spans(env: Env, t: Tree, level: nat, first: pos, n: nat) {
    && WellFormed(t) && t.Level() == level && Proper(env, t)
    && Flatten(t) == Row(env, first, n) && t.min == first && t.max + 1 == first + n
  }

  ghost predicate AllSpan(env: Env, ts: seq<Tree>, level: nat, first: pos, n: nat) {
    && Forest(ts, level) && (forall i :: 0 <= i < |ts| ==> Proper(env, ts[i]) && ts[i].max < first + n)
    && FlattenAll(ts) == Row(env, first, n)
    && (ts == [] <==> n == 0) && (ts != [] ==> ts[0].min == first && ts[|ts| - 1].max + 1 == first + n)
  }

  lemma SpanNothing(env: Env, level: nat, first: pos)
    ensures AllSpan(env, [], level, first, 0)
  {
  }

  lemma SpanMore(env: Env, ts: seq<Tree>, t: Tree, level: nat, first: pos, a: nat, b: nat)
    requires AllSpan(env, ts, level, first, a) && Spans(env, t, level, first + a, b) && b > 0
    ensures AllSpan(env, ts + [t], level, first, a + b)
  {
    hide WellFormed, Forest, Proper, Flatten, FlattenAll, Row;
    OneTree(t);
    ForestConcat(ts, [t], level);
    FlattenAllConcat(ts, [t]);
    RowJoin(env, first, a, b);
  }

  function LeafOver(env: Env, first: pos, n: nat): (t: Tree)
    requires 0 < n <= CAPACITY
    ensures Spans(env, t, 0, first, n) && t.node == Leaf(Row(env, first, n))
  {
    RowValid(env, first, n);
    CreateTree(env, Leaf(Row(env, first, n)), []).trees[0]
  }

  function NodeOver(env: Env, children: seq<Tree>, level: nat, ghost first: pos, ghost n: nat): (t: Tree)
    requires level > 0 && AllSpan(env, children, level - 1, first, n) && 0 < |children| <= CAPACITY
    ensures Spans(env, t, level, first, n) && t.children == children && t.node.Internal?
  {
    BranchesValid(children, level - 1);
    CreateTree(env, Internal(level, Branches(children)), children).trees[0]
  }

  // One page under nodes of one child each.
  function Chain(env: Env, n: pos, level: nat): (t: Tree)
    ensures Spans(env, t, level, n, 1)
  {
    if level == 0 then LeafOver(env, n, 1)
    else
      hide Spans, AllSpan;
      SpanNothing(env, level - 1, n);
      SpanMore(env, [], Chain(env, n, level - 1), level - 1, n, 0, 1);
      assert [] + [Chain(env, n, level - 1)] == [Chain(env, n, level - 1)];
      NodeOver(env, [Chain(env, n, level - 1)], level, n, 1)
  }

  function Chains(env: Env, first: pos, n: nat, level: nat): (ts: seq<Tree>)
    ensures |ts| == n && AllSpan(env, ts, level, first, n)
  {
    hide Spans, AllSpan;
    if n == 0 then
      SpanNothing(env, level, first);
      []
    else
      SpanMore(env, Chains(env, first, n - 1, level), Chain(env, first + n - 1, level), level, first, n - 1, 1);
      Chains(env, first, n - 1, level) + [Chain(env, first + n - 1, level)]
  }

  // How many pages fill the right spine.
  function Full(level: nat): nat {
    CAPACITY + (CAPACITY - 1) * level
  }

  // Full nodes along the right spine, chains to the left of it.
  function Deep(env: Env, first: pos, level: nat): (t: Tree)
    ensures Spans(env, t, level, first, Full(level))
    decreases level
  {
    hide Spans, AllSpan;
    if level == 0 then LeafOver(env, first, CAPACITY)
    else
      Spine(env, first, level, Deep(env, first + CAPACITY - 1, level - 1));
      NodeOver(env, Chains(env, first, CAPACITY - 1, level - 1) + [Deep(env, first + CAPACITY - 1, level - 1)], level, first, Full(level))
  }

  lemma Spine(env: Env, first: pos, level: nat, last: Tree)
    requires level > 0 && Spans(env, last, level - 1, first + CAPACITY - 1, Full(level - 1))
    ensures AllSpan(env, Chains(env, first, CAPACITY - 1, level - 1) + [last], level - 1, first, Full(level))
  {
    hide Spans, AllSpan;
    assert Full(level) == CAPACITY - 1 + Full(level - 1);
    SpanMore(env, Chains(env, first, CAPACITY - 1, level - 1), last, level - 1, first, CAPACITY - 1, Full(level - 1));
  }

  lemma {:induction false} ProperContent(env: Env, t: Tree)
    requires WellFormed(t) && Proper(env, t)
    ensures NodeByContent(t.node) && ContentTree(t)
  {
    forall i | 0 <= i < |t.children|
      ensures ContentTree(t.children[i])
    {
      ForestAt(t.children, t.node.level - 1, i);
      ProperContent(env, t.children[i]);
    }
  }

  lemma {:induction false} ProperReadable(env: Env, t: Tree)
    requires CapacityFits(env) && WellFormed(t) && Proper(env, t)
    ensures Readable(t)
  {
    ProperContent(env, t);
    assert Fits(env, t.node);
    forall i | 0 <= i < |t.children|
      ensures Readable(t.children[i])
    {
      ForestAt(t.children, t.node.level - 1, i);
      ProperReadable(env, t.children[i]);
    }
  }

  lemma {:induction false} ProperNamed(env: Env, t: Tree)
    requires WellFormed(t) && Proper(env, t)
    ensures NamedByWriter(env, Reach(t))
    decreases t, 0
  {
    if t.node.Leaf? {
      forall r | r in Reach(t)
        ensures exists o: Object :: !o.CheckpointObject? && r == RefOf(env, o)
      {
        if r != t.reference {
          var i :| 0 <= i < |t.node.entries| && t.node.entries[i].pack == r;
          assert PackNamed(env, t.node.entries[i]);
        }
      }
    } else {
      AllProperNamed(env, t.children, t.node.level - 1);
    }
  }

  lemma {:induction false} AllProperNamed(env: Env, ts: seq<Tree>, level: nat)
    requires Forest(ts, level) && forall i :: 0 <= i < |ts| ==> Proper(env, ts[i])
    ensures NamedByWriter(env, ReachAll(ts))
    decreases ts, 1
  {
    hide Proper;
    if ts != [] {
      ForestAt(ts, level, 0);
      ForestHalves(ts, level, 1);
      ProperNamed(env, ts[0]);
      AllProperNamed(env, ts[1..], level);
    }
  }

  // The objects of a tree's nodes.
  function NodesOf(env: Env, t: Tree): Store
    decreases t, 0
  {
    NodesOfAll(env, t.children)[NameOf(env, NodeObject(t.node)) := NodeObject(t.node)]
  }

  function NodesOfAll(env: Env, ts: seq<Tree>): Store
    decreases ts, 1
  {
    if ts == [] then map[] else NodesOf(env, ts[0]) + NodesOfAll(env, ts[1..])
  }

  lemma {:induction false} NodesStored(env: Env, t: Tree)
    requires CollisionFree(env) && Proper(env, t)
    ensures ContentAddressed(env, NodesOf(env, t)) && Stored(env, NodesOf(env, t), t)
    decreases t, 0
  {
    hide CollisionFree, WellFormed, NodesOfAll;
    AllNodesStored(env, t.children);
    var below, here := NodesOfAll(env, t.children), map[NameOf(env, NodeObject(t.node)) := NodeObject(t.node)];
    ContentAddressedAgree(env, below, here);
    assert NodesOf(env, t) == below + here;
    hide NodesOf, NodesOfAll, ContentAddressed;
    forall i | 0 <= i < |t.children|
      ensures Stored(env, NodesOf(env, t), t.children[i])
    {
      StoredMonotone(env, below, NodesOf(env, t), t.children[i]);
    }
  }

  lemma {:induction false} AllNodesStored(env: Env, ts: seq<Tree>)
    requires CollisionFree(env) && forall i :: 0 <= i < |ts| ==> Proper(env, ts[i])
    ensures ContentAddressed(env, NodesOfAll(env, ts))
    ensures forall i :: 0 <= i < |ts| ==> Stored(env, NodesOfAll(env, ts), ts[i])
    decreases ts, 1
  {
    hide Proper, Stored, CollisionFree, NodesOf, ContentAddressed;
    if ts != [] {
      NodesStored(env, ts[0]);
      AllNodesStored(env, ts[1..]);
      var first, rest := NodesOf(env, ts[0]), NodesOfAll(env, ts[1..]);
      ContentAddressedAgree(env, first, rest);
      forall i | 0 <= i < |ts|
        ensures Stored(env, first + rest, ts[i])
      {
        StoredMonotone(env, if i == 0 then first else rest, first + rest, ts[i]);
      }
    } else {
      assert ContentAddressed(env, map[]) by {
        NothingAddressed(env);
      }
    }
  }

  lemma NothingAddressed(env: Env)
    ensures ContentAddressed(env, map[])
  {
  }

  // ----- One page more --------------------------------------------------------------------------

  lemma LeafHalves(env: Env, s: seq<Entry>)
    requires CapacityFits(env) && SortedEntries(s) && ValidEntries(s) && EntriesByContent(s) && |s| == CAPACITY + 1
    ensures LeafNodes(env, s).Ok? && |LeafNodes(env, s).value.trees| == 2
  {
    var a, b := s[..|s| / 2], s[|s| / 2..];
    assert Fits(env, Leaf(a)) && Fits(env, Leaf(b));
    assert |LeafNodes(env, a).value.trees| == 1 && |LeafNodes(env, b).value.trees| == 1;
  }

  lemma InternalHalves(env: Env, ts: seq<Tree>, level: nat)
    requires CapacityFits(env) && level > 0 && Forest(ts, level - 1) && Titled(ts) && |ts| == CAPACITY + 1
    ensures InternalNodes(env, ts, level).Ok? && |InternalNodes(env, ts, level).value.trees| == 2
  {
    hide Forest, WellFormed, ValidNode, CapacityFits, Branches;
    var mid := |ts| / 2;
    assert mid == CAPACITY / 2 && |ts[mid..]| == CAPACITY / 2 + 1;
    ForestHalves(ts, level - 1, mid);
    OneNode(env, ts[..mid], level);
    OneNode(env, ts[mid..], level);
    BranchesValid(ts, level - 1);
  }

  lemma OneNode(env: Env, ts: seq<Tree>, level: nat)
    requires CapacityFits(env) && level > 0 && Forest(ts, level - 1) && Titled(ts) && 0 < |ts| <= CAPACITY
    ensures InternalNodes(env, ts, level).Ok? && |InternalNodes(env, ts, level).value.trees| == 1
    ensures var t := InternalNodes(env, ts, level).value.trees[0]; t.children == ts && t.Level() == level
  {
    BranchesValid(ts, level - 1);
    assert Fits(env, Internal(level, Branches(ts)));
    hide Forest, WellFormed, ValidNode;
  }

  // Only the last of a run of trees is touched by a page beyond them all.
  lemma {:induction false} UpdateAllLast(env: Env, ts: seq<Tree>, last: Tree, level: nat, e: Entry, eof: nat)
    requires Forest(ts + [last], level) && forall i :: 0 <= i < |ts| ==> ts[i].max < e.page <= eof
    requires WellFormed(last) && Update(env, last, [e], eof).Ok?
    ensures UpdateAll(env, ts + [last], level, [e], eof).Ok?
    ensures UpdateAll(env, ts + [last], level, [e], eof).value.trees == ts + Update(env, last, [e], eof).value.trees
    decreases |ts|
  {
    hide WellFormed, Forest, Update;
    var all, none := ts + [last], Built([], map[]);
    assert [e][..1] == [e] && [e][1..] == [] && [e][..0] == [] && [e][0..] == [e];
    if ts == [] {
      assert all == [last] && all[1..] == [];
      UpdatesNothing(env, level, eof);
    } else {
      assert all[1..] == ts[1..] + [last];
      ForestHalves(all, level, 1);
      UpdateAllLast(env, ts[1..], last, level, e, eof);
      ForestAt(all, level, 0);
      Unchanged(env, ts[0], eof);
      assert Below([e], ts[0].max) == 0;
    }
  }

  lemma UpdatesNothing(env: Env, level: nat, eof: nat)
    ensures Forest([], level) && UpdateAll(env, [], level, [], eof) == Ok(Built([], map[]))
  {
  }

  lemma Unchanged(env: Env, t: Tree, eof: nat)
    requires WellFormed(t) && t.max <= eof
    ensures Update(env, t, [], eof) == Ok(Built([t], map[]))
  {
  }

  // It splits every node of the right spine.
  lemma {:induction false} DeepSplits(env: Env, first: pos, level: nat, e: Entry, eof: nat)
    requires CapacityFits(env) && ValidEntry(e) && ByContent(e.pack) && e.page == first + Full(level) <= eof
    ensures WellFormed(Deep(env, first, level)) && Update(env, Deep(env, first, level), [e], eof).Ok?
    ensures |Update(env, Deep(env, first, level), [e], eof).value.trees| == 2
    decreases level
  {
    hide *;
    if level == 0 {
      LeafSplits(env, first, e, eof);
    } else {
      DeepSplits(env, first + CAPACITY - 1, level - 1, e, eof) by {
        FullLess(level);
      }
      NodeSplits(env, first, level, e, eof);
    }
  }

  lemma FullLess(level: nat)
    requires level > 0
    ensures CAPACITY > 1 && Full(level) == CAPACITY - 1 + Full(level - 1)
  {
  }

  lemma LeafSplits(env: Env, first: pos, e: Entry, eof: nat)
    requires CapacityFits(env) && ValidEntry(e) && ByContent(e.pack) && e.page == first + Full(0) <= eof
    ensures WellFormed(Deep(env, first, 0)) && Update(env, Deep(env, first, 0), [e], eof).Ok?
    ensures |Update(env, Deep(env, first, 0), [e], eof).value.trees| == 2
  {
    hide WellFormed, Update, Flatten, ValidEntry, ByContent, CapacityFits, LeafNodes, Row, Proper, Deep;
    SpansTree(env, Deep(env, first, 0), 0, first, Full(0));
    RowValid(env, first, CAPACITY);
    AppendedEntry(Row(env, first, CAPACITY), e, eof);
    LeafHalves(env, Row(env, first, CAPACITY) + [e]);
    RewritesLeaf(env, first, e, eof);
  }

  lemma NodeSplits(env: Env, first: pos, level: nat, e: Entry, eof: nat)
    requires level > 0 && CapacityFits(env) && ValidEntry(e) && e.page == first + Full(level) <= eof
    requires var rest := Deep(env, first + CAPACITY - 1, level - 1);
      WellFormed(rest) && Update(env, rest, [e], eof).Ok? && |Update(env, rest, [e], eof).value.trees| == 2
    ensures WellFormed(Deep(env, first, level)) && Update(env, Deep(env, first, level), [e], eof).Ok?
    ensures |Update(env, Deep(env, first, level), [e], eof).value.trees| == 2
  {
    hide WellFormed, Forest, Update, UpdateAll, Flatten, FlattenAll, ValidEntry, CapacityFits, Row, Proper, Spans, AllSpan, Deep, Chains;
    var chains, rest := Chains(env, first, CAPACITY - 1, level - 1), Deep(env, first + CAPACITY - 1, level - 1);
    SpansTree(env, Deep(env, first, level), level, first, Full(level));
    DeepIs(env, first, level);
    Spine(env, first, level, rest);
    SpansRun(env, chains, rest, level - 1, first, CAPACITY - 1, Full(level));
    UpdateAllLast(env, chains, rest, level - 1, e, eof);
    SpineSplits(env, Deep(env, first, level), chains, rest, level, e, eof);
  }

  lemma DeepIs(env: Env, first: pos, level: nat)
    requires level > 0
    ensures Deep(env, first, level).node.Internal?
    ensures Deep(env, first, level).children == Chains(env, first, CAPACITY - 1, level - 1) + [Deep(env, first + CAPACITY - 1, level - 1)]
  {
    hide Spans, AllSpan, Chains;
  }

  lemma SpansTree(env: Env, t: Tree, level: nat, first: pos, n: nat)
    requires Spans(env, t, level, first, n)
    ensures WellFormed(t) && t.Level() == level && t.max + 1 == first + n
  {
  }

  lemma SpansRun(env: Env, ts: seq<Tree>, last: Tree, level: nat, first: pos, n: nat, all: nat)
    requires AllSpan(env, ts, level, first, n) && AllSpan(env, ts + [last], level, first, all)
    ensures Forest(ts + [last], level) && Titled(ts) && forall i :: 0 <= i < |ts| ==> ts[i].max < first + n
  {
    hide Forest, FlattenAll, Row;
    forall i | 0 <= i < |ts|
      ensures ByContent(ts[i].reference)
    {
      assert Proper(env, ts[i]);
    }
  }

  lemma RewritesLeaf(env: Env, first: pos, e: Entry, eof: nat)
    requires WellFormed(Deep(env, first, 0))
    ensures Update(env, Deep(env, first, 0), [e], eof) == LeafNodes(env, Merge(Keep(Row(env, first, CAPACITY), eof), [e]))
  {
    hide LeafNodes, Merge, Keep, Row;
  }

  lemma AppendedEntry(s: seq<Entry>, e: Entry, eof: nat)
    requires SortedEntries(s) && ValidEntries(s) && EntriesByContent(s) && ValidEntry(e) && ByContent(e.pack)
    requires s != [] && s[|s| - 1].page < e.page <= eof
    ensures Merge(Keep(s, eof), [e]) == s + [e]
    ensures SortedEntries(s + [e]) && ValidEntries(s + [e]) && EntriesByContent(s + [e])
  {
    hide ValidEntry, ByContent, Keep, Merge;
    KeepAll(s, eof);
    MergeAppended(s, e);
  }

  lemma {:induction false} MergeAppended(s: seq<Entry>, e: Entry)
    requires forall i :: 0 <= i < |s| ==> s[i].page < e.page
    ensures Merge(s, [e]) == s + [e]
    decreases |s|
  {
    if s == [] {
      assert Merge([], [e]) == [e] + Merge([], [e][1..]) && [e][1..] == [];
    } else {
      MergeAppended(s[1..], e);
      assert [s[0]] + (s[1..] + [e]) == s + [e];
    }
  }

  lemma SpineSplits(env: Env, t: Tree, chains: seq<Tree>, rest: Tree, level: nat, e: Entry, eof: nat)
    requires CapacityFits(env) && level > 0 && WellFormed(t) && t.node.Internal? && t.Level() == level && t.children == chains + [rest]
    requires WellFormed(rest) && |chains| == CAPACITY - 1 && Titled(chains) && Forest(chains + [rest], level - 1) && t.max < e.page <= eof
    requires SortedEntries([e]) && Update(env, rest, [e], eof).Ok? && |Update(env, rest, [e], eof).value.trees| == 2
    requires UpdateAll(env, t.children, level - 1, [e], eof).Ok?
    requires UpdateAll(env, t.children, level - 1, [e], eof).value.trees == chains + Update(env, rest, [e], eof).value.trees
    ensures Update(env, t, [e], eof).Ok? && |Update(env, t, [e], eof).value.trees| == 2
  {
    hide WellFormed, Forest, UpdateAll, InternalNodes, CapacityFits, Applied;
    ForestAt(chains + [rest], level - 1, |chains|);
    var below := UpdateAll(env, t.children, level - 1, [e], eof).value.trees;
    UpdateTitled(env, rest, [e], eof);
    UpdateAllShape(env, t.children, level - 1, [e], eof);
    InternalHalves(env, below, level);
    RewritesNode(env, t, e, eof);
  }

  lemma RewritesNode(env: Env, t: Tree, e: Entry, eof: nat)
    requires WellFormed(t) && t.node.Internal? && t.node.level > 0 && UpdateAll(env, t.children, t.node.level - 1, [e], eof).Ok?
    requires InternalNodes(env, UpdateAll(env, t.children, t.node.level - 1, [e], eof).value.trees, t.node.level).Ok?
    ensures Update(env, t, [e], eof).Ok?
    ensures Update(env, t, [e], eof).value.trees
         == InternalNodes(env, UpdateAll(env, t.children, t.node.level - 1, [e], eof).value.trees, t.node.level).value.trees
  {
    hide InternalNodes, UpdateAll;
  }

  // ----- How much a tree reaches -----------------------------------------------------------

  // Every node has an entry below it.
  lemma {:induction false} ReachCount(t: Tree)
    requires WellFormed(t)
    ensures |Reach(t)| <= (t.Level() + 2) * |Flatten(t)| && |Flatten(t)| > 0
    decreases t, 0
  {
    FlattenSorted(t);
    if t.node.Leaf? {
      PacksCount(t.node.entries);
      Grows(t.reference, Packs(t.node.entries), |t.node.entries|);
      assert 2 * |Flatten(t)| >= |Flatten(t)| + 1;
    } else {
      ReachAllCount(t.children, t.node.level - 1);
      Grows(t.reference, ReachAll(t.children), (t.Level() + 1) * |Flatten(t)|);
      assert (t.Level() + 2) * |Flatten(t)| == (t.Level() + 1) * |Flatten(t)| + |Flatten(t)|;
    }
  }

  lemma {:induction false} ReachAllCount(ts: seq<Tree>, level: nat)
    requires Forest(ts, level)
    ensures |ReachAll(ts)| <= (level + 2) * |FlattenAll(ts)|
    decreases ts, 1
  {
    hide WellFormed, Forest, Reach, Flatten;
    if ts != [] {
      ForestAt(ts, level, 0);
      ForestHalves(ts, level, 1);
      ReachCount(ts[0]);
      ReachAllCount(ts[1..], level);
      Distributes(level + 2, |Flatten(ts[0])|, |FlattenAll(ts[1..])|);
      UnionCount(Reach(ts[0]), ReachAll(ts[1..]));
    }
  }

  lemma Distributes(a: nat, b: nat, c: nat)
    ensures a * (b + c) == a * b + a * c
  {
  }

  lemma Grows(r: Reference, refs: set<Reference>, n: nat)
    requires |refs| <= n
    ensures |{r} + refs| <= n + 1
  {
    UnionCount({r}, refs);
  }

  lemma UnionCount<T>(a: set<T>, b: set<T>)
    ensures |a + b| <= |a| + |b|
  {
    assert a + b == a + (b - a) && |b - a| <= |b| by {
      SubsetCount(b - a, b);
    }
  }

  lemma {:induction false} SubsetCount<T>(a: set<T>, b: set<T>)
    requires a <= b
    ensures |a| <= |b|
    decreases |a|
  {
    if a != {} {
      var x :| x in a;
      SubsetCount(a - {x}, b - {x});
    }
  }

  lemma {:induction false} PacksCount(s: seq<Entry>)
    ensures |Packs(s)| <= |s|
  {
    if s != [] {
      var last := |s| - 1;
      PacksCount(s[..last]);
      assert Packs(s) == {s[last].pack} + Packs(s[..last]);
      Grows(s[last].pack, Packs(s[..last]), last);
    }
  }

  lemma {:induction false} TotalAtMost(refs: set<Reference>, most: nat)
    requires forall r :: r in refs ==> r.length <= most
    ensures TotalLength(refs) <= |refs| * most
    decreases |refs|
  {
    if refs != {} {
      var r :| r in refs && TotalLength(refs) == r.length + TotalLength(refs - {r});
      TotalAtMost(refs - {r}, most);
      assert |refs| * most == most + (|refs| - 1) * most;
    }
  }

  // Nodes are readable, and packs as long as their entries say.
  lemma {:induction false} ReachLengths(t: Tree, r: Reference)
    requires WellFormed(t) && Readable(t) && r in Reach(t)
    requires forall e :: e in Flatten(t) ==> e.pack.length <= MAX_NODE_BYTES
    ensures r.length <= MAX_NODE_BYTES
    decreases t, 0
  {
    if r != t.reference {
      if t.node.Leaf? {
        var i :| 0 <= i < |t.node.entries| && t.node.entries[i].pack == r;
        assert t.node.entries[i] in Flatten(t);
      } else {
        ReachAllLengths(t.children, t.node.level - 1, r);
      }
    }
  }

  lemma {:induction false} ReachAllLengths(ts: seq<Tree>, level: nat, r: Reference)
    requires Forest(ts, level) && (forall i :: 0 <= i < |ts| ==> Readable(ts[i])) && r in ReachAll(ts)
    requires forall e :: e in FlattenAll(ts) ==> e.pack.length <= MAX_NODE_BYTES
    ensures r.length <= MAX_NODE_BYTES
    decreases ts, 1
  {
    hide WellFormed, Forest, Readable, Reach, Flatten;
    ForestAt(ts, level, 0);
    ForestHalves(ts, level, 1);
    assert forall e :: e in Flatten(ts[0]) || e in FlattenAll(ts[1..]) ==> e in FlattenAll(ts);
    if r in Reach(ts[0]) {
      ReachLengths(ts[0], r);
    } else {
      ReachAllLengths(ts[1..], level, r);
    }
  }

  // ----- A parent as deep as the reader allows ------------------------------------------------

  const PAGES: nat := 0x1000_0000
  const LAST: nat := Full(MAX_LEVEL)

  function BlankImage(): (image: Bytes)
    ensures |image| == PAGES * PAGE
  {
    O.Zeros(PAGES * PAGE)
  }

  function Marked(): (page: Bytes)
    ensures |page| == PAGE
  {
    seq(PAGE, _ => 1)
  }

  // A blank image whose first pages are all mapped, by a map as deep as the reader allows.
  ghost predicate DeepIn(env: Env, store: Store, gen: Generation, level: nat) {
    && ResolveBytes(env, store, gen) == Ok(BlankImage()) && gen.pageSize == PAGE
    && level == MAX_LEVEL && LoadMap(env, store, gen) == Ok(Some(Deep(env, 1, level)))
  }

  // The session that writes the page after the last mapped one.
  function OnePageMore(): seq<O.Op> {
    [O.Write(LAST + 1, Marked())]
  }

  lemma OneWrite(env: Env, n: pos, page: Bytes, eof: nat)
    requires |page| == PAGE && n <= eof
    ensures WritePacks(env, [PageWrite(n, page)], eof).Ok?
    ensures WritePacks(env, [PageWrite(n, page)], eof).value.0 == [EntryFor(env, n, page)]
  {
    var ws := [PageWrite(n, page)];
    EntryIs(env, n, page);
    assert ChunkSize(ws) == 1 && ws[..1] == ws && ws[1..] == [];
    assert WritePacks(env, [], eof) == Ok(([], map[]));
    hide EncodePack;
  }

  lemma {:induction false} ListingNone(m: map<nat, Bytes>, k: nat, hi: nat)
    requires m.Keys == {k} && hi < k
    ensures Listing(m, hi) == []
  {
    if hi > 0 {
      ListingNone(m, k, hi - 1);
    }
  }

  lemma {:induction false} ListingOne(m: map<nat, Bytes>, k: nat, hi: nat)
    requires m.Keys == {k} && 0 < k <= hi
    ensures Listing(m, hi) == [PageWrite(k, m[k])]
  {
    if hi == k {
      ListingNone(m, k, hi - 1);
    } else {
      ListingOne(m, k, hi - 1);
    }
  }

  lemma PageOffset(n: nat, j: nat)
    requires 0 < n && j < PAGE
    ensures ((n - 1) * PAGE + j) / PAGE == n - 1 && ((n - 1) * PAGE + j) % PAGE == j
  {
  }

  lemma MarkedPage(n: nat)
    requires 0 < n && n * PAGE <= PAGES * PAGE
    ensures var after := O.Written(BlankImage(), LAST + 1, Marked());
      |after| == PAGES * PAGE && O.Page(after, n) == if n == LAST + 1 then Marked() else O.Page(BlankImage(), n)
  {
    var after := O.Written(BlankImage(), LAST + 1, Marked());
    assert (LAST + 1) * PAGE <= PAGES * PAGE;
    O.WrittenBytes(BlankImage(), LAST + 1, Marked());
    hide O.Written;
    var want := if n == LAST + 1 then Marked() else O.Page(BlankImage(), n);
    forall j | 0 <= j < PAGE
      ensures O.Page(after, n)[j] == want[j]
    {
      PageOffset(n, j);
      assert O.Page(after, n)[j] == after[(n - 1) * PAGE + j];
    }
  }

  lemma MarkedImage()
    ensures var after := O.Run(BlankImage(), OnePageMore());
      && |after| == PAGES * PAGE && O.Accepted(OnePageMore()[0])
      && ChangedPages(BlankImage(), after) == [PageWrite(LAST + 1, Marked())]
  {
    var before, after := BlankImage(), O.Run(BlankImage(), OnePageMore());
    assert OnePageMore()[..0] == [];
    assert O.Run(before, []) == before;
    assert after == O.Written(before, LAST + 1, Marked());
    MarkedPage(LAST + 1);
    hide O.Written, O.Run, Marked, BlankImage;
    forall n | 0 < n && n * PAGE <= PAGES * PAGE
      ensures O.SamePage(before, after, n) <==> n != LAST + 1
    {
      MarkedPage(n);
      if n == LAST + 1 {
        BlankIsNotMarked();
      }
    }
    var d := O.Difference(before, after);
    assert LAST + 1 in d;
    assert d.Keys == {LAST + 1} && d[LAST + 1] == Marked();
    ListingOne(d, LAST + 1, PAGES);
  }

  lemma BlankIsNotMarked()
    ensures (LAST + 1) * PAGE <= |BlankImage()| && O.Page(BlankImage(), LAST + 1) != Marked()
  {
    assert O.Page(BlankImage(), LAST + 1)[0] == BlankImage()[LAST * PAGE] == 0;
  }

  // Two roots get one root above them.
  lemma GrowTwo(env: Env, ts: seq<Tree>, level: nat)
    requires CapacityFits(env) && PairsFit(env) && Forest(ts, level) && Raisable(ts) && |ts| == 2
    ensures var g := Grow(env, ts, level);
      g.Ok? && |g.value.trees| == 1 && g.value.trees[0].Level() == level + 1 && g.value.trees[0].children == ts
  {
    hide WellFormed, Forest, InternalNodes, CapacityFits, PairsFit;
    OneNode(env, ts, level + 1);
    GrowUnfold(env, ts, level);
    GrowNothing(env, InternalNodes(env, ts, level + 1).value.trees, level + 1);
  }

  // A tree of two roots gets a level more, ...
  lemma SplitCandidate(env: Env, d: Tree, e: Entry, ws: seq<PageWrite>)
    requires CapacityFits(env) && PairsFit(env) && CollisionFree(env) && SortedWrites(ws) && WellFormed(d)
    requires WritePacks(env, ws, PAGES).Ok? && WritePacks(env, ws, PAGES).value.0 == [e]
    requires Update(env, d, [e], PAGES).Ok? && |Update(env, d, [e], PAGES).value.trees| == 2
    ensures var c := Candidate(env, Some(d), ws, PAGES);
      c.Ok? && |c.value.trees| == 1 && c.value.trees[0].Level() == d.Level() + 1 && |c.value.trees[0].children| == 2
  {
    hide WellFormed, Forest, Update, Grow, WritePacks, CapacityFits, PairsFit, CollisionFree;
    assert SortedEntries([e]);
    NewRootsForest(env, Some(d), [e], PAGES);
    GrowTwo(env, Update(env, d, [e], PAGES).value.trees, d.Level());
  }

  ghost predicate DeepStored(env: Env, store: Store, level: nat) {
    ParentIn(env, store, Some(Deep(env, 1, level)))
  }

  function LastWrite(): (ws: seq<PageWrite>)
    ensures SortedWrites(ws) && |ws| == 1
  {
    [PageWrite(LAST + 1, Marked())]
  }

  // What the session's draft is made from.
  ghost function DeepBuilt(env: Env, level: nat): Result<Built>
    requires PairsFit(env) && CollisionFree(env)
  {
    hide Proper, WellFormed, PairsFit, CollisionFree, Flatten, SortedWrites;
    Candidate(env, Some(Deep(env, 1, level)), LastWrite(), PAGES)
  }

  predicate Builds(made: Result<Built>, root: Tree) {
    made.Ok? && made.value.trees == [root]
  }

  // ... so the map of the session's draft is too deep for the reader.
  lemma DeepCandidate(env: Env, level: nat)
    requires CapacityFits(env) && PairsFit(env) && CollisionFree(env) && level == MAX_LEVEL
    ensures var c := DeepBuilt(env, level);
      c.Ok? && |c.value.trees| == 1 && c.value.trees[0].Level() == level + 1 && |c.value.trees[0].children| == 2
  {
    hide WellFormed, Update, Candidate, Deep, WritePacks, CapacityFits, PairsFit, CollisionFree, EntryFor, ValidEntry, Marked, Spans;
    var d, e := Deep(env, 1, level), EntryFor(env, LAST + 1, Marked());
    EntryIs(env, LAST + 1, Marked());
    OneWrite(env, LAST + 1, Marked(), PAGES);
    DeepSplits(env, 1, level, e, PAGES);
    SpansTree(env, d, level, 1, Full(level));
    SplitCandidate(env, d, e, LastWrite());
  }

  // What its root reaches is less than the image.
  lemma DeepReach(env: Env, store: Store, level: nat)
    requires CapacityFits(env) && PairsFit(env) && CollisionFree(env) && level == MAX_LEVEL
    requires DeepStored(env, store, level)
    ensures var c := DeepBuilt(env, level);
      c.Ok? && |c.value.trees| == 1 && Unambiguous(Reach(c.value.trees[0])) && TotalLength(Reach(c.value.trees[0])) < PAGES * PAGE
  {
    hide DeepBuilt, DeepStored, Reach, TotalLength, Unambiguous, CapacityFits, PairsFit, CollisionFree, WellFormed, Readable, Flatten;
    DeepCandidate(env, level);
    var root := DeepBuilt(env, level).value.trees[0];
    RootNamed(env, store, level, root);
    RootEntries(env, store, level, root);
    RootTotal(root, level);
  }

  lemma RootTotal(root: Tree, level: nat)
    requires WellFormed(root) && Readable(root) && root.Level() == level + 1 == MAX_LEVEL + 1 && |Flatten(root)| == LAST + 1
    requires forall e :: e in Flatten(root) ==> e.pack.length <= MAX_NODE_BYTES
    ensures TotalLength(Reach(root)) < PAGES * PAGE
  {
    hide WellFormed, Readable, Flatten, Reach, TotalLength;
    ReachCount(root);
    forall r | r in Reach(root)
      ensures r.length <= MAX_NODE_BYTES
    {
      ReachLengths(root, r);
    }
    TotalAtMost(Reach(root), MAX_NODE_BYTES);
    assert |Reach(root)| <= (MAX_LEVEL + 3) * (LAST + 1);
  }

  lemma RootNamed(env: Env, store: Store, level: nat, root: Tree)
    requires CapacityFits(env) && PairsFit(env) && CollisionFree(env) && level == MAX_LEVEL
    requires DeepStored(env, store, level)
    requires Builds(DeepBuilt(env, level), root) && |root.children| == 2
    ensures Unambiguous(Reach(root))
  {
    hide WellFormed, Stored, Readable, Candidate, Deep, CapacityFits, PairsFit, CollisionFree, Proper, Reach, Unambiguous, NamedByWriter;
    var d := Deep(env, 1, level);
    ProperNamed(env, d);
    assert ReachOf(Some(d)) == Reach(d);
    CandidateNamed(env, store, Some(d), LastWrite(), PAGES);
    NamedUnambiguous(env, Reach(root));
  }

  lemma RootEntries(env: Env, store: Store, level: nat, root: Tree)
    requires CapacityFits(env) && PairsFit(env) && CollisionFree(env) && level == MAX_LEVEL
    requires DeepStored(env, store, level)
    requires Builds(DeepBuilt(env, level), root)
    ensures WellFormed(root) && Readable(root) && |Flatten(root)| == LAST + 1
    ensures forall e :: e in Flatten(root) ==> e.pack.length <= MAX_NODE_BYTES
  {
    hide WellFormed, Readable, Stored, Candidate, Deep, CapacityFits, PairsFit, CollisionFree, Marked, WritePacks, Proper, Closed,
      Keep, Merge, EntryFor, ValidEntry, ByContent, Cell;
    var d, e := Deep(env, 1, level), EntryFor(env, LAST + 1, Marked());
    EntryIs(env, LAST + 1, Marked());
    OneWrite(env, LAST + 1, Marked(), PAGES);
    CandidateShape(env, Some(d), LastWrite(), PAGES);
    CandidateClosed(env, store, Some(d), LastWrite(), PAGES);
    RowValid(env, 1, LAST);
    AppendedEntry(Row(env, 1, LAST), e, PAGES);
    assert Flatten(d) == Row(env, 1, LAST);
    OneTree(root);
    assert Flatten(root) == Row(env, 1, LAST) + [e];
    forall x | x in Flatten(root)
      ensures x.pack.length <= MAX_NODE_BYTES
    {
      if x != e {
        var i :| 0 <= i < LAST && Row(env, 1, LAST)[i] == x;
        CellLength(env, 1 + i);
      }
    }
  }

  lemma CellLength(env: Env, n: pos)
    ensures Cell(env, n).pack.length <= MAX_NODE_BYTES
  {
    EntryIs(env, n, Blank);
  }

  // The session can be committed, and the generation published for it is too deep.
  lemma DeepSession(env: Env, store: Store, gen: Generation, level: nat)
    requires Capable(env) && DeepIn(env, store, gen, level)
    ensures var after := O.Run(BlankImage(), OnePageMore());
      && Committable(env, store, gen, OnePageMore())
      && forall next :: Chosen(gen, Draft(env, store, gen, BlankImage(), after).value, after, next) ==> !Shallow(next)
  {
    hide ResolveBytes, LoadMap, PersistImage, O.Difference, O.Run, O.Accepted, BlankImage, Deep, Candidate, Collapse, Reach, Unambiguous, TotalLength,
      CollisionFree, CapacityFits, PairsFit, Spans, ChangedPages, WellFormed, Stored, Readable, OnePageMore, Select;
    var after := O.Run(BlankImage(), OnePageMore());
    CapacityFitsPairs(env);
    MarkedImage();
    LoadedHere(env, store, gen);
    SoundHere();
    assert Session(env, store, gen, BlankImage(), after);
    DeepCandidate(env, level);
    DeepReach(env, store, level);
    DeepFinish(env, store, gen, level, after);
  }

  lemma SoundHere()
    ensures Sound(BlankImage(), OnePageMore())
  {
    hide O.Run, BlankImage, Marked;
    MarkedImage();
    assert |OnePageMore()| == 1;
  }

  lemma DeepFinish(env: Env, store: Store, gen: Generation, level: nat, after: Bytes)
    requires DeepIn(env, store, gen, level) && Session(env, store, gen, BlankImage(), after) && |after| == PAGES * PAGE
    requires ChangedPages(BlankImage(), after) == LastWrite()
    requires var c := DeepBuilt(env, level);
      && c.Ok? && |c.value.trees| == 1 && c.value.trees[0].Level() == level + 1 && |c.value.trees[0].children| == 2
      && Unambiguous(Reach(c.value.trees[0])) && TotalLength(Reach(c.value.trees[0])) < PAGES * PAGE
    ensures var p := Draft(env, store, gen, BlankImage(), after);
      p.Ok? && p.value.root.Some? && p.value.root.value.Level() == MAX_LEVEL + 1 && p.value.reachableBytes < |after|
  {
    hide ResolveBytes, LoadMap, BlankImage, Deep, Candidate, Reach, Unambiguous, TotalLength, CollisionFree, PairsFit,
      Spans, ChangedPages, WellFormed, Stored, Readable, Select, LastWrite;
    var root := DeepBuilt(env, level).value.trees[0];
    assert Collapse(root) == root;
    assert Eof(after) == PAGES;
    assert TreeIn(env, store, gen) == Some(Deep(env, 1, level));
  }

  // The packs of the first pages.
  function PacksOf(env: Env, n: nat): Store {
    if n == 0 then map[]
    else
      var o := PackObject(PackFor(env, n, Blank));
      PacksOf(env, n - 1)[NameOf(env, o) := o]
  }

  lemma {:induction false} PacksHold(env: Env, n: nat, k: pos)
    requires CollisionFree(env) && k <= n
    ensures var o := PackObject(PackFor(env, k, Blank)); Holds(env, PacksOf(env, n), RefOf(env, o), o)
    decreases n
  {
    hide EncodePack, PackFor;
    if k < n {
      PacksHold(env, n - 1, k);
    }
  }

  lemma {:induction false} PacksAddressed(env: Env, n: nat)
    ensures ContentAddressed(env, PacksOf(env, n))
  {
    hide PackFor;
    if n > 0 {
      PacksAddressed(env, n - 1);
    }
  }

  lemma CellReads(env: Env, store: Store, k: pos)
    requires CollisionFree(env) && k <= LAST && Extends(PacksOf(env, LAST), store)
    ensures ReadPage(env, store, PAGE, Cell(env, k)) == Ok(Blank)
  {
    hide ReadPage, PacksOf, EncodePack, ValidEntry, PackNamed;
    var o := PackObject(PackFor(env, k, Blank));
    PacksHold(env, LAST, k);
    EntryIs(env, k, Blank);
    assert Holds(env, store, RefOf(env, o), o);
    PackRoundTrip(env, [PageWrite(k, Blank)], store, 0);
  }

  ghost predicate DeepObjects(env: Env, store: Store, level: nat) {
    Extends(PacksOf(env, LAST), store) && Extends(NodesOf(env, Deep(env, 1, level)), store)
  }

  // The deep map over a checkpoint.
  function DeepOver(env: Env, base: Generation, level: nat): Generation {
    base.(pageMap := Some(MapRoot(Deep(env, 1, level).reference, level)))
  }

  // Over a blank checkpoint the deep map resolves to a blank image.
  lemma DeepResolves(env: Env, store: Store, base: Generation, known: Store, level: nat, gen: Generation)
    requires CapacityFits(env) && CollisionFree(env) && level == MAX_LEVEL
    requires ResolveBytes(env, known, base) == Ok(BlankImage()) && base.pageMap.None? && base.pageSize == PAGE
    requires Extends(known, store) && DeepObjects(env, store, level) && gen == DeepOver(env, base, level)
    ensures DeepIn(env, store, gen, level)
  {
    hide ResolveBytes, ReadBase, LoadMap, MapEntries, BlankImage, Deep, Spans, WellFormed, Stored, Readable, Proper, PacksOf, NodesOf,
      CapacityFits, CollisionFree, Supplied, PagesReadable, Contents, Row, ContentAddressed, Extends;
    var d := Deep(env, 1, level);
    DeepShape(env, level);
    NodesStored(env, d);
    StoredMonotone(env, NodesOf(env, d), store, d);
    ProperReadable(env, d);
    BlankBase(env, known, base);
    BaseStays(env, known, base, store, gen);
    RootLoads(env, store, d, gen);
    DeepPages(env, store, level);
    ResolvesTo(env, store, gen, d, BlankImage(), BlankImage());
  }

  lemma DeepShape(env: Env, level: nat)
    requires level == MAX_LEVEL
    ensures var d := Deep(env, 1, level);
      WellFormed(d) && d.Level() == level && Proper(env, d) && Flatten(d) == Row(env, 1, LAST) && d.max <= PAGES
  {
    hide WellFormed, Proper, Flatten, Row, Deep;
    assert Spans(env, Deep(env, 1, level), level, 1, LAST);
  }

  lemma BlankBase(env: Env, known: Store, base: Generation)
    requires ResolveBytes(env, known, base) == Ok(BlankImage()) && base.pageMap.None? && base.pageSize == PAGE
    ensures ReadBase(env, known, base) == Ok(BlankImage()) && base.pageCount == PAGES
  {
    hide ReadBase, BlankImage, Assemble, Contents, PagesReadable, Supplied;
    Resolved(env, known, base);
    var b := ReadBase(env, known, base).value;
    NoMapLength(env, known, base);
    assert MapEntries(TreeIn(env, known, base), base.pageCount) == [];
    assert Contents(env, known, PAGE, []) == map[] by {
      NoContents(env, known);
    }
    WholeBase(b);
  }

  lemma NoContents(env: Env, store: Store)
    ensures Contents(env, store, PAGE, []) == map[]
  {
  }

  lemma NoMapLength(env: Env, store: Store, gen: Generation)
    requires ReadBase(env, store, gen).Ok? && gen.pageMap.None?
    ensures |ReadBase(env, store, gen).value| == gen.pageCount * gen.pageSize
  {
  }

  lemma WholeBase(b: Bytes)
    ensures Assemble(PAGE, b, map[], |b|) == b
  {
  }

  lemma DeepPages(env: Env, store: Store, level: nat)
    requires CollisionFree(env) && level == MAX_LEVEL && Extends(PacksOf(env, LAST), store)
    ensures var s := Row(env, 1, LAST);
      && SortedEntries(s) && PagesReadable(env, store, PAGE, s) && Supplied(s, |BlankImage()| / PAGE, PAGES)
      && Assemble(PAGE, BlankImage(), Contents(env, store, PAGE, s), PAGES * PAGE) == BlankImage()
  {
    hide ReadPage, PacksOf, Contents, Supplied, Extends, Assemble, PagesReadable, Row, BlankImage, SortedEntries, ValidEntries, EntriesByContent, CollisionFree;
    var s := Row(env, 1, LAST);
    RowValid(env, 1, LAST);
    RowReads(env, store);
    SuppliedExact(s, PAGES, PAGES);
    BlankPages(Contents(env, store, PAGE, s));
  }

  lemma RowReads(env: Env, store: Store)
    requires CollisionFree(env) && Extends(PacksOf(env, LAST), store)
    ensures var s := Row(env, 1, LAST);
      && PagesReadable(env, store, PAGE, s) && Bounded(s, PAGES)
      && forall n :: n in Contents(env, store, PAGE, s) ==> Contents(env, store, PAGE, s)[n] == Blank
  {
    hide ReadPage, PacksOf, Contents, Extends, Cell, EntriesByContent, ValidEntries, CollisionFree, PackNamed;
    var s := Row(env, 1, LAST);
    RowValid(env, 1, LAST);
    forall i | 0 <= i < |s|
      ensures ReadPage(env, store, PAGE, s[i]) == Ok(Blank)
    {
      CellReads(env, store, 1 + i);
    }
    ContentsMap(env, store, PAGE, s);
    forall n | n in Contents(env, store, PAGE, s)
      ensures Contents(env, store, PAGE, s)[n] == Blank
    {
      var i :| 0 <= i < |s| && s[i] == AsMap(s)[n];
    }
  }

  lemma BlankPages(pages: map<nat, Bytes>)
    requires forall n :: n in pages ==> pages[n] == Blank && |pages[n]| == PAGE
    ensures Assemble(PAGE, BlankImage(), pages, PAGES * PAGE) == BlankImage()
  {
  }

  // Such a parent exists in some store, ...
  method DeepParent(env: Env, store: ObjectStore, name: nat, level: nat) returns (gen: Generation)
    requires Capable(env) && Ready(env, store.objects, name) && level == MAX_LEVEL
    modifies store
    ensures Extends(old(store.objects), store.objects) && WellNamed(env, store.objects)
    ensures forall u :: u in store.objects && u.OtherUri? ==> u in old(store.objects) || u == OtherUri(name)
    ensures DeepIn(env, store.objects, gen, level)
  {
    hide ResolveBytes, WriterMade, WellNamed, CapacityFits, CollisionFree, BlankImage, Deep, DeepIn, PacksOf, NodesOf, Spans, Extends, ContentAddressed, Proper;
    ghost var before := store.objects;
    var base := Genesis(env, store, BlankImage(), name);
    ghost var known := store.objects;
    var packs, nodes := PacksOf(env, LAST), NodesOf(env, Deep(env, 1, level));
    PacksAddressed(env, LAST);
    DeepShape(env, level);
    NodesStored(env, Deep(env, 1, level));
    ContentAddressedAgree(env, packs, nodes);
    FreshName(env, packs + nodes, known, name);
    var put := store.PutAll(env, packs + nodes);
    gen := DeepOver(env, base, level);
    KeepsNames(env, known, packs + nodes, store.objects);
    ExtendsChain(before, known, store.objects);
    ExtendsChain(packs, packs + nodes, store.objects);
    ExtendsChain(nodes, packs + nodes, store.objects);
    DeepResolves(env, store.objects, base, known, level, gen);
  }

  lemma FreshName(env: Env, artifacts: Store, store: Store, name: nat)
    requires CollisionFree(env) && WellNamed(env, store) && ContentAddressed(env, artifacts)
    ensures forall u :: u in artifacts && u in store ==> store[u] == artifacts[u]
  {
    forall u | u in artifacts && u in store
      ensures store[u] == artifacts[u]
    {
      assert u == NameOf(env, artifacts[u]) && u == NameOf(env, store[u]);
    }
  }

  lemma KeepsNames(env: Env, store: Store, artifacts: Store, published: Store)
    requires WellNamed(env, store) && ContentAddressed(env, artifacts) && Extends(store, published)
    requires forall u :: u in published ==> u in store || (u in artifacts && published[u] == artifacts[u])
    ensures WellNamed(env, published) && forall u :: u in published && u.OtherUri? ==> u in store
  {
  }

  // ... and a commit over it succeeds, with a generation that no reader accepts.
  method CommitTooDeep(env: Env, store: ObjectStore, gen: Generation, name: nat, ghost level: nat) returns (next: Result<Generation>)
    requires Capable(env) && Ready(env, store.objects, name) && DeepIn(env, store.objects, gen, level)
    modifies store
    ensures next.Ok? && ResolveBytes(env, store.objects, next.value).Err? && !Shallow(next.value)
    ensures ResolveBytes(env, store.objects, gen) == Ok(BlankImage())
  {
    hide ResolveBytes, WriterMade, WellNamed, CapacityFits, CollisionFree, BlankImage, Committable, Draft, Chosen, Shallow, O.Run, OnePageMore, LoadMap, Deep;
    DeepSession(env, store.objects, gen, level);
    ghost var known := store.objects;
    next := Commit(env, store, gen, OnePageMore(), name);
    ResolveMonotone(env, known, store.objects, gen);
  }
}
