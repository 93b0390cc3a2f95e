// The strict reader of a page map (`load_tree`): it accepts a reference exactly
// when the objects behind it form a well-formed tree that meets the declared
// level and bounds, with no node repeated, and then returns that tree.
module PageMapReader {
  import opened Wrappers
  import opened Objects
  import opened PageMapTree
  import opened PageMapClosure

  function LoadTree(
    env: Env, store: Store, r: Reference, level: nat, lower: nat, upper: nat, seen: set<Uri>): Result<(Tree, set<Uri>)>
    decreases level, 0, 0
  {
    if level > MAX_LEVEL || r.uri in seen || r.length > MAX_NODE_BYTES then Err(Corrupt)
    else
      var o :- VerifiedRead(env, store, r);
      if !o.NodeObject? || !ValidNode(o.node) || LevelOf(o.node) != level then Err(Corrupt)
      else
        match o.node
        case Leaf(entries) =>
          InBounds(Tree(r, o.node, [], entries[0].page, entries[|entries| - 1].page), lower, upper, seen + {r.uri})
        case Internal(_, branches) =>
          var (children, seen') :- LoadChildren(env, store, branches, level - 1, lower, upper, seen + {r.uri});
          InBounds(Tree(r, o.node, children, children[0].min, children[|children| - 1].max), lower, upper, seen')
  }

  function InBounds(t: Tree, lower: nat, upper: nat, seen: set<Uri>): Result<(Tree, set<Uri>)> {
    if t.min <= lower || t.max > upper then Err(Corrupt) else Ok((t, seen))
  }

  function LoadChildren(
    env: Env, store: Store, branches: seq<Branch>, level: nat, previous: nat, upper: nat, seen: set<Uri>)
    : (r: Result<(seq<Tree>, set<Uri>)>)
    ensures r.Ok? ==> |r.value.0| == |branches|
    decreases level, 1, |branches|
  {
    if branches == [] then Ok(([], seen))
    else
      var b := branches[0];
      if b.maxPage <= previous || b.maxPage > upper then Err(Corrupt)
      else
        var (child, seen') :- LoadTree(env, store, b.child, level, previous, b.maxPage, seen);
        if child.max != b.maxPage then Err(Corrupt)
        else
          var (rest, seen'') :- LoadChildren(env, store, branches[1..], level, b.maxPage, upper, seen');
          Ok(([child] + rest, seen''))
  }

  // The names of the tree's nodes.
  function Names(t: Tree): set<Uri>
    decreases t, 0
  {
    {t.reference.uri} + NamesAll(t.children)
  }

  function NamesAll(ts: seq<Tree>): set<Uri>
    decreases ts, 1
  {
    if ts == [] then {} else Names(ts[0]) + NamesAll(ts[1..])
  }

  // Every node of the tree is small enough to be read back.
  predicate Readable(t: Tree) {
    t.reference.length <= MAX_NODE_BYTES && forall i :: 0 <= i < |t.children| ==> Readable(t.children[i])
  }

  // A name in a stored tree leads to a node whose largest page and level lie within the tree's.
  lemma {:induction false} NameRange(env: Env, store: Store, t: Tree, u: Uri)
    requires WellFormed(t) && Stored(env, store, t) && u in Names(t)
    ensures u in store && store[u].NodeObject? && ValidNode(store[u].node)
    ensures t.min <= MaxPage(store[u].node) <= t.max && LevelOf(store[u].node) <= t.Level()
    ensures u != t.reference.uri ==> LevelOf(store[u].node) < t.Level() || u in NamesAll(t.children)
    decreases t, 0
  {
    TreeBounds(t);
    if u != t.reference.uri {
      var level := t.node.level - 1;
      ForestEnds(t.children, level);
      NameRangeAll(env, store, t.children, level, u);
    }
  }

  lemma {:induction false} NameRangeAll(env: Env, store: Store, ts: seq<Tree>, level: nat, u: Uri)
    requires Forest(ts, level) && (forall i :: 0 <= i < |ts| ==> Stored(env, store, ts[i])) && u in NamesAll(ts)
    ensures ts != [] && u in store && store[u].NodeObject? && ValidNode(store[u].node)
    ensures ts[0].min <= MaxPage(store[u].node) <= ts[|ts| - 1].max && LevelOf(store[u].node) <= level
    decreases ts, 1
  {
    ForestHalves(ts, level, 1);
    ForestEnds(ts, level);
    if u in Names(ts[0]) {
      NameRange(env, store, ts[0], u);
    } else {
      NameRangeAll(env, store, ts[1..], level, u);
      TreeBounds(ts[0]);
    }
  }

  // Stored siblings never share a node: their page ranges are disjoint.
  lemma NamesDisjoint(env: Env, store: Store, ts: seq<Tree>, level: nat)
    requires Forest(ts, level) && ts != [] && forall i :: 0 <= i < |ts| ==> Stored(env, store, ts[i])
    ensures Names(ts[0]) !! NamesAll(ts[1..])
  {
    hide WellFormed, Forest, Stored;
    ForestAt(ts, level, 0);
    if |ts| > 1 {
      ForestFirst(ts, level);
      forall u | u in Names(ts[0])
        ensures u !in NamesAll(ts[1..])
      {
        NameRange(env, store, ts[0], u);
        if u in NamesAll(ts[1..]) {
          NameRangeAll(env, store, ts[1..], level, u);
        }
      }
    }
  }

  lemma RootNameFresh(env: Env, store: Store, t: Tree)
    requires WellFormed(t) && Stored(env, store, t) && t.node.Internal?
    ensures t.reference.uri !in NamesAll(t.children)
  {
    if t.reference.uri in NamesAll(t.children) {
      NameRangeAll(env, store, t.children, t.node.level - 1, t.reference.uri);
    }
  }

  // Completeness: the reader returns every stored well-formed tree, unchanged.
  lemma {:induction false} LoadComplete(env: Env, store: Store, t: Tree, lower: nat, upper: nat, seen: set<Uri>)
    requires WellFormed(t) && Stored(env, store, t) && Readable(t)
    requires t.Level() <= MAX_LEVEL && lower < t.min && t.max <= upper && seen !! Names(t)
    ensures LoadTree(env, store, t.reference, t.Level(), lower, upper, seen) == Ok((t, seen + Names(t)))
    decreases t, 0
  {
    if t.node.Internal? {
      RootNameFresh(env, store, t);
      LoadChildrenComplete(env, store, t.children, t.node.level - 1, lower, upper, seen + {t.reference.uri});
      assert seen + {t.reference.uri} + NamesAll(t.children) == seen + Names(t);
    } else {
      assert Names(t) == {t.reference.uri} + NamesAll([]) == {t.reference.uri};
    }
  }

  lemma {:induction false} LoadChildrenComplete(
    env: Env, store: Store, ts: seq<Tree>, level: nat, lower: nat, upper: nat, seen: set<Uri>)
    requires Forest(ts, level) && forall i :: 0 <= i < |ts| ==> Stored(env, store, ts[i]) && Readable(ts[i])
    requires level <= MAX_LEVEL && (ts != [] ==> lower < ts[0].min && ts[|ts| - 1].max <= upper)
    requires seen !! NamesAll(ts)
    ensures LoadChildren(env, store, Branches(ts), level, lower, upper, seen) == Ok((ts, seen + NamesAll(ts)))
    decreases ts, 1
  {
    hide WellFormed, Forest, Stored, Readable, LoadTree, LoadChildren;
    if ts != [] {
      ForestAt(ts, level, 0);
      ForestHalves(ts, level, 1);
      ForestEnds(ts, level);
      TreeBounds(ts[0]);
      NamesDisjoint(env, store, ts, level);
      LoadComplete(env, store, ts[0], lower, ts[0].max, seen);
      if |ts| > 1 {
        ForestFirst(ts, level);
      }
      LoadChildrenComplete(env, store, ts[1..], level, ts[0].max, upper, seen + Names(ts[0]));
      assert Branches(ts)[1..] == Branches(ts[1..]);
      LoadChildrenStep(env, store, Branches(ts), level, lower, upper, seen, ts[0], seen + Names(ts[0]),
                       ts[1..], seen + Names(ts[0]) + NamesAll(ts[1..]));
      assert [ts[0]] + ts[1..] == ts;
      assert seen + Names(ts[0]) + NamesAll(ts[1..]) == seen + NamesAll(ts);
    } else {
      LoadNone(env, store, level, lower, upper, seen);
      assert seen + NamesAll([]) == seen && Branches(ts) == [];
    }
  }

  lemma LoadNone(env: Env, store: Store, level: nat, previous: nat, upper: nat, seen: set<Uri>)
    ensures LoadChildren(env, store, [], level, previous, upper, seen) == Ok(([], seen))
  {
  }

  lemma LoadChildrenStep(
    env: Env, store: Store, branches: seq<Branch>, level: nat, previous: nat, upper: nat, seen: set<Uri>,
    child: Tree, seen': set<Uri>, rest: seq<Tree>, seen'': set<Uri>)
    requires branches != [] && previous < branches[0].maxPage <= upper && child.max == branches[0].maxPage
    requires LoadTree(env, store, branches[0].child, level, previous, branches[0].maxPage, seen) == Ok((child, seen'))
    requires LoadChildren(env, store, branches[1..], level, branches[0].maxPage, upper, seen') == Ok((rest, seen''))
    ensures LoadChildren(env, store, branches, level, previous, upper, seen) == Ok(([child] + rest, seen''))
  {
    hide LoadTree;
  }

  // Soundness: whatever the reader returns is a stored well-formed tree within the declared bounds.
  lemma {:induction false} LoadSound(
    env: Env, store: Store, r: Reference, level: nat, lower: nat, upper: nat, seen: set<Uri>)
    requires LoadTree(env, store, r, level, lower, upper, seen).Ok?
    ensures var (t, seen') := LoadTree(env, store, r, level, lower, upper, seen).value;
      && WellFormed(t) && Stored(env, store, t) && Readable(t)
      && t.reference == r && t.Level() == level <= MAX_LEVEL
      && lower < t.min && t.max <= upper
      && seen !! Names(t) && seen' == seen + Names(t)
    decreases level, 0, 0
  {
    var o := VerifiedRead(env, store, r).value;
    if o.node.Internal? {
      LoadChildrenSound(env, store, o.node.branches, level - 1, lower, upper, seen + {r.uri});
    }
  }

  lemma {:induction false} LoadChildrenSound(
    env: Env, store: Store, branches: seq<Branch>, level: nat, previous: nat, upper: nat, seen: set<Uri>)
    requires LoadChildren(env, store, branches, level, previous, upper, seen).Ok?
    ensures var (ts, seen') := LoadChildren(env, store, branches, level, previous, upper, seen).value;
      && Forest(ts, level) && branches == Branches(ts)
      && (forall i :: 0 <= i < |ts| ==> Stored(env, store, ts[i]) && Readable(ts[i]))
      && (ts != [] ==> previous < ts[0].min)
      && seen !! NamesAll(ts) && seen' == seen + NamesAll(ts)
    decreases level, 1, |branches|
  {
    hide LoadTree, WellFormed, Stored, Readable;
    if branches != [] {
      var b := branches[0];
      LoadSound(env, store, b.child, level, previous, b.maxPage, seen);
      var (child, seen') := LoadTree(env, store, b.child, level, previous, b.maxPage, seen).value;
      LoadChildrenSound(env, store, branches[1..], level, b.maxPage, upper, seen');
      var (rest, seen'') := LoadChildren(env, store, branches[1..], level, b.maxPage, upper, seen').value;
      LinkForest(child, rest, level);
      assert branches == [b] + branches[1..];
    }
  }

  lemma LinkForest(child: Tree, rest: seq<Tree>, level: nat)
    requires WellFormed(child) && child.Level() == level && Forest(rest, level)
    requires rest != [] ==> child.max < rest[0].min
    ensures Forest([child] + rest, level) && Branches([child] + rest) == [Branch(child.max, child.reference)] + Branches(rest)
    ensures NamesAll([child] + rest) == Names(child) + NamesAll(rest)
  {
    hide WellFormed;
    if rest != [] {
      ForestEnds(rest, level);
    }
    assert ([child] + rest)[1..] == rest;
    ForestConcat([child], rest, level);
  }
}
