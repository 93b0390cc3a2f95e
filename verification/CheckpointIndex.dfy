// The checkpoint page index: a 128-way hash tree over every page of a
// checkpoint, built bottom-up and verified top-down.
module CheckpointIndex {
  import opened Wrappers
  import opened Objects

  function IndexLevel(n: IndexNode): nat {
    if n.IndexLeaf? then 0 else n.level
  }

  function FirstPage(n: IndexNode): nat {
    match n
    case IndexLeaf(first, _) => first
    case IndexInternal(_, entries) => if entries == [] then 0 else entries[0].firstPage
  }

  function Sum(entries: seq<IndexChild>): nat {
    if entries == [] then 0 else entries[0].pageCount + Sum(entries[1..])
  }

  function PageCount(n: IndexNode): nat {
    match n
    case IndexLeaf(_, hashes) => |hashes|
    case IndexInternal(_, entries) => Sum(entries)
  }

  predicate ValidChild(e: IndexChild) {
    && e.firstPage > 0 && e.pageCount > 0
    && 0 < e.child.length <= MAX_NODE_BYTES
    && e.firstPage + e.pageCount <= U64_MAX
  }

  // CheckpointIndexNode::validate
  predicate ValidIndex(n: IndexNode) {
    match n
    case IndexLeaf(first, hashes) =>
      first > 0 && 0 < |hashes| <= CAPACITY && first + |hashes| - 1 <= U64_MAX
    case IndexInternal(level, entries) =>
      && level > 0 && 0 < |entries| <= CAPACITY
      && (forall i :: 0 <= i < |entries| ==> ValidChild(entries[i]))
      && (forall i :: 0 < i < |entries| ==> entries[i].firstPage == entries[i - 1].firstPage + entries[i - 1].pageCount)
  }

  // ----- Verification ------------------------------------------------------------

  // Is `hash` the digest of page `page` (counted from 1) of these bytes?
  predicate PageMatches(env: Env, bytes: Bytes, pageSize: nat, page: nat, hash: Digest)
    requires page > 0
  {
    (page - 1) * pageSize + pageSize <= |bytes|
    && env.pageDigest(bytes[(page - 1) * pageSize..(page - 1) * pageSize + pageSize]) == hash
  }

  // verify_checkpoint_index_node; the result is the set of names seen so far.
  function VerifyNode(
    env: Env, store: Store, bytes: Bytes, pageSize: nat,
    r: Reference, level: nat, first: nat, count: nat, seen: set<Uri>): Result<set<Uri>>
    decreases level, 0, 0
  {
    if level > MAX_LEVEL || r.uri in seen || r.length > MAX_NODE_BYTES then Err(Corrupt)
    else
      var o :- VerifiedRead(env, store, r);
      if !o.IndexObject? || !ValidIndex(o.index) then Err(Corrupt)
      else if IndexLevel(o.index) != level || FirstPage(o.index) != first || PageCount(o.index) != count then Err(Corrupt)
      else
        match o.index
        case IndexLeaf(_, hashes) =>
          if forall i :: 0 <= i < |hashes| ==> PageMatches(env, bytes, pageSize, first + i, hashes[i])
          then Ok(seen + {r.uri}) else Err(Corrupt)
        case IndexInternal(_, entries) =>
          VerifyAll(env, store, bytes, pageSize, entries, level - 1, seen + {r.uri})
  }

  function VerifyAll(
    env: Env, store: Store, bytes: Bytes, pageSize: nat, entries: seq<IndexChild>, level: nat, seen: set<Uri>): Result<set<Uri>>
    decreases level, 1, |entries|
  {
    if entries == [] then Ok(seen)
    else
      var e := entries[0];
      var seen' :- VerifyNode(env, store, bytes, pageSize, e.child, level, e.firstPage, e.pageCount, seen);
      VerifyAll(env, store, bytes, pageSize, entries[1..], level, seen')
  }

  // ----- What an accepted index says ---------------------------------------------

  // The leaf hashes of the graph behind a reference, left to right.
  function LeafHashes(env: Env, store: Store, r: Reference, level: nat): seq<Digest>
    decreases level, 0, 0
  {
    var read := VerifiedRead(env, store, r);
    if read.Err? || !read.value.IndexObject? then []
    else
      match read.value.index
      case IndexLeaf(_, hashes) => hashes
      case IndexInternal(_, entries) => if level == 0 then [] else LeafHashesAll(env, store, entries, level - 1)
  }

  function LeafHashesAll(env: Env, store: Store, entries: seq<IndexChild>, level: nat): seq<Digest>
    decreases level, 1, |entries|
  {
    if entries == [] then []
    else LeafHashes(env, store, entries[0].child, level) + LeafHashesAll(env, store, entries[1..], level)
  }

  // `hashes` are the digests of the pages first, first+1, ... of the bytes, all inside them.
  predicate Digests(env: Env, bytes: Bytes, pageSize: nat, first: nat, hashes: seq<Digest>)
    requires first > 0
  {
    forall i :: 0 <= i < |hashes| ==> PageMatches(env, bytes, pageSize, first + i, hashes[i])
  }

  // Soundness: an accepted graph lists every page of its interval exactly once, in
  // order, each with the digest of its own bytes.
  lemma {:induction false} VerifySound(
    env: Env, store: Store, bytes: Bytes, pageSize: nat, r: Reference, level: nat, first: nat, count: nat, seen: set<Uri>)
    requires VerifyNode(env, store, bytes, pageSize, r, level, first, count, seen).Ok?
    ensures first > 0 && |LeafHashes(env, store, r, level)| == count > 0
    ensures Digests(env, bytes, pageSize, first, LeafHashes(env, store, r, level))
    decreases level, 0, 0
  {
    var n := VerifiedRead(env, store, r).value.index;
    if n.IndexInternal? {
      VerifyAllSound(env, store, bytes, pageSize, n.entries, level - 1, first, seen + {r.uri});
    }
  }

  lemma {:induction false} VerifyAllSound(
    env: Env, store: Store, bytes: Bytes, pageSize: nat, entries: seq<IndexChild>, level: nat, first: nat, seen: set<Uri>)
    requires VerifyAll(env, store, bytes, pageSize, entries, level, seen).Ok?
    requires first > 0
    requires entries != [] ==> entries[0].firstPage == first
    requires forall i :: 0 < i < |entries| ==> entries[i].firstPage == entries[i - 1].firstPage + entries[i - 1].pageCount
    ensures |LeafHashesAll(env, store, entries, level)| == Sum(entries) && (entries != [] ==> Sum(entries) > 0)
    ensures Digests(env, bytes, pageSize, first, LeafHashesAll(env, store, entries, level))
    decreases level, 1, |entries|
  {
    hide VerifyNode, PageMatches, LeafHashes;
    if entries != [] {
      var e, rest := entries[0], entries[1..];
      var seen' := VerifyNode(env, store, bytes, pageSize, e.child, level, e.firstPage, e.pageCount, seen).value;
      VerifySound(env, store, bytes, pageSize, e.child, level, e.firstPage, e.pageCount, seen);
      VerifyAllSound(env, store, bytes, pageSize, rest, level, first + e.pageCount, seen');
      DigestsJoin(env, bytes, pageSize, first, LeafHashes(env, store, e.child, level), LeafHashesAll(env, store, rest, level));
    }
  }

  lemma DigestsJoin(env: Env, bytes: Bytes, pageSize: nat, first: nat, a: seq<Digest>, b: seq<Digest>)
    requires first > 0 && Digests(env, bytes, pageSize, first, a) && Digests(env, bytes, pageSize, first + |a|, b)
    ensures Digests(env, bytes, pageSize, first, a + b)
  {
    hide PageMatches;
    forall i | 0 <= i < |a + b|
      ensures PageMatches(env, bytes, pageSize, first + i, (a + b)[i])
    {
      if i >= |a| {
        assert PageMatches(env, bytes, pageSize, first + |a| + (i - |a|), b[i - |a|]);
      }
    }
  }

  ghost predicate PagesCollisionFree(env: Env) {
    forall a: Bytes, b: Bytes :: env.pageDigest(a) == env.pageDigest(b) ==> a == b
  }

  // Bytes with the same page digests agree at every position.
  lemma SameByte(env: Env, a: Bytes, b: Bytes, pageSize: nat, count: nat, hashes: seq<Digest>, k: nat)
    requires PagesCollisionFree(env) && |a| == |b| == count * pageSize && |hashes| == count && k < |a|
    requires Digests(env, a, pageSize, 1, hashes) && Digests(env, b, pageSize, 1, hashes)
    ensures a[k] == b[k]
  {
    PageOf(k, count, pageSize);
    var i := k / pageSize;
    assert PageMatches(env, a, pageSize, 1 + i, hashes[i]) && PageMatches(env, b, pageSize, 1 + i, hashes[i]);
    var pa, pb := a[i * pageSize..i * pageSize + pageSize], b[i * pageSize..i * pageSize + pageSize];
    assert pa == pb && a[k] == pa[k - i * pageSize] && b[k] == pb[k - i * pageSize];
  }

  // Authentication: one index root accepts at most one checkpoint of its length.
  lemma IndexAuthenticates(
    env: Env, store: Store, a: Bytes, b: Bytes, pageSize: nat, r: Reference, level: nat, count: nat)
    requires PagesCollisionFree(env) && |a| == |b| == count * pageSize
    requires VerifyNode(env, store, a, pageSize, r, level, 1, count, {}).Ok?
    requires VerifyNode(env, store, b, pageSize, r, level, 1, count, {}).Ok?
    ensures a == b
  {
    hide *;
    VerifySound(env, store, a, pageSize, r, level, 1, count, {});
    VerifySound(env, store, b, pageSize, r, level, 1, count, {});
    forall k | 0 <= k < |a|
      ensures a[k] == b[k]
    {
      SameByte(env, a, b, pageSize, count, LeafHashes(env, store, r, level), k);
    }
  }

  lemma PageOf(k: nat, count: nat, pageSize: nat)
    requires k < count * pageSize
    ensures pageSize > 0 && k / pageSize < count
    ensures (k / pageSize) * pageSize <= k < (k / pageSize) * pageSize + pageSize <= count * pageSize
  {
    var i := k / pageSize;
    if count <= i {
      MulGrows(count, i, pageSize);
    } else {
      MulGrows(i + 1, count, pageSize);
    }
  }

  // ----- Built indexes ---------------------------------------------------------------

  datatype IndexTree = IndexTree(reference: Reference, node: IndexNode, children: seq<IndexTree>)

  function ChildOf(t: IndexTree): IndexChild {
    IndexChild(FirstPage(t.node), PageCount(t.node), t.reference)
  }

  function ChildrenOf(ts: seq<IndexTree>): (s: seq<IndexChild>)
    ensures |s| == |ts|
  {
    seq(|ts|, i requires 0 <= i < |ts| => ChildOf(ts[i]))
  }

  // A content-addressed tree of one level whose leaves hold exactly `hashes`, from page `first`.
  predicate Good(env: Env, t: IndexTree, level: nat, first: nat, hashes: seq<Digest>)
    decreases t, 0
  {
    && ValidIndex(t.node)
    && t.reference == RefOf(env, IndexObject(t.node)) && t.reference.length <= MAX_NODE_BYTES
    && IndexLevel(t.node) == level && FirstPage(t.node) == first && PageCount(t.node) == |hashes|
    && match t.node
       case IndexLeaf(_, hs) => hs == hashes && t.children == []
       case IndexInternal(_, entries) => entries == ChildrenOf(t.children) && Tiles(env, t.children, level - 1, first, hashes)
  }

  // A row of such trees that tiles the interval.
  predicate Tiles(env: Env, ts: seq<IndexTree>, level: nat, first: nat, hashes: seq<Digest>)
    decreases ts, 1
  {
    if ts == [] then hashes == []
    else
      var n := PageCount(ts[0].node);
      && n <= |hashes|
      && Good(env, ts[0], level, first, hashes[..n])
      && Tiles(env, ts[1..], level, first + n, hashes[n..])
  }

  predicate IndexStored(env: Env, store: Store, t: IndexTree) {
    && Holds(env, store, t.reference, IndexObject(t.node))
    && forall i :: 0 <= i < |t.children| ==> IndexStored(env, store, t.children[i])
  }

  function IndexNames(t: IndexTree): set<Uri>
    decreases t, 0
  {
    {t.reference.uri} + IndexNamesAll(t.children)
  }

  function IndexNamesAll(ts: seq<IndexTree>): set<Uri>
    decreases ts, 1
  {
    if ts == [] then {} else IndexNames(ts[0]) + IndexNamesAll(ts[1..])
  }

  // The node a content-addressed name stands for.
  ghost predicate NamesNode(env: Env, u: Uri, level: nat, lo: nat, hi: nat) {
    exists n: IndexNode :: u == NameOf(env, IndexObject(n)) && IndexLevel(n) <= level && lo <= FirstPage(n) < hi
  }

  lemma {:induction false} IndexNameRange(env: Env, t: IndexTree, level: nat, first: nat, hashes: seq<Digest>, u: Uri)
    requires Good(env, t, level, first, hashes) && u in IndexNames(t)
    ensures NamesNode(env, u, level, first, first + |hashes|)
    ensures u in IndexNamesAll(t.children) ==> level > 0 && NamesNode(env, u, level - 1, first, first + |hashes|)
    decreases t, 0
  {
    GoodNonempty(env, t, level, first, hashes);
    if u in IndexNamesAll(t.children) {
      IndexNamesRange(env, t.children, level - 1, first, hashes, u);
    } else {
      assert u == NameOf(env, IndexObject(t.node));
    }
  }

  lemma GoodNonempty(env: Env, t: IndexTree, level: nat, first: nat, hashes: seq<Digest>)
    requires Good(env, t, level, first, hashes)
    ensures |hashes| > 0 && first > 0 && (t.children != [] ==> level > 0)
  {
    if t.node.IndexInternal? {
      assert ValidChild(t.node.entries[0]);
    }
  }

  lemma {:induction false} IndexNamesRange(
    env: Env, ts: seq<IndexTree>, level: nat, first: nat, hashes: seq<Digest>, u: Uri)
    requires Tiles(env, ts, level, first, hashes) && u in IndexNamesAll(ts)
    ensures NamesNode(env, u, level, first, first + |hashes|)
    decreases ts, 1
  {
    hide Good;
    var n := PageCount(ts[0].node);
    if u in IndexNames(ts[0]) {
      IndexNameRange(env, ts[0], level, first, hashes[..n], u);
    } else {
      IndexNamesRange(env, ts[1..], level, first + n, hashes[n..], u);
    }
  }

  // Completeness: the verifier accepts every stored good tree for the bytes its hashes digest.
  lemma {:induction false} VerifyComplete(
    env: Env, store: Store, bytes: Bytes, pageSize: nat,
    t: IndexTree, level: nat, first: nat, hashes: seq<Digest>, seen: set<Uri>)
    requires CollisionFree(env) && Good(env, t, level, first, hashes) && IndexStored(env, store, t)
    requires first > 0 && Digests(env, bytes, pageSize, first, hashes)
    requires level <= MAX_LEVEL && seen !! IndexNames(t)
    ensures VerifyNode(env, store, bytes, pageSize, t.reference, level, first, |hashes|, seen) == Ok(seen + IndexNames(t))
    decreases t, 0
  {
    if t.node.IndexInternal? {
      OwnNameFresh(env, t, level, first, hashes);
      VerifyAllComplete(env, store, bytes, pageSize, t.children, level - 1, first, hashes, seen + {t.reference.uri});
      assert seen + {t.reference.uri} + IndexNamesAll(t.children) == seen + IndexNames(t);
    } else {
      assert seen + {t.reference.uri} == seen + IndexNames(t);
    }
  }

  lemma OwnNameFresh(env: Env, t: IndexTree, level: nat, first: nat, hashes: seq<Digest>)
    requires CollisionFree(env) && Good(env, t, level, first, hashes) && t.node.IndexInternal?
    ensures t.reference.uri !in IndexNamesAll(t.children)
  {
    if t.reference.uri in IndexNamesAll(t.children) {
      IndexNameRange(env, t, level, first, hashes, t.reference.uri);
    }
  }

  lemma {:induction false} VerifyAllComplete(
    env: Env, store: Store, bytes: Bytes, pageSize: nat,
    ts: seq<IndexTree>, level: nat, first: nat, hashes: seq<Digest>, seen: set<Uri>)
    requires CollisionFree(env) && Tiles(env, ts, level, first, hashes)
    requires forall i :: 0 <= i < |ts| ==> IndexStored(env, store, ts[i])
    requires first > 0 && Digests(env, bytes, pageSize, first, hashes)
    requires level <= MAX_LEVEL && seen !! IndexNamesAll(ts)
    ensures VerifyAll(env, store, bytes, pageSize, ChildrenOf(ts), level, seen) == Ok(seen + IndexNamesAll(ts))
    decreases ts, 1
  {
    hide IndexStored, PageMatches, VerifyNode;
    if ts != [] {
      var n := PageCount(ts[0].node);
      var here, rest := hashes[..n], hashes[n..];
      DigestsSplit(env, bytes, pageSize, first, hashes, n);
      SiblingsDisjoint(env, ts, level, first, hashes);
      GoodFirst(env, ts[0], level, first, here);
      VerifyComplete(env, store, bytes, pageSize, ts[0], level, first, here, seen);
      VerifyAllComplete(env, store, bytes, pageSize, ts[1..], level, first + n, rest, seen + IndexNames(ts[0]));
      assert ChildrenOf(ts)[1..] == ChildrenOf(ts[1..]);
      assert seen + IndexNames(ts[0]) + IndexNamesAll(ts[1..]) == seen + IndexNamesAll(ts);
    } else {
      assert seen + IndexNamesAll(ts) == seen;
    }
  }

  lemma GoodFirst(env: Env, t: IndexTree, level: nat, first: nat, hashes: seq<Digest>)
    requires Good(env, t, level, first, hashes)
    ensures FirstPage(t.node) == first && PageCount(t.node) == |hashes|
  {
  }

  lemma DigestsSplit(env: Env, bytes: Bytes, pageSize: nat, first: nat, hashes: seq<Digest>, n: nat)
    requires first > 0 && n <= |hashes| && Digests(env, bytes, pageSize, first, hashes)
    ensures Digests(env, bytes, pageSize, first, hashes[..n]) && Digests(env, bytes, pageSize, first + n, hashes[n..])
  {
    hide PageMatches;
    forall i | 0 <= i < |hashes[n..]|
      ensures PageMatches(env, bytes, pageSize, first + n + i, hashes[n..][i])
    {
      assert PageMatches(env, bytes, pageSize, first + (n + i), hashes[n + i]);
    }
  }

  lemma SiblingsDisjoint(env: Env, ts: seq<IndexTree>, level: nat, first: nat, hashes: seq<Digest>)
    requires CollisionFree(env) && Tiles(env, ts, level, first, hashes) && ts != []
    ensures IndexNames(ts[0]) !! IndexNamesAll(ts[1..])
  {
    hide Good;
    var n := PageCount(ts[0].node);
    forall u | u in IndexNames(ts[0])
      ensures u !in IndexNamesAll(ts[1..])
    {
      if u in IndexNamesAll(ts[1..]) {
        IndexNameRange(env, ts[0], level, first, hashes[..n], u);
        IndexNamesRange(env, ts[1..], level, first + n, hashes[n..], u);
      }
    }
  }

  // ----- Building ----------------------------------------------------------------------

  function PageHashes(env: Env, bytes: Bytes, pageSize: pos): (hashes: seq<Digest>)
    requires |bytes| % pageSize == 0
    ensures |hashes| == |bytes| / pageSize
    ensures Digests(env, bytes, pageSize, 1, hashes)
  {
    forall i | 0 <= i < |bytes| / pageSize
      ensures i * pageSize + pageSize <= |bytes|
    {
      MulGrows(i + 1, |bytes| / pageSize, pageSize);
    }
    seq(|bytes| / pageSize, i requires 0 <= i < |bytes| / pageSize =>
      MulGrows(i + 1, |bytes| / pageSize, pageSize);
      env.pageDigest(bytes[i * pageSize..i * pageSize + pageSize]))
  }

  predicate IndexByContent(n: IndexNode) {
    n.IndexInternal? ==> forall i :: 0 <= i < |n.entries| ==> ByContent(n.entries[i].child)
  }

  // Valid index nodes, named by content, stay under the serialized limit.
  ghost predicate IndexFits(env: Env) {
    forall n: IndexNode :: ValidIndex(n) && IndexByContent(n) ==> env.indexSize(n) <= MAX_NODE_BYTES
  }

  // The trees of a row are all in the artifacts.
  ghost predicate RowStored(env: Env, artifacts: Store, ts: seq<IndexTree>) {
    && ContentAddressed(env, artifacts)
    && forall i :: 0 <= i < |ts| ==> IndexStored(env, artifacts, ts[i])
  }

  lemma {:induction false} IndexStoredMore(env: Env, small: Store, big: Store, t: IndexTree)
    requires IndexStored(env, small, t) && Extends(small, big)
    ensures IndexStored(env, big, t)
  {
    forall i | 0 <= i < |t.children|
      ensures IndexStored(env, big, t.children[i])
    {
      IndexStoredMore(env, small, big, t.children[i]);
    }
  }

  lemma {:induction false} TilesAppend(
    env: Env, ts: seq<IndexTree>, level: nat, first: nat, a: seq<Digest>, t: IndexTree, b: seq<Digest>)
    requires Tiles(env, ts, level, first, a) && Good(env, t, level, first + |a|, b)
    ensures Tiles(env, ts + [t], level, first, a + b)
    decreases ts
  {
    hide Good;
    if ts == [] {
      GoodFirst(env, t, level, first, b);
      assert ts + [t] == [t] && a + b == b && b[..|b|] == b && [t][1..] == [] && b[|b|..] == [];
    } else {
      var n := PageCount(ts[0].node);
      assert (ts + [t])[1..] == ts[1..] + [t];
      assert (a + b)[..n] == a[..n] && (a + b)[n..] == a[n..] + b;
      TilesAppend(env, ts[1..], level, first + n, a[n..], t, b);
    }
  }

  lemma TilesCons(env: Env, ts: seq<IndexTree>, level: nat, first: nat, hashes: seq<Digest>)
    requires ts != []
    ensures var c := PageCount(ts[0].node);
      Tiles(env, ts, level, first, hashes) <==>
        c <= |hashes| && Good(env, ts[0], level, first, hashes[..c]) && Tiles(env, ts[1..], level, first + c, hashes[c..])
  {
    hide Good;
  }

  lemma TilesNothing(env: Env, level: nat, first: nat)
    ensures Tiles(env, [], level, first, []) && Sum(ChildrenOf([])) == 0
  {
  }

  lemma SumCons(ts: seq<IndexTree>)
    requires ts != []
    ensures Sum(ChildrenOf(ts)) == PageCount(ts[0].node) + Sum(ChildrenOf(ts[1..]))
  {
    assert ChildrenOf(ts)[1..] == ChildrenOf(ts[1..]);
  }

  // The first n trees of a row tile the first Sum of their counts.
  lemma {:induction false} TilesSplit(
    env: Env, ts: seq<IndexTree>, level: nat, first: nat, hashes: seq<Digest>, n: nat)
    requires Tiles(env, ts, level, first, hashes) && n <= |ts|
    ensures var m := Sum(ChildrenOf(ts[..n]));
      && m <= |hashes| && Tiles(env, ts[..n], level, first, hashes[..m]) && Tiles(env, ts[n..], level, first + m, hashes[m..])
    decreases ts
  {
    hide Good, Tiles, Sum, ChildrenOf;
    assert Tiles(env, [], level, first, []) && Sum(ChildrenOf([])) == 0 by {
      TilesNothing(env, level, first);
    }
    if n > 0 {
      var c := PageCount(ts[0].node);
      TilesCons(env, ts, level, first, hashes);
      TilesSplit(env, ts[1..], level, first + c, hashes[c..], n - 1);
      var m' := Sum(ChildrenOf(ts[1..][..n - 1]));
      assert ts[..n][1..] == ts[1..][..n - 1] && ts[1..][n - 1..] == ts[n..];
      SumCons(ts[..n]);
      TilesCons(env, ts[..n], level, first, hashes[..c + m']);
      assert hashes[c..][..m'] == hashes[c..c + m'] == hashes[..c + m'][c..];
      assert hashes[c..][m'..] == hashes[c + m'..] && hashes[..c + m'][..c] == hashes[..c];
    } else {
      assert ts[..n] == [] && ts[n..] == ts && hashes[..0] == [] && hashes[0..] == hashes;
    }
  }

  // The children of a tiling row are what an internal node may list.
  lemma {:induction false} TilesListing(env: Env, ts: seq<IndexTree>, level: nat, first: nat, hashes: seq<Digest>)
    requires Tiles(env, ts, level, first, hashes) && first > 0 && first + |hashes| <= U64_MAX
    ensures var s := ChildrenOf(ts);
      && Sum(s) == |hashes| && (s != [] ==> s[0].firstPage == first)
      && (forall i :: 0 <= i < |s| ==> ValidChild(s[i]) && ByContent(s[i].child))
      && (forall i :: 0 < i < |s| ==> s[i].firstPage == s[i - 1].firstPage + s[i - 1].pageCount)
    decreases ts
  {
    hide Good;
    if ts != [] {
      var c := PageCount(ts[0].node);
      var s, rest := ChildrenOf(ts), ChildrenOf(ts[1..]);
      GoodFirst(env, ts[0], level, first, hashes[..c]);
      GoodNonempty(env, ts[0], level, first, hashes[..c]);
      GoodReference(env, ts[0], level, first, hashes[..c]);
      TilesListing(env, ts[1..], level, first + c, hashes[c..]);
      assert s[1..] == rest;
      forall i | 0 < i < |s|
        ensures s[i].firstPage == s[i - 1].firstPage + s[i - 1].pageCount && ValidChild(s[i]) && ByContent(s[i].child)
      {
        assert s[i] == rest[i - 1];
        if i > 1 {
          assert s[i - 1] == rest[i - 2];
        }
      }
    }
  }

  lemma GoodReference(env: Env, t: IndexTree, level: nat, first: nat, hashes: seq<Digest>)
    requires Good(env, t, level, first, hashes)
    ensures 0 < t.reference.length <= MAX_NODE_BYTES && ByContent(t.reference)
  {
  }

  lemma ParentGood(env: Env, ts: seq<IndexTree>, level: nat, first: nat, hashes: seq<Digest>)
    requires IndexFits(env) && Tiles(env, ts, level, first, hashes) && 0 < |ts| <= CAPACITY
    requires first > 0 && first + |hashes| <= U64_MAX
    ensures var n := IndexInternal(level + 1, ChildrenOf(ts));
      Good(env, IndexTree(RefOf(env, IndexObject(n)), n, ts), level + 1, first, hashes)
  {
    TilesListing(env, ts, level, first, hashes);
  }

  lemma LeafGood(env: Env, first: nat, hashes: seq<Digest>)
    requires IndexFits(env) && first > 0 && 0 < |hashes| <= CAPACITY && first + |hashes| <= U64_MAX
    ensures var n := IndexLeaf(first, hashes);
      Good(env, IndexTree(RefOf(env, IndexObject(n)), n, []), 0, first, hashes)
  {
  }

  // Publishing one more content-addressed node over a stored row.
  lemma NodeStored(env: Env, artifacts: Store, ts: seq<IndexTree>, n: IndexNode, children: seq<IndexTree>)
    requires CollisionFree(env) && RowStored(env, artifacts, ts)
    requires forall i :: 0 <= i < |children| ==> IndexStored(env, artifacts, children[i])
    ensures var o := IndexObject(n);
      var more := artifacts[NameOf(env, o) := o];
      && RowStored(env, more, ts + [IndexTree(RefOf(env, o), n, children)])
      && Extends(artifacts, more)
  {
    hide IndexStored;
    var o := IndexObject(n);
    var more := artifacts[NameOf(env, o) := o];
    var t := IndexTree(RefOf(env, o), n, children);
    assert NameOf(env, o) in artifacts ==> artifacts[NameOf(env, o)] == o;
    forall i | 0 <= i < |children|
      ensures IndexStored(env, more, children[i])
    {
      IndexStoredMore(env, artifacts, more, children[i]);
    }
    StoredTree(env, more, t);
    forall i | 0 <= i < |ts|
      ensures IndexStored(env, more, ts[i])
    {
      IndexStoredMore(env, artifacts, more, ts[i]);
    }
  }

  lemma StoredTree(env: Env, store: Store, t: IndexTree)
    requires Holds(env, store, t.reference, IndexObject(t.node))
    requires forall i :: 0 <= i < |t.children| ==> IndexStored(env, store, t.children[i])
    ensures IndexStored(env, store, t)
  {
  }

  // The leaves: runs of CAPACITY page hashes.
  method BuildLeaves(env: Env, hashes: seq<Digest>) returns (current: seq<IndexChild>, artifacts: Store, ghost trees: seq<IndexTree>)
    requires CollisionFree(env) && IndexFits(env) && |hashes| < U64_MAX
    ensures current == ChildrenOf(trees) && Tiles(env, trees, 0, 1, hashes) && RowStored(env, artifacts, trees)
    ensures |current| <= |hashes| && (hashes != [] ==> current != [])
  {
    hide Good, IndexStored;
    current, artifacts, trees := [], map[], [];
    var p := 0;
    while p < |hashes|
      invariant p <= |hashes| && |trees| <= p && (p > 0 ==> trees != [])
      invariant current == ChildrenOf(trees) && Tiles(env, trees, 0, 1, hashes[..p]) && RowStored(env, artifacts, trees)
    {
      var n := if |hashes| - p < CAPACITY then |hashes| - p else CAPACITY;
      var node := IndexLeaf(p + 1, hashes[p..p + n]);
      var o := IndexObject(node);
      LeafGood(env, p + 1, hashes[p..p + n]);
      NodeStored(env, artifacts, trees, node, []);
      TilesAppend(env, trees, 0, 1, hashes[..p], IndexTree(RefOf(env, o), node, []), hashes[p..p + n]);
      assert hashes[..p] + hashes[p..p + n] == hashes[..p + n];
      current := current + [IndexChild(FirstPage(node), PageCount(node), RefOf(env, o))];
      artifacts := artifacts[NameOf(env, o) := o];
      trees := trees + [IndexTree(RefOf(env, o), node, [])];
      p := p + n;
    }
    assert hashes[..p] == hashes;
  }

  // Grouping in progress: `parents` cover the first g trees and the first `done` pages.
  ghost predicate Grouping(
    env: Env, artifacts: Store, trees: seq<IndexTree>, parents: seq<IndexTree>, height: nat, hashes: seq<Digest>, g: nat, done: nat) {
    && g <= |trees| && done <= |hashes|
    && Tiles(env, parents, height + 1, 1, hashes[..done])
    && Tiles(env, trees[g..], height, 1 + done, hashes[done..])
    && RowStored(env, artifacts, parents)
    && forall i :: 0 <= i < |trees| ==> IndexStored(env, artifacts, trees[i])
  }

  lemma GroupStep(
    env: Env, artifacts: Store, trees: seq<IndexTree>, parents: seq<IndexTree>, height: nat, hashes: seq<Digest>, g: nat, done: nat, n: nat)
    requires CollisionFree(env) && IndexFits(env) && |hashes| < U64_MAX
    requires Grouping(env, artifacts, trees, parents, height, hashes, g, done)
    requires 0 < n <= CAPACITY && g + n <= |trees|
    ensures var group := trees[g..g + n];
      var node := IndexInternal(height + 1, ChildrenOf(group));
      var o := IndexObject(node);
      Grouping(env, artifacts[NameOf(env, o) := o], trees, parents + [IndexTree(RefOf(env, o), node, group)],
               height, hashes, g + n, done + PageCount(node))
  {
    hide Good, IndexStored, ValidIndex, Holds, Tiles;
    var group, rest := trees[g..g + n], trees[g..];
    var node := IndexInternal(height + 1, ChildrenOf(group));
    var o := IndexObject(node);
    assert rest[..n] == group && rest[n..] == trees[g + n..];
    TilesSplit(env, rest, height, 1 + done, hashes[done..], n);
    var m := Sum(ChildrenOf(group));
    assert hashes[done..][..m] == hashes[done..done + m] && hashes[done..][m..] == hashes[done + m..];
    ParentGood(env, group, height, 1 + done, hashes[done..done + m]);
    NodeStored(env, artifacts, parents, node, group);
    StoredStays(env, artifacts, artifacts[NameOf(env, o) := o], trees);
    TilesAppend(env, parents, height + 1, 1, hashes[..done], IndexTree(RefOf(env, o), node, group), hashes[done..done + m]);
    assert hashes[..done] + hashes[done..done + m] == hashes[..done + m];
  }

  // One level up: runs of CAPACITY nodes under a parent each.
  method BuildLevel(
    env: Env, hashes: seq<Digest>, current: seq<IndexChild>, below: Store, height: nat, ghost trees: seq<IndexTree>)
    returns (next: seq<IndexChild>, artifacts: Store, ghost parents: seq<IndexTree>)
    requires CollisionFree(env) && IndexFits(env) && |hashes| < U64_MAX && |current| > 1
    requires current == ChildrenOf(trees) && Tiles(env, trees, height, 1, hashes) && RowStored(env, below, trees)
    ensures next == ChildrenOf(parents) && Tiles(env, parents, height + 1, 1, hashes) && RowStored(env, artifacts, parents)
    ensures 0 < |next| && CAPACITY * (|next| - 1) < |current|
  {
    hide Good, IndexStored, ValidIndex;
    next, artifacts, parents := [], below, [];
    var g: nat := 0;
    ghost var done: nat := 0;
    assert trees[0..] == trees && hashes[..0] == [] && hashes[0..] == hashes;
    while g < |current|
      invariant g <= |current| && next == ChildrenOf(parents)
      invariant g < |current| ==> g == CAPACITY * |parents|
      invariant g == |current| ==> parents != [] && CAPACITY * (|parents| - 1) < |current|
      invariant Grouping(env, artifacts, trees, parents, height, hashes, g, done)
    {
      hide Grouping, Tiles;
      var n := if |current| - g < CAPACITY then |current| - g else CAPACITY;
      var node := IndexInternal(height + 1, current[g..g + n]);
      var o := IndexObject(node);
      assert ChildrenOf(trees[g..g + n]) == current[g..g + n];
      GroupStep(env, artifacts, trees, parents, height, hashes, g, done, n);
      next := next + [IndexChild(FirstPage(node), PageCount(node), RefOf(env, o))];
      artifacts := artifacts[NameOf(env, o) := o];
      parents := parents + [IndexTree(RefOf(env, o), node, trees[g..g + n])];
      done := done + PageCount(node);
      g := g + n;
    }
    TilesAllUsed(env, trees[g..], height, 1 + done, hashes[done..]);
    assert hashes[..done] == hashes;
  }

  lemma TilesAllUsed(env: Env, ts: seq<IndexTree>, level: nat, first: nat, hashes: seq<Digest>)
    requires Tiles(env, ts, level, first, hashes) && ts == []
    ensures hashes == []
  {
  }

  lemma StoredStays(env: Env, small: Store, big: Store, ts: seq<IndexTree>)
    requires Extends(small, big) && forall i :: 0 <= i < |ts| ==> IndexStored(env, small, ts[i])
    ensures forall i :: 0 <= i < |ts| ==> IndexStored(env, big, ts[i])
  {
    hide IndexStored;
    forall i | 0 <= i < |ts|
      ensures IndexStored(env, big, ts[i])
    {
      IndexStoredMore(env, small, big, ts[i]);
    }
  }

  datatype PageIndex = PageIndex(checkpoint: Digest, length: nat, pageSize: nat, pageCount: nat, root: Reference, height: nat)

  // CheckpointPageIndex::validate
  predicate Binds(index: PageIndex, checkpoint: Reference, pageSize: nat) {
    && index.checkpoint == checkpoint.sha && index.length == checkpoint.length
    && index.pageSize == pageSize && pageSize > 0 && index.pageCount > 0
    && index.pageCount * index.pageSize == checkpoint.length
    && 0 < index.root.length <= MAX_NODE_BYTES && index.height <= MAX_LEVEL
  }

  // verify_checkpoint_index
  predicate Verifies(env: Env, store: Store, index: PageIndex, checkpoint: Reference, pageSize: nat, bytes: Bytes) {
    && Binds(index, checkpoint, pageSize)
    && VerifyNode(env, store, bytes, pageSize, index.root, index.height, 1, index.pageCount, {}).Ok?
  }

  // An index is accepted only for the checkpoint it names, and only for those bytes.
  lemma OneCheckpoint(env: Env, store: Store, index: PageIndex, x: Reference, y: Reference, pageSize: nat, a: Bytes, b: Bytes)
    requires PagesCollisionFree(env) && |a| == x.length && |b| == y.length
    requires Verifies(env, store, index, x, pageSize, a) && Verifies(env, store, index, y, pageSize, b)
    ensures a == b && x.sha == y.sha == index.checkpoint && x.length == y.length == index.pageCount * pageSize
    ensures index.height <= MAX_LEVEL
  {
    IndexAuthenticates(env, store, a, b, pageSize, index.root, index.height, index.pageCount);
    hide VerifyNode;
  }

  lemma VerifyMonotone(
    env: Env, small: Store, big: Store, bytes: Bytes, pageSize: nat,
    r: Reference, level: nat, first: nat, count: nat, seen: set<Uri>)
    requires Extends(small, big) && VerifyNode(env, small, bytes, pageSize, r, level, first, count, seen).Ok?
    ensures VerifyNode(env, big, bytes, pageSize, r, level, first, count, seen)
         == VerifyNode(env, small, bytes, pageSize, r, level, first, count, seen)
    decreases level, 0, 0
  {
    var n := VerifiedRead(env, small, r).value.index;
    if n.IndexInternal? {
      VerifyAllMonotone(env, small, big, bytes, pageSize, n.entries, level - 1, seen + {r.uri});
    }
  }

  lemma {:induction false} VerifyAllMonotone(
    env: Env, small: Store, big: Store, bytes: Bytes, pageSize: nat, entries: seq<IndexChild>, level: nat, seen: set<Uri>)
    requires Extends(small, big) && VerifyAll(env, small, bytes, pageSize, entries, level, seen).Ok?
    ensures VerifyAll(env, big, bytes, pageSize, entries, level, seen)
         == VerifyAll(env, small, bytes, pageSize, entries, level, seen)
    decreases level, 1, |entries|
  {
    hide VerifyNode;
    if entries != [] {
      var e := entries[0];
      VerifyMonotone(env, small, big, bytes, pageSize, e.child, level, e.firstPage, e.pageCount, seen);
      VerifyAllMonotone(env, small, big, bytes, pageSize, entries[1..], level,
                        VerifyNode(env, small, bytes, pageSize, e.child, level, e.firstPage, e.pageCount, seen).value);
    }
  }

  // build: succeeds exactly for nonempty page-aligned bytes that are the checkpoint,
  // and then the verifier accepts the index for those bytes in every store that
  // received the artifacts.
  method Build(env: Env, checkpoint: Reference, pageSize: nat, bytes: Bytes) returns (r: Result<(PageIndex, Store)>)
    requires CollisionFree(env) && IndexFits(env) && |bytes| < U64_MAX
    ensures r.Ok? <==>
      pageSize > 0 && bytes != [] && |bytes| % pageSize == 0
      && checkpoint.sha == env.digest(CheckpointObject(bytes)) && checkpoint.length == |bytes|
    ensures r.Ok? ==> ContentAddressed(env, r.value.1)
    ensures r.Ok? ==> forall s: Store :: Extends(r.value.1, s) ==> Verifies(env, s, r.value.0, checkpoint, pageSize, bytes)
  {
    hide Good, IndexStored, VerifyNode, Tiles;
    if pageSize == 0 || bytes == [] || |bytes| % pageSize != 0
       || env.digest(CheckpointObject(bytes)) != checkpoint.sha || |bytes| != checkpoint.length {
      return Err(Corrupt);
    }
    var hashes := PageHashes(env, bytes, pageSize);
    PageTotal(|bytes|, pageSize);
    ghost var trees;
    var current, artifacts;
    current, artifacts, trees := BuildLeaves(env, hashes);
    var height := 0;
    HeightStart(|current|, |hashes|);
    while |current| > 1
      invariant current == ChildrenOf(trees) && Tiles(env, trees, height, 1, hashes) && RowStored(env, artifacts, trees)
      invariant current != [] && HeightOf(|current|, height, |hashes|)
      decreases |current|
    {
      var count := |current|;
      current, artifacts, trees := BuildLevel(env, hashes, current, artifacts, height, trees);
      HeightStep(count, |current|, height, |hashes|);
      height := height + 1;
    }
    SingleTile(env, trees, height, hashes);
    HeightCap(height, |hashes|);
    var root := current[0];
    var index := PageIndex(checkpoint.sha, checkpoint.length, pageSize, |hashes|, root.child, height);
    GoodReference(env, trees[0], height, 1, hashes);
    forall s: Store | Extends(artifacts, s)
      ensures Verifies(env, s, index, checkpoint, pageSize, bytes)
    {
      IndexStoredMore(env, artifacts, s, trees[0]);
      VerifyComplete(env, s, bytes, pageSize, trees[0], height, 1, hashes, {});
    }
    r := Ok((index, artifacts));
  }

  lemma PageTotal(length: nat, pageSize: pos)
    requires length % pageSize == 0 && length > 0
    ensures 0 < length / pageSize <= length && (length / pageSize) * pageSize == length
  {
    MulGrows(1, pageSize, length / pageSize);
  }

  lemma SingleTile(env: Env, ts: seq<IndexTree>, level: nat, hashes: seq<Digest>)
    requires Tiles(env, ts, level, 1, hashes) && |ts| == 1
    ensures Good(env, ts[0], level, 1, hashes)
  {
    hide Good;
    assert hashes[..|hashes|] == hashes;
  }

  // `width` nodes at `height` need at least (width - 1) * 2^height + 1 pages; every
  // level reached so far had at least two nodes below it.
  predicate HeightOf(width: nat, height: nat, pages: nat) {
    width > 0 && (width - 1) * Pow(2, height) < pages && (height > 0 ==> Pow(2, height - 1) < pages)
  }

  lemma HeightStart(width: nat, pages: nat)
    requires 0 < width <= pages
    ensures HeightOf(width, 0, pages)
  {
  }

  lemma HeightStep(width: nat, next: nat, height: nat, pages: nat)
    requires HeightOf(width, height, pages) && width > 1 && next > 0 && CAPACITY * (next - 1) < width
    ensures HeightOf(next, height + 1, pages) && next < width
  {
    PowGrows(2, 0, height);
    var p := Pow(2, height);
    assert 2 * (next - 1) <= width - 1;
    MulGrows(2 * (next - 1), width - 1, p);
    MulGrows(1, width - 1, p);
    assert (next - 1) * (2 * p) == 2 * (next - 1) * p;
  }

  lemma HeightCap(height: nat, pages: nat)
    requires pages < U64_MAX && (height > 0 ==> Pow(2, height - 1) < pages)
    ensures height <= MAX_LEVEL
  {
    Pow64();
    if height > MAX_LEVEL {
      PowGrows(2, 64, height - 1);
    }
  }

  lemma Pow64()
    ensures Pow(2, 64) > U64_MAX
  {
    PowSquare(2, 1);
    PowSquare(2, 2);
    PowSquare(2, 4);
    PowSquare(2, 8);
    PowSquare(2, 16);
    PowSquare(2, 32);
    assert Pow(2, 1) == 2;
  }

  lemma {:induction false} PowSum(base: nat, a: nat, b: nat)
    ensures Pow(base, a + b) == Pow(base, a) * Pow(base, b)
    decreases a
  {
    if a > 0 {
      PowSum(base, a - 1, b);
      assert base * (Pow(base, a - 1) * Pow(base, b)) == (base * Pow(base, a - 1)) * Pow(base, b);
    }
  }

  lemma PowSquare(base: nat, a: nat)
    ensures Pow(base, 2 * a) == Pow(base, a) * Pow(base, a)
  {
    PowSum(base, a, a);
  }
}
