// The stored form of checkpoint-index nodes. Nodes and accepted bytes determine each
// other here too.
module CheckpointCodec {
  import opened Wrappers
  import opened Objects
  import opened Encoding
  import opened Cbor
  import opened Documents
  import opened StoredReferences

  datatype HashChild = HashChild(firstPage: nat, pageCount: nat, child: ObjectRef)

  datatype HashNode = HashLeaf(firstPage: nat, hashes: seq<Bytes>) | HashInternal(level: nat, children: seq<HashChild>)

  // ----- Validity ------------------------------------------------------------------------------

  predicate ChildValid(children: seq<HashChild>, i: nat)
    requires i < |children|
  {
    var c := children[i];
    && c.firstPage != 0 && c.pageCount != 0 && 0 < c.child.length <= MAX_NODE_BYTES
    && (i > 0 ==> c.firstPage == children[i - 1].firstPage + children[i - 1].pageCount)
    && c.firstPage + c.pageCount <= U64_MAX
  }

  // Intervals of pages, each child's starting where the one before ends.
  predicate HashValid(n: HashNode) {
    match n
    case HashLeaf(first, hashes) => first != 0 && 0 < |hashes| <= CAPACITY && first + |hashes| - 1 <= U64_MAX
    case HashInternal(level, children) =>
      level != 0 && 0 < |children| <= CAPACITY && forall i :: 0 <= i < |children| ==> ChildValid(children, i)
  }

  method Validate(n: HashNode) returns (ok: bool)
    ensures ok == HashValid(n)
  {
    match n {
      case HashLeaf(first, hashes) =>
        return first != 0 && hashes != [] && |hashes| <= CAPACITY && first + |hashes| - 1 <= U64_MAX;
      case HashInternal(level, children) =>
        if level == 0 || children == [] || |children| > CAPACITY {
          return false;
        }
        var expected: Option<nat> := None;
        for i := 0 to |children|
          invariant expected == if i == 0 then None else Some(children[i - 1].firstPage + children[i - 1].pageCount)
          invariant forall k :: 0 <= k < i ==> ChildValid(children, k)
        {
          var c := children[i];
          if c.firstPage == 0 || c.pageCount == 0 || c.child.length == 0 || c.child.length > MAX_NODE_BYTES
             || (expected.Some? && expected.value != c.firstPage) || c.firstPage + c.pageCount > U64_MAX {
            assert !ChildValid(children, i);
            return false;
          }
          expected := Some(c.firstPage + c.pageCount);
        }
        return true;
    }
  }

  // What the types of a node's fields guarantee.
  predicate ChildOk(c: HashChild) {
    c.firstPage <= U64_MAX && c.pageCount <= U64_MAX && RefOk(c.child)
  }

  predicate Typed(n: HashNode) {
    match n
    case HashLeaf(first, hashes) => first <= U64_MAX && |hashes| <= U64_MAX && forall i :: 0 <= i < |hashes| ==> |hashes[i]| == 32
    case HashInternal(level, children) =>
      level <= U32_MAX && |children| <= U64_MAX && forall i :: 0 <= i < |children| ==> ChildOk(children[i])
  }

  // ----- Children as items -----------------------------------------------------------------------

  function ChildTail(c: HashChild): (ts: seq<Token>)
    ensures |ts| == 4
  {
    [Key(PageCount), Unsigned(c.pageCount), Key(FirstPage), Unsigned(c.firstPage)]
  }

  function ChildTailPattern(): (ps: seq<Pattern>)
    ensures |ps| == 4
  {
    [Exactly(Key(PageCount)), AnyCount(U64_MAX), Exactly(Key(FirstPage)), AnyCount(U64_MAX)]
  }

  lemma ChildTailShape(ts: seq<Token>)
    ensures Matches(ChildTailPattern(), ts) <==>
      && |ts| == 4 && ts[1].Unsigned? && ts[1].n <= U64_MAX && ts[3].Unsigned? && ts[3].n <= U64_MAX
      && ts == [Key(PageCount), ts[1], Key(FirstPage), ts[3]]
  {
    hide Key;
    var ps := ChildTailPattern();
    if |ts| == 4 {
      assert Matches(ps, ts) <==> Suits(ps[0], ts[0]) && Suits(ps[1], ts[1]) && Suits(ps[2], ts[2]) && Suits(ps[3], ts[3]);
    }
  }

  function ChildTokens(c: HashChild): (ts: seq<Token>)
    ensures |ts| == 13
  {
    Around(3, Child, c.child, ChildTail(c))
  }

  function ChildPattern(): (ps: seq<Pattern>)
    ensures |ps| == 13
  {
    AroundPattern(3, Child, ChildTailPattern())
  }

  function ChildOf(ts: seq<Token>): HashChild
    requires Matches(ChildPattern(), ts)
  {
    AroundMatches(3, Child, ChildTailPattern(), ts);
    ChildTailShape(ts[9..]);
    var tail := ts[9..];
    HashChild(tail[3].n, tail[1].n, ReferenceOf(ts[2..9]))
  }

  lemma ChildRecord(ts: seq<Token>)
    requires Matches(ChildPattern(), ts) && TokensOk(ts)
    ensures ChildOk(ChildOf(ts)) && ChildTokens(ChildOf(ts)) == ts
  {
    hide Key, ChildTailPattern, RefPattern, UriOk, AroundPattern, Around, Matches;
    AroundSound(3, Child, ChildTailPattern(), ts);
    ChildTailShape(ts[9..]);
  }

  lemma ChildTailOk(c: HashChild)
    requires ChildOk(c)
    ensures Matches(ChildTailPattern(), ChildTail(c)) && TokensOk(ChildTail(c))
  {
    KeyOk(PageCount);
    KeyOk(FirstPage);
    ChildTailShape(ChildTail(c));
    hide Key, RefOk;
  }

  lemma ChildBack(c: HashChild, ts: seq<Token>)
    requires Matches(ChildPattern(), ts) && |ts| == 13 && ts[9..] == ChildTail(c) && Matches(RefPattern(), ts[2..9]) && ReferenceOf(ts[2..9]) == c.child
    ensures ChildOf(ts) == c
  {
    hide Key, RefPattern, ChildPattern, ChildTailPattern, ReferenceOf, Matches;
  }

  lemma ChildMatches(c: HashChild)
    requires ChildOk(c)
    ensures Matches(ChildPattern(), ChildTokens(c)) && ChildOf(ChildTokens(c)) == c && TokensOk(ChildTokens(c))
  {
    ChildTailOk(c);
    AroundComplete(3, Child, c.child, ChildTail(c), ChildTailPattern());
    ChildBack(c, ChildTokens(c));
    hide *;
  }

  // ----- Nodes as items ----------------------------------------------------------------------------

  function Rows(n: HashNode): seq<seq<Token>> {
    match n
    case HashLeaf(_, hashes) => seq(|hashes|, i requires 0 <= i < |hashes| => [Blob(hashes[i])])
    case HashInternal(_, children) => seq(|children|, i requires 0 <= i < |children| => ChildTokens(children[i]))
  }

  function Lead(leaf: bool): seq<Token> {
    [MapHead(4), Key(if leaf then Hashes else Level)]
  }

  function Body(n: HashNode): Document {
    match n
    case HashLeaf(first, hashes) =>
      Document([ArrayHead(|Rows(n)|)], Rows(n),
               [Key(Version), Unsigned(1), Key(NodeType), Key(LeafWord), Key(FirstPage), Unsigned(first)])
    case HashInternal(level, children) =>
      Document([Unsigned(level), Key(Entries), ArrayHead(|Rows(n)|)], Rows(n),
               [Key(Version), Unsigned(1), Key(NodeType), Key(InternalWord)])
  }

  function BodyLayout(leaf: bool): Layout {
    if leaf then
      Layout([AnyArray], [AnyHash],
             [Exactly(Key(Version)), Exactly(Unsigned(1)), Exactly(Key(NodeType)), Exactly(Key(LeafWord)),
              Exactly(Key(FirstPage)), AnyCount(U64_MAX)])
    else
      Layout([AnyCount(U32_MAX), Exactly(Key(Entries)), AnyArray], ChildPattern(),
             [Exactly(Key(Version)), Exactly(Unsigned(1)), Exactly(Key(NodeType)), Exactly(Key(InternalWord))])
  }

  function NodeTokens(n: HashNode): seq<Token> {
    Lead(n.HashLeaf?) + Items(Body(n))
  }

  lemma FrontShape(leaf: bool, ts: seq<Token>)
    ensures Matches(BodyLayout(leaf).front, ts) <==>
      if leaf then |ts| == 1 && ts[0].ArrayHead?
      else |ts| == 3 && ts[0].Unsigned? && ts[0].n <= U32_MAX && ts[2].ArrayHead? && ts == [ts[0], Key(Entries), ts[2]]
  {
    hide Key, ChildPattern;
    var ps := BodyLayout(leaf).front;
    if leaf {
      if |ts| == 1 {
        assert Matches(ps, ts) <==> Suits(ps[0], ts[0]);
      }
    } else if |ts| == 3 {
      assert Matches(ps, ts) <==> Suits(ps[0], ts[0]) && Suits(ps[1], ts[1]) && Suits(ps[2], ts[2]);
    }
  }

  lemma LeafTrailer(ts: seq<Token>)
    ensures Matches(BodyLayout(true).trailer, ts) <==>
      && |ts| == 6 && ts[5].Unsigned? && ts[5].n <= U64_MAX
      && ts == [Key(Version), Unsigned(1), Key(NodeType), Key(LeafWord), Key(FirstPage), ts[5]]
  {
    hide Key, ChildPattern;
    var ps := BodyLayout(true).trailer;
    if |ts| == 6 {
      var some := Suits(ps[0], ts[0]) && Suits(ps[1], ts[1]) && Suits(ps[2], ts[2]);
      assert Matches(ps, ts) <==> some && Suits(ps[3], ts[3]) && Suits(ps[4], ts[4]) && Suits(ps[5], ts[5]);
    }
  }

  lemma InternalTrailer(ts: seq<Token>)
    ensures Matches(BodyLayout(false).trailer, ts) <==> ts == [Key(Version), Unsigned(1), Key(NodeType), Key(InternalWord)]
  {
    hide Key, ChildPattern;
    var ps := BodyLayout(false).trailer;
    if |ts| == 4 {
      assert Matches(ps, ts) <==> Suits(ps[0], ts[0]) && Suits(ps[1], ts[1]) && Suits(ps[2], ts[2]) && Suits(ps[3], ts[3]);
    }
  }

  lemma HashRow(ts: seq<Token>)
    ensures Matches([AnyHash], ts) <==> |ts| == 1 && ts[0].Blob? && |ts[0].content| == 32
  {
    var ps := [AnyHash];
    if |ts| == 1 {
      assert Matches(ps, ts) <==> Suits(ps[0], ts[0]);
    }
  }

  lemma RowsMatch(n: HashNode)
    requires Typed(n)
    ensures AllMatch(BodyLayout(n.HashLeaf?).row, Rows(n), |Rows(n)|) && AllOk(Rows(n))
    ensures |Rows(n)| == if n.HashLeaf? then |n.hashes| else |n.children|
  {
    hide ChildTokens, ChildPattern, ChildOk, Matches, Key, ChildOf;
    forall i | 0 <= i < |Rows(n)|
      ensures Matches(BodyLayout(n.HashLeaf?).row, Rows(n)[i]) && TokensOk(Rows(n)[i])
    {
      if n.HashLeaf? {
        HashRow([Blob(n.hashes[i])]);
      } else {
        ChildMatches(n.children[i]);
      }
    }
  }

  lemma BodyFollows(n: HashNode)
    requires Typed(n) && Rows(n) != []
    ensures Follows(BodyLayout(n.HashLeaf?), Body(n))
  {
    RowsMatch(n);
    FrontShape(n.HashLeaf?, Body(n).front);
    LeafTrailer(Body(n).trailer);
    InternalTrailer(Body(n).trailer);
    hide Rows, Key, Matches, BodyLayout, AllOk;
  }

  lemma NodeTokensOk(n: HashNode)
    requires Typed(n)
    ensures TokensOk(NodeTokens(n))
  {
    RowsMatch(n);
    FlatOk(Rows(n));
    FixedOk(n);
    hide TokensOk, Rows, Key, Typed, Flat, Lead;
    var d := Body(n);
    TokensOkJoin(Flat(d.rows), d.trailer);
    TokensOkJoin(d.front, Flat(d.rows) + d.trailer);
    TokensOkJoin(Lead(n.HashLeaf?), Items(d));
  }

  lemma CommonTrailerOk(word: Word)
    ensures TokensOk([Key(Version), Unsigned(1), Key(NodeType), Key(word)])
  {
    KeyOk(Version);
    KeyOk(NodeType);
    KeyOk(word);
    hide Key;
  }

  lemma LeafFixedOk(first: nat, count: nat)
    requires first <= U64_MAX && count <= U64_MAX
    ensures TokensOk(Lead(true)) && TokensOk([ArrayHead(count)])
    ensures TokensOk([Key(Version), Unsigned(1), Key(NodeType), Key(LeafWord), Key(FirstPage), Unsigned(first)])
  {
    CommonTrailerOk(LeafWord);
    KeyOk(Hashes);
    KeyOk(FirstPage);
    hide Key;
    var common, more := [Key(Version), Unsigned(1), Key(NodeType), Key(LeafWord)], [Key(FirstPage), Unsigned(first)];
    TokensOkJoin(common, more);
    assert common + more == [Key(Version), Unsigned(1), Key(NodeType), Key(LeafWord), Key(FirstPage), Unsigned(first)];
  }

  lemma InternalFixedOk(level: nat, count: nat)
    requires level <= U64_MAX && count <= U64_MAX
    ensures TokensOk(Lead(false)) && TokensOk([Unsigned(level), Key(Entries), ArrayHead(count)])
  {
    KeyOk(Level);
    KeyOk(Entries);
    hide Key;
  }

  lemma FixedOk(n: HashNode)
    requires Typed(n)
    ensures TokensOk(Lead(n.HashLeaf?)) && TokensOk(Body(n).front) && TokensOk(Body(n).trailer)
  {
    RowsMatch(n);
    hide Key, Rows, AllMatch, BodyLayout, TokensOk, Lead;
    match n {
      case HashLeaf(first, hashes) => LeafFixedOk(first, |Rows(n)|);
      case HashInternal(level, children) =>
        InternalFixedOk(level, |Rows(n)|);
        CommonTrailerOk(InternalWord);
    }
  }

  // The stored form.
  function Stored(n: HashNode): Bytes
    requires Typed(n)
  {
    NodeTokensOk(n);
    PrintAll(NodeTokens(n))
  }

  predicate Storable(n: HashNode) {
    Typed(n) && HashValid(n) && |Stored(n)| <= MAX_NODE_BYTES
  }

  lemma ValidHasRows(n: HashNode)
    requires HashValid(n)
    ensures Rows(n) != []
  {
    hide ChildTokens;
    assert |Rows(n)| == if n.HashLeaf? then |n.hashes| else |n.children|;
  }

  // ----- Decoding ---------------------------------------------------------------------------------

  function NodeOf(leaf: bool, doc: Document): HashNode
    requires Follows(BodyLayout(leaf), doc)
  {
    FrontShape(leaf, doc.front);
    if leaf then
      LeafTrailer(doc.trailer);
      HashLeaf(doc.trailer[5].n, seq(|doc.rows|, i requires 0 <= i < |doc.rows| => (HashRowAt(doc, i); doc.rows[i][0].content)))
    else
      HashInternal(doc.front[0].n, seq(|doc.rows|, i requires 0 <= i < |doc.rows| => (ChildRowAt(doc, i); ChildOf(doc.rows[i]))))
  }

  lemma HashRowAt(doc: Document, i: nat)
    requires Follows(BodyLayout(true), doc) && i < |doc.rows|
    ensures |doc.rows[i]| == 1 && doc.rows[i][0].Blob? && |doc.rows[i][0].content| == 32
  {
    assert Matches(BodyLayout(true).row, doc.rows[i]);
    HashRow(doc.rows[i]);
  }

  lemma ChildRowAt(doc: Document, i: nat)
    requires Follows(BodyLayout(false), doc) && i < |doc.rows|
    ensures Matches(ChildPattern(), doc.rows[i])
  {
    assert Matches(BodyLayout(false).row, doc.rows[i]);
    hide ChildPattern;
  }

  lemma HashRowsSound(doc: Document)
    requires Follows(BodyLayout(true), doc)
    ensures var n := NodeOf(true, doc);
      n.HashLeaf? && |n.hashes| == |doc.rows| && (forall i :: 0 <= i < |doc.rows| ==> |n.hashes[i]| == 32) && Rows(n) == doc.rows
  {
    var n := NodeOf(true, doc);
    forall i | 0 <= i < |doc.rows|
      ensures |n.hashes[i]| == 32 && [Blob(n.hashes[i])] == doc.rows[i]
    {
      HashRowAt(doc, i);
    }
    hide BodyLayout, Matches, NodeOf;
  }

  lemma LeafDocument(doc: Document)
    requires Follows(BodyLayout(true), doc) && AllOk(doc.rows) && TokensOk(doc.front)
    ensures Typed(NodeOf(true, doc)) && Rows(NodeOf(true, doc)) == doc.rows && Body(NodeOf(true, doc)) == doc
  {
    var n := NodeOf(true, doc);
    FrontShape(true, doc.front);
    LeafTrailer(doc.trailer);
    assert TokenOk(doc.front[0]) && n.firstPage == doc.trailer[5].n;
    hide Key, BodyLayout, Matches, TokenOk, AllOk, AllMatch, NodeOf;
    HashRowsSound(doc);
    hide Rows;
    assert doc.front == [ArrayHead(|doc.rows|)];
  }

  lemma ChildRowsSound(doc: Document)
    requires Follows(BodyLayout(false), doc) && AllOk(doc.rows)
    ensures var n := NodeOf(false, doc);
      && n.HashInternal? && |n.children| == |doc.rows|
      && forall i :: 0 <= i < |doc.rows| ==> ChildOk(n.children[i]) && ChildTokens(n.children[i]) == doc.rows[i]
  {
    var n := NodeOf(false, doc);
    forall i | 0 <= i < |doc.rows|
      ensures ChildOk(n.children[i]) && ChildTokens(n.children[i]) == doc.rows[i]
    {
      ChildRowAt(doc, i);
      ChildRecord(doc.rows[i]);
      hide ChildOf, ChildPattern, ChildTokens, ChildOk, BodyLayout, Matches, TokensOk;
    }
  }

  lemma InternalDocument(doc: Document)
    requires Follows(BodyLayout(false), doc) && AllOk(doc.rows) && TokensOk(doc.front)
    ensures Typed(NodeOf(false, doc)) && Rows(NodeOf(false, doc)) == doc.rows && Body(NodeOf(false, doc)) == doc
  {
    var n := NodeOf(false, doc);
    FrontShape(false, doc.front);
    InternalTrailer(doc.trailer);
    assert TokenOk(doc.front[2]) && n.level == doc.front[0].n;
    hide Key, BodyLayout, Matches, TokenOk, ChildPattern, ChildTokens, ChildOf, ChildOk, AllOk, TokensOk, AllMatch, NodeOf;
    ChildRowsSound(doc);
    InternalRows(n, doc.rows);
    hide Rows;
    assert doc.front == [Unsigned(n.level), Key(Entries), ArrayHead(|doc.rows|)];
  }

  lemma InternalRows(n: HashNode, rows: seq<seq<Token>>)
    requires n.HashInternal? && |n.children| == |rows| && forall i :: 0 <= i < |rows| ==> ChildTokens(n.children[i]) == rows[i]
    ensures Rows(n) == rows
  {
    hide ChildTokens;
  }

  // These items are the fields of such a node after the first key.
  ghost predicate Spells(start: Option<seq<Token>>, leaf: bool, n: HashNode) {
    Typed(n) && n.HashLeaf? == leaf && Rows(n) != [] && start == Some(Items(Body(n)))
  }

  lemma LayoutShape(leaf: bool)
    ensures var l := BodyLayout(leaf); l.row != [] && l.front != [] && l.front[|l.front| - 1] == AnyArray
  {
    hide Key;
  }

  method ReadBody(d: Decoder, leaf: bool) returns (r: Option<HashNode>)
    requires d.Valid()
    modifies d
    ensures d.Valid()
    ensures r.Some? ==> Spells(old(d.Rest()), leaf, r.value)
    ensures r.None? ==> forall n :: !Spells(old(d.Rest()), leaf, n)
  {
    LayoutShape(leaf);
    hide Rows, Typed, Key, Flat, AllOk, Body, BodyLayout, Items, Matches, TokensFrom, NodeOf;
    ghost var start := d.Rest();
    var doc := ReadDocument(d, BodyLayout(leaf));
    forall n | Spells(start, leaf, n)
      ensures doc.Some?
    {
      BodyFollows(n);
    }
    if doc.None? {
      return None;
    }
    if leaf {
      LeafDocument(doc.value);
    } else {
      InternalDocument(doc.value);
    }
    r := Some(NodeOf(leaf, doc.value));
    NodeKind(leaf, doc.value);
  }

  lemma NodeKind(leaf: bool, doc: Document)
    requires Follows(BodyLayout(leaf), doc)
    ensures NodeOf(leaf, doc).HashLeaf? == leaf && doc.rows != []
  {
    hide BodyLayout;
  }

  // What the first key says of the items that follow.
  lemma LeadSays(n: HashNode, leaf: bool, start: Option<seq<Token>>, rest: Option<seq<Token>>)
    requires start == Prepend(Lead(leaf), rest)
    ensures start == Some(NodeTokens(n)) <==> n.HashLeaf? == leaf && rest == Some(Items(Body(n)))
  {
    KeysDiffer();
    hide Body, Key, Items;
    if start == Some(NodeTokens(n)) {
      assert start.value[1] == Lead(leaf)[1] == Lead(n.HashLeaf?)[1];
      SplitSame(Lead(leaf), rest.value, Lead(n.HashLeaf?), Items(Body(n)));
    }
  }

  lemma KeysDiffer()
    ensures Key(Hashes) != Key(Level)
  {
    assert |Letters(Hashes)| == 6 && |Letters(Level)| == 5;
  }

  lemma LeadBegins(n: HashNode)
    ensures NodeTokens(n)[..2] == Lead(n.HashLeaf?) && |NodeTokens(n)| >= 2
  {
    hide Body, Key, Items;
  }

  lemma LeadMatches(leaf: bool)
    ensures Matches([Exactly(MapHead(4)), AnyText], Lead(leaf))
  {
    hide Letters;
    var ps := [Exactly(MapHead(4)), AnyText];
    assert Suits(ps[0], Lead(leaf)[0]) && Suits(ps[1], Lead(leaf)[1]);
  }

  method ReadNode(d: Decoder) returns (r: Option<HashNode>)
    requires d.Valid()
    modifies d
    ensures d.Valid()
    ensures r.Some? ==> Typed(r.value) && Rows(r.value) != [] && old(d.Rest()) == Some(NodeTokens(r.value))
    ensures r.None? ==> forall n :: Typed(n) && Rows(n) != [] ==> old(d.Rest()) != Some(NodeTokens(n))
  {
    hide Typed, Body, Key, Rows, TokensFrom, NodeTokens, Items, Matches;
    ghost var start := d.Rest();
    var lead := d.ReadRecord([Exactly(MapHead(4)), AnyText]);
    if lead.None? {
      forall n: HashNode
        ensures start != Some(NodeTokens(n))
      {
        LeadBegins(n);
        LeadMatches(n.HashLeaf?);
        if start == Some(NodeTokens(n)) {
          FirstTwo(start, NodeTokens(n));
        }
      }
      return None;
    }
    LeadShape(lead.value);
    ghost var rest := d.Rest();
    if lead.value[1] == Key(Hashes) || lead.value[1] == Key(Level) {
      KeysDiffer();
      var leaf := lead.value[1] == Key(Hashes);
      r := ReadBody(d, leaf);
      assert lead.value == Lead(leaf);
      if r.Some? {
        LeadSays(r.value, leaf, start, rest);
      }
      forall n: HashNode | Typed(n) && Rows(n) != []
        ensures start == Some(NodeTokens(n)) ==> Spells(rest, leaf, n)
      {
        LeadSays(n, leaf, start, rest);
      }
    } else {
      forall n: HashNode
        ensures start != Some(NodeTokens(n))
      {
        LeadBegins(n);
        LeadKey(n.HashLeaf?);
        if start == Some(NodeTokens(n)) {
          SecondItem(start, lead.value, rest, NodeTokens(n));
        }
      }
      return None;
    }
  }

  lemma FirstTwo(start: Option<seq<Token>>, ts: seq<Token>)
    requires start == Some(ts) && |ts| >= 2
    ensures Begins(start, ts[..2])
  {
  }

  lemma SecondItem(start: Option<seq<Token>>, got: seq<Token>, rest: Option<seq<Token>>, ts: seq<Token>)
    requires start == Prepend(got, rest) && start == Some(ts) && |got| == 2 <= |ts|
    ensures got == ts[..2]
  {
  }

  lemma LeadKey(leaf: bool)
    ensures Lead(leaf)[1] == Key(Hashes) || Lead(leaf)[1] == Key(Level)
  {
  }

  lemma LeadShape(ts: seq<Token>)
    requires Matches([Exactly(MapHead(4)), AnyText], ts)
    ensures |ts| == 2 && ts[0] == MapHead(4)
  {
    var ps := [Exactly(MapHead(4)), AnyText];
    assert Suits(ps[0], ts[0]);
  }

  lemma NodesOnce(m: HashNode, n: HashNode)
    requires Typed(m) && Typed(n) && NodeTokens(m) == NodeTokens(n) && Rows(m) != [] && Rows(n) != []
    ensures m == n
  {
    KeysDiffer();
    LeadBegins(m);
    LeadBegins(n);
    assert Lead(m.HashLeaf?)[1] == Lead(n.HashLeaf?)[1];
    hide Key, Typed, Rows, Items, BodyLayout, Follows, Body;
    SplitSame(Lead(m.HashLeaf?), Items(Body(m)), Lead(n.HashLeaf?), Items(Body(n)));
    BodyFollows(m);
    BodyFollows(n);
    DocumentOnce(BodyLayout(m.HashLeaf?), Body(m), Body(n));
    BodyOnce(m, n);
  }

  lemma BodyOnce(m: HashNode, n: HashNode)
    requires Typed(m) && Typed(n) && m.HashLeaf? == n.HashLeaf? && Body(m) == Body(n)
    ensures m == n
  {
    var same := Body(m);
    assert same.rows == Rows(m) == Rows(n);
    if m.HashLeaf? {
      assert same.trailer[5] == Unsigned(m.firstPage) == Unsigned(n.firstPage);
      assert |m.hashes| == |Rows(m)| == |Rows(n)| == |n.hashes|;
      forall i | 0 <= i < |m.hashes|
        ensures m.hashes[i] == n.hashes[i]
      {
        assert Rows(m)[i] == [Blob(m.hashes[i])] == [Blob(n.hashes[i])];
      }
    } else {
      assert same.front[0] == Unsigned(m.level) == Unsigned(n.level);
      assert |m.children| == |Rows(m)| == |Rows(n)| == |n.children|;
      hide ChildTokens, ChildOf, ChildPattern, Matches, Key, ChildOk;
      forall i | 0 <= i < |m.children|
        ensures m.children[i] == n.children[i]
      {
        assert Rows(m)[i] == ChildTokens(m.children[i]) == ChildTokens(n.children[i]);
        ChildMatches(m.children[i]);
        ChildMatches(n.children[i]);
      }
    }
  }

  lemma StoredExactly(n: HashNode, input: Bytes)
    requires Typed(n)
    ensures Stored(n) == input <==> TokensFrom(input, 0) == Some(NodeTokens(n))
  {
    NodeTokensOk(n);
    TokensExactly(input, NodeTokens(n));
    hide *;
  }

  // No two nodes have the same stored form.
  lemma StoredOnce(m: HashNode, n: HashNode)
    requires Typed(m) && Typed(n) && Stored(m) == Stored(n) && HashValid(m) && HashValid(n)
    ensures m == n
  {
    StoredExactly(m, Stored(n));
    StoredExactly(n, Stored(n));
    ValidHasRows(m);
    ValidHasRows(n);
    NodesOnce(m, n);
    hide *;
  }

  // The bytes are accepted exactly when they are the stored form of a node.
  method DecodeCheckpointIndex(input: Bytes) returns (r: Option<HashNode>)
    ensures r.Some? ==> Storable(r.value)
    ensures forall n :: Storable(n) ==> (Stored(n) == input <==> r == Some(n))
  {
    hide Typed, HashValid, TokensFrom, Rows, NodeTokens, Stored;
    if |input| > MAX_NODE_BYTES {
      return None;
    }
    var d := new Decoder(input);
    r := ReadNode(d);
    forall n | Typed(n)
      ensures Stored(n) == input <==> TokensFrom(input, 0) == Some(NodeTokens(n))
    {
      StoredExactly(n, input);
    }
    forall n | Storable(n)
      ensures Rows(n) != []
    {
      ValidHasRows(n);
    }
    if r.None? {
      return None;
    }
    forall n | Storable(n) && Stored(n) == input
      ensures n == r.value
    {
      NodesOnce(n, r.value);
    }
    var valid := Validate(r.value);
    if !valid {
      return None;
    }
  }

  // ----- Encoding ---------------------------------------------------------------------------------

  method PutRows(out: Output, n: HashNode, ghost before: seq<Token>)
    requires Typed(n) && TokensOk(before) && out.data == PrintAll(before)
    modifies out
    ensures TokensOk(before + Flat(Rows(n))) && out.data == PrintAll(before + Flat(Rows(n)))
  {
    var count := if n.HashLeaf? then |n.hashes| else |n.children|;
    RowsMatch(n);
    NothingYet();
    hide ChildTokens, TokensOk, Typed, PrintAll, Flat, Rows, AllMatch;
    assert Rows(n)[..0] == [] && before + [] == before;
    for i := 0 to count
      invariant TokensOk(before + Flat(Rows(n)[..i])) && out.data == PrintAll(before + Flat(Rows(n)[..i]))
    {
      RowIs(n, i);
      NextRow(before, Rows(n), i);
      out.Items(if n.HashLeaf? then [Blob(n.hashes[i])] else ChildTokens(n.children[i]), before + Flat(Rows(n)[..i]));
    }
    assert Rows(n)[..count] == Rows(n);
  }

  lemma RowIs(n: HashNode, i: nat)
    requires i < |Rows(n)|
    ensures n.HashLeaf? ==> |n.hashes| == |Rows(n)| && Rows(n)[i] == [Blob(n.hashes[i])]
    ensures n.HashInternal? ==> |n.children| == |Rows(n)| && Rows(n)[i] == ChildTokens(n.children[i])
  {
    hide ChildTokens;
  }

  // A node is encoded exactly when it can be stored.
  method EncodeCheckpointIndex(n: HashNode) returns (r: Option<Bytes>)
    requires Typed(n)
    ensures r.Some? <==> Storable(n)
    ensures r.Some? ==> r.value == Stored(n)
  {
    var valid := Validate(n);
    if !valid {
      return None;
    }
    NodeTokensOk(n);
    FixedOk(n);
    RowsMatch(n);
    NothingYet();
    hide Lead, TokensOk, Key, Typed, HashValid, PrintAll, Flat, Rows, NodeTokens, AllMatch, AllOk;
    var out := new Output();
    out.Items(Lead(n.HashLeaf?), []);
    assert [] + Lead(n.HashLeaf?) == Lead(n.HashLeaf?);
    var count := if n.HashLeaf? then |n.hashes| else |n.children|;
    ghost var front := Lead(n.HashLeaf?) + Body(n).front;
    if n.HashLeaf? {
      out.Items([ArrayHead(count)], Lead(true));
    } else {
      out.Items([Unsigned(n.level), Key(Entries), ArrayHead(count)], Lead(false));
    }
    PutRows(out, n, front);
    NodeParts(n, front);
    if n.HashLeaf? {
      out.Items([Key(Version), Unsigned(1), Key(NodeType), Key(LeafWord), Key(FirstPage), Unsigned(n.firstPage)], front + Flat(Rows(n)));
    } else {
      out.Items([Key(Version), Unsigned(1), Key(NodeType), Key(InternalWord)], front + Flat(Rows(n)));
    }
    if |out.data| > MAX_NODE_BYTES {
      return None;
    }
    r := Some(out.data);
  }

  lemma NodeParts(n: HashNode, front: seq<Token>)
    requires front == Lead(n.HashLeaf?) + Body(n).front
    ensures NodeTokens(n) == front + Flat(Rows(n)) + Body(n).trailer
  {
    hide Rows, Lead, Key, Flat;
    assert Body(n).rows == Rows(n);
  }

  // ----- Size -------------------------------------------------------------------------------------

  lemma RowBrief(n: HashNode, i: nat)
    requires Typed(n) && i < |Rows(n)|
    requires n.HashInternal? ==> forall k :: 0 <= k < |n.children| ==> ShortUri(n.children[k].child)
    ensures AllBrief(Rows(n)[i]) && |Rows(n)[i]| <= 13
  {
    hide Letters, UriOk, IsUtf8, Around, RefTokens;
    if n.HashInternal? {
      AroundBrief(3, Child, n.children[i].child, ChildTail(n.children[i]));
    }
  }

  lemma FixedBrief(n: HashNode)
    ensures AllBrief(Lead(n.HashLeaf?) + Body(n).front) && AllBrief(Body(n).trailer)
    ensures |Lead(n.HashLeaf?) + Body(n).front| <= 5 && |Body(n).trailer| <= 6
  {
    hide Letters, Rows;
  }

  // Here too the limit never refuses a full node.
  lemma FullNodesFit(n: HashNode)
    requires Typed(n) && |Rows(n)| <= CAPACITY
    requires n.HashInternal? ==> forall k :: 0 <= k < |n.children| ==> ShortUri(n.children[k].child)
    ensures |Stored(n)| <= MAX_NODE_BYTES
  {
    hide Rows, Flat, Lead, Body, AllBrief, Typed, NodeTokens, PrintAll, TokensOk, ShortUri;
    NodeTokensOk(n);
    forall i | 0 <= i < |Rows(n)|
      ensures AllBrief(Rows(n)[i]) && |Rows(n)[i]| <= 13
    {
      RowBrief(n, i);
    }
    FixedBrief(n);
    InParts(n);
    DocumentSize(Lead(n.HashLeaf?) + Body(n).front, Rows(n), Body(n).trailer, 13);
  }

  lemma InParts(n: HashNode)
    ensures NodeTokens(n) == Lead(n.HashLeaf?) + Body(n).front + Flat(Rows(n)) + Body(n).trailer
  {
    var lead, front, trailer := Lead(n.HashLeaf?), Body(n).front, Body(n).trailer;
    assert Items(Body(n)) == front + Flat(Rows(n)) + trailer by {
      hide Rows, Flat, Key;
    }
    hide Rows, Flat, Lead, Key, Body;
    assert lead + (front + Flat(Rows(n)) + trailer) == lead + front + Flat(Rows(n)) + trailer;
  }
}
