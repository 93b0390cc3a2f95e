// The stored form of page-map nodes. Nodes and accepted bytes determine each other.
module PageMapCodec {
  import opened Wrappers
  import opened Objects
  import opened Encoding
  import opened Cbor
  import opened Documents
  import opened StoredReferences

  datatype MapEntry = MapEntry(
    page: nat, pack: ObjectRef, offset: nat, storedLength: nat, rawLength: nat, codec: PageCodec, pageSha256: Bytes)

  datatype MapBranch = MapBranch(maxPage: nat, child: ObjectRef)

  datatype MapNode = MapLeaf(entries: seq<MapEntry>) | MapInternal(level: nat, branches: seq<MapBranch>)

  // ----- Entries and branches as items -----------------------------------------------------

  predicate EntryOk(e: MapEntry) {
    && RefOk(e.pack) && e.page <= U64_MAX && e.offset <= U64_MAX && e.storedLength <= U32_MAX && e.rawLength <= U32_MAX
    && |e.pageSha256| == 32
  }

  function CodecWord(c: PageCodec): Word { if c.Plain? then NoneWord else ZstdWord }

  function EntryTail(e: MapEntry): (ts: seq<Token>)
    ensures |ts| == 12
  {
    [Key(Codec), Key(CodecWord(e.codec)), Key(Offset), Unsigned(e.offset), Key(RawLength), Unsigned(e.rawLength),
     Key(PageNumber), Unsigned(e.page), Key(PageSha256), Blob(e.pageSha256), Key(StoredLength), Unsigned(e.storedLength)]
  }

  function EntryTokens(e: MapEntry): (ts: seq<Token>)
    ensures |ts| == 21
  {
    Around(7, PackWord, e.pack, EntryTail(e))
  }

  function EntryTailPattern(): (ps: seq<Pattern>)
    ensures |ps| == 12
  {
    [Exactly(Key(Codec)), AnyCodec, Exactly(Key(Offset)), AnyCount(U64_MAX), Exactly(Key(RawLength)), AnyCount(U32_MAX),
     Exactly(Key(PageNumber)), AnyCount(U64_MAX), Exactly(Key(PageSha256)), AnyHash, Exactly(Key(StoredLength)), AnyCount(U32_MAX)]
  }

  function EntryPattern(): (ps: seq<Pattern>)
    ensures |ps| == 21
  {
    AroundPattern(7, PackWord, EntryTailPattern())
  }

  predicate TailMatches(ts: seq<Token>) { Matches(EntryTailPattern(), ts) }

  function EntryOf(ts: seq<Token>): MapEntry
    requires Matches(EntryPattern(), ts)
  {
    AroundMatches(7, PackWord, EntryTailPattern(), ts);
    var tail := ts[9..];
    TailShape(tail);
    MapEntry(tail[7].n, ReferenceOf(ts[2..9]), tail[3].n, tail[11].n, tail[5].n,
             if tail[1] == Key(NoneWord) then Plain else Zstd, tail[9].content)
  }

  lemma TailShape(ts: seq<Token>)
    requires TailMatches(ts)
    ensures |ts| == 12 && ts[3].Unsigned? && ts[5].Unsigned? && ts[7].Unsigned? && ts[9].Blob? && ts[11].Unsigned?
    ensures ts[3].n <= U64_MAX && ts[5].n <= U32_MAX && ts[7].n <= U64_MAX && |ts[9].content| == 32 && ts[11].n <= U32_MAX
    ensures ts[1] == Key(NoneWord) || ts[1] == Key(ZstdWord)
    ensures ts == [Key(Codec), ts[1], Key(Offset), ts[3], Key(RawLength), ts[5], Key(PageNumber), ts[7], Key(PageSha256), ts[9], Key(StoredLength), ts[11]]
  {
    hide Key;
    var ps := EntryTailPattern();
    assert Suits(ps[0], ts[0]) && Suits(ps[1], ts[1]) && Suits(ps[2], ts[2]) && Suits(ps[3], ts[3]);
    assert Suits(ps[4], ts[4]) && Suits(ps[5], ts[5]) && Suits(ps[6], ts[6]) && Suits(ps[7], ts[7]);
    assert Suits(ps[8], ts[8]) && Suits(ps[9], ts[9]) && Suits(ps[10], ts[10]) && Suits(ps[11], ts[11]);
  }

  lemma EntryRecord(ts: seq<Token>)
    requires Matches(EntryPattern(), ts) && TokensOk(ts)
    ensures EntryOk(EntryOf(ts)) && EntryTokens(EntryOf(ts)) == ts
  {
    hide Key, EntryTailPattern, RefPattern, UriOk, AroundPattern, Around, Matches;
    AroundSound(7, PackWord, EntryTailPattern(), ts);
    TailShape(ts[9..]);
    assert EntryTail(EntryOf(ts)) == ts[9..];
  }

  lemma CodecsDiffer()
    ensures Key(NoneWord) != Key(ZstdWord)
  {
    assert Letters(NoneWord)[0] == 110 && Letters(ZstdWord)[0] == 122;
  }

  lemma EntryMatches(e: MapEntry)
    requires EntryOk(e)
    ensures Matches(EntryPattern(), EntryTokens(e)) && EntryOf(EntryTokens(e)) == e && TokensOk(EntryTokens(e))
  {
    TailOk(e);
    AroundComplete(7, PackWord, e.pack, EntryTail(e), EntryTailPattern());
    EntryBack(e, EntryTokens(e));
    hide *;
  }

  lemma EntryBack(e: MapEntry, ts: seq<Token>)
    requires Matches(EntryPattern(), ts) && |ts| == 21 && ts[9..] == EntryTail(e) && Matches(RefPattern(), ts[2..9]) && ReferenceOf(ts[2..9]) == e.pack
    ensures EntryOf(ts) == e
  {
    CodecsDiffer();
    hide Key, RefPattern, EntryPattern, EntryTailPattern, TailMatches, ReferenceOf, Matches;
  }

  lemma TailOk(e: MapEntry)
    requires EntryOk(e)
    ensures TailMatches(EntryTail(e)) && TokensOk(EntryTail(e))
  {
    KeyOk(Codec);
    KeyOk(CodecWord(e.codec));
    KeyOk(Offset);
    KeyOk(RawLength);
    KeyOk(PageNumber);
    KeyOk(PageSha256);
    KeyOk(StoredLength);
    hide Key, RefOk;
  }

  predicate BranchOk(b: MapBranch) {
    b.maxPage <= U64_MAX && RefOk(b.child)
  }

  function BranchTokens(b: MapBranch): (ts: seq<Token>)
    ensures |ts| == 11
  {
    Around(2, Child, b.child, [Key(MaxPage), Unsigned(b.maxPage)])
  }

  function BranchTailPattern(): (ps: seq<Pattern>)
    ensures |ps| == 2
  {
    [Exactly(Key(MaxPage)), AnyCount(U64_MAX)]
  }

  function BranchPattern(): (ps: seq<Pattern>)
    ensures |ps| == 11
  {
    AroundPattern(2, Child, BranchTailPattern())
  }

  lemma BranchTailShape(ts: seq<Token>)
    requires Matches(BranchTailPattern(), ts)
    ensures |ts| == 2 && ts[1].Unsigned? && ts[1].n <= U64_MAX && ts == [Key(MaxPage), ts[1]]
  {
    var ps := BranchTailPattern();
    assert Suits(ps[0], ts[0]) && Suits(ps[1], ts[1]);
    hide Key;
  }

  function BranchOf(ts: seq<Token>): MapBranch
    requires Matches(BranchPattern(), ts)
  {
    AroundMatches(2, Child, BranchTailPattern(), ts);
    BranchTailShape(ts[9..]);
    MapBranch(ts[10].n, ReferenceOf(ts[2..9]))
  }

  lemma BranchRecord(ts: seq<Token>)
    requires Matches(BranchPattern(), ts) && TokensOk(ts)
    ensures BranchOk(BranchOf(ts)) && BranchTokens(BranchOf(ts)) == ts
  {
    hide Key, BranchTailPattern, RefPattern, UriOk, AroundPattern, Around;
    AroundSound(2, Child, BranchTailPattern(), ts);
    BranchTailShape(ts[9..]);
    assert ts[10] == ts[9..][1];
  }

  lemma BranchMatches(b: MapBranch)
    requires BranchOk(b)
    ensures Matches(BranchPattern(), BranchTokens(b)) && BranchOf(BranchTokens(b)) == b && TokensOk(BranchTokens(b))
  {
    KeyOk(MaxPage);
    var tail := [Key(MaxPage), Unsigned(b.maxPage)];
    assert Matches(BranchTailPattern(), tail);
    AroundComplete(2, Child, b.child, tail, BranchTailPattern());
    hide Key, RefPattern, ReferenceOf, RefOk, Matches, AroundPattern, Around, TokenOk;
    assert BranchTokens(b)[10] == BranchTokens(b)[9..][1];
  }

  // ----- Nodes ----------------------------------------------------------------------------------

  // validate: pages strictly increase, references are not empty, payloads lie in their
  // packs.
  predicate RefInOrder(previous: nat, page: nat, r: ObjectRef) {
    page > previous && r.length != 0
  }

  predicate RawLengthOk(n: nat) {
    n in {512, 1024, 2048, 4096, 8192, 16384, 32768, 65536}
  }

  predicate PayloadOk(e: MapEntry) {
    && e.storedLength != 0 && RawLengthOk(e.rawLength) && e.offset + e.storedLength <= e.pack.length
    && (e.codec.Plain? ==> e.storedLength == e.rawLength)
  }

  predicate EntryValid(entries: seq<MapEntry>, i: nat)
    requires i < |entries|
  {
    RefInOrder(if i == 0 then 0 else entries[i - 1].page, entries[i].page, entries[i].pack) && PayloadOk(entries[i])
  }

  predicate BranchValid(branches: seq<MapBranch>, i: nat)
    requires i < |branches|
  {
    RefInOrder(if i == 0 then 0 else branches[i - 1].maxPage, branches[i].maxPage, branches[i].child)
  }

  predicate NodeValid(n: MapNode) {
    match n
    case MapLeaf(entries) => entries != [] && forall i :: 0 <= i < |entries| ==> EntryValid(entries, i)
    case MapInternal(level, branches) =>
      level != 0 && branches != [] && forall i :: 0 <= i < |branches| ==> BranchValid(branches, i)
  }

  predicate PowerOfTwo(n: nat) {
    n == 1 || (n > 0 && n % 2 == 0 && PowerOfTwo(n / 2))
  }

  lemma RawLengths(n: nat)
    ensures RawLengthOk(n) <==> 512 <= n <= 65536 && PowerOfTwo(n)
  {
    if 512 <= n <= 65536 && PowerOfTwo(n) {
      PowersListed(n);
    }
    assert PowerOfTwo(1) && PowerOfTwo(2) && PowerOfTwo(4) && PowerOfTwo(8) && PowerOfTwo(16) && PowerOfTwo(32);
    assert PowerOfTwo(64) && PowerOfTwo(128) && PowerOfTwo(256) && PowerOfTwo(512) && PowerOfTwo(1024) && PowerOfTwo(2048);
    assert PowerOfTwo(4096) && PowerOfTwo(8192) && PowerOfTwo(16384) && PowerOfTwo(32768) && PowerOfTwo(65536);
  }

  lemma {:induction false} PowersListed(n: nat)
    requires PowerOfTwo(n) && n <= 65536
    ensures n in {1, 2, 4, 8, 16, 32, 64, 128, 256, 512, 1024, 2048, 4096, 8192, 16384, 32768, 65536}
  {
    if n > 1 {
      PowersListed(n / 2);
    }
  }

  method Validate(n: MapNode) returns (ok: bool)
    ensures ok == NodeValid(n)
  {
    var previous := 0;
    match n {
      case MapLeaf(entries) =>
        if entries == [] {
          return false;
        }
        for i := 0 to |entries|
          invariant previous == if i == 0 then 0 else entries[i - 1].page
          invariant forall k :: 0 <= k < i ==> EntryValid(entries, k)
        {
          var e := entries[i];
          if e.page <= previous || e.pack.length == 0 {
            assert !EntryValid(entries, i);
            return false;
          }
          RawLengths(e.rawLength);
          if e.storedLength == 0 || !(512 <= e.rawLength <= 65536) || !PowerOfTwo(e.rawLength)
             || e.offset + e.storedLength > e.pack.length || (e.codec == Plain && e.storedLength != e.rawLength) {
            assert !EntryValid(entries, i);
            return false;
          }
          previous := entries[i].page;
        }
      case MapInternal(level, branches) =>
        if level == 0 || branches == [] {
          return false;
        }
        for i := 0 to |branches|
          invariant previous == if i == 0 then 0 else branches[i - 1].maxPage
          invariant forall k :: 0 <= k < i ==> BranchValid(branches, k)
        {
          if branches[i].maxPage <= previous || branches[i].child.length == 0 {
            assert !BranchValid(branches, i);
            return false;
          }
          previous := branches[i].maxPage;
        }
    }
    return true;
  }

  // What the types of a node's fields guarantee.
  predicate Typed(n: MapNode) {
    match n
    case MapLeaf(entries) => |entries| <= U64_MAX && forall i :: 0 <= i < |entries| ==> EntryOk(entries[i])
    case MapInternal(level, branches) =>
      level <= U32_MAX && |branches| <= U64_MAX && forall i :: 0 <= i < |branches| ==> BranchOk(branches[i])
  }

  function EntryRows(entries: seq<MapEntry>): seq<seq<Token>> {
    seq(|entries|, i requires 0 <= i < |entries| => EntryTokens(entries[i]))
  }

  function BranchRows(branches: seq<MapBranch>): seq<seq<Token>> {
    seq(|branches|, i requires 0 <= i < |branches| => BranchTokens(branches[i]))
  }

  function Rows(n: MapNode): seq<seq<Token>> {
    if n.MapLeaf? then EntryRows(n.entries) else BranchRows(n.branches)
  }

  function Trailer(word: Word): (ts: seq<Token>)
    ensures |ts| == 4
  {
    [Key(Version), Unsigned(1), Key(NodeType), Key(word)]
  }

  function KindWord(leaf: bool): Word { if leaf then LeafWord else InternalWord }

  // The fields that tell the kind of node, and the others.
  function Lead(n: MapNode): seq<Token> {
    if n.MapLeaf? then [MapHead(3)] else [MapHead(4), Key(Level), Unsigned(n.level)]
  }

  function Body(n: MapNode): Document {
    Document([Key(Entries), ArrayHead(|Rows(n)|)], Rows(n), Trailer(KindWord(n.MapLeaf?)))
  }

  function NodeTokens(n: MapNode): seq<Token> {
    Lead(n) + Items(Body(n))
  }

  function RowPattern(leaf: bool): seq<Pattern> {
    if leaf then EntryPattern() else BranchPattern()
  }

  lemma RowsMatch(n: MapNode)
    requires Typed(n)
    ensures AllMatch(RowPattern(n.MapLeaf?), Rows(n), |Rows(n)|)
    ensures TokensOk(Flat(Rows(n)))
  {
    hide EntryTokens, BranchTokens, EntryPattern, BranchPattern, EntryOk, BranchOk, Matches, TokensOk;
    forall i | 0 <= i < |Rows(n)|
      ensures Matches(RowPattern(n.MapLeaf?), Rows(n)[i]) && TokensOk(Rows(n)[i])
    {
      if n.MapLeaf? {
        EntryMatches(n.entries[i]);
      } else {
        BranchMatches(n.branches[i]);
      }
    }
    FlatOk(Rows(n));
  }

  lemma FixedOk(n: MapNode)
    requires Typed(n)
    ensures TokensOk(Lead(n)) && TokensOk([Key(Entries), ArrayHead(|Rows(n)|)]) && TokensOk(Trailer(KindWord(n.MapLeaf?)))
  {
    KeyOk(Entries);
    KeyOk(Level);
    KeyOk(Version);
    KeyOk(NodeType);
    KeyOk(KindWord(n.MapLeaf?));
    hide Key, EntryOk, BranchOk, EntryTokens, BranchTokens;
  }

  lemma NodeTokensOk(n: MapNode)
    requires Typed(n)
    ensures TokensOk(NodeTokens(n))
  {
    RowsMatch(n);
    FixedOk(n);
    hide TokenOk, TokensOk, Rows, Lead, Trailer, Key, Typed, Flat;
    TokensOkJoin(Flat(Rows(n)), Trailer(KindWord(n.MapLeaf?)));
    TokensOkJoin([Key(Entries), ArrayHead(|Rows(n)|)], Flat(Rows(n)) + Trailer(KindWord(n.MapLeaf?)));
    TokensOkJoin(Lead(n), Items(Body(n)));
  }

  // The stored form.
  function Stored(n: MapNode): Bytes
    requires Typed(n)
  {
    NodeTokensOk(n);
    PrintAll(NodeTokens(n))
  }

  // The nodes that can be stored.
  predicate Storable(n: MapNode) {
    Typed(n) && NodeValid(n) && |Stored(n)| <= MAX_NODE_BYTES
  }

  // ----- Decoding -------------------------------------------------------------------------------

  function BodyLayout(leaf: bool): Layout {
    Layout([Exactly(Key(Entries)), AnyArray], RowPattern(leaf),
           [Exactly(Key(Version)), Exactly(Unsigned(1)), Exactly(Key(NodeType)), Exactly(Key(KindWord(leaf)))])
  }

  lemma FrontShape(leaf: bool, ts: seq<Token>)
    ensures Matches(BodyLayout(leaf).front, ts) <==> |ts| == 2 && ts[1].ArrayHead? && ts == [Key(Entries), ArrayHead(ts[1].n)]
  {
    hide Key, RowPattern;
    var ps := BodyLayout(leaf).front;
    if |ts| == 2 {
      assert Matches(ps, ts) <==> Suits(ps[0], ts[0]) && Suits(ps[1], ts[1]);
    }
  }

  lemma TrailerShape(leaf: bool, ts: seq<Token>)
    ensures Matches(BodyLayout(leaf).trailer, ts) <==> ts == Trailer(KindWord(leaf))
  {
    hide Key, RowPattern;
    var ps := BodyLayout(leaf).trailer;
    if |ts| == 4 {
      assert Matches(ps, ts) <==> Suits(ps[0], ts[0]) && Suits(ps[1], ts[1]) && Suits(ps[2], ts[2]) && Suits(ps[3], ts[3]);
    }
  }

  lemma BodyFollows(n: MapNode)
    requires Typed(n) && Rows(n) != []
    ensures Follows(BodyLayout(n.MapLeaf?), Body(n))
  {
    RowsMatch(n);
    FrontShape(n.MapLeaf?, [Key(Entries), ArrayHead(|Rows(n)|)]);
    TrailerShape(n.MapLeaf?, Trailer(KindWord(n.MapLeaf?)));
    hide Rows, Trailer, Key, Typed, Flat, Matches;
  }

  // The node that rows of records spell.
  function NodeOf(leaf: bool, level: nat, rows: seq<seq<Token>>): MapNode
    requires AllMatch(RowPattern(leaf), rows, |rows|)
  {
    if leaf then MapLeaf(seq(|rows|, i requires 0 <= i < |rows| => (assert Matches(RowPattern(leaf), rows[i]); EntryOf(rows[i]))))
    else MapInternal(level, seq(|rows|, i requires 0 <= i < |rows| => (assert Matches(RowPattern(leaf), rows[i]); BranchOf(rows[i]))))
  }

  lemma NodeRows(leaf: bool, level: nat, rows: seq<seq<Token>>)
    requires AllMatch(RowPattern(leaf), rows, |rows|) && level <= U32_MAX && |rows| <= U64_MAX
    requires AllOk(rows)
    ensures Typed(NodeOf(leaf, level, rows)) && Rows(NodeOf(leaf, level, rows)) == rows
  {
    hide EntryTokens, BranchTokens, EntryPattern, BranchPattern, EntryOk, BranchOk, Matches, TokensOk, EntryOf, BranchOf;
    forall i | 0 <= i < |rows|
      ensures leaf ==> EntryOk(EntryOf(rows[i])) && EntryTokens(EntryOf(rows[i])) == rows[i]
      ensures !leaf ==> BranchOk(BranchOf(rows[i])) && BranchTokens(BranchOf(rows[i])) == rows[i]
    {
      assert Matches(RowPattern(leaf), rows[i]);
      if leaf {
        EntryRecord(rows[i]);
      } else {
        BranchRecord(rows[i]);
      }
    }
  }

  lemma DocumentIsBody(leaf: bool, level: nat, doc: Document)
    requires Follows(BodyLayout(leaf), doc) && TokensOk(doc.front) && AllOk(doc.rows) && level <= U32_MAX
    ensures AllMatch(RowPattern(leaf), doc.rows, |doc.rows|)
    ensures Typed(NodeOf(leaf, level, doc.rows)) && Body(NodeOf(leaf, level, doc.rows)) == doc
    ensures Rows(NodeOf(leaf, level, doc.rows)) == doc.rows
  {
    FrontShape(leaf, doc.front);
    TrailerShape(leaf, doc.trailer);
    FrontCount(doc.front);
    hide Rows, Trailer, Key, Typed, Flat, Matches, AllOk, TokensOk, RowPattern;
    NodeRows(leaf, level, doc.rows);
  }

  lemma FrontCount(front: seq<Token>)
    requires TokensOk(front) && |front| == 2 && front[1].ArrayHead?
    ensures front[1].n <= U64_MAX
  {
    assert TokenOk(front[1]);
  }

  // These items are the fields of such a node after its kind.
  ghost predicate Spells(start: Option<seq<Token>>, leaf: bool, n: MapNode) {
    Typed(n) && n.MapLeaf? == leaf && start == Some(Items(Body(n)))
  }

  lemma LayoutShape(leaf: bool)
    ensures var l := BodyLayout(leaf); l.row != [] && |l.front| == 2 && l.front[1] == AnyArray
  {
    hide Key;
  }

  lemma FollowsRows(leaf: bool, doc: Document)
    requires Follows(BodyLayout(leaf), doc)
    ensures doc.rows != []
  {
    hide BodyLayout;
  }

  // The fields after the kind of node.
  method ReadBody(d: Decoder, leaf: bool, level: nat) returns (r: Option<MapNode>)
    requires d.Valid() && level <= U32_MAX
    modifies d
    ensures d.Valid()
    ensures r.Some? ==> r.value.MapLeaf? == leaf && (!leaf ==> r.value.level == level)
    ensures r.Some? ==> Spells(old(d.Rest()), leaf, r.value) && Rows(r.value) != []
    ensures r.None? ==> forall n :: Rows(n) != [] ==> !Spells(old(d.Rest()), leaf, n)
  {
    LayoutShape(leaf);
    hide Rows, Typed, Trailer, Key, Flat, AllOk, RowPattern, Body, BodyLayout, Follows, Items, Matches, TokensFrom;
    ghost var start := d.Rest();
    var doc := ReadDocument(d, BodyLayout(leaf));
    forall n | Spells(start, leaf, n) && Rows(n) != []
      ensures doc.Some?
    {
      BodyFollows(n);
    }
    if doc.None? {
      return None;
    }
    DocumentIsBody(leaf, level, doc.value);
    FollowsRows(leaf, doc.value);
    r := Some(NodeOf(leaf, level, doc.value.rows));
  }

  // What the kind of node says of the items that follow.
  lemma LeafLead(n: MapNode, start: Option<seq<Token>>, rest: Option<seq<Token>>)
    requires start == Prepend([MapHead(3)], rest)
    ensures start == Some(NodeTokens(n)) <==> n.MapLeaf? && rest == Some(Items(Body(n)))
  {
    hide Body, Items, Key;
    if start == Some(NodeTokens(n)) {
      assert NodeTokens(n)[0] == MapHead(3);
      SplitSame([MapHead(3)], rest.value, Lead(n), Items(Body(n)));
    }
  }

  function LevelPattern(): seq<Pattern> { [Exactly(Key(Level)), AnyCount(U32_MAX)] }

  lemma LevelShape(ts: seq<Token>)
    ensures Matches(LevelPattern(), ts) <==> |ts| == 2 && ts[0] == Key(Level) && ts[1].Unsigned? && ts[1].n <= U32_MAX
  {
    hide Key;
    if |ts| == 2 {
      assert Matches(LevelPattern(), ts) <==> Suits(LevelPattern()[0], ts[0]) && Suits(LevelPattern()[1], ts[1]);
    }
  }

  lemma InternalLead(n: MapNode, start: Option<seq<Token>>, middle: Option<seq<Token>>)
    requires start == Prepend([MapHead(4)], middle)
    ensures start == Some(NodeTokens(n)) <==> n.MapInternal? && middle == Some([Key(Level), Unsigned(n.level)] + Items(Body(n)))
  {
    hide Body, Items, Key;
    if start == Some(NodeTokens(n)) {
      assert NodeTokens(n)[0] == MapHead(4);
      assert NodeTokens(n) == [MapHead(4)] + ([Key(Level), Unsigned(n.level)] + Items(Body(n)));
      SplitSame([MapHead(4)], middle.value, [MapHead(4)], [Key(Level), Unsigned(n.level)] + Items(Body(n)));
    }
    if n.MapInternal? && middle == Some([Key(Level), Unsigned(n.level)] + Items(Body(n))) {
      assert NodeTokens(n) == [MapHead(4)] + ([Key(Level), Unsigned(n.level)] + Items(Body(n)));
    }
  }

  lemma LevelLead(n: MapNode, middle: Option<seq<Token>>, fields: seq<Token>, rest: Option<seq<Token>>)
    requires n.MapInternal? && Matches(LevelPattern(), fields) && middle == Prepend(fields, rest)
    ensures middle == Some([Key(Level), Unsigned(n.level)] + Items(Body(n))) <==> fields[1].n == n.level && rest == Some(Items(Body(n)))
  {
    LevelShape(fields);
    hide Body, Items, Key, LevelPattern;
    assert fields == [Key(Level), Unsigned(fields[1].n)];
    if middle == Some([Key(Level), Unsigned(n.level)] + Items(Body(n))) {
      SplitSame(fields, rest.value, [Key(Level), Unsigned(n.level)], Items(Body(n)));
    }
  }

  lemma LevelBegins(n: MapNode, middle: Option<seq<Token>>)
    requires Typed(n) && n.MapInternal? && middle == Some([Key(Level), Unsigned(n.level)] + Items(Body(n)))
    ensures Matches(LevelPattern(), [Key(Level), Unsigned(n.level)]) && Begins(middle, [Key(Level), Unsigned(n.level)])
  {
    LevelShape([Key(Level), Unsigned(n.level)]);
    hide Body, Items, Key;
  }

  method ReadInternal(d: Decoder) returns (r: Option<MapNode>)
    requires d.Valid()
    modifies d
    ensures d.Valid()
    ensures r.Some? ==> Rows(r.value) != []
    ensures r.Some? ==> Typed(r.value) && r.value.MapInternal? && old(d.Rest()) == Some([Key(Level), Unsigned(r.value.level)] + Items(Body(r.value)))
    ensures r.None? ==> forall n :: Typed(n) && n.MapInternal? && Rows(n) != [] ==>
      old(d.Rest()) != Some([Key(Level), Unsigned(n.level)] + Items(Body(n)))
  {
    hide Typed, Body, Items, Key, Rows, LevelPattern, Matches;
    ghost var middle := d.Rest();
    var fields := d.ReadRecord(LevelPattern());
    if fields.None? {
      forall n | Typed(n) && n.MapInternal?
        ensures middle != Some([Key(Level), Unsigned(n.level)] + Items(Body(n)))
      {
        if middle == Some([Key(Level), Unsigned(n.level)] + Items(Body(n))) {
          LevelBegins(n, middle);
        }
      }
      return None;
    }
    LevelShape(fields.value);
    ghost var rest := d.Rest();
    r := ReadBody(d, false, fields.value[1].n);
    forall n: MapNode | n.MapInternal?
      ensures middle == Some([Key(Level), Unsigned(n.level)] + Items(Body(n))) <==> fields.value[1].n == n.level && rest == Some(Items(Body(n)))
    {
      LevelLead(n, middle, fields.value, rest);
    }
  }

  method ReadNode(d: Decoder) returns (r: Option<MapNode>)
    requires d.Valid()
    modifies d
    ensures d.Valid()
    ensures r.Some? ==> Typed(r.value) && Rows(r.value) != [] && old(d.Rest()) == Some(NodeTokens(r.value))
    ensures r.None? ==> forall n :: Typed(n) && Rows(n) != [] ==> old(d.Rest()) != Some(NodeTokens(n))
  {
    hide Typed, Body, Items, Key, Rows, TokensFrom, NodeTokens;
    ghost var start := d.Rest();
    var head := d.Next();
    ghost var rest := d.Rest();
    if head == Some(MapHead(3)) {
      r := ReadBody(d, true, 0);
      forall n: MapNode
        ensures start == Some(NodeTokens(n)) <==> n.MapLeaf? && rest == Some(Items(Body(n)))
      {
        LeafLead(n, start, rest);
      }
    } else if head == Some(MapHead(4)) {
      r := ReadInternal(d);
      forall n: MapNode
        ensures start == Some(NodeTokens(n)) <==> n.MapInternal? && rest == Some([Key(Level), Unsigned(n.level)] + Items(Body(n)))
      {
        InternalLead(n, start, rest);
      }
    } else {
      r := None;
      forall n
        ensures start != Some(NodeTokens(n))
      {
        FirstItem(n);
      }
    }
  }

  lemma FirstItem(n: MapNode)
    ensures NodeTokens(n) != [] && (NodeTokens(n)[0] == MapHead(3) || NodeTokens(n)[0] == MapHead(4))
  {
    hide Body, Key;
  }

  lemma StoredExactly(n: MapNode, input: Bytes)
    requires Typed(n)
    ensures Stored(n) == input <==> TokensFrom(input, 0) == Some(NodeTokens(n))
  {
    NodeTokensOk(n);
    TokensExactly(input, NodeTokens(n));
    hide *;
  }

  lemma RowsOnce(m: MapNode, n: MapNode)
    requires Typed(m) && Typed(n) && m.MapLeaf? == n.MapLeaf? && Rows(m) == Rows(n) && (m.MapInternal? ==> m.level == n.level)
    ensures m == n
  {
    hide EntryTokens, BranchTokens, EntryOk, BranchOk, EntryOf, BranchOf, EntryPattern, BranchPattern, Matches;
    if m.MapLeaf? {
      forall i | 0 <= i < |m.entries|
        ensures i < |n.entries| && m.entries[i] == n.entries[i]
      {
        assert |Rows(m)| == |m.entries| && |Rows(n)| == |n.entries| && Rows(m)[i] == EntryTokens(m.entries[i]) && Rows(n)[i] == EntryTokens(n.entries[i]);
        EntryMatches(m.entries[i]);
        EntryMatches(n.entries[i]);
      }
      assert |Rows(m)| == |m.entries| && |Rows(n)| == |n.entries|;
    } else {
      forall i | 0 <= i < |m.branches|
        ensures i < |n.branches| && m.branches[i] == n.branches[i]
      {
        assert |Rows(m)| == |m.branches| && |Rows(n)| == |n.branches| && Rows(m)[i] == BranchTokens(m.branches[i]) && Rows(n)[i] == BranchTokens(n.branches[i]);
        BranchMatches(m.branches[i]);
        BranchMatches(n.branches[i]);
      }
      assert |Rows(m)| == |m.branches| && |Rows(n)| == |n.branches|;
    }
  }

  lemma NodesOnce(m: MapNode, n: MapNode)
    requires Typed(m) && Typed(n) && NodeTokens(m) == NodeTokens(n) && Rows(m) != [] && Rows(n) != []
    ensures m == n
  {
    hide Key, Typed, Rows, Items, BodyLayout, Follows;
    FirstItem(m);
    FirstItem(n);
    assert Lead(m)[0] == NodeTokens(m)[0] == NodeTokens(n)[0] == Lead(n)[0];
    SplitSame(Lead(m), Items(Body(m)), Lead(n), Items(Body(n)));
    if m.MapInternal? {
      assert Lead(m)[2] == Lead(n)[2];
    }
    BodyFollows(m);
    BodyFollows(n);
    DocumentOnce(BodyLayout(m.MapLeaf?), Body(m), Body(n));
    RowsOnce(m, n);
  }

  // No two nodes have the same stored form.
  lemma StoredOnce(m: MapNode, n: MapNode)
    requires Typed(m) && Typed(n) && Stored(m) == Stored(n) && NodeValid(m) && NodeValid(n)
    ensures m == n
  {
    StoredExactly(m, Stored(n));
    StoredExactly(n, Stored(n));
    ValidHasRows(m);
    ValidHasRows(n);
    NodesOnce(m, n);
    hide *;
  }

  lemma ValidHasRows(n: MapNode)
    requires NodeValid(n)
    ensures Rows(n) != []
  {
    hide EntryTokens, BranchTokens;
    assert |Rows(n)| == if n.MapLeaf? then |n.entries| else |n.branches|;
  }

  // The bytes are accepted exactly when they are the stored form of a node.
  method DecodePageMap(input: Bytes) returns (r: Option<MapNode>)
    ensures r.Some? ==> Storable(r.value)
    ensures forall n :: Storable(n) ==> (Stored(n) == input <==> r == Some(n))
  {
    hide Typed, NodeValid, TokensFrom, Rows, NodeTokens, Stored;
    if |input| > MAX_NODE_BYTES {
      return None;
    }
    var d := new Decoder(input);
    r := ReadNode(d);
    forall n | Typed(n)
      ensures Stored(n) == input <==> TokensFrom(input, 0) == Some(NodeTokens(n))
    {
      StoredExactly(n, input);
    }
    forall n | Storable(n)
      ensures Rows(n) != []
    {
      ValidHasRows(n);
    }
    if r.None? {
      return None;
    }
    var valid := Validate(r.value);
    if !valid {
      forall n | Storable(n)
        ensures Stored(n) != input
      {
        if Stored(n) == input {
          NodesOnce(n, r.value);
        }
      }
      return None;
    }
    forall n | Storable(n) && Stored(n) == input
      ensures n == r.value
    {
      NodesOnce(n, r.value);
    }
  }

  // ----- Encoding -------------------------------------------------------------------------------

  method PutRows(out: Output, n: MapNode, ghost before: seq<Token>)
    requires Typed(n) && TokensOk(before) && out.data == PrintAll(before)
    modifies out
    ensures TokensOk(before + Flat(Rows(n))) && out.data == PrintAll(before + Flat(Rows(n)))
  {
    var count := if n.MapLeaf? then |n.entries| else |n.branches|;
    RowCount(n);
    NothingYet();
    hide EntryTokens, BranchTokens, TokensOk, Typed, PrintAll, Flat, Rows;
    assert Rows(n)[..0] == [] && before + [] == before;
    for i := 0 to count
      invariant TokensOk(before + Flat(Rows(n)[..i])) && out.data == PrintAll(before + Flat(Rows(n)[..i]))
    {
      RowOk(n, i);
      NextRow(before, Rows(n), i);
      out.Items(if n.MapLeaf? then EntryTokens(n.entries[i]) else BranchTokens(n.branches[i]), before + Flat(Rows(n)[..i]));
    }
    assert Rows(n)[..count] == Rows(n);
  }

  lemma RowCount(n: MapNode)
    ensures |Rows(n)| == if n.MapLeaf? then |n.entries| else |n.branches|
  {
  }

  lemma NodeParts(n: MapNode, front: seq<Token>)
    requires front == Lead(n) + [Key(Entries), ArrayHead(|Rows(n)|)]
    ensures NodeTokens(n) == front + Flat(Rows(n)) + Trailer(KindWord(n.MapLeaf?))
  {
    hide Rows, Lead, Trailer, Key, Flat;
  }

  // A node is encoded exactly when it can be stored.
  method EncodePageMap(n: MapNode) returns (r: Option<Bytes>)
    requires Typed(n)
    ensures r.Some? <==> Storable(n)
    ensures r.Some? ==> r.value == Stored(n)
  {
    var valid := Validate(n);
    if !valid {
      return None;
    }
    NodeTokensOk(n);
    FixedOk(n);
    RowCount(n);
    NothingYet();
    hide Trailer, Lead, TokensOk, Key, Typed, NodeValid, PrintAll, Flat, Rows, NodeTokens;
    var out := new Output();
    out.Items(Lead(n), []);
    assert [] + Lead(n) == Lead(n);
    ghost var front := Lead(n) + [Key(Entries), ArrayHead(|Rows(n)|)];
    out.Items([Key(Entries), ArrayHead(if n.MapLeaf? then |n.entries| else |n.branches|)], Lead(n));
    PutRows(out, n, front);
    NodeParts(n, front);
    out.Items(Trailer(KindWord(n.MapLeaf?)), front + Flat(Rows(n)));
    if |out.data| > MAX_NODE_BYTES {
      return None;
    }
    r := Some(out.data);
  }

  lemma RowOk(n: MapNode, i: nat)
    requires Typed(n) && i < |Rows(n)|
    ensures TokensOk(Rows(n)[i])
    ensures n.MapLeaf? ==> Rows(n)[i] == EntryTokens(n.entries[i])
    ensures n.MapInternal? ==> Rows(n)[i] == BranchTokens(n.branches[i])
  {
    if n.MapLeaf? {
      EntryMatches(n.entries[i]);
    } else {
      BranchMatches(n.branches[i]);
    }
    hide EntryTokens, BranchTokens, EntryPattern, BranchPattern, EntryOf, BranchOf, Matches, TokensOk;
  }

  // ----- Size -------------------------------------------------------------------------------------

  // Names of the length content addressing gives.
  predicate ShortUris(n: MapNode) {
    if n.MapLeaf? then forall i :: 0 <= i < |n.entries| ==> ShortUri(n.entries[i].pack)
    else forall i :: 0 <= i < |n.branches| ==> ShortUri(n.branches[i].child)
  }

  lemma RowBrief(n: MapNode, i: nat)
    requires Typed(n) && ShortUris(n) && i < |Rows(n)|
    ensures AllBrief(Rows(n)[i]) && |Rows(n)[i]| <= 21
  {
    hide Letters, UriOk, IsUtf8, Around, RefTokens;
    if n.MapLeaf? {
      AroundBrief(7, PackWord, n.entries[i].pack, EntryTail(n.entries[i]));
    } else {
      AroundBrief(2, Child, n.branches[i].child, [Key(MaxPage), Unsigned(n.branches[i].maxPage)]);
    }
  }

  lemma FixedBrief(n: MapNode)
    ensures AllBrief(Lead(n) + [Key(Entries), ArrayHead(|Rows(n)|)]) && AllBrief(Trailer(KindWord(n.MapLeaf?)))
  {
    hide Letters, Rows;
  }

  // The limit on stored nodes never refuses a full one: 128 entries with names of this
  // length fit.
  lemma FullNodesFit(n: MapNode)
    requires Typed(n) && ShortUris(n) && |Rows(n)| <= CAPACITY
    ensures |Stored(n)| <= MAX_NODE_BYTES
  {
    NodeTokensOk(n);
    forall i | 0 <= i < |Rows(n)|
      ensures AllBrief(Rows(n)[i]) && |Rows(n)[i]| <= 21
    {
      RowBrief(n, i);
    }
    hide Rows, Flat, Trailer, Lead, Key, AllBrief, Typed, ShortUris, NodeTokens, PrintAll, Print;
    FixedBrief(n);
    var front := Lead(n) + [Key(Entries), ArrayHead(|Rows(n)|)];
    NodeParts(n, front);
    NodeSize(n, front);
    DocumentSize(front, Rows(n), Trailer(KindWord(n.MapLeaf?)), 21);
  }

  lemma NodeSize(n: MapNode, front: seq<Token>)
    requires front == Lead(n) + [Key(Entries), ArrayHead(|Rows(n)|)]
    ensures |front| + |Trailer(KindWord(n.MapLeaf?))| <= 9
  {
    hide Rows, Flat, Key;
  }
}
