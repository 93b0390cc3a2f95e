// The maps of the stored forms: all have their keys in order but one.
module OrderedForms {
  import opened Wrappers
  import opened Objects
  import opened Cbor
  import opened Documents
  import opened StoredReferences
  import opened KeyOrder
  import P = PageMapCodec
  import C = CheckpointCodec
  import S = ScalarCodec

  // ----- References ----------------------------------------------------------------------------

  function RefFields(r: ObjectRef): seq<Pair> {
    Add(Uri, Single(Text(r.uri)), Add(Length, Single(Unsigned(r.length)), Add(Sha256, Single(Blob(r.sha256)), [])))
  }

  function RefItem(r: ObjectRef): Item {
    Mapping(RefFields(r))
  }

  lemma RefSpells(r: ObjectRef)
    ensures Spell(RefItem(r)) == RefTokens(r) && Sane(RefItem(r)) && Ordered(RefItem(r))
  {
    var last := Add(Sha256, Single(Blob(r.sha256)), []);
    var two := Add(Length, Single(Unsigned(r.length)), last);
    hide Key, WordLess, Rising, SanePairs, Letters, Add, SpellPairs, Spell, Sane, Ordered;
    NoFields();
    SameSizes();
    BySize(Uri, Length);
    One(Sha256, Blob(r.sha256), [], Sha256);
    One(Length, Unsigned(r.length), last, Sha256);
    One(Uri, Text(r.uri), two, Length);
    MappingIs(RefFields(r));
    RefCount(r);
    assert [Key(Length), Unsigned(r.length)] + ([Key(Sha256), Blob(r.sha256)] + []) == [Key(Length), Unsigned(r.length), Key(Sha256), Blob(r.sha256)];
  }

  lemma RefCount(r: ObjectRef)
    ensures |RefFields(r)| == 3
  {
  }

  // ----- Page maps -----------------------------------------------------------------------------

  function EntryFields(e: P.MapEntry): seq<Pair> {
    Add(Codec, Single(Key(P.CodecWord(e.codec))),
      Add(Offset, Single(Unsigned(e.offset)),
        Add(RawLength, Single(Unsigned(e.rawLength)),
          Add(PageNumber, Single(Unsigned(e.page)),
            Add(PageSha256, Single(Blob(e.pageSha256)),
              Add(StoredLength, Single(Unsigned(e.storedLength)), []))))))
  }

  lemma EntryFieldsSpell(e: P.MapEntry)
    ensures SpellPairs(EntryFields(e)) == P.EntryTail(e) && SanePairs(EntryFields(e)) && |EntryFields(e)| == 6
    ensures Rising(EntryFields(e)) && StartsWith(EntryFields(e), Codec)
  {
    var size := Add(StoredLength, Single(Unsigned(e.storedLength)), []);
    var sha := Add(PageSha256, Single(Blob(e.pageSha256)), size);
    var page := Add(PageNumber, Single(Unsigned(e.page)), sha);
    var raw := Add(RawLength, Single(Unsigned(e.rawLength)), page);
    var offset := Add(Offset, Single(Unsigned(e.offset)), raw);
    hide Key, WordLess, Rising, SanePairs, Letters;
    NoFields();
    SameSizes();
    BySize(PageSha256, StoredLength);
    BySize(RawLength, PageNumber);
    BySize(Offset, RawLength);
    BySize(Codec, Offset);
    One(StoredLength, Unsigned(e.storedLength), [], StoredLength);
    One(PageSha256, Blob(e.pageSha256), size, StoredLength);
    One(PageNumber, Unsigned(e.page), sha, PageSha256);
    One(RawLength, Unsigned(e.rawLength), page, PageNumber);
    One(Offset, Unsigned(e.offset), raw, RawLength);
    KeyIsText(P.CodecWord(e.codec));
    One(Codec, Key(P.CodecWord(e.codec)), offset, Offset);
    Twelve(Key(Codec), Key(P.CodecWord(e.codec)), Key(Offset), Unsigned(e.offset), Key(RawLength), Unsigned(e.rawLength),
           Key(PageNumber), Unsigned(e.page), Key(PageSha256), Blob(e.pageSha256), Key(StoredLength), Unsigned(e.storedLength));
    hide Add, SpellPairs, Spell;
  }

  lemma Twelve(a: Token, b: Token, c: Token, d: Token, e: Token, f: Token, g: Token, h: Token, i: Token, j: Token, k: Token, l: Token)
    ensures [a, b] + ([c, d] + ([e, f] + ([g, h] + ([i, j] + ([k, l] + []))))) == [a, b, c, d, e, f, g, h, i, j, k, l]
  {
    assert [i, j] + ([k, l] + []) == [i, j, k, l];
    assert [g, h] + [i, j, k, l] == [g, h, i, j, k, l];
    assert [e, f] + [g, h, i, j, k, l] == [e, f, g, h, i, j, k, l];
    assert [c, d] + [e, f, g, h, i, j, k, l] == [c, d, e, f, g, h, i, j, k, l];
  }

  // A field whose value is one token.
  lemma One(word: Word, value: Token, rest: seq<Pair>, next: Word)
    requires !value.ArrayHead? && !value.MapHead? && SanePairs(rest) && Rising(rest)
    requires rest == [] || (StartsWith(rest, next) && WordLess(word, next))
    ensures var all := Add(word, Single(value), rest);
      SpellPairs(all) == [Key(word), value] + SpellPairs(rest) && SanePairs(all) && Rising(all) && StartsWith(all, word)
  {
    hide Key, WordLess, Rising, SanePairs, Add;
    AddSpells(word, Single(value), rest);
    AddRises(word, Single(value), rest, next);
  }

  // A field whose value has parts.
  lemma Whole(word: Word, value: Item, rest: seq<Pair>, next: Word)
    requires Sane(value) && Ordered(value) && SanePairs(rest) && Rising(rest)
    requires rest == [] || (StartsWith(rest, next) && WordLess(word, next))
    ensures var all := Add(word, value, rest);
      SpellPairs(all) == [Key(word)] + Spell(value) + SpellPairs(rest) && SanePairs(all) && Rising(all) && StartsWith(all, word)
  {
    hide Key, WordLess, Rising, SanePairs, Add;
    AddSpells(word, value, rest);
    AddRises(word, value, rest, next);
  }

  function EntryItem(e: P.MapEntry): Item {
    Mapping(Add(PackWord, RefItem(e.pack), EntryFields(e)))
  }

  lemma AroundSpelling(n: nat, word: Word, r: ObjectRef, rest: seq<Pair>)
    requires SanePairs(rest) && n == 1 + |rest|
    ensures var item := Mapping(Add(word, RefItem(r), rest)); Spell(item) == Around(n, word, r, SpellPairs(rest)) && Sane(item)
  {
    hide Key, SanePairs, RefItem, RefTokens, Rising, WordLess;
    RefSpells(r);
    AddSpells(word, RefItem(r), rest);
    MappingIs(Add(word, RefItem(r), rest));
    assert |Add(word, RefItem(r), rest)| == n;
    hide Sane, Ordered, Spell, SpellPairs, Add;
    AroundRegrouped(MapHead(n), Key(word), RefTokens(r), SpellPairs(rest));
  }

  lemma AroundRegrouped(a: Token, b: Token, ref: seq<Token>, rest: seq<Token>)
    ensures [a] + ([b] + ref + rest) == [a, b] + ref + rest
  {
  }

  // A record around a reference.
  lemma AroundSpells(n: nat, word: Word, r: ObjectRef, rest: seq<Pair>, next: Word)
    requires SanePairs(rest) && Rising(rest) && StartsWith(rest, next) && WordLess(word, next) && n == 1 + |rest|
    ensures var item := Mapping(Add(word, RefItem(r), rest));
      Spell(item) == Around(n, word, r, SpellPairs(rest)) && Sane(item) && Ordered(item)
  {
    hide Key, WordLess, Rising, SanePairs, RefItem, Spell, SpellPairs, Around, Add;
    AroundSpelling(n, word, r, rest);
    RefSpells(r);
    AddRises(word, RefItem(r), rest, next);
    MappingIs(Add(word, RefItem(r), rest));
    hide Sane, Ordered;
  }

  lemma EntrySpells(e: P.MapEntry)
    ensures Spell(EntryItem(e)) == P.EntryTokens(e) && Sane(EntryItem(e)) && Ordered(EntryItem(e))
  {
    hide Key, WordLess, Rising, SanePairs, EntryFields, RefItem, P.EntryTail, Add, Spell, SpellPairs, Sane, Ordered, Around;
    EntryFieldsSpell(e);
    BySize(PackWord, Codec);
    AroundSpells(7, PackWord, e.pack, EntryFields(e), Codec);
  }

  function BranchItem(b: P.MapBranch): Item {
    Mapping(Add(Child, RefItem(b.child), Add(MaxPage, Single(Unsigned(b.maxPage)), [])))
  }

  lemma BranchSpells(b: P.MapBranch)
    ensures Spell(BranchItem(b)) == P.BranchTokens(b) && Sane(BranchItem(b)) && Ordered(BranchItem(b))
  {
    hide Key, WordLess, Rising, SanePairs, RefItem, Spell, Sane, Ordered, Around, Letters;
    NoFields();
    BySize(Child, MaxPage);
    var last := Add(MaxPage, Single(Unsigned(b.maxPage)), []);
    One(MaxPage, Unsigned(b.maxPage), [], MaxPage);
    AroundSpells(2, Child, b.child, last, MaxPage);
    hide Add, SpellPairs;
    assert [Key(MaxPage), Unsigned(b.maxPage)] + [] == [Key(MaxPage), Unsigned(b.maxPage)];
  }

  function RowItems(n: P.MapNode): (items: seq<Item>)
    ensures |items| == |P.Rows(n)|
  {
    if n.MapLeaf? then seq(|n.entries|, i requires 0 <= i < |n.entries| => EntryItem(n.entries[i]))
    else seq(|n.branches|, i requires 0 <= i < |n.branches| => BranchItem(n.branches[i]))
  }

  lemma RowsSpell(n: P.MapNode)
    ensures Spell(Sequence(RowItems(n))) == [ArrayHead(|P.Rows(n)|)] + Flat(P.Rows(n))
    ensures Sane(Sequence(RowItems(n))) && Ordered(Sequence(RowItems(n)))
  {
    hide EntryItem, BranchItem, P.EntryTokens, P.BranchTokens;
    var items := RowItems(n);
    forall i | 0 <= i < |items|
      ensures Spell(items[i]) == P.Rows(n)[i] && Sane(items[i]) && Ordered(items[i])
    {
      if n.MapLeaf? {
        EntrySpells(n.entries[i]);
      } else {
        BranchSpells(n.branches[i]);
      }
    }
    SpellAllIs(items, P.Rows(n));
  }

  // version and node_type.
  function Closing(word: Word, rest: seq<Pair>): seq<Pair> {
    Add(Version, Single(Unsigned(1)), Add(NodeType, Single(Key(word)), rest))
  }

  lemma ClosingSpells(word: Word, rest: seq<Pair>, next: Word)
    requires SanePairs(rest) && Rising(rest) && (rest == [] || (StartsWith(rest, next) && WordLess(NodeType, next)))
    ensures SpellPairs(Closing(word, rest)) == [Key(Version), Unsigned(1), Key(NodeType), Key(word)] + SpellPairs(rest)
    ensures SanePairs(Closing(word, rest)) && Rising(Closing(word, rest)) && StartsWith(Closing(word, rest), Version)
    ensures |Closing(word, rest)| == 2 + |rest|
  {
    hide Key, WordLess, Rising, SanePairs;
    var two := Add(NodeType, Single(Key(word)), rest);
    BySize(Version, NodeType);
    KeyIsText(word);
    One(NodeType, Key(word), rest, next);
    One(Version, Unsigned(1), two, NodeType);
  }

  function NodeFields(n: P.MapNode): seq<Pair> {
    Add(Entries, Sequence(RowItems(n)), Closing(P.KindWord(n.MapLeaf?), []))
  }

  function NodeItem(n: P.MapNode): Item {
    Mapping(if n.MapLeaf? then NodeFields(n) else Add(Level, Single(Unsigned(n.level)), NodeFields(n)))
  }

  lemma NodeFieldsSpell(n: P.MapNode)
    ensures SpellPairs(NodeFields(n)) == [Key(Entries), ArrayHead(|P.Rows(n)|)] + Flat(P.Rows(n)) + P.Trailer(P.KindWord(n.MapLeaf?))
    ensures SanePairs(NodeFields(n)) && Rising(NodeFields(n)) && StartsWith(NodeFields(n), Entries) && |NodeFields(n)| == 3
  {
    hide Key, WordLess, Rising, SanePairs, RowItems, P.Rows, Flat, Closing, Letters;
    var word := P.KindWord(n.MapLeaf?);
    NoFields();
    RowsSpell(n);
    ClosingSpells(word, [], Version);
    SameSizes();
    Whole(Entries, Sequence(RowItems(n)), Closing(word, []), Version);
    hide Sane, Ordered, Spell, SpellPairs, Add;
    Regrouped(Key(Entries), ArrayHead(|P.Rows(n)|), Flat(P.Rows(n)), [Key(Version), Unsigned(1), Key(NodeType), Key(word)]);
  }

  lemma Regrouped(a: Token, b: Token, rows: seq<Token>, tail: seq<Token>)
    ensures [a] + ([b] + rows) + (tail + []) == [a, b] + rows + tail
  {
  }

  lemma NodeSpells(n: P.MapNode)
    ensures Spell(NodeItem(n)) == P.NodeTokens(n) && Sane(NodeItem(n)) && Ordered(NodeItem(n))
  {
    hide Key, WordLess, Rising, SanePairs, NodeFields, P.Rows, Flat, P.Trailer, Letters;
    NodeFieldsSpell(n);
    var front, rows, trailer := [Key(Entries), ArrayHead(|P.Rows(n)|)], Flat(P.Rows(n)), P.Trailer(P.KindWord(n.MapLeaf?));
    assert front + rows + trailer == front + (rows + trailer);
    if n.MapLeaf? {
      MappingIs(NodeFields(n));
    } else {
      BySize(Level, Entries);
      One(Level, Unsigned(n.level), NodeFields(n), Entries);
      MappingIs(Add(Level, Single(Unsigned(n.level)), NodeFields(n)));
      Headed(MapHead(4), Key(Level), Unsigned(n.level), front + (rows + trailer));
    }
    hide Sane, Ordered, Spell, SpellPairs, Add;
  }

  lemma Headed(a: Token, b: Token, c: Token, rest: seq<Token>)
    ensures [a] + ([b, c] + rest) == [a, b, c] + rest
  {
  }

  // Every stored page-map node lists the keys of all its maps in order.
  lemma PageMapsOrdered(n: P.MapNode)
    requires P.Typed(n)
    ensures MapsInOrder(P.Stored(n))
  {
    hide P.NodeTokens, P.Typed, PrintAll, TokensOk, Spell, Ordered, Sane, NodeItem, InKeyOrder, MapsInOrder;
    P.NodeTokensOk(n);
    NodeSpells(n);
    OrderOf(NodeItem(n));
    BytesOrder(P.NodeTokens(n));
  }

  // ----- Checkpoint indexes ----------------------------------------------------------------------

  function ChildFields(c: C.HashChild): seq<Pair> {
    Add(PageCount, Single(Unsigned(c.pageCount)), Add(FirstPage, Single(Unsigned(c.firstPage)), []))
  }

  function ChildItem(c: C.HashChild): Item {
    Mapping(Add(Child, RefItem(c.child), ChildFields(c)))
  }

  // The map of a child has page_count before first_page.
  lemma ChildSpells(c: C.HashChild)
    ensures Spell(ChildItem(c)) == C.ChildTokens(c) && Sane(ChildItem(c)) && !Ordered(ChildItem(c))
  {
    hide Key, WordLess, SanePairs, RefItem, Spell, Sane, Around, Letters, Encoded, Less;
    var last := Add(FirstPage, Single(Unsigned(c.firstPage)), []);
    NoFields();
    TokenIsSane(Unsigned(c.firstPage));
    TokenIsSane(Unsigned(c.pageCount));
    AddSpells(FirstPage, Single(Unsigned(c.firstPage)), []);
    AddSpells(PageCount, Single(Unsigned(c.pageCount)), last);
    AroundSpelling(3, Child, c.child, ChildFields(c));
    CountIsLater();
    ChildUnordered(c);
    hide Add, SpellPairs;
    Four(Key(PageCount), Unsigned(c.pageCount), Key(FirstPage), Unsigned(c.firstPage));
  }

  lemma ChildUnordered(c: C.HashChild)
    requires !WordLess(PageCount, FirstPage)
    ensures !Ordered(ChildItem(c))
  {
    hide Key, RefItem, Encoded, Less;
    var pairs := Add(Child, RefItem(c.child), ChildFields(c));
    assert pairs[1].key == Single(Key(PageCount)) && pairs[2].key == Single(Key(FirstPage));
    assert !KeysAscend(pairs);
  }

  lemma Four(a: Token, b: Token, c: Token, d: Token)
    ensures [a] + [b] + ([c] + [d] + []) == [a, b, c, d]
  {
  }

  lemma TokenIsSane(t: Token)
    requires !t.ArrayHead? && !t.MapHead?
    ensures Sane(Single(t)) && Spell(Single(t)) == [t] && Ordered(Single(t))
  {
  }

  function HashItems(n: C.HashNode): (items: seq<Item>)
    ensures |items| == |C.Rows(n)|
  {
    if n.HashLeaf? then seq(|n.hashes|, i requires 0 <= i < |n.hashes| => Single(Blob(n.hashes[i])))
    else seq(|n.children|, i requires 0 <= i < |n.children| => ChildItem(n.children[i]))
  }

  lemma HashesSpell(n: C.HashNode)
    ensures Spell(Sequence(HashItems(n))) == [ArrayHead(|C.Rows(n)|)] + Flat(C.Rows(n)) && Sane(Sequence(HashItems(n)))
    ensures Ordered(Sequence(HashItems(n))) <==> n.HashLeaf? || n.children == []
  {
    hide ChildItem, C.ChildTokens;
    var items := HashItems(n);
    forall i | 0 <= i < |items|
      ensures Spell(items[i]) == C.Rows(n)[i] && Sane(items[i]) && (Ordered(items[i]) <==> n.HashLeaf?)
    {
      if n.HashLeaf? {
        TokenIsSane(Blob(n.hashes[i]));
      } else {
        ChildSpells(n.children[i]);
      }
    }
    SpellAllIs(items, C.Rows(n));
  }

  function LeafFields(n: C.HashNode): seq<Pair>
    requires n.HashLeaf?
  {
    Add(Hashes, Sequence(HashItems(n)), Closing(LeafWord, Add(FirstPage, Single(Unsigned(n.firstPage)), [])))
  }

  lemma LeafSpells(n: C.HashNode)
    requires n.HashLeaf?
    ensures Spell(Mapping(LeafFields(n))) == C.NodeTokens(n) && Sane(Mapping(LeafFields(n))) && Ordered(Mapping(LeafFields(n)))
  {
    hide Key, WordLess, Rising, SanePairs, HashItems, C.Rows, Flat, Closing, Letters;
    var last := Add(FirstPage, Single(Unsigned(n.firstPage)), []);
    NoFields();
    HashesSpell(n);
    BySize(NodeType, FirstPage);
    One(FirstPage, Unsigned(n.firstPage), [], FirstPage);
    ClosingSpells(LeafWord, last, FirstPage);
    BySize(Hashes, Version);
    Whole(Hashes, Sequence(HashItems(n)), Closing(LeafWord, last), Version);
    MappingIs(LeafFields(n));
    assert |LeafFields(n)| == 4;
    hide Sane, Ordered, Spell, SpellPairs, Add;
    LeafRegrouped(MapHead(4), Key(Hashes), ArrayHead(|C.Rows(n)|), Flat(C.Rows(n)),
                  [Key(Version), Unsigned(1), Key(NodeType), Key(LeafWord)], [Key(FirstPage), Unsigned(n.firstPage)]);
  }

  lemma LeafRegrouped(a: Token, b: Token, c: Token, rows: seq<Token>, tail: seq<Token>, last: seq<Token>)
    ensures [a] + ([b] + ([c] + rows) + (tail + (last + []))) == [a, b] + ([c] + (rows + (tail + last)))
  {
  }

  function InternalFields(n: C.HashNode): seq<Pair>
    requires n.HashInternal?
  {
    Add(Level, Single(Unsigned(n.level)), Add(Entries, Sequence(HashItems(n)), Closing(InternalWord, [])))
  }

  lemma InternalSpells(n: C.HashNode)
    requires n.HashInternal?
    ensures Spell(Mapping(InternalFields(n))) == C.NodeTokens(n) && Sane(Mapping(InternalFields(n)))
    ensures Ordered(Mapping(InternalFields(n))) ==> n.children == []
  {
    hide Key, WordLess, Rising, SanePairs, HashItems, C.Rows, Flat, Closing, Letters, KeysAscend;
    NoFields();
    HashesSpell(n);
    ClosingSpells(InternalWord, [], Version);
    TokenIsSane(Unsigned(n.level));
    var two := Add(Entries, Sequence(HashItems(n)), Closing(InternalWord, []));
    AddSpells(Entries, Sequence(HashItems(n)), Closing(InternalWord, []));
    AddSpells(Level, Single(Unsigned(n.level)), two);
    MappingIs(InternalFields(n));
    assert InternalFields(n)[1].value == Sequence(HashItems(n)) && |InternalFields(n)| == 4;
    hide Sane, Spell, SpellPairs, Add;
    InternalRegrouped(MapHead(4), Key(Level), Unsigned(n.level), Key(Entries), ArrayHead(|C.Rows(n)|), Flat(C.Rows(n)),
                      [Key(Version), Unsigned(1), Key(NodeType), Key(InternalWord)]);
  }

  lemma InternalRegrouped(a: Token, b: Token, c: Token, d: Token, e: Token, rows: seq<Token>, tail: seq<Token>)
    ensures [a] + ([b] + [c] + ([d] + ([e] + rows) + (tail + []))) == [a, b] + ([c, d, e] + (rows + tail))
  {
  }

  // A stored checkpoint-index node lists the keys of all its maps in order exactly when it
  // is a leaf.
  lemma CheckpointsOrdered(n: C.HashNode)
    requires C.Typed(n) && C.HashValid(n)
    ensures MapsInOrder(C.Stored(n)) <==> n.HashLeaf?
  {
    hide C.NodeTokens, C.Typed, PrintAll, TokensOk, Spell, Ordered, Sane, LeafFields, InternalFields, InKeyOrder, MapsInOrder;
    C.NodeTokensOk(n);
    BytesOrder(C.NodeTokens(n));
    if n.HashLeaf? {
      LeafSpells(n);
      OrderOf(Mapping(LeafFields(n)));
    } else {
      InternalSpells(n);
      OrderOf(Mapping(InternalFields(n)));
    }
  }

  lemma LetterUri()
    ensures UriOk([97])
  {
    var b: Bytes := [97];
    var rest := Parts(b[1..]);
    assert b[1..] == [] && rest == [[]];
    assert [b[0]] + rest[0] == [97] && rest[1..] == [];
    assert Parts(b) == [[b[0]] + rest[0]] + rest[1..];
    assert Parts(b) == [[97]];
  }

  // One such node that can be stored.
  lemma OutOfOrder() returns (n: C.HashNode)
    ensures C.Storable(n) && !MapsInOrder(C.Stored(n))
  {
    var child := ObjectRef([97], 1, seq(32, _ => 0));
    n := C.HashInternal(1, [C.HashChild(1, 1, child)]);
    LetterUri();
    assert IsUtf8([97]) by {
      AsciiIsUtf8([97]);
    }
    assert C.Typed(n) && C.HashValid(n);
    C.FullNodesFit(n);
    CheckpointsOrdered(n);
  }

  // ----- Scalars and partition tuples ----------------------------------------------------------

  function PayloadItem(s: S.Scalar): Item {
    if s.Decimal? then Sequence([Single(Unsigned(s.precision)), Single(Unsigned(s.scale)), Single(Blob(s.unscaled))])
    else Single(S.Payload(s)[0])
  }

  function ScalarItem(s: S.Scalar): Item {
    Sequence([Single(Unsigned(S.Code(s))), PayloadItem(s)])
  }

  lemma PayloadSpells(s: S.Scalar)
    ensures Spell(PayloadItem(s)) == S.Payload(s) && Sane(PayloadItem(s)) && Ordered(PayloadItem(s))
  {
    if s.Decimal? {
      var a, b, c := Single(Unsigned(s.precision)), Single(Unsigned(s.scale)), Single(Blob(s.unscaled));
      assert [a, b, c] == [a] + [b, c];
      SpellAllJoin([a], [b, c]);
      TwoSpell(b, c);
      OneSpells(a);
    }
  }

  lemma OneSpells(a: Item)
    ensures SpellAll([a]) == Spell(a)
  {
    assert [a][1..] == [] && SpellAll([a]) == Spell(a) + SpellAll([]);
    hide Spell;
  }

  lemma TwoSpell(a: Item, b: Item)
    ensures SpellAll([a, b]) == Spell(a) + Spell(b)
  {
    hide Spell;
    assert [a, b] == [a] + [b];
    SpellAllJoin([a], [b]);
    OneSpells(a);
    OneSpells(b);
  }

  lemma ScalarSpells(s: S.Scalar)
    ensures Spell(ScalarItem(s)) == S.ScalarTokens(s) && Sane(ScalarItem(s)) && Ordered(ScalarItem(s))
  {
    hide S.Payload, PayloadItem;
    PayloadSpells(s);
    var code := Single(Unsigned(S.Code(s)));
    TokenIsSane(Unsigned(S.Code(s)));
    TwoSpell(code, PayloadItem(s));
    assert Spell(ScalarItem(s)) == [ArrayHead(2)] + SpellAll([code, PayloadItem(s)]);
    hide Spell, SpellAll;
    assert [ArrayHead(2)] + ([Unsigned(S.Code(s))] + S.Payload(s)) == [ArrayHead(2), Unsigned(S.Code(s))] + S.Payload(s);
  }

  function TuplePairs(t: S.Tuple): (pairs: seq<Pair>)
    ensures |pairs| == |t|
    ensures forall i :: 0 <= i < |t| ==> pairs[i] == Pair(Single(Unsigned(t[i].0)), ScalarItem(t[i].1))
  {
    seq(|t|, i requires 0 <= i < |t| => Pair(Single(Unsigned(t[i].0)), ScalarItem(t[i].1)))
  }

  lemma {:induction false} TupleSpells(t: S.Tuple)
    ensures SpellPairs(TuplePairs(t)) == S.PairsTokens(t)
    decreases |t|
  {
    hide ScalarItem, S.ScalarTokens;
    if t != [] {
      TupleSpells(t[1..]);
      assert TuplePairs(t)[1..] == TuplePairs(t[1..]);
      ScalarSpells(t[0].1);
      TokenIsSane(Unsigned(t[0].0));
      assert SpellPair(TuplePairs(t)[0]) == S.PairTokens(t[0]);
      hide Spell, SpellPair, S.PairTokens;
    }
  }

  // Rising field IDs have rising encodings.
  lemma TupleRises(t: S.Tuple)
    requires S.TypedTuple(t) && S.Sorted(t)
    ensures SanePairs(TuplePairs(t)) && Rising(TuplePairs(t))
  {
    hide ScalarItem, HeadBytes, Less, S.Typed;
    var pairs := TuplePairs(t);
    forall i | 0 <= i < |t|
      ensures Sane(pairs[i].key) && Sane(pairs[i].value) && Ordered(pairs[i].key) && Ordered(pairs[i].value)
      ensures Encoded(pairs[i].key) == HeadBytes(0, t[i].0)
    {
      ScalarSpells(t[i].1);
      TokenIsSane(Unsigned(t[i].0));
      OneToken(Unsigned(t[i].0));
    }
    hide Sane, Ordered, Encoded;
    forall i, j | 0 <= i < j < |t|
      ensures Less(Encoded(pairs[i].key), Encoded(pairs[j].key))
    {
      HeadsLess(0, t[i].0, t[j].0);
    }
  }

  // Every stored partition tuple lists its field IDs in the order of their encodings.
  lemma TuplesOrdered(t: S.Tuple)
    requires S.TypedTuple(t) && S.Sorted(t)
    ensures MapsInOrder(S.StoredTuple(t))
  {
    hide S.Typed, S.PairsTokens, S.Canonical, PrintAll, TokensOk, Spell, Ordered, Sane, Rising, SanePairs, TuplePairs, InKeyOrder, MapsInOrder;
    var c := S.CanonicalTuple(t);
    assert S.Sorted(c);
    S.TupleOk(c);
    TupleSpells(c);
    TupleRises(c);
    MappingIs(TuplePairs(c));
    OrderOf(Mapping(TuplePairs(c)));
    BytesOrder(S.TupleTokens(c));
  }

  // A scalar has no map.
  lemma ScalarsOrdered(s: S.Scalar)
    requires S.Typed(s)
    ensures MapsInOrder(S.Stored(s))
  {
    hide S.Typed, S.ScalarTokens, S.Canonical, PrintAll, TokensOk, Spell, Ordered, Sane, ScalarItem, InKeyOrder, MapsInOrder;
    var c := S.Canonical(s);
    S.ScalarOk(c);
    ScalarSpells(c);
    OrderOf(ScalarItem(c));
    BytesOrder(S.ScalarTokens(c));
  }
}
