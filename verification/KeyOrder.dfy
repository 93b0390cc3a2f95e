// Deterministic maps (section 4.2.1 of RFC 8949): which stored forms list the keys of
// every map in increasing order of their encoded bytes.
module KeyOrder {
  import opened Wrappers
  import opened Objects
  import opened Encoding
  import opened Cbor

  // ----- Bytewise order ----------------------------------------------------------------------

  predicate Less(a: Bytes, b: Bytes)
    decreases |a|
  {
    b != [] && (a == [] || a[0] < b[0] || (a[0] == b[0] && Less(a[1..], b[1..])))
  }

  lemma {:induction false} LessTrans(a: Bytes, b: Bytes, c: Bytes)
    requires Less(a, b) && Less(b, c)
    ensures Less(a, c)
    decreases |a|
  {
    if a != [] && a[0] == b[0] == c[0] {
      LessTrans(a[1..], b[1..], c[1..]);
    }
  }

  lemma {:induction false} LessOneWay(a: Bytes, b: Bytes)
    requires Less(a, b)
    ensures !Less(b, a)
    decreases |a|
  {
    if a != [] && a[0] == b[0] {
      LessOneWay(a[1..], b[1..]);
    }
  }

  // What follows a first difference does not matter.
  lemma {:induction false} LessAfter(a: Bytes, b: Bytes, x: Bytes, y: Bytes)
    requires |a| == |b| && Less(a, b)
    ensures Less(a + x, b + y)
    decreases |a|
  {
    assert a == [] ==> !Less(a, b);
    assert (a + x)[1..] == a[1..] + x && (b + y)[1..] == b[1..] + y;
    if a[0] == b[0] {
      LessAfter(a[1..], b[1..], x, y);
    }
  }

  lemma {:induction false} LessBehind(front: Bytes, a: Bytes, b: Bytes)
    requires Less(a, b)
    ensures Less(front + a, front + b)
    decreases |front|
  {
    if front == [] {
      assert front + a == a && front + b == b;
    } else {
      assert (front + a)[1..] == front[1..] + a && (front + b)[1..] == front[1..] + b;
      LessBehind(front[1..], a, b);
    }
  }

  // Among numbers of one width the order of their bytes is the numbers' own, ...
  lemma {:induction false} NumbersLess(m: nat, n: nat, width: nat)
    requires m < n < Pow(256, width)
    ensures Less(ToBigEndian(m, width), ToBigEndian(n, width))
  {
    assert Pow(256, width) == 256 * Pow(256, width - 1);
    var a, b := ToBigEndian(m / 256, width - 1), ToBigEndian(n / 256, width - 1);
    var x, y := [(m % 256) as byte], [(n % 256) as byte];
    if m / 256 < n / 256 {
      NumbersLess(m / 256, n / 256, width - 1);
      LessAfter(a, b, x, y);
    } else {
      assert Less(x, y);
      LessBehind(a, x, y);
    }
  }

  // ... and shortest heads keep it across widths.
  lemma HeadsLess(major: nat, m: nat, n: nat)
    requires major < 8 && m < n <= U64_MAX
    ensures Less(HeadBytes(major, m), HeadBytes(major, n))
  {
    var x, y := HeadBytes(major, m), HeadBytes(major, n);
    if Additional(m) == Additional(n) {
      PowerWidths();
      WidthFits(n);
      NumbersLess(m, n, Extra(n));
      hide Less, ToBigEndian, Pow;
      LessBehind([x[0]], ToBigEndian(m, Extra(m)), ToBigEndian(n, Extra(n)));
    }
  }

  // ----- Items with their parts -----------------------------------------------------------------

  // A data item with all its parts, where the tokens have only the heads of containers.
  datatype Item =
    | Single(token: Token)
    | Sequence(items: seq<Item>)
    | Mapping(pairs: seq<Pair>)

  datatype Pair = Pair(key: Item, value: Item)

  predicate Sane(item: Item) {
    match item
    case Single(t) => !t.ArrayHead? && !t.MapHead?
    case Sequence(items) => forall i :: 0 <= i < |items| ==> Sane(items[i])
    case Mapping(pairs) => forall i :: 0 <= i < |pairs| ==> Sane(pairs[i].key) && Sane(pairs[i].value)
  }

  function Spell(item: Item): (ts: seq<Token>)
    ensures ts != []
    decreases item, 0
  {
    match item
    case Single(t) => [t]
    case Sequence(items) => [ArrayHead(|items|)] + SpellAll(items)
    case Mapping(pairs) => [MapHead(|pairs|)] + SpellPairs(pairs)
  }

  function SpellAll(items: seq<Item>): seq<Token>
    decreases items, 1
  {
    if items == [] then [] else Spell(items[0]) + SpellAll(items[1..])
  }

  function SpellPairs(pairs: seq<Pair>): seq<Token>
    decreases pairs, 1
  {
    if pairs == [] then [] else SpellPair(pairs[0]) + SpellPairs(pairs[1..])
  }

  function SpellPair(pair: Pair): seq<Token>
    decreases pair, 0
  {
    Spell(pair.key) + Spell(pair.value)
  }

  function Encoded(item: Item): Bytes {
    if TokensOk(Spell(item)) then PrintAll(Spell(item)) else []
  }

  predicate KeysAscend(pairs: seq<Pair>) {
    forall i, j :: 0 <= i < j < |pairs| ==> Less(Encoded(pairs[i].key), Encoded(pairs[j].key))
  }

  // Every map, at any depth, has its keys in order.
  predicate Ordered(item: Item) {
    match item
    case Single(_) => true
    case Sequence(items) => forall i :: 0 <= i < |items| ==> Ordered(items[i])
    case Mapping(pairs) =>
      KeysAscend(pairs) && forall i :: 0 <= i < |pairs| ==> Ordered(pairs[i].key) && Ordered(pairs[i].value)
  }

  // These tokens are one item whose maps all have their keys in order.
  ghost predicate InKeyOrder(ts: seq<Token>) {
    exists item :: Sane(item) && Spell(item) == ts && Ordered(item)
  }

  // Tokens are the parts of one item at most, whatever follows.
  lemma {:induction false} SpellOnce(a: Item, b: Item, x: seq<Token>, y: seq<Token>)
    requires Sane(a) && Sane(b) && Spell(a) + x == Spell(b) + y
    ensures a == b && x == y
    decreases a, 0
  {
    assert (Spell(a) + x)[0] == (Spell(b) + y)[0];
    assert Spell(a)[0] == Spell(b)[0];
    match a {
      case Single(t) =>
        assert (Spell(a) + x)[1..] == x && (Spell(b) + y)[1..] == y;
      case Sequence(items) =>
        AfterHead(Spell(a)[0], SpellAll(items), x);
        AfterHead(Spell(b)[0], SpellAll(b.items), y);
        SpellAllOnce(items, b.items, x, y);
      case Mapping(pairs) =>
        AfterHead(Spell(a)[0], SpellPairs(pairs), x);
        AfterHead(Spell(b)[0], SpellPairs(b.pairs), y);
        SpellPairsOnce(pairs, b.pairs, x, y);
    }
  }

  lemma AfterHead(head: Token, body: seq<Token>, x: seq<Token>)
    ensures ([head] + body + x)[1..] == body + x
  {
  }

  lemma {:induction false} SpellAllOnce(a: seq<Item>, b: seq<Item>, x: seq<Token>, y: seq<Token>)
    requires |a| == |b| && (forall i :: 0 <= i < |a| ==> Sane(a[i]) && Sane(b[i]))
    requires SpellAll(a) + x == SpellAll(b) + y
    ensures a == b && x == y
    decreases a, 1
  {
    hide Sane, Spell;
    if a == [] {
      assert SpellAll(a) + x == x && SpellAll(b) + y == y;
    } else {
      var p, q := SpellAll(a[1..]) + x, SpellAll(b[1..]) + y;
      assert SpellAll(a) + x == Spell(a[0]) + p && SpellAll(b) + y == Spell(b[0]) + q;
      SpellOnce(a[0], b[0], p, q);
      SpellAllOnce(a[1..], b[1..], x, y);
      assert a == [a[0]] + a[1..] && b == [b[0]] + b[1..];
    }
  }

  lemma {:induction false} SpellPairsOnce(a: seq<Pair>, b: seq<Pair>, x: seq<Token>, y: seq<Token>)
    requires |a| == |b|
    requires forall i :: 0 <= i < |a| ==> Sane(a[i].key) && Sane(a[i].value) && Sane(b[i].key) && Sane(b[i].value)
    requires SpellPairs(a) + x == SpellPairs(b) + y
    ensures a == b && x == y
    decreases a, 1
  {
    hide Sane, Spell, SpellPair;
    if a == [] {
      assert SpellPairs(a) + x == x && SpellPairs(b) + y == y;
    } else {
      var p, q := SpellPairs(a[1..]) + x, SpellPairs(b[1..]) + y;
      assert SpellPairs(a) + x == SpellPair(a[0]) + p && SpellPairs(b) + y == SpellPair(b[0]) + q;
      SpellPairOnce(a[0], b[0], p, q);
      SpellPairsOnce(a[1..], b[1..], x, y);
      assert a == [a[0]] + a[1..] && b == [b[0]] + b[1..];
    }
  }

  lemma {:induction false} SpellPairOnce(a: Pair, b: Pair, x: seq<Token>, y: seq<Token>)
    requires Sane(a.key) && Sane(a.value) && Sane(b.key) && Sane(b.value)
    requires SpellPair(a) + x == SpellPair(b) + y
    ensures a == b && x == y
    decreases a, 0
  {
    hide Sane, Spell;
    assert SpellPair(a) + x == Spell(a.key) + (Spell(a.value) + x) && SpellPair(b) + y == Spell(b.key) + (Spell(b.value) + y);
    SpellOnce(a.key, b.key, Spell(a.value) + x, Spell(b.value) + y);
    SpellOnce(a.value, b.value, x, y);
  }

  // So the order can be read off any item that spells the tokens.
  lemma OrderOf(item: Item)
    requires Sane(item)
    ensures InKeyOrder(Spell(item)) <==> Ordered(item)
  {
    if InKeyOrder(Spell(item)) {
      var other :| Sane(other) && Spell(other) == Spell(item) && Ordered(other);
      assert Spell(item) + [] == Spell(other) + [];
      SpellOnce(item, other, [], []);
    }
  }

  // The same of bytes: they are the encoding of such an item.
  ghost predicate MapsInOrder(b: Bytes) {
    exists ts :: TokensFrom(b, 0) == Some(ts) && InKeyOrder(ts)
  }

  lemma BytesOrder(ts: seq<Token>)
    requires TokensOk(ts)
    ensures MapsInOrder(PrintAll(ts)) <==> InKeyOrder(ts)
  {
    hide InKeyOrder, PrintAll, TokensFrom, TokensOk;
    TokensExactly(PrintAll(ts), ts);
  }

  // ----- Maps with words for keys ---------------------------------------------------------------

  // One field more, in front.
  function Add(word: Word, value: Item, rest: seq<Pair>): seq<Pair> {
    [Pair(Single(Key(word)), value)] + rest
  }

  predicate WordLess(a: Word, b: Word) {
    Less(Encoded(Single(Key(a))), Encoded(Single(Key(b))))
  }

  predicate SanePairs(pairs: seq<Pair>) {
    forall i :: 0 <= i < |pairs| ==> Sane(pairs[i].key) && Sane(pairs[i].value)
  }

  // Fields in order, here and in the values.
  predicate Rising(pairs: seq<Pair>) {
    KeysAscend(pairs) && forall i :: 0 <= i < |pairs| ==> Ordered(pairs[i].key) && Ordered(pairs[i].value)
  }

  predicate StartsWith(pairs: seq<Pair>, word: Word) {
    pairs != [] && pairs[0].key == Single(Key(word))
  }

  lemma AddSpells(word: Word, value: Item, rest: seq<Pair>)
    ensures SpellPairs(Add(word, value, rest)) == [Key(word)] + Spell(value) + SpellPairs(rest)
    ensures SanePairs(rest) && Sane(value) ==> SanePairs(Add(word, value, rest))
  {
    var pairs := Add(word, value, rest);
    assert Sane(Single(Key(word)));
    hide Key, Letters;
    assert pairs[1..] == rest;
    assert SpellPair(pairs[0]) == [Key(word)] + Spell(value);
    forall i | 0 <= i < |pairs| && SanePairs(rest) && Sane(value)
      ensures Sane(pairs[i].key) && Sane(pairs[i].value)
    {
      assert i > 0 ==> pairs[i] == rest[i - 1];
    }
    hide Spell, SpellPair, Sane;
  }

  lemma KeyIsText(word: Word)
    ensures Key(word).Text?
  {
  }

  lemma NoFields()
    ensures SpellPairs([]) == [] && SanePairs([]) && Rising([])
  {
  }

  lemma MappingIs(pairs: seq<Pair>)
    ensures Spell(Mapping(pairs)) == [MapHead(|pairs|)] + SpellPairs(pairs)
    ensures Sane(Mapping(pairs)) <==> SanePairs(pairs)
    ensures Ordered(Mapping(pairs)) <==> Rising(pairs)
  {
    hide KeysAscend;
  }

  lemma AddRises(word: Word, value: Item, rest: seq<Pair>, next: Word)
    requires Ordered(value) && Rising(rest) && (rest == [] || (StartsWith(rest, next) && WordLess(word, next)))
    ensures Rising(Add(word, value, rest)) && StartsWith(Add(word, value, rest), word)
  {
    hide Encoded, Less, Key;
    var pairs := Add(word, value, rest);
    forall i, j | 0 <= i < j < |pairs|
      ensures Less(Encoded(pairs[i].key), Encoded(pairs[j].key))
    {
      assert pairs[j] == rest[j - 1];
      if i > 0 {
        assert pairs[i] == rest[i - 1];
      } else if j > 1 {
        LessTrans(Encoded(pairs[0].key), Encoded(rest[0].key), Encoded(rest[j - 1].key));
      }
    }
    forall i | 0 <= i < |pairs|
      ensures Ordered(pairs[i].key) && Ordered(pairs[i].value)
    {
      assert i > 0 ==> pairs[i] == rest[i - 1];
    }
  }

  lemma OneToken(t: Token)
    requires TokenOk(t) && !t.ArrayHead? && !t.MapHead?
    ensures Encoded(Single(t)) == Print(t)
  {
    assert [t][1..] == [];
    assert PrintAll([t]) == Print(t) + PrintAll([]);
    hide Print;
  }

  lemma {:induction false} FirstDifference(x: Bytes, y: Bytes, k: nat)
    requires k < |x| && k < |y| && x[..k] == y[..k] && x[k] < y[k]
    ensures Less(x, y)
    decreases k
  {
    if k > 0 {
      assert x[0] == x[..k][0] == y[..k][0] == y[0];
      assert x[1..][..k - 1] == x[..k][1..] == y[..k][1..] == y[1..][..k - 1];
      FirstDifference(x[1..], y[1..], k - 1);
    }
  }

  lemma {:induction false} SpellAllIs(items: seq<Item>, rows: seq<seq<Token>>)
    requires |items| == |rows| && forall i :: 0 <= i < |items| ==> Spell(items[i]) == rows[i]
    ensures SpellAll(items) == Flat(rows)
    decreases |items|
  {
    hide Spell;
    if items != [] {
      var last := |items| - 1;
      SpellAllIs(items[..last], rows[..last]);
      SpellAllJoin(items[..last], [items[last]]);
      assert items == items[..last] + [items[last]];
      assert SpellAll([items[last]]) == Spell(items[last]) + SpellAll([items[last]][1..]) == rows[last];
    }
  }

  lemma {:induction false} SpellAllJoin(a: seq<Item>, b: seq<Item>)
    ensures SpellAll(a + b) == SpellAll(a) + SpellAll(b)
    decreases |a|
  {
    hide Spell;
    if a == [] {
      assert a + b == b;
    } else {
      assert (a + b)[1..] == a[1..] + b;
      SpellAllJoin(a[1..], b);
    }
  }

  // ----- The order of the words ----------------------------------------------------------------

  lemma ShortHead(n: nat)
    requires n < 24
    ensures HeadBytes(3, n) == [(96 + n) as byte]
  {
    hide Pow;
  }

  lemma KeyHead(w: Word)
    ensures TokenOk(Key(w)) && Print(Key(w)) == [(96 + |Letters(w)|) as byte] + Letters(w)
  {
    KeyOk(w);
    ShortHead(|Letters(w)|);
    hide Letters, HeadBytes, IsUtf8;
  }

  function WordSize(w: Word): nat {
    match w
    case Child => 5 case Codec => 5 case Entries => 7 case FirstPage => 10 case Hashes => 6 case InternalWord => 8
    case LeafWord => 4 case Length => 6 case Level => 5 case MaxPage => 8 case NodeType => 9 case NoneWord => 4
    case Offset => 6 case PackWord => 4 case PageCount => 10 case PageNumber => 11 case PageSha256 => 11
    case RawLength => 10 case Sha256 => 6 case StoredLength => 13 case Uri => 3 case Version => 7 case ZstdWord => 4
  }

  lemma SizeOf(w: Word)
    ensures |Letters(w)| == WordSize(w)
  {
  }

  // Shorter words come first, ...
  lemma BySize(a: Word, b: Word)
    requires WordSize(a) < WordSize(b)
    ensures WordLess(a, b)
  {
    hide Letters;
    SizeOf(a);
    SizeOf(b);
    KeyHead(a);
    KeyHead(b);
    OneToken(Key(a));
    OneToken(Key(b));
  }

  // ... and words of one size in the order of their letters.
  lemma ByLetter(a: Word, b: Word, k: nat)
    requires |Letters(a)| == |Letters(b)| && k < |Letters(a)| && Letters(a)[..k] == Letters(b)[..k] && Letters(a)[k] < Letters(b)[k]
    ensures WordLess(a, b)
  {
    hide Letters;
    KeyHead(a);
    KeyHead(b);
    OneToken(Key(a));
    OneToken(Key(b));
    FirstDifference(Letters(a), Letters(b), k);
  }

  lemma SameSizes()
    ensures WordLess(Length, Sha256) && WordLess(Entries, Version) && WordLess(PageNumber, PageSha256) && WordLess(FirstPage, PageCount)
  {
    hide WordLess;
    assert Letters(Length)[0] == 108 && Letters(Sha256)[0] == 115;
    ByLetter(Length, Sha256, 0);
    assert Letters(Entries)[0] == 101 && Letters(Version)[0] == 118;
    ByLetter(Entries, Version, 0);
    PageKeys();
    ByLetter(PageNumber, PageSha256, 5);
    assert Letters(FirstPage)[0] == 102 && Letters(PageCount)[0] == 112;
    ByLetter(FirstPage, PageCount, 0);
  }

  lemma PageKeys()
    ensures Letters(PageNumber)[..5] == Letters(PageSha256)[..5] && |Letters(PageNumber)| == |Letters(PageSha256)| == 11
    ensures Letters(PageNumber)[5] == 110 && Letters(PageSha256)[5] == 115
  {
  }

  // page_count does not come before first_page.
  lemma CountIsLater()
    ensures !WordLess(PageCount, FirstPage)
  {
    hide Encoded, Less;
    SameSizes();
    LessOneWay(Encoded(Single(Key(FirstPage))), Encoded(Single(Key(PageCount))));
  }
}
