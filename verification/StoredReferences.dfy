// References to stored objects inside stored documents.
module StoredReferences {
  import opened Wrappers
  import opened Objects
  import opened Encoding
  import opened Cbor

  const U32_MAX: nat := 0xFFFF_FFFF

  datatype ObjectRef = ObjectRef(uri: Bytes, length: nat, sha256: Bytes)

  // ----- References as items -----------------------------------------------------------------

  // What the fields' types guarantee.
  predicate RefOk(r: ObjectRef) {
    UriOk(r.uri) && TokenOk(Text(r.uri)) && r.length <= U64_MAX && |r.sha256| == 32
  }

  function RefTokens(r: ObjectRef): (ts: seq<Token>)
    ensures |ts| == 7
  {
    [MapHead(3), Key(Uri), Text(r.uri), Key(Length), Unsigned(r.length), Key(Sha256), Blob(r.sha256)]
  }

  function RefPattern(): (ps: seq<Pattern>)
    ensures |ps| == 7
  {
    [Exactly(MapHead(3)), Exactly(Key(Uri)), AnyUri, Exactly(Key(Length)), AnyCount(U64_MAX), Exactly(Key(Sha256)), AnyHash]
  }

  function ReferenceOf(ts: seq<Token>): ObjectRef
    requires Matches(RefPattern(), ts)
  {
    assert Suits(RefPattern()[2], ts[2]) && Suits(RefPattern()[4], ts[4]) && Suits(RefPattern()[6], ts[6]);
    ObjectRef(ts[2].content, ts[4].n, ts[6].content)
  }

  lemma RefRecord(ts: seq<Token>)
    requires Matches(RefPattern(), ts) && TokensOk(ts)
    ensures RefOk(ReferenceOf(ts)) && RefTokens(ReferenceOf(ts)) == ts
  {
    hide UriOk, IsUtf8, Letters;
    assert forall i :: 0 <= i < 7 ==> Suits(RefPattern()[i], ts[i]);
    assert TokenOk(ts[2]);
  }

  lemma RefMatches(r: ObjectRef)
    requires RefOk(r)
    ensures Matches(RefPattern(), RefTokens(r)) && ReferenceOf(RefTokens(r)) == r && TokensOk(RefTokens(r))
  {
    KeyOk(Uri);
    KeyOk(Length);
    KeyOk(Sha256);
    hide UriOk, IsUtf8, Letters, Key;
  }

  // A record cut into the parts of its pattern.
  lemma MatchesParts(a: seq<Pattern>, b: seq<Pattern>, ts: seq<Token>)
    requires |ts| == |a| + |b|
    ensures Matches(a + b, ts) <==> Matches(a, ts[..|a|]) && Matches(b, ts[|a|..])
  {
    hide Suits;
    if Matches(a + b, ts) {
      assert forall i :: 0 <= i < |b| ==> (a + b)[|a| + i] == b[i] && Suits((a + b)[|a| + i], ts[|a| + i]);
    }
    if Matches(a, ts[..|a|]) && Matches(b, ts[|a|..]) {
      forall i | 0 <= i < |ts|
        ensures Suits((a + b)[i], ts[i])
      {
        if i < |a| {
          assert ts[..|a|][i] == ts[i];
        } else {
          assert ts[|a|..][i - |a|] == ts[i];
        }
      }
    }
  }

  lemma TokensOkJoin(a: seq<Token>, b: seq<Token>)
    requires TokensOk(a) && TokensOk(b)
    ensures TokensOk(a + b)
  {
    hide TokenOk;
  }

  lemma TokensOkParts(a: seq<Token>, b: seq<Token>)
    requires TokensOk(a + b)
    ensures TokensOk(a) && TokensOk(b)
  {
    hide TokenOk;
    assert forall i :: 0 <= i < |a| ==> (a + b)[i] == a[i];
    assert forall i :: 0 <= i < |b| ==> (a + b)[|a| + i] == b[i];
  }

  // ----- Records around a reference --------------------------------------------------------

  // A map of `n` fields whose first is a reference.
  function Around(n: nat, word: Word, r: ObjectRef, tail: seq<Token>): (ts: seq<Token>)
    ensures |ts| == 9 + |tail|
  {
    [MapHead(n), Key(word)] + RefTokens(r) + tail
  }

  function AroundPattern(n: nat, word: Word, tail: seq<Pattern>): (ps: seq<Pattern>)
    ensures |ps| == 9 + |tail|
  {
    [Exactly(MapHead(n)), Exactly(Key(word))] + RefPattern() + tail
  }

  lemma AroundParts(n: nat, word: Word, r: ObjectRef, tail: seq<Token>)
    ensures var ts := Around(n, word, r, tail); ts[..2] == [MapHead(n), Key(word)] && ts[2..9] == RefTokens(r) && ts[9..] == tail
  {
    hide Key, RefTokens;
  }

  lemma HeadIs(n: nat, word: Word, ts: seq<Token>)
    requires |ts| == 2
    ensures Matches([Exactly(MapHead(n)), Exactly(Key(word))], ts) <==> ts == [MapHead(n), Key(word)]
  {
    hide Key;
    var head: seq<Pattern> := [Exactly(MapHead(n)), Exactly(Key(word))];
    assert Matches(head, ts) <==> Suits(head[0], ts[0]) && Suits(head[1], ts[1]);
  }

  // What matches is a reference between the fixed head and a tail that matches.
  lemma AroundMatches(n: nat, word: Word, tail: seq<Pattern>, ts: seq<Token>)
    requires |ts| == 9 + |tail|
    ensures Matches(AroundPattern(n, word, tail), ts) <==>
      ts[..2] == [MapHead(n), Key(word)] && Matches(RefPattern(), ts[2..9]) && Matches(tail, ts[9..])
  {
    hide RefPattern, Matches, Key, Suits;
    var head: seq<Pattern> := [Exactly(MapHead(n)), Exactly(Key(word))];
    HeadIs(n, word, ts[..2]);
    MatchesParts(head + RefPattern(), tail, ts);
    MatchesParts(head, RefPattern(), ts[..9]);
    assert ts[..9][..2] == ts[..2] && ts[..9][2..] == ts[2..9];
  }

  lemma AroundSound(n: nat, word: Word, tail: seq<Pattern>, ts: seq<Token>)
    requires Matches(AroundPattern(n, word, tail), ts) && TokensOk(ts)
    ensures Matches(RefPattern(), ts[2..9]) && Matches(tail, ts[9..]) && TokensOk(ts[9..])
    ensures RefOk(ReferenceOf(ts[2..9])) && ts == Around(n, word, ReferenceOf(ts[2..9]), ts[9..])
  {
    assert |ts| == 9 + |tail|;
    hide Key, AroundPattern, RefPattern, Matches, ReferenceOf, RefOk, RefTokens;
    AroundMatches(n, word, tail, ts);
    assert ts == ts[..9] + ts[9..] && ts[..9] == ts[..2] + ts[2..9];
    TokensOkParts(ts[..9], ts[9..]);
    TokensOkParts(ts[..2], ts[2..9]);
    RefRecord(ts[2..9]);
  }

  lemma AroundComplete(n: nat, word: Word, r: ObjectRef, tail: seq<Token>, patterns: seq<Pattern>)
    requires RefOk(r) && n <= U64_MAX && Matches(patterns, tail) && TokensOk(tail)
    ensures var ts := Around(n, word, r, tail);
      && Matches(AroundPattern(n, word, patterns), ts) && TokensOk(ts)
      && ts[9..] == tail && Matches(RefPattern(), ts[2..9]) && ReferenceOf(ts[2..9]) == r
  {
    hide Key, RefTokens, RefPattern, Matches, RefOk, ReferenceOf, TokenOk, TokensOk, AroundPattern;
    var ts := Around(n, word, r, tail);
    AroundParts(n, word, r, tail);
    RefMatches(r);
    HeadOk(n, word);
    TokensOkJoin([MapHead(n), Key(word)], RefTokens(r));
    TokensOkJoin([MapHead(n), Key(word)] + RefTokens(r), tail);
    MatchesSize(patterns, tail);
    AroundMatches(n, word, patterns, ts);
    hide *;
  }

  lemma MatchesSize(patterns: seq<Pattern>, ts: seq<Token>)
    requires Matches(patterns, ts)
    ensures |ts| == |patterns|
  {
  }

  lemma HeadOk(n: nat, word: Word)
    requires n <= U64_MAX
    ensures TokensOk([MapHead(n), Key(word)])
  {
    KeyOk(word);
    hide Key;
  }

  // ----- Size -------------------------------------------------------------------------------------

  // A name of the length content addressing gives.
  predicate ShortUri(r: ObjectRef) { |r.uri| <= 240 }

  // No content longer than 247 bytes, so no item longer than 256.
  predicate Brief(t: Token) {
    match t
    case Blob(content) => |content| <= 247
    case Text(content) => |content| <= 247
    case _ => true
  }

  predicate AllBrief(ts: seq<Token>) { forall i :: 0 <= i < |ts| ==> Brief(ts[i]) }

  lemma BriefJoin(a: seq<Token>, b: seq<Token>)
    requires AllBrief(a) && AllBrief(b)
    ensures AllBrief(a + b)
  {
    hide Brief;
  }

  lemma RefBrief(r: ObjectRef)
    requires ShortUri(r) && |r.sha256| == 32
    ensures AllBrief(RefTokens(r))
  {
    hide Letters;
  }

  lemma HeadBrief(n: nat, word: Word)
    ensures AllBrief([MapHead(n), Key(word)])
  {
    hide Letters;
  }

  lemma AroundBrief(n: nat, word: Word, r: ObjectRef, tail: seq<Token>)
    requires ShortUri(r) && |r.sha256| == 32 && AllBrief(tail)
    ensures AllBrief(Around(n, word, r, tail))
  {
    RefBrief(r);
    var head := [MapHead(n), Key(word)];
    HeadBrief(n, word);
    hide RefTokens, Key, AllBrief;
    BriefJoin(head, RefTokens(r));
    BriefJoin(head + RefTokens(r), tail);
  }

  lemma {:induction false} FlatBrief(rows: seq<seq<Token>>)
    requires forall i :: 0 <= i < |rows| ==> AllBrief(rows[i])
    ensures AllBrief(Flat(rows))
  {
    hide AllBrief;
    if rows == [] {
      NoneBrief();
    } else {
      FlatBrief(rows[..|rows| - 1]);
      BriefJoin(Flat(rows[..|rows| - 1]), rows[|rows| - 1]);
    }
  }

  lemma NoneBrief()
    ensures AllBrief([])
  {
  }

  lemma BriefPrints(t: Token)
    requires TokenOk(t) && Brief(t)
    ensures |Print(t)| <= 256
  {
    hide HeadBytes, IsUtf8;
  }

  lemma TokensBound(ts: seq<Token>)
    requires TokensOk(ts) && AllBrief(ts)
    ensures |PrintAll(ts)| <= 256 * |ts|
  {
    hide PrintAll, Print, Brief;
    forall i | 0 <= i < |ts|
      ensures |Print(ts[i])| <= 256
    {
      BriefPrints(ts[i]);
    }
    PrintBound(ts, 256);
  }

  // A document of brief items is no longer than its number of items allows.
  lemma DocumentSize(front: seq<Token>, rows: seq<seq<Token>>, trailer: seq<Token>, width: nat)
    requires AllBrief(front) && AllBrief(trailer) && TokensOk(front + Flat(rows) + trailer)
    requires forall i :: 0 <= i < |rows| ==> AllBrief(rows[i]) && |rows[i]| <= width
    ensures |PrintAll(front + Flat(rows) + trailer)| <= 256 * (|front| + width * |rows| + |trailer|)
  {
    hide AllBrief, Flat, PrintAll, TokensOk;
    FlatBrief(rows);
    FlatBound(rows, width);
    BriefJoin(front, Flat(rows));
    BriefJoin(front + Flat(rows), trailer);
    TokensBound(front + Flat(rows) + trailer);
  }

  // ----- Relative URIs ---------------------------------------------------------------------------

  // Parts with slashes between them.
  function Join(parts: seq<Bytes>): Bytes
    requires parts != []
  {
    if |parts| == 1 then parts[0] else parts[0] + [47] + Join(parts[1..])
  }

  predicate NoSlash(parts: seq<Bytes>) {
    forall i :: 0 <= i < |parts| ==> 47 !in parts[i]
  }

  // Bytes have one reading as parts with slashes between them.
  lemma {:induction false} PartsExactly(b: Bytes, parts: seq<Bytes>)
    ensures Parts(b) == parts <==> parts != [] && NoSlash(parts) && Join(parts) == b
    decreases |b|
  {
    PartsJoin(b);
    if parts != [] && NoSlash(parts) && Join(parts) == b {
      JoinParts(parts);
    }
    hide Parts, Join;
  }

  lemma {:induction false} PartsJoin(b: Bytes)
    ensures NoSlash(Parts(b)) && Join(Parts(b)) == b
  {
    if b != [] {
      var rest := Parts(b[1..]);
      PartsJoin(b[1..]);
      if b[0] == 47 {
        assert ([[]] + rest)[1..] == rest;
      } else {
        var first := [b[0]] + rest[0];
        assert ([first] + rest[1..])[1..] == rest[1..];
        assert b == [b[0]] + b[1..];
      }
    }
  }

  lemma FirstByte(parts: seq<Bytes>, shorter: seq<Bytes>)
    requires parts != [] && parts[0] != [] && shorter == [parts[0][1..]] + parts[1..]
    ensures Join(parts) != [] && Join(parts)[0] == parts[0][0] && Join(parts)[1..] == Join(shorter)
  {
    assert shorter[1..] == parts[1..];
    if |parts| > 1 {
      assert Join(parts) == parts[0] + ([47] + Join(parts[1..]));
      assert Join(shorter) == shorter[0] + ([47] + Join(parts[1..]));
    }
  }

  lemma {:induction false} JoinParts(parts: seq<Bytes>)
    requires parts != [] && NoSlash(parts)
    ensures Parts(Join(parts)) == parts
    decreases |parts|, |parts[0]|
  {
    var b := Join(parts);
    if parts[0] != [] {
      var shorter := [parts[0][1..]] + parts[1..];
      assert shorter[1..] == parts[1..];
      FirstByte(parts, shorter);
      JoinParts(shorter);
      assert [b[0]] + shorter[0] == parts[0] && shorter[1..] == parts[1..];
      assert [parts[0]] + parts[1..] == parts;
    } else if |parts| > 1 {
      assert b == [47] + Join(parts[1..]);
      JoinParts(parts[1..]);
      assert [[]] + parts[1..] == parts;
    }
  }

  // A part of a relative path: named, of the bytes allowed, and not climbing.
  predicate NameOk(part: Bytes) {
    part != [] && 47 !in part && 92 !in part && 58 !in part && part != [46] && part != [46, 46]
  }

  ghost predicate NamesOk(parts: seq<Bytes>) {
    forall i :: 0 <= i < |parts| ==> NameOk(parts[i])
  }

  lemma NamesOfUri(b: Bytes)
    requires UriOk(b)
    ensures NamesOk(Parts(b))
  {
    hide Parts, Join;
    PartsJoin(b);
    OtherBytes(Parts(b), 92);
    OtherBytes(Parts(b), 58);
    forall i | 0 <= i < |Parts(b)|
      ensures NameOk(Parts(b)[i])
    {
      assert Parts(b)[i] in Parts(b);
    }
  }

  lemma UriOfNames(parts: seq<Bytes>)
    requires parts != [] && NamesOk(parts)
    ensures UriOk(Join(parts))
  {
    hide Parts, Join;
    PartsExactly(Join(parts), parts);
    OtherBytes(parts, 92);
    OtherBytes(parts, 58);
  }

  // Relative URIs are exactly such parts with slashes between them.
  lemma UriExactly(b: Bytes)
    ensures UriOk(b) <==> exists parts :: parts != [] && NamesOk(parts) && Join(parts) == b
  {
    hide Join, NamesOk, UriOk;
    if UriOk(b) {
      NamesOfUri(b);
      PartsJoin(b);
    }
    forall parts | parts != [] && NamesOk(parts) && Join(parts) == b
      ensures UriOk(b)
    {
      UriOfNames(parts);
    }
  }

  lemma {:induction false} OtherBytes(parts: seq<Bytes>, x: byte)
    requires parts != [] && x != 47
    ensures x in Join(parts) <==> exists i :: 0 <= i < |parts| && x in parts[i]
  {
    if |parts| > 1 {
      OtherBytes(parts[1..], x);
    }
  }
}
