// Deterministic CBOR (section 4.2.1 of RFC 8949): the items the protocol uses, each with
// exactly one encoding, and the cursor that reads them.
module Cbor {
  import opened Wrappers
  import opened Objects
  import opened Encoding

  // One data item without its parts: containers are only their heads. A mark is false,
  // true or null.
  datatype Token =
    | Unsigned(n: nat)
    | Negative(n: nat)
    | Blob(content: Bytes)
    | Text(content: Bytes)
    | ArrayHead(n: nat)
    | MapHead(n: nat)
    | Mark(code: nat)

  // ----- UTF-8 ------------------------------------------------------------------------------

  predicate Continues(b: Bytes, n: nat) {
    n < |b| && forall i :: 1 <= i <= n ==> 128 <= b[i] < 192
  }

  // Well-formed UTF-8, without overlong forms and surrogates.
  predicate IsUtf8(b: Bytes)
    decreases |b|
  {
    b == [] ||
    if b[0] < 0x80 then IsUtf8(b[1..])
    else if 0xC2 <= b[0] < 0xE0 then Continues(b, 1) && IsUtf8(b[2..])
    else if 0xE0 <= b[0] < 0xF0 then
      && Continues(b, 2) && (b[0] == 0xE0 ==> b[1] >= 0xA0) && (b[0] == 0xED ==> b[1] < 0xA0) && IsUtf8(b[3..])
    else if 0xF0 <= b[0] < 0xF5 then
      && Continues(b, 3) && (b[0] == 0xF0 ==> b[1] >= 0x90) && (b[0] == 0xF4 ==> b[1] < 0x90) && IsUtf8(b[4..])
    else false
  }

  lemma {:induction false} AsciiIsUtf8(b: Bytes)
    requires forall i :: 0 <= i < |b| ==> b[i] < 128
    ensures IsUtf8(b)
    decreases |b|
  {
    if b != [] {
      AsciiIsUtf8(b[1..]);
    }
  }

  // ----- Heads ------------------------------------------------------------------------------

  // How many bytes follow the first one of a head.
  function Extra(value: nat): nat {
    if value < 24 then 0 else if value < 0x100 then 1 else if value < 0x1_0000 then 2
    else if value < 0x1_0000_0000 then 4 else 8
  }

  function Additional(value: nat): nat {
    if value < 24 then value else if value < 0x100 then 24 else if value < 0x1_0000 then 25
    else if value < 0x1_0000_0000 then 26 else 27
  }

  // The shortest head of a major type and its argument.
  function HeadBytes(major: nat, value: nat): (b: Bytes)
    requires major < 8
    ensures |b| == 1 + Extra(value)
  {
    [(major * 32 + Additional(value)) as byte] + ToBigEndian(value, Extra(value))
  }

  function ExtraOf(additional: nat): nat {
    if additional < 24 then 0 else if additional == 24 then 1 else if additional == 25 then 2
    else if additional == 26 then 4 else 8
  }

  // The argument behind the first byte of a head, and where the head ends; only the
  // shortest form counts.
  function ArgumentAt(b: Bytes, at: nat, additional: nat): (r: Option<(nat, nat)>)
    ensures r.Some? ==> at <= r.value.1 && (r.value.1 <= |b| || r.value.1 == at)
  {
    var end := at + ExtraOf(additional);
    if additional > 27 || end > |b| then None
    else
      var value := if additional < 24 then additional else BigEndian(b[at..end]);
      if Extra(value) != ExtraOf(additional) then None else Some((value, end))
  }

  function HeadAt(b: Bytes, at: nat): (r: Option<(nat, nat, nat)>)
    ensures r.Some? ==> r.value.0 < 8 && at < r.value.2 <= |b|
  {
    if at >= |b| then None
    else
      match ArgumentAt(b, at + 1, b[at] as nat % 32)
      case None => None
      case Some((value, end)) => Some((b[at] as nat / 32, value, end))
  }

  lemma PowerWidths()
    ensures Pow(256, 0) == 1 && Pow(256, 1) == 0x100 && Pow(256, 2) == 0x1_0000
    ensures Pow(256, 4) == 0x1_0000_0000 && Pow(256, 8) == U64_MAX + 1
  {
    assert Pow(256, 3) == 256 * Pow(256, 2);
    assert Pow(256, 4) == 256 * Pow(256, 3);
    assert Pow(256, 5) == 256 * Pow(256, 4);
    assert Pow(256, 6) == 256 * Pow(256, 5);
    assert Pow(256, 7) == 256 * Pow(256, 6);
  }

  lemma FirstByte(major: nat, value: nat)
    requires major < 8
    ensures (major * 32 + Additional(value)) % 32 == Additional(value) && (major * 32 + Additional(value)) / 32 == major
    ensures ExtraOf(Additional(value)) == Extra(value) && Additional(value) <= 27
    ensures Additional(value) < 24 <==> value < 24
    ensures value < 24 ==> Additional(value) == value && Extra(value) == 0
  {
  }

  lemma WidthFits(value: nat)
    requires value <= U64_MAX
    ensures value >= 24 ==> value < Pow(256, Extra(value))
  {
    PowerWidths();
  }

  // A one-byte head of major type 7.
  lemma SimpleByte(b: Bytes, at: nat, value: nat)
    requires HeadAt(b, at) == Some((7, value, at + 1))
    ensures at < |b| && b[at] as nat == 0xE0 + value
  {
  }

  lemma ArgumentReads(b: Bytes, at: nat, value: nat)
    requires value <= U64_MAX && Occurs(b, at, ToBigEndian(value, Extra(value)))
    ensures ArgumentAt(b, at, Additional(value)) == Some((value, at + Extra(value)))
  {
    hide Pow, ToBigEndian, BigEndian, Additional, Extra, ExtraOf;
    FirstByte(0, value);
    WidthFits(value);
    var n := Extra(value);
    assert |ToBigEndian(value, n)| == n && b[at..at + n] == ToBigEndian(value, n);
    if value >= 24 {
      BigEndianInverse(value, n);
    }
  }

  lemma HeadReads(b: Bytes, at: nat, major: nat, value: nat)
    requires major < 8 && value <= U64_MAX && Occurs(b, at, HeadBytes(major, value))
    ensures HeadAt(b, at) == Some((major, value, at + 1 + Extra(value)))
  {
    hide ToBigEndian, BigEndian, Extra, Additional, ArgumentAt, Occurs;
    FirstByte(major, value);
    var first := (major * 32 + Additional(value)) as byte;
    OccursBoth(b, at, [first], ToBigEndian(value, Extra(value)));
    OneByte(b, at, first);
    ArgumentReads(b, at + 1, value);
  }

  lemma ArgumentSound(b: Bytes, at: nat, additional: nat)
    requires at <= |b| && ArgumentAt(b, at, additional).Some?
    ensures var (value, end) := ArgumentAt(b, at, additional).value;
      && value <= U64_MAX && Occurs(b, at, ToBigEndian(value, Extra(value))) && end == at + Extra(value)
      && additional == Additional(value) <= 27
  {
    PowerWidths();
    var (value, end) := ArgumentAt(b, at, additional).value;
    ToBigEndianInverse(b[at..end]);
    assert |b[at..end]| == Extra(value);
    assert Occurs(b, at, ToBigEndian(value, 0));
    hide Pow, BigEndian, ToBigEndian;
  }

  lemma HeadSound(b: Bytes, at: nat)
    requires HeadAt(b, at).Some?
    ensures var (major, value, end) := HeadAt(b, at).value;
      value <= U64_MAX && Occurs(b, at, HeadBytes(major, value)) && end == at + 1 + Extra(value)
  {
    hide BigEndian, ToBigEndian, Extra, Additional, ArgumentAt;
    ArgumentSound(b, at + 1, b[at] as nat % 32);
    var value := ArgumentAt(b, at + 1, b[at] as nat % 32).value.0;
    assert b[at..at + 1] == [b[at]];
    OccursBoth(b, at, [b[at]], ToBigEndian(value, Extra(value)));
  }

  // ----- Items ------------------------------------------------------------------------------

  predicate TokenOk(t: Token) {
    match t
    case Unsigned(n) => n <= U64_MAX
    case Negative(n) => n <= U64_MAX
    case Blob(content) => |content| <= U64_MAX
    case Text(content) => |content| <= U64_MAX && IsUtf8(content)
    case ArrayHead(n) => n <= U64_MAX
    case MapHead(n) => n <= U64_MAX
    case Mark(code) => 0xF4 <= code <= 0xF6
  }

  function Print(t: Token): (b: Bytes)
    requires TokenOk(t)
    ensures |b| > 0
  {
    match t
    case Unsigned(n) => HeadBytes(0, n)
    case Negative(n) => HeadBytes(1, n)
    case Blob(content) => HeadBytes(2, |content|) + content
    case Text(content) => HeadBytes(3, |content|) + content
    case ArrayHead(n) => HeadBytes(4, n)
    case MapHead(n) => HeadBytes(5, n)
    case Mark(code) => [code as byte]
  }

  // The item that a head begins.
  function TokenWith(b: Bytes, major: nat, value: nat, end: nat, oneByte: bool): (r: Option<Token>)
    requires value <= U64_MAX && end <= |b|
    ensures r.Some? ==> TokenOk(r.value)
  {
    if major == 0 then Some(Unsigned(value))
    else if major == 1 then Some(Negative(value))
    else if major == 4 then Some(ArrayHead(value))
    else if major == 5 then Some(MapHead(value))
    else if major == 7 then if 20 <= value <= 22 && oneByte then Some(Mark(0xE0 + value)) else None
    else if (major != 2 && major != 3) || end + value > |b| then None
    else if major == 2 then Some(Blob(b[end..end + value]))
    else if IsUtf8(b[end..end + value]) then Some(Text(b[end..end + value]))
    else None
  }

  function TokenAt(b: Bytes, at: nat): (r: Option<Token>)
    ensures r.Some? ==> at < |b| && TokenOk(r.value)
  {
    match HeadAt(b, at)
    case None => None
    case Some((major, value, end)) =>
      HeadSound(b, at);
      TokenWith(b, major, value, end, end == at + 1)
  }

  lemma MarkReads(b: Bytes, at: nat)
    requires at < |b| && 0xF4 <= b[at] <= 0xF6
    ensures HeadAt(b, at) == Some((7, b[at] as nat - 0xE0, at + 1))
  {
    assert b[at] as nat % 32 == b[at] as nat - 0xE0;
  }

  lemma TokenReads(b: Bytes, at: nat, t: Token)
    requires TokenOk(t) && Occurs(b, at, Print(t))
    ensures TokenAt(b, at) == Some(t)
  {
    hide HeadBytes, HeadAt, IsUtf8, ToBigEndian, BigEndian;
    match t {
      case Unsigned(n) => HeadReads(b, at, 0, n);
      case Negative(n) => HeadReads(b, at, 1, n);
      case ArrayHead(n) => HeadReads(b, at, 4, n);
      case MapHead(n) => HeadReads(b, at, 5, n);
      case Blob(content) =>
        OccursBoth(b, at, HeadBytes(2, |content|), content);
        HeadReads(b, at, 2, |content|);
      case Text(content) =>
        OccursBoth(b, at, HeadBytes(3, |content|), content);
        HeadReads(b, at, 3, |content|);
      case Mark(code) =>
        OneByte(b, at, code as byte);
        MarkReads(b, at);
    }
  }

  lemma TokenSound(b: Bytes, at: nat)
    requires TokenAt(b, at).Some?
    ensures Occurs(b, at, Print(TokenAt(b, at).value))
  {
    hide HeadBytes, HeadAt, Occurs, Extra, Print, TokenWith;
    HeadSound(b, at);
    var (major, value, end) := HeadAt(b, at).value;
    if major == 7 && end == at + 1 {
      SimpleByte(b, at, value);
      ByteOccurs(b, at);
    }
    WithSound(b, at, major, value, end);
  }

  lemma WithSound(b: Bytes, at: nat, major: nat, value: nat, end: nat)
    requires major < 8 && value <= U64_MAX && end == at + 1 + Extra(value) <= |b| && Occurs(b, at, HeadBytes(major, value))
    requires major == 7 && end == at + 1 && value < 32 ==> Occurs(b, at, [(0xE0 + value) as byte])
    requires TokenWith(b, major, value, end, end == at + 1).Some?
    ensures Occurs(b, at, Print(TokenWith(b, major, value, end, end == at + 1).value))
  {
    hide HeadBytes, IsUtf8, Occurs, Extra;
    if (major == 2 || major == 3) && end + value <= |b| {
      StringSound(b, at, major, value, end);
    }
  }

  lemma ByteOccurs(b: Bytes, at: nat)
    requires at < |b|
    ensures Occurs(b, at, [b[at]])
  {
  }

  lemma StringSound(b: Bytes, at: nat, major: nat, value: nat, end: nat)
    requires major < 8 && end == at + 1 + Extra(value) && end + value <= |b| && Occurs(b, at, HeadBytes(major, value))
    ensures |b[end..end + value]| == value && Occurs(b, at, HeadBytes(major, value) + b[end..end + value])
  {
    hide HeadBytes;
    OccursBoth(b, at, HeadBytes(major, value), b[end..end + value]);
  }

  // ----- Sequences of items ----------------------------------------------------------------

  predicate TokensOk(ts: seq<Token>) { forall i :: 0 <= i < |ts| ==> TokenOk(ts[i]) }

  function PrintAll(ts: seq<Token>): (b: Bytes)
    requires TokensOk(ts)
    ensures |b| >= |ts|
  {
    if ts == [] then [] else Print(ts[0]) + PrintAll(ts[1..])
  }

  lemma {:induction false} PrintAllAppend(a: seq<Token>, b: seq<Token>)
    requires TokensOk(a) && TokensOk(b)
    ensures TokensOk(a + b) && PrintAll(a + b) == PrintAll(a) + PrintAll(b)
  {
    hide Print, TokenOk;
    if a == [] {
      assert a + b == b;
    } else {
      assert (a + b)[0] == a[0] && (a + b)[1..] == a[1..] + b;
      PrintAllAppend(a[1..], b);
    }
  }

  // All items from a position to the end, if it is nothing else.
  function TokensFrom(b: Bytes, at: nat): (r: Option<seq<Token>>)
    requires at <= |b|
    decreases |b| - at
    ensures r.Some? ==> TokensOk(r.value)
  {
    if at == |b| then Some([])
    else
      match TokenAt(b, at)
      case None => None
      case Some(t) =>
        TokenFits(b, at);
        var rest := TokensFrom(b, at + |Print(t)|);
        if rest.None? then None else Some([t] + rest.value)
  }

  lemma TokenFits(b: Bytes, at: nat)
    requires TokenAt(b, at).Some?
    ensures at + |Print(TokenAt(b, at).value)| <= |b|
  {
    TokenSound(b, at);
    OccursFits(b, at, Print(TokenAt(b, at).value));
    hide TokenAt, Print;
  }

  lemma {:induction false} TokensComplete(b: Bytes, at: nat, ts: seq<Token>)
    requires at <= |b| && TokensOk(ts) && b[at..] == PrintAll(ts)
    ensures TokensFrom(b, at) == Some(ts)
    decreases |ts|
  {
    hide TokenAt, Print, TokenOk;
    assert b[at..|b|] == b[at..];
    if ts != [] {
      OccursBoth(b, at, Print(ts[0]), PrintAll(ts[1..]));
      TokenReads(b, at, ts[0]);
      TokenFits(b, at);
      Slices(b, at, at + |Print(ts[0])|, |b|);
      TokensComplete(b, at + |Print(ts[0])|, ts[1..]);
      assert ts == [ts[0]] + ts[1..];
    }
  }

  lemma {:induction false} TokensSound(b: Bytes, at: nat)
    requires at <= |b| && TokensFrom(b, at).Some?
    ensures b[at..] == PrintAll(TokensFrom(b, at).value)
    decreases |b| - at
  {
    hide TokenAt, Print, TokenOk;
    if at < |b| {
      var t := TokenAt(b, at).value;
      TokenSound(b, at);
      TokenFits(b, at);
      var ts := TokensFrom(b, at).value;
      assert ts[1..] == TokensFrom(b, at + |Print(t)|).value;
      TokensSound(b, at + |Print(t)|);
      Slices(b, at, at + |Print(t)|, |b|);
      assert b[at..|b|] == b[at..];
    }
  }

  // Bytes and items determine each other: any string of items has one encoding, and any
  // bytes at most one reading.
  lemma TokensExactly(b: Bytes, ts: seq<Token>)
    ensures TokensFrom(b, 0) == Some(ts) <==> TokensOk(ts) && b == PrintAll(ts)
  {
    assert b[0..] == b;
    if TokensFrom(b, 0) == Some(ts) {
      TokensSound(b, 0);
    }
    if TokensOk(ts) && b == PrintAll(ts) {
      TokensComplete(b, 0, ts);
    }
  }

  // ----- Rows of items ---------------------------------------------------------------------

  function Flat(rows: seq<seq<Token>>): seq<Token> {
    if rows == [] then [] else Flat(rows[..|rows| - 1]) + rows[|rows| - 1]
  }

  lemma FlatOne(rows: seq<seq<Token>>, row: seq<Token>)
    ensures Flat(rows + [row]) == Flat(rows) + row
  {
    assert (rows + [row])[..|rows|] == rows;
  }

  lemma {:induction false} FlatSplit(rows: seq<seq<Token>>, k: nat) returns (after: seq<Token>)
    requires k < |rows|
    ensures Flat(rows) == Flat(rows[..k]) + rows[k] + after
  {
    if k == |rows| - 1 {
      after := [];
    } else {
      assert rows[..|rows| - 1][..k] == rows[..k];
      after := FlatSplit(rows[..|rows| - 1], k);
      after := after + rows[|rows| - 1];
    }
  }

  lemma {:induction false} FlatSameSize(a: seq<seq<Token>>, b: seq<seq<Token>>)
    requires |a| == |b| && forall i :: 0 <= i < |a| ==> |a[i]| == |b[i]|
    ensures |Flat(a)| == |Flat(b)|
  {
    if a != [] {
      FlatSameSize(a[..|a| - 1], b[..|b| - 1]);
    }
  }

  // Rows of known sizes can be told apart in a row.
  lemma {:induction false} FlatEqual(a: seq<seq<Token>>, b: seq<seq<Token>>)
    requires |a| == |b| && (forall i :: 0 <= i < |a| ==> |a[i]| == |b[i]|) && Flat(a) == Flat(b)
    ensures a == b
  {
    if a != [] {
      var last := |a| - 1;
      FlatSameSize(a[..last], b[..last]);
      SplitSame(Flat(a[..last]), a[last], Flat(b[..last]), b[last]);
      FlatEqual(a[..last], b[..last]);
      assert a == a[..last] + [a[last]] && b == b[..last] + [b[last]];
    }
  }

  lemma {:induction false} FlatOk(rows: seq<seq<Token>>)
    requires AllOk(rows)
    ensures TokensOk(Flat(rows))
  {
    if rows != [] {
      FlatOk(rows[..|rows| - 1]);
    }
  }

  lemma SplitSame(a: seq<Token>, b: seq<Token>, c: seq<Token>, d: seq<Token>)
    requires a + b == c + d && |a| == |c|
    ensures a == c && b == d
  {
    assert a == (a + b)[..|a|] && c == (c + d)[..|c|];
    assert b == (a + b)[|a|..] && d == (c + d)[|c|..];
  }

  // ----- The encoder's output -----------------------------------------------------------------

  function IntegerToken(v: int): Token {
    if v >= 0 then Unsigned(v) else Negative(-1 - v)
  }

  function SignedValue(t: Token): (v: int)
    requires t.Unsigned? || t.Negative?
    ensures IntegerToken(v) == t
  {
    if t.Unsigned? then t.n else -1 - t.n
  }

  class Output {
    var data: Bytes

    constructor ()
      ensures data == []
    {
      data := [];
    }

    method Push(head: byte, tail: Bytes)
      modifies this
      ensures data == old(data) + ([head] + tail)
    {
      data := data + ([head] + tail);
    }

    // major: the shortest head.
    method Major(kind: nat, value: nat)
      requires kind < 8
      modifies this
      ensures data == old(data) + HeadBytes(kind, value)
    {
      var prefix := kind * 32;
      if value <= 23 {
        Push((prefix + value) as byte, []);
      } else if value <= 0xFF {
        Push((prefix + 24) as byte, ToBigEndian(value, 1));
      } else if value <= 0xFFFF {
        Push((prefix + 25) as byte, ToBigEndian(value, 2));
      } else if value <= 0xFFFF_FFFF {
        Push((prefix + 26) as byte, ToBigEndian(value, 4));
      } else {
        Push((prefix + 27) as byte, ToBigEndian(value, 8));
      }
    }

    method Put(t: Token)
      requires TokenOk(t)
      modifies this
      ensures data == old(data) + Print(t)
    {
      hide HeadBytes, IsUtf8;
      match t {
        case Unsigned(n) => Major(0, n);
        case Negative(n) => Major(1, n);
        case Blob(content) =>
          Major(2, |content|);
          data := data + content;
        case Text(content) =>
          Major(3, |content|);
          data := data + content;
        case ArrayHead(n) => Major(4, n);
        case MapHead(n) => Major(5, n);
        case Mark(code) => Push(code as byte, []);
      }
    }

    // One item after others.
    method Item(t: Token, ghost before: seq<Token>)
      requires TokenOk(t) && TokensOk(before) && data == PrintAll(before)
      modifies this
      ensures TokensOk(before + [t]) && data == PrintAll(before + [t])
    {
      hide Print, TokenOk, PrintAll;
      PrintAllAppend(before, [t]);
      PrintOne(t);
      Put(t);
    }

    // A record after other items.
    method Items(ts: seq<Token>, ghost before: seq<Token>)
      requires TokensOk(ts) && TokensOk(before) && data == PrintAll(before)
      modifies this
      ensures TokensOk(before + ts) && data == PrintAll(before + ts)
    {
      hide TokenOk, PrintAll;
      assert before + [] == before;
      for i := 0 to |ts|
        invariant TokensOk(before + ts[..i]) && data == PrintAll(before + ts[..i])
      {
        assert before + ts[..i] + [ts[i]] == before + ts[..i + 1];
        Item(ts[i], before + ts[..i]);
      }
      assert ts[..|ts|] == ts;
    }
  }

  lemma PrintOne(t: Token)
    requires TokenOk(t)
    ensures PrintAll([t]) == Print(t)
  {
    assert [t][1..] == [];
  }

  // ----- The decoder's cursor --------------------------------------------------------------------

  // These items before the others.
  function Prepend(ts: seq<Token>, rest: Option<seq<Token>>): Option<seq<Token>> {
    if rest.None? then None else Some(ts + rest.value)
  }

  class Decoder {
    const bytes: Bytes
    var offset: nat

    ghost predicate Valid()
      reads this
    {
      offset <= |bytes|
    }

    // The items still to be read, if there is nothing else.
    ghost function Rest(): Option<seq<Token>>
      requires Valid()
      reads this
    {
      TokensFrom(bytes, offset)
    }

    constructor (b: Bytes)
      ensures Valid() && bytes == b && offset == 0
    {
      bytes, offset := b, 0;
    }

    method Byte() returns (r: Option<byte>)
      requires Valid()
      modifies this
      ensures Valid() && r == if old(offset) < |bytes| then Some(bytes[old(offset)]) else None
      ensures offset == old(offset) + if r.Some? then 1 else 0
    {
      if offset == |bytes| {
        return None;
      }
      r := Some(bytes[offset]);
      offset := offset + 1;
    }

    method Take(length: nat) returns (r: Option<Bytes>)
      requires Valid()
      modifies this
      ensures Valid() && (r.Some? <==> old(offset) + length <= |bytes|)
      ensures r.Some? ==> offset == old(offset) + length && r.value == bytes[old(offset)..offset]
    {
      if offset + length > |bytes| {
        return None;
      }
      r := Some(bytes[offset..offset + length]);
      offset := offset + length;
    }

    // head: major type and argument in shortest form.
    method Head() returns (r: Option<(nat, nat)>)
      requires Valid()
      modifies this
      ensures Valid()
      ensures r.None? ==> HeadAt(bytes, old(offset)).None?
      ensures r.Some? ==> HeadAt(bytes, old(offset)) == Some((r.value.0, r.value.1, offset))
    {
      var first := Byte();
      if first.None? {
        return None;
      }
      var major, additional := first.value as nat / 32, first.value as nat % 32;
      if additional > 27 {
        return None;
      }
      if additional < 24 {
        return Some((major, additional));
      }
      var argument := Take(ExtraOf(additional));
      if argument.None? {
        return None;
      }
      var value := BigEndian(argument.value);
      if Extra(value) != ExtraOf(additional) {
        return None;
      }
      return Some((major, value));
    }

    // The next item, whatever it is.
    method Next() returns (r: Option<Token>)
      requires Valid()
      modifies this
      ensures Valid() && r == TokenAt(bytes, old(offset))
      ensures r.Some? ==> offset == old(offset) + |Print(r.value)| && old(Rest()) == Prepend([r.value], Rest())
      ensures r.None? ==> old(Rest()).None? || old(Rest()) == Some([])
    {
      hide HeadAt, IsUtf8, HeadBytes;
      if TokenAt(bytes, offset).Some? {
        TokenFits(bytes, offset);
      }
      ghost var start := offset;
      var head := Head();
      if head.None? {
        return None;
      }
      HeadSound(bytes, start);
      var (major, value) := head.value;
      if major == 0 {
        return Some(Unsigned(value));
      }
      if major == 1 {
        return Some(Negative(value));
      }
      if major == 4 {
        return Some(ArrayHead(value));
      }
      if major == 5 {
        return Some(MapHead(value));
      }
      if major == 7 {
        return if 20 <= value <= 22 then Some(Mark(0xE0 + value)) else None;
      }
      if major == 6 {
        return None;
      }
      var content := Take(value);
      if content.None? {
        return None;
      }
      if major == 2 {
        return Some(Blob(content.value));
      }
      return if IsUtf8(content.value) then Some(Text(content.value)) else None;
    }

    // A record: items one after the other, each checked as it is read.
    method ReadRecord(patterns: seq<Pattern>) returns (r: Option<seq<Token>>)
      requires Valid()
      modifies this
      ensures Valid()
      ensures r.Some? ==> Matches(patterns, r.value) && TokensOk(r.value) && old(Rest()) == Prepend(r.value, Rest())
      ensures r.None? ==> !exists ts :: Matches(patterns, ts) && Begins(old(Rest()), ts)
    {
      hide TokenAt, TokensFrom, Print, TokenOk, IsUtf8;
      var read: seq<Token> := [];
      assert Rest().Some? ==> [] + Rest().value == Rest().value;
      for i := 0 to |patterns|
        invariant Valid() && |read| == i && TokensOk(read)
        invariant forall k :: 0 <= k < i ==> Suits(patterns[k], read[k])
        invariant old(Rest()) == Prepend(read, Rest())
      {
        ghost var before := Rest();
        var next := Next();
        if next.None? || !Suits(patterns[i], next.value) {
          forall ts | Matches(patterns, ts)
            ensures !Begins(old(Rest()), ts)
          {
            if Begins(old(Rest()), ts) {
              BeginsAt(old(Rest()), read, before, ts);
            }
          }
          return None;
        }
        ReadOn(old(Rest()), read, [next.value], before, Rest());
        read := read + [next.value];
      }
      return Some(read);
    }

    // Records of one form.
    method ReadRecords(patterns: seq<Pattern>, count: nat) returns (r: Option<seq<seq<Token>>>)
      requires Valid()
      modifies this
      ensures Valid()
      ensures r.Some? ==> AllMatch(patterns, r.value, count) && AllOk(r.value) && old(Rest()) == Prepend(Flat(r.value), Rest())
      ensures r.None? ==> !exists rows :: AllMatch(patterns, rows, count) && Begins(old(Rest()), Flat(rows))
    {
      hide TokenAt, TokensFrom, Print, TokenOk, IsUtf8, Matches, Flat;
      var read: seq<seq<Token>> := [];
      NoRows();
      assert Rest().Some? ==> [] + Rest().value == Rest().value;
      for i := 0 to count
        invariant Valid() && AllMatch(patterns, read, i) && AllOk(read)
        invariant old(Rest()) == Prepend(Flat(read), Rest())
      {
        ghost var before := Rest();
        var row := ReadRecord(patterns);
        if row.None? {
          forall rows | AllMatch(patterns, rows, count)
            ensures !Begins(old(Rest()), Flat(rows))
          {
            if Begins(old(Rest()), Flat(rows)) {
              RowBegins(patterns, old(Rest()), read, before, rows);
            }
          }
          return None;
        }
        ReadOn(old(Rest()), Flat(read), row.value, before, Rest());
        FlatOne(read, row.value);
        read := read + [row.value];
      }
      return Some(read);
    }

    // Nothing may follow.
    method Finish() returns (ok: bool)
      requires Valid()
      ensures ok <==> Rest() == Some([])
    {
      ok := offset == |bytes|;
    }
  }

  // What an item at its place in a record must look like.
  datatype Pattern =
    | Exactly(t: Token) | AnyUri | AnyText | AnyCount(max: nat) | AnyHash | AnyArray | AnyCodec
    | AnyBlob | AnySized(size: nat) | AnySigned(lowest: int, highest: int) | AnyBool

  predicate Suits(p: Pattern, t: Token) {
    match p
    case Exactly(own) => t == own
    case AnyUri => t.Text? && UriOk(t.content)
    case AnyText => t.Text?
    case AnyCount(max) => t.Unsigned? && t.n <= max
    case AnyHash => t.Blob? && |t.content| == 32
    case AnyArray => t.ArrayHead?
    case AnyCodec => t == Key(NoneWord) || t == Key(ZstdWord)
    case AnyBlob => t.Blob?
    case AnySized(size) => t.Blob? && |t.content| == size
    case AnySigned(lowest, highest) => (t.Unsigned? || t.Negative?) && lowest <= SignedValue(t) <= highest
    case AnyBool => t == Mark(0xF4) || t == Mark(0xF5)
  }

  predicate Matches(patterns: seq<Pattern>, ts: seq<Token>) {
    |ts| == |patterns| && forall i :: 0 <= i < |ts| ==> Suits(patterns[i], ts[i])
  }

  // ----- Relative URIs ---------------------------------------------------------------------

  function Parts(b: Bytes): (r: seq<Bytes>)
    ensures r != []
  {
    if b == [] then [[]]
    else
      var rest := Parts(b[1..]);
      if b[0] == 47 then [[]] + rest else [[b[0]] + rest[0]] + rest[1..]
  }

  // Parts between slashes are named, and none climbs.
  predicate UriOk(b: Bytes) {
    && 92 !in b && 58 !in b
    && forall part :: part in Parts(b) ==> part != [] && part != [46] && part != [46, 46]
  }

  // These items come next.
  predicate Begins(rest: Option<seq<Token>>, ts: seq<Token>) {
    rest.Some? && ts <= rest.value
  }

  // The item that comes next is the next one of what begins.
  lemma BeginsAt(start: Option<seq<Token>>, got: seq<Token>, before: Option<seq<Token>>, ts: seq<Token>)
    requires start == Prepend(got, before) && Begins(start, ts) && |got| < |ts|
    ensures before.Some? && before.value != [] && before.value[0] == ts[|got|]
  {
    assert start.value[|got|] == ts[|got|];
  }

  predicate AllMatch(patterns: seq<Pattern>, rows: seq<seq<Token>>, count: nat) {
    |rows| == count && forall i :: 0 <= i < |rows| ==> Matches(patterns, rows[i])
  }

  predicate AllOk(rows: seq<seq<Token>>) {
    forall i :: 0 <= i < |rows| ==> TokensOk(rows[i])
  }

  lemma NoRows()
    ensures Flat([]) == []
  {
  }

  // After some rows comes the next one of what begins.
  lemma RowBegins(patterns: seq<Pattern>, start: Option<seq<Token>>, read: seq<seq<Token>>, before: Option<seq<Token>>, rows: seq<seq<Token>>)
    requires AllMatch(patterns, read, |read|) && AllMatch(patterns, rows, |rows|) && |read| < |rows|
    requires start == Prepend(Flat(read), before) && Begins(start, Flat(rows))
    ensures Matches(patterns, rows[|read|]) && Begins(before, rows[|read|])
  {
    var k := |read|;
    var after := FlatSplit(rows, k);
    assert forall i :: 0 <= i < k ==> Matches(patterns, read[i]) && Matches(patterns, rows[i]);
    FlatSameSize(read, rows[..k]);
    hide Flat, Suits, Matches;
    PartNext(start.value, Flat(rows[..k]), rows[k], after);
    assert before.value == start.value[|Flat(read)|..];
  }

  lemma PartNext(all: seq<Token>, first: seq<Token>, row: seq<Token>, after: seq<Token>)
    requires first + row + after <= all
    ensures row <= all[|first|..]
  {
    var whole := first + row + after;
    assert forall j :: 0 <= j < |row| ==> all[|first| + j] == whole[|first| + j] == row[j];
  }

  // The fixed texts of the stored forms.
  datatype Word =
    | Child | Codec | Entries | FirstPage | Hashes | InternalWord | LeafWord | Length | Level | MaxPage | NodeType
    | NoneWord | Offset | PackWord | PageCount | PageNumber | PageSha256 | RawLength | Sha256 | StoredLength | Uri
    | Version | ZstdWord

  // Their ASCII letters.
  function Letters(w: Word): (b: Bytes)
    ensures |b| <= 13 && forall i :: 0 <= i < |b| ==> b[i] < 128
  {
    match w
    case Child => [99, 104, 105, 108, 100] // child
    case Codec => [99, 111, 100, 101, 99] // codec
    case Entries => [101, 110, 116, 114, 105, 101, 115] // entries
    case FirstPage => [102, 105, 114, 115, 116, 95, 112, 97, 103, 101] // first_page
    case Hashes => [104, 97, 115, 104, 101, 115] // hashes
    case InternalWord => [105, 110, 116, 101, 114, 110, 97, 108] // internal
    case LeafWord => [108, 101, 97, 102] // leaf
    case Length => [108, 101, 110, 103, 116, 104] // length
    case Level => [108, 101, 118, 101, 108] // level
    case MaxPage => [109, 97, 120, 95, 112, 97, 103, 101] // max_page
    case NodeType => [110, 111, 100, 101, 95, 116, 121, 112, 101] // node_type
    case NoneWord => [110, 111, 110, 101] // none
    case Offset => [111, 102, 102, 115, 101, 116] // offset
    case PackWord => [112, 97, 99, 107] // pack
    case PageCount => [112, 97, 103, 101, 95, 99, 111, 117, 110, 116] // page_count
    case PageNumber => [112, 97, 103, 101, 95, 110, 117, 109, 98, 101, 114] // page_number
    case PageSha256 => [112, 97, 103, 101, 95, 115, 104, 97, 50, 53, 54] // page_sha256
    case RawLength => [114, 97, 119, 95, 108, 101, 110, 103, 116, 104] // raw_length
    case Sha256 => [115, 104, 97, 50, 53, 54] // sha256
    case StoredLength => [115, 116, 111, 114, 101, 100, 95, 108, 101, 110, 103, 116, 104] // stored_length
    case Uri => [117, 114, 105] // uri
    case Version => [118, 101, 114, 115, 105, 111, 110] // version
    case ZstdWord => [122, 115, 116, 100] // zstd
  }

  function Key(w: Word): Token {
    Text(Letters(w))
  }

  lemma KeyOk(w: Word)
    ensures TokenOk(Key(w))
  {
    AsciiIsUtf8(Letters(w));
  }

  // Reading on: what was read before comes first.
  lemma ReadOn(start: Option<seq<Token>>, got: seq<Token>, more: seq<Token>, before: Option<seq<Token>>, after: Option<seq<Token>>)
    requires start == Prepend(got, before) && before == Prepend(more, after)
    ensures start == Prepend(got + more, after)
  {
    if after.Some? {
      assert got + (more + after.value) == got + more + after.value;
    }
  }

  lemma {:induction false} PrintBound(ts: seq<Token>, size: nat)
    requires TokensOk(ts) && forall i :: 0 <= i < |ts| ==> |Print(ts[i])| <= size
    ensures |PrintAll(ts)| <= size * |ts|
  {
    hide Print, TokenOk;
    if ts != [] {
      assert forall i :: 0 <= i < |ts| - 1 ==> ts[1..][i] == ts[i + 1];
      PrintBound(ts[1..], size);
      assert size * |ts| == size + size * (|ts| - 1);
    }
  }

  lemma {:induction false} FlatBound(rows: seq<seq<Token>>, width: nat)
    requires forall i :: 0 <= i < |rows| ==> |rows[i]| <= width
    ensures |Flat(rows)| <= width * |rows|
  {
    if rows != [] {
      FlatBound(rows[..|rows| - 1], width);
      assert width * |rows| == width + width * (|rows| - 1);
    }
  }

  // What begins in two parts begins with the first and goes on with the second.
  lemma BeginsInParts(start: Option<seq<Token>>, first: seq<Token>, second: seq<Token>, got: seq<Token>, rest: Option<seq<Token>>)
    requires Begins(start, first + second) && |got| == |first| && start == Prepend(got, rest)
    ensures got == first && Begins(rest, second)
  {
    var all := start.value;
    assert all == first + second + all[|first + second|..];
    assert all == first + (second + all[|first + second|..]);
    SplitSame(got, rest.value, first, second + all[|first + second|..]);
  }

  lemma BeginsFirst(start: Option<seq<Token>>, first: seq<Token>, second: seq<Token>)
    requires Begins(start, first + second)
    ensures Begins(start, first)
  {
    var all := start.value;
    assert all[..|first|] == (first + second)[..|first|] == first;
  }
}
