// The stored form of typed scalars and of partition tuples.
module ScalarCodec {
  import opened Wrappers
  import opened Objects
  import opened Encoding
  import opened Cbor
  import opened StoredReferences

  // A floating-point number is given by its bits, most significant byte first.
  datatype Scalar =
    | Null
    | Boolean(value: bool)
    | Int32(i: int)
    | Int64(i: int)
    | Float32(bits: Bytes)
    | Float64(bits: Bytes)
    | Decimal(precision: nat, scale: nat, unscaled: Bytes)
    | Date(i: int)
    | TimeMicros(i: int)
    | TimestampMicros(i: int)
    | TimestamptzMicros(i: int)
    | String(text: Bytes)
    | Binary(content: Bytes)
    | Fixed(content: Bytes)
    | Uuid(content: Bytes)

  const I32_LOW: int := -0x8000_0000
  const I32_HIGH: int := 0x7FFF_FFFF
  const I64_LOW: int := -0x8000_0000_0000_0000
  const I64_HIGH: int := 0x7FFF_FFFF_FFFF_FFFF
  const DAY: int := 86_400_000_000

  const NAN32: Bytes := [0x7F, 0xC0, 0, 0]
  const NAN64: Bytes := [0x7F, 0xF8, 0, 0, 0, 0, 0, 0]

  predicate IsNan32(bits: Bytes)
    requires |bits| == 4
  {
    bits[0] as nat % 128 == 127 && bits[1] >= 128 && bits[1..] != [128, 0, 0]
  }

  predicate IsNan64(bits: Bytes)
    requires |bits| == 8
  {
    bits[0] as nat % 128 == 127 && bits[1] >= 0xF0 && bits[1..] != [0xF0, 0, 0, 0, 0, 0, 0]
  }

  // What the value's type guarantees.
  predicate Typed(s: Scalar) {
    match s
    case Null => true
    case Boolean(_) => true
    case Int32(i) => I32_LOW <= i <= I32_HIGH
    case Date(i) => I32_LOW <= i <= I32_HIGH
    case Int64(i) => I64_LOW <= i <= I64_HIGH
    case TimeMicros(i) => I64_LOW <= i <= I64_HIGH
    case TimestampMicros(i) => I64_LOW <= i <= I64_HIGH
    case TimestamptzMicros(i) => I64_LOW <= i <= I64_HIGH
    case Float32(bits) => |bits| == 4
    case Float64(bits) => |bits| == 8
    case Decimal(precision, scale, unscaled) => precision <= U32_MAX && scale <= U32_MAX && |unscaled| <= U64_MAX
    case String(text) => TokenOk(Text(text))
    case Binary(content) => |content| <= U64_MAX
    case Fixed(content) => |content| <= U64_MAX
    case Uuid(content) => |content| == 16
  }

  // The same number with the one NaN that is stored.
  function Canonical(s: Scalar): (r: Scalar)
    requires Typed(s)
    ensures Typed(r)
  {
    match s
    case Float32(bits) => if IsNan32(bits) then Float32(NAN32) else s
    case Float64(bits) => if IsNan64(bits) then Float64(NAN64) else s
    case _ => s
  }

  // No byte of a two's complement number is spare.
  predicate Minimal(b: Bytes) {
    && b != []
    && (|b| > 1 && b[0] == 0 ==> b[1] >= 128)
    && (|b| > 1 && b[0] == 255 ==> b[1] < 128)
  }

  // validate, and the canonical NaN.
  predicate Valid(s: Scalar)
    requires Typed(s)
  {
    && Canonical(s) == s
    && (s.Decimal? ==> s.precision != 0 && s.scale <= s.precision && Minimal(s.unscaled))
    && (s.TimeMicros? ==> 0 <= s.i < DAY)
  }

  // ----- Scalars as items --------------------------------------------------------------------

  function Code(s: Scalar): (c: nat)
    ensures c <= 14
  {
    match s
    case Null => 0
    case Boolean(_) => 1
    case Int32(_) => 2
    case Int64(_) => 3
    case Float32(_) => 4
    case Float64(_) => 5
    case Decimal(_, _, _) => 6
    case Date(_) => 7
    case TimeMicros(_) => 8
    case TimestampMicros(_) => 9
    case TimestamptzMicros(_) => 10
    case String(_) => 11
    case Binary(_) => 12
    case Fixed(_) => 13
    case Uuid(_) => 14
  }

  function Payload(s: Scalar): seq<Token> {
    match s
    case Null => [Mark(0xF6)]
    case Boolean(value) => [Mark(if value then 0xF5 else 0xF4)]
    case Int32(i) => [IntegerToken(i)]
    case Int64(i) => [IntegerToken(i)]
    case Float32(bits) => [Blob(bits)]
    case Float64(bits) => [Blob(bits)]
    case Decimal(precision, scale, unscaled) => [ArrayHead(3), Unsigned(precision), Unsigned(scale), Blob(unscaled)]
    case Date(i) => [IntegerToken(i)]
    case TimeMicros(i) => [IntegerToken(i)]
    case TimestampMicros(i) => [IntegerToken(i)]
    case TimestamptzMicros(i) => [IntegerToken(i)]
    case String(text) => [Text(text)]
    case Binary(content) => [Blob(content)]
    case Fixed(content) => [Blob(content)]
    case Uuid(content) => [Blob(content)]
  }

  function Lead(code: nat): seq<Token> { [ArrayHead(2), Unsigned(code)] }

  function ScalarTokens(s: Scalar): seq<Token> {
    Lead(Code(s)) + Payload(s)
  }

  function PayloadPattern(code: nat): seq<Pattern> {
    if code == 0 then [Exactly(Mark(0xF6))]
    else if code == 1 then [AnyBool]
    else if code == 2 || code == 7 then [AnySigned(I32_LOW, I32_HIGH)]
    else if code == 3 || 8 <= code <= 10 then [AnySigned(I64_LOW, I64_HIGH)]
    else if code == 4 then [AnySized(4)]
    else if code == 5 then [AnySized(8)]
    else if code == 6 then [Exactly(ArrayHead(3)), AnyCount(U32_MAX), AnyCount(U32_MAX), AnyBlob]
    else if code == 11 then [AnyText]
    else if code == 12 || code == 13 then [AnyBlob]
    else [AnySized(16)]
  }

  // The scalar a code and its payload spell.
  function ScalarOf(code: nat, ts: seq<Token>): Scalar
    requires code <= 14 && Matches(PayloadPattern(code), ts)
  {
    PayloadShape(code, ts);
    if code == 0 then Null
    else if code == 1 then Boolean(ts[0] == Mark(0xF5))
    else if code == 2 then Int32(SignedValue(ts[0]))
    else if code == 3 then Int64(SignedValue(ts[0]))
    else if code == 4 then Float32(ts[0].content)
    else if code == 5 then Float64(ts[0].content)
    else if code == 6 then Decimal(ts[1].n, ts[2].n, ts[3].content)
    else if code == 7 then Date(SignedValue(ts[0]))
    else if code == 8 then TimeMicros(SignedValue(ts[0]))
    else if code == 9 then TimestampMicros(SignedValue(ts[0]))
    else if code == 10 then TimestamptzMicros(SignedValue(ts[0]))
    else if code == 11 then String(ts[0].content)
    else if code == 12 then Binary(ts[0].content)
    else if code == 13 then Fixed(ts[0].content)
    else Uuid(ts[0].content)
  }

  lemma PayloadShape(code: nat, ts: seq<Token>)
    requires code <= 14
    ensures Matches(PayloadPattern(code), ts) <==>
      if code == 6 then |ts| == 4 && ts[0] == ArrayHead(3) && Suits(AnyCount(U32_MAX), ts[1]) && Suits(AnyCount(U32_MAX), ts[2]) && ts[3].Blob?
      else |ts| == 1 && Suits(PayloadPattern(code)[0], ts[0])
  {
    var ps := PayloadPattern(code);
    if code == 6 {
      if |ts| == 4 {
        assert Matches(ps, ts) <==> Suits(ps[0], ts[0]) && Suits(ps[1], ts[1]) && Suits(ps[2], ts[2]) && Suits(ps[3], ts[3]);
      }
    } else if |ts| == 1 {
      assert Matches(ps, ts) <==> Suits(ps[0], ts[0]);
    }
  }

  lemma PayloadMatches(s: Scalar)
    requires Typed(s)
    ensures Matches(PayloadPattern(Code(s)), Payload(s)) && TokensOk(Payload(s))
    ensures ScalarOf(Code(s), Payload(s)) == s
  {
    PayloadShape(Code(s), Payload(s));
    hide Matches, PayloadPattern, IsUtf8;
  }

  lemma PayloadRecord(code: nat, ts: seq<Token>)
    requires code <= 14 && Matches(PayloadPattern(code), ts) && TokensOk(ts)
    ensures var s := ScalarOf(code, ts); Typed(s) && Code(s) == code && Payload(s) == ts
  {
    PayloadShape(code, ts);
    assert TokenOk(ts[0]) && (code == 6 ==> TokenOk(ts[3]));
    hide Matches, IsUtf8, TokensOk;
  }

  lemma LeadOk(code: nat)
    requires code <= 14
    ensures TokensOk(Lead(code)) && Matches([Exactly(ArrayHead(2)), AnyCount(14)], Lead(code))
  {
    var ps := [Exactly(ArrayHead(2)), AnyCount(14)];
    assert Suits(ps[0], Lead(code)[0]) && Suits(ps[1], Lead(code)[1]);
  }

  lemma LeadShape(ts: seq<Token>)
    requires Matches([Exactly(ArrayHead(2)), AnyCount(14)], ts)
    ensures |ts| == 2 && ts[1].Unsigned? && ts[1].n <= 14 && ts == Lead(ts[1].n)
  {
    var ps := [Exactly(ArrayHead(2)), AnyCount(14)];
    assert Suits(ps[0], ts[0]) && Suits(ps[1], ts[1]);
  }

  lemma ScalarOk(s: Scalar)
    requires Typed(s)
    ensures TokensOk(ScalarTokens(s))
  {
    LeadOk(Code(s));
    PayloadMatches(s);
    hide TokensOk, Payload, Lead, Matches;
    TokensOkJoin(Lead(Code(s)), Payload(s));
  }

  lemma PayloadSize(s: Scalar)
    ensures |Payload(s)| == if s.Decimal? then 4 else 1
  {
  }

  // A scalar's items tell where they end and which scalar they are.
  lemma PrefixFree(s: Scalar, t: Scalar, a: seq<Token>, b: seq<Token>)
    requires Typed(s) && Typed(t) && ScalarTokens(s) + a == ScalarTokens(t) + b
    ensures s == t && a == b
  {
    hide Payload, Typed, ScalarOf, Canonical;
    assert (ScalarTokens(s) + a)[1] == Unsigned(Code(s)) && (ScalarTokens(t) + b)[1] == Unsigned(Code(t));
    PayloadSize(s);
    PayloadSize(t);
    CodeTells(s, t);
    SplitSame(ScalarTokens(s), a, ScalarTokens(t), b);
    SplitSame(Lead(Code(s)), Payload(s), Lead(Code(t)), Payload(t));
    PayloadMatches(s);
    PayloadMatches(t);
  }

  lemma CodeTells(s: Scalar, t: Scalar)
    requires Code(s) == Code(t)
    ensures s.Decimal? <==> t.Decimal?
  {
  }

  // The stored form: floating-point numbers with their one NaN.
  function Stored(s: Scalar): Bytes
    requires Typed(s)
  {
    ScalarOk(Canonical(s));
    PrintAll(ScalarTokens(Canonical(s)))
  }

  // ----- Decoding --------------------------------------------------------------------------------

  // What a valid scalar's items show after the lead.
  lemma ScalarBegins(start: Option<seq<Token>>, s: Scalar)
    requires Typed(s) && Begins(start, ScalarTokens(s))
    ensures Begins(start, Lead(Code(s))) && Matches([Exactly(ArrayHead(2)), AnyCount(14)], Lead(Code(s)))
  {
    LeadOk(Code(s));
    BeginsFirst(start, Lead(Code(s)), Payload(s));
    hide *;
  }

  lemma ScalarContinues(start: Option<seq<Token>>, s: Scalar, lead: seq<Token>, rest: Option<seq<Token>>)
    requires Typed(s) && Begins(start, ScalarTokens(s)) && |lead| == 2 && start == Prepend(lead, rest)
    ensures lead == Lead(Code(s)) && Begins(rest, Payload(s)) && Matches(PayloadPattern(Code(s)), Payload(s))
  {
    PayloadMatches(s);
    BeginsInParts(start, Lead(Code(s)), Payload(s), lead, rest);
    hide *;
  }

  // A scalar at the cursor, whatever follows it.
  method ReadScalar(d: Decoder) returns (r: Option<Scalar>)
    requires d.Valid()
    modifies d
    ensures d.Valid()
    ensures r.Some? ==> Typed(r.value) && Valid(r.value) && old(d.Rest()) == Prepend(ScalarTokens(r.value), d.Rest())
    ensures forall s :: Typed(s) && Valid(s) && Begins(old(d.Rest()), ScalarTokens(s)) ==> r == Some(s)
  {
    hide TokensFrom, Payload, Typed, Matches, PayloadPattern, ScalarOf, Valid, Code, Begins, Lead, ScalarTokens;
    ghost var start := d.Rest();
    var lead := d.ReadRecord([Exactly(ArrayHead(2)), AnyCount(14)]);
    forall s | Typed(s) && Begins(start, ScalarTokens(s))
      ensures lead.Some?
    {
      ScalarBegins(start, s);
    }
    if lead.None? {
      return None;
    }
    LeadShape(lead.value);
    var code := lead.value[1].n;
    ghost var rest := d.Rest();
    var payload := d.ReadRecord(PayloadPattern(code));
    forall s | Typed(s) && Begins(start, ScalarTokens(s))
      ensures payload.Some? && s == ScalarOf(code, payload.value)
    {
      ScalarContinues(start, s, lead.value, rest);
      LeadCode(code, Code(s));
      ScalarSettled(s, code, rest, payload.value, d.Rest());
    }
    if payload.None? {
      return None;
    }
    var value := ScalarOf(code, payload.value);
    PayloadRecord(code, payload.value);
    ReadOn(start, lead.value, payload.value, rest, d.Rest());
    ScalarIs(value, code);
    r := if Valid(value) then Some(value) else None;
  }

  lemma LeadCode(a: nat, b: nat)
    requires Lead(a) == Lead(b)
    ensures a == b
  {
    assert Lead(a)[1] == Lead(b)[1];
  }

  lemma ScalarIs(s: Scalar, code: nat)
    requires Code(s) == code
    ensures ScalarTokens(s) == Lead(code) + Payload(s)
  {
  }

  lemma ScalarSettled(s: Scalar, code: nat, rest: Option<seq<Token>>, payload: seq<Token>, last: Option<seq<Token>>)
    requires Typed(s) && Code(s) == code && Begins(rest, Payload(s)) && Matches(PayloadPattern(code), payload) && rest == Prepend(payload, last)
    ensures s == ScalarOf(code, payload)
  {
    PayloadMatches(s);
    PayloadShape(code, payload);
    PayloadShape(code, Payload(s));
    hide Payload, Typed, Matches, PayloadPattern, ScalarOf;
    assert forall j :: 0 <= j < |payload| ==> payload[j] == rest.value[j] == Payload(s)[j];
    assert payload == Payload(s);
  }

  // The bytes are accepted exactly when they are the stored form of a valid scalar.
  method DecodeTypedScalar(input: Bytes) returns (r: Option<Scalar>)
    ensures r.Some? ==> Typed(r.value) && Valid(r.value)
    ensures forall s :: Typed(s) && Valid(s) ==> (Stored(s) == input <==> r == Some(s))
  {
    hide Typed, Valid, TokensFrom, ScalarTokens, Canonical, Begins;
    var d := new Decoder(input);
    ghost var start := d.Rest();
    r := ReadScalar(d);
    forall s | Typed(s) && Valid(s)
      ensures Stored(s) == input <==> start == Some(ScalarTokens(s))
    {
      StoredExactly(s, input);
    }
    forall s | Typed(s) && Valid(s) && start == Some(ScalarTokens(s))
      ensures r == Some(s) && d.Rest() == Some([])
    {
      WholeBegins(start, ScalarTokens(s));
      NothingMore(start, ScalarTokens(s), d.Rest());
    }
    if r.None? {
      return None;
    }
    NothingMore(start, ScalarTokens(r.value), d.Rest());
    var finished := d.Finish();
    if !finished {
      return None;
    }
  }

  lemma WholeBegins(start: Option<seq<Token>>, ts: seq<Token>)
    requires start == Some(ts)
    ensures Begins(start, ts)
  {
  }

  lemma NothingMore(start: Option<seq<Token>>, ts: seq<Token>, rest: Option<seq<Token>>)
    ensures start == Prepend(ts, rest) ==> (rest == Some([]) <==> start == Some(ts))
  {
    if start == Prepend(ts, rest) {
      if start == Some(ts) {
        assert |ts + rest.value| == |ts|;
      }
      if rest == Some([]) {
        assert ts + [] == ts;
      }
    }
  }

  lemma StoredExactly(s: Scalar, input: Bytes)
    requires Typed(s) && Valid(s)
    ensures Stored(s) == input <==> TokensFrom(input, 0) == Some(ScalarTokens(s))
  {
    ScalarOk(s);
    TokensExactly(input, ScalarTokens(s));
    hide TokensFrom, TokensOk, PrintAll, ScalarTokens;
  }

  // Scalars have one stored form exactly when they are the same up to their NaN.
  lemma StoredSame(s: Scalar, t: Scalar)
    requires Typed(s) && Typed(t)
    ensures Stored(s) == Stored(t) <==> Canonical(s) == Canonical(t)
  {
    var a, b := ScalarTokens(Canonical(s)), ScalarTokens(Canonical(t));
    ScalarOk(Canonical(s));
    ScalarOk(Canonical(t));
    hide ScalarTokens, PrintAll, TokensFrom, TokensOk, Canonical;
    TokensExactly(PrintAll(a), a);
    TokensExactly(PrintAll(a), b);
    if a == b {
      assert a + [] == b + [];
      PrefixFree(Canonical(s), Canonical(t), [], []);
    }
  }

  // Every NaN of a width, and nothing else, is stored as the one of that width.
  lemma NansStored(bits: Bytes)
    ensures |bits| == 4 ==> (Stored(Float32(bits)) == Stored(Float32(NAN32)) <==> IsNan32(bits))
    ensures |bits| == 8 ==> (Stored(Float64(bits)) == Stored(Float64(NAN64)) <==> IsNan64(bits))
  {
    hide Stored;
    assert IsNan32(NAN32) && IsNan64(NAN64);
    if |bits| == 4 {
      StoredSame(Float32(bits), Float32(NAN32));
    }
    if |bits| == 8 {
      StoredSame(Float64(bits), Float64(NAN64));
    }
  }

  // ----- Encoding --------------------------------------------------------------------------------

  method PutScalar(out: Output, s: Scalar, ghost before: seq<Token>)
    requires Typed(s) && TokensOk(before) && out.data == PrintAll(before)
    modifies out
    ensures TokensOk(before + ScalarTokens(Canonical(s))) && out.data == PrintAll(before + ScalarTokens(Canonical(s)))
  {
    hide TokensOk, PrintAll, Payload, Typed;
    var c := Canonical(s);
    ScalarOk(c);
    out.Items(ScalarTokens(c), before);
  }

  method EncodeTypedScalar(s: Scalar) returns (r: Bytes)
    requires Typed(s)
    ensures r == Stored(s)
  {
    hide TokensOk, PrintAll, ScalarTokens, Canonical;
    Nothing();
    var out := new Output();
    PutScalar(out, s, []);
    assert [] + ScalarTokens(Canonical(s)) == ScalarTokens(Canonical(s));
    r := out.data;
  }

  lemma Nothing()
    ensures TokensOk([]) && PrintAll([]) == []
  {
  }

  // ----- Partition tuples ---------------------------------------------------------------------

  // The entries of a sorted map from field IDs to values.
  type Tuple = seq<(nat, Scalar)>

  predicate TypedTuple(t: Tuple) {
    |t| <= U64_MAX && forall i :: 0 <= i < |t| ==> t[i].0 <= U32_MAX && Typed(t[i].1)
  }

  predicate Sorted(t: Tuple) {
    forall i, j :: 0 <= i < j < |t| ==> t[i].0 < t[j].0
  }

  // Field IDs are positive and values valid.
  predicate TupleValid(t: Tuple)
    requires TypedTuple(t)
  {
    Sorted(t) && forall i :: 0 <= i < |t| ==> t[i].0 > 0 && Valid(t[i].1)
  }

  function PairTokens(p: (nat, Scalar)): seq<Token> {
    [Unsigned(p.0)] + ScalarTokens(p.1)
  }

  // Pairs from the front, as the decoder meets them.
  function PairsTokens(t: Tuple): seq<Token> {
    if t == [] then [] else PairTokens(t[0]) + PairsTokens(t[1..])
  }

  function TupleTokens(t: Tuple): seq<Token> {
    [MapHead(|t|)] + PairsTokens(t)
  }

  lemma {:induction false} PairsOk(t: Tuple)
    requires TypedTuple(t)
    ensures TokensOk(PairsTokens(t))
  {
    hide TokensOk, Typed, ScalarTokens;
    if t == [] {
      Nothing();
    } else {
      ScalarOk(t[0].1);
      OneCount(t[0].0);
      PairsOk(t[1..]);
      TokensOkJoin([Unsigned(t[0].0)], ScalarTokens(t[0].1));
      TokensOkJoin(PairTokens(t[0]), PairsTokens(t[1..]));
    }
  }

  lemma OneCount(n: nat)
    requires n <= U64_MAX
    ensures TokensOk([Unsigned(n)]) && TokensOk([MapHead(n)])
  {
  }

  lemma TupleOk(t: Tuple)
    requires TypedTuple(t)
    ensures TokensOk(TupleTokens(t))
  {
    hide TokensOk, PairsTokens, Typed;
    PairsOk(t);
    OneCount(|t|);
    TokensOkJoin([MapHead(|t|)], PairsTokens(t));
  }

  function CanonicalTuple(t: Tuple): (r: Tuple)
    requires TypedTuple(t)
    ensures |r| == |t| && TypedTuple(r)
  {
    seq(|t|, i requires 0 <= i < |t| => (t[i].0, Canonical(t[i].1)))
  }

  function StoredTuple(t: Tuple): Bytes
    requires TypedTuple(t)
  {
    TupleOk(CanonicalTuple(t));
    PrintAll(TupleTokens(CanonicalTuple(t)))
  }

  lemma ValidIsCanonical(t: Tuple)
    requires TypedTuple(t) && TupleValid(t)
    ensures CanonicalTuple(t) == t
  {
    forall i | 0 <= i < |t|
      ensures CanonicalTuple(t)[i] == t[i]
    {
      assert Valid(t[i].1);
    }
  }

  // Field IDs so far, all below the next.
  predicate Ascends(previous: nat, t: Tuple) {
    Sorted(t) && forall i :: 0 <= i < |t| ==> t[i].0 > previous
  }

  lemma PairNext(t: Tuple, start: Option<seq<Token>>)
    requires t != [] && start == Some(PairsTokens(t))
    ensures Begins(start, [Unsigned(t[0].0)])
    ensures forall id: seq<Token>, rest :: |id| == 1 && start == Prepend(id, rest) ==>
      id == [Unsigned(t[0].0)] && rest == Some(ScalarTokens(t[0].1) + PairsTokens(t[1..]))
  {
    hide ScalarTokens;
    var after := ScalarTokens(t[0].1) + PairsTokens(t[1..]);
    assert PairsTokens(t) == [Unsigned(t[0].0)] + after;
    forall id: seq<Token>, rest | |id| == 1 && start == Prepend(id, rest)
      ensures id == [Unsigned(t[0].0)] && rest == Some(after)
    {
      SplitSame(id, rest.value, [Unsigned(t[0].0)], after);
    }
  }

  // One pair at the cursor, its field ID above the previous one.
  method ReadPair(d: Decoder, previous: nat) returns (r: Option<(nat, Scalar)>)
    requires d.Valid()
    modifies d
    ensures d.Valid()
    ensures r.Some? ==> previous < r.value.0 <= U32_MAX && Typed(r.value.1) && Valid(r.value.1)
    ensures r.Some? ==> old(d.Rest()) == Prepend(PairTokens(r.value), d.Rest())
    ensures forall t: Tuple :: t != [] && TypedTuple(t) && Valid(t[0].1) && previous < t[0].0 && old(d.Rest()) == Some(PairsTokens(t)) ==>
      r == Some(t[0]) && d.Rest() == Some(PairsTokens(t[1..]))
  {
    hide TokensFrom, Typed, Valid, ScalarTokens, PairsTokens, Matches;
    ghost var start := d.Rest();
    IdMatches();
    var id := d.ReadRecord([AnyCount(U32_MAX)]);
    forall t: Tuple | t != [] && TypedTuple(t) && start == Some(PairsTokens(t))
      ensures id.Some?
    {
      PairNext(t, start);
    }
    if id.None? {
      return None;
    }
    ghost var rest := d.Rest();
    IdShape(id.value);
    forall t: Tuple | t != [] && start == Some(PairsTokens(t))
      ensures id.value == [Unsigned(t[0].0)] && rest == Some(ScalarTokens(t[0].1) + PairsTokens(t[1..]))
    {
      PairNext(t, start);
    }
    if id.value[0].n <= previous {
      return None;
    }
    var value := ReadScalar(d);
    forall t: Tuple | t != [] && TypedTuple(t) && Valid(t[0].1) && start == Some(PairsTokens(t))
      ensures value == Some(t[0].1) && d.Rest() == Some(PairsTokens(t[1..]))
    {
      ScalarFirst(rest, t[0].1, PairsTokens(t[1..]));
      SplitSame(ScalarTokens(value.value), d.Rest().value, ScalarTokens(t[0].1), PairsTokens(t[1..]));
    }
    if value.None? {
      return None;
    }
    ReadOn(start, id.value, ScalarTokens(value.value), rest, d.Rest());
    r := Some((id.value[0].n, value.value));
  }

  lemma ScalarFirst(rest: Option<seq<Token>>, s: Scalar, more: seq<Token>)
    requires rest == Some(ScalarTokens(s) + more)
    ensures Begins(rest, ScalarTokens(s))
  {
    hide ScalarTokens;
  }

  lemma IdMatches()
    ensures forall n: nat :: n <= U32_MAX ==> Matches([AnyCount(U32_MAX)], [Unsigned(n)])
  {
    forall n: nat | n <= U32_MAX
      ensures Matches([AnyCount(U32_MAX)], [Unsigned(n)])
    {
      assert Suits([AnyCount(U32_MAX)][0], [Unsigned(n)][0]);
    }
  }

  lemma IdShape(ts: seq<Token>)
    requires Matches([AnyCount(U32_MAX)], ts)
    ensures |ts| == 1 && ts[0].Unsigned? && ts[0].n <= U32_MAX && ts == [Unsigned(ts[0].n)]
  {
    assert Suits([AnyCount(U32_MAX)][0], ts[0]);
  }

  lemma PairsAppend(t: Tuple, p: (nat, Scalar))
    ensures PairsTokens(t + [p]) == PairsTokens(t) + PairTokens(p)
  {
    if t == [] {
      assert t + [p] == [p] && [p][1..] == [];
    } else {
      assert (t + [p])[0] == t[0] && (t + [p])[1..] == t[1..] + [p];
      PairsAppend(t[1..], p);
    }
  }

  // The bytes are accepted exactly when they are the stored form of a valid tuple.
  method DecodePartitionTuple(input: Bytes) returns (r: Option<Tuple>)
    ensures r.Some? ==> TypedTuple(r.value) && TupleValid(r.value)
    ensures forall t: Tuple :: TypedTuple(t) && TupleValid(t) ==> (StoredTuple(t) == input <==> r == Some(t))
  {
    var d := new Decoder(input);
    ghost var start := d.Rest();
    r := ReadTuple(d);
    forall t: Tuple | TypedTuple(t) && TupleValid(t)
      ensures StoredTuple(t) == input <==> start == Some(TupleTokens(t))
    {
      TupleExactly(t, input);
    }
    hide *;
  }

  lemma TupleExactly(t: Tuple, input: Bytes)
    requires TypedTuple(t) && TupleValid(t)
    ensures StoredTuple(t) == input <==> TokensFrom(input, 0) == Some(TupleTokens(t))
  {
    ValidIsCanonical(t);
    TupleOk(t);
    TokensExactly(input, TupleTokens(t));
    hide TokensFrom, TokensOk, PrintAll, TupleTokens, CanonicalTuple, TypedTuple, TupleValid;
  }

  method ReadTuple(d: Decoder) returns (r: Option<Tuple>)
    requires d.Valid()
    modifies d
    ensures d.Valid()
    ensures r.Some? ==> TypedTuple(r.value) && TupleValid(r.value)
    ensures forall t: Tuple :: TypedTuple(t) && TupleValid(t) ==> (old(d.Rest()) == Some(TupleTokens(t)) <==> r == Some(t))
  {
    hide TokensFrom, Typed, Valid, ScalarTokens, PairsTokens;
    ghost var start := d.Rest();
    var head := d.Next();
    if head.None? || !head.value.MapHead? {
      forall t: Tuple
        ensures start != Some(TupleTokens(t))
      {
        TupleFirst(t);
      }
      return None;
    }
    var count := head.value.n;
    ghost var rest := d.Rest();
    forall t: Tuple
      ensures start == Some(TupleTokens(t)) <==> |t| == count && rest == Some(PairsTokens(t))
    {
      TupleHead(t, start, count, rest);
    }
    r := ReadPairs(d, count);
  }

  lemma TupleFirst(t: Tuple)
    ensures TupleTokens(t)[0] == MapHead(|t|)
  {
  }

  lemma TupleHead(t: Tuple, start: Option<seq<Token>>, count: nat, rest: Option<seq<Token>>)
    requires start == Prepend([MapHead(count)], rest)
    ensures start == Some(TupleTokens(t)) <==> |t| == count && rest == Some(PairsTokens(t))
  {
    hide PairsTokens;
    if start == Some(TupleTokens(t)) {
      SplitSame([MapHead(count)], rest.value, [MapHead(|t|)], PairsTokens(t));
      assert [MapHead(count)][0] == [MapHead(|t|)][0];
    }
  }

  // The pairs one after the other, and nothing after them.
  method ReadPairs(d: Decoder, count: nat) returns (r: Option<Tuple>)
    requires d.Valid() && count <= U64_MAX
    modifies d
    ensures d.Valid()
    ensures r.Some? ==> |r.value| == count && TypedTuple(r.value) && TupleValid(r.value)
    ensures forall t: Tuple :: |t| == count && TypedTuple(t) && TupleValid(t) ==> (old(d.Rest()) == Some(PairsTokens(t)) <==> r == Some(t))
  {
    hide TokensFrom, Typed, Valid, ScalarTokens, PairsTokens, PairTokens;
    ghost var start := d.Rest();
    var read: Tuple := [];
    var previous := 0;
    NoPairs();
    assert start.Some? ==> [] + start.value == start.value;
    for i := 0 to count
      invariant d.Valid() && |read| == i && TypedTuple(read) && TupleValid(read) && start == Prepend(PairsTokens(read), d.Rest())
      invariant previous == if i == 0 then 0 else read[i - 1].0
      invariant forall t: Tuple :: |t| == count && TypedTuple(t) && TupleValid(t) && start == Some(PairsTokens(t)) ==>
        t[..i] == read && d.Rest() == Some(PairsTokens(t[i..]))
    {
      ghost var before := d.Rest();
      var pair := ReadPair(d, previous);
      forall t: Tuple | |t| == count && TypedTuple(t) && TupleValid(t) && start == Some(PairsTokens(t))
        ensures pair == Some(t[i]) && t[..i + 1] == read + [t[i]] && d.Rest() == Some(PairsTokens(t[i + 1..]))
      {
        TailPair(t, i, previous);
      }
      if pair.None? {
        return None;
      }
      ReadOn(start, PairsTokens(read), PairTokens(pair.value), before, d.Rest());
      PairsAppend(read, pair.value);
      Extends(read, pair.value, previous);
      read := read + [pair.value];
      previous := pair.value.0;
    }
    var finished := d.Finish();
    forall t: Tuple | |t| == count && TypedTuple(t) && TupleValid(t) && start == Some(PairsTokens(t))
      ensures t == read && finished
    {
      assert t[..count] == t && t[count..] == [];
    }
    NothingMore(start, PairsTokens(read), d.Rest());
    if !finished {
      return None;
    }
    r := Some(read);
  }

  lemma NoPairs()
    ensures PairsTokens([]) == []
  {
  }

  lemma TailPair(t: Tuple, i: nat, previous: nat)
    requires i < |t| && TypedTuple(t) && TupleValid(t) && previous == if i == 0 then 0 else t[i - 1].0
    ensures var rest := t[i..]; rest != [] && rest[0] == t[i] && rest[1..] == t[i + 1..] && TypedTuple(rest) && Valid(rest[0].1) && previous < rest[0].0
    ensures t[..i + 1] == t[..i] + [t[i]]
  {
    hide Typed, Valid;
  }

  lemma Extends(t: Tuple, p: (nat, Scalar), previous: nat)
    requires TypedTuple(t) && TupleValid(t) && p.0 <= U32_MAX && Typed(p.1) && Valid(p.1) && |t| < U64_MAX
    requires previous == (if t == [] then 0 else t[|t| - 1].0) && previous < p.0
    ensures TypedTuple(t + [p]) && TupleValid(t + [p])
  {
    hide Typed, Valid;
  }

  method EncodePartitionTuple(t: Tuple) returns (r: Bytes)
    requires TypedTuple(t)
    ensures r == StoredTuple(t)
  {
    hide TokensOk, PrintAll, ScalarTokens, Canonical, Typed, PairsTokens;
    Nothing();
    OneCount(|t|);
    NoPairs();
    var out := new Output();
    out.Items([MapHead(|t|)], []);
    ghost var c := CanonicalTuple(t);
    assert [] + [MapHead(|t|)] == [MapHead(|t|)] && c[..0] == [] && [MapHead(|t|)] + [] == [MapHead(|t|)];
    for i := 0 to |t|
      invariant TokensOk([MapHead(|t|)] + PairsTokens(c[..i])) && out.data == PrintAll([MapHead(|t|)] + PairsTokens(c[..i]))
    {
      ghost var before := [MapHead(|t|)] + PairsTokens(c[..i]);
      OneCount(t[i].0);
      out.Items([Unsigned(t[i].0)], before);
      PutScalar(out, t[i].1, before + [Unsigned(t[i].0)]);
      assert c[..i] + [c[i]] == c[..i + 1];
      PairsAppend(c[..i], c[i]);
      assert before + [Unsigned(t[i].0)] + ScalarTokens(Canonical(t[i].1)) == [MapHead(|t|)] + PairsTokens(c[..i + 1]);
    }
    assert c[..|t|] == c;
    r := out.data;
  }

  // ----- What canonical numbers are -----------------------------------------------------------------

  // A NaN has all bits of its exponent set, and one of its fraction.
  lemma NanExactly(bits: Bytes)
    ensures |bits| == 4 ==> (IsNan32(bits) <==> BigEndian(bits) % 0x8000_0000 > 0x7F80_0000)
    ensures |bits| == 8 ==> (IsNan64(bits) <==> BigEndian(bits) % 0x8000_0000_0000_0000 > 0x7FF0_0000_0000_0000)
  {
    hide BigEndian, Pow;
    if |bits| == 4 {
      Nan32(bits);
    }
    if |bits| == 8 {
      Nan64(bits);
    }
  }

  lemma Nan32(bits: Bytes)
    requires |bits| == 4
    ensures IsNan32(bits) <==> BigEndian(bits) % 0x8000_0000 > 0x7F80_0000
  {
    hide BigEndian, Pow;
    var rest := BigEndian(bits[2..]);
    Powers();
    BigEndianFront(bits);
    BigEndianFront(bits[1..]);
    assert bits[1..][1..] == bits[2..];
    ToBigEndianInverse(bits[2..]);
    ZeroExactly(bits[2..]);
    assert bits[1..] == [bits[1]] + bits[2..];
    var low := bits[0] as nat % 128;
    assert BigEndian(bits) == (bits[0] as nat / 128) * 0x8000_0000 + (low * 0x100_0000 + bits[1] as nat * 0x1_0000 + rest);
    assert BigEndian(bits) % 0x8000_0000 == low * 0x100_0000 + bits[1] as nat * 0x1_0000 + rest;
  }

  lemma Nan64(bits: Bytes)
    requires |bits| == 8
    ensures IsNan64(bits) <==> BigEndian(bits) % 0x8000_0000_0000_0000 > 0x7FF0_0000_0000_0000
  {
    hide BigEndian, Pow;
    var rest := BigEndian(bits[2..]);
    Powers();
    BigEndianFront(bits);
    BigEndianFront(bits[1..]);
    assert bits[1..][1..] == bits[2..];
    ToBigEndianInverse(bits[2..]);
    ZeroExactly(bits[2..]);
    assert bits[1..] == [bits[1]] + bits[2..];
    var low := bits[0] as nat % 128;
    assert BigEndian(bits)
        == (bits[0] as nat / 128) * 0x8000_0000_0000_0000 + (low * 0x100_0000_0000_0000 + bits[1] as nat * 0x1_0000_0000_0000 + rest);
    assert BigEndian(bits) % 0x8000_0000_0000_0000 == low * 0x100_0000_0000_0000 + bits[1] as nat * 0x1_0000_0000_0000 + rest;
  }

  lemma Powers()
    ensures Pow(256, 2) == 0x1_0000 && Pow(256, 3) == 0x100_0000
    ensures Pow(256, 6) == 0x1_0000_0000_0000 && Pow(256, 7) == 0x100_0000_0000_0000
  {
    assert Pow(256, 2) == 0x1_0000;
    assert Pow(256, 4) == 0x1_0000 * Pow(256, 2);
  }

  lemma {:induction false} ZeroExactly(b: Bytes)
    ensures BigEndian(b) == 0 <==> forall i :: 0 <= i < |b| ==> b[i] == 0
  {
    if b != [] {
      ZeroExactly(b[..|b| - 1]);
    }
  }

  // The numbers of so many bytes.
  lemma TwosComplementRange(b: Bytes)
    requires b != []
    ensures -128 * Pow(256, |b| - 1) <= TwosComplement(b) < 128 * Pow(256, |b| - 1)
  {
    hide BigEndian, Pow;
    BigEndianFront(b);
    ToBigEndianInverse(b[1..]);
    OneMoreByte(|b| - 1);
    Multiples(b[0] as nat, Pow(256, |b| - 1));
  }

  lemma OneMoreByte(n: nat)
    ensures Pow(256, n + 1) == 256 * Pow(256, n)
  {
  }

  lemma Multiples(k: nat, p: nat)
    requires k < 256
    ensures k < 128 ==> k * p + p <= 128 * p
    ensures k >= 128 ==> 128 * p <= k * p && k * p + p <= 256 * p
  {
    if k < 128 {
      MulGrows(k + 1, 128, p);
    } else {
      MulGrows(128, k, p);
      MulGrows(k + 1, 256, p);
    }
  }

  // A leading byte that only repeats the sign adds nothing; any other does.
  lemma SpareByte(b: Bytes)
    requires |b| > 1
    ensures (b[0] == 0 && b[1] < 128) || (b[0] == 255 && b[1] >= 128) ==> TwosComplement(b[1..]) == TwosComplement(b)
    ensures !(b[0] == 0 && b[1] < 128) && !(b[0] == 255 && b[1] >= 128) ==>
      TwosComplement(b) < -128 * Pow(256, |b| - 2) || 128 * Pow(256, |b| - 2) <= TwosComplement(b)
  {
    hide BigEndian, Pow;
    var p := Pow(256, |b| - 2);
    BigEndianFront(b);
    BigEndianFront(b[1..]);
    ToBigEndianInverse(b[1..][1..]);
    OneMoreByte(|b| - 2);
    OneMoreByte(|b| - 1);
    Multiples(b[1] as nat, p);
    Leading(b[0] as nat, p);
  }

  lemma Leading(k: nat, p: nat)
    requires k < 256
    ensures k == 255 ==> k * (256 * p) == 255 * 256 * p
    ensures 0 < k ==> 256 * p <= k * (256 * p)
    ensures k < 255 ==> k * (256 * p) + 256 * p <= 255 * 256 * p
  {
    if 0 < k {
      MulGrows(1, k, 256 * p);
    }
    if k < 255 {
      MulGrows(k + 1, 255, 256 * p);
    }
  }

  // Minimal are exactly the shortest two's complement forms of their numbers.
  lemma MinimalExactly(b: Bytes)
    requires b != []
    ensures Minimal(b) <==> forall c: Bytes :: c != [] && TwosComplement(c) == TwosComplement(b) ==> |b| <= |c|
  {
    hide TwosComplement, BigEndian, Pow;
    if |b| > 1 {
      SpareByte(b);
      if !Minimal(b) {
        assert b[1..] != [] && TwosComplement(b[1..]) == TwosComplement(b) && |b[1..]| < |b|;
      }
      forall c: Bytes | Minimal(b) && c != [] && TwosComplement(c) == TwosComplement(b)
        ensures |b| <= |c|
      {
        TwosComplementRange(c);
        if |c| < |b| {
          PowGrows(256, |c| - 1, |b| - 2);
        }
      }
    }
  }
}
