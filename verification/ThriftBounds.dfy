// The allocation-free check of a compact-Thrift footer before a native decoder sees it:
// it accepts exactly the encodings of one struct, and its work is bounded by the bytes
// given, whatever container sizes they declare.
module ThriftBounds {
  import opened Wrappers
  import opened Objects
  import opened Encoding

  const MAX_DEPTH: nat := 64

  // ----- The grammar ---------------------------------------------------------------------

  // One value with every byte that is its own. A boolean field has none: its type is its
  // value. Variable-length integers are kept as written; they need not be shortest.
  datatype Thrift =
    | Flag(mark: Bytes)
    | Fixed(content: Bytes)
    | Integer(raw: Bytes)
    | Binary(length: Bytes, content: Bytes)
    | List(header: byte, size: Bytes, elems: seq<Thrift>)
    | Map(size: Bytes, kinds: Bytes, pairs: seq<Thrift>)
    | Struct(fields: seq<Field>)

  // `id` is the field number when the header has no delta for it.
  datatype Field = Field(header: byte, id: Bytes, value: Thrift)

  // At most 64 bits, seven a byte.
  predicate IsVarint(raw: Bytes) {
    && 1 <= |raw| <= 10 && raw[|raw| - 1] < 128
    && (forall i :: 0 <= i < |raw| - 1 ==> raw[i] >= 128)
    && (|raw| == 10 ==> raw[9] <= 1)
  }

  function VarintValue(raw: Bytes): nat {
    if raw == [] then 0 else raw[0] as nat % 128 + 128 * VarintValue(raw[1..])
  }

  predicate WellFormed(t: Thrift, kind: nat, field: bool, depth: nat)
    decreases t
  {
    && depth <= MAX_DEPTH
    && match t
       case Flag(mark) => (kind == 1 || kind == 2) && if field then mark == [] else |mark| == 1 && 1 <= mark[0] <= 2
       case Fixed(content) => (kind == 3 && |content| == 1) || (kind == 7 && |content| == 8) || (kind == 13 && |content| == 16)
       case Integer(raw) => 4 <= kind <= 6 && IsVarint(raw)
       case Binary(length, content) => kind == 8 && IsVarint(length) && VarintValue(length) == |content|
       case List(header, size, elems) =>
         && 9 <= kind <= 10
         && (if header as nat / 16 == 15 then IsVarint(size) && VarintValue(size) == |elems| else size == [] && header as nat / 16 == |elems|)
         && ElemsFormed(elems, header as nat % 16, header as nat % 16, depth + 1)
       case Map(size, kinds, pairs) =>
         && kind == 11 && IsVarint(size) && |pairs| == 2 * VarintValue(size)
         && (if pairs == [] then kinds == []
             else |kinds| == 1 && ElemsFormed(pairs, kinds[0] as nat / 16, kinds[0] as nat % 16, depth + 1))
       case Struct(fields) => kind == 12 && FieldsFormed(fields, depth + 1)
  }

  // Values of two kinds by turns; a list has one kind twice.
  predicate ElemsFormed(elems: seq<Thrift>, kind: nat, other: nat, depth: nat)
    decreases elems
  {
    elems != [] ==> WellFormed(elems[0], kind, false, depth) && ElemsFormed(elems[1..], other, kind, depth)
  }

  predicate FieldsFormed(fields: seq<Field>, depth: nat)
    decreases fields
  {
    fields != [] ==>
      && fields[0].header != 0 && (if fields[0].header < 16 then IsVarint(fields[0].id) else fields[0].id == [])
      && WellFormed(fields[0].value, fields[0].header as nat % 16, true, depth)
      && FieldsFormed(fields[1..], depth)
  }

  function Print(t: Thrift): Bytes
    decreases t
  {
    match t
    case Flag(mark) => mark
    case Fixed(content) => content
    case Integer(raw) => raw
    case Binary(length, content) => length + content
    case List(header, size, elems) => [header] + size + PrintAll(elems)
    case Map(size, kinds, pairs) => size + kinds + PrintAll(pairs)
    case Struct(fields) => PrintFields(fields)
  }

  function PrintAll(elems: seq<Thrift>): Bytes
    decreases elems
  {
    if elems == [] then [] else Print(elems[0]) + PrintAll(elems[1..])
  }

  function PrintFields(fields: seq<Field>): Bytes
    decreases fields
  {
    if fields == [] then [0] else [fields[0].header] + fields[0].id + Print(fields[0].value) + PrintFields(fields[1..])
  }

  // ----- The checker as a function of the cursor -----------------------------------------

  // Whether a step succeeded, where it left the cursor, and how many values it entered.
  datatype Outcome = Outcome(ok: bool, at: nat, calls: nat)

  function IntEnd(b: Bytes, at: nat, i: nat): (r: Outcome)
    requires at <= |b| && i <= 10
    ensures at <= r.at <= |b| && r.calls == 0 && (r.ok ==> at < r.at)
    decreases |b| - at
  {
    if i == 10 || at == |b| then Outcome(false, at, 0)
    else if i == 9 && b[at] > 1 then Outcome(false, at + 1, 0)
    else if b[at] < 128 then Outcome(true, at + 1, 0)
    else IntEnd(b, at + 1, i + 1)
  }

  function SkipTo(b: Bytes, at: nat, count: nat): Outcome {
    if at + count <= |b| then Outcome(true, at + count, 0) else Outcome(false, at, 0)
  }

  // A value enters at most as many values as it has bytes, and one more if it is a field
  // (whose header is a byte more) or fails.
  function Value(b: Bytes, at: nat, kind: nat, field: bool, depth: nat): (r: Outcome)
    requires at <= |b|
    ensures at <= r.at <= |b| && (r.ok && !field ==> at < r.at)
    ensures r.calls <= r.at - at + if r.ok && !field then 0 else 1
    decreases |b| - at, 1, 0
  {
    if depth > MAX_DEPTH then Outcome(false, at, 1)
    else if (kind == 1 || kind == 2) && field then Outcome(true, at, 1)
    else if kind == 1 || kind == 2 then
      if at == |b| then Outcome(false, at, 1) else Outcome(1 <= b[at] <= 2, at + 1, 1)
    else if kind == 3 then SkipTo(b, at, 1).(calls := 1)
    else if 4 <= kind <= 6 then IntEnd(b, at, 0).(calls := 1)
    else if kind == 7 then SkipTo(b, at, 8).(calls := 1)
    else if kind == 8 then
      var length := IntEnd(b, at, 0);
      if !length.ok then length.(calls := 1) else SkipTo(b, length.at, VarintValue(b[at..length.at])).(calls := 1)
    else if kind == 9 || kind == 10 then ListValue(b, at, depth)
    else if kind == 11 then MapValue(b, at, depth)
    else if kind == 12 then
      var fields := Fields(b, at, depth + 1);
      fields.(calls := fields.calls + 1)
    else if kind == 13 then SkipTo(b, at, 16).(calls := 1)
    else Outcome(false, at, 1)
  }

  function ListValue(b: Bytes, at: nat, depth: nat): (r: Outcome)
    requires at <= |b|
    ensures at <= r.at <= |b| && (r.ok ==> at < r.at)
    ensures r.calls <= r.at - at + if r.ok then 0 else 1
    decreases |b| - at, 0, 0
  {
    if at == |b| then Outcome(false, at, 1)
    else
      var header := b[at] as nat;
      var size := if header / 16 == 15 then IntEnd(b, at + 1, 0) else Outcome(true, at + 1, 0);
      var count := if header / 16 == 15 then VarintValue(b[at + 1..size.at]) else header / 16;
      if !size.ok || count > |b| - size.at then Outcome(false, size.at, 1)
      else
        var elems := Elems(b, size.at, header % 16, header % 16, count, depth + 1);
        elems.(calls := elems.calls + 1)
  }

  function MapValue(b: Bytes, at: nat, depth: nat): (r: Outcome)
    requires at <= |b|
    ensures at <= r.at <= |b| && (r.ok ==> at < r.at)
    ensures r.calls <= r.at - at + if r.ok then 0 else 1
    decreases |b| - at, 0, 0
  {
    var size := IntEnd(b, at, 0);
    var count := VarintValue(b[at..size.at]);
    if !size.ok || count == 0 then size.(calls := 1)
    else if size.at == |b| then Outcome(false, size.at, 1)
    else
      var kinds := b[size.at] as nat;
      if 2 * count > |b| - size.at - 1 then Outcome(false, size.at + 1, 1)
      else
        var pairs := Elems(b, size.at + 1, kinds / 16, kinds % 16, 2 * count, depth + 1);
        pairs.(calls := pairs.calls + 1)
  }

  function Elems(b: Bytes, at: nat, kind: nat, other: nat, count: nat, depth: nat): (r: Outcome)
    requires at <= |b|
    ensures at <= r.at <= |b|
    ensures r.calls <= r.at - at + if r.ok then 0 else 1
    decreases |b| - at, 2, count
  {
    if count == 0 then Outcome(true, at, 0)
    else
      var first := Value(b, at, kind, false, depth);
      if !first.ok then first
      else
        var rest := Elems(b, first.at, other, kind, count - 1, depth);
        rest.(calls := first.calls + rest.calls)
  }

  function Fields(b: Bytes, at: nat, depth: nat): (r: Outcome)
    requires at <= |b|
    ensures at <= r.at <= |b| && (r.ok ==> at < r.at)
    ensures r.calls <= r.at - at - if r.ok then 1 else 0
    decreases |b| - at, 0, 0
  {
    if at == |b| then Outcome(false, at, 0)
    else if b[at] == 0 then Outcome(true, at + 1, 0)
    else
      var id := if b[at] < 16 then IntEnd(b, at + 1, 0) else Outcome(true, at + 1, 0);
      if !id.ok then id
      else
        var value := Value(b, id.at, b[at] as nat % 16, true, depth);
        if !value.ok then value
        else
          var rest := Fields(b, value.at, depth);
          rest.(calls := value.calls + rest.calls)
  }

  // One whole struct and nothing after it.
  predicate Accepts(b: Bytes) {
    var r := Value(b, 0, 12, true, 0);
    r.ok && r.at == |b|
  }

  // ----- Acceptance is the grammar ------------------------------------------------------------

  // The cursor passes exactly over a well-formed integer.
  lemma {:induction false} IntReads(b: Bytes, at: nat, raw: Bytes, i: nat)
    requires at <= |b| && i < |raw| && IsVarint(raw) && Occurs(b, at, raw[i..])
    ensures IntEnd(b, at, i) == Outcome(true, at + |raw| - i, 0)
    decreases |raw| - i
  {
    assert b[at] == raw[i..][0] == raw[i];
    if i < |raw| - 1 {
      assert raw[i..] == [raw[i]] + raw[i + 1..];
      OccursBoth(b, at, [raw[i]], raw[i + 1..]);
      IntReads(b, at + 1, raw, i + 1);
    }
  }

  lemma IntComplete(b: Bytes, at: nat, raw: Bytes)
    requires IsVarint(raw) && Occurs(b, at, raw)
    ensures IntEnd(b, at, 0) == Outcome(true, at + |raw|, 0) && b[at..at + |raw|] == raw
  {
    assert raw[0..] == raw;
    IntReads(b, at, raw, 0);
  }

  lemma {:induction false} IntSoundFrom(b: Bytes, at: nat, start: nat, i: nat)
    requires start + i == at <= |b| && i <= 10 && IntEnd(b, at, i).ok
    requires forall k :: start <= k < at ==> b[k] >= 128
    ensures IsVarint(b[start..IntEnd(b, at, i).at])
    decreases |b| - at
  {
    if b[at] >= 128 {
      IntSoundFrom(b, at + 1, start, i + 1);
    }
  }

  // What the cursor passes over as an integer is one.
  lemma IntSound(b: Bytes, at: nat)
    requires at <= |b| && IntEnd(b, at, 0).ok
    ensures IsVarint(b[at..IntEnd(b, at, 0).at])
  {
    IntSoundFrom(b, at, at, 0);
  }

  // Every value but a boolean field has at least one byte, so no declared count of a
  // well-formed container exceeds the bytes left.
  lemma {:induction false} PrintSize(t: Thrift, kind: nat, depth: nat)
    requires WellFormed(t, kind, false, depth)
    ensures |Print(t)| > 0
  {
  }

  lemma {:induction false} PrintAllSize(elems: seq<Thrift>, kind: nat, other: nat, depth: nat)
    requires ElemsFormed(elems, kind, other, depth)
    ensures |PrintAll(elems)| >= |elems|
  {
    if elems != [] {
      PrintSize(elems[0], kind, depth);
      PrintAllSize(elems[1..], other, kind, depth);
    }
  }

  // Every well-formed value is read to its end.
  lemma {:induction false} Complete(b: Bytes, at: nat, t: Thrift, kind: nat, field: bool, depth: nat)
    requires WellFormed(t, kind, field, depth) && Occurs(b, at, Print(t))
    ensures Value(b, at, kind, field, depth).ok && Value(b, at, kind, field, depth).at == at + |Print(t)|
    decreases t, 1
  {
    hide IsVarint, VarintValue, IntEnd, ListValue, MapValue, Fields, ElemsFormed, FieldsFormed, PrintAll, PrintFields;
    match t {
      case Flag(mark) =>
      case Fixed(content) =>
      case Integer(raw) => IntComplete(b, at, raw);
      case Binary(length, content) =>
        OccursBoth(b, at, length, content);
        IntComplete(b, at, length);
      case List(_, _, _) => ListComplete(b, at, t, kind, field, depth);
      case Map(_, _, _) => MapComplete(b, at, t, kind, field, depth);
      case Struct(fields) => FieldsComplete(b, at, fields, depth + 1);
    }
  }

  lemma {:induction false} ListComplete(b: Bytes, at: nat, t: Thrift, kind: nat, field: bool, depth: nat)
    requires t.List? && WellFormed(t, kind, field, depth) && Occurs(b, at, Print(t))
    ensures ListValue(b, at, depth).ok && ListValue(b, at, depth).at == at + |Print(t)|
    decreases t, 0
  {
    hide IsVarint, IntEnd, Elems, VarintValue, Occurs, ElemsFormed;
    var header, size, elems := t.header, t.size, t.elems;
    OccursBoth(b, at, [header] + size, PrintAll(elems));
    OccursBoth(b, at, [header], size);
    OneByte(b, at, header);
    if header as nat / 16 == 15 {
      IntComplete(b, at + 1, size);
    }
    PrintAllSize(elems, header as nat % 16, header as nat % 16, depth + 1);
    ElemsComplete(b, at + 1 + |size|, elems, header as nat % 16, header as nat % 16, depth + 1);
    OccursFits(b, at + 1 + |size|, PrintAll(elems));
    hide PrintAll;
  }

  lemma {:induction false} MapComplete(b: Bytes, at: nat, t: Thrift, kind: nat, field: bool, depth: nat)
    requires t.Map? && WellFormed(t, kind, field, depth) && Occurs(b, at, Print(t))
    ensures MapValue(b, at, depth).ok && MapValue(b, at, depth).at == at + |Print(t)|
    decreases t, 0
  {
    hide IsVarint, IntEnd, Elems, VarintValue, Occurs, ElemsFormed;
    var size, kinds, pairs := t.size, t.kinds, t.pairs;
    OccursBoth(b, at, size + kinds, PrintAll(pairs));
    OccursBoth(b, at, size, kinds);
    IntComplete(b, at, size);
    OccursFits(b, at, size);
    if pairs != [] {
      assert kinds == [kinds[0]];
      OneByte(b, at + |size|, kinds[0]);
      PrintAllSize(pairs, kinds[0] as nat / 16, kinds[0] as nat % 16, depth + 1);
      ElemsComplete(b, at + |size| + 1, pairs, kinds[0] as nat / 16, kinds[0] as nat % 16, depth + 1);
      OccursFits(b, at + |size| + 1, PrintAll(pairs));
    }
  }

  lemma {:induction false} ElemsComplete(b: Bytes, at: nat, elems: seq<Thrift>, kind: nat, other: nat, depth: nat)
    requires at <= |b| && ElemsFormed(elems, kind, other, depth) && Occurs(b, at, PrintAll(elems))
    ensures Elems(b, at, kind, other, |elems|, depth).ok
    ensures Elems(b, at, kind, other, |elems|, depth).at == at + |PrintAll(elems)|
    decreases elems, 0
  {
    hide Value, WellFormed, Print, Occurs;
    if elems != [] {
      OccursBoth(b, at, Print(elems[0]), PrintAll(elems[1..]));
      OccursFits(b, at, Print(elems[0]));
      Complete(b, at, elems[0], kind, false, depth);
      ElemsComplete(b, at + |Print(elems[0])|, elems[1..], other, kind, depth);
    }
  }

  lemma {:induction false} FieldsComplete(b: Bytes, at: nat, fields: seq<Field>, depth: nat)
    requires at <= |b| && FieldsFormed(fields, depth) && Occurs(b, at, PrintFields(fields))
    ensures Fields(b, at, depth).ok && Fields(b, at, depth).at == at + |PrintFields(fields)|
    decreases fields, 0
  {
    hide Value, WellFormed, Print, Occurs, IntEnd, IsVarint;
    if fields == [] {
      OneByte(b, at, 0);
    } else {
      var f := fields[0];
      OccursBoth(b, at, [f.header] + f.id + Print(f.value), PrintFields(fields[1..]));
      OccursBoth(b, at, [f.header] + f.id, Print(f.value));
      OccursBoth(b, at, [f.header], f.id);
      OneByte(b, at, f.header);
      OccursFits(b, at + 1, f.id);
      OccursFits(b, at + 1 + |f.id|, Print(f.value));
      if f.header < 16 {
        IntComplete(b, at + 1, f.id);
      }
      Complete(b, at + 1 + |f.id|, f.value, f.header as nat % 16, true, depth);
      FieldsComplete(b, at + 1 + |f.id| + |Print(f.value)|, fields[1..], depth);
    }
  }

  // Whatever is read to its end is a well-formed value.
  lemma {:induction false} Sound(b: Bytes, at: nat, kind: nat, field: bool, depth: nat) returns (t: Thrift)
    requires at <= |b| && Value(b, at, kind, field, depth).ok
    ensures WellFormed(t, kind, field, depth) && Print(t) == b[at..Value(b, at, kind, field, depth).at]
    decreases |b| - at, 1, 0
  {
    hide IntEnd, IsVarint, VarintValue, ListValue, MapValue, Fields, ElemsFormed, FieldsFormed;
    var end := Value(b, at, kind, field, depth).at;
    if (kind == 1 || kind == 2) {
      t := Flag(b[at..end]);
    } else if kind == 3 || kind == 7 || kind == 13 {
      t := Fixed(b[at..end]);
    } else if 4 <= kind <= 6 {
      IntSound(b, at);
      t := Integer(b[at..end]);
    } else if kind == 8 {
      IntSound(b, at);
      var middle := IntEnd(b, at, 0).at;
      t := Binary(b[at..middle], b[middle..end]);
      Slices(b, at, middle, end);
    } else if kind == 9 || kind == 10 {
      t := ListSound(b, at, kind, depth);
    } else if kind == 11 {
      t := MapSound(b, at, depth);
    } else {
      var fields := FieldsSound(b, at, depth + 1);
      t := Struct(fields);
    }
  }

  lemma {:induction false} ListSound(b: Bytes, at: nat, kind: nat, depth: nat) returns (t: Thrift)
    requires at <= |b| && 9 <= kind <= 10 && depth <= MAX_DEPTH && ListValue(b, at, depth).ok
    ensures WellFormed(t, kind, false, depth) && WellFormed(t, kind, true, depth)
    ensures Print(t) == b[at..ListValue(b, at, depth).at]
    decreases |b| - at, 0, 0
  {
    hide IntEnd, IsVarint, VarintValue, Elems, ElemsFormed, PrintAll;
    var end := ListValue(b, at, depth).at;
    var header := b[at] as nat;
    var middle := at + 1;
    if header / 16 == 15 {
      IntSound(b, at + 1);
      middle := IntEnd(b, at + 1, 0).at;
    }
    var count := if header / 16 == 15 then VarintValue(b[at + 1..middle]) else header / 16;
    var elems := ElemsSound(b, middle, header % 16, header % 16, count, depth + 1);
    t := List(b[at], b[at + 1..middle], elems);
    Slices(b, at, middle, end);
    Slices(b, at, at + 1, middle);
    assert b[at..at + 1] == [b[at]];
  }

  lemma NoElems()
    ensures PrintAll([]) == [] && Print(Struct([])) == [0]
  {
  }

  lemma {:induction false} MapSound(b: Bytes, at: nat, depth: nat) returns (t: Thrift)
    requires at <= |b| && depth <= MAX_DEPTH && MapValue(b, at, depth).ok
    ensures WellFormed(t, 11, false, depth) && WellFormed(t, 11, true, depth)
    ensures Print(t) == b[at..MapValue(b, at, depth).at]
    decreases |b| - at, 0, 0
  {
    NoElems();
    hide IntEnd, IsVarint, VarintValue, Elems, ElemsFormed, PrintAll;
    var end := MapValue(b, at, depth).at;
    IntSound(b, at);
    var middle := IntEnd(b, at, 0).at;
    var size := b[at..middle];
    if VarintValue(size) == 0 {
      t := Map(size, [], []);
    } else {
      var kinds := b[middle] as nat;
      var pairs := ElemsSound(b, middle + 1, kinds / 16, kinds % 16, 2 * VarintValue(size), depth + 1);
      t := Map(size, [b[middle]], pairs);
      Slices(b, at, middle + 1, end);
      Slices(b, at, middle, middle + 1);
      assert b[middle..middle + 1] == [b[middle]];
    }
  }

  lemma {:induction false} ElemsSound(b: Bytes, at: nat, kind: nat, other: nat, count: nat, depth: nat) returns (elems: seq<Thrift>)
    requires at <= |b| && Elems(b, at, kind, other, count, depth).ok
    ensures |elems| == count && ElemsFormed(elems, kind, other, depth)
    ensures PrintAll(elems) == b[at..Elems(b, at, kind, other, count, depth).at]
    decreases |b| - at, 2, count
  {
    if count == 0 {
      elems := [];
    } else {
      var end := Elems(b, at, kind, other, count, depth).at;
      var first := Sound(b, at, kind, false, depth);
      var middle := Value(b, at, kind, false, depth).at;
      var rest := ElemsSound(b, middle, other, kind, count - 1, depth);
      elems := [first] + rest;
      assert elems[1..] == rest;
      Slices(b, at, middle, end);
    }
  }

  lemma {:induction false} FieldsSound(b: Bytes, at: nat, depth: nat) returns (fields: seq<Field>)
    requires at <= |b| && Fields(b, at, depth).ok
    ensures FieldsFormed(fields, depth) && PrintFields(fields) == b[at..Fields(b, at, depth).at]
    decreases |b| - at, 0, 0
  {
    hide Value, WellFormed, Print, IntEnd, IsVarint;
    if b[at] == 0 {
      fields := [];
      assert b[at..at + 1] == [b[at]];
    } else {
      var end := Fields(b, at, depth).at;
      var middle := at + 1;
      if b[at] < 16 {
        IntSound(b, at + 1);
        middle := IntEnd(b, at + 1, 0).at;
      }
      var value := Sound(b, middle, b[at] as nat % 16, true, depth);
      var after := Value(b, middle, b[at] as nat % 16, true, depth).at;
      var rest := FieldsSound(b, after, depth);
      fields := [Field(b[at], b[at + 1..middle], value)] + rest;
      assert fields[1..] == rest;
      Slices(b, at, after, end);
      Slices(b, at, middle, after);
      Slices(b, at, at + 1, middle);
      assert b[at..at + 1] == [b[at]];
    }
  }

  // A footer is accepted exactly when it is one struct of the grammar.
  lemma AcceptsExactly(b: Bytes)
    ensures Accepts(b) <==> exists t :: WellFormed(t, 12, true, 0) && Print(t) == b
  {
    if Accepts(b) {
      var t := Sound(b, 0, 12, true, 0);
      assert b[0..|b|] == b;
    }
    forall t | WellFormed(t, 12, true, 0) && Print(t) == b
      ensures Accepts(b)
    {
      assert b[0..|b|] == b;
      Complete(b, 0, t, 12, true, 0);
    }
  }

  // ----- The checker as the source runs it --------------------------------------------------

  function Shift(i: nat): nat { if i == 0 then 1 else 128 * Shift(i - 1) }

  // One more byte of an integer.
  lemma {:induction false} ValueSnoc(raw: Bytes, last: byte)
    ensures VarintValue(raw + [last]) == VarintValue(raw) + Shift(|raw|) * (last as nat % 128)
  {
    if raw == [] {
      assert raw + [last] == [last];
      assert VarintValue([last]) == last as nat % 128 + 128 * VarintValue([last][1..]);
    } else {
      assert (raw + [last])[1..] == raw[1..] + [last];
      ValueSnoc(raw[1..], last);
      TimesThrough(Shift(|raw| - 1), last as nat % 128);
    }
  }

  lemma TimesThrough(a: nat, b: nat)
    ensures 128 * (a * b) == 128 * a * b
  {
  }

  // An integer as an encoder writes it: seven bits a byte, the least significant first.
  function WriteInteger(n: nat): Bytes {
    if n < 128 then [n as byte] else [(128 + n % 128) as byte] + WriteInteger(n / 128)
  }

  // The value of what an encoder writes is the number it wrote.
  lemma {:induction false} IntegerInverse(n: nat)
    ensures VarintValue(WriteInteger(n)) == n
  {
    if n < 128 {
      assert VarintValue([n as byte]) == n % 128 + 128 * VarintValue([n as byte][1..]);
    } else {
      IntegerInverse(n / 128);
      assert WriteInteger(n)[1..] == WriteInteger(n / 128);
    }
  }

  // Below 128 to the power of k it takes at most k bytes, ...
  lemma {:induction false} IntegerShape(n: nat, k: nat)
    requires k > 0 && n < Shift(k)
    ensures 1 <= |WriteInteger(n)| <= k && WriteInteger(n)[|WriteInteger(n)| - 1] < 128
    ensures forall i :: 0 <= i < |WriteInteger(n)| - 1 ==> WriteInteger(n)[i] >= 128
    decreases k
  {
    if n >= 128 {
      assert Shift(k) == 128 * Shift(k - 1) && Shift(0) == 1;
      IntegerShape(n / 128, k - 1);
    }
  }

  // ... so every 64-bit number is written as an integer of the grammar.
  lemma IntegerWritten(n: nat)
    requires n <= U64_MAX
    ensures IsVarint(WriteInteger(n)) && VarintValue(WriteInteger(n)) == n
  {
    hide WriteInteger, VarintValue, Shift;
    IntegerInverse(n);
    TenSevens();
    IntegerShape(n, 10);
    var k := |WriteInteger(n)|;
    LastByte(n, k);
    if k == 10 && WriteInteger(n)[9] > 1 {
      MulGrows(2, WriteInteger(n)[9] as nat, Shift(9));
    }
  }

  lemma TenSevens()
    ensures Shift(9) * 2 == U64_MAX + 1 && Shift(10) > U64_MAX
  {
    assert Shift(3) == 128 * Shift(2) && Shift(2) == 128 * Shift(1) && Shift(1) == 128 * Shift(0);
    assert Shift(6) == 128 * Shift(5) && Shift(5) == 128 * Shift(4) && Shift(4) == 128 * Shift(3);
    assert Shift(9) == 128 * Shift(8) && Shift(8) == 128 * Shift(7) && Shift(7) == 128 * Shift(6);
    assert Shift(10) == 128 * Shift(9);
  }

  lemma {:induction false} LastByte(n: nat, k: nat)
    requires k > 0 && |WriteInteger(n)| == k
    ensures n >= WriteInteger(n)[k - 1] as nat * Shift(k - 1)
  {
    if k > 1 {
      LastByte(n / 128, k - 1);
      var last, most := WriteInteger(n)[k - 1] as nat, Shift(k - 2);
      assert WriteInteger(n)[k - 1] == WriteInteger(n / 128)[k - 2];
      assert Shift(k - 1) == 128 * most;
      Rearranged(last, most);
    } else {
      assert Shift(0) == 1;
    }
  }

  lemma Rearranged(last: nat, most: nat)
    ensures last * (128 * most) == 128 * (last * most)
  {
  }

  // The cursor, and a count of the values entered.
  class Input {
    const bytes: Bytes
    var at: nat
    ghost var calls: nat

    ghost predicate Valid()
      reads this
    {
      at <= |bytes|
    }

    constructor (b: Bytes)
      ensures Valid() && bytes == b && at == 0 && calls == 0
    {
      bytes, at, calls := b, 0, 0;
    }

    // The state an outcome of the specification describes.
    ghost predicate Is(r: Outcome, ok: bool, before: nat)
      reads this
    {
      ok == r.ok && at == r.at && calls == before + r.calls
    }

    method Byte() returns (b: Option<byte>)
      requires Valid()
      modifies this`at
      ensures Valid() && b == if old(at) < |bytes| then Some(bytes[old(at)]) else None
      ensures at == old(at) + if b.Some? then 1 else 0
    {
      if at == |bytes| {
        return None;
      }
      b := Some(bytes[at]);
      at := at + 1;
    }

    method Skip(count: nat) returns (ok: bool)
      requires Valid()
      modifies this`at
      ensures Valid() && Is(SkipTo(bytes, old(at), count), ok, calls)
    {
      ok := at + count <= |bytes|;
      if ok {
        at := at + count;
      }
    }

    method ReadInteger() returns (value: Option<nat>)
      requires Valid()
      modifies this`at
      ensures Valid() && Is(IntEnd(bytes, old(at), 0), value.Some?, calls)
      ensures value.Some? ==> value.value == VarintValue(bytes[old(at)..at])
    {
      var sum := 0;
      for i := 0 to 10
        invariant Valid() && at == old(at) + i && sum == VarintValue(bytes[old(at)..at])
        invariant IntEnd(bytes, old(at), 0) == IntEnd(bytes, at, i)
      {
        var b := Byte();
        if b.None? {
          return None;
        }
        if i == 9 && b.value > 1 {
          return None;
        }
        assert bytes[old(at)..at] == bytes[old(at)..at - 1] + [b.value];
        ValueSnoc(bytes[old(at)..at - 1], b.value);
        sum := sum + Shift(i) * (b.value as nat % 128);
        if b.value < 128 {
          return Some(sum);
        }
      }
      return None;
    }

    // A declared count that the bytes left could hold.
    predicate Fits(count: nat)
      requires Valid()
      reads this
    {
      count <= |bytes| - at
    }

    method ReadValue(kind: nat, field: bool, depth: nat) returns (ok: bool)
      requires Valid()
      modifies this
      ensures Valid() && Is(Value(bytes, old(at), kind, field, depth), ok, old(calls))
      decreases |bytes| - at, 1, 0
    {
      calls := calls + 1;
      if depth > MAX_DEPTH {
        return false;
      }
      if kind == 1 || kind == 2 {
        if field {
          return true;
        }
        var b := Byte();
        return b.Some? && 1 <= b.value <= 2;
      }
      if kind == 3 {
        ok := Skip(1);
        return;
      }
      if 4 <= kind <= 6 {
        var value := ReadInteger();
        return value.Some?;
      }
      if kind == 7 {
        ok := Skip(8);
        return;
      }
      if kind == 8 {
        var length := ReadInteger();
        if length.None? {
          return false;
        }
        if !Fits(length.value) {
          return false;
        }
        ok := Skip(length.value);
        return;
      }
      if kind == 9 || kind == 10 {
        ok := ReadList(depth);
        return;
      }
      if kind == 11 {
        ok := ReadMap(depth);
        return;
      }
      if kind == 12 {
        ok := ReadFields(depth + 1);
        return;
      }
      if kind == 13 {
        ok := Skip(16);
        return;
      }
      return false;
    }

    method ReadList(depth: nat) returns (ok: bool)
      requires Valid() && 0 < calls
      modifies this
      ensures Valid() && Is(ListValue(bytes, old(at), depth), ok, old(calls) - 1)
      decreases |bytes| - at, 0, 0
    {
      var header := Byte();
      if header.None? {
        return false;
      }
      var count := header.value as nat / 16;
      if count == 15 {
        var size := ReadInteger();
        if size.None? {
          return false;
        }
        count := size.value;
      }
      if !Fits(count) {
        return false;
      }
      ok := ReadElems(header.value as nat % 16, header.value as nat % 16, count, depth + 1);
    }

    method ReadMap(depth: nat) returns (ok: bool)
      requires Valid() && 0 < calls
      modifies this
      ensures Valid() && Is(MapValue(bytes, old(at), depth), ok, old(calls) - 1)
      decreases |bytes| - at, 0, 0
    {
      var count := ReadInteger();
      if count.None? {
        return false;
      }
      if count.value == 0 {
        return true;
      }
      var kinds := Byte();
      if kinds.None? {
        return false;
      }
      if !Fits(2 * count.value) {
        return false;
      }
      ok := ReadElems(kinds.value as nat / 16, kinds.value as nat % 16, 2 * count.value, depth + 1);
    }

    // The declared values one after the other, of two kinds by turns.
    method ReadElems(kind: nat, other: nat, count: nat, depth: nat) returns (ok: bool)
      requires Valid()
      modifies this
      ensures Valid() && Is(Elems(bytes, old(at), kind, other, count, depth), ok, old(calls))
      decreases |bytes| - at, 2, count
    {
      hide Value;
      var k, o := kind, other;
      for i := 0 to count
        invariant Valid() && old(at) <= at && old(calls) <= calls
        invariant var rest := Elems(bytes, at, k, o, count - i, depth);
          Elems(bytes, old(at), kind, other, count, depth) == rest.(calls := calls - old(calls) + rest.calls)
      {
        ok := ReadValue(k, false, depth);
        if !ok {
          return;
        }
        k, o := o, k;
      }
      return true;
    }

    method ReadFields(depth: nat) returns (ok: bool)
      requires Valid()
      modifies this
      ensures Valid() && Is(Fields(bytes, old(at), depth), ok, old(calls))
      decreases |bytes| - at, 0, 0
    {
      hide Value, IntEnd, VarintValue;
      while true
        invariant Valid() && old(at) <= at && old(calls) <= calls
        invariant var rest := Fields(bytes, at, depth);
          Fields(bytes, old(at), depth) == rest.(calls := calls - old(calls) + rest.calls)
        decreases |bytes| - at
      {
        var header := Byte();
        if header.None? {
          return false;
        }
        if header.value == 0 {
          return true;
        }
        if header.value as nat / 16 == 0 {
          var id := ReadInteger();
          if id.None? {
            return false;
          }
        }
        ok := ReadValue(header.value as nat % 16, true, depth);
        if !ok {
          return;
        }
      }
    }
  }

  // validate: accept exactly the encodings of one struct, entering at most one value
  // more than there are bytes.
  method Validate(bytes: Bytes) returns (ok: bool, ghost work: nat)
    ensures ok <==> exists t :: WellFormed(t, 12, true, 0) && Print(t) == bytes
    ensures work <= |bytes| + 1
  {
    var input := new Input(bytes);
    ok := input.ReadValue(12, true, 0);
    ok := ok && input.at == |bytes|;
    work := input.calls;
    AcceptsExactly(bytes);
  }
}
