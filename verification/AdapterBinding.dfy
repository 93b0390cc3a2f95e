// Which files the schema adapter reads: the conversions it binds lose no value, and it binds
// a field exactly when the file holds it, or may lack it, in a shape that fits.
module AdapterBinding {
  import opened Wrappers
  import opened SchemaAdapter
  import Objects

  // ----- The values of Arrow types ------------------------------------------------------------

  // `Real` is a finite floating-point number, `Special` an infinity or a NaN; a decimal
  // keeps its scale. Values of the other types belong to their type alone.
  datatype Value =
    | Integer(n: int)
    | Real(mantissa: int, exponent: int)
    | Special(code: nat)
    | Text(chars: string)
    | Blob(bytes: seq<nat>)
    | Digital(digits: int, scale: int)
    | Other(dataType: DataType, cell: int)

  predicate Signed(limit: nat, n: int) {
    -(limit as int) <= n < limit
  }

  // The significant bits below this limit, and exponents in this range.
  predicate Floating(limit: nat, low: int, high: int, v: Value) {
    v.Special? || (v.Real? && -(limit as int) < v.mantissa < limit && low <= v.exponent <= high)
  }

  predicate Digits(precision: nat, n: int) {
    -(Objects.Pow(10, precision) as int) < n < Objects.Pow(10, precision)
  }

  // The values that a cell of this type can hold.
  predicate HasValue(t: DataType, v: Value) {
    match t
    case Int8 => v.Integer? && Signed(0x80, v.n)
    case Int16 => v.Integer? && Signed(0x8000, v.n)
    case Int32 => v.Integer? && Signed(0x8000_0000, v.n)
    case Int64 => v.Integer? && Signed(0x8000_0000_0000_0000, v.n)
    case Float32 => Floating(0x100_0000, -149, 104, v)
    case Float64 => Floating(0x20_0000_0000_0000, -1074, 971, v)
    case Utf8 => v.Text?
    case Utf8View => v.Text?
    case LargeUtf8 => v.Text?
    case Binary => v.Blob?
    case BinaryView => v.Blob?
    case LargeBinary => v.Blob?
    case Decimal128(p, s) => v.Digital? && v.scale == s && Digits(p, v.digits)
    case Decimal256(p, s) => v.Digital? && v.scale == s && Digits(p, v.digits)
    case Dictionary(value) => HasValue(value, v)
    case _ => v.Other? && v.dataType == t
  }

  // Bytes of a number of this type.
  function Width(t: DataType): nat {
    match t
    case Int8 => 1
    case Int16 => 2
    case Int32 => 4
    case Int64 => 8
    case Float32 => 4
    case Float64 => 8
    case Decimal128(_, _) => 16
    case Decimal256(_, _) => 32
    case Dictionary(value) => Width(value)
    case _ => 0
  }

  // Every value survives, in numbers that are no narrower.
  ghost predicate Widens(source: DataType, target: DataType) {
    Width(source) <= Width(target) && forall v :: HasValue(source, v) ==> HasValue(target, v)
  }

  // The Arrow types that the types of a schema are read as.
  predicate Readable(t: DataType) {
    !t.Int8? && !t.Int16? && !t.Utf8View? && !t.LargeUtf8? && !t.BinaryView? && !t.LargeBinary? && !t.Dictionary?
  }

  function Plain(t: DataType): (p: DataType)
    ensures !p.Dictionary?
  {
    if t.Dictionary? then Plain(t.value) else t
  }

  lemma {:induction false} PlainSame(t: DataType, target: DataType)
    requires !target.Dictionary?
    ensures Compatible(t, target) <==> Compatible(Plain(t), target)
    ensures Width(Plain(t)) == Width(t) && forall v :: HasValue(Plain(t), v) <==> HasValue(t, v)
  {
    hide Signed, Floating, Digits;
    if t.Dictionary? {
      PlainSame(t.value, target);
    }
  }

  // A decimal with more digits than another has a value that the other lacks.
  lemma FewerDigits(p: nat, q: nat)
    ensures p <= q ==> forall n :: Digits(p, n) ==> Digits(q, n)
    ensures p > q ==> Digits(p, Objects.Pow(10, q)) && !Digits(q, Objects.Pow(10, q))
  {
    if p <= q {
      Objects.PowGrows(10, p, q);
    } else {
      Objects.PowGrows(10, q + 1, p);
      assert Objects.Pow(10, q + 1) == 10 * Objects.Pow(10, q);
      Objects.PowGrows(10, 0, q);
    }
  }

  // A value that only the wider type has, or that no other type has.
  function Extreme(source: DataType, target: DataType): Value {
    match source
    case Int8 => Integer(-0x80)
    case Int16 => Integer(-0x8000)
    case Int32 => Integer(-0x8000_0000)
    case Int64 => Integer(-0x8000_0000_0000_0000)
    case Float32 => Real(0xFF_FFFF, 0)
    case Float64 => Real(0x1F_FFFF_FFFF_FFFF, 0)
    case Utf8 => Text("")
    case Utf8View => Text("")
    case LargeUtf8 => Text("")
    case Binary => Blob([])
    case BinaryView => Blob([])
    case LargeBinary => Blob([])
    case Decimal128(p, s) => WideDecimal(p, s, target)
    case Decimal256(p, s) => WideDecimal(p, s, target)
    case _ => Other(source, 0)
  }

  function WideDecimal(p: nat, s: int, target: DataType): Value {
    if (target.Decimal128? || target.Decimal256?) && target.precision < p then Digital(Objects.Pow(10, target.precision), s)
    else Digital(0, s)
  }

  lemma ExtremeHeld(source: DataType, target: DataType)
    requires !source.Dictionary?
    ensures HasValue(source, Extreme(source, target))
  {
    if source.Decimal128? || source.Decimal256? {
      if target.Decimal128? || target.Decimal256? {
        FewerDigits(source.precision, target.precision);
      }
      Objects.PowGrows(10, 0, source.precision);
    }
  }

  lemma WidensIfCompatible(source: DataType, target: DataType)
    requires !source.Dictionary? && Compatible(source, target)
    ensures Widens(source, target)
  {
    if (source.Decimal128? || source.Decimal256?) && source != target {
      FewerDigits(source.precision, target.precision);
    }
    hide Digits;
  }

  lemma CompatibleIfWidens(source: DataType, target: DataType)
    requires !source.Dictionary? && Readable(target) && Width(source) <= Width(target)
    requires HasValue(target, Extreme(source, target))
    ensures Compatible(source, target)
  {
    if (source.Decimal128? || source.Decimal256?) && (target.Decimal128? || target.Decimal256?) {
      FewerDigits(source.precision, target.precision);
    }
    hide Digits;
  }

  // What the adapter converts are exactly the conversions that keep every value.
  lemma CompatibleExactly(source: DataType, target: DataType)
    requires Readable(target)
    ensures Compatible(source, target) <==> Widens(source, target)
  {
    hide Compatible, HasValue, Width, Extreme;
    PlainSame(source, target);
    ExtremeHeld(Plain(source), target);
    if Compatible(Plain(source), target) {
      WidensIfCompatible(Plain(source), target);
    }
    if Widens(source, target) {
      CompatibleIfWidens(Plain(source), target);
    }
  }

  // ----- Which fields are bound -----------------------------------------------------------------

  // All primitives of a type are read as Arrow types that a schema's types are read as.
  predicate ReadableType(t: LogicalType)
    decreases t
  {
    match t
    case Primitive(arrow) => Readable(arrow)
    case Struct(fields) => ReadableAll(fields)
    case List(element) => ReadableField(element)
    case Map(key, value) => ReadableField(key) && ReadableField(value)
  }

  predicate ReadableField(f: Field)
    decreases f
  {
    ReadableType(f.fieldType)
  }

  predicate ReadableAll(fields: seq<Field>)
    decreases fields
  {
    fields != [] ==> ReadableField(fields[0]) && ReadableAll(fields[1..])
  }

  // A file may lack the field, and what stands in for it converts.
  predicate MayLack(a: Arrow, q: Field) {
    && !q.required
    && (q.initialDefault.Some? && q.initialDefault.value.Some? ==>
          !Nested(TypeFor(q.fieldType)) && a.convert(q.initialDefault.value.value, TypeFor(q.fieldType)).Some?)
  }

  predicate Unambiguous(recorded: Field, physical: seq<PhysicalField>) {
    && IdsParse(physical)
    && forall i, j :: 0 <= i < j < |physical| ==> !(Candidate(recorded, physical[i]) && Candidate(recorded, physical[j]))
  }

  // The file holds the field in one column that fits, or holds no such column and may lack it.
  ghost predicate Bindable(a: Arrow, q: Field, r: Option<Field>, physical: seq<PhysicalField>)
    decreases q, 1
  {
    if r.None? then MayLack(a, q)
    else
      && Unambiguous(r.value, physical)
      && (forall i :: 0 <= i < |physical| && Candidate(r.value, physical[i]) ==> FitsAs(a, q, r.value, physical[i].dataType))
      && ((forall i :: 0 <= i < |physical| ==> !Candidate(r.value, physical[i])) ==> !r.value.required && MayLack(a, q))
  }

  // Structs field by field, lists and maps part by part; any other type as it was recorded,
  // in an Arrow type all of whose values are kept.
  ghost predicate FitsAs(a: Arrow, q: Field, r: Field, source: DataType)
    decreases q, 0
  {
    if q.fieldType.Struct? && r.fieldType.Struct? && source.StructType? then
      forall f :: f in q.fieldType.fields ==> Bindable(a, f, Find(r.fieldType.fields, f.id), source.fields)
    else if q.fieldType.List? && r.fieldType.List? && source.ListType? then
      PartFits(a, q.fieldType.element, r.fieldType.element, source.element)
    else if q.fieldType.Map? && r.fieldType.Map? && source.MapType? then
      && source.entries.dataType.StructType? && |source.entries.dataType.fields| == 2
      && PartFits(a, q.fieldType.key, r.fieldType.key, source.entries.dataType.fields[0])
      && PartFits(a, q.fieldType.value, r.fieldType.value, source.entries.dataType.fields[1])
    else
      q.fieldType == r.fieldType && Widens(source, TypeFor(q.fieldType))
  }

  // The part of a collection has one ID, which the file repeats or leaves out.
  ghost predicate PartFits(a: Arrow, q: Field, r: Field, p: PhysicalField)
    decreases q, 2
  {
    q.id == r.id && (p.id == None || (p.id == Some(Some(r.id)) && r.id > 0)) && FitsAs(a, q, r, p.dataType)
  }

  lemma TargetIsReadable(t: LogicalType)
    requires ReadableType(t)
    ensures Readable(TypeFor(t))
  {
  }

  lemma DefaultExactly(a: Arrow, q: Field)
    ensures MayLack(a, q) <==> !q.required && DefaultFor(a, q, TypeFor(q.fieldType)).Ok?
  {
  }

  // Whether one column, none or many are candidates.
  lemma PositionExactly(r: Field, physical: seq<PhysicalField>)
    ensures Position(r, physical).Ok? <==> Unambiguous(r, physical)
    ensures Position(r, physical).Ok? ==>
      match Position(r, physical).value
      case None => forall i :: 0 <= i < |physical| ==> !Candidate(r, physical[i])
      case Some(k) => k < |physical| && forall i :: 0 <= i < |physical| ==> (Candidate(r, physical[i]) <==> i == k)
  {
    hide Candidate, Candidates, IdsParse, Position;
    var at := Position(r, physical);
    if at.Ok? {
      PositionUnique(r, physical, if at.value.Some? then at.value.value else 0);
    }
    if Unambiguous(r, physical) {
      if k: nat :| k < |physical| && Candidate(r, physical[k]) {
        PositionUnique(r, physical, k);
      } else {
        PositionUnique(r, physical, 0);
      }
    }
  }

  // A field is bound exactly when the file holds it, or may lack it, in a shape that fits.
  lemma {:induction false} BindExactly(a: Arrow, q: Field, r: Option<Field>, physical: seq<PhysicalField>, target: PhysicalField)
    requires ReadableType(q.fieldType) && target.dataType == TypeFor(q.fieldType)
    ensures Bind(a, q, r, physical, target).Ok? <==> Bindable(a, q, r, physical)
    decreases q, 1
  {
    hide BindAs, FitsAs, MayLack, DefaultFor, Position, Unambiguous, Candidate, TypeFor, ReadableType;
    DefaultExactly(a, q);
    if r.Some? {
      PositionExactly(r.value, physical);
      var at := Position(r.value, physical);
      if at.Ok? && at.value.Some? {
        BindAsExactly(a, q, r.value, physical[at.value.value].dataType, target.dataType);
      }
    }
  }

  lemma {:induction false} BindAsExactly(a: Arrow, q: Field, r: Field, source: DataType, target: DataType)
    requires ReadableType(q.fieldType) && target == TypeFor(q.fieldType)
    ensures BindAs(a, q, r, source, target).Ok? <==> FitsAs(a, q, r, source)
    decreases q, 0
  {
    hide BindAll, BindCollection, PartFits, Bindable, Compatible, Widens, Readable, FieldFor, FieldsFor, ReadableField, ReadableAll, Find;
    if q.fieldType.Struct? && r.fieldType.Struct? && source.StructType? {
      BindAllExactly(a, q.fieldType.fields, r.fieldType.fields, source.fields);
    } else if q.fieldType.List? && r.fieldType.List? && source.ListType? {
      PartExactly(a, q.fieldType.element, r.fieldType.element, source.element, 0);
    } else if q.fieldType.Map? && r.fieldType.Map? && source.MapType? {
      if source.entries.dataType.StructType? && |source.entries.dataType.fields| == 2 {
        PartExactly(a, q.fieldType.key, r.fieldType.key, source.entries.dataType.fields[0], 0);
        PartExactly(a, q.fieldType.value, r.fieldType.value, source.entries.dataType.fields[1], 1);
      }
    } else {
      TargetIsReadable(q.fieldType);
      CompatibleExactly(source, target);
    }
  }

  lemma {:induction false} BindAllExactly(a: Arrow, qs: seq<Field>, rs: seq<Field>, physical: seq<PhysicalField>)
    requires ReadableAll(qs)
    ensures BindAll(a, qs, rs, physical, FieldsFor(qs)).Ok? <==> forall f :: f in qs ==> Bindable(a, f, Find(rs, f.id), physical)
    decreases qs, 0
  {
    hide Bind, Bindable, Find, ReadableType, TypeFor;
    if qs != [] {
      BindExactly(a, qs[0], Find(rs, qs[0].id), physical, FieldFor(qs[0]));
      BindAllExactly(a, qs[1..], rs, physical);
      assert forall f :: f in qs <==> f == qs[0] || f in qs[1..];
    }
  }

  lemma {:induction false} PartExactly(a: Arrow, q: Field, r: Field, p: PhysicalField, index: nat)
    requires ReadableField(q)
    ensures BindCollection(a, q, r, p, FieldFor(q), index).Ok? <==> PartFits(a, q, r, p)
    decreases q, 2
  {
    hide Bind, FitsAs, Find, ReadableType, TypeFor, Bindable;
    BindExactly(a, q, Some(r), [p.(name := r.name)], FieldFor(q));
    if p.id == None || (p.id == Some(Some(r.id)) && r.id > 0) {
      NamedPart(a, q, r, p);
    }
  }

  // With the recorded name a part is always found.
  lemma NamedPart(a: Arrow, q: Field, r: Field, p: PhysicalField)
    requires p.id == None || (p.id == Some(Some(r.id)) && r.id > 0)
    ensures Bindable(a, q, Some(r), [p.(name := r.name)]) <==> FitsAs(a, q, r, p.dataType)
  {
    hide FitsAs, MayLack;
    var named := [p.(name := r.name)];
    assert Candidate(r, named[0]);
  }

  // A primitive that is bound, at whatever depth, keeps every value of the file.
  lemma BoundLosesNothing(a: Arrow, q: Field, r: Field, source: DataType, v: Value)
    requires ReadableType(q.fieldType) && BindAs(a, q, r, source, TypeFor(q.fieldType)) == Ok(Same) && HasValue(source, v)
    ensures HasValue(TypeFor(q.fieldType), v) && Width(source) <= Width(TypeFor(q.fieldType))
  {
    hide HasValue, Width, Compatible, BindAll, BindCollection, TypeFor, ReadableType, Readable;
    TargetIsReadable(q.fieldType);
    CompatibleExactly(source, TypeFor(q.fieldType));
  }

  // ----- What is bound is read --------------------------------------------------------------------

  // Arrow takes every array built from fitting parts.
  ghost predicate TakesAll(a: Arrow) {
    forall c :: a.admits(c)
  }

  // Mapping a column that conforms fails only where Arrow refuses what was built.
  lemma {:induction false} SlotApplies(a: Arrow, q: Field, r: Option<Field>, physical: seq<PhysicalField>, target: PhysicalField,
                                       slot: Slot, columns: seq<Column>, len: nat)
    requires TakesAll(a) && Sensible(q.fieldType) && target.dataType == TypeFor(q.fieldType)
    requires Bind(a, q, r, physical, target) == Ok(slot)
    requires |columns| == |physical| && ColumnsConform(columns, physical, len)
    ensures ApplySlot(a, slot, columns, len).Ok?
    decreases q, 3
  {
    hide BindAs, Apply, Sensible, TypeFor, DefaultFor, ColumnsConform, Position, TakesAll;
    var at := if r.Some? then Position(r.value, physical) else Ok(None);
    if at.value.None? {
      MissingApplies(a, target, slot.mapping.kind.value, Input(slot, columns), len);
    } else {
      PositionBound(r.value, physical);
      ColumnConforms(columns, physical, len, at.value.value);
      KindApplies(a, q, r.value, physical[at.value.value].dataType, target, slot.mapping.kind, columns[at.value.value], len);
    }
  }

  lemma MissingApplies(a: Arrow, target: PhysicalField, value: Option<Option<int>>, input: Option<Column>, len: nat)
    ensures Apply(a, Mapping(target, Missing(value)), input, len).Ok?
  {
  }

  lemma {:induction false} AllApply(a: Arrow, qs: seq<Field>, rs: seq<Field>, physical: seq<PhysicalField>, slots: seq<Slot>,
                                    columns: seq<Column>, len: nat)
    requires TakesAll(a) && SensibleAll(qs) && BindAll(a, qs, rs, physical, FieldsFor(qs)) == Ok(slots)
    requires |columns| == |physical| && ColumnsConform(columns, physical, len)
    ensures ApplyAll(a, slots, columns, len).Ok?
    decreases qs, 0
  {
    hide Bind, ApplySlot, Sensible, ColumnsConform, Find, TakesAll;
    if qs != [] {
      SlotApplies(a, qs[0], Find(rs, qs[0].id), physical, FieldsFor(qs)[0], slots[0], columns, len);
      AllApply(a, qs[1..], rs, physical, slots[1..], columns, len);
    }
  }

  lemma {:induction false} KindApplies(a: Arrow, q: Field, r: Field, source: DataType, target: PhysicalField, kind: Kind, col: Column, len: nat)
    requires TakesAll(a) && Sensible(q.fieldType) && target.dataType == TypeFor(q.fieldType)
    requires BindAs(a, q, r, source, target.dataType) == Ok(kind) && Conforms(col, source) && Length(col) == len
    ensures Apply(a, Mapping(target, kind), Some(col), len).Ok?
    decreases q, 2
  {
    hide BindAll, BindCollection, ApplyAll, ColumnsConform, SensibleAll, FieldsFor, Compatible, CastCells;
    if kind.StructKind? {
      AllApply(a, q.fieldType.fields, r.fieldType.fields, source.fields, kind.slots, col.columns, len);
    } else if kind.ListKind? {
      PartApplies(a, q.fieldType.element, r.fieldType.element, source.element, target.dataType.element, 0, col.values);
    } else if kind.MapKind? {
      PairApplies(a, q, r, source, target, kind, col, len);
    } else {
      SameIsFlat(a, q, r, source, target.dataType);
      FlatColumn(col, source);
    }
  }

  lemma {:induction false} PartApplies(a: Arrow, q: Field, r: Field, physical: PhysicalField, target: PhysicalField, index: nat, col: Column)
    requires TakesAll(a) && Sensible(q.fieldType) && target.dataType == TypeFor(q.fieldType)
    requires BindCollection(a, q, r, physical, target, index).Ok? && Conforms(col, physical.dataType)
    ensures var slot := BindCollection(a, q, r, physical, target, index).value;
      slot.index == Some(index) && Apply(a, slot.mapping, Some(col), Length(col)).Ok?
    decreases q, 3
  {
    hide BindAs, BindCollection, Apply, Conforms, Sensible, TypeFor, TakesAll;
    CollectionBinds(a, q, r, physical, target, index);
    KindApplies(a, q, r, physical.dataType, target, BindCollection(a, q, r, physical, target, index).value.mapping.kind, col, Length(col));
  }

  lemma {:induction false} PairApplies(a: Arrow, q: Field, r: Field, source: DataType, target: PhysicalField, kind: Kind, col: Column, len: nat)
    requires TakesAll(a) && Sensible(q.fieldType) && target.dataType == TypeFor(q.fieldType) && kind.MapKind?
    requires BindAs(a, q, r, source, target.dataType) == Ok(kind) && Conforms(col, source) && Length(col) == len
    ensures Apply(a, Mapping(target, kind), Some(col), len).Ok?
    decreases q, 1
  {
    hide BindAll, BindCollection, ColumnsConform, Compatible, TakesAll, ApplyAll, FieldsFor, SensibleAll;
    var from, to := source.entries.dataType.fields, target.dataType.entries.dataType.fields;
    ColumnConforms(col.columns, from, col.size, 0);
    ColumnConforms(col.columns, from, col.size, 1);
    PartApplies(a, q.fieldType.key, r.fieldType.key, from[0], to[0], 0, col.columns[0]);
    PartApplies(a, q.fieldType.value, r.fieldType.value, from[1], to[1], 1, col.columns[1]);
    assert kind.slots == [kind.slots[0], kind.slots[1]];
    BothApply(a, kind.slots[0], kind.slots[1], col.columns, col.size);
    Taken(a);
  }

  lemma Taken(a: Arrow)
    requires TakesAll(a)
    ensures forall c :: Checked(a, c) == Ok(c)
  {
  }

  lemma BothApply(a: Arrow, key: Slot, value: Slot, columns: seq<Column>, size: nat)
    requires key.index == Some(0) && value.index == Some(1) && |columns| == 2
    requires Apply(a, key.mapping, Some(columns[0]), size).Ok? && Apply(a, value.mapping, Some(columns[1]), size).Ok?
    ensures ApplyAll(a, [key, value], columns, size).Ok?
  {
    hide Apply;
    var slots := [key, value];
    assert slots[1..] == [value] && [value][1..] == [];
    assert ApplyAll(a, [], columns, size) == Ok([]);
    assert ApplySlot(a, value, columns, size).Ok? && ApplySlot(a, key, columns, size).Ok?;
    assert ApplyAll(a, [value], columns, size).Ok?;
  }

  // A file is read under a query schema exactly when each query field is held or may be
  // lacking in a shape that fits; each batch of rows can then be mapped.
  lemma FilesRead(a: Arrow, query: seq<Field>, recorded: seq<Field>, physical: seq<PhysicalField>, batch: seq<Column>, rows: nat)
    requires ReadableAll(query) && SensibleAll(query) && TakesAll(a)
    requires |batch| == |physical| && ColumnsConform(batch, physical, rows)
    ensures var slots := BindAll(a, query, recorded, physical, FieldsFor(query));
      && (slots.Ok? <==> forall f :: f in query ==> Bindable(a, f, Find(recorded, f.id), physical))
      && (slots.Ok? ==> ApplyAll(a, slots.value, batch, rows).Ok?)
  {
    hide *;
    BindAllExactly(a, query, recorded, physical);
    var slots := BindAll(a, query, recorded, physical, FieldsFor(query));
    if slots.Ok? {
      AllApply(a, query, recorded, physical, slots.value, batch, rows);
    }
  }

  // ----- What is read has the query's types -------------------------------------------------------

  // No dictionary of nested values, at any depth.
  predicate Flat(t: DataType)
    decreases t
  {
    match t
    case Dictionary(value) => !Nested(Plain(value))
    case StructType(fields) => FlatAll(fields)
    case ListType(element) => FlatField(element)
    case MapType(entries) => FlatField(entries)
    case _ => true
  }

  predicate FlatField(f: PhysicalField)
    decreases f
  {
    Flat(f.dataType)
  }

  predicate FlatAll(fields: seq<PhysicalField>)
    decreases fields
  {
    fields != [] ==> FlatField(fields[0]) && FlatAll(fields[1..])
  }

  lemma {:induction false} FlatAt(fields: seq<PhysicalField>, k: nat)
    requires FlatAll(fields) && k < |fields|
    ensures Flat(fields[k].dataType)
  {
    if k > 0 {
      FlatAt(fields[1..], k - 1);
    }
  }

  lemma NoOffsets(rows: nat)
    ensures Offsets(Repeat(0, rows + 1), rows, 0)
  {
  }

  // Columns of nulls are of their type, ...
  lemma {:induction false} NullsConform(t: DataType, rows: nat)
    requires ProperType(t)
    ensures Conforms(Nulls(t, rows), t) && Length(Nulls(t, rows)) == rows
    decreases t, 1
  {
    match t {
      case StructType(fields) => NullColumnsConform(fields, rows);
      case ListType(element) =>
        assert ProperField(element);
        NullsConform(element.dataType, 0);
        NoOffsets(rows);
      case MapType(entries) =>
        assert ProperType(entries.dataType);
        NullColumnsConform(entries.dataType.fields, 0);
        NoOffsets(rows);
      case _ =>
    }
  }

  // The entries of every map, at any depth, are structs.
  predicate ProperType(t: DataType)
    decreases t
  {
    match t
    case StructType(fields) => ProperAll(fields)
    case ListType(element) => ProperField(element)
    case MapType(entries) => entries.dataType.StructType? && ProperField(entries)
    case _ => true
  }

  predicate ProperField(f: PhysicalField)
    decreases f
  {
    ProperType(f.dataType)
  }

  predicate ProperAll(fields: seq<PhysicalField>)
    decreases fields
  {
    fields != [] ==> ProperField(fields[0]) && ProperAll(fields[1..])
  }

  lemma {:induction false} NullColumnsConform(fields: seq<PhysicalField>, rows: nat)
    requires ProperAll(fields)
    ensures |NullColumns(fields, rows)| == |fields| && ColumnsConform(NullColumns(fields, rows), fields, rows)
    decreases fields, 0
  {
    if fields != [] {
      NullsConform(fields[0].dataType, rows);
      NullColumnsConform(fields[1..], rows);
    }
  }

  lemma {:induction false} TargetProper(t: LogicalType)
    requires Sensible(t)
    ensures ProperType(TypeFor(t))
    decreases t
  {
    match t {
      case Primitive(arrow) =>
      case Struct(fields) => TargetsProper(fields);
      case List(element) =>
        assert SensibleField(element);
        TargetProper(element.fieldType);
      case Map(key, value) =>
        assert SensibleField(key) && SensibleField(value);
        TargetProper(key.fieldType);
        TargetProper(value.fieldType);
        ProperPair(FieldFor(key), FieldFor(value));
    }
  }

  lemma ProperPair(x: PhysicalField, y: PhysicalField)
    requires ProperType(x.dataType) && ProperType(y.dataType)
    ensures ProperType(StructType([x, y]))
  {
    assert [x, y][1..] == [y] && [y][1..] == [];
    assert ProperAll([]) && ProperAll([y]);
  }

  lemma {:induction false} TargetsProper(fields: seq<Field>)
    requires SensibleAll(fields)
    ensures ProperAll(FieldsFor(fields))
    decreases fields
  {
    if fields != [] {
      assert SensibleField(fields[0]);
      TargetProper(fields[0].fieldType);
      TargetsProper(fields[1..]);
    }
  }

  lemma {:induction false} NestedStays(source: DataType, target: DataType)
    requires Compatible(source, target) && Nested(target)
    ensures Plain(source) == target
  {
    if source.Dictionary? {
      NestedStays(source.value, target);
    }
  }

  // ... and so is whatever a mapping gives, row for row; what is built of parts Arrow has taken.
  ghost predicate Gives(a: Arrow, kind: Kind, out: Column, t: DataType, len: nat) {
    && Conforms(out, t) && Length(out) == len
    && (kind.StructKind? || kind.ListKind? || kind.MapKind? ==> a.admits(out))
  }

  lemma SameConforms(a: Arrow, q: Field, r: Field, source: DataType, target: PhysicalField, col: Column, len: nat, out: Column)
    requires Sensible(q.fieldType) && target.dataType == TypeFor(q.fieldType) && Flat(source)
    requires BindAs(a, q, r, source, target.dataType) == Ok(Same) && Conforms(col, source) && Length(col) == len
    requires Apply(a, Mapping(target, Same), Some(col), len) == Ok(out)
    ensures Gives(a, Same, out, target.dataType, len)
  {
    hide CastCells, BindAll, BindCollection, Conforms, SensibleAll, SensibleField, FieldsFor, FieldFor, Compatible, Plain;
    SameIsFlat(a, q, r, source, target.dataType);
    FlatColumn(col, source);
    CastRows(a, col.dataType, target.dataType, col.cells);
    if Nested(target.dataType) {
      NestedStays(source, target.dataType);
      FlatPlain(source);
    }
    if !Nested(target.dataType) && out.Cells? {
      CellsConform(out, target.dataType);
    }
  }

  lemma FlatPlain(t: DataType)
    requires Flat(t) && !Nested(t)
    ensures !Nested(Plain(t))
  {
  }

  lemma CellsConform(c: Column, t: DataType)
    requires c.Cells? && c.dataType == t && !Nested(t)
    ensures Conforms(c, t)
  {
  }

  lemma {:induction false} SlotConforms(a: Arrow, q: Field, r: Option<Field>, physical: seq<PhysicalField>, target: PhysicalField,
                                        slot: Slot, columns: seq<Column>, len: nat, out: Column)
    requires Sensible(q.fieldType) && target.dataType == TypeFor(q.fieldType) && FlatAll(physical)
    requires Bind(a, q, r, physical, target) == Ok(slot)
    requires |columns| == |physical| && ColumnsConform(columns, physical, len)
    requires ApplySlot(a, slot, columns, len) == Ok(out)
    ensures Gives(a, slot.mapping.kind, out, target.dataType, len)
    decreases q, 3
  {
    hide BindAs, Apply, Sensible, TypeFor, DefaultFor, ColumnsConform, Position, Gives, Flat, FlatAll;
    var at := if r.Some? then Position(r.value, physical) else Ok(None);
    if at.value.None? {
      MissingConforms(a, q, target, slot.mapping.kind.value, Input(slot, columns), len, out);
    } else {
      var k := at.value.value;
      PositionBound(r.value, physical);
      ColumnConforms(columns, physical, len, k);
      FlatAt(physical, k);
      KindConforms(a, q, r.value, physical[k].dataType, target, slot.mapping.kind, columns[k], len, out);
    }
  }

  lemma MissingConforms(a: Arrow, q: Field, target: PhysicalField, value: Option<Option<int>>, input: Option<Column>, len: nat, out: Column)
    requires Sensible(q.fieldType) && target.dataType == TypeFor(q.fieldType) && DefaultFor(a, q, target.dataType) == Ok(value)
    requires Apply(a, Mapping(target, Missing(value)), input, len) == Ok(out)
    ensures Gives(a, Missing(value), out, target.dataType, len)
  {
    hide Nulls, Sensible, TypeFor, Conforms;
    TargetProper(q.fieldType);
    NullsConform(target.dataType, len);
    if out.Cells? && !Nested(target.dataType) && out.dataType == target.dataType {
      CellsConform(out, target.dataType);
    }
  }

  lemma {:induction false} AllConform(a: Arrow, qs: seq<Field>, rs: seq<Field>, physical: seq<PhysicalField>, slots: seq<Slot>,
                                      columns: seq<Column>, len: nat, outs: seq<Column>)
    requires SensibleAll(qs) && FlatAll(physical) && BindAll(a, qs, rs, physical, FieldsFor(qs)) == Ok(slots)
    requires |columns| == |physical| && ColumnsConform(columns, physical, len) && ApplyAll(a, slots, columns, len) == Ok(outs)
    ensures |outs| == |FieldsFor(qs)| && ColumnsConform(outs, FieldsFor(qs), len)
    decreases qs, 0
  {
    hide Bind, ApplySlot, Sensible, Conforms, Find, Flat, FlatAll;
    if qs != [] {
      SlotConforms(a, qs[0], Find(rs, qs[0].id), physical, FieldsFor(qs)[0], slots[0], columns, len, outs[0]);
      AllConform(a, qs[1..], rs, physical, slots[1..], columns, len, outs[1..]);
    }
  }

  lemma {:induction false} KindConforms(a: Arrow, q: Field, r: Field, source: DataType, target: PhysicalField, kind: Kind,
                                        col: Column, len: nat, out: Column)
    requires Sensible(q.fieldType) && target.dataType == TypeFor(q.fieldType) && Flat(source)
    requires BindAs(a, q, r, source, target.dataType) == Ok(kind) && Conforms(col, source) && Length(col) == len
    requires Apply(a, Mapping(target, kind), Some(col), len) == Ok(out)
    ensures Gives(a, kind, out, target.dataType, len)
    decreases q, 2
  {
    hide BindAll, BindCollection, ApplyAll, ColumnsConform, SensibleAll, FieldsFor, Compatible, CastCells, FlatAll;
    if kind.StructKind? {
      AllConform(a, q.fieldType.fields, r.fieldType.fields, source.fields, kind.slots, col.columns, len, out.columns);
    } else if kind.ListKind? {
      PartConforms(a, q.fieldType.element, r.fieldType.element, source.element, target.dataType.element, 0, col.values, out.values);
    } else if kind.MapKind? {
      PairConforms(a, q, r, source, target, kind, col, len, out);
    } else {
      SameConforms(a, q, r, source, target, col, len, out);
    }
  }

  lemma {:induction false} PartConforms(a: Arrow, q: Field, r: Field, physical: PhysicalField, target: PhysicalField, index: nat,
                                        col: Column, out: Column)
    requires Sensible(q.fieldType) && target.dataType == TypeFor(q.fieldType) && FlatField(physical)
    requires BindCollection(a, q, r, physical, target, index).Ok? && Conforms(col, physical.dataType)
    requires Apply(a, BindCollection(a, q, r, physical, target, index).value.mapping, Some(col), Length(col)) == Ok(out)
    ensures BindCollection(a, q, r, physical, target, index).value.index == Some(index)
    ensures Conforms(out, target.dataType) && Length(out) == Length(col)
    decreases q, 3
  {
    hide BindAs, BindCollection, Apply, Conforms, Sensible, TypeFor, Flat;
    CollectionBinds(a, q, r, physical, target, index);
    KindConforms(a, q, r, physical.dataType, target, BindCollection(a, q, r, physical, target, index).value.mapping.kind, col, Length(col), out);
  }

  lemma {:induction false} PairConforms(a: Arrow, q: Field, r: Field, source: DataType, target: PhysicalField, kind: Kind,
                                        col: Column, len: nat, out: Column)
    requires Sensible(q.fieldType) && target.dataType == TypeFor(q.fieldType) && Flat(source) && kind.MapKind?
    requires BindAs(a, q, r, source, target.dataType) == Ok(kind) && Conforms(col, source) && Length(col) == len
    requires Apply(a, Mapping(target, kind), Some(col), len) == Ok(out)
    ensures Gives(a, kind, out, target.dataType, len)
    decreases q, 1
  {
    hide BindAll, BindCollection, ColumnsConform, Compatible, ApplyAll, FieldsFor, SensibleAll;
    var from, to := source.entries.dataType.fields, target.dataType.entries.dataType.fields;
    ColumnConforms(col.columns, from, col.size, 0);
    ColumnConforms(col.columns, from, col.size, 1);
    var key := BindCollection(a, q.fieldType.key, r.fieldType.key, from[0], to[0], 0).value;
    var value := BindCollection(a, q.fieldType.value, r.fieldType.value, from[1], to[1], 1).value;
    CollectionBinds(a, q.fieldType.key, r.fieldType.key, from[0], to[0], 0);
    CollectionBinds(a, q.fieldType.value, r.fieldType.value, from[1], to[1], 1);
    assert kind.slots == [key, value];
    TwoSlots(a, key, value, col.columns, col.size, out.columns);
    assert FlatField(from[0]) && FlatField(from[1]) by {
      FlatPair(source);
    }
    PartConforms(a, q.fieldType.key, r.fieldType.key, from[0], to[0], 0, col.columns[0], out.columns[0]);
    PartConforms(a, q.fieldType.value, r.fieldType.value, from[1], to[1], 1, col.columns[1], out.columns[1]);
    PairOfColumns(out.columns, to, col.size);
  }

  lemma FlatPair(source: DataType)
    requires Flat(source) && source.MapType? && source.entries.dataType.StructType? && |source.entries.dataType.fields| == 2
    ensures FlatField(source.entries.dataType.fields[0]) && FlatField(source.entries.dataType.fields[1])
  {
    assert Flat(source.entries.dataType);
    FlatAt(source.entries.dataType.fields, 0);
    FlatAt(source.entries.dataType.fields, 1);
  }

  lemma PairOfColumns(columns: seq<Column>, fields: seq<PhysicalField>, rows: nat)
    requires |columns| == 2 && |fields| == 2
    requires Conforms(columns[0], fields[0].dataType) && Conforms(columns[1], fields[1].dataType)
    requires Length(columns[0]) == rows && Length(columns[1]) == rows
    ensures ColumnsConform(columns, fields, rows)
  {
    hide Conforms;
    assert columns[1..][1..] == [] && fields[1..][1..] == [];
    assert ColumnsConform(columns[1..][1..], fields[1..][1..], rows);
    assert ColumnsConform(columns[1..], fields[1..], rows);
  }

  // Batches read are of the query's types, row for row.
  lemma BatchConforms(a: Arrow, query: seq<Field>, recorded: seq<Field>, physical: seq<PhysicalField>, slots: seq<Slot>,
                      batch: seq<Column>, rows: nat, result: seq<Column>)
    requires SensibleAll(query) && FlatAll(physical) && BindAll(a, query, recorded, physical, FieldsFor(query)) == Ok(slots)
    requires |batch| == |physical| && ColumnsConform(batch, physical, rows) && ApplyAll(a, slots, batch, rows) == Ok(result)
    ensures |result| == |FieldsFor(query)| && ColumnsConform(result, FieldsFor(query), rows)
  {
    hide *;
    AllConform(a, query, recorded, physical, slots, batch, rows, result);
  }
}
