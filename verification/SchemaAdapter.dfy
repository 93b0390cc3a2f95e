// Reading a data file written under an older schema: the adapter binds the query's
// fields to physical columns by field ID and maps whole columns; row by row this is the
// projection by field ID of what the recorded schema says the row means.
module SchemaAdapter {
  import opened Wrappers

  // Arrow types. `Leaf` stands for the types without a conversion of their own.
  datatype DataType =
    | Int8 | Int16 | Int32 | Int64 | Float32 | Float64
    | Utf8 | Utf8View | LargeUtf8 | Binary | BinaryView | LargeBinary
    | Decimal128(precision: nat, scale: int) | Decimal256(precision: nat, scale: int)
    | Dictionary(value: DataType)
    | Leaf(code: nat)
    | StructType(fields: seq<PhysicalField>)
    | ListType(element: PhysicalField)
    | LargeListType(element: PhysicalField)
    | FixedListType(element: PhysicalField, size: nat)
    | MapType(entries: PhysicalField)

  // `id` is the declared field ID, where `Some(None)` stands for one that does not parse.
  datatype PhysicalField = PhysicalField(name: string, id: Option<Option<nat>>, nullable: bool, dataType: DataType)

  // A schema's types; a primitive is named by the Arrow type it is read as.
  datatype LogicalType =
    | Primitive(arrow: DataType)
    | Struct(fields: seq<Field>)
    | List(element: Field)
    | Map(key: Field, value: Field)

  // `initialDefault` of `Some(None)` is an explicit null.
  datatype Field = Field(id: nat, name: string, required: bool, fieldType: LogicalType, initialDefault: Option<Option<int>>)

  // What the model leaves to Arrow: element-wise casts, the conversion of a default, and
  // whether a nested array may be built from its parts.
  datatype Arrow = Arrow(
    cast: (DataType, DataType, int) -> int,
    convert: (int, DataType) -> Option<int>,
    admits: Column -> bool)

  // ----- Columns and their rows -----------------------------------------------------------

  datatype Column =
    | Cells(dataType: DataType, cells: seq<Option<int>>)
    | StructColumn(fields: seq<PhysicalField>, valid: seq<bool>, columns: seq<Column>)
    | ListColumn(element: PhysicalField, valid: seq<bool>, offsets: seq<nat>, values: Column)
    | MapColumn(entries: PhysicalField, valid: seq<bool>, offsets: seq<nat>, columns: seq<Column>, size: nat)

  function Length(c: Column): nat {
    if c.Cells? then |c.cells| else |c.valid|
  }

  function TypeOf(c: Column): DataType {
    match c
    case Cells(t, _) => t
    case StructColumn(fields, _, _) => StructType(fields)
    case ListColumn(element, _, _, _) => ListType(element)
    case MapColumn(entries, _, _, _, _) => MapType(entries)
  }

  predicate Nested(t: DataType) { t.StructType? || t.ListType? || t.MapType? }

  // Offsets cut the values into one run for each row.
  predicate Offsets(offsets: seq<nat>, rows: nat, size: nat) {
    && |offsets| == rows + 1 && offsets[rows] <= size
    && forall i :: 0 <= i < rows ==> offsets[i] <= offsets[i + 1]
  }

  // An array as Arrow guarantees it: of its type, with parts of matching lengths.
  predicate Conforms(c: Column, t: DataType)
    decreases c
  {
    match c
    case Cells(own, _) => own == t && !Nested(t)
    case StructColumn(fields, valid, columns) =>
      t == StructType(fields) && |columns| == |fields| && ColumnsConform(columns, fields, |valid|)
    case ListColumn(element, valid, offsets, values) =>
      t == ListType(element) && Conforms(values, element.dataType) && Offsets(offsets, |valid|, Length(values))
    case MapColumn(entries, valid, offsets, columns, size) =>
      && t == MapType(entries) && entries.dataType.StructType? && |columns| == |entries.dataType.fields|
      && ColumnsConform(columns, entries.dataType.fields, size) && Offsets(offsets, |valid|, size)
  }

  predicate ColumnsConform(columns: seq<Column>, fields: seq<PhysicalField>, rows: nat)
    requires |columns| == |fields|
    decreases columns
  {
    columns != [] ==>
      && Conforms(columns[0], fields[0].dataType) && Length(columns[0]) == rows
      && ColumnsConform(columns[1..], fields[1..], rows)
  }

  // One row of a column.
  datatype Row = Null | Scalar(cell: int) | StructRow(children: seq<Row>) | ListRow(items: seq<Row>) | MapRow(pairs: seq<seq<Row>>)

  function RowAt(c: Column, i: nat): Row
    decreases c, 0
  {
    match c
    case Cells(_, cells) => if i < |cells| && cells[i].Some? then Scalar(cells[i].value) else Null
    case StructColumn(_, valid, columns) => if i < |valid| && valid[i] then StructRow(RowsAt(columns, i)) else Null
    case ListColumn(_, valid, offsets, values) =>
      if i < |valid| && valid[i] && |offsets| == |valid| + 1 && offsets[i] <= offsets[i + 1]
      then ListRow(Run(values, offsets[i], offsets[i + 1])) else Null
    case MapColumn(_, valid, offsets, columns, _) =>
      if i < |valid| && valid[i] && |offsets| == |valid| + 1 && offsets[i] <= offsets[i + 1]
      then MapRow(PairRun(columns, offsets[i], offsets[i + 1])) else Null
  }

  function RowsAt(columns: seq<Column>, i: nat): seq<Row>
    decreases columns, 0
  {
    if columns == [] then [] else [RowAt(columns[0], i)] + RowsAt(columns[1..], i)
  }

  function Run(values: Column, from: nat, to: nat): seq<Row>
    requires from <= to
    decreases values, 1, to - from
  {
    if from == to then [] else [RowAt(values, from)] + Run(values, from + 1, to)
  }

  function PairRun(columns: seq<Column>, from: nat, to: nat): seq<seq<Row>>
    requires from <= to
    decreases columns, 1, to - from
  {
    if from == to then [] else [RowsAt(columns, from)] + PairRun(columns, from + 1, to)
  }

  // ----- Binding ------------------------------------------------------------------------------

  function PhysicalId(p: PhysicalField): Result<Option<nat>> {
    match p.id
    case None => Ok(None)
    case Some(None) => Err(Invalid)
    case Some(Some(n)) => if n == 0 then Err(Invalid) else Ok(Some(n))
  }

  // A column that may hold a recorded field: by its ID, or without one by its name.
  predicate Candidate(recorded: Field, p: PhysicalField) {
    PhysicalId(p) == Ok(Some(recorded.id)) || (PhysicalId(p) == Ok(None) && p.name == recorded.name)
  }

  predicate IdsParse(physical: seq<PhysicalField>) {
    forall i :: 0 <= i < |physical| ==> PhysicalId(physical[i]).Ok?
  }

  function Candidates(recorded: Field, physical: seq<PhysicalField>): seq<nat> {
    if physical == [] then []
    else
      var last := |physical| - 1;
      Candidates(recorded, physical[..last]) + if Candidate(recorded, physical[last]) then [last] else []
  }

  // The one column that holds a recorded field, if any.
  function Position(recorded: Field, physical: seq<PhysicalField>): Result<Option<nat>> {
    var found := Candidates(recorded, physical);
    if !IdsParse(physical) || |found| > 1 then Err(Invalid)
    else if found == [] then Ok(None)
    else Ok(Some(found[0]))
  }

  datatype Slot = Slot(index: Option<nat>, mapping: Mapping)
  datatype Mapping = Mapping(target: PhysicalField, kind: Kind)
  datatype Kind =
    | Missing(value: Option<Option<int>>)
    | Same
    | StructKind(slots: seq<Slot>)
    | ListKind(mapping: Mapping)
    | MapKind(slots: seq<Slot>)

  function Find(fields: seq<Field>, id: nat): Option<Field> {
    if fields == [] then None
    else if fields[0].id == id then Some(fields[0])
    else Find(fields[1..], id)
  }

  predicate Compatible(source: DataType, target: DataType) {
    source == target ||
    match source
    case Int8 => target.Int32? || target.Int64?
    case Int16 => target.Int32? || target.Int64?
    case Int32 => target.Int64?
    case Float32 => target.Float64?
    case Utf8 => false
    case Utf8View => target.Utf8?
    case LargeUtf8 => target.Utf8?
    case BinaryView => target.Binary?
    case LargeBinary => target.Binary?
    case Dictionary(value) => Compatible(value, target)
    case Decimal128(p, s) => (target.Decimal128? || target.Decimal256?) && p <= target.precision && s == target.scale
    case Decimal256(p, s) => target.Decimal256? && p <= target.precision && s == target.scale
    case _ => false
  }

  function Bind(a: Arrow, query: Field, recorded: Option<Field>, physical: seq<PhysicalField>, target: PhysicalField): (r: Result<Slot>)
    ensures r.Ok? && r.value.index.Some? ==> r.value.index.value < |physical|
    decreases query, 1
  {
    var index := if recorded.Some? then Position(recorded.value, physical) else Ok(None);
    if index.Err? then Err(Invalid)
    else if index.value.None? then
      if query.required || (recorded.Some? && recorded.value.required) then Err(Invalid)
      else
        var value := DefaultFor(a, query, target.dataType);
        if value.Err? then Err(Invalid) else Ok(Slot(None, Mapping(target, Missing(value.value))))
    else
      PositionBound(recorded.value, physical);
      var kind := BindAs(a, query, recorded.value, physical[index.value.value].dataType, target.dataType);
      if kind.Err? then Err(Invalid) else Ok(Slot(index.value, Mapping(target, kind.value)))
  }

  function DefaultFor(a: Arrow, query: Field, t: DataType): Result<Option<Option<int>>> {
    match query.initialDefault
    case None => Ok(None)
    case Some(None) => Ok(Some(None))
    case Some(Some(v)) => if !Nested(t) && a.convert(v, t).Some? then Ok(Some(a.convert(v, t))) else Err(Invalid)
  }

  lemma {:induction false} CandidatesBound(recorded: Field, physical: seq<PhysicalField>)
    ensures forall i :: i in Candidates(recorded, physical) <==> 0 <= i < |physical| && Candidate(recorded, physical[i])
  {
    if physical != [] {
      CandidatesBound(recorded, physical[..|physical| - 1]);
    }
  }

  lemma PositionBound(recorded: Field, physical: seq<PhysicalField>)
    ensures var r := Position(recorded, physical);
      r.Ok? && r.value.Some? ==> r.value.value < |physical| && Candidate(recorded, physical[r.value.value])
  {
    CandidatesBound(recorded, physical);
    var found := Candidates(recorded, physical);
    if found != [] {
      assert found[0] in found;
    }
  }

  function BindAs(a: Arrow, query: Field, recorded: Field, source: DataType, target: DataType): Result<Kind>
    decreases query, 0
  {
    if query.fieldType.Struct? && recorded.fieldType.Struct? && source.StructType? && target.StructType? then
      var slots := BindAll(a, query.fieldType.fields, recorded.fieldType.fields, source.fields, target.fields);
      if slots.Err? then Err(Invalid) else Ok(StructKind(slots.value))
    else if query.fieldType.List? && recorded.fieldType.List? && source.ListType? && target.ListType? then
      var slot := BindCollection(a, query.fieldType.element, recorded.fieldType.element, source.element, target.element, 0);
      if slot.Err? then Err(Invalid) else Ok(ListKind(slot.value.mapping))
    else if query.fieldType.Map? && recorded.fieldType.Map? && source.MapType? && target.MapType? then
      var from, to := source.entries.dataType, target.entries.dataType;
      if !from.StructType? || !to.StructType? || |from.fields| != 2 || |to.fields| != 2 then Err(Invalid)
      else
        var key := BindCollection(a, query.fieldType.key, recorded.fieldType.key, from.fields[0], to.fields[0], 0);
        var value := BindCollection(a, query.fieldType.value, recorded.fieldType.value, from.fields[1], to.fields[1], 1);
        if key.Err? || value.Err? then Err(Invalid) else Ok(MapKind([key.value, value.value]))
    else if query.fieldType == recorded.fieldType && Compatible(source, target) then Ok(Same)
    else Err(Invalid)
  }

  function BindAll(a: Arrow, query: seq<Field>, recorded: seq<Field>, physical: seq<PhysicalField>, target: seq<PhysicalField>): Result<seq<Slot>>
    decreases query, 0
  {
    if query == [] || target == [] then Ok([])
    else
      var first := Bind(a, query[0], Find(recorded, query[0].id), physical, target[0]);
      if first.Err? then Err(Invalid)
      else
        var rest := BindAll(a, query[1..], recorded, physical, target[1..]);
        if rest.Err? then Err(Invalid) else Ok([first.value] + rest.value)
  }

  // Elements, keys and values have their places; their names may have been erased.
  function BindCollection(a: Arrow, query: Field, recorded: Field, physical: PhysicalField, target: PhysicalField, index: nat): Result<Slot>
    decreases query, 2
  {
    var id := PhysicalId(physical);
    if query.id != recorded.id || id.Err? || (id.value.Some? && id.value.value != recorded.id) then Err(Invalid)
    else
      var slot := Bind(a, query, Some(recorded), [physical.(name := recorded.name)], target);
      if slot.Err? then Err(Invalid) else Ok(slot.value.(index := Some(index)))
  }

  // ----- Mapping columns --------------------------------------------------------------------------

  function Repeat<T>(x: T, n: nat): (r: seq<T>)
    ensures |r| == n && forall i :: 0 <= i < n ==> r[i] == x
  {
    if n == 0 then [] else [x] + Repeat(x, n - 1)
  }

  // new_null_array
  function Nulls(t: DataType, rows: nat): Column
    decreases t, 1
  {
    match t
    case StructType(fields) => StructColumn(fields, Repeat(false, rows), NullColumns(fields, rows))
    case ListType(element) => ListColumn(element, Repeat(false, rows), Repeat(0, rows + 1), Nulls(element.dataType, 0))
    case MapType(entries) =>
      MapColumn(entries, Repeat(false, rows), Repeat(0, rows + 1),
                if entries.dataType.StructType? then NullColumns(entries.dataType.fields, 0) else [], 0)
    case _ => Cells(t, Repeat(None, rows))
  }

  function NullColumns(fields: seq<PhysicalField>, rows: nat): seq<Column>
    decreases fields, 0
  {
    if fields == [] then [] else [Nulls(fields[0].dataType, rows)] + NullColumns(fields[1..], rows)
  }

  function CastCells(a: Arrow, from: DataType, to: DataType, cells: seq<Option<int>>): seq<Option<int>> {
    if cells == [] then []
    else [if cells[0].Some? then Some(a.cast(from, to, cells[0].value)) else None] + CastCells(a, from, to, cells[1..])
  }

  function Checked(a: Arrow, c: Column): Result<Column> {
    if a.admits(c) then Ok(c) else Err(Invalid)
  }

  function Apply(a: Arrow, mapping: Mapping, input: Option<Column>, len: nat): Result<Column>
    decreases mapping, 1
  {
    var target := mapping.target.dataType;
    match mapping.kind
    case Missing(None) => Ok(Nulls(target, len))
    case Missing(Some(value)) => if value.None? then Ok(Nulls(target, len)) else Ok(Cells(target, Repeat(value, len)))
    case Same =>
      if input.None? then Err(Invalid)
      else if TypeOf(input.value) == target then Ok(input.value)
      else if input.value.Cells? then Ok(Cells(target, CastCells(a, input.value.dataType, target, input.value.cells)))
      else Err(Invalid)
    case StructKind(slots) =>
      if input.None? || !input.value.StructColumn? || !target.StructType? then Err(Invalid)
      else
        var values := ApplyAll(a, slots, input.value.columns, len);
        if values.Err? then Err(Invalid)
        else Checked(a, StructColumn(target.fields, input.value.valid, values.value))
    case ListKind(element) =>
      if input.None? || !input.value.ListColumn? || !target.ListType? then Err(Invalid)
      else
        var values := Apply(a, element, Some(input.value.values), Length(input.value.values));
        if values.Err? then Err(Invalid)
        else Checked(a, ListColumn(target.element, input.value.valid, input.value.offsets, values.value))
    case MapKind(slots) =>
      if input.None? || !input.value.MapColumn? || !target.MapType? || !target.entries.dataType.StructType? then Err(Invalid)
      else
        var values := ApplyAll(a, slots, input.value.columns, input.value.size);
        if values.Err? then Err(Invalid)
        else Checked(a, MapColumn(target.entries, input.value.valid, input.value.offsets, values.value, input.value.size))
  }

  function Input(slot: Slot, columns: seq<Column>): Option<Column> {
    if slot.index.Some? && slot.index.value < |columns| then Some(columns[slot.index.value]) else None
  }

  function ApplySlot(a: Arrow, slot: Slot, columns: seq<Column>, len: nat): Result<Column>
    decreases slot, 0
  {
    Apply(a, slot.mapping, Input(slot, columns), len)
  }

  function ApplyAll(a: Arrow, slots: seq<Slot>, columns: seq<Column>, len: nat): Result<seq<Column>>
    decreases slots, 0
  {
    if slots == [] then Ok([])
    else
      var first := ApplySlot(a, slots[0], columns, len);
      if first.Err? then Err(Invalid)
      else
        var rest := ApplyAll(a, slots[1..], columns, len);
        if rest.Err? then Err(Invalid) else Ok([first.value] + rest.value)
  }

  // ----- What rows mean ----------------------------------------------------------------------------

  // A value by field ID; a struct lists its fields' IDs, each with its value unless the
  // file has no column for it.
  datatype Meaning =
    | Absent
    | Cell(dataType: DataType, value: int)
    | Record(fields: seq<(nat, Option<Meaning>)>)
    | Items(items: seq<Meaning>)
    | Entries(entries: seq<(Meaning, Meaning)>)

  // A row of the file, read through the schema recorded for it.
  function Read(f: Field, t: DataType, row: Row): Meaning
    decreases f, 1, 0
  {
    match row
    case Null => Absent
    case Scalar(cell) => Cell(t, cell)
    case StructRow(children) =>
      if f.fieldType.Struct? && t.StructType? && |children| == |t.fields|
      then Record(ReadFields(f.fieldType.fields, t.fields, children)) else Absent
    case ListRow(items) =>
      if f.fieldType.List? && t.ListType? then Items(ReadItems(f.fieldType.element, t.element.dataType, items)) else Absent
    case MapRow(pairs) =>
      if f.fieldType.Map? && t.MapType? && t.entries.dataType.StructType? && |t.entries.dataType.fields| == 2
      then Entries(ReadEntries(f, t.entries.dataType.fields, pairs)) else Absent
  }

  function ReadFields(fields: seq<Field>, physical: seq<PhysicalField>, children: seq<Row>): seq<(nat, Option<Meaning>)>
    requires |children| == |physical|
    decreases fields, 0, 0
  {
    if fields == [] then []
    else
      var at := Position(fields[0], physical);
      PositionBound(fields[0], physical);
      var value :=
        if at.Ok? && at.value.Some? then Some(Read(fields[0], physical[at.value.value].dataType, children[at.value.value])) else None;
      [(fields[0].id, value)] + ReadFields(fields[1..], physical, children)
  }

  function ReadItems(f: Field, t: DataType, items: seq<Row>): seq<Meaning>
    decreases f, 2, |items|
  {
    if items == [] then [] else [Read(f, t, items[0])] + ReadItems(f, t, items[1..])
  }

  function ReadEntries(f: Field, physical: seq<PhysicalField>, pairs: seq<seq<Row>>): seq<(Meaning, Meaning)>
    requires f.fieldType.Map? && |physical| == 2
    decreases f, 0, |pairs|
  {
    if pairs == [] then []
    else
      [(Read(f.fieldType.key, physical[0].dataType, if |pairs[0]| == 2 then pairs[0][0] else Null),
        Read(f.fieldType.value, physical[1].dataType, if |pairs[0]| == 2 then pairs[0][1] else Null))]
      + ReadEntries(f, physical, pairs[1..])
  }

  // The Arrow type a query field is read as.
  function TypeFor(t: LogicalType): DataType
    decreases t
  {
    match t
    case Primitive(arrow) => arrow
    case Struct(fields) => StructType(FieldsFor(fields))
    case List(element) => ListType(FieldFor(element))
    case Map(key, value) => MapType(PhysicalField("entries", None, false, StructType([FieldFor(key), FieldFor(value)])))
  }

  function FieldFor(f: Field): PhysicalField
    decreases f
  {
    PhysicalField(f.name, None, !f.required, TypeFor(f.fieldType))
  }

  function FieldsFor(fields: seq<Field>): seq<PhysicalField>
    decreases fields
  {
    if fields == [] then [] else [FieldFor(fields[0])] + FieldsFor(fields[1..])
  }

  // A result row, whose struct children stand in the query's order.
  function ReadResult(f: Field, row: Row): Meaning
    decreases f, 1, 0
  {
    match row
    case Null => Absent
    case Scalar(cell) => Cell(TypeFor(f.fieldType), cell)
    case StructRow(children) =>
      if f.fieldType.Struct? && |children| == |f.fieldType.fields| then Record(ReadResults(f.fieldType.fields, children)) else Absent
    case ListRow(items) => if f.fieldType.List? then Items(ReadResultItems(f.fieldType.element, items)) else Absent
    case MapRow(pairs) => if f.fieldType.Map? then Entries(ReadResultEntries(f, pairs)) else Absent
  }

  function ReadResults(fields: seq<Field>, children: seq<Row>): seq<(nat, Option<Meaning>)>
    requires |children| == |fields|
    decreases fields, 0, 0
  {
    if fields == [] then [] else [(fields[0].id, Some(ReadResult(fields[0], children[0])))] + ReadResults(fields[1..], children[1..])
  }

  function ReadResultItems(f: Field, items: seq<Row>): seq<Meaning>
    decreases f, 2, |items|
  {
    if items == [] then [] else [ReadResult(f, items[0])] + ReadResultItems(f, items[1..])
  }

  function ReadResultEntries(f: Field, pairs: seq<seq<Row>>): seq<(Meaning, Meaning)>
    requires f.fieldType.Map?
    decreases f, 0, |pairs|
  {
    if pairs == [] then []
    else
      [(ReadResult(f.fieldType.key, if |pairs[0]| == 2 then pairs[0][0] else Null),
        ReadResult(f.fieldType.value, if |pairs[0]| == 2 then pairs[0][1] else Null))]
      + ReadResultEntries(f, pairs[1..])
  }

  // ----- Projection by field ID --------------------------------------------------------------

  function Lookup(fields: seq<(nat, Option<Meaning>)>, id: nat): (r: Option<Meaning>)
    ensures r.Some? ==> exists k :: 0 <= k < |fields| && fields[k].1 == r
  {
    if fields == [] then None else if fields[0].0 == id then fields[0].1 else Lookup(fields[1..], id)
  }

  function Default(a: Arrow, query: Field): Meaning {
    match query.initialDefault
    case None => Absent
    case Some(None) => Absent
    case Some(Some(v)) =>
      var cell := a.convert(v, TypeFor(query.fieldType));
      if cell.Some? then Cell(TypeFor(query.fieldType), cell.value) else Absent
  }

  // What a value means under a later schema: each field keeps the value of its ID, a
  // field without one takes its default, absent values stay absent, lists and maps keep
  // their items.
  function Evolve(a: Arrow, query: Field, m: Meaning): Meaning
    decreases query, 1, 0
  {
    match m
    case Absent => Absent
    case Cell(t, v) => var target := TypeFor(query.fieldType); Cell(target, if t == target then v else a.cast(t, target, v))
    case Record(fields) => if query.fieldType.Struct? then Record(EvolveFields(a, query.fieldType.fields, fields)) else Absent
    case Items(items) => if query.fieldType.List? then Items(EvolveItems(a, query.fieldType.element, items)) else Absent
    case Entries(entries) => if query.fieldType.Map? then Entries(EvolveEntries(a, query, entries)) else Absent
  }

  function EvolveFields(a: Arrow, query: seq<Field>, fields: seq<(nat, Option<Meaning>)>): seq<(nat, Option<Meaning>)>
    decreases query, 0, 0
  {
    if query == [] then []
    else
      var value := Lookup(fields, query[0].id);
      [(query[0].id, Some(if value.Some? then Evolve(a, query[0], value.value) else Default(a, query[0])))]
      + EvolveFields(a, query[1..], fields)
  }

  function EvolveItems(a: Arrow, query: Field, items: seq<Meaning>): seq<Meaning>
    decreases query, 2, |items|
  {
    if items == [] then [] else [Evolve(a, query, items[0])] + EvolveItems(a, query, items[1..])
  }

  function EvolveEntries(a: Arrow, query: Field, entries: seq<(Meaning, Meaning)>): seq<(Meaning, Meaning)>
    requires query.fieldType.Map?
    decreases query, 0, |entries|
  {
    if entries == [] then []
    else
      [(Evolve(a, query.fieldType.key, entries[0].0), Evolve(a, query.fieldType.value, entries[0].1))]
      + EvolveEntries(a, query, entries[1..])
  }

  // ----- Columns map as rows project -----------------------------------------------------------

  // Primitives of the query are read as Arrow types that are not nested.
  predicate Sensible(t: LogicalType)
    decreases t
  {
    match t
    case Primitive(arrow) => !Nested(arrow)
    case Struct(fields) => SensibleAll(fields)
    case List(element) => SensibleField(element)
    case Map(key, value) => SensibleField(key) && SensibleField(value)
  }

  predicate SensibleField(f: Field)
    decreases f
  {
    Sensible(f.fieldType)
  }

  predicate SensibleAll(fields: seq<Field>)
    decreases fields
  {
    fields != [] ==> SensibleField(fields[0]) && SensibleAll(fields[1..])
  }

  lemma {:induction false} NullRows(t: DataType, rows: nat, i: nat)
    ensures Length(Nulls(t, rows)) == rows && RowAt(Nulls(t, rows), i) == Null
  {
  }

  lemma {:induction false} CastRows(a: Arrow, from: DataType, to: DataType, cells: seq<Option<int>>)
    ensures |CastCells(a, from, to, cells)| == |cells|
    ensures forall i :: 0 <= i < |cells| ==>
      CastCells(a, from, to, cells)[i] == if cells[i].Some? then Some(a.cast(from, to, cells[i].value)) else None
  {
    if cells != [] {
      CastRows(a, from, to, cells[1..]);
    }
  }

  lemma {:induction false} RowsAtShape(columns: seq<Column>, i: nat)
    ensures |RowsAt(columns, i)| == |columns|
    ensures forall k :: 0 <= k < |columns| ==> RowsAt(columns, i)[k] == RowAt(columns[k], i)
  {
    if columns != [] {
      RowsAtShape(columns[1..], i);
    }
  }

  // A run of values lists its rows one by one.
  lemma {:induction false} RunShape(values: Column, from: nat, to: nat)
    requires from <= to
    ensures |Run(values, from, to)| == to - from
    ensures forall k :: 0 <= k < to - from ==> Run(values, from, to)[k] == RowAt(values, from + k)
    decreases (to - from)
  {
    hide RowAt;
    if from < to {
      RunShape(values, from + 1, to);
    }
  }

  lemma {:induction false} PairRunShape(columns: seq<Column>, from: nat, to: nat)
    requires from <= to
    ensures |PairRun(columns, from, to)| == to - from
    ensures forall k :: 0 <= k < to - from ==> PairRun(columns, from, to)[k] == RowsAt(columns, from + k)
    decreases (to - from)
  {
    hide RowsAt;
    if from < to {
      PairRunShape(columns, from + 1, to);
    }
  }

  lemma {:induction false} ColumnConforms(columns: seq<Column>, fields: seq<PhysicalField>, rows: nat, k: nat)
    requires |columns| == |fields| && ColumnsConform(columns, fields, rows) && k < |columns|
    ensures Conforms(columns[k], fields[k].dataType) && Length(columns[k]) == rows
  {
    if k > 0 {
      ColumnConforms(columns[1..], fields[1..], rows, k - 1);
    }
  }

  // A missing field reads as its default in every row.
  lemma MissingProjects(a: Arrow, q: Field, target: PhysicalField, value: Option<Option<int>>, len: nat, i: nat)
    requires Sensible(q.fieldType) && target.dataType == TypeFor(q.fieldType)
    requires DefaultFor(a, q, target.dataType) == Ok(value) && i < len
    ensures var out := Apply(a, Mapping(target, Missing(value)), None, len);
      out.Ok? && Length(out.value) == len && ReadResult(q, RowAt(out.value, i)) == Default(a, q)
  {
    NullRows(target.dataType, len, i);
    hide Nulls;
  }

  // The input of a missing field does not matter.
  lemma MissingIgnores(a: Arrow, target: PhysicalField, value: Option<Option<int>>, input: Option<Column>, len: nat)
    ensures Apply(a, Mapping(target, Missing(value)), input, len) == Apply(a, Mapping(target, Missing(value)), None, len)
  {
  }

  // Nested types are always mapped part by part.
  lemma SameIsFlat(a: Arrow, q: Field, r: Field, source: DataType, target: DataType)
    requires Sensible(q.fieldType) && target == TypeFor(q.fieldType) && BindAs(a, q, r, source, target) == Ok(Same)
    ensures !Nested(source)
  {
    hide BindAll, BindCollection, SensibleAll, SensibleField, FieldsFor, FieldFor;
  }

  lemma FlatColumn(col: Column, t: DataType)
    requires Conforms(col, t) && !Nested(t)
    ensures col.Cells? && col.dataType == t
  {
  }

  lemma SameProjects(a: Arrow, q: Field, r: Field, source: DataType, target: PhysicalField, col: Column, len: nat, out: Column, i: nat)
    requires Sensible(q.fieldType) && target.dataType == TypeFor(q.fieldType)
    requires BindAs(a, q, r, source, target.dataType) == Ok(Same)
    requires Conforms(col, source) && Length(col) == len && Apply(a, Mapping(target, Same), Some(col), len) == Ok(out) && i < len
    ensures Length(out) == len && ReadResult(q, RowAt(out, i)) == Evolve(a, q, Read(r, source, RowAt(col, i)))
  {
    hide CastCells, BindAll, BindCollection, Conforms, SensibleAll, SensibleField, FieldsFor, FieldFor;
    SameIsFlat(a, q, r, source, target.dataType);
    FlatColumn(col, source);
    CastRows(a, col.dataType, target.dataType, col.cells);
    hide BindAs, Sensible;
  }

  // A collection part is bound as what it holds, in its place.
  lemma CollectionBinds(a: Arrow, q: Field, r: Field, physical: PhysicalField, target: PhysicalField, index: nat)
    requires BindCollection(a, q, r, physical, target, index).Ok?
    ensures var slot := BindCollection(a, q, r, physical, target, index).value;
      && slot.index == Some(index) && slot.mapping.target == target
      && BindAs(a, q, r, physical.dataType, target.dataType) == Ok(slot.mapping.kind)
  {
    var named := [physical.(name := r.name)];
    assert named[..0] == [];
    assert Candidates(r, named) == Candidates(r, named[..0]) + [0];
    hide BindAs;
  }

  lemma {:induction false} LookupRead(fields: seq<Field>, physical: seq<PhysicalField>, children: seq<Row>, id: nat)
    requires |children| == |physical|
    ensures Lookup(ReadFields(fields, physical, children), id)
         == match Find(fields, id)
            case None => None
            case Some(f) =>
              var at := Position(f, physical);
              if at.Ok? && at.value.Some? && at.value.value < |physical|
              then Some(Read(f, physical[at.value.value].dataType, children[at.value.value])) else None
    decreases fields
  {
    hide Read, Position;
    if fields != [] {
      PositionBound(fields[0], physical);
      LookupRead(fields[1..], physical, children, id);
    }
  }

  // What a slot gives a query field, as the recorded field bound to it says.
  ghost function Projected(a: Arrow, q: Field, r: Option<Field>, physical: seq<PhysicalField>, children: seq<Row>): Meaning
    requires |children| == |physical|
  {
    if r.None? then Default(a, q)
    else
      var at := Position(r.value, physical);
      PositionBound(r.value, physical);
      if at.Ok? && at.value.Some?
      then Evolve(a, q, Read(r.value, physical[at.value.value].dataType, children[at.value.value])) else Default(a, q)
  }

  lemma {:induction false} SlotProjects(a: Arrow, q: Field, r: Option<Field>, physical: seq<PhysicalField>, target: PhysicalField,
                                        slot: Slot, columns: seq<Column>, len: nat, out: Column, i: nat)
    requires Sensible(q.fieldType) && target.dataType == TypeFor(q.fieldType)
    requires Bind(a, q, r, physical, target) == Ok(slot)
    requires |columns| == |physical| && ColumnsConform(columns, physical, len)
    requires ApplySlot(a, slot, columns, len) == Ok(out) && i < len
    ensures |RowsAt(columns, i)| == |physical|
    ensures Length(out) == len && ReadResult(q, RowAt(out, i)) == Projected(a, q, r, physical, RowsAt(columns, i))
    decreases q, 3
  {
    hide BindAs, Apply, ReadResult, Evolve, Read, Sensible, TypeFor, DefaultFor, Default, ColumnsConform, RowAt;
    RowsAtShape(columns, i);
    var at := if r.Some? then Position(r.value, physical) else Ok(None);
    if at.value.None? {
      MissingIgnores(a, target, slot.mapping.kind.value, Input(slot, columns), len);
      MissingProjects(a, q, target, slot.mapping.kind.value, len, i);
    } else {
      PositionBound(r.value, physical);
      ColumnConforms(columns, physical, len, at.value.value);
      Projects(a, q, r.value, physical[at.value.value].dataType, target, slot.mapping.kind, columns[at.value.value], len, out, i);
    }
  }

  lemma {:induction false} AllProject(a: Arrow, qs: seq<Field>, rs: seq<Field>, physical: seq<PhysicalField>, slots: seq<Slot>,
                                      columns: seq<Column>, len: nat, outs: seq<Column>, i: nat)
    requires SensibleAll(qs) && BindAll(a, qs, rs, physical, FieldsFor(qs)) == Ok(slots)
    requires |columns| == |physical| && ColumnsConform(columns, physical, len)
    requires ApplyAll(a, slots, columns, len) == Ok(outs) && i < len
    ensures |outs| == |qs| && |RowsAt(outs, i)| == |qs| && |RowsAt(columns, i)| == |physical|
    ensures forall k :: 0 <= k < |outs| ==> Length(outs[k]) == len
    ensures ReadResults(qs, RowsAt(outs, i)) == EvolveFields(a, qs, ReadFields(rs, physical, RowsAt(columns, i)))
    decreases qs, 0
  {
    hide Bind, ApplySlot, ReadResult, Evolve, Read, Sensible, Position, Default, ColumnsConform, RowAt, ReadFields, Lookup;
    RowsAtShape(columns, i);
    if qs != [] {
      var r := Find(rs, qs[0].id);
      SlotProjects(a, qs[0], r, physical, FieldsFor(qs)[0], slots[0], columns, len, outs[0], i);
      LookupRead(rs, physical, RowsAt(columns, i), qs[0].id);
      if r.Some? {
        PositionBound(r.value, physical);
      }
      assert RowsAt(outs, i)[1..] == RowsAt(outs[1..], i);
      AllProject(a, qs[1..], rs, physical, slots[1..], columns, len, outs[1..], i);
    }
  }

  lemma {:induction false} StructProjects(a: Arrow, q: Field, r: Field, source: DataType, target: PhysicalField, kind: Kind,
                                          col: Column, len: nat, out: Column, i: nat)
    requires Sensible(q.fieldType) && target.dataType == TypeFor(q.fieldType) && kind.StructKind?
    requires BindAs(a, q, r, source, target.dataType) == Ok(kind)
    requires Conforms(col, source) && Length(col) == len && Apply(a, Mapping(target, kind), Some(col), len) == Ok(out) && i < len
    ensures Length(out) == len && ReadResult(q, RowAt(out, i)) == Evolve(a, q, Read(r, source, RowAt(col, i)))
    decreases q, 1
  {
    hide BindAll, ApplyAll, ReadResults, EvolveFields, ReadFields, RowsAt, SensibleAll, FieldsFor, ColumnsConform, BindCollection;
    AllProject(a, q.fieldType.fields, r.fieldType.fields, source.fields, kind.slots, col.columns, len, out.columns, i);
  }

  lemma {:induction false} RunProjects(a: Arrow, q: Field, r: Field, source: DataType, target: PhysicalField, kind: Kind,
                                       col: Column, out: Column, from: nat, to: nat)
    requires Sensible(q.fieldType) && target.dataType == TypeFor(q.fieldType)
    requires BindAs(a, q, r, source, target.dataType) == Ok(kind)
    requires Conforms(col, source) && Apply(a, Mapping(target, kind), Some(col), Length(col)) == Ok(out)
    requires from <= to <= Length(col)
    ensures ReadResultItems(q, Run(out, from, to)) == EvolveItems(a, q, ReadItems(r, source, Run(col, from, to)))
    decreases q, 3, to - from
  {
    hide BindAs, Apply, RowAt, ReadResult, Evolve, Read, Conforms, Sensible, TypeFor;
    if from < to {
      Projects(a, q, r, source, target, kind, col, Length(col), out, from);
      RunProjects(a, q, r, source, target, kind, col, out, from + 1, to);
    }
  }

  lemma {:induction false} ListProjects(a: Arrow, q: Field, r: Field, source: DataType, target: PhysicalField, kind: Kind,
                                        col: Column, len: nat, out: Column, i: nat)
    requires Sensible(q.fieldType) && target.dataType == TypeFor(q.fieldType) && kind.ListKind?
    requires BindAs(a, q, r, source, target.dataType) == Ok(kind)
    requires Conforms(col, source) && Length(col) == len && Apply(a, Mapping(target, kind), Some(col), len) == Ok(out) && i < len
    ensures Length(out) == len && ReadResult(q, RowAt(out, i)) == Evolve(a, q, Read(r, source, RowAt(col, i)))
    decreases q, 1
  {
    hide BindCollection, BindAll, ReadResultItems, EvolveItems, ReadItems, Run, ApplyAll;
    var e := q.fieldType.element;
    CollectionBinds(a, e, r.fieldType.element, source.element, target.dataType.element, 0);
    OffsetsBelow(col.offsets, len, Length(col.values), i);
    RunProjects(a, e, r.fieldType.element, source.element.dataType, target.dataType.element, kind.mapping.kind,
                col.values, out.values, col.offsets[i], col.offsets[i + 1]);
  }

  lemma {:induction false} OffsetsBelow(offsets: seq<nat>, rows: nat, size: nat, i: nat)
    requires Offsets(offsets, rows, size) && i <= rows
    ensures offsets[i] <= size && (i < rows ==> offsets[i] <= offsets[i + 1] <= size)
    decreases rows - i
  {
    if i < rows {
      OffsetsBelow(offsets, rows, size, i + 1);
    }
  }

  lemma PairStep(a: Arrow, q: Field, r: Field, physical: seq<PhysicalField>, columns: seq<Column>, outs: seq<Column>, from: nat, to: nat)
    requires q.fieldType.Map? && r.fieldType.Map? && |physical| == 2 && from < to
    requires |RowsAt(outs, from)| == 2 && |RowsAt(columns, from)| == 2
    requires ReadResult(q.fieldType.key, RowsAt(outs, from)[0])
          == Evolve(a, q.fieldType.key, Read(r.fieldType.key, physical[0].dataType, RowsAt(columns, from)[0]))
    requires ReadResult(q.fieldType.value, RowsAt(outs, from)[1])
          == Evolve(a, q.fieldType.value, Read(r.fieldType.value, physical[1].dataType, RowsAt(columns, from)[1]))
    requires ReadResultEntries(q, PairRun(outs, from + 1, to))
          == EvolveEntries(a, q, ReadEntries(r, physical, PairRun(columns, from + 1, to)))
    ensures ReadResultEntries(q, PairRun(outs, from, to)) == EvolveEntries(a, q, ReadEntries(r, physical, PairRun(columns, from, to)))
  {
    hide RowsAt, ReadResult, Evolve, Read;
    assert PairRun(outs, from, to)[1..] == PairRun(outs, from + 1, to);
    assert PairRun(columns, from, to)[1..] == PairRun(columns, from + 1, to);
  }

  // The two parts of a map, column by column.
  lemma {:induction false} PairRunProjects(a: Arrow, q: Field, r: Field, physical: seq<PhysicalField>, target: seq<PhysicalField>,
                                           key: Kind, value: Kind, columns: seq<Column>, outs: seq<Column>, size: nat, from: nat, to: nat)
    requires q.fieldType.Map? && r.fieldType.Map? && |physical| == 2 && |target| == 2 && |columns| == 2 && |outs| == 2
    requires Sensible(q.fieldType.key.fieldType) && Sensible(q.fieldType.value.fieldType)
    requires target[0].dataType == TypeFor(q.fieldType.key.fieldType) && target[1].dataType == TypeFor(q.fieldType.value.fieldType)
    requires BindAs(a, q.fieldType.key, r.fieldType.key, physical[0].dataType, target[0].dataType) == Ok(key)
    requires BindAs(a, q.fieldType.value, r.fieldType.value, physical[1].dataType, target[1].dataType) == Ok(value)
    requires ColumnsConform(columns, physical, size)
    requires Apply(a, Mapping(target[0], key), Some(columns[0]), size) == Ok(outs[0])
    requires Apply(a, Mapping(target[1], value), Some(columns[1]), size) == Ok(outs[1])
    requires from <= to <= size
    ensures ReadResultEntries(q, PairRun(outs, from, to)) == EvolveEntries(a, q, ReadEntries(r, physical, PairRun(columns, from, to)))
    decreases q, 0, to - from
  {
    hide BindAs, Apply, RowAt, RowsAt, ReadResult, Evolve, Read, Conforms, ColumnsConform, TypeFor, Sensible;
    if from < to {
      hide PairRun, ReadEntries, EvolveEntries, ReadResultEntries;
      ColumnConforms(columns, physical, size, 0);
      ColumnConforms(columns, physical, size, 1);
      RowsAtShape(columns, from);
      RowsAtShape(outs, from);
      Projects(a, q.fieldType.key, r.fieldType.key, physical[0].dataType, target[0], key, columns[0], size, outs[0], from);
      Projects(a, q.fieldType.value, r.fieldType.value, physical[1].dataType, target[1], value, columns[1], size, outs[1], from);
      PairRunProjects(a, q, r, physical, target, key, value, columns, outs, size, from + 1, to);
      PairStep(a, q, r, physical, columns, outs, from, to);
    } else {
      assert PairRun(outs, from, to) == [] && PairRun(columns, from, to) == [];
    }
  }

  lemma TwoSlots(a: Arrow, key: Slot, value: Slot, columns: seq<Column>, size: nat, outs: seq<Column>)
    requires key.index == Some(0) && value.index == Some(1) && |columns| == 2
    requires ApplyAll(a, [key, value], columns, size) == Ok(outs)
    ensures |outs| == 2
    ensures Apply(a, key.mapping, Some(columns[0]), size) == Ok(outs[0])
    ensures Apply(a, value.mapping, Some(columns[1]), size) == Ok(outs[1])
  {
    hide Apply;
    var slots := [key, value];
    assert slots[1..] == [value] && [value][1..] == [];
    assert ApplyAll(a, [], columns, size) == Ok([]);
    assert ApplySlot(a, value, columns, size).Ok?;
    assert ApplyAll(a, [value], columns, size) == Ok([ApplySlot(a, value, columns, size).value] + []);
    assert outs == [ApplySlot(a, key, columns, size).value] + ([ApplySlot(a, value, columns, size).value] + []);
  }

  lemma {:induction false} MapProjects(a: Arrow, q: Field, r: Field, source: DataType, target: PhysicalField, kind: Kind,
                                       col: Column, len: nat, out: Column, i: nat)
    requires Sensible(q.fieldType) && target.dataType == TypeFor(q.fieldType) && kind.MapKind?
    requires BindAs(a, q, r, source, target.dataType) == Ok(kind)
    requires Conforms(col, source) && Length(col) == len && Apply(a, Mapping(target, kind), Some(col), len) == Ok(out) && i < len
    ensures Length(out) == len && ReadResult(q, RowAt(out, i)) == Evolve(a, q, Read(r, source, RowAt(col, i)))
    decreases q, 1
  {
    hide BindCollection, BindAll, ReadResultEntries, EvolveEntries, ReadEntries, PairRun, ApplyAll, ColumnsConform;
    var qk, qv, rk, rv := q.fieldType.key, q.fieldType.value, r.fieldType.key, r.fieldType.value;
    var from, to := source.entries.dataType.fields, target.dataType.entries.dataType.fields;
    CollectionBinds(a, qk, rk, from[0], to[0], 0);
    CollectionBinds(a, qv, rv, from[1], to[1], 1);
    assert kind.slots == [kind.slots[0], kind.slots[1]];
    TwoSlots(a, kind.slots[0], kind.slots[1], col.columns, col.size, out.columns);
    OffsetsBelow(col.offsets, len, col.size, i);
    PairRunProjects(a, q, r, from, to, kind.slots[0].mapping.kind, kind.slots[1].mapping.kind,
                    col.columns, out.columns, col.size, col.offsets[i], col.offsets[i + 1]);
  }

  // Row by row, a mapped column means what its input means, projected by field ID.
  lemma {:induction false} Projects(a: Arrow, q: Field, r: Field, source: DataType, target: PhysicalField, kind: Kind,
                                    col: Column, len: nat, out: Column, i: nat)
    requires Sensible(q.fieldType) && target.dataType == TypeFor(q.fieldType)
    requires BindAs(a, q, r, source, target.dataType) == Ok(kind)
    requires Conforms(col, source) && Length(col) == len && Apply(a, Mapping(target, kind), Some(col), len) == Ok(out) && i < len
    ensures Length(out) == len && ReadResult(q, RowAt(out, i)) == Evolve(a, q, Read(r, source, RowAt(col, i)))
    decreases q, 2
  {
    hide Apply, RowAt, ReadResult, Evolve, Read, Conforms, Sensible, BindAll, BindCollection, TypeFor;
    if kind.Same? {
      SameProjects(a, q, r, source, target, col, len, out, i);
    } else if kind.StructKind? {
      StructProjects(a, q, r, source, target, kind, col, len, out, i);
    } else if kind.ListKind? {
      ListProjects(a, q, r, source, target, kind, col, len, out, i);
    } else {
      MapProjects(a, q, r, source, target, kind, col, len, out, i);
    }
  }

  // The adapter of one file: each query column is bound on its own against the file's
  // columns, and a batch of rows is mapped column by column.
  lemma BatchProjects(a: Arrow, query: seq<Field>, recorded: seq<Field>, physical: seq<PhysicalField>, slots: seq<Slot>,
                      batch: seq<Column>, rows: nat, result: seq<Column>, i: nat)
    requires SensibleAll(query) && BindAll(a, query, recorded, physical, FieldsFor(query)) == Ok(slots)
    requires |batch| == |physical| && ColumnsConform(batch, physical, rows)
    requires ApplyAll(a, slots, batch, rows) == Ok(result) && i < rows
    ensures |RowsAt(result, i)| == |query| && |RowsAt(batch, i)| == |physical|
    ensures ReadResults(query, RowsAt(result, i)) == EvolveFields(a, query, ReadFields(recorded, physical, RowsAt(batch, i)))
  {
    AllProject(a, query, recorded, physical, slots, batch, rows, result, i);
  }

  // ----- The loops of the binder ---------------------------------------------------------------

  // The position is that of the only candidate.
  lemma PositionUnique(recorded: Field, physical: seq<PhysicalField>, i: nat)
    ensures Position(recorded, physical) == Ok(Some(i)) <==>
      && IdsParse(physical) && i < |physical| && Candidate(recorded, physical[i])
      && forall j :: 0 <= j < |physical| && Candidate(recorded, physical[j]) ==> j == i
    ensures Position(recorded, physical) == Ok(None) <==>
      IdsParse(physical) && forall j :: 0 <= j < |physical| ==> !Candidate(recorded, physical[j])
  {
    CandidatesBound(recorded, physical);
    CandidatesDistinct(recorded, physical);
    var found := Candidates(recorded, physical);
    if found != [] {
      assert found[0] in found;
      if |found| > 1 {
        assert found[1] in found;
      }
    }
    hide Candidates, Candidate, IdsParse;
  }

  lemma {:induction false} CandidatesDistinct(recorded: Field, physical: seq<PhysicalField>)
    ensures |Candidates(recorded, physical)| > 1 ==> Candidates(recorded, physical)[0] != Candidates(recorded, physical)[1]
  {
    if physical != [] {
      var last := |physical| - 1;
      CandidatesDistinct(recorded, physical[..last]);
      CandidatesBound(recorded, physical[..last]);
      var found := Candidates(recorded, physical[..last]);
      if |found| == 1 {
        assert found[0] in found;
      }
    }
  }

  // position
  method FindPosition(recorded: Field, physical: seq<PhysicalField>) returns (r: Result<Option<nat>>)
    ensures r == Position(recorded, physical)
  {
    var byId: Option<nat> := None;
    var byName: Option<nat> := None;
    assert physical[..|physical|] == physical;
    NoCandidates(recorded);
    hide Candidates;
    for i := 0 to |physical|
      invariant forall j :: 0 <= j < i ==> PhysicalId(physical[j]).Ok?
      invariant Seen(byId, byName) == |Candidates(recorded, physical[..i])|
      invariant byId.Some? ==> byId.value in Candidates(recorded, physical[..i])
      invariant byName.Some? ==> byName.value in Candidates(recorded, physical[..i])
    {
      var id := PhysicalId(physical[i]);
      if id.Err? {
        return Err(Invalid);
      }
      assert physical[..i + 1][..i] == physical[..i];
      CandidatesGrow(recorded, physical, i);
      if id.value == Some(recorded.id) {
        if byId.Some? {
          ManyCandidates(recorded, physical, i + 1);
          return Err(Invalid);
        }
        byId := Some(i);
      }
      if physical[i].name == recorded.name && id.value.None? {
        if byName.Some? {
          ManyCandidates(recorded, physical, i + 1);
          return Err(Invalid);
        }
        byName := Some(i);
      }
    }
    if byId.Some? && byName.Some? {
      return Err(Invalid);
    }
    var found := Candidates(recorded, physical);
    assert |found| == 1 ==> found == [found[0]];
    return Ok(if byId.Some? then byId else byName);
  }

  function Seen(byId: Option<nat>, byName: Option<nat>): nat {
    (if byId.Some? then 1 else 0) + if byName.Some? then 1 else 0
  }

  lemma NoCandidates(recorded: Field)
    ensures Candidates(recorded, []) == []
  {
  }

  lemma CandidatesGrow(recorded: Field, physical: seq<PhysicalField>, i: nat)
    requires i < |physical|
    ensures Candidates(recorded, physical[..i + 1])
         == Candidates(recorded, physical[..i]) + if Candidate(recorded, physical[i]) then [i] else []
  {
    assert physical[..i + 1][..i] == physical[..i];
  }

  lemma {:induction false} ManyCandidates(recorded: Field, physical: seq<PhysicalField>, k: nat)
    requires k <= |physical|
    ensures |Candidates(recorded, physical[..k])| <= |Candidates(recorded, physical)|
    decreases |physical| - k
  {
    if k < |physical| {
      CandidatesGrow(recorded, physical, k);
      ManyCandidates(recorded, physical, k + 1);
    } else {
      assert physical[..k] == physical;
    }
  }

  // The field IDs a file declares, nested ones included, in the order they are checked.
  function DeclaredIds(t: DataType): Result<seq<nat>>
    decreases t
  {
    match t
    case StructType(fields) => IdsOf(fields)
    case ListType(element) => IdOf(element)
    case LargeListType(element) => IdOf(element)
    case FixedListType(element, _) => IdOf(element)
    case MapType(entries) => IdOf(entries)
    case _ => Ok([])
  }

  function IdOf(f: PhysicalField): Result<seq<nat>>
    decreases f
  {
    var id := PhysicalId(f);
    var below := DeclaredIds(f.dataType);
    if id.Err? || below.Err? then Err(Invalid)
    else Ok((if id.value.Some? then [id.value.value] else []) + below.value)
  }

  function IdsOf(fields: seq<PhysicalField>): Result<seq<nat>>
    decreases fields
  {
    if fields == [] then Ok([])
    else
      var first := IdOf(fields[0]);
      var rest := IdsOf(fields[1..]);
      if first.Err? || rest.Err? then Err(Invalid) else Ok(first.value + rest.value)
  }

  function Collected(ids: seq<nat>): set<nat> {
    set id | id in ids
  }

  // No ID twice, and none seen before.
  ghost predicate Fresh(ids: seq<nat>, seen: set<nat>) {
    (forall i, j :: 0 <= i < j < |ids| ==> ids[i] != ids[j]) && forall id :: id in ids ==> id !in seen
  }

  lemma FreshSplit(first: seq<nat>, rest: seq<nat>, seen: set<nat>)
    ensures Fresh(first + rest, seen) <==> Fresh(first, seen) && Fresh(rest, seen + Collected(first))
    ensures Collected(first + rest) == Collected(first) + Collected(rest)
  {
    var all := first + rest;
    if Fresh(all, seen) {
      forall i, j | 0 <= i < j < |first|
        ensures first[i] != first[j]
      {
        assert all[i] != all[j];
      }
      forall i, j | 0 <= i < j < |rest|
        ensures rest[i] != rest[j]
      {
        assert all[|first| + i] != all[|first| + j];
      }
      forall id | id in rest
        ensures id !in seen + Collected(first)
      {
        assert id in all;
        if id in first {
          var i :| 0 <= i < |first| && first[i] == id;
          var j :| 0 <= j < |rest| && rest[j] == id;
          assert all[i] == all[|first| + j];
        }
      }
      forall id | id in first
        ensures id !in seen
      {
        assert id in all;
      }
    }
    if Fresh(first, seen) && Fresh(rest, seen + Collected(first)) {
      forall i, j | 0 <= i < j < |all|
        ensures all[i] != all[j]
      {
        if i < |first| && j >= |first| {
          assert all[j] in rest && all[i] in first;
        } else if i >= |first| {
          assert rest[i - |first|] != rest[j - |first|];
        }
      }
    }
  }

  // validate_ids: the IDs a file declares are distinct and none has been seen before;
  // then all have been seen.
  method ValidateIds(fields: seq<PhysicalField>, seen: set<nat>) returns (r: Result<set<nat>>)
    ensures r.Ok? <==> IdsOf(fields).Ok? && Fresh(IdsOf(fields).value, seen)
    ensures r.Ok? ==> r.value == seen + Collected(IdsOf(fields).value)
    decreases fields, 0
  {
    if fields == [] {
      return Ok(seen);
    }
    var first := ValidateId(fields[0], seen);
    if IdOf(fields[0]).Ok? && IdsOf(fields[1..]).Ok? {
      FreshSplit(IdOf(fields[0]).value, IdsOf(fields[1..]).value, seen);
    }
    hide Fresh, Collected;
    if first.Err? {
      return Err(Invalid);
    }
    r := ValidateIds(fields[1..], first.value);
  }

  method ValidateId(field: PhysicalField, seen: set<nat>) returns (r: Result<set<nat>>)
    ensures r.Ok? <==> IdOf(field).Ok? && Fresh(IdOf(field).value, seen)
    ensures r.Ok? ==> r.value == seen + Collected(IdOf(field).value)
    decreases field, 0
  {
    var id := PhysicalId(field);
    if id.Err? {
      return Err(Invalid);
    }
    var own := if id.value.Some? then [id.value.value] else [];
    var below := DeclaredIds(field.dataType);
    if below.Ok? {
      FreshSplit(own, below.value, seen);
    }
    if id.value.Some? && id.value.value in seen {
      assert id.value.value in own;
      return Err(Invalid);
    }
    var now := seen + Collected(own);
    match field.dataType {
      case StructType(fields) => r := ValidateIds(fields, now);
      case ListType(element) => r := ValidateId(element, now);
      case LargeListType(element) => r := ValidateId(element, now);
      case FixedListType(element, _) => r := ValidateId(element, now);
      case MapType(entries) => r := ValidateId(entries, now);
      case _ => r := Ok(now);
    }
  }
}
