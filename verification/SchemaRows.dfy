// Schemas as normalised rows, one for each field: what the writer inserts, and the check
// that accepts exactly that.
module SchemaRows {
  import opened Wrappers
  import opened SchemaAdapter

  // A field's row: where it hangs, its place there, and the field with all below it.
  datatype FieldRow = FieldRow(parent: Option<nat>, ordinal: nat, field: Field)

  // The rows of one schema by field ID.
  type Rows = map<nat, FieldRow>

  function Children(f: Field): (r: seq<Field>)
    ensures forall i :: 0 <= i < |r| ==> r[i] < f
  {
    match f.fieldType
    case Primitive(_) => []
    case Struct(fields) => fields
    case List(element) => [element]
    case Map(key, value) => [key, value]
  }

  function Size(f: Field): (n: nat)
    ensures n > 0
    decreases f
  {
    1 + match f.fieldType
        case Primitive(_) => 0
        case Struct(fields) => SizeAll(fields)
        case List(element) => Size(element)
        case Map(key, value) => Size(key) + Size(value)
  }

  function SizeAll(fields: seq<Field>): nat
    decreases fields
  {
    if fields == [] then 0 else Size(fields[0]) + SizeAll(fields[1..])
  }

  lemma ChildrenSmaller(f: Field)
    ensures SizeAll(Children(f)) + 1 == Size(f)
  {
    match f.fieldType
    case Primitive(_) =>
    case Struct(fields) =>
    case List(element) => assert [element][1..] == [];
    case Map(key, value) =>
      assert [key, value][1..] == [value] && [value][1..] == [];
      assert SizeAll([value]) == Size(value) + SizeAll([]);
      assert SizeAll([key, value]) == Size(key) + SizeAll([value]);
  }

  // The fields of a forest, each before those below it.
  function AllFields(fields: seq<Field>): seq<Field>
    decreases SizeAll(fields)
  {
    if fields == [] then []
    else
      ChildrenSmaller(fields[0]);
      [fields[0]] + AllFields(Children(fields[0])) + AllFields(fields[1..])
  }

  // Their rows, in the order in which they are inserted.
  function Spelled(parent: Option<nat>, fields: seq<Field>, at: nat): seq<FieldRow>
    decreases SizeAll(fields)
  {
    if fields == [] then []
    else
      ChildrenSmaller(fields[0]);
      [FieldRow(parent, at, fields[0])] + Spelled(Some(fields[0].id), Children(fields[0]), 0) + Spelled(parent, fields[1..], at + 1)
  }

  function Ids(fields: seq<Field>): seq<nat> {
    seq(|AllFields(fields)|, i requires 0 <= i < |AllFields(fields)| => AllFields(fields)[i].id)
  }

  // No two fields of the forest, at any depth, share an ID.
  predicate Distinct(fields: seq<Field>) {
    Apart(AllFields(fields))
  }

  // Rows carry the ID they are stored under.
  predicate Keyed(rows: Rows) {
    forall id :: id in rows ==> rows[id].field.id == id
  }

  // The rows under a parent are these fields, in this order and no other place.
  predicate Lists(rows: Rows, parent: Option<nat>, fields: seq<Field>) {
    && (forall id :: id in rows && rows[id].parent == parent ==>
          rows[id].ordinal < |fields| && rows[id].field == fields[rows[id].ordinal])
    && (forall i :: 0 <= i < |fields| ==> fields[i].id in rows && rows[fields[i].id] == FieldRow(parent, i, fields[i]))
  }

  // At every depth the rows agree with the types of the fields above them.
  predicate ChildrenMatch(rows: Rows, fields: seq<Field>)
    decreases SizeAll(fields)
  {
    fields == [] ||
      (ChildrenSmaller(fields[0]);
       && Lists(rows, Some(fields[0].id), Children(fields[0])) && ChildrenMatch(rows, Children(fields[0]))
       && ChildrenMatch(rows, fields[1..]))
  }

  // Every row belongs to a field of the forest.
  predicate AllReached(rows: Rows, fields: seq<Field>) {
    forall id :: id in rows ==> id in Ids(fields)
  }

  // The table that holds exactly these rows.
  ghost predicate Holds(rows: Rows, list: seq<FieldRow>) {
    && (forall i :: 0 <= i < |list| ==> list[i].field.id in rows && rows[list[i].field.id] == list[i])
    && (forall id :: id in rows ==> exists i :: 0 <= i < |list| && list[i].field.id == id)
  }

  // ----- The rows and the fields of a forest -------------------------------------------------

  lemma Head(parent: Option<nat>, fields: seq<Field>, at: nat)
    requires fields != []
    ensures Spelled(parent, fields, at) ==
            [FieldRow(parent, at, fields[0])] + Spelled(Some(fields[0].id), Children(fields[0]), 0) + Spelled(parent, fields[1..], at + 1)
    ensures AllFields(fields) == [fields[0]] + AllFields(Children(fields[0])) + AllFields(fields[1..])
    ensures SizeAll(Children(fields[0])) < SizeAll(fields) && SizeAll(fields[1..]) < SizeAll(fields)
  {
    ChildrenSmaller(fields[0]);
  }

  lemma {:induction false} SpelledFields(parent: Option<nat>, fields: seq<Field>, at: nat)
    ensures |Spelled(parent, fields, at)| == |AllFields(fields)|
    ensures forall i :: 0 <= i < |AllFields(fields)| ==> Spelled(parent, fields, at)[i].field == AllFields(fields)[i]
    decreases SizeAll(fields)
  {
    if fields != [] {
      ChildrenSmaller(fields[0]);
      SpelledFields(Some(fields[0].id), Children(fields[0]), 0);
      SpelledFields(parent, fields[1..], at + 1);
    }
  }

  // No two of these fields share an ID.
  predicate Apart(all: seq<Field>) {
    forall i, j :: 0 <= i < j < |all| ==> all[i].id != all[j].id
  }

  lemma ApartParts(a: seq<Field>, b: seq<Field>)
    requires Apart(a + b)
    ensures Apart(a) && Apart(b)
    ensures forall x, y :: x in a && y in b ==> x.id != y.id
  {
    var all := a + b;
    forall x, y | x in a && y in b
      ensures x.id != y.id
    {
      var i :| 0 <= i < |a| && a[i] == x;
      var j :| 0 <= j < |b| && b[j] == y;
      assert all[i].id != all[|a| + j].id;
    }
    forall i, j | 0 <= i < j < |a|
      ensures a[i].id != a[j].id
    {
      assert all[i].id != all[j].id;
    }
    forall i, j | 0 <= i < j < |b|
      ensures b[i].id != b[j].id
    {
      assert all[|a| + i].id != all[|a| + j].id;
    }
  }

  // An ID in parts of a forest with distinct IDs.
  lemma DistinctParts(fields: seq<Field>)
    requires Distinct(fields) && fields != []
    ensures Distinct(Children(fields[0])) && Distinct(fields[1..])
    ensures forall x, y :: x in AllFields(Children(fields[0])) && y in AllFields(fields[1..]) ==> x.id != y.id
    ensures forall x :: x in AllFields(Children(fields[0])) || x in AllFields(fields[1..]) ==> x.id != fields[0].id
  {
    var a, b := AllFields(Children(fields[0])), AllFields(fields[1..]);
    assert AllFields(fields) == [fields[0]] + a + b;
    hide AllFields;
    ApartParts([fields[0]] + a, b);
    ApartParts([fields[0]], a);
    hide *;
  }

  lemma Nothing(parent: Option<nat>, at: nat)
    ensures Spelled(parent, [], at) == [] && AllFields([]) == []
  {
  }

  // A row's parent is the forest's or one of its fields.
  lemma {:induction false} SpelledParents(parent: Option<nat>, fields: seq<Field>, at: nat, e: FieldRow)
    requires e in Spelled(parent, fields, at)
    ensures e.parent == parent || exists f :: f in AllFields(fields) && e.parent == Some(f.id)
    ensures e.field in AllFields(fields)
    decreases SizeAll(fields)
  {
    Head(parent, fields, at);
    hide Spelled, AllFields, Size, SizeAll, Children;
    var below := Spelled(Some(fields[0].id), Children(fields[0]), 0);
    assert fields[0] in AllFields(fields);
    if e == FieldRow(parent, at, fields[0]) {
    } else if e in below {
      SpelledParents(Some(fields[0].id), Children(fields[0]), 0, e);
    } else {
      SpelledParents(parent, fields[1..], at + 1, e);
    }
  }

  // The rows under the forest's own parent are its top fields in their places, when that
  // parent is none of its fields.
  lemma {:induction false} SpelledTop(parent: Option<nat>, fields: seq<Field>, at: nat, e: FieldRow)
    requires e in Spelled(parent, fields, at) && e.parent == parent
    requires forall f :: f in AllFields(fields) ==> parent != Some(f.id)
    ensures at <= e.ordinal < at + |fields| && e.field == fields[e.ordinal - at]
    decreases SizeAll(fields)
  {
    hide Spelled, AllFields, Size, SizeAll, Children;
    Nothing(parent, at);
    Head(parent, fields, at);
    var below, after := Spelled(Some(fields[0].id), Children(fields[0]), 0), Spelled(parent, fields[1..], at + 1);
    assert e == FieldRow(parent, at, fields[0]) || e in below || e in after;
    assert fields[0] in AllFields(fields);
    if e in below {
      SpelledParents(Some(fields[0].id), Children(fields[0]), 0, e);
    } else if e in after {
      assert forall f :: f in AllFields(fields[1..]) ==> f in AllFields(fields);
      SpelledTop(parent, fields[1..], at + 1, e);
    }
  }

  lemma {:induction false} SpelledHasTop(parent: Option<nat>, fields: seq<Field>, at: nat, i: nat)
    requires i < |fields|
    ensures FieldRow(parent, at + i, fields[i]) in Spelled(parent, fields, at)
    decreases SizeAll(fields)
  {
    if i > 0 {
      SpelledHasTop(parent, fields[1..], at + 1, i - 1);
    }
  }

  // The rows under a field of the forest are its children in their places.
  lemma {:induction false} SpelledUnder(parent: Option<nat>, fields: seq<Field>, at: nat, f: Field, e: FieldRow)
    requires Distinct(fields) && f in AllFields(fields) && parent != Some(f.id)
    requires e in Spelled(parent, fields, at) && e.parent == Some(f.id)
    ensures e.ordinal < |Children(f)| && e.field == Children(f)[e.ordinal]
    decreases SizeAll(fields)
  {
    DistinctParts(fields);
    Head(parent, fields, at);
    hide Spelled, AllFields, Size, SizeAll, Children, Distinct;
    var kids := Children(fields[0]);
    if e in Spelled(Some(fields[0].id), kids, 0) {
      SpelledParents(Some(fields[0].id), kids, 0, e);
      if f == fields[0] {
        SpelledTop(Some(f.id), kids, 0, e);
      } else {
        SpelledUnder(Some(fields[0].id), kids, 0, f, e);
      }
    } else {
      SpelledParents(parent, fields[1..], at + 1, e);
      SpelledUnder(parent, fields[1..], at + 1, f, e);
    }
  }

  lemma {:induction false} SpelledHasUnder(parent: Option<nat>, fields: seq<Field>, at: nat, f: Field, i: nat)
    requires f in AllFields(fields) && i < |Children(f)|
    ensures FieldRow(Some(f.id), i, Children(f)[i]) in Spelled(parent, fields, at)
    decreases SizeAll(fields)
  {
    Head(parent, fields, at);
    hide Spelled, AllFields, Size, SizeAll, Children;
    var kids := Children(fields[0]);
    if f == fields[0] {
      SpelledHasTop(Some(f.id), kids, 0, i);
    } else if f in AllFields(kids) {
      SpelledHasUnder(Some(fields[0].id), kids, 0, f, i);
    } else {
      SpelledHasUnder(parent, fields[1..], at + 1, f, i);
    }
  }

  // ----- What the check accepts ---------------------------------------------------------------

  lemma ListsFit(rows: Rows, parent: Option<nat>, a: seq<Field>, b: seq<Field>)
    requires Lists(rows, parent, a) && Lists(rows, parent, b)
    ensures |a| <= |b|
    ensures forall i :: 0 <= i < |a| && i < |b| ==> a[i] == b[i]
  {
    forall i: nat | i < |a|
      ensures i < |b| && a[i] == b[i]
    {
      assert rows[a[i].id] == FieldRow(parent, i, a[i]);
    }
    if |a| > 0 {
      var k := |a| - 1;
      assert rows[a[k].id] == FieldRow(parent, k, a[k]);
    }
  }

  // Only one list of fields is listed under a parent.
  lemma ListsOne(rows: Rows, parent: Option<nat>, a: seq<Field>, b: seq<Field>)
    requires Lists(rows, parent, a) && Lists(rows, parent, b)
    ensures a == b
  {
    ListsFit(rows, parent, a, b);
    ListsFit(rows, parent, b, a);
  }

  // Rows that agree with the types, from the top down, hold every row spelled.
  lemma {:induction false} MatchingHold(rows: Rows, parent: Option<nat>, fields: seq<Field>, at: nat, e: FieldRow)
    requires ChildrenMatch(rows, fields) && e in Spelled(parent, fields, at)
    requires forall i :: 0 <= i < |fields| ==> fields[i].id in rows && rows[fields[i].id] == FieldRow(parent, at + i, fields[i])
    ensures e.field.id in rows && rows[e.field.id] == e
    decreases SizeAll(fields)
  {
    ChildrenSmaller(fields[0]);
    if e == FieldRow(parent, at, fields[0]) {
      assert rows[fields[0].id] == FieldRow(parent, at + 0, fields[0]);
    } else if e in Spelled(Some(fields[0].id), Children(fields[0]), 0) {
      MatchingHold(rows, Some(fields[0].id), Children(fields[0]), 0, e);
    } else {
      var rest := fields[1..];
      forall i | 0 <= i < |rest|
        ensures rest[i].id in rows && rows[rest[i].id] == FieldRow(parent, at + 1 + i, rest[i])
      {
        assert rest[i] == fields[i + 1];
        assert rows[fields[i + 1].id] == FieldRow(parent, at + (i + 1), fields[i + 1]);
      }
      MatchingHold(rows, parent, rest, at + 1, e);
    }
  }

  lemma {:induction false} AllListed(rows: Rows, fields: seq<Field>)
    requires forall f :: f in AllFields(fields) ==> Lists(rows, Some(f.id), Children(f))
    ensures ChildrenMatch(rows, fields)
    decreases SizeAll(fields)
  {
    if fields != [] {
      ChildrenSmaller(fields[0]);
      var a, b := AllFields(Children(fields[0])), AllFields(fields[1..]);
      assert AllFields(fields) == [fields[0]] + a + b;
      assert fields[0] in AllFields(fields);
      assert forall f :: f in a || f in b ==> f in AllFields(fields);
      assert Lists(rows, Some(fields[0].id), Children(fields[0]));
      hide Lists;
      AllListed(rows, Children(fields[0]));
      AllListed(rows, fields[1..]);
    }
  }

  lemma FieldsListed(rows: Rows, roots: seq<Field>, f: Field)
    requires Distinct(roots) && Holds(rows, Spelled(None, roots, 0)) && Keyed(rows) && f in AllFields(roots)
    ensures Lists(rows, Some(f.id), Children(f))
  {
    var list := Spelled(None, roots, 0);
    forall id | id in rows && rows[id].parent == Some(f.id)
      ensures rows[id].ordinal < |Children(f)| && rows[id].field == Children(f)[rows[id].ordinal]
    {
      var i :| 0 <= i < |list| && list[i].field.id == id;
      SpelledUnder(None, roots, 0, f, list[i]);
    }
    forall i | 0 <= i < |Children(f)|
      ensures Children(f)[i].id in rows && rows[Children(f)[i].id] == FieldRow(Some(f.id), i, Children(f)[i])
    {
      SpelledHasUnder(None, roots, 0, f, i);
    }
  }

  lemma RootsListed(rows: Rows, roots: seq<Field>)
    requires Holds(rows, Spelled(None, roots, 0)) && Keyed(rows)
    ensures Lists(rows, None, roots)
  {
    var list := Spelled(None, roots, 0);
    hide Spelled;
    forall id | id in rows && rows[id].parent == None
      ensures rows[id].ordinal < |roots| && rows[id].field == roots[rows[id].ordinal]
    {
      var i :| 0 <= i < |list| && list[i].field.id == id;
      SpelledTop(None, roots, 0, list[i]);
    }
    forall i | 0 <= i < |roots|
      ensures roots[i].id in rows && rows[roots[i].id] == FieldRow(None, i, roots[i])
    {
      SpelledHasTop(None, roots, 0, i);
      assert FieldRow(None, 0 + i, roots[i]) in list;
    }
  }

  lemma ReachedHeld(rows: Rows, roots: seq<Field>)
    ensures AllReached(rows, roots) <==>
            forall id :: id in rows ==> exists i :: 0 <= i < |Spelled(None, roots, 0)| && Spelled(None, roots, 0)[i].field.id == id
  {
    var list, all := Spelled(None, roots, 0), AllFields(roots);
    SpelledFields(None, roots, 0);
    assert |Ids(roots)| == |list| && forall i :: 0 <= i < |list| ==> Ids(roots)[i] == list[i].field.id;
    hide Spelled, AllFields, Ids;
  }

  // Rows pass the contiguity, type and reachability checks exactly when they are the rows
  // of the schema their roots describe: none missing, misplaced, reordered or left over.
  lemma RowsExactly(rows: Rows, roots: seq<Field>)
    requires Keyed(rows) && Distinct(roots)
    ensures Lists(rows, None, roots) && ChildrenMatch(rows, roots) && AllReached(rows, roots) <==> Holds(rows, Spelled(None, roots, 0))
  {
    var list := Spelled(None, roots, 0);
    ReachedHeld(rows, roots);
    if Lists(rows, None, roots) && ChildrenMatch(rows, roots) && AllReached(rows, roots) {
      forall i | 0 <= i < |list|
        ensures list[i].field.id in rows && rows[list[i].field.id] == list[i]
      {
        MatchingHold(rows, None, roots, 0, list[i]);
      }
    }
    if Holds(rows, list) {
      RootsListed(rows, roots);
      forall f | f in AllFields(roots)
        ensures Lists(rows, Some(f.id), Children(f))
      {
        FieldsListed(rows, roots, f);
      }
      AllListed(rows, roots);
    }
    hide *;
  }

  // ----- Writing ------------------------------------------------------------------------------

  function Written(rows: Rows, list: seq<FieldRow>): Rows
    decreases |list|
  {
    if list == [] then rows else Written(rows[list[0].field.id := list[0]], list[1..])
  }

  lemma {:induction false} WrittenParts(rows: Rows, a: seq<FieldRow>, b: seq<FieldRow>)
    ensures Written(rows, a + b) == Written(Written(rows, a), b)
    decreases |a|
  {
    if a == [] {
      assert a + b == b;
    } else {
      assert (a + b)[1..] == a[1..] + b;
      WrittenParts(rows[a[0].field.id := a[0]], a[1..], b);
    }
  }

  // With distinct IDs no row overwrites another.
  lemma {:induction false} WrittenHolds(rows: Rows, list: seq<FieldRow>)
    requires forall i, j :: 0 <= i < j < |list| ==> list[i].field.id != list[j].field.id
    ensures forall i :: 0 <= i < |list| ==> list[i].field.id in Written(rows, list) && Written(rows, list)[list[i].field.id] == list[i]
    ensures forall id :: id in Written(rows, list) ==> id in rows || exists i :: 0 <= i < |list| && list[i].field.id == id
    ensures forall id :: id in rows && (forall i :: 0 <= i < |list| ==> list[i].field.id != id) ==> id in Written(rows, list) && Written(rows, list)[id] == rows[id]
    decreases |list|
  {
    if list != [] {
      var now, rest := rows[list[0].field.id := list[0]], list[1..];
      WrittenHolds(now, rest);
      forall i | 0 <= i < |list|
        ensures list[i].field.id in Written(rows, list) && Written(rows, list)[list[i].field.id] == list[i]
      {
        if i > 0 {
          assert rest[i - 1] == list[i];
        }
      }
      forall id | id in Written(rows, list) && id !in rows
        ensures exists i :: 0 <= i < |list| && list[i].field.id == id
      {
        if id in now {
          assert list[0].field.id == id;
        } else {
          var i :| 0 <= i < |rest| && rest[i].field.id == id;
          assert list[i + 1].field.id == id;
        }
      }
    }
  }

  // The fields of two lists in turn.
  lemma {:induction false} AllFieldsJoin(a: seq<Field>, b: seq<Field>)
    ensures AllFields(a + b) == AllFields(a) + AllFields(b)
    decreases |a|
  {
    Nothing(None, 0);
    hide *;
    if a == [] {
      assert a + b == b;
    } else {
      TailOf(a, b);
      Head(None, a + b, 0);
      Head(None, a, 0);
      AllFieldsJoin(a[1..], b);
      Regroup([a[0]] + AllFields(Children(a[0])), AllFields(a[1..]), AllFields(b));
    }
  }

  lemma TailOf<T>(a: seq<T>, b: seq<T>)
    requires a != []
    ensures (a + b)[1..] == a[1..] + b && (a + b)[0] == a[0] && a + b != []
  {
  }

  lemma Regroup<T>(x: seq<T>, a: seq<T>, b: seq<T>)
    ensures x + (a + b) == x + a + b
  {
  }

  lemma IdsJoin(a: seq<Field>, b: seq<Field>)
    ensures Ids(a + b) == Ids(a) + Ids(b)
  {
    AllFieldsJoin(a, b);
    hide AllFields;
  }

  lemma FieldIds(f: Field)
    ensures Ids([f]) == [f.id] + Ids(Children(f))
  {
    assert [f][1..] == [] && AllFields([]) == [];
    ChildrenSmaller(f);
    assert AllFields([f]) == [f] + AllFields(Children(f)) + AllFields([]);
    assert AllFields([f]) == [f] + AllFields(Children(f));
    hide AllFields;
  }

  lemma DistinctIds(fields: seq<Field>)
    ensures Distinct(fields) <==> Fresh(Ids(fields), {})
  {
    var all := AllFields(fields);
    assert |Ids(fields)| == |all| && forall i :: 0 <= i < |all| ==> Ids(fields)[i] == all[i].id;
    hide AllFields, Ids;
    if Distinct(fields) {
      forall i, j | 0 <= i < j < |all|
        ensures Ids(fields)[i] != Ids(fields)[j]
      {
        assert all[i].id != all[j].id;
      }
    }
    if Fresh(Ids(fields), {}) {
      forall i, j | 0 <= i < j < |all|
        ensures all[i].id != all[j].id
      {
        assert Ids(fields)[i] != Ids(fields)[j];
      }
    }
  }

  // The table of one schema's field rows, keyed by field ID.
  class FieldTable {
    var rows: Rows

    // insert_fields: each field's row and then the rows below it; a row whose ID is taken
    // fails the insertion.
    method InsertFields(parent: Option<nat>, fields: seq<Field>) returns (ok: bool)
      modifies this
      ensures ok <==> Fresh(Ids(fields), old(rows.Keys))
      ensures ok ==> rows == Written(old(rows), Spelled(parent, fields, 0)) && rows.Keys == old(rows.Keys) + Collected(Ids(fields))
      decreases SizeAll(fields)
    {
      WrittenEnds(rows, parent, fields);
      FrontEnds(fields, false, rows.Keys, {});
      hide Fresh, Collected, Spelled, Ids, AllFields, Written, SizeAll, Size, Children, Eligible;
      hide FrontFresh, FrontIds, FrontEligible, FrontWritten;
      for i := 0 to |fields|
        invariant FrontFresh(fields, i, old(rows.Keys)) && rows.Keys == FrontIds(fields, i, old(rows.Keys))
        invariant rows == FrontWritten(old(rows), parent, fields, i)
      {
        var f, row := fields[i], FieldRow(parent, i, fields[i]);
        FrontGrows(fields, i, false, old(rows.Keys), {});
        FieldParts(f, false, rows.Keys);
        WrittenFront(old(rows), parent, fields, i);
        if f.id in rows {
          return false;
        }
        ghost var seen := rows.Keys;
        rows := rows[f.id := row];
        assert rows.Keys == seen + {f.id};
        ok := InsertFields(Some(f.id), Children(f));
        if !ok {
          return false;
        }
      }
      ok := true;
    }
  }

  // The table after the first of these fields.
  ghost function FrontWritten(was: Rows, parent: Option<nat>, fields: seq<Field>, n: nat): Rows
    requires n <= |fields|
  {
    Written(was, Spelled(parent, fields[..n], 0))
  }

  lemma WrittenEnds(was: Rows, parent: Option<nat>, fields: seq<Field>)
    ensures FrontWritten(was, parent, fields, 0) == was
    ensures FrontWritten(was, parent, fields, |fields|) == Written(was, Spelled(parent, fields, 0))
  {
    assert fields[..0] == [] && Spelled(parent, [], 0) == [] && Written(was, []) == was;
    assert fields[..|fields|] == fields;
    hide Written, Spelled;
  }

  lemma {:induction false} SpelledJoin(parent: Option<nat>, a: seq<Field>, b: seq<Field>, at: nat)
    ensures Spelled(parent, a + b, at) == Spelled(parent, a, at) + Spelled(parent, b, at + |a|)
    decreases |a|
  {
    Nothing(parent, at);
    hide *;
    if a == [] {
      assert a + b == b;
    } else {
      TailOf(a, b);
      Head(parent, a + b, at);
      Head(parent, a, at);
      SpelledJoin(parent, a[1..], b, at + 1);
      var row, below := FieldRow(parent, at, a[0]), Spelled(Some(a[0].id), Children(a[0]), 0);
      Regroup([row] + below, Spelled(parent, a[1..], at + 1), Spelled(parent, b, at + 1 + |a[1..]|));
    }
  }

  // A field's row and the rows below it follow those of the fields before it.
  lemma WrittenFront(was: Rows, parent: Option<nat>, fields: seq<Field>, i: nat)
    requires i < |fields|
    ensures FrontWritten(was, parent, fields, i + 1) ==
            Written(FrontWritten(was, parent, fields, i)[fields[i].id := FieldRow(parent, i, fields[i])],
                    Spelled(Some(fields[i].id), Children(fields[i]), 0))
  {
    var front, f, row := Spelled(parent, fields[..i], 0), fields[i], FieldRow(parent, i, fields[i]);
    var below := Spelled(Some(f.id), Children(f), 0);
    assert fields[..i + 1] == fields[..i] + [f];
    SpelledJoin(parent, fields[..i], [f], 0);
    assert [f][1..] == [] && Spelled(parent, [], i + 1) == [];
    Head(parent, [f], i);
    assert [row] + below + [] == [row] + below;
    WrittenParts(was, front, [row] + below);
    WrittenParts(Written(was, front), [row], below);
    WrittenOne(Written(was, front), row);
    assert FrontWritten(was, parent, fields, i) == Written(was, front);
    assert FrontWritten(was, parent, fields, i + 1) == Written(was, Spelled(parent, fields[..i + 1], 0));
    hide *;
  }

  lemma WrittenOne(rows: Rows, row: FieldRow)
    ensures Written(rows, [row]) == rows[row.field.id := row]
  {
    assert [row][1..] == [];
    assert Written(rows[row.field.id := row], []) == rows[row.field.id := row];
  }

  // What is inserted into an empty table is held there.
  lemma InsertedHeld(fields: seq<Field>)
    requires Distinct(fields)
    ensures Holds(Written(map[], Spelled(None, fields, 0)), Spelled(None, fields, 0))
    ensures Keyed(Written(map[], Spelled(None, fields, 0)))
  {
    var list := Spelled(None, fields, 0);
    SpelledFields(None, fields, 0);
    forall i, j | 0 <= i < j < |list|
      ensures list[i].field.id != list[j].field.id
    {
      assert AllFields(fields)[i].id != AllFields(fields)[j].id;
    }
    hide Spelled, AllFields;
    WrittenHolds(map[], list);
  }

  // ----- Checking -----------------------------------------------------------------------------

  lemma {:induction false} FullRange(s: set<nat>, n: nat)
    requires forall i: nat :: i < n ==> i in s
    ensures |s| >= n
    ensures |s| == n <==> forall i :: i in s ==> i < n
    decreases n
  {
    if n == 0 {
      if s != {} {
        var i :| i in s;
      }
    } else {
      var rest := s - {n - 1};
      FullRange(rest, n - 1);
      assert |s| == |rest| + 1;
      assert (forall i :: i in rest ==> i < n - 1) <==> (forall i :: i in s ==> i < n) by {
        forall i | i in rest && (forall k :: k in s ==> k < n)
          ensures i < n - 1
        {
          assert i in s && i != n - 1;
        }
        forall i | i in s && (forall k :: k in rest ==> k < n - 1)
          ensures i < n
        {
          assert i in rest || i == n - 1;
        }
      }
    }
  }

  // The rows under a parent by their ordinals; an error when two share one.
  method Placed(rows: Rows, parent: Option<nat>) returns (r: Result<map<nat, Field>>)
    requires Keyed(rows)
    ensures r.Ok? ==> Places(rows, parent, r.value)
    ensures r.Err? ==> forall fields :: !Lists(rows, parent, fields)
  {
    var placed: map<nat, Field> := map[];
    var left := rows.Keys;
    while left != {}
      invariant left <= rows.Keys
      invariant forall at :: at in placed ==> placed[at].id in rows && placed[at].id !in left && rows[placed[at].id] == FieldRow(parent, at, placed[at])
      invariant forall id :: id in rows && id !in left && rows[id].parent == parent ==> rows[id].ordinal in placed && placed[rows[id].ordinal] == rows[id].field
      decreases left
    {
      var id :| id in left;
      left := left - {id};
      if rows[id].parent == parent {
        if rows[id].ordinal in placed {
          forall fields: seq<Field>
            ensures !Lists(rows, parent, fields)
          {
            NotTwice(rows, parent, fields, id, placed[rows[id].ordinal].id);
          }
          return Err(Corrupt);
        }
        placed := placed[rows[id].ordinal := rows[id].field];
      }
    }
    r := Ok(placed);
  }

  predicate Places(rows: Rows, parent: Option<nat>, placed: map<nat, Field>) {
    && (forall at :: at in placed ==> placed[at].id in rows && rows[placed[at].id] == FieldRow(parent, at, placed[at]))
    && (forall id :: id in rows && rows[id].parent == parent ==> rows[id].ordinal in placed && placed[rows[id].ordinal] == rows[id].field)
  }

  // The fields of the rows under a parent, sorted by ordinal; an error when the ordinals
  // are not each of 0, 1, ... once.
  method Siblings(rows: Rows, parent: Option<nat>) returns (r: Result<seq<Field>>)
    requires Keyed(rows)
    ensures r.Ok? ==> Lists(rows, parent, r.value)
    ensures forall fields :: Lists(rows, parent, fields) ==> r == Ok(fields)
  {
    var all := Placed(rows, parent);
    if all.Err? {
      return Err(Corrupt);
    }
    var placed := all.value;
    var fields: seq<Field> := [];
    while |fields| in placed
      invariant forall i :: 0 <= i < |fields| ==> i in placed && placed[i] == fields[i]
      decreases |placed| - |fields|
    {
      FullRange(placed.Keys, |fields|);
      fields := fields + [placed[|fields|]];
      FullRange(placed.Keys, |fields|);
    }
    FullRange(placed.Keys, |fields|);
    forall other: seq<Field> | Lists(rows, parent, other)
      ensures |placed| == |fields|
    {
      NoGap(rows, parent, placed, |fields|, other);
    }
    if |fields| != |placed| {
      return Err(Corrupt);
    }
    PlacesList(rows, parent, placed, fields);
    forall other: seq<Field> | Lists(rows, parent, other)
      ensures other == fields
    {
      ListsOne(rows, parent, fields, other);
    }
    r := Ok(fields);
  }

  lemma PlacesList(rows: Rows, parent: Option<nat>, placed: map<nat, Field>, fields: seq<Field>)
    requires Places(rows, parent, placed) && |placed| == |fields|
    requires forall i :: 0 <= i < |fields| ==> i in placed && placed[i] == fields[i]
    ensures Lists(rows, parent, fields)
  {
    FullRange(placed.Keys, |fields|);
  }

  // Rows in their places leave no gap.
  lemma NoGap(rows: Rows, parent: Option<nat>, placed: map<nat, Field>, n: nat, fields: seq<Field>)
    requires Lists(rows, parent, fields)
    requires Places(rows, parent, placed)
    requires (forall i: nat :: i < n ==> i in placed) && n !in placed
    ensures |placed| == n
  {
    FullRange(placed.Keys, n);
    forall i: nat | i < |fields|
      ensures i in placed && i != n
    {
      assert rows[fields[i].id] == FieldRow(parent, i, fields[i]);
    }
    assert |fields| <= n;
    forall at | at in placed
      ensures at < n
    {
      assert rows[placed[at].id].ordinal < |fields|;
    }
  }

  lemma NotTwice(rows: Rows, parent: Option<nat>, fields: seq<Field>, a: nat, b: nat)
    requires Keyed(rows) && a in rows && b in rows && a != b && rows[a].parent == parent && rows[b].parent == parent
    requires rows[a].ordinal == rows[b].ordinal
    ensures !Lists(rows, parent, fields)
  {}

  // validate_normalized_children for a list of fields.
  method ValidateChildren(rows: Rows, fields: seq<Field>) returns (ok: bool)
    requires Keyed(rows)
    ensures ok <==> ChildrenMatch(rows, fields)
    decreases SizeAll(fields)
  {
    MatchEnds(rows, fields);
    hide ChildrenMatch, Lists, Size, SizeAll, Keyed, RestMatch, Children;
    var i := 0;
    while i < |fields|
      invariant 0 <= i <= |fields|
      invariant ChildrenMatch(rows, fields) <==> RestMatch(rows, fields, i)
    {
      var f := fields[i];
      MatchStep(rows, fields, i);
      var actual := Siblings(rows, Some(f.id));
      assert Lists(rows, Some(f.id), Children(f)) <==> actual == Ok(Children(f));
      if actual.Err? || actual.value != Children(f) {
        return false;
      }
      ok := ValidateChildren(rows, Children(f));
      if !ok {
        return false;
      }
      i := i + 1;
    }
    ok := true;
  }

  predicate RestMatch(rows: Rows, fields: seq<Field>, i: nat)
    requires i <= |fields|
  {
    ChildrenMatch(rows, fields[i..])
  }

  lemma MatchEnds(rows: Rows, fields: seq<Field>)
    ensures RestMatch(rows, fields, 0) <==> ChildrenMatch(rows, fields)
    ensures RestMatch(rows, fields, |fields|)
  {
    assert ChildrenMatch(rows, []);
    assert fields[0..] == fields && fields[|fields|..] == [];
    hide ChildrenMatch;
  }

  lemma MatchStep(rows: Rows, fields: seq<Field>, i: nat)
    requires i < |fields|
    ensures SizeAll(Children(fields[i])) < SizeAll(fields)
    ensures RestMatch(rows, fields, i) <==>
            Lists(rows, Some(fields[i].id), Children(fields[i])) && ChildrenMatch(rows, Children(fields[i])) && RestMatch(rows, fields, i + 1)
  {
    var rest := fields[i..];
    assert rest[1..] == fields[i + 1..];
    assert ChildrenMatch(rows, rest) <==>
           Lists(rows, Some(rest[0].id), Children(rest[0])) && ChildrenMatch(rows, Children(rest[0])) && ChildrenMatch(rows, rest[1..]);
    ChildrenSmaller(fields[i]);
    SizeAtMost(fields, i);
    hide ChildrenMatch, Lists;
  }

  lemma {:induction false} SizeAtMost(fields: seq<Field>, i: nat)
    requires i < |fields|
    ensures Size(fields[i]) <= SizeAll(fields)
    decreases i
  {
    if i > 0 {
      SizeAtMost(fields[1..], i - 1);
    }
  }

  // ----- Schemas --------------------------------------------------------------------------------

  // A field of a valid schema at a depth. `admits` is the check of its own parameters and
  // defaults.
  predicate FieldOk(admits: Field -> bool, f: Field, depth: nat)
    decreases f
  {
    f.id > 0 && f.name != "" && admits(f) && BelowOk(admits, f.fieldType, depth)
  }

  predicate BelowOk(admits: Field -> bool, t: LogicalType, depth: nat)
    decreases t
  {
    match t
    case Primitive(_) => true
    case Struct(fields) => SiblingsOk(admits, fields, depth + 1)
    case List(element) => depth + 1 <= 64 && FieldOk(admits, element, depth + 1)
    case Map(key, value) =>
      && key.required && key.fieldType.Primitive? && depth + 1 <= 64
      && FieldOk(admits, key, depth + 1) && FieldOk(admits, value, depth + 1)
  }

  predicate NamesApart(fields: seq<Field>) {
    forall i, j :: 0 <= i < j < |fields| ==> fields[i].name != fields[j].name
  }

  predicate SiblingsOk(admits: Field -> bool, fields: seq<Field>, depth: nat)
    decreases fields
  {
    depth <= 64 && NamesApart(fields) && forall i :: 0 <= i < |fields| ==> FieldOk(admits, fields[i], depth)
  }

  // A required primitive other than a float can identify a row.
  predicate Identifies(f: Field) {
    f.required && f.fieldType.Primitive? && !f.fieldType.arrow.Float32? && !f.fieldType.arrow.Float64?
  }

  // The IDs of the fields that can, none of them under an optional field.
  function Eligible(fields: seq<Field>, optional: bool): set<nat>
    decreases SizeAll(fields)
  {
    if fields == [] then {}
    else
      ChildrenSmaller(fields[0]);
      (if !optional && Identifies(fields[0]) then {fields[0].id} else {})
      + Eligible(Children(fields[0]), optional || !fields[0].required) + Eligible(fields[1..], optional)
  }

  // A valid schema.
  ghost predicate SchemaOk(admits: Field -> bool, id: nat, fields: seq<Field>, identifiers: seq<nat>) {
    && id > 0 && SiblingsOk(admits, fields, 1) && Distinct(fields)
    && Fresh(identifiers, {}) && forall k :: k in identifiers ==> k in Eligible(fields, false)
  }

  lemma {:induction false} EligibleJoin(a: seq<Field>, b: seq<Field>, optional: bool)
    ensures Eligible(a + b, optional) == Eligible(a, optional) + Eligible(b, optional)
    decreases |a|
  {
    if a == [] {
      assert a + b == b;
    } else {
      assert (a + b)[1..] == a[1..] + b;
      EligibleJoin(a[1..], b, optional);
    }
  }

  lemma EligibleOne(f: Field, optional: bool)
    ensures Eligible([f], optional) ==
            (if !optional && Identifies(f) then {f.id} else {}) + Eligible(Children(f), optional || !f.required)
  {
    assert [f][1..] == [] && Eligible([], optional) == {};
  }

  // What Schema::validate has seen: field IDs, and fields with whether an optional one is above.
  class SchemaCheck {
    const admits: Field -> bool
    var ids: set<nat>
    var paths: map<nat, (Field, bool)>

    constructor (admits: Field -> bool)
      ensures this.admits == admits && ids == {} && paths == map[]
    {
      this.admits := admits;
      ids, paths := {}, map[];
    }

    ghost predicate Valid() reads this { paths.Keys <= ids }

    function Named(): set<nat> reads this {
      set id | id in paths && var (f, optional) := paths[id];
               !optional && f.required && f.fieldType.Primitive? && f.fieldType.arrow !in {Float32, Float64}
    }

    // A field's own checks.
    method Enter(f: Field, optional: bool) returns (ok: bool)
      requires Valid()
      modifies this
      ensures Valid()
      ensures ok <==> f.id > 0 && f.id !in old(ids) && f.name != "" && admits(f)
      ensures ok ==> ids == old(ids) + {f.id} && Named() == old(Named()) + if !optional && Identifies(f) then {f.id} else {}
    {
      if f.id == 0 || f.id in ids {
        return false;
      }
      ids := ids + {f.id};
      if f.name == "" || !admits(f) {
        return false;
      }
      paths := paths[f.id := (f, optional)];
      ok := true;
    }

    // One field of a list of siblings, and all below it.
    method ValidateField(f: Field, depth: nat, optional: bool) returns (ok: bool)
      requires Valid() && depth <= 64
      modifies this
      ensures Valid()
      ensures ok <==> FieldOk(admits, f, depth) && Fresh(Ids([f]), old(ids))
      ensures ok ==> ids == old(ids) + Collected(Ids([f])) && Named() == old(Named()) + Eligible([f], optional)
      decreases Size(f), 2
    {
      FieldParts(f, optional, ids);
      hide Fresh, Collected, Eligible, Ids, Named, BelowOk, SizeAll;
      ok := Enter(f, optional);
      if !ok {
        return false;
      }
      ok := ValidateBelow(f, depth, optional || !f.required);
    }

    method ValidateBelow(f: Field, depth: nat, optional: bool) returns (ok: bool)
      requires Valid() && depth <= 64
      modifies this
      ensures Valid()
      ensures ok <==> BelowOk(admits, f.fieldType, depth) && Fresh(Ids(Children(f)), old(ids))
      ensures ok ==> ids == old(ids) + Collected(Ids(Children(f))) && Named() == old(Named()) + Eligible(Children(f), optional)
      decreases Size(f), 1
    {
      ChildrenSmaller(f);
      NothingBelow(ids, optional);
      hide Fresh, Collected, Eligible, Ids, Named;
      match f.fieldType {
        case Primitive(_) =>
          ok := true;
        case Struct(fields) =>
          ok := ValidateSiblings(fields, depth + 1, optional);
        case List(element) =>
          ok := ValidateSiblings([element], depth + 1, optional);
        case Map(key, value) =>
          PairParts(key, value, optional, ids);
          if !key.required || !key.fieldType.Primitive? {
            return false;
          }
          hide SiblingsOk;
          assert SiblingsOk(admits, [key], depth + 1) <==> depth + 1 <= 64 && FieldOk(admits, key, depth + 1) by {
            OneSibling(admits, key, depth + 1);
          }
          assert SiblingsOk(admits, [value], depth + 1) <==> depth + 1 <= 64 && FieldOk(admits, value, depth + 1) by {
            OneSibling(admits, value, depth + 1);
          }
          ok := ValidateSiblings([key], depth + 1, optional);
          if !ok {
            return false;
          }
          ok := ValidateSiblings([value], depth + 1, optional);
      }
    }

    // validate_siblings.
    method ValidateSiblings(fields: seq<Field>, depth: nat, optional: bool) returns (ok: bool)
      requires Valid()
      modifies this
      ensures Valid()
      ensures ok <==> SiblingsOk(admits, fields, depth) && Fresh(Ids(fields), old(ids))
      ensures ok ==> ids == old(ids) + Collected(Ids(fields)) && Named() == old(Named()) + Eligible(fields, optional)
      decreases SizeAll(fields), 3
    {
      if depth > 64 {
        return false;
      }
      var names := {};
      var i := 0;
      assert Names(fields, 0) == {};
      FrontOkEnds(admits, fields, depth);
      FrontEnds(fields, optional, ids, Named());
      hide Ids, Eligible, Collected, Named, Fresh, FieldOk, NamesApart, SizeAll, FrontOk, SiblingsOk, Names;
      hide FrontFresh, FrontIds, FrontEligible, Valid, Size;
      while i < |fields|
        invariant 0 <= i <= |fields| && Valid()
        invariant names == Names(fields, i)
        invariant FrontOk(admits, fields, i, depth) && FrontFresh(fields, i, old(ids))
        invariant ids == FrontIds(fields, i, old(ids))
        invariant Named() == FrontEligible(fields, i, optional, old(Named()))
      {
        FrontGrows(fields, i, optional, old(ids), old(Named()));
        FrontOkGrows(admits, fields, i, depth);
        if fields[i].name in names {
          return false;
        }
        ok := ValidateField(fields[i], depth, optional);
        if !ok {
          return false;
        }
        names := names + {fields[i].name};
        i := i + 1;
      }
      ok := true;
    }
  }

  // The first of these siblings are valid.
  predicate FrontOk(admits: Field -> bool, fields: seq<Field>, n: nat, depth: nat)
    requires n <= |fields|
  {
    NamesApart(fields[..n]) && forall k :: 0 <= k < n ==> FieldOk(admits, fields[k], depth)
  }

  function Names(fields: seq<Field>, n: nat): set<string>
    requires n <= |fields|
  {
    set k | 0 <= k < n :: fields[k].name
  }

  lemma FrontOkEnds(admits: Field -> bool, fields: seq<Field>, depth: nat)
    ensures FrontOk(admits, fields, 0, depth)
    ensures SiblingsOk(admits, fields, depth) <==> depth <= 64 && FrontOk(admits, fields, |fields|, depth)
  {
    assert fields[..|fields|] == fields;
    hide FieldOk;
  }

  lemma FrontOkGrows(admits: Field -> bool, fields: seq<Field>, i: nat, depth: nat)
    requires i < |fields| && FrontOk(admits, fields, i, depth)
    ensures FrontOk(admits, fields, i + 1, depth) <==>
            fields[i].name !in Names(fields, i) && FieldOk(admits, fields[i], depth)
    ensures SiblingsOk(admits, fields, depth) ==> FrontOk(admits, fields, i + 1, depth)
    ensures Names(fields, i + 1) == Names(fields, i) + {fields[i].name}
  {
    assert forall k :: 0 <= k <= i ==> fields[..i + 1][k] == fields[k];
    assert forall k :: 0 <= k < i ==> fields[..i][k] == fields[k];
    hide FieldOk;
  }

  lemma OneSibling(admits: Field -> bool, f: Field, depth: nat)
    ensures SiblingsOk(admits, [f], depth) <==> depth <= 64 && FieldOk(admits, f, depth)
  {
    assert [f][0] == f;
    hide FieldOk;
  }

  lemma NothingBelow(seen: set<nat>, optional: bool)
    ensures Ids([]) == [] && Collected([]) == {} && Fresh([], seen) && Eligible([], optional) == {}
  {
  }

  lemma PairParts(key: Field, value: Field, optional: bool, seen: set<nat>)
    ensures Fresh(Ids([key, value]), seen) <==> Fresh(Ids([key]), seen) && Fresh(Ids([value]), seen + Collected(Ids([key])))
    ensures Collected(Ids([key, value])) == Collected(Ids([key])) + Collected(Ids([value]))
    ensures Eligible([key, value], optional) == Eligible([key], optional) + Eligible([value], optional)
    ensures SizeAll([key]) + SizeAll([value]) == SizeAll([key, value])
  {
    assert [key] + [value] == [key, value];
    IdsJoin([key], [value]);
    EligibleJoin([key], [value], optional);
    FreshSplit(Ids([key]), Ids([value]), seen);
    assert [key, value][1..] == [value] && [key][1..] == [];
    assert SizeAll([key, value]) == Size(key) + SizeAll([value]) && SizeAll([key]) == Size(key) + SizeAll([]);
    hide Ids, Fresh, Collected, Eligible, Size;
  }

  lemma FieldParts(f: Field, optional: bool, seen: set<nat>)
    ensures Fresh(Ids([f]), seen) <==> f.id !in seen && Fresh(Ids(Children(f)), seen + {f.id})
    ensures Collected(Ids([f])) == {f.id} + Collected(Ids(Children(f)))
    ensures Eligible([f], optional) == (if !optional && Identifies(f) then {f.id} else {}) + Eligible(Children(f), optional || !f.required)
    ensures SizeAll(Children(f)) < Size(f)
  {
    FieldIds(f);
    FreshSplit([f.id], Ids(Children(f)), seen);
    assert Collected([f.id]) == {f.id};
    assert Fresh([f.id], seen) <==> f.id !in seen;
    EligibleOne(f, optional);
    ChildrenSmaller(f);
  }

  // What the first of these siblings, and all below them, declare.
  ghost predicate FrontFresh(fields: seq<Field>, n: nat, seen: set<nat>)
    requires n <= |fields|
  {
    Fresh(Ids(fields[..n]), seen)
  }

  ghost function FrontIds(fields: seq<Field>, n: nat, seen: set<nat>): set<nat>
    requires n <= |fields|
  {
    seen + Collected(Ids(fields[..n]))
  }

  ghost function FrontEligible(fields: seq<Field>, n: nat, optional: bool, named: set<nat>): set<nat>
    requires n <= |fields|
  {
    named + Eligible(fields[..n], optional)
  }

  lemma FrontEnds(fields: seq<Field>, optional: bool, seen: set<nat>, named: set<nat>)
    ensures FrontFresh(fields, 0, seen) && FrontIds(fields, 0, seen) == seen && FrontEligible(fields, 0, optional, named) == named
    ensures FrontFresh(fields, |fields|, seen) <==> Fresh(Ids(fields), seen)
    ensures FrontIds(fields, |fields|, seen) == seen + Collected(Ids(fields))
    ensures FrontEligible(fields, |fields|, optional, named) == named + Eligible(fields, optional)
  {
    assert fields[..|fields|] == fields && fields[..0] == [];
    NothingBelow(seen, optional);
    hide Fresh, Ids, Collected, Eligible;
  }

  lemma FrontGrows(fields: seq<Field>, i: nat, optional: bool, seen: set<nat>, named: set<nat>)
    requires i < |fields|
    ensures FrontFresh(fields, i + 1, seen) <==> FrontFresh(fields, i, seen) && Fresh(Ids([fields[i]]), FrontIds(fields, i, seen))
    ensures FrontIds(fields, i + 1, seen) == FrontIds(fields, i, seen) + Collected(Ids([fields[i]]))
    ensures FrontEligible(fields, i + 1, optional, named) == FrontEligible(fields, i, optional, named) + Eligible([fields[i]], optional)
    ensures Fresh(Ids(fields), seen) ==> FrontFresh(fields, i + 1, seen)
    ensures Size(fields[i]) <= SizeAll(fields)
  {
    var front, one, rest := fields[..i], [fields[i]], fields[i + 1..];
    assert front + one == fields[..i + 1] && (front + one) + rest == fields;
    SizeAtMost(fields, i);
    IdsJoin(front, one);
    IdsJoin(front + one, rest);
    FreshSplit(Ids(front), Ids(one), seen);
    FreshSplit(Ids(front + one), Ids(rest), seen);
    EligibleJoin(front, one, optional);
    hide Ids, Fresh, Collected, Eligible;
  }

  // A row of the table of identifier fields, which is read by rising ordinal.
  datatype IdentifierRow = IdentifierRow(ordinal: nat, field: nat)

  function Identifiers(listed: seq<IdentifierRow>): (ids: seq<nat>)
    ensures |ids| == |listed| && forall i :: 0 <= i < |ids| ==> ids[i] == listed[i].field
  {
    seq(|listed|, i requires 0 <= i < |listed| => listed[i].field)
  }

  // Rows by rising ordinal, as the query lists them.
  predicate ByOrdinal(listed: seq<IdentifierRow>) {
    forall i, j :: 0 <= i < j < |listed| ==> listed[i].ordinal < listed[j].ordinal
  }

  // Ordinals without a gap: the last one tells.
  predicate Gapless(listed: seq<IdentifierRow>) {
    listed == [] || listed[|listed| - 1].ordinal + 1 == |listed|
  }

  // The rows written for a list of identifiers.
  function IdentifierRows(ids: seq<nat>): (listed: seq<IdentifierRow>)
    ensures |listed| == |ids| && forall i :: 0 <= i < |ids| ==> listed[i] == IdentifierRow(i, ids[i])
  {
    seq(|ids|, i requires 0 <= i < |ids| => IdentifierRow(i, ids[i]))
  }

  // The stored rows are those of a valid schema.
  ghost predicate Accepts(admits: Field -> bool, id: nat, rows: Rows, listed: seq<IdentifierRow>, roots: seq<Field>) {
    Holds(rows, Spelled(None, roots, 0)) && SchemaOk(admits, id, roots, Identifiers(listed))
  }

  // Matching rows hold every field, so a count finds the rows beyond them.
  lemma ReachedCount(rows: Rows, roots: seq<Field>)
    requires Lists(rows, None, roots) && ChildrenMatch(rows, roots)
    ensures AllReached(rows, roots) <==> |Collected(Ids(roots))| == |rows| && forall id :: id in rows ==> id in Collected(Ids(roots))
  {
    var list, ids := Spelled(None, roots, 0), Collected(Ids(roots));
    SpelledFields(None, roots, 0);
    forall id | id in ids
      ensures id in rows
    {
      var i :| 0 <= i < |Ids(roots)| && Ids(roots)[i] == id;
      MatchingHold(rows, None, roots, 0, list[i]);
    }
    if AllReached(rows, roots) {
      assert ids == rows.Keys;
    }
  }

  lemma AcceptsMeansMatch(admits: Field -> bool, id: nat, rows: Rows, listed: seq<IdentifierRow>, roots: seq<Field>)
    requires Keyed(rows) && Accepts(admits, id, rows, listed, roots)
    ensures Lists(rows, None, roots) && ChildrenMatch(rows, roots) && AllReached(rows, roots)
  {
    RowsExactly(rows, roots);
    hide *;
  }

  // The identifier fields are distinct and can identify a row.
  method ValidateIdentifiers(ids: seq<nat>, eligible: set<nat>) returns (ok: bool)
    ensures ok <==> Fresh(ids, {}) && forall k :: k in ids ==> k in eligible
  {
    var seen := {};
    for i := 0 to |ids|
      invariant seen == set k | 0 <= k < i :: ids[k]
      invariant forall j, k :: 0 <= j < k < i ==> ids[j] != ids[k]
      invariant forall k :: 0 <= k < i ==> ids[k] in eligible
    {
      if ids[i] in seen {
        return false;
      }
      seen := seen + {ids[i]};
      if ids[i] !in eligible {
        return false;
      }
    }
    ok := true;
  }

  // The fields that the rows describe, when the rows are those of a schema.
  method Describe(rows: Rows) returns (r: Result<seq<Field>>)
    requires Keyed(rows)
    ensures r.Ok? ==> Lists(rows, None, r.value) && ChildrenMatch(rows, r.value) && AllReached(rows, r.value)
    ensures forall roots :: Lists(rows, None, roots) && ChildrenMatch(rows, roots) && AllReached(rows, roots) ==> r == Ok(roots)
  {
    hide ChildrenMatch, Lists, AllReached, Keyed;
    var top := Siblings(rows, None);
    if top.Err? {
      return Err(Corrupt);
    }
    var roots := top.value;
    assert forall other :: Lists(rows, None, other) ==> other == roots;
    var ok := ValidateChildren(rows, roots);
    if !ok {
      return Err(Corrupt);
    }
    var reached := Collected(Ids(roots));
    ReachedCount(rows, roots);
    hide Ids, Collected;
    if |reached| != |rows| || exists k :: k in rows && k !in reached {
      return Err(Corrupt);
    }
    r := Ok(roots);
  }

  // validate_schemas for one schema.
  method ValidateSchema(admits: Field -> bool, id: nat, rows: Rows, listed: seq<IdentifierRow>) returns (r: Result<seq<Field>>)
    requires Keyed(rows) && ByOrdinal(listed)
    ensures r.Ok? ==> Accepts(admits, id, rows, listed, r.value)
    ensures forall roots :: Accepts(admits, id, rows, listed, roots) ==> r == Ok(roots)
    ensures r.Ok? ==> (WrittenFor(rows, listed, r.value, Identifiers(listed)) <==> Gapless(listed))
  {
    forall roots | Accepts(admits, id, rows, listed, roots)
      ensures Lists(rows, None, roots) && ChildrenMatch(rows, roots) && AllReached(rows, roots)
    {
      AcceptsMeansMatch(admits, id, rows, listed, roots);
    }
    hide Accepts, Lists, ChildrenMatch, AllReached, Keyed;
    var described := Describe(rows);
    if described.Err? {
      return Err(Corrupt);
    }
    var roots := described.value;
    var check := new SchemaCheck(admits);
    AcceptedSchema(admits, id, rows, listed, roots);
    assert check.Named() == {};
    hide Fresh, Eligible, SiblingsOk, Ids, Collected, SchemaCheck.Named;
    if id == 0 {
      return Err(Invalid);
    }
    var ok := check.ValidateSiblings(roots, 1, false);
    if !ok {
      return Err(Invalid);
    }
    ok := ValidateIdentifiers(Identifiers(listed), check.Named());
    if !ok {
      return Err(Invalid);
    }
    WrittenIfGapless(admits, id, rows, listed, roots);
    r := Ok(roots);
  }

  lemma WrittenIfGapless(admits: Field -> bool, id: nat, rows: Rows, listed: seq<IdentifierRow>, fields: seq<Field>)
    requires Keyed(rows) && ByOrdinal(listed) && Accepts(admits, id, rows, listed, fields)
    ensures WrittenFor(rows, listed, fields, Identifiers(listed)) <==> Gapless(listed)
  {
    TablesExactly(admits, id, rows, listed, fields);
    hide WrittenFor, Holds, Keyed, Gapless, ByOrdinal, SiblingsOk, Fresh, Eligible, Spelled, Identifiers;
  }

  lemma AcceptedSchema(admits: Field -> bool, id: nat, rows: Rows, listed: seq<IdentifierRow>, roots: seq<Field>)
    requires Keyed(rows) && Lists(rows, None, roots) && ChildrenMatch(rows, roots) && AllReached(rows, roots)
    ensures Accepts(admits, id, rows, listed, roots) <==>
            id > 0 && SiblingsOk(admits, roots, 1) && Fresh(Ids(roots), {}) && Fresh(Identifiers(listed), {}) &&
            forall k :: k in Identifiers(listed) ==> k in Eligible(roots, false)
  {
    DistinctIds(roots);
    if Distinct(roots) {
      RowsExactly(rows, roots);
    }
    hide Holds, Spelled, SiblingsOk, Eligible, Fresh, Ids, Distinct, Lists, ChildrenMatch, AllReached, Keyed;
  }

  // What is written for a valid schema is accepted as that schema and no other.
  lemma WrittenAccepted(admits: Field -> bool, id: nat, fields: seq<Field>, identifiers: seq<nat>)
    requires SchemaOk(admits, id, fields, identifiers)
    ensures var rows := Written(map[], Spelled(None, fields, 0));
            Keyed(rows) && forall roots :: Accepts(admits, id, rows, IdentifierRows(identifiers), roots) <==> roots == fields
    ensures ByOrdinal(IdentifierRows(identifiers)) && Gapless(IdentifierRows(identifiers))
  {
    var rows, listed := Written(map[], Spelled(None, fields, 0)), IdentifierRows(identifiers);
    InsertedHeld(fields);
    assert Identifiers(listed) == identifiers;
    AcceptsMeansMatch(admits, id, rows, listed, fields);
    forall roots | Accepts(admits, id, rows, listed, roots)
      ensures roots == fields
    {
      AcceptsMeansMatch(admits, id, rows, listed, roots);
      ListsOne(rows, None, roots, fields);
    }
    hide SchemaOk, Holds, Written, Spelled;
  }

  lemma {:induction false} OrdinalAtLeast(listed: seq<IdentifierRow>, i: nat)
    requires ByOrdinal(listed) && i < |listed|
    ensures listed[i].ordinal >= i
  {
    if i > 0 {
      OrdinalAtLeast(listed, i - 1);
    }
  }

  lemma {:induction false} OrdinalAtMost(listed: seq<IdentifierRow>, i: nat)
    requires ByOrdinal(listed) && i < |listed| && Gapless(listed)
    ensures listed[i].ordinal <= i
    decreases |listed| - i
  {
    if i + 1 < |listed| {
      OrdinalAtMost(listed, i + 1);
    }
  }

  // Identifier rows are those written for what they list exactly when the last ordinal is
  // one less than their number, which is not checked.
  lemma IdentifierRowsExactly(listed: seq<IdentifierRow>)
    requires ByOrdinal(listed)
    ensures listed == IdentifierRows(Identifiers(listed)) <==> Gapless(listed)
    ensures Gapless(listed) <==> forall i :: 0 <= i < |listed| ==> listed[i].ordinal == i
  {
    if Gapless(listed) {
      forall i | 0 <= i < |listed|
        ensures listed[i].ordinal == i
      {
        OrdinalAtLeast(listed, i);
        OrdinalAtMost(listed, i);
      }
    }
  }

  // A table holds only one set of rows.
  lemma HoldsOne(a: Rows, b: Rows, list: seq<FieldRow>)
    requires Holds(a, list) && Holds(b, list)
    ensures a == b
  {
    forall id | id in a || id in b
      ensures id in a && id in b && a[id] == b[id]
    {
      var i :| 0 <= i < |list| && list[i].field.id == id;
    }
  }

  // The rows that are written for a schema.
  ghost predicate WrittenFor(rows: Rows, listed: seq<IdentifierRow>, fields: seq<Field>, identifiers: seq<nat>) {
    rows == Written(map[], Spelled(None, fields, 0)) && listed == IdentifierRows(identifiers)
  }

  // Tables that are accepted are the written ones exactly when, beyond what is checked,
  // the ordinals of the identifier rows have no gap.
  lemma TablesExactly(admits: Field -> bool, id: nat, rows: Rows, listed: seq<IdentifierRow>, fields: seq<Field>)
    requires Keyed(rows) && ByOrdinal(listed)
    ensures WrittenFor(rows, listed, fields, Identifiers(listed)) && SchemaOk(admits, id, fields, Identifiers(listed))
       <==> Accepts(admits, id, rows, listed, fields) && Gapless(listed)
  {
    hide SiblingsOk, Fresh, Eligible, Spelled, Written, AllFields;
    IdentifierRowsExactly(listed);
    if Distinct(fields) {
      InsertedHeld(fields);
      if Holds(rows, Spelled(None, fields, 0)) {
        HoldsOne(rows, Written(map[], Spelled(None, fields, 0)), Spelled(None, fields, 0));
      }
    }
    hide Holds, Keyed, Distinct, Gapless, ByOrdinal, Identifiers, IdentifierRows;
  }

  // The identifier rows are read in order but their ordinals are not checked: rows with a
  // gap, which are never written, are accepted wherever the written ones are.
  lemma IdentifierGapsPass(admits: Field -> bool, id: nat, rows: Rows, roots: seq<Field>, ids: seq<nat>)
    requires ids != [] && Accepts(admits, id, rows, IdentifierRows(ids), roots)
    ensures var moved := IdentifierRows(ids)[|ids| - 1 := IdentifierRow(|ids|, ids[|ids| - 1])];
            ByOrdinal(moved) && Accepts(admits, id, rows, moved, roots) && forall other :: moved != IdentifierRows(other)
  {
    var last := |ids| - 1;
    var moved := IdentifierRows(ids)[last := IdentifierRow(|ids|, ids[last])];
    assert Identifiers(moved) == Identifiers(IdentifierRows(ids));
    forall other
      ensures moved != IdentifierRows(other)
    {
      assert |other| > last ==> IdentifierRows(other)[last].ordinal == last;
      assert moved[last].ordinal == |ids|;
    }
  }
}
