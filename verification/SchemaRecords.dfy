// Rows of the SQLite schema table as SQLite writes them, and the root page that the page
// check reads out of them (sections 1.6 and 2.1 of the SQLite Database File Format).
module SchemaRecords {
  import opened Wrappers
  import opened Objects
  import opened Encoding
  import opened PageRoles

  // ----- Variable-length integers -------------------------------------------------------------

  // The last `k` groups of seven bits, each marked as followed by another byte.
  function Groups(v: nat, k: nat): (b: Bytes)
    ensures |b| == k && forall i :: 0 <= i < k ==> b[i] as nat >= 128
  {
    if k == 0 then [] else Groups(v / 128, k - 1) + [(128 + v % 128) as byte]
  }

  // How many groups come before the last one.
  function Leading(v: nat): (k: nat)
    ensures v / 128 < Pow(128, k)
  {
    if v < 128 then 0 else 1 + Leading(v / 128)
  }

  lemma {:induction false} LeadingBound(v: nat, k: nat)
    requires v / 128 < Pow(128, k)
    ensures Leading(v) <= k
    decreases k
  {
    if v >= 128 {
      LeadingBound(v / 128, k - 1);
    }
  }

  // A 64-bit integer in its shortest form: a ninth byte holds eight bits.
  function WriteVarint(v: nat): Bytes {
    if v / 128 < Pow(128, 7) then Groups(v / 128, Leading(v)) + [(v % 128) as byte]
    else Groups(v / 256, 8) + [(v % 256) as byte]
  }

  lemma {:induction false} GroupsRead(b: Bytes, v: nat, k: nat)
    requires k <= 8 && k <= |b| && b[..k] == Groups(v, k) && v < Pow(128, k)
    ensures VarintFrom(b, 0, 0) == VarintFrom(b, k, v)
    decreases k
  {
    if k > 0 {
      GroupsFront(b, v, k);
      hide Groups, Pow;
      GroupsRead(b, v / 128, k - 1);
      assert v / 128 * 128 + v % 128 == v;
      VarintStep(b, k - 1, v / 128);
    }
    hide VarintFrom;
  }

  lemma GroupsFront(b: Bytes, v: nat, k: nat)
    requires 0 < k <= |b| && b[..k] == Groups(v, k) && v < Pow(128, k)
    ensures b[..k - 1] == Groups(v / 128, k - 1) && b[k - 1] as nat == 128 + v % 128
    ensures v / 128 < Pow(128, k - 1)
  {
    assert Pow(128, k) == 128 * Pow(128, k - 1);
    assert b[..k - 1] == b[..k][..k - 1];
    assert b[k - 1] == b[..k][k - 1];
    hide Pow;
  }

  lemma SevensAndEight(v: nat)
    requires v <= U64_MAX
    ensures v / 256 < Pow(128, 8)
  {
    assert Pow(128, 2) == 128 * 128;
    assert Pow(128, 4) == 128 * 128 * Pow(128, 2);
    assert Pow(128, 8) == 0x0100_0000_0000_0000;
  }

  lemma Shortest(v: nat)
    requires v <= U64_MAX
    ensures 1 <= |WriteVarint(v)| <= 9
    ensures var k := |WriteVarint(v)| - 1; var last := WriteVarint(v)[k] as nat;
      if k < 8 then WriteVarint(v)[..k] == Groups(v / 128, k) && v / 128 < Pow(128, k) && last == v % 128
      else WriteVarint(v)[..k] == Groups(v / 256, k) && v / 256 < Pow(128, k) && last == v % 256
  {
    SevensAndEight(v);
    if v / 128 < Pow(128, 7) {
      LeadingBound(v, 7);
    }
  }

  // Every 64-bit integer is read back, whatever follows it.
  lemma VarintInverse(b: Bytes, v: nat)
    requires v <= U64_MAX && Occurs(b, 0, WriteVarint(v))
    ensures Varint(b) == Some((v, |WriteVarint(v)|))
  {
    hide VarintFrom, WriteVarint, Groups, Pow, Occurs;
    var k := |WriteVarint(v)| - 1;
    Shortest(v);
    AllButLast(b, WriteVarint(v));
    GroupsRead(b, if k < 8 then v / 128 else v / 256, k);
    VarintEnd(b, k, if k < 8 then v / 128 else v / 256);
  }

  lemma AllButLast(b: Bytes, w: Bytes)
    requires w != [] && Occurs(b, 0, w)
    ensures |w| <= |b| && b[..|w| - 1] == w[..|w| - 1] && b[|w| - 1] == w[|w| - 1]
  {
    assert b[..|w|] == w;
  }

  // An integer in these bytes, which need not be its shortest form.
  predicate IsVarint(w: Bytes, v: nat) {
    && 1 <= |w| <= 9
    && var k := |w| - 1;
       var high, base := if k < 8 then v / 128 else v / 256, if k < 8 then 128 else 256;
       w[..k] == Groups(high, k) && high < Pow(128, k) && w[k] as nat == v % base
  }

  lemma ShortestIsVarint(v: nat)
    requires v <= U64_MAX
    ensures IsVarint(WriteVarint(v), v)
  {
    hide WriteVarint, Groups, Pow;
    Shortest(v);
  }

  // Integers are read exactly as they are written, in whatever form.
  lemma VarintExactly(b: Bytes, v: nat, n: nat)
    ensures Varint(b) == Some((v, n)) <==> n <= |b| && IsVarint(b[..n], v)
  {
    hide VarintFrom, IsVarint, Groups, Pow;
    if n <= |b| && IsVarint(b[..n], v) {
      VarintIn(b, v, n);
    }
    if Varint(b) == Some((v, n)) {
      assert b[..0] == Groups(0, 0) && 0 < Pow(128, 0) by {
        NoGroups(b);
      }
      VarintOut(b, 0, 0, v, n);
    }
  }

  lemma NoGroups(b: Bytes)
    ensures b[..0] == Groups(0, 0) && 0 < Pow(128, 0)
  {
  }

  lemma VarintIn(b: Bytes, v: nat, n: nat)
    requires n <= |b| && IsVarint(b[..n], v)
    ensures Varint(b) == Some((v, n))
  {
    hide VarintFrom, Groups, Pow;
    var k := n - 1;
    var high := if k < 8 then v / 128 else v / 256;
    assert b[..n][..k] == b[..k] && b[..n][k] == b[k];
    GroupsRead(b, high, k);
    VarintEnd(b, k, high);
  }

  lemma {:induction false} VarintOut(b: Bytes, i: nat, high: nat, v: nat, n: nat)
    requires i <= 8 && i <= |b| && b[..i] == Groups(high, i) && high < Pow(128, i)
    requires VarintFrom(b, i, high) == Some((v, n))
    ensures n <= |b| && IsVarint(b[..n], v)
    decreases 9 - i
  {
    hide VarintFrom, Groups, Pow;
    VarintFromShape(b, i, high);
    VarintEnd(b, i, high);
    if i < 8 && b[i] as nat >= 128 {
      var next := high * 128 + (b[i] as nat - 128);
      VarintStep(b, i, high);
      GroupsMore(b, i, high);
      VarintOut(b, i + 1, next, v, n);
    } else {
      assert n == i + 1 && b[..n][..i] == b[..i] && b[..n][i] == b[i];
      assert v / (if i < 8 then 128 else 256) == high;
    }
  }

  lemma GroupsMore(b: Bytes, i: nat, high: nat)
    requires i < |b| && b[..i] == Groups(high, i) && high < Pow(128, i) && b[i] as nat >= 128
    ensures var next := high * 128 + (b[i] as nat - 128); b[..i + 1] == Groups(next, i + 1) && next < Pow(128, i + 1)
  {
    var next := high * 128 + (b[i] as nat - 128);
    assert next / 128 == high && next % 128 == b[i] as nat - 128;
    assert b[..i + 1] == b[..i] + [b[i]];
    assert Pow(128, i + 1) == 128 * Pow(128, i);
    hide Pow;
  }

  lemma VarintBound(w: Bytes, v: nat)
    requires IsVarint(w, v)
    ensures v <= U64_MAX
  {
    assert Pow(128, 2) == 128 * 128;
    assert Pow(128, 4) == 128 * 128 * Pow(128, 2);
    assert Pow(128, 8) == 0x0100_0000_0000_0000;
    PowGrows(128, |w| - 1, 8);
    hide Pow, Groups;
  }

  // ----- Records ------------------------------------------------------------------------------

  // These bytes are these integers, one after the other.
  ghost predicate AreVarints(w: Bytes, list: seq<nat>)
    decreases |w|
  {
    if list == [] then w == []
    else exists k: nat :: 0 < k <= |w| && IsVarint(w[..k], list[0]) && AreVarints(w[k..], list[1..])
  }

  // The header of a record is read as the serial types in it.
  lemma {:induction false} SerialsExactly(w: Bytes, list: seq<nat>)
    ensures Serials(w) == Some(list) <==> AreVarints(w, list)
    decreases |w|
  {
    hide Varint, IsVarint;
    if w != [] {
      VarintShape(w);
      if list != [] && Varint(w).Some? {
        var (v, n) := Varint(w).value;
        VarintExactly(w, v, n);
        SerialsExactly(w[n..], list[1..]);
        if Serials(w) == Some(list) {
          assert Serials(w).value[1..] == list[1..];
        }
      }
      forall k: nat | list != [] && 0 < k <= |w| && IsVarint(w[..k], list[0])
        ensures Varint(w) == Some((list[0], k))
      {
        VarintExactly(w, list[0], k);
      }
      if AreVarints(w, list) {
        assert [list[0]] + list[1..] == list;
      }
    }
  }

  // A value of a record, with its bytes as stored.
  datatype Sql = Null | Zero | One | Integer(raw: Bytes) | Real(raw: Bytes) | Text(raw: Bytes) | Blob(raw: Bytes)

  predicate SqlOk(v: Sql) {
    (v.Integer? ==> |v.raw| in {1, 2, 3, 4, 6, 8}) && (v.Real? ==> |v.raw| == 8)
  }

  function Raw(v: Sql): Bytes {
    if v.Null? || v.Zero? || v.One? then [] else v.raw
  }

  function SerialOf(v: Sql): nat {
    match v
    case Null => 0
    case Zero => 8
    case One => 9
    case Integer(raw) => if |raw| <= 4 then |raw| else if |raw| == 6 then 5 else 6
    case Real(_) => 7
    case Blob(raw) => 12 + 2 * |raw|
    case Text(raw) => 13 + 2 * |raw|
  }

  // The page that a value of the fourth column names.
  predicate IsRoot(v: Sql, root: Option<nat>) {
    match v
    case Null => root == None
    case Zero => root == Some(0)
    case One => root == Some(1)
    case Integer(raw) => root.Some? && TwosComplement(raw) == root.value
    case _ => false
  }

  // The first four values of a record, whatever follows them or is kept elsewhere.
  ghost predicate Starts(record: Bytes, row: seq<Sql>, n: nat, h: nat, serials: seq<nat>) {
    && n <= h <= |record| && IsVarint(record[..n], h) && AreVarints(record[n..h], serials)
    && |serials| >= 4 && |row| == 4 && (forall i :: 0 <= i < 4 ==> SqlOk(row[i]) && SerialOf(row[i]) == serials[i])
    && Occurs(record, h, Raw(row[0]) + Raw(row[1]) + Raw(row[2]) + Raw(row[3]))
  }

  ghost predicate Names(record: Bytes, root: Option<nat>, row: seq<Sql>, n: nat, h: nat, serials: seq<nat>) {
    Starts(record, row, n, h, serials) && IsRoot(row[3], root)
  }

  // The record begins with four values, the last of which names this root page.
  ghost predicate NamesRoot(record: Bytes, root: Option<nat>) {
    exists row, n: nat, h: nat, serials :: Names(record, root, row, n, h, serials)
  }

  function SqlOf(serial: nat, raw: Bytes): Sql {
    if serial == 0 then Null else if serial == 8 then Zero else if serial == 9 then One
    else if serial <= 6 then Integer(raw) else if serial == 7 then Real(raw)
    else if serial % 2 == 0 then Blob(raw) else Text(raw)
  }

  // Serial types say what SQLite writes them for.
  lemma SerialExactly(serial: nat, v: Sql)
    ensures SqlOk(v) && SerialOf(v) == serial ==> SerialLen(serial) == Some(|Raw(v)|)
    ensures SerialLen(serial) == Some(|Raw(v)|) && v == SqlOf(serial, Raw(v)) ==> SqlOk(v) && SerialOf(v) == serial
  {
  }

  lemma NumberSign(raw: Bytes)
    requires raw != []
    ensures TwosComplement(raw) >= 0 <==> raw[0] as nat < 128
    ensures TwosComplement(raw) >= 0 ==> TwosComplement(raw) == BigEndian(raw)
  {
    hide BigEndian;
    ToBigEndianInverse(raw);
  }

  // Where the first four values are, if they have these sizes.
  lemma ValuesPlaced(serials: seq<nat>, h: nat, size: nat, a: nat, b: nat, c: nat)
    requires |serials| >= 4 && h <= size
    requires SerialLen(serials[0]) == Some(a) && SerialLen(serials[1]) == Some(b) && SerialLen(serials[2]) == Some(c)
    ensures ValueAt(serials, h, size, 3) == if h + a + b + c <= size then Some(h + a + b + c) else None
  {
    hide SerialLen;
    assert ValueAt(serials, h, size, 0) == Some(h);
    assert ValueAt(serials, h, size, 1) == if h + a <= size then Some(h + a) else None;
    assert ValueAt(serials, h, size, 2) == if h + a + b <= size then Some(h + a + b) else None;
  }

  lemma ValuesSized(serials: seq<nat>, h: nat, size: nat)
    requires |serials| >= 4 && ValueAt(serials, h, size, 3).Some?
    ensures SerialLen(serials[0]).Some? && SerialLen(serials[1]).Some? && SerialLen(serials[2]).Some?
  {
    hide SerialLen;
    assert ValueAt(serials, h, size, 2).Some? && ValueAt(serials, h, size, 1).Some?;
  }

  // What is read as the root page is what the value in its place names.
  lemma RootValueExactly(record: Bytes, at: nat, v: Sql, root: Option<nat>)
    requires SqlOk(v) && Occurs(record, at, Raw(v))
    ensures RootValue(record, at, SerialOf(v)) == Ok(root) <==> IsRoot(v, root)
  {
    if v.Integer? {
      NumberSign(v.raw);
      assert record[at] == record[at..at + |v.raw|][0];
    }
    hide BigEndian, TwosComplement;
  }

  lemma FourApart(record: Bytes, h: nat, a: Bytes, b: Bytes, c: Bytes, d: Bytes)
    ensures Occurs(record, h, a + b + c + d) <==>
            && Occurs(record, h, a) && Occurs(record, h + |a|, b) && Occurs(record, h + |a| + |b|, c)
            && Occurs(record, h + |a| + |b| + |c|, d)
  {
    hide Occurs;
    OccursBoth(record, h, a + b + c, d);
    OccursBoth(record, h, a + b, c);
    OccursBoth(record, h, a, b);
  }

  lemma RootOfRow(record: Bytes, row: seq<Sql>, n: nat, h: nat, serials: seq<nat>, root: Option<nat>)
    requires Names(record, root, row, n, h, serials)
    ensures SchemaRoot(record) == Ok(root)
  {
    hide IsVarint, AreVarints, SerialLen, SerialOf, Raw, SqlOk, ValueAt, RootValue, IsRoot, Varint, Serials, Occurs;
    VarintExactly(record, h, n);
    SerialsExactly(record[n..h], serials);
    forall i | 0 <= i < 4
      ensures SerialLen(serials[i]) == Some(|Raw(row[i])|)
    {
      SerialExactly(serials[i], row[i]);
    }
    var at := h + |Raw(row[0])| + |Raw(row[1])| + |Raw(row[2])|;
    FourApart(record, h, Raw(row[0]), Raw(row[1]), Raw(row[2]), Raw(row[3]));
    OccursFits(record, at, Raw(row[3]));
    ValuesPlaced(serials, h, |record|, |Raw(row[0])|, |Raw(row[1])|, |Raw(row[2])|);
    RootValueExactly(record, at, row[3], root);
  }

  lemma Slice(record: Bytes, at: nat, n: nat, serial: nat)
    requires at + n <= |record| && SerialLen(serial) == Some(n)
    ensures var v := SqlOf(serial, record[at..at + n]);
      SqlOk(v) && SerialOf(v) == serial && |Raw(v)| == n && Occurs(record, at, Raw(v))
  {
    var v := SqlOf(serial, record[at..at + n]);
    assert |Raw(v)| == n;
    SerialExactly(serial, v);
    hide SerialLen;
  }

  lemma RowOfRoot(record: Bytes, root: Option<nat>)
    requires SchemaRoot(record) == Ok(root)
    ensures NamesRoot(record, root)
  {
    hide IsVarint, AreVarints, SerialLen, SerialOf, Raw, SqlOk, ValueAt, RootValue, IsRoot, Varint, Serials, Occurs, SqlOf;
    var (h, n) := Varint(record).value;
    VarintExactly(record, h, n);
    var serials := Serials(record[n..h]).value;
    SerialsExactly(record[n..h], serials);
    ValuesSized(serials, h, |record|);
    var a, b, c := SerialLen(serials[0]).value, SerialLen(serials[1]).value, SerialLen(serials[2]).value;
    var d := SerialLen(serials[3]).value;
    ValuesPlaced(serials, h, |record|, a, b, c);
    var at := h + a + b + c;
    RootFits(record, at, serials[3], root);
    Slice(record, h, a, serials[0]);
    Slice(record, h + a, b, serials[1]);
    Slice(record, h + a + b, c, serials[2]);
    Slice(record, at, d, serials[3]);
    var row := [SqlOf(serials[0], record[h..h + a]), SqlOf(serials[1], record[h + a..h + a + b]),
                SqlOf(serials[2], record[h + a + b..at]), SqlOf(serials[3], record[at..at + d])];
    FourApart(record, h, Raw(row[0]), Raw(row[1]), Raw(row[2]), Raw(row[3]));
    RootValueExactly(record, at, row[3], root);
    assert Names(record, root, row, n, h, serials);
  }

  lemma RootFits(record: Bytes, at: nat, serial: nat, root: Option<nat>)
    requires at <= |record| && RootValue(record, at, serial) == Ok(root)
    ensures SerialLen(serial).Some? && at + SerialLen(serial).value <= |record|
  {
  }

  // The root page found is the value of the fourth column, if that is null or a number
  // that is not negative; of any other record none is found.
  lemma SchemaRootExactly(record: Bytes, root: Option<nat>)
    ensures SchemaRoot(record) == Ok(root) <==> NamesRoot(record, root)
  {
    hide SchemaRoot, Names;
    if NamesRoot(record, root) {
      var row, n: nat, h: nat, serials :| Names(record, root, row, n, h, serials);
      RootOfRow(record, row, n, h, serials, root);
    }
    if SchemaRoot(record) == Ok(root) {
      RowOfRoot(record, root);
    }
  }
}
