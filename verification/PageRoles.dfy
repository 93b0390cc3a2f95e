// The structural check every SQLite page of an image passes before its records are
// used: each page gets one role, reached from page 1, and overflow chains end exactly
// where their record ends (sections 1.6 and 1.7 of the SQLite Database File Format).
module PageRoles {
  import opened Wrappers
  import opened Objects
  import opened Encoding

  const OVERFLOW: nat := PAGE - 4
  const RIGHTMOST: nat := 0xFFFF_FFFF_FFFF_FFFF
  const HEADER: Bytes := [83, 81, 76, 105, 116, 101, 32, 102, 111, 114, 109, 97, 116, 32, 51, 0]

  datatype Role =
    | Btree(parent: nat, slot: nat, root: bool, schemaTree: bool)
    | Overflow(owner: nat, cell: nat, remaining: nat, recordBytes: nat)

  // A page number that a page mentions, with the role it gives that page.
  datatype Ref = Ref(page: nat, role: Role)

  // What a page mentions, in order, up to the first flaw.
  datatype Parse = Parse(refs: seq<Ref>, ok: bool)

  // ----- Record encoding ----------------------------------------------------------------

  // A variable-length integer and its length: seven bits a byte, all eight of the ninth.
  function VarintFrom(b: Bytes, i: nat, v: nat): Option<(nat, nat)>
    requires i <= 8
    decreases 9 - i
  {
    if i >= |b| then None
    else if i == 8 then Some((v * 256 + b[8] as nat, 9))
    else if b[i] as nat < 128 then Some((v * 128 + b[i] as nat, i + 1))
    else VarintFrom(b, i + 1, v * 128 + (b[i] as nat - 128))
  }

  function Varint(b: Bytes): Option<(nat, nat)> {
    VarintFrom(b, 0, 0)
  }

  // The part of a payload kept on the b-tree page itself.
  function Local(payload: nat, ty: nat): nat {
    var max := if ty == 13 then PAGE - 35 else (PAGE - 12) * 64 / 255 - 23;
    if payload <= max then payload
    else
      var min := (PAGE - 12) * 32 / 255 - 23;
      var n := min + (payload - min) % OVERFLOW;
      if n > max then min else n
  }

  function SerialLen(s: nat): Option<nat> {
    if s == 0 || s == 8 || s == 9 then Some(0)
    else if 1 <= s <= 4 then Some(s)
    else if s == 5 then Some(6)
    else if s == 6 || s == 7 then Some(8)
    else if s < 12 then None
    else Some((s - 12) / 2)
  }

  lemma {:induction false} VarintFromShape(b: Bytes, i: nat, v: nat)
    requires i <= 8
    ensures VarintFrom(b, i, v).Some? ==> i < VarintFrom(b, i, v).value.1 <= |b| && VarintFrom(b, i, v).value.1 <= 9
    ensures VarintFrom(b, i, v).None? ==> |b| <= 8
    decreases 9 - i
  {
    if i < |b| && i < 8 && b[i] as nat >= 128 {
      VarintFromShape(b, i + 1, v * 128 + (b[i] as nat - 128));
    }
  }

  // A variable-length integer lies within the bytes given, in at most nine of them.
  lemma VarintShape(b: Bytes)
    ensures Varint(b).Some? ==> 0 < Varint(b).value.1 <= |b| && Varint(b).value.1 <= 9
  {
    VarintFromShape(b, 0, 0);
  }

  // The serial types of a record header.
  function Serials(b: Bytes): Option<seq<nat>>
    decreases |b|
  {
    if b == [] then Some([])
    else
      match Varint(b)
      case None => None
      case Some((v, n)) =>
        VarintShape(b);
        var rest := Serials(b[n..]);
        if rest.None? then None else Some([v] + rest.value)
  }

  // Where the value after the first `k` starts.
  function ValueAt(serials: seq<nat>, h: nat, size: nat, k: nat): Option<nat>
    requires k <= |serials|
  {
    if k == 0 then Some(h)
    else
      var before := ValueAt(serials, h, size, k - 1);
      var n := SerialLen(serials[k - 1]);
      if before.None? || n.None? || before.value + n.value > size then None else Some(before.value + n.value)
  }

  function RootValue(payload: Bytes, at: nat, serial: nat): Result<Option<nat>> {
    if serial == 0 then Ok(None)
    else if serial == 8 then Ok(Some(0))
    else if serial == 9 then Ok(Some(1))
    else if 1 <= serial <= 6 then
      var n := SerialLen(serial).value;
      if at + n > |payload| || payload[at] as nat >= 128 then Err(Corrupt)
      else Ok(Some(BigEndian(payload[at..at + n])))
    else Err(Corrupt)
  }

  // The root page that a row of the schema table names, if any.
  function SchemaRoot(payload: Bytes): Result<Option<nat>> {
    match Varint(payload)
    case None => Err(Corrupt)
    case Some((h, n)) =>
      if h < n || h > |payload| then Err(Corrupt)
      else
        var serials := Serials(payload[n..h]);
        if serials.None? || |serials.value| < 4 then Err(Corrupt)
        else
          var at := ValueAt(serials.value, h, |payload|, 3);
          if at.None? || SerialLen(serials.value[3]).None? then Err(Corrupt)
          else RootValue(payload, at.value, serials.value[3])
  }

  // ----- What a page mentions --------------------------------------------------------------

  function OverflowParse(role: Role, bytes: Bytes, max: nat): Parse
    requires role.Overflow? && |bytes| == PAGE
  {
    if role.recordBytes > max then Parse([], false)
    else
      var next := BigEndian(bytes[..4]);
      if role.remaining > OVERFLOW then Parse([Ref(next, role.(remaining := role.remaining - OVERFLOW))], true)
      else Parse([], next == 0)
  }

  predicate Interior(ty: nat) { ty == 2 || ty == 5 }

  function RootMention(page: nat, cell: nat, root: Option<nat>): seq<Ref> {
    if root.Some? && root.value != 0 then [Ref(root.value, Btree(page, cell, true, false))] else []
  }

  // The pointer behind a local part that is not the whole payload.
  function OverflowMention(page: nat, cell: nat, bytes: Bytes, payload: nat, local: nat, end: nat): Parse
    requires |bytes| == PAGE && end <= PAGE
  {
    if payload <= local then Parse([], true)
    else if end + 4 > PAGE then Parse([], false)
    else Parse([Ref(BigEndian(bytes[end..end + 4]), Overflow(page, cell, payload - local, payload))], true)
  }

  // A payload: a schema row names a root page, a long one its first overflow page.
  function PayloadParse(page: nat, cell: nat, ty: nat, schemaTree: bool, bytes: Bytes, cursor: nat): Parse
    requires |bytes| == PAGE && cursor <= PAGE
  {
    match Varint(bytes[cursor..])
    case None => Parse([], false)
    case Some((payload, n)) =>
      VarintShape(bytes[cursor..]);
      var rowid := if ty == 13 then Varint(bytes[cursor + n..]) else Some((0, 0));
      if rowid.None? then Parse([], false)
      else
        var local := Local(payload, ty);
        var start := cursor + n + rowid.value.1;
        var end := start + local;
        if end > PAGE then Parse([], false)
        else
          var root := if schemaTree && ty == 13 then SchemaRoot(bytes[start..end]) else Ok(None);
          if root.Err? then Parse([], false)
          else
            var first := OverflowMention(page, cell, bytes, payload, local, end);
            Parse(RootMention(page, cell, root.value) + first.refs, first.ok)
  }

  function CellParse(page: nat, ty: nat, schemaTree: bool, bytes: Bytes, start: nat, cells: nat, cell: nat): Parse
    requires |bytes| == PAGE && start + cells * 2 <= PAGE && cell < cells
  {
    var at := BigEndian(bytes[start + cell * 2..start + cell * 2 + 2]);
    if at < start + cells * 2 || at >= PAGE then Parse([], false)
    else if !Interior(ty) then PayloadParse(page, cell, ty, schemaTree, bytes, at)
    else if at + 4 > PAGE then Parse([], false)
    else
      var child := Ref(BigEndian(bytes[at..at + 4]), Btree(page, cell, false, schemaTree));
      if ty == 5 then Parse([child], Varint(bytes[at + 4..]).Some?)
      else
        var rest := PayloadParse(page, cell, ty, schemaTree, bytes, at + 4);
        Parse([child] + rest.refs, rest.ok)
  }

  function Then(a: Parse, b: Parse): Parse {
    if a.ok then Parse(a.refs + b.refs, b.ok) else a
  }

  // The first `k` cells.
  function CellsParse(page: nat, ty: nat, schemaTree: bool, bytes: Bytes, start: nat, cells: nat, k: nat): Parse
    requires |bytes| == PAGE && start + cells * 2 <= PAGE && k <= cells
  {
    if k == 0 then Parse([], true)
    else Then(CellsParse(page, ty, schemaTree, bytes, start, cells, k - 1), CellParse(page, ty, schemaTree, bytes, start, cells, k - 1))
  }

  predicate Geometry(bytes: Bytes)
    requires |bytes| == PAGE
  {
    bytes[..16] == HEADER && bytes[16..18] == [16, 0] && bytes[20..24] == [0, 64, 32, 32]
  }

  function CellCount(bytes: Bytes, off: nat): nat
    requires |bytes| == PAGE && off <= 100
  {
    BigEndian(bytes[off + 3..off + 5])
  }

  function BtreeParse(page: nat, schemaTree: bool, bytes: Bytes): Parse
    requires |bytes| == PAGE
  {
    var off := if page == 1 then 100 else 0;
    var ty := bytes[off] as nat;
    var start := off + if Interior(ty) then 12 else 8;
    var cells := CellCount(bytes, off);
    if (page == 1 && !Geometry(bytes)) || ty !in {2, 5, 10, 13} || start + cells * 2 > PAGE then Parse([], false)
    else
      var right :=
        if Interior(ty) then [Ref(BigEndian(bytes[off + 8..off + 12]), Btree(page, RIGHTMOST, false, schemaTree))] else [];
      Then(Parse(right, true), CellsParse(page, ty, schemaTree, bytes, start, cells, cells))
  }

  function PageParse(page: nat, role: Role, bytes: Bytes, max: nat): Parse
    requires |bytes| == PAGE
  {
    if role.Overflow? then OverflowParse(role, bytes, max) else BtreeParse(page, role.schemaTree, bytes)
  }

  // ----- The registry of roles ----------------------------------------------------------------

  // Roles, and the pages in the order in which they got theirs.
  datatype Registry = Registry(roles: map<nat, Role>, order: seq<nat>)

  const ROOT: Role := Btree(0, 0, true, true)

  function NewRegistry(): Registry { Registry(map[1 := ROOT], [1]) }

  datatype Limits = Limits(pages: nat, maxRecordBytes: nat, maxRoles: nat)

  // Register one mention, or refuse it.
  predicate Admits(limits: Limits, reg: Registry, ref: Ref) {
    && 1 <= ref.page <= limits.pages
    && if ref.page in reg.roles then reg.roles[ref.page] == ref.role else |reg.roles| < limits.maxRoles
  }

  function AddRole(limits: Limits, reg: Registry, ref: Ref): Registry {
    if !Admits(limits, reg, ref) || ref.page in reg.roles then reg
    else Registry(reg.roles[ref.page := ref.role], reg.order + [ref.page])
  }

  // Register mentions in order, up to the first refused one.
  function AddRoles(limits: Limits, reg: Registry, refs: seq<Ref>): (Registry, bool) {
    if refs == [] then (reg, true)
    else
      var (before, ok) := AddRoles(limits, reg, refs[..|refs| - 1]);
      var ref := refs[|refs| - 1];
      if ok then (AddRole(limits, before, ref), Admits(limits, before, ref)) else (before, false)
  }

  // Validate one page: its mentions up to the first flaw stay registered.
  function Visit(limits: Limits, reg: Registry, page: nat, bytes: Bytes): (Registry, bool) {
    if |bytes| != PAGE || page == 0 || page > limits.pages || page !in reg.roles then (reg, false)
    else
      var parse := PageParse(page, reg.roles[page], bytes, limits.maxRecordBytes);
      var (after, ok) := AddRoles(limits, reg, parse.refs);
      (after, ok && parse.ok)
  }

  // ----- What the mentions of one page look like -----------------------------------------------

  // The page whose cell or header first mentioned this one.
  function Link(role: Role): nat {
    if role.Btree? then role.parent else role.owner
  }

  // A role that a b-tree page may give: children stay in its tree, only the schema tree
  // names roots of other trees, and an overflow chain still owes part of its record.
  predicate Under(up: Role, role: Role) {
    && up.Btree?
    && match role
       case Btree(_, _, root, tree) => if root then up.schemaTree && !tree else tree == up.schemaTree
       case Overflow(_, _, remaining, record) => 0 < remaining <= record
  }

  ghost predicate Gives(page: nat, schemaTree: bool, ref: Ref) {
    Link(ref.role) == page && Under(Btree(0, 0, false, schemaTree), ref.role)
  }

  lemma PayloadGives(page: nat, cell: nat, ty: nat, schemaTree: bool, bytes: Bytes, cursor: nat)
    requires |bytes| == PAGE && cursor <= PAGE
    ensures var refs := PayloadParse(page, cell, ty, schemaTree, bytes, cursor).refs;
      && (forall ref :: ref in refs ==> Gives(page, schemaTree, ref))
      && |refs| <= 2 && (ty != 13 ==> |refs| <= 1)
  {
    hide Local, Varint, SchemaRoot, BigEndian;
  }

  lemma CellGives(page: nat, ty: nat, schemaTree: bool, bytes: Bytes, start: nat, cells: nat, cell: nat)
    requires |bytes| == PAGE && start + cells * 2 <= PAGE && cell < cells
    ensures var refs := CellParse(page, ty, schemaTree, bytes, start, cells, cell).refs;
      |refs| <= 2 && forall ref :: ref in refs ==> Gives(page, schemaTree, ref)
  {
    var at := BigEndian(bytes[start + cell * 2..start + cell * 2 + 2]);
    if at < PAGE {
      PayloadGives(page, cell, ty, schemaTree, bytes, at);
    }
    if at + 4 <= PAGE {
      PayloadGives(page, cell, ty, schemaTree, bytes, at + 4);
    }
    hide BigEndian, PayloadParse, Varint;
  }

  lemma {:induction false} CellsGive(page: nat, ty: nat, schemaTree: bool, bytes: Bytes, start: nat, cells: nat, k: nat)
    requires |bytes| == PAGE && start + cells * 2 <= PAGE && k <= cells
    ensures var refs := CellsParse(page, ty, schemaTree, bytes, start, cells, k).refs;
      |refs| <= 2 * k && forall ref :: ref in refs ==> Gives(page, schemaTree, ref)
  {
    hide CellParse, Gives;
    if k > 0 {
      CellsGive(page, ty, schemaTree, bytes, start, cells, k - 1);
      CellGives(page, ty, schemaTree, bytes, start, cells, k - 1);
    }
  }

  // A b-tree page mentions at most two pages a cell, and one more.
  lemma BtreeGives(page: nat, schemaTree: bool, bytes: Bytes)
    requires |bytes| == PAGE
    ensures var refs := BtreeParse(page, schemaTree, bytes).refs;
      && (forall ref :: ref in refs ==> Gives(page, schemaTree, ref))
      && |refs| <= 2 * CellCount(bytes, if page == 1 then 100 else 0) + 1
      && |refs| <= PAGE - 7
  {
    var off := if page == 1 then 100 else 0;
    var ty := bytes[off] as nat;
    var start := off + if Interior(ty) then 12 else 8;
    var cells := CellCount(bytes, off);
    if start + cells * 2 <= PAGE {
      CellsGive(page, ty, schemaTree, bytes, start, cells, cells);
    }
    hide CellsParse, BigEndian, CellCount, Geometry;
  }

  // ----- Registering ------------------------------------------------------------------------------

  lemma {:induction false} AddRolesGrows(limits: Limits, reg: Registry, refs: seq<Ref>)
    ensures var (after, ok) := AddRoles(limits, reg, refs);
      && reg.order <= after.order && |after.order| <= |reg.order| + |refs|
      && (forall n :: n in reg.roles ==> n in after.roles && after.roles[n] == reg.roles[n])
      && (ok ==> forall ref :: ref in refs ==> ref.page in after.roles && after.roles[ref.page] == ref.role)
  {
    if refs != [] {
      AddRolesGrows(limits, reg, refs[..|refs| - 1]);
    }
  }

  // Every page but the first got its role from a b-tree page that had one already.
  ghost predicate LinkedAt(reg: Registry, i: nat)
    requires i < |reg.order|
  {
    && reg.order[i] in reg.roles
    && var role := reg.roles[reg.order[i]];
       Link(role) in reg.order[..i] && Link(role) in reg.roles && Under(reg.roles[Link(role)], role)
  }

  ghost predicate Forest(limits: Limits, reg: Registry) {
    && reg.order != [] && reg.order[0] == 1 && 1 in reg.roles && reg.roles[1] == ROOT
    && (forall i, j :: 0 <= i < j < |reg.order| ==> reg.order[i] != reg.order[j])
    && (forall n :: n in reg.order <==> n in reg.roles)
    && (forall n :: n in reg.roles && n != 1 ==> 1 <= n <= limits.pages)
    && (forall i :: 0 < i < |reg.order| ==> LinkedAt(reg, i))
  }

  lemma RoleIsLinked(limits: Limits, reg: Registry, n: nat)
    requires Forest(limits, reg) && n in reg.roles && n != 1
    ensures Link(reg.roles[n]) in reg.roles && Under(reg.roles[Link(reg.roles[n])], reg.roles[n])
  {
    var i :| 0 <= i < |reg.order| && reg.order[i] == n;
    assert LinkedAt(reg, i);
  }

  lemma AddRoleLinks(limits: Limits, reg: Registry, ref: Ref, i: nat)
    requires Forest(limits, reg) && ref.page !in reg.roles
    requires Link(ref.role) in reg.roles && Under(reg.roles[Link(ref.role)], ref.role)
    requires 0 < i <= |reg.order|
    ensures LinkedAt(Registry(reg.roles[ref.page := ref.role], reg.order + [ref.page]), i)
  {
    var after := Registry(reg.roles[ref.page := ref.role], reg.order + [ref.page]);
    if i < |reg.order| {
      assert LinkedAt(reg, i);
      assert after.order[..i] == reg.order[..i];
    } else {
      assert after.order[..i] == reg.order;
    }
    hide Under;
  }

  lemma AddRoleForest(limits: Limits, reg: Registry, ref: Ref)
    requires Forest(limits, reg)
    requires Link(ref.role) in reg.roles && Under(reg.roles[Link(ref.role)], ref.role)
    ensures Forest(limits, AddRole(limits, reg, ref))
  {
    var after := AddRole(limits, reg, ref);
    if ref.page !in reg.roles && after != reg {
      assert ref.page !in reg.order;
      forall i | 0 < i < |after.order|
        ensures LinkedAt(after, i)
      {
        AddRoleLinks(limits, reg, ref, i);
      }
      hide LinkedAt, Under;
    }
  }

  lemma {:induction false} AddRolesForest(limits: Limits, reg: Registry, refs: seq<Ref>)
    requires Forest(limits, reg)
    requires forall ref :: ref in refs ==> Link(ref.role) in reg.roles && Under(reg.roles[Link(ref.role)], ref.role)
    ensures Forest(limits, AddRoles(limits, reg, refs).0)
  {
    hide Forest, AddRole, Under;
    if refs != [] {
      var shorter := refs[..|refs| - 1];
      AddRolesForest(limits, reg, shorter);
      AddRolesGrows(limits, reg, shorter);
      AddRoleForest(limits, AddRoles(limits, reg, shorter).0, refs[|refs| - 1]);
    }
  }

  // Whatever a page holds, validating it keeps the forest.
  lemma VisitForest(limits: Limits, reg: Registry, page: nat, bytes: Bytes)
    requires Forest(limits, reg)
    ensures Forest(limits, Visit(limits, reg, page, bytes).0)
  {
    if |bytes| == PAGE && page in reg.roles {
      var role := reg.roles[page];
      var refs := PageParse(page, role, bytes, limits.maxRecordBytes).refs;
      if role.Btree? {
        BtreeGives(page, role.schemaTree, bytes);
      } else {
        RoleIsLinked(limits, reg, page);
      }
      forall ref | ref in refs
        ensures Link(ref.role) in reg.roles && Under(reg.roles[Link(ref.role)], ref.role)
      {
        if role.Btree? {
          assert Gives(page, role.schemaTree, ref);
        }
      }
      AddRolesForest(limits, reg, refs);
      hide Forest, PageParse, AddRoles;
    }
  }

  // The bytes reserved before a page is validated cover the roles it adds, whether or
  // not it is accepted.
  lemma VisitCharge(limits: Limits, reg: Registry, page: nat, bytes: Bytes)
    requires Forest(limits, reg)
    ensures var after := Visit(limits, reg, page, bytes).0;
      && |after.roles| == |after.order| && |reg.roles| == |reg.order| <= |after.order|
      && (|after.roles| - |reg.roles|) * 128 + 64 <= PAGE * 128
      && (|bytes| == PAGE && page in reg.roles && reg.roles[page].Btree? ==>
            |after.roles| - |reg.roles| <= 2 * CellCount(bytes, if page == 1 then 100 else 0) + 1)
      && (page in reg.roles && reg.roles[page].Overflow? ==> |after.roles| - |reg.roles| <= 1)
  {
    VisitForest(limits, reg, page, bytes);
    RolesAreOrdered(limits, reg);
    RolesAreOrdered(limits, Visit(limits, reg, page, bytes).0);
    if |bytes| == PAGE && page in reg.roles {
      var role := reg.roles[page];
      AddRolesGrows(limits, reg, PageParse(page, role, bytes, limits.maxRecordBytes).refs);
      if role.Btree? {
        BtreeGives(page, role.schemaTree, bytes);
      }
    }
    hide Forest, BtreeParse, AddRoles, CellCount;
  }

  lemma RolesAreOrdered(limits: Limits, reg: Registry)
    requires Forest(limits, reg)
    ensures |reg.roles| == |reg.order|
  {
    hide LinkedAt;
    assert Elements(reg.order) == reg.roles.Keys;
  }

  ghost function Elements(s: seq<nat>): (r: set<nat>)
    requires forall i, j :: 0 <= i < j < |s| ==> s[i] != s[j]
    ensures |r| == |s| && forall n :: n in r <==> n in s
  {
    if s == [] then {}
    else
      var front, last := s[..|s| - 1], s[|s| - 1];
      assert s == front + [last];
      assert forall i :: 0 <= i < |front| ==> front[i] == s[i] != last;
      Elements(front) + {last}
  }

  // ----- Following the links ------------------------------------------------------------------

  // Each page mentioned by the next, down to page 1.
  ghost predicate Ascends(reg: Registry, path: seq<nat>) {
    && path != []
    && (forall k :: 0 <= k < |path| ==> path[k] in reg.roles)
    && (forall k :: 0 <= k < |path| - 1 ==> path[k] != 1 && path[k + 1] == Link(reg.roles[path[k]]))
  }

  function Rank(reg: Registry, n: nat): nat
    requires n in reg.order
  {
    RankIn(reg.order, n)
  }

  function RankIn(order: seq<nat>, n: nat): nat
    requires n in order
  {
    if order[0] == n then 0 else 1 + RankIn(order[1..], n)
  }

  lemma {:induction false} RankAt(order: seq<nat>, n: nat)
    requires n in order
    ensures RankIn(order, n) < |order| && order[RankIn(order, n)] == n
  {
    if order[0] != n {
      RankAt(order[1..], n);
    }
  }

  lemma LinkRank(limits: Limits, reg: Registry, n: nat)
    requires Forest(limits, reg) && n in reg.roles && n != 1
    ensures Link(reg.roles[n]) in reg.order && Rank(reg, Link(reg.roles[n])) < Rank(reg, n)
  {
    var i := Rank(reg, n);
    RankAt(reg.order, n);
    assert LinkedAt(reg, i);
    var up := Link(reg.roles[n]);
    var j :| 0 <= j < i && reg.order[j] == up;
    RankAt(reg.order, up);
    hide RankIn;
  }

  // Every registered page leads up to page 1.
  lemma {:induction false} LeadsToRoot(limits: Limits, reg: Registry, n: nat) returns (path: seq<nat>)
    requires Forest(limits, reg) && n in reg.roles
    ensures Ascends(reg, path) && path[0] == n && path[|path| - 1] == 1
    decreases Rank(reg, n)
  {
    hide Forest, Rank;
    FirstInForest(limits, reg, n);
    if n == 1 {
      path := [1];
    } else {
      LinkRank(limits, reg, n);
      var up := Link(reg.roles[n]);
      RoleIsLinked(limits, reg, n);
      path := LeadsToRoot(limits, reg, up);
      path := [n] + path;
    }
  }

  lemma FirstInForest(limits: Limits, reg: Registry, n: nat)
    requires Forest(limits, reg) && n in reg.roles
    ensures n in reg.order && 1 in reg.roles
  {
  }

  // No page is above itself.
  lemma {:induction false} NoCycle(limits: Limits, reg: Registry, path: seq<nat>)
    requires Forest(limits, reg) && Ascends(reg, path) && |path| > 1
    ensures path[0] in reg.order && path[|path| - 1] in reg.order
    ensures Rank(reg, path[|path| - 1]) < Rank(reg, path[0]) && path[0] != path[|path| - 1]
  {
    hide Rank, LinkedAt;
    LinkRank(limits, reg, path[0]);
    if |path| > 2 {
      var rest := path[1..];
      assert forall k :: 0 <= k < |rest| ==> rest[k] == path[k + 1];
      NoCycle(limits, reg, rest);
    }
  }

  // ----- Runs over one image -------------------------------------------------------------------

  // The roles, and the pages accepted so far.
  function Visits(limits: Limits, image: nat -> Bytes, calls: seq<nat>): (Registry, set<nat>) {
    if calls == [] then (NewRegistry(), {})
    else
      var (reg, accepted) := Visits(limits, image, calls[..|calls| - 1]);
      var page := calls[|calls| - 1];
      var (after, ok) := Visit(limits, reg, page, image(page));
      (after, if ok then accepted + {page} else accepted)
  }

  // An accepted page is flawless, and all its mentions have the roles it gives them.
  ghost predicate Accepts(limits: Limits, reg: Registry, page: nat, bytes: Bytes) {
    && page in reg.roles && |bytes| == PAGE
    && var parse := PageParse(page, reg.roles[page], bytes, limits.maxRecordBytes);
       parse.ok && forall ref :: ref in parse.refs ==> ref.page in reg.roles && reg.roles[ref.page] == ref.role
  }

  lemma VisitAccepts(limits: Limits, reg: Registry, page: nat, bytes: Bytes)
    ensures var (after, ok) := Visit(limits, reg, page, bytes);
      && (forall n :: n in reg.roles ==> n in after.roles && after.roles[n] == reg.roles[n])
      && (ok ==> Accepts(limits, after, page, bytes))
      && (forall q, other :: Accepts(limits, reg, q, other) ==> Accepts(limits, after, q, other))
  {
    if |bytes| == PAGE && page in reg.roles {
      AddRolesGrows(limits, reg, PageParse(page, reg.roles[page], bytes, limits.maxRecordBytes).refs);
    }
    hide AddRoles, PageParse;
  }

  // Over any calls on one image, whether they succeed or fail: the roles form a forest
  // under page 1, they only grow, and every accepted page stays accepted.
  lemma {:induction false} RunsKeepForest(limits: Limits, image: nat -> Bytes, calls: seq<nat>)
    ensures var (reg, accepted) := Visits(limits, image, calls);
      Forest(limits, reg) && forall page :: page in accepted ==> Accepts(limits, reg, page, image(page))
  {
    hide Forest, Visit, Accepts;
    if calls == [] {
      NewForest(limits);
    } else {
      RunsKeepForest(limits, image, calls[..|calls| - 1]);
      var reg := Visits(limits, image, calls[..|calls| - 1]).0;
      var page := calls[|calls| - 1];
      VisitForest(limits, reg, page, image(page));
      VisitAccepts(limits, reg, page, image(page));
    }
  }

  lemma NewForest(limits: Limits)
    ensures Forest(limits, NewRegistry())
  {
  }

  lemma {:induction false} RolesOnlyGrow(limits: Limits, image: nat -> Bytes, calls: seq<nat>, k: nat, n: nat)
    requires k <= |calls| && n in Visits(limits, image, calls[..k]).0.roles
    ensures n in Visits(limits, image, calls).0.roles
    ensures Visits(limits, image, calls).0.roles[n] == Visits(limits, image, calls[..k]).0.roles[n]
    decreases |calls|
  {
    hide Visit;
    if k == |calls| {
      assert calls[..k] == calls;
    } else {
      var shorter := calls[..|calls| - 1];
      assert shorter[..k] == calls[..k];
      RolesOnlyGrow(limits, image, shorter, k, n);
      VisitAccepts(limits, Visits(limits, image, shorter).0, calls[|calls| - 1], image(calls[|calls| - 1]));
    }
  }

  // ----- Overflow chains -----------------------------------------------------------------------

  function NextPage(bytes: Bytes): nat {
    if |bytes| < 4 then 0 else BigEndian(bytes[..4])
  }

  // The pages that hold the last `remaining` bytes of a record, starting at `n`.
  function Chain(image: nat -> Bytes, n: nat, remaining: nat): seq<nat>
    decreases remaining
  {
    if remaining <= OVERFLOW then [n] else [n] + Chain(image, NextPage(image(n)), remaining - OVERFLOW)
  }

  function Pieces(bytes: nat): nat { (bytes + OVERFLOW - 1) / OVERFLOW }

  // An accepted overflow page hands the rest of its record to the next one.
  lemma OverflowStep(limits: Limits, image: nat -> Bytes, reg: Registry, n: nat)
    requires Accepts(limits, reg, n, image(n)) && reg.roles[n].Overflow?
    ensures var role, next := reg.roles[n], NextPage(image(n));
      && role.recordBytes <= limits.maxRecordBytes
      && (if role.remaining > OVERFLOW then
            next in reg.roles && reg.roles[next] == role.(remaining := role.remaining - OVERFLOW)
          else next == 0)
  {
    var role := reg.roles[n];
    var parse := OverflowParse(role, image(n), limits.maxRecordBytes);
    if role.remaining > OVERFLOW && role.recordBytes <= limits.maxRecordBytes {
      assert parse.refs[0] in parse.refs;
    }
  }

  lemma PiecesStep(remaining: nat)
    requires OVERFLOW < remaining
    ensures Pieces(remaining) == 1 + Pieces(remaining - OVERFLOW)
  {
  }

  // All pages of a page's chain have been accepted.
  ghost predicate ChainAccepted(limits: Limits, image: nat -> Bytes, reg: Registry, n: nat, remaining: nat) {
    forall page :: page in Chain(image, n, remaining) ==> Accepts(limits, reg, page, image(page))
  }

  lemma ChainUnfold(limits: Limits, image: nat -> Bytes, reg: Registry, n: nat, remaining: nat)
    requires ChainAccepted(limits, image, reg, n, remaining)
    ensures Accepts(limits, reg, n, image(n)) && Chain(image, n, remaining)[0] == n
    ensures remaining <= OVERFLOW ==> Chain(image, n, remaining) == [n]
    ensures remaining > OVERFLOW ==>
      var rest := Chain(image, NextPage(image(n)), remaining - OVERFLOW);
      Chain(image, n, remaining) == [n] + rest && ChainAccepted(limits, image, reg, NextPage(image(n)), remaining - OVERFLOW)
  {
    hide Accepts;
    var chain := Chain(image, n, remaining);
    assert chain[0] in chain;
    if remaining > OVERFLOW {
      var rest := Chain(image, NextPage(image(n)), remaining - OVERFLOW);
      assert forall page :: page in rest ==> page in [n] + rest;
    }
  }

  // The chain of a page whose pages have all been accepted has exactly as many pages as
  // its remaining bytes fill, each in the role of its place, and ends in zero.
  lemma {:induction false} ChainExact(limits: Limits, image: nat -> Bytes, reg: Registry, n: nat, k: nat)
    requires n in reg.roles && reg.roles[n].Overflow? && 0 < reg.roles[n].remaining
    requires ChainAccepted(limits, image, reg, n, reg.roles[n].remaining) && k < |Chain(image, n, reg.roles[n].remaining)|
    ensures var role := reg.roles[n]; var chain := Chain(image, n, role.remaining);
      && |chain| == Pieces(role.remaining) && k * OVERFLOW < role.remaining
      && chain[k] in reg.roles && reg.roles[chain[k]] == role.(remaining := role.remaining - k * OVERFLOW)
      && NextPage(image(chain[k])) == if k + 1 < |chain| then chain[k + 1] else 0
    decreases reg.roles[n].remaining
  {
    hide Accepts, ChainAccepted, Chain, NextPage;
    var role := reg.roles[n];
    ChainUnfold(limits, image, reg, n, role.remaining);
    OverflowStep(limits, image, reg, n);
    if role.remaining > OVERFLOW {
      var next := NextPage(image(n));
      PiecesStep(role.remaining);
      hide Pieces;
      ChainUnfold(limits, image, reg, next, role.remaining - OVERFLOW);
      ChainExact(limits, image, reg, next, if k == 0 then 0 else k - 1);
    }
  }

  lemma PlacesApart(j: nat, k: nat)
    requires j != k
    ensures j * OVERFLOW != k * OVERFLOW
  {
  }

  // A chain visits no page twice, ...
  lemma ChainDistinct(limits: Limits, image: nat -> Bytes, reg: Registry, n: nat, j: nat, k: nat)
    requires n in reg.roles && reg.roles[n].Overflow? && 0 < reg.roles[n].remaining
    requires ChainAccepted(limits, image, reg, n, reg.roles[n].remaining)
    requires j < |Chain(image, n, reg.roles[n].remaining)| && k < |Chain(image, n, reg.roles[n].remaining)| && j != k
    ensures Chain(image, n, reg.roles[n].remaining)[j] != Chain(image, n, reg.roles[n].remaining)[k]
  {
    hide Chain, ChainAccepted, Pieces, NextPage;
    ChainExact(limits, image, reg, n, j);
    ChainExact(limits, image, reg, n, k);
    PlacesApart(j, k);
  }

  // ... and the chains of two records share no page.
  lemma ChainsApart(limits: Limits, image: nat -> Bytes, reg: Registry, m: nat, n: nat, j: nat, k: nat)
    requires m in reg.roles && reg.roles[m].Overflow? && 0 < reg.roles[m].remaining
    requires n in reg.roles && reg.roles[n].Overflow? && 0 < reg.roles[n].remaining
    requires ChainAccepted(limits, image, reg, m, reg.roles[m].remaining)
    requires ChainAccepted(limits, image, reg, n, reg.roles[n].remaining)
    requires j < |Chain(image, m, reg.roles[m].remaining)| && k < |Chain(image, n, reg.roles[n].remaining)|
    requires reg.roles[m].owner != reg.roles[n].owner || reg.roles[m].cell != reg.roles[n].cell
    ensures Chain(image, m, reg.roles[m].remaining)[j] != Chain(image, n, reg.roles[n].remaining)[k]
  {
    hide Chain, ChainAccepted, Pieces, NextPage;
    ChainExact(limits, image, reg, m, j);
    ChainExact(limits, image, reg, n, k);
  }

  // With pages of 4096 bytes at most 4061 bytes of a table row stay on its page, and at most
  // 1002 of an index entry; of a payload that overflows at least 489.
  function MostLocal(ty: nat): nat {
    if ty == 13 then 4061 else 1002
  }

  const LEAST_LOCAL: nat := 489

  // What does not stay fills whole overflow pages.
  predicate FillsPages(payload: nat, n: nat) {
    n <= payload && (payload - n) % OVERFLOW == 0
  }

  predicate Splits(payload: nat, ty: nat, n: nat) {
    if payload <= MostLocal(ty) then n == payload
    else
      && LEAST_LOCAL <= n <= MostLocal(ty)
      && (FillsPages(payload, n)
          || (n == LEAST_LOCAL && forall k: nat :: LEAST_LOCAL <= k <= MostLocal(ty) ==> !FillsPages(payload, k)))
  }

  // The local part is the one length the format allows: all of a payload that fits, else
  // the length that leaves full overflow pages, else the least.
  lemma LocalSplit(payload: nat, ty: nat, n: nat)
    ensures Local(payload, ty) == n <==> Splits(payload, ty, n)
  {
    if payload > MostLocal(ty) {
      var whole := LEAST_LOCAL + (payload - LEAST_LOCAL) % OVERFLOW;
      assert FillsPages(payload, whole);
      forall k: nat | LEAST_LOCAL <= k <= MostLocal(ty) && FillsPages(payload, k)
        ensures k == whole
      {
        OneFill(payload, k, whole);
      }
    }
  }

  lemma OneFill(payload: nat, j: nat, k: nat)
    requires FillsPages(payload, j) && FillsPages(payload, k)
    requires LEAST_LOCAL <= j < LEAST_LOCAL + OVERFLOW && LEAST_LOCAL <= k < LEAST_LOCAL + OVERFLOW
    ensures j == k
  {
  }

  // ----- The validator as the source runs it -----------------------------------------------------

  lemma VarintStep(b: Bytes, i: nat, v: nat)
    requires i < 8 && i < |b| && b[i] as nat >= 128
    ensures VarintFrom(b, i, v) == VarintFrom(b, i + 1, v * 128 + (b[i] as nat - 128))
  {
  }

  lemma VarintEnd(b: Bytes, i: nat, v: nat)
    requires i <= 8
    ensures i >= |b| ==> VarintFrom(b, i, v).None?
    ensures i < |b| && i == 8 ==> VarintFrom(b, i, v) == Some((v * 256 + b[i] as nat, 9))
    ensures i < |b| && i < 8 && b[i] as nat < 128 ==> VarintFrom(b, i, v) == Some((v * 128 + b[i] as nat, i + 1))
  {
  }

  // varint
  method DecodeVarint(b: Bytes) returns (r: Option<(nat, nat)>)
    ensures r == Varint(b)
  {
    var v: nat := 0;
    var i: nat := 0;
    while i < |b| && i < 9
      invariant i <= 8 && i <= |b|
      invariant Varint(b) == VarintFrom(b, i, v)
    {
      hide VarintFrom;
      VarintEnd(b, i, v);
      if i == 8 {
        return Some((v * 256 + b[8] as nat, 9));
      }
      if b[i] as nat < 128 {
        return Some((v * 128 + b[i] as nat, i + 1));
      }
      VarintStep(b, i, v);
      v := v * 128 + (b[i] as nat - 128);
      i := i + 1;
    }
    VarintEnd(b, i, v);
    return None;
  }

  lemma {:induction false} SerialsPrefix(b: Bytes, at: nat, done: seq<nat>)
    requires at <= |b|
    requires Serials(b).Some? <==> Serials(b[at..]).Some?
    requires Serials(b).Some? ==> Serials(b).value == done + Serials(b[at..]).value
    ensures at < |b| ==>
      match Varint(b[at..])
      case None => Serials(b).None?
      case Some((v, n)) =>
        && at + n <= |b| && (Serials(b).Some? <==> Serials(b[at + n..]).Some?)
        && (Serials(b).Some? ==> Serials(b).value == done + [v] + Serials(b[at + n..]).value)
  {
    if at < |b| {
      VarintShape(b[at..]);
      if Varint(b[at..]).Some? {
        assert b[at..][Varint(b[at..]).value.1..] == b[at + Varint(b[at..]).value.1..];
      }
    }
  }

  lemma NoSerials()
    ensures Serials([]) == Some([])
  {
  }

  // The header of a schema row, serial type by serial type.
  method ReadSerials(record: Bytes) returns (serial: Option<seq<nat>>)
    ensures serial == Serials(record)
  {
    NoSerials();
    hide Serials, Varint;
    var at: nat := 0;
    var read: seq<nat> := [];
    assert record[0..] == record;
    while at < |record|
      invariant at <= |record|
      invariant Serials(record).Some? <==> Serials(record[at..]).Some?
      invariant Serials(record).Some? ==> Serials(record).value == read + Serials(record[at..]).value
    {
      SerialsPrefix(record, at, read);
      VarintShape(record[at..]);
      var value := DecodeVarint(record[at..]);
      if value.None? {
        return None;
      }
      read := read + [value.value.0];
      at := at + value.value.1;
    }
    assert record[at..] == [] && read + [] == read;
    return Some(read);
  }

  // Where the fourth value starts.
  method SkipValues(serial: seq<nat>, h: nat, size: nat) returns (at: Option<nat>)
    requires |serial| >= 4
    ensures at == ValueAt(serial, h, size, 3)
  {
    var valueAt := h;
    for i := 0 to 3
      invariant ValueAt(serial, h, size, i) == Some(valueAt)
    {
      var n := SerialLen(serial[i]);
      if n.None? || valueAt + n.value > size {
        StaysNone(serial, h, size, i + 1, 3);
        return None;
      }
      valueAt := valueAt + n.value;
    }
    return Some(valueAt);
  }

  // schema_root
  method ParseSchemaRoot(payload: Bytes) returns (r: Result<Option<nat>>)
    ensures r == SchemaRoot(payload)
  {
    hide Serials, ValueAt, Varint, RootValue;
    var head := DecodeVarint(payload);
    if head.None? {
      return Err(Corrupt);
    }
    var (h, n) := head.value;
    if h < n || h > |payload| {
      return Err(Corrupt);
    }
    var serial := ReadSerials(payload[n..h]);
    if serial.None? || |serial.value| < 4 {
      return Err(Corrupt);
    }
    var at := SkipValues(serial.value, h, |payload|);
    if at.None? || SerialLen(serial.value[3]).None? {
      return Err(Corrupt);
    }
    return RootValue(payload, at.value, serial.value[3]);
  }

  lemma {:induction false} StaysNone(serials: seq<nat>, h: nat, size: nat, i: nat, k: nat)
    requires i <= k <= |serials| && ValueAt(serials, h, size, i).None?
    ensures ValueAt(serials, h, size, k).None?
  {
    if i < k {
      StaysNone(serials, h, size, i, k - 1);
    }
  }

  // A refused mention ends the registration.
  lemma {:induction false} AddRolesStops(limits: Limits, reg: Registry, a: seq<Ref>, b: seq<Ref>)
    requires !AddRoles(limits, reg, a).1
    ensures AddRoles(limits, reg, a + b) == AddRoles(limits, reg, a)
  {
    hide AddRole, Admits;
    if b == [] {
      assert a + b == a;
    } else {
      var shorter := b[..|b| - 1];
      AddRolesStops(limits, reg, a, shorter);
      assert (a + b)[..|a + b| - 1] == a + shorter;
    }
  }

  // The mentions in `refs`, all admitted, and then those of `parse` lead from `before` to
  // `after`, and all is well exactly if `ok`.
  ghost predicate Registers(limits: Limits, before: Registry, refs: seq<Ref>, parse: Parse, after: Registry, ok: bool) {
    var (reg, admitted) := AddRoles(limits, before, refs + parse.refs);
    reg == after && ok == (admitted && parse.ok)
  }

  lemma RegistersFlaw(limits: Limits, before: Registry, refs: seq<Ref>, after: Registry)
    requires AddRoles(limits, before, refs) == (after, true)
    ensures Registers(limits, before, refs, Parse([], false), after, false)
  {
    assert refs + [] == refs;
  }

  lemma RegistersMore(limits: Limits, before: Registry, refs: seq<Ref>, first: seq<Ref>, rest: Parse, after: Registry, ok: bool)
    requires AddRoles(limits, before, refs + first).1 ==> Registers(limits, before, refs + first, rest, after, ok)
    requires !AddRoles(limits, before, refs + first).1 ==> after == AddRoles(limits, before, refs + first).0 && !ok
    ensures Registers(limits, before, refs, Parse(first + rest.refs, rest.ok), after, ok)
  {
    assert refs + (first + rest.refs) == refs + first + rest.refs;
    if !AddRoles(limits, before, refs + first).1 {
      AddRolesStops(limits, before, refs + first, rest.refs);
    }
  }

  lemma RegistersChild(limits: Limits, before: Registry, refs: seq<Ref>, child: seq<Ref>, sound: bool, after: Registry)
    requires AddRoles(limits, before, refs + child).0 == after
    ensures Registers(limits, before, refs, Parse(child, sound), after, AddRoles(limits, before, refs + child).1 && sound)
  {
  }

  // The first cells' mentions come first, and a flaw there is the last word.
  lemma {:induction false} CellsTail(page: nat, ty: nat, schemaTree: bool, bytes: Bytes, start: nat, cells: nat, i: nat, k: nat)
    returns (tail: seq<Ref>)
    requires |bytes| == PAGE && start + cells * 2 <= PAGE && i <= k <= cells
    ensures var a, b := CellsParse(page, ty, schemaTree, bytes, start, cells, i), CellsParse(page, ty, schemaTree, bytes, start, cells, k);
      b.refs == a.refs + tail && (!a.ok ==> b == a)
    decreases k
  {
    hide CellParse;
    tail := [];
    if i < k {
      tail := CellsTail(page, ty, schemaTree, bytes, start, cells, i, k - 1);
      var before := CellsParse(page, ty, schemaTree, bytes, start, cells, k - 1);
      if before.ok {
        tail := tail + CellParse(page, ty, schemaTree, bytes, start, cells, k - 1).refs;
      }
    }
  }

  lemma CellsStep(page: nat, ty: nat, schemaTree: bool, bytes: Bytes, start: nat, cells: nat, i: nat)
    requires |bytes| == PAGE && start + cells * 2 <= PAGE && i < cells
    ensures CellsParse(page, ty, schemaTree, bytes, start, cells, i + 1)
         == Then(CellsParse(page, ty, schemaTree, bytes, start, cells, i), CellParse(page, ty, schemaTree, bytes, start, cells, i))
  {
    hide CellParse;
  }

  lemma FlawStops(limits: Limits, before: Registry, refs: seq<Ref>, first: Parse, whole: Parse, tail: seq<Ref>, after: Registry)
    requires Registers(limits, before, refs, first, after, false)
    requires whole.refs == first.refs + tail && (!first.ok ==> whole == first)
    ensures Registers(limits, before, refs, whole, after, false)
  {
    hide AddRoles;
    assert refs + whole.refs == refs + first.refs + tail;
    if first.ok {
      AddRolesStops(limits, before, refs + first.refs, tail);
    }
  }

  lemma RegistersJoined(limits: Limits, before: Registry, refs: seq<Ref>, done: Parse, more: Parse, after: Registry, ok: bool)
    requires done.ok && Registers(limits, before, refs + done.refs, more, after, ok)
    ensures Registers(limits, before, refs, Then(done, more), after, ok)
  {
    assert refs + done.refs + more.refs == refs + (done.refs + more.refs);
  }

  // A cell that is flawed or refused settles the whole page.
  lemma CellSettles(limits: Limits, before: Registry, right: seq<Ref>, page: nat, ty: nat, schemaTree: bool, bytes: Bytes,
                    start: nat, cells: nat, i: nat, after: Registry)
    requires |bytes| == PAGE && start + cells * 2 <= PAGE && i < cells
    requires CellsParse(page, ty, schemaTree, bytes, start, cells, i).ok
    requires Registers(limits, before, right + CellsParse(page, ty, schemaTree, bytes, start, cells, i).refs,
                       CellParse(page, ty, schemaTree, bytes, start, cells, i), after, false)
    ensures Registers(limits, before, right, CellsParse(page, ty, schemaTree, bytes, start, cells, cells), after, false)
  {
    CellsStep(page, ty, schemaTree, bytes, start, cells, i);
    hide CellParse, AddRoles, CellsParse, Registers, Then;
    RegistersJoined(limits, before, right, CellsParse(page, ty, schemaTree, bytes, start, cells, i),
                    CellParse(page, ty, schemaTree, bytes, start, cells, i), after, false);
    var tail := CellsTail(page, ty, schemaTree, bytes, start, cells, i + 1, cells);
    FlawStops(limits, before, right, CellsParse(page, ty, schemaTree, bytes, start, cells, i + 1),
              CellsParse(page, ty, schemaTree, bytes, start, cells, cells), tail, after);
  }

  // A cell that is sound and admitted extends the page's mentions.
  lemma CellExtends(limits: Limits, before: Registry, right: seq<Ref>, page: nat, ty: nat, schemaTree: bool, bytes: Bytes,
                    start: nat, cells: nat, i: nat, after: Registry)
    requires |bytes| == PAGE && start + cells * 2 <= PAGE && i < cells
    requires CellsParse(page, ty, schemaTree, bytes, start, cells, i).ok
    requires Registers(limits, before, right + CellsParse(page, ty, schemaTree, bytes, start, cells, i).refs,
                       CellParse(page, ty, schemaTree, bytes, start, cells, i), after, true)
    ensures CellsParse(page, ty, schemaTree, bytes, start, cells, i + 1).ok
    ensures AddRoles(limits, before, right + CellsParse(page, ty, schemaTree, bytes, start, cells, i + 1).refs) == (after, true)
  {
    hide CellParse, AddRoles;
    var done := CellsParse(page, ty, schemaTree, bytes, start, cells, i);
    var more := CellParse(page, ty, schemaTree, bytes, start, cells, i);
    assert right + done.refs + more.refs == right + (done.refs + more.refs);
  }

  lemma NoMentions(limits: Limits, reg: Registry)
    ensures AddRoles(limits, reg, []) == (reg, true)
    ensures Registers(limits, reg, [], Parse([], false), reg, false)
  {
    var none: seq<Ref> := [];
    assert none + none == none;
  }

  class PageValidator {
    const limits: Limits
    var roles: map<nat, Role>
    ghost var order: seq<nat>

    ghost function Reg(): Registry
      reads this
    {
      Registry(roles, order)
    }

    constructor (l: Limits)
      ensures limits == l && Reg() == NewRegistry()
    {
      limits, roles, order := l, map[1 := ROOT], [1];
    }

    // Give page `n` a role, count it when it is new.
    method Add(n: nat, role: Role, added: nat) returns (ok: bool, count: nat)
      modifies this
      ensures Reg() == AddRole(limits, old(Reg()), Ref(n, role)) && ok == Admits(limits, old(Reg()), Ref(n, role))
      ensures count == added + |order| - |old(order)|
    {
      if n == 0 || n > limits.pages {
        return false, added;
      }
      if n in roles {
        return roles[n] == role, added;
      }
      if |roles| >= limits.maxRoles {
        return false, added;
      }
      roles, order := roles[n := role], order + [n];
      return true, added + 1;
    }

    // One mention after others have been registered.
    method AddNext(ghost before: Registry, ghost refs: seq<Ref>, ref: Ref, added: nat) returns (ok: bool, count: nat)
      requires AddRoles(limits, before, refs) == (Reg(), true)
      modifies this
      ensures AddRoles(limits, before, refs + [ref]) == (Reg(), ok) && count == added + |order| - |old(order)|
    {
      assert (refs + [ref])[..|refs|] == refs;
      ok, count := Add(ref.page, ref.role, added);
    }

    method Payload(page: nat, cell: nat, ty: nat, schemaTree: bool, bytes: Bytes, cursor: nat,
                   ghost before: Registry, ghost refs: seq<Ref>, added: nat)
      returns (ok: bool, count: nat)
      requires |bytes| == PAGE && cursor <= PAGE && AddRoles(limits, before, refs) == (Reg(), true)
      modifies this
      ensures Registers(limits, before, refs, PayloadParse(page, cell, ty, schemaTree, bytes, cursor), Reg(), ok)
      ensures count == added + |order| - |old(order)|
    {
      hide Varint, Local, SchemaRoot, AddRoles, BigEndian, Registers;
      count := added;
      RegistersFlaw(limits, before, refs, Reg());
      var length := DecodeVarint(bytes[cursor..]);
      if length.None? {
        return false, count;
      }
      var (payload, n) := length.value;
      VarintShape(bytes[cursor..]);
      var rowid := Some((0, 0));
      if ty == 13 {
        rowid := DecodeVarint(bytes[cursor + n..]);
        if rowid.None? {
          return false, count;
        }
        VarintShape(bytes[cursor + n..]);
      }
      var local := Local(payload, ty);
      var start := cursor + n + rowid.value.1;
      var end := start + local;
      if end > PAGE {
        return false, count;
      }
      var root := Ok(None);
      if schemaTree && ty == 13 {
        root := ParseSchemaRoot(bytes[start..end]);
        if root.Err? {
          return false, count;
        }
      }
      ok, count := Mentions(page, cell, bytes, payload, local, end, root.value, before, refs, added);
    }

    // The mentions of one payload: a root page, then the first overflow page.
    method Mentions(page: nat, cell: nat, bytes: Bytes, payload: nat, local: nat, end: nat, root: Option<nat>,
                    ghost before: Registry, ghost refs: seq<Ref>, added: nat)
      returns (ok: bool, count: nat)
      requires |bytes| == PAGE && end <= PAGE && AddRoles(limits, before, refs) == (Reg(), true)
      modifies this
      ensures var first := OverflowMention(page, cell, bytes, payload, local, end);
        Registers(limits, before, refs, Parse(RootMention(page, cell, root) + first.refs, first.ok), Reg(), ok)
      ensures count == added + |order| - |old(order)|
    {
      hide BigEndian, AddRoles;
      ok, count := true, added;
      ghost var roots := RootMention(page, cell, root);
      ghost var first := OverflowMention(page, cell, bytes, payload, local, end);
      assert refs + [] == refs;
      if root.Some? && root.value != 0 {
        ok, count := AddNext(before, refs, Ref(root.value, Btree(page, cell, true, false)), added);
      }
      if ok {
        assert refs + roots + [] == refs + roots;
        if payload > local {
          if end + 4 > PAGE {
            ok := false;
          } else {
            ok, count := AddNext(before, refs + roots,
              Ref(BigEndian(bytes[end..end + 4]), Overflow(page, cell, payload - local, payload)), count);
          }
        }
      }
      RegistersMore(limits, before, refs, roots, first, Reg(), ok);
    }

    method Cell(page: nat, ty: nat, schemaTree: bool, bytes: Bytes, start: nat, cells: nat, cell: nat,
                ghost before: Registry, ghost refs: seq<Ref>, added: nat)
      returns (ok: bool, count: nat)
      requires |bytes| == PAGE && start + cells * 2 <= PAGE && cell < cells && AddRoles(limits, before, refs) == (Reg(), true)
      modifies this
      ensures Registers(limits, before, refs, CellParse(page, ty, schemaTree, bytes, start, cells, cell), Reg(), ok)
      ensures count == added + |order| - |old(order)|
    {
      hide PayloadParse, Varint, AddRoles, BigEndian, Registers;
      count := added;
      RegistersFlaw(limits, before, refs, Reg());
      var at := BigEndian(bytes[start + cell * 2..start + cell * 2 + 2]);
      if at < start + cells * 2 || at >= PAGE {
        return false, count;
      }
      if !Interior(ty) {
        ok, count := Payload(page, cell, ty, schemaTree, bytes, at, before, refs, added);
        return;
      }
      if at + 4 > PAGE {
        return false, count;
      }
      ghost var child := [Ref(BigEndian(bytes[at..at + 4]), Btree(page, cell, false, schemaTree))];
      ok, count := AddNext(before, refs, Ref(BigEndian(bytes[at..at + 4]), Btree(page, cell, false, schemaTree)), added);
      if ty == 5 {
        if ok {
          var rowid := DecodeVarint(bytes[at + 4..]);
          ok := rowid.Some?;
          RegistersChild(limits, before, refs, child, rowid.Some?, Reg());
        } else {
          RegistersChild(limits, before, refs, child, Varint(bytes[at + 4..]).Some?, Reg());
        }
        return;
      }
      if ok {
        ok, count := Payload(page, cell, ty, schemaTree, bytes, at + 4, before, refs + child, count);
      }
      RegistersMore(limits, before, refs, child, PayloadParse(page, cell, ty, schemaTree, bytes, at + 4), Reg(), ok);
    }

    method Cells(page: nat, ty: nat, schemaTree: bool, bytes: Bytes, start: nat, cells: nat,
                 ghost before: Registry, ghost right: seq<Ref>, added: nat)
      returns (ok: bool, count: nat)
      requires |bytes| == PAGE && start + cells * 2 <= PAGE && AddRoles(limits, before, right) == (Reg(), true)
      modifies this
      ensures Registers(limits, before, right, CellsParse(page, ty, schemaTree, bytes, start, cells, cells), Reg(), ok)
      ensures count == added + |order| - |old(order)|
    {
      ok, count := true, added;
      assert right + [] == right;
      for i := 0 to cells
        invariant CellsParse(page, ty, schemaTree, bytes, start, cells, i).ok
        invariant AddRoles(limits, before, right + CellsParse(page, ty, schemaTree, bytes, start, cells, i).refs) == (Reg(), true)
        invariant count == added + |order| - |old(order)|
      {
        hide CellParse, AddRoles, CellsParse, Registers;
        ok, count := Cell(page, ty, schemaTree, bytes, start, cells, i, before,
                          right + CellsParse(page, ty, schemaTree, bytes, start, cells, i).refs, count);
        if !ok {
          CellSettles(limits, before, right, page, ty, schemaTree, bytes, start, cells, i, Reg());
          return;
        }
        CellExtends(limits, before, right, page, ty, schemaTree, bytes, start, cells, i, Reg());
      }
      ok := true;
    }

    method Tree(page: nat, schemaTree: bool, bytes: Bytes) returns (ok: bool, count: nat)
      requires |bytes| == PAGE
      modifies this
      ensures Registers(limits, old(Reg()), [], BtreeParse(page, schemaTree, bytes), Reg(), ok)
      ensures count == |order| - |old(order)|
    {
      hide AddRoles, BigEndian, CellsParse, Geometry, CellCount;
      ghost var before := Reg();
      NoMentions(limits, before);
      var off := if page == 1 then 100 else 0;
      if page == 1 && !Geometry(bytes) {
        return false, 0;
      }
      var ty := bytes[off] as nat;
      if ty !in {2, 5, 10, 13} {
        return false, 0;
      }
      var start := off + if Interior(ty) then 12 else 8;
      var cells := CellCount(bytes, off);
      if start + cells * 2 > PAGE {
        return false, 0;
      }
      ok, count := true, 0;
      ghost var right: seq<Ref> := [];
      if Interior(ty) {
        var child := Ref(BigEndian(bytes[off + 8..off + 12]), Btree(page, RIGHTMOST, false, schemaTree));
        ok, count := AddNext(before, [], child, 0);
        right := [child];
        assert [] + right == right;
      }
      if ok {
        ok, count := Cells(page, ty, schemaTree, bytes, start, cells, before, right, count);
      }
      assert [] + right == right;
      RegistersMore(limits, before, [], right, CellsParse(page, ty, schemaTree, bytes, start, cells, cells), Reg(), ok);
    }

    // One page of the image. Whatever it holds, the roles it gives before its first flaw
    // stay; it is accepted when it has none and every role fits those given before.
    method Validate(page: nat, bytes: Bytes) returns (ok: bool, added: nat)
      modifies this
      ensures (Reg(), ok) == Visit(limits, old(Reg()), page, bytes)
      ensures added == |order| - |old(order)|
    {
      hide BtreeParse, AddRoles, BigEndian;
      NoMentions(limits, Reg());
      if |bytes| != PAGE || page == 0 || page > limits.pages || page !in roles {
        return false, 0;
      }
      var role := roles[page];
      if role.Btree? {
        ghost var before := Reg();
        ok, added := Tree(page, role.schemaTree, bytes);
        assert [] + BtreeParse(page, role.schemaTree, bytes).refs == BtreeParse(page, role.schemaTree, bytes).refs;
        return;
      }
      if role.recordBytes > limits.maxRecordBytes {
        return false, 0;
      }
      var take := if role.remaining < OVERFLOW then role.remaining else OVERFLOW;
      var next := BigEndian(bytes[..4]);
      if role.remaining > take {
        ghost var before := Reg();
        assert [] + [Ref(next, role.(remaining := role.remaining - take))] == [Ref(next, role.(remaining := role.remaining - take))];
        ok, added := AddNext(before, [], Ref(next, role.(remaining := role.remaining - take)), 0);
        return;
      }
      return next == 0, 0;
    }
  }
}
