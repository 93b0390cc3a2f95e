// B-tree pages of SQLite as values and as the 4096 bytes they are written to, and what the
// page check makes of those bytes (section 1.6 of the SQLite Database File Format).
module BtreePages {
  import opened Wrappers
  import opened Objects
  import opened Encoding
  import opened PageRoles
  import opened SchemaRecords

  datatype Kind = IndexInterior | TableInterior | IndexLeaf | TableLeaf

  // A record of `size` bytes, the first of them on this page and the others on overflow pages.
  datatype Payload = Payload(size: nat, local: Bytes, overflow: nat)

  // A cell, with the page below it, and in the schema table the root page its row names.
  datatype Cell =
    | Key(child: nat, entry: Payload)
    | Separator(child: nat, rowid: nat)
    | IndexEntry(entry: Payload)
    | Row(rowid: nat, record: Payload, root: Option<nat>)

  // `right` is the last page below, on interior pages.
  datatype Page = Page(kind: Kind, right: nat, cells: seq<Cell>)

  function Code(kind: Kind): byte {
    match kind
    case IndexInterior => 2
    case TableInterior => 5
    case IndexLeaf => 10
    case TableLeaf => 13
  }

  function KindOf(cell: Cell): Kind {
    match cell
    case Key(_, _) => IndexInterior
    case Separator(_, _) => TableInterior
    case IndexEntry(_) => Kind.IndexLeaf
    case Row(_, _, _) => TableLeaf
  }

  predicate HasChildren(kind: Kind) {
    kind.IndexInterior? || kind.TableInterior?
  }

  function HeaderSize(kind: Kind): nat {
    if HasChildren(kind) then 12 else 8
  }

  function Front(n: nat): nat {
    if n == 1 then 100 else 0
  }

  // ----- Pages as the format allows them -------------------------------------------------------

  predicate FourBytes(v: nat) {
    v < 0x1_0000_0000
  }

  predicate PayloadOk(kind: Kind, p: Payload) {
    p.size <= U64_MAX && FourBytes(p.overflow) && Splits(p.size, Code(kind) as nat, |p.local|)
  }

  ghost predicate CellOk(schemaTree: bool, cell: Cell) {
    match cell
    case Key(child, entry) => FourBytes(child) && PayloadOk(IndexInterior, entry)
    case Separator(child, rowid) => FourBytes(child) && rowid <= U64_MAX
    case IndexEntry(entry) => PayloadOk(Kind.IndexLeaf, entry)
    case Row(rowid, record, root) =>
      && rowid <= U64_MAX && PayloadOk(TableLeaf, record)
      && if schemaTree then NamesRoot(record.local, root) else root == None
  }

  ghost predicate PageOk(schemaTree: bool, page: Page) {
    && FourBytes(page.right) && |page.cells| < 0x1_0000
    && forall i :: 0 <= i < |page.cells| ==> KindOf(page.cells[i]) == page.kind && CellOk(schemaTree, page.cells[i])
  }

  // ----- What a page mentions --------------------------------------------------------------------

  function Spill(n: nat, cell: nat, p: Payload): seq<Ref> {
    if p.size > |p.local| then [Ref(p.overflow, Overflow(n, cell, p.size - |p.local|, p.size))] else []
  }

  function CellMentions(n: nat, schemaTree: bool, i: nat, cell: Cell): seq<Ref> {
    match cell
    case Key(child, entry) => [Ref(child, Btree(n, i, false, schemaTree))] + Spill(n, i, entry)
    case Separator(child, _) => [Ref(child, Btree(n, i, false, schemaTree))]
    case IndexEntry(entry) => Spill(n, i, entry)
    case Row(_, record, None) => Spill(n, i, record)
    case Row(_, record, Some(root)) =>
      if root == 0 then Spill(n, i, record)
      else [Ref(root, Btree(n, i, true, false))] + Spill(n, i, record)
  }

  // The mentions of the first `k` cells, in order.
  function CellsMentions(n: nat, schemaTree: bool, cells: seq<Cell>, k: nat): seq<Ref>
    requires k <= |cells|
  {
    if k == 0 then [] else CellsMentions(n, schemaTree, cells, k - 1) + CellMentions(n, schemaTree, k - 1, cells[k - 1])
  }

  function Mentions(n: nat, schemaTree: bool, page: Page): seq<Ref> {
    var right := if HasChildren(page.kind) then [Ref(page.right, Btree(n, RIGHTMOST, false, schemaTree))] else [];
    right + CellsMentions(n, schemaTree, page.cells, |page.cells|)
  }

  // ----- Pages as bytes ------------------------------------------------------------------------------

  function Two(v: nat): (b: Bytes)
    ensures |b| == 2
  {
    ToBigEndian(v, 2)
  }

  function Four(v: nat): (b: Bytes)
    ensures |b| == 4
  {
    ToBigEndian(v, 4)
  }

  function PayloadBytes(p: Payload): Bytes {
    p.local + if p.size > |p.local| then Four(p.overflow) else []
  }

  // An integer of `k` bytes.
  predicate VarintAt(b: Bytes, at: nat, v: nat, k: nat) {
    at + k <= |b| && IsVarint(b[at..at + k], v)
  }

  ghost predicate EntryAt(b: Bytes, at: nat, p: Payload) {
    exists j: nat :: VarintAt(b, at, p.size, j) && Occurs(b, at + j, PayloadBytes(p))
  }

  ghost predicate RowidAt(b: Bytes, at: nat, rowid: nat) {
    exists k: nat :: VarintAt(b, at, rowid, k)
  }

  ghost predicate RestAt(b: Bytes, at: nat, rowid: nat, p: Payload) {
    exists k: nat :: VarintAt(b, at, rowid, k) && Occurs(b, at + k, PayloadBytes(p))
  }

  ghost predicate RowAt(b: Bytes, at: nat, rowid: nat, p: Payload) {
    exists j: nat :: VarintAt(b, at, p.size, j) && RestAt(b, at + j, rowid, p)
  }

  // The bytes of a cell, its integers in any form.
  ghost predicate CellAt(b: Bytes, at: nat, cell: Cell) {
    match cell
    case Key(child, entry) => Occurs(b, at, Four(child)) && EntryAt(b, at + 4, entry)
    case Separator(child, rowid) => Occurs(b, at, Four(child)) && RowidAt(b, at + 4, rowid)
    case IndexEntry(entry) => EntryAt(b, at, entry)
    case Row(rowid, record, _) => RowAt(b, at, rowid, record)
  }

  // The pointer array starts here in page `n`.
  function PointersAt(n: nat, page: Page): nat {
    Front(n) + HeaderSize(page.kind)
  }

  // The cell of entry `i` of the pointer array is at the position found there, behind the array.
  ghost predicate HoldsCell(b: Bytes, n: nat, page: Page, i: nat, at: nat)
    requires i < |page.cells|
  {
    && PointersAt(n, page) + 2 * |page.cells| <= at < PAGE
    && Occurs(b, PointersAt(n, page) + 2 * i, Two(at)) && CellAt(b, at, page.cells[i])
  }

  predicate HoldsHeader(b: Bytes, n: nat, page: Page) {
    && Occurs(b, Front(n), [Code(page.kind)]) && Occurs(b, Front(n) + 3, Two(|page.cells|))
    && (HasChildren(page.kind) ==> Occurs(b, Front(n) + 8, Four(page.right)))
    && (n == 1 ==> Occurs(b, 0, HEADER) && Occurs(b, 16, [16, 0]) && Occurs(b, 20, [0, 64, 32, 32]))
  }

  // These bytes hold the page, its cells anywhere and in any order.
  ghost predicate Holds(b: Bytes, n: nat, page: Page, at: seq<nat>) {
    && |b| == PAGE && |at| == |page.cells| && HoldsHeader(b, n, page)
    && PointersAt(n, page) + 2 * |page.cells| <= PAGE
    && forall i :: 0 <= i < |page.cells| ==> HoldsCell(b, n, page, i, at[i])
  }

  // ----- Reading ---------------------------------------------------------------------------------------

  lemma TwoReads(b: Bytes, at: nat, v: nat)
    requires v < 0x1_0000 && Occurs(b, at, Two(v))
    ensures at + 2 <= |b| && BigEndian(b[at..at + 2]) == v
  {
    assert Pow(256, 2) == 0x1_0000;
    BigEndianInverse(v, 2);
    hide BigEndian, ToBigEndian, Pow;
  }

  lemma FourReads(b: Bytes, at: nat, v: nat)
    requires FourBytes(v) && Occurs(b, at, Four(v))
    ensures at + 4 <= |b| && BigEndian(b[at..at + 4]) == v
  {
    assert Pow(256, 4) == 0x1_0000_0000 by {
      assert Pow(256, 2) == 0x1_0000;
      assert Pow(256, 3) == 256 * Pow(256, 2);
    }
    BigEndianInverse(v, 4);
    hide BigEndian, ToBigEndian, Pow;
  }

  lemma VarintReads(b: Bytes, at: nat, v: nat, k: nat)
    requires at <= |b|
    ensures Varint(b[at..]) == Some((v, k)) <==> VarintAt(b, at, v, k)
    ensures VarintAt(b, at, v, k) ==> 0 < k && v <= U64_MAX
  {
    hide Varint;
    VarintExactly(b[at..], v, k);
    if at + k <= |b| {
      assert b[at..][..k] == b[at..at + k];
    }
    if VarintAt(b, at, v, k) {
      VarintBound(b[at..at + k], v);
    }
    hide Groups, Pow;
  }

  // The pointer behind a local part.
  lemma SpillReads(n: nat, i: nat, b: Bytes, p: Payload, end: nat)
    requires |b| == PAGE && end <= PAGE && FourBytes(p.overflow) && |p.local| <= p.size
    requires p.size > |p.local| ==> Occurs(b, end, Four(p.overflow))
    ensures OverflowMention(n, i, b, p.size, |p.local|, end) == Parse(Spill(n, i, p), true)
  {
    hide Four, BigEndian, Occurs;
    if p.size > |p.local| {
      FourReads(b, end, p.overflow);
    }
  }

  lemma PayloadPlaces(b: Bytes, at: nat, p: Payload)
    requires Occurs(b, at, PayloadBytes(p))
    ensures at + |p.local| <= |b| && b[at..at + |p.local|] == p.local
    ensures p.size > |p.local| ==> Occurs(b, at + |p.local|, Four(p.overflow))
  {
    OccursBoth(b, at, p.local, if p.size > |p.local| then Four(p.overflow) else []);
    hide Four;
  }

  lemma SplitShape(kind: Kind, p: Payload)
    requires PayloadOk(kind, p)
    ensures Local(p.size, Code(kind) as nat) == |p.local| <= p.size && p.size <= U64_MAX && FourBytes(p.overflow)
  {
    LocalSplit(p.size, Code(kind) as nat, |p.local|);
  }

  // An index entry is read as written, ...
  lemma EntryReads(n: nat, i: nat, kind: Kind, schemaTree: bool, b: Bytes, at: nat, p: Payload)
    requires |b| == PAGE && at <= PAGE && !kind.TableLeaf? && PayloadOk(kind, p) && EntryAt(b, at, p)
    ensures PayloadParse(n, i, Code(kind) as nat, schemaTree, b, at) == Parse(Spill(n, i, p), true)
  {
    hide Varint, VarintAt, Local, SchemaRoot, OverflowMention, Spill, PayloadBytes, PayloadOk, Occurs, FourBytes;
    SplitShape(kind, p);
    var j: nat :| VarintAt(b, at, p.size, j) && Occurs(b, at + j, PayloadBytes(p));
    VarintReads(b, at, p.size, j);
    PayloadPlaces(b, at + j, p);
    SpillReads(n, i, b, p, at + j + |p.local|);
    assert RootMention(n, i, None) + Spill(n, i, p) == Spill(n, i, p);
  }

  // ... and so is a table row, with the root page that a schema row names.
  lemma RowReads(n: nat, i: nat, schemaTree: bool, b: Bytes, at: nat, row: Cell)
    requires |b| == PAGE && at <= PAGE && row.Row? && CellOk(schemaTree, row) && CellAt(b, at, row)
    ensures PayloadParse(n, i, 13, schemaTree, b, at) == Parse(RootMention(n, i, row.root) + Spill(n, i, row.record), true)
  {
    hide Varint, VarintAt, Local, SchemaRoot, OverflowMention, Spill, PayloadBytes, PayloadOk, Occurs, FourBytes, NamesRoot, RootMention;
    var p := row.record;
    SplitShape(TableLeaf, p);
    var j: nat :| VarintAt(b, at, p.size, j) && RestAt(b, at + j, row.rowid, p);
    var k: nat :| VarintAt(b, at + j, row.rowid, k) && Occurs(b, at + j + k, PayloadBytes(p));
    VarintReads(b, at, p.size, j);
    Inside(b, at, p.size, j);
    VarintReads(b, at + j, row.rowid, k);
    var start := at + j + k;
    PayloadPlaces(b, start, p);
    SpillReads(n, i, b, p, start + |p.local|);
    if schemaTree {
      SchemaRootExactly(p.local, row.root);
    }
  }

  lemma Inside(b: Bytes, at: nat, v: nat, k: nat)
    requires VarintAt(b, at, v, k)
    ensures at + k <= |b|
  {
  }

  lemma ChildReads(b: Bytes, at: nat, child: nat)
    requires FourBytes(child) && Occurs(b, at, Four(child))
    ensures at + 4 <= |b| && BigEndian(b[at..at + 4]) == child
  {
    hide BigEndian, Occurs, FourBytes;
    FourReads(b, at, child);
  }

  // Each cell mentions just what it was written with.
  lemma CellReads(n: nat, schemaTree: bool, b: Bytes, page: Page, at: seq<nat>, i: nat)
    requires PageOk(schemaTree, page) && Holds(b, n, page, at) && i < |page.cells|
    ensures CellParse(n, Code(page.kind) as nat, schemaTree, b, PointersAt(n, page), |page.cells|, i)
         == Parse(CellMentions(n, schemaTree, i, page.cells[i]), true)
  {
    hide PayloadParse, Varint, VarintAt, EntryAt, BigEndian, Occurs, PayloadOk, Two, Four, FourBytes, Spill, NamesRoot, HoldsHeader;
    var cell := page.cells[i];
    assert HoldsCell(b, n, page, i, at[i]);
    TwoReads(b, PointersAt(n, page) + 2 * i, at[i]);
    match cell
    case Key(child, entry) =>
      ChildReads(b, at[i], child);
      EntryReads(n, i, IndexInterior, schemaTree, b, at[i] + 4, entry);
    case Separator(child, rowid) =>
      ChildReads(b, at[i], child);
      var k: nat :| VarintAt(b, at[i] + 4, rowid, k);
      VarintReads(b, at[i] + 4, rowid, k);
    case IndexEntry(entry) =>
      EntryReads(n, i, Kind.IndexLeaf, schemaTree, b, at[i], entry);
    case Row(rowid, record, root) =>
      RowReads(n, i, schemaTree, b, at[i], cell);
      assert RootMention(n, i, root) + Spill(n, i, record) == CellMentions(n, schemaTree, i, cell);
  }

  lemma {:induction false} CellsRead(n: nat, schemaTree: bool, b: Bytes, page: Page, at: seq<nat>, k: nat)
    requires PageOk(schemaTree, page) && Holds(b, n, page, at) && k <= |page.cells|
    ensures CellsParse(n, Code(page.kind) as nat, schemaTree, b, PointersAt(n, page), |page.cells|, k)
         == Parse(CellsMentions(n, schemaTree, page.cells, k), true)
  {
    hide CellParse, CellMentions, PageOk, HoldsHeader, HoldsCell, PointersAt;
    if k > 0 {
      CellsRead(n, schemaTree, b, page, at, k - 1);
      CellReads(n, schemaTree, b, page, at, k - 1);
    }
  }

  lemma HeaderReads(b: Bytes, n: nat, page: Page)
    requires |b| == PAGE && HoldsHeader(b, n, page) && |page.cells| < 0x1_0000 && FourBytes(page.right)
    ensures b[Front(n)] == Code(page.kind) && CellCount(b, Front(n)) == |page.cells|
    ensures HasChildren(page.kind) ==> BigEndian(b[Front(n) + 8..Front(n) + 12]) == page.right
    ensures n == 1 ==> Geometry(b)
  {
    OneByte(b, Front(n), Code(page.kind));
    hide BigEndian, Two, Four, Code;
    TwoReads(b, Front(n) + 3, |page.cells|);
    if HasChildren(page.kind) {
      FourReads(b, Front(n) + 8, page.right);
    }
  }

  // What a page's bytes say it mentions is what it was written with, in order, flawless.
  lemma PageReads(n: nat, schemaTree: bool, b: Bytes, page: Page, at: seq<nat>)
    requires PageOk(schemaTree, page) && Holds(b, n, page, at)
    ensures BtreeParse(n, schemaTree, b) == Parse(Mentions(n, schemaTree, page), true)
  {
    hide CellsParse, CellsMentions, CellOk, HoldsHeader, HoldsCell, BigEndian, CellCount, Geometry;
    HeaderReads(b, n, page);
    CellsRead(n, schemaTree, b, page, at, |page.cells|);
  }

  // ----- Registering -------------------------------------------------------------------------------------

  // The pages that these mentions would give their first role.
  function Fresh(reg: Registry, refs: seq<Ref>): set<nat> {
    set i | 0 <= i < |refs| && refs[i].page !in reg.roles :: refs[i].page
  }

  // The page is in the image and has no other role.
  predicate Possible(limits: Limits, reg: Registry, r: Ref) {
    1 <= r.page <= limits.pages && (r.page in reg.roles ==> reg.roles[r.page] == r.role)
  }

  // These mentions give no page two roles.
  ghost predicate Agree(refs: seq<Ref>) {
    forall r, q :: r in refs && q in refs && r.page == q.page ==> r.role == q.role
  }

  // Each mentioned page can have its role, none is given two, and there is room for the new ones.
  ghost predicate Admissible(limits: Limits, reg: Registry, refs: seq<Ref>) {
    && (forall r :: r in refs ==> Possible(limits, reg, r)) && Agree(refs)
    && (Fresh(reg, refs) == {} || |reg.roles| + |Fresh(reg, refs)| <= limits.maxRoles)
  }

  // The roles afterwards are the old ones and those of the mentions.
  ghost predicate Registered(reg: Registry, refs: seq<Ref>, after: Registry) {
    && after.roles.Keys == reg.roles.Keys + Fresh(reg, refs)
    && (forall n :: n in reg.roles ==> after.roles[n] == reg.roles[n])
    && (forall r :: r in refs ==> r.page in after.roles && after.roles[r.page] == r.role)
  }

  lemma FreshMore(reg: Registry, refs: seq<Ref>)
    requires refs != []
    ensures var shorter, last := refs[..|refs| - 1], refs[|refs| - 1];
      Fresh(reg, refs) == Fresh(reg, shorter) + if last.page in reg.roles then {} else {last.page}
  {
    var shorter, last := refs[..|refs| - 1], refs[|refs| - 1];
    assert refs == shorter + [last];
    assert forall i :: 0 <= i < |shorter| ==> refs[i] == shorter[i];
    assert refs[|shorter|] == last;
  }

  lemma RolesGrow(reg: Registry, refs: seq<Ref>, after: Registry)
    requires Registered(reg, refs, after)
    ensures |after.roles| == |reg.roles| + |Fresh(reg, refs)|
  {
    assert |after.roles| == |after.roles.Keys| && |reg.roles| == |reg.roles.Keys|;
    assert reg.roles.Keys * Fresh(reg, refs) == {};
  }

  // Mentions are all admitted exactly when they are admissible together.
  lemma {:induction false} AdmittedExactly(limits: Limits, reg: Registry, refs: seq<Ref>)
    ensures AddRoles(limits, reg, refs).1 <==> Admissible(limits, reg, refs)
    ensures AddRoles(limits, reg, refs).1 ==> Registered(reg, refs, AddRoles(limits, reg, refs).0)
  {
    hide AddRole, Admits, Fresh, Registered, Admissible;
    if refs == [] {
      NoneAdmissible(limits, reg);
    } else {
      var shorter, last := refs[..|refs| - 1], refs[|refs| - 1];
      AdmittedExactly(limits, reg, shorter);
      assert refs == shorter + [last];
      var before := AddRoles(limits, reg, shorter).0;
      FewerAdmissible(limits, reg, shorter, last);
      if Admissible(limits, reg, shorter) {
        OneMore(limits, reg, shorter, last, before);
      }
    }
  }

  lemma NoneAdmissible(limits: Limits, reg: Registry)
    ensures Admissible(limits, reg, []) && Registered(reg, [], reg)
  {
  }

  lemma FewerAdmissible(limits: Limits, reg: Registry, refs: seq<Ref>, last: Ref)
    ensures Admissible(limits, reg, refs + [last]) ==> Admissible(limits, reg, refs)
  {
    hide Fresh, Agree;
    var more := refs + [last];
    assert more[..|more| - 1] == refs;
    FreshMore(reg, more);
    AgreeMore(refs, last);
    PossibleMore(limits, reg, refs, last);
    if last.page in Fresh(reg, refs) {
      assert Fresh(reg, refs) + {last.page} == Fresh(reg, refs);
    }
  }

  lemma AgreeMore(refs: seq<Ref>, last: Ref)
    ensures Agree(refs + [last]) <==> Agree(refs) && forall r :: r in refs && r.page == last.page ==> r.role == last.role
  {
    InMore(refs, last);
    if Agree(refs + [last]) {
      assert last in refs + [last];
    }
  }

  lemma PossibleMore(limits: Limits, reg: Registry, refs: seq<Ref>, last: Ref)
    ensures (forall r :: r in refs + [last] ==> Possible(limits, reg, r)) <==>
            (forall r :: r in refs ==> Possible(limits, reg, r)) && Possible(limits, reg, last)
  {
    InMore(refs, last);
    hide Possible;
  }

  // One mention more than those registered so far: of a page that has its role already, ...
  lemma OneKnown(limits: Limits, reg: Registry, refs: seq<Ref>, last: Ref, before: Registry)
    requires Admissible(limits, reg, refs) && Registered(reg, refs, before) && last.page in before.roles
    ensures Admits(limits, before, last) <==> Admissible(limits, reg, refs + [last])
    ensures Admits(limits, before, last) ==> Registered(reg, refs + [last], before)
  {
    hide Fresh, Agree;
    var more := refs + [last];
    FreshMore(reg, more);
    FreshIsMentioned(reg, refs, last.page);
    AgreeMore(refs, last);
    PossibleMore(limits, reg, refs, last);
    assert more[..|more| - 1] == refs;
    assert Fresh(reg, more) == Fresh(reg, refs);
    InMore(refs, last);
  }

  // ... and of another.
  lemma OneNew(limits: Limits, reg: Registry, refs: seq<Ref>, last: Ref, before: Registry)
    requires Admissible(limits, reg, refs) && Registered(reg, refs, before) && last.page !in before.roles
    ensures Admits(limits, before, last) <==> Admissible(limits, reg, refs + [last])
  {
    hide Fresh, Agree, Registered;
    NewIsFresh(reg, refs, last, before);
    RolesGrow(reg, refs, before);
    AgreeMore(refs, last);
    PossibleMore(limits, reg, refs, last);
  }

  lemma NewIsFresh(reg: Registry, refs: seq<Ref>, last: Ref, before: Registry)
    requires Registered(reg, refs, before) && last.page !in before.roles
    ensures last.page !in reg.roles && last.page !in Fresh(reg, refs)
    ensures Fresh(reg, refs + [last]) == Fresh(reg, refs) + {last.page}
    ensures forall r :: r in refs ==> r.page != last.page
  {
    hide Fresh;
    var more := refs + [last];
    assert more[..|more| - 1] == refs;
    FreshMore(reg, more);
  }

  lemma NewRegistered(reg: Registry, refs: seq<Ref>, last: Ref, before: Registry)
    requires Registered(reg, refs, before) && last.page !in before.roles
    ensures Registered(reg, refs + [last], Registry(before.roles[last.page := last.role], before.order + [last.page]))
  {
    hide Fresh;
    NewIsFresh(reg, refs, last, before);
    InMore(refs, last);
  }

  lemma InMore(refs: seq<Ref>, last: Ref)
    ensures forall r :: r in refs + [last] <==> r in refs || r == last
  {
  }

  lemma OneMore(limits: Limits, reg: Registry, refs: seq<Ref>, last: Ref, before: Registry)
    requires Admissible(limits, reg, refs) && Registered(reg, refs, before)
    ensures Admits(limits, before, last) <==> Admissible(limits, reg, refs + [last])
    ensures Admits(limits, before, last) ==> Registered(reg, refs + [last], AddRole(limits, before, last))
  {
    hide Admissible, Registered, Admits;
    if last.page in before.roles {
      OneKnown(limits, reg, refs, last, before);
    } else {
      OneNew(limits, reg, refs, last, before);
      NewRegistered(reg, refs, last, before);
    }
  }

  lemma FreshIsMentioned(reg: Registry, refs: seq<Ref>, n: nat)
    ensures n in Fresh(reg, refs) <==> n !in reg.roles && exists r :: r in refs && r.page == n
  {
    if exists r :: r in refs && r.page == n {
      var r :| r in refs && r.page == n;
      var i :| 0 <= i < |refs| && refs[i] == r;
    }
  }

  // A page as written is accepted exactly when its mentions are admissible, and then just
  // these are registered.
  lemma WrittenPagesPass(limits: Limits, reg: Registry, n: nat, b: Bytes, page: Page, at: seq<nat>)
    requires 1 <= n <= limits.pages && n in reg.roles && reg.roles[n].Btree?
    requires PageOk(reg.roles[n].schemaTree, page) && Holds(b, n, page, at)
    ensures var mentions := Mentions(n, reg.roles[n].schemaTree, page); var (after, ok) := Visit(limits, reg, n, b);
      && (ok <==> Admissible(limits, reg, mentions))
      && (ok ==> Registered(reg, mentions, after))
  {
    hide BtreeParse, AddRoles, Admissible, Registered, Mentions, PageOk, HoldsHeader, HoldsCell;
    PageReads(n, reg.roles[n].schemaTree, b, page, at);
    AdmittedExactly(limits, reg, Mentions(n, reg.roles[n].schemaTree, page));
  }

  // ----- Nothing else passes ---------------------------------------------------------------------------

  lemma TwoFound(b: Bytes, at: nat)
    requires at + 2 <= |b|
    ensures BigEndian(b[at..at + 2]) < 0x1_0000 && Occurs(b, at, Two(BigEndian(b[at..at + 2])))
  {
    assert Pow(256, 2) == 0x1_0000;
    ToBigEndianInverse(b[at..at + 2]);
    hide BigEndian, ToBigEndian, Pow;
  }

  lemma FourFound(b: Bytes, at: nat)
    requires at + 4 <= |b|
    ensures FourBytes(BigEndian(b[at..at + 4])) && Occurs(b, at, Four(BigEndian(b[at..at + 4])))
  {
    assert Pow(256, 4) == 0x1_0000_0000 by {
      assert Pow(256, 2) == 0x1_0000;
      assert Pow(256, 3) == 256 * Pow(256, 2);
    }
    ToBigEndianInverse(b[at..at + 4]);
    hide BigEndian, ToBigEndian, Pow;
  }

  // The payload whose local part starts here, with the pointer behind it.
  function PayloadHere(b: Bytes, start: nat, size: nat, local: nat): Payload
    requires start + local <= |b|
  {
    var end := start + local;
    Payload(size, b[start..end], if size > local && end + 4 <= |b| then BigEndian(b[end..end + 4]) else 0)
  }

  lemma PayloadFound(b: Bytes, start: nat, size: nat, kind: Kind)
    requires |b| == PAGE && size <= U64_MAX && start + Local(size, Code(kind) as nat) <= PAGE
    requires size > Local(size, Code(kind) as nat) ==> start + Local(size, Code(kind) as nat) + 4 <= PAGE
    ensures var p := PayloadHere(b, start, size, Local(size, Code(kind) as nat));
      p.size == size && PayloadOk(kind, p) && Occurs(b, start, PayloadBytes(p))
  {
    hide Local, Splits, Four, FourBytes, BigEndian;
    var local := Local(size, Code(kind) as nat);
    var p := PayloadHere(b, start, size, local);
    LocalSplit(size, Code(kind) as nat, local);
    ZeroFits();
    if size > local {
      FourFound(b, start + local);
      OccursBoth(b, start, p.local, Four(p.overflow));
    }
  }

  lemma ZeroFits()
    ensures FourBytes(0)
  {
  }

  lemma EntryFound(n: nat, i: nat, kind: Kind, schemaTree: bool, b: Bytes, at: nat) returns (p: Payload)
    requires |b| == PAGE && at <= PAGE && !kind.TableLeaf? && PayloadParse(n, i, Code(kind) as nat, schemaTree, b, at).ok
    ensures PayloadOk(kind, p) && EntryAt(b, at, p)
  {
    hide Varint, VarintAt, Local, SchemaRoot, Occurs, PayloadOk, PayloadBytes, BigEndian, RootMention;
    var (size, j) := Varint(b[at..]).value;
    VarintReads(b, at, size, j);
    VarintShape(b[at..]);
    PayloadFound(b, at + j, size, kind);
    p := PayloadHere(b, at + j, size, Local(size, Code(kind) as nat));
  }

  lemma RowFound(n: nat, i: nat, schemaTree: bool, b: Bytes, at: nat) returns (row: Cell)
    requires |b| == PAGE && at <= PAGE && PayloadParse(n, i, 13, schemaTree, b, at).ok
    ensures row.Row? && CellOk(schemaTree, row) && CellAt(b, at, row)
  {
    hide Varint, VarintAt, Local, SchemaRoot, Occurs, PayloadOk, PayloadBytes, BigEndian, RootMention, NamesRoot;
    var (size, j) := Varint(b[at..]).value;
    VarintReads(b, at, size, j);
    VarintShape(b[at..]);
    var (rowid, k) := Varint(b[at + j..]).value;
    VarintReads(b, at + j, rowid, k);
    VarintShape(b[at + j..]);
    var start := at + j + k;
    PayloadFound(b, start, size, TableLeaf);
    var p := PayloadHere(b, start, size, Local(size, 13));
    var root := if schemaTree then SchemaRoot(p.local).value else None;
    if schemaTree {
      SchemaRootExactly(p.local, root);
    }
    row := Row(rowid, p, root);
    assert RestAt(b, at + j, rowid, p);
  }

  // A flawless cell holds some cell of its page's kind.
  lemma CellFound(n: nat, schemaTree: bool, b: Bytes, kind: Kind, start: nat, cells: nat, i: nat) returns (cell: Cell, at: nat)
    requires |b| == PAGE && start + cells * 2 <= PAGE && i < cells
    requires CellParse(n, Code(kind) as nat, schemaTree, b, start, cells, i).ok
    ensures KindOf(cell) == kind && CellOk(schemaTree, cell) && start + 2 * cells <= at < PAGE
    ensures Occurs(b, start + 2 * i, Two(at)) && CellAt(b, at, cell)
  {
    hide PayloadParse, Varint, VarintAt, EntryAt, RowAt, BigEndian, Occurs, PayloadOk, Two, Four, FourBytes, NamesRoot;
    at := BigEndian(b[start + i * 2..start + i * 2 + 2]);
    TwoFound(b, start + 2 * i);
    if HasChildren(kind) {
      FourFound(b, at);
    }
    match kind
    case IndexInterior =>
      var p := EntryFound(n, i, kind, schemaTree, b, at + 4);
      cell := Key(BigEndian(b[at..at + 4]), p);
    case TableInterior =>
      var (rowid, k) := Varint(b[at + 4..]).value;
      VarintReads(b, at + 4, rowid, k);
      cell := Separator(BigEndian(b[at..at + 4]), rowid);
    case IndexLeaf =>
      var p := EntryFound(n, i, kind, schemaTree, b, at);
      cell := IndexEntry(p);
    case TableLeaf =>
      cell := RowFound(n, i, schemaTree, b, at);
  }

  ghost predicate AllFound(schemaTree: bool, b: Bytes, kind: Kind, start: nat, cells: nat, found: seq<Cell>, at: seq<nat>) {
    && |at| == |found|
    && forall i :: 0 <= i < |found| ==> FoundAt(schemaTree, b, kind, start, cells, i, found[i], at[i])
  }

  ghost predicate FoundAt(schemaTree: bool, b: Bytes, kind: Kind, start: nat, cells: nat, i: nat, cell: Cell, at: nat) {
    && KindOf(cell) == kind && CellOk(schemaTree, cell) && start + 2 * cells <= at < PAGE
    && Occurs(b, start + 2 * i, Two(at)) && CellAt(b, at, cell)
  }

  lemma {:induction false} CellsFound(n: nat, schemaTree: bool, b: Bytes, kind: Kind, start: nat, cells: nat, k: nat)
    returns (found: seq<Cell>, at: seq<nat>)
    requires |b| == PAGE && start + cells * 2 <= PAGE && k <= cells
    requires CellsParse(n, Code(kind) as nat, schemaTree, b, start, cells, k).ok
    ensures |found| == k && AllFound(schemaTree, b, kind, start, cells, found, at)
  {
    hide CellParse, CellOk, CellAt, Occurs, Two, Code;
    found, at := [], [];
    if k > 0 {
      found, at := CellsFound(n, schemaTree, b, kind, start, cells, k - 1);
      var cell, place := CellFound(n, schemaTree, b, kind, start, cells, k - 1);
      found, at := found + [cell], at + [place];
    }
  }

  lemma HeaderFound(n: nat, b: Bytes, page: Page)
    requires |b| == PAGE && b[Front(n)] == Code(page.kind) && CellCount(b, Front(n)) == |page.cells|
    requires HasChildren(page.kind) ==> page.right == BigEndian(b[Front(n) + 8..Front(n) + 12])
    requires n == 1 ==> Geometry(b)
    ensures HoldsHeader(b, n, page) && |page.cells| < 0x1_0000 && (HasChildren(page.kind) ==> FourBytes(page.right))
  {
    hide BigEndian, Two, Four, Code, FourBytes;
    TwoFound(b, Front(n) + 3);
    FourFound(b, Front(n) + 8);
  }

  function KindWith(code: byte): Kind {
    if code == 2 then IndexInterior else if code == 5 then TableInterior else if code == 10 then Kind.IndexLeaf else TableLeaf
  }

  // Flawless bytes hold a page.
  lemma PageFound(n: nat, schemaTree: bool, b: Bytes) returns (page: Page, at: seq<nat>)
    requires |b| == PAGE && BtreeParse(n, schemaTree, b).ok
    ensures PageOk(schemaTree, page) && Holds(b, n, page, at)
  {
    hide CellsParse, CellOk, CellAt, Occurs, Two, BigEndian, CellCount, Geometry, HoldsHeader, FourBytes;
    var off := Front(n);
    var kind := KindWith(b[off]);
    var start := off + HeaderSize(kind);
    var found;
    found, at := CellsFound(n, schemaTree, b, kind, start, CellCount(b, off), CellCount(b, off));
    page := Page(kind, if HasChildren(kind) then BigEndian(b[off + 8..off + 12]) else 0, found);
    HeaderFound(n, b, page);
    ZeroFits();
    forall i | 0 <= i < |found|
      ensures HoldsCell(b, n, page, i, at[i]) && KindOf(found[i]) == kind && CellOk(schemaTree, found[i])
    {
      assert FoundAt(schemaTree, b, kind, start, CellCount(b, off), i, found[i], at[i]);
    }
  }

  // These bytes hold some b-tree page, with these mentions.
  ghost predicate HoldsSome(n: nat, schemaTree: bool, b: Bytes, mentions: seq<Ref>) {
    exists page, at :: HoldsOne(n, schemaTree, b, mentions, page, at)
  }

  ghost predicate HoldsOne(n: nat, schemaTree: bool, b: Bytes, mentions: seq<Ref>, page: Page, at: seq<nat>) {
    PageOk(schemaTree, page) && Holds(b, n, page, at) && mentions == Mentions(n, schemaTree, page)
  }

  // Flawless are exactly the bytes of b-tree pages, and what they mention is what the page does.
  lemma PagesExactly(n: nat, schemaTree: bool, b: Bytes, mentions: seq<Ref>)
    requires |b| == PAGE
    ensures BtreeParse(n, schemaTree, b) == Parse(mentions, true) <==> HoldsSome(n, schemaTree, b, mentions)
  {
    hide BtreeParse, PageOk, Holds, Mentions;
    if BtreeParse(n, schemaTree, b).ok {
      var page, at := PageFound(n, schemaTree, b);
      PageReads(n, schemaTree, b, page, at);
      assert HoldsOne(n, schemaTree, b, Mentions(n, schemaTree, page), page, at);
    }
    if HoldsSome(n, schemaTree, b, mentions) {
      var page, at :| HoldsOne(n, schemaTree, b, mentions, page, at);
      PageReads(n, schemaTree, b, page, at);
    }
  }

  // So a b-tree page is accepted exactly when it is one and its mentions are admissible.
  lemma PassesExactly(limits: Limits, reg: Registry, n: nat, b: Bytes)
    requires 1 <= n <= limits.pages && n in reg.roles && reg.roles[n].Btree? && |b| == PAGE
    ensures Visit(limits, reg, n, b).1 <==>
      exists mentions :: HoldsSome(n, reg.roles[n].schemaTree, b, mentions) && Admissible(limits, reg, mentions)
  {
    hide BtreeParse, AddRoles, Admissible, Registered, HoldsSome;
    var parse := BtreeParse(n, reg.roles[n].schemaTree, b);
    AdmittedExactly(limits, reg, parse.refs);
    PagesExactly(n, reg.roles[n].schemaTree, b, parse.refs);
    forall mentions | HoldsSome(n, reg.roles[n].schemaTree, b, mentions)
      ensures parse == Parse(mentions, true)
    {
      PagesExactly(n, reg.roles[n].schemaTree, b, mentions);
    }
  }

  // ----- A writer ------------------------------------------------------------------------------------------

  // A cell with its integers in their shortest form.
  function CellBytes(cell: Cell): Bytes {
    match cell
    case Key(child, entry) => Four(child) + (WriteVarint(entry.size) + PayloadBytes(entry))
    case Separator(child, rowid) => Four(child) + WriteVarint(rowid)
    case IndexEntry(entry) => WriteVarint(entry.size) + PayloadBytes(entry)
    case Row(rowid, record, _) => WriteVarint(record.size) + (WriteVarint(rowid) + PayloadBytes(record))
  }

  // The cells from the end of the page backwards.
  function Body(cells: seq<Cell>): Bytes {
    if cells == [] then [] else CellBytes(cells[|cells| - 1]) + Body(cells[..|cells| - 1])
  }

  // Where a cell starts, on a page that has room for it.
  function At(cells: seq<Cell>, i: nat): nat
    requires i < |cells|
  {
    var used := |Body(cells[..i + 1])|;
    if used <= PAGE then PAGE - used else 0
  }

  // The first 100 bytes of a database, as far as they are looked at.
  predicate DatabaseHeader(front: Bytes) {
    |front| == 100 && Occurs(front, 0, HEADER) && Occurs(front, 16, [16, 0]) && Occurs(front, 20, [0, 64, 32, 32])
  }

  // The page has room for these cells.
  predicate Room(n: nat, front: Bytes, page: Page) {
    && |front| == Front(n) && (n == 1 ==> DatabaseHeader(front))
    && PointersAt(n, page) + 2 * |page.cells| + |Body(page.cells)| <= PAGE
  }

  function Zeros(n: nat): (b: Bytes)
    ensures |b| == n
  {
    seq(n, i => 0)
  }

  // Kind, no free block, cell count, start of the cells, no fragments, last page below.
  function HeaderBytes(page: Page): (b: Bytes)
    requires |Body(page.cells)| <= PAGE
    ensures |b| == HeaderSize(page.kind)
  {
    [Code(page.kind)] + [0, 0] + Two(|page.cells|) + Two(PAGE - |Body(page.cells)|) + [0]
    + if HasChildren(page.kind) then Four(page.right) else []
  }

  // The pointers of the first `k` cells.
  function Pointers(cells: seq<Cell>, k: nat): (b: Bytes)
    requires k <= |cells|
    ensures |b| == 2 * k
  {
    if k == 0 then [] else Pointers(cells, k - 1) + Two(At(cells, k - 1))
  }

  lemma {:induction false} BodyShrinks(cells: seq<Cell>, i: nat)
    requires i < |cells|
    ensures |Body(cells[..i + 1])| <= |Body(cells)|
    decreases |cells|
  {
    hide CellBytes;
    if i + 1 < |cells| {
      var shorter := cells[..|cells| - 1];
      assert shorter[..i + 1] == cells[..i + 1];
      BodyShrinks(shorter, i);
    } else {
      assert cells[..i + 1] == cells;
    }
  }

  function WriteBtree(n: nat, front: Bytes, page: Page): (b: Bytes)
    requires Room(n, front, page)
    ensures |b| == PAGE
  {
    var gap := PAGE - PointersAt(n, page) - 2 * |page.cells| - |Body(page.cells)|;
    front + HeaderBytes(page) + Pointers(page.cells, |page.cells|) + Zeros(gap) + Body(page.cells)
  }

  lemma Before(x: Bytes, y: Bytes, at: nat, part: Bytes)
    requires Occurs(x, at, part)
    ensures Occurs(x + y, at, part)
  {
    assert (x + y)[at..at + |part|] == x[at..at + |part|];
  }

  lemma Behind(x: Bytes, y: Bytes, at: nat, part: Bytes)
    requires Occurs(y, at, part)
    ensures Occurs(x + y, |x| + at, part)
  {
    assert (x + y)[|x| + at..|x| + at + |part|] == y[at..at + |part|];
  }

  lemma {:induction false} PointersHold(cells: seq<Cell>, k: nat, i: nat)
    requires i < k <= |cells|
    ensures Occurs(Pointers(cells, k), 2 * i, Two(At(cells, i)))
    decreases k
  {
    hide Occurs, Two, At;
    if i < k - 1 {
      PointersHold(cells, k - 1, i);
      Before(Pointers(cells, k - 1), Two(At(cells, k - 1)), 2 * i, Two(At(cells, i)));
    } else {
      Whole(Two(At(cells, i)));
      Behind(Pointers(cells, k - 1), Two(At(cells, i)), 0, Two(At(cells, i)));
    }
  }

  lemma Whole(b: Bytes)
    ensures Occurs(b, 0, b)
  {
  }

  lemma {:induction false} BodyHolds(cells: seq<Cell>, i: nat)
    requires i < |cells|
    ensures |Body(cells[..i + 1])| <= |Body(cells)|
    ensures Occurs(Body(cells), |Body(cells)| - |Body(cells[..i + 1])|, CellBytes(cells[i]))
    decreases |cells|
  {
    hide CellBytes, Occurs;
    var shorter, last := cells[..|cells| - 1], cells[|cells| - 1];
    if i + 1 < |cells| {
      assert shorter[..i + 1] == cells[..i + 1];
      BodyHolds(shorter, i);
      Behind(CellBytes(last), Body(shorter), |Body(shorter)| - |Body(cells[..i + 1])|, CellBytes(cells[i]));
    } else {
      assert cells[..i + 1] == cells;
      Whole(CellBytes(last));
      Before(CellBytes(last), Body(shorter), 0, CellBytes(last));
    }
  }

  lemma ShortestAt(b: Bytes, at: nat, v: nat)
    requires v <= U64_MAX && Occurs(b, at, WriteVarint(v))
    ensures VarintAt(b, at, v, |WriteVarint(v)|)
  {
    ShortestIsVarint(v);
    hide WriteVarint, IsVarint;
  }

  // A cell in shortest form is that cell.
  lemma ShortestCell(schemaTree: bool, b: Bytes, at: nat, cell: Cell)
    requires CellOk(schemaTree, cell) && Occurs(b, at, CellBytes(cell))
    ensures CellAt(b, at, cell)
  {
    hide WriteVarint, VarintAt, PayloadBytes, Occurs, Four, FourBytes, Splits, NamesRoot;
    match cell
    case Key(child, entry) =>
      OccursBoth(b, at, Four(child), WriteVarint(entry.size) + PayloadBytes(entry));
      OccursBoth(b, at + 4, WriteVarint(entry.size), PayloadBytes(entry));
      ShortestAt(b, at + 4, entry.size);
    case Separator(child, rowid) =>
      OccursBoth(b, at, Four(child), WriteVarint(rowid));
      ShortestAt(b, at + 4, rowid);
    case IndexEntry(entry) =>
      OccursBoth(b, at, WriteVarint(entry.size), PayloadBytes(entry));
      ShortestAt(b, at, entry.size);
    case Row(rowid, record, _) =>
      OccursBoth(b, at, WriteVarint(record.size), WriteVarint(rowid) + PayloadBytes(record));
      OccursBoth(b, at + |WriteVarint(record.size)|, WriteVarint(rowid), PayloadBytes(record));
      ShortestAt(b, at, record.size);
      ShortestAt(b, at + |WriteVarint(record.size)|, rowid);
  }

  lemma CellNotEmpty(schemaTree: bool, cells: seq<Cell>, i: nat)
    requires i < |cells| && CellOk(schemaTree, cells[i])
    ensures |Body(cells[..i + 1])| > 0
  {
    assert cells[..i + 1][i] == cells[i];
    match cells[i]
    case Key(_, _) =>
    case Separator(_, _) =>
    case IndexEntry(entry) => Shortest(entry.size);
    case Row(_, record, _) => Shortest(record.size);
  }

  lemma CodeOccurs(page: Page)
    requires |Body(page.cells)| <= PAGE
    ensures Occurs(HeaderBytes(page), 0, [Code(page.kind)]) && Occurs(HeaderBytes(page), 3, Two(|page.cells|))
    ensures HasChildren(page.kind) ==> Occurs(HeaderBytes(page), 8, Four(page.right))
  {
    hide Two, Four, Code, Body;
    var tail := if HasChildren(page.kind) then Four(page.right) else [];
    var b := [Code(page.kind)] + [0, 0] + Two(|page.cells|) + Two(PAGE - |Body(page.cells)|) + [0] + tail;
    assert b[0..1] == [Code(page.kind)];
    assert b[3..5] == Two(|page.cells|);
    assert b[8..8 + |tail|] == tail;
  }

  lemma WrittenHeader(n: nat, front: Bytes, page: Page)
    requires Room(n, front, page)
    ensures HoldsHeader(WriteBtree(n, front, page), n, page)
  {
    hide HeaderBytes, Pointers, Zeros, Body, Two, Four, Code, Occurs, HEADER;
    var header := HeaderBytes(page);
    var pointers := Pointers(page.cells, |page.cells|);
    var gap := Zeros(PAGE - PointersAt(n, page) - 2 * |page.cells| - |Body(page.cells)|);
    var rest := pointers + (gap + Body(page.cells));
    assert WriteBtree(n, front, page) == front + (header + rest);
    CodeOccurs(page);
    Placed(front, header, rest, 0, [Code(page.kind)]);
    Placed(front, header, rest, 3, Two(|page.cells|));
    if HasChildren(page.kind) {
      Placed(front, header, rest, 8, Four(page.right));
    }
    if n == 1 {
      Before(front, header + rest, 0, HEADER);
      Before(front, header + rest, 16, [16, 0]);
      Before(front, header + rest, 20, [0, 64, 32, 32]);
    }
  }

  lemma Placed(x: Bytes, y: Bytes, z: Bytes, at: nat, part: Bytes)
    requires Occurs(y, at, part)
    ensures Occurs(x + (y + z), |x| + at, part)
  {
    hide Occurs;
    Before(y, z, at, part);
    Behind(x, y + z, at, part);
  }

  lemma WrittenCell(schemaTree: bool, n: nat, front: Bytes, page: Page, i: nat)
    requires Room(n, front, page) && i < |page.cells| && CellOk(schemaTree, page.cells[i])
    ensures HoldsCell(WriteBtree(n, front, page), n, page, i, At(page.cells, i))
  {
    hide HeaderBytes, Pointers, Zeros, Body, Two, Occurs, CellBytes, CellOk, CellAt, DatabaseHeader;
    var cells := page.cells;
    var header := front + HeaderBytes(page);
    var pointers := Pointers(cells, |cells|);
    var gap := Zeros(PAGE - PointersAt(n, page) - 2 * |cells| - |Body(cells)|);
    BodyHolds(cells, i);
    CellNotEmpty(schemaTree, cells, i);
    PointersHold(cells, |cells|, i);
    assert WriteBtree(n, front, page) == header + (pointers + (gap + Body(cells)));
    Placed(header, pointers, gap + Body(cells), 2 * i, Two(At(cells, i)));
    assert WriteBtree(n, front, page) == (header + pointers + gap) + Body(cells);
    Behind(header + pointers + gap, Body(cells), |Body(cells)| - |Body(cells[..i + 1])|, CellBytes(cells[i]));
    ShortestCell(schemaTree, WriteBtree(n, front, page), At(cells, i), cells[i]);
  }

  // What is written holds the page.
  lemma WrittenHolds(schemaTree: bool, n: nat, front: Bytes, page: Page)
    requires Room(n, front, page) && PageOk(schemaTree, page)
    ensures Holds(WriteBtree(n, front, page), n, page, seq(|page.cells|, i requires 0 <= i < |page.cells| => At(page.cells, i)))
  {
    hide WriteBtree, HoldsHeader, HoldsCell, CellOk, Body, At, DatabaseHeader;
    WrittenHeader(n, front, page);
    forall i | 0 <= i < |page.cells|
      ensures HoldsCell(WriteBtree(n, front, page), n, page, i, At(page.cells, i))
    {
      WrittenCell(schemaTree, n, front, page, i);
    }
  }

  // Whatever page is written, the check finds on it just the pages it mentions.
  lemma WriteReads(n: nat, schemaTree: bool, front: Bytes, page: Page)
    requires Room(n, front, page) && PageOk(schemaTree, page)
    ensures BtreeParse(n, schemaTree, WriteBtree(n, front, page)) == Parse(Mentions(n, schemaTree, page), true)
  {
    hide WriteBtree, Room, PageOk, Holds, BtreeParse, Mentions;
    WrittenHolds(schemaTree, n, front, page);
    PageReads(n, schemaTree, WriteBtree(n, front, page), page, seq(|page.cells|, i requires 0 <= i < |page.cells| => At(page.cells, i)));
  }
}
